# Verification of the Thruk MCP server's algorithms

A Dafny project that models what this server computes between a client and Thruk, and proves what it
promises. Thruk itself is a parameter: a list of rows and the meaning of its operators. Concretely:

- **Filters.** A nested AND/OR tree (`FilterTree.dfy`) is compiled to a dictionary of parameters, a `q=`
  text or both (`FilterCompiler.dfy`, what Thruk selects with them in `ThrukQuery.dfy`); `QExpression.dfy`
  prints and reads the text. `LeafMeaning.dfy`, `ParamDictionary.dfy` and `FilterMeaning.dfy` prove when the
  meaning survives: leaf by leaf, through overwritten keys, and for whole trees. `Coherence.dfy`,
  `Problems.dfy`, `ProblemMeaning.dfy`, `LogFilter.dfy`, `LogColumns.dfy`, `Pruning.dfy`, `Totals.dfy`,
  `AlertType.dfy` and `AlertQuery.dfy` are what the tools do with filters: one tree for two endpoints, two
  dictionaries, what they mean and a re-check of the rows, a host lookup for log tables that lack the columns, a field
  taken out, the stripped and the rewritten filter side by side, an alert type narrowed and the query that goes with
  it. `StateNames.dfy` has the names of states and their numbers, from the tables to the compiled query,
  `WireNames.dfy` how parameters are written.
- **Triage.** Root-cause attribution over a parent graph that may have loops (`RootCause.dfy`) and the
  sliding-window search for concurrent failures (`Bursts.dfy`).
- **Log reducers.** Incidents and MTTR/MTBF (`Reliability.dfy`), replay to an instant (`StateReplay.dfy`)
  and the difference of two instants (`StateDiff.dfy`), merged and regrouped alert counts
  (`Aggregation.dfy`), the two-phase flap search (`FlapSummary.dfy`).
- **The rest.** Performance data (`Numbers.dfy`, `Perfdata.dfy`, the "Performance data" and "Threshold and ranges" sections
  of the Nagios Plugin Development Guidelines), the two caches (`TtlCache.dfy`, `ClientCache.dfy`) and
  the configuration a request asks for (`TenantConfig.dfy`), the pagination loop (`Pagination.dfy`), group
  availability (`Availability.dfy`).
- `Basics.dfy`, `Texts.dfy`, `Order.dfy` and `TimeOrder.dfy` hold what these share; the stable insertion sort in
  `TimeOrder.dfy` stands for Python's `sort` by time.

Code that changes things step by step is a method or a class here, proved against a specification
function; the theorems are lemmas about those functions. `dafny verify dfyconfig.toml` checks everything.

How to read the filter theorems: `Holds` is what a tree is meant to select, `Selects` what the compiled
query does. A leaf is *faithful* when its compiled form means what the leaf means; the leaves that are not
are described by lemmas of their own. `Thruk` supplies regular expressions, text comparison, time parsing
and what becomes of arguments that fit no column, all arbitrary.

Where the code and what is said about it differ, the model follows the code:

- A parameter dictionary keeps one value per key, so leaves joined by AND can be lost
  (`ExactIfAndOnlyIfNoClash`, `TwoGroupsLoseOne`, `LookupGroupLost`); a host lookup replaces a host pattern
  or a list of hosts (`HostPatternIsLostExactly`, `HostPatternLost`, `HostListLost`).
- The `q=` root is said never to be wrapped in parentheses; a root with one condition can be
  (`RootIsWrappedExactly`, `GroupOfOneIsWrapped`).
- Custom-variable leaves and time bounds ignore their operator (`OperatorIsIgnored`), and a variable without
  `val` is compared with the empty text.
- A root is said to have no DOWN host above it; on a loop it has (`RootHasNoDownAboveExactly`).
- `state_changed` is said to be a move between two problems; it is also the first sighting of an OK object
  (`CategoriesExactly`).
- A proximity of 0 is said to mean "already breached"; it is also a value on the edge (`ZeroProximityExactly`).
- `host_name[regex]` lists are unanchored for `in` and anchored for looked-up hosts; both are modelled so.
- The worst object of a group is found by comparing with a rounded percentage (`ReportedExactly`,
  `WorstAmongEquals`).
- Service states listed with `in` are given as an example for alerts; compiled for the logs they become text in
  which service states are not known, and every alert asked for is lost (`ListingLosesEveryAlert`).
- `thruk_problems` lists current problems; a state in the filter can replace that condition
  (`OnlyProblemsExactly`, `UpIsListed`).
- `servicegroup` is said to have no meaning for hosts; taking it out from under an OR can still lose hosts
  (`CountedWithHostExactly`, `GroupsUnderOrPart`).

## Model

| member | source | states |
|---|---|---|
| `FilterTree.ValidIsWellFormed` | src/thruk_mcp/filters.py:190-284 | A tree that passes validation has the shapes the compiler indexes into: a dict behind every custom variable, a non-empty list behind every `in`, a scalar elsewhere, no empty group |
| `FilterTree.ValidExactly` | src/thruk_mcp/filters.py:190-284 | Validation accepts a tree if and only if it has at most four levels below the root, every leaf anywhere in it is valid and no group is empty |
| `FilterTree.LeafAcceptedExactly` | src/thruk_mcp/filters.py:225-284 | Field by field, the operators and values a leaf is accepted with |
| `FilterTree.ExpandKeepsMeaning` | src/thruk_mcp/filters.py:786-817 | Rewriting `in` on group and state fields into an OR of `eq` selects the same rows, and no such `in` is left |
| `FilterTree.LowerExactly` | src/thruk_mcp/filters.py:321-321 | Lower-casing gives a name exactly when the text spells the name in any mixture of cases |
| `FilterTree.UpperExactly` | src/thruk_mcp/filters.py:313-313 | Upper-casing turns small letters into the capitals at the same place of the alphabet and changes nothing else |
| `StateNames.HostNumber` | src/thruk_mcp/constants.py:14-26 | The host states and their numbers: `up` 0, `down` 1, `unreachable` 2, in any case, and the digits |
| `StateNames.ServiceNumber` | src/thruk_mcp/constants.py:36-45 | The service states and their numbers: `ok` 0, `warning` 1, `critical` 2, `unknown` 3, in any case, and the digits |
| `StateNames.NamedStateAsParameter` | src/thruk_mcp/filters.py:316-342 | The parameter of a named state selects the states equal to, not equal to, at least or at most its number: names of services on every endpoint, names of hosts on all but services |
| `StateNames.NamedStateAsText` | src/thruk_mcp/filters.py:436-444 | The text of a named state does so for the names of its own endpoint: of services on services, of hosts elsewhere |
| `StateNames.ListedState` | src/thruk_mcp/filters.py:786-817 | A state listed with `in` is compiled as an OR of one equality |
| `StateNames.DigitsAsState` | src/thruk_mcp/filters.py:326-326 | A state in digits is that number on either route |
| `StateNames.OtherTextIsHandedOn` | src/thruk_mcp/filters.py:316-342 | Any other text is left to Thruk: names of hosts on services, in the text names of services anywhere else, and what is no name |
| `StateNames.KindOfName` | src/thruk_mcp/filters.py:553-558 | A name narrows the type of alert exactly when it is a name of one kind of object alone |
| `QExpression.PrintIsUnambiguous` | src/thruk_mcp/filters.py:477-492 | A parser of atoms, `and`, `or` and parentheses, with either operator binding tighter, reads every printed text back completely, as the tree it came from with groups of one collapsed |
| `QExpression.CollapseMeans` | src/thruk_mcp/filters.py:477-492 | Collapsing groups of one does not change what an expression means |
| `QExpression.PrintKeepsMeaning` | src/thruk_mcp/filters.py:477-492 | So a printed text means what the tree means, whichever precedence its reader uses |
| `QExpression.RootOfTwoIsNotWrapped` | src/thruk_mcp/filters.py:481-483 | A printed root of two or more conditions is never enclosed in one outer pair of parentheses |
| `QExpression.NestedIsWrappedExactly` | src/thruk_mcp/filters.py:484-492 | Nested text is wrapped exactly when it boils down to anything but one plain leaf; an `in` list, even of one item, is printed in parentheses of its own |
| `QExpression.RootIsWrappedExactly` | src/thruk_mcp/filters.py:480-492 | The promise that the root is never wrapped fails exactly for a root without two conditions of its own that boils down to anything but one plain leaf; the parentheses that belong to a leaf's own text are part of its token and do not count |
| `FilterCompiler.AndTreeToParams` | src/thruk_mcp/filters.py:398-405 | The recursive dictionary updates, against the specification `AndParams` |
| `ParamDictionary.AndParamsAddLeaves` | src/thruk_mcp/filters.py:398-405 | Nested dictionaries make no difference: the result is the leaves of the tree added one by one, later ones replacing earlier ones of the same key |
| `FilterCompiler.CompileHybrid` | src/thruk_mcp/filters.py:737-773 | Children without OR go to parameters, the others into one `q=` text, in order, against `HybridOf` |
| `FilterCompiler.CompileFilter` | src/thruk_mcp/filters.py:859-892 | The routing between parameters, text and hybrid, against `Compile` |
| `LeafMeaning.BracketLeafExact` | src/thruk_mcp/filters.py:306-395 | A faithful leaf becomes a parameter that selects exactly the leaf's rows |
| `LeafMeaning.FaithfulExactly` | src/thruk_mcp/filters.py:306-395 | A leaf's parameter means what the leaf means, on every data set and whatever Thruk makes of texts, if and only if the leaf is faithful |
| `LeafMeaning.TextLeafExact` | src/thruk_mcp/filters.py:425-474 | A faithful leaf becomes `q=` atoms that select exactly the leaf's rows, `in` lists included |
| `LeafMeaning.TextFaithfulExactly` | src/thruk_mcp/filters.py:425-474 | A leaf's `q=` text means what the leaf means, on every data set and whatever Thruk makes of texts, if and only if the leaf is faithful as text or is a state regex without a code, which goes to Thruk as it is on both sides |
| `ParamDictionary.ParamsAreSurvivors` | src/thruk_mcp/filters.py:398-405 | The dictionary holds on a row exactly when every leaf not overwritten by a later one of the same key does |
| `FilterMeaning.RoutesCoverTree` | src/thruk_mcp/filters.py:737-773 | A tree is the conjunction of the leaves that become parameters and the tree that becomes text, on all three routes |
| `FilterMeaning.NoRowLost` | src/thruk_mcp/filters.py:859-892 | Whatever the route, precedence and clashing keys, a row the tree selects is selected by the compiled query |
| `FilterMeaning.SelectsSurvivors` | src/thruk_mcp/filters.py:859-892 | Exactly what is selected, clashes or not: the rows that meet the text and every parameter leaf not overwritten |
| `FilterMeaning.CompileKeepsMeaning` | src/thruk_mcp/filters.py:859-892 | When no two parameter leaves ask one key for different values, the compiled query selects exactly the tree's rows |
| `FilterMeaning.ExactIfAndOnlyIfNoClash` | src/thruk_mcp/filters.py:398-405 | For conjunctions of equalities (plain columns, groups, custom variables, states with a code), exactness on every data set holds if and only if no two leaves ask one key for different values |
| `FilterMeaning.CompileRaisesExactly` | src/thruk_mcp/filters.py:338-342 | A validated tree fails to compile if and only if a regular expression on `state` would become a parameter |
| `FilterMeaning.OperatorIsIgnored` | src/thruk_mcp/filters.py:312-368 | Whatever its operator, a custom variable or a time bound compiles to the condition it compiles to with `eq` |
| `FilterMeaning.TextInExactly` | src/thruk_mcp/filters.py:393-394 | `in` on a plain field adds exactly the rows whose text contains an item without being one |
| `FilterMeaning.ServiceNameInText` | src/thruk_mcp/filters.py:436-444 | Outside services a service state name is a number as a parameter and left as text in `q=` |
| `FilterMeaning.TextIsWrappedExactly` | src/thruk_mcp/filters.py:477-492 | When the text of a compiled filter is enclosed in outer parentheses, which Thruk rejects, beyond those a single leaf is printed with |
| `FilterMeaning.GroupOfOneIsWrapped` | src/thruk_mcp/filters.py:477-492 | A concrete tree, valid for hosts, whose text is enclosed: an OR of one AND of a name and an address |
| `FilterMeaning.TwoGroupsLoseOne` | src/thruk_mcp/filters.py:401-405 | A concrete clash: of two host groups joined by AND only the second is asked for |
| `WireNames.KeysAreWrittenApart` | src/thruk_mcp/filters.py:306-395 | Two parameter keys the compiler makes are written alike in the request only if they are the same key |
| `WireNames.ClashOnTheWire` | src/thruk_mcp/filters.py:398-405 | So leaves clash in the request exactly where they share a key in the model |
| `WireNames.VariableOnTheWire` | src/thruk_mcp/filters.py:312-316 | A custom variable is written `_` and its name in capitals, with `HOST` in front for one of the host's own |
| `Coherence.ServiceAgreesWithItsHost` | src/thruk_mcp/filters.py:820-856 | A service carrying its host's groups and variables is selected by the query compiled from the rewritten tree if and only if its host is by the query from the original, clashing keys and all |
| `Coherence.SurvivorsBothSides` | src/thruk_mcp/filters.py:820-856 | The same leaves are overwritten on both sides |
| `Coherence.RewriteKeepsRoutes` | src/thruk_mcp/filters.py:820-856 | The rewritten tree is split between parameters and text exactly as the original |
| `AlertType.Walk` | src/thruk_mcp/filters.py:603-629 | The growing set of state classes, against the specification `Classes` |
| `AlertType.InferAlertType` | src/thruk_mcp/filters.py:561-637 | The regex is chosen from the classes met, none for no filter |
| `AlertType.NarrowedExactly` | src/thruk_mcp/filters.py:572-579 | The type is narrowed to a kind exactly when some node reached through AND names a state of that kind and none contributes anything else |
| `AlertType.NarrowedIsTyped` | src/thruk_mcp/filters.py:564-590 | Of the tree alone: a filter whose type is narrowed means, row for row and kind for kind, what its nodes mean with each state name taken at its kind |
| `AlertQuery.NarrowedFetchesTyped` | src/thruk_mcp/tools/history.py:2089-2094 | Of the query: compiled for the logs and narrowed, it fetches exactly the rows the filter means at their kind, if the kind is HOST or no state reached through AND is listed with `in` |
| `AlertQuery.ListedServiceStateSelectsNothing` | src/thruk_mcp/filters.py:436-444 | Narrowed to SERVICE with a state listed, the query selects no row at all, where Thruk makes nothing of a service state's name |
| `AlertQuery.ServicesFetchedExactly` | src/thruk_mcp/tools/history.py:2089-2094 | Narrowed to SERVICE, the query is right on every data set if and only if no state is listed, or the filter means no row anyway |
| `AlertQuery.ListingLosesEveryAlert` | src/thruk_mcp/filters.py:996-1002 | A host with a list of service states: valid, narrowed to SERVICE, and every alert it means is lost |
| `AlertQuery.ListedAlertIsLost` | src/thruk_mcp/filters.py:996-1002 | Whatever host and service states are named: an alert of that host in one of those states is meant and not fetched |
| `AlertQuery.CriticalIsLost` | src/thruk_mcp/filters.py:996-1002 | For one, a CRITICAL alert of web-01, asked for with `state in [critical, unknown]` |
| `LogFilter.Walk` | src/thruk_mcp/filters.py:522-539 | The two lists grow by the direct nodes and the lookup leaves of the tree, or the walk raises |
| `LogFilter.ExtractLogLookupFields` | src/thruk_mcp/filters.py:500-548 | Splitting, against the specification `Extract` |
| `LogFilter.RejectedExactly` | src/thruk_mcp/filters.py:527-533 | Splitting raises if and only if an OR with a host group or a custom variable anywhere below it is reached through AND groups only |
| `LogFilter.SplitKeepsMeaning` | src/thruk_mcp/filters.py:500-548 | A tree is equivalent to its direct part and its lookup part together |
| `LogFilter.PartsAreSeparate` | src/thruk_mcp/filters.py:505-512 | The direct part holds no host group and no custom variable anywhere, the lookup part nothing else |
| `LogFilter.ResolveHosts` | src/thruk_mcp/helpers.py:528-559 | The names of the matching hosts up to the cap, nameless rows skipped, and whether the cap was reached |
| `LogFilter.ResolveLogFilter` | src/thruk_mcp/helpers.py:488-525 | Every outcome of resolving a filter: nothing to do, refused, no hosts, raised, or the extra parameters |
| `LogFilter.FoundExactly` | src/thruk_mcp/helpers.py:528-559 | For any query: a row's host is among the names looked up exactly when a host of that name is selected by the query; only if, when the list was cut |
| `LogFilter.HostFoundExactly` | src/thruk_mcp/helpers.py:510-522 | For a lookup part compiled exactly, that is exactly when the row meets the lookup part |
| `LogFilter.ResolvedSelects` | src/thruk_mcp/helpers.py:510-525 | What the resolved query selects, for every filter whose two parts compile, clashing keys or not: the rows whose host the lookup query selects and that meet the direct part's query without `host_name[regex]` |
| `LogFilter.ResolvingKeepsMeaning` | src/thruk_mcp/helpers.py:510-525 | When the direct part leaves that key free and both parts are compiled exactly, the resolved query selects only rows of the filter, and all of them unless the list was reported truncated |
| `LogFilter.ResolvingLosesNoRow` | src/thruk_mcp/helpers.py:510-525 | No row of the filter is lost, clashing keys in either part and a replaced host pattern included, unless the list was reported truncated |
| `LogFilter.ExtraRowsExactly` | src/thruk_mcp/helpers.py:523-523 | For every filter whose parts compile: the rows selected beyond it are exactly those whose host is looked up, that meet the direct query without its host pattern, and that fail the lookup part or the direct part |
| `LogFilter.HostPatternIsLostExactly` | src/thruk_mcp/helpers.py:523-523 | For `regex` and `in` on the host alike, the extra rows are exactly those whose host is looked up, that meet everything else the direct part says, and that fail the lookup part or some host pattern |
| `LogFilter.PatternTakenExactly` | src/thruk_mcp/filters.py:384-394 | The key is taken exactly when a `regex` or an `in` on the host becomes a parameter |
| `LogFilter.HostPatternLost` | src/thruk_mcp/helpers.py:510-524 | A concrete filter, host pattern and host group, that selects a host not matching the pattern |
| `LogFilter.HostListLost` | src/thruk_mcp/helpers.py:510-524 | The same with `in`: a list of hosts beside a host group is dropped |
| `LogFilter.NoHostsNoRows` | src/thruk_mcp/helpers.py:522-523 | When the lookup finds no host, no listed row meets the filter, clashing lookup keys or not |
| `LogFilter.LookupGroupLost` | src/thruk_mcp/helpers.py:510-524 | A concrete filter of two host groups under AND that selects a row whose host is in the second alone |
| `LogFilter.TruncatedExactly` | src/thruk_mcp/helpers.py:550-559 | The list is reported truncated exactly where hosts are looked up and at least 20000 names came back |
| `LogColumns.CompiledOnLogs` | src/thruk_mcp/filters.py:859-892 | A tree without groups and variables is compiled to parameters and text on columns that log rows have |
| `LogColumns.ResolvedOnLogs` | src/thruk_mcp/helpers.py:488-525 | Whatever a log tool resolves has no parameter and no atom of its text on a group column or a custom variable |
| `LogColumns.AlertsOnLogs` | src/thruk_mcp/filters.py:505-512 | The same of `thruk_alerts` with its fields written out, together with what it refuses |
| `Pagination.GetAll` | src/thruk_mcp/client.py:294-326 | Over a list that does not change, the loop yields exactly the slice from the offset, cut at the hard limit, whatever the page size |
| `Pagination.YieldPage` | src/thruk_mcp/client.py:318-323 | The rows of one page, cut where the hard limit is reached |
| `Pagination.OnePageMore` | src/thruk_mcp/client.py:313-326 | One page extends what was yielded to a longer prefix without gap or repetition |
| `Problems.Walk` | src/thruk_mcp/filters.py:716-726 | Both dictionaries grow by the leaves of the tree, or the walk raises |
| `Problems.CompileFilterProblems` | src/thruk_mcp/filters.py:645-729 | Both dictionaries filled leaf by leaf, or an error |
| `Problems.RejectedExactly` | src/thruk_mcp/filters.py:698-726 | It raises if and only if the tree has an OR anywhere or an `in` on a state |
| `Problems.BothSidesAgreeExactly` | src/thruk_mcp/filters.py:645-729 | A service with its host's groups and variables meets the service parameters as the host meets its own, exactly when both states meet the state parameters alike or another parameter fails |
| `Problems.ProblemStateIsCode` | src/thruk_mcp/filters.py:706-713 | A state name or number resolves to the code it has in either map, whichever is asked first |
| `Problems.BothSidesAgree` | src/thruk_mcp/filters.py:645-729 | In particular they agree where the filter names no state and where the states are equal |
| `Problems.StatesPartTheSides` | src/thruk_mcp/filters.py:706-714 | With a state in the filter the two can part: a DOWN host and its CRITICAL service |
| `Problems.WalkHostgroups` | src/thruk_mcp/tools/inventory.py:669-677 | The list of constraints grows by the host group leaves of the tree |
| `Problems.Collect` | src/thruk_mcp/tools/inventory.py:661-678 | The constraints of a tree are its host group leaves in order |
| `Problems.RowMatches` | src/thruk_mcp/tools/inventory.py:681-710 | The check accepts a row exactly when it meets every constraint, a missing column counting as no group |
| `Problems.MissingColumnExactly` | src/thruk_mcp/tools/inventory.py:685-691 | Without the column a row is dropped exactly when some constraint is `eq`, `in` or `regex` |
| `Problems.Recheck` | src/thruk_mcp/tools/inventory.py:778-791 | The rows that pass, in order, and how many were dropped |
| `Problems.ThrukProblems` | src/thruk_mcp/tools/inventory.py:728-797 | The tool on a filter: refused, or both dictionaries sent, updating the tool's own condition on the state, and both answers checked |
| `Problems.GroupPartIsItsLeaves` | src/thruk_mcp/tools/inventory.py:661-678 | The constraints collected are the group part of the filter, the tree without its leaves on other fields |
| `Problems.RecheckRepairs` | src/thruk_mcp/tools/inventory.py:728-791 | On every accepted filter, the rows shown are, in order, exactly those that meet the other parameters and the filter's host group part, for backends that leak rows outside the groups and for leaves that collide on one key |
| `Problems.GteIsNotRechecked` | src/thruk_mcp/tools/inventory.py:709-710 | Two `gte` leaves on host groups: the overwritten one is not made up for |
| `ProblemMeaning.SentNumber` | src/thruk_mcp/filters.py:706-712 | The names of host and service states, in any case, are sent as their numbers on both sides |
| `ProblemMeaning.EntryMeans` | src/thruk_mcp/filters.py:661-716 | On either side the parameter of a leaf says what the leaf says: a variable with `eq` on the host, a state by its number, a host group with its operator |
| `ProblemMeaning.SameKeyExactly` | src/thruk_mcp/filters.py:661-716 | Two leaves share a key exactly when they ask the same: of one variable, of the groups to be in or not in, or of the state with one operator |
| `ProblemMeaning.CompiledMeansExactly` | src/thruk_mcp/filters.py:645-729 | For every accepted filter and either side: the parameters hold on a row exactly when every leaf that no later one replaces does |
| `ProblemMeaning.CompiledMeansTheTree` | src/thruk_mcp/filters.py:645-729 | Where leaves that ask the same want the same, the parameters hold exactly when the tree does, each leaf as it is sent |
| `ProblemMeaning.SentAsIsExactly` | src/thruk_mcp/filters.py:661-716 | A leaf is sent as it is, on every data set, if and only if it is a variable with `eq` under the field of the side, a state name the side knows with no pattern, a state that is no name, or a host group |
| `ProblemMeaning.CompiledMeansTheFilter` | src/thruk_mcp/filters.py:645-729 | A filter of such leaves without a clash is asked for exactly as written |
| `ProblemMeaning.ShownExactly` | src/thruk_mcp/tools/inventory.py:749-791 | The rows shown are, in order, exactly those that meet the tool's own condition unless a leaf replaces it, every state or variable leaf not replaced, and every host group leaf, whatever backends leak |
| `ProblemMeaning.OnlyProblemsExactly` | src/thruk_mcp/tools/inventory.py:749-774 | Every object shown is a problem if and only if no state leaf has the operator of the tool's own condition, which it would replace, or one that is asked for keeps UP and OK out |
| `ProblemMeaning.UpIsListed` | src/thruk_mcp/tools/inventory.py:749-774 | `state eq up` lists hosts that are UP as problems |
| `Pruning.StripFilterField` | src/thruk_mcp/tools/inventory.py:842-870 | The recursive strip, against the specification `Prune` for one field |
| `Pruning.LeavesLeftExactly` | src/thruk_mcp/tools/inventory.py:842-870 | The leaves left are those on other fields, in their order |
| `Pruning.NothingLeftExactly` | src/thruk_mcp/tools/inventory.py:850-852 | Nothing is left if and only if every leaf was on the fields |
| `Pruning.PruneTwice` | src/thruk_mcp/tools/inventory.py:842-870 | Pruning twice is pruning both sets of fields at once |
| `Pruning.StripIsIdempotent` | src/thruk_mcp/tools/inventory.py:842-870 | Stripping a field twice is stripping it once |
| `Pruning.StripCommutes` | src/thruk_mcp/tools/inventory.py:842-870 | Two fields may be stripped in either order |
| `Pruning.PruneKeepsWellFormed` | src/thruk_mcp/tools/inventory.py:850-853 | What is left has no empty group |
| `Pruning.PruneOnlyWidens` | src/thruk_mcp/tools/inventory.py:842-870 | Where every OR is removed whole or keeps something of each condition, every row of the filter meets what is left of it |
| `Pruning.OrFreeOnlyWidens` | src/thruk_mcp/tools/inventory.py:842-870 | In particular on every filter without OR |
| `Pruning.VanishingOrIsHarmless` | src/thruk_mcp/tools/inventory.py:861-862 | An OR over leaves on the stripped field alone is removed whole |
| `Pruning.OrWidensExactly` | src/thruk_mcp/tools/inventory.py:842-870 | For an OR of independent leaves no row is lost if and only if it is removed whole or stays whole |
| `Pruning.GroupsAreIndependent` | src/thruk_mcp/tools/inventory.py:873-904 | Host groups and service groups under one OR are independent |
| `Totals.ThrukTotals` | src/thruk_mcp/tools/inventory.py:873-904 | The two queries of the tool; the compiler cannot raise on a filter it accepts |
| `Totals.PruneSays` | src/thruk_mcp/tools/inventory.py:842-870 | What the text of a condition says of a service, the text of the stripped condition says of its host |
| `Totals.KidsInterleave` | src/thruk_mcp/tools/inventory.py:895-904 | The hosts' parameters are the services' without the service groups, in order, with leaves put in between that left the text and hold on the host |
| `Totals.ServiceOnlyWithItsHost` | src/thruk_mcp/tools/inventory.py:895-904 | For every filter the tool accepts whose ORs are stripped whole or keep something of each condition, a service is selected only if its host is, whatever routes the two queries take and whatever keys clash |
| `Totals.CountedWithHostExactly` | src/thruk_mcp/tools/inventory.py:873-904 | For an OR of host and service groups this holds on all data if and only if the OR is stripped whole or stays whole |
| `Totals.GroupsUnderOrPart` | src/thruk_mcp/tools/inventory.py:895-904 | `OR(hostgroup A, servicegroup S)`: the two compiled queries count a service in S whose host they do not count |
| `Pruning.NothingElseIsTaken` | src/thruk_mcp/tools/inventory.py:842-870 | Without OR, the filter is what is left together with the leaves taken out |
| `Pruning.UnderOrRowsAreLost` | src/thruk_mcp/tools/inventory.py:842-870 | Under OR stripping can lose rows: a concrete one |
| `RootCause.Attribution.constructor` | src/thruk_mcp/tools/triage.py:676-710 | Both caches start empty |
| `RootCause.Attribution.DownAncestors` | src/thruk_mcp/tools/triage.py:695-708 | The depth-first walk finds exactly the DOWN hosts reached from a host, itself included, on every parent graph |
| `RootCause.Attribution.WalkAbove` | src/thruk_mcp/tools/triage.py:716-728 | The early-stopping walk answers exactly whether a DOWN host lies strictly above |
| `RootCause.Attribution.HasDownAbove` | src/thruk_mcp/tools/triage.py:712-729 | The same answer whatever the cache holds from earlier calls |
| `RootCause.Attribution.Topmost` | src/thruk_mcp/tools/triage.py:740-740 | Of some hosts, exactly those with no DOWN host above |
| `RootCause.Attribution.RootOf` | src/thruk_mcp/tools/triage.py:733-743 | The root of a host, whatever both caches hold |
| `RootCause.Attribution.Attribute` | src/thruk_mcp/tools/triage.py:745-753 | The clusters and the sorted unattributed list, for all affected hosts |
| `RootCause.ExploreDone` | src/thruk_mcp/tools/triage.py:697-707 | When the stack is empty the seen set is what the start reaches, loops included |
| `RootCause.RootIsDownAndReached` | src/thruk_mcp/tools/triage.py:733-743 | A host has no root exactly when it reaches no DOWN host; a root is DOWN and reached through parents |
| `RootCause.RootIsFirstByName` | src/thruk_mcp/tools/triage.py:740-741 | Of several topmost DOWN hosts the one blamed is the first by name; on the fallback, of all DOWN hosts reached |
| `RootCause.RootIsIdempotent` | src/thruk_mcp/tools/triage.py:733-743 | The root of a root is itself, the fallback included |
| `RootCause.FallbackExactly` | src/thruk_mcp/tools/triage.py:740-741 | The fallback is taken exactly when every DOWN host reached leads up to a loop through a DOWN host |
| `RootCause.RootHasNoDownAboveExactly` | src/thruk_mcp/tools/triage.py:684-692 | The documented promise of no DOWN host above a root holds exactly when some DOWN host reached does not lead to such a loop |
| `RootCause.AcyclicRootsAreTopmost` | src/thruk_mcp/tools/triage.py:684-692 | On graphs without loops the fallback is never taken and every root has no DOWN host above |
| `RootCause.LoopBreaksThePromise` | src/thruk_mcp/tools/triage.py:739-741 | Two DOWN hosts that are each other's parent: the root has a DOWN host above it |
| `RootCause.AttributionPartitions` | src/thruk_mcp/tools/triage.py:745-753 | Every affected host is in exactly one cluster or in the unattributed list, and no other host is |
| `RootCause.ClusterSharesItsRoot` | src/thruk_mcp/tools/triage.py:745-753 | A cluster holds its own root, a DOWN host each member reaches |
| `RootCause.ClusterIsNamedByTheFirst` | src/thruk_mcp/tools/triage.py:684-692 | Read off the clusters returned: no member reaches a topmost DOWN host with an earlier name than its cluster's |
| `RootCause.TwoParents` | src/thruk_mcp/tools/triage.py:740-741 | A leaf below two DOWN switches is in the cluster of the first by name only |
| `Order.StrLeExactly` | src/thruk_mcp/tools/triage.py:740-741 | Names are compared at the first character in which they differ, a shorter name first |
| `RootCause.UnattributedExactly` | src/thruk_mcp/tools/triage.py:745-753 | The unattributed hosts are the UNREACHABLE ones that reach no DOWN host |
| `Bursts.Evict` | src/thruk_mcp/tools/triage.py:503-506 | The counter forgets the front of the queue, dropping a host whose count reaches zero |
| `Bursts.EvictOld` | src/thruk_mcp/tools/triage.py:502-506 | Evicting from the left leaves the queue at the left edge of the window, with the counter in step |
| `Bursts.Slide` | src/thruk_mcp/tools/triage.py:498-506 | After each event the queue is exactly the window that ends with it and the counter counts its hosts |
| `Bursts.ScanWindows` | src/thruk_mcp/tools/triage.py:494-508 | The windows reported are exactly those with enough distinct hosts; it raises exactly when a window that should be reported is empty |
| `Bursts.MergeHits` | src/thruk_mcp/tools/triage.py:510-517 | The merge loop, against its one-window step |
| `Bursts.DetectBursts` | src/thruk_mcp/tools/triage.py:460-523 | From fetched rows and a window in minutes to bursts, or the exception of reading an empty queue, against `Detected` |
| `Bursts.BurstsAreCorrect` | src/thruk_mcp/tools/triage.py:494-517 | Bursts are in order and strictly apart; each holds exactly the hosts of the events timed within it, ties included, and is made of windows with enough hosts, without a gap |
| `Bursts.EveryWindowIsCovered` | src/thruk_mcp/tools/triage.py:494-517 | Wherever a window of that width is laid, if enough distinct hosts fail in it one burst covers all its events and hosts |
| `Bursts.RefinesQuadraticScan` | src/thruk_mcp/tools/triage.py:473-493 | An event lies in a burst if and only if it lies in a window the superseded quadratic scan finds |
| `Bursts.MergeAsTheyCome` | src/thruk_mcp/tools/triage.py:510-517 | Merging after the scan and merging during it give the same bursts |
| `Bursts.EventsAreFailures` | src/thruk_mcp/tools/triage.py:461-468 | The events are the rows with a time and a host, each as often as it was logged |
| `Bursts.ReportedBursts` | src/thruk_mcp/tools/triage.py:460-523 | Of the tool on its rows: bursts come in order and strictly apart, each begins and ends with a failure logged and names exactly the hosts with a failure logged within it |
| `Bursts.EveryDenseWindowIsReported` | src/thruk_mcp/tools/triage.py:460-523 | Wherever failures of enough hosts are logged within the window's width, one reported burst takes in all of them |
| `Bursts.InBurstExactly` | src/thruk_mcp/tools/triage.py:460-523 | An instant is in a reported burst if and only if it lies between two failures no further apart than the width with failures of enough hosts from one to the other |
| `Bursts.FailsExactly` | src/thruk_mcp/tools/triage.py:502-504 | The tool fails exactly when a failure is logged, the window is negative and no host is asked for |
| `Reliability.ExtractIncidents` | src/thruk_mcp/reliability.py:94-142 | The state machine over `in_incident`, `start` and `first`, against `Incidents` |
| `Reliability.RowsAreHardAlerts` | src/thruk_mcp/reliability.py:59-94 | The rows reduced are the HARD host and service alerts of the log, by word or by number, each as often as it was logged, in order of time |
| `Reliability.IncidentsAreTheClock` | src/thruk_mcp/reliability.py:94-142 | A second lies in an incident if and only if the object is in a HARD problem then: latest HARD row non-zero, or a leading recovery still ahead |
| `Reliability.IncidentsAreDisjoint` | src/thruk_mcp/reliability.py:94-142 | No second lies in two incidents |
| `Reliability.DowntimeIsProblemSeconds` | src/thruk_mcp/reliability.py:205-205 | Total downtime is the number of seconds the object is in a HARD problem |
| `Reliability.OnlyLastIsOngoing` | src/thruk_mcp/reliability.py:139-140 | At most one incident is ongoing, it is the last, and there is one exactly when the last HARD row is a problem |
| `Reliability.IncidentsInSequence` | src/thruk_mcp/reliability.py:94-142 | For rows inside the window incidents are in order, without overlap and inside it |
| `Reliability.DowntimeFitsWindow` | src/thruk_mcp/reliability.py:205-205 | So downtime is never more than the window |
| `Reliability.MtbfTelescopes` | src/thruk_mcp/reliability.py:195-199 | MTBF is the distance from first to last start over the number of gaps, rounded |
| `Reliability.RoundedMean` | src/thruk_mcp/reliability.py:193-199 | Rounding goes to the nearest second, ties to the even one |
| `Reliability.MttrLeavesOutOngoing` | src/thruk_mcp/reliability.py:189-193 | The mean time to recovery is that of all incidents but the ongoing one, which can only be the last |
| `Reliability.LongestIsMaximum` | src/thruk_mcp/reliability.py:206-206 | The longest incident is one of them and none is longer |
| `Reliability.SummaryMeans` | src/thruk_mcp/reliability.py:159-209 | The other figures of the summary told by the rows: the count, the seconds of trouble, the longest incident, and whether the last HARD row is a problem |
| `TimeOrder.SortIsOrdered` | src/thruk_mcp/reliability.py:90-90 | Sorting by time gives the same rows in time order |
| `TimeOrder.SortIsStable` | src/thruk_mcp/reliability.py:90-90 | Rows of the same time keep their order |
| `StateReplay.ReconstructStateAt` | src/thruk_mcp/tools/history.py:1624-1691 | The row-by-row updates of the records, against `StatesAt` |
| `StateReplay.ReplayIsCompositional` | src/thruk_mcp/tools/history.py:1627-1629 | The state at a later instant is the state at an earlier one with only the rows in between applied |
| `StateReplay.ObjectDependsOnOwnRows` | src/thruk_mcp/tools/history.py:1648-1691 | An object appears exactly when it has a row by then, and its record depends on its own rows only |
| `StateReplay.SinceIsStartOfRun` | src/thruk_mcp/tools/history.py:1631-1634 | `since` is the time the maximal trailing run of equal states began |
| `StateReplay.StateIsLastReported` | src/thruk_mcp/tools/history.py:1665-1672 | An object has a state exactly when one was reported, and then the last one |
| `StateReplay.AcknowledgedExactly` | src/thruk_mcp/tools/history.py:1675-1690 | An object is acknowledged if and only if some acknowledgement has no later recovery or stop |
| `StateReplay.InDowntimeExactly` | src/thruk_mcp/tools/history.py:1677-1682 | An object is in downtime if and only if some start has no later stop |
| `StateReplay.RecordMeans` | src/thruk_mcp/tools/history.py:1624-1691 | All of it for any unsorted log and any instant |
| `StateDiff.SortedKeys` | src/thruk_mcp/tools/history.py:1767-1767 | The keys of either snapshot, each once, in order |
| `StateDiff.DiffStates` | src/thruk_mcp/tools/history.py:1751-1803 | Changes in key order and a count per category |
| `StateDiff.DiffIsPatch` | src/thruk_mcp/tools/history.py:1751-1803 | Applying the listed changes to the earlier state, downtime and acknowledgement of any object gives the later ones |
| `StateDiff.ListedExactly` | src/thruk_mcp/tools/history.py:1771-1775 | Exactly the objects that differ are listed, each with its own change |
| `StateDiff.EmptyExactly` | src/thruk_mcp/tools/history.py:1762-1763 | Nothing is listed if and only if the snapshots agree on every object, absent meaning the empty record |
| `StateDiff.CategoriesSumUp` | src/thruk_mcp/tools/history.py:1787-1802 | The category counts sum to the number of changes |
| `StateDiff.SwapReverses` | src/thruk_mcp/tools/history.py:1776-1786 | Swapping the snapshots swaps every from and to, and exchanges new problems and recoveries |
| `StateDiff.CategoriesExactly` | src/thruk_mcp/tools/history.py:1774-1786 | Each of the five categories as an equivalence on listed changes; `state_changed` is any move within the problems or within the rest |
| `StateDiff.ChangesInOrder` | src/thruk_mcp/tools/history.py:1763-1763 | The changes are listed by host and, for a host, by service, in the order of the names |
| `StateDiff.OnlyLoggedObjectsMove` | src/thruk_mcp/tools/history.py:1983-1986 | Between two instants only objects with a log row in between are listed |
| `Aggregation.Reaggregate` | src/thruk_mcp/tools/history.py:297-322 | The merge loop, against `TotalsOf` |
| `Aggregation.MergedIsRaw` | src/thruk_mcp/tools/history.py:292-322 | However raw rows were split over backends and grouped by object and state, the merged record of an object is its raw count, first and last time, and a state seen at that last time |
| `Aggregation.LastStateIsOfLatestGroup` | src/thruk_mcp/tools/history.py:309-322 | The state recorded is that of the group with the latest time; of several equally late, of the one that came last |
| `Aggregation.DropIntoEach` | src/thruk_mcp/helpers.py:674-682 | One record into each of its buckets |
| `Aggregation.Regroup` | src/thruk_mcp/helpers.py:665-682 | The regrouping loop, against `Regrouped` |
| `Aggregation.TargetsAreMemberships` | src/thruk_mcp/helpers.py:674-674 | A record falls into a bucket once for each time it names the group, and into `(none)` once if it has no group |
| `Aggregation.GroupGetsItsMembers` | src/thruk_mcp/helpers.py:643-646 | Each group gets the summed counts of its members |
| `Aggregation.GrandTotalIsWeighted` | src/thruk_mcp/helpers.py:643-646 | The grand total is the sum of count times the number of groups, at least one |
| `Aggregation.BucketNamesItsHosts` | src/thruk_mcp/helpers.py:677-678 | A bucket names exactly the hosts of its members |
| `Aggregation.BucketNamesItsServices` | src/thruk_mcp/helpers.py:679-680 | A bucket names exactly the services of its members |
| `Aggregation.BucketIsAsRecentAsItsMembers` | src/thruk_mcp/helpers.py:681-682 | A bucket is as recent as its most recent member |
| `Aggregation.GroupCountsRawRows` | tests/conftest.py:81-107 | End to end, a group's number is what counting the raw rows of its members one by one gives |
| `FlapSummary.GroupByObject` | src/thruk_mcp/tools/history.py:717-725 | The rows of each object, in order |
| `FlapSummary.CountTransitions` | src/thruk_mcp/tools/history.py:732-734 | The number of consecutive state changes |
| `FlapSummary.CountFlaps` | src/thruk_mcp/tools/history.py:727-754 | The objects with enough changes, each with its count |
| `FlapSummary.FlapSearch` | src/thruk_mcp/tools/history.py:675-754 | Preselecting by alert count, refetching with the host pattern replaced and counting gives the objects and counts a scan of all rows gives |
| `FlapSummary.PatternWasMet` | src/thruk_mcp/tools/history.py:697-701 | Replacing the host pattern by hosts that occur among the rows it selects is safe: the new query selects exactly the old one's rows of those hosts |
| `FlapSummary.SecondFetch` | src/thruk_mcp/tools/history.py:697-716 | So phase two fetches, in order, exactly phase one's rows of the candidates' hosts |
| `FlapSummary.CandidateOccurs` | src/thruk_mcp/tools/history.py:675-687 | Every candidate's host occurs among the rows phase one counted |
| `FlapSummary.TransitionsFewerThanRows` | src/thruk_mcp/tools/history.py:675-679 | There are fewer transitions than rows |
| `FlapSummary.PreselectionIsSound` | src/thruk_mcp/tools/history.py:675-687 | Every object that flaps is a candidate |
| `Perfdata.ParseUndoesPrint` | src/thruk_mcp/perfdata.py:95-127 | Parsing undoes printing for every threshold form: one end or two, open, `~`, `@`, any number text |
| `Perfdata.BreachesPrinted` | src/thruk_mcp/perfdata.py:130-144 | A value breaches a printed range exactly as the Nagios guidelines say |
| `Perfdata.ZeroProximityExactly` | src/thruk_mcp/perfdata.py:147-191 | 0 % means breached, or exactly on an end of a range to stay within |
| `Perfdata.ProximityAtMostHalf` | src/thruk_mcp/perfdata.py:175-191 | Inside a range with two ends a value is at most half the range from breaching |
| `Perfdata.ProximityIsRelativeDistance` | src/thruk_mcp/perfdata.py:175-191 | The proximity is the distance to the nearest finite end in percent of the range's width, or of its one end's size |
| `Perfdata.ProximityGivenExactly` | src/thruk_mcp/perfdata.py:162-191 | A proximity is given exactly where the value breaches or there is a width above 0, or one finite end other than 0, to measure against |
| `Numbers.NumberOfPrintInt` | src/thruk_mcp/perfdata.py:62-72 | A printed integer is read back as that integer |
| `Perfdata.ParsePerfdata` | src/thruk_mcp/perfdata.py:236-249 | The scanning loop, against `Metrics` |
| `Perfdata.SplitUndoesJoin` | src/thruk_mcp/perfdata.py:206-207 | Splitting at semicolons undoes joining |
| `Perfdata.ValueUndoesPrint` | src/thruk_mcp/perfdata.py:59-59 | A value token is read back as its number and its unit, when the unit does not read on as part of the number |
| `Perfdata.DatumParses` | src/thruk_mcp/perfdata.py:194-233 | A printed datum of any number of fields is matched whole and split into the label and fields printed |
| `Numbers.FigureLength` | src/thruk_mcp/perfdata.py:59-59 | A printed number is read to its end and no further, whatever unit follows that does not read on |
| `Numbers.NumberOfFigure` | src/thruk_mcp/perfdata.py:62-76 | A printed integer or decimal, signed or not, with digits before or after the point or both, and with or without an exponent, is read back as the number it shows |
| `Perfdata.UndeterminedValue` | src/thruk_mcp/perfdata.py:206-218 | A value that does not begin as a number, such as `U`, is none and has no unit |
| `Perfdata.FieldsComeBack` | src/thruk_mcp/perfdata.py:206-233 | Label, value, unit, thresholds and limits of a printed metric are the ones printed, with any number of its five fields written out |
| `Perfdata.EveryMatchIsMetric` | src/thruk_mcp/perfdata.py:245-248 | Whatever the scan finds in any text, the datum parser accepts: no match is dropped |
| `Perfdata.ParseUndoesPrintAll` | src/thruk_mcp/perfdata.py:236-249 | Printed data come back in order with their labels and fields, and junk in between costs no neighbour |
| `Perfdata.ReadingsComeBack` | src/thruk_mcp/perfdata.py:236-249 | Printed metrics come back in order, each with the label, value, unit, thresholds and limits printed: quoted labels with spaces, `=` and `:` included, junk in between skipped |
| `TtlCache.TTLCache.constructor` | src/thruk_mcp/cache.py:31-41 | An empty store with the given default and size |
| `TtlCache.TTLCache.Get` | src/thruk_mcp/cache.py:43-54 | A hit moves the entry to the recent end, an expired one is dropped, the rest stays |
| `TtlCache.TTLCache.Set` | src/thruk_mcp/cache.py:56-65 | The new store, oldest entry evicted when a new key finds it full; with no room at all it raises and nothing changes |
| `TtlCache.TTLCache.Clear` | src/thruk_mcp/cache.py:67-69 | Nothing is left |
| `TtlCache.RunKeepsInvariant` | src/thruk_mcp/cache.py:19-69 | After any run the cache is no larger than `maxsize` and holds one entry per key |
| `TtlCache.RunAgrees` | src/thruk_mcp/cache.py:19-69 | After any run every stored entry is the one an unbounded map would hold |
| `TtlCache.HitIsLastSet` | src/thruk_mcp/cache.py:43-54 | After any run a hit returns the value last set for that key, unexpired |
| `TtlCache.SurvivesWhileFewTouched` | src/thruk_mcp/cache.py:22-26 | A key is still stored while fewer than `maxsize` others have been touched since |
| `TtlCache.SurvivesExactly` | src/thruk_mcp/cache.py:22-26 | And, when no read meets an expired entry, only while |
| `TtlCache.TouchedKeySurvives` | src/thruk_mcp/cache.py:19-69 | The same from an empty cache, over any history before the touch |
| `ClientCache.Cache.constructor` | src/thruk_mcp/multitenant.py:61-64 | Room for at least one client, none cached |
| `ClientCache.Cache.Get` | src/thruk_mcp/multitenant.py:66-82 | A client built for the requested key; a hit creates and closes none, a miss creates one and closes the oldest if full |
| `ClientCache.Cache.Build` | src/thruk_mcp/multitenant.py:74-82 | The miss: create, insert, evict, close |
| `ClientCache.Cache.Shrink` | src/thruk_mcp/multitenant.py:76-78 | At most one client is evicted, the oldest |
| `ClientCache.Cache.CloseAll` | src/thruk_mcp/multitenant.py:84-89 | Everything cached is handed to close, in order |
| `ClientCache.CachedOrClosedOnce` | src/thruk_mcp/multitenant.py:58-89 | Every client created is cached or was handed to close, exactly once |
| `TenantConfig.LowerHeaders` | src/thruk_mcp/multitenant.py:102-113 | The header mapping, against the specification `AddHeaders` |
| `TenantConfig.GlueExactly` | src/thruk_mcp/multitenant.py:112-112 | A repeated header name is joined with a comma and a space |
| `TenantConfig.HeadersAreJoined` | src/thruk_mcp/multitenant.py:102-113 | A name stands for all values sent under it, whatever their case, joined in the order sent; a name not sent is absent |
| `TenantConfig.RequestedExactly` | src/thruk_mcp/config.py:172-197 | Refused exactly without a key; else key, server, user and backends are those sent under the four header names, and the base's where nothing is sent |
| `TenantConfig.SplitUndoesJoinCsv` | src/thruk_mcp/config.py:39-40 | Splitting undoes joining backends with commas |
| `TenantConfig.StripSlashesExactly` | src/thruk_mcp/config.py:187-190 | The base URL loses the slashes at its end and nothing else |
| `Texts.StripExactly` | src/thruk_mcp/config.py:184-195 | Stripping takes the white space off both ends and nothing else |
| `TenantConfig.FromHeaders` | src/thruk_mcp/config.py:172-197 | Nothing a request sends changes what the server owns: read-only mode, tools, audit log, pools, timeouts, limits |
| `TenantConfig.FromHeadersTwice` | src/thruk_mcp/config.py:172-197 | All a request asks for is in the configuration derived: reading its headers again changes nothing |
| `ClientCache.KeyDetermines` | src/thruk_mcp/multitenant.py:44-55 | Among the configurations of one server, equal keys mean equal configurations |
| `ClientCache.HeaderAuthMiddleware.Call` | src/thruk_mcp/multitenant.py:124-142 | Refused without a key, else bound to the configuration asked for and to a client built from exactly that |
| `ClientCache.ServeKeeps` | src/thruk_mcp/multitenant.py:124-142 | Each request leaves every cached client under its own key and with what the server owns unchanged |
| `ClientCache.RunIsExact` | src/thruk_mcp/multitenant.py:124-142 | Over every run of requests from an empty cache, a request is refused exactly when it brings no key, and otherwise gets a client built from exactly its configuration, evictions included |
| `ClientCache.TenantsDoNotMix` | src/thruk_mcp/multitenant.py:124-142 | Two requests of a run are handed the same client only if they ask for the same configuration |
| `ClientCache.RepeatedAtOnce` | src/thruk_mcp/multitenant.py:66-73 | A request repeated at once is handed the same client, and none is created |
| `ClientCache.MissConserves` | src/thruk_mcp/multitenant.py:74-81 | A miss keeps the balance of clients created, cached and closed |
| `Availability.SummarizeAvailability` | src/thruk_mcp/tools/inventory.py:424-521 | The accumulating loop and what follows it: headline, worst, best, rows below the threshold, shares |
| `Availability.Gather` | src/thruk_mcp/tools/inventory.py:457-486 | One turn of the loop over the accumulators |
| `Availability.TotalsAreSums` | src/thruk_mcp/tools/inventory.py:457-486 | What the loop gathers are the sums over the rows, the extremes and the rows below the threshold |
| `Availability.Round4IsNear` | src/thruk_mcp/tools/inventory.py:480-480 | Rounding moves a percentage by at most half of the last digit kept |
| `Availability.ExtremeIsExtreme` | src/thruk_mcp/tools/inventory.py:481-484 | The worst and best reported have the lowest and highest rounded percentage of all |
| `Availability.ReportedExactly` | src/thruk_mcp/tools/inventory.py:476-484 | Which row is reported as the worst (best): of those that round to the extreme, the last one beyond the rounded value, else the first; it is a lowest (highest) one exactly when no row that rounds alike lies beyond it |
| `Availability.WorstAmongEquals` | src/thruk_mcp/tools/inventory.py:481-482 | A concrete list on which the row reported as the worst is not the lowest |
| `Availability.HeadlineIsBetween` | src/thruk_mcp/tools/inventory.py:488-494 | Before rounding some row's percentage is at most the headline and some row's at least, for any number of rows |
| `Availability.BetweenWorstAndBest` | src/thruk_mcp/tools/inventory.py:424-521 | The headline reported lies between the worst and the best reported, which are two rows' objects with their percentages, when counters are not negative and percentages agree with them |
| `Availability.InconsistentColumn` | src/thruk_mcp/tools/inventory.py:475-475 | With a percentage column that disagrees with the counters the best reported can be below the headline |
| `Availability.SharesSumToHundred` | src/thruk_mcp/tools/inventory.py:496-505 | The three shares sum to 100 before rounding and to within 0.0001 after |
| `Availability.SharesAreProportions` | src/thruk_mcp/tools/inventory.py:496-505 | Each share reported is that kind of seconds in percent of all seconds, to within half a ten-thousandth; none without seconds |
| `Availability.HeadlineMeans` | src/thruk_mcp/tools/inventory.py:488-494 | The headline is the good seconds in percent of the good and bad ones where there are any, else the mean of the percentages, else none |
| `Availability.BelowExactly` | src/thruk_mcp/tools/inventory.py:485-515 | The objects listed as below the threshold are exactly those, lowest first |

## Left out

- HTTP, retries, semaphores, TLS, tool registration, prompts, resources, environment parsing, JSON output, warnings.
- Commands that only build a URL and post it, and URL escaping.
- Columns of type `type` and `message` are taken as already classified in `StateReplay` (alert, downtime, acknowledgement, their STARTED/STOPPED markers); the substring and regex search that does it is not modelled.
- Label and time formatting (`_ts`, `_duration_human`, state labels); the plugin output carried along by replay.
- Sorting results by count, and caps on what is listed or fetched (`_NOISY_MAX_ALERTS`, the flap candidate cap, the first fifty objects below a threshold): theorems about searches are for uncapped answers.
- `_state_snapshot` and the tools that only select from a replayed state.
- Quoting inside `q=` values: a value is one opaque token.
- Case-insensitivity and syntax of regular expressions: user patterns are an arbitrary relation; an escaped alternation is "contains one of" or, anchored, "is one of".
- Scalar filter values are held as their text `str(value)`, which is all the compiler looks at; `validate_filter`'s checks that a node is a dict with the right keys are the shape of the datatype.
- Upper and lower case, spaces and digits are those of ASCII.
- Number spellings of Python's `float` beyond the decimal grammar (`inf`, `nan`, underscores), and floating-point error: numbers are exact.
- Rounding: `round` is exact half-even on real numbers.
- `_normalize_time_params` is part of how Thruk reads a time; both sides of a theorem read it alike.
- Locks and interleaving in the caches: each call is one step. Expiry uses the time passed to the call; nothing assumes that it only moves forward.
- Errors inside a client's close, which the code ignores; connections that are not HTTP, which the middleware passes on; the lower-casing of header names is a parameter.
- A list that changes while it is read page by page.
- FilterMeaning.NoRowLost: assumes faithful leaves (`in` on a plain field allowed), since an unfaithful one can lose rows; `FaithfulExactly` and `TextFaithfulExactly` say which.
- FilterMeaning.ExactIfAndOnlyIfNoClash: the "only if" is for conjunctions of equalities, because for other operators a clash can be harmless (the later bound may be the stricter one); `SelectsSurvivors` is exact for all.
- Coherence.ServiceAgreesWithItsHost: covers the fields the statistics tools allow, host groups and custom variables.
- LogFilter.ResolvingKeepsMeaning: assumes two parts compiled exactly (`ResolvedSelects` and `ExtraRowsExactly` do not) and that every host listed has a name and a row's host is listed; hosts without a name are skipped by the lookup.
- AlertQuery.NarrowedFetchesTyped: assumes faithful leaves beside the states and no clashing keys, as `CompileKeepsMeaning` does; the lookup part is taken as looked up exactly, which `LogFilter` is about.
- AlertQuery.ServicesFetchedExactly: assumes that Thruk matches no row on a state given by a service's name, which is what makes the listed alerts lost.
- Problems.BothSidesAgree: assumes equal states when the filter names a state, because the two can part (`StatesPartTheSides`); `BothSidesAgreeExactly` is without that condition.
- Problems.ThrukProblems: `acknowledged` and `scheduled_downtime_depth`, which no filter can change, are left to the server; so are columns, sorting and paging.
- ProblemMeaning.OnlyProblemsExactly: assumes that some row meets the parameters not on the state; otherwise nothing is shown at all.
- Problems.RecheckRepairs: leaves out `limit` and `offset`, and `gte` on host groups, which the re-check does not look at (`GteIsNotRechecked`); so does `ProblemMeaning.ShownExactly`.
- ProblemMeaning.EntryMeans: a pattern for a state is whatever Thruk makes of the text sent, which for a name is its number (`SentAsIsExactly`).
- Pruning.OrWidensExactly: the exact condition is for one OR of independent leaves; for nested trees only the direction of `PruneOnlyWidens` is stated, because an alternative that is taken out may be implied by another.
- Totals.ServiceOnlyWithItsHost: assumes that every OR is stripped whole or keeps something of each condition; that this is exact is shown for an OR of groups (`CountedWithHostExactly`), since in a nested filter a condition taken out may be implied by another.
- Availability.BetweenWorstAndBest: assumes counters that are not negative and percentages that agree with them; `InconsistentColumn` shows why.

/** The `q=` expression: how `_build_q_expr` (filters.py) prints a filter tree, and what a reader of
    the printed text gets back.

    A printed leaf such as `(state = 1)` is one token. The parser below is the reader: atoms, `and`,
    `or` and parentheses, with either operator binding tighter. */
module QExpression {

  /** A filter tree as the printer sees it: atoms, the alternatives of an `in` leaf, and groups. */
  datatype QNode<A> = QLeaf(atom: A) | QIn(atoms: seq<A>) | QGroup(isOr: bool, conds: seq<QNode<A>>)

  datatype Token<A> = Atom(a: A) | Word(isOr: bool) | Open | Close

  /** What an expression means: n-ary conjunctions and disjunctions of atoms. */
  datatype Expr<A> = One(a: A) | All(parts: seq<Expr<A>>) | Any(parts: seq<Expr<A>>)

  // ---- Printing --------------------------------------------------------------------------------

  /** `f" {operator} ".join(parts)`. */
  function Joined<A>(isOr: bool, parts: seq<seq<Token<A>>>): seq<Token<A>> {
    if parts == [] then [] else parts[0] + Tail(isOr, parts[1..])
  }

  function Tail<A>(isOr: bool, parts: seq<seq<Token<A>>>): seq<Token<A>> {
    if parts == [] then [] else [Word(isOr)] + parts[0] + Tail(isOr, parts[1..])
  }

  function AtomParts<A>(atoms: seq<A>): (parts: seq<seq<Token<A>>>)
    ensures |parts| == |atoms|
  {
    if atoms == [] then [] else [[Atom(atoms[0])]] + AtomParts(atoms[1..])
  }

  /** Nested groups are wrapped in parentheses, the root is not, and a group of one is its member. */
  function Print<A>(q: QNode<A>, root: bool): seq<Token<A>>
    decreases q, 1
  {
    match q
    case QLeaf(a) => [Atom(a)]
    case QIn(atoms) => [Open] + Joined(true, AtomParts(atoms)) + [Close]
    case QGroup(isOr, conds) =>
      var parts := PrintEach(conds);
      if |parts| == 1 then parts[0]
      else if root then Joined(isOr, parts)
      else [Open] + Joined(isOr, parts) + [Close]
  }

  function PrintEach<A>(conds: seq<QNode<A>>): (parts: seq<seq<Token<A>>>)
    ensures |parts| == |conds|
    decreases conds, 0
  {
    if conds == [] then [] else [Print(conds[0], false)] + PrintEach(conds[1..])
  }

  /** Validation leaves no group and no `in` list empty. */
  ghost predicate NonEmpty<A>(q: QNode<A>) {
    match q
    case QLeaf(_) => true
    case QIn(atoms) => atoms != []
    case QGroup(_, conds) => conds != [] && forall c :: c in conds ==> NonEmpty(c)
  }

  // ---- Meaning ---------------------------------------------------------------------------------

  function Make<A>(isOr: bool, parts: seq<Expr<A>>): Expr<A>
    requires parts != []
  {
    if |parts| == 1 then parts[0] else if isOr then Any(parts) else All(parts)
  }

  function Ones<A>(atoms: seq<A>): (parts: seq<Expr<A>>)
    ensures |parts| == |atoms|
  {
    if atoms == [] then [] else [One(atoms[0])] + Ones(atoms[1..])
  }

  /** The tree with groups of one replaced by their member. */
  function Collapse<A>(q: QNode<A>): Expr<A>
    requires NonEmpty(q)
    decreases q, 1
  {
    match q
    case QLeaf(a) => One(a)
    case QIn(atoms) => Make(true, Ones(atoms))
    case QGroup(isOr, conds) => Make(isOr, CollapseAll(conds))
  }

  function CollapseAll<A>(conds: seq<QNode<A>>): (parts: seq<Expr<A>>)
    requires forall c :: c in conds ==> NonEmpty(c)
    ensures |parts| == |conds|
    decreases conds, 0
  {
    if conds == [] then [] else [Collapse(conds[0])] + CollapseAll(conds[1..])
  }

  predicate Eval<A>(e: Expr<A>, holds: A -> bool)
    decreases e, 1
  {
    match e
    case One(a) => holds(a)
    case All(parts) => EvalAll(parts, holds)
    case Any(parts) => EvalAny(parts, holds)
  }

  predicate EvalAll<A>(parts: seq<Expr<A>>, holds: A -> bool)
    decreases parts, 0
  {
    parts == [] || (Eval(parts[0], holds) && EvalAll(parts[1..], holds))
  }

  predicate EvalAny<A>(parts: seq<Expr<A>>, holds: A -> bool)
    decreases parts, 0
  {
    parts != [] && (Eval(parts[0], holds) || EvalAny(parts[1..], holds))
  }

  // ---- Reading ---------------------------------------------------------------------------------

  datatype Read<A> = Stuck | Got(e: Expr<A>, rest: seq<Token<A>>)

  /** Level 1 reads chains of the tighter operator, level 2 chains of the looser one. */
  predicate IsOrAt(level: nat, andFirst: bool) {
    (level == 2) == andFirst
  }

  function ReadLevel<A>(andFirst: bool, level: nat, ts: seq<Token<A>>): (r: Read<A>)
    ensures r.Got? ==> |r.rest| < |ts|
    decreases |ts|, level, 1
  {
    if level == 0 then
      if ts == [] then Stuck
      else
        match ts[0]
        case Atom(a) => Got(One(a), ts[1..])
        case Open =>
          var inner := ReadLevel(andFirst, 2, ts[1..]);
          if inner.Got? && inner.rest != [] && inner.rest[0].Close? then Got(inner.e, inner.rest[1..]) else Stuck
        case Word(_) => Stuck
        case Close => Stuck
    else
      var first := ReadLevel(andFirst, level - 1, ts);
      if first.Stuck? then Stuck else ReadMore(andFirst, level, [first.e], first.rest)
  }

  function ReadMore<A>(andFirst: bool, level: nat, parts: seq<Expr<A>>, ts: seq<Token<A>>): (r: Read<A>)
    requires level > 0 && parts != []
    ensures r.Got? ==> |r.rest| <= |ts|
    decreases |ts|, level, 0
  {
    if ts != [] && ts[0] == Word(IsOrAt(level, andFirst)) then
      var next := ReadLevel(andFirst, level - 1, ts[1..]);
      if next.Stuck? then Stuck else ReadMore(andFirst, level, parts + [next.e], next.rest)
    else Got(Make(IsOrAt(level, andFirst), parts), ts)
  }

  /** The whole text as one expression, or None. */
  function Parse<A>(andFirst: bool, ts: seq<Token<A>>): Read<A> {
    var r := ReadLevel(andFirst, 2, ts);
    if r.Got? && r.rest == [] then r else Stuck
  }

  // ---- Reading undoes printing -----------------------------------------------------------------

  /** The chain operators of levels up to `level` do not start `rest`. */
  ghost predicate StopsBelow<A>(andFirst: bool, level: nat, rest: seq<Token<A>>) {
    forall k :: 1 <= k <= level && rest != [] ==> rest[0] != Word(IsOrAt(k, andFirst))
  }

  /** What level 0 reads, every level reads, if no chain goes on behind it. */
  lemma {:induction false} Lift<A>(andFirst: bool, level: nat, ts: seq<Token<A>>, e: Expr<A>, rest: seq<Token<A>>)
    requires ReadLevel(andFirst, 0, ts) == Got(e, rest) && StopsBelow(andFirst, level, rest)
    ensures ReadLevel(andFirst, level, ts) == Got(e, rest)
  {
    if level == 0 {
    } else {
      Lift(andFirst, level - 1, ts, e, rest);
    }
  }

  /** `part` is read back as `e`, whatever follows. */
  ghost predicate ReadsAs<A(!new)>(andFirst: bool, part: seq<Token<A>>, e: Expr<A>) {
    forall rest :: ReadLevel(andFirst, 0, part + rest) == Got(e, rest)
  }

  ghost predicate AllReadAs<A(!new)>(andFirst: bool, parts: seq<seq<Token<A>>>, es: seq<Expr<A>>) {
    |parts| == |es| && forall i :: 0 <= i < |parts| ==> ReadsAs(andFirst, parts[i], es[i])
  }

  function LevelOf(andFirst: bool, isOr: bool): nat {
    if isOr == andFirst then 2 else 1
  }

  lemma AllReadAsSplit<A(!new)>(andFirst: bool, parts: seq<seq<Token<A>>>, es: seq<Expr<A>>)
    requires parts != [] && |parts| == |es|
    ensures AllReadAs(andFirst, parts, es) <==>
      ReadsAs(andFirst, parts[0], es[0]) && AllReadAs(andFirst, parts[1..], es[1..])
  {
    if ReadsAs(andFirst, parts[0], es[0]) && AllReadAs(andFirst, parts[1..], es[1..]) {
      forall i | 0 <= i < |parts| ensures ReadsAs(andFirst, parts[i], es[i]) {
        if i > 0 {
          assert ReadsAs(andFirst, parts[1..][i - 1], es[1..][i - 1]);
        }
      }
    }
  }

  /** A chain goes on with its operator and a member. */
  lemma NextMember<A(!new)>(andFirst: bool, level: nat, ts: seq<Token<A>>, before: seq<Expr<A>>, e: Expr<A>,
                            more: seq<Token<A>>)
    requires level > 0 && before != [] && ts != [] && ts[0] == Word(IsOrAt(level, andFirst))
    requires ReadLevel(andFirst, level - 1, ts[1..]) == Got(e, more)
    ensures ReadMore(andFirst, level, before, ts) == ReadMore(andFirst, level, before + [e], more)
  {
  }

  lemma MemberReads<A(!new)>(andFirst: bool, isOr: bool, part: seq<Token<A>>, e: Expr<A>, more: seq<Token<A>>)
    requires ReadsAs(andFirst, part, e) && StopsBelow(andFirst, LevelOf(andFirst, isOr) - 1, more)
    ensures ReadLevel(andFirst, LevelOf(andFirst, isOr) - 1, part + more) == Got(e, more)
  {
    Lift(andFirst, LevelOf(andFirst, isOr) - 1, part + more, e, more);
  }

  lemma TailStep<A(!new)>(andFirst: bool, isOr: bool, parts: seq<seq<Token<A>>>, es: seq<Expr<A>>,
                          before: seq<Expr<A>>, rest: seq<Token<A>>)
    requires before != [] && parts != [] && AllReadAs(andFirst, parts, es) && StopsBelow(andFirst, 2, rest)
    ensures ReadMore(andFirst, LevelOf(andFirst, isOr), before, Tail(isOr, parts) + rest)
         == ReadMore(andFirst, LevelOf(andFirst, isOr), before + [es[0]], Tail(isOr, parts[1..]) + rest)
  {
    var more := Tail(isOr, parts[1..]) + rest;
    TailText(andFirst, isOr, parts, rest);
    assert ReadsAs(andFirst, parts[0], es[0]);
    MemberReads(andFirst, isOr, parts[0], es[0], more);
    NextMember(andFirst, LevelOf(andFirst, isOr), Tail(isOr, parts) + rest, before, es[0], more);
  }

  lemma TailText<A>(andFirst: bool, isOr: bool, parts: seq<seq<Token<A>>>, rest: seq<Token<A>>)
    requires parts != [] && StopsBelow(andFirst, 2, rest)
    ensures var ts, more := Tail(isOr, parts) + rest, Tail(isOr, parts[1..]) + rest;
      && ts != [] && ts[0] == Word(isOr) && ts[1..] == parts[0] + more
      && StopsBelow(andFirst, LevelOf(andFirst, isOr) - 1, more)
  {
    var next := Tail(isOr, parts[1..]);
    assert Tail(isOr, parts) + rest == [Word(isOr)] + (parts[0] + (next + rest));
    if next == [] {
      assert next + rest == rest;
    } else {
      assert (next + rest)[0] == Word(isOr);
    }
  }

  /** The rest of a chain. */
  lemma {:induction false} TailReads<A(!new)>(andFirst: bool, isOr: bool, parts: seq<seq<Token<A>>>, es: seq<Expr<A>>,
                                              before: seq<Expr<A>>, rest: seq<Token<A>>)
    requires before != [] && AllReadAs(andFirst, parts, es) && StopsBelow(andFirst, 2, rest)
    ensures ReadMore(andFirst, LevelOf(andFirst, isOr), before, Tail(isOr, parts) + rest)
         == Got(Make(isOr, before + es), rest)
  {
    if parts == [] {
      assert Tail(isOr, parts) + rest == rest && before + es == before;
    } else {
      TailStep(andFirst, isOr, parts, es, before, rest);
      AllReadAsSplit(andFirst, parts, es);
      TailReads(andFirst, isOr, parts[1..], es[1..], before + [es[0]], rest);
      assert before + [es[0]] + es[1..] == before + es;
    }
  }

  /** A chain is read back as one expression of its members. */
  lemma ChainReads<A(!new)>(andFirst: bool, isOr: bool, parts: seq<seq<Token<A>>>, es: seq<Expr<A>>,
                            rest: seq<Token<A>>)
    requires parts != [] && AllReadAs(andFirst, parts, es) && (rest == [] || rest[0].Close?)
    ensures ReadLevel(andFirst, 2, Joined(isOr, parts) + rest) == Got(Make(isOr, es), rest)
  {
    var level := LevelOf(andFirst, isOr);
    var more := Tail(isOr, parts[1..]) + rest;
    assert Joined(isOr, parts) + rest == parts[0] + more;
    AllReadAsSplit(andFirst, parts, es);
    Lift(andFirst, level - 1, parts[0] + more, es[0], more);
    TailReads(andFirst, isOr, parts[1..], es[1..], [es[0]], rest);
    assert [es[0]] + es[1..] == es;
    assert ReadLevel(andFirst, level, parts[0] + more) == Got(Make(isOr, es), rest);
    if level == 1 {
      assert ReadMore(andFirst, 2, [Make(isOr, es)], rest) == Got(Make(isOr, es), rest);
    }
  }

  /** A chain in parentheses is read back at level 0. */
  lemma WrappedReads<A(!new)>(andFirst: bool, isOr: bool, parts: seq<seq<Token<A>>>, es: seq<Expr<A>>)
    requires parts != [] && AllReadAs(andFirst, parts, es)
    ensures ReadsAs(andFirst, [Open] + Joined(isOr, parts) + [Close], Make(isOr, es))
  {
    forall rest
      ensures ReadLevel(andFirst, 0, [Open] + Joined(isOr, parts) + [Close] + rest) == Got(Make(isOr, es), rest)
    {
      ChainReads(andFirst, isOr, parts, es, [Close] + rest);
      ParenthesesRead(andFirst, Joined(isOr, parts), Make(isOr, es), rest);
    }
  }

  lemma ParenthesesRead<A(!new)>(andFirst: bool, inner: seq<Token<A>>, e: Expr<A>, rest: seq<Token<A>>)
    requires ReadLevel(andFirst, 2, inner + ([Close] + rest)) == Got(e, [Close] + rest)
    ensures ReadLevel(andFirst, 0, [Open] + inner + [Close] + rest) == Got(e, rest)
  {
    var ts := [Open] + inner + [Close] + rest;
    assert ts[1..] == inner + ([Close] + rest);
    assert ([Close] + rest)[1..] == rest;
  }

  lemma {:induction false} AtomsReadAs<A(!new)>(andFirst: bool, atoms: seq<A>)
    ensures AllReadAs(andFirst, AtomParts(atoms), Ones(atoms))
  {
    if atoms == [] {
    } else {
      AtomsReadAs(andFirst, atoms[1..]);
      forall rest ensures ReadLevel(andFirst, 0, [Atom(atoms[0])] + rest) == Got(One(atoms[0]), rest) {
        assert ([Atom(atoms[0])] + rest)[1..] == rest;
      }
      assert ReadsAs(andFirst, AtomParts(atoms)[0], Ones(atoms)[0]);
    }
  }

  lemma {:induction false} NestedReads<A(!new)>(andFirst: bool, q: QNode<A>)
    requires NonEmpty(q)
    ensures ReadsAs(andFirst, Print(q, false), Collapse(q))
    decreases q, 1
  {
    match q
    case QLeaf(a) =>
      AtomsReadAs(andFirst, [a]);
      assert AtomParts([a])[0] == Print(q, false) && Ones([a])[0] == Collapse(q);
    case QIn(atoms) => AtomsReadAs(andFirst, atoms); WrappedReads(andFirst, true, AtomParts(atoms), Ones(atoms));
    case QGroup(isOr, conds) =>
      EachReads(andFirst, conds);
      WrappedReads(andFirst, isOr, PrintEach(conds), CollapseAll(conds));
  }

  lemma {:induction false} EachReads<A(!new)>(andFirst: bool, conds: seq<QNode<A>>)
    requires forall c :: c in conds ==> NonEmpty(c)
    ensures AllReadAs(andFirst, PrintEach(conds), CollapseAll(conds))
    decreases conds, 0
  {
    if conds == [] {
    } else {
      NestedReads(andFirst, conds[0]);
      EachReads(andFirst, conds[1..]);
      AllReadAsSplit(andFirst, PrintEach(conds), CollapseAll(conds));
    }
  }

  /** The printer is unambiguous: under either precedence the printed text is read back as the tree it
      came from, groups of one replaced by their member. */
  lemma PrintIsUnambiguous<A(!new)>(andFirst: bool, q: QNode<A>, root: bool)
    requires NonEmpty(q)
    ensures Parse(andFirst, Print(q, root)) == Got(Collapse(q), [])
  {
    if root && q.QGroup? && |q.conds| > 1 {
      EachReads(andFirst, q.conds);
      ChainReads(andFirst, q.isOr, PrintEach(q.conds), CollapseAll(q.conds), []);
      assert Joined(q.isOr, PrintEach(q.conds)) + [] == Print(q, root);
    } else {
      NestedReads(andFirst, q);
      assert Print(q, root) + [] == Print(q, root);
      assert Print(q, root) == Print(q, false);
      Lift(andFirst, 2, Print(q, root), Collapse(q), []);
    }
  }

  // ---- What the text means ----------------------------------------------------------------------

  /** The meaning of the tree itself. */
  ghost predicate Means<A>(q: QNode<A>, holds: A -> bool) {
    match q
    case QLeaf(a) => holds(a)
    case QIn(atoms) => exists i :: 0 <= i < |atoms| && holds(atoms[i])
    case QGroup(true, conds) => exists c :: c in conds && Means(c, holds)
    case QGroup(false, conds) => forall c :: c in conds ==> Means(c, holds)
  }

  lemma MakeEval<A>(isOr: bool, parts: seq<Expr<A>>, holds: A -> bool)
    requires parts != []
    ensures Eval(Make(isOr, parts), holds) <==> if isOr then EvalAny(parts, holds) else EvalAll(parts, holds)
  {
  }

  lemma {:induction false} OnesEval<A>(atoms: seq<A>, holds: A -> bool)
    ensures EvalAny(Ones(atoms), holds) <==> exists i :: 0 <= i < |atoms| && holds(atoms[i])
  {
    if atoms == [] {
    } else {
      OnesEval(atoms[1..], holds);
      if i :| 0 <= i < |atoms| && holds(atoms[i]) {
        assert i > 0 ==> holds(atoms[1..][i - 1]);
      }
      if i :| 0 <= i < |atoms[1..]| && holds(atoms[1..][i]) {
        assert holds(atoms[i + 1]);
      }
    }
  }

  lemma {:induction false} CollapseMeans<A>(q: QNode<A>, holds: A -> bool)
    requires NonEmpty(q)
    ensures Eval(Collapse(q), holds) <==> Means(q, holds)
    decreases q, 1
  {
    match q
    case QLeaf(_) =>
    case QIn(atoms) => MakeEval(true, Ones(atoms), holds); OnesEval(atoms, holds);
    case QGroup(isOr, conds) => MakeEval(isOr, CollapseAll(conds), holds); CollapseAllMeans(conds, holds);
  }

  lemma {:induction false} CollapseAllMeans<A>(conds: seq<QNode<A>>, holds: A -> bool)
    requires forall c :: c in conds ==> NonEmpty(c)
    ensures EvalAny(CollapseAll(conds), holds) <==> exists c :: c in conds && Means(c, holds)
    ensures EvalAll(CollapseAll(conds), holds) <==> forall c :: c in conds ==> Means(c, holds)
    decreases conds, 0
  {
    if conds == [] {
    } else {
      CollapseMeans(conds[0], holds);
      CollapseAllMeans(conds[1..], holds);
      assert conds == [conds[0]] + conds[1..];
    }
  }

  /** What a reader makes of a text: nothing at all if the text is not an expression. */
  ghost predicate TextHolds<A>(andFirst: bool, ts: seq<Token<A>>, holds: A -> bool) {
    var r := Parse(andFirst, ts);
    r.Got? && Eval(r.e, holds)
  }

  /** The printed text means what the tree means, whichever operator the reader binds tighter. */
  lemma PrintKeepsMeaning<A(!new)>(andFirst: bool, q: QNode<A>, root: bool, holds: A -> bool)
    requires NonEmpty(q)
    ensures TextHolds(andFirst, Print(q, root), holds) <==> Means(q, holds)
  {
    PrintIsUnambiguous(andFirst, q, root);
    CollapseMeans(q, holds);
  }

  // ---- Outer parentheses -------------------------------------------------------------------------

  /** Parentheses open after the first `n` tokens. */
  function Depth<A>(ts: seq<Token<A>>, n: nat): int
    requires n <= |ts|
  {
    if n == 0 then 0
    else Depth(ts, n - 1) + (if ts[n - 1].Open? then 1 else if ts[n - 1].Close? then -1 else 0)
  }

  /** The whole text is wrapped in one pair of parentheses: what Thruk rejects. */
  ghost predicate Enclosed<A>(ts: seq<Token<A>>) {
    ts != [] && ts[0].Open? && forall n :: 0 < n < |ts| ==> Depth(ts, n) > 0
  }

  /** Every prefix has at least as many opened as closed, and in the end they are equal. */
  ghost predicate Balanced<A>(ts: seq<Token<A>>) {
    Depth(ts, |ts|) == 0 && forall n :: 0 <= n <= |ts| ==> Depth(ts, n) >= 0
  }

  lemma {:induction false} DepthAppend<A>(a: seq<Token<A>>, b: seq<Token<A>>, n: nat)
    requires n <= |a| + |b|
    ensures Depth(a + b, n) == if n <= |a| then Depth(a, n) else Depth(a, |a|) + Depth(b, n - |a|)
  {
    if n == 0 {
    } else {
      DepthAppend(a, b, n - 1);
    }
  }

  lemma BalancedAppend<A>(a: seq<Token<A>>, b: seq<Token<A>>)
    requires Balanced(a) && Balanced(b)
    ensures Balanced(a + b)
  {
    forall n | 0 <= n <= |a| + |b| ensures Depth(a + b, n) >= 0 {
      DepthAppend(a, b, n);
    }
    DepthAppend(a, b, |a| + |b|);
  }

  lemma WrapEncloses<A>(inner: seq<Token<A>>)
    requires Balanced(inner)
    ensures Balanced([Open] + inner + [Close]) && Enclosed([Open] + inner + [Close])
  {
    var ts := [Open] + inner + [Close];
    var front := [Open] + inner;
    assert ts == front + [Close];
    forall n | 0 <= n < |ts| ensures Depth(ts, n) == if n == 0 then 0 else 1 + Depth(inner, n - 1) {
      DepthAppend(front, [Close], n);
      DepthAppend([Open], inner, n);
      assert Depth<A>([Open], 0) == 0 && Depth<A>([Open], 1) == 1;
    }
    assert Depth(ts, |ts|) == Depth(ts, |ts| - 1) - 1;
  }

  lemma SingleIsBalanced<A>(t: Token<A>)
    requires !t.Open? && !t.Close?
    ensures Balanced([t])
  {
    assert Depth([t], 0) == 0 && Depth([t], 1) == 0;
  }

  lemma {:induction false} TailIsBalanced<A>(isOr: bool, parts: seq<seq<Token<A>>>)
    requires forall i :: 0 <= i < |parts| ==> Balanced(parts[i])
    ensures Balanced(Tail(isOr, parts))
  {
    if parts == [] {
    } else {
      SingleIsBalanced<A>(Word(isOr));
      BalancedAppend([Word(isOr)], parts[0]);
      TailIsBalanced(isOr, parts[1..]);
      BalancedAppend([Word(isOr)] + parts[0], Tail(isOr, parts[1..]));
    }
  }

  lemma JoinedIsBalanced<A>(isOr: bool, parts: seq<seq<Token<A>>>)
    requires parts != [] && forall i :: 0 <= i < |parts| ==> Balanced(parts[i])
    ensures Balanced(Joined(isOr, parts))
  {
    TailIsBalanced(isOr, parts[1..]);
    BalancedAppend(parts[0], Tail(isOr, parts[1..]));
  }

  lemma {:induction false} AtomPartsAreBalanced<A>(atoms: seq<A>)
    ensures forall i :: 0 <= i < |atoms| ==> Balanced(AtomParts(atoms)[i])
  {
    if atoms == [] {
    } else {
      SingleIsBalanced(Atom(atoms[0]));
      AtomPartsAreBalanced(atoms[1..]);
    }
  }

  lemma {:induction false} NestedIsBalanced<A>(q: QNode<A>)
    requires NonEmpty(q)
    ensures Balanced(Print(q, false)) && Print(q, false) != []
    decreases q, 1
  {
    match q
    case QLeaf(a) => SingleIsBalanced(Atom(a));
    case QIn(atoms) =>
      AtomPartsAreBalanced(atoms);
      JoinedIsBalanced(true, AtomParts(atoms));
      WrapEncloses(Joined(true, AtomParts(atoms)));
    case QGroup(isOr, conds) =>
      EachIsBalanced(conds);
      JoinedIsBalanced(isOr, PrintEach(conds));
      WrapEncloses(Joined(isOr, PrintEach(conds)));
  }

  lemma {:induction false} EachIsBalanced<A>(conds: seq<QNode<A>>)
    requires forall c :: c in conds ==> NonEmpty(c)
    ensures forall i :: 0 <= i < |conds| ==> Balanced(PrintEach(conds)[i]) && PrintEach(conds)[i] != []
    decreases conds, 0
  {
    if conds == [] {
    } else {
      NestedIsBalanced(conds[0]);
      EachIsBalanced(conds[1..]);
    }
  }

  /** What a group of one stands for, all the way down. */
  function Core<A>(q: QNode<A>): QNode<A> {
    if q.QGroup? && |q.conds| == 1 then Core(q.conds[0]) else q
  }

  lemma {:induction false} CorePrints<A>(q: QNode<A>)
    requires NonEmpty(q)
    ensures Print(q, false) == Print(Core(q), false) && NonEmpty(Core(q))
    ensures !(Core(q).QGroup? && |Core(q).conds| == 1)
  {
    if q.QGroup? && |q.conds| == 1 {
      CorePrints(q.conds[0]);
    }
  }

  /** A root of two or more conditions is never wrapped: after its first condition no parenthesis is open. */
  lemma RootOfTwoIsNotWrapped<A>(isOr: bool, conds: seq<QNode<A>>)
    requires |conds| >= 2 && NonEmpty(QGroup(isOr, conds))
    ensures !Enclosed(Print(QGroup(isOr, conds), true))
  {
    EachIsBalanced(conds);
    var parts := PrintEach(conds);
    var more := Tail(isOr, parts[1..]);
    assert Print(QGroup(isOr, conds), true) == parts[0] + more;
    assert |more| >= 1;
    DepthAppend(parts[0], more, |parts[0]|);
  }

  /** A nested text is wrapped exactly when it boils down to anything but one plain leaf. An `in` list counts as
      more, even of one item: it is printed in parentheses of its own. */
  lemma NestedIsWrappedExactly<A>(q: QNode<A>)
    requires NonEmpty(q)
    ensures Enclosed(Print(q, false)) <==> !Core(q).QLeaf?
  {
    CorePrints(q);
    match Core(q)
    case QLeaf(a) => assert Print(Core(q), false) == [Atom(a)];
    case QIn(atoms) =>
      AtomPartsAreBalanced(atoms);
      JoinedIsBalanced(true, AtomParts(atoms));
      WrapEncloses(Joined(true, AtomParts(atoms)));
    case QGroup(isOr, conds) =>
      EachIsBalanced(conds);
      JoinedIsBalanced(isOr, PrintEach(conds));
      WrapEncloses(Joined(isOr, PrintEach(conds)));
  }

  /** The source says the root is never wrapped. Exactly when that fails: the root has no two conditions
      of its own, and boils down to anything but one plain leaf. The parentheses a leaf is printed with, as in
      `(state = 1)`, belong to its token and do not count: a root of one leaf is not wrapped here. */
  lemma RootIsWrappedExactly<A>(q: QNode<A>)
    requires NonEmpty(q)
    ensures Enclosed(Print(q, true)) <==> !(q.QGroup? && |q.conds| >= 2) && !Core(q).QLeaf?
  {
    if q.QGroup? && |q.conds| >= 2 {
      RootOfTwoIsNotWrapped(q.isOr, q.conds);
    } else {
      NestedIsWrappedExactly(q);
      assert Print(q, true) == Print(q, false);
    }
  }
}

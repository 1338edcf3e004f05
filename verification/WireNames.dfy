/** Parameters as they are written in a request (filters.py): a column's name and an operator in brackets.

    Keys of the dictionary are texts there. The model's keys stand for them: no two are written alike. */
module WireNames {
  import opened Basics
  import opened FilterTree
  import opened ThrukQuery
  import opened FilterCompiler
  import opened ParamDictionary

  function FieldText(f: Field): string {
    match f
    case Name => "name"
    case Address => "address"
    case Host => "host_name"
    case Service => "service_description"
    case Description => "description"
    case Message => "message"
    case Contact => "contact_name"
    case other => ""
  }

  function ColumnText(c: Column): string {
    match c
    case TextCol(f) => FieldText(f)
    case StateCol => "state"
    case TimeCol => "time"
    case GroupsCol => "groups"
    case HostGroupsCol => "host_groups"
    case VarCol(name) => "_" + name
  }

  function OpText(b: BracketOp): string {
    match b
    case Plain => ""
    case Ne => "[ne]"
    case GteOp => "[gte]"
    case LteOp => "[lte]"
    case RegexOp => "[regex]"
    case NotIn => "[notin]"
  }

  function KeyText(k: Key): string {
    ColumnText(k.column) + OpText(k.bop)
  }

  /** A key the compiler makes: a plain column by one of seven names, and no operator on a variable. */
  predicate IsCompiledKey(k: Key) {
    (k.column.TextCol? ==> IsText(k.column.f)) && (k.column.VarCol? ==> k.bop == Plain)
  }

  lemma CompiledKeys(ctx: Context, l: Node)
    requires WellFormed(l) && ParamOf(ctx, l).Ok?
    ensures IsCompiledKey(ParamOf(ctx, l).value.0)
  {
  }

  /** The third character tells columns of the same length apart. */
  lemma ColumnsDiffer(a: Column, b: Column)
    requires !a.VarCol? && !b.VarCol? && (a.TextCol? ==> IsText(a.f)) && (b.TextCol? ==> IsText(b.f))
    ensures ColumnText(a) == ColumnText(b) ==> a == b
    ensures ColumnText(a) != "" && ColumnText(a)[0] != '_'
  {
    assert "name"[0] == 'n' && "time"[0] == 't';
    assert "address"[0] == 'a' && "message"[0] == 'm';
    assert "description"[0] == 'd' && "host_groups"[0] == 'h';
  }

  ghost predicate NoBracket(s: string) {
    forall i :: 0 <= i < |s| ==> s[i] != '['
  }

  lemma CharOf(a: string, x: string, i: nat)
    requires i < |a + x|
    ensures (a + x)[i] == if i < |a| then a[i] else x[i - |a|]
  {
  }

  lemma NotShorter(a: string, b: string, x: string, y: string)
    requires NoBracket(b) && a + x == b + y && (x == "" || x[0] == '[')
    ensures |a| >= |b|
  {
    if x != "" {
      CharOf(a, x, |a|);
      CharOf(b, y, |a|);
    }
  }

  /** A text without a bracket, followed by nothing or by a bracket, is told from what follows it. */
  lemma SplitAtBracket(a: string, b: string, x: string, y: string)
    requires NoBracket(a) && NoBracket(b) && a + x == b + y
    requires (x == "" || x[0] == '[') && (y == "" || y[0] == '[')
    ensures a == b && x == y
  {
    NotShorter(a, b, x, y);
    NotShorter(b, a, y, x);
    assert a == (a + x)[..|a|] && b == (b + y)[..|b|];
    assert x == (a + x)[|a|..] && y == (b + y)[|b|..];
  }

  lemma FieldHasNoBracket(f: Field)
    ensures NoBracket(FieldText(f))
  {
  }

  lemma ColumnHasNoBracket(c: Column)
    requires !c.VarCol?
    ensures NoBracket(ColumnText(c))
  {
    if c.TextCol? {
      FieldHasNoBracket(c.f);
    }
  }

  lemma OpsDiffer(a: BracketOp, b: BracketOp)
    ensures OpText(a) == OpText(b) ==> a == b
    ensures OpText(a) == "" || OpText(a)[0] == '['
  {
    assert "[gte]"[1] == 'g' && "[lte]"[1] == 'l';
  }

  lemma FirstOf(k: Key)
    requires IsCompiledKey(k)
    ensures KeyText(k) != "" && (KeyText(k)[0] == '_' <==> k.column.VarCol?)
  {
    if !k.column.VarCol? {
      ColumnsDiffer(k.column, k.column);
    }
  }

  /** Two keys the compiler makes are written alike only if they are the same key. */
  lemma KeysAreWrittenApart(j: Key, k: Key)
    requires IsCompiledKey(j) && IsCompiledKey(k) && KeyText(j) == KeyText(k)
    ensures j == k
  {
    OpsDiffer(j.bop, k.bop);
    OpsDiffer(k.bop, j.bop);
    FirstOf(j);
    FirstOf(k);
    if j.column.VarCol? {
      assert j.column.name == KeyText(j)[1..] && k.column.name == KeyText(k)[1..];
    } else {
      ColumnHasNoBracket(j.column);
      ColumnHasNoBracket(k.column);
      SplitAtBracket(ColumnText(j.column), ColumnText(k.column), OpText(j.bop), OpText(k.bop));
      ColumnsDiffer(j.column, k.column);
    }
  }

  /** So two leaves clash in the request exactly where they share a key here. */
  lemma ClashOnTheWire(ctx: Context, a: Node, b: Node)
    requires WellFormed(a) && WellFormed(b) && ParamOf(ctx, a).Ok? && ParamOf(ctx, b).Ok?
    ensures SameKey(ctx, a, b) <==> KeyText(ParamOf(ctx, a).value.0) == KeyText(ParamOf(ctx, b).value.0)
  {
    CompiledKeys(ctx, a);
    CompiledKeys(ctx, b);
    if KeyText(ParamOf(ctx, a).value.0) == KeyText(ParamOf(ctx, b).value.0) {
      KeysAreWrittenApart(ParamOf(ctx, a).value.0, ParamOf(ctx, b).value.0);
    }
  }

  /** A custom variable is written `_` and its name in capitals, with `HOST` in front for one of the host's own. */
  lemma VariableOnTheWire(ctx: Context, host: bool, op: Op, name: string, val: string)
    ensures var f := if host then HostCustomVar else CustomVar;
      ParamOf(ctx, Leaf(f, op, Variable(name, val))).Ok? &&
      KeyText(ParamOf(ctx, Leaf(f, op, Variable(name, val))).value.0) ==
        if host then "_HOST" + Upper(name) else "_" + Upper(name)
  {
    assert "_" + ("HOST" + Upper(name)) + "" == "_HOST" + Upper(name);
    assert "_" + Upper(name) + "" == "_" + Upper(name);
  }
}

/** `infer_alert_type_regex` (filters.py): host and service states share one integer column of the alert
    log, so a filter that names states of one kind only is narrowed to the alerts of that kind. */
module AlertType {
  import opened Basics
  import opened FilterTree

  datatype Class = HostOnly | ServiceOnly | Ambiguous

  function Classify(s: string): Class {
    var v := Lower(s);
    if v in {"up", "down", "unreachable"} then HostOnly
    else if v in {"ok", "warning", "critical", "unknown"} then ServiceOnly
    else Ambiguous
  }

  /** `_contains_state`. */
  predicate ContainsState(n: Node) {
    match n
    case Leaf(f, _, _) => f == State
    case Group(_, conds) => exists c :: c in conds && ContainsState(c)
  }

  function LeafClasses(op: Op, v: Value): set<Class> {
    if op == Eq then {if v.One? then Classify(v.s) else Ambiguous}
    else if op == In && v.Many? then set i | 0 <= i < |v.items| :: Classify(v.items[i])
    else {Ambiguous}
  }

  /** The classes met on the way down through AND groups. */
  function Classes(n: Node): set<Class>
    decreases n, 1
  {
    match n
    case Leaf(f, op, v) => if f == State then LeafClasses(op, v) else {}
    case Group(true, _) => if ContainsState(n) then {Ambiguous} else {}
    case Group(false, conds) => ClassesOf(conds)
  }

  function ClassesOf(conds: seq<Node>): set<Class>
    decreases conds, 0
  {
    if conds == [] then {} else Classes(conds[0]) + ClassesOf(conds[1..])
  }

  /** `_walk`, the set growing as the tree is walked. */
  method Walk(met: set<Class>, n: Node) returns (classes: set<Class>)
    ensures classes == met + Classes(n)
    decreases n
  {
    classes := met;
    match n
    case Leaf(f, op, v) =>
      if f == State {
        if op == In && v.Many? {
          for i := 0 to |v.items|
            invariant classes == met + set j | 0 <= j < i :: Classify(v.items[j])
          {
            classes := classes + {Classify(v.items[i])};
          }
        } else {
          classes := classes + {if op == Eq && v.One? then Classify(v.s) else Ambiguous};
        }
      }
    case Group(true, _) =>
      if ContainsState(n) {
        classes := classes + {Ambiguous};
      }
    case Group(false, conds) =>
      for i := 0 to |conds|
        invariant classes + ClassesOf(conds[i..]) == met + ClassesOf(conds)
      {
        assert conds[i..][1..] == conds[i + 1..];
        classes := Walk(classes, conds[i]);
      }
      assert conds[|conds|..] == [];
  }

  function Inferred(n: Node): Option<Class> {
    if Classes(n) == {HostOnly} then Some(HostOnly)
    else if Classes(n) == {ServiceOnly} then Some(ServiceOnly)
    else None
  }

  method InferAlertType(n: Option<Node>) returns (r: Option<Class>)
    ensures r == if n.None? then None else Inferred(n.value)
  {
    if n.None? {
      return None;
    }
    var classes := Walk({}, n.value);
    return if classes == {} || Ambiguous in classes then None
           else if classes == {HostOnly} then Some(HostOnly)
           else if classes == {ServiceOnly} then Some(ServiceOnly)
           else None;
  }

  // ---- What the narrowing means --------------------------------------------------------------------------

  /** An alert row is a host's or a service's; a state name of one kind is meant for that kind only. */
  ghost predicate OneTyped(t: Thruk, s: string, row: Row, kind: Class) {
    OneHolds(t, Logs, State, Eq, s, row) && (Classify(s) == Ambiguous || Classify(s) == kind)
  }

  ghost predicate Typed(t: Thruk, n: Node, row: Row, kind: Class) {
    match n
    case Leaf(f, op, v) =>
      if f == State && op == Eq && v.One? then OneTyped(t, v.s, row, kind)
      else if f == State && op == In && v.Many? then
        exists i :: 0 <= i < |v.items| && OneTyped(t, v.items[i], row, kind)
      else LeafHolds(t, Logs, f, op, v, row)
    case Group(true, conds) => exists c :: c in conds && Typed(t, c, row, kind)
    case Group(false, conds) => forall c :: c in conds ==> Typed(t, c, row, kind)
  }

  /** Without a state the kind of row does not matter. */
  lemma {:induction false} NoStateIsUntyped(t: Thruk, n: Node, row: Row, kind: Class)
    requires !ContainsState(n)
    ensures Typed(t, n, row, kind) <==> Holds(t, Logs, n, row)
  {
    if n.Leaf? {
    } else {
      forall c | c in n.conds ensures Typed(t, c, row, kind) <==> Holds(t, Logs, c, row) {
        NoStateIsUntyped(t, c, row, kind);
      }
    }
  }

  lemma LeafNarrows(t: Thruk, op: Op, v: Value, row: Row, kind: Class, only: Class)
    requires only != Ambiguous && LeafClasses(op, v) <= {only}
    ensures Typed(t, Leaf(State, op, v), row, kind) ==> LeafClasses(op, v) != {} && kind == only
    ensures kind == only ==> (Typed(t, Leaf(State, op, v), row, kind) <==> LeafHolds(t, Logs, State, op, v, row))
  {
    if op == In && v.Many? {
      forall i | 0 <= i < |v.items| ensures Classify(v.items[i]) == only {
        assert Classify(v.items[i]) in LeafClasses(op, v);
      }
    } else {
      assert LeafClasses(op, v) == {if op == Eq && v.One? then Classify(v.s) else Ambiguous};
    }
  }

  lemma {:induction false} TreeNarrows(t: Thruk, n: Node, row: Row, kind: Class, only: Class)
    requires only != Ambiguous && Classes(n) <= {only}
    ensures Typed(t, n, row, kind) && Classes(n) != {} ==> kind == only
    ensures kind == only ==> (Typed(t, n, row, kind) <==> Holds(t, Logs, n, row))
    decreases n, 1
  {
    match n
    case Leaf(f, op, v) =>
      if f == State {
        LeafNarrows(t, op, v, row, kind, only);
      }
    case Group(true, _) =>
      assert !ContainsState(n) by {
        assert Ambiguous !in Classes(n);
      }
      NoStateIsUntyped(t, n, row, kind);
    case Group(false, conds) => ListNarrows(t, conds, row, kind, only);
  }

  lemma {:induction false} ListNarrows(t: Thruk, conds: seq<Node>, row: Row, kind: Class, only: Class)
    requires only != Ambiguous && ClassesOf(conds) <= {only}
    ensures (forall c :: c in conds ==> Typed(t, c, row, kind)) && ClassesOf(conds) != {} ==> kind == only
    ensures kind == only ==> forall c :: c in conds ==> (Typed(t, c, row, kind) <==> Holds(t, Logs, c, row))
    decreases conds, 0
  {
    if conds == [] {
    } else {
      TreeNarrows(t, conds[0], row, kind, only);
      ListNarrows(t, conds[1..], row, kind, only);
      assert conds == [conds[0]] + conds[1..];
    }
  }

  /** When the type is narrowed, the filter on the rows of that type means what it means with its state names
      taken at their kind. Whether the compiled query keeps that meaning is another matter: see AlertQuery. */
  lemma NarrowedIsTyped(t: Thruk, n: Node, row: Row, kind: Class)
    requires Inferred(n).Some?
    ensures Typed(t, n, row, kind) <==> kind == Inferred(n).value && Holds(t, Logs, n, row)
  {
    TreeNarrows(t, n, row, kind, Inferred(n).value);
  }

  /** A state leaf is reached through AND groups only. */
  ghost predicate Reached(n: Node, m: Node) {
    n == m || (n.Group? && !n.isOr && exists c :: c in n.conds && Reached(c, m))
  }

  /** What one reached node contributes: a state leaf its values' classes, an OR that holds a state nothing
      to narrow by. */
  ghost predicate InNode(m: Node, x: Class) {
    match m
    case Leaf(f, op, v) => f == State && x in LeafClasses(op, v)
    case Group(isOr, _) => isOr && x == Ambiguous && ContainsState(m)
  }

  /** Some reached node contributes the class. */
  ghost predicate Met(n: Node, x: Class) {
    exists m :: Reached(n, m) && InNode(m, x)
  }

  lemma {:induction false} ClassesAreMet(n: Node, x: Class)
    ensures x in Classes(n) <==> Met(n, x)
    decreases n, 1
  {
    match n
    case Leaf(_, _, _) => assert x in Classes(n) ==> Reached(n, n) && InNode(n, x);
    case Group(true, _) => assert x in Classes(n) ==> Reached(n, n) && InNode(n, x);
    case Group(false, conds) =>
      ClassesOfAreMet(conds, x);
      if c :| c in conds && Met(c, x) {
        var m :| Reached(c, m) && InNode(m, x);
        assert Reached(n, m);
      }
  }

  lemma {:induction false} ClassesOfAreMet(conds: seq<Node>, x: Class)
    ensures x in ClassesOf(conds) <==> exists c :: c in conds && Met(c, x)
    decreases conds, 0
  {
    if conds == [] {
    } else {
      ClassesAreMet(conds[0], x);
      ClassesOfAreMet(conds[1..], x);
      assert conds == [conds[0]] + conds[1..];
    }
  }

  /** Exactly when the type is narrowed to a kind: some reached node names a state of that kind, and none
      anything else. */
  lemma NarrowedExactly(n: Node, only: Class)
    requires only != Ambiguous
    ensures Inferred(n) == Some(only) <==> Met(n, only) && forall x :: Met(n, x) ==> x == only
  {
    forall x ensures x in Classes(n) <==> Met(n, x) {
      ClassesAreMet(n, x);
    }
    if Met(n, only) && forall x :: Met(n, x) ==> x == only {
      assert Classes(n) == {only};
    }
  }
}

/** Root-cause attribution over the `parents` topology (tools/triage.py).

    The topology maps a host to the hosts it hangs from. Nothing rules out loops:
    every walk keeps a `seen` set, and two dictionaries remember answers between
    walks. The specification speaks of paths only; the class below is the code. */
module RootCause {
  import opened Basics
  import opened Order

  type Host = string
  type Topology = map<Host, seq<Host>>

  /** `parents.get(host, [])`. */
  function ParentsOf(g: Topology, h: Host): seq<Host> {
    if h in g then g[h] else []
  }

  /** A walk upwards: each host is followed by one of its parents. */
  ghost predicate IsWalk(g: Topology, p: seq<Host>) {
    p != [] && forall i :: 0 <= i < |p| - 1 ==> p[i + 1] in ParentsOf(g, p[i])
  }

  ghost predicate WalkFromTo(g: Topology, a: Host, b: Host, p: seq<Host>) {
    IsWalk(g, p) && p[0] == a && p[|p| - 1] == b
  }

  /** `b` is `a` itself or lies above it. */
  ghost predicate Reaches(g: Topology, a: Host, b: Host) {
    exists p :: WalkFromTo(g, a, b, p)
  }

  /** `b` lies strictly above `a`: at least one step up. On a loop a host lies above itself. */
  ghost predicate Above(g: Topology, a: Host, b: Host) {
    exists q :: q in ParentsOf(g, a) && Reaches(g, q, b)
  }

  ghost predicate HasDownAboveSpec(g: Topology, down: set<Host>, h: Host) {
    exists d :: d in down && Above(g, h, d)
  }

  /** The DOWN hosts at or above `h`. */
  ghost function DownAtOrAbove(g: Topology, down: set<Host>, h: Host): set<Host> {
    set d | d in down && Reaches(g, h, d)
  }

  /** Those of them with no DOWN host above. */
  ghost function Tops(g: Topology, down: set<Host>, h: Host): set<Host> {
    set d | d in DownAtOrAbove(g, down, h) && !HasDownAboveSpec(g, down, d)
  }

  /** The host blamed for `h`: the first topmost DOWN host by name, or, when loops leave no topmost
      one, the first DOWN host at all. */
  ghost function RootSpec(g: Topology, down: set<Host>, h: Host): Option<Host> {
    NamesAreTotallyOrdered();
    var candidates := DownAtOrAbove(g, down, h);
    var tops := Tops(g, down, h);
    if candidates == {} then None
    else if tops != {} then Some(Least(tops, StrLe))
    else Some(Least(candidates, StrLe))
  }

  // ---- Walks --------------------------------------------------------------------------------

  lemma ReachesSelf(g: Topology, a: Host)
    ensures Reaches(g, a, a)
  {
    assert WalkFromTo(g, a, a, [a]);
  }

  lemma ReachesStep(g: Topology, a: Host, b: Host, c: Host)
    requires Reaches(g, a, b) && c in ParentsOf(g, b)
    ensures Reaches(g, a, c)
  {
    var p :| WalkFromTo(g, a, b, p);
    assert WalkFromTo(g, a, c, p + [c]);
  }

  lemma ReachesTransitive(g: Topology, a: Host, b: Host, c: Host)
    requires Reaches(g, a, b) && Reaches(g, b, c)
    ensures Reaches(g, a, c)
  {
    var p :| WalkFromTo(g, a, b, p);
    var q :| WalkFromTo(g, b, c, q);
    var r := p + q[1..];
    forall i | 0 <= i < |r| - 1 ensures r[i + 1] in ParentsOf(g, r[i]) {
      if i >= |p| - 1 {
        assert r[i] == q[i - (|p| - 1)] && r[i + 1] == q[i - (|p| - 1) + 1];
      }
    }
    assert WalkFromTo(g, a, c, r);
  }

  lemma AboveThenReaches(g: Topology, a: Host, b: Host, c: Host)
    requires Above(g, a, b) && Reaches(g, b, c)
    ensures Above(g, a, c)
  {
    var q :| q in ParentsOf(g, a) && Reaches(g, q, b);
    ReachesTransitive(g, q, b, c);
  }

  /** A reachable host is the start itself or lies strictly above it. */
  lemma ReachesSplit(g: Topology, a: Host, b: Host)
    ensures Reaches(g, a, b) <==> a == b || Above(g, a, b)
  {
    ReachesSelf(g, a);
    if Reaches(g, a, b) && a != b {
      var p :| WalkFromTo(g, a, b, p);
      assert WalkFromTo(g, p[1], b, p[1..]);
      assert p[1] in ParentsOf(g, a) && Reaches(g, p[1], b);
    }
    if Above(g, a, b) {
      var q :| q in ParentsOf(g, a) && Reaches(g, q, b);
      ReachesSelf(g, a);
      ReachesStep(g, a, a, q);
      ReachesTransitive(g, a, q, b);
    }
  }

  /** `x` is one of `start` or lies above one of them. */
  ghost predicate From(g: Topology, start: seq<Host>, x: Host) {
    exists s :: s in start && Reaches(g, s, x)
  }

  /** Every host a walk from `start` can meet is in `u`. */
  ghost predicate IsUniverse(g: Topology, start: seq<Host>, u: set<Host>) {
    (forall x :: x in start ==> x in u) && (forall h, q :: q in ParentsOf(g, h) ==> q in u)
  }

  lemma UniverseExists(g: Topology, start: seq<Host>) returns (u: set<Host>)
    ensures IsUniverse(g, start, u)
  {
    u := (set x | x in start) + (set h, i | h in g && 0 <= i < |g[h]| :: g[h][i]);
    forall h, q | q in ParentsOf(g, h) ensures q in u {
      var i :| 0 <= i < |g[h]| && g[h][i] == q;
    }
  }

  /** What both depth-first walks keep: nothing but hosts from `start` is met, and a host met but not
      yet expanded waits on the stack. */
  ghost predicate Explored(g: Topology, start: seq<Host>, u: set<Host>, seen: set<Host>, stack: seq<Host>) {
    && (forall x :: x in start ==> x in seen || x in stack)
    && (forall x, y :: x in seen && y in ParentsOf(g, x) ==> y in seen || y in stack)
    && (forall x :: x in seen || x in stack ==> From(g, start, x) && x in u)
  }

  lemma ExploreStart(g: Topology, start: seq<Host>, u: set<Host>)
    requires IsUniverse(g, start, u)
    ensures Explored(g, start, u, {}, start)
  {
    forall x | x in start ensures From(g, start, x) { ReachesSelf(g, x); }
  }

  /** One turn of the loop: the popped host was met before, or it is expanded now. */
  lemma ExploreStep(g: Topology, start: seq<Host>, u: set<Host>, seen: set<Host>, stack: seq<Host>)
    requires IsUniverse(g, start, u) && stack != [] && Explored(g, start, u, seen, stack)
    ensures var node, rest := stack[|stack| - 1], stack[..|stack| - 1];
      && node in u && From(g, start, node)
      && (node in seen ==> Explored(g, start, u, seen, rest))
      && Explored(g, start, u, seen + {node}, rest + ParentsOf(g, node))
  {
    var node, rest := stack[|stack| - 1], stack[..|stack| - 1];
    assert forall x :: x in stack <==> x == node || x in rest;
    assert From(g, start, node) by { assert node in stack; }
    forall q | q in ParentsOf(g, node) ensures From(g, start, q) {
      var s :| s in start && Reaches(g, s, node);
      ReachesStep(g, s, node, q);
    }
  }

  /** A set closed under parents keeps every walk that starts in it. */
  lemma {:induction false} ClosedKeepsWalk(g: Topology, s: set<Host>, p: seq<Host>)
    requires IsWalk(g, p) && p[0] in s
    requires forall x, y :: x in s && y in ParentsOf(g, x) ==> y in s
    ensures p[|p| - 1] in s
  {
    if |p| == 1 {
    } else {
      assert p[1] in ParentsOf(g, p[0]);
      ClosedKeepsWalk(g, s, p[1..]);
    }
  }

  /** Once the stack is empty, `seen` is exactly what the start reaches. */
  lemma ExploreDone(g: Topology, start: seq<Host>, u: set<Host>, seen: set<Host>)
    requires Explored(g, start, u, seen, [])
    ensures forall x :: x in seen <==> From(g, start, x)
  {
    forall x | From(g, start, x) ensures x in seen {
      var s :| s in start && Reaches(g, s, x);
      var p :| WalkFromTo(g, s, x, p);
      ClosedKeepsWalk(g, seen, p);
    }
  }

  // ---- What an attribution promises ----------------------------------------------------------

  lemma RootIsDownAndReached(g: Topology, down: set<Host>, h: Host)
    ensures RootSpec(g, down, h).None? <==> forall d :: d in down ==> !Reaches(g, h, d)
    ensures RootSpec(g, down, h).Some? ==>
      RootSpec(g, down, h).value in down && Reaches(g, h, RootSpec(g, down, h).value)
  {
    NamesAreTotallyOrdered();
    if d :| d in down && Reaches(g, h, d) {
      assert d in DownAtOrAbove(g, down, h);
    }
  }

  /** A DOWN host at or above `h` with no DOWN host above it. */
  ghost predicate IsTopmost(g: Topology, down: set<Host>, h: Host, d: Host) {
    d in down && Reaches(g, h, d) && forall e :: e in down ==> !Above(g, d, e)
  }

  /** Which host is blamed: of the topmost DOWN hosts the first by name; if loops leave none, the first by name of
      all DOWN hosts reached. */
  lemma RootIsFirstByName(g: Topology, down: set<Host>, h: Host)
    requires RootSpec(g, down, h).Some?
    ensures var r := RootSpec(g, down, h).value;
      && (IsTopmost(g, down, h, r) || forall d :: !IsTopmost(g, down, h, d))
      && (forall d :: IsTopmost(g, down, h, d) ==> StrLe(r, d))
      && ((forall d :: !IsTopmost(g, down, h, d)) ==> forall d :: d in down && Reaches(g, h, d) ==> StrLe(r, d))
  {
    NamesAreTotallyOrdered();
    var tops := Tops(g, down, h);
    forall d ensures IsTopmost(g, down, h, d) <==> d in tops {}
    if tops != {} {
      var d :| d in tops;
      assert IsTopmost(g, down, h, d);
    }
  }

  /** From a reached host, no more is reached and no new topmost host appears. */
  lemma CandidatesShrink(g: Topology, down: set<Host>, h: Host, r: Host)
    requires Reaches(g, h, r)
    ensures DownAtOrAbove(g, down, r) <= DownAtOrAbove(g, down, h)
    ensures Tops(g, down, r) <= Tops(g, down, h)
  {
    forall d | d in DownAtOrAbove(g, down, r) ensures d in DownAtOrAbove(g, down, h) {
      ReachesTransitive(g, h, r, d);
    }
  }

  /** The root of a root is itself, so every root sits in its own cluster, loops or not. */
  lemma RootIsIdempotent(g: Topology, down: set<Host>, h: Host)
    requires RootSpec(g, down, h).Some?
    ensures RootSpec(g, down, RootSpec(g, down, h).value) == RootSpec(g, down, h)
  {
    NamesAreTotallyOrdered();
    var r := RootSpec(g, down, h).value;
    RootIsDownAndReached(g, down, h);
    CandidatesShrink(g, down, h, r);
    ReachesSelf(g, r);
    assert r in DownAtOrAbove(g, down, r);
    if Tops(g, down, h) != {} {
      forall d | d in DownAtOrAbove(g, down, r) ensures d == r {
        ReachesSplit(g, r, d);
      }
      assert Tops(g, down, r) == {r};
    } else {
      assert Tops(g, down, r) == {};
    }
  }

  /** `h` leads up to a DOWN host that is part of a loop. */
  ghost predicate LeadsToDownLoop(g: Topology, down: set<Host>, h: Host) {
    exists c :: c in down && Reaches(g, h, c) && Above(g, c, c)
  }

  /** Climbing from a DOWN host without loops above ends at a topmost DOWN host. */
  lemma {:induction false} ClimbToTop(g: Topology, down: set<Host>, d: Host)
    requires d in down && !LeadsToDownLoop(g, down, d)
    ensures Tops(g, down, d) != {}
    decreases |DownAtOrAbove(g, down, d)|
  {
    ReachesSelf(g, d);
    if !HasDownAboveSpec(g, down, d) {
      assert d in Tops(g, down, d);
    } else {
      var e :| e in down && Above(g, d, e);
      ReachesSplit(g, d, e);
      CandidatesShrink(g, down, d, e);
      if Reaches(g, e, d) {
        AboveThenReaches(g, d, e, d);
        assert false;
      }
      assert d in DownAtOrAbove(g, down, d) && d !in DownAtOrAbove(g, down, e);
      Fewer(DownAtOrAbove(g, down, e), DownAtOrAbove(g, down, d));
      forall c | c in down && Reaches(g, e, c) ensures !Above(g, c, c) {
        ReachesTransitive(g, d, e, c);
      }
      ClimbToTop(g, down, e);
    }
  }

  /** When the fallback is taken: exactly when every DOWN host at or above `h` leads up to a loop
      through a DOWN host. Without loops it is never taken. */
  lemma FallbackExactly(g: Topology, down: set<Host>, h: Host)
    requires RootSpec(g, down, h).Some?
    ensures Tops(g, down, h) == {} <==>
      forall d :: d in DownAtOrAbove(g, down, h) ==> LeadsToDownLoop(g, down, d)
  {
    if Tops(g, down, h) == {} {
      forall d | d in DownAtOrAbove(g, down, h) ensures LeadsToDownLoop(g, down, d) {
        if !LeadsToDownLoop(g, down, d) {
          ClimbToTop(g, down, d);
          CandidatesShrink(g, down, h, d);
          assert false;
        }
      }
    } else if forall d :: d in DownAtOrAbove(g, down, h) ==> LeadsToDownLoop(g, down, d) {
      var d :| d in Tops(g, down, h);
      var c :| c in down && Reaches(g, d, c) && Above(g, c, c);
      ReachesSplit(g, d, c);
      assert false;
    }
  }

  /** The documented promise "no DOWN ancestor above a root" holds exactly off the fallback. */
  lemma RootHasNoDownAboveExactly(g: Topology, down: set<Host>, h: Host)
    requires RootSpec(g, down, h).Some?
    ensures !HasDownAboveSpec(g, down, RootSpec(g, down, h).value) <==>
      exists d :: d in DownAtOrAbove(g, down, h) && !LeadsToDownLoop(g, down, d)
  {
    NamesAreTotallyOrdered();
    FallbackExactly(g, down, h);
    var r := RootSpec(g, down, h).value;
    if Tops(g, down, h) == {} {
      assert r in DownAtOrAbove(g, down, h);
      assert r !in Tops(g, down, h);
    }
  }

  /** With no loop among the parents at all, every root is topmost. */
  lemma AcyclicRootsAreTopmost(g: Topology, down: set<Host>, h: Host)
    requires forall x :: !Above(g, x, x)
    requires RootSpec(g, down, h).Some?
    ensures Tops(g, down, h) != {}
    ensures !HasDownAboveSpec(g, down, RootSpec(g, down, h).value)
  {
    RootIsDownAndReached(g, down, h);
    var r := RootSpec(g, down, h).value;
    assert r in DownAtOrAbove(g, down, h) && !LeadsToDownLoop(g, down, r);
    FallbackExactly(g, down, h);
    RootHasNoDownAboveExactly(g, down, h);
  }

  /** Two DOWN hosts that are each other's parent: the root has a DOWN host above it. */
  lemma LoopBreaksThePromise()
    ensures
      var g: Topology := map["a" := ["b"], "b" := ["a"]];
      var down := {"a", "b"};
      RootSpec(g, down, "a") == Some("a") && HasDownAboveSpec(g, down, "a")
  {
    NamesAreTotallyOrdered();
    var g: Topology := map["a" := ["b"], "b" := ["a"]];
    var down := {"a", "b"};
    ReachesSelf(g, "a");
    ReachesSelf(g, "b");
    assert Above(g, "a", "b") by { assert "b" in ParentsOf(g, "a"); }
    assert Above(g, "b", "a") by { assert "a" in ParentsOf(g, "b"); }
    ReachesSplit(g, "a", "b");
    assert DownAtOrAbove(g, down, "a") == {"a", "b"};
    assert HasDownAboveSpec(g, down, "a") && HasDownAboveSpec(g, down, "b");
    assert Tops(g, down, "a") == {};
    assert StrLe("a", "b") && !StrLe("b", "a");
  }

  // ---- The code -----------------------------------------------------------------------------

  /** One call of `_attribute_root_causes`: its arguments and the two memo dictionaries. */
  class Attribution {
    const parents: Topology
    const down: set<Host>
    var hasDownAboveCache: map<Host, bool>
    var rootCache: map<Host, Option<Host>>

    ghost predicate Valid()
      reads this
    {
      && (forall h :: h in hasDownAboveCache ==>
            (hasDownAboveCache[h] <==> HasDownAboveSpec(parents, down, h)))
      && (forall h :: h in rootCache ==> rootCache[h] == RootSpec(parents, down, h))
    }

    constructor (parents: Topology, down: set<Host>)
      ensures Valid() && this.parents == parents && this.down == down
    {
      this.parents := parents;
      this.down := down;
      hasDownAboveCache := map[];
      rootCache := map[];
    }

    /** `_down_ancestors`: pop, skip if seen, record if DOWN, push the parents. */
    method DownAncestors(host: Host) returns (found: set<Host>)
      ensures found == DownAtOrAbove(parents, down, host)
    {
      found := {};
      var seen: set<Host> := {};
      var start := [host];
      var stack := start;
      ghost var u := UniverseExists(parents, start);
      ExploreStart(parents, start, u);
      while stack != []
        invariant Explored(parents, start, u, seen, stack)
        invariant forall x :: x in found <==> x in seen && x in down
        decreases u - seen, |stack|
      {
        ExploreStep(parents, start, u, seen, stack);
        var node := stack[|stack| - 1];
        stack := stack[..|stack| - 1];
        if node !in seen {
          seen := seen + {node};
          found := if node in down then found + {node} else found;
          stack := stack + ParentsOf(parents, node);
        }
      }
      ExploreDone(parents, start, u, seen);
      DownAmongSeen(host, seen, found);
    }

    lemma DownAmongSeen(host: Host, seen: set<Host>, found: set<Host>)
      requires forall x :: x in seen <==> From(parents, [host], x)
      requires forall x :: x in found <==> x in seen && x in down
      ensures found == DownAtOrAbove(parents, down, host)
    {
      assert host in [host];
    }

    /** The walk inside `_has_down_above`: stop at the first DOWN host met strictly above. */
    method WalkAbove(host: Host) returns (result: bool)
      ensures result <==> HasDownAboveSpec(parents, down, host)
    {
      var start := ParentsOf(parents, host);
      var seen: set<Host> := {};
      var stack := start;
      ghost var u := UniverseExists(parents, start);
      ExploreStart(parents, start, u);
      while stack != []
        invariant Explored(parents, start, u, seen, stack)
        invariant forall x :: x in seen ==> x !in down
        decreases u - seen, |stack|
      {
        ExploreStep(parents, start, u, seen, stack);
        var node := stack[|stack| - 1];
        stack := stack[..|stack| - 1];
        if node !in seen {
          seen := seen + {node};
          if node in down {
            return true;
          }
          stack := stack + ParentsOf(parents, node);
        }
      }
      ExploreDone(parents, start, u, seen);
      forall d | d in down ensures !Above(parents, host, d) {
        assert Above(parents, host, d) ==> From(parents, start, d);
      }
      return false;
    }

    /** `_has_down_above`: look in the dictionary first, remember the answer after. */
    method HasDownAbove(host: Host) returns (result: bool)
      requires Valid()
      modifies this`hasDownAboveCache
      ensures Valid() && (result <==> HasDownAboveSpec(parents, down, host))
    {
      if host in hasDownAboveCache {
        return hasDownAboveCache[host];
      }
      result := WalkAbove(host);
      hasDownAboveCache := hasDownAboveCache[host := result];
    }

    /** The comprehension over `anc`: those with no DOWN host above. */
    method Topmost(candidates: set<Host>) returns (tops: set<Host>)
      requires Valid()
      modifies this`hasDownAboveCache
      ensures Valid() && forall d :: d in tops <==> d in candidates && !HasDownAboveSpec(parents, down, d)
    {
      tops := {};
      var rest := candidates;
      while rest != {}
        invariant Valid() && rest <= candidates
        invariant forall d :: d in tops <==> d in candidates && d !in rest && !HasDownAboveSpec(parents, down, d)
        decreases rest
      {
        var d :| d in rest;
        rest := rest - {d};
        var above := HasDownAbove(d);
        tops := if above then tops else tops + {d};
      }
    }

    /** `_root_of`: the caches may hold anything earlier calls left there, the answer is the same. */
    method RootOf(host: Host) returns (root: Option<Host>)
      requires Valid()
      modifies this
      ensures Valid() && root == RootSpec(parents, down, host)
    {
      if host in rootCache {
        return rootCache[host];
      }
      var candidates := DownAncestors(host);
      if candidates == {} {
        root := None;
      } else {
        var tops := Topmost(candidates);
        assert tops == Tops(parents, down, host);
        NamesAreTotallyOrdered();
        var sorted := SortSet(if tops != {} then tops else candidates, StrLe);
        root := Some(sorted[0]);
      }
      rootCache := rootCache[host := root];
    }

    /** The outer loop: one cluster per root, and the hosts nobody is to blame for. */
    method Attribute(unreachable: set<Host>)
        returns (clusters: map<Host, set<Host>>, unattributed: seq<Host>)
      requires Valid()
      modifies this
      ensures Valid()
      ensures IsAttribution(parents, down, unreachable, clusters, unattributed)
    {
      clusters := map[];
      var orphans: set<Host> := {};
      var affected := down + unreachable;
      var rest := affected;
      while rest != {}
        invariant Valid() && rest <= affected
        invariant orphans == Orphans(parents, down, affected - rest)
        invariant forall r :: r in clusters <==> Blamed(parents, down, affected - rest, r) != {}
        invariant forall r :: r in clusters ==> clusters[r] == Blamed(parents, down, affected - rest, r)
        decreases rest
      {
        var h :| h in rest;
        ghost var done := affected - rest;
        rest := rest - {h};
        assert affected - rest == done + {h};
        OneMoreHost(parents, down, done, h);
        var root := RootOf(h);
        if root == None {
          orphans := orphans + {h};
        } else {
          var members := if root.value in clusters then clusters[root.value] else {};
          clusters := clusters[root.value := members + {h}];
        }
      }
      assert affected - rest == affected;
      NamesAreTotallyOrdered();
      unattributed := SortSet(orphans, StrLe);
    }
  }

  /** The members of `hosts` blamed on `r`. */
  ghost function Blamed(g: Topology, down: set<Host>, hosts: set<Host>, r: Host): set<Host> {
    set h | h in hosts && RootSpec(g, down, h) == Some(r)
  }

  /** The members of `hosts` with no DOWN host at or above them. */
  ghost function Orphans(g: Topology, down: set<Host>, hosts: set<Host>): set<Host> {
    set h | h in hosts && RootSpec(g, down, h) == None
  }

  lemma OneMoreHost(g: Topology, down: set<Host>, hosts: set<Host>, h: Host)
    ensures forall r :: (Blamed(g, down, hosts + {h}, r) ==
              Blamed(g, down, hosts, r) + if RootSpec(g, down, h) == Some(r) then {h} else {})
    ensures Orphans(g, down, hosts + {h}) ==
              Orphans(g, down, hosts) + if RootSpec(g, down, h) == None then {h} else {}
  {
  }

  /** The result: one cluster per blamed host, and the sorted list of the rest. */
  ghost predicate IsAttribution(g: Topology, down: set<Host>, unreachable: set<Host>,
                                clusters: map<Host, set<Host>>, unattributed: seq<Host>) {
    var affected := down + unreachable;
    && (forall r :: r in clusters <==> Blamed(g, down, affected, r) != {})
    && (forall r :: r in clusters ==> clusters[r] == Blamed(g, down, affected, r))
    && (NamesAreTotallyOrdered(); unattributed == Sorted(Orphans(g, down, affected), StrLe))
  }

  lemma InCluster(g: Topology, down: set<Host>, unreachable: set<Host>,
                  clusters: map<Host, set<Host>>, unattributed: seq<Host>, r: Host, h: Host)
    requires IsAttribution(g, down, unreachable, clusters, unattributed)
    ensures r in clusters && h in clusters[r] <==> h in down + unreachable && RootSpec(g, down, h) == Some(r)
  {
    if h in down + unreachable && RootSpec(g, down, h) == Some(r) {
      assert h in Blamed(g, down, down + unreachable, r);
    }
  }

  /** Clusters and the unattributed list split the affected hosts: each host is in exactly one. */
  lemma AttributionPartitions(g: Topology, down: set<Host>, unreachable: set<Host>,
                              clusters: map<Host, set<Host>>, unattributed: seq<Host>, h: Host)
    requires IsAttribution(g, down, unreachable, clusters, unattributed)
    ensures h in down + unreachable <==>
      h in unattributed || exists r :: r in clusters && h in clusters[r]
    ensures h in unattributed ==> !exists r :: r in clusters && h in clusters[r]
    ensures forall r, s :: r in clusters && s in clusters && h in clusters[r] && h in clusters[s] ==> r == s
  {
    forall r ensures r in clusters && h in clusters[r] <==>
      h in down + unreachable && RootSpec(g, down, h) == Some(r)
    {
      InCluster(g, down, unreachable, clusters, unattributed, r, h);
    }
    assert RootSpec(g, down, h).Some? ==> RootSpec(g, down, h) == Some(RootSpec(g, down, h).value);
  }

  /** Every cluster holds its own root, a DOWN host that each member reaches through parents. */
  lemma ClusterSharesItsRoot(g: Topology, down: set<Host>, unreachable: set<Host>,
                             clusters: map<Host, set<Host>>, unattributed: seq<Host>, r: Host)
    requires IsAttribution(g, down, unreachable, clusters, unattributed) && r in clusters
    ensures r in down && r in clusters[r]
    ensures forall h :: h in clusters[r] ==> Reaches(g, h, r)
  {
    forall h | h in clusters[r] ensures Reaches(g, h, r) && r in down && RootSpec(g, down, r) == Some(r) {
      RootIsDownAndReached(g, down, h);
      RootIsIdempotent(g, down, h);
    }
    var member :| member in Blamed(g, down, down + unreachable, r);
    InCluster(g, down, unreachable, clusters, unattributed, r, member);
    InCluster(g, down, unreachable, clusters, unattributed, r, r);
  }

  /** A cluster is named by the first of the topmost DOWN hosts its members reach, or, where loops leave none, by
      the first of the DOWN hosts they reach: no member reaches a better choice. */
  lemma ClusterIsNamedByTheFirst(g: Topology, down: set<Host>, unreachable: set<Host>,
                                 clusters: map<Host, set<Host>>, unattributed: seq<Host>, r: Host, h: Host)
    requires IsAttribution(g, down, unreachable, clusters, unattributed) && r in clusters && h in clusters[r]
    ensures IsTopmost(g, down, h, r) || forall d :: !IsTopmost(g, down, h, d)
    ensures forall d :: IsTopmost(g, down, h, d) ==> StrLe(r, d)
    ensures (forall d :: !IsTopmost(g, down, h, d)) ==> forall d :: d in down && Reaches(g, h, d) ==> StrLe(r, d)
  {
    InCluster(g, down, unreachable, clusters, unattributed, r, h);
    RootIsFirstByName(g, down, h);
  }

  /** A leaf below two DOWN switches is blamed on the first of them by name, and not on the other. */
  lemma TwoParents(clusters: map<Host, set<Host>>, unattributed: seq<Host>)
    requires IsAttribution(map["leaf" := ["sw-a", "sw-b"]], {"sw-a", "sw-b"}, {"leaf"}, clusters, unattributed)
    ensures "sw-a" in clusters && "leaf" in clusters["sw-a"]
    ensures "sw-b" in clusters ==> "leaf" !in clusters["sw-b"]
  {
    var g: Topology := map["leaf" := ["sw-a", "sw-b"]];
    var down := {"sw-a", "sw-b"};
    TwoParentsRoots(g, "leaf", "sw-a", "sw-b");
    InCluster(g, down, {"leaf"}, clusters, unattributed, "sw-a", "leaf");
    InCluster(g, down, {"leaf"}, clusters, unattributed, "sw-b", "leaf");
  }

  lemma TwoParentsRoots(g: Topology, leaf: Host, a: Host, b: Host)
    requires g == map[leaf := [a, b]] && leaf != a && leaf != b && a != b && StrLe(a, b)
    ensures RootSpec(g, {a, b}, leaf) == RootSpec(g, {a, b}, a) == Some(a) && RootSpec(g, {a, b}, b) == Some(b)
  {
    var down := {a, b};
    NothingAbove(g, leaf, a);
    NothingAbove(g, leaf, b);
    RootOfTop(g, down, a);
    RootOfTop(g, down, b);
    ReachesSelf(g, leaf);
    assert a in ParentsOf(g, leaf);
    ReachesStep(g, leaf, leaf, a);
    RootIsDownAndReached(g, down, leaf);
    RootIsFirstByName(g, down, leaf);
    assert IsTopmost(g, down, leaf, a);
    StrLeAntisymmetricHere(a, b);
  }

  lemma StrLeAntisymmetricHere(a: Host, b: Host)
    requires StrLe(a, b) && a != b
    ensures !StrLe(b, a)
  {
    if StrLe(b, a) {
      StrLeAntisymmetric(a, b);
    }
  }

  lemma NothingAbove(g: Topology, leaf: Host, d: Host)
    requires leaf in g && g.Keys == {leaf} && d != leaf
    ensures forall x :: !Above(g, d, x)
  {
    assert ParentsOf(g, d) == [];
  }

  lemma RootOfTop(g: Topology, down: set<Host>, d: Host)
    requires d in down && forall x :: !Above(g, d, x)
    ensures RootSpec(g, down, d) == Some(d)
  {
    forall x ensures Reaches(g, d, x) <==> x == d {
      ReachesSplit(g, d, x);
    }
    RootIsDownAndReached(g, down, d);
    ReachesSelf(g, d);
  }

  /** The unattributed are the UNREACHABLE hosts whose walk up meets no DOWN host. */
  lemma UnattributedExactly(g: Topology, down: set<Host>, unreachable: set<Host>,
                            clusters: map<Host, set<Host>>, unattributed: seq<Host>, h: Host)
    requires IsAttribution(g, down, unreachable, clusters, unattributed)
    ensures h in unattributed <==> h in unreachable && forall d :: d in down ==> !Reaches(g, h, d)
    ensures h in unattributed ==> h !in down
  {
    RootIsDownAndReached(g, down, h);
    ReachesSelf(g, h);
  }
}

/** A topological order exists exactly when there is no cycle. */
module Topology {
  import opened Wrappers

  predicate Within(n: nat, edges: set<(nat, nat)>) {
    forall e :: e in edges ==> e.0 < n && e.1 < n
  }

  /** A walk along edges, at least one, back to where it started. */
  predicate Cycle(edges: set<(nat, nat)>, walk: seq<nat>) {
    && |walk| >= 2 && walk[0] == walk[|walk| - 1]
    && forall i :: 0 <= i < |walk| - 1 ==> (walk[i], walk[i + 1]) in edges
  }

  /** All nodes once, every edge pointing forwards. */
  predicate Sorted(n: nat, edges: set<(nat, nat)>, order: seq<nat>) {
    && |order| == n
    && (forall i :: 0 <= i < n ==> order[i] < n)
    && (forall i, j :: 0 <= i < j < n ==> order[i] != order[j])
    && (forall i, j :: 0 <= i <= j < n ==> (order[j], order[i]) !in edges)
  }

  function Elems(s: seq<nat>): set<nat> {
    set x: nat | x in s
  }

  function Upto(n: nat): (r: set<nat>)
    ensures |r| == n && forall v: nat :: v in r <==> v < n
  {
    if n == 0 then {} else Upto(n - 1) + {n - 1}
  }

  predicate Distinct(s: seq<nat>) {
    forall i, j :: 0 <= i < j < |s| ==> s[i] != s[j]
  }

  lemma {:induction false} DistinctSize(s: seq<nat>)
    requires Distinct(s)
    ensures |Elems(s)| == |s|
  {
    if s != [] {
      var front := s[..|s| - 1];
      DistinctSize(front);
      assert Elems(s) == Elems(front) + {s[|s| - 1]};
      assert s[|s| - 1] !in Elems(front);
    }
  }

  lemma SubsetSize(a: set<nat>, b: set<nat>)
    requires a <= b
    ensures |a| <= |b| && (|a| == |b| ==> a == b)
  {
    assert b == a + (b - a) && |b| == |a| + |b - a|;
  }

  /** Distinct nodes below `n` are at most `n`, and if `n` then all. */
  lemma DistinctBelow(n: nat, s: seq<nat>)
    requires Distinct(s) && forall i :: 0 <= i < |s| ==> s[i] < n
    ensures |s| <= n
    ensures |s| == n <==> forall v: nat :: v < n ==> v in s
  {
    DistinctSize(s);
    SubsetSize(Elems(s), Upto(n));
    if forall v: nat :: v < n ==> v in s {
      assert Upto(n) == Elems(s);
    }
    if |s| == n {
      forall v: nat | v < n
        ensures v in s
      {
        assert v in Upto(n) && v in Elems(s);
      }
    }
  }

  /** Too many steps among too few nodes repeat one. */
  lemma Repeats(n: nat, walk: seq<nat>) returns (i: nat, j: nat)
    requires |walk| > n && forall k :: 0 <= k < |walk| ==> walk[k] < n
    ensures i < j < |walk| && walk[i] == walk[j]
  {
    if Distinct(walk) {
      DistinctBelow(n, walk);
      assert false;
    }
    i, j :| 0 <= i < j < |walk| && walk[i] == walk[j];
  }

  ghost predicate HasPredecessor(edges: set<(nat, nat)>, among: set<nat>, v: nat) {
    exists u: nat :: u in among && (u, v) in edges
  }

  /** Where every remaining node has a remaining predecessor, one can walk backwards for ever. */
  lemma {:induction false} WalkBack(edges: set<(nat, nat)>, remaining: set<nat>, end: nat, steps: nat)
    returns (walk: seq<nat>)
    requires end in remaining
    requires forall v: nat :: v in remaining ==> HasPredecessor(edges, remaining, v)
    ensures |walk| == steps + 1 && walk[steps] == end
    ensures forall i :: 0 <= i <= steps ==> walk[i] in remaining
    ensures forall i :: 0 <= i < steps ==> (walk[i], walk[i + 1]) in edges
    decreases steps
  {
    if steps == 0 {
      walk := [end];
    } else {
      assert HasPredecessor(edges, remaining, end);
      var u: nat :| u in remaining && (u, end) in edges;
      var before := WalkBack(edges, remaining, u, steps - 1);
      walk := before + [end];
      forall i | 0 <= i < steps
        ensures (walk[i], walk[i + 1]) in edges
      {
        if i == steps - 1 {
          assert walk[i] == u && walk[i + 1] == end;
        } else {
          assert walk[i] == before[i] && walk[i + 1] == before[i + 1];
        }
      }
    }
  }

  lemma SourcelessCycle(n: nat, edges: set<(nat, nat)>, remaining: set<nat>) returns (cycle: seq<nat>)
    requires remaining != {} && forall v: nat :: v in remaining ==> v < n && HasPredecessor(edges, remaining, v)
    ensures Cycle(edges, cycle)
  {
    hide HasPredecessor;
    var end: nat :| end in remaining;
    var walk := WalkBack(edges, remaining, end, n);
    var i, j := Repeats(n, walk);
    cycle := walk[i..j + 1];
    forall k | 0 <= k < |cycle| - 1
      ensures (cycle[k], cycle[k + 1]) in edges
    {
      assert cycle[k] == walk[i + k] && cycle[k + 1] == walk[i + k + 1];
    }
  }

  /** All predecessors of `v` are placed. */
  predicate Unblocked(edges: set<(nat, nat)>, order: seq<nat>, v: nat) {
    forall e :: e in edges ==> e.1 == v ==> e.0 in order
  }

  method Ready(n: nat, edges: set<(nat, nat)>, order: seq<nat>) returns (r: Option<nat>)
    ensures r.Some? ==> r.value < n && r.value !in order && Unblocked(edges, order, r.value)
    ensures r.None? ==> forall v: nat :: v < n && v !in order ==> !Unblocked(edges, order, v)
  {
    for v := 0 to n
      invariant forall w: nat :: w < v && w !in order ==> !Unblocked(edges, order, w)
    {
      if v !in order && Unblocked(edges, order, v) {
        return Some(v);
      }
    }
    r := None;
  }

  /** The nodes not yet placed. */
  function Remaining(n: nat, order: seq<nat>): (r: set<nat>)
    ensures forall v: nat :: v in r <==> v < n && v !in order
  {
    if n == 0 then {} else
    Remaining(n - 1, order) + if n - 1 in order then {} else {n - 1}
  }

  lemma BlockedBy(n: nat, edges: set<(nat, nat)>, order: seq<nat>, remaining: set<nat>, v: nat)
    requires Within(n, edges) && !Unblocked(edges, order, v)
    requires forall u: nat :: u < n && u !in order ==> u in remaining
    ensures HasPredecessor(edges, remaining, v)
  {
    var e :| e in edges && e.1 == v && e.0 !in order;
    assert (e.0, v) == e;
  }

  lemma StuckCycle(n: nat, edges: set<(nat, nat)>, order: seq<nat>) returns (cycle: seq<nat>)
    requires Within(n, edges) && Distinct(order) && |order| < n && forall i :: 0 <= i < |order| ==> order[i] < n
    requires forall v: nat :: v < n && v !in order ==> !Unblocked(edges, order, v)
    ensures Cycle(edges, cycle)
  {
    hide Unblocked, HasPredecessor, Remaining;
    var remaining := Remaining(n, order);
    DistinctBelow(n, order);
    var missing: nat :| missing < n && missing !in order;
    assert missing in remaining;
    forall v: nat | v in remaining
      ensures v < n && HasPredecessor(edges, remaining, v)
    {
      BlockedBy(n, edges, order, remaining, v);
    }
    cycle := SourcelessCycle(n, edges, remaining);
  }

  /** A prefix of an order: closed under predecessors, no edge pointing back. */
  predicate Partial(n: nat, edges: set<(nat, nat)>, order: seq<nat>) {
    && Distinct(order)
    && (forall i :: 0 <= i < |order| ==> order[i] < n)
    && (forall e :: e in edges && e.1 in order ==> e.0 in order)
    && (forall i, j :: 0 <= i <= j < |order| ==> (order[j], order[i]) !in edges)
  }

  lemma PartialGrows(n: nat, edges: set<(nat, nat)>, order: seq<nat>, v: nat)
    requires Partial(n, edges, order) && v < n && v !in order && Unblocked(edges, order, v)
    ensures Partial(n, edges, order + [v])
  {
    var next := order + [v];
    forall i, j | 0 <= i <= j < |next|
      ensures (next[j], next[i]) !in edges
    {
      if i < |order| {
        assert next[i] in order;
      } else {
        assert next[j] == v && next[i] == v;
      }
    }
  }

  method Toposort(n: nat, edges: set<(nat, nat)>) returns (r: Option<seq<nat>>)
    requires Within(n, edges)
    ensures r.Some? ==> Sorted(n, edges, r.value)
    ensures r.None? ==> exists walk :: Cycle(edges, walk)
  {
    hide Unblocked, Cycle;
    var order: seq<nat> := [];
    while |order| < n
      invariant |order| <= n && Partial(n, edges, order)
      decreases n - |order|
    {
      var next := Ready(n, edges, order);
      if next.None? {
        ghost var cycle := StuckCycle(n, edges, order);
        return None;
      }
      PartialGrows(n, edges, order, next.value);
      order := order + [next.value];
    }
    r := Some(order);
  }

  /** Along a walk positions in the order only grow, so it never returns. */
  lemma {:induction false} SortedWalk(n: nat, edges: set<(nat, nat)>, order: seq<nat>, walk: seq<nat>, i: nat)
    returns (j: nat)
    requires Within(n, edges) && Sorted(n, edges, order)
    requires i < n && |walk| >= 2 && walk[0] == order[i]
    requires forall k :: 0 <= k < |walk| - 1 ==> (walk[k], walk[k + 1]) in edges
    ensures i < j < n && order[j] == walk[|walk| - 1]
    decreases |walk|
  {
    Placed(n, edges, order, walk[1]);
    var k: nat :| k < n && order[k] == walk[1];
    assert (walk[0], walk[1]) in edges;
    if |walk| == 2 {
      j := k;
    } else {
      j := SortedWalk(n, edges, order, walk[1..], k);
    }
  }

  lemma Placed(n: nat, edges: set<(nat, nat)>, order: seq<nat>, v: nat)
    requires Sorted(n, edges, order) && v < n
    ensures exists k: nat :: k < n && order[k] == v
  {
    DistinctBelow(n, order);
    assert v in order;
    var k :| 0 <= k < |order| && order[k] == v;
  }

  lemma SortedAcyclic(n: nat, edges: set<(nat, nat)>, order: seq<nat>, walk: seq<nat>)
    requires Within(n, edges) && Sorted(n, edges, order)
    ensures !Cycle(edges, walk)
  {
    if Cycle(edges, walk) {
      assert (walk[0], walk[1]) in edges;
      Placed(n, edges, order, walk[0]);
      var i: nat :| i < n && order[i] == walk[0];
      var j := SortedWalk(n, edges, order, walk, i);
    }
  }
}

/**
  Greedy topological order.  Both the graph compiler and the array compiler repeatedly pick,
  among the names whose dependencies are all placed, the one that comes first in a fixed
  listing: the descriptor order for graph nodes, the name order for array stages.
 */
module Scheduling {
  import opened Base

  /** Names in listing order, and what each waits for. */
  datatype Graph = Graph(ids: seq<string>, deps: map<string, set<string>>)

  ghost predicate WellFormed(g: Graph) {
    && Distinct(g.ids)
    && g.deps.Keys == Elements(g.ids)
  }

  predicate Ready(g: Graph, order: seq<string>, id: string) {
    && id in g.ids && id !in order && id in g.deps
    && g.deps[id] <= Elements(order)
  }

  /** The earliest listed name at position `from` or later that is ready after `order`. */
  function NextReady(g: Graph, order: seq<string>, from: nat): (r: Option<string>)
    requires from <= |g.ids|
    ensures r.Some? ==> exists p :: from <= p < |g.ids| && g.ids[p] == r.value && Ready(g, order, r.value)
                                    && forall q :: from <= q < p ==> !Ready(g, order, g.ids[q])
    ensures r.None? ==> forall q :: from <= q < |g.ids| ==> !Ready(g, order, g.ids[q])
    decreases |g.ids| - from
  {
    if from == |g.ids| then None
    else if Ready(g, order, g.ids[from]) then Some(g.ids[from])
    else NextReady(g, order, from + 1)
  }

  ghost predicate Partial(g: Graph, order: seq<string>) {
    && Distinct(order)
    && (forall x :: x in order ==> x in g.ids && x in g.deps)
    && forall k :: 0 <= k < |order| ==> g.deps[order[k]] <= Elements(order[..k])
  }

  lemma {:induction false} PartialFits(g: Graph, order: seq<string>)
    requires WellFormed(g) && Partial(g, order)
    ensures |order| <= |g.ids|
    ensures Elements(order) <= Elements(g.ids)
    ensures |order| == |g.ids| <==> Elements(order) == Elements(g.ids)
  {
    ElementsSize(order);
    ElementsSize(g.ids);
    SubsetSize(Elements(order), Elements(g.ids));
    if |order| == |g.ids| {
      SubsetSameSize(Elements(order), Elements(g.ids));
    }
  }

  lemma {:induction false} PartialExtends(g: Graph, order: seq<string>, id: string)
    requires WellFormed(g) && Partial(g, order) && Ready(g, order, id)
    ensures Partial(g, order + [id])
  {
    var next := order + [id];
    forall k | 0 <= k < |next| ensures g.deps[next[k]] <= Elements(next[..k]) {
      if k < |order| {
        assert next[..k] == order[..k];
      } else {
        assert next[..k] == order;
      }
    }
  }

  /** Extends a partial order greedily until nothing is ready. */
  ghost function Extend(g: Graph, order: seq<string>): (r: seq<string>)
    requires WellFormed(g) && Partial(g, order)
    ensures Partial(g, r) && order <= r
    ensures NextReady(g, r, 0).None?
    decreases |g.ids| - |order|
  {
    PartialFits(g, order);
    match NextReady(g, order, 0)
    case None => order
    case Some(id) =>
      PartialExtends(g, order, id);
      PartialFits(g, order + [id]);
      Extend(g, order + [id])
  }

  /** The schedule, or `None` when the greedy process gets stuck. */
  ghost function Schedule(g: Graph): (r: Option<seq<string>>)
    requires WellFormed(g)
  {
    var order := Extend(g, []);
    if |order| == |g.ids| then Some(order) else None
  }

  // ----- What a schedule is supposed to be, independently of the algorithm -----

  /** A permutation of the names in which everything follows what it waits for. */
  ghost predicate Topological(g: Graph, order: seq<string>) {
    && Distinct(order) && Elements(order) == Elements(g.ids)
    && forall k :: 0 <= k < |order| && order[k] in g.deps ==> g.deps[order[k]] <= Elements(order[..k])
  }

  /** A closed walk of the waits-for relation. */
  ghost predicate Cycle(g: Graph, walk: seq<string>) {
    && |walk| >= 2 && walk[0] == walk[|walk| - 1]
    && forall k :: 0 <= k < |walk| - 1 ==> walk[k] in g.deps && walk[k + 1] in g.deps[walk[k]]
  }

  ghost predicate Acyclic(g: Graph) {
    forall walk :: !Cycle(g, walk)
  }

  /** Every dependency is itself listed. */
  ghost predicate Closed(g: Graph) {
    forall x, d :: x in g.deps && d in g.deps[x] ==> d in g.ids
  }

  // ----- The scheduler produces exactly that -----

  lemma {:induction false} ScheduleIsTopological(g: Graph)
    requires WellFormed(g) && Schedule(g).Some?
    ensures Topological(g, Schedule(g).value) && |Schedule(g).value| == |g.ids|
  {
    PartialFits(g, Schedule(g).value);
  }

  lemma {:induction false} TopologicalExcludesCycles(g: Graph, order: seq<string>, walk: seq<string>, k: nat)
    requires WellFormed(g) && Topological(g, order) && Cycle(g, walk)
    requires 0 < k < |walk|
    ensures walk[0] in order && walk[k] in order && Position(order, walk[k]) < Position(order, walk[0])
  {
    if k > 1 {
      TopologicalExcludesCycles(g, order, walk, k - 1);
    }
    var x, d := walk[k - 1], walk[k];
    assert x in Elements(order);
    var p := Position(order, x);
    assert d in order[..p];
    var q :| 0 <= q < p && order[q] == d;
    assert Position(order, d) == q;
  }

  /** From a stuck state, one can walk along unplaced dependencies for ever. */
  lemma {:induction false} StuckWalk(g: Graph, order: seq<string>, n: nat) returns (walk: seq<string>)
    requires WellFormed(g) && Closed(g) && Partial(g, order)
    requires NextReady(g, order, 0).None? && |order| < |g.ids|
    ensures |walk| == n + 1
    ensures forall x :: x in walk ==> x in g.ids && x !in order
    ensures forall k :: 0 <= k < n ==> walk[k] in g.deps && walk[k + 1] in g.deps[walk[k]]
  {
    if n == 0 {
      PartialFits(g, order);
      var x :| x in Elements(g.ids) && x !in Elements(order);
      walk := [x];
    } else {
      walk := StuckWalk(g, order, n - 1);
      var last := walk[n - 1];
      assert last in walk && last in Elements(g.ids);
      var p :| 0 <= p < |g.ids| && g.ids[p] == last;
      assert !Ready(g, order, g.ids[p]);
      assert !(g.deps[last] <= Elements(order));
      var d :| d in g.deps[last] && d !in Elements(order);
      walk := walk + [d];
    }
  }

  lemma {:induction false} StuckMeansCycle(g: Graph)
    requires WellFormed(g) && Closed(g) && Schedule(g).None?
    ensures !Acyclic(g)
  {
    var order := Extend(g, []);
    PartialFits(g, order);
    var walk := StuckWalk(g, order, |g.ids| + 1);
    ElementsSize(g.ids);
    assert forall x :: x in walk ==> x in Elements(g.ids);
    var i, j := Pigeonhole(walk, Elements(g.ids));
    CutCycle(g, walk, i, j);
  }

  lemma {:induction false} CutCycle(g: Graph, walk: seq<string>, i: nat, j: nat)
    requires forall k :: 0 <= k < |walk| - 1 ==> walk[k] in g.deps && walk[k + 1] in g.deps[walk[k]]
    requires i < j < |walk| && walk[i] == walk[j]
    ensures !Acyclic(g)
  {
    assert Cycle(g, walk[i..j + 1]);
  }

  /** The scheduler succeeds exactly on closed acyclic graphs. */
  lemma {:induction false} ScheduleSucceedsIffAcyclic(g: Graph)
    requires WellFormed(g)
    ensures Schedule(g).Some? <==> Closed(g) && Acyclic(g)
  {
    if Schedule(g).Some? {
      ScheduleIsTopological(g);
      var order := Schedule(g).value;
      forall x, d | x in g.deps && d in g.deps[x] ensures d in g.ids {
        assert x in Elements(order);
        var p := Position(order, x);
        assert order[p] == x;
        assert d in order[..p];
        assert d in Elements(order);
      }
      forall walk ensures !Cycle(g, walk) {
        if Cycle(g, walk) {
          TopologicalExcludesCycles(g, order, walk, |walk| - 1);
          assert false;
        }
      }
    } else if Closed(g) {
      StuckMeansCycle(g);
    }
  }

  /** Where a schedule and another topological order first differ, the schedule is earlier in the listing. */
  ghost predicate NoLater(g: Graph, a: seq<string>, b: seq<string>, k: nat) {
    (k < |a| && k < |b| && a[..k] == b[..k] && a[k] != b[k] && a[k] in g.ids && b[k] in g.ids)
    ==> Position(g.ids, a[k]) < Position(g.ids, b[k])
  }

  /** Every placed name was the first ready one at its turn. */
  lemma {:induction false} GreedyChoice(g: Graph, order: seq<string>, k: nat)
    requires WellFormed(g) && Partial(g, order)
    requires |order| <= k < |Extend(g, order)|
    ensures NextReady(g, Extend(g, order)[..k], 0) == Some(Extend(g, order)[k])
    decreases |Extend(g, order)| - |order|
  {
    var r := Extend(g, order);
    var id := NextReady(g, order, 0).value;
    PartialExtends(g, order, id);
    PartialFits(g, order + [id]);
    assert r == Extend(g, order + [id]);
    if k == |order| {
      assert r[..k] == order && r[k] == (order + [id])[k];
    } else {
      GreedyChoice(g, order + [id], k);
    }
  }

  lemma {:induction false} ChosenFirst(g: Graph, order: seq<string>, k: nat)
    requires WellFormed(g) && Schedule(g) == Some(order) && k < |order|
    ensures NextReady(g, order[..k], 0) == Some(order[k])
  {
    GreedyChoice(g, [], k);
  }

  /** The first ready name is listed no later than any ready name. */
  lemma {:induction false} FirstReadyIsEarliest(g: Graph, placed: seq<string>, id: string, other: string)
    requires WellFormed(g) && NextReady(g, placed, 0) == Some(id) && Ready(g, placed, other)
    ensures id in g.ids && Position(g.ids, id) <= Position(g.ids, other)
  {
    var p :| 0 <= p < |g.ids| && g.ids[p] == id && forall q :: 0 <= q < p ==> !Ready(g, placed, g.ids[q]);
    var q := Position(g.ids, other);
    assert g.ids[q] == other;
    assert Position(g.ids, id) <= p by { PositionIsFirst(g.ids, id, p); }
  }

  lemma {:induction false} PositionIsFirst(s: seq<string>, x: string, p: nat)
    requires p < |s| && s[p] == x
    ensures x in s && Position(s, x) <= p
  {
    if p > 0 && s[0] != x {
      PositionIsFirst(s[1..], x, p - 1);
    }
  }

  /** The schedule is the lexicographically least topological order of the listing. */
  lemma {:induction false} ScheduleIsLeast(g: Graph, other: seq<string>, k: nat)
    requires WellFormed(g) && Schedule(g).Some? && Topological(g, other)
    ensures NoLater(g, Schedule(g).value, other, k)
  {
    var order := Schedule(g).value;
    if k < |order| && k < |other| && order[..k] == other[..k] && order[k] != other[k]
       && order[k] in g.ids && other[k] in g.ids {
      assert NextReady(g, order[..k], 0) == Some(order[k]) by { ChosenFirst(g, order, k); }
      assert Ready(g, order[..k], other[k]) by { NextIsReady(g, other, k); }
      FirstReadyIsEarliest(g, order[..k], order[k], other[k]);
    }
  }

  lemma {:induction false} NextIsReady(g: Graph, order: seq<string>, k: nat)
    requires WellFormed(g) && Topological(g, order) && k < |order|
    ensures Ready(g, order[..k], order[k])
  {
    assert order[k] in Elements(order);
    assert order[k] !in order[..k];
  }

  /** A listing that is already in dependency order is left as it is. */
  lemma {:induction false} OrderedListingUnchanged(g: Graph)
    requires WellFormed(g) && Topological(g, g.ids)
    ensures Schedule(g) == Some(g.ids)
  {
    forall walk ensures !Cycle(g, walk) {
      if Cycle(g, walk) {
        TopologicalExcludesCycles(g, g.ids, walk, |walk| - 1);
        assert false;
      }
    }
    forall x, d | x in g.deps && d in g.deps[x] ensures d in g.ids {
      assert x in Elements(g.ids);
      var p := Position(g.ids, x);
      assert d in g.ids[..p];
    }
    ScheduleSucceedsIffAcyclic(g);
    ScheduleIsTopological(g);
    SchedulePrefixUnchanged(g, Schedule(g).value, |g.ids|);
    assert Schedule(g).value[..|g.ids|] == Schedule(g).value && g.ids[..|g.ids|] == g.ids;
  }

  lemma {:induction false} SchedulePrefixUnchanged(g: Graph, order: seq<string>, k: nat)
    requires WellFormed(g) && Topological(g, g.ids) && Schedule(g) == Some(order) && k <= |g.ids|
    requires Topological(g, order) && |order| == |g.ids|
    ensures order[..k] == g.ids[..k]
  {
    if k > 0 {
      SchedulePrefixUnchanged(g, order, k - 1);
      assert order[k - 1] == g.ids[k - 1] by { NextUnchanged(g, order, k - 1); }
      SamePrefix(order, g.ids, k - 1);
    }
  }

  lemma {:induction false} SamePrefix(a: seq<string>, b: seq<string>, k: nat)
    requires k < |a| && k < |b| && a[..k] == b[..k] && a[k] == b[k]
    ensures a[..k + 1] == b[..k + 1]
  {
    assert a[..k + 1] == a[..k] + [a[k]] && b[..k + 1] == b[..k] + [b[k]];
  }

  lemma {:induction false} EarlyIsInPrefix(s: seq<string>, x: string, k: nat)
    requires x in s && k <= |s|
    ensures Position(s, x) < k ==> x in s[..k]
  {
    if Position(s, x) < k {
      assert s[..k][Position(s, x)] == x;
    }
  }

  lemma {:induction false} NextUnchanged(g: Graph, order: seq<string>, k: nat)
    requires WellFormed(g) && Topological(g, g.ids) && Schedule(g) == Some(order) && Topological(g, order)
    requires k < |order| == |g.ids| && order[..k] == g.ids[..k]
    ensures order[k] == g.ids[k]
  {
    assert NoLater(g, order, g.ids, k) by { ScheduleIsLeast(g, g.ids, k); }
    assert order[k] in Elements(order);
    assert order[k] !in order[..k];
    EarlyIsInPrefix(g.ids, order[k], k);
    PositionIsFirst(g.ids, g.ids[k], k);
  }

  ghost predicate NothingWaitsFor(g: Graph, id: string) {
    forall x {:trigger g.deps[x]} :: x in g.deps ==> id !in g.deps[x]
  }

  /** A last-listed name that nothing waits for is scheduled last. */
  lemma {:induction false} SinkIsLast(g: Graph)
    requires WellFormed(g) && Schedule(g).Some? && |g.ids| > 0 && NothingWaitsFor(g, g.ids[|g.ids| - 1])
    ensures Schedule(g).value[|g.ids| - 1] == g.ids[|g.ids| - 1]
  {
    var order := Schedule(g).value;
    assert Topological(g, order) && |order| == |g.ids| by { ScheduleIsTopological(g); }
    var k := SinkPlaced(g, order);
    assert NextReady(g, order[..k], 0) == Some(order[k]) by { ChosenFirst(g, order, k); }
    PlacedLast(g, order, k);
  }

  lemma {:induction false} SinkPlaced(g: Graph, order: seq<string>) returns (k: nat)
    requires Topological(g, order) && |g.ids| > 0
    ensures k < |order| && order[k] == g.ids[|g.ids| - 1]
  {
    assert g.ids[|g.ids| - 1] in Elements(order);
    k := Position(order, g.ids[|g.ids| - 1]);
  }

  lemma {:induction false} PlacedLast(g: Graph, order: seq<string>, k: nat)
    requires WellFormed(g) && Topological(g, order) && |order| == |g.ids| && k < |g.ids|
    requires order[k] == g.ids[|g.ids| - 1] && NextReady(g, order[..k], 0) == Some(order[k]) && NothingWaitsFor(g, order[k])
    ensures k == |g.ids| - 1
  {
    if k + 1 < |order| {
      ReadyBefore(g, order, k);
      OnlySinkReady(g, order[..k], order[k], order[k + 1]);
      assert false;
    }
  }

  /** When the last-listed name is the first ready one, it is the only ready one. */
  lemma {:induction false} OnlySinkReady(g: Graph, placed: seq<string>, sink: string, next: string)
    requires WellFormed(g) && g.ids != [] && sink == g.ids[|g.ids| - 1] && NextReady(g, placed, 0) == Some(sink) && Ready(g, placed, next)
    ensures next == sink
  {
    FirstReadyIsEarliest(g, placed, sink, next);
    LastPosition(g.ids);
    assert g.ids[Position(g.ids, next)] == next;
  }

  lemma {:induction false} LastPosition(s: seq<string>)
    requires Distinct(s) && s != []
    ensures Position(s, s[|s| - 1]) == |s| - 1
  {
  }

  /** If nothing waits for the name placed at `k`, the next one was ready already. */
  lemma {:induction false} ReadyBefore(g: Graph, order: seq<string>, k: nat)
    requires WellFormed(g) && Topological(g, order) && k + 1 < |order| && NothingWaitsFor(g, order[k])
    ensures exists q :: 0 <= q < |g.ids| && g.ids[q] == order[k + 1] && Ready(g, order[..k], g.ids[q])
  {
    var next := order[k + 1];
    assert next in Elements(order);
    assert order[..k + 1] == order[..k] + [order[k]];
    assert Elements(order[..k + 1]) == Elements(order[..k]) + {order[k]};
    assert g.ids[Position(g.ids, next)] == next;
  }

  /**
    The scheduling loop: `pending` maps each unplaced name to the dependencies it still waits for,
    the ready name listed first is placed, and it is discarded from every other wait set.
   */
  method ScheduledIds(g: Graph) returns (r: Option<seq<string>>)
    requires WellFormed(g)
    ensures r == Schedule(g)
  {
    var pending := g.deps;
    var order: seq<string> := [];
    while pending.Keys != {}
      invariant Partial(g, order) && Waiting(g, order, pending)
      invariant Extend(g, order) == Extend(g, [])
      decreases |pending.Keys|
    {
      var ready := MinReady(g, order, pending, 0);
      if ready.None? {
        StuckIsIncomplete(g, order);
        return None;
      }
      var id := ready.value;
      ExtendOne(g, order, id);
      WaitingStep(g, order, pending, id);
      order := order + [id];
      pending := map x | x in pending && x != id :: pending[x] - {id};
    }
    CompleteWhenNonePending(g, order);
    r := Some(order);
  }

  /** What `pending` holds: the unplaced names, each with its unplaced dependencies. */
  ghost predicate Waiting(g: Graph, order: seq<string>, pending: map<string, set<string>>)
    requires g.deps.Keys == Elements(g.ids)
  {
    && pending.Keys == Elements(g.ids) - Elements(order)
    && forall x :: x in pending ==> pending[x] == g.deps[x] - Elements(order)
  }

  lemma {:induction false} WaitingStep(g: Graph, order: seq<string>, pending: map<string, set<string>>, id: string)
    requires g.deps.Keys == Elements(g.ids) && Waiting(g, order, pending) && id in pending
    ensures Waiting(g, order + [id], map x | x in pending && x != id :: pending[x] - {id})
    ensures (map x | x in pending && x != id :: pending[x] - {id}).Keys == pending.Keys - {id}
  {
    assert Elements(order + [id]) == Elements(order) + {id};
  }

  lemma {:induction false} ExtendOne(g: Graph, order: seq<string>, id: string)
    requires WellFormed(g) && Partial(g, order) && NextReady(g, order, 0) == Some(id)
    ensures Partial(g, order + [id]) && Extend(g, order + [id]) == Extend(g, order)
    ensures id in Elements(g.ids) - Elements(order)
  {
    PartialExtends(g, order, id);
  }

  lemma {:induction false} StuckIsIncomplete(g: Graph, order: seq<string>)
    requires WellFormed(g) && Partial(g, order)
    requires Elements(g.ids) - Elements(order) != {} && NextReady(g, order, 0).None?
    ensures |order| < |g.ids| && Extend(g, order) == order
  {
    PartialFits(g, order);
  }

  lemma {:induction false} CompleteWhenNonePending(g: Graph, order: seq<string>)
    requires WellFormed(g) && Partial(g, order)
    requires Elements(g.ids) <= Elements(order)
    ensures |order| == |g.ids| && Extend(g, order) == order
  {
    PartialFits(g, order);
    forall q | 0 <= q < |g.ids| ensures !Ready(g, order, g.ids[q]) {
      assert g.ids[q] in Elements(g.ids);
    }
    assert NextReady(g, order, 0).None?;
  }

  /** The pending name with an empty wait set that is listed first. */
  function MinReady(g: Graph, ghost order: seq<string>, pending: map<string, set<string>>, from: nat): (r: Option<string>)
    requires WellFormed(g) && from <= |g.ids|
    requires Waiting(g, order, pending)
    ensures r == NextReady(g, order, from)
    decreases |g.ids| - from
  {
    if from == |g.ids| then None
    else
      var id := g.ids[from];
      assert id in Elements(g.ids);
      assert id in pending && pending[id] == {} <==> Ready(g, order, id) by {
        if id in pending && pending[id] == {} {
          forall d | d in g.deps[id] ensures d in Elements(order) {
            assert d !in pending[id];
          }
        }
        if Ready(g, order, id) {
          assert pending[id] == {};
        }
      }
      if id in pending && pending[id] == {} then Some(id) else MinReady(g, order, pending, from + 1)
  }
}

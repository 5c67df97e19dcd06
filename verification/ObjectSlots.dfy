/**
  Placement of results in eight object slots.  Result j needs `chunks[j]` slots from job j until job `last[j]`;
  every job takes the lowest slots that hold no result still needed.
 */
module ObjectSlots {
  import opened Base

  const SLOTS: nat := 8
  const REFERENCES: nat := 4

  /** Slot `x` holds a result that is still needed at job `i`. */
  ghost predicate Busy(last: seq<nat>, slots: seq<seq<nat>>, i: nat, x: nat)
    requires i <= |slots| && i <= |last|
  {
    exists j :: 0 <= j < i && x in slots[j] && last[j] >= i
  }

  /** The free slots from `from` on at job `i`, ascending. */
  ghost function FreeSlots(last: seq<nat>, slots: seq<seq<nat>>, i: nat, from: nat): (free: seq<nat>)
    requires i <= |slots| && i <= |last| && from <= SLOTS
    decreases SLOTS - from
  {
    if from == SLOTS then []
    else (if Busy(last, slots, i, from) then [] else [from]) + FreeSlots(last, slots, i, from + 1)
  }

  lemma {:induction false} FreeMember(last: seq<nat>, slots: seq<seq<nat>>, i: nat, from: nat, x: nat)
    requires i <= |slots| && i <= |last| && from <= SLOTS
    ensures x in FreeSlots(last, slots, i, from) <==> from <= x < SLOTS && !Busy(last, slots, i, x)
    decreases SLOTS - from
  {
    if from < SLOTS {
      var rest := FreeSlots(last, slots, i, from + 1);
      assert x in rest <==> from < x < SLOTS && !Busy(last, slots, i, x) by { FreeMember(last, slots, i, from + 1, x); }
      InCons(from, rest, x);
    }
  }

  lemma {:induction false} InCons<T>(x: T, s: seq<T>, y: T)
    ensures y in [x] + s <==> y == x || y in s
  {
  }

  lemma {:induction false} FreeDistinct(last: seq<nat>, slots: seq<seq<nat>>, i: nat, from: nat)
    requires i <= |slots| && i <= |last| && from <= SLOTS
    ensures Distinct(FreeSlots(last, slots, i, from))
    decreases SLOTS - from
  {
    if from < SLOTS {
      FreeDistinct(last, slots, i, from + 1);
      FreeMember(last, slots, i, from + 1, from);
      DistinctCons(from, FreeSlots(last, slots, i, from + 1));
    }
  }

  lemma {:induction false} DistinctCons<T>(x: T, s: seq<T>)
    requires Distinct(s) && x !in s
    ensures Distinct([x] + s)
  {
  }

  /** Job `i` writes the lowest free slots, one per chunk. */
  ghost predicate LowestSlots(chunks: seq<nat>, last: seq<nat>, slots: seq<seq<nat>>, i: nat)
    requires i < |slots| <= |chunks| == |last|
  {
    var free := FreeSlots(last, slots, i, 0);
    |free| >= chunks[i] && slots[i] == free[..chunks[i]]
  }

  ghost predicate SlotsFor(chunks: seq<nat>, last: seq<nat>, slots: seq<seq<nat>>) {
    && |slots| <= |chunks| == |last|
    && forall i :: 0 <= i < |slots| ==> LowestSlots(chunks, last, slots, i)
  }

  /** The chunks of the first `k` results that are still needed at job `i`. */
  function LiveChunks(chunks: seq<nat>, last: seq<nat>, i: nat, k: nat): nat
    requires k <= |chunks| == |last|
  {
    if k == 0 then 0
    else LiveChunks(chunks, last, i, k - 1) + if last[k - 1] >= i then chunks[k - 1] else 0
  }

  /** Job `i` references at most four objects and the slots not needed by earlier results suffice for its own. */
  predicate Fits(refs: seq<nat>, chunks: seq<nat>, last: seq<nat>, i: nat)
    requires i < |refs| == |chunks| == |last|
  {
    refs[i] + chunks[i] <= REFERENCES && LiveChunks(chunks, last, i, i) + chunks[i] <= SLOTS
  }

  // ----- What every slot plan keeps -----

  lemma {:induction false} SlotsDistinct(chunks: seq<nat>, last: seq<nat>, slots: seq<seq<nat>>, i: nat)
    requires SlotsFor(chunks, last, slots) && i < |slots|
    ensures Distinct(slots[i]) && |slots[i]| == chunks[i]
    ensures forall x :: x in slots[i] ==> x < SLOTS && !Busy(last, slots, i, x)
  {
    assert LowestSlots(chunks, last, slots, i);
    var free := FreeSlots(last, slots, i, 0);
    FreeDistinct(last, slots, i, 0);
    forall x | x in slots[i] ensures x < SLOTS && !Busy(last, slots, i, x) {
      assert x in free;
      FreeMember(last, slots, i, 0, x);
    }
  }

  /** A result's slots are not given to any later job up to its last use. */
  lemma {:induction false} SlotsKept(chunks: seq<nat>, last: seq<nat>, slots: seq<seq<nat>>, j: nat, i: nat)
    requires SlotsFor(chunks, last, slots) && j < i < |slots| && i <= last[j]
    ensures Elements(slots[i]) !! Elements(slots[j])
  {
    SlotsDistinct(chunks, last, slots, i);
    forall x | x in slots[i] ensures x !in slots[j] {
      assert !Busy(last, slots, i, x);
    }
  }

  /** Two results that are both still needed never share a slot. */
  lemma {:induction false} LiveResultsDisjoint(chunks: seq<nat>, last: seq<nat>, slots: seq<seq<nat>>, j: nat, k: nat, i: nat)
    requires SlotsFor(chunks, last, slots) && j < i <= |slots| && k < i && j != k && i <= last[j] && i <= last[k]
    ensures Elements(slots[j]) !! Elements(slots[k])
  {
    SlotsKept(chunks, last, slots, if j < k then j else k, if j < k then k else j);
  }

  // ----- Slots run out exactly when the chunks still needed leave too few -----

  ghost function Occupied(last: seq<nat>, slots: seq<seq<nat>>, i: nat, k: nat): set<nat>
    requires k <= i <= |slots| && i <= |last|
  {
    if k == 0 then {}
    else Occupied(last, slots, i, k - 1) + if last[k - 1] >= i then Elements(slots[k - 1]) else {}
  }

  lemma {:induction false} OccupiedIsBusy(last: seq<nat>, slots: seq<seq<nat>>, i: nat, k: nat, x: nat)
    requires k <= i <= |slots| && i <= |last|
    ensures x in Occupied(last, slots, i, k) <==> exists j :: 0 <= j < k && x in slots[j] && last[j] >= i
  {
    if k > 0 {
      OccupiedIsBusy(last, slots, i, k - 1, x);
    }
  }

  lemma {:induction false} OccupiedDisjoint(chunks: seq<nat>, last: seq<nat>, slots: seq<seq<nat>>, i: nat, k: nat, x: nat)
    requires SlotsFor(chunks, last, slots) && k < i <= |slots| && x in slots[k]
    ensures x !in Occupied(last, slots, i, k) && x < SLOTS
  {
    SlotsDistinct(chunks, last, slots, k);
    OccupiedIsBusy(last, slots, i, k, x);
    assert !Busy(last, slots, k, x);
  }

  lemma {:induction false} DisjointSize<T>(a: set<T>, b: set<T>)
    requires a !! b
    ensures |a + b| == |a| + |b|
  {
  }

  lemma {:induction false} OccupiedSize(chunks: seq<nat>, last: seq<nat>, slots: seq<seq<nat>>, i: nat, k: nat)
    requires SlotsFor(chunks, last, slots) && k <= i <= |slots|
    ensures |Occupied(last, slots, i, k)| == LiveChunks(chunks, last, i, k)
  {
    if k > 0 {
      OccupiedSize(chunks, last, slots, i, k - 1);
      OccupiedNext(chunks, last, slots, i, k - 1);
    }
  }

  lemma {:induction false} OccupiedNext(chunks: seq<nat>, last: seq<nat>, slots: seq<seq<nat>>, i: nat, k: nat)
    requires SlotsFor(chunks, last, slots) && k < i <= |slots|
    ensures |Occupied(last, slots, i, k + 1)| == |Occupied(last, slots, i, k)| + if last[k] >= i then chunks[k] else 0
  {
    if last[k] >= i {
      HeldApart(chunks, last, slots, i, k);
    } else {
      assert Occupied(last, slots, i, k + 1) == Occupied(last, slots, i, k);
    }
  }

  lemma {:induction false} HeldApart(chunks: seq<nat>, last: seq<nat>, slots: seq<seq<nat>>, i: nat, k: nat)
    requires SlotsFor(chunks, last, slots) && k < i <= |slots|
    ensures |Occupied(last, slots, i, k) + Elements(slots[k])| == |Occupied(last, slots, i, k)| + chunks[k]
  {
    var held, before := slots[k], Occupied(last, slots, i, k);
    assert |Elements(held)| == chunks[k] by { SlotsDistinct(chunks, last, slots, k); ElementsSize(held); }
    assert before !! Elements(held) by {
      forall x | x in held ensures x !in before { OccupiedDisjoint(chunks, last, slots, i, k, x); }
    }
    DisjointSize(before, Elements(held));
  }

  function SlotSet(n: nat): (all: set<nat>)
    ensures |all| == n && forall x: nat :: x in all <==> x < n
  {
    if n == 0 then {} else
      var below := SlotSet(n - 1);
      assert n - 1 !in below;
      below + {n - 1}
  }

  lemma {:induction false} FreeOrOccupied(chunks: seq<nat>, last: seq<nat>, slots: seq<seq<nat>>, i: nat, x: nat)
    requires SlotsFor(chunks, last, slots) && i <= |slots|
    ensures x in Occupied(last, slots, i, i) ==> x < SLOTS
    ensures x in FreeSlots(last, slots, i, 0) <==> x < SLOTS && x !in Occupied(last, slots, i, i)
  {
    FreeMember(last, slots, i, 0, x);
    OccupiedIsBusy(last, slots, i, i, x);
    if j :| 0 <= j < i && x in slots[j] && last[j] >= i {
      SlotsDistinct(chunks, last, slots, j);
    }
  }

  lemma {:induction false} FreeCount(chunks: seq<nat>, last: seq<nat>, slots: seq<seq<nat>>, i: nat)
    requires SlotsFor(chunks, last, slots) && i <= |slots|
    ensures |FreeSlots(last, slots, i, 0)| + LiveChunks(chunks, last, i, i) == SLOTS
  {
    var free, occupied := Elements(FreeSlots(last, slots, i, 0)), Occupied(last, slots, i, i);
    assert free !! occupied && free + occupied == SlotSet(SLOTS) by {
      forall x: nat ensures (x in occupied ==> x < SLOTS) && (x in free <==> x < SLOTS && x !in occupied) {
        FreeOrOccupied(chunks, last, slots, i, x);
      }
    }
    DisjointSize(free, occupied);
    OccupiedSize(chunks, last, slots, i, i);
    FreeDistinct(last, slots, i, 0);
    ElementsSize(FreeSlots(last, slots, i, 0));
  }

  // ----- The allocation loop -----

  /** `owners[x]` is the latest of the first `i` jobs that took slot `x`. */
  ghost predicate Owners(slots: seq<seq<nat>>, owners: seq<Option<nat>>) {
    && |owners| == SLOTS
    && forall x :: 0 <= x < SLOTS ==>
      match owners[x]
      case None => forall j :: 0 <= j < |slots| ==> x !in slots[j]
      case Some(o) => o < |slots| && x in slots[o] && forall j :: o < j < |slots| ==> x !in slots[j]
  }

  /** A slot is free exactly when it has no owner or its latest owner's result is no longer needed. */
  lemma {:induction false} OwnerDecides(chunks: seq<nat>, last: seq<nat>, slots: seq<seq<nat>>, owners: seq<Option<nat>>, x: nat)
    requires SlotsFor(chunks, last, slots) && Owners(slots, owners) && x < SLOTS
    ensures !Busy(last, slots, |slots|, x) <==> owners[x].None? || last[owners[x].value] < |slots|
  {
    if owners[x].Some? {
      var o := owners[x].value;
      if last[o] < |slots| {
        forall j | 0 <= j < |slots| && x in slots[j] ensures last[j] < |slots| {
          if j != o {
            assert j < o;
            SlotsDistinct(chunks, last, slots, o);
            assert !Busy(last, slots, o, x);
          }
        }
      }
    }
  }

  method FreeList(chunks: seq<nat>, last: seq<nat>, ghost slots: seq<seq<nat>>, owners: seq<Option<nat>>, i: nat) returns (free: seq<nat>)
    requires SlotsFor(chunks, last, slots) && Owners(slots, owners) && i == |slots| < |chunks|
    ensures free == FreeSlots(last, slots, i, 0)
  {
    free := [];
    var x := SLOTS;
    while x > 0
      invariant 0 <= x <= SLOTS && free == FreeSlots(last, slots, i, x)
    {
      x := x - 1;
      OwnerDecides(chunks, last, slots, owners, x);
      if owners[x].None? || last[owners[x].value] < i {
        free := [x] + free;
      }
    }
  }

  method TakeSlots(owners: seq<Option<nat>>, ghost slots: seq<seq<nat>>, i: nat, selected: seq<nat>) returns (taken: seq<Option<nat>>)
    requires i == |slots| && Owners(slots, owners) && forall x :: x in selected ==> x < SLOTS
    ensures Owners(slots + [selected], taken)
  {
    taken := owners;
    var k := 0;
    while k < |selected|
      invariant 0 <= k <= |selected| && |taken| == SLOTS
      invariant forall x :: x in selected ==> x < SLOTS
      invariant forall x :: 0 <= x < SLOTS ==> taken[x] == if x in selected[..k] then Some(i) else owners[x]
    {
      assert selected[k] in selected;
      taken := taken[selected[k] := Some(i)];
      k := k + 1;
    }
    assert selected[..k] == selected;
  }

  lemma {:induction false} PrefixPlan(chunks: seq<nat>, last: seq<nat>, slots: seq<seq<nat>>, selected: seq<nat>, i: nat, from: nat)
    requires i <= |slots| < |chunks| == |last| && from <= SLOTS
    ensures FreeSlots(last, slots + [selected], i, from) == FreeSlots(last, slots, i, from)
    decreases SLOTS - from
  {
    if from < SLOTS {
      PrefixPlan(chunks, last, slots, selected, i, from + 1);
      assert Busy(last, slots + [selected], i, from) <==> Busy(last, slots, i, from) by {
        assert forall j :: 0 <= j < i ==> (slots + [selected])[j] == slots[j];
      }
    }
  }

  lemma {:induction false} ExtendPlan(chunks: seq<nat>, last: seq<nat>, slots: seq<seq<nat>>)
    requires SlotsFor(chunks, last, slots) && |slots| < |chunks|
    requires |FreeSlots(last, slots, |slots|, 0)| >= chunks[|slots|]
    ensures SlotsFor(chunks, last, slots + [FreeSlots(last, slots, |slots|, 0)[..chunks[|slots|]]])
  {
    var selected := FreeSlots(last, slots, |slots|, 0)[..chunks[|slots|]];
    forall i | 0 <= i <= |slots| ensures LowestSlots(chunks, last, slots + [selected], i) {
      PrefixPlan(chunks, last, slots, selected, i, 0);
      assert i < |slots| ==> LowestSlots(chunks, last, slots, i);
    }
  }

  /** Places every result, refusing exactly when some job has too many references or too few slots are left. */
  method AssignSlots(refs: seq<nat>, chunks: seq<nat>, last: seq<nat>) returns (r: Option<seq<seq<nat>>>)
    requires |refs| == |chunks| == |last|
    ensures r.Some? <==> forall i :: 0 <= i < |chunks| ==> Fits(refs, chunks, last, i)
    ensures r.Some? ==> |r.value| == |chunks| && SlotsFor(chunks, last, r.value)
  {
    var owners: seq<Option<nat>> := seq(SLOTS, _ => None);
    var slots: seq<seq<nat>> := [];
    var i := 0;
    while i < |chunks|
      invariant 0 <= i <= |chunks| && |slots| == i && SlotsFor(chunks, last, slots) && Owners(slots, owners)
      invariant forall k :: 0 <= k < i ==> Fits(refs, chunks, last, k)
    {
      if refs[i] + chunks[i] > REFERENCES {
        assert !Fits(refs, chunks, last, i);
        return None;
      }
      var free := FreeList(chunks, last, slots, owners, i);
      assert |free| + LiveChunks(chunks, last, i, i) == SLOTS by { FreeCount(chunks, last, slots, i); }
      if |free| < chunks[i] {
        assert !Fits(refs, chunks, last, i);
        return None;
      }
      var selected := free[..chunks[i]];
      assert SlotsFor(chunks, last, slots + [selected]) by { ExtendPlan(chunks, last, slots); }
      assert forall x :: x in selected ==> x < SLOTS by { SlotsDistinct(chunks, last, slots + [selected], i); }
      owners := TakeSlots(owners, slots, i, selected);
      slots := slots + [selected];
      i := i + 1;
    }
    r := Some(slots);
  }
}

/** Safety of DAG runs: what the store holds after any sequence of successful and failed jobs. */
module FoldRun {
  import opened Base
  import opened ObjectSlots
  import opened FoldPlan
  import opened FoldDag

  ghost predicate InRun(s: Session, plan: Plan, success: seq<bool>, k: nat) {
    Planned(s, plan) && k <= |success| <= |s.jobs|
  }

  lemma {:induction false} PlanShape(s: Session, plan: Plan)
    requires PlanFor(s, plan)
    ensures |s.jobs| == |plan.slots| == |plan.lastUse| == |plan.chunks| == |plan.sources| && plan.output < |s.jobs|
    ensures plan.lastUse[plan.output] == |s.jobs|
    ensures forall i :: 0 <= i < |s.jobs| ==> plan.sources[i] == [Source(s, i, 0), Source(s, i, 1)]
  {
  }

  lemma {:induction false} HeldSlots(s: Session, plan: Plan, j: nat)
    requires Planned(s, plan) && j < |s.jobs|
    ensures 1 <= |plan.slots[j]| == plan.chunks[j] == ChunkCount(OutputCount(s.jobs[j].region)) && Distinct(plan.slots[j])
    ensures forall x :: x in plan.slots[j] ==> x < SLOTS
  {
    SlotsDistinct(plan.chunks, plan.lastUse, plan.slots, j);
    assert OutputCount(s.jobs[j].region) >= 1 by {
      assert JobAdmitted(s, j);
      RegionCount(s.jobs[j].region);
    }
  }

  /** A source of job `k` is available there exactly when it committed, and then holds its direct result. */
  lemma {:induction false} SourceAvailable(s: Session, plan: Plan, success: seq<bool>, store: Store, k: nat, b: nat)
    requires InRun(s, plan, success, k) && k < |s.jobs| && b < 2 && Source(s, k, b).Some?
    requires |s.jobs| == |plan.slots| == |plan.lastUse| && RunKept(s, plan, success, store, k)
    ensures var p := Source(s, k, b).value;
            && (AvailableIn(plan, store, p) <==> Commits(s, success, p))
            && (p in store.producers <==> Commits(s, success, p))
            && (p in store.producers ==> store.producers[p].words == DirectOutput(s, p))
  {
    var p := Source(s, k, b).value;
    assert k <= plan.lastUse[p] by { PlanShape(s, plan); LinksInPlace(s, plan, k, b); }
    assert |plan.slots[p]| > 0 by { HeldSlots(s, plan, p); }
    AvailableIffCommitted(s, plan, success, store, k, p);
  }

  lemma {:induction false} BadSourceCases(plan: Plan, store: Store, i: nat, a: Option<nat>, b: Option<nat>)
    requires i < |plan.sources| && plan.sources[i] == [a, b]
    ensures BadSourceIn(plan, store, i).Some? <==>
            (a.Some? && !AvailableIn(plan, store, a.value)) || (b.Some? && !AvailableIn(plan, store, b.value))
  {
    assert FirstBad(plan, store, [a, b]) == if a.Some? && !AvailableIn(plan, store, a.value) then a else FirstBad(plan, store, [b]) by {
      assert [a, b][1..] == [b];
    }
    assert FirstBad(plan, store, [b]) == if b.Some? && !AvailableIn(plan, store, b.value) then b else None;
  }

  predicate SourcesCommit(s: Session, success: seq<bool>, k: nat)
    requires k <= |success| <= |s.jobs| && k < |s.jobs|
  {
    && (Source(s, k, 0).Some? ==> Commits(s, success, Source(s, k, 0).value))
    && (Source(s, k, 1).Some? ==> Commits(s, success, Source(s, k, 1).value))
  }

  /** A job is blocked exactly when a job it reads did not commit; otherwise it resolves to slices of direct results. */
  lemma {:induction false} BlockedIffMissing(s: Session, plan: Plan, success: seq<bool>, store: Store, k: nat)
    requires InRun(s, plan, success, k) && k < |s.jobs|
    requires |s.jobs| == |plan.slots| == |plan.lastUse| && RunKept(s, plan, success, store, k)
    ensures BadSourceIn(plan, store, k).Some? <==> !SourcesCommit(s, success, k)
    ensures SourcesCommit(s, success, k) ==>
            forall b :: 0 <= b < 2 ==> ResolvedInput(s, plan, store, k, b) == DirectInput(s, k, b)
  {
    PlanShape(s, plan);
    BadSourceCases(plan, store, k, Source(s, k, 0), Source(s, k, 1));
    if Source(s, k, 0).Some? {
      SourceAvailable(s, plan, success, store, k, 0);
    }
    if Source(s, k, 1).Some? {
      SourceAvailable(s, plan, success, store, k, 1);
    }
    if SourcesCommit(s, success, k) {
      assert ResolvedInput(s, plan, store, k, 0) == DirectInput(s, k, 0);
      assert ResolvedInput(s, plan, store, k, 1) == DirectInput(s, k, 1);
    }
  }

  // ----- A commit keeps everything still needed -----

  lemma {:induction false} PositionAt(s: seq<nat>, c: nat)
    requires Distinct(s) && c < |s|
    ensures Position(s, s[c]) == c
  {
  }

  lemma {:induction false} OldChunkKept(s: Session, plan: Plan, store: Store, k: nat, words: seq<int>, j: nat, c: nat)
    requires Planned(s, plan) && j < k < |s.jobs| && |s.jobs| == |plan.slots| == |plan.lastUse|
    requires c < |plan.slots[j]| && j in store.producers && ChunkKept(s, plan, store, k, j, c)
    ensures ChunkKept(s, plan, CommittedTo(plan, store, k, words), k + 1, j, c)
  {
    var x := plan.slots[j][c];
    assert plan.lastUse[j] >= k ==> x !in plan.slots[k] by {
      if plan.lastUse[j] >= k {
        SlotsKept(plan.chunks, plan.lastUse, plan.slots, j, k);
        assert x in Elements(plan.slots[j]);
      }
    }
    var next := CommittedTo(plan, store, k, words);
    assert next.producers[j] == store.producers[j];
    assert next.versions[x] == if x in plan.slots[k] then store.versions[x] + 1 else store.versions[x];
    assert x !in plan.slots[k] ==> next.banks[x] == store.banks[x];
  }

  lemma {:induction false} NewChunkKept(s: Session, plan: Plan, store: Store, k: nat, words: seq<int>, c: nat)
    requires Planned(s, plan) && k < |s.jobs| && |s.jobs| == |plan.slots| == |plan.lastUse| && c < |plan.slots[k]|
    requires |store.versions| == |store.banks| == SLOTS
    ensures ChunkKept(s, plan, CommittedTo(plan, store, k, words), k + 1, k, c)
  {
    var next, x := CommittedTo(plan, store, k, words), plan.slots[k][c];
    assert x < SLOTS && Distinct(plan.slots[k]) by { HeldSlots(s, plan, k); assert x in plan.slots[k]; }
    PositionAt(plan.slots[k], c);
    assert next.banks[x] == Chunk(words, |plan.slots[k]|, c);
  }

  lemma {:induction false} NewProducerKept(s: Session, plan: Plan, success: seq<bool>, store: Store, k: nat, words: seq<int>, after: nat)
    requires InRun(s, plan, success, after) && after == k + 1 && |s.jobs| == |plan.slots| == |plan.lastUse| && |store.versions| == |store.banks| == SLOTS
    requires Commits(s, success, k) && words == DirectOutput(s, k)
    ensures ProducerKept(s, plan, success, CommittedTo(plan, store, k, words), after, k)
  {
    var next := CommittedTo(plan, store, k, words);
    forall c | 0 <= c < |plan.slots[k]| ensures ChunkKept(s, plan, next, after, k, c) {
      NewChunkKept(s, plan, store, k, words, c);
    }
  }

  lemma {:induction false} OldProducerKept(s: Session, plan: Plan, success: seq<bool>, store: Store, k: nat, words: seq<int>, j: nat, after: nat)
    requires InRun(s, plan, success, after) && j < k && after == k + 1 && |s.jobs| == |plan.slots| == |plan.lastUse|
    requires ProducerKept(s, plan, success, store, k, j)
    ensures ProducerKept(s, plan, success, CommittedTo(plan, store, k, words), after, j)
  {
    var next := CommittedTo(plan, store, k, words);
    assert j in next.producers <==> j in store.producers;
    if j in store.producers {
      forall c | 0 <= c < |plan.slots[j]| ensures ChunkKept(s, plan, next, after, j, c) {
        assert ChunkKept(s, plan, store, k, j, c);
        OldChunkKept(s, plan, store, k, words, j, c);
      }
    }
  }

  lemma {:induction false} CommitKeeps(s: Session, plan: Plan, success: seq<bool>, store: Store, k: nat)
    requires InRun(s, plan, success, k + 1) && |s.jobs| == |plan.slots| == |plan.lastUse|
    requires RunKept(s, plan, success, store, k) && Commits(s, success, k)
    ensures RunKept(s, plan, success, CommittedTo(plan, store, k, DirectOutput(s, k)), k + 1)
  {
    var words, after := DirectOutput(s, k), k + 1;
    var next := CommittedTo(plan, store, k, words);
    forall j | 0 <= j < after ensures ProducerKept(s, plan, success, next, after, j) {
      if j == k {
        NewProducerKept(s, plan, success, store, k, words, after);
      } else {
        assert ProducerKept(s, plan, success, store, k, j);
        OldProducerKept(s, plan, success, store, k, words, j, after);
      }
    }
  }

  lemma {:induction false} SkipKeeps(s: Session, plan: Plan, success: seq<bool>, store: Store, k: nat)
    requires InRun(s, plan, success, k + 1) && |s.jobs| == |plan.slots| == |plan.lastUse|
    requires RunKept(s, plan, success, store, k) && !Commits(s, success, k)
    ensures RunKept(s, plan, success, store, k + 1)
  {
    var after := k + 1;
    forall j | 0 <= j < after ensures ProducerKept(s, plan, success, store, after, j) {
      if j < k {
        assert ProducerKept(s, plan, success, store, k, j);
        if j in store.producers {
          forall c | 0 <= c < |plan.slots[j]| ensures ChunkKept(s, plan, store, after, j, c) {
            assert ChunkKept(s, plan, store, k, j, c);
          }
        }
      }
    }
  }

  /** The invariant of every run. */
  lemma {:induction false} RunKeeps(s: Session, plan: Plan, success: seq<bool>, k: nat)
    requires InRun(s, plan, success, k) && |s.jobs| == |plan.slots| == |plan.lastUse|
    ensures RunKept(s, plan, success, After(s, plan, success, k), k)
  {
    if k > 0 {
      RunKeeps(s, plan, success, k - 1);
      var store := After(s, plan, success, k - 1);
      BlockedIffMissing(s, plan, success, store, k - 1);
      if Commits(s, success, k - 1) {
        CommitKeeps(s, plan, success, store, k - 1);
      } else {
        SkipKeeps(s, plan, success, store, k - 1);
      }
    }
  }

  // ----- Main results -----

  /** At every job of every run: blocked exactly when a source did not commit, else given slices of direct evaluation. */
  lemma {:induction false} RunResolves(s: Session, plan: Plan, success: seq<bool>, k: nat)
    requires InRun(s, plan, success, k) && k < |s.jobs| && |s.jobs| == |plan.slots| == |plan.lastUse|
    ensures var store := After(s, plan, success, k);
            && (BadSourceIn(plan, store, k).Some? <==> !SourcesCommit(s, success, k))
            && (SourcesCommit(s, success, k) ==> forall b :: 0 <= b < 2 ==> ResolvedInput(s, plan, store, k, b) == DirectInput(s, k, b))
  {
    RunKeeps(s, plan, success, k);
    BlockedIffMissing(s, plan, success, After(s, plan, success, k), k);
  }

  /** An available producer committed, its saved words are its direct result, and its banks hold them zero-padded. */
  lemma {:induction false} AvailableBanks(s: Session, plan: Plan, success: seq<bool>, k: nat, p: nat, c: nat)
    requires InRun(s, plan, success, k) && |s.jobs| == |plan.slots| == |plan.lastUse|
    requires AvailableIn(plan, After(s, plan, success, k), p) && c < |plan.slots[p]|
    ensures p < k && Commits(s, success, p)
    ensures var store := After(s, plan, success, k);
            && store.producers[p].words == DirectOutput(s, p)
            && plan.slots[p][c] < |store.banks| && store.banks[plan.slots[p][c]] == Chunk(DirectOutput(s, p), |plan.slots[p]|, c)
  {
    var store := After(s, plan, success, k);
    RunKeeps(s, plan, success, k);
    assert ProducerKept(s, plan, success, store, k, p);
    assert ChunkKept(s, plan, store, k, p, c);
    assert store.producers[p].versions[c] == VersionsAt(store.versions, plan.slots[p])[c];
  }

  /** At every point of every run the designated output is available exactly when its job has run and committed. */
  lemma {:induction false} OutputAvailable(s: Session, plan: Plan, success: seq<bool>, k: nat)
    requires InRun(s, plan, success, k) && |s.jobs| == |plan.slots| == |plan.lastUse|
    ensures var store, o := After(s, plan, success, k), plan.output;
            && (AvailableIn(plan, store, o) <==> o < k && Commits(s, success, o))
            && (AvailableIn(plan, store, o) ==> o < |s.jobs| && store.producers[o].words == DirectOutput(s, o))
  {
    var store := After(s, plan, success, k);
    RunKeeps(s, plan, success, k);
    PlanShape(s, plan);
    HeldSlots(s, plan, plan.output);
    if plan.output < k {
      AvailableIffCommitted(s, plan, success, store, k, plan.output);
    }
  }
}

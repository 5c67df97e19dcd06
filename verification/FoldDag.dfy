/**
  The run-time state of a planned DAG session: versioned object banks and saved producers, stepped job by job with
  arbitrary success or failure, against direct evaluation of the DAG.
 */
module FoldDag {
  import opened Base
  import opened Tables
  import opened AffineFold
  import opened ObjectSlots
  import opened FoldPlan

  // ----- Accepted plans -----

  /** The slots job `i` reads: one per producer chunk its linked operands touch. */
  function ReadSlots(plan: Plan, i: nat): set<nat> {
    if i < |plan.sources| && i < |plan.offsets| && i < |plan.lengths| then
      OperandSlots(plan, i, 0) + OperandSlots(plan, i, 1)
    else {}
  }

  function OperandSlots(plan: Plan, i: nat, b: nat): set<nat>
    requires i < |plan.sources| && i < |plan.offsets| && i < |plan.lengths|
  {
    if b < |plan.sources[i]| && b < |plan.offsets[i]| && b < |plan.lengths[i]| then
      SlotsOfChunks(plan.slots, OperandChunks(plan.sources[i][b], plan.offsets[i][b], plan.lengths[i][b]))
    else {}
  }

  function SlotAt(slots: seq<seq<nat>>, pair: (nat, nat)): nat {
    if pair.0 < |slots| && pair.1 < |slots[pair.0]| then slots[pair.0][pair.1] else 0
  }

  function SlotsOfChunks(slots: seq<seq<nat>>, chunks: set<(nat, nat)>): set<nat> {
    set pair | pair in chunks :: SlotAt(slots, pair)
  }

  ghost predicate Planned(s: Session, plan: Plan) {
    Plannable(s) && PlanFor(s, plan)
  }

  /** What the run needs of an accepted plan's links. */
  ghost predicate LinkInPlace(s: Session, plan: Plan, i: nat, b: nat)
    requires i < |s.jobs| && |plan.lastUse| == |plan.chunks| == |s.jobs|
  {
    var source, start, length := Source(s, i, b), Start(s, i, b), OperandLength(s.jobs[i].region, b);
    source.Some? ==>
      && source.value < i <= plan.lastUse[source.value]
      && 0 <= start && 1 <= length && start + length <= OutputCount(s.jobs[source.value].region)
      && (start + length - 1) / BANK_WORDS < plan.chunks[source.value]
  }

  lemma {:induction false} LinkAdmittedInRange(s: Session, i: nat, b: nat)
    requires SessionAdmitted(s) && i < |s.jobs| && b < 2 && Source(s, i, b).Some?
    ensures var start, length := Start(s, i, b), OperandLength(s.jobs[i].region, b);
            0 <= start && 1 <= length && start + length <= OutputCount(s.jobs[Source(s, i, b).value].region)
  {
    assert JobAdmitted(s, i);
    assert LinkAdmitted(s, i, b);
  }

  lemma {:induction false} ChunkInRange(word: int, count: int)
    requires 0 <= word < count
    ensures word / BANK_WORDS < ChunkCount(count)
  {
  }

  lemma {:induction false} LinksInPlace(s: Session, plan: Plan, i: nat, b: nat)
    requires Planned(s, plan) && i < |s.jobs| && b < 2
    ensures LinkInPlace(s, plan, i, b)
  {
    var source, start, length := Source(s, i, b), Start(s, i, b), OperandLength(s.jobs[i].region, b);
    if source.Some? {
      var p := source.value;
      LinkAdmittedInRange(s, i, b);
      ChunkInRange(start + length - 1, OutputCount(s.jobs[p].region));
      assert Reads(s, i, p);
      LastReaderIsLast(s, p, |s.jobs|, i);
    }
  }

  /** A chunk job `i` reads belongs to an earlier result that is still held at `i`. */
  lemma {:induction false} ReadChunkHeld(s: Session, plan: Plan, i: nat, p: nat, c: nat)
    requires Planned(s, plan) && i < |s.jobs| && (p, c) in ReadChunks(s, i)
    ensures p < i <= plan.lastUse[p] && c < |plan.slots[p]| && plan.slots[p][c] in plan.slots[p]
  {
    LinksInPlace(s, plan, i, 0);
    LinksInPlace(s, plan, i, 1);
    assert p < i ==> |plan.slots[p]| == plan.chunks[p] by {
      if p < i { SlotsDistinct(plan.chunks, plan.lastUse, plan.slots, p); }
    }
  }

  /** Distinct producer chunks read by a job lie in distinct slots. */
  lemma {:induction false} ReadChunksSeparate(s: Session, plan: Plan, i: nat, a: (nat, nat), b: (nat, nat))
    requires Planned(s, plan) && i < |s.jobs| && a in ReadChunks(s, i) && b in ReadChunks(s, i) && a != b
    ensures SlotAt(plan.slots, a) != SlotAt(plan.slots, b)
  {
    ReadChunkHeld(s, plan, i, a.0, a.1);
    ReadChunkHeld(s, plan, i, b.0, b.1);
    if a.0 == b.0 {
      SlotsDistinct(plan.chunks, plan.lastUse, plan.slots, a.0);
    } else {
      LiveResultsDisjoint(plan.chunks, plan.lastUse, plan.slots, a.0, b.0, i);
      assert plan.slots[a.0][a.1] in Elements(plan.slots[a.0]);
    }
  }

  lemma {:induction false} ReadSlotsAre(s: Session, plan: Plan, i: nat)
    requires PlanFor(s, plan) && i < |s.jobs|
    ensures ReadSlots(plan, i) == SlotsOfChunks(plan.slots, ReadChunks(s, i))
  {
  }

  lemma {:induction false} ImageSize(slots: seq<seq<nat>>, chunks: set<(nat, nat)>)
    requires forall a, b :: a in chunks && b in chunks && a != b ==> SlotAt(slots, a) != SlotAt(slots, b)
    ensures |SlotsOfChunks(slots, chunks)| == |chunks|
  {
    if chunks != {} {
      var a :| a in chunks;
      var rest := chunks - {a};
      ImageSize(slots, rest);
      assert SlotsOfChunks(slots, chunks) == SlotsOfChunks(slots, rest) + {SlotAt(slots, a)};
      assert SlotAt(slots, a) !in SlotsOfChunks(slots, rest);
    }
  }

  /** A job never writes a slot it reads, and reads and writes at most four slots, one for each chunk. */
  lemma {:induction false} ReadsAndWritesSeparate(s: Session, plan: Plan, i: nat)
    requires Planned(s, plan) && i < |s.jobs|
    ensures ReadSlots(plan, i) !! Elements(plan.slots[i])
    ensures |ReadSlots(plan, i)| == |ReadChunks(s, i)| && |plan.slots[i]| == plan.chunks[i]
    ensures |ReadSlots(plan, i)| + |plan.slots[i]| <= REFERENCES
  {
    ReadSlotsAre(s, plan, i);
    SlotsDistinct(plan.chunks, plan.lastUse, plan.slots, i);
    forall a, b | a in ReadChunks(s, i) && b in ReadChunks(s, i) && a != b ensures SlotAt(plan.slots, a) != SlotAt(plan.slots, b) {
      ReadChunksSeparate(s, plan, i, a, b);
    }
    ImageSize(plan.slots, ReadChunks(s, i));
    forall a | a in ReadChunks(s, i) ensures SlotAt(plan.slots, a) !in plan.slots[i] {
      ReadChunkHeld(s, plan, i, a.0, a.1);
      SlotsKept(plan.chunks, plan.lastUse, plan.slots, a.0, i);
      assert plan.slots[a.0][a.1] in Elements(plan.slots[a.0]);
    }
    assert Fits(RefsOf(s, |s.jobs|), ChunksOf(s, |s.jobs|), UsesOf(s), i);
  }

  // ----- Direct evaluation -----

  function Compute(r: Region, inputs: (seq<int>, seq<int>)): (words: seq<int>)
    ensures r.rows >= 0 && r.columns >= 0 ==> |words| == OutputCount(r)
  {
    if r.rows >= 0 && r.columns >= 0 then Table(r.rows, r.columns, ReferenceField(r, inputs)) else []
  }

  function Slice(words: seq<int>, start: int, length: int): seq<int> {
    if 0 <= start && 0 <= length && start + length <= |words| then words[start..start + length] else []
  }

  function LiteralOf(op: Operand): seq<int> {
    if op.Literal? then op.words else []
  }

  function DirectInput(s: Session, i: nat, b: nat): seq<int>
    requires i < |s.jobs|
    decreases i, 0
  {
    match Source(s, i, b)
    case None => LiteralOf(InputAt(s.jobs[i], b))
    case Some(p) => Slice(DirectOutput(s, p), Start(s, i, b), OperandLength(s.jobs[i].region, b))
  }

  /** The result of job `i`, evaluated straight from the session. */
  function DirectOutput(s: Session, i: nat): seq<int>
    requires i < |s.jobs|
    decreases i, 1
  {
    Compute(s.jobs[i].region, (DirectInput(s, i, 0), DirectInput(s, i, 1)))
  }

  // ----- The store -----

  datatype Saved = Saved(versions: seq<nat>, words: seq<int>)

  datatype Store = Store(versions: seq<nat>, banks: seq<seq<int>>, producers: map<nat, Saved>)

  function VersionsAt(versions: seq<nat>, slots: seq<nat>): (v: seq<nat>)
    ensures |v| == |slots|
  {
    seq(|slots|, k requires 0 <= k < |slots| => if slots[k] < |versions| then versions[slots[k]] else 0)
  }

  predicate AvailableIn(plan: Plan, store: Store, p: nat) {
    p in store.producers && p < |plan.slots| && store.producers[p].versions == VersionsAt(store.versions, plan.slots[p])
  }

  /** The first source of job `i` that is not available. */
  function BadSourceIn(plan: Plan, store: Store, i: nat): Option<nat> {
    if i < |plan.sources| then FirstBad(plan, store, plan.sources[i]) else None
  }

  function FirstBad(plan: Plan, store: Store, sources: seq<Option<nat>>): Option<nat> {
    if sources == [] then None
    else if sources[0].Some? && !AvailableIn(plan, store, sources[0].value) then sources[0]
    else FirstBad(plan, store, sources[1..])
  }

  function ResolvedInput(s: Session, plan: Plan, store: Store, i: nat, b: nat): seq<int>
    requires i < |s.jobs|
  {
    match Source(s, i, b)
    case None => LiteralOf(InputAt(s.jobs[i], b))
    case Some(p) =>
      if p in store.producers
      then Slice(store.producers[p].words, Start(s, i, b), OperandLength(s.jobs[i].region, b))
      else []
  }

  function Padded(words: seq<int>, chunks: nat): (p: seq<int>)
    ensures |p| >= BANK_WORDS * chunks
  {
    words + if |words| < BANK_WORDS * chunks then seq(BANK_WORDS * chunks - |words|, _ => 0) else []
  }

  /** The `c`-th bank's worth of zero-padded words. */
  function Chunk(words: seq<int>, chunks: nat, c: nat): seq<int>
    requires c < chunks
  {
    Padded(words, chunks)[BANK_WORDS * c..BANK_WORDS * (c + 1)]
  }

  function Bumped(versions: seq<nat>, slots: seq<nat>): (v: seq<nat>) {
    seq(|versions|, x requires 0 <= x < |versions| => if x in slots then versions[x] + 1 else versions[x])
  }

  function Written(banks: seq<seq<int>>, slots: seq<nat>, words: seq<int>): (b: seq<seq<int>>) {
    seq(|banks|, x requires 0 <= x < |banks| => if x in slots then Chunk(words, |slots|, Position(slots, x)) else banks[x])
  }

  function CommittedTo(plan: Plan, store: Store, i: nat, words: seq<int>): Store
    requires i < |plan.slots|
  {
    var versions := Bumped(store.versions, plan.slots[i]);
    Store(versions, Written(store.banks, plan.slots[i], words), store.producers[i := Saved(VersionsAt(versions, plan.slots[i]), words)])
  }

  function Empty(): Store {
    Store(seq(SLOTS, _ => 1), seq(SLOTS, _ => seq(BANK_WORDS, _ => 0)), map[])
  }

  /** One job: skipped when a source is missing, otherwise computed from what the store resolves and committed on success. */
  function Advance(s: Session, plan: Plan, store: Store, i: nat, success: bool): Store
    requires i < |s.jobs| && i < |plan.slots|
  {
    if BadSourceIn(plan, store, i).Some? || !success then store
    else CommittedTo(plan, store, i, Compute(s.jobs[i].region, (ResolvedInput(s, plan, store, i, 0), ResolvedInput(s, plan, store, i, 1))))
  }

  /** The store after the first `k` jobs, whose outcomes are arbitrary. */
  function After(s: Session, plan: Plan, success: seq<bool>, k: nat): Store
    requires k <= |success| <= |s.jobs| == |plan.slots|
  {
    if k == 0 then Empty() else Advance(s, plan, After(s, plan, success, k - 1), k - 1, success[k - 1])
  }

  /** Job `j` commits: it succeeds and every job it reads committed. */
  predicate Commits(s: Session, success: seq<bool>, j: nat)
    requires j < |success| <= |s.jobs|
    decreases j
  {
    && success[j]
    && (Source(s, j, 0).Some? ==> Commits(s, success, Source(s, j, 0).value))
    && (Source(s, j, 1).Some? ==> Commits(s, success, Source(s, j, 1).value))
  }

  // ----- What every run keeps -----

  /** A saved chunk is current until its slot is rewritten, and while current the bank holds it. */
  ghost predicate ChunkKept(s: Session, plan: Plan, store: Store, k: nat, j: nat, c: nat)
    requires j < |s.jobs| == |plan.slots| == |plan.lastUse| && c < |plan.slots[j]| && j in store.producers
  {
    var x, saved := plan.slots[j][c], store.producers[j];
    && x < |store.versions| == |store.banks| && |saved.versions| == |plan.slots[j]|
    && saved.versions[c] <= store.versions[x]
    && (saved.versions[c] == store.versions[x] ==> store.banks[x] == Chunk(saved.words, |plan.slots[j]|, c))
    && (plan.lastUse[j] + 1 >= k ==> saved.versions[c] == store.versions[x])
  }

  ghost predicate ProducerKept(s: Session, plan: Plan, success: seq<bool>, store: Store, k: nat, j: nat)
    requires j < |success| <= |s.jobs| == |plan.slots| == |plan.lastUse|
  {
    && (j in store.producers <==> Commits(s, success, j))
    && (j in store.producers ==>
      && store.producers[j].words == DirectOutput(s, j)
      && forall c {:trigger ChunkKept(s, plan, store, k, j, c)} :: 0 <= c < |plan.slots[j]| ==> ChunkKept(s, plan, store, k, j, c))
  }

  ghost predicate RunKept(s: Session, plan: Plan, success: seq<bool>, store: Store, k: nat)
    requires k <= |success| <= |s.jobs| == |plan.slots| == |plan.lastUse|
  {
    && |store.versions| == |store.banks| == SLOTS
    && (forall j :: j in store.producers ==> j < k)
    && forall j {:trigger ProducerKept(s, plan, success, store, k, j)} :: 0 <= j < k ==> ProducerKept(s, plan, success, store, k, j)
  }

  /** While a result is needed, it is available exactly when its job committed. */
  lemma {:induction false} AvailableIffCommitted(s: Session, plan: Plan, success: seq<bool>, store: Store, k: nat, p: nat)
    requires p < k <= |success| <= |s.jobs| == |plan.slots| == |plan.lastUse|
    requires RunKept(s, plan, success, store, k) && k <= plan.lastUse[p] + 1
    requires |plan.slots[p]| > 0
    ensures AvailableIn(plan, store, p) <==> Commits(s, success, p)
    ensures p in store.producers <==> Commits(s, success, p)
    ensures p in store.producers ==> store.producers[p].words == DirectOutput(s, p)
  {
    assert ProducerKept(s, plan, success, store, k, p);
    if p in store.producers {
      var saved, now := store.producers[p].versions, VersionsAt(store.versions, plan.slots[p]);
      assert ChunkKept(s, plan, store, k, p, 0);
      forall c | 0 <= c < |plan.slots[p]| ensures saved[c] == now[c] {
        assert ChunkKept(s, plan, store, k, p, c);
      }
      assert saved == now;
    }
  }
}

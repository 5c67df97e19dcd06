/**
  Static admission of a DAG of fold jobs: every link names an earlier producer, every job references at most four
  objects, and results are placed in eight object slots for exactly as long as they are needed.
 */
module FoldPlan {
  import opened Base
  import opened AffineFold
  import opened AffineCompiler
  import opened AffineExecution
  import opened ObjectSlots

  datatype Operand = Literal(words: seq<int>) | Linked(producer: string) | Ranged(producer: string, offset: int, length: int)

  datatype Job = Job(name: string, region: Region, inputs: seq<Operand>)

  /** `ranged` distinguishes the second session schema, which allows operand ranges. */
  datatype Session = Session(ranged: bool, jobs: seq<Job>, output: string)

  datatype Plan = Plan(sources: seq<seq<Option<nat>>>, chunks: seq<nat>, lastUse: seq<nat>, slots: seq<seq<nat>>,
                       output: nat, offsets: seq<seq<int>>, lengths: seq<seq<int>>)

  const BANK_WORDS := 128

  // ----- Links -----

  /** The index of the job called `name` among the first `i`. */
  function Find(jobs: seq<Job>, i: nat, name: string): (r: Option<nat>)
    requires i <= |jobs|
    ensures r.Some? ==> r.value < i && jobs[r.value].name == name
    ensures r.None? ==> forall j :: 0 <= j < i ==> jobs[j].name != name
  {
    if i == 0 then None else if jobs[i - 1].name == name then Some(i - 1) else Find(jobs, i - 1, name)
  }

  function OutputCount(r: Region): int {
    Times(r.columns, r.rows)
  }

  function OperandLength(r: Region, b: nat): int {
    if b == 0 then r.lengthA else r.lengthB
  }

  function InputAt(job: Job, b: nat): Operand {
    if b < |job.inputs| then job.inputs[b] else Literal([])
  }

  /** The earlier job a linked operand names. */
  function Source(s: Session, i: nat, b: nat): (r: Option<nat>)
    requires i < |s.jobs|
    ensures r.Some? ==> r.value < i
  {
    match InputAt(s.jobs[i], b)
    case Literal(_) => None
    case Linked(p) => Find(s.jobs, i, p)
    case Ranged(p, _, _) => Find(s.jobs, i, p)
  }

  function Start(s: Session, i: nat, b: nat): int
    requires i < |s.jobs|
  {
    match InputAt(s.jobs[i], b) case Ranged(_, offset, _) => offset case _ => 0
  }

  predicate LinkAdmitted(s: Session, i: nat, b: nat)
    requires i < |s.jobs|
  {
    var length, source := OperandLength(s.jobs[i].region, b), Source(s, i, b);
    match InputAt(s.jobs[i], b)
    case Literal(_) => true
    case Linked(_) => source.Some? && 1 <= length == OutputCount(s.jobs[source.value].region)
    case Ranged(_, offset, extent) =>
      && s.ranged && source.Some? && 0 <= offset && 1 <= extent == length
      && offset + extent <= OutputCount(s.jobs[source.value].region)
  }

  predicate LiteralAdmitted(job: Job, b: nat) {
    match InputAt(job, b)
    case Literal(words) => |words| == OperandLength(job.region, b) && AllU32(words)
    case _ => true
  }

  ghost predicate JobAdmitted(s: Session, i: nat)
    requires i < |s.jobs|
  {
    var job := s.jobs[i];
    && ProjectName(job.name) && Find(s.jobs, i, job.name).None?
    && Admitted(job.region)
    && |job.inputs| == 2 && LinkAdmitted(s, i, 0) && LinkAdmitted(s, i, 1)
    && LiteralAdmitted(job, 0) && LiteralAdmitted(job, 1)
  }

  ghost predicate SessionAdmitted(s: Session) {
    && 1 <= |s.jobs| <= 8
    && JobsAdmitted(s, |s.jobs|)
    && Find(s.jobs, |s.jobs|, s.output).Some?
  }

  /** The first `k` jobs are admitted. */
  ghost predicate JobsAdmitted(s: Session, k: nat)
    requires k <= |s.jobs|
  {
    forall i {:trigger JobAdmitted(s, i)} :: 0 <= i < k ==> JobAdmitted(s, i)
  }

  lemma {:induction false} NextAdmitted(s: Session, i: nat)
    requires i < |s.jobs| && JobsAdmitted(s, i)
    ensures JobsAdmitted(s, i + 1) <==> JobAdmitted(s, i)
    ensures !JobAdmitted(s, i) ==> !JobsAdmitted(s, |s.jobs|)
  {
  }

  // ----- Lifetimes and resource needs -----

  predicate Reads(s: Session, i: nat, j: nat)
    requires i < |s.jobs|
  {
    Source(s, i, 0) == Some(j) || Source(s, i, 1) == Some(j)
  }

  /** The last job before `k` that reads `j`, or `j` itself. */
  function LastReader(s: Session, j: nat, k: nat): (l: nat)
    requires k <= |s.jobs|
    ensures l == j || (j < l < k && Reads(s, l, j))
  {
    if k == 0 then j
    else if Reads(s, k - 1, j) then k - 1
    else LastReader(s, j, k - 1)
  }

  lemma {:induction false} LastReaderIsLast(s: Session, j: nat, k: nat, i: nat)
    requires i < k <= |s.jobs| && Reads(s, i, j)
    ensures i <= LastReader(s, j, k)
  {
    if i < k - 1 && !Reads(s, k - 1, j) {
      LastReaderIsLast(s, j, k - 1, i);
    }
  }

  /** The designated output is kept to the end; any other result to its last reader. */
  function LastUse(s: Session, j: nat): (l: nat)
    requires j < |s.jobs|
    ensures l >= j
  {
    if Find(s.jobs, |s.jobs|, s.output) == Some(j) then |s.jobs| else LastReader(s, j, |s.jobs|)
  }

  function ChunkCount(count: int): (c: nat) {
    if count < 1 then 0 else (count + BANK_WORDS - 1) / BANK_WORDS
  }

  /** The producer chunks a linked operand touches. */
  function OperandChunks(source: Option<nat>, start: int, length: int): set<(nat, nat)> {
    if source.None? || start < 0 || length < 1 then {}
    else set c: nat | start / BANK_WORDS <= c <= (start + length - 1) / BANK_WORDS :: (source.value, c)
  }

  function ReadChunks(s: Session, i: nat): set<(nat, nat)>
    requires i < |s.jobs|
  {
    OperandChunks(Source(s, i, 0), Start(s, i, 0), s.jobs[i].region.lengthA)
    + OperandChunks(Source(s, i, 1), Start(s, i, 1), s.jobs[i].region.lengthB)
  }

  /** The columns of a plan for the first `k` jobs. */
  function SourcesOf(s: Session, k: nat): (c: seq<seq<Option<nat>>>)
    requires k <= |s.jobs|
  {
    seq(k, i requires 0 <= i < k => [Source(s, i, 0), Source(s, i, 1)])
  }

  function OffsetsOf(s: Session, k: nat): (c: seq<seq<int>>)
    requires k <= |s.jobs|
  {
    seq(k, i requires 0 <= i < k => [Start(s, i, 0), Start(s, i, 1)])
  }

  function LengthsOf(s: Session, k: nat): (c: seq<seq<int>>)
    requires k <= |s.jobs|
  {
    seq(k, i requires 0 <= i < k => [s.jobs[i].region.lengthA, s.jobs[i].region.lengthB])
  }

  function ChunksOf(s: Session, k: nat): (c: seq<nat>)
    requires k <= |s.jobs|
  {
    seq(k, i requires 0 <= i < k => ChunkCount(OutputCount(s.jobs[i].region)))
  }

  function RefsOf(s: Session, k: nat): (c: seq<nat>)
    requires k <= |s.jobs|
  {
    seq(k, i requires 0 <= i < k => |ReadChunks(s, i)|)
  }

  function ReadersOf(s: Session, k: nat): (c: seq<nat>)
    requires k <= |s.jobs|
  {
    seq(k, j requires 0 <= j < k => LastReader(s, j, k))
  }

  function UsesOf(s: Session): (c: seq<nat>) {
    seq(|s.jobs|, j requires 0 <= j < |s.jobs| => LastUse(s, j))
  }

  ghost predicate ResourcesFit(s: Session) {
    var n := |s.jobs|;
    forall i :: 0 <= i < n ==> Fits(RefsOf(s, n), ChunksOf(s, n), UsesOf(s), i)
  }

  /** What `compile_plan` accepts: an admitted session whose every job fits its references and the slots left. */
  ghost predicate Plannable(s: Session) {
    SessionAdmitted(s) && ResourcesFit(s)
  }

  ghost predicate PlanFor(s: Session, plan: Plan) {
    var n := |s.jobs|;
    && plan.sources == SourcesOf(s, n) && plan.offsets == OffsetsOf(s, n) && plan.lengths == LengthsOf(s, n)
    && plan.chunks == ChunksOf(s, n) && plan.lastUse == UsesOf(s)
    && Find(s.jobs, n, s.output) == Some(plan.output)
    && |plan.slots| == n && SlotsFor(plan.chunks, plan.lastUse, plan.slots)
  }

  // ----- compile_plan -----

  ghost predicate NamesUpTo(s: Session, i: nat, names: map<string, nat>)
    requires i <= |s.jobs|
  {
    forall n :: (n in names <==> Find(s.jobs, i, n).Some?) && (n in names ==> Find(s.jobs, i, n) == Some(names[n]))
  }

  datatype Checked = Checked(source: Option<nat>, start: int, literal: seq<int>)

  method CheckOperand(s: Session, i: nat, b: nat, names: map<string, nat>, counts: seq<int>) returns (r: Option<Checked>)
    requires i < |s.jobs| && b < 2 && |s.jobs[i].inputs| == 2 && NamesUpTo(s, i, names)
    requires |counts| == i && forall k :: 0 <= k < i ==> counts[k] == OutputCount(s.jobs[k].region) >= 1
    requires OperandLength(s.jobs[i].region, b) >= 0
    ensures r.Some? <==> LinkAdmitted(s, i, b)
    ensures r.Some? ==> r.value.source == Source(s, i, b) && r.value.start == Start(s, i, b)
    ensures r.Some? ==> (|r.value.literal| == OperandLength(s.jobs[i].region, b) && AllU32(r.value.literal) <==> LiteralAdmitted(s.jobs[i], b))
  {
    var length := OperandLength(s.jobs[i].region, b);
    match s.jobs[i].inputs[b]
    case Literal(words) =>
      r := Some(Checked(None, 0, words));
    case Linked(p) =>
      if p !in names || length != counts[names[p]] {
        return None;
      }
      r := Some(Checked(Some(names[p]), 0, seq(length, _ => 0)));
    case Ranged(p, start, extent) =>
      if !s.ranged || p !in names {
        return None;
      }
      var count := counts[names[p]];
      if start < 0 || extent < 1 || start > count || extent > count - start || length != extent {
        return None;
      }
      r := Some(Checked(Some(names[p]), start, seq(length, _ => 0)));
  }

  function Marked(last: seq<nat>, source: Option<nat>, i: nat): (r: seq<nat>)
    ensures |r| == |last|
  {
    if source.Some? && source.value < |last| then last[source.value := i] else last
  }

  lemma {:induction false} ReaderStep(s: Session, i: nat, j: nat)
    requires j <= i < |s.jobs|
    ensures LastReader(s, j, i + 1) == if j == i || Reads(s, i, j) then i else LastReader(s, j, i)
  {
  }

  lemma {:induction false} ReadersStep(s: Session, i: nat)
    requires i < |s.jobs|
    ensures ReadersOf(s, i + 1) == Marked(Marked(ReadersOf(s, i), Source(s, i, 0), i), Source(s, i, 1), i) + [i]
  {
    var left := Marked(ReadersOf(s, i), Source(s, i, 0), i);
    var both := Marked(left, Source(s, i, 1), i) + [i];
    forall j | 0 <= j <= i ensures ReadersOf(s, i + 1)[j] == both[j] {
      assert ReadersOf(s, i + 1)[j] == if j == i || Reads(s, i, j) then i else LastReader(s, j, i) by { ReaderStep(s, i, j); }
      assert j < i ==> ReadersOf(s, i)[j] == LastReader(s, j, i);
    }
  }

  lemma {:induction false} LinksStep(s: Session, i: nat)
    requires i < |s.jobs|
    ensures SourcesOf(s, i + 1) == SourcesOf(s, i) + [[Source(s, i, 0), Source(s, i, 1)]]
    ensures OffsetsOf(s, i + 1) == OffsetsOf(s, i) + [[Start(s, i, 0), Start(s, i, 1)]]
    ensures LengthsOf(s, i + 1) == LengthsOf(s, i) + [[s.jobs[i].region.lengthA, s.jobs[i].region.lengthB]]
  {
  }

  lemma {:induction false} NeedsStep(s: Session, i: nat)
    requires i < |s.jobs|
    ensures ChunksOf(s, i + 1) == ChunksOf(s, i) + [ChunkCount(OutputCount(s.jobs[i].region))]
    ensures RefsOf(s, i + 1) == RefsOf(s, i) + [|ReadChunks(s, i)|]
  {
  }

  lemma {:induction false} RegionCount(r: Region)
    requires Admitted(r)
    ensures 1 <= OutputCount(r) <= 256 && r.lengthA >= 0 && r.lengthB >= 0
  {
    MulMonotone(1, r.rows, r.columns);
    MulMonotone(r.rows, 16, r.columns);
    TimesIsProduct(r.columns, r.rows);
  }

  /** One job of the admission loop: its two operands as checked, or a refusal. */
  method CheckJob(s: Session, i: nat, names: map<string, nat>, counts: seq<int>) returns (r: Option<(Checked, Checked)>)
    requires i < |s.jobs| && NamesUpTo(s, i, names)
    requires |counts| == i && forall k :: 0 <= k < i ==> counts[k] == OutputCount(s.jobs[k].region) >= 1
    ensures r.Some? <==> JobAdmitted(s, i)
    ensures r.Some? ==> r.value.0.source == Source(s, i, 0) && r.value.0.start == Start(s, i, 0)
    ensures r.Some? ==> r.value.1.source == Source(s, i, 1) && r.value.1.start == Start(s, i, 1)
    ensures r.Some? ==> 1 <= OutputCount(s.jobs[i].region) <= 256
  {
    var job := s.jobs[i];
    if !ProjectName(job.name) || job.name in names {
      return None;
    }
    var config := CompileRegion(job.region);
    if config.None? || |job.inputs| != 2 {
      return None;
    }
    assert 1 <= OutputCount(job.region) <= 256 && job.region.lengthA >= 0 && job.region.lengthB >= 0 by { RegionCount(job.region); }
    var left := CheckOperand(s, i, 0, names, counts);
    if left.None? {
      return None;
    }
    var right := CheckOperand(s, i, 1, names, counts);
    if right.None? {
      return None;
    }
    var output := Reference(job.region, (left.value.literal, right.value.literal));
    r := if output.None? then None else Some((left.value, right.value));
  }

  lemma {:induction false} NamesStep(s: Session, i: nat, names: map<string, nat>)
    requires i < |s.jobs| && NamesUpTo(s, i, names)
    ensures NamesUpTo(s, i + 1, names[s.jobs[i].name := i])
  {
  }

  /** The admission loop's tables after the first `i` jobs. */
  datatype Tables = Tables(names: map<string, nat>, counts: seq<int>, sources: seq<seq<Option<nat>>>, offsets: seq<seq<int>>,
                           lengths: seq<seq<int>>, chunks: seq<nat>, refs: seq<nat>, last: seq<nat>)

  ghost predicate TablesFor(s: Session, i: nat, t: Tables) {
    && i <= |s.jobs| && NamesUpTo(s, i, t.names)
    && |t.counts| == i && (forall k :: 0 <= k < i ==> t.counts[k] == OutputCount(s.jobs[k].region) >= 1)
    && t.sources == SourcesOf(s, i) && t.offsets == OffsetsOf(s, i) && t.lengths == LengthsOf(s, i)
    && t.chunks == ChunksOf(s, i) && t.refs == RefsOf(s, i) && t.last == ReadersOf(s, i)
  }

  method AppendJob(s: Session, i: nat, t: Tables, left: Checked, right: Checked) returns (u: Tables)
    requires i < |s.jobs| && TablesFor(s, i, t) && OutputCount(s.jobs[i].region) >= 1
    requires left.source == Source(s, i, 0) && left.start == Start(s, i, 0)
    requires right.source == Source(s, i, 1) && right.start == Start(s, i, 1)
    ensures TablesFor(s, i + 1, u)
  {
    var region := s.jobs[i].region;
    var count := region.rows * region.columns;
    TimesIsProduct(region.columns, region.rows);
    LinksStep(s, i);
    NeedsStep(s, i);
    ReadersStep(s, i);
    NamesStep(s, i, t.names);
    u := Tables(t.names[s.jobs[i].name := i], t.counts + [count],
                t.sources + [[left.source, right.source]], t.offsets + [[left.start, right.start]],
                t.lengths + [[region.lengthA, region.lengthB]], t.chunks + [ChunkCount(count)],
                t.refs + [|OperandChunks(left.source, left.start, region.lengthA) + OperandChunks(right.source, right.start, region.lengthB)|],
                Marked(Marked(t.last, left.source, i), right.source, i) + [i]);
  }

  lemma {:induction false} UsesPin(s: Session)
    requires Find(s.jobs, |s.jobs|, s.output).Some?
    ensures UsesOf(s) == ReadersOf(s, |s.jobs|)[Find(s.jobs, |s.jobs|, s.output).value := |s.jobs|]
  {
  }

  /** The admission loop: the tables of all jobs, or a refusal of the first that is not admitted. */
  method AdmitJobs(s: Session) returns (r: Option<Tables>)
    ensures r.Some? <==> JobsAdmitted(s, |s.jobs|)
    ensures r.Some? ==> TablesFor(s, |s.jobs|, r.value)
  {
    var t, i := Tables(map[], [], [], [], [], [], [], []), 0;
    while i < |s.jobs|
      invariant 0 <= i <= |s.jobs| && TablesFor(s, i, t) && JobsAdmitted(s, i)
    {
      NextAdmitted(s, i);
      var next := AdmitNext(s, i, t);
      if next.None? {
        return None;
      }
      t, i := next.value, i + 1;
    }
    r := Some(t);
  }

  method AdmitNext(s: Session, i: nat, t: Tables) returns (r: Option<Tables>)
    requires i < |s.jobs| && TablesFor(s, i, t)
    ensures r.Some? <==> JobAdmitted(s, i)
    ensures r.Some? ==> TablesFor(s, i + 1, r.value)
  {
    var job := CheckJob(s, i, t.names, t.counts);
    if job.None? {
      return None;
    }
    var u := AppendJob(s, i, t, job.value.0, job.value.1);
    r := Some(u);
  }

  /** Pins the output and places the results of admitted jobs. */
  method PlaceResults(s: Session, t: Tables) returns (r: Option<Plan>)
    requires TablesFor(s, |s.jobs|, t) && s.output in t.names
    ensures r.Some? <==> ResourcesFit(s)
    ensures r.Some? ==> PlanFor(s, r.value)
  {
    assert Find(s.jobs, |s.jobs|, s.output) == Some(t.names[s.output]);
    UsesPin(s);
    var last := t.last[t.names[s.output] := |s.jobs|];
    var slots := AssignSlots(t.refs, t.chunks, last);
    r := if slots.None? then None
         else Some(Plan(t.sources, t.chunks, last, slots.value, t.names[s.output], t.offsets, t.lengths));
  }

  /** Admission and planning of a session: succeeds exactly on plannable sessions. */
  method CompilePlan(s: Session) returns (r: Option<Plan>)
    ensures r.Some? <==> Plannable(s)
    ensures r.Some? ==> PlanFor(s, r.value)
  {
    if !(1 <= |s.jobs| <= 8) {
      return None;
    }
    var tables := AdmitJobs(s);
    if tables.None? || s.output !in tables.value.names {
      return None;
    }
    r := PlaceResults(s, tables.value);
  }
}

/** A planned session, written to an envelope and decoded again: the decoder's plan is the planner's. */
module FoldRoundTrip {
  import opened Base
  import opened AffineFold
  import opened AffineCompiler
  import opened FoldPlan
  import opened FoldWire
  import opened FoldDecode
  import opened FoldDag

  // ----- encode -----

  function VersionOf(s: Session): int {
    if s.ranged then 2 else 1
  }

  function SourceWord(source: Option<nat>): int {
    if source.None? then UNLINKED else source.value
  }

  /** The words sent for an operand: a literal as it is, zeros in place of a linked one. */
  function Sent(s: Session, i: nat, b: nat): seq<int>
    requires i < |s.jobs|
  {
    var length := OperandLength(s.jobs[i].region, b);
    match InputAt(s.jobs[i], b)
    case Literal(words) => words
    case _ => if length < 0 then [] else Zeros(length)
  }

  /** The job as it is sent. */
  ghost predicate WireFor(s: Session, i: nat, id: int, x: Wire)
    requires i < |s.jobs|
  {
    && x.sources == [SourceWord(Source(s, i, 0)), SourceWord(Source(s, i, 1))] && x.offsets == [Start(s, i, 0), Start(s, i, 1)]
    && x.request.id == id && CompiledRegion(s.jobs[i].region, x.request.config) && ConfigValid(x.request.config)
    && x.request.left == Sent(s, i, 0) && x.request.right == Sent(s, i, 1)
  }

  ghost predicate WiresFor(s: Session, ids: seq<int>, ws: seq<Wire>) {
    && |ws| <= |s.jobs| == |ids|
    && forall i {:trigger WireFor(s, i, ids[i], ws[i])} :: 0 <= i < |ws| ==> WireFor(s, i, ids[i], ws[i])
  }

  /** An epoch and one identity per job, nonzero 64-bit numbers, no identity twice. */
  predicate Identified(s: Session, epoch: int, ids: seq<int>) {
    && 0 < epoch < U64 && |ids| == |s.jobs|
    && (forall i :: 0 <= i < |ids| ==> 0 < ids[i] < U64)
    && forall i, j :: 0 <= i < j < |ids| ==> ids[i] != ids[j]
  }

  method EncodeJob(s: Session, plan: Plan, i: nat, id: int) returns (x: Wire)
    requires i < |s.jobs| && PlanFor(s, plan) && JobAdmitted(s, i)
    ensures WireFor(s, i, id, x)
  {
    var job := s.jobs[i];
    var config := CompileRegion(job.region);
    var sources := plan.sources[i];
    var left := if sources[0].Some? then Zeros(job.region.lengthA) else LiteralOf(job.inputs[0]);
    var right := if sources[1].Some? then Zeros(job.region.lengthB) else LiteralOf(job.inputs[1]);
    x := Wire([SourceWord(sources[0]), SourceWord(sources[1])], plan.offsets[i], Request(id, config.value, left, right));
  }

  /** Writes a session to an envelope, exactly when it can be planned and is identified. */
  method EncodeSession(s: Session, epoch: int, ids: seq<int>, crc: Checksum) returns (r: Option<seq<int>>, plan: Option<Plan>, ghost ws: seq<Wire>)
    ensures r.Some? <==> Plannable(s) && Identified(s, epoch, ids)
    ensures r.Some? ==> plan.Some? && PlanFor(s, plan.value) && |ws| == |s.jobs| && WiresFor(s, ids, ws) && Paired(ws)
    ensures r.Some? ==> r.value == Envelope(VersionOf(s), epoch, plan.value.output, ws, crc)
  {
    ws := [];
    plan := CompilePlan(s);
    if plan.None? || !Identified(s, epoch, ids) {
      return None, plan, ws;
    }
    var jobs: seq<Wire>, i := [], 0;
    while i < |s.jobs|
      invariant 0 <= i <= |s.jobs| && |jobs| == i && WiresFor(s, ids, jobs) && Paired(jobs)
    {
      assert JobAdmitted(s, i);
      var x := EncodeJob(s, plan.value, i, ids[i]);
      WiresForStep(s, ids, jobs, x);
      jobs := jobs + [x];
      i := i + 1;
    }
    ws := jobs;
    r := Some(Envelope(VersionOf(s), epoch, plan.value.output, jobs, crc));
  }

  lemma {:induction false} WiresForStep(s: Session, ids: seq<int>, ws: seq<Wire>, x: Wire)
    requires WiresFor(s, ids, ws) && Paired(ws) && |ws| < |s.jobs| && WireFor(s, |ws|, ids[|ws|], x)
    ensures WiresFor(s, ids, ws + [x]) && Paired(ws + [x])
  {
    var all := ws + [x];
    forall i | 0 <= i < |all| ensures WireFor(s, i, ids[i], all[i]) {
      assert i < |ws| ==> WireFor(s, i, ids[i], ws[i]);
    }
  }

  // ----- What is sent is what was planned -----

  lemma {:induction false} ConfigFields(r: Region, c: seq<int>)
    requires CompiledRegion(r, c)
    ensures |c| == CONFIG_WORDS && c[1] == r.rows && c[2] == r.columns && c[5] == r.lengthA && c[6] == r.lengthB
  {
    var dest, sources, code :| LowersRegion(r, dest, sources, code) && c == ConfigOf(r, code);
    ConfigLayout(r, code);
  }

  function SessionRow(s: Session, i: nat): Row
    requires i < |s.jobs|
  {
    Row([Source(s, i, 0), Source(s, i, 1)], [Start(s, i, 0), Start(s, i, 1)], [s.jobs[i].region.lengthA, s.jobs[i].region.lengthB],
        OutputCount(s.jobs[i].region))
  }

  function SessionRows(s: Session): (rows: seq<Row>)
    ensures |rows| == |s.jobs| && RowsShaped(rows) && forall i :: 0 <= i < |s.jobs| ==> rows[i] == SessionRow(s, i)
  {
    seq(|s.jobs|, i requires 0 <= i < |s.jobs| => SessionRow(s, i))
  }

  lemma {:induction false} SentFits(s: Session, i: nat, b: nat)
    requires i < |s.jobs| && b < 2 && JobAdmitted(s, i)
    ensures |Sent(s, i, b)| == OperandLength(s.jobs[i].region, b) && AllU32(Sent(s, i, b))
    ensures Source(s, i, b).Some? ==> AllZero(Sent(s, i, b))
  {
    assert LinkAdmitted(s, i, b) && LiteralAdmitted(s.jobs[i], b);
  }

  lemma {:induction false} StartFits(s: Session, i: nat, b: nat)
    requires i < |s.jobs| <= 8 && b < 2 && JobsAdmitted(s, |s.jobs|)
    ensures 0 <= Start(s, i, b) <= 256 && (!s.ranged ==> Start(s, i, b) == 0) && (Source(s, i, b).None? ==> Start(s, i, b) == 0)
    ensures 0 <= SourceWord(Source(s, i, b)) < U32 && SourceOf(SourceWord(Source(s, i, b))) == Source(s, i, b)
  {
    assert JobAdmitted(s, i);
    assert LinkAdmitted(s, i, b);
    if Source(s, i, b).Some? {
      assert JobAdmitted(s, Source(s, i, b).value);
      RegionCount(s.jobs[Source(s, i, b).value].region);
    }
  }

  lemma {:induction false} WireForFormed(s: Session, i: nat, id: int, x: Wire)
    requires SessionAdmitted(s) && i < |s.jobs| && 0 < id < U64 && WireFor(s, i, id, x)
    ensures WireFormed(VersionOf(s), x) && RowOf(x) == SessionRow(s, i)
  {
    assert JobAdmitted(s, i);
    ConfigFields(s.jobs[i].region, x.request.config);
    SentFits(s, i, 0);
    SentFits(s, i, 1);
    StartFits(s, i, 0);
    StartFits(s, i, 1);
  }

  lemma {:induction false} WiresForFormed(s: Session, epoch: int, ids: seq<int>, ws: seq<Wire>)
    requires SessionAdmitted(s) && Identified(s, epoch, ids) && WiresFor(s, ids, ws) && |ws| == |s.jobs| && Paired(ws)
    ensures WiresFormed(VersionOf(s), ws) && RowsOf(ws) == SessionRows(s)
  {
    forall i | 0 <= i < |ws| ensures WireFormed(VersionOf(s), ws[i]) && RowOf(ws[i]) == SessionRow(s, i) {
      assert WireFor(s, i, ids[i], ws[i]);
      WireForFormed(s, i, ids[i], ws[i]);
    }
  }

  lemma {:induction false} SessionLinked(s: Session, i: nat, b: nat)
    requires SessionAdmitted(s) && i < |s.jobs| && b < 2
    ensures RowLinked(VersionOf(s), SessionRows(s), i, b)
  {
    assert JobAdmitted(s, i);
    assert LinkAdmitted(s, i, b);
    StartFits(s, i, b);
  }

  lemma {:induction false} SentJobLinked(s: Session, epoch: int, ids: seq<int>, ws: seq<Wire>, i: nat)
    requires SessionAdmitted(s) && Identified(s, epoch, ids) && WiresFor(s, ids, ws) && i < |ws| == |s.jobs| && Paired(ws)
    requires RowsOf(ws) == SessionRows(s)
    ensures JobLinked(VersionOf(s), ws, i)
  {
    assert JobAdmitted(s, i);
    assert WireFor(s, i, ids[i], ws[i]);
    forall j | 0 <= j < i ensures ws[j].request.id != ws[i].request.id {
      assert WireFor(s, j, ids[j], ws[j]);
    }
    SessionLinked(s, i, 0);
    SessionLinked(s, i, 1);
    SentFits(s, i, 0);
    SentFits(s, i, 1);
  }

  lemma {:induction false} SameLast(s: Session, j: nat, k: nat)
    requires k <= |s.jobs|
    ensures RowLast(SessionRows(s), j, k) == LastReader(s, j, k)
  {
    if k > 0 {
      SameLast(s, j, k - 1);
    }
  }

  lemma {:induction false} SameUses(s: Session, output: nat)
    requires Find(s.jobs, |s.jobs|, s.output) == Some(output)
    ensures RowUses(SessionRows(s), output) == UsesOf(s)
  {
    forall j | 0 <= j < |s.jobs| ensures RowUses(SessionRows(s), output)[j] == UsesOf(s)[j] {
      SameLast(s, j, |s.jobs|);
    }
  }

  /** Two bits to a producer tell its chunks apart. */
  lemma {:induction false} BitsSize(chunks: set<(nat, nat)>)
    requires forall pair :: pair in chunks ==> pair.1 < 2
    ensures |Bits(chunks)| == |chunks|
  {
    if chunks != {} {
      var a :| a in chunks;
      var rest := chunks - {a};
      BitsSize(rest);
      assert Bits(chunks) == Bits(rest) + {Bit(a)};
      assert Bit(a) !in Bits(rest);
    }
  }

  lemma {:induction false} OperandChunkLow(s: Session, i: nat, b: nat, pair: (nat, nat))
    requires SessionAdmitted(s) && i < |s.jobs| && b < 2
    requires pair in OperandChunks(Source(s, i, b), Start(s, i, b), OperandLength(s.jobs[i].region, b))
    ensures pair.1 < 2
  {
    SessionLinked(s, i, b);
    var p := Source(s, i, b).value;
    assert JobAdmitted(s, p);
    RegionCount(s.jobs[p].region);
  }

  lemma {:induction false} SameRefs(s: Session)
    requires SessionAdmitted(s)
    ensures RowRefs(SessionRows(s)) == RefsOf(s, |s.jobs|)
  {
    forall i | 0 <= i < |s.jobs| ensures RowRefs(SessionRows(s))[i] == RefsOf(s, |s.jobs|)[i] {
      forall pair | pair in ReadChunks(s, i) ensures pair.1 < 2 {
        if pair in OperandChunks(Source(s, i, 0), Start(s, i, 0), s.jobs[i].region.lengthA) {
          OperandChunkLow(s, i, 0, pair);
        } else {
          OperandChunkLow(s, i, 1, pair);
        }
      }
      assert RowPairs(SessionRow(s, i)) == ReadChunks(s, i);
      BitsSize(ReadChunks(s, i));
    }
  }

  /** The decoder accepts what is sent for every planned session. */
  lemma {:induction false} SentIsAccepted(s: Session, plan: Plan, epoch: int, ids: seq<int>, ws: seq<Wire>)
    requires Plannable(s) && PlanFor(s, plan) && Identified(s, epoch, ids) && WiresFor(s, ids, ws) && |ws| == |s.jobs| && Paired(ws)
    ensures Carried(VersionOf(s), epoch, plan.output, ws) && DagAccepted(Opened(VersionOf(s), epoch, plan.output, ws))
    ensures RowsOf(ws) == SessionRows(s)
  {
    WiresForFormed(s, epoch, ids, ws);
    forall i | 0 <= i < |ws| ensures JobLinked(VersionOf(s), ws, i) {
      SentJobLinked(s, epoch, ids, ws, i);
    }
    SameColumns(s, plan);
  }

  lemma {:induction false} SameColumns(s: Session, plan: Plan)
    requires Plannable(s) && PlanFor(s, plan)
    ensures RowChunks(SessionRows(s)) == plan.chunks && RowUses(SessionRows(s), plan.output) == plan.lastUse && RowsFit(SessionRows(s), plan.output)
  {
    SameUses(s, plan.output);
    SameRefs(s);
    assert RowChunks(SessionRows(s)) == ChunksOf(s, |s.jobs|);
  }

  /** The decoded plan is the planned one, column by column. */
  ghost predicate SamePlan(dag: Dag, plan: Plan, epoch: int) {
    && dag.epoch == epoch && dag.output == plan.output && dag.chunks == plan.chunks && dag.lastUse == plan.lastUse
    && dag.destinations == plan.slots && dag.offsets == plan.offsets
    && |dag.sources| == |plan.sources|
    && forall i :: 0 <= i < |plan.sources| ==> |plan.sources[i]| == 2 && dag.sources[i] == [SourceWord(plan.sources[i][0]), SourceWord(plan.sources[i][1])]
  }

  lemma {:induction false} SentIsSamePlan(s: Session, plan: Plan, epoch: int, ids: seq<int>, ws: seq<Wire>, dag: Dag)
    requires Plannable(s) && PlanFor(s, plan) && Identified(s, epoch, ids) && WiresFor(s, ids, ws) && |ws| == |s.jobs| && Paired(ws)
    requires DagFor(dag, Opened(VersionOf(s), epoch, plan.output, ws))
    ensures SamePlan(dag, plan, epoch)
  {
    SentIsAccepted(s, plan, epoch, ids, ws);
    SameColumns(s, plan);
    SlotsUnique(plan.chunks, plan.lastUse, dag.destinations, plan.slots, |s.jobs|);
    assert dag.destinations[..|s.jobs|] == dag.destinations && plan.slots[..|s.jobs|] == plan.slots;
    forall i | 0 <= i < |s.jobs| ensures ws[i].offsets == OffsetsOf(s, |s.jobs|)[i] && ws[i].sources == [SourceWord(Source(s, i, 0)), SourceWord(Source(s, i, 1))] {
      assert WireFor(s, i, ids[i], ws[i]);
    }
    assert dag.offsets == plan.offsets;
  }

  // ----- Every word of an envelope is a 32-bit word -----

  lemma {:induction false} U32Append(a: seq<int>, b: seq<int>)
    requires AllU32(a) && AllU32(b)
    ensures AllU32(a + b)
  {
  }

  lemma {:induction false} RequestIsU32(q: Request, crc: Checksum)
    requires RequestFormed(q)
    ensures AllU32(RequestWords(q, crc))
  {
    IdRestored(q.id);
    U32Append(RequestHead(q), q.config);
    U32Append(RequestHead(q) + q.config, q.left);
    U32Append(RequestHead(q) + q.config + q.left, q.right);
    U32Append(RequestBody(q), [crc(RequestBody(q)), BRIDGE_END]);
  }

  lemma {:induction false} WireIsU32(version: int, x: Wire, crc: Checksum)
    requires WireFormed(version, x)
    ensures AllU32(WireWords(version, x, crc))
  {
    RequestIsU32(x.request, crc);
    U32Append(Metadata(version, x), RequestWords(x.request, crc));
  }

  lemma {:induction false} FlatIsU32(parts: seq<seq<int>>)
    requires forall i :: 0 <= i < |parts| ==> AllU32(parts[i])
    ensures AllU32(Flat(parts))
  {
    if parts != [] {
      FlatIsU32(parts[..|parts| - 1]);
      U32Append(Flat(parts[..|parts| - 1]), parts[|parts| - 1]);
    }
  }

  lemma {:induction false} EnvelopeIsU32(version: int, epoch: int, output: int, ws: seq<Wire>, crc: Checksum)
    requires Carried(version, epoch, output, ws)
    ensures AllU32(Envelope(version, epoch, output, ws, crc))
  {
    var f := Frames(version, ws, crc);
    forall i | 0 <= i < |f| ensures AllU32(f[i]) {
      assert WireFormed(version, ws[i]);
      WireIsU32(version, ws[i], crc);
    }
    FlatIsU32(f);
    WiresSize(version, ws, crc);
    IdRestored(epoch);
    var jobs, body := WiresWords(version, ws, crc), EnvelopeBody(version, epoch, output, ws, crc);
    U32Append([DAG_MAGIC, version, 4 * (10 + |jobs|), |ws|, epoch % U32, epoch / U32, output, 0], jobs);
    U32Append(body, [crc(body), DAG_END]);
  }

  /**
    Written and decoded again: for every session that can be planned, with any identities, the decoder accepts the
    envelope and arrives at the planner's links, lifetimes and slots; nothing is sent for any other session.
   */
  method EncodeAndDecode(s: Session, epoch: int, ids: seq<int>, crc: Checksum) returns (plan: Option<Plan>, dag: Option<Dag>)
    ensures dag.Some? <==> Plannable(s) && Identified(s, epoch, ids)
    ensures dag.Some? ==> plan.Some? && PlanFor(s, plan.value) && SamePlan(dag.value, plan.value, epoch)
  {
    var words;
    ghost var ws;
    words, plan, ws := EncodeSession(s, epoch, ids, crc);
    if words.None? {
      return plan, None;
    }
    ghost var o := Opened(VersionOf(s), epoch, plan.value.output, ws);
    SentIsAccepted(s, plan.value, epoch, ids, ws);
    EnvelopeIsU32(VersionOf(s), epoch, plan.value.output, ws, crc);
    dag := DecodeDag(words.value, crc);
    OnlyOne(words.value, crc, o);
    SentIsSamePlan(s, plan.value, epoch, ids, ws, dag.value);
  }
}

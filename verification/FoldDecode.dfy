/**
  The receiving side of a DAG session: from the words of an envelope alone the decoder checks every link, works out the
  lifetimes again and places the results again.  What it accepts is safe whatever was sent, and for every planned
  session it arrives at the planner's own placement.
 */
module FoldDecode {
  import opened Base
  import opened ObjectSlots
  import opened FoldPlan
  import opened FoldWire

  // ----- Links, lifetimes and needs, from rows -----

  /** What placement looks at in a job. */
  datatype Row = Row(sources: seq<Option<nat>>, starts: seq<int>, lengths: seq<int>, count: int)

  predicate RowShaped(row: Row) {
    |row.sources| == |row.starts| == |row.lengths| == 2
  }

  predicate RowsShaped(rows: seq<Row>) {
    forall i :: 0 <= i < |rows| ==> RowShaped(rows[i])
  }

  predicate RowReads(row: Row, j: nat) {
    RowShaped(row) && (row.sources[0] == Some(j) || row.sources[1] == Some(j))
  }

  /** The last of the first `k` rows that reads `j`, or `j` itself. */
  function RowLast(rows: seq<Row>, j: nat, k: nat): nat
    requires k <= |rows|
  {
    if k == 0 then j else if RowReads(rows[k - 1], j) then k - 1 else RowLast(rows, j, k - 1)
  }

  function RowLasts(rows: seq<Row>, k: nat): (l: seq<nat>)
    requires k <= |rows|
    ensures |l| == k && forall j :: 0 <= j < k ==> l[j] == RowLast(rows, j, k)
  {
    seq(k, j requires 0 <= j < k => RowLast(rows, j, k))
  }

  /** Lifetimes with the output kept to the end. */
  function RowUses(rows: seq<Row>, output: nat): (l: seq<nat>)
    ensures |l| == |rows| && forall j :: 0 <= j < |rows| ==> l[j] == if j == output then |rows| else RowLast(rows, j, |rows|)
  {
    seq(|rows|, j requires 0 <= j < |rows| => if j == output then |rows| else RowLast(rows, j, |rows|))
  }

  function RowChunks(rows: seq<Row>): (c: seq<nat>)
    ensures |c| == |rows| && forall i :: 0 <= i < |rows| ==> c[i] == ChunkCount(rows[i].count)
  {
    seq(|rows|, i requires 0 <= i < |rows| => ChunkCount(rows[i].count))
  }

  /** The bit of a producer chunk: two to a job. */
  function Bit(pair: (nat, nat)): nat {
    2 * pair.0 + pair.1
  }

  function Bits(chunks: set<(nat, nat)>): set<nat> {
    set pair | pair in chunks :: Bit(pair)
  }

  function RowPairs(row: Row): set<(nat, nat)>
    requires RowShaped(row)
  {
    OperandChunks(row.sources[0], row.starts[0], row.lengths[0]) + OperandChunks(row.sources[1], row.starts[1], row.lengths[1])
  }

  /** How many bits the read mask of a row has. */
  function RowRefs(rows: seq<Row>): (r: seq<nat>)
    requires RowsShaped(rows)
    ensures |r| == |rows| && forall i :: 0 <= i < |rows| ==> r[i] == |Bits(RowPairs(rows[i]))|
  {
    seq(|rows|, i requires 0 <= i < |rows| => |Bits(RowPairs(rows[i]))|)
  }

  /** An operand that is not linked has no offset; a linked one lies inside an earlier result, and in the first schema is all of it. */
  predicate RowLinked(version: int, rows: seq<Row>, i: nat, b: nat)
    requires i < |rows| && b < 2 && RowShaped(rows[i])
  {
    var start, length := rows[i].starts[b], rows[i].lengths[b];
    match rows[i].sources[b]
    case None => start == 0
    case Some(p) =>
      p < i && 1 <= length && 0 <= start && start + length <= rows[p].count && (version == 1 ==> length == rows[p].count)
  }

  // ----- What is decoded -----

  function SourceOf(word: int): Option<nat> {
    if 0 <= word < UNLINKED then Some(word) else None
  }

  function RowOf(x: Wire): (row: Row)
    requires |x.sources| == |x.offsets| == 2
    ensures RowShaped(row)
  {
    Row([SourceOf(x.sources[0]), SourceOf(x.sources[1])], x.offsets, [|x.request.left|, |x.request.right|],
        if |x.request.config| > 2 then Times(x.request.config[2], x.request.config[1]) else 0)
  }

  function RowsOf(ws: seq<Wire>): (rows: seq<Row>)
    requires Paired(ws)
    ensures |rows| == |ws| && RowsShaped(rows) && forall i :: 0 <= i < |ws| ==> rows[i] == RowOf(ws[i])
  {
    seq(|ws|, i requires 0 <= i < |ws| => RowOf(ws[i]))
  }

  predicate AllZero(words: seq<int>) {
    forall i :: 0 <= i < |words| ==> words[i] == 0
  }

  /** A fresh identity, links in order, and nothing sent for linked operands. */
  predicate JobLinked(version: int, ws: seq<Wire>, i: nat)
    requires Paired(ws) && i < |ws|
  {
    var x, rows := ws[i], RowsOf(ws);
    && (forall j :: 0 <= j < i ==> ws[j].request.id != x.request.id)
    && RowLinked(version, rows, i, 0) && RowLinked(version, rows, i, 1)
    && (rows[i].sources[0].Some? ==> AllZero(x.request.left)) && (rows[i].sources[1].Some? ==> AllZero(x.request.right))
  }

  ghost predicate JobsLinked(version: int, ws: seq<Wire>, k: nat)
    requires Paired(ws) && k <= |ws|
  {
    forall i {:trigger JobLinked(version, ws, i)} :: 0 <= i < k ==> JobLinked(version, ws, i)
  }

  ghost predicate RowsFit(rows: seq<Row>, output: nat)
    requires RowsShaped(rows)
  {
    forall i :: 0 <= i < |rows| ==> Fits(RowRefs(rows), RowChunks(rows), RowUses(rows, output), i)
  }

  /** The words are those of an envelope that carries `o`. */
  ghost predicate Holds(w: seq<int>, crc: Checksum, o: Opened) {
    Carried(o.version, o.epoch, o.output, o.jobs) && w == Envelope(o.version, o.epoch, o.output, o.jobs, crc)
  }

  /** What the decoder accepts of an opened envelope. */
  ghost predicate DagAccepted(o: Opened)
    requires Paired(o.jobs)
  {
    JobsLinked(o.version, o.jobs, |o.jobs|) && RowsFit(RowsOf(o.jobs), o.output)
  }

  datatype Dag = Dag(epoch: int, output: nat, sources: seq<seq<int>>, offsets: seq<seq<int>>, chunks: seq<nat>, lastUse: seq<nat>, destinations: seq<seq<nat>>)

  function SourceWords(ws: seq<Wire>): (s: seq<seq<int>>)
    ensures |s| == |ws| && forall i :: 0 <= i < |ws| ==> s[i] == ws[i].sources
  {
    seq(|ws|, i requires 0 <= i < |ws| => ws[i].sources)
  }

  function OffsetWords(ws: seq<Wire>): (s: seq<seq<int>>)
    ensures |s| == |ws| && forall i :: 0 <= i < |ws| ==> s[i] == ws[i].offsets
  {
    seq(|ws|, i requires 0 <= i < |ws| => ws[i].offsets)
  }

  ghost predicate DagFor(dag: Dag, o: Opened)
    requires Paired(o.jobs)
  {
    var rows := RowsOf(o.jobs);
    && dag.epoch == o.epoch && dag.output == o.output && dag.sources == SourceWords(o.jobs) && dag.offsets == OffsetWords(o.jobs)
    && dag.chunks == RowChunks(rows) && dag.lastUse == RowUses(rows, o.output)
    && |dag.destinations| == |rows| && SlotsFor(dag.chunks, dag.lastUse, dag.destinations)
  }

  // ----- Placement -----

  /** No result lies in slot `x`, or its latest is no longer needed at job `i`. */
  predicate Vacant(last: seq<nat>, owners: seq<Option<nat>>, i: nat, x: nat)
    requires x < |owners|
  {
    owners[x].None? || owners[x].value >= |last| || last[owners[x].value] < i
  }

  /** The scan for free slots from `from` on stops as soon as enough are found. */
  method FindSlots(need: nat, last: seq<nat>, ghost slots: seq<seq<nat>>, owners: seq<Option<nat>>, i: nat, from: nat) returns (found: seq<nat>)
    requires i == |slots| <= |last| && from <= SLOTS == |owners|
    requires forall x :: 0 <= x < SLOTS ==> (Busy(last, slots, i, x) <==> !Vacant(last, owners, i, x))
    ensures var free := FreeSlots(last, slots, i, from);
            |found| == (if |free| < need then |free| else need) && found == free[..|found|]
  {
    found := [];
    var slot := from;
    ghost var free, later := FreeSlots(last, slots, i, from), FreeSlots(last, slots, i, from);
    while slot < SLOTS && |found| < need
      invariant from <= slot <= SLOTS && |found| <= need && later == FreeSlots(last, slots, i, slot) && free == found + later
    {
      ghost var after := FreeSlots(last, slots, i, slot + 1);
      assert found + later == (if Vacant(last, owners, i, slot) then found + [slot] else found) + after by {
        ScanStep(last, slots, i, slot, found);
      }
      if Vacant(last, owners, i, slot) {
        found := found + [slot];
      }
      later := after;
      slot := slot + 1;
    }
    ScanDone(found, later, need);
  }

  lemma {:induction false} OwnersDecide(chunks: seq<nat>, last: seq<nat>, slots: seq<seq<nat>>, owners: seq<Option<nat>>)
    requires SlotsFor(chunks, last, slots) && Owners(slots, owners)
    ensures forall x :: 0 <= x < SLOTS ==> (Busy(last, slots, |slots|, x) <==> !Vacant(last, owners, |slots|, x))
  {
    forall x | 0 <= x < SLOTS ensures Busy(last, slots, |slots|, x) <==> !Vacant(last, owners, |slots|, x) {
      OwnerDecides(chunks, last, slots, owners, x);
    }
  }

  lemma {:induction false} ScanStep(last: seq<nat>, slots: seq<seq<nat>>, i: nat, slot: nat, found: seq<nat>)
    requires i <= |slots| && i <= |last| && slot < SLOTS
    ensures found + FreeSlots(last, slots, i, slot)
            == (if Busy(last, slots, i, slot) then found else found + [slot]) + FreeSlots(last, slots, i, slot + 1)
  {
    assert (found + [slot]) + FreeSlots(last, slots, i, slot + 1) == found + ([slot] + FreeSlots(last, slots, i, slot + 1));
  }

  lemma {:induction false} ScanDone(found: seq<nat>, later: seq<nat>, need: nat)
    requires |found| <= need && (|found| < need ==> later == [])
    ensures var free := found + later; |found| == (if |free| < need then |free| else need) && found == free[..|found|]
  {
  }

  /** Places every result, refusing exactly when some job has too many references or too few slots are left. */
  method PlaceDag(refs: seq<nat>, chunks: seq<nat>, last: seq<nat>) returns (r: Option<seq<seq<nat>>>)
    requires |refs| == |chunks| == |last|
    ensures r.Some? <==> forall i :: 0 <= i < |chunks| ==> Fits(refs, chunks, last, i)
    ensures r.Some? ==> |r.value| == |chunks| && SlotsFor(chunks, last, r.value)
  {
    var owners: seq<Option<nat>> := seq(SLOTS, _ => None);
    var slots: seq<seq<nat>> := [];
    var i := 0;
    while i < |chunks|
      invariant 0 <= i <= |chunks| && |slots| == i && SlotsFor(chunks, last, slots) && Owners(slots, owners)
      invariant forall k :: 0 <= k < i ==> Fits(refs, chunks, last, k)
    {
      assert |FreeSlots(last, slots, i, 0)| + LiveChunks(chunks, last, i, i) == SLOTS by { FreeCount(chunks, last, slots, i); }
      if chunks[i] + refs[i] > REFERENCES {
        assert !Fits(refs, chunks, last, i);
        return None;
      }
      OwnersDecide(chunks, last, slots, owners);
      var found := FindSlots(chunks[i], last, slots, owners, i, 0);
      if |found| != chunks[i] {
        assert !Fits(refs, chunks, last, i);
        return None;
      }
      assert SlotsFor(chunks, last, slots + [found]) by { ExtendPlan(chunks, last, slots); }
      assert forall x :: x in found ==> x < SLOTS by { SlotsDistinct(chunks, last, slots + [found], i); }
      owners := TakeSlots(owners, slots, i, found);
      slots := slots + [found];
      i := i + 1;
    }
    r := Some(slots);
  }

  /** Needs and lifetimes leave one placement. */
  lemma {:induction false} SlotsUnique(chunks: seq<nat>, last: seq<nat>, a: seq<seq<nat>>, b: seq<seq<nat>>, k: nat)
    requires SlotsFor(chunks, last, a) && SlotsFor(chunks, last, b) && |a| == |b| && k <= |a|
    ensures a[..k] == b[..k]
  {
    if k > 0 {
      SlotsUnique(chunks, last, a, b, k - 1);
      assert LowestSlots(chunks, last, a, k - 1) && LowestSlots(chunks, last, b, k - 1);
      SameFree(last, a, b, k - 1, 0);
      TakeNext(a, b, k - 1);
    }
  }

  lemma {:induction false} SameFree(last: seq<nat>, a: seq<seq<nat>>, b: seq<seq<nat>>, i: nat, from: nat)
    requires i <= |a| && i <= |b| && i <= |last| && a[..i] == b[..i] && from <= SLOTS
    ensures FreeSlots(last, a, i, from) == FreeSlots(last, b, i, from)
    decreases SLOTS - from
  {
    if from < SLOTS {
      SameFree(last, a, b, i, from + 1);
      assert forall j :: 0 <= j < i ==> a[j] == a[..i][j] && b[j] == b[..i][j];
      assert Busy(last, a, i, from) <==> Busy(last, b, i, from);
    }
  }

  // ----- raveil_fold_dag_decode -----

  /** Every one of the first `k` rows reads earlier rows only. */
  ghost predicate Backward(rows: seq<Row>, k: nat)
    requires k <= |rows|
  {
    forall i: nat, j: nat :: i < k && RowReads(rows[i], j) ==> j < i
  }

  lemma {:induction false} NotReadYet(rows: seq<Row>, j: nat, k: nat)
    requires k <= |rows| && k <= j + 1 && Backward(rows, k)
    ensures RowLast(rows, j, k) == j
  {
    if k > 0 {
      NotReadYet(rows, j, k - 1);
    }
  }

  lemma {:induction false} LastsStep(rows: seq<Row>, i: nat)
    requires i < |rows| && RowShaped(rows[i]) && Backward(rows, i + 1)
    ensures RowLasts(rows, i + 1) == Marked(Marked(RowLasts(rows, i), rows[i].sources[0], i), rows[i].sources[1], i) + [i]
  {
    var left := Marked(RowLasts(rows, i), rows[i].sources[0], i);
    var both := Marked(left, rows[i].sources[1], i) + [i];
    forall j | 0 <= j <= i ensures RowLasts(rows, i + 1)[j] == both[j] {
      assert RowLast(rows, j, i + 1) == if RowReads(rows[i], j) then i else RowLast(rows, j, i);
      if j == i {
        NotReadYet(rows, i, i + 1);
      }
    }
  }

  lemma {:induction false} LinkedBackward(version: int, ws: seq<Wire>, k: nat)
    requires Paired(ws) && k <= |ws| && JobsLinked(version, ws, k)
    ensures Backward(RowsOf(ws), k)
  {
    forall i: nat, j: nat | i < k && RowReads(RowsOf(ws)[i], j) ensures j < i {
      assert JobLinked(version, ws, i);
    }
  }

  /** Checks the links job by job and marks the last reader of every result. */
  method LinkJobs(version: int, ws: seq<Wire>) returns (r: Option<seq<nat>>)
    requires Paired(ws)
    ensures r.Some? <==> JobsLinked(version, ws, |ws|)
    ensures r.Some? ==> r.value == RowLasts(RowsOf(ws), |ws|)
  {
    var last: seq<nat>, i := [], 0;
    ghost var rows := RowsOf(ws);
    while i < |ws|
      invariant 0 <= i <= |ws| && JobsLinked(version, ws, i) && last == RowLasts(rows, i)
    {
      if !JobLinked(version, ws, i) {
        return None;
      }
      assert JobsLinked(version, ws, i + 1);
      LinkedBackward(version, ws, i + 1);
      LastsStep(rows, i);
      var row := RowOf(ws[i]);
      last := Marked(Marked(last, row.sources[0], i), row.sources[1], i) + [i];
      i := i + 1;
    }
    r := Some(last);
  }

  lemma {:induction false} UsesFromLasts(rows: seq<Row>, output: nat)
    requires output < |rows|
    ensures RowUses(rows, output) == RowLasts(rows, |rows|)[output := |rows|]
  {
  }

  /** Decodes an envelope: succeeds exactly on the words of an accepted one, with its links, lifetimes and placement. */
  method DecodeDag(w: seq<int>, crc: Checksum) returns (r: Option<Dag>)
    requires AllU32(w)
    ensures r.Some? ==> exists o :: Holds(w, crc, o) && DagAccepted(o) && DagFor(r.value, o)
    ensures r.None? ==> forall o :: Holds(w, crc, o) ==> !DagAccepted(o)
  {
    var found := OpenEnvelope(w, crc);
    if found.None? {
      return None;
    }
    var o := found.value;
    assert Holds(w, crc, o);
    OnlyOne(w, crc, o);
    var last := LinkJobs(o.version, o.jobs);
    if last.None? {
      return None;
    }
    var rows := RowsOf(o.jobs);
    UsesFromLasts(rows, o.output);
    var uses := last.value[o.output := |o.jobs|];
    var slots := PlaceDag(RowRefs(rows), RowChunks(rows), uses);
    if slots.None? {
      assert !RowsFit(rows, o.output);
      return None;
    }
    r := Some(Dag(o.epoch, o.output, SourceWords(o.jobs), OffsetWords(o.jobs), RowChunks(rows), uses, slots.value));
    assert DagAccepted(o) && DagFor(r.value, o);
  }

  /** The words say what they carry. */
  lemma {:induction false} HeldOnce(w: seq<int>, crc: Checksum, o: Opened, p: Opened)
    requires Holds(w, crc, o) && Holds(w, crc, p)
    ensures o == p
  {
    EnvelopeParts(o.version, o.epoch, o.output, o.jobs, crc);
    EnvelopeParts(p.version, p.epoch, p.output, p.jobs, crc);
    SameJobs(o.version, o.jobs, p.jobs, crc);
  }

  lemma {:induction false} SameJobs(version: int, a: seq<Wire>, b: seq<Wire>, crc: Checksum)
    requires WiresFormed(version, a) && WiresFormed(version, b) && |a| == |b| && WiresWords(version, a, crc) == WiresWords(version, b, crc)
    ensures a == b
  {
    assert WiresWords(version, b, crc) == WiresWords(version, a, crc) + [];
    SameSoFar(version, a, b, crc, [], |a|);
    assert a[..|a|] == a && b[..|a|] == b;
  }

  lemma {:induction false} OnlyOne(w: seq<int>, crc: Checksum, o: Opened)
    requires Holds(w, crc, o)
    ensures forall p :: Holds(w, crc, p) ==> p == o
  {
    forall p | Holds(w, crc, p) ensures p == o {
      HeldOnce(w, crc, o, p);
    }
  }

  // ----- What every accepted envelope guarantees -----

  lemma {:induction false} RowLastIsLast(rows: seq<Row>, j: nat, k: nat, i: nat)
    requires i < k <= |rows| && RowReads(rows[i], j)
    ensures i <= RowLast(rows, j, k)
  {
    if i < k - 1 && !RowReads(rows[k - 1], j) {
      RowLastIsLast(rows, j, k - 1, i);
    }
  }

  /**
    Whatever words were sent: in an accepted envelope a job reads only chunks that its producer was given slots for, no
    job up to and including the reader is given a slot of that producer, and the output's slots are never given away.
   */
  lemma {:induction false} DecodedReadsHeld(dag: Dag, o: Opened, i: nat, b: nat)
    requires Paired(o.jobs) && DagAccepted(o) && DagFor(dag, o) && i < |o.jobs| && b < 2
    ensures var p, row := SourceOf(dag.sources[i][b]), RowsOf(o.jobs)[i];
            p.Some? ==>
            && p.value < i && 0 <= row.starts[b] && 1 <= row.lengths[b]
            && (row.starts[b] + row.lengths[b] - 1) / BANK_WORDS < |dag.destinations[p.value]|
            && forall m :: p.value < m <= i ==> Elements(dag.destinations[m]) !! Elements(dag.destinations[p.value])
    ensures forall m :: o.output < m < |o.jobs| ==> Elements(dag.destinations[m]) !! Elements(dag.destinations[o.output])
  {
    var rows := RowsOf(o.jobs);
    var p := rows[i].sources[b];
    assert JobLinked(o.version, o.jobs, i);
    if p.Some? {
      assert RowLinked(o.version, rows, i, b);
      assert RowReads(rows[i], p.value);
      RowLastIsLast(rows, p.value, |rows|, i);
      SlotsDistinct(dag.chunks, dag.lastUse, dag.destinations, p.value);
      forall m | p.value < m <= i ensures Elements(dag.destinations[m]) !! Elements(dag.destinations[p.value]) {
        SlotsKept(dag.chunks, dag.lastUse, dag.destinations, p.value, m);
      }
    }
    forall m | o.output < m < |o.jobs| ensures Elements(dag.destinations[m]) !! Elements(dag.destinations[o.output]) {
      SlotsKept(dag.chunks, dag.lastUse, dag.destinations, o.output, m);
    }
  }
}

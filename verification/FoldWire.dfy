/**
  The word layout of a DAG session envelope: a header, one frame per job with its links and its bridge request, and a
  trailer.  Reading accepts exactly the lists of words that writing produces.
 */
module FoldWire {
  import opened Base
  import opened AffineFold
  import opened AffineCompiler

  const BRIDGE_MAGIC := 0x5146_4632
  const BRIDGE_END := 0x4645_4e44
  const DAG_MAGIC := 0x5144_4631
  const DAG_END := 0x4445_4e44
  const U64 := 0x1_0000_0000_0000_0000

  /** The source word of an operand that is not linked. */
  const UNLINKED := 0xffff_ffff

  /** CRC-32 of a list of words; its value is irrelevant here. */
  type Checksum = h: seq<int> -> int | forall x :: 0 <= h(x) < U32 witness x => 0

  datatype Request = Request(id: int, config: seq<int>, left: seq<int>, right: seq<int>)

  /** A job on the wire: per operand the source word and the offset into its producer, and the request. */
  datatype Wire = Wire(sources: seq<int>, offsets: seq<int>, request: Request)

  // ----- Requests -----

  ghost predicate RequestFormed(q: Request) {
    && 0 < q.id < U64 && ConfigValid(q.config)
    && |q.left| == q.config[5] && |q.right| == q.config[6] && AllU32(q.left) && AllU32(q.right)
  }

  function RequestHead(q: Request): (h: seq<int>)
    ensures |h| == 8
  {
    [BRIDGE_MAGIC, 1, 300 + 4 * (|q.left| + |q.right|), |q.left|, |q.right|, 0, q.id % U32, q.id / U32]
  }

  function RequestBody(q: Request): (b: seq<int>)
    ensures |b| == 8 + |q.config| + |q.left| + |q.right|
  {
    RequestHead(q) + q.config + q.left + q.right
  }

  function RequestWords(q: Request, crc: Checksum): (w: seq<int>)
    ensures |w| == 10 + |q.config| + |q.left| + |q.right|
  {
    RequestBody(q) + [crc(RequestBody(q)), BRIDGE_END]
  }

  /** Where the parts of a request lie. */
  lemma {:induction false} RequestParts(q: Request, crc: Checksum, rest: seq<int>)
    requires |q.config| == CONFIG_WORDS && RequestWords(q, crc) <= rest
    ensures var a, b := |q.left|, |q.right|;
            && |rest| >= 75 + a + b && rest[..8] == RequestHead(q) && rest[8..73] == q.config
            && rest[73..73 + a] == q.left && rest[73 + a..73 + a + b] == q.right
            && rest[..73 + a + b] == RequestBody(q) && rest[73 + a + b] == crc(RequestBody(q)) && rest[74 + a + b] == BRIDGE_END
  {
    var w := RequestWords(q, crc);
    assert rest[..|w|] == w;
    assert rest[..73 + |q.left| + |q.right|] == w[..73 + |q.left| + |q.right|] == RequestBody(q);
    var body := RequestBody(q);
    assert body[..8] == RequestHead(q) && body[8..73] == q.config;
    assert body[73..73 + |q.left|] == q.left && body[73 + |q.left|..] == q.right;
    assert rest[..8] == body[..8] && rest[8..73] == body[8..73] && rest[73..73 + |q.left|] == body[73..73 + |q.left|];
    assert rest[73 + |q.left|..73 + |q.left| + |q.right|] == body[73 + |q.left|..];
  }

  /** The request the fields at the front of a list of words name. */
  function RequestAt(rest: seq<int>, a: nat, b: nat): Request
    requires |rest| >= 75 + a + b
  {
    Request(rest[6] + U32 * rest[7], rest[8..73], rest[73..73 + a], rest[73 + a..73 + a + b])
  }

  /** The checks on a request's frame, before its configuration. */
  predicate Framed(rest: seq<int>, crc: Checksum) {
    && |rest| >= 75 && rest[0] == BRIDGE_MAGIC && rest[1] == 1 && 0 <= rest[3] <= 324 && 0 <= rest[4] <= 324
    && rest[2] == 300 + 4 * (rest[3] + rest[4]) && rest[5] == 0
    && var n := 75 + rest[3] + rest[4];
       n <= |rest| && rest[n - 1] == BRIDGE_END && rest[n - 2] == crc(rest[..n - 2]) && (rest[6] != 0 || rest[7] != 0)
  }

  lemma {:induction false} IdWords(low: int, high: int)
    requires 0 <= low < U32 && 0 <= high < U32
    ensures 0 <= low + U32 * high < U64 && (low + U32 * high) % U32 == low && (low + U32 * high) / U32 == high
  {
    DivisionOf(high, low, U32);
    MulMonotone(high, U32 - 1, U32);
  }

  lemma {:induction false} IdRestored(id: int)
    requires 0 <= id < U64
    ensures 0 <= id % U32 < U32 && 0 <= id / U32 < U32 && id % U32 + U32 * (id / U32) == id
  {
  }

  /** A framed request with a valid configuration is the encoding of what its fields name. */
  lemma {:induction false} FramedIsEncoded(rest: seq<int>, crc: Checksum)
    requires AllU32(rest) && Framed(rest, crc) && ConfigValid(rest[8..73]) && rest[8..73][5] == rest[3] && rest[8..73][6] == rest[4]
    ensures var q := RequestAt(rest, rest[3], rest[4]); RequestFormed(q) && RequestWords(q, crc) <= rest
  {
    var a, b := rest[3], rest[4];
    var q := RequestAt(rest, a, b);
    IdWords(rest[6], rest[7]);
    assert RequestHead(q) == rest[..8];
    assert RequestBody(q) == rest[..73 + a + b];
    assert RequestWords(q, crc) == rest[..75 + a + b];
  }

  /** And conversely. */
  lemma {:induction false} EncodedIsFramed(q: Request, crc: Checksum, rest: seq<int>)
    requires RequestFormed(q) && RequestWords(q, crc) <= rest
    ensures Framed(rest, crc) && rest[3] == |q.left| && rest[4] == |q.right| && RequestAt(rest, rest[3], rest[4]) == q
    ensures rest[8..73] == q.config
  {
    RequestParts(q, crc, rest);
    IdRestored(q.id);
    var h := RequestHead(q);
    assert forall i :: 0 <= i < 8 ==> rest[i] == rest[..8][i];
    assert rest[6] == h[6] && rest[7] == h[7];
  }

  /** Reads the request at the front of a list of words, refusing exactly when none stands there. */
  method ReadRequest(rest: seq<int>, crc: Checksum) returns (r: Option<Request>)
    requires AllU32(rest)
    ensures r.Some? ==> RequestFormed(r.value) && RequestWords(r.value, crc) <= rest
    ensures r.None? ==> forall q :: RequestFormed(q) ==> !(RequestWords(q, crc) <= rest)
  {
    forall q | RequestFormed(q) && RequestWords(q, crc) <= rest
      ensures Framed(rest, crc) && rest[8..73] == q.config && q.config[5] == rest[3] && q.config[6] == rest[4]
    {
      EncodedIsFramed(q, crc, rest);
    }
    if !Framed(rest, crc) {
      return None;
    }
    var config := rest[8..73];
    var valid := ValidateConfig(config);
    if !valid || config[5] != rest[3] || config[6] != rest[4] {
      return None;
    }
    FramedIsEncoded(rest, crc);
    r := Some(RequestAt(rest, rest[3], rest[4]));
  }

  // ----- Jobs -----

  ghost predicate WireFormed(version: int, x: Wire) {
    && |x.sources| == |x.offsets| == 2 && AllU32(x.sources) && AllU32(x.offsets) && RequestFormed(x.request)
    && (version == 1 ==> x.offsets == [0, 0])
  }

  /** The first schema sends source words only; the second adds the offset and the extent of each operand. */
  function Metadata(version: int, x: Wire): (m: seq<int>)
    requires |x.sources| == |x.offsets| == 2
    ensures |m| == MetadataSize(version)
  {
    if version == 1 then x.sources
    else [x.sources[0], x.offsets[0], |x.request.left|, x.sources[1], x.offsets[1], |x.request.right|]
  }

  function MetadataSize(version: int): nat {
    if version == 1 then 2 else 6
  }

  function WireWords(version: int, x: Wire, crc: Checksum): (w: seq<int>)
    requires |x.sources| == |x.offsets| == 2
    ensures |w| == MetadataSize(version) + 10 + |x.request.config| + |x.request.left| + |x.request.right|
  {
    Metadata(version, x) + RequestWords(x.request, crc)
  }

  lemma {:induction false} WireParts(version: int, x: Wire, crc: Checksum, rest: seq<int>)
    requires |x.sources| == |x.offsets| == 2 && WireWords(version, x, crc) <= rest
    ensures var m := MetadataSize(version);
            m <= |rest| && rest[..m] == Metadata(version, x) && RequestWords(x.request, crc) <= rest[m..]
  {
    var m, w := MetadataSize(version), WireWords(version, x, crc);
    assert rest[..|w|] == w;
    assert rest[..m] == w[..m] == Metadata(version, x);
    assert rest[m..][..|w| - m] == w[m..] == RequestWords(x.request, crc);
  }

  lemma {:induction false} WireFromParts(version: int, x: Wire, crc: Checksum, rest: seq<int>)
    requires |x.sources| == |x.offsets| == 2
    requires var m := MetadataSize(version);
             m <= |rest| && rest[..m] == Metadata(version, x) && RequestWords(x.request, crc) <= rest[m..]
    ensures WireWords(version, x, crc) <= rest
  {
    var m := MetadataSize(version);
    assert rest == rest[..m] + rest[m..];
    assert rest[..|WireWords(version, x, crc)|] == WireWords(version, x, crc);
  }

  /** The job that metadata and a request name. */
  function WireAt(version: int, rest: seq<int>, q: Request): Wire
    requires |rest| >= MetadataSize(version)
  {
    if version == 1 then Wire(rest[..2], [0, 0], q) else Wire([rest[0], rest[3]], [rest[1], rest[4]], q)
  }

  lemma {:induction false} WireDetermined(version: int, x: Wire, crc: Checksum, rest: seq<int>)
    requires WireFormed(version, x) && WireWords(version, x, crc) <= rest
    ensures MetadataSize(version) <= |rest| && x == WireAt(version, rest, x.request)
    ensures version != 1 ==> rest[2] == |x.request.left| && rest[5] == |x.request.right|
  {
    WireParts(version, x, crc, rest);
    var m := Metadata(version, x);
    assert forall i :: 0 <= i < |m| ==> rest[i] == rest[..|m|][i];
    if version == 1 {
      assert rest[..2] == x.sources;
    } else {
      assert x.sources == [rest[0], rest[3]] && x.offsets == [rest[1], rest[4]];
    }
  }

  lemma {:induction false} RequestDetermined(p: Request, q: Request, crc: Checksum, rest: seq<int>)
    requires RequestFormed(p) && RequestFormed(q) && RequestWords(p, crc) <= rest && RequestWords(q, crc) <= rest
    ensures p == q
  {
    EncodedIsFramed(p, crc, rest);
    EncodedIsFramed(q, crc, rest);
  }

  /** At most one job stands at the front of a list of words. */
  lemma {:induction false} WireUnique(version: int, x: Wire, y: Wire, crc: Checksum, rest: seq<int>)
    requires WireFormed(version, x) && WireFormed(version, y) && WireWords(version, x, crc) <= rest && WireWords(version, y, crc) <= rest
    ensures x == y
  {
    WireParts(version, x, crc, rest);
    WireParts(version, y, crc, rest);
    RequestDetermined(x.request, y.request, crc, rest[MetadataSize(version)..]);
    WireDetermined(version, x, crc, rest);
    WireDetermined(version, y, crc, rest);
  }

  method ReadWire(version: int, rest: seq<int>, crc: Checksum) returns (r: Option<Wire>)
    requires AllU32(rest) && 1 <= version <= 2
    ensures r.Some? ==> WireFormed(version, r.value) && WireWords(version, r.value, crc) <= rest
    ensures r.None? ==> forall x :: WireFormed(version, x) ==> !(WireWords(version, x, crc) <= rest)
  {
    var m := MetadataSize(version);
    if |rest| < m + 75 {
      return None;
    }
    var q := ReadRequest(rest[m..], crc);
    forall x | WireFormed(version, x) && WireWords(version, x, crc) <= rest
      ensures q.Some? && x.request == q.value && (version != 1 ==> rest[2] == |q.value.left| && rest[5] == |q.value.right|)
    {
      WireParts(version, x, crc, rest);
      WireDetermined(version, x, crc, rest);
      if q.Some? {
        RequestDetermined(x.request, q.value, crc, rest[m..]);
      }
    }
    if q.None? || (version != 1 && (rest[2] != |q.value.left| || rest[5] != |q.value.right|)) {
      return None;
    }
    var x := WireAt(version, rest, q.value);
    MetadataRead(version, rest, q.value);
    WireFromParts(version, x, crc, rest);
    r := Some(x);
  }

  lemma {:induction false} MetadataRead(version: int, rest: seq<int>, q: Request)
    requires AllU32(rest) && |rest| >= MetadataSize(version) && RequestFormed(q)
    requires version != 1 ==> rest[2] == |q.left| && rest[5] == |q.right|
    ensures var x := WireAt(version, rest, q); WireFormed(version, x) && rest[..MetadataSize(version)] == Metadata(version, x)
  {
  }

  // ----- The envelope -----

  predicate Paired(ws: seq<Wire>) {
    forall i :: 0 <= i < |ws| ==> |ws[i].sources| == |ws[i].offsets| == 2
  }

  ghost predicate WiresFormed(version: int, ws: seq<Wire>) {
    Paired(ws) && forall i {:trigger WireFormed(version, ws[i])} :: 0 <= i < |ws| ==> WireFormed(version, ws[i])
  }

  /** Lists one after another. */
  function Flat(parts: seq<seq<int>>): seq<int> {
    if parts == [] then [] else Flat(parts[..|parts| - 1]) + parts[|parts| - 1]
  }

  function Frames(version: int, ws: seq<Wire>, crc: Checksum): (f: seq<seq<int>>)
    requires Paired(ws)
    ensures |f| == |ws|
  {
    seq(|ws|, i requires 0 <= i < |ws| => WireWords(version, ws[i], crc))
  }

  function WiresWords(version: int, ws: seq<Wire>, crc: Checksum): seq<int>
    requires Paired(ws)
  {
    Flat(Frames(version, ws, crc))
  }

  lemma {:induction false} FlatAppend(parts: seq<seq<int>>, x: seq<int>)
    ensures Flat(parts + [x]) == Flat(parts) + x
  {
    assert (parts + [x])[..|parts|] == parts;
  }

  /** What follows the first `k` parts. */
  lemma {:induction false} FlatAt(parts: seq<seq<int>>, k: nat) returns (after: seq<int>)
    requires k < |parts|
    ensures Flat(parts) == Flat(parts[..k]) + (parts[k] + after)
    ensures k == |parts| - 1 ==> after == []
  {
    var front, last := parts[..|parts| - 1], parts[|parts| - 1];
    if k == |parts| - 1 {
      after := [];
      assert parts[k] + after == parts[k];
    } else {
      var inner := FlatAt(front, k);
      assert front[..k] == parts[..k] && front[k] == parts[k];
      after := inner + last;
      Regroup(Flat(parts[..k]), parts[k] + inner, last);
      Regroup(parts[k], inner, last);
    }
  }

  lemma {:induction false} DropFront(a: seq<int>, b: seq<int>)
    ensures (a + b)[|a|..] == b
  {
  }

  lemma {:induction false} IsPrefix(a: seq<int>, b: seq<int>)
    ensures a <= a + b
  {
  }

  /** After equal parts, the next parts of two readings of the same words stand at the same place. */
  lemma {:induction false} Aligned(a: seq<seq<int>>, b: seq<seq<int>>, rest: seq<int>, k: nat) returns (tail: seq<int>)
    requires Flat(b) == Flat(a) + rest && k < |a| && k < |b| && a[..k] == b[..k]
    ensures a[k] <= tail && b[k] <= tail
  {
    var afterA := FlatAt(a, k);
    var afterB := FlatAt(b, k);
    tail := b[k] + afterB;
    Regroup(Flat(a[..k]), a[k] + afterA, rest);
    Regroup(a[k], afterA, rest);
    DropFront(Flat(a[..k]), a[k] + (afterA + rest));
    DropFront(Flat(b[..k]), tail);
    IsPrefix(a[k], afterA + rest);
    IsPrefix(b[k], afterB);
  }

  /** Reads `count` jobs that fill a list of words, refusing exactly when there are none such. */
  method ReadWires(version: int, body: seq<int>, count: nat, crc: Checksum) returns (r: Option<seq<Wire>>)
    requires AllU32(body) && 1 <= version <= 2
    ensures r.Some? ==> |r.value| == count && WiresFormed(version, r.value) && WiresWords(version, r.value, crc) == body
    ensures r.None? ==> forall ws :: |ws| == count && WiresFormed(version, ws) ==> WiresWords(version, ws, crc) != body
  {
    var ws: seq<Wire>, rest := [], body;
    while |ws| < count
      invariant |ws| <= count && AllU32(rest) && WiresFormed(version, ws) && body == WiresWords(version, ws, crc) + rest
      decreases count - |ws|
    {
      var x := ReadWire(version, rest, crc);
      if x.None? {
        NoReading(version, ws, rest, count, crc);
        return None;
      }
      WiresAppend(version, ws, x.value, crc, rest);
      ws, rest := ws + [x.value], rest[|WireWords(version, x.value, crc)|..];
    }
    if rest != [] {
      NoReading(version, ws, rest, count, crc);
      return None;
    }
    r := Some(ws);
  }

  /** Nothing else fills the words once no job stands next, or all have been read and words are left. */
  lemma {:induction false} NoReading(version: int, ws: seq<Wire>, rest: seq<int>, count: nat, crc: Checksum)
    requires WiresFormed(version, ws) && |ws| <= count
    requires if |ws| < count then forall x :: WireFormed(version, x) ==> !(WireWords(version, x, crc) <= rest) else rest != []
    ensures forall full :: |full| == count && WiresFormed(version, full) ==> WiresWords(version, full, crc) != WiresWords(version, ws, crc) + rest
  {
    forall full | |full| == count && WiresFormed(version, full) ensures WiresWords(version, full, crc) != WiresWords(version, ws, crc) + rest {
      if WiresWords(version, full, crc) == WiresWords(version, ws, crc) + rest {
        if |ws| < count {
          NextStands(version, ws, full, crc, rest);
        } else {
          NothingLeft(version, ws, full, crc, rest);
        }
      }
    }
  }

  lemma {:induction false} NothingLeft(version: int, ws: seq<Wire>, full: seq<Wire>, crc: Checksum, rest: seq<int>)
    requires |ws| == |full| && WiresFormed(version, ws) && WiresFormed(version, full)
    requires WiresWords(version, full, crc) == WiresWords(version, ws, crc) + rest
    ensures rest == []
  {
    SameSoFar(version, ws, full, crc, rest, |ws|);
    assert ws[..|ws|] == ws && full[..|ws|] == full;
    assert |WiresWords(version, ws, crc) + rest| == |WiresWords(version, ws, crc)| + |rest|;
  }

  lemma {:induction false} FramesAppend(version: int, ws: seq<Wire>, x: Wire, crc: Checksum)
    requires Paired(ws) && |x.sources| == |x.offsets| == 2
    ensures Frames(version, ws + [x], crc) == Frames(version, ws, crc) + [WireWords(version, x, crc)]
  {
  }

  lemma {:induction false} TakeFront(a: seq<int>, x: seq<int>, rest: seq<int>)
    requires x <= rest
    ensures (a + x) + rest[|x|..] == a + rest
  {
    assert rest == x + rest[|x|..];
  }

  lemma {:induction false} WiresAppend(version: int, ws: seq<Wire>, x: Wire, crc: Checksum, rest: seq<int>)
    requires Paired(ws) && |x.sources| == |x.offsets| == 2 && WireWords(version, x, crc) <= rest
    ensures WiresWords(version, ws + [x], crc) + rest[|WireWords(version, x, crc)|..] == WiresWords(version, ws, crc) + rest
  {
    FramesAppend(version, ws, x, crc);
    FlatAppend(Frames(version, ws, crc), WireWords(version, x, crc));
    TakeFront(WiresWords(version, ws, crc), WireWords(version, x, crc), rest);
  }

  lemma {:induction false} FramesPrefix(version: int, ws: seq<Wire>, full: seq<Wire>, crc: Checksum, k: nat)
    requires Paired(ws) && Paired(full) && k <= |ws| && k <= |full| && ws[..k] == full[..k]
    ensures Frames(version, ws, crc)[..k] == Frames(version, full, crc)[..k]
  {
    forall i | 0 <= i < k ensures Frames(version, ws, crc)[i] == Frames(version, full, crc)[i] {
      assert ws[..k][i] == full[..k][i];
    }
  }

  /** Two readings of the same words agree as far as both go. */
  lemma {:induction false} SameSoFar(version: int, ws: seq<Wire>, full: seq<Wire>, crc: Checksum, rest: seq<int>, k: nat)
    requires k <= |ws| && k <= |full| && WiresFormed(version, ws) && WiresFormed(version, full)
    requires WiresWords(version, full, crc) == WiresWords(version, ws, crc) + rest
    ensures ws[..k] == full[..k]
  {
    if k > 0 {
      SameSoFar(version, ws, full, crc, rest, k - 1);
      SameNext(version, ws, full, crc, rest, k - 1);
      TakeNext(ws, full, k - 1);
    }
  }

  lemma {:induction false} TakeNext<T>(a: seq<T>, b: seq<T>, k: nat)
    requires k < |a| && k < |b| && a[..k] == b[..k] && a[k] == b[k]
    ensures a[..k + 1] == b[..k + 1]
  {
    assert a[..k + 1] == a[..k] + [a[k]] && b[..k + 1] == b[..k] + [b[k]];
  }

  lemma {:induction false} SameNext(version: int, ws: seq<Wire>, full: seq<Wire>, crc: Checksum, rest: seq<int>, k: nat)
    requires k < |ws| && k < |full| && WiresFormed(version, ws) && WiresFormed(version, full) && ws[..k] == full[..k]
    requires WiresWords(version, full, crc) == WiresWords(version, ws, crc) + rest
    ensures ws[k] == full[k]
  {
    var a, b := Frames(version, ws, crc), Frames(version, full, crc);
    assert a[..k] == b[..k] by { FramesPrefix(version, ws, full, crc, k); }
    var tail := Aligned(a, b, rest, k);
    assert WireFormed(version, ws[k]) && WireFormed(version, full[k]);
    WireUnique(version, ws[k], full[k], crc, tail);
  }

  /** When jobs are left in another reading, the next of them stands at the front of the rest. */
  lemma {:induction false} NextStands(version: int, ws: seq<Wire>, full: seq<Wire>, crc: Checksum, rest: seq<int>)
    requires |ws| < |full| && WiresFormed(version, ws) && WiresFormed(version, full)
    requires WiresWords(version, full, crc) == WiresWords(version, ws, crc) + rest
    ensures WireFormed(version, full[|ws|]) && WireWords(version, full[|ws|], crc) <= rest
  {
    var k := |ws|;
    SameSoFar(version, ws, full, crc, rest, k);
    FramesPrefix(version, ws, full, crc, k);
    var f := Frames(version, full, crc);
    assert Frames(version, ws, crc)[..k] == Frames(version, ws, crc);
    var after := FlatAt(f, k);
    DropFront(Flat(f[..k]), f[k] + after);
    DropFront(WiresWords(version, ws, crc), rest);
    IsPrefix(f[k], after);
    assert WireFormed(version, full[k]);
  }

  function EnvelopeBody(version: int, epoch: int, output: int, ws: seq<Wire>, crc: Checksum): seq<int>
    requires Paired(ws)
  {
    var jobs := WiresWords(version, ws, crc);
    [DAG_MAGIC, version, 4 * (10 + |jobs|), |ws|, epoch % U32, epoch / U32, output, 0] + jobs
  }

  /** The words of a session envelope. */
  function Envelope(version: int, epoch: int, output: int, ws: seq<Wire>, crc: Checksum): seq<int>
    requires Paired(ws)
  {
    var body := EnvelopeBody(version, epoch, output, ws, crc);
    body + [crc(body), DAG_END]
  }

  /** What an envelope may carry. */
  ghost predicate Carried(version: int, epoch: int, output: int, ws: seq<Wire>) {
    1 <= version <= 2 && 0 < epoch < U64 && 1 <= |ws| <= 8 && 0 <= output < |ws| && WiresFormed(version, ws)
  }

  predicate EnvelopeFramed(w: seq<int>, crc: Checksum) {
    && 87 <= |w| <= 5842 && w[0] == DAG_MAGIC && (w[1] == 1 || w[1] == 2) && w[2] == 4 * |w| && 1 <= w[3] <= 8 && 0 <= w[6] < w[3] && w[7] == 0
    && w[|w| - 1] == DAG_END && w[|w| - 2] == crc(w[..|w| - 2]) && (w[4] != 0 || w[5] != 0)
  }

  datatype Opened = Opened(version: int, epoch: int, output: nat, jobs: seq<Wire>)

  lemma {:induction false} WiresSize(version: int, ws: seq<Wire>, crc: Checksum)
    requires WiresFormed(version, ws)
    ensures 77 * |ws| <= |WiresWords(version, ws, crc)| <= 729 * |ws|
  {
    if ws != [] {
      var front, x := ws[..|ws| - 1], ws[|ws| - 1];
      assert WireFormed(version, x);
      assert WiresFormed(version, front) by {
        forall i | 0 <= i < |front| ensures WireFormed(version, front[i]) { assert WireFormed(version, ws[i]); }
      }
      WiresSize(version, front, crc);
      assert ws == front + [x];
      FramesAppend(version, front, x, crc);
      FlatAppend(Frames(version, front, crc), WireWords(version, x, crc));
    }
  }

  lemma {:induction false} EnvelopeParts(version: int, epoch: int, output: int, ws: seq<Wire>, crc: Checksum)
    requires Carried(version, epoch, output, ws)
    ensures var w := Envelope(version, epoch, output, ws, crc);
            && EnvelopeFramed(w, crc) && w[1] == version && w[3] == |ws| && w[4] + U32 * w[5] == epoch && w[6] == output
            && w[8..|w| - 2] == WiresWords(version, ws, crc)
  {
    var w, body := Envelope(version, epoch, output, ws, crc), EnvelopeBody(version, epoch, output, ws, crc);
    WiresSize(version, ws, crc);
    IdRestored(epoch);
    assert w[..|w| - 2] == body;
    assert w[8..|w| - 2] == body[8..] == WiresWords(version, ws, crc);
  }

  lemma {:induction false} EnvelopesOpen(w: seq<int>, crc: Checksum)
    ensures forall version, epoch, output, ws :: Carried(version, epoch, output, ws) && w == Envelope(version, epoch, output, ws, crc) ==>
      EnvelopeFramed(w, crc) && w[1] == version && w[3] == |ws| && w[8..|w| - 2] == WiresWords(version, ws, crc)
  {
    forall version, epoch, output, ws | Carried(version, epoch, output, ws) && w == Envelope(version, epoch, output, ws, crc)
      ensures EnvelopeFramed(w, crc) && w[1] == version && w[3] == |ws| && w[8..|w| - 2] == WiresWords(version, ws, crc)
    {
      EnvelopeParts(version, epoch, output, ws, crc);
    }
  }

  /** Opens an envelope: succeeds exactly on the words of an envelope, with what it carries. */
  method OpenEnvelope(w: seq<int>, crc: Checksum) returns (r: Option<Opened>)
    requires AllU32(w)
    ensures r.Some? ==> Carried(r.value.version, r.value.epoch, r.value.output, r.value.jobs)
    ensures r.Some? ==> w == Envelope(r.value.version, r.value.epoch, r.value.output, r.value.jobs, crc)
    ensures r.None? ==> forall version, epoch, output, ws :: Carried(version, epoch, output, ws) ==> w != Envelope(version, epoch, output, ws, crc)
  {
    EnvelopesOpen(w, crc);
    if !EnvelopeFramed(w, crc) {
      return None;
    }
    var jobs := ReadWires(w[1], w[8..|w| - 2], w[3], crc);
    if jobs.None? {
      return None;
    }
    IdWords(w[4], w[5]);
    Rebuilt(w, w[4] + U32 * w[5], jobs.value, crc);
    r := Some(Opened(w[1], w[4] + U32 * w[5], w[6], jobs.value));
  }

  lemma {:induction false} Rebuilt(w: seq<int>, epoch: int, ws: seq<Wire>, crc: Checksum)
    requires EnvelopeFramed(w, crc) && WiresFormed(w[1], ws) && |ws| == w[3] && WiresWords(w[1], ws, crc) == w[8..|w| - 2]
    requires epoch % U32 == w[4] && epoch / U32 == w[5]
    ensures w == Envelope(w[1], epoch, w[6], ws, crc)
  {
    assert EnvelopeBody(w[1], epoch, w[6], ws, crc) == w[..|w| - 2];
  }
}

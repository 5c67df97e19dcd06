/** The software fallback on whole images, compiled programs inside it, and the memory transactions of a run. */
module GraphExecution {
  import opened Base
  import opened Registers
  import opened Descriptor
  import opened Encoding
  import opened GraphMachine
  import opened GraphCompiler
  import V = GraphValidators

  // ----- Compiled programs are accepted -----

  function ImageOf(p: Program, sha: Digest): V.Image {
    V.Image(p.payload, p.instructions, |p.instructions|, sha([|p.instructions|] + p.instructions))
  }

  lemma {:induction false} SiteAcceptable(schema: Schema, version: int, node: Node, d: nat, sources: seq<nat>, code: seq<int>, k: nat)
    requires k < |code| && Site(schema, node, d, sources, code[k]) && AddressForm(schema, version)
    requires version >= V.FirstVersion(Opcode(node.kind))
    requires node.kind == StoreU32 <==> k == |code| - 1
    requires forall j :: 0 <= j < |sources| ==> V.Written(code, k, sources[j])
    ensures V.Acceptable(version, code, k)
  {
    match node.kind
    case LoadU32 => LoadFields(d, node.address.value);
    case AddU32 => BinaryFields(ADD, d, sources[0], sources[1]);
    case MaxU32 => BinaryFields(MAX, d, sources[0], sources[1]);
    case MulU32 => BinaryFields(MUL, d, sources[0], sources[1]);
    case AddImmU32 => ImmediateFields(ADD_IMM, d, sources[0], node.immediate.value);
    case GeImmU32 => ImmediateFields(GE_IMM, d, sources[0], node.immediate.value);
    case StoreU32 => StoreFields(sources[0]);
  }

  /** The register an operand is read from was written by its definition. */
  lemma {:induction false} SourcesWritten(schema: Schema, version: int, nodes: seq<Node>, dest: seq<nat>, sources: seq<seq<nat>>,
                                          code: seq<int>, k: nat, j: nat)
    requires Lowers(schema, nodes, dest, sources, code) && AddressForm(schema, version) && k < |nodes| && j < |sources[k]|
    ensures V.Written(code, k, sources[k][j])
  {
    var items := Items(nodes);
    assert DefinedBefore(items, k, items[k].uses[j]);
    var i :| 0 <= i < k && items[i].id == items[k].uses[j] && items[i].defines;
    assert ReadsFrom(items, dest, k, sources[k]);
    assert OpcodeOf(code[i]) == Opcode(nodes[i].kind) && DestinationOf(code[i]) == dest[i] by {
      LoweredSites(schema, nodes, dest, sources, code);
      WordFields(schema, version, nodes[i], dest[i], sources[i], code[i], 0);
    }
  }

  lemma {:induction false} VersionCovers(d: Descriptor, i: nat)
    requires i < |d.nodes| && NodeFormed(d.schema, d.nodes[i])
    ensures ProgramVersion(d) >= V.FirstVersion(Opcode(d.nodes[i].kind))
  {
  }

  lemma {:induction false} CompiledCodeAcceptable(d: Descriptor, p: Program, sha: Digest, dest: seq<nat>, sources: seq<seq<nat>>, k: nat)
    requires Admitted(d) && CompiledWith(d, p, sha, dest, sources) && k < |p.instructions|
    ensures V.Acceptable(ProgramVersion(d), p.instructions, k)
  {
    var nodes, code := Scheduled(d.nodes), p.instructions;
    assert nodes[k].kind == StoreU32 <==> k == |code| - 1 by { ScheduledIsProgram(d.nodes); }
    assert Site(d.schema, nodes[k], dest[k], sources[k], code[k]) by { LoweredSites(d.schema, nodes, dest, sources, code); }
    assert ProgramVersion(d) >= V.FirstVersion(Opcode(nodes[k].kind)) by {
      assert nodes[k] in d.nodes;
      var i :| 0 <= i < |d.nodes| && d.nodes[i] == nodes[k];
      VersionCovers(d, i);
    }
    forall j | 0 <= j < |sources[k]| ensures V.Written(code, k, sources[k][j]) {
      SourcesWritten(d.schema, ProgramVersion(d), nodes, dest, sources, code, k, j);
    }
    SiteAcceptable(d.schema, ProgramVersion(d), nodes[k], dest[k], sources[k], code, k);
  }

  /** Where the parts of a payload lie. */
  lemma {:induction false} PayloadParts(p: seq<int>, head: seq<int>, digest: seq<int>, code: seq<int>, rest: seq<int>)
    requires p == head + digest + code + rest && |head| == 4 && |digest| == 8
    ensures p[..4] == head && p[4..12] == digest && p[12..12 + |code|] == code && p[12 + |code|..] == rest
  {
  }

  lemma {:induction false} PayloadLayout(version: int, code: seq<int>, sha: Digest)
    requires 2 <= |code| <= CAPACITY && AllU32(code) && 0 <= version < U32
    ensures var p := Payload(version, code, sha);
            && AllU32(p) && p[0] == MAGIC && p[1] == version && p[2] == |code| && p[3] == REGISTERS
            && p[4..12] == sha([|code|] + code) && p[12..12 + |code|] == code
            && V.Cleared(p, 12 + |code|)
  {
    var p, head, digest := Payload(version, code, sha), [MAGIC, version, |code|, REGISTERS], sha([|code|] + code);
    var rest := Zeros(CAPACITY - |code|) + Zeros(4);
    assert p == head + digest + code + rest;
    PayloadParts(p, head, digest, code, rest);
    assert p[0] == head[0] && p[1] == head[1] && p[2] == head[2] && p[3] == head[3] by { assert p[..4] == head; }
    assert AllU32(p) by { U32Parts(head, digest, code, rest); }
    forall i | 12 + |code| <= i < |p| ensures p[i] == 0 {
      assert p[i] == p[12 + |code|..][i - 12 - |code|];
    }
  }

  lemma {:induction false} U32Parts(a: seq<int>, b: seq<int>, c: seq<int>, d: seq<int>)
    requires AllU32(a) && AllU32(b) && AllU32(c) && AllU32(d)
    ensures AllU32(a + b + c + d)
  {
  }

  /** Every compiled program passes the standalone check of the fallback. */
  lemma {:induction false} CompiledIsAccepted(d: Descriptor, p: Program, sha: Digest)
    requires Admitted(d) && Compiled(d, p, sha)
    ensures V.FallbackAccepts(ImageOf(p, sha), sha) && p.payload[1] == ProgramVersion(d)
  {
    CompiledFacts(d, p, sha);
    FramedIsAccepted(p, ProgramVersion(d), sha);
  }

  lemma {:induction false} CompiledFacts(d: Descriptor, p: Program, sha: Digest)
    requires Admitted(d) && Compiled(d, p, sha)
    ensures 2 <= |p.instructions| <= CAPACITY && p.payload == Payload(ProgramVersion(d), p.instructions, sha)
    ensures AllU32(p.instructions) && V.AllAcceptable(ProgramVersion(d), p.instructions)
  {
    var dest, sources :| CompiledWith(d, p, sha, dest, sources);
    CompiledCodeIsAcceptable(d, p, sha, dest, sources);
  }

  lemma {:induction false} CompiledCodeIsAcceptable(d: Descriptor, p: Program, sha: Digest, dest: seq<nat>, sources: seq<seq<nat>>)
    requires Admitted(d) && CompiledWith(d, p, sha, dest, sources)
    ensures AllU32(p.instructions) && V.AllAcceptable(ProgramVersion(d), p.instructions)
  {
    forall k | 0 <= k < |p.instructions| ensures V.Acceptable(ProgramVersion(d), p.instructions, k) {
      CompiledCodeAcceptable(d, p, sha, dest, sources, k);
    }
    CompiledCodeIsU32(d, p, sha, dest, sources);
  }

  lemma {:induction false} FramedIsAccepted(p: Program, version: int, sha: Digest)
    requires 1 <= version <= 6 && 2 <= |p.instructions| <= CAPACITY && p.payload == Payload(version, p.instructions, sha)
    requires AllU32(p.instructions) && V.AllAcceptable(version, p.instructions)
    ensures V.FallbackAccepts(ImageOf(p, sha), sha) && p.payload[1] == version
  {
    PayloadLayout(version, p.instructions, sha);
  }

  lemma {:induction false} CompiledCodeIsU32(d: Descriptor, p: Program, sha: Digest, dest: seq<nat>, sources: seq<seq<nat>>)
    requires Admitted(d) && CompiledWith(d, p, sha, dest, sources)
    ensures AllU32(p.instructions)
  {
    var nodes, code := Scheduled(d.nodes), p.instructions;
    assert Sites(d.schema, nodes, dest, sources, code) by { LoweredSites(d.schema, nodes, dest, sources, code); }
    forall k | 0 <= k < |code| ensures 0 <= code[k] < U32 {
      WordFields(d.schema, ProgramVersion(d), nodes[k], dest[k], sources[k], code[k], 0);
    }
  }

  // ----- software_fallback -----

  lemma {:induction false} AcceptedEndsWithStore(version: int, code: seq<int>)
    requires V.AllAcceptable(version, code) && |code| > 0
    ensures forall k :: 0 <= k < |code| ==> (OpcodeOf(code[k]) == STORE <==> k == |code| - 1)
  {
    forall k | 0 <= k < |code| ensures OpcodeOf(code[k]) == STORE <==> k == |code| - 1 {
      assert V.Acceptable(version, code, k);
    }
  }

  /** Refuses what its check refuses; otherwise executes the words. */
  method SoftwareFallback(s: Shape, image: V.Image, sha: Digest, words: seq<int>) returns (r: Execution)
    requires ShapeAdmitted(s)
    ensures r.Refused? <==> !V.FallbackAccepts(image, sha) || |words| != INPUT_WORDS
    ensures !r.Refused? ==> |image.instructions| > 0 && |image.payload| > 1
    ensures !r.Refused? ==> r == match WordOutput(s, image.payload[1], image.instructions, words)
                                 case None => OutOfRange
                                 case Some(output) => Output(output)
  {
    var ok := V.ValidateFallback(image, sha);
    if !ok || |words| != INPUT_WORDS {
      return Refused;
    }
    AcceptedEndsWithStore(image.payload[1], image.instructions);
    var output := RunProgram(s, image.payload[1], image.instructions, words);
    r := match output case None => OutOfRange case Some(o) => Output(o);
  }

  /** Compile, then run both interpreters: they give the same execution on every input. */
  method CompileAndCompare(d: Descriptor, sha: Digest, words: seq<int>) returns (oracle: Execution, fallback: Option<Execution>)
    ensures oracle.Refused? <==> !Admitted(d) || |words| != INPUT_WORDS
    ensures !oracle.Refused? ==> oracle == match NamedOutput(d, words) case None => OutOfRange case Some(image) => Output(image)
    ensures fallback.Some? <==> Admitted(d) && !Overflows(Items(Scheduled(d.nodes)), true)
    ensures fallback.Some? ==> fallback.value == oracle
  {
    oracle := GraphOracle(d, words);
    var compiled, _, _ := CompileDescriptor(d, sha);
    if !compiled.Ok? {
      return oracle, None;
    }
    var p := compiled.program;
    CompiledIsAccepted(d, p, sha);
    CompilerCorrect(d, p, sha, words);
    var run := SoftwareFallback(p.shape, ImageOf(p, sha), sha, words);
    fallback := Some(run);
  }

  // ----- expected_transactions -----

  datatype Transaction = Transaction(write: bool, address: int, data: int)

  function LoadCount(code: seq<int>): nat {
    if code == [] then 0 else (if OpcodeOf(code[0]) == LOAD then 1 else 0) + LoadCount(code[1..])
  }

  /** What one cell does on the bus: its loads in program order, then its store. */
  function CellTransactions(version: int, code: seq<int>, cell: Cell, at: int, data: int): seq<Transaction> {
    if code == [] then []
    else
      var rest := CellTransactions(version, code[1..], cell, at, data);
      if OpcodeOf(code[0]) == LOAD then [Transaction(false, cell.center + WordOffset(version, code[0], cell.stride), 0)] + rest
      else if OpcodeOf(code[0]) == STORE then [Transaction(true, INPUT_WORDS + at, data)] + rest
      else rest
  }

  /** The writes of a trace, in order. */
  function Writes(trace: seq<Transaction>): seq<Transaction> {
    if trace == [] then []
    else (if trace[0].write then [trace[0]] else []) + Writes(trace[1..])
  }

  lemma {:induction false} WritesAppend(a: seq<Transaction>, b: seq<Transaction>)
    ensures Writes(a + b) == Writes(a) + Writes(b)
  {
    if a == [] {
      assert a + b == b;
    } else {
      var x, rest := if a[0].write then [a[0]] else [], Writes(a[1..]);
      WritesAppend(a[1..], b);
      assert Writes(a + b) == x + (rest + Writes(b)) by { assert (a + b)[1..] == a[1..] + b && (a + b)[0] == a[0]; }
      Regroup(x, rest, Writes(b));
    }
  }

  /** The load instructions, in program order. */
  function LoadWords(code: seq<int>): seq<int> {
    if code == [] then [] else (if OpcodeOf(code[0]) == LOAD then [code[0]] else []) + LoadWords(code[1..])
  }

  lemma {:induction false} LoadWordsCount(code: seq<int>)
    ensures |LoadWords(code)| == LoadCount(code)
  {
    if code != [] {
      LoadWordsCount(code[1..]);
    }
  }

  /** The reads of a cell: the address of each load, in program order. */
  function CellReads(version: int, loads: seq<int>, cell: Cell): (r: seq<Transaction>)
    ensures |r| == |loads| && forall i :: 0 <= i < |loads| ==> r[i] == Transaction(false, cell.center + WordOffset(version, loads[i], cell.stride), 0)
  {
    seq(|loads|, i requires 0 <= i < |loads| => Transaction(false, cell.center + WordOffset(version, loads[i], cell.stride), 0))
  }

  /** A cell of an accepted program reads once per load, in program order, and writes once, last. */
  lemma {:induction false} CellTrace(version: int, code: seq<int>, cell: Cell, at: int, data: int)
    requires forall k :: 0 <= k < |code| ==> (OpcodeOf(code[k]) == STORE <==> k == |code| - 1)
    ensures CellTransactions(version, code, cell, at, data) ==
            CellReads(version, LoadWords(code), cell) + if code == [] then [] else [Transaction(true, INPUT_WORDS + at, data)]
  {
    if code != [] {
      var tail := code[1..];
      assert forall k :: 0 <= k < |tail| ==> tail[k] == code[k + 1];
      CellTrace(version, tail, cell, at, data);
      if |code| == 1 {
        assert OpcodeOf(code[0]) == STORE && tail == [];
      } else if OpcodeOf(code[0]) == LOAD {
        assert CellReads(version, [code[0]] + LoadWords(tail), cell)
            == [Transaction(false, cell.center + WordOffset(version, code[0], cell.stride), 0)] + CellReads(version, LoadWords(tail), cell);
      }
    }
  }

  lemma {:induction false} ReadsDoNotWrite(version: int, loads: seq<int>, cell: Cell)
    ensures Writes(CellReads(version, loads, cell)) == []
  {
    if loads != [] {
      ReadsDoNotWrite(version, loads[1..], cell);
      assert CellReads(version, loads, cell)[1..] == CellReads(version, loads[1..], cell);
    }
  }

  function ExpectedWrite(s: Shape, output: seq<int>, row: nat, column: nat): Transaction
    requires |output| == OUTPUT_WORDS
  {
    var at := row * s.outputStride + column;
    Transaction(true, INPUT_WORDS + at, if 0 <= at < OUTPUT_WORDS then output[at] else 0)
  }

  /** The writes of the cells before (row, column), one each, in row-major order, carrying the output word. */
  function ExpectedWrites(s: Shape, output: seq<int>, row: nat, column: nat): (w: seq<Transaction>)
    requires |output| == OUTPUT_WORDS
    decreases row, column
  {
    if column > 0 then ExpectedWrites(s, output, row, column - 1) + [ExpectedWrite(s, output, row, column - 1)]
    else if row > 0 && s.columns > 0 then ExpectedWrites(s, output, row - 1, s.columns)
    else []
  }

  /** The transactions of the cells before (row, column), in row-major order: each cell's reads, then its write. */
  function ExpectedTrace(s: Shape, version: int, loads: seq<int>, words: seq<int>, output: seq<int>, row: nat, column: nat): (t: seq<Transaction>)
    requires |output| == OUTPUT_WORDS
    decreases row, column
  {
    if column > 0 then
      ExpectedTrace(s, version, loads, words, output, row, column - 1)
      + (CellReads(version, loads, CellAt(s, words, row, column - 1)) + [ExpectedWrite(s, output, row, column - 1)])
    else if row > 0 && s.columns > 0 then ExpectedTrace(s, version, loads, words, output, row - 1, s.columns)
    else []
  }

  lemma {:induction false} TraceWrites(s: Shape, version: int, loads: seq<int>, words: seq<int>, output: seq<int>, row: nat, column: nat)
    requires |output| == OUTPUT_WORDS
    ensures Writes(ExpectedTrace(s, version, loads, words, output, row, column)) == ExpectedWrites(s, output, row, column)
    decreases row, column
  {
    if column > 0 {
      TraceWrites(s, version, loads, words, output, row, column - 1);
      var front := ExpectedTrace(s, version, loads, words, output, row, column - 1);
      var loaded, w := CellReads(version, loads, CellAt(s, words, row, column - 1)), ExpectedWrite(s, output, row, column - 1);
      WritesAppend(front, loaded + [w]);
      assert Writes(loaded + [w]) == [w] by {
        WritesAppend(loaded, [w]);
        ReadsDoNotWrite(version, loads, CellAt(s, words, row, column - 1));
        assert Writes([w]) == [w];
      }
    } else if row > 0 && s.columns > 0 {
      TraceWrites(s, version, loads, words, output, row - 1, s.columns);
    }
  }

  lemma {:induction false} TraceLength(s: Shape, version: int, loads: seq<int>, words: seq<int>, output: seq<int>, row: nat, column: nat)
    requires |output| == OUTPUT_WORDS && s.columns > 0
    ensures |ExpectedTrace(s, version, loads, words, output, row, column)| == Times(Times(|loads| + 1, s.columns), row) + Times(|loads| + 1, column)
    decreases row, column
  {
    if column > 0 {
      TraceLength(s, version, loads, words, output, row, column - 1);
    } else if row > 0 {
      TraceLength(s, version, loads, words, output, row - 1, s.columns);
    }
  }

  /** The loops over cells: the loads' addresses in program order, then one write of the cell's output word. */
  method ListTransactions(s: Shape, version: int, code: seq<int>, words: seq<int>, output: seq<int>) returns (trace: seq<Transaction>)
    requires ShapeAdmitted(s) && |code| > 0 && V.AllAcceptable(version, code) && |output| == OUTPUT_WORDS
    ensures trace == ExpectedTrace(s, version, LoadWords(code), words, output, s.rows, 0)
    ensures Writes(trace) == ExpectedWrites(s, output, s.rows, 0)
    ensures |trace| == Times(Times(LoadCount(code) + 1, s.columns), s.rows)
  {
    AcceptedEndsWithStore(version, code);
    trace := [];
    var row := 0;
    while row < s.rows
      invariant 0 <= row <= s.rows && trace == ExpectedTrace(s, version, LoadWords(code), words, output, row, 0)
    {
      var column := 0;
      while column < s.columns
        invariant 0 <= column <= s.columns && trace == ExpectedTrace(s, version, LoadWords(code), words, output, row, column)
      {
        CellIndex(s, row, column);
        var at := row * s.outputStride + column;
        var step := CellBus(version, code, CellAt(s, words, row, column), at, output[at]);
        assert step == CellReads(version, LoadWords(code), CellAt(s, words, row, column)) + [ExpectedWrite(s, output, row, column)] by {
          CellTrace(version, code, CellAt(s, words, row, column), at, output[at]);
        }
        trace := trace + step;
        column := column + 1;
      }
      row := row + 1;
    }
    LoadWordsCount(code);
    TraceWrites(s, version, LoadWords(code), words, output, s.rows, 0);
    TraceLength(s, version, LoadWords(code), words, output, s.rows, 0);
  }

  /** The inner loop over instructions. */
  method CellBus(version: int, code: seq<int>, cell: Cell, at: int, data: int) returns (trace: seq<Transaction>)
    ensures trace == CellTransactions(version, code, cell, at, data)
  {
    trace := [];
    var k := 0;
    assert code[0..] == code;
    while k < |code|
      invariant 0 <= k <= |code|
      invariant trace + CellTransactions(version, code[k..], cell, at, data) == CellTransactions(version, code, cell, at, data)
    {
      assert code[k..][0] == code[k] && code[k..][1..] == code[k + 1..];
      if OpcodeOf(code[k]) == LOAD {
        trace := trace + [Transaction(false, cell.center + WordOffset(version, code[k], cell.stride), 0)];
      } else if OpcodeOf(code[k]) == STORE {
        trace := trace + [Transaction(true, INPUT_WORDS + at, data)];
      }
      k := k + 1;
    }
    assert code[k..] == [];
  }

  /** A transaction's effect on an output window. */
  function Put(window: seq<int>, t: Transaction): (r: seq<int>)
    ensures |r| == |window|
  {
    if t.write && 0 <= t.address - INPUT_WORDS < |window| then window[t.address - INPUT_WORDS := t.data] else window
  }

  /** Applies the writes of a trace to an output window. */
  function Replay(trace: seq<Transaction>, window: seq<int>): (r: seq<int>)
    ensures |r| == |window|
  {
    if trace == [] then window else Put(Replay(trace[..|trace| - 1], window), trace[|trace| - 1])
  }

  lemma {:induction false} ReplayAppend(trace: seq<Transaction>, t: Transaction, window: seq<int>)
    ensures Replay(trace + [t], window) == Put(Replay(trace, window), t)
  {
    assert (trace + [t])[..|trace|] == trace;
  }

  /** Reads do not matter to the output window. */
  lemma {:induction false} ReplayIgnoresReads(trace: seq<Transaction>, window: seq<int>)
    ensures Replay(trace, window) == Replay(Writes(trace), window)
  {
    if trace != [] {
      var front, t := trace[..|trace| - 1], trace[|trace| - 1];
      ReplayIgnoresReads(front, window);
      ReplayNext(front, t, window);
      assert trace == front + [t];
    }
  }

  lemma {:induction false} ReplayNext(front: seq<Transaction>, t: Transaction, window: seq<int>)
    requires Replay(front, window) == Replay(Writes(front), window)
    ensures Replay(front + [t], window) == Replay(Writes(front + [t]), window)
  {
    var w := Writes(front);
    assert Writes(front + [t]) == if t.write then w + [t] else w by {
      WritesAppend(front, [t]);
      assert Writes([t]) == if t.write then [t] else [];
    }
    ReplayAppend(front, t, window);
    ReplayAppend(w, t, window);
  }

  lemma {:induction false} WriteCarriesCell(s: Shape, f: (int, int) -> int, row: nat, column: nat)
    requires ShapeAdmitted(s) && InShape(s, row, column)
    ensures var at := row * s.outputStride + column;
            0 <= at < OUTPUT_WORDS && ExpectedWrite(s, GraphCompiler.Image(s, f), row, column) == Transaction(true, INPUT_WORDS + at, f(row, column))
  {
    CellIndex(s, row, column);
  }

  lemma {:induction false} ReplayCell(s: Shape, f: (int, int) -> int, front: seq<Transaction>, window: seq<int>, row: nat, column: nat)
    requires ShapeAdmitted(s) && InShape(s, row, column) && Filled(s, f, Replay(front, window), row, column)
    ensures Filled(s, f, Replay(front + [ExpectedWrite(s, GraphCompiler.Image(s, f), row, column)], window), row, column + 1)
  {
    WriteCarriesCell(s, f, row, column);
    ReplayAppend(front, ExpectedWrite(s, GraphCompiler.Image(s, f), row, column), window);
    FillCell(s, f, Replay(front, window), row, column);
  }

  lemma {:induction false} ReplayExpected(s: Shape, f: (int, int) -> int, image: seq<int>, zeros: seq<int>, row: nat, column: nat)
    requires ShapeAdmitted(s) && row <= s.rows && column <= s.columns && (row < s.rows || column == 0)
    requires image == GraphCompiler.Image(s, f) && zeros == Zeros(OUTPUT_WORDS)
    ensures Filled(s, f, Replay(ExpectedWrites(s, image, row, column), zeros), row, column)
    decreases row, column
  {
    if column > 0 {
      ReplayExpected(s, f, image, zeros, row, column - 1);
      ReplayCell(s, f, ExpectedWrites(s, image, row, column - 1), zeros, row, column - 1);
    } else if row > 0 {
      ReplayExpected(s, f, image, zeros, row - 1, s.columns);
      FillRow(s, f, Replay(ExpectedWrites(s, image, row - 1, s.columns), zeros), row - 1);
    } else {
      FillStart(s, f);
    }
  }

  /** Writes to output words before `bound`, at strictly increasing addresses. */
  ghost predicate IncreasingWrites(w: seq<Transaction>, bound: int) {
    && (forall i :: 0 <= i < |w| ==> w[i].write && INPUT_WORDS <= w[i].address < INPUT_WORDS + bound)
    && forall i, j :: 0 <= i < j < |w| ==> w[i].address < w[j].address
  }

  lemma {:induction false} IncreasingAppend(w: seq<Transaction>, bound: int, t: Transaction)
    requires IncreasingWrites(w, bound) && 0 <= bound && t.write && t.address == INPUT_WORDS + bound
    ensures IncreasingWrites(w + [t], bound + 1)
  {
  }

  /** Write addresses strictly increase, so no output word is written twice. */
  lemma {:induction false} WriteAddressesIncrease(s: Shape, output: seq<int>, row: nat, column: nat)
    requires ShapeAdmitted(s) && |output| == OUTPUT_WORDS && row <= s.rows && column <= s.columns && (row < s.rows || column == 0)
    ensures IncreasingWrites(ExpectedWrites(s, output, row, column), row * s.outputStride + column)
    decreases row, column
  {
    if column > 0 {
      WriteAddressesIncrease(s, output, row, column - 1);
      MulMonotone(0, row, s.outputStride);
      IncreasingAppend(ExpectedWrites(s, output, row, column - 1), row * s.outputStride + (column - 1), ExpectedWrite(s, output, row, column - 1));
    } else if row > 0 {
      WriteAddressesIncrease(s, output, row - 1, s.columns);
      assert row * s.outputStride == (row - 1) * s.outputStride + s.outputStride;
    }
  }

  /** Replaying a run's transactions over a zeroed window reproduces the fallback's output, writing no word twice. */
  lemma {:induction false} TransactionsReproduceOutput(s: Shape, version: int, code: seq<int>, words: seq<int>, trace: seq<Transaction>)
    requires ShapeAdmitted(s) && |code| > 0 && WordOutput(s, version, code, words).Some?
    requires Writes(trace) == ExpectedWrites(s, WordOutput(s, version, code, words).value, s.rows, 0)
    ensures Replay(trace, Zeros(OUTPUT_WORDS)) == WordOutput(s, version, code, words).value
    ensures forall i, j :: 0 <= i < j < |Writes(trace)| ==> Writes(trace)[i].address != Writes(trace)[j].address
  {
    var f := WordField(s, version, code, words);
    ReplayIgnoresReads(trace, Zeros(OUTPUT_WORDS));
    ReplayExpected(s, f, WordOutput(s, version, code, words).value, Zeros(OUTPUT_WORDS), s.rows, 0);
    FillDone(s, f, Replay(Writes(trace), Zeros(OUTPUT_WORDS)));
    WriteAddressesIncrease(s, WordOutput(s, version, code, words).value, s.rows, 0);
  }

  /** Per cell the loads' addresses in program order, then one write; replayed over a zeroed window, the output, no word written twice. */
  ghost predicate TransactionsOf(s: Shape, version: int, code: seq<int>, words: seq<int>, output: seq<int>, trace: seq<Transaction>)
    requires ShapeAdmitted(s)
  {
    && |output| == OUTPUT_WORDS && trace == ExpectedTrace(s, version, LoadWords(code), words, output, s.rows, 0)
    && |trace| == Times(Times(LoadCount(code) + 1, s.columns), s.rows)
    && Replay(trace, Zeros(OUTPUT_WORDS)) == output
    && forall i, j :: 0 <= i < j < |Writes(trace)| ==> Writes(trace)[i].address != Writes(trace)[j].address
  }

  method TransactRun(s: Shape, version: int, code: seq<int>, words: seq<int>, output: seq<int>) returns (trace: seq<Transaction>)
    requires ShapeAdmitted(s) && |code| > 0 && V.AllAcceptable(version, code) && WordOutput(s, version, code, words) == Some(output)
    ensures TransactionsOf(s, version, code, words, output, trace)
  {
    trace := ListTransactions(s, version, code, words, output);
    TransactionsReproduceOutput(s, version, code, words, trace);
  }

  /** The bus transactions of a run of the fallback on an image; refused and faulting runs have none. */
  method ExpectedTransactions(s: Shape, image: V.Image, sha: Digest, words: seq<int>) returns (r: Execution, trace: seq<Transaction>)
    requires ShapeAdmitted(s)
    ensures r.Refused? <==> !V.FallbackAccepts(image, sha) || |words| != INPUT_WORDS
    ensures !r.Refused? ==> |image.instructions| > 0 && |image.payload| > 1
    ensures !r.Refused? ==> r == match WordOutput(s, image.payload[1], image.instructions, words)
                                 case None => OutOfRange
                                 case Some(output) => Output(output)
    ensures if r.Output? then TransactionsOf(s, image.payload[1], image.instructions, words, r.words, trace) else trace == []
  {
    r := SoftwareFallback(s, image, sha, words);
    trace := [];
    if r.Output? {
      trace := TransactRun(s, image.payload[1], image.instructions, words, r.words);
    }
  }
}

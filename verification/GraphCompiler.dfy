/** Admission, scheduling, compilation and the two whole-output interpreters of the graph device. */
module GraphCompiler {
  import opened Base
  import opened Registers
  import opened RegisterMachine
  import opened Descriptor
  import opened Encoding
  import opened GraphMachine

  // ----- validate_descriptor -----

  method ScheduledNodes(nodes: seq<Node>) returns (r: Option<seq<Node>>)
    requires Distinct(Ids(nodes))
    ensures r.Some? <==> Scheduling.Closed(Dependencies(nodes)) && Scheduling.Acyclic(Dependencies(nodes))
    ensures r.Some? && Wired(nodes) ==> r.value == Scheduled(nodes)
  {
    var g := Dependencies(nodes);
    var order := Scheduling.ScheduledIds(g);
    Scheduling.ScheduleSucceedsIffAcyclic(g);
    if order.None? {
      return None;
    }
    assert forall x :: x in order.value ==> x in Ids(nodes) by {
      Scheduling.ScheduleIsTopological(g);
      forall x | x in order.value ensures x in Ids(nodes) {
        assert x in Elements(order.value);
      }
    }
    r := Some(Arrange(nodes, order.value));
  }

  /** The per-node pass: distinct well-formed identifiers, well-formed nodes, one store. */
  method CheckNodes(schema: Schema, nodes: seq<Node>) returns (ok: bool)
    requires |nodes| > 0
    ensures ok <==> && Distinct(Ids(nodes))
                    && (forall i :: 0 <= i < |nodes| ==> Identifier(nodes[i].id) && NodeFormed(schema, nodes[i]))
                    && (forall i :: 0 <= i < |nodes| ==> (nodes[i].kind == StoreU32 <==> i == |nodes| - 1))
  {
    var identifiers: set<string> := {};
    var stores, i := 0, 0;
    ghost var last := 0;
    while i < |nodes|
      invariant i <= |nodes|
      invariant identifiers == set j | 0 <= j < i :: nodes[j].id
      invariant forall j, k :: 0 <= j < k < i ==> nodes[j].id != nodes[k].id
      invariant forall j :: 0 <= j < i ==> Identifier(nodes[j].id) && NodeFormed(schema, nodes[j])
      invariant 0 <= stores <= 1 && (stores == 1 ==> 0 <= last < i && nodes[last].kind == StoreU32)
      invariant forall j :: 0 <= j < i && nodes[j].kind == StoreU32 ==> stores == 1 && j == last
    {
      var node := nodes[i];
      if !Identifier(node.id) || node.id in identifiers || !NodeFormed(schema, node) {
        if node.id in identifiers {
          var j :| 0 <= j < i && nodes[j].id == node.id;
          assert Ids(nodes)[j] == Ids(nodes)[i];
        }
        return false;
      }
      if node.kind == StoreU32 {
        if stores != 0 {
          return false;
        }
        stores, last := 1, i;
      }
      identifiers := identifiers + {node.id};
      i := i + 1;
    }
    ok := stores == 1 && nodes[|nodes| - 1].kind == StoreU32;
  }

  /** The operand pass: every operand is a known node and not a store. */
  method CheckOperands(nodes: seq<Node>) returns (ok: bool)
    ensures ok <==> forall i :: 0 <= i < |nodes| ==> OperandsDefined(nodes, nodes[i])
  {
    var i := 0;
    while i < |nodes|
      invariant i <= |nodes|
      invariant forall j :: 0 <= j < i ==> OperandsDefined(nodes, nodes[j])
    {
      var j := 0;
      while j < |nodes[i].inputs|
        invariant j <= |nodes[i].inputs|
        invariant forall u :: u in nodes[i].inputs[..j] ==> ValueNamed(nodes, u)
      {
        if !ValueNamed(nodes, nodes[i].inputs[j]) {
          assert !OperandsDefined(nodes, nodes[i]);
          return false;
        }
        j := j + 1;
      }
      assert nodes[i].inputs[..j] == nodes[i].inputs;
      i := i + 1;
    }
    ok := true;
  }

  method ValidateDescriptor(d: Descriptor) returns (ok: bool)
    ensures ok <==> Admitted(d)
  {
    if !Identifier(d.graphId) || !ShapeAdmitted(d.shape) || !(2 <= |d.nodes| <= CAPACITY) {
      return false;
    }
    ok := CheckNodes(d.schema, d.nodes);
    if ok {
      ok := CheckWiring(d.nodes);
    }
  }

  /** Defined operands and no cycle, once the nodes themselves are checked. */
  method CheckWiring(nodes: seq<Node>) returns (ok: bool)
    requires Distinct(Ids(nodes)) && forall i :: 0 <= i < |nodes| ==> (nodes[i].kind == StoreU32 <==> i == |nodes| - 1)
    ensures ok <==> Wired(nodes)
  {
    ok := CheckOperands(nodes);
    if ok {
      var order := ScheduledNodes(nodes);
      assert Scheduling.Closed(Dependencies(nodes)) by { OperandsAreListed(nodes); }
      ok := order.Some?;
    }
  }

  // ----- Whole outputs -----

  function CellAt(s: Shape, words: seq<int>, row: int, column: int): Cell {
    Cell(words, (row + 1) * s.inputStride + column + 1, s.inputStride)
  }

  /** The 256-word output window: cell (r, c) sits at r * outputStride + c, every other word is zero. */
  function Image(s: Shape, f: (int, int) -> int): (image: seq<int>)
    requires ShapeAdmitted(s)
    ensures |image| == OUTPUT_WORDS
  {
    seq(OUTPUT_WORDS, i requires 0 <= i < OUTPUT_WORDS =>
      if i / s.outputStride < s.rows && i % s.outputStride < s.columns then f(i / s.outputStride, i % s.outputStride) else 0)
  }

  predicate InShape(s: Shape, row: int, column: int) {
    0 <= row < s.rows && 0 <= column < s.columns
  }

  predicate NamedRowInWindow(s: Shape, nodes: seq<Node>, words: seq<int>, row: int) {
    forall c :: 0 <= c < s.columns ==> NodesInWindow(nodes, CellAt(s, words, row, c))
  }

  /** The value of every cell, by row and column. */
  function NamedField(s: Shape, nodes: seq<Node>, words: seq<int>): (int, int) -> int
    requires |nodes| > 0
  {
    (r: int, c: int) => NamedResult(nodes, CellAt(s, words, r, c))
  }

  function WordField(s: Shape, version: int, code: seq<int>, words: seq<int>): (int, int) -> int
    requires |code| > 0
  {
    (r: int, c: int) => WordResult(version, code, CellAt(s, words, r, c))
  }

  ghost function NamedImage(s: Shape, nodes: seq<Node>, words: seq<int>): Option<seq<int>>
    requires ShapeAdmitted(s) && |nodes| > 0
  {
    if forall r :: 0 <= r < s.rows ==> NamedRowInWindow(s, nodes, words, r)
    then Some(Image(s, NamedField(s, nodes, words)))
    else None
  }

  /** What the named graph writes, or `None` when some load falls outside the input. */
  ghost function NamedOutput(d: Descriptor, words: seq<int>): Option<seq<int>>
    requires Admitted(d)
  {
    NamedImage(d.shape, Scheduled(d.nodes), words)
  }

  predicate WordRowInWindow(s: Shape, version: int, code: seq<int>, words: seq<int>, row: int) {
    forall c :: 0 <= c < s.columns ==> WordsInWindow(version, code, CellAt(s, words, row, c))
  }

  /** What the instruction words write, or `None` when some load falls outside the input. */
  ghost function WordOutput(s: Shape, version: int, code: seq<int>, words: seq<int>): Option<seq<int>>
    requires ShapeAdmitted(s) && |code| > 0
  {
    if forall r :: 0 <= r < s.rows ==> WordRowInWindow(s, version, code, words, r)
    then Some(Image(s, WordField(s, version, code, words)))
    else None
  }

  // ----- compile_descriptor -----

  const MAGIC := 0x5250_4731
  const PAYLOAD_WORDS := 32

  /** SHA-256 of a word list, as eight words; its value is irrelevant here. */
  type Digest = h: seq<int> -> seq<int> | forall x :: |h(x)| == 8 && AllU32(h(x))
    witness x => [0, 0, 0, 0, 0, 0, 0, 0]

  function ProgramVersion(d: Descriptor): (version: int)
    ensures 1 <= version <= 6 && AddressForm(d.schema, version)
  {
    match d.schema
    case V5 => 6
    case V4 => 5
    case V3 => 4
    case V2 => 3
    case V1 => if exists i :: 0 <= i < |d.nodes| && d.nodes[i].kind == MaxU32 then 2 else 1
  }

  datatype Program = Program(shape: Shape, instructions: seq<int>, payload: seq<int>)

  function Payload(version: int, code: seq<int>, sha: Digest): (p: seq<int>)
    requires |code| <= CAPACITY
    ensures |p| == PAYLOAD_WORDS
  {
    [MAGIC, version, |code|, REGISTERS] + sha([|code|] + code) + code + Zeros(CAPACITY - |code|) + Zeros(4)
  }

  /** The words of a descriptor: its schedule under the lowest-free register assignment. */
  ghost predicate CompiledWith(d: Descriptor, p: Program, sha: Digest, dest: seq<nat>, sources: seq<seq<nat>>)
    requires Admitted(d)
  {
    var nodes := Scheduled(d.nodes);
    && LinearScan(Items(nodes), true, dest)
    && Lowers(d.schema, nodes, dest, sources, p.instructions)
    && p.shape == d.shape
    && |p.instructions| == |d.nodes|
    && p.payload == Payload(ProgramVersion(d), p.instructions, sha)
  }

  ghost predicate Compiled(d: Descriptor, p: Program, sha: Digest)
    requires Admitted(d)
  {
    exists dest, sources :: CompiledWith(d, p, sha, dest, sources)
  }

  datatype Compilation = Ok(program: Program) | InvalidDescriptor | TooManyLiveValues

  method EncodeAll(schema: Schema, nodes: seq<Node>, dest: seq<nat>, sources: seq<seq<nat>>) returns (code: seq<int>)
    requires |nodes| == |dest| == |sources| && NodesFormed(schema, nodes)
    requires forall k :: 0 <= k < |nodes| ==> |sources[k]| == |nodes[k].inputs|
    ensures |code| == |nodes| && forall k :: 0 <= k < |nodes| ==> code[k] == Encode(nodes[k], dest[k], sources[k])
  {
    code := [];
    while |code| < |nodes|
      invariant |code| <= |nodes|
      invariant forall k :: 0 <= k < |code| ==> code[k] == Encode(nodes[k], dest[k], sources[k])
    {
      var k := |code|;
      code := code + [Encode(nodes[k], dest[k], sources[k])];
    }
  }

  /** Rejects exactly the inadmissible descriptors and those that hold eight values at some definition. */
  method CompileDescriptor(d: Descriptor, sha: Digest) returns (r: Compilation, dest: seq<nat>, sources: seq<seq<nat>>)
    ensures r.InvalidDescriptor? <==> !Admitted(d)
    ensures r.TooManyLiveValues? <==> Admitted(d) && Overflows(Items(Scheduled(d.nodes)), true)
    ensures r.Ok? ==> Admitted(d) && CompiledWith(d, r.program, sha, dest, sources)
  {
    var ok := ValidateDescriptor(d);
    if !ok {
      return InvalidDescriptor, [], [];
    }
    var nodes := ScheduleAdmitted(d);
    var given, read := Assign(Items(nodes), true);
    if given.None? {
      return TooManyLiveValues, [], [];
    }
    dest, sources := given.value, read;
    forall k | 0 <= k < |nodes| ensures |sources[k]| == |nodes[k].inputs| {
      assert ReadsFrom(Items(nodes), dest, k, sources[k]);
    }
    var code := EncodeAll(d.schema, nodes, dest, sources);
    LinearScanIsSafe(Items(nodes), true, dest);
    r := Ok(Program(d.shape, code, Payload(ProgramVersion(d), code, sha)));
  }

  method ScheduleAdmitted(d: Descriptor) returns (nodes: seq<Node>)
    requires Admitted(d)
    ensures nodes == Scheduled(d.nodes) && |nodes| == |d.nodes| <= CAPACITY
    ensures SingleAssignment(Items(nodes)) && NodesFormed(d.schema, nodes)
  {
    var order := ScheduledNodes(d.nodes);
    OperandsAreListed(d.nodes);
    nodes := order.value;
    ScheduledIsProgram(d.nodes);
  }

  /**
    Compiler correctness: for every admitted descriptor that compiles and every input, the encoded words on
    eight reused registers produce exactly the output of the named graph, and fault exactly when it does.
   */
  lemma {:induction false} CompilerCorrect(d: Descriptor, p: Program, sha: Digest, words: seq<int>)
    requires Admitted(d) && Compiled(d, p, sha)
    ensures |p.instructions| > 0 && WordOutput(p.shape, ProgramVersion(d), p.instructions, words) == NamedOutput(d, words)
  {
    var dest, sources :| CompiledWith(d, p, sha, dest, sources);
    var nodes, version := Scheduled(d.nodes), ProgramVersion(d);
    forall r, c ensures CellsAgree(version, p.instructions, nodes, CellAt(d.shape, words, r, c)) {
      CellCorrect(d, p, sha, dest, sources, CellAt(d.shape, words, r, c));
    }
    OutputsAgree(d.shape, version, p.instructions, Scheduled(d.nodes), words);
  }

  ghost predicate CellsAgree(version: int, code: seq<int>, nodes: seq<Node>, cell: Cell)
    requires |code| > 0 && |nodes| > 0
  {
    && WordResult(version, code, cell) == NamedResult(nodes, cell)
    && (WordsInWindow(version, code, cell) <==> NodesInWindow(nodes, cell))
  }

  lemma {:induction false} RowsAgree(s: Shape, version: int, code: seq<int>, nodes: seq<Node>, words: seq<int>, r: int)
    requires |code| > 0 && |nodes| > 0
    requires forall c :: CellsAgree(version, code, nodes, CellAt(s, words, r, c))
    ensures WordRowInWindow(s, version, code, words, r) <==> NamedRowInWindow(s, nodes, words, r)
  {
  }

  lemma {:induction false} OutputsAgree(s: Shape, version: int, code: seq<int>, nodes: seq<Node>, words: seq<int>)
    requires ShapeAdmitted(s) && |code| > 0 && |nodes| > 0
    requires forall r, c :: CellsAgree(version, code, nodes, CellAt(s, words, r, c))
    ensures WordOutput(s, version, code, words) == NamedImage(s, nodes, words)
  {
    forall r ensures WordRowInWindow(s, version, code, words, r) <==> NamedRowInWindow(s, nodes, words, r) {
      RowsAgree(s, version, code, nodes, words, r);
    }
    ImagesAgree(s, WordField(s, version, code, words), NamedField(s, nodes, words));
  }

  lemma {:induction false} ImagesAgree(s: Shape, f: (int, int) -> int, g: (int, int) -> int)
    requires ShapeAdmitted(s) && forall r, c :: f(r, c) == g(r, c)
    ensures Image(s, f) == Image(s, g)
  {
  }

  lemma {:induction false} CellCorrect(d: Descriptor, p: Program, sha: Digest, dest: seq<nat>, sources: seq<seq<nat>>, cell: Cell)
    requires Admitted(d) && CompiledWith(d, p, sha, dest, sources)
    ensures CellsAgree(ProgramVersion(d), p.instructions, Scheduled(d.nodes), cell)
  {
    var nodes, version := Scheduled(d.nodes), ProgramVersion(d);
    assert forall k :: 0 <= k < |nodes| ==> (nodes[k].kind == StoreU32 <==> k == |nodes| - 1) by {
      ScheduledIsProgram(d.nodes);
    }
    CellLowered(d.schema, version, nodes, dest, sources, p.instructions, cell);
  }

  lemma {:induction false} CellLowered(schema: Schema, version: int, nodes: seq<Node>, dest: seq<nat>, sources: seq<seq<nat>>, code: seq<int>, cell: Cell)
    requires |nodes| > 0 && Lowers(schema, nodes, dest, sources, code) && AddressForm(schema, version)
    requires forall k :: 0 <= k < |nodes| ==> (nodes[k].kind == StoreU32 <==> k == |nodes| - 1)
    ensures |code| > 0 && CellsAgree(version, code, nodes, cell)
  {
    assert WordResult(version, code, cell) == NamedResult(nodes, cell) by { ResultsAgree(schema, version, nodes, dest, sources, code, cell); }
    assert WordsInWindow(version, code, cell) <==> NodesInWindow(nodes, cell) by {
      LoweredSites(schema, nodes, dest, sources, code);
      WindowsAgree(schema, version, nodes, dest, sources, code, cell);
    }
  }

  // ----- Where loads may fall -----

  /**
    The one admitted family that reads past the input: the last input word admission allows for is word 323,
    and a load one row down and one column right of the last cell addresses the word after it.
   */
  ghost predicate OverrunsInput(d: Descriptor) {
    && (d.shape.rows + 1) * d.shape.inputStride + d.shape.columns == INPUT_WORDS - 1
    && exists i :: 0 <= i < |d.nodes| && d.nodes[i].kind == LoadU32 && d.nodes[i].address == Some(Relative(1, 1))
  }

  /** A load of an admitted node at an admitted cell is inside the input, except in that family. */
  lemma {:induction false} LoadInWindow(s: Shape, schema: Schema, a: Address, words: seq<int>, r: int, c: int)
    requires ShapeAdmitted(s) && AddressAdmitted(schema, a) && |words| == INPUT_WORDS && InShape(s, r, c)
    ensures !InWindow(CellAt(s, words, r, c), Offset(a, s.inputStride)) <==>
              a == Relative(1, 1) && (s.rows + 1) * s.inputStride + s.columns == INPUT_WORDS - 1
              && r == s.rows - 1 && c == s.columns - 1
  {
    var stride := s.inputStride;
    RowStep(s, r);
    MulMonotone(0, r, stride);
    assert (r + 1) * stride == r * stride + stride && (r + 2) * stride == r * stride + 2 * stride && (r + 3) * stride == r * stride + 3 * stride;
    OffsetCases(schema, a, stride);
    WindowEdge(s, r, c, r * stride, (s.rows + 1) * stride, Offset(a, stride), a == Relative(1, 1));
  }

  /** The offsets an admitted address can have. */
  lemma {:induction false} OffsetCases(schema: Schema, a: Address, stride: int)
    requires AddressAdmitted(schema, a) && stride >= 3
    ensures -stride - 1 <= Offset(a, stride) <= stride + 1 && (Offset(a, stride) == stride + 1 <==> a == Relative(1, 1))
  {
    if a.Relative? {
      assert Times(stride, a.row) == (if a.row == -1 then -stride else if a.row == 0 then 0 else stride);
    }
  }

  /** Around the centre of a cell in row `up / stride` only the largest offset can leave the input, and only at the last cell. */
  lemma {:induction false} WindowEdge(s: Shape, r: int, c: int, up: int, top: int, offset: int, diagonal: bool)
    requires InShape(s, r, c) && up >= 0 && s.inputStride >= s.columns + 2 && top + s.columns < INPUT_WORDS
    requires up + 2 * s.inputStride <= top && (r < s.rows - 1 ==> up + 3 * s.inputStride <= top) && (r == s.rows - 1 ==> up + 2 * s.inputStride == top)
    requires -s.inputStride - 1 <= offset <= s.inputStride + 1 && (diagonal <==> offset == s.inputStride + 1)
    ensures !(0 <= up + s.inputStride + c + 1 + offset < INPUT_WORDS) <==>
            diagonal && top + s.columns == INPUT_WORDS - 1 && r == s.rows - 1 && c == s.columns - 1
  {
  }

  lemma {:induction false} RowStep(s: Shape, r: int)
    requires ShapeAdmitted(s) && 0 <= r < s.rows
    ensures (r + 2) * s.inputStride <= (s.rows + 1) * s.inputStride
    ensures r < s.rows - 1 ==> (r + 3) * s.inputStride <= (s.rows + 1) * s.inputStride
    ensures r == s.rows - 1 ==> (r + 2) * s.inputStride == (s.rows + 1) * s.inputStride
  {
    MulMonotone(r + 2, s.rows + 1, s.inputStride);
    if r < s.rows - 1 {
      MulMonotone(r + 3, s.rows + 1, s.inputStride);
    }
  }

  /** Every load is in range if and only if the descriptor is not of the overrunning family. */
  lemma {:induction false} OutputUndefinedIffOverrun(d: Descriptor, words: seq<int>)
    requires Admitted(d) && |words| == INPUT_WORDS
    ensures NamedOutput(d, words).None? <==> OverrunsInput(d)
  {
    var nodes, s := Scheduled(d.nodes), d.shape;
    if OverrunsInput(d) {
      assert !NodesInWindow(nodes, CellAt(s, words, s.rows - 1, s.columns - 1)) by {
        ScheduledIsProgram(d.nodes);
        CornerOverruns(d, nodes, words);
      }
      SomeCellMissing(s, nodes, words);
    } else {
      assert forall r, c :: InShape(s, r, c) ==> NodesInWindow(nodes, CellAt(s, words, r, c)) by {
        forall r, c | InShape(s, r, c) ensures NodesInWindow(nodes, CellAt(s, words, r, c)) {
          CellInWindow(d, words, r, c);
        }
      }
      EveryCellPresent(s, nodes, words);
    }
  }

  lemma {:induction false} SomeCellMissing(s: Shape, nodes: seq<Node>, words: seq<int>)
    requires ShapeAdmitted(s) && |nodes| > 0 && !NodesInWindow(nodes, CellAt(s, words, s.rows - 1, s.columns - 1))
    ensures NamedImage(s, nodes, words).None?
  {
    assert !NamedRowInWindow(s, nodes, words, s.rows - 1);
  }

  lemma {:induction false} EveryCellPresent(s: Shape, nodes: seq<Node>, words: seq<int>)
    requires ShapeAdmitted(s) && |nodes| > 0 && forall r, c :: InShape(s, r, c) ==> NodesInWindow(nodes, CellAt(s, words, r, c))
    ensures NamedImage(s, nodes, words).Some?
  {
    forall r | 0 <= r < s.rows ensures NamedRowInWindow(s, nodes, words, r) {
      forall c | 0 <= c < s.columns ensures NodesInWindow(nodes, CellAt(s, words, r, c)) {
        assert InShape(s, r, c);
      }
    }
  }

  lemma {:induction false} CornerOverruns(d: Descriptor, nodes: seq<Node>, words: seq<int>)
    requires ShapeAdmitted(d.shape) && NodesFormed(d.schema, d.nodes) && (forall x :: x in d.nodes ==> x in nodes)
    requires |words| == INPUT_WORDS && OverrunsInput(d)
    ensures !NodesInWindow(nodes, CellAt(d.shape, words, d.shape.rows - 1, d.shape.columns - 1))
  {
    var i :| 0 <= i < |d.nodes| && d.nodes[i].kind == LoadU32 && d.nodes[i].address == Some(Relative(1, 1));
    assert AddressAdmitted(d.schema, Relative(1, 1)) by { assert NodeFormed(d.schema, d.nodes[i]); }
    CornerMissed(d.shape, d.schema, nodes, d.nodes[i], words);
  }

  lemma {:induction false} CornerMissed(s: Shape, schema: Schema, nodes: seq<Node>, node: Node, words: seq<int>)
    requires ShapeAdmitted(s) && AddressAdmitted(schema, Relative(1, 1)) && |words| == INPUT_WORDS
    requires (s.rows + 1) * s.inputStride + s.columns == INPUT_WORDS - 1
    requires node in nodes && node.kind == LoadU32 && node.address == Some(Relative(1, 1))
    ensures !NodesInWindow(nodes, CellAt(s, words, s.rows - 1, s.columns - 1))
  {
    LoadInWindow(s, schema, Relative(1, 1), words, s.rows - 1, s.columns - 1);
    var k :| 0 <= k < |nodes| && nodes[k] == node;
    assert !NodeInWindow(nodes[k], CellAt(s, words, s.rows - 1, s.columns - 1));
  }

  lemma {:induction false} CellInWindow(d: Descriptor, words: seq<int>, r: int, c: int)
    requires Admitted(d) && |words| == INPUT_WORDS && !OverrunsInput(d) && InShape(d.shape, r, c)
    ensures NodesInWindow(Scheduled(d.nodes), CellAt(d.shape, words, r, c))
  {
    var nodes, s := Scheduled(d.nodes), d.shape;
    forall k | 0 <= k < |nodes| ensures NodeInWindow(nodes[k], CellAt(s, words, r, c)) {
      assert nodes[k] in d.nodes;
      var i :| 0 <= i < |d.nodes| && d.nodes[i] == nodes[k];
      LoadNodeInWindow(d, i, words, r, c);
    }
  }

  lemma {:induction false} LoadNodeInWindow(d: Descriptor, i: nat, words: seq<int>, r: int, c: int)
    requires ShapeAdmitted(d.shape) && NodesFormed(d.schema, d.nodes) && i < |d.nodes|
    requires |words| == INPUT_WORDS && !OverrunsInput(d) && InShape(d.shape, r, c)
    ensures NodeInWindow(d.nodes[i], CellAt(d.shape, words, r, c))
  {
    var node := d.nodes[i];
    if node.kind == LoadU32 {
      assert NodeFormed(d.schema, node);
      LoadInWindow(d.shape, d.schema, node.address.value, words, r, c);
    }
  }

  /** The family is not empty: admission accepts a one-row shape whose diagonal load misses the input by one word. */
  lemma {:induction false} AdmittedOverrun(words: seq<int>)
    requires |words| == INPUT_WORDS
    ensures var d := Descriptor(V2, "g", Shape(1, 1, 161, 1),
                                [Node("a", LoadU32, [], Some(Relative(1, 1)), None), Node("s", StoreU32, ["a"], None, None)]);
            Admitted(d) && NamedOutput(d, words).None?
  {
    var load, store := Node("a", LoadU32, [], Some(Relative(1, 1)), None), Node("s", StoreU32, ["a"], None, None);
    var nodes := [load, store];
    var d := Descriptor(V2, "g", Shape(1, 1, 161, 1), nodes);
    var g := Dependencies(nodes);
    assert nodes[0] == load && nodes[1] == store && g.ids == ["a", "s"];
    assert Wired(nodes) by {
      assert ValueNamed(nodes, "a");
      assert Distinct(Ids(nodes));
      PairIsAcyclic(nodes);
    }
    assert d.nodes[0].address == Some(Relative(1, 1));
    OutputUndefinedIffOverrun(d, words);
  }

  lemma {:induction false} PairIsAcyclic(nodes: seq<Node>)
    requires |nodes| == 2 && Ids(nodes) == ["a", "s"] && nodes[0].inputs == [] && nodes[1].inputs == ["a"]
    ensures Scheduling.Acyclic(Dependencies(nodes))
  {
    var g := Dependencies(nodes);
    assert Scheduling.Topological(g, g.ids) by {
      assert Position(g.ids, "a") == 0 && Position(g.ids, "s") == 1;
      assert g.deps["a"] == {} && g.deps["s"] == {"a"};
      assert g.ids[..1] == ["a"];
    }
    Scheduling.OrderedListingUnchanged(g);
    Scheduling.ScheduleSucceedsIffAcyclic(g);
  }

  // ----- graph_oracle and software_fallback -----

  /** Interpreter results: the 256 output words, a rejected argument, or a load outside the input. */
  datatype Execution = Output(words: seq<int>) | Refused | OutOfRange

  /** The output index of a cell, and back. */
  lemma {:induction false} CellIndex(s: Shape, r: int, c: int)
    requires ShapeAdmitted(s) && InShape(s, r, c)
    ensures 0 <= r * s.outputStride + c < OUTPUT_WORDS
    ensures (r * s.outputStride + c) / s.outputStride == r && (r * s.outputStride + c) % s.outputStride == c
  {
    MulMonotone(0, r, s.outputStride);
    MulMonotone(r, s.rows - 1, s.outputStride);
    DivisionOf(r, c, s.outputStride);
  }

  /** Word `i` of the output window when the cells before (row, column), in row-major order, have been written. */
  ghost predicate Word(s: Shape, f: (int, int) -> int, output: seq<int>, row: int, column: int, i: int)
    requires ShapeAdmitted(s) && 0 <= i < |output|
  {
    var r, c := i / s.outputStride, i % s.outputStride;
    output[i] == if c < s.columns && (r < row || (r == row && c < column)) then f(r, c) else 0
  }

  ghost predicate Filled(s: Shape, f: (int, int) -> int, output: seq<int>, row: int, column: int)
    requires ShapeAdmitted(s)
  {
    && |output| == OUTPUT_WORDS
    && forall i :: 0 <= i < OUTPUT_WORDS ==> Word(s, f, output, row, column, i)
  }

  lemma {:induction false} OtherIndex(s: Shape, row: int, column: int, i: int)
    requires ShapeAdmitted(s) && i != row * s.outputStride + column
    ensures !(i / s.outputStride == row && i % s.outputStride == column)
  {
    assert i == s.outputStride * (i / s.outputStride) + i % s.outputStride;
  }

  lemma {:induction false} FillCell(s: Shape, f: (int, int) -> int, output: seq<int>, row: int, column: int)
    requires ShapeAdmitted(s) && InShape(s, row, column) && Filled(s, f, output, row, column)
    ensures 0 <= row * s.outputStride + column < OUTPUT_WORDS
    ensures Filled(s, f, output[row * s.outputStride + column := f(row, column)], row, column + 1)
  {
    var at := row * s.outputStride + column;
    CellIndex(s, row, column);
    var next, after := output[at := f(row, column)], column + 1;
    forall i | 0 <= i < OUTPUT_WORDS ensures Word(s, f, next, row, after, i) {
      assert Word(s, f, output, row, column, i);
      if i != at {
        OtherIndex(s, row, column, i);
      }
    }
  }

  lemma {:induction false} FillRow(s: Shape, f: (int, int) -> int, output: seq<int>, row: int)
    requires ShapeAdmitted(s) && Filled(s, f, output, row, s.columns)
    ensures Filled(s, f, output, row + 1, 0)
  {
    var after := row + 1;
    forall i | 0 <= i < OUTPUT_WORDS ensures Word(s, f, output, after, 0, i) {
      assert Word(s, f, output, row, s.columns, i);
    }
  }

  lemma {:induction false} FillStart(s: Shape, f: (int, int) -> int)
    requires ShapeAdmitted(s)
    ensures Filled(s, f, Zeros(OUTPUT_WORDS), 0, 0)
  {
    var zeros := Zeros(OUTPUT_WORDS);
    forall i | 0 <= i < OUTPUT_WORDS ensures Word(s, f, zeros, 0, 0, i) {
      NonNegativeQuotient(i, s.outputStride);
    }
  }

  lemma {:induction false} NonNegativeQuotient(i: int, d: int)
    requires 0 <= i && 0 < d
    ensures 0 <= i / d
  {
  }

  lemma {:induction false} FillDone(s: Shape, f: (int, int) -> int, output: seq<int>)
    requires ShapeAdmitted(s) && Filled(s, f, output, s.rows, 0)
    ensures output == Image(s, f)
  {
    forall i | 0 <= i < OUTPUT_WORDS ensures output[i] == Image(s, f)[i] {
      assert Word(s, f, output, s.rows, 0, i);
    }
  }

  lemma {:induction false} EnvStep(nodes: seq<Node>, cell: Cell, k: nat)
    requires k < |nodes| && nodes[k].kind != StoreU32
    ensures var env := Env(Items(nodes), NodeMeaning(nodes, cell), k);
            Env(Items(nodes), NodeMeaning(nodes, cell), k + 1) == env[nodes[k].id := NodeValue(nodes[k], Arguments(env, nodes[k].inputs), cell)]
  {
  }

  predicate StoreLast(nodes: seq<Node>) {
    forall k :: 0 <= k < |nodes| ==> (nodes[k].kind == StoreU32 <==> k == |nodes| - 1)
  }

  /** Interprets the scheduled nodes at one cell with a dictionary of named values. */
  method NamedCell(nodes: seq<Node>, cell: Cell) returns (inRange: bool, result: int)
    requires |nodes| > 0 && StoreLast(nodes)
    ensures inRange <==> NodesInWindow(nodes, cell)
    ensures inRange ==> result == NamedResult(nodes, cell)
  {
    var values: map<string, int> := map[];
    var k := 0;
    while k < |nodes| - 1
      invariant 0 <= k <= |nodes| - 1
      invariant values == Env(Items(nodes), NodeMeaning(nodes, cell), k)
      invariant forall j :: 0 <= j < k ==> NodeInWindow(nodes[j], cell)
    {
      var node := nodes[k];
      if !NodeInWindow(node, cell) {
        return false, 0;
      }
      EnvStep(nodes, cell, k);
      values := values[node.id := NodeValue(node, Arguments(values, node.inputs), cell)];
      k := k + 1;
    }
    assert forall j :: 0 <= j < |nodes| ==> NodeInWindow(nodes[j], cell);
    inRange, result := true, NodeValue(nodes[k], Arguments(values, nodes[k].inputs), cell);
  }

  /** Interprets the words at one cell on eight registers. */
  method WordCell(version: int, code: seq<int>, cell: Cell) returns (inRange: bool, result: int)
    requires |code| > 0 && OpcodeOf(code[|code| - 1]) == STORE
    ensures inRange <==> WordsInWindow(version, code, cell)
    ensures inRange ==> result == WordResult(version, code, cell)
  {
    var file := [0, 0, 0, 0, 0, 0, 0, 0];
    var k := 0;
    while k < |code| - 1
      invariant 0 <= k <= |code| - 1
      invariant file == RunWords(version, code, cell, k)
      invariant forall j :: 0 <= j < k ==> WordInWindow(version, code[j], cell)
    {
      if !WordInWindow(version, code[k], cell) {
        return false, 0;
      }
      file := StepWord(version, code[k], file, cell);
      k := k + 1;
    }
    inRange, result := true, Register(file, DestinationOf(code[k]));
  }

  /** The named-graph interpreter over one row and over the whole shape. */
  method RunNamedRow(s: Shape, nodes: seq<Node>, words: seq<int>, row: int, before: seq<int>, ghost f: (int, int) -> int)
    returns (inRange: bool, output: seq<int>)
    requires ShapeAdmitted(s) && 0 <= row < s.rows && |nodes| > 0 && StoreLast(nodes)
    requires f == NamedField(s, nodes, words)
    requires Filled(s, f, before, row, 0)
    ensures inRange <==> NamedRowInWindow(s, nodes, words, row)
    ensures inRange ==> Filled(s, f, output, row + 1, 0)
  {
    output := before;
    var column := 0;
    while column < s.columns
      invariant 0 <= column <= s.columns && Filled(s, f, output, row, column)
      invariant forall c :: 0 <= c < column ==> NodesInWindow(nodes, CellAt(s, words, row, c))
    {
      var value;
      inRange, value := NamedCell(nodes, CellAt(s, words, row, column));
      if !inRange {
        return;
      }
      FillCell(s, f, output, row, column);
      output := output[row * s.outputStride + column := value];
      column := column + 1;
    }
    FillRow(s, f, output, row);
    inRange := true;
  }

  method RunNamed(s: Shape, nodes: seq<Node>, words: seq<int>) returns (r: Option<seq<int>>)
    requires ShapeAdmitted(s) && |nodes| > 0 && StoreLast(nodes)
    ensures r == NamedImage(s, nodes, words)
  {
    ghost var f := NamedField(s, nodes, words);
    var output := Zeros(OUTPUT_WORDS);
    var row := 0;
    FillStart(s, f);
    while row < s.rows
      invariant 0 <= row <= s.rows && Filled(s, f, output, row, 0)
      invariant forall r :: 0 <= r < row ==> NamedRowInWindow(s, nodes, words, r)
    {
      var inRange;
      inRange, output := RunNamedRow(s, nodes, words, row, output, f);
      if !inRange {
        return None;
      }
      row := row + 1;
    }
    FillDone(s, f, output);
    r := Some(output);
  }

  /** The word interpreter over one row and over the whole shape. */
  method RunProgramRow(s: Shape, version: int, code: seq<int>, words: seq<int>, row: int, before: seq<int>, ghost f: (int, int) -> int)
    returns (inRange: bool, output: seq<int>)
    requires ShapeAdmitted(s) && 0 <= row < s.rows && |code| > 0 && OpcodeOf(code[|code| - 1]) == STORE
    requires f == WordField(s, version, code, words)
    requires Filled(s, f, before, row, 0)
    ensures inRange <==> WordRowInWindow(s, version, code, words, row)
    ensures inRange ==> Filled(s, f, output, row + 1, 0)
  {
    output := before;
    var column := 0;
    while column < s.columns
      invariant 0 <= column <= s.columns && Filled(s, f, output, row, column)
      invariant forall c :: 0 <= c < column ==> WordsInWindow(version, code, CellAt(s, words, row, c))
    {
      var value;
      inRange, value := WordCell(version, code, CellAt(s, words, row, column));
      if !inRange {
        return;
      }
      FillCell(s, f, output, row, column);
      output := output[row * s.outputStride + column := value];
      column := column + 1;
    }
    FillRow(s, f, output, row);
    inRange := true;
  }

  method RunProgram(s: Shape, version: int, code: seq<int>, words: seq<int>) returns (r: Option<seq<int>>)
    requires ShapeAdmitted(s) && |code| > 0 && OpcodeOf(code[|code| - 1]) == STORE
    ensures r == WordOutput(s, version, code, words)
  {
    ghost var f := WordField(s, version, code, words);
    var output := Zeros(OUTPUT_WORDS);
    var row := 0;
    FillStart(s, f);
    while row < s.rows
      invariant 0 <= row <= s.rows && Filled(s, f, output, row, 0)
      invariant forall r :: 0 <= r < row ==> WordRowInWindow(s, version, code, words, r)
    {
      var inRange;
      inRange, output := RunProgramRow(s, version, code, words, row, output, f);
      if !inRange {
        return None;
      }
      row := row + 1;
    }
    FillDone(s, f, output);
    r := Some(output);
  }

  method GraphOracle(d: Descriptor, words: seq<int>) returns (r: Execution)
    ensures r.Refused? <==> !Admitted(d) || |words| != INPUT_WORDS
    ensures !r.Refused? ==> r == match NamedOutput(d, words) case None => OutOfRange case Some(image) => Output(image)
  {
    var ok := ValidateDescriptor(d);
    if !ok || |words| != INPUT_WORDS {
      return Refused;
    }
    var nodes := ScheduleAdmitted(d);
    assert StoreLast(nodes) by { ScheduledIsProgram(d.nodes); }
    var image := RunNamed(d.shape, nodes, words);
    r := match image case None => OutOfRange case Some(output) => Output(output);
  }
}

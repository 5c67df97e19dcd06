/**
  Two meanings of a graph at one output cell: the named-graph interpreter over node identifiers, and
  the instruction-word interpreter over eight registers.  Words that encode single-assignment nodes
  under a safe register assignment compute what the named graph computes.
 */
module GraphMachine {
  import opened Base
  import opened Registers
  import opened RegisterMachine
  import opened Descriptor
  import opened Encoding

  /** Where an output cell reads: the input words, its centre index and the row stride. */
  datatype Cell = Cell(words: seq<int>, center: int, stride: int)

  predicate InWindow(c: Cell, offset: int) {
    0 <= c.center + offset < |c.words|
  }

  function Sample(c: Cell, offset: int): int {
    if InWindow(c, offset) then c.words[c.center + offset] else 0
  }

  // ----- Named graph -----

  function Offset(a: Address, stride: int): int {
    match a
    case Compass(Center) => 0
    case Compass(North) => -stride
    case Compass(South) => stride
    case Compass(West) => -1
    case Compass(East) => 1
    case Relative(row, column) => Times(stride, row) + column
  }

  /** What a node computes from its operand values; a store passes its operand on. */
  function NodeValue(node: Node, args: seq<int>, c: Cell): int {
    if |args| != Arity(node.kind) then 0 else
      match node.kind
      case LoadU32 => if node.address.Some? then Sample(c, Offset(node.address.value, c.stride)) else 0
      case AddU32 => (args[0] + args[1]) % U32
      case MaxU32 => Max(args[0], args[1])
      case MulU32 => Times(args[0], args[1]) % U32
      case AddImmU32 => if node.immediate.Some? then (args[0] + node.immediate.value) % U32 else 0
      case GeImmU32 => if node.immediate.Some? && args[0] >= node.immediate.value then 1 else 0
      case StoreU32 => args[0]
  }

  function NodeMeaning(nodes: seq<Node>, c: Cell): Meaning {
    (i: nat, args: seq<int>) => if i < |nodes| then NodeValue(nodes[i], args, c) else 0
  }

  /** The value the named graph stores at a cell. */
  function NamedResult(nodes: seq<Node>, c: Cell): int
    requires |nodes| > 0
  {
    var n := |nodes| - 1;
    NodeValue(nodes[n], Arguments(Env(Items(nodes), NodeMeaning(nodes, c), n), nodes[n].inputs), c)
  }

  predicate NodeInWindow(node: Node, c: Cell) {
    node.kind == LoadU32 && node.address.Some? ==> InWindow(c, Offset(node.address.value, c.stride))
  }

  predicate NodesInWindow(nodes: seq<Node>, c: Cell) {
    forall k :: 0 <= k < |nodes| ==> NodeInWindow(nodes[k], c)
  }

  // ----- Instruction words -----

  /** Program versions 1 and 2 address the four neighbours, later versions carry signed deltas. */
  function WordOffset(version: int, w: int, stride: int): int {
    if version >= 3 then Times(stride, RowDeltaOf(w)) + ColumnDeltaOf(w)
    else match LeftOf(w)
      case 1 => -stride
      case 2 => stride
      case 3 => -1
      case 4 => 1
      case _ => 0
  }

  function WordValue(version: int, w: int, file: seq<int>, c: Cell): int {
    var left, right := Register(file, LeftOf(w)), Register(file, RightOf(w));
    match OpcodeOf(w)
    case 1 => Sample(c, WordOffset(version, w, c.stride))
    case 2 => (left + right) % U32
    case 4 => Max(left, right)
    case 5 => Times(left, right) % U32
    case 6 => (left + ImmediateOf(w)) % U32
    case 7 => if left >= ImmediateOf(w) then 1 else 0
    case _ => 0
  }

  function StepWord(version: int, w: int, file: seq<int>, c: Cell): (r: seq<int>)
    ensures |r| == |file|
  {
    if OpcodeOf(w) != STORE && DestinationOf(w) < |file|
    then file[DestinationOf(w) := WordValue(version, w, file, c)] else file
  }

  function RunWords(version: int, words: seq<int>, c: Cell, k: nat): (file: seq<int>)
    requires k <= |words|
    ensures |file| == REGISTERS
  {
    if k == 0 then [0, 0, 0, 0, 0, 0, 0, 0] else StepWord(version, words[k - 1], RunWords(version, words, c, k - 1), c)
  }

  /** The value the final store instruction writes. */
  function WordResult(version: int, words: seq<int>, c: Cell): int
    requires |words| > 0
  {
    Register(RunWords(version, words, c, |words| - 1), DestinationOf(words[|words| - 1]))
  }

  predicate WordInWindow(version: int, w: int, c: Cell) {
    OpcodeOf(w) == LOAD ==> InWindow(c, WordOffset(version, w, c.stride))
  }

  predicate WordsInWindow(version: int, words: seq<int>, c: Cell) {
    forall k :: 0 <= k < |words| ==> WordInWindow(version, words[k], c)
  }

  // ----- A lowering and its correctness at a cell -----

  /** Relative addressing exactly from program version 3 on. */
  predicate AddressForm(schema: Schema, version: int) {
    schema == V1 <==> version < 3
  }

  /** Words that encode the nodes under a register assignment that never loses a needed value. */
  ghost predicate Lowers(schema: Schema, nodes: seq<Node>, dest: seq<nat>, sources: seq<seq<nat>>, words: seq<int>) {
    && |nodes| == |dest| == |sources| == |words|
    && SingleAssignment(Items(nodes)) && NoClobber(Items(nodes), dest)
    && NodesFormed(schema, nodes)
    && (forall k :: 0 <= k < |nodes| ==> ReadsFrom(Items(nodes), dest, k, sources[k]))
    && forall k :: 0 <= k < |nodes| ==> words[k] == Encode(nodes[k], dest[k], sources[k])
  }

  /** A well-formed node, the registers it uses, and its word. */
  predicate Site(schema: Schema, node: Node, d: nat, sources: seq<nat>, word: int) {
    && NodeFormed(schema, node)
    && (node.kind != StoreU32 ==> d < REGISTERS)
    && |sources| == Arity(node.kind) && AllRegisters(sources)
    && word == Encode(node, d, sources)
  }

  ghost predicate Sites(schema: Schema, nodes: seq<Node>, dest: seq<nat>, sources: seq<seq<nat>>, words: seq<int>) {
    && |nodes| == |dest| == |sources| == |words|
    && forall k :: 0 <= k < |nodes| ==> Site(schema, nodes[k], dest[k], sources[k], words[k])
  }

  lemma {:induction false} LoweredSites(schema: Schema, nodes: seq<Node>, dest: seq<nat>, sources: seq<seq<nat>>, words: seq<int>)
    requires Lowers(schema, nodes, dest, sources, words)
    ensures Sites(schema, nodes, dest, sources, words)
  {
    var items := Items(nodes);
    forall k | 0 <= k < |nodes| ensures Site(schema, nodes[k], dest[k], sources[k], words[k]) {
      assert items[k].uses == nodes[k].inputs;
      SourcesAreRegisters(items, dest, k, sources[k]);
    }
  }

  lemma {:induction false} SourcesAreRegisters(items: seq<Item>, dest: seq<nat>, k: nat, sources: seq<nat>)
    requires SingleAssignment(items) && |dest| == |items| && NoClobber(items, dest)
    requires k < |items| && ReadsFrom(items, dest, k, sources)
    ensures AllRegisters(sources)
  {
    forall j | 0 <= j < |sources| ensures sources[j] < REGISTERS {
      assert DefinedBefore(items, k, items[k].uses[j]);
    }
  }

  lemma {:induction false} LoadFields(d: nat, a: Address)
    requires d < REGISTERS && (a.Relative? ==> -1 <= a.row <= 1 && -1 <= a.column <= 1)
    ensures var w := LOAD * BIT_28 + d * BIT_25 + AddressBits(a);
            && 0 <= w < U32 && OpcodeOf(w) == LOAD && DestinationOf(w) == d
            && (a.Compass? ==> LeftOf(w) == Selector(a.direction) && w % BIT_22 == 0)
            && (a.Relative? ==> RowDeltaOf(w) == a.row && ColumnDeltaOf(w) == a.column && w % BIT_15 == 0)
  {
    match a
    case Compass(direction) => CompassFields(d, direction);
    case Relative(row, column) => RelativeFields(d, row, column);
  }

  /** One word does to the register file what its node does to the operands it fetches. */
  lemma {:induction false} WordStep(schema: Schema, version: int, node: Node, d: nat, sources: seq<nat>, word: int, file: seq<int>, c: Cell)
    requires Site(schema, node, d, sources, word) && AddressForm(schema, version) && node.kind != StoreU32
    requires |file| == REGISTERS
    ensures StepWord(version, word, file, c) == file[d := NodeValue(node, Fetch(file, sources), c)]
  {
    match node.kind
    case LoadU32 => LoadFields(d, node.address.value);
    case AddU32 => BinaryFields(ADD, d, sources[0], sources[1]);
    case MaxU32 => BinaryFields(MAX, d, sources[0], sources[1]);
    case MulU32 => BinaryFields(MUL, d, sources[0], sources[1]);
    case AddImmU32 => ImmediateFields(ADD_IMM, d, sources[0], node.immediate.value);
    case GeImmU32 => ImmediateFields(GE_IMM, d, sources[0], node.immediate.value);
  }

  lemma {:induction false} WordFields(schema: Schema, version: int, node: Node, d: nat, sources: seq<nat>, word: int, stride: int)
    requires Site(schema, node, d, sources, word) && AddressForm(schema, version)
    ensures 0 <= word < U32 && OpcodeOf(word) == Opcode(node.kind)
    ensures DestinationOf(word) == (if node.kind == StoreU32 then sources[0] else d)
    ensures node.kind == LoadU32 ==> WordOffset(version, word, stride) == Offset(node.address.value, stride)
  {
    match node.kind
    case LoadU32 => LoadFields(d, node.address.value);
    case AddU32 => BinaryFields(ADD, d, sources[0], sources[1]);
    case MaxU32 => BinaryFields(MAX, d, sources[0], sources[1]);
    case MulU32 => BinaryFields(MUL, d, sources[0], sources[1]);
    case AddImmU32 => ImmediateFields(ADD_IMM, d, sources[0], node.immediate.value);
    case GeImmU32 => ImmediateFields(GE_IMM, d, sources[0], node.immediate.value);
    case StoreU32 => StoreFields(sources[0]);
  }

  /** Executing the words is executing the nodes on the register file. */
  lemma {:induction false} WordFollowsFile(schema: Schema, version: int, nodes: seq<Node>, dest: seq<nat>, sources: seq<seq<nat>>,
                                           words: seq<int>, c: Cell, p: nat, file: seq<int>)
    requires Sites(schema, nodes, dest, sources, words) && AddressForm(schema, version) && p < |nodes| && nodes[p].kind != StoreU32
    requires file == RunWords(version, words, c, p) == File(Items(nodes), dest, sources, NodeMeaning(nodes, c), p)
    ensures RunWords(version, words, c, p + 1) == File(Items(nodes), dest, sources, NodeMeaning(nodes, c), p + 1)
  {
    assert StepWord(version, words[p], file, c) == file[dest[p] := NodeValue(nodes[p], Fetch(file, sources[p]), c)] by {
      WordStep(schema, version, nodes[p], dest[p], sources[p], words[p], file, c);
    }
    FileStep(nodes, dest, sources, c, p);
  }

  lemma {:induction false} WordsFollowFile(schema: Schema, version: int, nodes: seq<Node>, dest: seq<nat>, sources: seq<seq<nat>>,
                                           words: seq<int>, c: Cell, k: nat)
    requires Sites(schema, nodes, dest, sources, words) && AddressForm(schema, version) && k <= |nodes|
    requires forall i :: 0 <= i < k ==> nodes[i].kind != StoreU32
    ensures RunWords(version, words, c, k) == File(Items(nodes), dest, sources, NodeMeaning(nodes, c), k)
  {
    if k > 0 {
      var p := k - 1;
      WordsFollowFile(schema, version, nodes, dest, sources, words, c, p);
      WordFollowsFile(schema, version, nodes, dest, sources, words, c, p, RunWords(version, words, c, p));
    }
  }

  lemma {:induction false} FileStep(nodes: seq<Node>, dest: seq<nat>, sources: seq<seq<nat>>, c: Cell, k: nat)
    requires k < |nodes| == |dest| == |sources| && nodes[k].kind != StoreU32 && dest[k] < REGISTERS
    ensures var file := File(Items(nodes), dest, sources, NodeMeaning(nodes, c), k);
            File(Items(nodes), dest, sources, NodeMeaning(nodes, c), k + 1) == file[dest[k] := NodeValue(nodes[k], Fetch(file, sources[k]), c)]
  {
  }

  /** Before each instruction, the registers it reads hold its named operand values. */
  lemma {:induction false} OperandsHeld(schema: Schema, version: int, nodes: seq<Node>, dest: seq<nat>, sources: seq<seq<nat>>,
                     words: seq<int>, c: Cell, k: nat)
    requires Lowers(schema, nodes, dest, sources, words) && AddressForm(schema, version) && k < |nodes|
    requires forall i :: 0 <= i < k ==> nodes[i].kind != StoreU32
    ensures Fetch(RunWords(version, words, c, k), sources[k])
            == Arguments(Env(Items(nodes), NodeMeaning(nodes, c), k), nodes[k].inputs)
  {
    LoweredSites(schema, nodes, dest, sources, words);
    WordsFollowFile(schema, version, nodes, dest, sources, words, c, k);
    OperandsAgree(Items(nodes), dest, sources, NodeMeaning(nodes, c), k);
  }

  /** At every cell the stored word is the value of the named graph. */
  lemma {:induction false} ResultsAgree(schema: Schema, version: int, nodes: seq<Node>, dest: seq<nat>, sources: seq<seq<nat>>, words: seq<int>, c: Cell)
    requires Lowers(schema, nodes, dest, sources, words) && AddressForm(schema, version) && |nodes| > 0
    requires forall k :: 0 <= k < |nodes| ==> (nodes[k].kind == StoreU32 <==> k == |nodes| - 1)
    ensures WordResult(version, words, c) == NamedResult(nodes, c)
  {
    var n := |nodes| - 1;
    assert Site(schema, nodes[n], dest[n], sources[n], words[n]) by {
      LoweredSites(schema, nodes, dest, sources, words);
    }
    assert Fetch(RunWords(version, words, c, n), sources[n])
        == Arguments(Env(Items(nodes), NodeMeaning(nodes, c), n), nodes[n].inputs) by {
      OperandsHeld(schema, version, nodes, dest, sources, words, c, n);
    }
    FinalStore(schema, version, nodes, dest[n], sources[n], words, c);
  }

  lemma {:induction false} FinalStore(schema: Schema, version: int, nodes: seq<Node>, d: nat, sources: seq<nat>, words: seq<int>, c: Cell)
    requires |nodes| == |words| > 0 && nodes[|nodes| - 1].kind == StoreU32
    requires Site(schema, nodes[|nodes| - 1], d, sources, words[|nodes| - 1])
    requires Fetch(RunWords(version, words, c, |nodes| - 1), sources)
             == Arguments(Env(Items(nodes), NodeMeaning(nodes, c), |nodes| - 1), nodes[|nodes| - 1].inputs)
    ensures WordResult(version, words, c) == NamedResult(nodes, c)
  {
    StoreFields(sources[0]);
  }

  /** Both interpreters touch the same input words. */
  lemma {:induction false} WindowsAgree(schema: Schema, version: int, nodes: seq<Node>, dest: seq<nat>, sources: seq<seq<nat>>, words: seq<int>, c: Cell)
    requires Sites(schema, nodes, dest, sources, words) && AddressForm(schema, version)
    ensures WordsInWindow(version, words, c) <==> NodesInWindow(nodes, c)
  {
    forall k | 0 <= k < |nodes|
      ensures WordInWindow(version, words[k], c) <==> NodeInWindow(nodes[k], c)
    {
      WordFields(schema, version, nodes[k], dest[k], sources[k], words[k], c.stride);
    }
  }
}

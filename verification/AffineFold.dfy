/**
  Affine map/fold regions: single-assignment map nodes over affine views of (i, j, k), folded over k.
  A region is lowered to a 65-word configuration that a small machine executes on eight registers;
  the region also has a direct interpreter over named values.
 */
module AffineFold {
  import opened Base
  import opened Registers
  import opened RegisterMachine
  import opened Encoding

  datatype MapOp = LoadOp | AddOp | MaxOp | MulOp | AddImmOp | GeImmOp

  datatype MapNode = MapNode(id: string, op: MapOp, args: seq<string>, view: Option<string>, imm: Option<int>)

  datatype View = View(buffer: int, base: int, si: int, sj: int, sk: int)

  datatype NamedView = NamedView(name: string, view: View)

  datatype Fold = SumFold | MaxFold

  /** `views` lists the view dictionary in its insertion order. */
  datatype Region = Region(rows: int, columns: int, extent: int, fold: Fold, lengthA: int, lengthB: int,
                           views: seq<NamedView>, nodes: seq<MapNode>, result: string)

  const FOLD_MAGIC := 0x4D46_3031
  const CONFIG_WORDS := 65

  function ViewNames(r: Region): (names: seq<string>)
    ensures |names| == |r.views| && forall v :: 0 <= v < |names| ==> names[v] == r.views[v].name
  {
    seq(|r.views|, v requires 0 <= v < |r.views| => r.views[v].name)
  }

  // ----- Admission -----

  function OpArity(op: MapOp): nat {
    match op
    case LoadOp => 0
    case AddOp | MaxOp | MulOp => 2
    case AddImmOp | GeImmOp => 1
  }

  predicate Immediate(op: MapOp) {
    op == AddImmOp || op == GeImmOp
  }

  /** The fields a node must have for its operation. */
  predicate NodeShaped(r: Region, node: MapNode) {
    && node.id != "" && |node.args| == OpArity(node.op)
    && (if node.op == LoadOp then node.view.Some? && node.view.value in ViewNames(r) else node.view.None?)
    && (if Immediate(node.op) then node.imm.Some? && 0 <= node.imm.value < BIT_22 else node.imm.None?)
  }

  /** The map nodes followed by the yield of the result, as allocation sees them. */
  function FoldItems(r: Region): (items: seq<Item>)
    ensures |items| == |r.nodes| + 1
    ensures forall k :: 0 <= k < |r.nodes| ==> items[k] == Item(r.nodes[k].id, r.nodes[k].args, true)
    ensures items[|r.nodes|] == Item("", [r.result], false)
  {
    seq(|r.nodes|, k requires 0 <= k < |r.nodes| => Item(r.nodes[k].id, r.nodes[k].args, true)) + [Item("", [r.result], false)]
  }

  ghost predicate Formed(r: Region) {
    && 1 <= |r.views| <= 8 && 1 <= |r.nodes| <= 15
    && (forall k :: 0 <= k < |r.nodes| ==> NodeShaped(r, r.nodes[k]))
    && SingleAssignment(FoldItems(r))
  }

  function Length(r: Region, buffer: int): int {
    if buffer == 0 then r.lengthA else r.lengthB
  }

  /** The address a view computes at a point. */
  function AddressAt(v: View, i: int, j: int, k: int): int {
    v.base + v.si * i + v.sj * j + v.sk * k
  }

  predicate ViewBounded(r: Region, v: View) {
    && 0 <= v.buffer <= 1
    && 0 <= v.base <= 323 && 0 <= v.si <= 323 && 0 <= v.sj <= 323 && 0 <= v.sk <= 323
    && AddressAt(v, r.rows - 1, r.columns - 1, r.extent - 1) < Length(r, v.buffer)
  }

  ghost predicate Bounded(r: Region) {
    && 1 <= r.rows <= 16 && 1 <= r.columns <= 16 && 1 <= r.extent <= 64
    && 0 <= r.lengthA <= 324 && 0 <= r.lengthB <= 324
    && forall v :: 0 <= v < |r.views| ==> ViewBounded(r, r.views[v].view)
  }

  /** What `compile_region` accepts. */
  ghost predicate Admitted(r: Region) {
    Formed(r) && Bounded(r) && !Overflows(FoldItems(r), false)
  }

  predicate InPoint(r: Region, i: int, j: int, k: int) {
    0 <= i < r.rows && 0 <= j < r.columns && 0 <= k < r.extent
  }

  /** The single corner check keeps every address of a view inside its input. */
  lemma {:induction false} ViewInRange(r: Region, v: View, i: int, j: int, k: int)
    requires ViewBounded(r, v) && InPoint(r, i, j, k)
    ensures 0 <= AddressAt(v, i, j, k) < Length(r, v.buffer)
  {
    MulMonotone(0, i, v.si);
    MulMonotone(0, j, v.sj);
    MulMonotone(0, k, v.sk);
    MulMonotone(i, r.rows - 1, v.si);
    MulMonotone(j, r.columns - 1, v.sj);
    MulMonotone(k, r.extent - 1, v.sk);
  }

  // ----- Named meaning (reference) -----

  datatype Point = Point(inputs: (seq<int>, seq<int>), i: int, j: int, k: int)

  function Input(p: Point, buffer: int): seq<int> {
    if buffer == 0 then p.inputs.0 else p.inputs.1
  }

  function ReadView(v: View, p: Point): int {
    var a, data := AddressAt(v, p.i, p.j, p.k), Input(p, v.buffer);
    if 0 <= a < |data| then data[a] else 0
  }

  function MapValue(r: Region, node: MapNode, args: seq<int>, p: Point): int {
    if |args| != OpArity(node.op) then 0 else
      match node.op
      case LoadOp => if node.view.Some? && node.view.value in ViewNames(r)
                     then ReadView(r.views[Position(ViewNames(r), node.view.value)].view, p) % U32 else 0
      case AddOp => (args[0] + args[1]) % U32
      case MaxOp => Max(args[0], args[1]) % U32
      case MulOp => Times(args[0], args[1]) % U32
      case AddImmOp => if node.imm.Some? then (args[0] + node.imm.value) % U32 else 0
      case GeImmOp => if node.imm.Some? && args[0] >= node.imm.value then 1 else 0
  }

  function MapMeaning(r: Region, p: Point): Meaning {
    (i: nat, args: seq<int>) => if i < |r.nodes| then MapValue(r, r.nodes[i], args, p) else 0
  }

  /** The value the map yields at a point. */
  function MapResult(r: Region, p: Point): int {
    Lookup(Env(FoldItems(r), MapMeaning(r, p), |r.nodes|), r.result)
  }

  function Combine(fold: Fold, acc: int, v: int): int {
    match fold case SumFold => (acc + v) % U32 case MaxFold => Max(acc, v)
  }

  /** The fold of the first `k` terms, seeded with zero. */
  function Folded(fold: Fold, term: int -> int, k: nat): int {
    if k == 0 then 0 else Combine(fold, Folded(fold, term, k - 1), term(k - 1))
  }

  function MapTerm(r: Region, inputs: (seq<int>, seq<int>), i: int, j: int): int -> int {
    (k: int) => MapResult(r, Point(inputs, i, j, k))
  }

  function ReferenceField(r: Region, inputs: (seq<int>, seq<int>)): (int, int) -> int {
    (i: int, j: int) => if r.extent >= 0 then Folded(r.fold, MapTerm(r, inputs, i, j), r.extent) else 0
  }

  // ----- The configuration machine -----

  function ViewAt(c: seq<int>, v: nat): View
    requires |c| == CONFIG_WORDS && v < 8
  {
    View(c[9 + 5 * v], c[10 + 5 * v], c[11 + 5 * v], c[12 + 5 * v], c[13 + 5 * v])
  }

  function FoldWordValue(c: seq<int>, w: int, file: seq<int>, p: Point): int
    requires |c| == CONFIG_WORDS
  {
    var a, b := Register(file, LeftOf(w)), Register(file, RightOf(w));
    match OpcodeOf(w)
    case 1 => ReadView(ViewAt(c, LeftOf(w)), p)
    case 2 => (a + b) % U32
    case 4 => Max(a, b)
    case 5 => Times(a, b) % U32
    case 6 => (a + ImmediateOf(w)) % U32
    case 7 => if a >= ImmediateOf(w) then 1 else 0
    case _ => 0
  }

  /** The register file after `pc` instructions; a yield leaves it alone. */
  function RunFold(c: seq<int>, p: Point, pc: nat): (file: seq<int>)
    requires |c| == CONFIG_WORDS && pc <= 16
    ensures |file| == REGISTERS
  {
    if pc == 0 then [0, 0, 0, 0, 0, 0, 0, 0]
    else
      var file, w := RunFold(c, p, pc - 1), c[48 + pc];
      if OpcodeOf(w) == 3 then file else file[DestinationOf(w) := FoldWordValue(c, w, file, p)]
  }

  /** The value the final yield passes to the accumulator. */
  function YieldAt(c: seq<int>, p: Point): int
    requires |c| == CONFIG_WORDS && 1 <= c[8] <= 16
  {
    Register(RunFold(c, p, c[8] - 1), LeftOf(c[48 + c[8]]))
  }

  function YieldTerm(c: seq<int>, inputs: (seq<int>, seq<int>), i: int, j: int): int -> int
    requires |c| == CONFIG_WORDS && 1 <= c[8] <= 16
  {
    (k: int) => YieldAt(c, Point(inputs, i, j, k))
  }

  function MachineField(c: seq<int>, inputs: (seq<int>, seq<int>)): (int, int) -> int
    requires |c| == CONFIG_WORDS && 1 <= c[8] <= 16
  {
    (i: int, j: int) => if c[3] >= 0 then Folded(if c[4] == 0 then SumFold else MaxFold, YieldTerm(c, inputs, i, j), c[3]) else 0
  }
}

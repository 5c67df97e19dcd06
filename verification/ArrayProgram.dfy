/**
  Whole-array programs: named stages, each a map/fold kernel over views of earlier planes, and the per-cell meaning
  of a grid source whose inputs are bound to planes.
 */
module ArrayProgram {
  import opened Base
  import opened Tables

  /** Names of nodes and views: those of the source program, and those the planner makes up (a0, out, e0, n0, v0). */
  datatype Name = Text(text: string) | Arg(a: nat) | Out | Extra(e: nat) | Inner(n: nat) | Slot(v: nat)

  datatype Op = Load | Add | Mul | Maximum | MaxI32 | ReluI32 | AddImm | GeImm

  datatype Node = Node(id: Name, op: Op, args: seq<Name>, view: Name, imm: int)

  /** One coordinate of a view as an affine function of the cell and the fold step. */
  datatype Axis = Axis(offset: int, row: int, column: int, step: int)

  datatype View = View(input: nat, vertical: Axis, horizontal: Axis)

  datatype Boundary = Zero | Clamp | Wrap

  datatype Plane = Plane(rows: nat, columns: nat, words: seq<int>)

  datatype Map = Map(nodes: seq<Node>, result: Name)

  datatype Kernel = Kernel(extent: nat, sum: bool, views: map<Name, View>, body: Map)

  /** A grid source with its inputs bound. */
  datatype Grid = Grid(inputs: seq<Plane>, rows: nat, columns: nat, boundary: Boundary, kernel: Kernel, post: Option<Map>)

  datatype Input = Literal(plane: Plane) | From(stage: string)

  datatype Stage = Stage(name: string, inputs: seq<Input>, rows: nat, columns: nat, boundary: Boundary, kernel: Kernel, post: Option<Map>)

  datatype Program = Program(stages: map<string, Stage>, outputs: seq<string>)

  // ----- One cell -----

  function Arity(op: Op): nat {
    match op
    case Load => 0
    case Add | Mul | Maximum | MaxI32 => 2
    case ReluI32 | AddImm | GeImm => 1
  }

  function Signed(a: int): int {
    if a < 0x8000_0000 then a else a - U32
  }

  /** The word an operation computes before masking. */
  function OpWord(op: Op, args: seq<int>, imm: int, loaded: int): int {
    if |args| < Arity(op) then 0 else
      match op
      case Load => loaded
      case Add => args[0] + args[1]
      case Mul => Times(args[0], args[1])
      case Maximum => Max(args[0], args[1])
      case MaxI32 => Max(Signed(args[0]), Signed(args[1]))
      case ReluI32 => Max(0, Signed(args[0]))
      case AddImm => args[0] + imm
      case GeImm => if args[0] >= imm then 1 else 0
  }

  function ValueOf(values: map<Name, int>, n: Name): int {
    if n in values then values[n] else 0
  }

  function ValuesOf(values: map<Name, int>, names: seq<Name>): (r: seq<int>)
    ensures |r| == |names| && forall i :: 0 <= i < |names| ==> r[i] == ValueOf(values, names[i])
  {
    seq(|names|, i requires 0 <= i < |names| => ValueOf(values, names[i]))
  }

  type Loader = Name -> int

  function NodeWord(node: Node, values: map<Name, int>, load: Loader): (w: int)
    ensures 0 <= w < U32
  {
    OpWord(node.op, ValuesOf(values, node.args), node.imm, load(node.view)) % U32
  }

  /** The values of the first `k` nodes. */
  function Values(nodes: seq<Node>, load: Loader, k: nat): map<Name, int>
    requires k <= |nodes|
  {
    if k == 0 then map[]
    else
      var before := Values(nodes, load, k - 1);
      before[nodes[k - 1].id := NodeWord(nodes[k - 1], before, load)]
  }

  function MapWord(m: Map, load: Loader): int {
    ValueOf(Values(m.nodes, load, |m.nodes|), m.result)
  }

  function Cell(p: Plane, r: int, c: int): int {
    var n := Index(p.columns, r, c);
    if 0 <= n < |p.words| then p.words[n] else 0
  }

  function Clamped(x: int, size: nat): int {
    if x < 0 || size == 0 then 0 else if x >= size then size - 1 else x
  }

  /** The remainder of `x` by `size`, reached by whole turns. */
  function Wrapped(x: int, size: nat): int
    decreases if x < 0 then -x else x
  {
    if size == 0 then 0
    else if x >= size then Wrapped(x - size, size)
    else if x + size < 0 then Wrapped(x + size, size)
    else if x < 0 then x + size
    else x
  }

  /** The wrapped coordinate is the one coordinate in range that differs by whole turns. */
  lemma {:induction false} WrappedIsRemainder(x: int, size: nat) returns (turns: int)
    requires size > 0
    ensures 0 <= Wrapped(x, size) < size && x == Times(size, turns) + Wrapped(x, size)
    decreases if x < 0 then -x else x
  {
    if x >= size {
      turns := WrappedIsRemainder(x - size, size);
      turns := turns + 1;
    } else if x + size < 0 {
      turns := WrappedIsRemainder(x + size, size);
      turns := turns - 1;
    } else {
      turns := if x < 0 then -1 else 0;
    }
    TimesIsProduct(size, turns);
    TimesIsProduct(size, turns - 1);
    TimesIsProduct(size, turns + 1);
  }

  function Sample(p: Plane, r: int, c: int, boundary: Boundary): int {
    match boundary
    case Zero => if 0 <= r < p.rows && 0 <= c < p.columns then Cell(p, r, c) else 0
    case Clamp => Cell(p, Clamped(r, p.rows), Clamped(c, p.columns))
    case Wrap => Cell(p, Wrapped(r, p.rows), Wrapped(c, p.columns))
  }

  /** The coordinate an axis reads at a cell and fold step. */
  function Along(a: Axis, r: int, c: int, k: int): int {
    a.offset + Times(a.row, r) + Times(a.column, c) + Times(a.step, k)
  }

  function SampleView(v: View, inputs: seq<Plane>, boundary: Boundary, r: int, c: int, k: int): int {
    if v.input < |inputs| then
      Sample(inputs[v.input], Along(v.vertical, r, c, k), Along(v.horizontal, r, c, k), boundary)
    else 0
  }

  function Sampler(g: Grid, r: int, c: int, k: int): Loader {
    (v: Name) => if v in g.kernel.views then SampleView(g.kernel.views[v], g.inputs, g.boundary, r, c, k) else 0
  }

  function Constant(word: int): Loader {
    (_: Name) => word
  }

  function Accumulated(sum: bool, acc: int, term: int): int {
    if sum then (acc + term) % U32 else Max(acc, term)
  }

  /** The fold of the first `k` terms at a cell, seeded with zero. */
  function FoldedTo(g: Grid, r: int, c: int, k: nat): int {
    if k == 0 then 0 else Accumulated(g.kernel.sum, FoldedTo(g, r, c, k - 1), MapWord(g.kernel.body, Sampler(g, r, c, k - 1)))
  }

  function CellWord(g: Grid, r: int, c: int): int {
    var acc := FoldedTo(g, r, c, g.kernel.extent);
    if g.post.None? then acc else MapWord(g.post.value, Constant(acc))
  }

  function CellField(g: Grid): (int, int) -> int {
    (r: int, c: int) => CellWord(g, r, c)
  }

  /** The plane a bound grid source evaluates to. */
  function EvalGrid(g: Grid): Plane {
    Plane(g.rows, g.columns, Table(g.rows, g.columns, CellField(g)))
  }

  // ----- Whole programs -----

  function InputPlane(i: Input, planes: map<string, Plane>): Plane {
    match i
    case Literal(p) => p
    case From(n) => if n in planes then planes[n] else Plane(0, 0, [])
  }

  function BoundStage(s: Stage, planes: map<string, Plane>): Grid {
    Grid(seq(|s.inputs|, i requires 0 <= i < |s.inputs| => InputPlane(s.inputs[i], planes)),
         s.rows, s.columns, s.boundary, s.kernel, s.post)
  }

  /** The planes of the first `k` stages of an order, each evaluated from the source. */
  function StagePlanes(p: Program, order: seq<string>, k: nat): map<string, Plane>
    requires k <= |order|
  {
    if k == 0 then map[]
    else
      var before := StagePlanes(p, order, k - 1);
      if order[k - 1] in p.stages then before[order[k - 1] := EvalGrid(BoundStage(p.stages[order[k - 1]], before))] else before
  }

  datatype Published = Published(name: string, plane: Plane)

  /** What a program publishes: its outputs as the source evaluates them. */
  function Meaning(p: Program, order: seq<string>): (r: seq<Published>) {
    var planes := StagePlanes(p, order, |order|);
    seq(|p.outputs|, i requires 0 <= i < |p.outputs| =>
      Published(p.outputs[i], if p.outputs[i] in planes then planes[p.outputs[i]] else Plane(0, 0, [])))
  }

  // ----- Formed programs -----

  predicate NodeFormed(nodes: seq<Node>, j: nat, views: set<Name>)
    requires j < |nodes|
  {
    var n := nodes[j];
    && (forall i :: 0 <= i < j ==> nodes[i].id != n.id)
    && |n.args| == Arity(n.op)
    && (n.op == Load ==> n.view in views)
    && ((n.op == AddImm || n.op == GeImm) ==> 0 <= n.imm < 0x40_0000)
    && forall a :: a in n.args ==> exists i :: 0 <= i < j && nodes[i].id == a
  }

  predicate MapFormed(m: Map, views: set<Name>) {
    && 1 <= |m.nodes| <= 128
    && (forall j {:trigger NodeFormed(m.nodes, j, views)} :: 0 <= j < |m.nodes| ==> NodeFormed(m.nodes, j, views))
    && exists j :: 0 <= j < |m.nodes| && m.nodes[j].id == m.result
  }

  predicate AxisFormed(a: Axis) {
    -63 <= a.offset <= 63 && 0 <= a.row <= 63 && 0 <= a.column <= 63 && 0 <= a.step <= 63
  }

  predicate ViewFormed(v: View, inputs: nat) {
    v.input < inputs && AxisFormed(v.vertical) && AxisFormed(v.horizontal)
  }

  predicate PlaneFormed(p: Plane) {
    1 <= p.rows <= 64 && 1 <= p.columns <= 64 && |p.words| == p.rows * p.columns && AllU32(p.words)
  }

  /** The one view name a post map reads. */
  const REDUCED := Text("reduced")

  predicate StageFormed(s: Stage, stages: set<string>) {
    && 1 <= |s.inputs| <= 8 && 1 <= s.rows <= 64 && 1 <= s.columns <= 64
    && (forall i :: 0 <= i < |s.inputs| ==> if s.inputs[i].Literal? then PlaneFormed(s.inputs[i].plane) else s.inputs[i].stage in stages)
    && 1 <= s.kernel.extent <= 64 && 1 <= |s.kernel.views| <= 8
    && (forall v :: v in s.kernel.views ==> ViewFormed(s.kernel.views[v], |s.inputs|))
    && MapFormed(s.kernel.body, s.kernel.views.Keys)
    && (s.post.Some? ==> MapFormed(s.post.value, {REDUCED}))
  }

  function NodeCount(s: Stage): nat {
    |s.kernel.body.nodes| + if s.post.Some? then |s.post.value.nodes| else 0
  }

  /** The source nodes of the listed stages. */
  function TotalNodes(p: Program, names: seq<string>): nat {
    if names == [] then 0
    else (if names[0] in p.stages then NodeCount(p.stages[names[0]]) else 0) + TotalNodes(p, names[1..])
  }

  /** A name the source gives a node or a view. */
  predicate NameFormed(n: Name) {
    n.Text? && 1 <= |n.text| <= 128
  }

  predicate NodesNamed(m: Map) {
    forall j :: 0 <= j < |m.nodes| ==> NameFormed(m.nodes[j].id)
  }

  predicate NamesFormed(s: Stage) {
    && (forall v :: v in s.kernel.views ==> NameFormed(v)) && NodesNamed(s.kernel.body)
    && (s.post.Some? ==> NodesNamed(s.post.value))
  }

  predicate StageAdmitted(p: Program, n: string)
    requires n in p.stages
  {
    ProjectName(n) && p.stages[n].name == n && NamesFormed(p.stages[n]) && StageFormed(p.stages[n], p.stages.Keys)
  }

  predicate OutputAdmitted(p: Program, i: nat)
    requires i < |p.outputs|
  {
    p.outputs[i] in p.stages && p.outputs[i] !in p.outputs[..i]
  }

  predicate ProgramFormed(p: Program) {
    && 1 <= |p.stages| <= 8 && 1 <= |p.outputs| <= 8
    && (forall n {:trigger StageAdmitted(p, n)} :: n in p.stages ==> StageAdmitted(p, n))
    && (forall i {:trigger OutputAdmitted(p, i)} :: 0 <= i < |p.outputs| ==> OutputAdmitted(p, i))
  }
}

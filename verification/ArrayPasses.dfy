/**
  Passes of a materialised array program: each binds planes to a grid source and adds one plane.  Their meaning without
  release, and the execution that releases every plane after its last use.
 */
module ArrayPasses {
  import opened Base
  import opened Tables
  import opened ArrayProgram

  datatype Gather = Gather(stage: string, view: Name, k: nat)

  datatype BlockInput = FromPlane(plane: nat) | Gathered(gather: Gather, args: seq<nat>)

  /** Planes are named by the index of the pass that makes them. */
  datatype Work =
    | GatherLoad(gather: Gather, args: seq<nat>)
    | Apply(op: Op, args: seq<nat>, imm: int)
    | Fused(stage: string, producers: map<string, nat>)
    | Block(inputs: seq<BlockInput>, nodes: seq<Node>, result: Name, scalarPasses: nat)

  datatype Pass = Pass(rows: nat, columns: nat, work: Work)

  /** Planes by number. */
  type Planes = seq<Plane>

  function PlaneAt(planes: Planes, n: nat): Plane {
    if n < |planes| then planes[n] else Plane(0, 0, [])
  }

  function InputRefs(i: BlockInput): set<nat> {
    match i case FromPlane(n) => {n} case Gathered(_, args) => Elements(args)
  }

  function BlockRefs(inputs: seq<BlockInput>): (r: set<nat>)
    ensures forall i :: 0 <= i < |inputs| ==> InputRefs(inputs[i]) <= r
    ensures forall n :: n in r ==> exists i :: 0 <= i < |inputs| && n in InputRefs(inputs[i])
  {
    if inputs == [] then {} else
      var rest := BlockRefs(inputs[1..]);
      assert forall i :: 1 <= i < |inputs| ==> inputs[i] == inputs[1..][i - 1];
      InputRefs(inputs[0]) + rest
  }

  /** The planes a pass reads. */
  function Refs(pass: Pass): set<nat> {
    match pass.work
    case GatherLoad(_, args) => Elements(args)
    case Apply(_, args, _) => Elements(args)
    case Fused(_, producers) => producers.Values
    case Block(inputs, _, _, _) => BlockRefs(inputs)
  }

  // ----- Binding -----

  /** The stage input a gather reads: an earlier plane or a literal. */
  function GatherOperand(s: Stage, v: View, args: seq<nat>, planes: Planes): Plane {
    if v.input >= |s.inputs| then Plane(0, 0, [])
    else match s.inputs[v.input]
      case Literal(plane) => plane
      case From(_) => if |args| > 0 then PlaneAt(planes, args[0]) else Plane(0, 0, [])
  }

  function GatherField(operand: Plane, v: View, boundary: Boundary, k: nat): (int, int) -> int {
    (r: int, c: int) => Sample(operand, Along(v.vertical, r, c, k), Along(v.horizontal, r, c, k), boundary)
  }

  /** The packed operand of a gather: one sampled word per output cell. */
  function GatherPlane(p: Program, g: Gather, args: seq<nat>, planes: Planes, rows: nat, columns: nat): Plane {
    if g.stage !in p.stages || g.view !in p.stages[g.stage].kernel.views then Plane(0, 0, [])
    else
      var s := p.stages[g.stage];
      var v := s.kernel.views[g.view];
      Plane(rows, columns, Table(rows, columns, GatherField(GatherOperand(s, v, args, planes), v, s.boundary, g.k)))
  }

  /** The view that reads its input at the cell itself. */
  function IdentityView(i: nat): View {
    View(i, Axis(0, 1, 0, 0), Axis(0, 0, 1, 0))
  }

  function IdentityViews(n: nat): (views: map<Name, View>)
    ensures forall i: nat :: i < n ==> Slot(i) in views && views[Slot(i)] == IdentityView(i)
  {
    if n == 0 then map[]
    else IdentityViews(n - 1)[Slot(n - 1) := IdentityView(n - 1)]
  }

  /** A one-step grid source that reads its operands cell by cell. */
  function IdentityGrid(operands: seq<Plane>, rows: nat, columns: nat, nodes: seq<Node>, result: Name): Grid {
    Grid(operands, rows, columns, Zero, Kernel(1, true, IdentityViews(|operands|), Map(nodes, result)), None)
  }

  function PlanesAt(planes: Planes, args: seq<nat>): (r: seq<Plane>)
    ensures |r| == |args| && forall i :: 0 <= i < |args| ==> r[i] == PlaneAt(planes, args[i])
  {
    seq(|args|, i requires 0 <= i < |args| => PlaneAt(planes, args[i]))
  }

  function LoadNode(i: nat): Node {
    Node(Arg(i), Load, [], Slot(i), 0)
  }

  function ArgNames(n: nat): (r: seq<Name>)
    ensures |r| == n && forall i :: 0 <= i < n ==> r[i] == Arg(i)
  {
    seq(n, i requires 0 <= i < n => Arg(i))
  }

  function LoadNodes(n: nat): (r: seq<Node>)
    ensures |r| == n && forall i :: 0 <= i < n ==> r[i] == LoadNode(i)
  {
    seq(n, i requires 0 <= i < n => LoadNode(i))
  }

  function ScalarGrid(operands: seq<Plane>, rows: nat, columns: nat, op: Op, imm: int): Grid {
    if op == Load then IdentityGrid(operands, rows, columns, LoadNodes(|operands|), Arg(0))
    else IdentityGrid(operands, rows, columns, LoadNodes(|operands|) + [Node(Out, op, ArgNames(|operands|), Slot(0), imm)], Out)
  }

  function BlockOperand(p: Program, i: BlockInput, planes: Planes, rows: nat, columns: nat): Plane {
    match i
    case FromPlane(n) => PlaneAt(planes, n)
    case Gathered(g, args) => GatherPlane(p, g, args, planes, rows, columns)
  }

  function BlockOperands(p: Program, inputs: seq<BlockInput>, planes: Planes, rows: nat, columns: nat): (r: seq<Plane>)
    ensures |r| == |inputs| && forall i :: 0 <= i < |inputs| ==> r[i] == BlockOperand(p, inputs[i], planes, rows, columns)
  {
    seq(|inputs|, i requires 0 <= i < |inputs| => BlockOperand(p, inputs[i], planes, rows, columns))
  }

  /** The stage planes a fused pass stands for. */
  function Produced(producers: map<string, nat>, planes: Planes): map<string, Plane> {
    map n | n in producers :: PlaneAt(planes, producers[n])
  }

  /** The grid source a pass is bound to. */
  function Bind(p: Program, pass: Pass, planes: Planes): Grid {
    match pass.work
    case GatherLoad(g, args) => ScalarGrid([GatherPlane(p, g, args, planes, pass.rows, pass.columns)], pass.rows, pass.columns, Load, 0)
    case Apply(op, args, imm) => ScalarGrid(PlanesAt(planes, args), pass.rows, pass.columns, op, imm)
    case Fused(n, producers) =>
      if n in p.stages then BoundStage(p.stages[n], Produced(producers, planes))
      else IdentityGrid([], pass.rows, pass.columns, [], Out)
    case Block(inputs, nodes, result, _) =>
      IdentityGrid(BlockOperands(p, inputs, planes, pass.rows, pass.columns), pass.rows, pass.columns, nodes, result)
  }

  function RunPass(p: Program, pass: Pass, planes: Planes): Plane {
    EvalGrid(Bind(p, pass, planes))
  }

  /** Binding looks only at the planes a pass names. */
  lemma {:induction false} BindAgrees(p: Program, pass: Pass, a: Planes, b: Planes)
    requires forall n :: n in Refs(pass) ==> PlaneAt(a, n) == PlaneAt(b, n)
    ensures Bind(p, pass, a) == Bind(p, pass, b)
  {
    match pass.work
    case GatherLoad(g, args) =>
      assert |args| > 0 ==> args[0] in Elements(args);
    case Apply(op, args, imm) =>
      assert forall i :: 0 <= i < |args| ==> args[i] in Elements(args);
      assert PlanesAt(a, args) == PlanesAt(b, args);
    case Fused(n, producers) =>
      assert Produced(producers, a) == Produced(producers, b);
    case Block(inputs, nodes, result, _) =>
      forall i | 0 <= i < |inputs|
        ensures BlockOperand(p, inputs[i], a, pass.rows, pass.columns) == BlockOperand(p, inputs[i], b, pass.rows, pass.columns) {
        BlockOperandAgrees(p, inputs[i], a, b, pass.rows, pass.columns);
      }
      assert BlockOperands(p, inputs, a, pass.rows, pass.columns) == BlockOperands(p, inputs, b, pass.rows, pass.columns);
  }

  lemma {:induction false} BlockOperandAgrees(p: Program, i: BlockInput, a: Planes, b: Planes, rows: nat, columns: nat)
    requires forall n :: n in InputRefs(i) ==> PlaneAt(a, n) == PlaneAt(b, n)
    ensures BlockOperand(p, i, a, rows, columns) == BlockOperand(p, i, b, rows, columns)
  {
    if i.Gathered? {
      assert |i.args| > 0 ==> i.args[0] in Elements(i.args);
    }
  }

  // ----- Meaning without release -----

  /** Every plane made by the first `k` passes. */
  function Made(p: Program, passes: seq<Pass>, k: nat): (planes: Planes)
    requires k <= |passes|
    ensures |planes| == k
  {
    if k == 0 then [] else
      var before := Made(p, passes, k - 1);
      before + [RunPass(p, passes[k - 1], before)]
  }

  lemma {:induction false} MadePrefix(p: Program, a: seq<Pass>, b: seq<Pass>, k: nat)
    requires k <= |a| && k <= |b| && a[..k] == b[..k]
    ensures Made(p, a, k) == Made(p, b, k)
  {
    if k > 0 {
      assert a[..k - 1] == a[..k][..k - 1] == b[..k][..k - 1] == b[..k - 1];
      MadePrefix(p, a, b, k - 1);
      assert a[k - 1] == a[..k][k - 1] == b[..k][k - 1] == b[k - 1];
    }
  }

  lemma {:induction false} MadeAppend(p: Program, passes: seq<Pass>, pass: Pass)
    ensures Made(p, passes + [pass], |passes| + 1) == Made(p, passes, |passes|) + [RunPass(p, pass, Made(p, passes, |passes|))]
  {
    assert (passes + [pass])[..|passes|] == passes[..|passes|];
    MadePrefix(p, passes + [pass], passes, |passes|);
  }

  /** A plane never changes once made. */
  lemma {:induction false} MadeKeeps(p: Program, passes: seq<Pass>, i: nat, k: nat)
    requires i <= k <= |passes|
    ensures Made(p, passes, i) <= Made(p, passes, k)
  {
    if i < k {
      MadeKeeps(p, passes, i, k - 1);
    }
  }

  // ----- Release -----

  /** Passes read only planes made before them. */
  ghost predicate InOrder(passes: seq<Pass>) {
    forall i :: 0 <= i < |passes| ==> forall n :: n in Refs(passes[i]) ==> n < i
  }

  /** The last of the first `k` passes that reads plane `n`, or `n` itself. */
  function LastReader(passes: seq<Pass>, n: nat, k: nat): nat
    requires k <= |passes|
  {
    if k == 0 then n else if n in Refs(passes[k - 1]) then k - 1 else LastReader(passes, n, k - 1)
  }

  /** Published planes are kept to the end, others to their last reader. */
  function LastUse(passes: seq<Pass>, kept: set<nat>, n: nat): nat {
    if n in kept then |passes| else LastReader(passes, n, |passes|)
  }

  lemma {:induction false} LastReaderBounds(passes: seq<Pass>, n: nat, k: nat, i: nat)
    requires InOrder(passes) && k <= |passes|
    ensures LastReader(passes, n, k) >= n && (k > n ==> LastReader(passes, n, k) < k) && (k <= n ==> LastReader(passes, n, k) == n)
    ensures i < k && n in Refs(passes[i]) ==> i <= LastReader(passes, n, k)
  {
    if k > 0 && n !in Refs(passes[k - 1]) {
      LastReaderBounds(passes, n, k - 1, i);
    }
  }

  /** The planes held at some point of a run, by the pass that made them. */
  type Memory = map<nat, Plane>

  function Numbered(held: Memory, k: nat): (planes: Planes)
    ensures |planes| == k && forall n :: 0 <= n < k ==> planes[n] == if n in held then held[n] else Plane(0, 0, [])
  {
    seq(k, n requires 0 <= n < k => if n in held then held[n] else Plane(0, 0, []))
  }

  /** The planes whose last use is pass `i`. */
  function Released(passes: seq<Pass>, kept: set<nat>, i: nat): set<nat> {
    set n: nat | n <= i && LastUse(passes, kept, n) == i
  }

  /** Adds a pass's plane and drops the planes it releases. */
  function Commit(held: Memory, i: nat, output: Plane, release: set<nat>): Memory {
    var added := held[i := output];
    map n | n in added && n !in release :: added[n]
  }

  /** The planes held after the first `k` passes when each pass releases what is last used there. */
  function Held(p: Program, passes: seq<Pass>, kept: set<nat>, k: nat): Memory
    requires k <= |passes|
  {
    if k == 0 then map[] else
      var before := Held(p, passes, kept, k - 1);
      var output := RunPass(p, passes[k - 1], Numbered(before, k - 1));
      Commit(before, k - 1, output, Released(passes, kept, k - 1))
  }

  ghost predicate PlaneHeld(passes: seq<Pass>, kept: set<nat>, held: Memory, made: Planes, n: nat) {
    && (n in held <==> n < |made| && LastUse(passes, kept, n) >= |made|)
    && (n in held ==> held[n] == made[n])
  }

  /** The memory holds exactly the planes still needed, with their meaning. */
  ghost predicate HeldIsMade(passes: seq<Pass>, kept: set<nat>, held: Memory, made: Planes) {
    forall n: nat {:trigger PlaneHeld(passes, kept, held, made, n)} :: PlaneHeld(passes, kept, held, made, n)
  }

  lemma {:induction false} ReadIsHeld(passes: seq<Pass>, kept: set<nat>, held: Memory, made: Planes, k: nat, n: nat)
    requires InOrder(passes) && k < |passes| && |made| == k && HeldIsMade(passes, kept, held, made) && n in Refs(passes[k])
    ensures n in held && n < k && held[n] == made[n]
  {
    assert PlaneHeld(passes, kept, held, made, n);
    LastReaderBounds(passes, n, |passes|, k);
  }

  /** A pass about to run finds every plane it reads still held, and so computes what it means. */
  lemma {:induction false} ReadsAreHeld(p: Program, passes: seq<Pass>, kept: set<nat>, held: Memory, made: Planes, k: nat)
    requires InOrder(passes) && k < |passes| && |made| == k && HeldIsMade(passes, kept, held, made)
    ensures Refs(passes[k]) <= held.Keys
    ensures RunPass(p, passes[k], Numbered(held, k)) == RunPass(p, passes[k], made)
  {
    forall n | n in Refs(passes[k]) ensures n in held && PlaneAt(Numbered(held, k), n) == PlaneAt(made, n) {
      ReadIsHeld(passes, kept, held, made, k, n);
    }
    BindAgrees(p, passes[k], Numbered(held, k), made);
  }

  lemma {:induction false} CommitKeeps(passes: seq<Pass>, kept: set<nat>, held: Memory, made: Planes, output: Plane, n: nat)
    requires InOrder(passes) && |made| < |passes| && PlaneHeld(passes, kept, held, made, n)
    ensures var k := |made|;
            PlaneHeld(passes, kept, Commit(held, k, output, Released(passes, kept, k)), made + [output], n)
  {
    LastReaderBounds(passes, n, |passes|, 0);
  }

  lemma {:induction false} HeldMatches(p: Program, passes: seq<Pass>, kept: set<nat>, k: nat)
    requires InOrder(passes) && k <= |passes|
    ensures HeldIsMade(passes, kept, Held(p, passes, kept, k), Made(p, passes, k))
  {
    if k > 0 {
      var held, made := Held(p, passes, kept, k - 1), Made(p, passes, k - 1);
      HeldMatches(p, passes, kept, k - 1);
      var output := RunPass(p, passes[k - 1], made);
      assert output == RunPass(p, passes[k - 1], Numbered(held, k - 1)) by { ReadsAreHeld(p, passes, kept, held, made, k - 1); }
      forall n: nat ensures PlaneHeld(passes, kept, Held(p, passes, kept, k), Made(p, passes, k), n) {
        assert PlaneHeld(passes, kept, held, made, n);
        CommitKeeps(passes, kept, held, made, output, n);
      }
    }
  }

  /** No pass ever reads a released plane. */
  lemma {:induction false} NeverReadsReleased(p: Program, passes: seq<Pass>, kept: set<nat>, k: nat)
    requires InOrder(passes) && k < |passes|
    ensures Refs(passes[k]) <= Held(p, passes, kept, k).Keys
  {
    HeldMatches(p, passes, kept, k);
    ReadsAreHeld(p, passes, kept, Held(p, passes, kept, k), Made(p, passes, k), k);
  }

  /** The run ends holding exactly the published planes, with their meaning. */
  lemma {:induction false} EndsWithKept(p: Program, passes: seq<Pass>, kept: set<nat>)
    requires InOrder(passes) && forall n :: n in kept ==> n < |passes|
    ensures Held(p, passes, kept, |passes|).Keys == kept
    ensures forall n :: n in kept ==> Held(p, passes, kept, |passes|)[n] == Made(p, passes, |passes|)[n]
  {
    var held, made := Held(p, passes, kept, |passes|), Made(p, passes, |passes|);
    HeldMatches(p, passes, kept, |passes|);
    forall n: nat ensures (n in held <==> n in kept) && (n in held ==> held[n] == made[n]) {
      assert PlaneHeld(passes, kept, held, made, n);
      LastReaderBounds(passes, n, |passes|, 0);
    }
  }
}

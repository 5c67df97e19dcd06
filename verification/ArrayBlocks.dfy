/** What a block of scalar passes means: every in-block node has the value of the pass it stands for, at every cell. */
module ArrayBlocks {
  import opened Base
  import opened ArrayProgram
  import opened ArrayPasses
  import opened ArrayCells
  import opened ArrayMaterial

  /** A block under construction: its inputs, the loads of outside planes, and one node for each pass taken in. */
  datatype Draft = Draft(inputs: seq<BlockInput>, prefix: seq<Node>, nodes: seq<Node>)

  function LoadOf(id: Name, e: nat): Node {
    Node(id, Load, [], Slot(e), 0)
  }

  function Renamed(renamed: map<nat, nat>, args: seq<nat>): (r: seq<nat>)
    ensures |r| == |args| && forall i :: 0 <= i < |args| ==> r[i] == if args[i] in renamed then renamed[args[i]] else 0
  {
    seq(|args|, i requires 0 <= i < |args| => if args[i] in renamed then renamed[args[i]] else 0)
  }

  /** `name` stands for plane `ref`: a node of an earlier pass of the block, or a load of a plane made before it. */
  ghost predicate ArgMatches(d: Draft, renamed: map<nat, nat>, index: nat, k: nat, ref: nat, name: Name) {
    if ref >= index then ref < index + k && name == Inner(ref - index)
    else
      && ref in renamed && name.Extra? && name.e < |d.inputs| && d.inputs[name.e] == FromPlane(renamed[ref])
      && LoadOf(name, name.e) in d.prefix
  }

  ghost predicate ReadsInput(d: Draft, node: Node, input: BlockInput) {
    node.op == Load && node.args == [] && node.view.Slot? && node.view.v < |d.inputs| && d.inputs[node.view.v] == input
  }

  ghost predicate GatherMatches(d: Draft, renamed: map<nat, nat>, index: nat, node: Node, g: Gather, args: seq<nat>) {
    (forall a :: a in args ==> a < index && a in renamed) && ReadsInput(d, node, Gathered(g, Renamed(renamed, args)))
  }

  ghost predicate LoadMatches(d: Draft, renamed: map<nat, nat>, index: nat, k: nat, node: Node, ref: nat) {
    if ref >= index then ref < index + k && node.op == AddImm && node.imm == 0 && node.args == [Inner(ref - index)]
    else ref in renamed && ReadsInput(d, node, FromPlane(renamed[ref]))
  }

  ghost predicate ApplyMatches(d: Draft, renamed: map<nat, nat>, index: nat, k: nat, node: Node, op: Op, args: seq<nat>, imm: int) {
    && node.op == op && node.imm == imm && |node.args| == |args|
    && forall j {:trigger node.args[j]} :: 0 <= j < |args| ==> ArgMatches(d, renamed, index, k, args[j], node.args[j])
  }

  /** Node `k` of the block computes pass `index + k`. */
  ghost predicate NodeMatches(d: Draft, renamed: map<nat, nat>, index: nat, k: nat, raw: Pass)
    requires k < |d.nodes|
  {
    var node := d.nodes[k];
    node.id == Inner(k) &&
    match raw.work
    case GatherLoad(g, args) => GatherMatches(d, renamed, index, node, g, args)
    case Apply(op, args, imm) =>
      if op == Load then |args| == 1 && LoadMatches(d, renamed, index, k, node, args[0])
      else ApplyMatches(d, renamed, index, k, node, op, args, imm)
    case _ => false
  }

  ghost predicate PrefixFormed(d: Draft) {
    && (forall j :: 0 <= j < |d.prefix| ==> d.prefix[j].id.Extra? && d.prefix[j].id.e < |d.inputs| && d.prefix[j] == LoadOf(d.prefix[j].id, d.prefix[j].id.e))
    && forall i, j :: 0 <= i < j < |d.prefix| ==> d.prefix[i].id != d.prefix[j].id
  }

  /** The draft covers the first passes of `segment`, whose first pass is number `index`. */
  ghost predicate DraftFor(d: Draft, renamed: map<nat, nat>, segment: seq<Pass>, index: nat) {
    && |d.nodes| <= |segment| && PrefixFormed(d)
    && forall k {:trigger NodeMatches(d, renamed, index, k, segment[k])} :: 0 <= k < |d.nodes| ==> NodeMatches(d, renamed, index, k, segment[k])
  }

  function BlockNodes(d: Draft): seq<Node> {
    d.prefix + d.nodes
  }

  // ----- Single assignment -----

  lemma {:induction false} NodeArgDefined(d: Draft, renamed: map<nat, nat>, segment: seq<Pass>, index: nat, k: nat, a: Name)
    requires DraftFor(d, renamed, segment, index) && k < |d.nodes| && a in d.nodes[k].args
    ensures (a.Inner? && a.n < k) || exists j :: 0 <= j < |d.prefix| && d.prefix[j].id == a
  {
    assert NodeMatches(d, renamed, index, k, segment[k]);
    var node, j :| node == d.nodes[k] && 0 <= j < |node.args| && node.args[j] == a;
  }

  lemma {:induction false} InnerId(d: Draft, renamed: map<nat, nat>, segment: seq<Pass>, index: nat, k: nat)
    requires DraftFor(d, renamed, segment, index) && k < |d.nodes|
    ensures d.nodes[k].id == Inner(k)
  {
    assert NodeMatches(d, renamed, index, k, segment[k]);
  }

  lemma {:induction false} DraftDistinct(d: Draft, renamed: map<nat, nat>, segment: seq<Pass>, index: nat, i: nat, j: nat)
    requires DraftFor(d, renamed, segment, index) && i < j < |BlockNodes(d)|
    ensures BlockNodes(d)[i].id != BlockNodes(d)[j].id
  {
    if j >= |d.prefix| {
      InnerId(d, renamed, segment, index, j - |d.prefix|);
      if i >= |d.prefix| {
        InnerId(d, renamed, segment, index, i - |d.prefix|);
      }
    }
  }

  lemma {:induction false} DraftArgsDefined(d: Draft, renamed: map<nat, nat>, segment: seq<Pass>, index: nat, j: nat, a: Name)
    requires DraftFor(d, renamed, segment, index) && j < |BlockNodes(d)| && a in BlockNodes(d)[j].args
    ensures DefinedIn(BlockNodes(d), j, a)
  {
    var nodes, n := BlockNodes(d), |d.prefix|;
    if j >= n {
      NodeArgDefined(d, renamed, segment, index, j - n, a);
      if a.Inner? && a.n < j - n {
        InnerId(d, renamed, segment, index, a.n);
        assert nodes[n + a.n].id == a;
      } else {
        var i :| 0 <= i < |d.prefix| && d.prefix[i].id == a;
        assert nodes[i].id == a;
      }
    }
  }

  lemma {:induction false} DraftSingleAssignment(d: Draft, renamed: map<nat, nat>, segment: seq<Pass>, index: nat)
    requires DraftFor(d, renamed, segment, index)
    ensures SingleAssignment(BlockNodes(d))
  {
    var nodes := BlockNodes(d);
    forall i, j | 0 <= i < j < |nodes| ensures nodes[i].id != nodes[j].id {
      DraftDistinct(d, renamed, segment, index, i, j);
    }
    forall j, a | 0 <= j < |nodes| && a in nodes[j].args ensures DefinedIn(nodes, j, a) {
      DraftArgsDefined(d, renamed, segment, index, j, a);
    }
  }

  // ----- Values -----

  /** Renamed planes are the originals. */
  ghost predicate RenamedHold(renamed: map<nat, nat>, made: Planes, combined: Planes) {
    forall o :: o in renamed ==> o < |made| && renamed[o] < |combined| && combined[renamed[o]] == made[o]
  }

  /** The grid a draft is bound to. */
  ghost predicate BlockGrid(p: Program, d: Draft, combined: Planes, result: Name, g: Grid) {
    && Pointwise(g, BlockNodes(d), result) && SingleAssignment(BlockNodes(d))
    && g.inputs == BlockOperands(p, d.inputs, combined, g.rows, g.columns)
  }

  ghost function BlockValues(g: Grid, d: Draft, r: int, c: int): map<Name, int> {
    Values(BlockNodes(d), Sampler(g, r, c, 0), |BlockNodes(d)|)
  }

  lemma {:induction false} OutsideLoad(p: Program, d: Draft, combined: Planes, result: Name, g: Grid, node: Node, r: int, c: int)
    requires BlockGrid(p, d, combined, result, g) && node in BlockNodes(d) && node.op == Load && node.view.Slot? && node.view.v < |d.inputs|
    ensures ValueOf(BlockValues(g, d, r, c), node.id)
            == OperandWord(BlockOperand(p, d.inputs[node.view.v], combined, g.rows, g.columns), r, c) % U32
  {
    var nodes := BlockNodes(d);
    var j :| 0 <= j < |nodes| && nodes[j] == node;
    LoadValue(g, nodes, result, j, node.view.v, r, c);
  }

  /** A cell of a made plane, as a word another pass reads. */
  lemma {:induction false} MadeWord(made: Planes, n: nat, g: Grid, r: nat, c: nat)
    requires n < |made| && made[n] == EvalGrid(g) && r < g.rows && c < g.columns
    ensures OperandWord(made[n], r, c) == CellWord(g, r, c)
  {
    EvalHolds(g);
    HeldWord(made[n], g.rows, g.columns, CellField(g), r, c);
  }

  /** The value a name of the block has is the word of the plane it stands for. */
  ghost predicate StandsFor(values: map<Name, int>, made: Planes, ref: nat, name: Name, r: int, c: int)
  {
    ref < |made| && ValueOf(values, name) == OperandWord(made[ref], r, c) % U32
  }

  lemma {:induction false} ExtraStandsFor(p: Program, d: Draft, renamed: map<nat, nat>, index: nat, k: nat, made: Planes, combined: Planes,
                                          result: Name, g: Grid, ref: nat, name: Name, r: int, c: int)
    requires BlockGrid(p, d, combined, result, g) && RenamedHold(renamed, made, combined)
    requires ArgMatches(d, renamed, index, k, ref, name) && ref < index
    ensures StandsFor(BlockValues(g, d, r, c), made, ref, name, r, c)
  {
    OutsideLoad(p, d, combined, result, g, LoadOf(name, name.e), r, c);
  }

  lemma {:induction false} GatherStandsFor(p: Program, d: Draft, renamed: map<nat, nat>, index: nat, made: Planes, combined: Planes,
                                           result: Name, g: Grid, k: nat, gather: Gather, args: seq<nat>, r: nat, c: nat)
    requires BlockGrid(p, d, combined, result, g) && RenamedHold(renamed, made, combined) && k < |d.nodes|
    requires GatherMatches(d, renamed, index, d.nodes[k], gather, args)
    ensures var h := Bind(p, Pass(g.rows, g.columns, GatherLoad(gather, args)), made);
            ValueOf(BlockValues(g, d, r, c), d.nodes[k].id) == CellWord(h, r, c)
  {
    var node := d.nodes[k];
    assert node in BlockNodes(d) by { assert BlockNodes(d)[|d.prefix| + k] == node; }
    OutsideLoad(p, d, combined, result, g, node, r, c);
    var packed := GatherPlane(p, gather, Renamed(renamed, args), combined, g.rows, g.columns);
    assert packed == GatherPlane(p, gather, args, made, g.rows, g.columns) by {
      if |args| > 0 {
        assert args[0] in args;
      }
    }
    LoadCell([packed], g.rows, g.columns, 0, r, c);
  }

  lemma {:induction false} NodeInBlock(d: Draft, k: nat)
    requires k < |d.nodes|
    ensures d.nodes[k] in BlockNodes(d) && |d.prefix| + k < |BlockNodes(d)| && BlockNodes(d)[|d.prefix| + k] == d.nodes[k]
  {
  }

  lemma {:induction false} LoadStandsFor(p: Program, d: Draft, renamed: map<nat, nat>, index: nat, made: Planes, combined: Planes,
                                         result: Name, g: Grid, k: nat, ref: nat, r: nat, c: nat)
    requires BlockGrid(p, d, combined, result, g) && RenamedHold(renamed, made, combined) && k < |d.nodes|
    requires LoadMatches(d, renamed, index, k, d.nodes[k], ref)
    requires index <= ref < index + k ==> StandsFor(BlockValues(g, d, r, c), made, ref, Inner(ref - index), r, c)
    ensures ref < |made| && ValueOf(BlockValues(g, d, r, c), d.nodes[k].id) == OperandWord(made[ref], r, c) % U32
  {
    NodeInBlock(d, k);
    if ref < index {
      OutsideLoad(p, d, combined, result, g, d.nodes[k], r, c);
    } else {
      NodeEquation(BlockNodes(d), Sampler(g, r, c, 0), |d.prefix| + k);
    }
  }

  lemma {:induction false} ApplyStandsFor(p: Program, d: Draft, renamed: map<nat, nat>, index: nat, made: Planes, combined: Planes,
                                          result: Name, g: Grid, k: nat, op: Op, args: seq<nat>, imm: int, r: nat, c: nat)
    requires BlockGrid(p, d, combined, result, g) && RenamedHold(renamed, made, combined) && k < |d.nodes|
    requires op != Load && |args| == Arity(op) && ApplyMatches(d, renamed, index, k, d.nodes[k], op, args, imm)
    requires forall j :: 0 <= j < |args| && args[j] >= index ==> StandsFor(BlockValues(g, d, r, c), made, args[j], Inner(args[j] - index), r, c)
    ensures var h := Bind(p, Pass(g.rows, g.columns, Apply(op, args, imm)), made);
            ValueOf(BlockValues(g, d, r, c), d.nodes[k].id) == CellWord(h, r, c)
  {
    var node, values := d.nodes[k], BlockValues(g, d, r, c);
    var operands := PlanesAt(made, args);
    var words := OperandWords(operands, r, c);
    assert ValuesOf(values, node.args) == words by {
      forall j | 0 <= j < |args| ensures ValueOf(values, node.args[j]) == words[j] {
        assert ArgMatches(d, renamed, index, k, args[j], node.args[j]);
        if args[j] < index {
          ExtraStandsFor(p, d, renamed, index, k, made, combined, result, g, args[j], node.args[j], r, c);
        }
      }
    }
    assert ValueOf(values, node.id) == OpWord(op, words, imm, 0) % U32 by { BlockNodeWord(d, k, Sampler(g, r, c, 0), words); }
    assert CellWord(ScalarGrid(operands, g.rows, g.columns, op, imm), r, c) == OpWord(op, words, imm, 0) % U32 by {
      ScalarCell(operands, g.rows, g.columns, op, imm, r, c);
    }
  }

  lemma {:induction false} BlockNodeWord(d: Draft, k: nat, load: Loader, words: seq<int>)
    requires SingleAssignment(BlockNodes(d)) && k < |d.nodes| && d.nodes[k].op != Load
    requires ValuesOf(Values(BlockNodes(d), load, |BlockNodes(d)|), d.nodes[k].args) == words
    ensures ValueOf(Values(BlockNodes(d), load, |BlockNodes(d)|), d.nodes[k].id) == OpWord(d.nodes[k].op, words, d.nodes[k].imm, 0) % U32
  {
    NodeInBlock(d, k);
    NodeEquation(BlockNodes(d), load, |d.prefix| + k);
    LoadedIrrelevant(d.nodes[k].op, words, d.nodes[k].imm, load(d.nodes[k].view));
  }

  // ----- Whole blocks -----

  /** Pass `q` of the segment made its plane, in the block's shape. */
  ghost predicate PassMade(p: Program, segment: seq<Pass>, index: nat, made: Planes, rows: nat, columns: nat, q: nat)
    requires q < |segment|
  {
    && index + q < |made| && made[index + q] == RunPass(p, segment[q], made)
    && segment[q].rows == rows && segment[q].columns == columns && WorkFormed(segment[q].work)
  }

  ghost predicate SegmentMade(p: Program, segment: seq<Pass>, index: nat, made: Planes, rows: nat, columns: nat) {
    forall q {:trigger PassMade(p, segment, index, made, rows, columns, q)} :: 0 <= q < |segment| ==>
      PassMade(p, segment, index, made, rows, columns, q)
  }

  lemma {:induction false} ValueOfPass(p: Program, d: Draft, renamed: map<nat, nat>, segment: seq<Pass>, index: nat, made: Planes, combined: Planes,
                                       result: Name, g: Grid, k: nat, r: nat, c: nat)
    requires BlockGrid(p, d, combined, result, g) && RenamedHold(renamed, made, combined)
    requires DraftFor(d, renamed, segment, index) && k < |d.nodes| && WorkFormed(segment[k].work)
    requires segment[k].rows == g.rows && segment[k].columns == g.columns
    requires forall q :: 0 <= q < k ==> StandsFor(BlockValues(g, d, r, c), made, index + q, Inner(q), r, c)
    ensures ValueOf(BlockValues(g, d, r, c), Inner(k)) == CellWord(Bind(p, segment[k], made), r, c)
    ensures Bind(p, segment[k], made).rows == g.rows && Bind(p, segment[k], made).columns == g.columns
  {
    var raw := segment[k];
    assert NodeMatches(d, renamed, index, k, raw);
    assert raw == Pass(g.rows, g.columns, raw.work);
    match raw.work
    case GatherLoad(gather, args) =>
      GatherStandsFor(p, d, renamed, index, made, combined, result, g, k, gather, args, r, c);
    case Apply(op, args, imm) =>
      if op == Load {
        LoadStandsFor(p, d, renamed, index, made, combined, result, g, k, args[0], r, c);
        LoadCell(PlanesAt(made, args), g.rows, g.columns, imm, r, c);
      } else {
        forall j | 0 <= j < |args| && args[j] >= index ensures StandsFor(BlockValues(g, d, r, c), made, args[j], Inner(args[j] - index), r, c) {
          assert ArgMatches(d, renamed, index, k, args[j], d.nodes[k].args[j]);
          assert StandsFor(BlockValues(g, d, r, c), made, index + (args[j] - index), Inner(args[j] - index), r, c);
        }
        ApplyStandsFor(p, d, renamed, index, made, combined, result, g, k, op, args, imm, r, c);
      }
  }

  /** Node `k` has the word of pass `index + k`'s plane at every cell. */
  lemma {:induction false} InnerStandsFor(p: Program, d: Draft, renamed: map<nat, nat>, segment: seq<Pass>, index: nat, made: Planes, combined: Planes,
                                          result: Name, g: Grid, k: nat, r: nat, c: nat)
    requires BlockGrid(p, d, combined, result, g) && RenamedHold(renamed, made, combined)
    requires DraftFor(d, renamed, segment, index) && k < |d.nodes| && r < g.rows && c < g.columns
    requires SegmentMade(p, segment, index, made, g.rows, g.columns)
    ensures StandsFor(BlockValues(g, d, r, c), made, index + k, Inner(k), r, c)
    ensures ValueOf(BlockValues(g, d, r, c), Inner(k)) == OperandWord(made[index + k], r, c)
  {
    var h, v := Bind(p, segment[k], made), ValueOf(BlockValues(g, d, r, c), Inner(k));
    assert PassMade(p, segment, index, made, g.rows, g.columns, k);
    assert v == CellWord(h, r, c) && h.rows == g.rows && h.columns == g.columns by {
      forall q | 0 <= q < k ensures StandsFor(BlockValues(g, d, r, c), made, index + q, Inner(q), r, c) {
        InnerStandsFor(p, d, renamed, segment, index, made, combined, result, g, q, r, c);
      }
      ValueOfPass(p, d, renamed, segment, index, made, combined, result, g, k, r, c);
    }
    WordStandsFor(made, index + k, h, g, d, k, r, c);
  }

  lemma {:induction false} WordStandsFor(made: Planes, n: nat, h: Grid, g: Grid, d: Draft, k: nat, r: nat, c: nat)
    requires n < |made| && made[n] == EvalGrid(h) && r < h.rows && c < h.columns
    requires ValueOf(BlockValues(g, d, r, c), Inner(k)) == CellWord(h, r, c)
    ensures StandsFor(BlockValues(g, d, r, c), made, n, Inner(k), r, c)
    ensures ValueOf(BlockValues(g, d, r, c), Inner(k)) == OperandWord(made[n], r, c)
  {
    assert OperandWord(made[n], r, c) == CellWord(h, r, c) by { MadeWord(made, n, h, r, c); }
    ValueInRange(BlockNodes(d), Sampler(g, r, c, 0), |BlockNodes(d)|, Inner(k));
  }

  function BlockPass(d: Draft, rows: nat, columns: nat, output: nat): Pass {
    Pass(rows, columns, Block(d.inputs, BlockNodes(d), Inner(output), |d.nodes|))
  }

  /** A block makes exactly the plane of the pass it exposes. */
  lemma {:induction false} BlockMeaning(p: Program, d: Draft, renamed: map<nat, nat>, segment: seq<Pass>, index: nat, made: Planes, combined: Planes,
                                        rows: nat, columns: nat, output: nat)
    requires RenamedHold(renamed, made, combined) && DraftFor(d, renamed, segment, index) && output < |d.nodes|
    requires SegmentMade(p, segment, index, made, rows, columns)
    ensures index + output < |made| && RunPass(p, BlockPass(d, rows, columns, output), combined) == made[index + output]
  {
    var g := Bind(p, BlockPass(d, rows, columns, output), combined);
    var plane := made[index + output];
    assert BlockGrid(p, d, combined, Inner(output), g) by {
      DraftSingleAssignment(d, renamed, segment, index);
      IdentityPointwise(BlockOperands(p, d.inputs, combined, rows, columns), rows, columns, BlockNodes(d), Inner(output));
    }
    assert plane.rows == rows && plane.columns == columns && |plane.words| == Times(columns, rows) by {
      assert PassMade(p, segment, index, made, rows, columns, output);
      assert NodeMatches(d, renamed, index, output, segment[output]);
      BoundShape(p, segment[output], made);
    }
    forall r, c | 0 <= r < rows && 0 <= c < columns ensures Cell(plane, r, c) == CellField(g)(r, c) {
      InnerStandsFor(p, d, renamed, segment, index, made, combined, Inner(output), g, output, r, c);
      PointwiseCell(g, BlockNodes(d), Inner(output), r, c);
    }
    HoldsIsEval(plane, g);
  }

  lemma {:induction false} BoundShape(p: Program, pass: Pass, planes: Planes)
    requires !pass.work.Fused?
    ensures var plane := RunPass(p, pass, planes);
            plane.rows == pass.rows && plane.columns == pass.columns && |plane.words| == Times(pass.columns, pass.rows)
  {
  }
}

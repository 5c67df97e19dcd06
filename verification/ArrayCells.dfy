/** Cell-by-cell facts: single-assignment evaluation, and what gather and scalar passes compute at a cell. */
module ArrayCells {
  import opened Base
  import opened Tables
  import opened ArrayProgram
  import opened ArrayPasses

  // ----- Single-assignment evaluation -----

  lemma {:induction false} ValueInRange(nodes: seq<Node>, load: Loader, k: nat, n: Name)
    requires k <= |nodes|
    ensures 0 <= ValueOf(Values(nodes, load, k), n) < U32
  {
    if k > 0 {
      ValueInRange(nodes, load, k - 1, n);
    }
  }

  /** A node's value does not change once computed. */
  lemma {:induction false} ValueStays(nodes: seq<Node>, load: Loader, j: nat, k: nat, n: Name)
    requires j <= k <= |nodes| && forall i :: j <= i < k ==> nodes[i].id != n
    ensures ValueOf(Values(nodes, load, k), n) == ValueOf(Values(nodes, load, j), n)
  {
    if j < k {
      ValueStays(nodes, load, j, k - 1, n);
    }
  }

  ghost predicate DistinctIds(nodes: seq<Node>) {
    forall i, j :: 0 <= i < j < |nodes| ==> nodes[i].id != nodes[j].id
  }

  /** The first `j` nodes define `n`. */
  ghost predicate DefinedIn(nodes: seq<Node>, j: nat, n: Name)
    requires j <= |nodes|
  {
    exists i :: 0 <= i < j && nodes[i].id == n
  }

  ghost predicate SingleAssignment(nodes: seq<Node>) {
    DistinctIds(nodes) && forall j, a {:trigger DefinedIn(nodes, j, a)} :: 0 <= j < |nodes| && a in nodes[j].args ==> DefinedIn(nodes, j, a)
  }

  lemma {:induction false} DefinedValue(nodes: seq<Node>, load: Loader, j: nat, n: Name)
    requires SingleAssignment(nodes) && j <= |nodes| && DefinedIn(nodes, j, n)
    ensures ValueOf(Values(nodes, load, |nodes|), n) == ValueOf(Values(nodes, load, j), n)
  {
    ValueStays(nodes, load, j, |nodes|, n);
  }

  /** The equation every node of a single-assignment list satisfies in the final values. */
  lemma {:induction false} NodeEquation(nodes: seq<Node>, load: Loader, j: nat)
    requires SingleAssignment(nodes) && j < |nodes|
    ensures var values := Values(nodes, load, |nodes|);
            ValueOf(values, nodes[j].id) == OpWord(nodes[j].op, ValuesOf(values, nodes[j].args), nodes[j].imm, load(nodes[j].view)) % U32
  {
    var node, values, before := nodes[j], Values(nodes, load, |nodes|), Values(nodes, load, j);
    assert ValueOf(values, node.id) == ValueOf(Values(nodes, load, j + 1), node.id) by {
      ValueStays(nodes, load, j + 1, |nodes|, node.id);
    }
    forall i | 0 <= i < |node.args| ensures ValueOf(values, node.args[i]) == ValueOf(before, node.args[i]) {
      assert DefinedIn(nodes, j, node.args[i]);
      DefinedValue(nodes, load, j, node.args[i]);
    }
    assert ValuesOf(values, node.args) == ValuesOf(before, node.args);
  }

  lemma {:induction false} FormedIsSingleAssignment(m: Map, views: set<Name>)
    requires MapFormed(m, views)
    ensures SingleAssignment(m.nodes)
  {
    forall i, j | 0 <= i < j < |m.nodes| ensures m.nodes[i].id != m.nodes[j].id {
      assert NodeFormed(m.nodes, j, views);
    }
    forall j, a | 0 <= j < |m.nodes| && a in m.nodes[j].args ensures DefinedIn(m.nodes, j, a) {
      assert NodeFormed(m.nodes, j, views);
    }
  }

  // ----- Planes as fields -----

  type Field = (int, int) -> int

  ghost predicate Holds(plane: Plane, rows: nat, columns: nat, f: Field) {
    && plane.rows == rows && plane.columns == columns && |plane.words| == Times(columns, rows)
    && forall r, c :: 0 <= r < rows && 0 <= c < columns ==> Cell(plane, r, c) == f(r, c)
  }

  lemma {:induction false} EvalHolds(g: Grid)
    ensures Holds(EvalGrid(g), g.rows, g.columns, CellField(g))
  {
    forall r, c | 0 <= r < g.rows && 0 <= c < g.columns ensures Cell(EvalGrid(g), r, c) == CellField(g)(r, c) {
      TableCell(g.rows, g.columns, CellField(g), r, c);
    }
  }

  /** A plane that holds a grid's field is the grid's plane. */
  lemma {:induction false} HoldsIsEval(plane: Plane, g: Grid)
    requires Holds(plane, g.rows, g.columns, CellField(g))
    ensures plane == EvalGrid(g)
  {
    var t := Table(g.rows, g.columns, CellField(g));
    forall n | 0 <= n < |t| ensures plane.words[n] == t[n] {
      CellOfIndex(g.rows, g.columns, n);
      IndexOfCell(g.columns, n);
      assert Cell(plane, n / g.columns, n % g.columns) == plane.words[n];
    }
    assert plane.words == t;
  }

  // ----- Grids that read their operands at the cell itself -----

  lemma {:induction false} IdentityCoordinates(i: nat, r: int, c: int)
    ensures Along(IdentityView(i).vertical, r, c, 0) == r && Along(IdentityView(i).horizontal, r, c, 0) == c
  {
    TimesIsProduct(1, r);
    TimesIsProduct(0, r);
    TimesIsProduct(1, c);
    TimesIsProduct(0, c);
  }

  ghost predicate ReadsCell(v: View, i: nat) {
    v.input == i && forall r, c {:trigger Along(v.vertical, r, c, 0)} {:trigger Along(v.horizontal, r, c, 0)} ::
      Along(v.vertical, r, c, 0) == r && Along(v.horizontal, r, c, 0) == c
  }

  ghost predicate Pointwise(g: Grid, nodes: seq<Node>, result: Name) {
    && g.boundary == Zero && g.kernel.extent == 1 && g.kernel.sum && g.kernel.body == Map(nodes, result) && g.post.None?
    && forall i: nat :: i < |g.inputs| ==> Slot(i) in g.kernel.views && ReadsCell(g.kernel.views[Slot(i)], i)
  }

  lemma {:induction false} IdentityPointwise(operands: seq<Plane>, rows: nat, columns: nat, nodes: seq<Node>, result: Name)
    ensures Pointwise(IdentityGrid(operands, rows, columns, nodes, result), nodes, result)
  {
    forall i: nat | i < |operands| ensures Slot(i) in IdentityViews(|operands|) && ReadsCell(IdentityViews(|operands|)[Slot(i)], i) {
      forall r, c ensures Along(IdentityView(i).vertical, r, c, 0) == r && Along(IdentityView(i).horizontal, r, c, 0) == c {
        IdentityCoordinates(i, r, c);
      }
    }
  }

  /** The word an operand contributes at a cell. */
  function OperandWord(plane: Plane, r: int, c: int): int {
    Sample(plane, r, c, Zero)
  }

  lemma {:induction false} PointwiseSample(g: Grid, nodes: seq<Node>, result: Name, i: nat, r: int, c: int)
    requires Pointwise(g, nodes, result) && i < |g.inputs|
    ensures Sampler(g, r, c, 0)(Slot(i)) == OperandWord(g.inputs[i], r, c)
  {
    var v := g.kernel.views[Slot(i)];
    assert ReadsCell(v, i);
    assert Along(v.vertical, r, c, 0) == r;
  }

  lemma {:induction false} PointwiseCell(g: Grid, nodes: seq<Node>, result: Name, r: int, c: int)
    requires Pointwise(g, nodes, result)
    ensures CellWord(g, r, c) == ValueOf(Values(nodes, Sampler(g, r, c, 0), |nodes|), result)
  {
    ValueInRange(nodes, Sampler(g, r, c, 0), |nodes|, result);
    assert FoldedTo(g, r, c, 1) == Accumulated(true, FoldedTo(g, r, c, 0), MapWord(g.kernel.body, Sampler(g, r, c, 0)));
  }

  function OperandWords(operands: seq<Plane>, r: int, c: int): (w: seq<int>)
    ensures |w| == |operands| && forall i :: 0 <= i < |operands| ==> w[i] == OperandWord(operands[i], r, c) % U32
  {
    seq(|operands|, i requires 0 <= i < |operands| => OperandWord(operands[i], r, c) % U32)
  }

  /** The value of a load node over a pointwise grid. */
  lemma {:induction false} LoadValue(g: Grid, nodes: seq<Node>, result: Name, j: nat, i: nat, r: int, c: int)
    requires Pointwise(g, nodes, result) && SingleAssignment(nodes)
    requires i < |g.inputs| && j < |nodes| && nodes[j].op == Load && nodes[j].view == Slot(i)
    ensures ValueOf(Values(nodes, Sampler(g, r, c, 0), |nodes|), nodes[j].id) == OperandWord(g.inputs[i], r, c) % U32
  {
    NodeEquation(nodes, Sampler(g, r, c, 0), j);
    PointwiseSample(g, nodes, result, i, r, c);
  }

  lemma {:induction false} LoadsSingleAssignment(n: nat, op: Op, imm: int)
    ensures SingleAssignment(LoadNodes(n))
    ensures SingleAssignment(LoadNodes(n) + [Node(Out, op, ArgNames(n), Slot(0), imm)])
  {
    var nodes := LoadNodes(n) + [Node(Out, op, ArgNames(n), Slot(0), imm)];
    forall j, a | 0 <= j < |nodes| && a in nodes[j].args ensures DefinedIn(nodes, j, a) {
      assert j == n;
      var i :| 0 <= i < n && ArgNames(n)[i] == a;
      assert nodes[i].id == a;
    }
  }

  lemma {:induction false} LoadedIrrelevant(op: Op, args: seq<int>, imm: int, loaded: int)
    requires op != Load
    ensures OpWord(op, args, imm, loaded) == OpWord(op, args, imm, 0)
  {
  }

  lemma {:induction false} PointwiseScalar(g: Grid, nodes: seq<Node>, op: Op, imm: int, r: int, c: int)
    requires op != Load && |g.inputs| == Arity(op)
    requires nodes == LoadNodes(|g.inputs|) + [Node(Out, op, ArgNames(|g.inputs|), Slot(0), imm)] && Pointwise(g, nodes, Out)
    ensures CellWord(g, r, c) == OpWord(op, OperandWords(g.inputs, r, c), imm, 0) % U32
  {
    var n, load := |g.inputs|, Sampler(g, r, c, 0);
    var values := Values(nodes, load, |nodes|);
    assert CellWord(g, r, c) == ValueOf(values, Out) by { PointwiseCell(g, nodes, Out, r, c); }
    LoadsSingleAssignment(n, op, imm);
    forall i | 0 <= i < n ensures ValueOf(values, Arg(i)) == OperandWord(g.inputs[i], r, c) % U32 {
      LoadValue(g, nodes, Out, i, i, r, c);
    }
    NodeEquation(nodes, load, n);
    assert ValuesOf(values, ArgNames(n)) == OperandWords(g.inputs, r, c);
    LoadedIrrelevant(op, OperandWords(g.inputs, r, c), imm, load(Slot(0)));
  }

  /** A scalar pass applies its operation to the operands' words at every cell. */
  lemma {:induction false} ScalarCell(operands: seq<Plane>, rows: nat, columns: nat, op: Op, imm: int, r: int, c: int)
    requires op != Load && |operands| == Arity(op)
    ensures CellWord(ScalarGrid(operands, rows, columns, op, imm), r, c) == OpWord(op, OperandWords(operands, r, c), imm, 0) % U32
  {
    var nodes := LoadNodes(|operands|) + [Node(Out, op, ArgNames(|operands|), Slot(0), imm)];
    IdentityPointwise(operands, rows, columns, nodes, Out);
    PointwiseScalar(ScalarGrid(operands, rows, columns, op, imm), nodes, op, imm, r, c);
  }

  lemma {:induction false} PointwiseLoad(g: Grid, nodes: seq<Node>, r: int, c: int)
    requires |g.inputs| > 0 && nodes == LoadNodes(|g.inputs|) && Pointwise(g, nodes, Arg(0))
    ensures CellWord(g, r, c) == OperandWord(g.inputs[0], r, c) % U32
  {
    PointwiseCell(g, nodes, Arg(0), r, c);
    LoadsSingleAssignment(|g.inputs|, Load, 0);
    LoadValue(g, nodes, Arg(0), 0, 0, r, c);
  }

  lemma {:induction false} LoadCell(operands: seq<Plane>, rows: nat, columns: nat, imm: int, r: int, c: int)
    requires |operands| > 0
    ensures CellWord(ScalarGrid(operands, rows, columns, Load, imm), r, c) == OperandWord(operands[0], r, c) % U32
  {
    IdentityPointwise(operands, rows, columns, LoadNodes(|operands|), Arg(0));
    PointwiseLoad(ScalarGrid(operands, rows, columns, Load, imm), LoadNodes(|operands|), r, c);
  }

  /** A packed gather holds, at every cell, the sampled word. */
  lemma {:induction false} GatherWord(operand: Plane, v: View, boundary: Boundary, k: nat, rows: nat, columns: nat, r: nat, c: nat)
    requires r < rows && c < columns
    ensures var f := GatherField(operand, v, boundary, k);
            OperandWord(Plane(rows, columns, Table(rows, columns, f)), r, c) == f(r, c)
  {
    TableCell(rows, columns, GatherField(operand, v, boundary, k), r, c);
  }
}

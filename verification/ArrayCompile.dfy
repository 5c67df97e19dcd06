/** The scalar array compiler and the direct interpreter. */
module ArrayCompile {
  import opened Base
  import opened Tables
  import opened ArrayProgram
  import opened ArrayPasses
  import opened ArrayEmission
  import opened StageOrder
  import opened ArrayPlan
  import opened ArrayRun

  // ----- compile, first schema -----

  function Tiles(size: nat): nat {
    (size + 15) / 16
  }

  function Packing(work: Work): nat {
    match work case Apply(_, args, _) => |args| case _ => 1
  }

  function ScalarCost(pass: Pass): Cost {
    TimesNonNegative(Tiles(pass.columns), Tiles(pass.rows));
    TimesNonNegative(Size(pass), Packing(pass.work) + 1);
    Cost(Times(Tiles(pass.columns), Tiles(pass.rows)), Size(pass), Times(Size(pass), Packing(pass.work) + 1))
  }

  /** The scalar cost of a pass the backend admits: its tiles, its cells, and room for packed operands and result. */
  function ScalarBackend(admit: Grid -> bool): Backend {
    (pass: Pass, g: Grid) => if admit(g) then Some(ScalarCost(pass)) else None
  }

  function InputWords(inputs: seq<Input>): nat {
    if inputs == [] then 0 else (if inputs[0].Literal? then |inputs[0].plane.words| else 0) + InputWords(inputs[1..])
  }

  function LiteralWords(p: Program, names: seq<string>): nat {
    if names == [] then 0 else (if names[0] in p.stages then InputWords(p.stages[names[0]].inputs) else 0) + LiteralWords(p, names[1..])
  }

  function Never(): string -> bool {
    (_: string) => false
  }

  lemma {:induction false} AllResultsRight(p: Program, order: seq<string>, fuse: string -> bool, passes: seq<Pass>, results: map<string, nat>)
    requires StageOrdered(p, order) && Materialised(p, order, |order|, fuse, passes, results)
    ensures ResultsRight(p, order, results, passes)
  {
    assert order[..|order|] == order;
  }

  /** What `structure` accepts: formed stages and outputs, few enough nodes, and a stage order. */
  ghost predicate Structured(p: Program, order: seq<string>) {
    ProgramFormed(p) && OrderIs(p, Some(order)) && TotalNodes(p, order) <= MAX_NODES
  }

  method Structure(p: Program) returns (r: Option<seq<string>>)
    ensures r.Some? ==> Structured(p, r.value) && StageOrdered(p, r.value)
    ensures r.None? ==> forall order :: !Structured(p, order)
  {
    if !ProgramFormed(p) {
      return None;
    }
    r := OrderStages(p);
    forall order | OrderIs(p, Some(order)) ensures r == Some(order) {
      OrderUnique(p, r, Some(order));
    }
    if r.Some? && TotalNodes(p, r.value) > MAX_NODES {
      r := None;
    }
  }

  /** The scalar compiler accepts a structured program whose passes are admitted and affordable. */
  ghost predicate ScalarAccepts(p: Program, admit: Grid -> bool, order: seq<string>) {
    && Structured(p, order)
    && var m := ProgramMaterial(p, order, Never(), |order|);
       PlanAffordable(p, p, m.passes, m.results, ScalarBackend(admit), LiteralWords(p, order))
  }

  /** The scalar compiler: it accepts exactly those programs, and its plan publishes their meaning when executed. */
  method CompileScalar(p: Program, admit: Grid -> bool) returns (r: Option<Plan>)
    ensures r.Some? ==> ScalarAccepts(p, admit, r.value.order) && PlanRight(p, r.value)
    ensures r.Some? ==> |r.value.passes| == PassCount(p, r.value.order, Never(), |r.value.order|)
    ensures r.Some? ==> var m := ProgramMaterial(p, r.value.order, Never(), |r.value.order|);
      r.value == PlanFrom(p, p, r.value.order, m.passes, m.results, ScalarBackend(admit), LiteralWords(p, r.value.order))
    ensures r.None? ==> forall order :: !ScalarAccepts(p, admit, order)
  {
    var ordered := Structure(p);
    if ordered.None? {
      return None;
    }
    var order := ordered.value;
    var passes, results := Materialise(p, order, Never());
    assert ResultsRight(p, order, results, passes) by { AllResultsRight(p, order, Never(), passes, results); }
    MaterialCount(p, order, Never(), |order|);
    r := Finish(p, p, order, passes, results, ScalarBackend(admit), LiteralWords(p, order));
    if r.None? {
      forall other ensures !ScalarAccepts(p, admit, other) {
        if Structured(p, other) {
          OrderUnique(p, Some(order), Some(other));
        }
      }
    }
  }

  // ----- reference -----

  method EvaluateMap(m: Map, load: Loader) returns (word: int)
    ensures word == MapWord(m, load)
  {
    var values: map<Name, int>, j := map[], 0;
    while j < |m.nodes|
      invariant 0 <= j <= |m.nodes| && values == Values(m.nodes, load, j)
    {
      values := values[m.nodes[j].id := NodeWord(m.nodes[j], values, load)];
      j := j + 1;
    }
    word := ValueOf(values, m.result);
  }

  method EvaluateCell(g: Grid, r: int, c: int) returns (word: int)
    ensures word == CellWord(g, r, c)
  {
    word := 0;
    var k := 0;
    while k < g.kernel.extent
      invariant 0 <= k <= g.kernel.extent && word == FoldedTo(g, r, c, k)
    {
      var term := EvaluateMap(g.kernel.body, Sampler(g, r, c, k));
      word := Accumulated(g.kernel.sum, word, term);
      k := k + 1;
    }
    if g.post.Some? {
      word := EvaluateMap(g.post.value, Constant(word));
    }
  }

  method EvaluateGrid(g: Grid) returns (plane: Plane)
    requires g.columns > 0
    ensures plane == EvalGrid(g)
  {
    var words: seq<int>, r := [], 0;
    ghost var f := CellField(g);
    while r < g.rows
      invariant 0 <= r <= g.rows && Partial(g.columns, f, words, r, 0)
    {
      var c := 0;
      while c < g.columns
        invariant 0 <= c <= g.columns && Partial(g.columns, f, words, r, c)
      {
        var word := EvaluateCell(g, r, c);
        AppendCell(g.columns, f, words, r, c);
        words := words + [word];
        c := c + 1;
      }
      AppendRow(g.columns, f, words, r);
      r := r + 1;
    }
    TableDone(g.rows, g.columns, f, words);
    plane := Plane(g.rows, g.columns, words);
  }

  method EvaluateStages(p: Program, order: seq<string>) returns (outputs: map<string, Plane>)
    requires ProgramFormed(p) && StageOrdered(p, order)
    ensures outputs == StagePlanes(p, order, |order|)
  {
    outputs := map[];
    var k := 0;
    while k < |order|
      invariant 0 <= k <= |order| && outputs == StagePlanes(p, order, k)
    {
      assert StagePlaced(p, order, k);
      outputs := EvaluateNext(p, order, k, outputs);
      k := k + 1;
    }
  }

  method EvaluateNext(p: Program, order: seq<string>, k: nat, before: map<string, Plane>) returns (outputs: map<string, Plane>)
    requires ProgramFormed(p) && k < |order| && order[k] in p.stages && before == StagePlanes(p, order, k)
    ensures outputs == StagePlanes(p, order, k + 1)
  {
    assert p.stages[order[k]].columns > 0 by { assert StageAdmitted(p, order[k]); }
    var plane := EvaluateGrid(BoundStage(p.stages[order[k]], before));
    outputs := before[order[k] := plane];
  }

  /** The direct interpreter: every stage evaluated from the source in order, and the outputs published. */
  method Reference(p: Program) returns (r: Option<seq<Published>>, ghost order: seq<string>)
    ensures r.Some? ==> Structured(p, order) && r.value == Meaning(p, order)
    ensures r.None? ==> forall o :: !Structured(p, o)
  {
    var ordered := Structure(p);
    order := [];
    if ordered.None? {
      return None, order;
    }
    order := ordered.value;
    var outputs := EvaluateStages(p, ordered.value);
    r := Some(seq(|p.outputs|, i requires 0 <= i < |p.outputs| =>
                Published(p.outputs[i], if p.outputs[i] in outputs then outputs[p.outputs[i]] else Plane(0, 0, []))));
  }

  /**
    Compile and run beside the direct interpreter: the interpreter gives the meaning of every structured program, a run
    happens exactly for the programs the compiler accepts, and it publishes what the interpreter computes.
   */
  method CompileAndCompare(p: Program, admit: Grid -> bool) returns (published: Option<seq<Published>>, direct: Option<seq<Published>>)
    ensures published.Some? <==> exists order :: ScalarAccepts(p, admit, order)
    ensures direct.Some? <==> exists order :: Structured(p, order)
    ensures forall order :: Structured(p, order) ==> direct == Some(Meaning(p, order))
    ensures published.Some? ==> direct == published
  {
    var plan := CompileScalar(p, admit);
    ghost var order;
    direct, order := Reference(p);
    forall other | Structured(p, other) ensures other == order {
      OrderUnique(p, Some(order), Some(other));
    }
    published := None;
    if plan.Some? {
      var planes, held := Execute(p, plan.value);
      published := Some(planes);
    }
  }
}

/** Materialising one stage: its fold steps, the accumulation of their terms, and its post map. */
module ArrayStages {
  import opened Base
  import opened Tables
  import opened ArrayProgram
  import opened ArrayPasses
  import opened ArrayCells
  import opened ArrayMaterial
  import opened ArrayEmission

  function KernelLoads(g: Grid, k: nat): Loaders {
    (r: int, c: int) => Sampler(g, r, c, k)
  }

  function PostLoads(g: Grid): Loaders {
    (r: int, c: int) => Constant(FoldedTo(g, r, c, g.kernel.extent))
  }

  function TermField(g: Grid, k: nat): Field {
    NodeField(g.kernel.body, KernelLoads(g, k), g.kernel.body.result)
  }

  function AccField(g: Grid, k: nat): Field {
    (r: int, c: int) => FoldedTo(g, r, c, k)
  }

  // ----- Loads -----

  ghost predicate InputReady(p: Program, s: Stage, results: map<string, nat>, passes: seq<Pass>, g: Grid, i: nat)
    requires i < |s.inputs| == |g.inputs|
  {
    match s.inputs[i]
    case Literal(plane) => g.inputs[i] == plane
    case From(n) => n in results && results[n] < |passes| && Made(p, passes, |passes|)[results[n]] == g.inputs[i]
  }

  /** `g` is the stage `s` bound to planes the passes have made. */
  ghost predicate StageBound(p: Program, s: Stage, results: map<string, nat>, passes: seq<Pass>, g: Grid) {
    && s.name in p.stages && p.stages[s.name] == s
    && g == Grid(g.inputs, s.rows, s.columns, s.boundary, s.kernel, s.post) && |g.inputs| == |s.inputs|
    && forall i {:trigger InputReady(p, s, results, passes, g, i)} :: 0 <= i < |s.inputs| ==> InputReady(p, s, results, passes, g, i)
  }

  lemma {:induction false} StageBoundLater(p: Program, s: Stage, results: map<string, nat>, passes: seq<Pass>, longer: seq<Pass>, g: Grid)
    requires StageBound(p, s, results, passes, g) && passes <= longer
    ensures StageBound(p, s, results, longer, g)
  {
    forall i | 0 <= i < |s.inputs| ensures InputReady(p, s, results, longer, g, i) {
      assert InputReady(p, s, results, passes, g, i);
      if s.inputs[i].From? {
        Extends(p, passes, longer, results[s.inputs[i].stage]);
      }
    }
  }

  lemma {:induction false} GatherReads(p: Program, s: Stage, results: map<string, nat>, k: nat, view: Name, g: Grid, passes: seq<Pass>)
    requires StageBound(p, s, results, passes, g) && view in s.kernel.views && s.kernel.views[view].input < |s.inputs|
    ensures GatherOperand(s, s.kernel.views[view], GatherArgs(s, results, view), Made(p, passes, |passes|)) == g.inputs[s.kernel.views[view].input]
    ensures forall n :: n in Refs(LoadPass(s, results, Gathering(k), view)) ==> n < |passes|
  {
    assert InputReady(p, s, results, passes, g, s.kernel.views[view].input);
  }

  lemma {:induction false} GatherLoads(g: Grid, v: View, view: Name, k: nat)
    requires view in g.kernel.views && g.kernel.views[view] == v && v.input < |g.inputs|
    ensures var f := GatherField(g.inputs[v.input], v, g.boundary, k);
            Holds(EvalGrid(ScalarGrid([Plane(g.rows, g.columns, Table(g.rows, g.columns, f))], g.rows, g.columns, Load, 0)),
                  g.rows, g.columns, LoadField(KernelLoads(g, k), view))
  {
    var f := GatherField(g.inputs[v.input], v, g.boundary, k);
    var packed := Plane(g.rows, g.columns, Table(g.rows, g.columns, f));
    forall r, c | 0 <= r < g.rows && 0 <= c < g.columns
      ensures OperandWord(packed, r, c) % U32 == LoadField(KernelLoads(g, k), view)(r, c) {
      GatherWord(g.inputs[v.input], v, g.boundary, k, g.rows, g.columns, r, c);
      assert Sampler(g, r, c, k)(view) == SampleView(v, g.inputs, g.boundary, r, c, k);
    }
    LoadHolds(packed, g.rows, g.columns, LoadField(KernelLoads(g, k), view));
  }

  /** A gather pass holds what the kernel's view samples. */
  lemma {:induction false} GatherReady(p: Program, s: Stage, results: map<string, nat>, k: nat, view: Name, g: Grid, passes: seq<Pass>)
    requires StageBound(p, s, results, passes, g) && view in s.kernel.views && s.kernel.views[view].input < |s.inputs|
    ensures LoadReady(p, s, LoadPass(s, results, Gathering(k), view), KernelLoads(g, k), view, passes)
  {
    GatherReads(p, s, results, k, view, g, passes);
    GatherLoads(g, s.kernel.views[view], view, k);
  }

  lemma {:induction false} KernelLoadsReady(p: Program, s: Stage, results: map<string, nat>, k: nat, g: Grid, passes: seq<Pass>, names: set<string>)
    requires StageFormed(s, names) && StageBound(p, s, results, passes, g)
    ensures LoadsReady(p, s, results, Gathering(k), s.kernel.body, KernelLoads(g, k), passes)
  {
    var m := s.kernel.body;
    forall j | 0 <= j < |m.nodes| ensures NodeLoadReady(p, s, results, Gathering(k), m, KernelLoads(g, k), passes, j) {
      if m.nodes[j].op == Load {
        assert NodeFormed(m.nodes, j, s.kernel.views.Keys);
        GatherReady(p, s, results, k, m.nodes[j].view, g, passes);
      }
    }
  }

  lemma {:induction false} PostLoadReady(p: Program, s: Stage, results: map<string, nat>, acc: nat, view: Name, g: Grid, passes: seq<Pass>)
    requires g.rows == s.rows && g.columns == s.columns && acc < |passes|
    requires Holds(Made(p, passes, |passes|)[acc], s.rows, s.columns, AccField(g, g.kernel.extent))
    ensures LoadReady(p, s, LoadPass(s, results, Accumulator(acc), view), PostLoads(g), view, passes)
  {
    var plane := Made(p, passes, |passes|)[acc];
    assert PlanesAt(Made(p, passes, |passes|), [acc]) == [plane];
    forall r, c | 0 <= r < s.rows && 0 <= c < s.columns ensures OperandWord(plane, r, c) % U32 == LoadField(PostLoads(g), view)(r, c) {
      HeldWord(plane, s.rows, s.columns, AccField(g, g.kernel.extent), r, c);
    }
    LoadHolds(plane, s.rows, s.columns, LoadField(PostLoads(g), view));
  }

  // ----- Folding -----

  lemma {:induction false} TermInRange(g: Grid, k: nat, r: int, c: int)
    ensures TermField(g, k)(r, c) == MapWord(g.kernel.body, Sampler(g, r, c, k)) && 0 <= TermField(g, k)(r, c) < U32
  {
    ValueInRange(g.kernel.body.nodes, Sampler(g, r, c, k), |g.kernel.body.nodes|, g.kernel.body.result);
  }

  lemma {:induction false} FoldedInRange(g: Grid, r: int, c: int, k: nat)
    ensures 0 <= FoldedTo(g, r, c, k) < U32
  {
    if k > 0 {
      FoldedInRange(g, r, c, k - 1);
      TermInRange(g, k - 1, r, c);
    }
  }

  /** Seeding with the first term agrees with seeding with zero. */
  lemma {:induction false} FirstTerm(g: Grid, plane: Plane)
    requires Holds(plane, g.rows, g.columns, TermField(g, 0))
    ensures Holds(plane, g.rows, g.columns, AccField(g, 1))
  {
    forall r, c | 0 <= r < g.rows && 0 <= c < g.columns ensures TermField(g, 0)(r, c) == AccField(g, 1)(r, c) {
      TermInRange(g, 0, r, c);
      assert FoldedTo(g, r, c, 1) == Accumulated(g.kernel.sum, FoldedTo(g, r, c, 0), MapWord(g.kernel.body, Sampler(g, r, c, 0)));
    }
    HoldsSame(plane, g.rows, g.columns, TermField(g, 0), AccField(g, 1));
  }

  lemma {:induction false} FoldCell(g: Grid, k: nat, operands: seq<Plane>, r: nat, c: nat)
    requires |operands| == 2 && OperandWord(operands[0], r, c) == FoldedTo(g, r, c, k) && OperandWord(operands[1], r, c) == TermField(g, k)(r, c)
    ensures CellWord(ScalarGrid(operands, g.rows, g.columns, FoldOp(g.kernel.sum), 0), r, c) == FoldedTo(g, r, c, k + 1)
  {
    var a, t, op := FoldedTo(g, r, c, k), TermField(g, k)(r, c), FoldOp(g.kernel.sum);
    assert 0 <= a < U32 && 0 <= t < U32 by { FoldedInRange(g, r, c, k); TermInRange(g, k, r, c); }
    assert FoldedTo(g, r, c, k + 1) == Accumulated(g.kernel.sum, a, t) by { TermInRange(g, k, r, c); }
    assert OperandWords(operands, r, c) == [a, t];
    assert CellWord(ScalarGrid(operands, g.rows, g.columns, op, 0), r, c) == OpWord(op, [a, t], 0, 0) % U32 by {
      ScalarCell(operands, g.rows, g.columns, op, 0, r, c);
    }
    AccumulateWord(g.kernel.sum, a, t);
  }

  lemma {:induction false} AccumulateWord(sum: bool, a: int, t: int)
    requires 0 <= a < U32 && 0 <= t < U32
    ensures OpWord(FoldOp(sum), [a, t], 0, 0) % U32 == Accumulated(sum, a, t)
  {
  }

  /** Adding the next term to the accumulator gives the next accumulator. */
  lemma {:induction false} FoldHolds(p: Program, g: Grid, k: nat, acc: nat, term: nat, planes: Planes)
    requires acc < |planes| && term < |planes|
    requires Holds(planes[acc], g.rows, g.columns, AccField(g, k)) && Holds(planes[term], g.rows, g.columns, TermField(g, k))
    ensures Holds(RunPass(p, Pass(g.rows, g.columns, Apply(FoldOp(g.kernel.sum), [acc, term], 0)), planes), g.rows, g.columns, AccField(g, k + 1))
  {
    var operands := PlanesAt(planes, [acc, term]);
    var h := ScalarGrid(operands, g.rows, g.columns, FoldOp(g.kernel.sum), 0);
    forall r, c | 0 <= r < g.rows && 0 <= c < g.columns ensures CellField(h)(r, c) == AccField(g, k + 1)(r, c) {
      HeldWord(operands[0], g.rows, g.columns, AccField(g, k), r, c);
      HeldWord(operands[1], g.rows, g.columns, TermField(g, k), r, c);
      FoldCell(g, k, operands, r, c);
    }
    EvalHolds(h);
    HoldsSame(EvalGrid(h), g.rows, g.columns, CellField(h), AccField(g, k + 1));
  }

  // ----- One stage -----

  /** The passes a stage is materialised to. */
  function ScalarPasses(s: Stage): int {
    Times(|s.kernel.body.nodes|, s.kernel.extent) + s.kernel.extent - 1 + if s.post.Some? then |s.post.value.nodes| else 0
  }

  ghost predicate StageGrown(p: Program, g: Grid, k: nat, field: Field, passes: seq<Pass>, out: seq<Pass>, ref: nat) {
    && passes <= out && PassesFormed(out) && ref < |out| && Holds(Made(p, out, |out|)[ref], g.rows, g.columns, field)
  }

  function FoldPass(g: Grid, acc: nat, term: nat): Pass {
    Pass(g.rows, g.columns, Apply(FoldOp(g.kernel.sum), [acc, term], 0))
  }

  lemma {:induction false} FoldGrown(p: Program, g: Grid, k: nat, passes: seq<Pass>, out: seq<Pass>, acc: nat, term: nat)
    requires StageGrown(p, g, k, TermField(g, k), passes, out, term) && acc < |passes|
    requires Holds(Made(p, passes, |passes|)[acc], g.rows, g.columns, AccField(g, k))
    ensures StageGrown(p, g, k, AccField(g, k + 1), passes, out + [FoldPass(g, acc, term)], |out|)
  {
    var pass := FoldPass(g, acc, term);
    Extends(p, passes, out, acc);
    FoldHolds(p, g, k, acc, term, Made(p, out, |out|));
    FoldPassFormed(g, out, acc, term);
    GrownBy(p, g, k, AccField(g, k + 1), passes, out, pass);
  }

  lemma {:induction false} GrownBy(p: Program, g: Grid, k: nat, field: Field, passes: seq<Pass>, out: seq<Pass>, pass: Pass)
    requires passes <= out && PassesFormed(out + [pass]) && Holds(RunPass(p, pass, Made(p, out, |out|)), g.rows, g.columns, field)
    ensures StageGrown(p, g, k, field, passes, out + [pass], |out|)
  {
    MadeAppend(p, out, pass);
  }

  lemma {:induction false} FoldPassFormed(g: Grid, out: seq<Pass>, acc: nat, term: nat)
    requires PassesFormed(out) && acc < |out| && term < |out|
    ensures PassesFormed(out + [FoldPass(g, acc, term)])
  {
    AppendFormed(out, FoldPass(g, acc, term));
  }

  /** One fold step: the kernel's map, then its accumulation. */
  method FoldStep(p: Program, s: Stage, results: map<string, nat>, passes: seq<Pass>, acc: nat, k: nat, ghost g: Grid, ghost names: set<string>)
    returns (out: seq<Pass>, next: nat)
    requires StageFormed(s, names) && StageBound(p, s, results, passes, g) && PassesFormed(passes) && GathersFrom(passes, results.Values)
    requires k > 0 ==> acc < |passes| && Holds(Made(p, passes, |passes|)[acc], g.rows, g.columns, AccField(g, k))
    ensures StageGrown(p, g, k, AccField(g, k + 1), passes, out, next) && GathersFrom(out, results.Values)
    ensures var e := StepEmission(s, results, |passes|, acc, k); out == passes + e.passes && next == e.result
  {
    assert LoadsReady(p, s, results, Gathering(k), s.kernel.body, KernelLoads(g, k), passes) by {
      KernelLoadsReady(p, s, results, k, g, passes, names);
    }
    var term: nat;
    out, term := EmitMap(p, s, results, Gathering(k), s.kernel.body, s.kernel.views.Keys, KernelLoads(g, k), passes);
    if k == 0 {
      assert Holds(Made(p, out, |out|)[term], g.rows, g.columns, AccField(g, 1)) by { FirstTerm(g, Made(p, out, |out|)[term]); }
      next := term;
    } else {
      var pass := Pass(s.rows, s.columns, Apply(FoldOp(s.kernel.sum), [acc, term], 0));
      assert StageGrown(p, g, k, AccField(g, k + 1), passes, out + [pass], |out|) by { FoldGrown(p, g, k, passes, out, acc, term); }
      assert GathersFrom(out + [pass], results.Values) by { GathersAppend(out, pass, results.Values); }
      TermJoined(s, results, passes, acc, k, out, term, pass);
      next := |out|;
      out := out + [pass];
    }
  }

  lemma {:induction false} TermJoined(s: Stage, results: map<string, nat>, passes: seq<Pass>, acc: nat, k: nat, out: seq<Pass>, term: nat, pass: Pass)
    requires var e := MapEmission(s, results, Gathering(k), s.kernel.body, |passes|); out == passes + e.passes && term == e.result
    requires k > 0 && pass == Pass(s.rows, s.columns, Apply(FoldOp(s.kernel.sum), [acc, term], 0))
    ensures var e := StepEmission(s, results, |passes|, acc, k); out + [pass] == passes + e.passes && |out| == e.result
  {
  }

  lemma {:induction false} FoldCount(s: Stage, results: map<string, nat>, base: nat, k: nat)
    ensures |FoldEmission(s, results, base, k).passes| == Times(|s.kernel.body.nodes|, k) + if k == 0 then 0 else k - 1
  {
    if k > 0 {
      FoldCount(s, results, base, k - 1);
    }
  }

  /** A stage is materialised to one pass per node and fold step, one per later step, and one per post node. */
  lemma {:induction false} ScalarCount(s: Stage, results: map<string, nat>, base: nat)
    requires s.kernel.extent >= 1
    ensures |ScalarEmission(s, results, base).passes| == ScalarPasses(s)
  {
    FoldCount(s, results, base, s.kernel.extent);
  }

  /** A stage's passes end in a plane equal to the stage's own evaluation. */
  method ScalarStage(p: Program, s: Stage, results: map<string, nat>, passes: seq<Pass>, ghost g: Grid, ghost names: set<string>)
    returns (out: seq<Pass>, result: nat)
    requires StageFormed(s, names) && StageBound(p, s, results, passes, g) && PassesFormed(passes) && GathersFrom(passes, results.Values)
    ensures var e := ScalarEmission(s, results, |passes|); out == passes + e.passes && result == e.result
    ensures PassesFormed(out) && GathersFrom(out, results.Values)
    ensures result < |out| && Made(p, out, |out|)[result] == EvalGrid(g)
  {
    out, result := EmitFold(p, s, results, passes, g, names);
    if s.post.Some? {
      assert StageBound(p, s, results, out, g) by { StageBoundLater(p, s, results, passes, out, g); }
      ghost var fold, acc := out, result;
      out, result := EmitPost(p, s, results, out, result, g, names);
      PostJoined(s, results, passes, fold, acc, out, result);
    } else {
      assert Holds(Made(p, out, |out|)[result], g.rows, g.columns, CellField(g)) by {
        HoldsSame(Made(p, out, |out|)[result], g.rows, g.columns, AccField(g, s.kernel.extent), CellField(g));
      }
    }
    assert Made(p, out, |out|)[result] == EvalGrid(g) by { HoldsIsEval(Made(p, out, |out|)[result], g); }
  }

  lemma {:induction false} PostJoined(s: Stage, results: map<string, nat>, passes: seq<Pass>, fold: seq<Pass>, acc: nat, out: seq<Pass>, result: nat)
    requires s.post.Some?
    requires var e := FoldEmission(s, results, |passes|, s.kernel.extent); fold == passes + e.passes && acc == e.result
    requires var e := MapEmission(s, results, Accumulator(acc), s.post.value, |fold|); out == fold + e.passes && result == e.result
    ensures var e := ScalarEmission(s, results, |passes|); out == passes + e.passes && result == e.result
  {
  }

  lemma {:induction false} StepJoined(s: Stage, results: map<string, nat>, start: seq<Pass>, passes: seq<Pass>, acc: nat, k: nat, out: seq<Pass>, next: nat)
    requires var e := FoldEmission(s, results, |start|, k); passes == start + e.passes && acc == e.result
    requires var e := StepEmission(s, results, |passes|, acc, k); out == passes + e.passes && next == e.result
    ensures var e := FoldEmission(s, results, |start|, k + 1); out == start + e.passes && next == e.result
  {
  }

  /** All fold steps of a stage. */
  method EmitFold(p: Program, s: Stage, results: map<string, nat>, passes: seq<Pass>, ghost g: Grid, ghost names: set<string>)
    returns (out: seq<Pass>, result: nat)
    requires StageFormed(s, names) && StageBound(p, s, results, passes, g) && PassesFormed(passes) && GathersFrom(passes, results.Values)
    ensures StageGrown(p, g, 0, AccField(g, g.kernel.extent), passes, out, result) && GathersFrom(out, results.Values)
    ensures var e := FoldEmission(s, results, |passes|, s.kernel.extent); out == passes + e.passes && result == e.result
  {
    out, result := passes, 0;
    var k := 0;
    while k < s.kernel.extent
      invariant 0 <= k <= s.kernel.extent && FoldState(p, s, results, passes, out, result, k, g)
    {
      out, result := NextFoldStep(p, s, results, passes, out, result, k, g, names);
      k := k + 1;
    }
  }

  /** The state of a stage's fold after `k` steps. */
  ghost predicate FoldState(p: Program, s: Stage, results: map<string, nat>, passes: seq<Pass>, out: seq<Pass>, acc: nat, k: nat, g: Grid) {
    && passes <= out && PassesFormed(out) && StageBound(p, s, results, out, g) && GathersFrom(out, results.Values)
    && out == passes + FoldEmission(s, results, |passes|, k).passes && acc == FoldEmission(s, results, |passes|, k).result
    && (k > 0 ==> acc < |out| && Holds(Made(p, out, |out|)[acc], g.rows, g.columns, AccField(g, k)))
  }

  method NextFoldStep(p: Program, s: Stage, results: map<string, nat>, ghost start: seq<Pass>, passes: seq<Pass>, acc: nat, k: nat, ghost g: Grid, ghost names: set<string>)
    returns (out: seq<Pass>, next: nat)
    requires StageFormed(s, names) && FoldState(p, s, results, start, passes, acc, k, g)
    ensures FoldState(p, s, results, start, out, next, k + 1, g)
  {
    out, next := FoldStep(p, s, results, passes, acc, k, g, names);
    assert StageBound(p, s, results, out, g) by { StageBoundLater(p, s, results, passes, out, g); }
    StepJoined(s, results, start, passes, acc, k, out, next);
  }

  method EmitPost(p: Program, s: Stage, results: map<string, nat>, passes: seq<Pass>, acc: nat, ghost g: Grid, ghost names: set<string>)
    returns (out: seq<Pass>, result: nat)
    requires StageFormed(s, names) && s.post.Some? && StageBound(p, s, results, passes, g) && PassesFormed(passes) && GathersFrom(passes, results.Values)
    requires acc < |passes| && Holds(Made(p, passes, |passes|)[acc], g.rows, g.columns, AccField(g, g.kernel.extent))
    ensures StageGrown(p, g, 0, CellField(g), passes, out, result) && GathersFrom(out, results.Values)
    ensures var e := MapEmission(s, results, Accumulator(acc), s.post.value, |passes|); out == passes + e.passes && result == e.result
  {
    var m := s.post.value;
    assert LoadsReady(p, s, results, Accumulator(acc), m, PostLoads(g), passes) by {
      forall j | 0 <= j < |m.nodes| ensures NodeLoadReady(p, s, results, Accumulator(acc), m, PostLoads(g), passes, j) {
        PostLoadReady(p, s, results, acc, m.nodes[j].view, g, passes);
      }
    }
    out, result := EmitMap(p, s, results, Accumulator(acc), m, {REDUCED}, PostLoads(g), passes);
    assert Holds(Made(p, out, |out|)[result], g.rows, g.columns, CellField(g)) by {
      HoldsSame(Made(p, out, |out|)[result], g.rows, g.columns, NodeField(m, PostLoads(g), m.result), CellField(g));
    }
  }
}

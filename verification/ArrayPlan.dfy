/** Whole-program materialisation: stages to passes, liveness-driven release, and execution of the plan. */
module ArrayPlan {
  import opened Base
  import opened ArrayProgram
  import opened ArrayPasses
  import opened ArrayMaterial
  import opened ArrayEmission
  import opened ArrayStages
  import opened StageOrder

  // ----- Stages to passes -----

  /** Every ordered stage's result plane is the stage's own evaluation. */
  ghost predicate ResultsHold(p: Program, order: seq<string>, k: nat, results: map<string, nat>, passes: seq<Pass>)
    requires k <= |order|
  {
    && results.Keys == Elements(order[..k])
    && forall n {:trigger ResultHolds(StagePlanes(p, order, k), results, Made(p, passes, |passes|), n)} :: n in results ==>
      ResultHolds(StagePlanes(p, order, k), results, Made(p, passes, |passes|), n)
  }

  ghost predicate ResultHolds(stages: map<string, Plane>, results: map<string, nat>, made: Planes, n: string)
    requires n in results
  {
    results[n] < |made| && n in stages && made[results[n]] == stages[n]
  }

  lemma {:induction false} BoundStageReady(p: Program, order: seq<string>, k: nat, results: map<string, nat>, passes: seq<Pass>)
    requires k < |order| && StagePlaced(p, order, k) && ResultsHold(p, order, k, results, passes)
    requires p.stages[order[k]].name == order[k]
    ensures StageBound(p, p.stages[order[k]], results, passes, BoundStage(p.stages[order[k]], StagePlanes(p, order, k)))
  {
    var s := p.stages[order[k]];
    var g := BoundStage(s, StagePlanes(p, order, k));
    forall i | 0 <= i < |s.inputs| ensures InputReady(p, s, results, passes, g, i) {
      if s.inputs[i].From? {
        assert s.inputs[i].stage in StageDeps(s);
        assert ResultHolds(StagePlanes(p, order, k), results, Made(p, passes, |passes|), s.inputs[i].stage);
      }
    }
  }

  lemma {:induction false} ResultsGrow(p: Program, order: seq<string>, k: nat, results: map<string, nat>, passes: seq<Pass>, out: seq<Pass>, result: nat)
    requires k < |order| && StagePlaced(p, order, k) && ResultsHold(p, order, k, results, passes) && passes <= out && result < |out|
    requires Made(p, out, |out|)[result] == EvalGrid(BoundStage(p.stages[order[k]], StagePlanes(p, order, k)))
    ensures ResultsHold(p, order, k + 1, results[order[k] := result], out)
  {
    var next, stages, made := results[order[k] := result], StagePlanes(p, order, k + 1), Made(p, out, |out|);
    assert next.Keys == Elements(order[..k + 1]) by {
      assert order[..k + 1] == order[..k] + [order[k]];
    }
    forall n | n in next ensures ResultHolds(stages, next, made, n) {
      if n != order[k] {
        assert ResultHolds(StagePlanes(p, order, k), results, Made(p, passes, |passes|), n);
        Extends(p, passes, out, results[n]);
      }
    }
  }

  lemma {:induction false} ResultsInRange(p: Program, order: seq<string>, k: nat, results: map<string, nat>, passes: seq<Pass>)
    requires k <= |order| && ResultsHold(p, order, k, results, passes)
    ensures forall n :: n in results ==> results[n] < |passes|
  {
    forall n | n in results ensures results[n] < |passes| {
      assert ResultHolds(StagePlanes(p, order, k), results, Made(p, passes, |passes|), n);
    }
  }

  /** A fused pass evaluates the whole stage. */
  lemma {:induction false} FusedRuns(p: Program, s: Stage, results: map<string, nat>, passes: seq<Pass>, g: Grid)
    requires StageBound(p, s, results, passes, g)
    ensures RunPass(p, Pass(s.rows, s.columns, Fused(s.name, ProducersOf(s, results))), Made(p, passes, |passes|)) == EvalGrid(g)
  {
    var planes := Produced(ProducersOf(s, results), Made(p, passes, |passes|));
    forall i | 0 <= i < |s.inputs| ensures InputPlane(s.inputs[i], planes) == g.inputs[i] {
      assert InputReady(p, s, results, passes, g, i);
    }
    assert BoundStage(s, planes).inputs == g.inputs;
  }

  lemma {:induction false} FusedInOrder(p: Program, s: Stage, results: map<string, nat>, passes: seq<Pass>)
    requires PassesFormed(passes) && forall n :: n in results ==> results[n] < |passes|
    ensures PassesFormed(passes + [Pass(s.rows, s.columns, Fused(s.name, ProducersOf(s, results)))])
  {
    AppendFormed(passes, Pass(s.rows, s.columns, Fused(s.name, ProducersOf(s, results))));
  }

  /** One stage, fused into a single pass or materialised node by node. */
  method EmitStage(p: Program, s: Stage, results: map<string, nat>, passes: seq<Pass>, fuse: bool, ghost g: Grid, ghost names: set<string>)
    returns (out: seq<Pass>, result: nat)
    requires StageFormed(s, names) && StageBound(p, s, results, passes, g) && PassesFormed(passes) && GathersFrom(passes, results.Values)
    requires forall n :: n in results ==> results[n] < |passes|
    ensures GathersFrom(out, results.Values)
    ensures var e := StageEmission(s, results, |passes|, fuse); out == passes + e.passes && result == e.result
    ensures PassesFormed(out)
    ensures result < |out| && Made(p, out, |out|)[result] == EvalGrid(g)
  {
    if fuse {
      var pass := Pass(s.rows, s.columns, Fused(s.name, ProducersOf(s, results)));
      assert RunPass(p, pass, Made(p, passes, |passes|)) == EvalGrid(g) by { FusedRuns(p, s, results, passes, g); }
      assert PassesFormed(passes + [pass]) by { FusedInOrder(p, s, results, passes); }
      GathersAppend(passes, pass, results.Values);
      MadeAppend(p, passes, pass);
      out, result := passes + [pass], |passes|;
    } else {
      out, result := ScalarStage(p, s, results, passes, g, names);
    }
  }

  /** The number of passes under any choice of fused stages. */
  function PassCount(p: Program, order: seq<string>, fuse: string -> bool, k: nat): int
    requires k <= |order|
  {
    if k == 0 then 0
    else
      var n := order[k - 1];
      PassCount(p, order, fuse, k - 1) + (if n !in p.stages then 0 else if fuse(n) then 1 else ScalarPasses(p.stages[n]))
  }

  lemma {:induction false} MaterialCount(p: Program, order: seq<string>, fuse: string -> bool, k: nat)
    requires ProgramFormed(p) && k <= |order|
    ensures |ProgramMaterial(p, order, fuse, k).passes| == PassCount(p, order, fuse, k)
  {
    if k > 0 {
      MaterialCount(p, order, fuse, k - 1);
      var before, n := ProgramMaterial(p, order, fuse, k - 1), order[k - 1];
      if n in p.stages {
        assert p.stages[n].kernel.extent >= 1 by { assert StageAdmitted(p, n); }
        ScalarCount(p.stages[n], before.results, |before.passes|);
      }
    }
  }

  method Materialise(p: Program, order: seq<string>, fuse: string -> bool) returns (passes: seq<Pass>, results: map<string, nat>)
    requires ProgramFormed(p) && StageOrdered(p, order)
    ensures Materialised(p, order, |order|, fuse, passes, results)
  {
    passes, results := [], map[];
    NothingMaterialised(p, order, fuse);
    var k := 0;
    while k < |order|
      invariant 0 <= k <= |order| && Materialised(p, order, k, fuse, passes, results)
    {
      passes, results := MaterialiseNext(p, order, k, fuse, passes, results);
      k := k + 1;
    }
  }

  lemma {:induction false} GathersStay(p: Program, order: seq<string>, k: nat, results: map<string, nat>, passes: seq<Pass>, out: seq<Pass>, result: nat)
    requires k < |order| && StagePlaced(p, order, k) && ResultsHold(p, order, k, results, passes) && GathersFrom(out, results.Values)
    ensures GathersFrom(out, results[order[k] := result].Values)
  {
    var next := results[order[k] := result];
    forall v | v in results.Values ensures v in next.Values {
      var n :| n in results && results[n] == v;
      assert n in next && next[n] == v;
    }
    GathersWeaken(out, results.Values, next.Values);
  }

  /** The first `k` stages are materialised. */
  ghost predicate Materialised(p: Program, order: seq<string>, k: nat, fuse: string -> bool, passes: seq<Pass>, results: map<string, nat>)
    requires k <= |order|
  {
    && Material(passes, results) == ProgramMaterial(p, order, fuse, k)
    && PassesFormed(passes) && ResultsHold(p, order, k, results, passes)
    && GathersFrom(passes, results.Values)
  }

  lemma {:induction false} NothingMaterialised(p: Program, order: seq<string>, fuse: string -> bool)
    requires StageOrdered(p, order)
    ensures Materialised(p, order, 0, fuse, [], map[])
  {
  }

  method MaterialiseNext(p: Program, order: seq<string>, k: nat, fuse: string -> bool, passes: seq<Pass>, results: map<string, nat>)
    returns (out: seq<Pass>, next: map<string, nat>)
    requires ProgramFormed(p) && StageOrdered(p, order) && k < |order| && Materialised(p, order, k, fuse, passes, results)
    ensures Materialised(p, order, k + 1, fuse, out, next)
  {
    assert StagePlaced(p, order, k) && StageAdmitted(p, order[k]);
    var s := p.stages[order[k]];
    ghost var g := BoundStage(s, StagePlanes(p, order, k));
    assert StageBound(p, s, results, passes, g) by { BoundStageReady(p, order, k, results, passes); }
    ResultsInRange(p, order, k, results, passes);
    var result: nat;
    out, result := EmitStage(p, s, results, passes, fuse(order[k]), g, p.stages.Keys);
    ResultsGrow(p, order, k, results, passes, out, result);
    next := results[order[k] := result];
    assert GathersFrom(out, next.Values) by { GathersStay(p, order, k, results, passes, out, result); }
  }
}

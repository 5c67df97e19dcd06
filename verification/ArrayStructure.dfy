/** Fused planning looks at the structure of a program only: the words of its literals never matter. */
module ArrayStructure {
  import opened Base
  import opened Scheduling
  import opened ArrayProgram
  import opened ArrayEmission
  import opened StageOrder
  import opened ArrayRun
  import opened ArrayCompile
  import opened ArrayFusion

  function Zeroed(s: Stage): Stage {
    s.(inputs := ZeroInputs(s.inputs))
  }

  // ----- One stage -----

  lemma {:induction false} SameGatherArgs(s: Stage, results: map<string, nat>, view: Name)
    ensures GatherArgs(Zeroed(s), results, view) == GatherArgs(s, results, view)
  {
  }

  lemma {:induction false} SameNodePass(s: Stage, results: map<string, nat>, from: LoadFrom, m: Map, base: nat, node: Node)
    ensures NodePassOf(Zeroed(s), results, from, m, base, node) == NodePassOf(s, results, from, m, base, node)
  {
    SameGatherArgs(s, results, node.view);
  }

  lemma {:induction false} SameMapPasses(s: Stage, results: map<string, nat>, from: LoadFrom, m: Map, base: nat, k: nat)
    requires k <= |m.nodes|
    ensures MapPasses(Zeroed(s), results, from, m, base, k) == MapPasses(s, results, from, m, base, k)
  {
    if k > 0 {
      SameMapPasses(s, results, from, m, base, k - 1);
      SameNodePass(s, results, from, m, base, m.nodes[k - 1]);
    }
  }

  lemma {:induction false} SameStep(s: Stage, results: map<string, nat>, base: nat, acc: nat, k: nat)
    ensures StepEmission(Zeroed(s), results, base, acc, k) == StepEmission(s, results, base, acc, k)
  {
    SameMapPasses(s, results, Gathering(k), s.kernel.body, base, |s.kernel.body.nodes|);
  }

  lemma {:induction false} FoldFrom(t: Stage, s: Stage, results: map<string, nat>, base: nat, k: nat, before: Emission)
    requires k > 0 && t == Zeroed(s) && FoldEmission(t, results, base, k - 1) == before && FoldEmission(s, results, base, k - 1) == before
    ensures FoldEmission(t, results, base, k) == FoldEmission(s, results, base, k)
  {
    assert StepEmission(t, results, base + |before.passes|, before.result, k - 1) == StepEmission(s, results, base + |before.passes|, before.result, k - 1) by {
      SameStep(s, results, base + |before.passes|, before.result, k - 1);
    }
  }

  lemma {:induction false} SameFold(s: Stage, results: map<string, nat>, base: nat, k: nat)
    ensures FoldEmission(Zeroed(s), results, base, k) == FoldEmission(s, results, base, k)
  {
    if k > 0 {
      SameFold(s, results, base, k - 1);
      FoldFrom(Zeroed(s), s, results, base, k, FoldEmission(s, results, base, k - 1));
    }
  }

  lemma {:induction false} SameDeps(s: Stage)
    ensures StageDeps(Zeroed(s)) == StageDeps(s)
  {
    forall n ensures n in StageDeps(Zeroed(s)) <==> n in StageDeps(s) {
      assert forall i :: 0 <= i < |s.inputs| ==> (Zeroed(s).inputs[i].From? <==> s.inputs[i].From?);
      assert forall i :: 0 <= i < |s.inputs| && s.inputs[i].From? ==> Zeroed(s).inputs[i].stage == s.inputs[i].stage;
    }
  }

  lemma {:induction false} SameEmission(s: Stage, results: map<string, nat>, base: nat, fuse: bool)
    ensures StageEmission(Zeroed(s), results, base, fuse) == StageEmission(s, results, base, fuse)
  {
    if fuse {
      SameDeps(s);
    } else {
      SameFold(s, results, base, s.kernel.extent);
      if s.post.Some? {
        var fold := FoldEmission(s, results, base, s.kernel.extent);
        SameMapPasses(s, results, Accumulator(fold.result), s.post.value, base + |fold.passes|, |s.post.value.nodes|);
      }
    }
  }

  // ----- Whole programs -----

  lemma {:induction false} SameMaterial(p: Program, order: seq<string>, fuse: string -> bool, k: nat)
    requires k <= |order|
    ensures ProgramMaterial(Structural(p), order, fuse, k) == ProgramMaterial(p, order, fuse, k)
  {
    if k > 0 {
      SameMaterial(p, order, fuse, k - 1);
      var before, n := ProgramMaterial(p, order, fuse, k - 1), order[k - 1];
      if n in p.stages {
        assert Structural(p).stages[n] == Zeroed(p.stages[n]);
        SameEmission(p.stages[n], before.results, |before.passes|, fuse(n));
      }
    }
  }

  lemma {:induction false} SameInputWords(inputs: seq<Input>)
    ensures InputWords(ZeroInputs(inputs)) == InputWords(inputs)
  {
    if inputs != [] {
      assert ZeroInputs(inputs)[1..] == ZeroInputs(inputs[1..]);
      SameInputWords(inputs[1..]);
    }
  }

  lemma {:induction false} SameCounts(p: Program, names: seq<string>)
    ensures TotalNodes(Structural(p), names) == TotalNodes(p, names) && Evaluations(Structural(p), names) == Evaluations(p, names)
    ensures LiteralWords(Structural(p), names) == LiteralWords(p, names)
  {
    if names != [] {
      SameCounts(p, names[1..]);
      if names[0] in p.stages {
        SameInputWords(p.stages[names[0]].inputs);
      }
    }
  }

  lemma {:induction false} SameGraph(p: Program, names: seq<string>)
    ensures StageGraph(Structural(p), names) == StageGraph(p, names)
  {
    var a, b := StageGraph(Structural(p), names).deps, StageGraph(p, names).deps;
    forall n | n in p.stages ensures a[n] == b[n] {
      SameDeps(p.stages[n]);
    }
    assert a == b;
  }

  lemma {:induction false} SameOrder(p: Program, q: Program, r: Option<seq<string>>)
    requires Structural(p) == Structural(q) && OrderIs(p, r)
    ensures OrderIs(q, r)
  {
    var names :| NameOrder(p, names) && r == Schedule(StageGraph(p, names));
    SameListing(p, q, names);
  }

  lemma {:induction false} SameListing(p: Program, q: Program, names: seq<string>)
    requires Structural(p) == Structural(q) && NameOrder(p, names)
    ensures NameOrder(q, names) && StageGraph(p, names) == StageGraph(q, names)
  {
    assert StageGraph(p, names) == StageGraph(q, names) by {
      SameGraph(p, names);
      SameGraph(q, names);
    }
    assert p.stages.Keys == q.stages.Keys by {
      assert Structural(p).stages.Keys == p.stages.Keys && Structural(q).stages.Keys == q.stages.Keys;
    }
  }

  lemma {:induction false} SameFusedMaterial(p: Program, q: Program, fuse: string -> bool, admit: Grid -> bool, order: seq<string>)
    requires Structural(p) == Structural(q)
    ensures FusedMaterial(p, order, fuse, admit) == FusedMaterial(q, order, fuse, admit)
  {
    SameMaterial(p, order, fuse, |order|);
    SameMaterial(q, order, fuse, |order|);
  }

  lemma {:induction false} AcceptedAlike(p: Program, q: Program, fuse: string -> bool, admit: Grid -> bool, backend: Backend, order: seq<string>)
    requires ProgramFormed(p) && ProgramFormed(q) && Structural(p) == Structural(q) && FusedAccepts(p, fuse, admit, backend, order)
    ensures FusedAccepts(q, fuse, admit, backend, order)
  {
    SameOrder(p, q, Some(order));
    SameCounts(p, order);
    SameCounts(q, order);
    SameFusedMaterial(p, q, fuse, admit, order);
    assert Structural(p).outputs == p.outputs && Structural(q).outputs == q.outputs;
  }

  /** The same for any one choice of fused stages. */
  lemma {:induction false} SamePlans(p: Program, q: Program, fuse: string -> bool, admit: Grid -> bool, backend: Backend, order: seq<string>)
    requires ProgramFormed(p) && ProgramFormed(q) && Structural(p) == Structural(q)
    ensures FusedAccepts(p, fuse, admit, backend, order) <==> FusedAccepts(q, fuse, admit, backend, order)
    ensures FusedPlan(p, fuse, admit, backend, order) == FusedPlan(q, fuse, admit, backend, order)
  {
    if FusedAccepts(p, fuse, admit, backend, order) {
      AcceptedAlike(p, q, fuse, admit, backend, order);
    }
    if FusedAccepts(q, fuse, admit, backend, order) {
      AcceptedAlike(q, p, fuse, admit, backend, order);
    }
    SameCounts(p, order);
    SameCounts(q, order);
    SameFusedMaterial(p, q, fuse, admit, order);
    assert Structural(p).outputs == p.outputs && Structural(q).outputs == q.outputs;
  }

  /**
    Two well-formed programs that differ only in literal words are accepted alike and get the same plan, when the stages
    to fuse whole are chosen by any rule that looks at the structural copy.
   */
  lemma {:induction false} PlansIgnoreWords(p: Program, q: Program, choose: Program -> string -> bool, admit: Grid -> bool, backend: Backend, order: seq<string>)
    requires ProgramFormed(p) && ProgramFormed(q) && Structural(p) == Structural(q)
    ensures FusedAccepts(p, choose(Structural(p)), admit, backend, order) <==> FusedAccepts(q, choose(Structural(q)), admit, backend, order)
    ensures FusedPlan(p, choose(Structural(p)), admit, backend, order) == FusedPlan(q, choose(Structural(q)), admit, backend, order)
  {
    SamePlans(p, q, choose(Structural(p)), admit, backend, order);
  }
}

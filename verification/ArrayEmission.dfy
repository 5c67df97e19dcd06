/** Which passes a program is materialised to, as a function of its structure alone. */
module ArrayEmission {
  import opened ArrayProgram
  import opened ArrayPasses
  import opened StageOrder

  /** Where a map's loads come from: gathers of a fold step, or the accumulated plane. */
  datatype LoadFrom = Gathering(k: nat) | Accumulator(acc: nat)

  function GatherArgs(s: Stage, results: map<string, nat>, view: Name): seq<nat> {
    if view in s.kernel.views && s.kernel.views[view].input < |s.inputs|
       && s.inputs[s.kernel.views[view].input].From? && s.inputs[s.kernel.views[view].input].stage in results
    then [results[s.inputs[s.kernel.views[view].input].stage]] else []
  }

  function LoadPass(s: Stage, results: map<string, nat>, from: LoadFrom, view: Name): Pass {
    match from
    case Gathering(k) => Pass(s.rows, s.columns, GatherLoad(Gather(s.name, view, k), GatherArgs(s, results, view)))
    case Accumulator(acc) => Pass(s.rows, s.columns, Apply(Load, [acc], 0))
  }

  /** The last of the first `k` nodes called `id`. */
  function NodeIndex(nodes: seq<Node>, id: Name, k: nat): nat
    requires k <= |nodes|
  {
    if k == 0 then 0 else if nodes[k - 1].id == id then k - 1 else NodeIndex(nodes, id, k - 1)
  }

  /** The plane of a node when the map's passes start at `base`. */
  function RefOf(m: Map, base: nat, id: Name): nat {
    base + NodeIndex(m.nodes, id, |m.nodes|)
  }

  function RefsOf(m: Map, base: nat, ids: seq<Name>): (r: seq<nat>)
    ensures |r| == |ids| && forall i :: 0 <= i < |ids| ==> r[i] == RefOf(m, base, ids[i])
  {
    seq(|ids|, i requires 0 <= i < |ids| => RefOf(m, base, ids[i]))
  }

  function NodePassOf(s: Stage, results: map<string, nat>, from: LoadFrom, m: Map, base: nat, node: Node): Pass {
    if node.op == Load then LoadPass(s, results, from, node.view)
    else Pass(s.rows, s.columns, Apply(node.op, RefsOf(m, base, node.args), node.imm))
  }

  /** One pass for each of the first `k` nodes. */
  function MapPasses(s: Stage, results: map<string, nat>, from: LoadFrom, m: Map, base: nat, k: nat): (r: seq<Pass>)
    requires k <= |m.nodes|
    ensures |r| == k
  {
    if k == 0 then [] else MapPasses(s, results, from, m, base, k - 1) + [NodePassOf(s, results, from, m, base, m.nodes[k - 1])]
  }

  /** Passes and the plane that holds their result. */
  datatype Emission = Emission(passes: seq<Pass>, result: nat)

  function MapEmission(s: Stage, results: map<string, nat>, from: LoadFrom, m: Map, base: nat): Emission {
    Emission(MapPasses(s, results, from, m, base, |m.nodes|), RefOf(m, base, m.result))
  }

  function FoldOp(sum: bool): Op {
    if sum then Add else Maximum
  }

  /** One fold step: the kernel's map, then its accumulation unless it is the first. */
  function StepEmission(s: Stage, results: map<string, nat>, base: nat, acc: nat, k: nat): Emission {
    var term := MapEmission(s, results, Gathering(k), s.kernel.body, base);
    if k == 0 then term
    else Emission(term.passes + [Pass(s.rows, s.columns, Apply(FoldOp(s.kernel.sum), [acc, term.result], 0))], base + |term.passes|)
  }

  /** The first `k` fold steps. */
  function FoldEmission(s: Stage, results: map<string, nat>, base: nat, k: nat): Emission {
    if k == 0 then Emission([], 0)
    else
      var before := FoldEmission(s, results, base, k - 1);
      var step := StepEmission(s, results, base + |before.passes|, before.result, k - 1);
      Emission(before.passes + step.passes, step.result)
  }

  function ScalarEmission(s: Stage, results: map<string, nat>, base: nat): Emission {
    var fold := FoldEmission(s, results, base, s.kernel.extent);
    if s.post.None? then fold
    else
      var post := MapEmission(s, results, Accumulator(fold.result), s.post.value, base + |fold.passes|);
      Emission(fold.passes + post.passes, post.result)
  }

  function ProducersOf(s: Stage, results: map<string, nat>): map<string, nat> {
    map n | n in results && n in StageDeps(s) :: results[n]
  }

  function StageEmission(s: Stage, results: map<string, nat>, base: nat, fuse: bool): Emission {
    if fuse then Emission([Pass(s.rows, s.columns, Fused(s.name, ProducersOf(s, results)))], base)
    else ScalarEmission(s, results, base)
  }

  datatype Material = Material(passes: seq<Pass>, results: map<string, nat>)

  /** The first `k` stages of an order, each fused whole or materialised node by node. */
  function ProgramMaterial(p: Program, order: seq<string>, fuse: string -> bool, k: nat): Material
    requires k <= |order|
  {
    if k == 0 then Material([], map[])
    else
      var before, n := ProgramMaterial(p, order, fuse, k - 1), order[k - 1];
      if n !in p.stages then before
      else
        var stage := StageEmission(p.stages[n], before.results, |before.passes|, fuse(n));
        Material(before.passes + stage.passes, before.results[n := stage.result])
  }
}

/** Scalar materialisation: every node of every fold step of a stage becomes a pass, and the last plane is the stage's. */
module ArrayMaterial {
  import opened Base
  import opened ArrayProgram
  import opened ArrayPasses
  import opened ArrayCells
  import opened ArrayEmission

  type Loaders = (int, int) -> Loader

  /** The final value of a node at every cell. */
  function NodeField(m: Map, loads: Loaders, id: Name): Field {
    (r: int, c: int) => ValueOf(Values(m.nodes, loads(r, c), |m.nodes|), id)
  }

  function LoadField(loads: Loaders, view: Name): Field {
    (r: int, c: int) => loads(r, c)(view) % U32
  }

  lemma {:induction false} HoldsSame(plane: Plane, rows: nat, columns: nat, f: Field, g: Field)
    requires Holds(plane, rows, columns, f) && forall r, c :: 0 <= r < rows && 0 <= c < columns ==> f(r, c) == g(r, c)
    ensures Holds(plane, rows, columns, g)
  {
  }

  // ----- What an emitted pass computes -----

  function ArgRefs(refs: map<Name, nat>, args: seq<Name>): (r: seq<nat>)
    requires forall i :: 0 <= i < |args| ==> args[i] in refs
    ensures |r| == |args| && forall i :: 0 <= i < |args| ==> r[i] == refs[args[i]]
  {
    seq(|args|, i requires 0 <= i < |args| => refs[args[i]])
  }

  /** The planes `refs` points at hold the values of their nodes. */
  ghost predicate RefsHold(refs: map<Name, nat>, planes: Planes, m: Map, loads: Loaders, rows: nat, columns: nat) {
    forall id :: id in refs ==> refs[id] < |planes| && Holds(planes[refs[id]], rows, columns, NodeField(m, loads, id))
  }

  lemma {:induction false} ApplyCellWord(m: Map, j: nat, load: Loader, operands: seq<Plane>, rows: nat, columns: nat, r: nat, c: nat)
    requires SingleAssignment(m.nodes) && j < |m.nodes| && m.nodes[j].op != Load && |m.nodes[j].args| == Arity(m.nodes[j].op) == |operands|
    requires forall i :: 0 <= i < |operands| ==> OperandWord(operands[i], r, c) == ValueOf(Values(m.nodes, load, |m.nodes|), m.nodes[j].args[i])
    ensures CellWord(ScalarGrid(operands, rows, columns, m.nodes[j].op, m.nodes[j].imm), r, c) == ValueOf(Values(m.nodes, load, |m.nodes|), m.nodes[j].id)
  {
    var node, values := m.nodes[j], Values(m.nodes, load, |m.nodes|);
    var words := ValuesOf(values, node.args);
    assert OperandWords(operands, r, c) == words by {
      forall i | 0 <= i < |operands| ensures OperandWords(operands, r, c)[i] == words[i] {
        ValueInRange(m.nodes, load, |m.nodes|, node.args[i]);
      }
    }
    assert CellWord(ScalarGrid(operands, rows, columns, node.op, node.imm), r, c) == OpWord(node.op, words, node.imm, 0) % U32 by {
      ScalarCell(operands, rows, columns, node.op, node.imm, r, c);
    }
    assert OpWord(node.op, words, node.imm, 0) == OpWord(node.op, words, node.imm, load(node.view)) by {
      LoadedIrrelevant(node.op, words, node.imm, load(node.view));
    }
    NodeEquation(m.nodes, load, j);
  }

  lemma {:induction false} HeldWord(plane: Plane, rows: nat, columns: nat, f: Field, r: nat, c: nat)
    requires Holds(plane, rows, columns, f) && r < rows && c < columns
    ensures OperandWord(plane, r, c) == f(r, c)
  {
  }

  /** A pass that applies a node's operation to planes holding its arguments holds the node. */
  lemma {:induction false} ApplyHolds(p: Program, m: Map, j: nat, loads: Loaders, refs: map<Name, nat>, planes: Planes, rows: nat, columns: nat)
    requires SingleAssignment(m.nodes) && j < |m.nodes| && m.nodes[j].op != Load && |m.nodes[j].args| == Arity(m.nodes[j].op)
    requires RefsHold(refs, planes, m, loads, rows, columns)
    requires forall i :: 0 <= i < |m.nodes[j].args| ==> m.nodes[j].args[i] in refs
    ensures var pass := Pass(rows, columns, Apply(m.nodes[j].op, ArgRefs(refs, m.nodes[j].args), m.nodes[j].imm));
            Holds(RunPass(p, pass, planes), rows, columns, NodeField(m, loads, m.nodes[j].id))
  {
    var node := m.nodes[j];
    var operands := PlanesAt(planes, ArgRefs(refs, node.args));
    var g := ScalarGrid(operands, rows, columns, node.op, node.imm);
    forall r, c | 0 <= r < rows && 0 <= c < columns ensures CellField(g)(r, c) == NodeField(m, loads, node.id)(r, c) {
      forall i | 0 <= i < |operands|
        ensures OperandWord(operands[i], r, c) == ValueOf(Values(m.nodes, loads(r, c), |m.nodes|), node.args[i]) {
        HeldWord(operands[i], rows, columns, NodeField(m, loads, node.args[i]), r, c);
      }
      ApplyCellWord(m, j, loads(r, c), operands, rows, columns, r, c);
    }
    EvalHolds(g);
    HoldsSame(EvalGrid(g), rows, columns, CellField(g), NodeField(m, loads, node.id));
  }

  /** A pass that loads a plane holds its words, masked. */
  lemma {:induction false} LoadHolds(operand: Plane, rows: nat, columns: nat, f: Field)
    requires forall r, c :: 0 <= r < rows && 0 <= c < columns ==> OperandWord(operand, r, c) % U32 == f(r, c)
    ensures Holds(EvalGrid(ScalarGrid([operand], rows, columns, Load, 0)), rows, columns, f)
  {
    var g := ScalarGrid([operand], rows, columns, Load, 0);
    forall r, c | 0 <= r < rows && 0 <= c < columns ensures CellField(g)(r, c) == f(r, c) {
      LoadCell([operand], rows, columns, 0, r, c);
    }
    EvalHolds(g);
    HoldsSame(EvalGrid(g), rows, columns, CellField(g), f);
  }

  lemma {:induction false} LoadedNode(m: Map, j: nat, loads: Loaders, plane: Plane, rows: nat, columns: nat)
    requires SingleAssignment(m.nodes) && j < |m.nodes| && m.nodes[j].op == Load
    requires Holds(plane, rows, columns, LoadField(loads, m.nodes[j].view))
    ensures Holds(plane, rows, columns, NodeField(m, loads, m.nodes[j].id))
  {
    var node := m.nodes[j];
    forall r, c | 0 <= r < rows && 0 <= c < columns
      ensures LoadField(loads, node.view)(r, c) == NodeField(m, loads, node.id)(r, c) {
      NodeEquation(m.nodes, loads(r, c), j);
    }
    HoldsSame(plane, rows, columns, LoadField(loads, node.view), NodeField(m, loads, node.id));
  }

  // ----- Growing pass lists -----

  predicate WorkFormed(w: Work) {
    !w.Block? && (w.Apply? ==> |w.args| == if w.op == Load then 1 else Arity(w.op))
  }

  ghost predicate PassesFormed(passes: seq<Pass>) {
    InOrder(passes) && forall i :: 0 <= i < |passes| ==> WorkFormed(passes[i].work)
  }

  ghost predicate GatherFrom(pass: Pass, kept: set<nat>) {
    pass.work.GatherLoad? ==> Elements(pass.work.args) <= kept
  }

  /** Gathers read only the listed planes. */
  ghost predicate GathersFrom(passes: seq<Pass>, kept: set<nat>) {
    forall i {:trigger GatherFrom(passes[i], kept)} :: 0 <= i < |passes| ==> GatherFrom(passes[i], kept)
  }

  lemma {:induction false} GathersAppend(passes: seq<Pass>, pass: Pass, kept: set<nat>)
    requires GathersFrom(passes, kept) && GatherFrom(pass, kept)
    ensures GathersFrom(passes + [pass], kept)
  {
    var out := passes + [pass];
    forall i | 0 <= i < |out| ensures GatherFrom(out[i], kept) {
      assert i < |passes| ==> GatherFrom(passes[i], kept);
    }
  }

  lemma {:induction false} GathersWeaken(passes: seq<Pass>, kept: set<nat>, more: set<nat>)
    requires GathersFrom(passes, kept) && kept <= more
    ensures GathersFrom(passes, more)
  {
    forall i | 0 <= i < |passes| ensures GatherFrom(passes[i], more) {
      assert GatherFrom(passes[i], kept);
    }
  }

  lemma {:induction false} AppendFormed(passes: seq<Pass>, pass: Pass)
    requires PassesFormed(passes) && WorkFormed(pass.work) && forall n :: n in Refs(pass) ==> n < |passes|
    ensures PassesFormed(passes + [pass])
  {
  }

  /** Planes already made are the same in any longer list. */
  lemma {:induction false} Extends(p: Program, passes: seq<Pass>, longer: seq<Pass>, n: nat)
    requires passes <= longer && n < |passes|
    ensures Made(p, longer, |longer|)[n] == Made(p, passes, |passes|)[n]
  {
    assert longer[..|passes|] == passes[..|passes|];
    MadePrefix(p, longer, passes, |passes|);
    MadeKeeps(p, longer, |passes|, |longer|);
  }

  lemma {:induction false} SameRun(p: Program, pass: Pass, passes: seq<Pass>, longer: seq<Pass>)
    requires passes <= longer && forall n :: n in Refs(pass) ==> n < |passes|
    ensures RunPass(p, pass, Made(p, longer, |longer|)) == RunPass(p, pass, Made(p, passes, |passes|))
  {
    forall n | n in Refs(pass) ensures PlaneAt(Made(p, longer, |longer|), n) == PlaneAt(Made(p, passes, |passes|), n) {
      Extends(p, passes, longer, n);
    }
    BindAgrees(p, pass, Made(p, longer, |longer|), Made(p, passes, |passes|));
  }

  // ----- Emitting a map -----

  ghost predicate LoadReady(p: Program, s: Stage, pass: Pass, loads: Loaders, view: Name, passes: seq<Pass>) {
    && WorkFormed(pass.work) && (forall n :: n in Refs(pass) ==> n < |passes|)
    && Holds(RunPass(p, pass, Made(p, passes, |passes|)), s.rows, s.columns, LoadField(loads, view))
  }

  ghost predicate LoadsReady(p: Program, s: Stage, results: map<string, nat>, from: LoadFrom, m: Map, loads: Loaders, passes: seq<Pass>) {
    forall j {:trigger NodeLoadReady(p, s, results, from, m, loads, passes, j)} :: 0 <= j < |m.nodes| ==>
      NodeLoadReady(p, s, results, from, m, loads, passes, j)
  }

  ghost predicate NodeLoadReady(p: Program, s: Stage, results: map<string, nat>, from: LoadFrom, m: Map, loads: Loaders, passes: seq<Pass>, j: nat)
    requires j < |m.nodes|
  {
    m.nodes[j].op == Load ==> LoadReady(p, s, LoadPass(s, results, from, m.nodes[j].view), loads, m.nodes[j].view, passes)
  }

  lemma {:induction false} RefsHoldLater(p: Program, s: Stage, refs: map<Name, nat>, m: Map, loads: Loaders, passes: seq<Pass>, pass: Pass, id: Name)
    requires RefsHold(refs, Made(p, passes, |passes|), m, loads, s.rows, s.columns)
    requires Holds(RunPass(p, pass, Made(p, passes, |passes|)), s.rows, s.columns, NodeField(m, loads, id))
    ensures RefsHold(refs[id := |passes|], Made(p, passes + [pass], |passes| + 1), m, loads, s.rows, s.columns)
  {
    MadeAppend(p, passes, pass);
  }

  ghost predicate NodePass(p: Program, s: Stage, m: Map, j: nat, loads: Loaders, refs: map<Name, nat>, start: seq<Pass>, pass: Pass)
    requires j < |m.nodes|
  {
    var node := m.nodes[j];
    if node.op == Load then LoadReady(p, s, pass, loads, node.view, start)
    else
      && |node.args| == Arity(node.op) && (forall i :: 0 <= i < |node.args| ==> node.args[i] in refs)
      && pass == Pass(s.rows, s.columns, Apply(node.op, ArgRefs(refs, node.args), node.imm))
  }

  /** The pass of one node, a load or its operation on the planes of its arguments, holds the node. */
  lemma {:induction false} NodePassHolds(p: Program, s: Stage, m: Map, j: nat, loads: Loaders, refs: map<Name, nat>, start: seq<Pass>, passes: seq<Pass>, pass: Pass)
    requires SingleAssignment(m.nodes) && j < |m.nodes| && start <= passes
    requires RefsHold(refs, Made(p, passes, |passes|), m, loads, s.rows, s.columns) && NodePass(p, s, m, j, loads, refs, start, pass)
    ensures Holds(RunPass(p, pass, Made(p, passes, |passes|)), s.rows, s.columns, NodeField(m, loads, m.nodes[j].id))
  {
    if m.nodes[j].op == Load {
      SameRun(p, pass, start, passes);
      LoadedNode(m, j, loads, RunPass(p, pass, Made(p, passes, |passes|)), s.rows, s.columns);
    } else {
      ApplyHolds(p, m, j, loads, refs, Made(p, passes, |passes|), s.rows, s.columns);
    }
  }

  ghost predicate RefsDefined(refs: map<Name, nat>, m: Map, j: nat, bound: nat)
    requires j <= |m.nodes|
  {
    && (forall id :: id in refs ==> refs[id] < bound)
    && forall i :: 0 <= i < j ==> m.nodes[i].id in refs
  }

  lemma {:induction false} ArgsDefined(m: Map, views: set<Name>, j: nat, refs: map<Name, nat>, bound: nat)
    requires MapFormed(m, views) && j < |m.nodes| && RefsDefined(refs, m, j, bound)
    ensures |m.nodes[j].args| == Arity(m.nodes[j].op) && forall i :: 0 <= i < |m.nodes[j].args| ==> m.nodes[j].args[i] in refs
  {
    assert NodeFormed(m.nodes, j, views);
    forall i | 0 <= i < |m.nodes[j].args| ensures m.nodes[j].args[i] in refs {
      assert m.nodes[j].args[i] in m.nodes[j].args;
    }
  }

  /** The state of emitting a map after `j` nodes. */
  ghost predicate Emitted(p: Program, s: Stage, m: Map, j: nat, loads: Loaders, refs: map<Name, nat>, start: seq<Pass>, out: seq<Pass>) {
    && j <= |m.nodes| && start <= out && |out| == |start| + j && PassesFormed(out) && RefsDefined(refs, m, j, |out|)
    && RefsHold(refs, Made(p, out, |out|), m, loads, s.rows, s.columns)
  }

  lemma {:induction false} NodePassFormed(p: Program, s: Stage, m: Map, j: nat, loads: Loaders, refs: map<Name, nat>, start: seq<Pass>, out: seq<Pass>, pass: Pass)
    requires j < |m.nodes| && start <= out && PassesFormed(out) && RefsDefined(refs, m, j, |out|)
    requires NodePass(p, s, m, j, loads, refs, start, pass)
    ensures PassesFormed(out + [pass])
  {
    assert forall n :: n in Refs(pass) ==> n < |out|;
    AppendFormed(out, pass);
  }

  lemma {:induction false} EmitStep(p: Program, s: Stage, m: Map, j: nat, loads: Loaders, refs: map<Name, nat>, start: seq<Pass>, out: seq<Pass>, pass: Pass)
    requires SingleAssignment(m.nodes) && j < |m.nodes| && Emitted(p, s, m, j, loads, refs, start, out)
    requires NodePass(p, s, m, j, loads, refs, start, pass)
    ensures Emitted(p, s, m, j + 1, loads, refs[m.nodes[j].id := |out|], start, out + [pass])
  {
    NodePassHolds(p, s, m, j, loads, refs, start, out, pass);
    RefsHoldLater(p, s, refs, m, loads, out, pass, m.nodes[j].id);
    NodePassFormed(p, s, m, j, loads, refs, start, out, pass);
    EmittedNext(p, s, m, j, loads, refs, start, out, pass);
  }

  lemma {:induction false} EmittedNext(p: Program, s: Stage, m: Map, j: nat, loads: Loaders, refs: map<Name, nat>, start: seq<Pass>, out: seq<Pass>, pass: Pass)
    requires j < |m.nodes| && start <= out && |out| == |start| + j && RefsDefined(refs, m, j, |out|)
    requires PassesFormed(out + [pass])
    requires RefsHold(refs[m.nodes[j].id := |out|], Made(p, out + [pass], |out| + 1), m, loads, s.rows, s.columns)
    ensures Emitted(p, s, m, j + 1, loads, refs[m.nodes[j].id := |out|], start, out + [pass])
  {
  }

  /** The first `j` nodes have the planes from `base` on. */
  ghost predicate RefsFrom(refs: map<Name, nat>, m: Map, j: nat, base: nat)
    requires j <= |m.nodes|
  {
    forall i :: 0 <= i < j ==> m.nodes[i].id in refs && refs[m.nodes[i].id] == base + i
  }

  lemma {:induction false} IndexOfNode(nodes: seq<Node>, i: nat, k: nat)
    requires DistinctIds(nodes) && i < k <= |nodes|
    ensures NodeIndex(nodes, nodes[i].id, k) == i
  {
    if i < k - 1 {
      IndexOfNode(nodes, i, k - 1);
    }
  }

  lemma {:induction false} ArgRefsFrom(m: Map, views: set<Name>, j: nat, refs: map<Name, nat>, base: nat)
    requires MapFormed(m, views) && SingleAssignment(m.nodes) && j < |m.nodes| && RefsFrom(refs, m, j, base)
    requires forall i :: 0 <= i < |m.nodes[j].args| ==> m.nodes[j].args[i] in refs
    ensures ArgRefs(refs, m.nodes[j].args) == RefsOf(m, base, m.nodes[j].args)
  {
    var args := m.nodes[j].args;
    forall i | 0 <= i < |args| ensures refs[args[i]] == RefOf(m, base, args[i]) {
      assert args[i] in args && DefinedIn(m.nodes, j, args[i]);
      var q :| 0 <= q < j && m.nodes[q].id == args[i];
      IndexOfNode(m.nodes, q, |m.nodes|);
    }
  }

  lemma {:induction false} ResultRefFrom(m: Map, views: set<Name>, refs: map<Name, nat>, base: nat)
    requires MapFormed(m, views) && SingleAssignment(m.nodes) && RefsFrom(refs, m, |m.nodes|, base)
    ensures m.result in refs && refs[m.result] == RefOf(m, base, m.result)
  {
    var q :| 0 <= q < |m.nodes| && m.nodes[q].id == m.result;
    IndexOfNode(m.nodes, q, |m.nodes|);
  }

  method EmitNode(p: Program, s: Stage, results: map<string, nat>, from: LoadFrom, m: Map, ghost views: set<Name>, ghost loads: Loaders,
                  refs: map<Name, nat>, ghost start: seq<Pass>, passes: seq<Pass>, j: nat) returns (next: map<Name, nat>, out: seq<Pass>)
    requires MapFormed(m, views) && SingleAssignment(m.nodes) && j < |m.nodes| && MapState(p, s, results, from, m, loads, refs, start, passes, j)
    requires LoadsReady(p, s, results, from, m, loads, start)
    ensures MapState(p, s, results, from, m, loads, next, start, out, j + 1)
  {
    var node := m.nodes[j];
    assert |node.args| == Arity(node.op) && forall i :: 0 <= i < |node.args| ==> node.args[i] in refs by { ArgsDefined(m, views, j, refs, |passes|); }
    var pass := if node.op == Load then LoadPass(s, results, from, node.view)
                else Pass(s.rows, s.columns, Apply(node.op, ArgRefs(refs, node.args), node.imm));
    MapStateNext(p, s, results, from, m, views, loads, refs, start, passes, j, pass);
    next, out := refs[node.id := |passes|], passes + [pass];
  }

  /** Emits one pass per node; the plane referenced at the end holds the map's result at every cell. */
  method EmitMap(p: Program, s: Stage, results: map<string, nat>, from: LoadFrom, m: Map, ghost views: set<Name>, ghost loads: Loaders, passes: seq<Pass>)
    returns (out: seq<Pass>, result: nat)
    requires MapFormed(m, views) && PassesFormed(passes) && LoadsReady(p, s, results, from, m, loads, passes)
    requires GathersFrom(passes, results.Values)
    ensures out == passes + MapEmission(s, results, from, m, |passes|).passes && result == MapEmission(s, results, from, m, |passes|).result
    ensures GathersFrom(out, results.Values)
    ensures PassesFormed(out)
    ensures result < |out| && Holds(Made(p, out, |out|)[result], s.rows, s.columns, NodeField(m, loads, m.result))
  {
    var refs: map<Name, nat>;
    refs, out := EmitNodes(p, s, results, from, m, views, loads, passes);
    MapStateDone(p, s, results, from, m, views, loads, refs, passes, out);
    result := refs[m.result];
  }

  method EmitNodes(p: Program, s: Stage, results: map<string, nat>, from: LoadFrom, m: Map, ghost views: set<Name>, ghost loads: Loaders, passes: seq<Pass>)
    returns (refs: map<Name, nat>, out: seq<Pass>)
    requires MapFormed(m, views) && PassesFormed(passes) && LoadsReady(p, s, results, from, m, loads, passes)
    requires GathersFrom(passes, results.Values)
    ensures SingleAssignment(m.nodes) && MapState(p, s, results, from, m, loads, refs, passes, out, |m.nodes|)
  {
    FormedIsSingleAssignment(m, views);
    var j := 0;
    refs, out := map[], passes;
    MapStateStart(p, s, results, from, m, loads, passes);
    while j < |m.nodes|
      invariant 0 <= j <= |m.nodes| && MapState(p, s, results, from, m, loads, refs, passes, out, j)
    {
      refs, out := EmitNode(p, s, results, from, m, views, loads, refs, passes, out, j);
      j := j + 1;
    }
  }

  lemma {:induction false} MapStateStart(p: Program, s: Stage, results: map<string, nat>, from: LoadFrom, m: Map, loads: Loaders, passes: seq<Pass>)
    requires PassesFormed(passes) && GathersFrom(passes, results.Values)
    ensures MapState(p, s, results, from, m, loads, map[], passes, passes, 0)
  {
  }

  lemma {:induction false} MapStateDone(p: Program, s: Stage, results: map<string, nat>, from: LoadFrom, m: Map, views: set<Name>, loads: Loaders,
                                        refs: map<Name, nat>, start: seq<Pass>, out: seq<Pass>)
    requires MapFormed(m, views) && SingleAssignment(m.nodes) && MapState(p, s, results, from, m, loads, refs, start, out, |m.nodes|)
    ensures m.result in refs && refs[m.result] < |out|
    ensures var e := MapEmission(s, results, from, m, |start|); out == start + e.passes && refs[m.result] == e.result
    ensures PassesFormed(out) && GathersFrom(out, results.Values)
    ensures Holds(Made(p, out, |out|)[refs[m.result]], s.rows, s.columns, NodeField(m, loads, m.result))
  {
    ResultRefFrom(m, views, refs, |start|);
  }

  /** Everything the emission of a map keeps after `j` nodes. */
  ghost predicate MapState(p: Program, s: Stage, results: map<string, nat>, from: LoadFrom, m: Map, loads: Loaders,
                           refs: map<Name, nat>, start: seq<Pass>, out: seq<Pass>, j: nat)
    requires j <= |m.nodes|
  {
    && Emitted(p, s, m, j, loads, refs, start, out) && GathersFrom(out, results.Values)
    && RefsFrom(refs, m, j, |start|) && out == start + MapPasses(s, results, from, m, |start|, j)
  }

  lemma {:induction false} MapStateNext(p: Program, s: Stage, results: map<string, nat>, from: LoadFrom, m: Map, views: set<Name>, loads: Loaders,
                                        refs: map<Name, nat>, start: seq<Pass>, out: seq<Pass>, j: nat, pass: Pass)
    requires MapFormed(m, views) && SingleAssignment(m.nodes) && j < |m.nodes| && MapState(p, s, results, from, m, loads, refs, start, out, j)
    requires LoadsReady(p, s, results, from, m, loads, start)
    requires |m.nodes[j].args| == Arity(m.nodes[j].op) && forall i :: 0 <= i < |m.nodes[j].args| ==> m.nodes[j].args[i] in refs
    requires pass == if m.nodes[j].op == Load then LoadPass(s, results, from, m.nodes[j].view)
                     else Pass(s.rows, s.columns, Apply(m.nodes[j].op, ArgRefs(refs, m.nodes[j].args), m.nodes[j].imm))
    ensures MapState(p, s, results, from, m, loads, refs[m.nodes[j].id := |out|], start, out + [pass], j + 1)
  {
    var next := refs[m.nodes[j].id := |out|];
    assert NodeLoadReady(p, s, results, from, m, loads, start, j);
    assert Emitted(p, s, m, j + 1, loads, next, start, out + [pass]) by { EmitStep(p, s, m, j, loads, refs, start, out, pass); }
    assert GathersFrom(out + [pass], results.Values) by { GathersAppend(out, pass, results.Values); }
    assert RefsFrom(next, m, j + 1, |start|) by { RefsFromNext(m, j, refs, |start|); }
    assert out + [pass] == start + MapPasses(s, results, from, m, |start|, j + 1) by {
      ArgRefsFrom(m, views, j, refs, |start|);
      MapPassesNext(s, results, from, m, |start|, j, start, out, pass);
    }
  }

  lemma {:induction false} MapPassesNext(s: Stage, results: map<string, nat>, from: LoadFrom, m: Map, base: nat, j: nat, start: seq<Pass>, out: seq<Pass>, pass: Pass)
    requires j < |m.nodes| && out == start + MapPasses(s, results, from, m, base, j) && pass == NodePassOf(s, results, from, m, base, m.nodes[j])
    ensures out + [pass] == start + MapPasses(s, results, from, m, base, j + 1)
  {
  }

  lemma {:induction false} RefsFromNext(m: Map, j: nat, refs: map<Name, nat>, base: nat)
    requires DistinctIds(m.nodes) && j < |m.nodes| && RefsFrom(refs, m, j, base)
    ensures RefsFrom(refs[m.nodes[j].id := base + j], m, j + 1, base)
  {
  }
}

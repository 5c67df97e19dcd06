/** Building a block from contiguous passes: outside planes are renamed and read through at most two inputs. */
module ArrayDrafts {
  import opened Base
  import opened ArrayProgram
  import opened ArrayPasses
  import opened ArrayMaterial
  import opened ArrayBlocks

  const BLOCK_INPUTS: nat := 2

  /** The same nodes over more inputs and more loads. */
  ghost predicate Grows(d: Draft, e: Draft) {
    d.inputs <= e.inputs && d.prefix <= e.prefix && d.nodes == e.nodes
  }

  lemma {:induction false} ArgStillMatches(d: Draft, e: Draft, renamed: map<nat, nat>, index: nat, k: nat, ref: nat, name: Name)
    requires Grows(d, e) && ArgMatches(d, renamed, index, k, ref, name)
    ensures ArgMatches(e, renamed, index, k, ref, name)
  {
    if ref < index {
      var j :| 0 <= j < |d.prefix| && d.prefix[j] == LoadOf(name, name.e);
      assert e.prefix[j] == LoadOf(name, name.e);
    }
  }

  lemma {:induction false} NodeStillMatches(d: Draft, e: Draft, renamed: map<nat, nat>, index: nat, k: nat, raw: Pass)
    requires Grows(d, e) && k < |d.nodes| && NodeMatches(d, renamed, index, k, raw)
    ensures NodeMatches(e, renamed, index, k, raw)
  {
    if raw.work.Apply? && raw.work.op != Load {
      var node, args := d.nodes[k], raw.work.args;
      forall j | 0 <= j < |args| ensures ArgMatches(e, renamed, index, k, args[j], node.args[j]) {
        ArgStillMatches(d, e, renamed, index, k, args[j], node.args[j]);
      }
    }
  }

  /** Adding the node of the next pass. */
  lemma {:induction false} DraftExtends(d: Draft, e: Draft, renamed: map<nat, nat>, segment: seq<Pass>, index: nat, node: Node)
    requires DraftFor(d, renamed, segment, index) && Grows(d, e) && PrefixFormed(e) && |d.nodes| < |segment|
    requires NodeMatches(e.(nodes := e.nodes + [node]), renamed, index, |d.nodes|, segment[|d.nodes|])
    ensures DraftFor(e.(nodes := e.nodes + [node]), renamed, segment, index)
  {
    var f := e.(nodes := e.nodes + [node]);
    forall k | 0 <= k < |f.nodes| ensures NodeMatches(f, renamed, index, k, segment[k]) {
      if k < |d.nodes| {
        assert NodeMatches(d, renamed, index, k, segment[k]);
        NodeStillMatches(d, e, renamed, index, k, segment[k]);
        NodeUnchanged(e, f, renamed, index, k, segment[k]);
      }
    }
  }

  lemma {:induction false} NodeUnchanged(d: Draft, e: Draft, renamed: map<nat, nat>, index: nat, k: nat, raw: Pass)
    requires d.inputs == e.inputs && d.prefix == e.prefix && d.nodes <= e.nodes
    requires k < |d.nodes| && NodeMatches(d, renamed, index, k, raw)
    ensures NodeMatches(e, renamed, index, k, raw)
  {
    if raw.work.Apply? && raw.work.op != Load {
      var node, args := d.nodes[k], raw.work.args;
      forall j | 0 <= j < |args| ensures ArgMatches(e, renamed, index, k, args[j], node.args[j]) {
        assert ArgMatches(d, renamed, index, k, args[j], node.args[j]);
      }
    }
  }

  /** A segment whose passes read only planes of the segment so far or renamed planes made before it. */
  ghost predicate PassReady(renamed: map<nat, nat>, segment: seq<Pass>, index: nat, q: nat)
    requires q < |segment|
  {
    var work := segment[q].work;
    && (work.Apply? || work.GatherLoad?) && WorkFormed(work)
    && (forall a :: a in Refs(segment[q]) ==> a < index + q && (a < index ==> a in renamed))
    && (work.GatherLoad? ==> forall a :: a in Refs(segment[q]) ==> a < index)
  }

  ghost predicate SegmentReady(renamed: map<nat, nat>, segment: seq<Pass>, index: nat) {
    forall q {:trigger PassReady(renamed, segment, index, q)} :: 0 <= q < |segment| ==> PassReady(renamed, segment, index, q)
  }

  // ----- Inputs -----

  /** Inputs grown by at most one, and the position of the one asked for. */
  datatype Slotted = Slotted(inputs: seq<BlockInput>, slot: nat)

  function InputsFound(r: Option<Slotted>): Option<seq<BlockInput>> {
    if r.Some? then Some(r.value.inputs) else None
  }

  /** The position of an input, adding it if it is new; refused beyond two inputs. */
  function FindSlot(inputs: seq<BlockInput>, spec: BlockInput): (r: Option<Slotted>)
    ensures r.Some? ==> inputs <= r.value.inputs && r.value.slot < |r.value.inputs| <= BLOCK_INPUTS && r.value.inputs[r.value.slot] == spec
  {
    var grown := if spec in inputs then inputs else inputs + [spec];
    if |grown| > BLOCK_INPUTS then None else Some(Slotted(grown, Position(grown, spec)))
  }

  /** The draft's inputs, each listed once, are those of `wanted`. */
  ghost predicate InputsAre(inputs: seq<BlockInput>, wanted: set<BlockInput>) {
    Distinct(inputs) && Elements(inputs) == wanted
  }

  /** What reading gives: the wanted inputs, and a refusal exactly when they are more than two. */
  ghost predicate Exact(inputs: Option<seq<BlockInput>>, wanted: set<BlockInput>) {
    && (inputs.Some? ==> InputsAre(inputs.value, wanted))
    && (inputs.Some? <==> |wanted| <= BLOCK_INPUTS)
  }

  lemma {:induction false} NothingAdded(wanted: set<BlockInput>)
    ensures wanted + {} == wanted
  {
  }

  lemma {:induction false} AddedInTurn(a: set<BlockInput>, b: set<BlockInput>, c: set<BlockInput>)
    ensures a + (b + c) == (a + b) + c
  {
  }

  /** A slot is refused exactly when the distinct inputs wanted so far are more than two. */
  lemma {:induction false} SlotExact(inputs: seq<BlockInput>, wanted: set<BlockInput>, spec: BlockInput)
    requires InputsAre(inputs, wanted)
    ensures Exact(InputsFound(FindSlot(inputs, spec)), wanted + {spec})
  {
    var grown := if spec in inputs then inputs else inputs + [spec];
    assert Elements(grown) == wanted + {spec};
    assert Distinct(grown);
    ElementsSize(grown);
  }

  function MovedTo(renamed: map<nat, nat>, ref: nat): nat {
    if ref in renamed then renamed[ref] else 0
  }

  /** The inputs a pass reads from outside the block. */
  function PassInputs(renamed: map<nat, nat>, index: nat, raw: Pass): set<BlockInput> {
    match raw.work
    case GatherLoad(g, args) => {Gathered(g, Renamed(renamed, args))}
    case Apply(_, args, _) => ArgInputs(renamed, index, args, |args|)
    case _ => {}
  }

  function ArgInputs(renamed: map<nat, nat>, index: nat, args: seq<nat>, k: nat): set<BlockInput>
    requires k <= |args|
  {
    if k == 0 then {}
    else ArgInputs(renamed, index, args, k - 1) + ArgInput(renamed, index, args[k - 1])
  }

  function ArgInput(renamed: map<nat, nat>, index: nat, ref: nat): set<BlockInput> {
    if ref < index then {FromPlane(MovedTo(renamed, ref))} else {}
  }

  /** The distinct inputs of the first `k` passes of a segment. */
  function SegmentInputs(renamed: map<nat, nat>, segment: seq<Pass>, index: nat, k: nat): set<BlockInput>
    requires k <= |segment|
  {
    if k == 0 then {} else SegmentInputs(renamed, segment, index, k - 1) + PassInputs(renamed, index, segment[k - 1])
  }

  // ----- Arguments -----

  datatype Read = Read(draft: Draft, name: Name)

  /** The name under which a block reads plane `ref`. */
  function ReadArg(d: Draft, renamed: map<nat, nat>, index: nat, ref: nat): Option<Read> {
    if ref >= index then Some(Read(d, Inner(ref - index)))
    else
      var found := FindSlot(d.inputs, FromPlane(MovedTo(renamed, ref)));
      if found.None? then None
      else
        var node := LoadOf(Extra(found.value.slot), found.value.slot);
        Some(Read(Draft(found.value.inputs, if node in d.prefix then d.prefix else d.prefix + [node], d.nodes), Extra(found.value.slot)))
  }

  lemma {:induction false} PrefixGrows(d: Draft, inputs: seq<BlockInput>, e: nat)
    requires PrefixFormed(d) && d.inputs <= inputs && e < |inputs|
    ensures PrefixFormed(Draft(inputs, d.prefix, d.nodes))
    ensures LoadOf(Extra(e), e) !in d.prefix ==> PrefixFormed(Draft(inputs, d.prefix + [LoadOf(Extra(e), e)], d.nodes))
  {
    var node := LoadOf(Extra(e), e);
    if node !in d.prefix {
      var prefix := d.prefix + [node];
      forall i, j | 0 <= i < j < |prefix| ensures prefix[i].id != prefix[j].id {
        if j == |d.prefix| {
          assert d.prefix[i] in d.prefix && d.prefix[i] != node;
        }
      }
    }
  }

  lemma {:induction false} ReadArgMatches(d: Draft, renamed: map<nat, nat>, index: nat, ref: nat)
    requires PrefixFormed(d) && ref < index + |d.nodes| && (ref < index ==> ref in renamed)
    ensures var r := ReadArg(d, renamed, index, ref);
            r.Some? ==> Grows(d, r.value.draft) && PrefixFormed(r.value.draft)
                        && ArgMatches(r.value.draft, renamed, index, |d.nodes|, ref, r.value.name)
  {
    var r := ReadArg(d, renamed, index, ref);
    if ref < index && r.Some? {
      var found := FindSlot(d.inputs, FromPlane(MovedTo(renamed, ref))).value;
      PrefixGrows(d, found.inputs, found.slot);
      var node := LoadOf(Extra(found.slot), found.slot);
      assert node in r.value.draft.prefix;
    }
  }

  lemma {:induction false} ReadArgExact(d: Draft, renamed: map<nat, nat>, index: nat, ref: nat, wanted: set<BlockInput>)
    requires InputsAre(d.inputs, wanted) && |wanted| <= BLOCK_INPUTS
    ensures Exact(InputsRead(ReadArg(d, renamed, index, ref)), wanted + ArgInput(renamed, index, ref))
  {
    if ref < index {
      SlotExact(d.inputs, wanted, FromPlane(MovedTo(renamed, ref)));
    } else {
      NothingAdded(wanted);
    }
  }

  function InputsRead(r: Option<Read>): Option<seq<BlockInput>> {
    if r.Some? then Some(r.value.draft.inputs) else None
  }

  ghost predicate ArgsMatch(d: Draft, renamed: map<nat, nat>, index: nat, k: nat, args: seq<nat>, names: seq<Name>) {
    |names| <= |args| && forall j {:trigger names[j]} :: 0 <= j < |names| ==> ArgMatches(d, renamed, index, k, args[j], names[j])
  }

  lemma {:induction false} ArgsStillMatch(d: Draft, e: Draft, renamed: map<nat, nat>, index: nat, k: nat, args: seq<nat>, names: seq<Name>)
    requires Grows(d, e) && ArgsMatch(d, renamed, index, k, args, names)
    ensures ArgsMatch(e, renamed, index, k, args, names)
  {
    forall j | 0 <= j < |names| ensures ArgMatches(e, renamed, index, k, args[j], names[j]) {
      ArgStillMatches(d, e, renamed, index, k, args[j], names[j]);
    }
  }

  datatype ReadAll = ReadAll(draft: Draft, names: seq<Name>)

  /** The names of the first `k` arguments. */
  function ReadArgs(d: Draft, renamed: map<nat, nat>, index: nat, args: seq<nat>, k: nat): Option<ReadAll>
    requires k <= |args|
  {
    if k == 0 then Some(ReadAll(d, [])) else ReadNext(ReadArgs(d, renamed, index, args, k - 1), renamed, index, args[k - 1])
  }

  function ReadNext(before: Option<ReadAll>, renamed: map<nat, nat>, index: nat, ref: nat): Option<ReadAll> {
    if before.None? then None
    else
      var last := ReadArg(before.value.draft, renamed, index, ref);
      if last.None? then None else Some(ReadAll(last.value.draft, before.value.names + [last.value.name]))
  }

  lemma {:induction false} ReadArgsMatch(d: Draft, renamed: map<nat, nat>, index: nat, args: seq<nat>, k: nat)
    requires PrefixFormed(d) && k <= |args| && forall i :: 0 <= i < |args| ==> args[i] < index + |d.nodes| && (args[i] < index ==> args[i] in renamed)
    ensures var r := ReadArgs(d, renamed, index, args, k);
            r.Some? ==> Grows(d, r.value.draft) && PrefixFormed(r.value.draft) && |r.value.names| == k
                        && ArgsMatch(r.value.draft, renamed, index, |d.nodes|, args, r.value.names)
  {
    if k > 0 {
      ReadArgsMatch(d, renamed, index, args, k - 1);
      var before := ReadArgs(d, renamed, index, args, k - 1);
      if before.Some? {
        var e := before.value.draft;
        ReadArgMatches(e, renamed, index, args[k - 1]);
        var last := ReadArg(e, renamed, index, args[k - 1]);
        if last.Some? {
          ArgsStillMatch(e, last.value.draft, renamed, index, |d.nodes|, args, before.value.names);
        }
      }
    }
  }

  function InputsReadAll(r: Option<ReadAll>): Option<seq<BlockInput>> {
    if r.Some? then Some(r.value.draft.inputs) else None
  }

  lemma {:induction false} ReadArgsExact(d: Draft, renamed: map<nat, nat>, index: nat, args: seq<nat>, k: nat, wanted: set<BlockInput>)
    requires InputsAre(d.inputs, wanted) && |wanted| <= BLOCK_INPUTS && k <= |args|
    ensures Exact(InputsReadAll(ReadArgs(d, renamed, index, args, k)), wanted + ArgInputs(renamed, index, args, k))
  {
    if k == 0 {
      NothingAdded(wanted);
    } else {
      ReadArgsExact(d, renamed, index, args, k - 1, wanted);
      var rest, last := ArgInputs(renamed, index, args, k - 1), ArgInput(renamed, index, args[k - 1]);
      ReadNextExact(ReadArgs(d, renamed, index, args, k - 1), renamed, index, args[k - 1], wanted + rest);
      assert wanted + ArgInputs(renamed, index, args, k) == wanted + rest + last by { AddedInTurn(wanted, rest, last); }
    }
  }

  lemma {:induction false} ReadNextExact(before: Option<ReadAll>, renamed: map<nat, nat>, index: nat, ref: nat, wanted: set<BlockInput>)
    requires Exact(InputsReadAll(before), wanted)
    ensures Exact(InputsReadAll(ReadNext(before, renamed, index, ref)), wanted + ArgInput(renamed, index, ref))
  {
    if before.Some? {
      ReadArgExact(before.value.draft, renamed, index, ref, wanted);
    } else {
      SubsetSize(wanted, wanted + ArgInput(renamed, index, ref));
    }
  }

  // ----- Nodes -----

  datatype Added = Added(draft: Draft, node: Node)

  function AddLoad(d: Draft, spec: BlockInput): Option<Added> {
    var found := FindSlot(d.inputs, spec);
    if found.None? then None
    else Some(Added(Draft(found.value.inputs, d.prefix, d.nodes), LoadOf(Inner(|d.nodes|), found.value.slot)))
  }

  lemma {:induction false} AddLoadReads(d: Draft, spec: BlockInput)
    requires PrefixFormed(d)
    ensures var r := AddLoad(d, spec);
            r.Some? ==> Grows(d, r.value.draft) && PrefixFormed(r.value.draft)
                        && r.value.node.id == Inner(|d.nodes|) && ReadsInput(r.value.draft, r.value.node, spec)
  {
    var found := FindSlot(d.inputs, spec);
    if found.Some? {
      PrefixGrows(d, found.value.inputs, found.value.slot);
    }
  }

  /** The node of the next pass, over a draft grown by what it reads. */
  function NextNode(d: Draft, renamed: map<nat, nat>, index: nat, raw: Pass): Option<Added> {
    match raw.work
    case GatherLoad(g, args) => AddLoad(d, Gathered(g, Renamed(renamed, args)))
    case Apply(op, args, imm) =>
      if op == Load && |args| == 1 then
        if args[0] >= index then Some(Added(d, Node(Inner(|d.nodes|), AddImm, [Inner(args[0] - index)], Slot(0), 0)))
        else AddLoad(d, FromPlane(MovedTo(renamed, args[0])))
      else
        var read := ReadArgs(d, renamed, index, args, |args|);
        if read.None? then None else Some(Added(read.value.draft, Node(Inner(|d.nodes|), op, read.value.names, Slot(0), imm)))
    case _ => None
  }

  lemma {:induction false} ApplyNodeMatches(e: Draft, renamed: map<nat, nat>, index: nat, k: nat, node: Node, op: Op, args: seq<nat>, imm: int)
    requires node.op == op && node.imm == imm && |node.args| == |args| && ArgsMatch(e, renamed, index, k, args, node.args)
    ensures ApplyMatches(e.(nodes := e.nodes + [node]), renamed, index, k, node, op, args, imm)
  {
    var f := e.(nodes := e.nodes + [node]);
    forall j | 0 <= j < |args| ensures ArgMatches(f, renamed, index, k, args[j], node.args[j]) {
      assert ArgMatches(e, renamed, index, k, args[j], node.args[j]);
    }
  }

  lemma {:induction false} NextNodeMatches(d: Draft, renamed: map<nat, nat>, segment: seq<Pass>, index: nat)
    requires PrefixFormed(d) && |d.nodes| < |segment| && PassReady(renamed, segment, index, |d.nodes|)
    ensures var r := NextNode(d, renamed, index, segment[|d.nodes|]);
            r.Some? ==> Grows(d, r.value.draft) && PrefixFormed(r.value.draft)
                        && NodeMatches(r.value.draft.(nodes := d.nodes + [r.value.node]), renamed, index, |d.nodes|, segment[|d.nodes|])
  {
    var raw, i := segment[|d.nodes|], |d.nodes|;
    var r := NextNode(d, renamed, index, raw);
    match raw.work
    case GatherLoad(g, args) =>
      forall a | a in args ensures a < index && a in renamed { assert a in Refs(raw); }
      AddLoadReads(d, Gathered(g, Renamed(renamed, args)));
    case Apply(op, args, imm) =>
      forall j | 0 <= j < |args| ensures args[j] < index + i && (args[j] < index ==> args[j] in renamed) { assert args[j] in Refs(raw); }
      if op == Load {
        AddLoadReads(d, FromPlane(MovedTo(renamed, args[0])));
      } else {
        ReadArgsMatch(d, renamed, index, args, |args|);
        if r.Some? {
          ApplyNodeMatches(r.value.draft, renamed, index, i, r.value.node, op, args, imm);
        }
      }
  }

  function InputsAdded(r: Option<Added>): Option<seq<BlockInput>> {
    if r.Some? then Some(r.value.draft.inputs) else None
  }

  lemma {:induction false} AddLoadExact(d: Draft, spec: BlockInput, wanted: set<BlockInput>)
    requires InputsAre(d.inputs, wanted)
    ensures Exact(InputsAdded(AddLoad(d, spec)), wanted + {spec})
  {
    SlotExact(d.inputs, wanted, spec);
  }

  lemma {:induction false} LoadNodeExact(d: Draft, renamed: map<nat, nat>, index: nat, raw: Pass, wanted: set<BlockInput>)
    requires InputsAre(d.inputs, wanted) && |wanted| <= BLOCK_INPUTS && raw.work.Apply? && raw.work.op == Load && |raw.work.args| == 1
    ensures Exact(InputsAdded(NextNode(d, renamed, index, raw)), wanted + ArgInput(renamed, index, raw.work.args[0]))
  {
    if raw.work.args[0] < index {
      AddLoadExact(d, FromPlane(MovedTo(renamed, raw.work.args[0])), wanted);
    } else {
      NothingAdded(wanted);
    }
  }

  lemma {:induction false} NextNodeExact(d: Draft, renamed: map<nat, nat>, index: nat, raw: Pass, wanted: set<BlockInput>)
    requires InputsAre(d.inputs, wanted) && |wanted| <= BLOCK_INPUTS && (raw.work.Apply? || raw.work.GatherLoad?)
    ensures Exact(InputsAdded(NextNode(d, renamed, index, raw)), wanted + PassInputs(renamed, index, raw))
  {
    match raw.work
    case GatherLoad(g, args) =>
      AddLoadExact(d, Gathered(g, Renamed(renamed, args)), wanted);
    case Apply(op, args, imm) =>
      if op == Load && |args| == 1 {
        OneArgInput(renamed, index, args);
        LoadNodeExact(d, renamed, index, raw, wanted);
      } else {
        ReadArgsExact(d, renamed, index, args, |args|, wanted);
      }
  }

  lemma {:induction false} OneArgInput(renamed: map<nat, nat>, index: nat, args: seq<nat>)
    requires |args| == 1
    ensures ArgInputs(renamed, index, args, 1) == ArgInput(renamed, index, args[0])
  {
    assert ArgInputs(renamed, index, args, 0) == {};
  }

  // ----- Segments -----

  /** The draft of the first `k` passes. */
  function DraftOf(renamed: map<nat, nat>, segment: seq<Pass>, index: nat, k: nat): Option<Draft>
    requires k <= |segment|
  {
    Drafted(DraftStep(renamed, segment, index), k)
  }

  type Step = (Option<Draft>, nat) -> Option<Draft>

  function DraftStep(renamed: map<nat, nat>, segment: seq<Pass>, index: nat): Step {
    (before: Option<Draft>, i: nat) => if i < |segment| then WithNext(before, renamed, index, segment[i]) else before
  }

  function Drafted(step: Step, k: nat): Option<Draft> {
    if k == 0 then Some(Draft([], [], [])) else step(Drafted(step, k - 1), k - 1)
  }

  /** A draft extended by one pass. */
  function WithNext(before: Option<Draft>, renamed: map<nat, nat>, index: nat, raw: Pass): Option<Draft> {
    if before.None? then None
    else
      var next := NextNode(before.value, renamed, index, raw);
      if next.None? then None
      else Some(Draft(next.value.draft.inputs, next.value.draft.prefix, next.value.draft.nodes + [next.value.node]))
  }

  /** Every draft stands for its passes. */
  lemma {:induction false} DraftIsFor(renamed: map<nat, nat>, segment: seq<Pass>, index: nat, k: nat)
    requires SegmentReady(renamed, segment, index) && k <= |segment|
    ensures var r := DraftOf(renamed, segment, index, k); r.Some? ==> DraftFor(r.value, renamed, segment, index) && |r.value.nodes| == k
  {
    if k > 0 {
      DraftIsFor(renamed, segment, index, k - 1);
      var before := DraftOf(renamed, segment, index, k - 1);
      if before.Some? {
        var d := before.value;
        assert PassReady(renamed, segment, index, k - 1);
        NextNodeMatches(d, renamed, segment, index);
        var next := NextNode(d, renamed, index, segment[k - 1]);
        if next.Some? {
          DraftExtends(d, next.value.draft, renamed, segment, index, next.value.node);
        }
      }
    }
  }

  function InputsDrafted(r: Option<Draft>): Option<seq<BlockInput>> {
    if r.Some? then Some(r.value.inputs) else None
  }

  lemma {:induction false} WithNextExact(before: Option<Draft>, renamed: map<nat, nat>, index: nat, raw: Pass, wanted: set<BlockInput>)
    requires Exact(InputsDrafted(before), wanted) && (raw.work.Apply? || raw.work.GatherLoad?)
    ensures Exact(InputsDrafted(WithNext(before, renamed, index, raw)), wanted + PassInputs(renamed, index, raw))
  {
    if before.Some? {
      NextNodeExact(before.value, renamed, index, raw, wanted);
    } else {
      SubsetSize(wanted, wanted + PassInputs(renamed, index, raw));
    }
  }

  type InputSets = nat -> set<BlockInput>

  function SegmentSets(renamed: map<nat, nat>, segment: seq<Pass>, index: nat): InputSets {
    (k: nat) => if k <= |segment| then SegmentInputs(renamed, segment, index, k) else {}
  }

  /** One step from the wanted inputs of `i` passes gives those of `after == i + 1`. */
  ghost predicate StepExact(step: Step, sets: InputSets, d: Option<Draft>, i: nat, after: nat) {
    Exact(InputsDrafted(d), sets(i)) ==> Exact(InputsDrafted(step(d, i)), sets(after))
  }

  ghost predicate StepsExact(step: Step, sets: InputSets, n: nat) {
    forall d: Option<Draft>, i: nat, after: nat {:trigger StepExact(step, sets, d, i, after)} :: i < n && after == i + 1 ==> StepExact(step, sets, d, i, after)
  }

  lemma {:induction false} DraftedExact(step: Step, sets: InputSets, n: nat, k: nat)
    requires k <= n && sets(0) == {} && StepsExact(step, sets, n)
    ensures Exact(InputsDrafted(Drafted(step, k)), sets(k))
  {
    if k > 0 {
      DraftedExact(step, sets, n, k - 1);
      assert StepExact(step, sets, Drafted(step, k - 1), k - 1, k);
    }
  }

  lemma {:induction false} SegmentStepExact(renamed: map<nat, nat>, segment: seq<Pass>, index: nat, step: Step, sets: InputSets, d: Option<Draft>, i: nat, after: nat)
    requires i < |segment| && after == i + 1 && (segment[i].work.Apply? || segment[i].work.GatherLoad?)
    requires step(d, i) == WithNext(d, renamed, index, segment[i]) && sets(after) == sets(i) + PassInputs(renamed, index, segment[i])
    ensures StepExact(step, sets, d, i, after)
  {
    if Exact(InputsDrafted(d), sets(i)) {
      WithNextExact(d, renamed, index, segment[i], sets(i));
    }
  }

  lemma {:induction false} SegmentStepsExact(renamed: map<nat, nat>, segment: seq<Pass>, index: nat)
    requires SegmentReady(renamed, segment, index)
    ensures StepsExact(DraftStep(renamed, segment, index), SegmentSets(renamed, segment, index), |segment|)
  {
    var step, sets := DraftStep(renamed, segment, index), SegmentSets(renamed, segment, index);
    forall d: Option<Draft>, i: nat, after: nat | i < |segment| && after == i + 1 ensures StepExact(step, sets, d, i, after) {
      assert segment[i].work.Apply? || segment[i].work.GatherLoad? by { assert PassReady(renamed, segment, index, i); }
      SegmentStepExact(renamed, segment, index, step, sets, d, i, after);
    }
  }

  /** A segment can be drafted exactly when its passes read at most two distinct outside inputs. */
  lemma {:induction false} DraftExact(renamed: map<nat, nat>, segment: seq<Pass>, index: nat, k: nat)
    requires SegmentReady(renamed, segment, index) && k <= |segment|
    ensures Exact(InputsDrafted(DraftOf(renamed, segment, index, k)), SegmentInputs(renamed, segment, index, k))
  {
    SegmentStepsExact(renamed, segment, index);
    DraftedExact(DraftStep(renamed, segment, index), SegmentSets(renamed, segment, index), |segment|, k);
  }

  /** The inputs of the draft name only renamed planes. */
  ghost predicate InputsRenamed(d: Draft, renamed: map<nat, nat>) {
    forall n :: n in BlockRefs(d.inputs) ==> n in renamed.Values
  }

  lemma {:induction false} WantedRenamed(renamed: map<nat, nat>, segment: seq<Pass>, index: nat, k: nat, i: BlockInput, n: nat)
    requires SegmentReady(renamed, segment, index) && k <= |segment| && i in SegmentInputs(renamed, segment, index, k) && n in InputRefs(i)
    ensures n in renamed.Values
  {
    if i in SegmentInputs(renamed, segment, index, k - 1) {
      WantedRenamed(renamed, segment, index, k - 1, i, n);
    } else {
      assert PassReady(renamed, segment, index, k - 1);
      PassInputRenamed(renamed, index, segment[k - 1], i, n);
    }
  }

  lemma {:induction false} PassInputRenamed(renamed: map<nat, nat>, index: nat, raw: Pass, i: BlockInput, n: nat)
    requires i in PassInputs(renamed, index, raw) && n in InputRefs(i) && (raw.work.Apply? || raw.work.GatherLoad?)
    requires forall a :: a in Refs(raw) ==> (a < index ==> a in renamed)
    requires raw.work.GatherLoad? ==> forall a :: a in Refs(raw) ==> a < index
    ensures n in renamed.Values
  {
    match raw.work
    case GatherLoad(g, args) =>
      var j :| 0 <= j < |args| && Renamed(renamed, args)[j] == n;
      assert args[j] in Refs(raw);
    case Apply(_, args, _) =>
      var j := ArgOfInput(renamed, index, args, |args|, i);
      assert args[j] in Refs(raw);
  }

  lemma {:induction false} ArgOfInput(renamed: map<nat, nat>, index: nat, args: seq<nat>, k: nat, i: BlockInput) returns (j: nat)
    requires k <= |args| && i in ArgInputs(renamed, index, args, k)
    ensures j < k && args[j] < index && i == FromPlane(MovedTo(renamed, args[j]))
  {
    if i in ArgInputs(renamed, index, args, k - 1) {
      j := ArgOfInput(renamed, index, args, k - 1, i);
    } else {
      j := k - 1;
    }
  }

  /** Every outside reference of a draft is renamed. */
  lemma {:induction false} DraftRenamed(renamed: map<nat, nat>, segment: seq<Pass>, index: nat)
    requires SegmentReady(renamed, segment, index) && DraftOf(renamed, segment, index, |segment|).Some?
    ensures InputsRenamed(DraftOf(renamed, segment, index, |segment|).value, renamed)
  {
    var d := DraftOf(renamed, segment, index, |segment|).value;
    DraftExact(renamed, segment, index, |segment|);
    forall n | n in BlockRefs(d.inputs) ensures n in renamed.Values {
      var i :| 0 <= i < |d.inputs| && n in InputRefs(d.inputs[i]);
      assert d.inputs[i] in Elements(d.inputs);
      WantedRenamed(renamed, segment, index, |segment|, d.inputs[i], n);
    }
  }

  /** Drafts the passes one after another; once one is refused nothing more is drafted. */
  method DraftSegment(renamed: map<nat, nat>, segment: seq<Pass>, index: nat) returns (r: Option<Draft>)
    ensures r == DraftOf(renamed, segment, index, |segment|)
  {
    r := DraftSteps(DraftStep(renamed, segment, index), |segment|);
  }

  method DraftSteps(step: Step, n: nat) returns (r: Option<Draft>)
    ensures r == Drafted(step, n)
  {
    r := Some(Draft([], [], []));
    for i := 0 to n
      invariant r == Drafted(step, i)
    {
      r := step(r, i);
    }
  }
}

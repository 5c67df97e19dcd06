/**
  The compiler's own check of its lowering trace.  It fixes every field of a trace from the descriptor and the words, so
  the compiler's traces always pass; unlike the independent check it does not look at overlapping lifetimes.
 */
module LoweringCheck {
  import opened Base
  import opened Registers
  import opened Descriptor
  import opened Encoding
  import opened GraphMachine
  import opened GraphCompiler
  import opened Garden
  import GardenCheck

  // ----- What the check accepts -----

  /** The destination field of every word. */
  function WordDests(code: seq<int>): (dest: seq<nat>)
    ensures |dest| == |code| && forall k :: 0 <= k < |code| ==> dest[k] == DestinationOf(code[k])
  {
    seq(|code|, k requires 0 <= k < |code| => DestinationOf(code[k]))
  }

  /** The register the words give the value named `u`. */
  function RegisterOf(nodes: seq<Node>, code: seq<int>, u: string): nat {
    if u in Ids(nodes) && Position(Ids(nodes), u) < |code| then DestinationOf(code[Position(Ids(nodes), u)]) else 0
  }

  function RegistersOf(nodes: seq<Node>, code: seq<int>, names: seq<string>): (r: seq<nat>)
    ensures |r| == |names| && forall j :: 0 <= j < |names| ==> r[j] == RegisterOf(nodes, code, names[j])
  {
    seq(|names|, j requires 0 <= j < |names| => RegisterOf(nodes, code, names[j]))
  }

  /** The one entry the check accepts for node `i`. */
  function ExpectedEntry(nodes: seq<Node>, code: seq<int>, i: nat): Entry
    requires i < |nodes| && i < |code|
  {
    var node := nodes[i];
    var positions := UsePositions(Items(nodes), node.id, |nodes|);
    var value := node.kind != StoreU32;
    var last := if value then LastOf(positions) else None;
    Entry(i, node.id, node.kind, node.inputs, node.address, |positions|, Consumers(nodes, positions), code[i],
          RegistersOf(nodes, code, node.inputs), if value then Some(DestinationOf(code[i])) else None, if value then Some(i) else None, last,
          if value then Some((i, if last.Some? then last.value else |code| - 1)) else None, last, node.immediate)
  }

  /** The word encodes its node with the registers the words themselves name. */
  predicate WordRight(schema: Schema, nodes: seq<Node>, code: seq<int>, i: nat)
    requires i < |nodes| && i < |code|
  {
    NodeFormed(schema, nodes[i]) && code[i] == Encode(nodes[i], DestinationOf(code[i]), RegistersOf(nodes, code, nodes[i].inputs))
  }

  ghost predicate EntryAccepted(schema: Schema, nodes: seq<Node>, code: seq<int>, entries: seq<Entry>, i: nat)
    requires i < |nodes| == |entries| && i < |code|
  {
    entries[i] == ExpectedEntry(nodes, code, i) && WordRight(schema, nodes, code, i)
  }

  /** Entries, nodes and words are compared pairwise, up to the end of the shorter list. */
  ghost predicate EntriesAccepted(schema: Schema, nodes: seq<Node>, code: seq<int>, entries: seq<Entry>) {
    && |entries| == |nodes|
    && forall i {:trigger EntryAccepted(schema, nodes, code, entries, i)} :: 0 <= i < |nodes| && i < |code| ==> EntryAccepted(schema, nodes, code, entries, i)
  }

  /** What `validate_lowering_trace` accepts. */
  ghost predicate TraceAccepted(d: Descriptor, trace: Trace, code: seq<int>, canon: Canon, sha: Digest) {
    Admitted(d) && HeaderRight(d, trace, code, canon, sha) && EntriesAccepted(d.schema, Scheduled(d.nodes), code, trace.entries)
  }

  // ----- The checking loop -----

  /** The registers of the values defined before `i`. */
  ghost predicate Allocated(nodes: seq<Node>, code: seq<int>, i: nat, allocations: map<string, nat>)
    requires i <= |nodes| && i <= |code|
  {
    forall j :: 0 <= j < i && nodes[j].kind != StoreU32 ==> nodes[j].id in allocations && allocations[nodes[j].id] == DestinationOf(code[j])
  }

  lemma {:induction false} AllocatedStep(nodes: seq<Node>, code: seq<int>, i: nat, allocations: map<string, nat>)
    requires SingleAssignment(Items(nodes)) && i < |nodes| && i < |code| && Allocated(nodes, code, i, allocations)
    ensures Allocated(nodes, code, i + 1, if nodes[i].kind != StoreU32 then allocations[nodes[i].id := DestinationOf(code[i])] else allocations)
  {
    assert forall j :: 0 <= j < i ==> Items(nodes)[j].id != Items(nodes)[i].id;
  }

  lemma {:induction false} RegisterIs(nodes: seq<Node>, code: seq<int>, j: nat)
    requires SingleAssignment(Items(nodes)) && j < |nodes| && j < |code|
    ensures RegisterOf(nodes, code, nodes[j].id) == DestinationOf(code[j])
  {
    assert Ids(nodes)[j] == nodes[j].id;
    var p := Position(Ids(nodes), nodes[j].id);
    assert Items(nodes)[p].id == Items(nodes)[j].id;
  }

  lemma {:induction false} OperandAllocated(nodes: seq<Node>, code: seq<int>, i: nat, allocations: map<string, nat>, u: string)
    requires SingleAssignment(Items(nodes)) && i < |nodes| && i < |code| && Allocated(nodes, code, i, allocations) && u in nodes[i].inputs
    ensures u in allocations && allocations[u] == RegisterOf(nodes, code, u)
  {
    assert u in Items(nodes)[i].uses;
    assert DefinedBefore(Items(nodes), i, u);
    var j :| 0 <= j < i && Items(nodes)[j].id == u && Items(nodes)[j].defines;
    RegisterIs(nodes, code, j);
  }

  /** The registers of a node's operands, looked up in the allocations so far. */
  method OperandSources(nodes: seq<Node>, ghost code: seq<int>, i: nat, allocations: map<string, nat>) returns (sources: seq<nat>)
    requires SingleAssignment(Items(nodes)) && i < |nodes| && i < |code| && Allocated(nodes, code, i, allocations)
    ensures sources == RegistersOf(nodes, code, nodes[i].inputs)
  {
    var inputs := nodes[i].inputs;
    forall u | u in inputs ensures u in allocations && allocations[u] == RegisterOf(nodes, code, u) {
      OperandAllocated(nodes, code, i, allocations, u);
    }
    sources := seq(|inputs|, j requires 0 <= j < |inputs| => allocations[inputs[j]]);
  }

  /** What the entry repeats from the descriptor and the words. */
  predicate CopiesRight(nodes: seq<Node>, word: int, e: Entry, i: nat, positions: seq<nat>, sources: seq<nat>)
    requires i < |nodes|
  {
    var node := nodes[i];
    && e.immediate == node.immediate && e.index == i && e.nodeId == node.id && e.op == node.kind && e.dependencies == node.inputs
    && e.selector == node.address && e.fanOut == |positions| && e.consumers == Consumers(nodes, positions) && e.encodedWord == word
    && e.sourceRegisters == sources
  }

  /** The entry's register and lifetime. */
  predicate LifetimeRight(value: bool, word: int, count: nat, e: Entry, i: nat, positions: seq<nat>) {
    var last := if value then LastOf(positions) else None;
    && e.destination == (if value then Some(DestinationOf(word)) else None) && e.definition == (if value then Some(i) else None)
    && e.lastUse == last && e.liveRange == (if value then Some((i, if last.Some? then last.value else count - 1)) else None) && e.release == last
  }

  lemma {:induction false} EntryByParts(nodes: seq<Node>, code: seq<int>, e: Entry, i: nat)
    requires i < |nodes| && i < |code|
    ensures var positions := UsePositions(Items(nodes), nodes[i].id, |nodes|);
            e == ExpectedEntry(nodes, code, i) <==>
            CopiesRight(nodes, code[i], e, i, positions, RegistersOf(nodes, code, nodes[i].inputs))
            && LifetimeRight(nodes[i].kind != StoreU32, code[i], |code|, e, i, positions)
  {
  }

  /** One turn of the loop: the entry's fields, then the word. */
  method CheckEntry(schema: Schema, nodes: seq<Node>, code: seq<int>, entries: seq<Entry>, i: nat, allocations: map<string, nat>) returns (ok: bool)
    requires SingleAssignment(Items(nodes)) && NodesFormed(schema, nodes) && i < |nodes| == |entries| && i < |code|
    requires Allocated(nodes, code, i, allocations)
    ensures ok <==> EntryAccepted(schema, nodes, code, entries, i)
  {
    var positions := GardenCheck.Positions(Items(nodes), nodes[i].id);
    var sources := OperandSources(nodes, code, i, allocations);
    EntryByParts(nodes, code, entries[i], i);
    ok := CopiesRight(nodes, code[i], entries[i], i, positions, sources)
          && LifetimeRight(nodes[i].kind != StoreU32, code[i], |code|, entries[i], i, positions)
          && code[i] == Encode(nodes[i], DestinationOf(code[i]), sources);
  }

  method CheckEntries(schema: Schema, nodes: seq<Node>, code: seq<int>, entries: seq<Entry>) returns (ok: bool)
    requires SingleAssignment(Items(nodes)) && NodesFormed(schema, nodes)
    ensures ok <==> EntriesAccepted(schema, nodes, code, entries)
  {
    if |entries| != |nodes| {
      return false;
    }
    var allocations: map<string, nat>, i := map[], 0;
    while i < |nodes| && i < |code|
      invariant 0 <= i <= |nodes| && i <= |code| && Allocated(nodes, code, i, allocations)
      invariant forall k {:trigger EntryAccepted(schema, nodes, code, entries, k)} :: 0 <= k < i ==> EntryAccepted(schema, nodes, code, entries, k)
    {
      ok := CheckEntry(schema, nodes, code, entries, i, allocations);
      if !ok {
        return;
      }
      AllocatedStep(nodes, code, i, allocations);
      if nodes[i].kind != StoreU32 {
        allocations := allocations[nodes[i].id := DestinationOf(code[i])];
      }
      i := i + 1;
    }
    ok := true;
  }

  method ValidateLoweringTrace(d: Descriptor, trace: Trace, code: seq<int>, canon: Canon, sha: Digest) returns (ok: bool)
    ensures ok <==> TraceAccepted(d, trace, code, canon, sha)
  {
    ok := ValidateDescriptor(d);
    if !ok || !HeaderRight(d, trace, code, canon, sha) {
      return false;
    }
    var nodes := ScheduleAdmitted(d);
    ok := CheckEntries(d.schema, nodes, code, trace.entries);
  }

  // ----- The compiler's own traces -----

  lemma {:induction false} LoweredRegisters(schema: Schema, version: int, nodes: seq<Node>, dest: seq<nat>, sources: seq<seq<nat>>, code: seq<int>, k: nat)
    requires Lowers(schema, nodes, dest, sources, code) && AddressForm(schema, version) && k < |nodes|
    ensures nodes[k].kind != StoreU32 ==> DestinationOf(code[k]) == dest[k]
    ensures RegistersOf(nodes, code, nodes[k].inputs) == sources[k]
  {
    var items := Items(nodes);
    assert Sites(schema, nodes, dest, sources, code) by { LoweredSites(schema, nodes, dest, sources, code); }
    WordFields(schema, version, nodes[k], dest[k], sources[k], code[k], 0);
    forall j | 0 <= j < |sources[k]| ensures RegisterOf(nodes, code, nodes[k].inputs[j]) == sources[k][j] {
      assert items[k].uses[j] == nodes[k].inputs[j] && DefinedBefore(items, k, items[k].uses[j]);
      var i :| 0 <= i < k && items[i].id == items[k].uses[j] && items[i].defines;
      assert ReadsFrom(items, dest, k, sources[k]);
      RegisterIs(nodes, code, i);
      WordFields(schema, version, nodes[i], dest[i], sources[i], code[i], 0);
    }
  }

  lemma {:induction false} LoweredEntry(schema: Schema, version: int, nodes: seq<Node>, dest: seq<nat>, sources: seq<seq<nat>>, code: seq<int>, k: nat)
    requires Lowers(schema, nodes, dest, sources, code) && AddressForm(schema, version) && k < |nodes|
    ensures EntryAccepted(schema, nodes, code, LoweringTrace(nodes, code, dest, sources), k)
  {
    LoweredRegisters(schema, version, nodes, dest, sources, code, k);
    assert code[k] == Encode(nodes[k], dest[k], sources[k]);
  }

  /** The check accepts the trace of every compiled descriptor. */
  lemma {:induction false} CompiledTraceValid(d: Descriptor, p: Program, sha: Digest, dest: seq<nat>, sources: seq<seq<nat>>, canon: Canon)
    requires Admitted(d) && CompiledWith(d, p, sha, dest, sources)
    ensures TraceAccepted(d, TraceOf(d, p.instructions, LoweringTrace(Scheduled(d.nodes), p.instructions, dest, sources), canon, sha), p.instructions, canon, sha)
  {
    var nodes, code := Scheduled(d.nodes), p.instructions;
    forall k | 0 <= k < |nodes| ensures EntryAccepted(d.schema, nodes, code, LoweringTrace(nodes, code, dest, sources), k) {
      LoweredEntry(d.schema, ProgramVersion(d), nodes, dest, sources, code, k);
    }
  }

  /**
    The whole of `compile_descriptor`: its last step, the check of its own trace, never fails, so it refuses exactly the
    inadmissible descriptors and those that hold eight values at some definition.
   */
  method CompileWithTrace(d: Descriptor, sha: Digest, canon: Canon) returns (r: Compilation, trace: Option<Trace>)
    ensures r.InvalidDescriptor? <==> !Admitted(d)
    ensures r.TooManyLiveValues? <==> Admitted(d) && Overflows(Items(Scheduled(d.nodes)), true)
    ensures r.Ok? ==> Admitted(d) && Compiled(d, r.program, sha)
    ensures r.Ok? <==> trace.Some?
    ensures r.Ok? ==> TraceAccepted(d, trace.value, r.program.instructions, canon, sha)
  {
    var compiled, dest, sources := CompileDescriptor(d, sha);
    if !compiled.Ok? {
      return compiled, None;
    }
    var code := compiled.program.instructions;
    CompiledTraceValid(d, compiled.program, sha, dest, sources, canon);
    var nodes := ScheduleAdmitted(d);
    var t := TraceOf(d, code, LoweringTrace(nodes, code, dest, sources), canon, sha);
    var ok := ValidateLoweringTrace(d, t, code, canon, sha);
    r, trace := if ok then compiled else InvalidDescriptor, if ok then Some(t) else None;
  }
}

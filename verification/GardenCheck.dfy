/** The checking loops of `parse_lowering`, proved to accept exactly the traces that `Garden.Explains`. */
module GardenCheck {
  import opened Base
  import opened Registers
  import opened Descriptor
  import opened Encoding
  import opened GraphCompiler
  import opened Garden
  import V = GraphValidators
  import GraphExecution

  /** What the first pass remembers: the identifiers seen so far and the registers their values were given. */
  ghost predicate Seen(version: int, code: seq<int>, entries: seq<Entry>, i: nat, known: set<string>, allocations: map<string, nat>)
    requires i <= |entries| == |code|
  {
    && (forall j :: 0 <= j < i ==> EntryChecked(version, code, entries, j))
    && known == (set j | 0 <= j < i :: entries[j].nodeId)
    && allocations.Keys == (set j | 0 <= j < i && entries[j].op != StoreU32 :: entries[j].nodeId)
    && forall j :: 0 <= j < i && entries[j].op != StoreU32 ==>
         entries[j].nodeId in allocations && allocations[entries[j].nodeId] == Destinations(entries)[j]
  }

  /** The opcode gate, operand count, selector form and immediate of one entry. */
  method CheckForm(version: int, e: Entry, last: bool) returns (ok: bool)
    requires 1 <= version <= 6
    ensures ok <==> NodeFormed(SchemaOf(version), AsNode(e)) && (version == 1 ==> e.op != MaxU32) && (e.op == StoreU32 ==> last)
  {
    if version == 1 && e.op == MaxU32 {
      return false;
    }
    if version < 4 && e.op == MulU32 {
      return false;
    }
    if e.op in {AddImmU32, GeImmU32} {
      var allowed := if e.op == GeImmU32 then {6} else {5, 6};
      if version !in allowed || e.immediate.None? || !(0 <= e.immediate.value <= MAX_IMMEDIATE) {
        return false;
      }
    } else if e.immediate.Some? {
      return false;
    }
    if e.op == LoadU32 && version >= 3 {
      if e.selector.None? || !e.selector.value.Relative?
         || !(-1 <= e.selector.value.row <= 1) || !(-1 <= e.selector.value.column <= 1) {
        return false;
      }
    }
    if e.op == LoadU32 {
      ok := e.dependencies == [] && (version < 3 ==> e.selector.Some? && e.selector.value.Compass?);
    } else if e.op in {AddU32, MaxU32, MulU32} {
      ok := |e.dependencies| == 2 && e.selector.None?;
    } else if e.op in {AddImmU32, GeImmU32} {
      ok := |e.dependencies| == 1 && e.selector.None?;
    } else {
      ok := |e.dependencies| == 1 && e.selector.None? && last;
    }
  }

  /** Dependencies must be known, and read from the registers their entries were given. */
  method CheckOperands(version: int, code: seq<int>, entries: seq<Entry>, i: nat, known: set<string>, allocations: map<string, nat>)
    returns (ok: bool)
    requires i < |entries| == |code| && Seen(version, code, entries, i, known, allocations)
    ensures ok <==> OperandsChecked(entries, i)
  {
    var e := entries[i];
    ghost var items, dest := Items(AsNodes(entries)), Destinations(entries);
    ok := |e.sourceRegisters| == |e.dependencies|;
    if !ok {
      return;
    }
    var j := 0;
    while j < |e.dependencies|
      invariant 0 <= j <= |e.dependencies| == |e.sourceRegisters|
      invariant forall p :: 0 <= p < j ==> OperandChecked(entries, i, p)
    {
      var u, r := e.dependencies[j], e.sourceRegisters[j];
      SeenOperand(version, code, entries, i, known, allocations, j);
      if !(Identifier(u) && u in known && u in allocations && r < REGISTERS && allocations[u] == r) {
        assert !OperandChecked(entries, i, j);
        OperandsAreChecked(entries, i);
        return false;
      }
      j := j + 1;
    }
    OperandsAreChecked(entries, i);
  }

  ghost predicate OperandChecked(entries: seq<Entry>, i: nat, p: nat)
    requires i < |entries| && p < |entries[i].dependencies| && p < |entries[i].sourceRegisters|
  {
    var items, u := Items(AsNodes(entries)), entries[i].dependencies[p];
    && Identifier(u) && DefinedBefore(items, i, u) && entries[i].sourceRegisters[p] < REGISTERS
    && forall m :: 0 <= m < i && items[m].id == u ==> entries[i].sourceRegisters[p] == Destinations(entries)[m]
  }

  lemma {:induction false} OperandsAreChecked(entries: seq<Entry>, i: nat)
    requires i < |entries| && |entries[i].dependencies| == |entries[i].sourceRegisters|
    ensures OperandsChecked(entries, i) <==> forall p :: 0 <= p < |entries[i].dependencies| ==> OperandChecked(entries, i, p)
  {
    var e, items := entries[i], Items(AsNodes(entries));
    assert items[i].uses == e.dependencies;
    if OperandsChecked(entries, i) {
      forall p | 0 <= p < |e.dependencies| ensures OperandChecked(entries, i, p) {
        assert e.dependencies[p] in e.dependencies;
      }
    }
    if forall p :: 0 <= p < |e.dependencies| ==> OperandChecked(entries, i, p) {
      forall u | u in e.dependencies ensures Identifier(u) && DefinedBefore(items, i, u) {
        var p :| 0 <= p < |e.dependencies| && e.dependencies[p] == u;
        assert OperandChecked(entries, i, p);
      }
      forall p, m | 0 <= p < |e.sourceRegisters| && 0 <= m < i && items[m].id == items[i].uses[p]
        ensures e.sourceRegisters[p] == Destinations(entries)[m]
      {
        assert OperandChecked(entries, i, p);
      }
      forall p | 0 <= p < |e.sourceRegisters| ensures e.sourceRegisters[p] < REGISTERS {
        assert OperandChecked(entries, i, p);
      }
    }
  }

  lemma {:induction false} SeenOperand(version: int, code: seq<int>, entries: seq<Entry>, i: nat, known: set<string>,
                                       allocations: map<string, nat>, p: nat)
    requires i < |entries| == |code| && Seen(version, code, entries, i, known, allocations)
    requires p < |entries[i].dependencies| == |entries[i].sourceRegisters|
    ensures var u, r := entries[i].dependencies[p], entries[i].sourceRegisters[p];
            OperandChecked(entries, i, p) <==> Identifier(u) && u in known && u in allocations && r < REGISTERS && allocations[u] == r
  {
    var u, items := entries[i].dependencies[p], Items(AsNodes(entries));
    if u in allocations {
      var m :| 0 <= m < i && entries[m].op != StoreU32 && entries[m].nodeId == u;
      assert items[m].id == u && items[m].defines;
      forall m' | 0 <= m' < i && items[m'].id == u ensures m' == m {
        assert EntryChecked(version, code, entries, m) && EntryChecked(version, code, entries, m');
      }
    }
  }

  predicate IdentifiersOnly(names: seq<string>) {
    forall u :: u in names ==> Identifier(u)
  }

  /** The register, definition point and null fields of one entry, with the bounds on its counters. */
  predicate FieldsInForm(e: Entry, i: nat, count: nat) {
    && 0 <= e.fanOut <= count && IdentifiersOnly(e.consumers)
    && if e.op == StoreU32
       then e.destination.None? && e.definition.None? && e.lastUse.None? && e.liveRange.None? && e.release.None?
            && e.fanOut == 0 && e.consumers == []
       else e.destination.Some? && e.destination.value < REGISTERS && e.definition == Some(i)
  }

  /** The first pass over one entry. */
  method CheckEntry(version: int, code: seq<int>, entries: seq<Entry>, i: nat, known: set<string>, allocations: map<string, nat>)
    returns (ok: bool)
    requires 1 <= version <= 6 && i < |entries| == |code| && Seen(version, code, entries, i, known, allocations)
    ensures ok <==> EntryChecked(version, code, entries, i)
  {
    var e, last := entries[i], i == |entries| - 1;
    ok := Identifier(e.nodeId) && e.nodeId !in known && (last ==> e.op == StoreU32);
    if !ok {
      return;
    }
    ok := CheckForm(version, e, last);
    if !ok {
      return;
    }
    assert NodeChecked(version, entries, i);
    ok := CheckOperands(version, code, entries, i, known, allocations);
    if !ok {
      return;
    }
    var d := if e.destination.Some? then e.destination.value else 0;
    ok := e.encodedWord == code[i] && e.index == i && code[i] == Encode(AsNode(e), d, e.sourceRegisters)
          && FieldsInForm(e, i, |entries|);
  }

  lemma {:induction false} SeenStep(version: int, code: seq<int>, entries: seq<Entry>, i: nat, known: set<string>, allocations: map<string, nat>)
    requires i < |entries| == |code| && Seen(version, code, entries, i, known, allocations)
    requires EntryChecked(version, code, entries, i)
    ensures var e := entries[i];
            Seen(version, code, entries, i + 1, known + {e.nodeId},
                 if e.op == StoreU32 || e.destination.None? then allocations else allocations[e.nodeId := e.destination.value])
  {
  }

  /** The second pass over one value: fan-out, consumers, last use, live range, release, and no overlap. */
  method CheckLifetime(entries: seq<Entry>, i: nat) returns (ok: bool)
    requires i < |entries|
    ensures ok <==> LifetimeChecked(entries, i)
  {
    var e, items := entries[i], Items(AsNodes(entries));
    var positions := Positions(items, e.nodeId);
    var last := LastOf(positions);
    var consumers := seq(|positions|, p requires 0 <= p < |positions| => if positions[p] < |entries| then entries[positions[p]].nodeId else "");
    if e.fanOut != |positions| || e.consumers != consumers || e.lastUse != last
       || e.liveRange != Some((i, if last.Some? then last.value else |entries| - 1)) || e.release != last {
      return false;
    }
    var j := 0;
    while j < i
      invariant 0 <= j <= i
      invariant forall m :: 0 <= m < j && entries[m].destination == e.destination && entries[m].liveRange.Some? ==> entries[m].liveRange.value.1 <= i
    {
      if entries[j].destination == e.destination && entries[j].liveRange.Some? && entries[j].liveRange.value.1 > i {
        return false;
      }
      j := j + 1;
    }
    ok := true;
  }

  /** The use positions, gathered in one sweep. */
  method Positions(items: seq<Item>, id: string) returns (positions: seq<nat>)
    ensures positions == UsePositions(items, id, |items|)
  {
    positions := [];
    var k := 0;
    while k < |items|
      invariant 0 <= k <= |items| && positions == UsePositions(items, id, k)
    {
      positions := positions + Repeat(k, multiset(items[k].uses)[id]);
      k := k + 1;
    }
  }

  method CheckEntries(version: int, code: seq<int>, entries: seq<Entry>) returns (ok: bool)
    requires 1 <= version <= 6 && |entries| == |code|
    ensures ok <==> forall i :: 0 <= i < |entries| ==> EntryChecked(version, code, entries, i)
  {
    var known: set<string>, allocations: map<string, nat> := {}, map[];
    var i := 0;
    while i < |entries|
      invariant 0 <= i <= |entries| && Seen(version, code, entries, i, known, allocations)
    {
      ok := CheckEntry(version, code, entries, i, known, allocations);
      if !ok {
        return;
      }
      SeenStep(version, code, entries, i, known, allocations);
      var e := entries[i];
      known := known + {e.nodeId};
      if e.op != StoreU32 && e.destination.Some? {
        allocations := allocations[e.nodeId := e.destination.value];
      }
      i := i + 1;
    }
    ok := true;
  }

  method CheckLifetimes(entries: seq<Entry>) returns (ok: bool)
    ensures ok <==> forall i :: 0 <= i < |entries| && entries[i].op != StoreU32 ==> LifetimeChecked(entries, i)
  {
    var i := 0;
    while i < |entries|
      invariant 0 <= i <= |entries|
      invariant forall m :: 0 <= m < i && entries[m].op != StoreU32 ==> LifetimeChecked(entries, m)
    {
      if entries[i].op != StoreU32 {
        ok := CheckLifetime(entries, i);
        if !ok {
          return;
        }
      }
      i := i + 1;
    }
    ok := true;
  }

  /** The trace with its claimed identity and the framed payload, as `parse_lowering` receives them. */
  ghost predicate Accepts(t: Trace, claimed: string, payload: seq<int>, identity: TraceDigest, sha: Digest) {
    HeaderInForm(t) && claimed == identity(t) && PayloadInForm(t, payload, sha) && Explains(t.version, payload[12..12 + t.count], t.entries)
  }

  predicate PayloadInForm(t: Trace, payload: seq<int>, sha: Digest)
    requires HeaderInForm(t)
  {
    && |payload| == PAYLOAD_WORDS && AllU32(payload)
    && payload[..4] == [MAGIC, t.version, t.count, REGISTERS]
    && payload[4..12] == sha([t.count] + payload[12..12 + t.count]) == t.digest
    && V.Cleared(payload, 12 + t.count)
  }

  predicate HeaderInForm(t: Trace) {
    1 <= t.version <= 6 && t.second == (t.version >= 5) && Identifier(t.graphId) && HexDigest(t.descriptor) && 2 <= t.count <= CAPACITY
  }

  method CheckTrace(version: int, code: seq<int>, entries: seq<Entry>) returns (ok: bool)
    requires 1 <= version <= 6 && 2 <= |code| <= CAPACITY
    ensures ok <==> Explains(version, code, entries)
  {
    if |entries| != |code| {
      return false;
    }
    ok := CheckEntries(version, code, entries);
    if !ok {
      return;
    }
    if version <= 2 && (version == 2) != (exists i :: 0 <= i < |entries| && entries[i].op == MaxU32) {
      return false;
    }
    ok := CheckLifetimes(entries);
  }

  method ParseLowering(t: Trace, claimed: string, payload: seq<int>, identity: TraceDigest, sha: Digest) returns (ok: bool)
    ensures ok <==> Accepts(t, claimed, payload, identity, sha)
  {
    ok := HeaderInForm(t) && claimed == identity(t) && PayloadInForm(t, payload, sha);
    if ok {
      ok := CheckTrace(t.version, payload[12..12 + t.count], t.entries);
    }
  }

  // ----- The compiler's own output -----

  /** What `compile_descriptor` returns with its trace, as the check receives it. */
  ghost predicate AcceptsCompiled(d: Descriptor, p: Program, sha: Digest, dest: seq<nat>, sources: seq<seq<nat>>, canon: Canon, identity: TraceDigest)
    requires Admitted(d) && CompiledWith(d, p, sha, dest, sources)
  {
    var t := TraceOf(d, p.instructions, LoweringTrace(Scheduled(d.nodes), p.instructions, dest, sources), canon, sha);
    Accepts(t, identity(t), p.payload, identity, sha)
  }

  /**
    For every compiled descriptor, the check accepts the compiled payload with the compiler's trace if and only if no
    node has more operand references than the descriptor has nodes.
   */
  lemma {:induction false} CompiledLoweringAccepted(d: Descriptor, p: Program, sha: Digest, dest: seq<nat>, sources: seq<seq<nat>>,
                                                    canon: Canon, identity: TraceDigest)
    requires Admitted(d) && CompiledWith(d, p, sha, dest, sources)
    ensures AcceptsCompiled(d, p, sha, dest, sources, canon, identity) <==> FanOutFits(d.nodes)
  {
    CompiledIsFramed(d, p, sha);
    CompiledTraceAccepted(d, p, sha, dest, sources);
    FramedAccepts(d, p.payload, p.instructions, LoweringTrace(Scheduled(d.nodes), p.instructions, dest, sources), canon, identity, sha);
  }

  lemma {:induction false} CompiledIsFramed(d: Descriptor, p: Program, sha: Digest)
    requires Admitted(d) && Compiled(d, p, sha)
    ensures 2 <= |p.instructions| && Framed(p.payload, ProgramVersion(d), p.instructions, sha)
  {
    var version, code := ProgramVersion(d), p.instructions;
    assert 2 <= |code| <= CAPACITY && p.payload == Payload(version, code, sha) && AllU32(code) by { GraphExecution.CompiledFacts(d, p, sha); }
    PayloadIsFramed(version, code, sha);
  }

  lemma {:induction false} PayloadIsFramed(version: int, code: seq<int>, sha: Digest)
    requires 2 <= |code| <= CAPACITY && AllU32(code) && 0 <= version < U32
    ensures Framed(Payload(version, code, sha), version, code, sha)
  {
    GraphExecution.PayloadLayout(version, code, sha);
    assert Payload(version, code, sha)[..4] == [MAGIC, version, |code|, REGISTERS];
  }

  /** On a framed payload and a trace of an admitted descriptor the check is the check of its words. */
  lemma {:induction false} FramedAccepts(d: Descriptor, payload: seq<int>, code: seq<int>, entries: seq<Entry>, canon: Canon, identity: TraceDigest, sha: Digest)
    requires Framed(payload, ProgramVersion(d), code, sha) && 2 <= |code| && Identifier(d.graphId)
    ensures var t := TraceOf(d, code, entries, canon, sha);
            Accepts(t, identity(t), payload, identity, sha) <==> Explains(ProgramVersion(d), code, entries)
  {
  }

  ghost predicate Framed(payload: seq<int>, version: int, code: seq<int>, sha: Digest) {
    && |code| <= CAPACITY && |payload| == PAYLOAD_WORDS && AllU32(payload)
    && payload[..4] == [MAGIC, version, |code|, REGISTERS]
    && payload[4..12] == sha([|code|] + code) && payload[12..12 + |code|] == code
    && V.Cleared(payload, 12 + |code|)
  }

  /** The condition is not idle: a descriptor that is admitted and fits the registers, whose own trace the check rejects. */
  lemma {:induction false} FanOutCanExceed(sha: Digest, canon: Canon, identity: TraceDigest)
    ensures var d := Descriptor(V1, "g", Shape(1, 1, 3, 1), Doubling());
            && Admitted(d) && !Overflows(Items(Scheduled(d.nodes)), true)
            && forall p, dest, sources {:trigger CompiledWith(d, p, sha, dest, sources)} :: CompiledWith(d, p, sha, dest, sources) ==>
                 !AcceptsCompiled(d, p, sha, dest, sources, canon, identity)
  {
    var d := Descriptor(V1, "g", Shape(1, 1, 3, 1), Doubling());
    DoublingExceeds();
    forall p, dest, sources | CompiledWith(d, p, sha, dest, sources) ensures !AcceptsCompiled(d, p, sha, dest, sources, canon, identity) {
      CompiledLoweringAccepted(d, p, sha, dest, sources, canon, identity);
    }
  }
}

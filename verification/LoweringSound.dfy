/**
  The compiler's check of a trace beside the independent one.  The independent check accepts exactly the traces the
  compiler's check accepts for as many words as nodes, whose fan-outs fit and whose live ranges do not overlap; without
  that last condition an accepted trace may describe words that compute something else.
 */
module LoweringSound {
  import opened Base
  import opened Registers
  import opened RegisterMachine
  import opened Descriptor
  import opened Encoding
  import opened GraphMachine
  import opened GraphCompiler
  import opened Garden
  import opened LoweringCheck

  /** No entry is given the register of an earlier value before that value's live range ends. */
  ghost predicate RangesApart(entries: seq<Entry>) {
    forall i {:trigger ApartAt(entries, i)} :: 0 <= i < |entries| && entries[i].op != StoreU32 ==> ApartAt(entries, i)
  }

  ghost predicate ApartAt(entries: seq<Entry>, i: nat)
    requires i < |entries|
  {
    forall j :: 0 <= j < i && entries[j].destination == entries[i].destination && entries[j].liveRange.Some? ==> entries[j].liveRange.value.1 <= i
  }

  /** Scheduled nodes of an admitted descriptor, with the version the compiler gives them. */
  ghost predicate Checkable(schema: Schema, version: int, nodes: seq<Node>) {
    && 1 <= version <= 6 && schema == SchemaOf(version) && AddressForm(schema, version) && 2 <= |nodes| <= CAPACITY
    && SingleAssignment(Items(nodes)) && NodesFormed(schema, nodes) && TraceableNodes(version, nodes)
  }

  lemma {:induction false} ScheduledCheckable(d: Descriptor)
    requires Admitted(d)
    ensures Checkable(d.schema, ProgramVersion(d), Scheduled(d.nodes))
  {
    ScheduledIsProgram(d.nodes);
    ScheduledIsTraceable(d);
  }

  // ----- From the compiler's check to the independent one -----

  lemma {:induction false} AcceptedParts(schema: Schema, nodes: seq<Node>, code: seq<int>, entries: seq<Entry>)
    requires EntriesAccepted(schema, nodes, code, entries) && |code| == |nodes|
    ensures AsNodes(entries) == nodes
    ensures forall i :: 0 <= i < |nodes| ==> Destinations(entries)[i] == if nodes[i].kind == StoreU32 then 0 else DestinationOf(code[i])
    ensures forall i :: 0 <= i < |nodes| ==> Sources(entries)[i] == RegistersOf(nodes, code, nodes[i].inputs)
  {
    forall i | 0 <= i < |nodes| ensures entries[i] == ExpectedEntry(nodes, code, i) {
      assert EntryAccepted(schema, nodes, code, entries, i);
    }
  }

  lemma {:induction false} AcceptedReads(schema: Schema, version: int, nodes: seq<Node>, code: seq<int>, entries: seq<Entry>, i: nat)
    requires Checkable(schema, version, nodes) && EntriesAccepted(schema, nodes, code, entries) && i < |code| == |nodes|
    ensures ReadsFrom(Items(nodes), Destinations(entries), i, RegistersOf(nodes, code, nodes[i].inputs))
    ensures AllRegisters(RegistersOf(nodes, code, nodes[i].inputs))
  {
    var items := Items(nodes);
    AcceptedParts(schema, nodes, code, entries);
    forall j, m | 0 <= j < |nodes[i].inputs| && 0 <= m < i && items[m].id == items[i].uses[j]
      ensures RegisterOf(nodes, code, nodes[i].inputs[j]) == Destinations(entries)[m]
    {
      assert items[i].uses[j] in items[i].uses;
      assert DefinedBefore(items, i, items[i].uses[j]);
      RegisterIs(nodes, code, m);
    }
  }

  lemma {:induction false} AcceptedOperands(schema: Schema, version: int, nodes: seq<Node>, code: seq<int>, entries: seq<Entry>, i: nat)
    requires Checkable(schema, version, nodes) && EntriesAccepted(schema, nodes, code, entries) && i < |code| == |nodes|
    ensures OperandsChecked(entries, i)
  {
    assert AsNodes(entries) == nodes by { AcceptedParts(schema, nodes, code, entries); }
    AcceptedReads(schema, version, nodes, code, entries, i);
    assert EntryAccepted(schema, nodes, code, entries, i);
    OperandsAreIdentifiers(nodes, i);
    forall u | u in entries[i].dependencies ensures DefinedBefore(Items(nodes), i, u) {
      assert u in Items(nodes)[i].uses;
    }
  }

  lemma {:induction false} AcceptedNode(schema: Schema, version: int, nodes: seq<Node>, code: seq<int>, entries: seq<Entry>, i: nat)
    requires Checkable(schema, version, nodes) && EntriesAccepted(schema, nodes, code, entries) && i < |code| == |nodes|
    ensures NodeChecked(version, entries, i)
  {
    assert AsNodes(entries) == nodes by { AcceptedParts(schema, nodes, code, entries); }
    forall j | 0 <= j < i ensures entries[j].nodeId != entries[i].nodeId {
      assert AsNodes(entries)[j].id == Items(nodes)[j].id && AsNodes(entries)[i].id == Items(nodes)[i].id;
    }
    assert AsNode(entries[i]) == nodes[i];
  }

  lemma {:induction false} AcceptedWord(schema: Schema, version: int, nodes: seq<Node>, code: seq<int>, entries: seq<Entry>, i: nat)
    requires Checkable(schema, version, nodes) && EntriesAccepted(schema, nodes, code, entries) && i < |code| == |nodes|
    requires NodeChecked(version, entries, i) && OperandsChecked(entries, i)
    ensures WordChecked(version, code, entries, i)
  {
    AcceptedParts(schema, nodes, code, entries);
    assert EntryAccepted(schema, nodes, code, entries, i);
    assert AsNode(entries[i]) == nodes[i];
  }

  lemma {:induction false} AcceptedDefinition(schema: Schema, version: int, nodes: seq<Node>, code: seq<int>, entries: seq<Entry>, i: nat)
    requires Checkable(schema, version, nodes) && EntriesAccepted(schema, nodes, code, entries) && i < |code| == |nodes|
    ensures DefinitionChecked(entries, i) <==> FanOutFitsAt(nodes, i)
  {
    assert EntryAccepted(schema, nodes, code, entries, i);
    ConsumersAreIdentifiers(nodes, nodes[i].id);
    PositionsCountUses(Items(nodes), nodes[i].id, |nodes|);
    if nodes[i].kind == StoreU32 {
      NobodyReadsTheStore(nodes, i);
    }
  }

  lemma {:induction false} AcceptedEntry(schema: Schema, version: int, nodes: seq<Node>, code: seq<int>, entries: seq<Entry>, i: nat)
    requires Checkable(schema, version, nodes) && EntriesAccepted(schema, nodes, code, entries) && i < |code| == |nodes|
    ensures EntryChecked(version, code, entries, i) <==> FanOutFitsAt(nodes, i)
  {
    AcceptedNode(schema, version, nodes, code, entries, i);
    AcceptedOperands(schema, version, nodes, code, entries, i);
    AcceptedWord(schema, version, nodes, code, entries, i);
    AcceptedDefinition(schema, version, nodes, code, entries, i);
  }

  lemma {:induction false} AcceptedLifetime(schema: Schema, version: int, nodes: seq<Node>, code: seq<int>, entries: seq<Entry>, i: nat)
    requires Checkable(schema, version, nodes) && EntriesAccepted(schema, nodes, code, entries) && i < |code| == |nodes|
    requires nodes[i].kind != StoreU32
    ensures LifetimeChecked(entries, i) <==> ApartAt(entries, i)
  {
    assert AsNodes(entries) == nodes by { AcceptedParts(schema, nodes, code, entries); }
    assert EntryAccepted(schema, nodes, code, entries, i);
    var positions := UsePositions(Items(nodes), nodes[i].id, |nodes|);
    var named := seq(|positions|, p requires 0 <= p < |positions| => if positions[p] < |entries| then entries[positions[p]].nodeId else "");
    forall p | 0 <= p < |positions| ensures named[p] == Consumers(nodes, positions)[p] {
      if positions[p] < |entries| {
        assert AsNodes(entries)[positions[p]] == nodes[positions[p]];
      }
    }
    assert named == Consumers(nodes, positions);
  }

  lemma {:induction false} AcceptedEntries(schema: Schema, version: int, nodes: seq<Node>, code: seq<int>, entries: seq<Entry>)
    requires Checkable(schema, version, nodes) && EntriesAccepted(schema, nodes, code, entries) && |code| == |nodes|
    ensures EntriesChecked(version, code, entries) <==> FanOutFits(nodes)
  {
    assert forall i :: 0 <= i < |nodes| ==> (EntryChecked(version, code, entries, i) <==> FanOutFitsAt(nodes, i)) by {
      forall i | 0 <= i < |nodes| ensures EntryChecked(version, code, entries, i) <==> FanOutFitsAt(nodes, i) {
        AcceptedEntry(schema, version, nodes, code, entries, i);
      }
    }
  }

  lemma {:induction false} AcceptedLifetimes(schema: Schema, version: int, nodes: seq<Node>, code: seq<int>, entries: seq<Entry>)
    requires Checkable(schema, version, nodes) && EntriesAccepted(schema, nodes, code, entries) && |code| == |nodes|
    ensures LifetimesChecked(entries) <==> RangesApart(entries)
  {
    assert forall i :: 0 <= i < |nodes| && entries[i].op != StoreU32 ==> (LifetimeChecked(entries, i) <==> ApartAt(entries, i)) by {
      forall i | 0 <= i < |nodes| && entries[i].op != StoreU32 ensures LifetimeChecked(entries, i) <==> ApartAt(entries, i) {
        assert EntryAccepted(schema, nodes, code, entries, i);
        AcceptedLifetime(schema, version, nodes, code, entries, i);
      }
    }
  }

  lemma {:induction false} AcceptedVersion(schema: Schema, version: int, nodes: seq<Node>, code: seq<int>, entries: seq<Entry>)
    requires Checkable(schema, version, nodes) && EntriesAccepted(schema, nodes, code, entries) && |code| == |nodes|
    ensures VersionChecked(version, entries)
  {
    forall i | 0 <= i < |nodes| ensures entries[i].op == nodes[i].kind {
      assert EntryAccepted(schema, nodes, code, entries, i);
    }
  }

  lemma {:induction false} ExplainsIff(version: int, code: seq<int>, entries: seq<Entry>)
    requires 1 <= version <= 6 && 2 <= |code| <= CAPACITY && |entries| == |code| && VersionChecked(version, entries)
    ensures Explains(version, code, entries) <==> EntriesChecked(version, code, entries) && LifetimesChecked(entries)
  {
  }

  /** Of a trace the compiler's check accepts, the independent check still asks for fitting fan-outs and separate ranges. */
  lemma {:induction false} AcceptedExplains(schema: Schema, version: int, nodes: seq<Node>, code: seq<int>, entries: seq<Entry>)
    requires Checkable(schema, version, nodes) && EntriesAccepted(schema, nodes, code, entries) && |code| == |nodes|
    ensures Explains(version, code, entries) <==> FanOutFits(nodes) && RangesApart(entries)
  {
    assert VersionChecked(version, entries) by { AcceptedVersion(schema, version, nodes, code, entries); }
    assert EntriesChecked(version, code, entries) <==> FanOutFits(nodes) by { AcceptedEntries(schema, version, nodes, code, entries); }
    assert LifetimesChecked(entries) <==> RangesApart(entries) by { AcceptedLifetimes(schema, version, nodes, code, entries); }
    ExplainsIff(version, code, entries);
  }

  // ----- And back -----

  lemma {:induction false} ExplainedRegisters(version: int, nodes: seq<Node>, code: seq<int>, entries: seq<Entry>, i: nat)
    requires Explains(version, code, entries) && AsNodes(entries) == nodes && i < |nodes|
    ensures nodes[i].kind != StoreU32 ==> DestinationOf(code[i]) == Destinations(entries)[i]
    ensures RegistersOf(nodes, code, nodes[i].inputs) == entries[i].sourceRegisters
  {
    ExplainedIsLowering(version, code, entries);
    LoweredRegisters(SchemaOf(version), version, nodes, Destinations(entries), Sources(entries), code, i);
  }

  /** The fields the independent check fixes are those of the expected entry. */
  lemma {:induction false} ExplainedFields(version: int, nodes: seq<Node>, code: seq<int>, entries: seq<Entry>, i: nat)
    requires i < |nodes| == |entries| == |code| && AsNodes(entries) == nodes && SingleAssignment(Items(nodes))
    requires EntryChecked(version, code, entries, i) && (nodes[i].kind != StoreU32 ==> LifetimeChecked(entries, i))
    requires nodes[i].kind != StoreU32 ==> DestinationOf(code[i]) == Destinations(entries)[i]
    requires RegistersOf(nodes, code, nodes[i].inputs) == entries[i].sourceRegisters
    ensures entries[i] == ExpectedEntry(nodes, code, i)
  {
    assert AsNode(entries[i]) == nodes[i];
    if nodes[i].kind == StoreU32 {
      NobodyReadsTheStore(nodes, i);
    } else {
      ExplainedConsumers(entries, nodes, i);
    }
  }

  lemma {:induction false} ExplainedWord(version: int, nodes: seq<Node>, code: seq<int>, entries: seq<Entry>, i: nat)
    requires i < |nodes| == |entries| == |code| && AsNodes(entries) == nodes
    requires EntryChecked(version, code, entries, i)
    requires nodes[i].kind != StoreU32 ==> DestinationOf(code[i]) == Destinations(entries)[i]
    requires RegistersOf(nodes, code, nodes[i].inputs) == entries[i].sourceRegisters
    ensures WordRight(SchemaOf(version), nodes, code, i)
  {
    assert AsNode(entries[i]) == nodes[i];
  }

  lemma {:induction false} ExplainedEntry(version: int, nodes: seq<Node>, code: seq<int>, entries: seq<Entry>, i: nat)
    requires Explains(version, code, entries) && AsNodes(entries) == nodes && i < |nodes| && SingleAssignment(Items(nodes))
    ensures EntryAccepted(SchemaOf(version), nodes, code, entries, i)
  {
    assert EntryChecked(version, code, entries, i);
    assert nodes[i].kind != StoreU32 ==> LifetimeChecked(entries, i) by { assert nodes[i] == AsNode(entries[i]); }
    assert (nodes[i].kind != StoreU32 ==> DestinationOf(code[i]) == Destinations(entries)[i])
           && RegistersOf(nodes, code, nodes[i].inputs) == entries[i].sourceRegisters by { ExplainedRegisters(version, nodes, code, entries, i); }
    assert entries[i] == ExpectedEntry(nodes, code, i) by { ExplainedFields(version, nodes, code, entries, i); }
    assert WordRight(SchemaOf(version), nodes, code, i) by { ExplainedWord(version, nodes, code, entries, i); }
  }

  lemma {:induction false} ExplainedConsumers(entries: seq<Entry>, nodes: seq<Node>, i: nat)
    requires AsNodes(entries) == nodes && i < |nodes| && LifetimeChecked(entries, i)
    ensures entries[i].consumers == Consumers(nodes, UsePositions(Items(nodes), nodes[i].id, |nodes|))
  {
    assert nodes[i].id == entries[i].nodeId;
    var positions := UsePositions(Items(nodes), nodes[i].id, |nodes|);
    forall p | 0 <= p < |positions| ensures entries[i].consumers[p] == Consumers(nodes, positions)[p] {
      if positions[p] < |entries| {
        assert AsNodes(entries)[positions[p]] == nodes[positions[p]];
      }
    }
  }

  /**
    The two checks compared, for every admitted descriptor, trace and list of words: the independent check accepts the
    trace of the scheduled nodes if and only if the compiler's check does, there are as many words as nodes, no node has
    more references than there are nodes, and no live ranges overlap in a register.
   */
  lemma {:induction false} ChecksCompared(d: Descriptor, trace: Trace, code: seq<int>, canon: Canon, sha: Digest)
    requires Admitted(d) && HeaderRight(d, trace, code, canon, sha)
    ensures Explains(ProgramVersion(d), code, trace.entries) && AsNodes(trace.entries) == Scheduled(d.nodes) <==>
            TraceAccepted(d, trace, code, canon, sha) && |code| == |d.nodes| && FanOutFits(d.nodes) && RangesApart(trace.entries)
  {
    var nodes, version, entries := Scheduled(d.nodes), ProgramVersion(d), trace.entries;
    assert Checkable(d.schema, version, nodes) by { ScheduledCheckable(d); }
    assert FanOutFits(nodes) <==> FanOutFits(d.nodes) by { FanOutOfDescriptor(d.nodes); }
    if Explains(version, code, entries) && AsNodes(entries) == nodes {
      assert EntriesAccepted(d.schema, nodes, code, entries) by {
        forall i | 0 <= i < |nodes| ensures EntryAccepted(d.schema, nodes, code, entries, i) {
          ExplainedEntry(version, nodes, code, entries, i);
        }
      }
      AcceptedExplains(d.schema, version, nodes, code, entries);
    }
    if EntriesAccepted(d.schema, nodes, code, entries) && |code| == |nodes| {
      assert AsNodes(entries) == nodes by { AcceptedParts(d.schema, nodes, code, entries); }
      AcceptedExplains(d.schema, version, nodes, code, entries);
    }
  }

  // ----- What an accepted trace says about the words -----

  function WordSources(nodes: seq<Node>, code: seq<int>): (sources: seq<seq<nat>>)
    ensures |sources| == |nodes| && forall i :: 0 <= i < |nodes| ==> sources[i] == RegistersOf(nodes, code, nodes[i].inputs)
  {
    seq(|nodes|, i requires 0 <= i < |nodes| => RegistersOf(nodes, code, nodes[i].inputs))
  }

  lemma {:induction false} ApartIsUntouched(schema: Schema, version: int, nodes: seq<Node>, code: seq<int>, entries: seq<Entry>, k: nat, i: nat)
    requires Checkable(schema, version, nodes) && EntriesAccepted(schema, nodes, code, entries) && |code| == |nodes| && RangesApart(entries)
    requires k < i < |nodes| && nodes[k].kind != StoreU32 && nodes[k].id in nodes[i].inputs
    ensures Untouched(Items(nodes), WordDests(code), k, i)
  {
    var items := Items(nodes);
    assert EntryAccepted(schema, nodes, code, entries, k);
    LastPosition(items, nodes[k].id);
    assert nodes[k].id in items[i].uses;
    forall m | k < m < i && items[m].defines ensures WordDests(code)[m] != WordDests(code)[k] {
      assert EntryAccepted(schema, nodes, code, entries, m);
      assert ApartAt(entries, m);
    }
  }

  lemma {:induction false} ApartIsLowering(schema: Schema, version: int, nodes: seq<Node>, code: seq<int>, entries: seq<Entry>)
    requires Checkable(schema, version, nodes) && EntriesAccepted(schema, nodes, code, entries) && |code| == |nodes| && RangesApart(entries)
    ensures Lowers(schema, nodes, WordDests(code), WordSources(nodes, code), code)
  {
    var items, dest := Items(nodes), WordDests(code);
    assert NoClobber(items, dest) by {
      forall k, i | 0 <= k < i < |items| && items[k].defines && items[k].id in items[i].uses ensures Untouched(items, dest, k, i) {
        ApartIsUntouched(schema, version, nodes, code, entries, k, i);
      }
    }
    forall k | 0 <= k < |nodes| ensures ReadsFrom(items, dest, k, WordSources(nodes, code)[k]) && code[k] == Encode(nodes[k], dest[k], WordSources(nodes, code)[k]) {
      assert EntryAccepted(schema, nodes, code, entries, k);
      forall m | 0 <= m < k ensures RegisterOf(nodes, code, items[m].id) == dest[m] { RegisterIs(nodes, code, m); }
    }
  }

  /** An accepted trace of as many words as nodes whose ranges stay apart: the words compute the descriptor's output. */
  lemma {:induction false} ApartTraceIsSound(d: Descriptor, trace: Trace, code: seq<int>, canon: Canon, sha: Digest, words: seq<int>)
    requires TraceAccepted(d, trace, code, canon, sha) && |code| == |d.nodes| && RangesApart(trace.entries)
    ensures |code| > 0 && WordOutput(d.shape, ProgramVersion(d), code, words) == NamedOutput(d, words)
  {
    var nodes, version := Scheduled(d.nodes), ProgramVersion(d);
    assert Checkable(d.schema, version, nodes) by { ScheduledCheckable(d); }
    assert Lowers(d.schema, nodes, WordDests(code), WordSources(nodes, code), code) by { ApartIsLowering(d.schema, version, nodes, code, trace.entries); }
    forall r, c ensures CellsAgree(version, code, nodes, CellAt(d.shape, words, r, c)) {
      CellLowered(d.schema, version, nodes, WordDests(code), WordSources(nodes, code), code, CellAt(d.shape, words, r, c));
    }
    OutputsAgree(d.shape, version, code, nodes, words);
  }

  // ----- What an accepted trace does not say -----

  function ExpectedEntries(nodes: seq<Node>, code: seq<int>): (entries: seq<Entry>)
    requires |nodes| <= |code|
    ensures |entries| == |nodes| && forall i :: 0 <= i < |nodes| ==> entries[i] == ExpectedEntry(nodes, code, i)
  {
    seq(|nodes|, i requires 0 <= i < |nodes| => ExpectedEntry(nodes, code, i))
  }

  lemma {:induction false} WordStillRight(schema: Schema, nodes: seq<Node>, code: seq<int>, extra: seq<int>, i: nat)
    requires |code| == |nodes| && i < |nodes| && WordRight(schema, nodes, code, i)
    ensures WordRight(schema, nodes, code + extra, i)
  {
    assert RegistersOf(nodes, code + extra, nodes[i].inputs) == RegistersOf(nodes, code, nodes[i].inputs) by {
      forall j | 0 <= j < |nodes[i].inputs| ensures RegisterOf(nodes, code + extra, nodes[i].inputs[j]) == RegisterOf(nodes, code, nodes[i].inputs[j]) {
      }
    }
  }

  /** The compiler's check never looks past the last node: any words may follow those it explains. */
  lemma {:induction false} TrailingWordsAccepted(d: Descriptor, trace: Trace, code: seq<int>, canon: Canon, sha: Digest, extra: seq<int>)
    requires TraceAccepted(d, trace, code, canon, sha) && |code| == |d.nodes|
    ensures TraceAccepted(d, TraceOf(d, code + extra, ExpectedEntries(Scheduled(d.nodes), code + extra), canon, sha), code + extra, canon, sha)
  {
    var nodes, longer := Scheduled(d.nodes), code + extra;
    forall i | 0 <= i < |nodes| ensures EntryAccepted(d.schema, nodes, longer, ExpectedEntries(nodes, longer), i) {
      assert EntryAccepted(d.schema, nodes, code, trace.entries, i);
      WordStillRight(d.schema, nodes, code, extra, i);
    }
  }

  /** Words for the doubling nodes that keep every value in register 0. */
  function OneRegister(): (code: seq<int>)
    ensures |code| == 5 && code[0] == LOAD * BIT_28 && code[1] == code[2] == code[3] == ADD * BIT_28 && code[4] == STORE * BIT_28
    ensures forall k :: 0 <= k < 5 ==> DestinationOf(code[k]) == LeftOf(code[k]) == RightOf(code[k]) == 0
  {
    [LOAD * BIT_28, ADD * BIT_28, ADD * BIT_28, ADD * BIT_28, STORE * BIT_28]
  }

  lemma {:induction false} DoublingInOrder()
    ensures Wired(Doubling()) && Scheduled(Doubling()) == Doubling()
  {
    var nodes := Doubling();
    DoublingIsWired();
    DoublingIsOrdered(nodes);
    WiredSchedules(nodes);
    var g := Dependencies(nodes);
    Scheduling.OrderedListingUnchanged(g);
    forall k | 0 <= k < 5 ensures Arrange(nodes, g.ids)[k] == nodes[k] {
      SameId(nodes, Position(Ids(nodes), g.ids[k]), k);
    }
  }

  lemma {:induction false} OneRegisterWord(i: nat)
    requires i < 5
    ensures WordRight(V1, Doubling(), OneRegister(), i)
  {
    var nodes, code := Doubling(), OneRegister();
    DoublingIsFormed();
    assert forall u :: RegisterOf(nodes, code, u) == 0;
  }

  lemma {:induction false} OneRegisterRuns(c: Cell)
    requires InWindow(c, 0) && c.words[c.center] == 1
    ensures WordResult(1, OneRegister(), c) == 8
  {
    var code := OneRegister();
    assert Register(RunWords(1, code, c, 1), 0) == 1 by { assert RunWords(1, code, c, 0)[0] == 0; }
    assert Register(RunWords(1, code, c, 2), 0) == 2;
    assert Register(RunWords(1, code, c, 3), 0) == 4;
    assert Register(RunWords(1, code, c, 4), 0) == 8;
  }

  lemma {:induction false} DoublingMeans(c: Cell)
    requires InWindow(c, 0) && c.words[c.center] == 1
    ensures NamedResult(Doubling(), c) == 2
  {
    var nodes, items := Doubling(), Items(Doubling());
    var m := NodeMeaning(nodes, c);
    assert Ids(nodes)[0] == nodes[0].id && Ids(nodes)[1] == nodes[1].id && Ids(nodes)[2] == nodes[2].id && Ids(nodes)[3] == nodes[3].id;
    assert Lookup(Env(items, m, 1), "a") == 1;
    assert Lookup(Env(items, m, 2), "a") == 1;
    assert Lookup(Env(items, m, 3), "a") == 1;
    assert Lookup(Env(items, m, 4), "e") == 2;
  }

  function Ones(): (words: seq<int>)
    ensures |words| == INPUT_WORDS && forall i :: 0 <= i < INPUT_WORDS ==> words[i] == 1
  {
    seq(INPUT_WORDS, _ => 1)
  }

  /**
    The condition is not idle: the check accepts a trace whose every value lies in register 0, and its words store eight
    times the centre word where the descriptor asks for twice.
   */
  lemma {:induction false} ReusedRegisterAccepted(canon: Canon, sha: Digest)
    ensures var d, code := Descriptor(V1, "g", Shape(1, 1, 3, 1), Doubling()), OneRegister();
            Admitted(d) && TraceAccepted(d, TraceOf(d, code, ExpectedEntries(Scheduled(d.nodes), code), canon, sha), code, canon, sha)
            && WordOutput(d.shape, ProgramVersion(d), code, Ones()) != NamedOutput(d, Ones())
  {
    var d, code := Descriptor(V1, "g", Shape(1, 1, 3, 1), Doubling()), OneRegister();
    assert Admitted(d) by { DoublingExceeds(); }
    assert Scheduled(d.nodes) == Doubling() by { DoublingInOrder(); }
    assert EntriesAccepted(d.schema, Doubling(), code, ExpectedEntries(Doubling(), code)) by { OneRegisterEntries(); }
    assert ProgramVersion(d) == 1 by { DoublingVersion(d); }
    assert NamedOutput(d, Ones()).Some? by { OutputUndefinedIffOverrun(d, Ones()); }
    OneRegisterAtOrigin(d.shape, Ones());
    AcceptedAndDifferent(d, Doubling(), code, canon, sha, Ones());
  }

  lemma {:induction false} AcceptedAndDifferent(d: Descriptor, nodes: seq<Node>, code: seq<int>, canon: Canon, sha: Digest, words: seq<int>)
    requires Admitted(d) && Scheduled(d.nodes) == nodes && |nodes| == |code| && EntriesAccepted(d.schema, nodes, code, ExpectedEntries(nodes, code))
    requires NamedOutput(d, words).Some?
    requires WordResult(ProgramVersion(d), code, CellAt(d.shape, words, 0, 0)) != NamedResult(nodes, CellAt(d.shape, words, 0, 0))
    ensures TraceAccepted(d, TraceOf(d, code, ExpectedEntries(nodes, code), canon, sha), code, canon, sha)
    ensures WordOutput(d.shape, ProgramVersion(d), code, words) != NamedOutput(d, words)
  {
    OutputsDiffer(d.shape, ProgramVersion(d), code, nodes, words);
  }

  lemma {:induction false} OneRegisterEntries()
    ensures EntriesAccepted(V1, Doubling(), OneRegister(), ExpectedEntries(Doubling(), OneRegister()))
  {
    forall i | 0 <= i < 5 ensures WordRight(V1, Doubling(), OneRegister(), i) { OneRegisterWord(i); }
    ExpectedAccepted(V1, Doubling(), OneRegister());
  }

  lemma {:induction false} DoublingVersion(d: Descriptor)
    requires d.schema == V1 && d.nodes == Doubling()
    ensures ProgramVersion(d) == 1
  {
    assert forall i :: 0 <= i < 5 ==> d.nodes[i].kind != MaxU32;
  }

  lemma {:induction false} ExpectedAccepted(schema: Schema, nodes: seq<Node>, code: seq<int>)
    requires |nodes| == |code| && forall i :: 0 <= i < |nodes| ==> WordRight(schema, nodes, code, i)
    ensures EntriesAccepted(schema, nodes, code, ExpectedEntries(nodes, code))
  {
  }

  lemma {:induction false} OneRegisterAtOrigin(s: Shape, words: seq<int>)
    requires s == Shape(1, 1, 3, 1) && |words| == INPUT_WORDS && words[4] == 1
    ensures WordResult(1, OneRegister(), CellAt(s, words, 0, 0)) != NamedResult(Doubling(), CellAt(s, words, 0, 0))
  {
    OneRegisterRuns(CellAt(s, words, 0, 0));
    DoublingMeans(CellAt(s, words, 0, 0));
  }

  lemma {:induction false} OutputsDiffer(s: Shape, version: int, code: seq<int>, nodes: seq<Node>, words: seq<int>)
    requires ShapeAdmitted(s) && |code| > 0 && |nodes| > 0 && NamedImage(s, nodes, words).Some?
    requires WordResult(version, code, CellAt(s, words, 0, 0)) != NamedResult(nodes, CellAt(s, words, 0, 0))
    ensures WordOutput(s, version, code, words) != NamedImage(s, nodes, words)
  {
    DifferAtOrigin(s, WordField(s, version, code, words), NamedField(s, nodes, words));
  }

  lemma {:induction false} DifferAtOrigin(s: Shape, f: (int, int) -> int, g: (int, int) -> int)
    requires ShapeAdmitted(s) && f(0, 0) != g(0, 0)
    ensures Image(s, f) != Image(s, g)
  {
    assert Image(s, f)[0] == f(0, 0) && Image(s, g)[0] == g(0, 0);
  }
}

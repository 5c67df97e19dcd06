/**
  The independent check of a lowering trace.  A trace lists, per instruction, the node, its dependencies,
  the registers read and written, and the lifetime of the value.  A trace the check accepts is a proof
  that the words compute the named graph; the compiler's own traces are accepted except when a value
  has more operand references than the program has instructions.
 */
module Garden {
  import opened Base
  import opened Registers
  import opened RegisterMachine
  import opened Descriptor
  import opened Encoding
  import opened GraphMachine
  import opened GraphCompiler

  datatype Entry = Entry(
    index: int, nodeId: string, op: Kind, dependencies: seq<string>, selector: Option<Address>,
    fanOut: int, consumers: seq<string>, encodedWord: int, sourceRegisters: seq<nat>,
    destination: Option<nat>, definition: Option<int>, lastUse: Option<int>,
    liveRange: Option<(int, int)>, release: Option<int>, immediate: Option<int>)

  /** A SHA-256 identity in lower-case hexadecimal. */
  predicate HexDigest(s: string) {
    |s| == 64 && forall i :: 0 <= i < 64 ==> '0' <= s[i] <= '9' || 'a' <= s[i] <= 'f'
  }

  /** The identity of a descriptor's canonical text; which one is irrelevant here. */
  type Canon = h: Descriptor -> string | forall d :: HexDigest(h(d)) witness _ => seq(64, _ => '0')

  /** A whole lowering trace; `second` tells the schema with immediates from the one without. */
  datatype Trace = Trace(second: bool, graphId: string, descriptor: string, version: int, count: int, digest: seq<int>, entries: seq<Entry>)

  /** The identity of a trace's canonical text. */
  type TraceDigest = h: Trace -> string | forall t :: HexDigest(h(t)) witness _ => seq(64, _ => '0')

  /** The node an entry claims to lower. */
  function AsNode(e: Entry): Node {
    Node(e.nodeId, e.op, e.dependencies, e.selector, e.immediate)
  }

  function AsNodes(entries: seq<Entry>): (nodes: seq<Node>)
    ensures |nodes| == |entries| && forall i :: 0 <= i < |entries| ==> nodes[i] == AsNode(entries[i])
  {
    seq(|entries|, i requires 0 <= i < |entries| => AsNode(entries[i]))
  }

  function Destinations(entries: seq<Entry>): (dest: seq<nat>)
    ensures |dest| == |entries|
    ensures forall i :: 0 <= i < |entries| ==> dest[i] == if entries[i].destination.Some? then entries[i].destination.value else 0
  {
    seq(|entries|, i requires 0 <= i < |entries| => if entries[i].destination.Some? then entries[i].destination.value else 0)
  }

  function Sources(entries: seq<Entry>): (sources: seq<seq<nat>>)
    ensures |sources| == |entries| && forall i :: 0 <= i < |entries| ==> sources[i] == entries[i].sourceRegisters
  {
    seq(|entries|, i requires 0 <= i < |entries| => entries[i].sourceRegisters)
  }

  /** The descriptor schema whose opcodes and addresses a program version carries. */
  function SchemaOf(version: int): Schema {
    if version < 3 then V1 else if version == 3 then V2 else if version == 4 then V3 else if version == 5 then V4 else V5
  }

  /** The instruction positions that read `id`, one per operand reference. */
  function UsePositions(items: seq<Item>, id: string, k: nat): seq<nat>
    requires k <= |items|
  {
    if k == 0 then [] else UsePositions(items, id, k - 1) + Repeat(k - 1, multiset(items[k - 1].uses)[id])
  }

  function Repeat(p: nat, n: nat): (r: seq<nat>)
    ensures |r| == n && forall i :: 0 <= i < n ==> r[i] == p
  {
    seq(n, _ => p)
  }

  function LastOf(positions: seq<nat>): Option<int> {
    if positions == [] then None else Some(positions[|positions| - 1])
  }

  /** A fresh identifier and the node form of this program version, the store last. */
  ghost predicate NodeChecked(version: int, entries: seq<Entry>, i: nat)
    requires i < |entries|
  {
    var e := entries[i];
    && Identifier(e.nodeId) && (forall j :: 0 <= j < i ==> entries[j].nodeId != e.nodeId)
    && NodeFormed(SchemaOf(version), AsNode(e)) && (version == 1 ==> e.op != MaxU32)
    && (e.op == StoreU32 <==> i == |entries| - 1)
  }

  /** Dependencies precede, and are read from the registers their entries define. */
  ghost predicate OperandsChecked(entries: seq<Entry>, i: nat)
    requires i < |entries|
  {
    var e, items := entries[i], Items(AsNodes(entries));
    && (forall u :: u in e.dependencies ==> Identifier(u) && DefinedBefore(items, i, u))
    && ReadsFrom(items, Destinations(entries), i, e.sourceRegisters) && AllRegisters(e.sourceRegisters)
  }

  /** The word is the payload's word at this position and encodes the node with these registers. */
  ghost predicate WordChecked(version: int, code: seq<int>, entries: seq<Entry>, i: nat)
    requires i < |entries| == |code| && NodeChecked(version, entries, i) && OperandsChecked(entries, i)
  {
    var e := entries[i];
    && e.index == i && e.encodedWord == code[i]
    && code[i] == Encode(AsNode(e), Destinations(entries)[i], e.sourceRegisters)
  }

  /** A store defines nothing; a value names its register and definition point; the fan-out is bounded. */
  ghost predicate DefinitionChecked(entries: seq<Entry>, i: nat)
    requires i < |entries|
  {
    var e := entries[i];
    && 0 <= e.fanOut <= |entries| && (forall u :: u in e.consumers ==> Identifier(u))
    && if e.op == StoreU32
       then e.destination.None? && e.definition.None? && e.lastUse.None? && e.liveRange.None? && e.release.None?
            && e.fanOut == 0 && e.consumers == []
       else e.destination.Some? && e.destination.value < REGISTERS && e.definition == Some(i)
  }

  /** What the first pass demands of entry `i`. */
  ghost predicate EntryChecked(version: int, code: seq<int>, entries: seq<Entry>, i: nat)
    requires i < |entries| == |code|
  {
    && NodeChecked(version, entries, i)
    && OperandsChecked(entries, i)
    && WordChecked(version, code, entries, i)
    && DefinitionChecked(entries, i)
  }

  /** What the second pass demands of the value defined by entry `i`. */
  ghost predicate LifetimeChecked(entries: seq<Entry>, i: nat)
    requires i < |entries|
  {
    var e, items := entries[i], Items(AsNodes(entries));
    var positions := UsePositions(items, e.nodeId, |entries|);
    var last := LastOf(positions);
    && e.fanOut == |positions|
    && e.consumers == seq(|positions|, p requires 0 <= p < |positions| => if positions[p] < |entries| then entries[positions[p]].nodeId else "")
    && e.lastUse == last
    && e.liveRange == Some((i, if last.Some? then last.value else |entries| - 1))
    && e.release == last
    && forall j :: 0 <= j < i && entries[j].destination == e.destination && entries[j].liveRange.Some? ==>
         entries[j].liveRange.value.1 <= i
  }

  /** The opcode set decides between program versions 1 and 2. */
  ghost predicate VersionChecked(version: int, entries: seq<Entry>) {
    version <= 2 ==> (version == 2 <==> exists i :: 0 <= i < |entries| && entries[i].op == MaxU32)
  }

  /** What `parse_lowering` accepts, given the framed program words. */
  ghost predicate Explains(version: int, code: seq<int>, entries: seq<Entry>) {
    && 1 <= version <= 6 && 2 <= |code| <= CAPACITY && |entries| == |code|
    && (forall i :: 0 <= i < |entries| ==> EntryChecked(version, code, entries, i))
    && VersionChecked(version, entries)
    && forall i :: 0 <= i < |entries| && entries[i].op != StoreU32 ==> LifetimeChecked(entries, i)
  }

  // ----- Soundness -----

  lemma {:induction false} PositionIsUse(items: seq<Item>, id: string, k: nat, p: nat)
    requires k <= |items|
    ensures p in UsePositions(items, id, k) <==> p < k && id in items[p].uses
  {
    if k > 0 {
      PositionIsUse(items, id, k - 1, p);
      var front, back := UsePositions(items, id, k - 1), Repeat(k - 1, multiset(items[k - 1].uses)[id]);
      assert p in front + back <==> p in front || p in back;
      assert back != [] ==> back[0] == k - 1;
    }
  }

  ghost predicate Sorted(ps: seq<nat>) {
    forall i, j :: 0 <= i < j < |ps| ==> ps[i] <= ps[j]
  }

  lemma {:induction false} SortedAppend(front: seq<nat>, back: seq<nat>, p: nat)
    requires Sorted(front) && (forall i :: 0 <= i < |front| ==> front[i] <= p) && (forall i :: 0 <= i < |back| ==> back[i] == p)
    ensures Sorted(front + back)
  {
  }

  lemma {:induction false} PositionsAreSorted(items: seq<Item>, id: string, k: nat)
    requires k <= |items|
    ensures Sorted(UsePositions(items, id, k))
  {
    if k > 0 {
      PositionsAreSorted(items, id, k - 1);
      var front, back := UsePositions(items, id, k - 1), Repeat(k - 1, multiset(items[k - 1].uses)[id]);
      forall i | 0 <= i < |front| ensures front[i] <= k - 1 {
        assert front[i] in front;
        PositionIsUse(items, id, k - 1, front[i]);
      }
      SortedAppend(front, back, k - 1);
    }
  }

  /** The last position is the last use. */
  lemma {:induction false} LastPosition(items: seq<Item>, id: string)
    ensures var last := LastOf(UsePositions(items, id, |items|));
            && (last.None? <==> !UsedFrom(items, 0, id))
            && (last.Some? ==> 0 <= last.value < |items| && id in items[last.value].uses)
            && forall p :: 0 <= p < |items| && id in items[p].uses ==> last.Some? && p <= last.value
  {
    PositionsAreSorted(items, id, |items|);
    var ps := UsePositions(items, id, |items|);
    if ps != [] {
      PositionIsUse(items, id, |items|, ps[|ps| - 1]);
    }
    forall p | 0 <= p < |items| && id in items[p].uses ensures ps != [] && p <= ps[|ps| - 1] {
      PositionIsUse(items, id, |items|, p);
    }
  }

  lemma {:induction false} CheckedIsUntouched(version: int, code: seq<int>, entries: seq<Entry>, k: nat, i: nat)
    requires Explains(version, code, entries) && k < i < |entries|
    requires entries[k].op != StoreU32 && entries[k].nodeId in entries[i].dependencies
    ensures Untouched(Items(AsNodes(entries)), Destinations(entries), k, i)
  {
    var items := Items(AsNodes(entries));
    assert LifetimeChecked(entries, k);
    LastPosition(items, entries[k].nodeId);
    assert entries[k].nodeId in items[i].uses;
    forall m | k < m < i && items[m].defines ensures Destinations(entries)[m] != Destinations(entries)[k] {
      assert LifetimeChecked(entries, m);
      assert EntryChecked(version, code, entries, m) && EntryChecked(version, code, entries, k);
    }
  }

  /** An accepted trace is a lowering in the sense of the word machine. */
  lemma {:induction false} ExplainedIsLowering(version: int, code: seq<int>, entries: seq<Entry>)
    requires Explains(version, code, entries)
    ensures Lowers(SchemaOf(version), AsNodes(entries), Destinations(entries), Sources(entries), code)
    ensures AddressForm(SchemaOf(version), version)
  {
    var nodes, items := AsNodes(entries), Items(AsNodes(entries));
    forall i | 0 <= i < |entries| ensures EntryChecked(version, code, entries, i) && items[i].id == entries[i].nodeId {
    }
    assert SingleAssignment(items);
    forall k, i | 0 <= k < i < |items| && items[k].defines && items[k].id in items[i].uses
      ensures Untouched(items, Destinations(entries), k, i)
    {
      CheckedIsUntouched(version, code, entries, k, i);
    }
  }

  /**
    Translation validation is sound: in every accepted trace, at every cell, each source register holds the value
    of its named dependency when it is read, and the stored word is the value of the named graph.
   */
  lemma {:induction false} AcceptedTraceIsSound(version: int, code: seq<int>, entries: seq<Entry>, c: Cell, i: nat)
    requires Explains(version, code, entries) && i < |entries|
    ensures Fetch(RunWords(version, code, c, i), entries[i].sourceRegisters)
            == Arguments(Env(Items(AsNodes(entries)), NodeMeaning(AsNodes(entries), c), i), entries[i].dependencies)
    ensures WordResult(version, code, c) == NamedResult(AsNodes(entries), c)
  {
    var nodes, dest, sources := AsNodes(entries), Destinations(entries), Sources(entries);
    ExplainedIsLowering(version, code, entries);
    assert forall k :: 0 <= k < |nodes| ==> (nodes[k].kind == StoreU32 <==> k == |nodes| - 1) by {
      forall k | 0 <= k < |nodes| ensures nodes[k].kind == StoreU32 <==> k == |nodes| - 1 {
        assert EntryChecked(version, code, entries, k);
      }
    }
    OperandsHeld(SchemaOf(version), version, nodes, dest, sources, code, c, i);
    ResultsAgree(SchemaOf(version), version, nodes, dest, sources, code, c);
  }

  // ----- The compiler's own traces -----

  function Consumers(nodes: seq<Node>, positions: seq<nat>): (r: seq<string>)
    ensures |r| == |positions|
  {
    seq(|positions|, p requires 0 <= p < |positions| => if positions[p] < |nodes| then nodes[positions[p]].id else "")
  }

  /** One entry of `_lowering_trace`. */
  function TraceEntry(nodes: seq<Node>, code: seq<int>, dest: seq<nat>, sources: seq<seq<nat>>, i: nat): Entry
    requires i < |nodes| == |code| == |dest| == |sources|
  {
    var node := nodes[i];
    var positions := UsePositions(Items(nodes), node.id, |nodes|);
    var value := node.kind != StoreU32;
    var last := if value then LastOf(positions) else None;
    Entry(i, node.id, node.kind, node.inputs, node.address, |positions|, Consumers(nodes, positions), code[i], sources[i],
          if value then Some(dest[i]) else None, if value then Some(i) else None, last,
          if value then Some((i, if last.Some? then last.value else |nodes| - 1)) else None, last, node.immediate)
  }

  function LoweringTrace(nodes: seq<Node>, code: seq<int>, dest: seq<nat>, sources: seq<seq<nat>>): (t: seq<Entry>)
    requires |nodes| == |code| == |dest| == |sources|
    ensures |t| == |nodes| && forall i :: 0 <= i < |nodes| ==> t[i] == TraceEntry(nodes, code, dest, sources, i)
  {
    seq(|nodes|, i requires 0 <= i < |nodes| => TraceEntry(nodes, code, dest, sources, i))
  }

  /** The trace names its descriptor, its version and its words. */
  predicate HeaderRight(d: Descriptor, trace: Trace, code: seq<int>, canon: Canon, sha: Digest) {
    && trace.second == (ProgramVersion(d) >= 5) && trace.graphId == d.graphId && trace.descriptor == canon(d)
    && trace.version == ProgramVersion(d) && trace.count == |code| && trace.digest == sha([|code|] + code)
  }

  function TraceOf(d: Descriptor, code: seq<int>, entries: seq<Entry>, canon: Canon, sha: Digest): (t: Trace)
    ensures HeaderRight(d, t, code, canon, sha) && t.entries == entries
  {
    Trace(ProgramVersion(d) >= 5, d.graphId, canon(d), ProgramVersion(d), |code|, sha([|code|] + code), entries)
  }

  /** No value has more operand references than there are instructions. */
  ghost predicate FanOutFits(nodes: seq<Node>) {
    forall i {:trigger FanOutFitsAt(nodes, i)} :: 0 <= i < |nodes| ==> FanOutFitsAt(nodes, i)
  }

  ghost predicate FanOutFitsAt(nodes: seq<Node>, i: nat)
    requires i < |nodes|
  {
    nodes[i].kind != StoreU32 ==> Uses(Items(nodes), nodes[i].id, 0) <= |nodes|
  }

  lemma {:induction false} PositionsCountUses(items: seq<Item>, id: string, k: nat)
    requires k <= |items|
    ensures |UsePositions(items, id, k)| + Uses(items, id, k) == Uses(items, id, 0)
  {
    if k > 0 {
      PositionsCountUses(items, id, k - 1);
    }
  }

  /** Scheduled code under the compiler's assignment, as the trace describes it. */
  ghost predicate Traced(schema: Schema, version: int, nodes: seq<Node>, code: seq<int>, dest: seq<nat>, sources: seq<seq<nat>>) {
    && 2 <= |nodes| <= CAPACITY && 1 <= version <= 6 && schema == SchemaOf(version)
    && Lowers(schema, nodes, dest, sources, code) && LinearScan(Items(nodes), true, dest) && StoreLast(nodes)
    && (forall i :: 0 <= i < |nodes| ==> Identifier(nodes[i].id))
    && (version <= 2 ==> (version == 2 <==> exists i :: 0 <= i < |nodes| && nodes[i].kind == MaxU32))
  }

  lemma {:induction false} TraceProjections(schema: Schema, version: int, nodes: seq<Node>, code: seq<int>, dest: seq<nat>, sources: seq<seq<nat>>)
    requires Traced(schema, version, nodes, code, dest, sources)
    ensures var t := LoweringTrace(nodes, code, dest, sources);
            AsNodes(t) == nodes && Destinations(t) == dest && Sources(t) == sources
  {
    var t := LoweringTrace(nodes, code, dest, sources);
    forall i | 0 <= i < |nodes| ensures Destinations(t)[i] == dest[i] {
      assert LowestFree(Items(nodes), true, dest, i);
    }
  }

  lemma {:induction false} ConsumersAreIdentifiers(nodes: seq<Node>, id: string)
    requires forall i :: 0 <= i < |nodes| ==> Identifier(nodes[i].id)
    ensures forall u :: u in Consumers(nodes, UsePositions(Items(nodes), id, |nodes|)) ==> Identifier(u)
  {
    var ps := UsePositions(Items(nodes), id, |nodes|);
    forall p | 0 <= p < |ps| ensures Identifier(Consumers(nodes, ps)[p]) {
      PositionIsUse(Items(nodes), id, |nodes|, ps[p]);
    }
  }

  lemma {:induction false} NobodyReadsTheStore(nodes: seq<Node>, i: nat)
    requires SingleAssignment(Items(nodes)) && i < |nodes| && nodes[i].kind == StoreU32
    ensures UsePositions(Items(nodes), nodes[i].id, |nodes|) == []
  {
    var items := Items(nodes);
    var ps := UsePositions(items, nodes[i].id, |nodes|);
    assert |ps| > 0 ==> ps[0] in ps;
    forall p | 0 <= p < |nodes| ensures items[i].id !in items[p].uses {
      assert items[i].id in items[p].uses ==> DefinedBefore(items, p, items[i].id);
    }
    forall p: nat ensures p !in ps {
      PositionIsUse(items, nodes[i].id, |nodes|, p);
    }
  }

  lemma {:induction false} TraceNodeChecked(schema: Schema, version: int, nodes: seq<Node>, code: seq<int>, dest: seq<nat>,
                                             sources: seq<seq<nat>>, i: nat)
    requires Traced(schema, version, nodes, code, dest, sources) && i < |nodes|
    ensures NodeChecked(version, LoweringTrace(nodes, code, dest, sources), i)
  {
    var items := Items(nodes);
    assert forall j :: 0 <= j < i ==> items[j].id != items[i].id;
  }

  lemma {:induction false} TraceOperandsChecked(schema: Schema, version: int, nodes: seq<Node>, code: seq<int>, dest: seq<nat>,
                                             sources: seq<seq<nat>>, i: nat)
    requires Traced(schema, version, nodes, code, dest, sources) && i < |nodes|
    ensures OperandsChecked(LoweringTrace(nodes, code, dest, sources), i)
  {
    TraceProjections(schema, version, nodes, code, dest, sources);
    OperandsAreIdentifiers(nodes, i);
    SourcesAreRegisters(Items(nodes), dest, i, sources[i]);
  }

  lemma {:induction false} TraceDefinitionChecked(schema: Schema, version: int, nodes: seq<Node>, code: seq<int>, dest: seq<nat>,
                                             sources: seq<seq<nat>>, i: nat)
    requires Traced(schema, version, nodes, code, dest, sources) && i < |nodes|
    ensures DefinitionChecked(LoweringTrace(nodes, code, dest, sources), i)
            <==> (nodes[i].kind != StoreU32 ==> Uses(Items(nodes), nodes[i].id, 0) <= |nodes|)
  {
    ConsumersAreIdentifiers(nodes, nodes[i].id);
    PositionsCountUses(Items(nodes), nodes[i].id, |nodes|);
    if nodes[i].kind == StoreU32 {
      NobodyReadsTheStore(nodes, i);
    }
  }

  lemma {:induction false} TraceEntryChecked(schema: Schema, version: int, nodes: seq<Node>, code: seq<int>, dest: seq<nat>,
                                             sources: seq<seq<nat>>, i: nat)
    requires Traced(schema, version, nodes, code, dest, sources) && i < |nodes|
    ensures var t := LoweringTrace(nodes, code, dest, sources);
            EntryChecked(version, code, t, i) <==> (nodes[i].kind != StoreU32 ==> Uses(Items(nodes), nodes[i].id, 0) <= |nodes|)
  {
    var t := LoweringTrace(nodes, code, dest, sources);
    TraceNodeChecked(schema, version, nodes, code, dest, sources, i);
    TraceOperandsChecked(schema, version, nodes, code, dest, sources, i);
    assert WordChecked(version, code, t, i) by { TraceProjections(schema, version, nodes, code, dest, sources); }
    TraceDefinitionChecked(schema, version, nodes, code, dest, sources, i);
  }

  lemma {:induction false} OperandsAreIdentifiers(nodes: seq<Node>, i: nat)
    requires SingleAssignment(Items(nodes)) && i < |nodes| && forall k :: 0 <= k < |nodes| ==> Identifier(nodes[k].id)
    ensures forall u :: u in nodes[i].inputs ==> Identifier(u) && DefinedBefore(Items(nodes), i, u)
  {
    forall u | u in nodes[i].inputs ensures Identifier(u) && DefinedBefore(Items(nodes), i, u) {
      assert DefinedBefore(Items(nodes), i, u);
    }
  }

  lemma {:induction false} HeldIsTaken(items: seq<Item>, dest: seq<nat>, j: nat, i: nat)
    requires |dest| == |items| && j < i < |items|
    ensures Held(items, true, j, i) ==> dest[j] in HeldRegisters(items, true, dest, i)
  {
  }

  lemma {:induction false} UsedAt(items: seq<Item>, i: nat, p: int, id: string)
    requires 0 <= p < |items| && id in items[p].uses
    ensures p > i ==> UsedFrom(items, i + 1, id)
  {
  }

  /** Two values in one register: the earlier one is last read no later than the later one is defined. */
  lemma {:induction false} NoOverlap(items: seq<Item>, dest: seq<nat>, j: nat, i: nat)
    requires LinearScan(items, true, dest) && j < i < |items| && items[j].defines && items[i].defines && dest[j] == dest[i]
    ensures var last := LastOf(UsePositions(items, items[j].id, |items|)); last.Some? && last.value <= i
  {
    LastPosition(items, items[j].id);
    assert LowestFree(items, true, dest, i);
    HeldIsTaken(items, dest, j, i);
    var last := LastOf(UsePositions(items, items[j].id, |items|));
    if last.Some? {
      UsedAt(items, i, last.value, items[j].id);
    }
  }

  lemma {:induction false} TraceNoOverlap(nodes: seq<Node>, code: seq<int>, dest: seq<nat>, sources: seq<seq<nat>>, j: nat, i: nat)
    requires |nodes| == |code| == |dest| == |sources| && LinearScan(Items(nodes), true, dest) && j < i < |nodes|
    requires nodes[i].kind != StoreU32
    ensures var e := TraceEntry(nodes, code, dest, sources, j);
            e.destination == TraceEntry(nodes, code, dest, sources, i).destination && e.liveRange.Some? ==> e.liveRange.value.1 <= i
  {
    if nodes[j].kind != StoreU32 && dest[j] == dest[i] {
      NoOverlap(Items(nodes), dest, j, i);
    }
  }

  lemma {:induction false} TraceLifetimeChecked(schema: Schema, version: int, nodes: seq<Node>, code: seq<int>, dest: seq<nat>,
                                                sources: seq<seq<nat>>, i: nat)
    requires Traced(schema, version, nodes, code, dest, sources) && i < |nodes| && nodes[i].kind != StoreU32
    ensures LifetimeChecked(LoweringTrace(nodes, code, dest, sources), i)
  {
    var t := LoweringTrace(nodes, code, dest, sources);
    assert AsNodes(t) == nodes by { TraceProjections(schema, version, nodes, code, dest, sources); }
    assert forall j :: 0 <= j < i && t[j].destination == t[i].destination && t[j].liveRange.Some? ==> t[j].liveRange.value.1 <= i by {
      forall j | 0 <= j < i && t[j].destination == t[i].destination && t[j].liveRange.Some? ensures t[j].liveRange.value.1 <= i {
        TraceNoOverlap(nodes, code, dest, sources, j, i);
      }
    }
    LifetimeFromUses(nodes, code, dest, sources, i, t);
  }

  lemma {:induction false} LifetimeFromUses(nodes: seq<Node>, code: seq<int>, dest: seq<nat>, sources: seq<seq<nat>>, i: nat, t: seq<Entry>)
    requires |nodes| == |code| == |dest| == |sources| && t == LoweringTrace(nodes, code, dest, sources) && AsNodes(t) == nodes
    requires i < |nodes| && nodes[i].kind != StoreU32
    requires forall j :: 0 <= j < i && t[j].destination == t[i].destination && t[j].liveRange.Some? ==> t[j].liveRange.value.1 <= i
    ensures LifetimeChecked(t, i)
  {
    var positions := UsePositions(Items(nodes), nodes[i].id, |nodes|);
    assert Consumers(nodes, positions)
        == seq(|positions|, p requires 0 <= p < |positions| => if positions[p] < |t| then t[positions[p]].nodeId else "");
  }

  ghost predicate EntriesChecked(version: int, code: seq<int>, entries: seq<Entry>)
    requires |entries| == |code|
  {
    forall i {:trigger EntryChecked(version, code, entries, i)} :: 0 <= i < |entries| ==> EntryChecked(version, code, entries, i)
  }

  ghost predicate LifetimesChecked(entries: seq<Entry>) {
    forall i {:trigger LifetimeChecked(entries, i)} :: 0 <= i < |entries| && entries[i].op != StoreU32 ==> LifetimeChecked(entries, i)
  }

  lemma {:induction false} TraceVersionChecked(schema: Schema, version: int, nodes: seq<Node>, code: seq<int>, dest: seq<nat>, sources: seq<seq<nat>>)
    requires Traced(schema, version, nodes, code, dest, sources)
    ensures VersionChecked(version, LoweringTrace(nodes, code, dest, sources))
  {
    var t := LoweringTrace(nodes, code, dest, sources);
    assert forall i :: 0 <= i < |nodes| ==> t[i].op == nodes[i].kind;
  }

  lemma {:induction false} TraceEntriesChecked(schema: Schema, version: int, nodes: seq<Node>, code: seq<int>, dest: seq<nat>, sources: seq<seq<nat>>)
    requires Traced(schema, version, nodes, code, dest, sources)
    ensures EntriesChecked(version, code, LoweringTrace(nodes, code, dest, sources)) <==> FanOutFits(nodes)
  {
    var t := LoweringTrace(nodes, code, dest, sources);
    assert forall i :: 0 <= i < |nodes| ==> (EntryChecked(version, code, t, i) <==> FanOutFitsAt(nodes, i)) by {
      forall i | 0 <= i < |nodes| ensures EntryChecked(version, code, t, i) <==> FanOutFitsAt(nodes, i) {
        TraceEntryChecked(schema, version, nodes, code, dest, sources, i);
      }
    }
  }

  lemma {:induction false} TraceLifetimesChecked(schema: Schema, version: int, nodes: seq<Node>, code: seq<int>, dest: seq<nat>, sources: seq<seq<nat>>)
    requires Traced(schema, version, nodes, code, dest, sources)
    ensures LifetimesChecked(LoweringTrace(nodes, code, dest, sources))
  {
    var t := LoweringTrace(nodes, code, dest, sources);
    forall i | 0 <= i < |t| && t[i].op != StoreU32 ensures LifetimeChecked(t, i) {
      TraceLifetimeChecked(schema, version, nodes, code, dest, sources, i);
    }
  }

  lemma {:induction false} ExplainsByParts(version: int, code: seq<int>, t: seq<Entry>)
    requires 1 <= version <= 6 && 2 <= |code| <= CAPACITY && |t| == |code| && VersionChecked(version, t) && LifetimesChecked(t)
    ensures Explains(version, code, t) <==> EntriesChecked(version, code, t)
  {
  }

  /** The check accepts a compiler trace if and only if every fan-out fits the instruction count. */
  lemma {:induction false} TraceAcceptedIffFanOutFits(schema: Schema, version: int, nodes: seq<Node>, code: seq<int>, dest: seq<nat>,
                                                      sources: seq<seq<nat>>)
    requires Traced(schema, version, nodes, code, dest, sources)
    ensures Explains(version, code, LoweringTrace(nodes, code, dest, sources)) <==> FanOutFits(nodes)
  {
    var t := LoweringTrace(nodes, code, dest, sources);
    assert EntriesChecked(version, code, t) <==> FanOutFits(nodes) by { TraceEntriesChecked(schema, version, nodes, code, dest, sources); }
    assert VersionChecked(version, t) by { TraceVersionChecked(schema, version, nodes, code, dest, sources); }
    assert LifetimesChecked(t) by { TraceLifetimesChecked(schema, version, nodes, code, dest, sources); }
    ExplainsByParts(version, code, t);
  }

  // ----- Compiled descriptors -----

  ghost predicate TraceableNodes(version: int, nodes: seq<Node>) {
    && StoreLast(nodes) && (forall i :: 0 <= i < |nodes| ==> Identifier(nodes[i].id))
    && (version <= 2 ==> (version == 2 <==> exists i :: 0 <= i < |nodes| && nodes[i].kind == MaxU32))
  }

  lemma {:induction false} ScheduledIsTraceable(d: Descriptor)
    requires Wired(d.nodes) && |d.nodes| > 0 && forall i :: 0 <= i < |d.nodes| ==> Identifier(d.nodes[i].id)
    ensures TraceableNodes(ProgramVersion(d), Scheduled(d.nodes)) && d.schema == SchemaOf(ProgramVersion(d))
  {
    var nodes := Scheduled(d.nodes);
    assert StoreLast(nodes) && (forall i :: 0 <= i < |d.nodes| ==> d.nodes[i] in nodes) && (forall k :: 0 <= k < |nodes| ==> nodes[k] in d.nodes) by {
      ScheduledIsProgram(d.nodes);
    }
    SameKinds(d.nodes, nodes);
    VersionFollowsNodes(d);
  }

  lemma {:induction false} TracedByParts(schema: Schema, version: int, nodes: seq<Node>, code: seq<int>, dest: seq<nat>, sources: seq<seq<nat>>)
    requires 2 <= |nodes| <= CAPACITY && 1 <= version <= 6 && schema == SchemaOf(version) && TraceableNodes(version, nodes)
    requires Lowers(schema, nodes, dest, sources, code) && LinearScan(Items(nodes), true, dest)
    ensures Traced(schema, version, nodes, code, dest, sources)
  {
  }

  lemma {:induction false} CompiledIsTraced(d: Descriptor, p: Program, sha: Digest, dest: seq<nat>, sources: seq<seq<nat>>)
    requires Admitted(d) && CompiledWith(d, p, sha, dest, sources)
    ensures Traced(d.schema, ProgramVersion(d), Scheduled(d.nodes), p.instructions, dest, sources)
  {
    assert TraceableNodes(ProgramVersion(d), Scheduled(d.nodes)) && d.schema == SchemaOf(ProgramVersion(d)) by { ScheduledIsTraceable(d); }
    TracedByParts(d.schema, ProgramVersion(d), Scheduled(d.nodes), p.instructions, dest, sources);
  }

  lemma {:induction false} VersionFollowsNodes(d: Descriptor)
    ensures d.schema == SchemaOf(ProgramVersion(d))
    ensures ProgramVersion(d) <= 2 ==> (ProgramVersion(d) == 2 <==> exists i :: 0 <= i < |d.nodes| && d.nodes[i].kind == MaxU32)
  {
  }

  /** Identifiers and the presence of a MAX node do not depend on the order. */
  lemma {:induction false} SameKinds(a: seq<Node>, b: seq<Node>)
    requires (forall i :: 0 <= i < |a| ==> a[i] in b) && (forall k :: 0 <= k < |b| ==> b[k] in a)
    requires forall i :: 0 <= i < |a| ==> Identifier(a[i].id)
    ensures forall k :: 0 <= k < |b| ==> Identifier(b[k].id)
    ensures (exists i :: 0 <= i < |a| && a[i].kind == MaxU32) <==> (exists k :: 0 <= k < |b| && b[k].kind == MaxU32)
  {
    if i :| 0 <= i < |a| && a[i].kind == MaxU32 {
      assert a[i] in b;
    }
    if k :| 0 <= k < |b| && b[k].kind == MaxU32 {
      assert b[k] in a;
    }
  }

  /** Operand references to `u` in a list of instructions. */
  function References(items: seq<Item>, u: string): nat {
    if items == [] then 0 else multiset(items[0].uses)[u] + References(items[1..], u)
  }

  lemma {:induction false} UsesAreReferences(items: seq<Item>, u: string, k: nat)
    requires k <= |items|
    ensures Uses(items, u, k) == References(items[k..], u)
    decreases |items| - k
  {
    if k < |items| {
      UsesAreReferences(items, u, k + 1);
      assert items[k..][1..] == items[k + 1..];
    }
  }

  lemma {:induction false} ReferencesAppend(a: seq<Item>, b: seq<Item>, u: string)
    ensures References(a + b, u) == References(a, u) + References(b, u)
  {
    if a == [] {
      assert a + b == b;
    } else {
      ReferencesAppend(a[1..], b, u);
      assert (a + b)[1..] == a[1..] + b;
    }
  }

  lemma {:induction false} RemoveOne(b: seq<Item>, j: nat, u: string)
    requires j < |b|
    ensures multiset(b) == multiset(b[..j] + b[j + 1..]) + multiset{b[j]}
    ensures References(b, u) == multiset(b[j].uses)[u] + References(b[..j] + b[j + 1..], u)
  {
    var front, back := b[..j], b[j + 1..];
    assert b == front + [b[j]] + back;
    ReferencesAppend(front, back, u);
    ReferencesAppend(front + [b[j]], back, u);
    ReferencesAppend(front, [b[j]], u);
  }

  lemma {:induction false} SameRest<T>(a: multiset<T>, b: multiset<T>, x: T)
    requires a + multiset{x} == b + multiset{x}
    ensures a == b
  {
    assert a == (a + multiset{x}) - multiset{x} && b == (b + multiset{x}) - multiset{x};
  }

  lemma {:induction false} ReferencesPermuted(a: seq<Item>, b: seq<Item>, u: string)
    requires multiset(a) == multiset(b)
    ensures References(a, u) == References(b, u)
    decreases |a|
  {
    if a == [] {
      assert |multiset(b)| == 0;
    } else {
      assert a[0] in multiset(b);
      var j :| 0 <= j < |b| && b[j] == a[0];
      var c, e := a[..0] + a[1..], b[..j] + b[j + 1..];
      assert multiset(c) == multiset(e) by {
        RemoveOne(a, 0, u);
        RemoveOne(b, j, u);
        SameRest(multiset(c), multiset(e), a[0]);
      }
      assert References(a, u) == multiset(a[0].uses)[u] + References(c, u) by { RemoveOne(a, 0, u); }
      assert References(b, u) == multiset(a[0].uses)[u] + References(e, u) by { RemoveOne(b, j, u); }
      ReferencesPermuted(c, e, u);
    }
  }

  lemma {:induction false} OccursOnce<T>(s: seq<T>, x: T)
    requires Distinct(s)
    ensures multiset(s)[x] == if x in s then 1 else 0
  {
    if s != [] {
      var front, last := s[..|s| - 1], s[|s| - 1];
      OccursOnce(front, x);
      assert s == front + [last];
      assert last !in front;
    }
  }

  lemma {:induction false} PermutedItems(a: seq<Node>, b: seq<Node>)
    requires SingleAssignment(Items(a)) && Distinct(Ids(b))
    requires (forall i :: 0 <= i < |a| ==> a[i] in b) && (forall k :: 0 <= k < |b| ==> b[k] in a)
    ensures multiset(Items(a)) == multiset(Items(b))
  {
    assert Distinct(Items(a)) && Distinct(Items(b)) by {
      assert forall i, j :: 0 <= i < j < |b| ==> Ids(b)[i] != Ids(b)[j];
    }
    forall x ensures multiset(Items(a))[x] == multiset(Items(b))[x] {
      OccursOnce(Items(a), x);
      OccursOnce(Items(b), x);
      ItemsWithin(a, b, x);
      ItemsWithin(b, a, x);
    }
  }

  lemma {:induction false} ItemsWithin(a: seq<Node>, b: seq<Node>, x: Item)
    requires forall i :: 0 <= i < |a| ==> a[i] in b
    ensures x in Items(a) ==> x in Items(b)
  {
    if x in Items(a) {
      var i :| 0 <= i < |a| && Items(a)[i] == x;
      var k :| 0 <= k < |b| && b[k] == a[i];
      assert Items(b)[k] == x;
    }
  }

  lemma {:induction false} SameFanOut(a: seq<Node>, b: seq<Node>)
    requires multiset(Items(a)) == multiset(Items(b)) && |a| == |b|
    requires forall i :: 0 <= i < |a| ==> a[i] in b
    ensures FanOutFits(b) ==> FanOutFits(a)
  {
    if FanOutFits(b) {
      forall i | 0 <= i < |a| ensures FanOutFitsAt(a, i) {
        var k :| 0 <= k < |b| && b[k] == a[i];
        assert FanOutFitsAt(b, k);
        SameUses(Items(a), Items(b), a[i].id);
      }
    }
  }

  lemma {:induction false} SameUses(a: seq<Item>, b: seq<Item>, u: string)
    requires multiset(a) == multiset(b)
    ensures Uses(a, u, 0) == Uses(b, u, 0)
  {
    UsesAreReferences(a, u, 0);
    UsesAreReferences(b, u, 0);
    assert a[0..] == a && b[0..] == b;
    ReferencesPermuted(a, b, u);
  }

  /** The bound can be read off the descriptor. */
  lemma {:induction false} FanOutOfDescriptor(nodes: seq<Node>)
    requires Wired(nodes) && |nodes| > 0
    ensures FanOutFits(Scheduled(nodes)) <==> FanOutFits(nodes)
  {
    var scheduled := Scheduled(nodes);
    ScheduledIsProgram(nodes);
    PermutedItems(scheduled, nodes);
    SameFanOut(scheduled, nodes);
    SameFanOut(nodes, scheduled);
  }

  /**
    For every compiled descriptor, the trace the compiler emits passes the independent check if and only if no node
    of the descriptor has more operand references than the descriptor has nodes.
   */
  lemma {:induction false} CompiledTraceAccepted(d: Descriptor, p: Program, sha: Digest, dest: seq<nat>, sources: seq<seq<nat>>)
    requires Admitted(d) && CompiledWith(d, p, sha, dest, sources)
    ensures Explains(ProgramVersion(d), p.instructions, LoweringTrace(Scheduled(d.nodes), p.instructions, dest, sources))
            <==> FanOutFits(d.nodes)
  {
    CompiledIsTraced(d, p, sha, dest, sources);
    TraceAcceptedIffFanOutFits(d.schema, ProgramVersion(d), Scheduled(d.nodes), p.instructions, dest, sources);
    FanOutOfDescriptor(d.nodes);
  }

  function Below(k: nat): (r: set<nat>)
    ensures |r| == k && forall j: nat :: j in r <==> j < k
  {
    if k == 0 then {} else Below(k - 1) + {k - 1}
  }

  /** Eight or fewer instructions never run out of registers. */
  lemma {:induction false} FewNodesFit(items: seq<Item>)
    requires |items| <= REGISTERS
    ensures !Overflows(items, true)
  {
    forall k: nat | k < |items| ensures |HeldAt(items, true, k)| < REGISTERS {
      assert HeldAt(items, true, k) <= Below(k);
      SubsetSize(HeldAt(items, true, k), Below(k));
    }
  }

  /** A load whose value is added to itself three times. */
  function Doubling(): (nodes: seq<Node>)
    ensures |nodes| == 5 && Ids(nodes) == ["a", "b", "c", "e", "s"]
    ensures nodes[0] == Node("a", LoadU32, [], Some(Compass(Center)), None)
    ensures forall i :: 1 <= i < 4 ==> nodes[i] == Node(nodes[i].id, AddU32, ["a", "a"], None, None)
    ensures nodes[4] == Node("s", StoreU32, ["e"], None, None)
  {
    [Node("a", LoadU32, [], Some(Compass(Center)), None), Node("b", AddU32, ["a", "a"], None, None),
     Node("c", AddU32, ["a", "a"], None, None), Node("e", AddU32, ["a", "a"], None, None), Node("s", StoreU32, ["e"], None, None)]
  }

  lemma {:induction false} DoublingIsWired()
    ensures Wired(Doubling())
  {
    var nodes := Doubling();
    var ids := Ids(nodes);
    assert Distinct(ids);
    forall i | 0 <= i < 5 ensures nodes[i].kind == StoreU32 <==> i == 4 {
    }
    forall i | 0 <= i < 5 ensures OperandsDefined(nodes, nodes[i]) {
      assert nodes[0].id == ids[0] && nodes[3].id == ids[3];
      assert ValueNamed(nodes, "a") && ValueNamed(nodes, "e");
    }
    DoublingIsAcyclic(nodes);
  }

  lemma {:induction false} DoublingUses()
    ensures Uses(Items(Doubling()), "a", 0) == 6
  {
    var items := Items(Doubling());
    assert Uses(items, "a", 5) == 0 && Uses(items, "a", 4) == 0;
    assert Uses(items, "a", 3) == 2;
    assert Uses(items, "a", 2) == 4;
    assert Uses(items, "a", 1) == 6;
  }

  lemma {:induction false} ManyUses(nodes: seq<Node>)
    requires |nodes| > 0 && nodes[0].kind != StoreU32 && Uses(Items(nodes), nodes[0].id, 0) > |nodes|
    ensures !FanOutFits(nodes)
  {
    assert !FanOutFitsAt(nodes, 0);
  }

  /** Five admitted nodes that fit the registers, one of them referenced six times. */
  lemma {:induction false} DoublingExceeds()
    ensures var d := Descriptor(V1, "g", Shape(1, 1, 3, 1), Doubling());
            Admitted(d) && !Overflows(Items(Scheduled(d.nodes)), true) && !FanOutFits(d.nodes)
  {
    var nodes := Doubling();
    DoublingIsFormed();
    DoublingIsWired();
    assert !Overflows(Items(Scheduled(nodes)), true) by { FewNodesFit(Items(Scheduled(nodes))); }
    assert !FanOutFits(nodes) by {
      DoublingUses();
      ManyUses(nodes);
    }
  }

  lemma {:induction false} DoublingIsFormed()
    ensures NodesFormed(V1, Doubling()) && forall i :: 0 <= i < |Doubling()| ==> Identifier(Doubling()[i].id)
  {
    var nodes := Doubling();
    forall i | 0 <= i < 5 ensures Identifier(nodes[i].id) {
      assert nodes[i].id == Ids(nodes)[i];
    }
  }

  lemma {:induction false} DoublingIsAcyclic(nodes: seq<Node>)
    requires |nodes| == 5 && Ids(nodes) == ["a", "b", "c", "e", "s"]
    requires nodes[0].inputs == [] && nodes[4].inputs == ["e"]
    requires forall i :: 1 <= i < 4 ==> nodes[i].inputs == ["a", "a"]
    ensures Scheduling.Acyclic(Dependencies(nodes))
  {
    var g := Dependencies(nodes);
    assert Scheduling.Topological(g, g.ids) by { DoublingIsOrdered(nodes); }
    Scheduling.OrderedListingUnchanged(g);
    Scheduling.ScheduleSucceedsIffAcyclic(g);
  }

  lemma {:induction false} DoublingIsOrdered(nodes: seq<Node>)
    requires |nodes| == 5 && Ids(nodes) == ["a", "b", "c", "e", "s"]
    requires nodes[0].inputs == [] && nodes[4].inputs == ["e"]
    requires forall i :: 1 <= i < 4 ==> nodes[i].inputs == ["a", "a"]
    ensures var g := Dependencies(nodes); Scheduling.Topological(g, g.ids)
  {
    var g := Dependencies(nodes);
    forall k: nat | k < |g.ids| ensures g.ids[k] in g.deps && g.deps[g.ids[k]] <= Elements(g.ids[..k]) {
      DoublingDeps(nodes, k);
    }
    assert Distinct(g.ids) by { FiveLetters(g.ids); }
  }

  lemma {:induction false} FiveLetters(ids: seq<string>)
    requires ids == ["a", "b", "c", "e", "s"]
    ensures Distinct(ids)
  {
  }

  lemma {:induction false} DoublingDeps(nodes: seq<Node>, k: nat)
    requires |nodes| == 5 && Ids(nodes) == ["a", "b", "c", "e", "s"] && k < 5
    requires nodes[0].inputs == [] && nodes[4].inputs == ["e"]
    requires forall i :: 1 <= i < 4 ==> nodes[i].inputs == ["a", "a"]
    ensures var g := Dependencies(nodes); g.ids[k] in g.deps && g.deps[g.ids[k]] <= Elements(g.ids[..k])
  {
    var g, ids := Dependencies(nodes), Ids(nodes);
    assert Position(ids, ids[k]) == k;
    assert g.deps[ids[k]] == Elements(nodes[k].inputs);
    assert k > 0 ==> ids[..k][0] == "a";
    assert k == 4 ==> ids[..k][3] == "e";
  }
}

/** Graph descriptors: the named nodes, their admission, and their schedule. */
module Descriptor {
  import opened Base
  import opened Registers
  import Scheduling

  datatype Schema = V1 | V2 | V3 | V4 | V5

  datatype Kind = LoadU32 | AddU32 | MaxU32 | MulU32 | AddImmU32 | GeImmU32 | StoreU32

  datatype Direction = Center | North | South | West | East

  datatype Address = Compass(direction: Direction) | Relative(row: int, column: int)

  /** A node as it is read: fields its kind does not have are absent. */
  datatype Node = Node(id: string, kind: Kind, inputs: seq<string>, address: Option<Address>, immediate: Option<int>)

  datatype Shape = Shape(rows: int, columns: int, inputStride: int, outputStride: int)

  datatype Descriptor = Descriptor(schema: Schema, graphId: string, shape: Shape, nodes: seq<Node>)

  const CAPACITY := 16
  const MAX_IMMEDIATE := 0x3f_ffff
  const INPUT_WORDS := 324
  const OUTPUT_WORDS := 256

  // ----- Admission -----

  predicate Identifier(s: string) {
    && 1 <= |s| <= 31 && NameLetter(s[0])
    && forall i :: 1 <= i < |s| ==> NameLetter(s[i]) || s[i] == '.' || s[i] == '_' || s[i] == '-'
  }

  predicate ShapeAdmitted(s: Shape) {
    && 1 <= s.rows <= 16 && 1 <= s.columns <= 16
    && s.inputStride >= s.columns + 2
    && s.outputStride >= s.columns
    && (s.rows + 1) * s.inputStride + s.columns < INPUT_WORDS
    && (s.rows - 1) * s.outputStride + s.columns - 1 < OUTPUT_WORDS
  }

  function Arity(kind: Kind): nat {
    match kind
    case LoadU32 => 0
    case AddU32 | MaxU32 | MulU32 => 2
    case AddImmU32 | GeImmU32 | StoreU32 => 1
  }

  predicate KindAdmitted(schema: Schema, kind: Kind) {
    match kind
    case MulU32 => schema in {V3, V4, V5}
    case AddImmU32 => schema in {V4, V5}
    case GeImmU32 => schema == V5
    case _ => true
  }

  predicate AddressAdmitted(schema: Schema, address: Address) {
    if schema == V1 then address.Compass?
    else address.Relative? && -1 <= address.row <= 1 && -1 <= address.column <= 1
  }

  /** The per-node checks: opcode gate, exact fields, operand count, address form, immediate range. */
  predicate NodeFormed(schema: Schema, node: Node) {
    && KindAdmitted(schema, node.kind)
    && |node.inputs| == Arity(node.kind)
    && (if node.kind == LoadU32 then node.address.Some? && AddressAdmitted(schema, node.address.value) else node.address.None?)
    && (if node.kind in {AddImmU32, GeImmU32} then node.immediate.Some? && 0 <= node.immediate.value <= MAX_IMMEDIATE
        else node.immediate.None?)
  }

  function Ids(nodes: seq<Node>): (ids: seq<string>)
    ensures |ids| == |nodes| && forall i :: 0 <= i < |ids| ==> ids[i] == nodes[i].id
  {
    seq(|nodes|, i requires 0 <= i < |nodes| => nodes[i].id)
  }


  function Dependencies(nodes: seq<Node>): (g: Scheduling.Graph)
    ensures g.ids == Ids(nodes) && g.deps.Keys == Elements(Ids(nodes))
  {
    Scheduling.Graph(Ids(nodes), map x | x in Ids(nodes) :: Elements(nodes[Position(Ids(nodes), x)].inputs))
  }

  ghost predicate NodesFormed(schema: Schema, nodes: seq<Node>) {
    forall i :: 0 <= i < |nodes| ==> NodeFormed(schema, nodes[i])
  }

  /** Distinct names, one store that comes last, defined operands, and no dependency cycle. */
  ghost predicate Wired(nodes: seq<Node>) {
    && Distinct(Ids(nodes))
    && (forall i :: 0 <= i < |nodes| ==> (nodes[i].kind == StoreU32 <==> i == |nodes| - 1))
    && (forall i :: 0 <= i < |nodes| ==> OperandsDefined(nodes, nodes[i]))
    && Scheduling.Acyclic(Dependencies(nodes))
  }

  /** What `validate_descriptor` accepts. */
  ghost predicate Admitted(d: Descriptor) {
    && Identifier(d.graphId)
    && ShapeAdmitted(d.shape)
    && 2 <= |d.nodes| <= CAPACITY
    && (forall i :: 0 <= i < |d.nodes| ==> Identifier(d.nodes[i].id))
    && NodesFormed(d.schema, d.nodes)
    && Wired(d.nodes)
  }

  predicate ValueNamed(nodes: seq<Node>, u: string) {
    exists j :: 0 <= j < |nodes| && nodes[j].id == u && nodes[j].kind != StoreU32
  }

  /** Every operand names a node that is not a store. */
  predicate OperandsDefined(nodes: seq<Node>, node: Node) {
    forall u :: u in node.inputs ==> ValueNamed(nodes, u)
  }

  // ----- The schedule of an admitted descriptor -----

  function Arrange(nodes: seq<Node>, order: seq<string>): (r: seq<Node>)
    requires forall x :: x in order ==> x in Ids(nodes)
    ensures |r| == |order|
    ensures forall k :: 0 <= k < |r| ==> r[k] in nodes && r[k].id == order[k]
  {
    seq(|order|, k requires 0 <= k < |order| => nodes[Position(Ids(nodes), order[k])])
  }

  lemma {:induction false} WiredSchedules(nodes: seq<Node>)
    requires Wired(nodes)
    ensures Scheduling.WellFormed(Dependencies(nodes))
    ensures Scheduling.Schedule(Dependencies(nodes)).Some?
    ensures Scheduling.Topological(Dependencies(nodes), Scheduling.Schedule(Dependencies(nodes)).value)
    ensures forall x :: x in Scheduling.Schedule(Dependencies(nodes)).value ==> x in Ids(nodes)
    ensures |Scheduling.Schedule(Dependencies(nodes)).value| == |nodes|
  {
    var g := Dependencies(nodes);
    OperandsAreListed(nodes);
    Scheduling.ScheduleSucceedsIffAcyclic(g);
    Scheduling.ScheduleIsTopological(g);
    var order := Scheduling.Schedule(g).value;
    forall x | x in order ensures x in g.ids {
      assert x in Elements(order);
    }
  }

  lemma {:induction false} OperandsAreListed(nodes: seq<Node>)
    requires forall i :: 0 <= i < |nodes| ==> OperandsDefined(nodes, nodes[i])
    ensures Scheduling.Closed(Dependencies(nodes))
  {
    var g := Dependencies(nodes);
    forall x, u | x in g.deps && u in g.deps[x] ensures u in g.ids {
      var i := Position(g.ids, x);
      assert u in nodes[i].inputs;
      assert OperandsDefined(nodes, nodes[i]);
      var j :| 0 <= j < |nodes| && nodes[j].id == u;
      assert g.ids[j] == u;
    }
  }

  /** The nodes in the order in which they are compiled and interpreted. */
  ghost function Scheduled(nodes: seq<Node>): (r: seq<Node>)
    requires Wired(nodes)
    ensures |r| == |nodes|
    ensures forall k :: 0 <= k < |r| ==> r[k] in nodes
  {
    WiredSchedules(nodes);
    Arrange(nodes, Scheduling.Schedule(Dependencies(nodes)).value)
  }

  function Items(nodes: seq<Node>): (items: seq<Item>)
    ensures |items| == |nodes|
    ensures forall k :: 0 <= k < |nodes| ==> items[k] == Item(nodes[k].id, nodes[k].inputs, nodes[k].kind != StoreU32)
  {
    seq(|nodes|, k requires 0 <= k < |nodes| => Item(nodes[k].id, nodes[k].inputs, nodes[k].kind != StoreU32))
  }

  /** Names identify nodes. */
  lemma {:induction false} SameId(nodes: seq<Node>, i: nat, j: nat)
    requires Distinct(Ids(nodes)) && i < |nodes| && j < |nodes| && nodes[i].id == nodes[j].id
    ensures i == j
  {
    assert Ids(nodes)[i] == Ids(nodes)[j];
  }

  lemma {:induction false} ArrangedOperand(nodes: seq<Node>, order: seq<string>, i: nat, u: string)
    requires Distinct(Ids(nodes)) && Scheduling.Topological(Dependencies(nodes), order)
    requires forall x :: x in order ==> x in Ids(nodes)
    requires i < |order| && u in Arrange(nodes, order)[i].inputs
    requires OperandsDefined(nodes, Arrange(nodes, order)[i])
    ensures DefinedBefore(Items(Arrange(nodes, order)), i, u)
  {
    var r, g := Arrange(nodes, order), Dependencies(nodes);
    assert order[i] in g.deps;
    assert u in g.deps[order[i]];
    assert u in Elements(order[..i]);
    var j :| 0 <= j < i && order[..i][j] == u;
    assert r[j].id == u;
    var m :| 0 <= m < |nodes| && nodes[m].id == u && nodes[m].kind != StoreU32;
    SameId(nodes, m, Position(Ids(nodes), order[j]));
    assert Items(r)[j].defines;
  }

  lemma {:induction false} ArrangedIsSingleAssignment(nodes: seq<Node>, order: seq<string>)
    requires Distinct(Ids(nodes)) && Scheduling.Topological(Dependencies(nodes), order)
    requires forall x :: x in order ==> x in Ids(nodes)
    requires forall i :: 0 <= i < |nodes| ==> OperandsDefined(nodes, nodes[i])
    ensures SingleAssignment(Items(Arrange(nodes, order)))
  {
    var r := Arrange(nodes, order);
    forall i, u | 0 <= i < |r| && u in Items(r)[i].uses ensures DefinedBefore(Items(r), i, u) {
      ArrangedOperand(nodes, order, i, u);
    }
  }

  lemma {:induction false} ArrangedCovers(nodes: seq<Node>, order: seq<string>, i: nat)
    requires Distinct(Ids(nodes)) && Scheduling.Topological(Dependencies(nodes), order)
    requires forall x :: x in order ==> x in Ids(nodes)
    requires i < |nodes|
    ensures nodes[i] in Arrange(nodes, order)
  {
    assert Ids(nodes)[i] in Elements(order);
    var k := Position(order, nodes[i].id);
    SameId(nodes, i, Position(Ids(nodes), order[k]));
    assert Arrange(nodes, order)[k] == nodes[i];
  }

  lemma {:induction false} NothingReadsTheStore(nodes: seq<Node>)
    requires |nodes| > 0 && Distinct(Ids(nodes)) && nodes[|nodes| - 1].kind == StoreU32
    requires forall i :: 0 <= i < |nodes| ==> OperandsDefined(nodes, nodes[i])
    ensures forall x :: x in Dependencies(nodes).deps ==> Ids(nodes)[|nodes| - 1] !in Dependencies(nodes).deps[x]
  {
    var g, n := Dependencies(nodes), |nodes|;
    forall x | x in g.deps ensures nodes[n - 1].id !in g.deps[x] {
      var i := Position(Ids(nodes), x);
      assert OperandsDefined(nodes, nodes[i]);
      forall u | u in nodes[i].inputs ensures u != nodes[n - 1].id {
        var j :| 0 <= j < n && nodes[j].id == u && nodes[j].kind != StoreU32;
        assert Ids(nodes)[j] != Ids(nodes)[n - 1];
      }
    }
  }

  lemma {:induction false} ArrangedStore(nodes: seq<Node>, order: seq<string>, k: nat)
    requires |order| == |nodes| > 0 && Distinct(Ids(nodes)) && Distinct(order)
    requires forall x :: x in order ==> x in Ids(nodes)
    requires forall i :: 0 <= i < |nodes| ==> (nodes[i].kind == StoreU32 <==> i == |nodes| - 1)
    requires order[|nodes| - 1] == Ids(nodes)[|nodes| - 1] && k < |nodes|
    ensures Arrange(nodes, order)[k].kind == StoreU32 <==> k == |nodes| - 1
  {
    var n := |nodes|;
    SameId(nodes, n - 1, Position(Ids(nodes), order[n - 1]));
    var p := Position(Ids(nodes), order[k]);
    assert order[k] == Ids(nodes)[p];
  }

  /** The schedule is single-assignment code over the descriptor's own nodes that ends with the store. */
  lemma {:induction false} ScheduledIsProgram(nodes: seq<Node>)
    requires Wired(nodes) && |nodes| > 0
    ensures SingleAssignment(Items(Scheduled(nodes)))
    ensures forall k :: 0 <= k < |nodes| ==> (Scheduled(nodes)[k].kind == StoreU32 <==> k == |nodes| - 1)
    ensures forall i :: 0 <= i < |nodes| ==> nodes[i] in Scheduled(nodes)
  {
    WiredSchedules(nodes);
    ArrangedProgram(nodes, Scheduling.Schedule(Dependencies(nodes)).value);
  }

  lemma {:induction false} ArrangedProgram(nodes: seq<Node>, order: seq<string>)
    requires |order| == |nodes| > 0 && Distinct(Ids(nodes)) && Scheduling.WellFormed(Dependencies(nodes))
    requires Scheduling.Schedule(Dependencies(nodes)) == Some(order)
    requires Scheduling.Topological(Dependencies(nodes), order)
    requires forall x :: x in order ==> x in Ids(nodes)
    requires forall i :: 0 <= i < |nodes| ==> OperandsDefined(nodes, nodes[i])
    requires forall i :: 0 <= i < |nodes| ==> (nodes[i].kind == StoreU32 <==> i == |nodes| - 1)
    ensures SingleAssignment(Items(Arrange(nodes, order)))
    ensures forall k :: 0 <= k < |nodes| ==> (Arrange(nodes, order)[k].kind == StoreU32 <==> k == |nodes| - 1)
    ensures forall i :: 0 <= i < |nodes| ==> nodes[i] in Arrange(nodes, order)
  {
    ArrangedIsSingleAssignment(nodes, order);
    StoreIsScheduledLast(nodes, order);
    forall k | 0 <= k < |nodes| ensures Arrange(nodes, order)[k].kind == StoreU32 <==> k == |nodes| - 1 {
      ArrangedStore(nodes, order, k);
    }
    forall i | 0 <= i < |nodes| ensures nodes[i] in Arrange(nodes, order) {
      ArrangedCovers(nodes, order, i);
    }
  }

  /** The final store is always scheduled last. */
  lemma {:induction false} StoreIsScheduledLast(nodes: seq<Node>, order: seq<string>)
    requires |nodes| > 0 && Distinct(Ids(nodes)) && Scheduling.WellFormed(Dependencies(nodes))
    requires Scheduling.Schedule(Dependencies(nodes)) == Some(order) && |order| == |nodes|
    requires nodes[|nodes| - 1].kind == StoreU32
    requires forall i :: 0 <= i < |nodes| ==> OperandsDefined(nodes, nodes[i])
    ensures order[|nodes| - 1] == Ids(nodes)[|nodes| - 1]
  {
    NothingReadsTheStore(nodes);
    Scheduling.SinkIsLast(Dependencies(nodes));
  }
}

/** Command graphs: dependency construction, and two executors that agree node by node. */
module CommandGraph {
  import opened Base

  /** Node identities carry their position in the source, so they are unique by construction. */
  datatype NodeId = NodeId(position: nat, name: string)

  datatype Mode = Always | OnSuccess | Stream

  datatype Node = Node(id: NodeId, name: string, dependencies: seq<NodeId>, mode: Mode)

  type Bytes = seq<int>

  datatype NodeOutcome = NodeOutcome(status: string, exitStatus: int, stderr: string)

  const EXECUTED := "executed"

  function Skipped(): NodeOutcome {
    NodeOutcome("skipped", 125, "dependency failed")
  }

  /** What running a node on a standard input gives: an arbitrary deterministic function. */
  type Runner = (Node, Bytes) -> (NodeOutcome, Bytes)

  datatype State = State(outcomes: map<NodeId, NodeOutcome>, streams: map<NodeId, Bytes>)

  // ----- Well-formed programs -----

  ghost predicate Placed(nodes: seq<Node>, i: nat)
    requires i < |nodes|
  {
    && (forall j :: 0 <= j < i ==> nodes[j].id != nodes[i].id)
    && forall d :: d in nodes[i].dependencies ==> exists j :: 0 <= j < i && nodes[j].id == d
  }

  /** Unique identities, each node after its dependencies. */
  ghost predicate Topological(nodes: seq<Node>) {
    forall i {:trigger Placed(nodes, i)} :: 0 <= i < |nodes| ==> Placed(nodes, i)
  }

  predicate Fed(node: Node) {
    node.mode == Stream ==> node.dependencies != []
  }

  predicate StreamsFed(nodes: seq<Node>) {
    forall i :: 0 <= i < |nodes| ==> Fed(nodes[i])
  }

  /** A program as `validate` sees it: its nodes, the files it declares and the node limit of its policy. */
  datatype Program = Program(nodes: seq<Node>, inputs: seq<string>, outputs: seq<string>, maxNodes: nat)

  /** What `validate` accepts: some nodes within the limit, topological, no file declared twice on either side. */
  ghost predicate ProgramValid(p: Program) {
    1 <= |p.nodes| <= p.maxNodes && Topological(p.nodes) && Distinct(p.outputs) && Distinct(p.inputs)
  }

  /** A sequence has as many elements as places exactly when none repeats. */
  lemma {:induction false} DistinctIffFull<T>(s: seq<T>)
    ensures |Elements(s)| <= |s| && (Distinct(s) <==> |Elements(s)| == |s|)
  {
    if s != [] {
      var t, last := s[..|s| - 1], s[|s| - 1];
      DistinctIffFull(t);
      assert Elements(s) == Elements(t) + {last};
      if last in t {
        var i :| 0 <= i < |t| && t[i] == last;
        assert s[i] == s[|t|] && !Distinct(s);
        assert Elements(s) == Elements(t);
      } else {
        assert Distinct(t) ==> Distinct(s);
        assert Distinct(s) ==> Distinct(t);
      }
    }
  }

  method Validate(p: Program) returns (ok: bool)
    ensures ok <==> ProgramValid(p)
  {
    if p.nodes == [] || |p.nodes| > p.maxNodes {
      return false;
    }
    ok := CheckNodes(p.nodes);
    DistinctIffFull(p.outputs);
    DistinctIffFull(p.inputs);
    ok := ok && |Elements(p.outputs)| == |p.outputs| && |Elements(p.inputs)| == |p.inputs|;
  }

  /** Identities are unique and dependencies come first. */
  method CheckNodes(nodes: seq<Node>) returns (ok: bool)
    ensures ok <==> Topological(nodes)
  {
    var prior: set<NodeId>, i := {}, 0;
    while i < |nodes|
      invariant 0 <= i <= |nodes| && (forall d :: d in prior <==> exists j :: 0 <= j < i && nodes[j].id == d)
      invariant forall k {:trigger Placed(nodes, k)} :: 0 <= k < i ==> Placed(nodes, k)
    {
      if nodes[i].id in prior || exists d :: d in nodes[i].dependencies && d !in prior {
        assert !Placed(nodes, i);
        return false;
      }
      assert Placed(nodes, i);
      prior := prior + {nodes[i].id};
      i := i + 1;
    }
    ok := true;
  }

  // ----- Meaning -----

  predicate Blocked(node: Node, outcomes: map<NodeId, NodeOutcome>) {
    node.mode != Always && exists d :: d in node.dependencies && d in outcomes && outcomes[d].status != EXECUTED
  }

  function StandardInput(node: Node, streams: map<NodeId, Bytes>): Bytes {
    if node.mode == Stream && node.dependencies != [] && node.dependencies[|node.dependencies| - 1] in streams
    then streams[node.dependencies[|node.dependencies| - 1]] else []
  }

  /** What a node does given the outcomes and streams of its dependencies. */
  datatype Effect = Skip | Ran(outcome: NodeOutcome, stdout: Bytes)

  function EffectOf(run: Runner, node: Node, s: State): Effect {
    if Blocked(node, s.outcomes) then Skip
    else var (o, b) := run(node, StandardInput(node, s.streams)); Ran(o, b)
  }

  function Applied(s: State, id: NodeId, e: Effect): State {
    match e
    case Skip => State(s.outcomes[id := Skipped()], s.streams)
    case Ran(o, b) => State(s.outcomes[id := o], s.streams[id := b])
  }

  /** The nodes run one after another in source order. */
  function InOrder(run: Runner, nodes: seq<Node>, k: nat): State
    requires k <= |nodes|
  {
    if k == 0 then State(map[], map[])
    else
      var before := InOrder(run, nodes, k - 1);
      Applied(before, nodes[k - 1].id, EffectOf(run, nodes[k - 1], before))
  }

  /** Two states say the same about a node. */
  ghost predicate SameAt(a: State, b: State, id: NodeId) {
    && (id in a.outcomes <==> id in b.outcomes) && (id in a.outcomes ==> a.outcomes[id] == b.outcomes[id])
    && (id in a.streams <==> id in b.streams) && (id in a.streams ==> a.streams[id] == b.streams[id])
  }

  /** A node's effect depends only on what the state says about its dependencies. */
  lemma {:induction false} EffectLocal(run: Runner, node: Node, a: State, b: State)
    requires forall d :: d in node.dependencies ==> SameAt(a, b, d)
    ensures EffectOf(run, node, a) == EffectOf(run, node, b)
  {
    if node.dependencies != [] {
      assert node.dependencies[|node.dependencies| - 1] in node.dependencies;
    }
  }

  lemma {:induction false} LaterSame(run: Runner, nodes: seq<Node>, i: nat, k: nat, id: NodeId)
    requires i <= k <= |nodes| && forall j :: i <= j < k ==> nodes[j].id != id
    ensures SameAt(InOrder(run, nodes, i), InOrder(run, nodes, k), id)
  {
    if i < k {
      LaterSame(run, nodes, i, k - 1, id);
    }
  }

  lemma {:induction false} SettledAfter(run: Runner, nodes: seq<Node>, i: nat, k: nat)
    requires Topological(nodes) && i < k <= |nodes|
    ensures SameAt(InOrder(run, nodes, i + 1), InOrder(run, nodes, k), nodes[i].id)
    ensures nodes[i].id in InOrder(run, nodes, k).outcomes
  {
    forall j | i + 1 <= j < k ensures nodes[j].id != nodes[i].id {
      assert Placed(nodes, j);
    }
    LaterSame(run, nodes, i + 1, k, nodes[i].id);
  }

  /** The state records an effect of a node. */
  ghost predicate Records(s: State, id: NodeId, e: Effect) {
    match e
    case Skip => id in s.outcomes && s.outcomes[id] == Skipped() && id !in s.streams
    case Ran(o, b) => id in s.outcomes && s.outcomes[id] == o && id in s.streams && s.streams[id] == b
  }

  /** Every node's final record is its effect on the final state. */
  lemma {:induction false} FinalEquation(run: Runner, nodes: seq<Node>, i: nat)
    requires Topological(nodes) && i < |nodes|
    ensures var end := InOrder(run, nodes, |nodes|); Records(end, nodes[i].id, EffectOf(run, nodes[i], end))
  {
    var node, before, end := nodes[i], InOrder(run, nodes, i), InOrder(run, nodes, |nodes|);
    assert Placed(nodes, i);
    forall d | d in node.dependencies ensures SameAt(before, end, d) {
      var j :| 0 <= j < i && nodes[j].id == d;
      SettledAfter(run, nodes, j, i);
      SettledAfter(run, nodes, j, |nodes|);
    }
    EffectLocal(run, node, before, end);
    NeverStreamed(run, nodes, i);
    SettledAfter(run, nodes, i, |nodes|);
  }

  lemma {:induction false} NeverStreamed(run: Runner, nodes: seq<Node>, i: nat)
    requires Topological(nodes) && i < |nodes|
    ensures nodes[i].id !in InOrder(run, nodes, i).streams && nodes[i].id !in InOrder(run, nodes, i).outcomes
  {
    assert Placed(nodes, i);
    LaterSame(run, nodes, 0, i, nodes[i].id);
  }

  lemma {:induction false} OnlyNodes(run: Runner, nodes: seq<Node>, k: nat, id: NodeId)
    requires k <= |nodes| && forall i :: 0 <= i < k ==> nodes[i].id != id
    ensures id !in InOrder(run, nodes, k).outcomes && id !in InOrder(run, nodes, k).streams
  {
    LaterSame(run, nodes, 0, k, id);
  }

  // ----- Batches -----

  /** The state has exactly the final records of the nodes in `done`. */
  ghost predicate Agrees(s: State, end: State, done: set<NodeId>) {
    forall id {:trigger SameAt(s, end, id)} {:trigger id in done} ::
      if id in done then SameAt(s, end, id) else id !in s.outcomes && id !in s.streams
  }

  /** `t` adds to `s` the effects of a batch, each computed from `s`. */
  ghost predicate BatchRun(run: Runner, s: State, t: State, batch: seq<Node>) {
    && (forall k {:trigger batch[k]} :: 0 <= k < |batch| ==> Records(t, batch[k].id, EffectOf(run, batch[k], s)))
    && forall id {:trigger SameAt(s, t, id)} :: (forall k :: 0 <= k < |batch| ==> batch[k].id != id) ==> SameAt(s, t, id)
  }

  function Ids(nodes: seq<Node>): (ids: set<NodeId>)
    ensures forall i :: 0 <= i < |nodes| ==> nodes[i].id in ids
    ensures forall id :: id in ids ==> exists i :: 0 <= i < |nodes| && nodes[i].id == id
  {
    set i | 0 <= i < |nodes| :: nodes[i].id
  }

  /** Nodes of the program that are not done but whose dependencies are. */
  ghost predicate BatchReady(nodes: seq<Node>, batch: seq<Node>, done: set<NodeId>) {
    forall k {:trigger batch[k]} :: 0 <= k < |batch| ==>
      && batch[k] in nodes && batch[k].id !in done && (forall d :: d in batch[k].dependencies ==> d in done)
  }

  lemma {:induction false} BatchAgreesAt(run: Runner, nodes: seq<Node>, s: State, t: State, done: set<NodeId>, batch: seq<Node>, id: NodeId)
    requires Topological(nodes) && Agrees(s, InOrder(run, nodes, |nodes|), done)
    requires BatchReady(nodes, batch, done) && BatchRun(run, s, t, batch)
    ensures var end := InOrder(run, nodes, |nodes|);
            if id in done + Ids(batch) then SameAt(t, end, id) else id !in t.outcomes && id !in t.streams
  {
    var end := InOrder(run, nodes, |nodes|);
    if id in Ids(batch) {
      var k :| 0 <= k < |batch| && batch[k].id == id;
      var i :| 0 <= i < |nodes| && nodes[i] == batch[k];
      EffectLocal(run, batch[k], s, end);
      FinalEquation(run, nodes, i);
    } else {
      assert SameAt(s, t, id);
      assert id in done ==> SameAt(s, end, id);
    }
  }

  /** Running a ready batch keeps agreement with the final state. */
  lemma {:induction false} BatchAgrees(run: Runner, nodes: seq<Node>, s: State, t: State, done: set<NodeId>, batch: seq<Node>)
    requires Topological(nodes) && Agrees(s, InOrder(run, nodes, |nodes|), done)
    requires BatchReady(nodes, batch, done) && BatchRun(run, s, t, batch)
    ensures Agrees(t, InOrder(run, nodes, |nodes|), done + Ids(batch))
  {
    var end := InOrder(run, nodes, |nodes|);
    forall id ensures if id in done + Ids(batch) then SameAt(t, end, id) else id !in t.outcomes && id !in t.streams {
      BatchAgreesAt(run, nodes, s, t, done, batch, id);
    }
  }

  lemma {:induction false} AgreesFinally(run: Runner, nodes: seq<Node>, s: State)
    requires Topological(nodes) && Agrees(s, InOrder(run, nodes, |nodes|), Ids(nodes))
    ensures s == InOrder(run, nodes, |nodes|)
  {
    var end := InOrder(run, nodes, |nodes|);
    forall id ensures SameAt(s, end, id) {
      if id !in Ids(nodes) {
        OnlyNodes(run, nodes, |nodes|, id);
      }
    }
    assert s.outcomes.Keys == end.outcomes.Keys by { forall id ensures id in s.outcomes <==> id in end.outcomes { assert SameAt(s, end, id); } }
    assert s.streams.Keys == end.streams.Keys by { forall id ensures id in s.streams <==> id in end.streams { assert SameAt(s, end, id); } }
    assert s.outcomes == end.outcomes by { forall id | id in s.outcomes ensures s.outcomes[id] == end.outcomes[id] { assert SameAt(s, end, id); } }
    assert s.streams == end.streams by { forall id | id in s.streams ensures s.streams[id] == end.streams[id] { assert SameAt(s, end, id); } }
  }

  ghost predicate DistinctNodes(batch: seq<Node>) {
    forall i, j :: 0 <= i < j < |batch| ==> batch[i].id != batch[j].id
  }

  /** Skips the blocked nodes and runs the rest; fails exactly when a stream node has no dependency to read. */
  method RunBatch(run: Runner, s: State, batch: seq<Node>) returns (r: Option<State>)
    requires DistinctNodes(batch) && forall k :: 0 <= k < |batch| ==> batch[k].id !in s.outcomes && batch[k].id !in s.streams
    ensures r.Some? <==> StreamsFed(batch)
    ensures r.Some? ==> BatchRun(run, s, r.value, batch)
  {
    var t, k := s, 0;
    while k < |batch|
      invariant 0 <= k <= |batch| && StreamsFed(batch[..k])
      invariant forall j {:trigger batch[j]} :: 0 <= j < k ==> Records(t, batch[j].id, EffectOf(run, batch[j], s))
      invariant forall id {:trigger SameAt(s, t, id)} :: (forall j :: 0 <= j < k ==> batch[j].id != id) ==> SameAt(s, t, id)
    {
      var node := batch[k];
      if !Fed(node) {
        return None;
      }
      assert SameAt(s, t, node.id);
      ghost var before := t;
      t := Applied(t, node.id, EffectOf(run, node, s));
      forall id | forall j :: 0 <= j < k + 1 ==> batch[j].id != id ensures SameAt(s, t, id) {
        assert batch[k].id != id;
        assert SameAt(s, before, id);
      }
      assert batch[..k + 1] == batch[..k] + [node];
      k := k + 1;
    }
    assert batch[..k] == batch;
    r := Some(t);
  }

  ghost predicate FedIn(nodes: seq<Node>, done: set<NodeId>) {
    forall i :: 0 <= i < |nodes| && nodes[i].id in done ==> Fed(nodes[i])
  }

  // ----- Source-order batches -----

  lemma {:induction false} RangeReady(nodes: seq<Node>, index: nat, end: nat)
    requires Topological(nodes) && index < end <= |nodes|
    requires end == index + 1 || forall q :: index <= q < end ==> nodes[q].dependencies == []
    ensures BatchReady(nodes, nodes[index..end], Ids(nodes[..index])) && DistinctNodes(nodes[index..end])
    ensures Ids(nodes[..index]) + Ids(nodes[index..end]) == Ids(nodes[..end])
  {
    var batch, done := nodes[index..end], Ids(nodes[..index]);
    forall k | 0 <= k < |batch| ensures batch[k] in nodes && batch[k].id !in done && (forall d :: d in batch[k].dependencies ==> d in done) {
      assert batch[k] == nodes[index + k] && Placed(nodes, index + k);
      forall d | d in batch[k].dependencies ensures d in done {
        var j :| 0 <= j < index + k && nodes[j].id == d;
        assert nodes[..index][j] == nodes[j];
      }
    }
    forall i, j | 0 <= i < j < |batch| ensures batch[i].id != batch[j].id {
      assert Placed(nodes, index + j);
    }
    assert nodes[..end] == nodes[..index] + batch;
  }

  lemma {:induction false} NotYetRun(run: Runner, nodes: seq<Node>, s: State, done: set<NodeId>, batch: seq<Node>)
    requires Agrees(s, InOrder(run, nodes, |nodes|), done) && BatchReady(nodes, batch, done)
    ensures forall k :: 0 <= k < |batch| ==> batch[k].id !in s.outcomes && batch[k].id !in s.streams
  {
    forall k | 0 <= k < |batch| ensures batch[k].id !in s.outcomes && batch[k].id !in s.streams {
      assert SameAt(s, InOrder(run, nodes, |nodes|), batch[k].id) || batch[k].id !in done;
    }
  }

  /** The source-order executor, running adjacent dependency-free nodes together. */
  method DirectExecute(run: Runner, nodes: seq<Node>) returns (r: Option<State>)
    requires Topological(nodes)
    ensures r.Some? <==> StreamsFed(nodes)
    ensures r.Some? ==> r.value == InOrder(run, nodes, |nodes|)
  {
    var s, index := State(map[], map[]), 0;
    while index < |nodes|
      invariant 0 <= index <= |nodes| && Agrees(s, InOrder(run, nodes, |nodes|), Ids(nodes[..index])) && StreamsFed(nodes[..index])
    {
      var cursor := index + 1;
      if nodes[index].dependencies == [] {
        while cursor < |nodes| && nodes[cursor].dependencies == []
          invariant index < cursor <= |nodes| && forall q :: index <= q < cursor ==> nodes[q].dependencies == []
        {
          cursor := cursor + 1;
        }
      }
      RangeReady(nodes, index, cursor);
      NotYetRun(run, nodes, s, Ids(nodes[..index]), nodes[index..cursor]);
      var next := RunBatch(run, s, nodes[index..cursor]);
      FedPrefix(nodes, index, cursor);
      if next.None? {
        return None;
      }
      BatchAgrees(run, nodes, s, next.value, Ids(nodes[..index]), nodes[index..cursor]);
      s, index := next.value, cursor;
    }
    assert nodes[..index] == nodes;
    AgreesFinally(run, nodes, s);
    r := Some(s);
  }

  lemma {:induction false} FedPrefix(nodes: seq<Node>, index: nat, end: nat)
    requires index <= end <= |nodes| && StreamsFed(nodes[..index])
    ensures StreamsFed(nodes[index..end]) ==> StreamsFed(nodes[..end])
    ensures !StreamsFed(nodes[index..end]) ==> !StreamsFed(nodes)
  {
    assert nodes[..end] == nodes[..index] + nodes[index..end];
    if !StreamsFed(nodes[index..end]) {
      var k :| 0 <= k < |nodes[index..end]| && !Fed(nodes[index..end][k]);
      assert nodes[index + k] == nodes[index..end][k];
    }
  }

  // ----- The ready set -----

  /** The first `k` nodes that are not in `done`, in source order. */
  function Remaining(nodes: seq<Node>, done: set<NodeId>, k: nat): seq<Node>
    requires k <= |nodes|
  {
    if k == 0 then [] else Remaining(nodes, done, k - 1) + if nodes[k - 1].id in done then [] else [nodes[k - 1]]
  }

  lemma {:induction false} RemainingMember(nodes: seq<Node>, done: set<NodeId>, k: nat, x: Node)
    requires k <= |nodes|
    ensures x in Remaining(nodes, done, k) <==> x.id !in done && exists i :: 0 <= i < k && nodes[i] == x
  {
    if k > 0 {
      RemainingMember(nodes, done, k - 1, x);
    }
  }

  /** The first node left waits only for nodes that are done, so some node is always ready. */
  lemma {:induction false} FirstIsReady(nodes: seq<Node>, done: set<NodeId>, k: nat)
    requires Topological(nodes) && k <= |nodes| && Remaining(nodes, done, k) != []
    ensures forall d :: d in Remaining(nodes, done, k)[0].dependencies ==> d in done
  {
    if Remaining(nodes, done, k - 1) != [] {
      FirstIsReady(nodes, done, k - 1);
    } else {
      assert Placed(nodes, k - 1);
      forall d | d in nodes[k - 1].dependencies ensures d in done {
        var j :| 0 <= j < k - 1 && nodes[j].id == d;
        RemainingMember(nodes, done, k - 1, nodes[j]);
      }
    }
  }

  function ReadyNodes(pending: seq<Node>, outcomes: map<NodeId, NodeOutcome>, k: nat): seq<Node>
    requires k <= |pending|
  {
    if k == 0 then []
    else
      var before, last := ReadyNodes(pending, outcomes, k - 1), pending[k - 1];
      if forall d :: d in last.dependencies ==> d in outcomes then before + [last] else before
  }

  lemma {:induction false} ReadyMember(pending: seq<Node>, outcomes: map<NodeId, NodeOutcome>, k: nat, x: Node)
    requires k <= |pending|
    ensures x in ReadyNodes(pending, outcomes, k) <==> (exists i :: 0 <= i < k && pending[i] == x) && forall d :: d in x.dependencies ==> d in outcomes
  {
    if k > 0 {
      ReadyMember(pending, outcomes, k - 1, x);
    }
  }

  lemma {:induction false} ReadyDistinct(pending: seq<Node>, outcomes: map<NodeId, NodeOutcome>, k: nat)
    requires k <= |pending| && DistinctNodes(pending)
    ensures DistinctNodes(ReadyNodes(pending, outcomes, k))
  {
    if k > 0 {
      ReadyDistinct(pending, outcomes, k - 1);
      var before := ReadyNodes(pending, outcomes, k - 1);
      forall i | 0 <= i < |before| ensures before[i].id != pending[k - 1].id {
        ReadyMember(pending, outcomes, k - 1, before[i]);
      }
    }
  }

  lemma {:induction false} RemainingDistinct(nodes: seq<Node>, done: set<NodeId>, k: nat)
    requires Topological(nodes) && k <= |nodes|
    ensures DistinctNodes(Remaining(nodes, done, k))
  {
    if k > 0 {
      RemainingDistinct(nodes, done, k - 1);
      assert Placed(nodes, k - 1);
      var before := Remaining(nodes, done, k - 1);
      forall i | 0 <= i < |before| ensures before[i].id != nodes[k - 1].id {
        RemainingMember(nodes, done, k - 1, before[i]);
      }
    }
  }

  lemma {:induction false} RemainingShrinks(nodes: seq<Node>, done: set<NodeId>, more: set<NodeId>, k: nat)
    requires k <= |nodes| && done <= more
    ensures |Remaining(nodes, more, k)| <= |Remaining(nodes, done, k)|
    ensures (exists i :: 0 <= i < k && nodes[i].id in more && nodes[i].id !in done) ==> |Remaining(nodes, more, k)| < |Remaining(nodes, done, k)|
  {
    if k > 0 {
      RemainingShrinks(nodes, done, more, k - 1);
    }
  }

  lemma {:induction false} RemainingAgain(nodes: seq<Node>, done: set<NodeId>, more: set<NodeId>, k: nat)
    requires k <= |nodes|
    ensures var left := Remaining(nodes, done, k); Remaining(left, more, |left|) == Remaining(nodes, done + more, k)
  {
    if k > 0 {
      RemainingAgain(nodes, done, more, k - 1);
      var before, left := Remaining(nodes, done, k - 1), Remaining(nodes, done, k);
      if nodes[k - 1].id in done {
        assert left == before;
      } else {
        assert left == before + [nodes[k - 1]];
        RemainingPrefix(before, left, more, |before|);
        assert Remaining(left, more, |left|) == Remaining(left, more, |before|) + if nodes[k - 1].id in more then [] else [nodes[k - 1]];
      }
    }
  }

  lemma {:induction false} RemainingPrefix(a: seq<Node>, b: seq<Node>, done: set<NodeId>, k: nat)
    requires k <= |a| && a <= b
    ensures Remaining(a, done, k) == Remaining(b, done, k)
  {
    if k > 0 {
      RemainingPrefix(a, b, done, k - 1);
    }
  }

  lemma {:induction false} ReadyBatch(run: Runner, nodes: seq<Node>, s: State, done: set<NodeId>)
    requires Topological(nodes) && done <= Ids(nodes) && Agrees(s, InOrder(run, nodes, |nodes|), done)
    ensures var pending := Remaining(nodes, done, |nodes|);
            var ready := ReadyNodes(pending, s.outcomes, |pending|);
            && BatchReady(nodes, ready, done) && DistinctNodes(ready) && (pending != [] ==> ready != [])
  {
    var pending := Remaining(nodes, done, |nodes|);
    var ready := ReadyNodes(pending, s.outcomes, |pending|);
    forall k | 0 <= k < |ready| ensures ready[k] in nodes && ready[k].id !in done && (forall d :: d in ready[k].dependencies ==> d in done) {
      ReadyMember(pending, s.outcomes, |pending|, ready[k]);
      assert ready[k] in pending;
      RemainingMember(nodes, done, |nodes|, ready[k]);
      forall d | d in ready[k].dependencies ensures d in done {
        assert SameAt(s, InOrder(run, nodes, |nodes|), d) || d !in done;
      }
    }
    RemainingDistinct(nodes, done, |nodes|);
    ReadyDistinct(pending, s.outcomes, |pending|);
    if pending != [] {
      FirstIsReady(nodes, done, |nodes|);
      ReadyMember(pending, s.outcomes, |pending|, pending[0]);
      forall d | d in pending[0].dependencies ensures d in s.outcomes {
        DoneRecorded(run, nodes, s, done, d);
      }
    }
  }

  lemma {:induction false} DoneRecorded(run: Runner, nodes: seq<Node>, s: State, done: set<NodeId>, d: NodeId)
    requires Topological(nodes) && done <= Ids(nodes) && Agrees(s, InOrder(run, nodes, |nodes|), done) && d in done
    ensures d in s.outcomes
  {
    var i :| 0 <= i < |nodes| && nodes[i].id == d;
    SettledAfter(run, nodes, i, |nodes|);
    assert SameAt(s, InOrder(run, nodes, |nodes|), d);
  }

  lemma {:induction false} DoneGrows(nodes: seq<Node>, done: set<NodeId>, ready: seq<Node>)
    requires done <= Ids(nodes) && BatchReady(nodes, ready, done) && ready != []
    ensures done + Ids(ready) <= Ids(nodes)
    ensures |Remaining(nodes, done + Ids(ready), |nodes|)| < |Remaining(nodes, done, |nodes|)|
  {
    forall id | id in Ids(ready) ensures id in Ids(nodes) {
      var k :| 0 <= k < |ready| && ready[k].id == id;
      assert ready[k] in nodes;
    }
    assert ready[0] in nodes && ready[0].id in Ids(ready);
    RemainingShrinks(nodes, done, done + Ids(ready), |nodes|);
  }

  lemma {:induction false} FedGrows(nodes: seq<Node>, done: set<NodeId>, ready: seq<Node>)
    requires Topological(nodes) && FedIn(nodes, done) && BatchReady(nodes, ready, done)
    ensures StreamsFed(ready) ==> FedIn(nodes, done + Ids(ready))
    ensures !StreamsFed(ready) ==> !StreamsFed(nodes)
  {
    if StreamsFed(ready) {
      forall i | 0 <= i < |nodes| && nodes[i].id in Ids(ready) ensures Fed(nodes[i]) {
        var k :| 0 <= k < |ready| && ready[k].id == nodes[i].id;
        var j :| 0 <= j < |nodes| && nodes[j] == ready[k];
        assert Placed(nodes, i) && Placed(nodes, j);
        assert i == j;
      }
    } else {
      var k :| 0 <= k < |ready| && !Fed(ready[k]);
      assert ready[k] in nodes;
    }
  }

  /** The ready-set executor.  It always makes progress, and its records are those of source order. */
  method GraphExecute(run: Runner, nodes: seq<Node>) returns (r: Option<State>)
    requires Topological(nodes)
    ensures r.Some? <==> StreamsFed(nodes)
    ensures r.Some? ==> r.value == InOrder(run, nodes, |nodes|)
  {
    var s, pending := State(map[], map[]), nodes;
    ghost var done: set<NodeId> := {};
    RemainingAll(nodes, |nodes|);
    while pending != []
      invariant pending == Remaining(nodes, done, |nodes|) && done <= Ids(nodes)
      invariant Agrees(s, InOrder(run, nodes, |nodes|), done) && FedIn(nodes, done)
      decreases |pending|
    {
      ReadyBatch(run, nodes, s, done);
      var ready := ReadyNodes(pending, s.outcomes, |pending|);
      if ready == [] {
        assert false;
        return None;
      }
      NotYetRun(run, nodes, s, done, ready);
      var next := RunBatch(run, s, ready);
      FedGrows(nodes, done, ready);
      if next.None? {
        return None;
      }
      BatchAgrees(run, nodes, s, next.value, done, ready);
      DoneGrows(nodes, done, ready);
      RemainingAgain(nodes, done, Ids(ready), |nodes|);
      s, pending := next.value, Remaining(pending, Ids(ready), |pending|);
      done := done + Ids(ready);
    }
    NoneLeft(nodes, done);
    AgreesFinally(run, nodes, s);
    r := Some(s);
  }

  lemma {:induction false} RemainingAll(nodes: seq<Node>, k: nat)
    requires k <= |nodes|
    ensures Remaining(nodes, {}, k) == nodes[..k]
  {
    if k > 0 {
      RemainingAll(nodes, k - 1);
      assert nodes[..k] == nodes[..k - 1] + [nodes[k - 1]];
    }
  }

  lemma {:induction false} NoneLeft(nodes: seq<Node>, done: set<NodeId>)
    requires Remaining(nodes, done, |nodes|) == [] && done <= Ids(nodes)
    ensures done == Ids(nodes)
  {
    forall id | id in Ids(nodes) ensures id in done {
      var i :| 0 <= i < |nodes| && nodes[i].id == id;
      RemainingMember(nodes, done, |nodes|, nodes[i]);
    }
  }

  /** Both executors give the same outcomes and streams on every valid program: those of source order. */
  method ExecutorsAgree(run: Runner, nodes: seq<Node>) returns (direct: Option<State>, graph: Option<State>)
    requires Topological(nodes)
    ensures direct == graph
    ensures direct == if StreamsFed(nodes) then Some(InOrder(run, nodes, |nodes|)) else None
  {
    direct := DirectExecute(run, nodes);
    graph := GraphExecute(run, nodes);
  }

  // ----- Dependency construction -----

  datatype Operator = Pipe | AndThen | Then | FanOut

  /** A parsed command and the operator before it; the first has none. */
  datatype Command = Command(operator: Option<Operator>, name: string)

  datatype EdgeKind = StreamEdge | SuccessEdge | SequenceEdge

  datatype Edge = Edge(source: NodeId, target: NodeId, kind: EdgeKind)

  function KindOf(mode: Mode): EdgeKind {
    match mode case Stream => StreamEdge case OnSuccess => SuccessEdge case Always => SequenceEdge
  }

  function EdgesInto(node: Node): (e: seq<Edge>)
    ensures |e| == |node.dependencies| && forall i :: 0 <= i < |e| ==> e[i] == Edge(node.dependencies[i], node.id, KindOf(node.mode))
  {
    seq(|node.dependencies|, i requires 0 <= i < |node.dependencies| => Edge(node.dependencies[i], node.id, KindOf(node.mode)))
  }

  /** The edges of a program, node by node. */
  function EdgesOf(nodes: seq<Node>, k: nat): seq<Edge>
    requires k <= |nodes|
  {
    if k == 0 then [] else EdgesOf(nodes, k - 1) + EdgesInto(nodes[k - 1])
  }

  lemma {:induction false} EdgesPrefix(a: seq<Node>, b: seq<Node>, k: nat)
    requires k <= |a| && a <= b
    ensures EdgesOf(a, k) == EdgesOf(b, k)
  {
    if k > 0 {
      EdgesPrefix(a, b, k - 1);
    }
  }

  ghost predicate FirstAlone(commands: seq<Command>) {
    forall i :: 0 <= i < |commands| ==> (commands[i].operator.None? <==> i == 0)
  }

  ghost predicate Known(nodes: seq<Node>, ids: seq<NodeId>) {
    forall d :: d in ids ==> exists j :: 0 <= j < |nodes| && nodes[j].id == d
  }

  lemma {:induction false} TopologicalAppend(nodes: seq<Node>, node: Node)
    requires Topological(nodes) && Known(nodes, node.dependencies) && forall j :: 0 <= j < |nodes| ==> nodes[j].id != node.id
    ensures Topological(nodes + [node])
  {
    var all := nodes + [node];
    forall i | 0 <= i < |all| ensures Placed(all, i) {
      if i < |nodes| {
        assert Placed(nodes, i);
        forall d | d in all[i].dependencies ensures exists j :: 0 <= j < i && all[j].id == d {
          var j :| 0 <= j < i && nodes[j].id == d;
          assert all[j].id == d;
        }
      } else {
        forall d | d in node.dependencies ensures exists j :: 0 <= j < i && all[j].id == d {
          var j :| 0 <= j < |nodes| && nodes[j].id == d;
          assert all[j].id == d;
        }
      }
    }
  }

  /** The start of the fan-out group that ends before command `k`: the last command not joined by fan-out. */
  function GroupStart(commands: seq<Command>, k: nat): (g: nat)
    requires 0 < k <= |commands|
    ensures g < k && (g == 0 || commands[g].operator != Some(FanOut)) && forall i :: g < i < k ==> commands[i].operator == Some(FanOut)
  {
    if k == 1 || commands[k - 1].operator != Some(FanOut) then k - 1 else GroupStart(commands, k - 1)
  }

  function IdAt(commands: seq<Command>, i: nat): NodeId
    requires i < |commands|
  {
    NodeId(i + 1, commands[i].name)
  }

  function IdRange(commands: seq<Command>, from: nat, end: nat): (ids: seq<NodeId>)
    requires from <= end <= |commands|
    ensures |ids| == end - from && forall i :: 0 <= i < |ids| ==> ids[i] == IdAt(commands, from + i)
  {
    seq(end - from, i requires 0 <= i < end - from => IdAt(commands, from + i))
  }

  /** A piped command streams from the one before it, a sequenced one waits for the whole group, a fanned-out one for nothing. */
  ghost predicate DependsRight(commands: seq<Command>, node: Node, i: nat)
    requires i < |commands| && FirstAlone(commands)
  {
    match commands[i].operator
    case None => node.dependencies == [] && node.mode == Always
    case Some(op) =>
      match op
      case Pipe => node.mode == Stream && node.dependencies == [IdAt(commands, i - 1)]
      case AndThen => node.mode == OnSuccess && node.dependencies == IdRange(commands, GroupStart(commands, i), i)
      case Then => node.mode == Always && node.dependencies == IdRange(commands, GroupStart(commands, i), i)
      case FanOut => node.mode == Always && node.dependencies == []
  }

  lemma {:induction false} GroupGrows(commands: seq<Command>, i: nat)
    requires i < |commands| && FirstAlone(commands)
    ensures IdRange(commands, GroupStart(commands, i + 1), i + 1)
            == if commands[i].operator == Some(FanOut) then IdRange(commands, GroupStart(commands, i), i) + [IdAt(commands, i)] else [IdAt(commands, i)]
  {
  }

  /** The node of command `i`, and the identities the next command may wait for. */
  method EmitNode(commands: seq<Command>, i: nat, previous: seq<NodeId>) returns (node: Node, next: seq<NodeId>)
    requires i < |commands| && FirstAlone(commands) && (if i == 0 then previous == [] else previous == IdRange(commands, GroupStart(commands, i), i))
    ensures node.id == IdAt(commands, i) && DependsRight(commands, node, i) && Fed(node) && forall d :: d in node.dependencies ==> d in previous
    ensures next == IdRange(commands, GroupStart(commands, i + 1), i + 1) && (next == [node.id] || next == previous + [node.id])
  {
    var id, mode, dependencies := NodeId(i + 1, commands[i].name), Always, [];
    if commands[i].operator == Some(Pipe) {
      mode, dependencies := Stream, [previous[|previous| - 1]];
    } else if commands[i].operator == Some(AndThen) {
      mode, dependencies := OnSuccess, previous;
    } else if commands[i].operator == Some(Then) {
      mode, dependencies := Always, previous;
    }
    node := Node(id, commands[i].name, dependencies, mode);
    next := if commands[i].operator == Some(FanOut) then previous + [id] else [id];
    GroupGrows(commands, i);
  }

  /** Compiled programs are topological, feed every stream, and have one edge for each dependency. */
  method CompileNodes(commands: seq<Command>) returns (nodes: seq<Node>, edges: seq<Edge>)
    requires FirstAlone(commands)
    ensures |nodes| == |commands| && Topological(nodes) && StreamsFed(nodes) && edges == EdgesOf(nodes, |nodes|)
    ensures forall i {:trigger NodeRight(commands, nodes, i)} :: 0 <= i < |nodes| ==> NodeRight(commands, nodes, i)
  {
    nodes, edges := [], [];
    var previous: seq<NodeId> := [];
    while |nodes| < |commands|
      invariant |nodes| <= |commands| && Built(commands, nodes, edges, previous)
      decreases |commands| - |nodes|
    {
      var node, next := EmitNode(commands, |nodes|, previous);
      BuiltStep(commands, nodes, edges, previous, node, next);
      nodes, edges, previous := nodes + [node], edges + EdgesInto(node), next;
    }
  }

  ghost predicate NodeRight(commands: seq<Command>, nodes: seq<Node>, k: nat)
    requires FirstAlone(commands) && k < |nodes| <= |commands|
  {
    nodes[k].id == IdAt(commands, k) && DependsRight(commands, nodes[k], k)
  }

  /** The compiler's state after its first nodes. */
  ghost predicate Built(commands: seq<Command>, nodes: seq<Node>, edges: seq<Edge>, previous: seq<NodeId>)
    requires FirstAlone(commands) && |nodes| <= |commands|
  {
    && Topological(nodes) && StreamsFed(nodes) && edges == EdgesOf(nodes, |nodes|) && Known(nodes, previous)
    && (forall k {:trigger NodeRight(commands, nodes, k)} :: 0 <= k < |nodes| ==> NodeRight(commands, nodes, k))
    && if nodes == [] then previous == [] else previous == IdRange(commands, GroupStart(commands, |nodes|), |nodes|)
  }

  lemma {:induction false} BuiltStep(commands: seq<Command>, nodes: seq<Node>, edges: seq<Edge>, previous: seq<NodeId>, node: Node, next: seq<NodeId>)
    requires FirstAlone(commands) && |nodes| < |commands| && Built(commands, nodes, edges, previous)
    requires node.id == IdAt(commands, |nodes|) && DependsRight(commands, node, |nodes|) && Fed(node) && forall d :: d in node.dependencies ==> d in previous
    requires next == IdRange(commands, GroupStart(commands, |nodes| + 1), |nodes| + 1) && (next == [node.id] || next == previous + [node.id])
    ensures Built(commands, nodes + [node], edges + EdgesInto(node), next)
  {
    var all := nodes + [node];
    assert Topological(all) by {
      forall j | 0 <= j < |nodes| ensures nodes[j].id != node.id { assert NodeRight(commands, nodes, j); }
      TopologicalAppend(nodes, node);
    }
    assert Known(all, next) by { KnownAppend(nodes, node, previous, next); }
    assert edges + EdgesInto(node) == EdgesOf(all, |all|) by { EdgesPrefix(nodes, all, |nodes|); }
    forall k | 0 <= k < |all| ensures NodeRight(commands, all, k) {
      assert k < |nodes| ==> NodeRight(commands, nodes, k);
    }
  }

  lemma {:induction false} KnownAppend(nodes: seq<Node>, node: Node, previous: seq<NodeId>, next: seq<NodeId>)
    requires Known(nodes, previous) && (next == [node.id] || next == previous + [node.id])
    ensures Known(nodes + [node], next)
  {
    var all := nodes + [node];
    forall d | d in next ensures exists j :: 0 <= j < |all| && all[j].id == d {
      if d == node.id {
        assert all[|nodes|].id == d;
      } else {
        var j :| 0 <= j < |nodes| && nodes[j].id == d;
        assert all[j].id == d;
      }
    }
  }
}

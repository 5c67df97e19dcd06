/** The stateful run of a DAG session, and the receipts its verifier accepts. */
module FoldReceipt {
  import opened Base
  import opened ObjectSlots
  import opened FoldPlan
  import opened FoldDag
  import opened FoldRun

  datatype Resolved = Resolved(inputs: (seq<int>, seq<int>), readSlots: set<nat>, writeSlots: set<nat>)

  datatype Designated = Designated(index: nat, name: string, available: bool, words: seq<int>, versions: seq<nat>)

  function DesignatedIn(s: Session, plan: Plan, store: Store): Designated
    requires plan.output < |plan.slots|
  {
    if AvailableIn(plan, store, plan.output)
    then Designated(plan.output, s.output, true, store.producers[plan.output].words, VersionsAt(store.versions, plan.slots[plan.output]))
    else Designated(plan.output, s.output, false, [], [])
  }

  ghost predicate PlacedJob(plan: Plan, i: nat)
    requires i < |plan.slots|
  {
    Distinct(plan.slots[i]) && forall x :: x in plan.slots[i] ==> x < SLOTS
  }

  /** What the state needs of its plan. */
  ghost predicate Placed(s: Session, plan: Plan) {
    && |s.jobs| == |plan.slots| && plan.output < |plan.slots|
    && forall i {:trigger PlacedJob(plan, i)} :: 0 <= i < |plan.slots| ==> PlacedJob(plan, i)
  }

  lemma {:induction false} PlannedIsPlaced(s: Session, plan: Plan)
    requires Planned(s, plan)
    ensures Placed(s, plan)
  {
    PlanShape(s, plan);
    forall i | 0 <= i < |plan.slots| ensures PlacedJob(plan, i) {
      HeldSlots(s, plan, i);
    }
  }

  /** Versions after the first `j` slots are bumped. */
  function BumpedTo(versions: seq<nat>, slots: seq<nat>, j: nat): (v: seq<nat>)
    requires j <= |slots|
  {
    Bumped(versions, slots[..j])
  }

  /** Banks after the first `j` slots are rewritten. */
  function WrittenTo(banks: seq<seq<int>>, slots: seq<nat>, words: seq<int>, j: nat): (b: seq<seq<int>>)
    requires j <= |slots|
  {
    seq(|banks|, x requires 0 <= x < |banks| => if x in slots[..j] then Chunk(words, |slots|, Position(slots, x)) else banks[x])
  }

  lemma {:induction false} SlotWritten(versions: seq<nat>, banks: seq<seq<int>>, slots: seq<nat>, words: seq<int>, j: nat)
    requires |versions| == |banks| == SLOTS && Distinct(slots) && j < |slots| && slots[j] < SLOTS
    ensures BumpedTo(versions, slots, j + 1) == BumpedTo(versions, slots, j)[slots[j] := BumpedTo(versions, slots, j)[slots[j]] + 1]
    ensures WrittenTo(banks, slots, words, j + 1) == WrittenTo(banks, slots, words, j)[slots[j] := Chunk(words, |slots|, j)]
  {
    PositionAt(slots, j);
    assert slots[..j + 1] == slots[..j] + [slots[j]];
    assert slots[j] !in slots[..j];
  }

  class State {
    const session: Session
    const plan: Plan
    var versions: seq<nat>
    var banks: seq<seq<int>>
    var producers: map<nat, Saved>

    function Model(): Store
      reads this
    {
      Store(versions, banks, producers)
    }

    ghost predicate Valid()
      reads this
    {
      |versions| == |banks| == SLOTS && Placed(session, plan)
    }

    constructor (s: Session, p: Plan)
      requires Planned(s, p)
      ensures Valid() && Model() == Empty() && session == s && plan == p
    {
      PlannedIsPlaced(s, p);
      session, plan := s, p;
      versions, banks, producers := seq(SLOTS, _ => 1), seq(SLOTS, _ => seq(BANK_WORDS, _ => 0)), map[];
    }

    predicate Available(i: nat)
      reads this
    {
      AvailableIn(plan, Model(), i)
    }

    function BadSource(i: nat): Option<nat>
      reads this
    {
      BadSourceIn(plan, Model(), i)
    }

    /** The job's inputs and slot masks, or nothing when a source is unavailable. */
    method Resolve(i: nat) returns (r: Option<Resolved>)
      requires Valid() && i < |session.jobs|
      ensures r.None? <==> BadSourceIn(plan, Model(), i).Some?
      ensures r.Some? ==> r.value == Resolved((ResolvedInput(session, plan, Model(), i, 0), ResolvedInput(session, plan, Model(), i, 1)),
                                              ReadSlots(plan, i), Elements(plan.slots[i]))
    {
      if BadSource(i).Some? {
        return None;
      }
      var inputs: seq<seq<int>> := [];
      var b := 0;
      while b < 2
        invariant 0 <= b <= 2 && |inputs| == b
        invariant forall k :: 0 <= k < b ==> inputs[k] == ResolvedInput(session, plan, Model(), i, k)
      {
        var operand, source := InputAt(session.jobs[i], b), Source(session, i, b);
        var words := LiteralOf(operand);
        if source.Some? {
          words := if source.value in producers
                   then Slice(producers[source.value].words, Start(session, i, b), OperandLength(session.jobs[i].region, b)) else [];
        }
        inputs := inputs + [words];
        b := b + 1;
      }
      r := Some(Resolved((inputs[0], inputs[1]), ReadSlots(plan, i), Elements(plan.slots[i])));
    }

    method WriteSlots(slots: seq<nat>, expected: seq<int>)
      requires |versions| == |banks| == SLOTS && Distinct(slots) && forall x :: x in slots ==> x < SLOTS
      modifies this`versions, this`banks
      ensures versions == Bumped(old(versions), slots) && banks == Written(old(banks), slots, expected)
    {
      var j := 0;
      while j < |slots|
        invariant 0 <= j <= |slots| && |versions| == |banks| == SLOTS
        invariant versions == BumpedTo(old(versions), slots, j) && banks == WrittenTo(old(banks), slots, expected, j)
      {
        var slot := slots[j];
        assert slot in slots;
        SlotWritten(old(versions), old(banks), slots, expected, j);
        versions := versions[slot := versions[slot] + 1];
        banks := banks[slot := Padded(expected, |slots|)[BANK_WORDS * j..BANK_WORDS * (j + 1)]];
        j := j + 1;
      }
      assert slots[..j] == slots;
    }

    /** Refuses a destination other than the planned slots; on success bumps and rewrites exactly those slots. */
    method Commit(i: nat, destination: set<nat>, expected: seq<int>, success: bool) returns (ok: bool)
      requires Valid() && i < |session.jobs|
      modifies this
      ensures Valid()
      ensures ok <==> destination == Elements(plan.slots[i])
      ensures Model() == if ok && success then CommittedTo(plan, old(Model()), i, expected) else old(Model())
    {
      assert PlacedJob(plan, i);
      var slots := plan.slots[i];
      if destination != Elements(slots) {
        return false;
      }
      ok := true;
      if success {
        WriteSlots(slots, expected);
        producers := producers[i := Saved(VersionsAt(versions, slots), expected)];
      }
    }

    /** The designated output with its current versions, or nothing when it is not available. */
    method Final() returns (d: Designated)
      requires Valid()
      ensures d == DesignatedIn(session, plan, Model())
    {
      if Available(plan.output) {
        d := Designated(plan.output, session.output, true, producers[plan.output].words, VersionsAt(versions, plan.slots[plan.output]));
      } else {
        d := Designated(plan.output, session.output, false, [], []);
      }
    }
  }

  // ----- Receipts -----

  datatype Row = Row(index: int, name: string, approved: bool, status: int, writes: set<nat>, readSlots: set<nat>, output: seq<int>)

  datatype Receipt = Receipt(processed: int, planned: int, halted: int, versions: seq<nat>, output: Designated, jobs: seq<Row>)

  /** A frame the injection breaks ends the run. */
  /** Plans a session and starts its run, exactly when it can be planned. */
  method Begin(s: Session) returns (state: State?)
    ensures state != null <==> Plannable(s)
    ensures state != null ==> fresh(state) && state.Valid() && state.Model() == Empty() && state.session == s && Planned(s, state.plan)
  {
    var plan := CompilePlan(s);
    state := null;
    if plan.Some? {
      state := new State(s, plan.value);
    }
  }

  predicate BreaksFrame(injection: string) {
    injection == "invalid-char" || injection == "no-response" || injection == "truncated"
  }

  predicate Succeeds(injection: string) {
    injection == "none"
  }

  function RowFor(s: Session, plan: Plan, store: Store, i: nat, success: bool): Row
    requires i < |s.jobs| && i < |plan.slots|
  {
    var words := Compute(s.jobs[i].region, (ResolvedInput(s, plan, store, i, 0), ResolvedInput(s, plan, store, i, 1)));
    Row(i, s.jobs[i].name, success, if success then 1 else 4, Elements(plan.slots[i]), ReadSlots(plan, i), if success then words else [])
  }

  datatype Progress = Progress(store: Store, rows: seq<Row>, halted: int)

  /** One step: halted machines stay, a blocked job halts (3), a broken frame halts after its job (1). */
  function StepOf(s: Session, plan: Plan, p: Progress, i: nat, injection: string): Progress
    requires i < |s.jobs| == |plan.slots|
  {
    if p.halted != 0 then p
    else if BadSourceIn(plan, p.store, i).Some? then p.(halted := 3)
    else Progress(Advance(s, plan, p.store, i, Succeeds(injection)), p.rows + [RowFor(s, plan, p.store, i, Succeeds(injection))],
                  if BreaksFrame(injection) then 1 else 0)
  }

  type Stepper = (Progress, nat) -> Progress

  function Ran(f: Stepper, i: nat): Progress {
    if i == 0 then Progress(Empty(), [], 0) else f(Ran(f, i - 1), i - 1)
  }

  function JobStep(s: Session, plan: Plan, injections: seq<string>): Stepper
    requires |s.jobs| == |plan.slots| == |injections|
  {
    (p: Progress, i: nat) => if i < |s.jobs| then StepOf(s, plan, p, i, injections[i]) else p
  }

  /** The state machine over at most the first `i` jobs. */
  function Stepped(s: Session, plan: Plan, injections: seq<string>, i: nat): Progress
    requires i <= |s.jobs| == |plan.slots| == |injections|
  {
    Ran(JobStep(s, plan, injections), i)
  }

  function ReceiptOf(s: Session, plan: Plan, p: Progress): Receipt
    requires plan.output < |plan.slots|
  {
    Receipt(|p.rows|, |s.jobs|, p.halted, p.store.versions, DesignatedIn(s, plan, p.store), p.rows)
  }
}

/** Finishing a plan (last uses, releases, budgets), executing it, and the direct interpreter of a program. */
module ArrayRun {
  import opened Base
  import opened Tables
  import opened ArrayProgram
  import opened ArrayPasses
  import opened ArrayPlan

  const MAX_NODES := 128
  const MAX_PASSES := 128
  const MAX_SESSIONS := 128
  const MAX_WORK := 32768
  const MAX_PLANES := 65536

  datatype Output = Output(name: string, producer: nat)

  datatype Plan = Plan(order: seq<string>, passes: seq<Pass>, release: seq<set<nat>>, outputs: seq<Output>,
                       sessions: int, work: int, peak: int)

  function Producers(outputs: seq<Output>): set<nat> {
    set i | 0 <= i < |outputs| :: outputs[i].producer
  }

  ghost predicate OutputRight(p: Program, plan: Plan, i: nat)
    requires i < |p.outputs| == |plan.outputs|
  {
    var o, stages := plan.outputs[i], StagePlanes(p, plan.order, |plan.order|);
    && o.name == p.outputs[i] && o.producer < |plan.passes| && o.name in stages
    && Made(p, plan.passes, |plan.passes|)[o.producer] == stages[o.name]
  }

  /** A plan whose outputs mean what the source means and whose releases are its last uses. */
  ghost predicate PlanRight(p: Program, plan: Plan) {
    && InOrder(plan.passes) && |plan.release| == |plan.passes| && |plan.outputs| == |p.outputs|
    && (forall i :: 0 <= i < |plan.passes| ==> plan.release[i] == Released(plan.passes, Producers(plan.outputs), i))
    && forall i {:trigger OutputRight(p, plan, i)} :: 0 <= i < |p.outputs| ==> OutputRight(p, plan, i)
  }

  // ----- Execution -----

  /** Runs the passes in order with release; publishes exactly what the source means and holds nothing else. */
  method Execute(p: Program, plan: Plan) returns (published: seq<Published>, held: Memory)
    requires PlanRight(p, plan)
    ensures published == Meaning(p, plan.order)
    ensures held.Keys == Producers(plan.outputs)
  {
    held := RunPasses(p, plan.passes, Producers(plan.outputs), plan.release);
    assert forall n :: n in held ==> n < |plan.passes| && held[n] == Made(p, plan.passes, |plan.passes|)[n] by {
      KeptInRange(p, plan);
      EndsWithKept(p, plan.passes, Producers(plan.outputs));
    }
    assert held.Keys == Producers(plan.outputs) by {
      KeptInRange(p, plan);
      EndsWithKept(p, plan.passes, Producers(plan.outputs));
    }
    published := Publish(p, plan, held);
  }

  /** Every pass finds what it reads; the planes held at the end are those of the run. */
  method RunPasses(p: Program, passes: seq<Pass>, ghost kept: set<nat>, release: seq<set<nat>>) returns (held: Memory)
    requires InOrder(passes) && |release| == |passes| && forall i :: 0 <= i < |passes| ==> release[i] == Released(passes, kept, i)
    ensures held == Held(p, passes, kept, |passes|)
  {
    held := map[];
    var i := 0;
    while i < |passes|
      invariant 0 <= i <= |passes| && held == Held(p, passes, kept, i)
    {
      held := CommitPass(p, passes, kept, held, i, release[i]);
      i := i + 1;
    }
  }

  /** One pass, which finds every plane it reads, and its commit. */
  method CommitPass(p: Program, passes: seq<Pass>, ghost kept: set<nat>, held: Memory, i: nat, release: set<nat>) returns (next: Memory)
    requires InOrder(passes) && i < |passes| && release == Released(passes, kept, i) && held == Held(p, passes, kept, i)
    ensures next == Held(p, passes, kept, i + 1)
  {
    assert Refs(passes[i]) <= held.Keys by { NeverReadsReleased(p, passes, kept, i); }
    var output := RunPass(p, passes[i], Numbered(held, i));
    next := Commit(held, i, output, release);
  }

  lemma {:induction false} KeptInRange(p: Program, plan: Plan)
    requires PlanRight(p, plan)
    ensures forall n :: n in Producers(plan.outputs) ==> n < |plan.passes|
  {
    forall i | 0 <= i < |plan.outputs| ensures plan.outputs[i].producer < |plan.passes| {
      assert OutputRight(p, plan, i);
    }
  }

  method Publish(p: Program, plan: Plan, held: Memory) returns (published: seq<Published>)
    requires PlanRight(p, plan) && held.Keys == Producers(plan.outputs)
    requires forall n :: n in held ==> n < |plan.passes| && held[n] == Made(p, plan.passes, |plan.passes|)[n]
    ensures published == Meaning(p, plan.order)
  {
    published := [];
    var i := 0;
    while i < |plan.outputs|
      invariant 0 <= i <= |plan.outputs| && published == Meaning(p, plan.order)[..i]
    {
      assert OutputRight(p, plan, i);
      var o := plan.outputs[i];
      assert o.producer in Producers(plan.outputs);
      published := published + [Published(o.name, held[o.producer])];
      i := i + 1;
    }
    assert Meaning(p, plan.order)[..i] == Meaning(p, plan.order);
  }

  // ----- Last uses -----

  function Readers(passes: seq<Pass>, k: nat): (r: seq<nat>)
    requires k <= |passes|
    ensures |r| == |passes| && forall n :: 0 <= n < |passes| ==> r[n] == LastReader(passes, n, k)
  {
    seq(|passes|, n requires 0 <= n < |passes| => LastReader(passes, n, k))
  }

  function MarkRefs(last: seq<nat>, refs: set<nat>, i: nat): (r: seq<nat>)
    ensures |r| == |last| && forall n :: 0 <= n < |last| ==> r[n] == if n in refs then i else last[n]
  {
    seq(|last|, n requires 0 <= n < |last| => if n in refs then i else last[n])
  }

  method LastUses(passes: seq<Pass>, kept: set<nat>) returns (last: seq<nat>)
    ensures |last| == |passes| && forall n :: 0 <= n < |passes| ==> last[n] == LastUse(passes, kept, n)
  {
    last := seq(|passes|, n requires 0 <= n < |passes| => n);
    var i := 0;
    while i < |passes|
      invariant 0 <= i <= |passes| && last == Readers(passes, i)
    {
      last := MarkRefs(last, Refs(passes[i]), i);
      assert last == Readers(passes, i + 1);
      i := i + 1;
    }
    last := MarkRefs(last, kept, |passes|);
  }

  // ----- Budgets -----

  /** What a backend charges for a bound pass, or nothing when it refuses it. */
  datatype Cost = Cost(sessions: nat, work: nat, workspace: nat)

  type Backend = (Pass, Grid) -> Option<Cost>

  function Size(pass: Pass): (n: nat) {
    TimesNonNegative(pass.columns, pass.rows);
    Times(pass.columns, pass.rows)
  }

  function ZeroField(): (int, int) -> int {
    (_: int, _: int) => 0
  }

  /** Planes of the right shapes holding zeros: planning never looks at the words of computed planes. */
  function Placeholders(passes: seq<Pass>, k: nat): Planes
    requires k <= |passes|
  {
    seq(k, n requires 0 <= n < k => Plane(passes[n].rows, passes[n].columns, Table(passes[n].rows, passes[n].columns, ZeroField())))
  }

  /** The charge for pass `i`, bound over placeholders to the program admission looks at. */
  function ChargeAt(q: Program, passes: seq<Pass>, backend: Backend, i: nat): Option<Cost>
    requires i < |passes|
  {
    backend(passes[i], Bind(q, passes[i], Placeholders(passes, i)))
  }

  function CostAt(q: Program, passes: seq<Pass>, backend: Backend, i: nat): Cost
    requires i < |passes|
  {
    var c := ChargeAt(q, passes, backend, i);
    if c.Some? then c.value else Cost(0, 0, 0)
  }

  /** The words of the planes among the first `k` that are still needed at pass `i`. */
  function HeldWords(passes: seq<Pass>, kept: set<nat>, i: nat, k: nat): nat
    requires k <= |passes|
  {
    if k == 0 then 0 else HeldWords(passes, kept, i, k - 1) + if LastUse(passes, kept, k - 1) >= i then Size(passes[k - 1]) else 0
  }

  datatype Charges = Charges(sessions: nat, work: nat, peak: nat) {
    /** These charges and those of one more pass beside `held` words. */
    function Plus(c: Cost, held: nat): Charges {
      Charges(sessions + c.sessions, work + c.work, Max(peak, held + c.workspace))
    }
  }

  /** Sessions and work summed over the first `k` passes, and the largest workspace beside literals and held planes. */
  function ChargesTo(q: Program, passes: seq<Pass>, kept: set<nat>, backend: Backend, literal: nat, k: nat): Charges
    requires k <= |passes|
  {
    if k == 0 then Charges(0, 0, literal)
    else
      var before, c := ChargesTo(q, passes, kept, backend, literal, k - 1), CostAt(q, passes, backend, k - 1);
      before.Plus(c, literal + HeldWords(passes, kept, k - 1, k - 1))
  }

  predicate WithinBudget(c: Charges) {
    c.sessions <= MAX_SESSIONS && c.work <= MAX_WORK && c.peak <= MAX_PLANES
  }

  /** The backend admits every pass and the totals stay within the budgets. */
  predicate Affordable(q: Program, passes: seq<Pass>, kept: set<nat>, backend: Backend, literal: nat) {
    && |passes| <= MAX_PASSES && (forall i :: 0 <= i < |passes| ==> ChargeAt(q, passes, backend, i).Some?)
    && WithinBudget(ChargesTo(q, passes, kept, backend, literal, |passes|))
  }

  /** Charges only grow, so a budget once exceeded stays exceeded. */
  lemma {:induction false} ChargesGrow(q: Program, passes: seq<Pass>, kept: set<nat>, backend: Backend, literal: nat, i: nat, k: nat)
    requires i <= k <= |passes|
    ensures WithinBudget(ChargesTo(q, passes, kept, backend, literal, k)) ==> WithinBudget(ChargesTo(q, passes, kept, backend, literal, i))
  {
    if i < k {
      ChargesGrow(q, passes, kept, backend, literal, i, k - 1);
    }
  }

  /** Charges pass after pass; refuses exactly when a pass is not admitted or a total leaves its budget. */
  method ChargePasses(q: Program, passes: seq<Pass>, kept: set<nat>, backend: Backend, literal: nat) returns (r: Option<Charges>)
    requires |passes| <= MAX_PASSES
    ensures r.Some? <==> Affordable(q, passes, kept, backend, literal)
    ensures r.Some? ==> r.value == ChargesTo(q, passes, kept, backend, literal, |passes|)
  {
    var total, i := Charges(0, 0, literal), 0;
    while i < |passes|
      invariant 0 <= i <= |passes| && total == ChargesTo(q, passes, kept, backend, literal, i)
      invariant forall j :: 0 <= j < i ==> ChargeAt(q, passes, backend, j).Some?
    {
      var cost := ChargeAt(q, passes, backend, i);
      if cost.None? {
        return None;
      }
      total := total.Plus(cost.value, literal + HeldWords(passes, kept, i, i));
      i := i + 1;
      if !WithinBudget(total) {
        assert !WithinBudget(ChargesTo(q, passes, kept, backend, literal, |passes|)) by { ChargesGrow(q, passes, kept, backend, literal, i, |passes|); }
        return None;
      }
    }
    r := if WithinBudget(total) then Some(total) else None;
  }

  function OutputsOf(p: Program, results: map<string, nat>): (o: seq<Output>)
    ensures |o| == |p.outputs|
    ensures forall i :: 0 <= i < |p.outputs| ==> o[i] == Output(p.outputs[i], if p.outputs[i] in results then results[p.outputs[i]] else 0)
  {
    seq(|p.outputs|, i requires 0 <= i < |p.outputs| => Output(p.outputs[i], if p.outputs[i] in results then results[p.outputs[i]] else 0))
  }

  function ReleaseSets(passes: seq<Pass>, kept: set<nat>): (r: seq<set<nat>>)
    ensures |r| == |passes| && forall i :: 0 <= i < |passes| ==> r[i] == Released(passes, kept, i)
  {
    seq(|passes|, i requires 0 <= i < |passes| => Released(passes, kept, i))
  }

  method Releases(passes: seq<Pass>, kept: set<nat>) returns (release: seq<set<nat>>)
    requires forall n :: n in kept ==> n < |passes|
    ensures release == ReleaseSets(passes, kept)
  {
    var last := LastUses(passes, kept);
    release := [];
    var i := 0;
    while i < |passes|
      invariant 0 <= i <= |passes| && |release| == i
      invariant forall k :: 0 <= k < i ==> release[k] == Released(passes, kept, k)
    {
      var now := set n: nat | n <= i && last[n] == i;
      assert now == Released(passes, kept, i);
      release := release + [now];
      i := i + 1;
    }
  }

  /** The plan of passes and results: releases at last uses, and the charges of the passes. */
  function PlanFrom(p: Program, q: Program, order: seq<string>, passes: seq<Pass>, results: map<string, nat>, backend: Backend, literal: nat): Plan {
    var outputs := OutputsOf(p, results);
    var kept := Producers(outputs);
    var total := ChargesTo(q, passes, kept, backend, literal, |passes|);
    Plan(order, passes, ReleaseSets(passes, kept), outputs, total.sessions, total.work, total.peak)
  }

  predicate PlanAffordable(p: Program, q: Program, passes: seq<Pass>, results: map<string, nat>, backend: Backend, literal: nat) {
    Affordable(q, passes, Producers(OutputsOf(p, results)), backend, literal)
  }

  ghost predicate ResultsRight(p: Program, order: seq<string>, results: map<string, nat>, passes: seq<Pass>) {
    InOrder(passes) && results.Keys == p.stages.Keys
    && forall n {:trigger ResultHolds(StagePlanes(p, order, |order|), results, Made(p, passes, |passes|), n)} :: n in results ==>
      ResultHolds(StagePlanes(p, order, |order|), results, Made(p, passes, |passes|), n)
  }

  /** Turns passes whose results are right into a plan, exactly when the backend and the budgets allow it. */
  method Finish(p: Program, q: Program, order: seq<string>, passes: seq<Pass>, results: map<string, nat>, backend: Backend, literal: nat) returns (r: Option<Plan>)
    requires ProgramFormed(p) && ResultsRight(p, order, results, passes)
    ensures r.Some? <==> PlanAffordable(p, q, passes, results, backend, literal)
    ensures r.Some? ==> r.value == PlanFrom(p, q, order, passes, results, backend, literal) && PlanRight(p, r.value)
  {
    if |passes| > MAX_PASSES {
      return None;
    }
    OutputsProduced(p, order, results, passes);
    var outputs := OutputsOf(p, results);
    var kept := Producers(outputs);
    var release := Releases(passes, kept);
    var charged := ChargePasses(q, passes, kept, backend, literal);
    if charged.None? {
      return None;
    }
    var plan := Plan(order, passes, release, outputs, charged.value.sessions, charged.value.work, charged.value.peak);
    assert PlanRight(p, plan) by { PlanIsRight(p, order, passes, results, plan); }
    r := Some(plan);
  }

  lemma {:induction false} PlanIsRight(p: Program, order: seq<string>, passes: seq<Pass>, results: map<string, nat>, plan: Plan)
    requires ProgramFormed(p) && ResultsRight(p, order, results, passes) && plan.order == order && plan.passes == passes
    requires plan.outputs == OutputsOf(p, results) && plan.release == ReleaseSets(passes, Producers(plan.outputs))
    ensures PlanRight(p, plan)
  {
    OutputsProduced(p, order, results, passes);
    forall i | 0 <= i < |p.outputs| ensures OutputRight(p, plan, i) {
      assert ResultHolds(StagePlanes(p, order, |order|), results, Made(p, passes, |passes|), p.outputs[i]);
    }
  }

  lemma {:induction false} OutputsProduced(p: Program, order: seq<string>, results: map<string, nat>, passes: seq<Pass>)
    requires ProgramFormed(p) && ResultsRight(p, order, results, passes)
    ensures forall i :: 0 <= i < |p.outputs| ==> p.outputs[i] in results && results[p.outputs[i]] < |passes|
  {
    forall i | 0 <= i < |p.outputs| ensures p.outputs[i] in results && results[p.outputs[i]] < |passes| {
      assert OutputAdmitted(p, i);
      assert ResultHolds(StagePlanes(p, order, |order|), results, Made(p, passes, |passes|), p.outputs[i]);
    }
  }
}

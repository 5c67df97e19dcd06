/** The receipt verifier: it accepts exactly the receipt that stepping the state machine produces. */
module FoldVerify {
  import opened Base
  import opened FoldPlan
  import opened FoldDag
  import opened FoldRun
  import opened FoldReceipt

  ghost predicate Ready(s: Session, plan: Plan, injections: seq<string>) {
    |s.jobs| == |plan.slots| == |injections| && plan.output < |plan.slots|
  }

  // ----- Machines that halt -----

  /** Halted machines stay; a running one either counts one more row or stops where it is. */
  ghost predicate Disciplined(f: Stepper, n: nat) {
    forall p: Progress, i: nat {:trigger f(p, i)} :: i < n ==> Orderly(p, f(p, i))
  }

  predicate Orderly(p: Progress, q: Progress) {
    if p.halted != 0 then q == p
    else q == p.(halted := 3) || (q.halted != 3 && |q.rows| == |p.rows| + 1 && q.rows[..|p.rows|] == p.rows)
  }

  /** While it has not halted, the machine has counted every step. */
  lemma {:induction false} RanSoFar(f: Stepper, n: nat, i: nat)
    requires Disciplined(f, n) && i <= n
    ensures |Ran(f, i).rows| <= i && (Ran(f, i).halted == 0 ==> |Ran(f, i).rows| == i)
  {
    if i > 0 {
      RanSoFar(f, n, i - 1);
    }
  }

  /** A halted machine stays as it is; the rows counted before are a prefix of those counted later. */
  lemma {:induction false} RanLater(f: Stepper, n: nat, i: nat, k: nat)
    requires Disciplined(f, n) && i <= k <= n
    ensures |Ran(f, i).rows| <= |Ran(f, k).rows| && Ran(f, i).rows == Ran(f, k).rows[..|Ran(f, i).rows|]
    ensures Ran(f, i).halted != 0 ==> Ran(f, k) == Ran(f, i)
  {
    if i < k {
      RanLater(f, n, i, k - 1);
      assert Orderly(Ran(f, k - 1), Ran(f, k));
    }
  }

  /** If the machine counts more than `i` rows within `m` steps, it was still running after `i` and counted row `i` next. */
  lemma {:induction false} RanThrough(f: Stepper, n: nat, i: nat, m: nat)
    requires Disciplined(f, n) && m <= n && i < |Ran(f, m).rows|
    ensures i < m && Ran(f, i).halted == 0 && Ran(f, i).rows == Ran(f, m).rows[..i]
    ensures Ran(f, i + 1).halted != 3 && Ran(f, i + 1).rows == Ran(f, m).rows[..i + 1]
    ensures Ran(f, i + 1).halted != 0 ==> Ran(f, m) == Ran(f, i + 1)
  {
    RanSoFar(f, n, m);
    RanSoFar(f, n, i);
    RanLater(f, n, i, m);
    RanSoFar(f, n, i + 1);
    RanLater(f, n, i + 1, m);
    assert Orderly(Ran(f, i), Ran(f, i + 1));
  }

  /** The rows counted in the end were counted one per step. */
  lemma {:induction false} RanOnePerStep(f: Stepper, n: nat)
    requires Disciplined(f, n)
    ensures |Ran(f, n).rows| <= n && Ran(f, n).rows == Ran(f, |Ran(f, n).rows|).rows
  {
    RanSoFar(f, n, n);
    var m := |Ran(f, n).rows|;
    if m > 0 {
      RanThrough(f, n, m - 1, n);
    }
  }

  /** How the machine ends once it has taken `m` steps. */
  lemma {:induction false} RanOut(f: Stepper, n: nat, m: nat)
    requires Disciplined(f, n) && m <= n
    ensures Ran(f, m).halted != 0 ==> Ran(f, n) == Ran(f, m)
    ensures Ran(f, m).halted == 0 && m < n ==>
      if Ran(f, m + 1) == Ran(f, m).(halted := 3) then Ran(f, n) == Ran(f, m + 1) else |Ran(f, n).rows| > m
  {
    RanSoFar(f, n, m);
    RanLater(f, n, m, n);
    if m < n {
      RanLater(f, n, m + 1, n);
      assert Orderly(Ran(f, m), Ran(f, m + 1));
    }
  }

  // ----- The DAG machine -----

  lemma {:induction false} JobStepOrderly(s: Session, plan: Plan, p: Progress, i: nat, injection: string)
    requires i < |s.jobs| == |plan.slots|
    ensures Orderly(p, StepOf(s, plan, p, i, injection))
  {
  }

  lemma {:induction false} JobsDisciplined(s: Session, plan: Plan, injections: seq<string>)
    requires Ready(s, plan, injections)
    ensures Disciplined(JobStep(s, plan, injections), |s.jobs|)
  {
    var f := JobStep(s, plan, injections);
    forall p: Progress, i: nat | i < |s.jobs| ensures Orderly(p, f(p, i)) {
      JobStepOrderly(s, plan, p, i, injections[i]);
    }
  }

  lemma {:induction false} SteppedNext(s: Session, plan: Plan, injections: seq<string>, i: nat)
    requires Ready(s, plan, injections) && i < |s.jobs|
    ensures Stepped(s, plan, injections, i + 1) == StepOf(s, plan, Stepped(s, plan, injections, i), i, injections[i])
  {
  }

  /** If the machine counts more than `i` jobs within `m` steps, job `i` was not blocked and row `i` is its row. */
  lemma {:induction false} RunningBefore(s: Session, plan: Plan, injections: seq<string>, i: nat, m: nat)
    requires Ready(s, plan, injections) && m <= |s.jobs| && i < |Stepped(s, plan, injections, m).rows|
    ensures i < m
    ensures var p, q := Stepped(s, plan, injections, i), Stepped(s, plan, injections, m);
            && p.halted == 0 && p.rows == q.rows[..i] && BadSourceIn(plan, p.store, i).None?
            && q.rows[i] == RowFor(s, plan, p.store, i, Succeeds(injections[i]))
            && (BreaksFrame(injections[i]) ==> i + 1 == |q.rows|)
  {
    var f := JobStep(s, plan, injections);
    assert && i < m && Ran(f, i).halted == 0 && Ran(f, i).rows == Ran(f, m).rows[..i]
           && Ran(f, i + 1).halted != 3 && Ran(f, i + 1).rows == Ran(f, m).rows[..i + 1]
           && (Ran(f, i + 1).halted != 0 ==> Ran(f, m) == Ran(f, i + 1)) by {
      JobsDisciplined(s, plan, injections);
      RanThrough(f, |s.jobs|, i, m);
    }
    SteppedNext(s, plan, injections, i);
    var p, q := Stepped(s, plan, injections, i), Stepped(s, plan, injections, i + 1);
    assert q == StepOf(s, plan, p, i, injections[i]);
    assert q.rows[i] == Stepped(s, plan, injections, m).rows[i];
  }

  /** How the machine ends once `m` jobs are counted. */
  lemma {:induction false} Closing(s: Session, plan: Plan, injections: seq<string>, m: nat)
    requires Ready(s, plan, injections) && m <= |s.jobs|
    ensures var p, end := Stepped(s, plan, injections, m), Stepped(s, plan, injections, |s.jobs|);
            if p.halted != 0 || m == |s.jobs| then end == p
            else if BadSourceIn(plan, p.store, m).Some? then end == p.(halted := 3)
            else |end.rows| > m
  {
    var f, n := JobStep(s, plan, injections), |s.jobs|;
    assert (Ran(f, m).halted != 0 ==> Ran(f, n) == Ran(f, m))
           && (Ran(f, m).halted == 0 && m < n ==>
             if Ran(f, m + 1) == Ran(f, m).(halted := 3) then Ran(f, n) == Ran(f, m + 1) else |Ran(f, n).rows| > m) by {
      JobsDisciplined(s, plan, injections);
      RanOut(f, n, m);
    }
    if m < n {
      SteppedNext(s, plan, injections, m);
    }
  }

  /** The jobs counted in the end were counted one per step. */
  lemma {:induction false} CountedRows(s: Session, plan: Plan, injections: seq<string>)
    requires Ready(s, plan, injections)
    ensures var end := Stepped(s, plan, injections, |s.jobs|);
            |end.rows| <= |s.jobs| && end.rows == Stepped(s, plan, injections, |end.rows|).rows
  {
    JobsDisciplined(s, plan, injections);
    RanOnePerStep(JobStep(s, plan, injections), |s.jobs|);
  }

  // ----- No job is counted after a broken frame or a blocked dependency -----

  function Outcomes(injections: seq<string>, k: nat): (success: seq<bool>)
    requires k <= |injections|
    ensures |success| == k
  {
    seq(k, i requires 0 <= i < k => Succeeds(injections[i]))
  }

  lemma {:induction false} AfterPrefix(s: Session, plan: Plan, a: seq<bool>, b: seq<bool>, k: nat)
    requires k <= |a| <= |s.jobs| == |plan.slots| && k <= |b| <= |s.jobs| && a[..k] == b[..k]
    ensures After(s, plan, a, k) == After(s, plan, b, k)
  {
    if k > 0 {
      assert a[..k - 1] == a[..k][..k - 1] == b[..k][..k - 1] == b[..k - 1];
      AfterPrefix(s, plan, a, b, k - 1);
      assert a[k - 1] == a[..k][k - 1] == b[..k][k - 1] == b[k - 1];
    }
  }

  /** The machine's store is that of the run of the jobs it counted. */
  lemma {:induction false} SteppedStore(s: Session, plan: Plan, injections: seq<string>, i: nat)
    requires Ready(s, plan, injections) && i <= |s.jobs|
    ensures var p := Stepped(s, plan, injections, i);
            |p.rows| <= i && p.store == After(s, plan, Outcomes(injections, |p.rows|), |p.rows|)
  {
    if i > 0 {
      SteppedStore(s, plan, injections, i - 1);
      var before := Stepped(s, plan, injections, i - 1);
      assert before.halted == 0 ==> |before.rows| == i - 1 by {
        JobsDisciplined(s, plan, injections);
        RanSoFar(JobStep(s, plan, injections), |s.jobs|, i - 1);
      }
      SteppedNext(s, plan, injections, i - 1);
      StoreStep(s, plan, injections, before, i);
    }
  }

  lemma {:induction false} StoreStep(s: Session, plan: Plan, injections: seq<string>, before: Progress, i: nat)
    requires Ready(s, plan, injections) && 0 < i <= |s.jobs| && |before.rows| <= i - 1 && (before.halted == 0 ==> |before.rows| == i - 1)
    requires before.store == After(s, plan, Outcomes(injections, |before.rows|), |before.rows|)
    ensures var p := StepOf(s, plan, before, i - 1, injections[i - 1]);
            |p.rows| <= i && p.store == After(s, plan, Outcomes(injections, |p.rows|), |p.rows|)
  {
    if before.halted == 0 && BadSourceIn(plan, before.store, i - 1).None? {
      OutcomesStep(s, plan, injections, i);
    }
  }

  lemma {:induction false} OutcomesStep(s: Session, plan: Plan, injections: seq<string>, i: nat)
    requires Ready(s, plan, injections) && 0 < i <= |s.jobs|
    ensures After(s, plan, Outcomes(injections, i), i)
            == Advance(s, plan, After(s, plan, Outcomes(injections, i - 1), i - 1), i - 1, Succeeds(injections[i - 1]))
  {
    AfterPrefix(s, plan, Outcomes(injections, i - 1), Outcomes(injections, i), i - 1);
  }

  // ----- _verify -----

  /** One row: the job must resolve and the row must say what stepping it says; then the state steps. */
  method VerifyRow(state: State, i: nat, injection: string, row: Row) returns (ok: bool)
    requires state.Valid() && i < |state.session.jobs| == |state.plan.slots|
    modifies state
    ensures state.Valid()
    ensures ok <==> BadSourceIn(state.plan, old(state.Model()), i).None?
                    && row == RowFor(state.session, state.plan, old(state.Model()), i, Succeeds(injection))
    ensures ok ==> state.Model() == Advance(state.session, state.plan, old(state.Model()), i, Succeeds(injection))
  {
    var job := state.session.jobs[i];
    var resolved := state.Resolve(i);
    if resolved.None? {
      return false;
    }
    var words := Compute(job.region, resolved.value.inputs);
    var success := Succeeds(injection);
    ok := row == Row(i, job.name, success, if success then 1 else 4, resolved.value.writeSlots, resolved.value.readSlots, if success then words else []);
    if ok {
      var committed := state.Commit(i, resolved.value.writeSlots, words, success);
    }
  }

  /** If the rows are what the machine counts, then row `i` is what it counts there, and only the last may break the frame. */
  lemma {:induction false} RowDecides(s: Session, plan: Plan, injections: seq<string>, rows: seq<Row>, i: nat)
    requires Ready(s, plan, injections) && i < |rows| <= |s.jobs|
    ensures var p := Stepped(s, plan, injections, i);
            rows == Stepped(s, plan, injections, |rows|).rows ==>
              && BadSourceIn(plan, p.store, i).None? && rows[i] == RowFor(s, plan, p.store, i, Succeeds(injections[i]))
              && (BreaksFrame(injections[i]) ==> i + 1 == |rows|)
  {
    if rows == Stepped(s, plan, injections, |rows|).rows {
      RunningBefore(s, plan, injections, i, |rows|);
    }
  }

  /** Steps the state over the rows; accepts them exactly when they are what the machine counts. */
  method VerifyRows(state: State, injections: seq<string>, rows: seq<Row>) returns (ok: bool, halted: int)
    requires state.Valid() && state.Model() == Empty() && Ready(state.session, state.plan, injections) && |rows| <= |state.session.jobs|
    modifies state
    ensures state.Valid()
    ensures ok <==> rows == Stepped(state.session, state.plan, injections, |rows|).rows
    ensures ok ==> halted == Stepped(state.session, state.plan, injections, |rows|).halted
    ensures ok ==> state.Model() == Stepped(state.session, state.plan, injections, |rows|).store
  {
    var i, s, plan, m := 0, state.session, state.plan, |rows|;
    ok, halted := true, 0;
    while ok && i < m
      invariant 0 <= i <= m && state.Valid()
      invariant ok ==> Stepped(s, plan, injections, i) == Progress(state.Model(), rows[..i], halted) && (halted == 0 || i == m)
      invariant !ok ==> rows != Stepped(s, plan, injections, m).rows
    {
      RowDecides(s, plan, injections, rows, i);
      SteppedNext(s, plan, injections, i);
      ok := VerifyRow(state, i, injections[i], rows[i]);
      assert rows[..i + 1] == rows[..i] + [rows[i]];
      if ok && BreaksFrame(injections[i]) {
        ok, halted := i + 1 == m, 1;
      }
      i := i + 1;
    }
    assert rows[..m] == rows;
  }

  /** Checks a receipt against the session and injections by stepping the state machine over its rows. */
  method Verify(s: Session, plan: Plan, injections: seq<string>, receipt: Receipt) returns (ok: bool)
    requires Planned(s, plan) && Ready(s, plan, injections)
    ensures ok <==> receipt == ReceiptOf(s, plan, Stepped(s, plan, injections, |s.jobs|))
  {
    var n, m := |s.jobs|, |receipt.jobs|;
    ghost var end := Stepped(s, plan, injections, n);
    assert 1 <= |end.rows| <= n <= 8 by { FirstJobRuns(s, plan, injections); }
    if !(1 <= receipt.processed <= 8) || m != receipt.processed || receipt.processed > n || receipt.planned != n {
      return false;
    }
    Closing(s, plan, injections, m);
    assert m == |end.rows| ==> end.rows == Stepped(s, plan, injections, m).rows by {
      if m == |end.rows| { CountedRows(s, plan, injections); }
    }
    var state := new State(s, plan);
    var accepted, halted := VerifyRows(state, injections, receipt.jobs);
    if !accepted {
      return false;
    }
    if halted == 0 && m != n {
      var next := state.Resolve(m);
      if next.Some? {
        return false;
      }
      halted := 3;
    }
    var final := state.Final();
    ok := receipt.output == final && receipt.halted == halted && receipt.versions == state.versions;
  }

  /** The first job reads nothing, so every run counts at least one job. */
  lemma {:induction false} FirstJobRuns(s: Session, plan: Plan, injections: seq<string>)
    requires Planned(s, plan) && Ready(s, plan, injections)
    ensures 1 <= |Stepped(s, plan, injections, |s.jobs|).rows| <= |s.jobs| <= 8
  {
    PlanShape(s, plan);
    BadSourceCases(plan, Empty(), 0, None, None);
    SteppedNext(s, plan, injections, 0);
    assert |Stepped(s, plan, injections, 1).rows| == 1;
    JobsDisciplined(s, plan, injections);
    RanLater(JobStep(s, plan, injections), |s.jobs|, 1, |s.jobs|);
    RanSoFar(JobStep(s, plan, injections), |s.jobs|, |s.jobs|);
  }

  /** What an accepted receipt says: the output is available exactly when its job was counted and committed. */
  lemma {:induction false} AcceptedReceiptMeaning(s: Session, plan: Plan, injections: seq<string>, receipt: Receipt)
    requires Planned(s, plan) && Ready(s, plan, injections) && |s.jobs| == |plan.lastUse|
    requires receipt == ReceiptOf(s, plan, Stepped(s, plan, injections, |s.jobs|))
    ensures 1 <= receipt.processed == |receipt.jobs| <= |s.jobs|
    ensures var success := Outcomes(injections, receipt.processed);
            && receipt.versions == After(s, plan, success, receipt.processed).versions
            && (receipt.output.available <==> plan.output < receipt.processed && Commits(s, success, plan.output))
    ensures receipt.output.available ==> plan.output < |s.jobs| && receipt.output.words == DirectOutput(s, plan.output)
  {
    FirstJobRuns(s, plan, injections);
    SteppedStore(s, plan, injections, |s.jobs|);
    OutputAvailable(s, plan, Outcomes(injections, receipt.processed), receipt.processed);
  }

  /** Every counted row is approved exactly on success, and an approved row carries the job's direct result. */
  lemma {:induction false} AcceptedRow(s: Session, plan: Plan, injections: seq<string>, receipt: Receipt, i: nat)
    requires Planned(s, plan) && Ready(s, plan, injections) && |s.jobs| == |plan.lastUse|
    requires receipt == ReceiptOf(s, plan, Stepped(s, plan, injections, |s.jobs|)) && i < |receipt.jobs|
    ensures i < |s.jobs| && receipt.jobs[i].approved == Succeeds(injections[i])
    ensures receipt.jobs[i].output == if Succeeds(injections[i]) then DirectOutput(s, i) else []
  {
    RunningBefore(s, plan, injections, i, |s.jobs|);
    var before, success := Stepped(s, plan, injections, i), Outcomes(injections, i);
    assert before.store == After(s, plan, success, i) by {
      SteppedStore(s, plan, injections, i);
    }
    RunResolves(s, plan, success, i);
  }

  /** How the machine stopped after counting `m` jobs. */
  lemma {:induction false} HaltCause(s: Session, plan: Plan, injections: seq<string>, m: nat)
    requires Ready(s, plan, injections) && 0 < m == |Stepped(s, plan, injections, |s.jobs|).rows|
    ensures m <= |s.jobs|
    ensures var halted := Stepped(s, plan, injections, |s.jobs|).halted;
            if BreaksFrame(injections[m - 1]) then halted == 1
            else if m == |s.jobs| then halted == 0
            else halted == 3 && BadSourceIn(plan, After(s, plan, Outcomes(injections, m), m), m).Some?
  {
    var n := |s.jobs|;
    assert m <= n && Stepped(s, plan, injections, m).rows == Stepped(s, plan, injections, n).rows by { CountedRows(s, plan, injections); }
    assert Stepped(s, plan, injections, m).store == After(s, plan, Outcomes(injections, m), m) by { SteppedStore(s, plan, injections, m); }
    assert Stepped(s, plan, injections, m).halted == if BreaksFrame(injections[m - 1]) then 1 else 0 by { LastCounted(s, plan, injections, m); }
    Closing(s, plan, injections, m);
  }

  lemma {:induction false} LastCounted(s: Session, plan: Plan, injections: seq<string>, m: nat)
    requires Ready(s, plan, injections) && 0 < m == |Stepped(s, plan, injections, |s.jobs|).rows| <= |s.jobs|
    ensures Stepped(s, plan, injections, m).halted == if BreaksFrame(injections[m - 1]) then 1 else 0
  {
    var before := Stepped(s, plan, injections, m - 1);
    assert before.halted == 0 && BadSourceIn(plan, before.store, m - 1).None? by { RunningBefore(s, plan, injections, m - 1, |s.jobs|); }
    SteppedNext(s, plan, injections, m - 1);
  }

  /** Why an accepted run stopped: a broken last frame, a blocked next job, or the end of the session. */
  lemma {:induction false} AcceptedHalt(s: Session, plan: Plan, injections: seq<string>, receipt: Receipt)
    requires Planned(s, plan) && Ready(s, plan, injections) && |s.jobs| == |plan.lastUse|
    requires receipt == ReceiptOf(s, plan, Stepped(s, plan, injections, |s.jobs|))
    ensures 1 <= receipt.processed <= |s.jobs|
    ensures forall i :: 0 <= i < receipt.processed - 1 ==> !BreaksFrame(injections[i])
    ensures receipt.halted ==
            if BreaksFrame(injections[receipt.processed - 1]) then 1 else if receipt.processed == |s.jobs| then 0 else 3
    ensures receipt.halted == 3 ==> receipt.processed < |s.jobs| && !SourcesCommit(s, Outcomes(injections, receipt.processed), receipt.processed)
  {
    var m := receipt.processed;
    assert m >= 1 by { FirstJobRuns(s, plan, injections); }
    HaltCause(s, plan, injections, m);
    forall i | 0 <= i < m - 1 ensures !BreaksFrame(injections[i]) {
      RunningBefore(s, plan, injections, i, |s.jobs|);
    }
    if receipt.halted == 3 {
      RunResolves(s, plan, Outcomes(injections, m), m);
    }
  }
}

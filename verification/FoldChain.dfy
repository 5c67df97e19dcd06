/**
  Chains of fold jobs over two result banks.  A job reads at most one earlier result and writes the other bank;
  a saved result stays readable until its bank is written again.
 */
module FoldChain {
  import opened Base
  import opened AffineFold
  import opened FoldPlan
  import opened FoldDag
  import R = FoldReceipt

  const BANKS: nat := 2
  const WORDS: nat := 256

  // ----- Admission and links -----

  predicate OneProducer(s: Session, i: nat)
    requires i < |s.jobs|
  {
    Source(s, i, 0).Some? && Source(s, i, 1).Some? ==> Source(s, i, 0) == Source(s, i, 1)
  }

  ghost predicate ChainAdmitted(s: Session) {
    && 1 <= |s.jobs| <= 8 && !s.ranged
    && (forall i {:trigger JobAdmitted(s, i)} :: 0 <= i < |s.jobs| ==> JobAdmitted(s, i))
    && forall i {:trigger OneProducer(s, i)} :: 0 <= i < |s.jobs| ==> OneProducer(s, i)
  }

  method ValidateChain(s: Session) returns (ok: bool)
    ensures ok <==> ChainAdmitted(s)
  {
    if !(1 <= |s.jobs| <= 8) || s.ranged {
      return false;
    }
    var names: map<string, nat>, counts: seq<int>, i := map[], [], 0;
    while i < |s.jobs|
      invariant 0 <= i <= |s.jobs| && NamesUpTo(s, i, names)
      invariant |counts| == i && forall k :: 0 <= k < i ==> counts[k] == OutputCount(s.jobs[k].region) >= 1
      invariant forall k {:trigger JobAdmitted(s, k)} :: 0 <= k < i ==> JobAdmitted(s, k)
      invariant forall k {:trigger OneProducer(s, k)} :: 0 <= k < i ==> OneProducer(s, k)
    {
      var job := CheckJob(s, i, names, counts);
      if job.None? || !OneProducer(s, i) {
        return false;
      }
      NamesStep(s, i, names);
      names, counts, i := names[s.jobs[i].name := i], counts + [OutputCount(s.jobs[i].region)], i + 1;
    }
    ok := true;
  }

  /** The one earlier job that job `i` reads. */
  function Link(s: Session, i: nat): (r: Option<nat>)
    requires i < |s.jobs|
    ensures r.Some? ==> r.value < i
  {
    if Source(s, i, 1).Some? then Source(s, i, 1) else Source(s, i, 0)
  }

  lemma {:induction false} FindStable(s: Session, i: nat, n: nat, name: string)
    requires (forall k {:trigger JobAdmitted(s, k)} :: 0 <= k < |s.jobs| ==> JobAdmitted(s, k))
    requires i <= n <= |s.jobs| && Find(s.jobs, i, name).Some?
    ensures Find(s.jobs, n, name) == Find(s.jobs, i, name)
  {
    if i < n {
      FindStable(s, i, n - 1, name);
      assert JobAdmitted(s, n - 1);
    }
  }

  /** The source and operand mask of a job, looked up in the table of all names. */
  method Links(s: Session, i: nat) returns (source: Option<nat>, mask: nat)
    requires ChainAdmitted(s) && i < |s.jobs|
    ensures source == Link(s, i)
    ensures mask == (if Source(s, i, 0).Some? then 1 else 0) + (if Source(s, i, 1).Some? then 2 else 0)
  {
    assert JobAdmitted(s, i);
    var job := s.jobs[i];
    source, mask := None, 0;
    var b := 0;
    while b < 2
      invariant 0 <= b <= 2
      invariant b == 0 ==> source == None && mask == 0
      invariant b == 1 ==> source == Source(s, i, 0) && mask == if Source(s, i, 0).Some? then 1 else 0
      invariant b == 2 ==> source == Link(s, i)
      invariant b == 2 ==> mask == (if Source(s, i, 0).Some? then 1 else 0) + (if Source(s, i, 1).Some? then 2 else 0)
    {
      assert LinkAdmitted(s, i, b);
      if job.inputs[b].Linked? {
        FindStable(s, i, |s.jobs|, job.inputs[b].producer);
        source, mask := Find(s.jobs, |s.jobs|, job.inputs[b].producer), mask + b + 1;
      }
      b := b + 1;
    }
  }

  // ----- The store -----

  datatype Result = Result(bank: nat, version: nat, words: seq<int>)

  datatype Chain = Chain(versions: seq<nat>, banks: seq<seq<int>>, producers: map<nat, Result>, active: nat)

  function Start0(): Chain {
    Chain([1, 1], [seq(WORDS, _ => 0), seq(WORDS, _ => 0)], map[], 1)
  }

  predicate Readable(c: Chain, j: nat) {
    j in c.producers && c.producers[j].bank < |c.versions| && c.versions[c.producers[j].bank] == c.producers[j].version
  }

  predicate Blocked(s: Session, c: Chain, i: nat)
    requires i < |s.jobs|
  {
    Link(s, i).Some? && !Readable(c, Link(s, i).value)
  }

  function SourceBank(s: Session, c: Chain, i: nat): Option<nat>
    requires i < |s.jobs|
  {
    if Link(s, i).Some? && Link(s, i).value in c.producers then Some(c.producers[Link(s, i).value].bank) else None
  }

  function Other(bank: nat): (b: nat)
    ensures b < BANKS && (bank < BANKS ==> b != bank)
  {
    if bank == 0 then 1 else 0
  }

  function Destination(s: Session, c: Chain, i: nat): (b: nat)
    requires i < |s.jobs|
    ensures b < BANKS
  {
    var bank := SourceBank(s, c, i);
    Other(if bank.Some? then bank.value else c.active)
  }

  function ChainInput(s: Session, c: Chain, i: nat, b: nat): seq<int>
    requires i < |s.jobs|
  {
    if Source(s, i, b).None? then LiteralOf(InputAt(s.jobs[i], b))
    else if Link(s, i).Some? && Link(s, i).value in c.producers then c.producers[Link(s, i).value].words
    else []
  }

  function Filled(words: seq<int>): seq<int> {
    words + if |words| < WORDS then seq(WORDS - |words|, _ => 0) else []
  }

  function WrittenTo(c: Chain, i: nat, bank: nat, words: seq<int>): Chain
    requires bank < |c.versions| && bank < |c.banks|
  {
    Chain(c.versions[bank := c.versions[bank] + 1], c.banks[bank := Filled(words)],
          c.producers[i := Result(bank, c.versions[bank] + 1, words)], bank)
  }

  function ChainResult(s: Session, c: Chain, i: nat): seq<int>
    requires i < |s.jobs|
  {
    Compute(s.jobs[i].region, (ChainInput(s, c, i, 0), ChainInput(s, c, i, 1)))
  }

  /** One job: skipped when its source is no longer readable, otherwise computed and written on success. */
  function ChainStep(s: Session, c: Chain, i: nat, success: bool): (d: Chain)
    requires i < |s.jobs| && |c.versions| == |c.banks| == BANKS
    ensures |d.versions| == |d.banks| == BANKS
  {
    if Blocked(s, c, i) || !success then c else WrittenTo(c, i, Destination(s, c, i), ChainResult(s, c, i))
  }

  function ChainAfter(s: Session, success: seq<bool>, k: nat): (c: Chain)
    requires k <= |success| <= |s.jobs|
    ensures |c.versions| == |c.banks| == BANKS
  {
    if k == 0 then Start0() else ChainStep(s, ChainAfter(s, success, k - 1), k - 1, success[k - 1])
  }

  /** The last of the first `k` jobs that successfully wrote `bank`. */
  function Writer(s: Session, success: seq<bool>, k: nat, bank: nat): (w: Option<nat>)
    requires k <= |success| <= |s.jobs|
    ensures w.Some? ==> w.value < k
  {
    if k == 0 then None
    else
      var c := ChainAfter(s, success, k - 1);
      if success[k - 1] && !Blocked(s, c, k - 1) && Destination(s, c, k - 1) == bank then Some(k - 1)
      else Writer(s, success, k - 1, bank)
  }

  // ----- What every run keeps -----

  ghost predicate SavedKept(s: Session, success: seq<bool>, c: Chain, k: nat, j: nat)
    requires k <= |success| <= |s.jobs| && j in c.producers && |c.versions| == |c.banks| == BANKS
  {
    var r := c.producers[j];
    && j < k && r.bank < BANKS && r.version <= c.versions[r.bank]
    && (r.version == c.versions[r.bank] <==> Writer(s, success, k, r.bank) == Some(j))
    && (r.version == c.versions[r.bank] ==> c.banks[r.bank] == Filled(r.words))
  }

  ghost predicate ChainKept(s: Session, success: seq<bool>, c: Chain, k: nat)
    requires k <= |success| <= |s.jobs|
  {
    && |c.versions| == |c.banks| == BANKS && c.active < BANKS
    && (forall j {:trigger SavedKept(s, success, c, k, j)} :: j in c.producers ==> SavedKept(s, success, c, k, j))
    && forall b {:trigger Writer(s, success, k, b)} :: 0 <= b < BANKS && Writer(s, success, k, b).Some? ==>
        Writer(s, success, k, b).value in c.producers && c.producers[Writer(s, success, k, b).value].bank == b
  }

  lemma {:induction false} ChainStepKeeps(s: Session, success: seq<bool>, k: nat)
    requires k < |success| <= |s.jobs| && ChainKept(s, success, ChainAfter(s, success, k), k)
    ensures ChainKept(s, success, ChainAfter(s, success, k + 1), k + 1)
  {
    var c, d, after := ChainAfter(s, success, k), ChainAfter(s, success, k + 1), k + 1;
    forall j | j in d.producers ensures SavedKept(s, success, d, after, j) {
      if j in c.producers {
        assert SavedKept(s, success, c, k, j);
      }
    }
    forall b | 0 <= b < BANKS && Writer(s, success, after, b).Some?
      ensures Writer(s, success, after, b).value in d.producers && d.producers[Writer(s, success, after, b).value].bank == b {
      assert Writer(s, success, k, b).Some? ==> Writer(s, success, k, b).value in c.producers;
    }
  }

  lemma {:induction false} ChainKeeps(s: Session, success: seq<bool>, k: nat)
    requires k <= |success| <= |s.jobs|
    ensures ChainKept(s, success, ChainAfter(s, success, k), k)
  {
    if k > 0 {
      ChainKeeps(s, success, k - 1);
      ChainStepKeeps(s, success, k - 1);
    }
  }

  /** A producer is readable exactly while it is the last successful writer of its bank, which then holds its words. */
  lemma {:induction false} ReadableIffLastWriter(s: Session, success: seq<bool>, k: nat, j: nat)
    requires k <= |success| <= |s.jobs|
    ensures var c := ChainAfter(s, success, k);
            && (Readable(c, j) <==> exists b :: 0 <= b < BANKS && Writer(s, success, k, b) == Some(j))
            && (Readable(c, j) ==> c.producers[j].bank < BANKS && c.banks[c.producers[j].bank] == Filled(c.producers[j].words))
  {
    var c := ChainAfter(s, success, k);
    ChainKeeps(s, success, k);
    if j in c.producers {
      assert SavedKept(s, success, c, k, j);
      if Readable(c, j) {
        assert Writer(s, success, k, c.producers[j].bank) == Some(j);
      }
    }
    if b :| 0 <= b < BANKS && Writer(s, success, k, b) == Some(j) {
      assert c.producers[j].bank == b;
    }
  }

  /** At most two producers are readable at once. */
  lemma {:induction false} AtMostTwoReadable(s: Session, success: seq<bool>, k: nat)
    requires k <= |success| <= |s.jobs|
    ensures |set j | j in ChainAfter(s, success, k).producers && Readable(ChainAfter(s, success, k), j)| <= BANKS
  {
    var c := ChainAfter(s, success, k);
    var readable := set j | j in c.producers && Readable(c, j);
    var writers := set b | b in {Writer(s, success, k, 0), Writer(s, success, k, 1)} && b.Some? :: b.value;
    assert readable <= writers by {
      forall j | j in readable ensures j in writers {
        ReadableIffLastWriter(s, success, k, j);
        assert Writer(s, success, k, 0) == Some(j) || Writer(s, success, k, 1) == Some(j);
        assert Some(j) in {Writer(s, success, k, 0), Writer(s, success, k, 1)};
      }
    }
    SubsetSize(readable, writers);
    AtMostTwo(Writer(s, success, k, 0), Writer(s, success, k, 1));
  }

  lemma {:induction false} AtMostTwo(a: Option<nat>, b: Option<nat>)
    ensures |set x | x in {a, b} && x.Some? :: x.value| <= BANKS
  {
    var both := (if a.Some? then {a.value} else {}) + (if b.Some? then {b.value} else {});
    assert (set x | x in {a, b} && x.Some? :: x.value) == both;
  }

  /** A job that resolves never writes the bank it reads, and reads a prefix of that bank. */
  lemma {:induction false} NeverWritesItsSource(s: Session, success: seq<bool>, k: nat)
    requires k <= |success| <= |s.jobs| && k < |s.jobs| && Link(s, k).Some?
    requires !Blocked(s, ChainAfter(s, success, k), k)
    ensures var c, p := ChainAfter(s, success, k), Link(s, k).value;
            && SourceBank(s, c, k) == Some(c.producers[p].bank) && c.producers[p].bank < BANKS
            && Destination(s, c, k) != c.producers[p].bank
            && c.producers[p].words <= c.banks[c.producers[p].bank]
            && forall b :: 0 <= b < 2 && Source(s, k, b).Some? ==> ChainInput(s, c, k, b) <= c.banks[c.producers[p].bank]
  {
    ReadableIffLastWriter(s, success, k, Link(s, k).value);
  }

  /** A job without a link leaves the most recent result readable. */
  lemma {:induction false} LatestSurvives(s: Session, success: seq<bool>, k: nat, j: nat)
    requires k < |success| <= |s.jobs| && Link(s, k).None?
    requires var c := ChainAfter(s, success, k); Readable(c, j) && c.producers[j].bank == c.active
    ensures Readable(ChainAfter(s, success, k + 1), j)
  {
    ChainKeeps(s, success, k);
    assert SavedKept(s, success, ChainAfter(s, success, k), k, j);
  }

  // ----- Values -----

  /** Every saved result is the job's direct result. */
  ghost predicate ChainDirect(s: Session, c: Chain) {
    forall j {:trigger j in c.producers} :: j in c.producers ==> j < |s.jobs| && c.producers[j].words == DirectOutput(s, j)
  }

  /** A link of an admitted chain takes the producer's whole output. */
  lemma {:induction false} WholeLink(s: Session, i: nat, b: nat)
    requires ChainAdmitted(s) && i < |s.jobs| && b < 2 && Source(s, i, b).Some?
    ensures Source(s, i, b) == Link(s, i) && Link(s, i).value < |s.jobs|
    ensures DirectInput(s, i, b) == DirectOutput(s, Link(s, i).value)
  {
    var p := Source(s, i, b).value;
    assert OneProducer(s, i);
    assert Start(s, i, b) == 0 && OperandLength(s.jobs[i].region, b) == OutputCount(s.jobs[p].region) by {
      assert JobAdmitted(s, i);
      assert LinkAdmitted(s, i, b);
    }
    assert |DirectOutput(s, p)| == OutputCount(s.jobs[p].region) by {
      assert JobAdmitted(s, p);
      assert Admitted(s.jobs[p].region);
    }
  }

  lemma {:induction false} DirectInputs(s: Session, c: Chain, i: nat, b: nat)
    requires ChainAdmitted(s) && i < |s.jobs| && b < 2 && !Blocked(s, c, i) && ChainDirect(s, c)
    ensures ChainInput(s, c, i, b) == DirectInput(s, i, b)
  {
    if Source(s, i, b).Some? {
      WholeLink(s, i, b);
    }
  }

  lemma {:induction false} ChainStaysDirect(s: Session, success: seq<bool>, k: nat)
    requires ChainAdmitted(s) && k <= |success| <= |s.jobs|
    ensures ChainDirect(s, ChainAfter(s, success, k))
  {
    if k > 0 {
      ChainStaysDirect(s, success, k - 1);
      var c := ChainAfter(s, success, k - 1);
      if !Blocked(s, c, k - 1) {
        DirectInputs(s, c, k - 1, 0);
        DirectInputs(s, c, k - 1, 1);
      }
    }
  }

  /** In every run, a job that is not blocked is given exactly its directly evaluated inputs. */
  lemma {:induction false} ChainResolves(s: Session, success: seq<bool>, k: nat, b: nat)
    requires ChainAdmitted(s) && k <= |success| <= |s.jobs| && k < |s.jobs| && b < 2 && !Blocked(s, ChainAfter(s, success, k), k)
    ensures ChainInput(s, ChainAfter(s, success, k), k, b) == DirectInput(s, k, b)
  {
    ChainStaysDirect(s, success, k);
    DirectInputs(s, ChainAfter(s, success, k), k, b);
  }

  /** In every run, a readable bank starts with its producer's direct result. */
  lemma {:induction false} ReadableIsDirect(s: Session, success: seq<bool>, k: nat, j: nat)
    requires ChainAdmitted(s) && k <= |success| <= |s.jobs| && Readable(ChainAfter(s, success, k), j)
    ensures var c := ChainAfter(s, success, k);
            j < |s.jobs| && c.producers[j].bank < BANKS && c.banks[c.producers[j].bank] == Filled(DirectOutput(s, j))
  {
    ChainStaysDirect(s, success, k);
    ReadableIffLastWriter(s, success, k, j);
  }

  // ----- The stateful chain -----

  datatype ChainResolved = ChainResolved(inputs: (seq<int>, seq<int>), source: Option<nat>, destination: nat)

  class State {
    const session: Session
    var versions: seq<nat>
    var banks: seq<seq<int>>
    var producers: map<nat, Result>
    var active: nat

    function Model(): Chain
      reads this
    {
      Chain(versions, banks, producers, active)
    }

    ghost predicate Valid()
      reads this
    {
      |versions| == |banks| == BANKS && ChainAdmitted(session)
    }

    constructor (s: Session)
      requires ChainAdmitted(s)
      ensures Valid() && Model() == Start0() && session == s
    {
      session := s;
      versions, banks, producers, active := [1, 1], [seq(WORDS, _ => 0), seq(WORDS, _ => 0)], map[], 1;
    }

    /** The job's inputs, the bank it reads and the bank it will write; nothing when its source is stale or missing. */
    method Resolve(i: nat) returns (r: Option<ChainResolved>)
      requires Valid() && i < |session.jobs|
      ensures r.None? <==> Blocked(session, Model(), i)
      ensures r.Some? ==> r.value == ChainResolved((ChainInput(session, Model(), i, 0), ChainInput(session, Model(), i, 1)),
                                                   SourceBank(session, Model(), i), Destination(session, Model(), i))
    {
      var source, mask := Links(session, i);
      var bank: Option<nat> := None;
      if mask != 0 {
        if source.value !in producers || producers[source.value].bank >= |versions|
           || versions[producers[source.value].bank] != producers[source.value].version {
          return None;
        }
        bank := Some(producers[source.value].bank);
      }
      var left := if mask % 2 == 1 then producers[source.value].words else LiteralOf(InputAt(session.jobs[i], 0));
      var right := if mask >= 2 then producers[source.value].words else LiteralOf(InputAt(session.jobs[i], 1));
      r := Some(ChainResolved((left, right), bank, Other(if bank.Some? then bank.value else active)));
    }

    /** Only a success changes anything: it bumps and rewrites the destination bank and saves the result. */
    method Commit(i: nat, destination: nat, expected: seq<int>, success: bool)
      requires Valid() && destination < BANKS
      modifies this
      ensures Valid()
      ensures Model() == if success then WrittenTo(old(Model()), i, destination, expected) else old(Model())
    {
      if success {
        versions := versions[destination := versions[destination] + 1];
        active := destination;
        banks := banks[destination := Filled(expected)];
        producers := producers[i := Result(destination, versions[destination], expected)];
      }
    }
  }

  function Successes(injections: seq<string>): (success: seq<bool>)
    ensures |success| == |injections|
  {
    seq(|injections|, i requires 0 <= i < |injections| => R.Succeeds(injections[i]))
  }

  /** None of the first `k` jobs was blocked, and no frame before the last of them broke. */
  ghost predicate RanThrough(s: Session, injections: seq<string>, k: nat)
    requires k <= |injections| <= |s.jobs|
  {
    && (forall i {:trigger ChainAfter(s, Successes(injections), i)} :: 0 <= i < k ==> !Blocked(s, ChainAfter(s, Successes(injections), i), i))
    && forall i :: 0 <= i < k - 1 ==> !R.BreaksFrame(injections[i])
  }

  lemma {:induction false} RanNext(s: Session, injections: seq<string>, k: nat)
    requires k < |injections| <= |s.jobs| && RanThrough(s, injections, k) && (k > 0 ==> !R.BreaksFrame(injections[k - 1]))
    ensures ChainAfter(s, Successes(injections), k + 1) == ChainStep(s, ChainAfter(s, Successes(injections), k), k, R.Succeeds(injections[k]))
    ensures !Blocked(s, ChainAfter(s, Successes(injections), k), k) ==> RanThrough(s, injections, k + 1)
  {
  }

  /** Runs a chain with arbitrary outcomes, stopping after the first broken frame or at the first blocked job. */
  method RunChain(s: Session, injections: seq<string>) returns (state: State, processed: nat, halted: int)
    requires ChainAdmitted(s) && |injections| == |s.jobs|
    ensures processed <= |s.jobs| && state.Model() == ChainAfter(s, Successes(injections), processed) && RanThrough(s, injections, processed)
    ensures halted == if processed > 0 && R.BreaksFrame(injections[processed - 1]) then 1 else if processed == |s.jobs| then 0 else 3
    ensures halted == 3 ==> Blocked(s, ChainAfter(s, Successes(injections), processed), processed)
  {
    state := new State(s);
    processed, halted := 0, 0;
    while processed < |s.jobs| && halted == 0
      invariant 0 <= processed <= |s.jobs| && fresh(state) && state.Valid() && state.session == s
      invariant state.Model() == ChainAfter(s, Successes(injections), processed) && RanThrough(s, injections, processed)
      invariant halted == if processed > 0 && R.BreaksFrame(injections[processed - 1]) then 1 else 0
    {
      RanNext(s, injections, processed);
      var stop := RunJob(state, processed, injections[processed]);
      if stop == 3 {
        halted := 3;
        return;
      }
      halted, processed := stop, processed + 1;
    }
  }

  /** One job of a run: 3 when it is blocked, 1 after a broken frame. */
  method RunJob(state: State, i: nat, injection: string) returns (stop: int)
    requires state.Valid() && i < |state.session.jobs|
    modifies state
    ensures state.Valid()
    ensures stop == if Blocked(state.session, old(state.Model()), i) then 3 else if R.BreaksFrame(injection) then 1 else 0
    ensures state.Model() == ChainStep(state.session, old(state.Model()), i, R.Succeeds(injection))
  {
    var resolved := state.Resolve(i);
    if resolved.None? {
      return 3;
    }
    var words := Compute(state.session.jobs[i].region, resolved.value.inputs);
    state.Commit(i, resolved.value.destination, words, R.Succeeds(injection));
    stop := if R.BreaksFrame(injection) then 1 else 0;
  }
}

/** The hash-chained completion journal: an append-only file of records with a verifying loader. */
module Journal {
  /** A completion event as it stands in a log. */
  datatype Event = Event(line: nat, job: int, epoch: int, sequence: int, cookie: string, status: int, detail: int, ticks: int, outputs: seq<int>)

  datatype Log = Log(hash: string, events: seq<Event>)

  /** Everything a record's hash covers. */
  datatype Body = Body(sequence: int, run: string, captured: string, log: string, event: Event, eventId: string, bindingId: string, previous: string)

  datatype Record = Record(body: Body, hash: string)

  /** The digests: of an event in its log, of its binding in a run, and of a record. */
  datatype Digests = Digests(event: (string, Event) -> string, binding: (string, Event) -> string, record: Body -> string)

  const ZERO_HASH: string := "0000000000000000000000000000000000000000000000000000000000000000"

  // ----- The chain -----

  function PreviousHash(records: seq<Record>, i: nat): string
    requires i <= |records|
  {
    if i == 0 then ZERO_HASH else records[i - 1].hash
  }

  /** The event identities of the first `k` records. */
  function EventIds(records: seq<Record>, k: nat): set<string>
    requires k <= |records|
  {
    if k == 0 then {} else EventIds(records, k - 1) + {records[k - 1].body.eventId}
  }

  /** The binding identities of the first `k` records. */
  function BindingIds(records: seq<Record>, k: nat): set<string>
    requires k <= |records|
  {
    if k == 0 then {} else BindingIds(records, k - 1) + {records[k - 1].body.bindingId}
  }

  lemma {:induction false} IdsPrefix(a: seq<Record>, b: seq<Record>, k: nat)
    requires k <= |a| && a <= b
    ensures EventIds(a, k) == EventIds(b, k) && BindingIds(a, k) == BindingIds(b, k)
  {
    if k > 0 {
      IdsPrefix(a, b, k - 1);
    }
  }

  /** Record `i` carries its own digest, its position, its predecessor's hash and identities not used before it. */
  ghost predicate LinkRight(d: Digests, records: seq<Record>, i: nat)
    requires i < |records|
  {
    var r := records[i];
    && r.hash == d.record(r.body) && r.body.sequence == i + 1 && r.body.previous == PreviousHash(records, i)
    && r.body.eventId !in EventIds(records, i) && r.body.bindingId !in BindingIds(records, i)
  }

  ghost predicate Chained(d: Digests, records: seq<Record>) {
    forall i {:trigger LinkRight(d, records, i)} :: 0 <= i < |records| ==> LinkRight(d, records, i)
  }

  lemma {:induction false} ChainAppend(d: Digests, records: seq<Record>, r: Record)
    requires Chained(d, records) && r.hash == d.record(r.body) && r.body.sequence == |records| + 1
    requires r.body.previous == PreviousHash(records, |records|)
    requires r.body.eventId !in EventIds(records, |records|) && r.body.bindingId !in BindingIds(records, |records|)
    ensures Chained(d, records + [r])
  {
    var all := records + [r];
    forall i | 0 <= i < |all| ensures LinkRight(d, all, i) {
      IdsPrefix(records, all, i);
      assert i < |records| ==> LinkRight(d, records, i);
    }
  }

  /** The loader accepts exactly the chained journals. */
  method Load(d: Digests, file: seq<Record>) returns (ok: bool)
    ensures ok <==> Chained(d, file)
  {
    var previous, events: set<string>, bindings: set<string>, i := ZERO_HASH, {}, {}, 0;
    while i < |file|
      invariant 0 <= i <= |file| && previous == PreviousHash(file, i)
      invariant events == EventIds(file, i) && bindings == BindingIds(file, i)
      invariant forall k {:trigger LinkRight(d, file, k)} :: 0 <= k < i ==> LinkRight(d, file, k)
    {
      var r := file[i];
      if r.hash != d.record(r.body) || r.body.sequence != i + 1 || r.body.previous != previous
         || r.body.eventId in events || r.body.bindingId in bindings {
        assert !LinkRight(d, file, i);
        return false;
      }
      assert LinkRight(d, file, i);
      previous, events, bindings := r.hash, events + {r.body.eventId}, bindings + {r.body.bindingId};
      i := i + 1;
    }
    ok := true;
  }

  // ----- What an ingest adds -----

  /** Event `j` of the log is neither in the journal nor earlier in the log. */
  predicate Fresh(d: Digests, records: seq<Record>, log: Log, j: nat)
    requires j < |log.events|
  {
    var id := d.event(log.hash, log.events[j]);
    id !in EventIds(records, |records|) && forall i :: 0 <= i < j ==> d.event(log.hash, log.events[i]) != id
  }

  /** A fresh event whose binding already belongs to another record. */
  ghost predicate ConflictsAt(d: Digests, records: seq<Record>, log: Log, run: string, j: nat)
    requires j < |log.events|
  {
    var id := d.binding(run, log.events[j]);
    Fresh(d, records, log, j) && (id in BindingIds(records, |records|)
                                  || exists i :: 0 <= i < j && Fresh(d, records, log, i) && d.binding(run, log.events[i]) == id)
  }

  ghost predicate Conflicts(d: Digests, records: seq<Record>, log: Log, run: string) {
    exists j {:trigger ConflictsAt(d, records, log, run, j)} :: 0 <= j < |log.events| && ConflictsAt(d, records, log, run, j)
  }

  function RecordFor(d: Digests, records: seq<Record>, log: Log, run: string, captured: string, e: Event): Record {
    var body := Body(|records| + 1, run, captured, log.hash, e, d.event(log.hash, e), d.binding(run, e), PreviousHash(records, |records|));
    Record(body, d.record(body))
  }

  /** The journal after the first `k` events: each fresh one adds a record linked to the last. */
  function Grown(d: Digests, records: seq<Record>, log: Log, run: string, captured: string, k: nat): seq<Record>
    requires k <= |log.events|
  {
    if k == 0 then records
    else
      var before := Grown(d, records, log, run, captured, k - 1);
      if Fresh(d, records, log, k - 1) then before + [RecordFor(d, before, log, run, captured, log.events[k - 1])] else before
  }

  lemma {:induction false} AppendIds(records: seq<Record>, r: Record)
    ensures EventIds(records + [r], |records| + 1) == EventIds(records, |records|) + {r.body.eventId}
    ensures BindingIds(records + [r], |records| + 1) == BindingIds(records, |records|) + {r.body.bindingId}
  {
    IdsPrefix(records, records + [r], |records|);
  }

  lemma {:induction false} GrownPrefix(d: Digests, records: seq<Record>, log: Log, run: string, captured: string, k: nat)
    requires k <= |log.events|
    ensures records <= Grown(d, records, log, run, captured, k)
  {
    if k > 0 {
      GrownPrefix(d, records, log, run, captured, k - 1);
    }
  }

  /** `x` identifies one of the first `k` events. */
  ghost predicate InLog(d: Digests, log: Log, k: nat, x: string)
    requires k <= |log.events|
  {
    exists i :: 0 <= i < k && d.event(log.hash, log.events[i]) == x
  }

  /** `x` is the binding of one of the fresh events among the first `k`. */
  ghost predicate FreshBinding(d: Digests, records: seq<Record>, log: Log, run: string, k: nat, x: string)
    requires k <= |log.events|
  {
    exists i :: 0 <= i < k && Fresh(d, records, log, i) && d.binding(run, log.events[i]) == x
  }

  /** The event identities of a grown journal are the old ones and those of the events taken in. */
  lemma {:induction false} GrownEvents(d: Digests, records: seq<Record>, log: Log, run: string, captured: string, k: nat, x: string)
    requires k <= |log.events|
    ensures var g := Grown(d, records, log, run, captured, k);
            x in EventIds(g, |g|) <==> x in EventIds(records, |records|) || InLog(d, log, k, x)
  {
    if k > 0 {
      GrownEvents(d, records, log, run, captured, k - 1, x);
      var before, e := Grown(d, records, log, run, captured, k - 1), log.events[k - 1];
      AppendIds(before, RecordFor(d, before, log, run, captured, e));
      assert InLog(d, log, k, x) <==> InLog(d, log, k - 1, x) || d.event(log.hash, e) == x;
    }
  }

  /** Its binding identities are the old ones and those of the fresh events. */
  lemma {:induction false} GrownBindings(d: Digests, records: seq<Record>, log: Log, run: string, captured: string, k: nat, x: string)
    requires k <= |log.events|
    ensures var g := Grown(d, records, log, run, captured, k);
            x in BindingIds(g, |g|) <==> x in BindingIds(records, |records|) || FreshBinding(d, records, log, run, k, x)
  {
    if k > 0 {
      GrownBindings(d, records, log, run, captured, k - 1, x);
      var before, e := Grown(d, records, log, run, captured, k - 1), log.events[k - 1];
      AppendIds(before, RecordFor(d, before, log, run, captured, e));
      assert FreshBinding(d, records, log, run, k, x) <==>
             FreshBinding(d, records, log, run, k - 1, x) || (Fresh(d, records, log, k - 1) && d.binding(run, e) == x);
    }
  }

  /** A journal grown without conflicts is still chained. */
  lemma {:induction false} GrownChained(d: Digests, records: seq<Record>, log: Log, run: string, captured: string, k: nat)
    requires k <= |log.events| && Chained(d, records)
    requires forall j {:trigger ConflictsAt(d, records, log, run, j)} :: 0 <= j < k ==> !ConflictsAt(d, records, log, run, j)
    ensures Chained(d, Grown(d, records, log, run, captured, k))
  {
    if k > 0 {
      GrownChained(d, records, log, run, captured, k - 1);
      var before, e := Grown(d, records, log, run, captured, k - 1), log.events[k - 1];
      if Fresh(d, records, log, k - 1) {
        assert !ConflictsAt(d, records, log, run, k - 1);
        GrownEvents(d, records, log, run, captured, k - 1, d.event(log.hash, e));
        GrownBindings(d, records, log, run, captured, k - 1, d.binding(run, e));
        ChainAppend(d, before, RecordFor(d, before, log, run, captured, log.events[k - 1]));
      }
    }
  }

  // ----- The store -----

  datatype Ingested = Appended(count: nat) | Corrupt | Conflict

  class Store {
    var records: seq<Record>

    constructor ()
      ensures records == []
    {
      records := [];
    }

    /**
      Ingests a log.  A corrupt journal or a conflict changes nothing; otherwise every event of the log is in the journal
      afterwards, the old records are untouched, and the loader accepts the result.
     */
    method Ingest(d: Digests, log: Log, run: string, captured: string) returns (r: Ingested)
      modifies this
      ensures r.Corrupt? <==> !Chained(d, old(records))
      ensures r.Conflict? <==> Chained(d, old(records)) && Conflicts(d, old(records), log, run)
      ensures !r.Appended? ==> records == old(records)
      ensures r.Appended? ==> records == Grown(d, old(records), log, run, captured, |log.events|) && Chained(d, records)
      ensures r.Appended? ==> |records| == |old(records)| + r.count && old(records) <= records
      ensures r.Appended? ==> forall i :: 0 <= i < |log.events| ==> d.event(log.hash, log.events[i]) in EventIds(records, |records|)
    {
      var loaded := Load(d, records);
      if !loaded {
        return Corrupt;
      }
      var existing, grown, known, bindings, j := records, records, EventIds(records, |records|), BindingIds(records, |records|), 0;
      while j < |log.events|
        invariant 0 <= j <= |log.events| && records == existing && grown == Grown(d, existing, log, run, captured, j)
        invariant known == EventIds(grown, |grown|) && bindings == BindingIds(grown, |grown|)
        invariant forall k {:trigger ConflictsAt(d, existing, log, run, k)} :: 0 <= k < j ==> !ConflictsAt(d, existing, log, run, k)
      {
        var e := log.events[j];
        var id, binding := d.event(log.hash, e), d.binding(run, e);
        GrownEvents(d, existing, log, run, captured, j, id);
        GrownBindings(d, existing, log, run, captured, j, binding);
        assert id in known <==> !Fresh(d, existing, log, j);
        if id !in known {
          if binding in bindings {
            assert ConflictsAt(d, existing, log, run, j);
            return Conflict;
          }
          var record := RecordFor(d, grown, log, run, captured, e);
          AppendIds(grown, record);
          grown, known, bindings := grown + [record], known + {id}, bindings + {binding};
        }
        j := j + 1;
      }
      AllIngested(d, existing, log, run, captured);
      GrownPrefix(d, existing, log, run, captured, |log.events|);
      GrownChained(d, existing, log, run, captured, |log.events|);
      records := grown;
      r := Appended(|grown| - |existing|);
    }
  }

  lemma {:induction false} AllIngested(d: Digests, records: seq<Record>, log: Log, run: string, captured: string)
    ensures var g := Grown(d, records, log, run, captured, |log.events|);
            forall i :: 0 <= i < |log.events| ==> d.event(log.hash, log.events[i]) in EventIds(g, |g|)
  {
    var g := Grown(d, records, log, run, captured, |log.events|);
    forall i | 0 <= i < |log.events| ensures d.event(log.hash, log.events[i]) in EventIds(g, |g|) {
      GrownEvents(d, records, log, run, captured, |log.events|, d.event(log.hash, log.events[i]));
    }
  }

  lemma {:induction false} NothingFresh(d: Digests, records: seq<Record>, log: Log, run: string, captured: string, k: nat)
    requires k <= |log.events| && forall i :: 0 <= i < |log.events| ==> d.event(log.hash, log.events[i]) in EventIds(records, |records|)
    ensures Grown(d, records, log, run, captured, k) == records
  {
    if k > 0 {
      NothingFresh(d, records, log, run, captured, k - 1);
    }
  }

  /** Ingesting a log again appends nothing and never conflicts, whatever run it is claimed for. */
  lemma {:induction false} RepeatAppendsNothing(d: Digests, records: seq<Record>, log: Log, run: string, captured: string, again: string, later: string)
    requires Chained(d, records) && !Conflicts(d, records, log, run)
    ensures var after := Grown(d, records, log, run, captured, |log.events|);
            && Chained(d, after) && !Conflicts(d, after, log, again)
            && Grown(d, after, log, again, later, |log.events|) == after
  {
    var after := Grown(d, records, log, run, captured, |log.events|);
    forall j {:trigger ConflictsAt(d, records, log, run, j)} | 0 <= j < |log.events| ensures !ConflictsAt(d, records, log, run, j) {
    }
    GrownChained(d, records, log, run, captured, |log.events|);
    AllIngested(d, records, log, run, captured);
    NothingFresh(d, after, log, again, later, |log.events|);
    forall j | 0 <= j < |log.events| ensures !ConflictsAt(d, after, log, again, j) {
      assert !Fresh(d, after, log, j);
    }
  }

  /** A body of one journal and a different body of the other have the same digest. */
  ghost predicate BodiesCollide(d: Digests, a: seq<Record>, b: seq<Record>) {
    exists i, j :: 0 <= i < |a| && 0 <= j < |b| && a[i].body != b[j].body && d.record(a[i].body) == d.record(b[j].body)
  }

  lemma {:induction false} SameHashSameBody(d: Digests, a: seq<Record>, b: seq<Record>, i: nat, j: nat)
    requires Chained(d, a) && Chained(d, b) && i < |a| && j < |b| && a[i].hash == b[j].hash && !BodiesCollide(d, a, b)
    ensures a[i] == b[j]
  {
    assert LinkRight(d, a, i) && LinkRight(d, b, j);
  }

  lemma {:induction false} LinkedBack(d: Digests, a: seq<Record>, b: seq<Record>, k: nat)
    requires Chained(d, a) && Chained(d, b) && k <= |a| && k <= |b| && !BodiesCollide(d, a, b)
    requires k > 0 ==> a[k - 1] == b[k - 1]
    ensures a[..k] == b[..k]
  {
    if k > 0 {
      if k > 1 {
        assert LinkRight(d, a, k - 1) && LinkRight(d, b, k - 1);
        SameHashSameBody(d, a, b, k - 2, k - 2);
      }
      LinkedBack(d, a, b, k - 1);
      assert a[..k] == a[..k - 1] + [a[k - 1]] && b[..k] == b[..k - 1] + [b[k - 1]];
    }
  }

  /**
    The last hash commits to the whole history: two accepted journals that end in the same hash are equal, unless a
    body in one and a different body in the other have the same digest.
   */
  lemma {:induction false} HeadCommitsHistory(d: Digests, a: seq<Record>, b: seq<Record>)
    requires Chained(d, a) && Chained(d, b) && a != [] && b != [] && a[|a| - 1].hash == b[|b| - 1].hash
    ensures a == b || BodiesCollide(d, a, b)
  {
    if !BodiesCollide(d, a, b) {
      SameHashSameBody(d, a, b, |a| - 1, |b| - 1);
      assert LinkRight(d, a, |a| - 1) && LinkRight(d, b, |b| - 1);
      LinkedBack(d, a, b, |a|);
      assert a[..|a|] == a && b[..|b|] == b;
    }
  }
}

/** The order of array stages: repeatedly the least ready name. */
module StageOrder {
  import opened Base
  import opened Scheduling
  import opened ArrayProgram

  // ----- Names in order -----

  /** Lexicographic order of names. */
  predicate Before(a: string, b: string) {
    if b == "" then false
    else if a == "" then true
    else a[0] < b[0] || (a[0] == b[0] && Before(a[1..], b[1..]))
  }

  lemma {:induction false} BeforeTotal(a: string, b: string)
    ensures a == b || Before(a, b) || Before(b, a)
  {
    if a != "" && b != "" && a[0] == b[0] {
      BeforeTotal(a[1..], b[1..]);
      assert a == [a[0]] + a[1..] && b == [b[0]] + b[1..];
    }
  }

  lemma {:induction false} BeforeIrreflexive(a: string)
    ensures !Before(a, a)
  {
    if a != "" {
      BeforeIrreflexive(a[1..]);
    }
  }

  lemma {:induction false} BeforeTransitive(a: string, b: string, c: string)
    requires Before(a, b) && Before(b, c)
    ensures Before(a, c)
  {
    if a != "" && a[0] == b[0] && b[0] == c[0] {
      BeforeTransitive(a[1..], b[1..], c[1..]);
    }
  }

  ghost predicate Sorted(s: seq<string>) {
    forall i, j :: 0 <= i < j < |s| ==> Before(s[i], s[j])
  }

  function Insert(x: string, s: seq<string>): seq<string> {
    if s == [] then [x] else if Before(x, s[0]) then [x] + s else [s[0]] + Insert(x, s[1..])
  }

  lemma {:induction false} InsertMembers(x: string, s: seq<string>, y: string)
    ensures y in Insert(x, s) <==> y == x || y in s
  {
    if s != [] {
      assert s == [s[0]] + s[1..];
      InsertMembers(x, s[1..], y);
    }
  }

  lemma {:induction false} InsertAdds(x: string, s: seq<string>)
    ensures Elements(Insert(x, s)) == Elements(s) + {x}
  {
    forall y ensures y in Insert(x, s) <==> y == x || y in s { InsertMembers(x, s, y); }
  }

  lemma {:induction false} InsertSorted(x: string, s: seq<string>)
    requires Sorted(s) && x !in s
    ensures Sorted(Insert(x, s))
  {
    if s != [] {
      var first, rest := s[0], s[1..];
      if Before(x, first) {
        forall j | 0 <= j < |s| ensures Before(x, s[j]) {
          if j > 0 { BeforeTransitive(x, first, s[j]); }
        }
      } else {
        BeforeTotal(x, first);
        InsertSorted(x, rest);
        var tail := Insert(x, rest);
        forall j | 0 <= j < |tail| ensures Before(first, tail[j]) {
          InsertMembers(x, rest, tail[j]);
          if tail[j] != x {
            var k :| 0 <= k < |rest| && rest[k] == tail[j];
            assert s[k + 1] == tail[j];
          }
        }
      }
    }
  }

  lemma {:induction false} SortedDistinct(s: seq<string>)
    requires Sorted(s)
    ensures Distinct(s)
  {
    forall i, j | 0 <= i < j < |s| ensures s[i] != s[j] {
      BeforeIrreflexive(s[i]);
    }
  }

  method SortNames(names: set<string>) returns (s: seq<string>)
    ensures Elements(s) == names && Sorted(s)
  {
    s := [];
    var rest := names;
    while rest != {}
      invariant Elements(s) == names - rest && rest <= names && Sorted(s)
      decreases |rest|
    {
      var x :| x in rest;
      assert x !in Elements(s);
      assert Sorted(Insert(x, s)) by { InsertSorted(x, s); }
      InsertAdds(x, s);
      assert names - (rest - {x}) == names - rest + {x};
      s, rest := Insert(x, s), rest - {x};
    }
  }

  // ----- Dependencies -----

  function StageDeps(s: Stage): (deps: set<string>)
    ensures forall i :: 0 <= i < |s.inputs| && s.inputs[i].From? ==> s.inputs[i].stage in deps
  {
    set i | 0 <= i < |s.inputs| && s.inputs[i].From? :: s.inputs[i].stage
  }

  function StageGraph(p: Program, names: seq<string>): Graph {
    Graph(names, map n | n in p.stages :: StageDeps(p.stages[n]))
  }

  /** Every stage once, after the stages it reads. */
  ghost predicate StageOrdered(p: Program, order: seq<string>) {
    && Elements(order) == p.stages.Keys
    && forall k {:trigger StagePlaced(p, order, k)} :: 0 <= k < |order| ==> StagePlaced(p, order, k)
  }

  ghost predicate StagePlaced(p: Program, order: seq<string>, k: nat)
    requires k < |order|
  {
    order[k] in p.stages && order[k] !in order[..k] && StageDeps(p.stages[order[k]]) <= Elements(order[..k])
  }

  /** `names` lists the stages in name order. */
  ghost predicate NameOrder(p: Program, names: seq<string>) {
    Sorted(names) && Elements(names) == p.stages.Keys && WellFormed(StageGraph(p, names))
  }

  /** The stage order: the greedy schedule of the stages listed by name, none when some wait for each other. */
  ghost predicate OrderIs(p: Program, r: Option<seq<string>>) {
    exists names :: NameOrder(p, names) && r == Schedule(StageGraph(p, names))
  }

  lemma {:induction false} SortedUnique(a: seq<string>, b: seq<string>)
    requires Sorted(a) && Sorted(b) && Elements(a) == Elements(b)
    ensures a == b
  {
    EmptyElements(a);
    EmptyElements(b);
    if a != [] {
      assert a[0] in Elements(a) && b[0] in Elements(b);
      FirstIsLeast(a, b[0]);
      FirstIsLeast(b, a[0]);
      if a[0] != b[0] {
        BeforeTransitive(a[0], b[0], a[0]);
        BeforeIrreflexive(a[0]);
      }
      TailElements(a);
      TailElements(b);
      SortedUnique(a[1..], b[1..]);
      assert a == [a[0]] + a[1..] && b == [b[0]] + b[1..];
    }
  }

  lemma {:induction false} EmptyElements(s: seq<string>)
    ensures s == [] <==> Elements(s) == {}
  {
    if s != [] {
      assert s[0] in Elements(s);
    }
  }

  lemma {:induction false} FirstIsLeast(s: seq<string>, x: string)
    requires Sorted(s) && x in s
    ensures x == s[0] || Before(s[0], x)
  {
    var i :| 0 <= i < |s| && s[i] == x;
  }

  lemma {:induction false} TailElements(s: seq<string>)
    requires Sorted(s) && s != []
    ensures Sorted(s[1..]) && Elements(s[1..]) == Elements(s) - {s[0]}
  {
    BeforeIrreflexive(s[0]);
    forall x ensures x in s[1..] <==> x in s && x != s[0] {
      if x in s[1..] {
        var i :| 0 <= i < |s[1..]| && s[1..][i] == x;
        assert Before(s[0], s[i + 1]);
      }
    }
  }

  /** There is only one stage order. */
  lemma {:induction false} OrderUnique(p: Program, a: Option<seq<string>>, b: Option<seq<string>>)
    requires OrderIs(p, a) && OrderIs(p, b)
    ensures a == b
  {
    var m :| NameOrder(p, m) && a == Schedule(StageGraph(p, m));
    var n :| NameOrder(p, n) && b == Schedule(StageGraph(p, n));
    SortedUnique(m, n);
  }

  /** A stage order exists exactly when no stages wait for each other. */
  lemma {:induction false} OrderedIffAcyclic(p: Program, r: Option<seq<string>>, names: seq<string>)
    requires OrderIs(p, r) && NameOrder(p, names) && forall n :: n in p.stages ==> StageDeps(p.stages[n]) <= p.stages.Keys
    ensures r.Some? <==> Acyclic(StageGraph(p, names))
  {
    OrderUnique(p, r, Schedule(StageGraph(p, names)));
    var g := StageGraph(p, names);
    forall x, d | x in g.deps && d in g.deps[x] ensures d in g.ids {
      assert d in Elements(g.ids);
    }
    ScheduleSucceedsIffAcyclic(g);
  }

  /** Orders the stages by least ready name. */
  method OrderStages(p: Program) returns (r: Option<seq<string>>)
    ensures r.Some? ==> StageOrdered(p, r.value)
    ensures OrderIs(p, r)
  {
    var names := SortNames(p.stages.Keys);
    SortedDistinct(names);
    var g := StageGraph(p, names);
    r := ScheduledIds(g);
    assert NameOrder(p, names);
    if r.Some? {
      ScheduleIsTopological(g);
      OrderedStages(p, g, r.value);
    }
  }

  lemma {:induction false} OrderedStages(p: Program, g: Graph, order: seq<string>)
    requires Topological(g, order) && Elements(g.ids) == p.stages.Keys && g == StageGraph(p, g.ids)
    ensures StageOrdered(p, order)
  {
    forall k | 0 <= k < |order| ensures StagePlaced(p, order, k) {
      assert order[k] in Elements(order);
    }
  }

  /** At every point the next stage is the least name whose producers are all placed. */
  lemma {:induction false} LeastReadyName(p: Program, names: seq<string>, k: nat, other: string)
    requires Sorted(names) && Elements(names) == p.stages.Keys && WellFormed(StageGraph(p, names))
    requires Schedule(StageGraph(p, names)).Some? && k < |Schedule(StageGraph(p, names)).value|
    requires Ready(StageGraph(p, names), Schedule(StageGraph(p, names)).value[..k], other)
    ensures other == Schedule(StageGraph(p, names)).value[k] || Before(Schedule(StageGraph(p, names)).value[k], other)
  {
    var g := StageGraph(p, names);
    var order := Schedule(g).value;
    assert NextReady(g, order[..k], 0) == Some(order[k]) by { ChosenFirst(g, order, k); }
    assert order[k] in names && Position(names, order[k]) <= Position(names, other) by { FirstReadyIsEarliest(g, order[..k], order[k], other); }
    SortedPositions(names, order[k], other);
  }

  lemma {:induction false} SortedPositions(names: seq<string>, a: string, b: string)
    requires Sorted(names) && a in names && b in names && Position(names, a) <= Position(names, b)
    ensures a == b || Before(a, b)
  {
    assert names[Position(names, a)] == a && names[Position(names, b)] == b;
  }
}

/** The two interpreters of an affine region as loops: named values, and the configuration on eight registers. */
module AffineExecution {
  import opened Base
  import opened Tables
  import opened RegisterMachine
  import opened Encoding
  import opened AffineFold
  import opened AffineCompiler

  // ----- reference -----

  ghost predicate InputsFit(r: Region, inputs: (seq<int>, seq<int>)) {
    |inputs.0| == r.lengthA && |inputs.1| == r.lengthB && AllU32(inputs.0) && AllU32(inputs.1)
  }

  lemma {:induction false} MapEnvStep(r: Region, p: Point, m: nat)
    requires m < |r.nodes|
    ensures var env := Env(FoldItems(r), MapMeaning(r, p), m);
            Env(FoldItems(r), MapMeaning(r, p), m + 1) == env[r.nodes[m].id := MapValue(r, r.nodes[m], Arguments(env, r.nodes[m].args), p)]
  {
  }

  method MapPoint(r: Region, p: Point) returns (v: int)
    ensures v == MapResult(r, p)
  {
    var values: map<string, int> := map[];
    var m := 0;
    while m < |r.nodes|
      invariant 0 <= m <= |r.nodes| && values == Env(FoldItems(r), MapMeaning(r, p), m)
    {
      MapEnvStep(r, p, m);
      values := values[r.nodes[m].id := MapValue(r, r.nodes[m], Arguments(values, r.nodes[m].args), p)];
      m := m + 1;
    }
    v := Lookup(values, r.result);
  }

  method ReferenceCell(r: Region, inputs: (seq<int>, seq<int>), i: int, j: int) returns (acc: int)
    requires r.extent >= 0
    ensures acc == Folded(r.fold, MapTerm(r, inputs, i, j), r.extent)
  {
    acc := 0;
    var k := 0;
    while k < r.extent
      invariant 0 <= k <= r.extent && acc == Folded(r.fold, MapTerm(r, inputs, i, j), k)
    {
      var v := MapPoint(r, Point(inputs, i, j, k));
      acc := Combine(r.fold, acc, v);
      k := k + 1;
    }
  }

  /** The direct interpreter; it refuses regions that do not compile and inputs of the wrong size or range. */
  method Reference(r: Region, inputs: (seq<int>, seq<int>)) returns (table: Option<seq<int>>)
    ensures table.Some? <==> Admitted(r) && InputsFit(r, inputs)
    ensures table.Some? ==> table.value == Table(r.rows, r.columns, ReferenceField(r, inputs))
  {
    var admitted := CompileRegion(r);
    if admitted.None? || |inputs.0| != r.lengthA || |inputs.1| != r.lengthB || !AllU32(inputs.0) || !AllU32(inputs.1) {
      return None;
    }
    ghost var f := ReferenceField(r, inputs);
    var result: seq<int> := [];
    var i := 0;
    while i < r.rows
      invariant 0 <= i <= r.rows && Partial(r.columns, f, result, i, 0)
    {
      var j := 0;
      while j < r.columns
        invariant 0 <= j <= r.columns && Partial(r.columns, f, result, i, j)
      {
        var acc := ReferenceCell(r, inputs, i, j);
        AppendCell(r.columns, f, result, i, j);
        result := result + [acc];
        j := j + 1;
      }
      AppendRow(r.columns, f, result, i);
      i := i + 1;
    }
    TableDone(r.rows, r.columns, f, result);
    table := Some(result);
  }

  // ----- raveil_fold_evaluate -----

  method YieldPoint(c: seq<int>, p: Point) returns (v: int)
    requires |c| == CONFIG_WORDS && 1 <= c[8] <= 16
    ensures v == YieldAt(c, p)
  {
    var values := [0, 0, 0, 0, 0, 0, 0, 0];
    var pc := 0;
    while pc < c[8] - 1
      invariant 0 <= pc <= c[8] - 1 && values == RunFold(c, p, pc)
    {
      var w := c[49 + pc];
      if OpcodeOf(w) != 3 {
        values := values[DestinationOf(w) := FoldWordValue(c, w, values, p)];
      }
      pc := pc + 1;
    }
    v := Register(values, LeftOf(c[49 + pc]));
  }

  method MachineCell(c: seq<int>, inputs: (seq<int>, seq<int>), i: int, j: int) returns (acc: int)
    requires |c| == CONFIG_WORDS && 1 <= c[8] <= 16 && c[3] >= 0
    ensures acc == MachineField(c, inputs)(i, j)
  {
    acc := 0;
    var k, fold := 0, if c[4] == 0 then SumFold else MaxFold;
    while k < c[3]
      invariant 0 <= k <= c[3] && acc == Folded(fold, YieldTerm(c, inputs, i, j), k)
    {
      var v := YieldPoint(c, Point(inputs, i, j, k));
      acc := Combine(fold, acc, v);
      k := k + 1;
    }
  }

  /** The configuration machine over every output cell; it refuses configurations its check refuses. */
  method Evaluate(c: seq<int>, inputs: (seq<int>, seq<int>)) returns (table: Option<seq<int>>)
    ensures table.Some? <==> ConfigValid(c)
    ensures table.Some? ==> table.value == Table(c[1], c[2], MachineField(c, inputs))
  {
    var valid := ValidateConfig(c);
    if !valid {
      return None;
    }
    ghost var f := MachineField(c, inputs);
    var rows, columns, output, i := c[1], c[2], [], 0;
    while i < rows
      invariant 0 <= i <= rows && Partial(columns, f, output, i, 0)
    {
      var j := 0;
      while j < columns
        invariant 0 <= j <= columns && Partial(columns, f, output, i, j)
      {
        var acc := MachineCell(c, inputs, i, j);
        AppendCell(columns, f, output, i, j);
        output := output + [acc];
        j := j + 1;
      }
      AppendRow(columns, f, output, i);
      i := i + 1;
    }
    TableDone(rows, columns, f, output);
    table := Some(output);
  }

  /** For every region that compiles and inputs that fit, the executed configuration equals the reference. */
  lemma {:induction false} CompiledRegionCorrect(r: Region, c: seq<int>, inputs: (seq<int>, seq<int>))
    requires Admitted(r) && CompiledRegion(r, c) && ConfigValid(c) && InputsFit(r, inputs)
    ensures Table(c[1], c[2], MachineField(c, inputs)) == Table(r.rows, r.columns, ReferenceField(r, inputs))
  {
    var dest, sources, code :| LowersRegion(r, dest, sources, code) && c == ConfigOf(r, code);
    LoweringCorrect(r, dest, sources, code, inputs);
    ConfigLayout(r, code);
  }

  /** No view of an admitted region ever reads outside its input, in the named map or in the machine. */
  lemma {:induction false} AdmittedReadsInRange(r: Region, v: nat, i: int, j: int, k: int, inputs: (seq<int>, seq<int>))
    requires Admitted(r) && InputsFit(r, inputs) && v < |r.views| && InPoint(r, i, j, k)
    ensures var view := r.views[v].view; 0 <= AddressAt(view, i, j, k) < |Input(Point(inputs, i, j, k), view.buffer)| <= 324
  {
    assert ViewBounded(r, r.views[v].view);
    ViewInRange(r, r.views[v].view, i, j, k);
  }
}

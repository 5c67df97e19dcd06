/** Lowering of affine regions to configurations, and its correctness against the configuration machine. */
module AffineCompiler {
  import opened Base
  import opened Tables
  import opened Registers
  import opened RegisterMachine
  import opened Encoding
  import opened AffineFold

  // ----- Encoding -----

  function MapOpcode(op: MapOp): int {
    match op
    case LoadOp => 1
    case AddOp => 2
    case MaxOp => 4
    case MulOp => 5
    case AddImmOp => 6
    case GeImmOp => 7
  }

  function MapWord(r: Region, node: MapNode, d: nat, sources: seq<nat>): int
    requires NodeShaped(r, node) && |sources| == OpArity(node.op)
  {
    var head := MapOpcode(node.op) * BIT_28 + d * BIT_25;
    match node.op
    case LoadOp => head + Position(ViewNames(r), node.view.value) * BIT_22
    case AddOp | MaxOp | MulOp => head + sources[0] * BIT_22 + sources[1] * BIT_19
    case AddImmOp | GeImmOp => head + sources[0] * BIT_22 + node.imm.value
  }

  function YieldWord(source: nat): int {
    3 * BIT_28 + source * BIT_22
  }

  /** Code that encodes the nodes and the yield under a register assignment. */
  ghost predicate LowersRegion(r: Region, dest: seq<nat>, sources: seq<seq<nat>>, code: seq<int>) {
    var n, items := |r.nodes|, FoldItems(r);
    && Formed(r) && |dest| == |sources| == |code| == n + 1
    && LinearScan(items, false, dest)
    && (forall k :: 0 <= k <= n ==> ReadsFrom(items, dest, k, sources[k]))
    && (forall k :: 0 <= k < n ==> code[k] == MapWord(r, r.nodes[k], dest[k], sources[k]))
    && code[n] == YieldWord(sources[n][0])
  }

  // ----- The 65-word configuration -----

  function ViewWords(views: seq<NamedView>): (w: seq<int>)
    ensures |w| == 5 * |views|
  {
    if views == [] then []
    else
      var v := views[|views| - 1].view;
      ViewWords(views[..|views| - 1]) + [v.buffer, v.base, v.si, v.sj, v.sk]
  }

  function FoldIndex(fold: Fold): int {
    match fold case SumFold => 0 case MaxFold => 1
  }

  function ConfigOf(r: Region, code: seq<int>): (c: seq<int>)
    requires |r.views| <= 8 && |code| <= 16
    ensures |c| == CONFIG_WORDS
  {
    [FOLD_MAGIC, r.rows, r.columns, r.extent, FoldIndex(r.fold), r.lengthA, r.lengthB, |r.views|, |code|]
    + (ViewWords(r.views) + Zeros(40 - 5 * |r.views|)) + (code + Zeros(16 - |code|))
  }

  lemma {:induction false} ViewWordsAt(views: seq<NamedView>, v: nat)
    requires v < |views|
    ensures var w, view := ViewWords(views), views[v].view;
            w[5 * v] == view.buffer && w[5 * v + 1] == view.base && w[5 * v + 2] == view.si
            && w[5 * v + 3] == view.sj && w[5 * v + 4] == view.sk
  {
    var front := views[..|views| - 1];
    if v < |views| - 1 {
      ViewWordsAt(front, v);
      assert forall x :: 0 <= x < 5 * |front| ==> ViewWords(views)[x] == ViewWords(front)[x];
    }
  }

  lemma {:induction false} ConfigLayout(r: Region, code: seq<int>)
    requires |r.views| <= 8 && |code| <= 16
    ensures var c := ConfigOf(r, code);
            && c[0] == FOLD_MAGIC && c[1] == r.rows && c[2] == r.columns && c[3] == r.extent && c[4] == FoldIndex(r.fold)
            && c[5] == r.lengthA && c[6] == r.lengthB && c[7] == |r.views| && c[8] == |code|
            && (forall pc :: 0 <= pc < 16 ==> c[49 + pc] == if pc < |code| then code[pc] else 0)
            && (forall x :: 0 <= x < 40 ==> c[9 + x] == if x < 5 * |r.views| then ViewWords(r.views)[x] else 0)
  {
  }

  lemma {:induction false} ConfigView(r: Region, code: seq<int>, v: nat)
    requires |r.views| <= 8 && |code| <= 16 && v < |r.views|
    ensures ViewAt(ConfigOf(r, code), v) == r.views[v].view
  {
    ViewWordsAt(r.views, v);
    var c, w := ConfigOf(r, code), ViewWords(r.views);
    assert forall x :: 0 <= x < 40 ==> c[9 + x] == if x < 5 * |r.views| then w[x] else 0 by { ConfigLayout(r, code); }
    assert c[9 + 5 * v] == w[5 * v] && c[9 + (5 * v + 1)] == w[5 * v + 1] && c[9 + (5 * v + 2)] == w[5 * v + 2]
           && c[9 + (5 * v + 3)] == w[5 * v + 3] && c[9 + (5 * v + 4)] == w[5 * v + 4];
  }

  // ----- One word does what its node does -----

  predicate InputsU32(p: Point) {
    AllU32(p.inputs.0) && AllU32(p.inputs.1)
  }

  lemma {:induction false} ReadIsU32(v: View, p: Point)
    requires InputsU32(p)
    ensures 0 <= ReadView(v, p) < U32
  {
  }

  lemma {:induction false} MapWordFields(r: Region, node: MapNode, d: nat, sources: seq<nat>)
    requires NodeShaped(r, node) && |r.views| <= 8 && d < REGISTERS && |sources| == OpArity(node.op) && AllRegisters(sources)
    ensures var w := MapWord(r, node, d, sources);
            && 0 <= w < U32 && OpcodeOf(w) == MapOpcode(node.op) && DestinationOf(w) == d
            && (node.op == LoadOp ==> LeftOf(w) == Position(ViewNames(r), node.view.value) && w % BIT_22 == 0)
            && (OpArity(node.op) == 2 ==> LeftOf(w) == sources[0] && RightOf(w) == sources[1] && w % BIT_19 == 0)
            && (Immediate(node.op) ==> LeftOf(w) == sources[0] && ImmediateOf(w) == node.imm.value)
  {
    match node.op
    case LoadOp => ImmediateFields(1, d, Position(ViewNames(r), node.view.value), 0);
    case AddOp => BinaryFields(2, d, sources[0], sources[1]);
    case MaxOp => BinaryFields(4, d, sources[0], sources[1]);
    case MulOp => BinaryFields(5, d, sources[0], sources[1]);
    case AddImmOp => ImmediateFields(6, d, sources[0], node.imm.value);
    case GeImmOp => ImmediateFields(7, d, sources[0], node.imm.value);
  }

  /** The decoded fields decide the value a word computes. */
  lemma {:induction false} MapFieldsStep(r: Region, c: seq<int>, node: MapNode, w: int, sources: seq<nat>, file: seq<int>, p: Point)
    requires |c| == CONFIG_WORDS && NodeShaped(r, node) && node.op != LoadOp
    requires |file| == REGISTERS && AllU32(file) && |sources| == OpArity(node.op) && AllRegisters(sources)
    requires OpcodeOf(w) == MapOpcode(node.op) && LeftOf(w) == sources[0]
    requires OpArity(node.op) == 2 ==> RightOf(w) == sources[1]
    requires Immediate(node.op) ==> ImmediateOf(w) == node.imm.value
    ensures FoldWordValue(c, w, file, p) == MapValue(r, node, Fetch(file, sources), p)
    ensures 0 <= MapValue(r, node, Fetch(file, sources), p) < U32
  {
    var args := Fetch(file, sources);
    assert args[0] == Register(file, LeftOf(w)) && 0 <= args[0] < U32;
    if OpArity(node.op) == 2 {
      assert args[1] == Register(file, RightOf(w)) && 0 <= args[1] < U32;
    }
  }

  lemma {:induction false} MapWordStep(r: Region, c: seq<int>, node: MapNode, d: nat, sources: seq<nat>, file: seq<int>, p: Point)
    requires |c| == CONFIG_WORDS && NodeShaped(r, node) && |r.views| <= 8
    requires forall v :: 0 <= v < |r.views| ==> ViewAt(c, v) == r.views[v].view
    requires d < REGISTERS && |file| == REGISTERS && AllU32(file) && InputsU32(p)
    requires |sources| == OpArity(node.op) && AllRegisters(sources)
    ensures var w := MapWord(r, node, d, sources);
            && OpcodeOf(w) == MapOpcode(node.op) && DestinationOf(w) == d
            && FoldWordValue(c, w, file, p) == MapValue(r, node, Fetch(file, sources), p)
            && 0 <= MapValue(r, node, Fetch(file, sources), p) < U32
  {
    MapWordFields(r, node, d, sources);
    if node.op == LoadOp {
      var v := Position(ViewNames(r), node.view.value);
      ReadIsU32(r.views[v].view, p);
    } else {
      MapFieldsStep(r, c, node, MapWord(r, node, d, sources), sources, file, p);
    }
  }

  lemma {:induction false} RegionSources(r: Region, dest: seq<nat>, sources: seq<seq<nat>>, code: seq<int>, k: nat)
    requires LowersRegion(r, dest, sources, code) && k <= |r.nodes|
    ensures AllRegisters(sources[k]) && |sources[k]| == |FoldItems(r)[k].uses|
    ensures k < |r.nodes| ==> dest[k] < REGISTERS
  {
    var items := FoldItems(r);
    assert ReadsFrom(items, dest, k, sources[k]);
    forall j | 0 <= j < |sources[k]| ensures sources[k][j] < REGISTERS {
      assert DefinedBefore(items, k, items[k].uses[j]);
      var i :| 0 <= i < k && items[i].id == items[k].uses[j] && items[i].defines;
      assert LowestFree(items, false, dest, i);
    }
    assert LowestFree(items, false, dest, k);
  }

  /** Executing the configuration is executing the nodes on the register file. */
  lemma {:induction false} ConfigWordFollows(r: Region, dest: seq<nat>, sources: seq<seq<nat>>, code: seq<int>, p: Point, m: nat, file: seq<int>)
    requires LowersRegion(r, dest, sources, code) && InputsU32(p) && m < |r.nodes| && |file| == REGISTERS && AllU32(file)
    ensures var c := ConfigOf(r, code);
            && dest[m] < REGISTERS && c[49 + m] == code[m] && OpcodeOf(code[m]) != 3 && DestinationOf(code[m]) == dest[m]
            && FoldWordValue(c, code[m], file, p) == MapValue(r, r.nodes[m], Fetch(file, sources[m]), p)
            && 0 <= FoldWordValue(c, code[m], file, p) < U32
  {
    var c, node := ConfigOf(r, code), r.nodes[m];
    assert c[49 + m] == code[m] by { ConfigLayout(r, code); }
    assert forall v :: 0 <= v < |r.views| ==> ViewAt(c, v) == r.views[v].view by {
      forall v | 0 <= v < |r.views| ensures ViewAt(c, v) == r.views[v].view {
        ConfigView(r, code, v);
      }
    }
    RegionSources(r, dest, sources, code, m);
    MapWordStep(r, c, node, dest[m], sources[m], file, p);
  }

  lemma {:induction false} ConfigFollowsFile(r: Region, dest: seq<nat>, sources: seq<seq<nat>>, code: seq<int>, p: Point, k: nat)
    requires LowersRegion(r, dest, sources, code) && InputsU32(p) && k <= |r.nodes|
    ensures RunFold(ConfigOf(r, code), p, k) == File(FoldItems(r), dest, sources, MapMeaning(r, p), k)
    ensures AllU32(RunFold(ConfigOf(r, code), p, k))
  {
    if k > 0 {
      var m, c := k - 1, ConfigOf(r, code);
      ConfigFollowsFile(r, dest, sources, code, p, m);
      var file := RunFold(c, p, m);
      ConfigWordFollows(r, dest, sources, code, p, m, file);
      RegionFileStep(r, dest, sources, p, m);
    }
  }

  lemma {:induction false} RegionFileStep(r: Region, dest: seq<nat>, sources: seq<seq<nat>>, p: Point, k: nat)
    requires |dest| == |sources| == |r.nodes| + 1 && k < |r.nodes| && dest[k] < REGISTERS
    ensures var file := File(FoldItems(r), dest, sources, MapMeaning(r, p), k);
            File(FoldItems(r), dest, sources, MapMeaning(r, p), k + 1) == file[dest[k] := MapValue(r, r.nodes[k], Fetch(file, sources[k]), p)]
  {
  }

  /** The final register file holds the value of the result where the yield reads it. */
  lemma {:induction false} YieldFetches(r: Region, dest: seq<nat>, sources: seq<seq<nat>>, code: seq<int>, p: Point)
    requires LowersRegion(r, dest, sources, code)
    ensures var n, items := |r.nodes|, FoldItems(r);
            Fetch(File(items, dest, sources, MapMeaning(r, p), n), sources[n]) == Arguments(Env(items, MapMeaning(r, p), n), [r.result])
  {
    LinearScanIsSafe(FoldItems(r), false, dest);
    OperandsAgree(FoldItems(r), dest, sources, MapMeaning(r, p), |r.nodes|);
  }

  lemma {:induction false} YieldRegister(r: Region, dest: seq<nat>, sources: seq<seq<nat>>, code: seq<int>)
    requires LowersRegion(r, dest, sources, code)
    ensures var n, c := |r.nodes|, ConfigOf(r, code);
            c[8] == n + 1 && |sources[n]| == 1 && LeftOf(c[49 + n]) == sources[n][0] < REGISTERS
  {
    ConfigLayout(r, code);
    RegionSources(r, dest, sources, code, |r.nodes|);
    ImmediateFields(3, 0, sources[|r.nodes|][0], 0);
  }

  /** At every point the machine yields the value of the named map. */
  lemma {:induction false} YieldAgrees(r: Region, dest: seq<nat>, sources: seq<seq<nat>>, code: seq<int>, p: Point)
    requires LowersRegion(r, dest, sources, code) && InputsU32(p)
    ensures ConfigOf(r, code)[8] == |r.nodes| + 1 && YieldAt(ConfigOf(r, code), p) == MapResult(r, p)
  {
    var n, c := |r.nodes|, ConfigOf(r, code);
    ConfigFollowsFile(r, dest, sources, code, p, n);
    YieldFetches(r, dest, sources, code, p);
    YieldRegister(r, dest, sources, code);
    YieldReads(c, p, n, sources[n], Env(FoldItems(r), MapMeaning(r, p), n), r.result);
  }

  /** A yield that fetches the argument list of one name passes on that name's value. */
  lemma {:induction false} YieldReads(c: seq<int>, p: Point, n: nat, sources: seq<nat>, env: map<string, int>, name: string)
    requires |c| == CONFIG_WORDS && n < 16 && c[8] == n + 1 && |sources| == 1 && LeftOf(c[49 + n]) == sources[0] < REGISTERS
    requires Fetch(RunFold(c, p, n), sources) == Arguments(env, [name])
    ensures YieldAt(c, p) == Lookup(env, name)
  {
    assert Fetch(RunFold(c, p, n), sources)[0] == RunFold(c, p, n)[sources[0]];
    assert Arguments(env, [name])[0] == Lookup(env, name);
  }

  lemma {:induction false} FoldsAgree(fold: Fold, a: int -> int, b: int -> int, k: nat)
    requires forall x :: 0 <= x < k ==> a(x) == b(x)
    ensures Folded(fold, a, k) == Folded(fold, b, k)
  {
    if k > 0 {
      FoldsAgree(fold, a, b, k - 1);
    }
  }

  /** Lowering is correct: over all (i, j, k) the configuration computes the region's reference table. */
  lemma {:induction false} LoweringCorrect(r: Region, dest: seq<nat>, sources: seq<seq<nat>>, code: seq<int>, inputs: (seq<int>, seq<int>))
    requires LowersRegion(r, dest, sources, code) && Bounded(r) && AllU32(inputs.0) && AllU32(inputs.1)
    ensures var c := ConfigOf(r, code);
            c[8] == |r.nodes| + 1
            && Table(r.rows, r.columns, MachineField(c, inputs)) == Table(r.rows, r.columns, ReferenceField(r, inputs))
  {
    var c := ConfigOf(r, code);
    ConfigLayout(r, code);
    forall i, j ensures MachineField(c, inputs)(i, j) == ReferenceField(r, inputs)(i, j) {
      FieldsAgree(r, dest, sources, code, inputs, i, j);
    }
    TablesAgree(r.rows, r.columns, MachineField(c, inputs), ReferenceField(r, inputs));
  }

  lemma {:induction false} FieldsAgree(r: Region, dest: seq<nat>, sources: seq<seq<nat>>, code: seq<int>, inputs: (seq<int>, seq<int>), i: int, j: int)
    requires LowersRegion(r, dest, sources, code) && Bounded(r) && AllU32(inputs.0) && AllU32(inputs.1)
    ensures var c := ConfigOf(r, code); c[8] == |r.nodes| + 1 && MachineField(c, inputs)(i, j) == ReferenceField(r, inputs)(i, j)
  {
    var c := ConfigOf(r, code);
    ConfigLayout(r, code);
    forall k | 0 <= k < r.extent ensures YieldTerm(c, inputs, i, j)(k) == MapTerm(r, inputs, i, j)(k) {
      YieldAgrees(r, dest, sources, code, Point(inputs, i, j, k));
    }
    FoldsAgree(r.fold, YieldTerm(c, inputs, i, j), MapTerm(r, inputs, i, j), r.extent);
  }

  // ----- validate_config -----

  ghost predicate Written(c: seq<int>, pc: nat, x: int)
    requires |c| == CONFIG_WORDS && pc <= 16
  {
    exists q :: 0 <= q < pc && DestinationOf(CodeAt(c, q)) == x
  }

  function CodeAt(c: seq<int>, pc: nat): int
    requires |c| == CONFIG_WORDS && pc < 16
  {
    c[49 + pc]
  }

  ghost predicate WordValid(c: seq<int>, pc: nat)
    requires |c| == CONFIG_WORDS && pc < 16
  {
    var w, n := c[49 + pc], c[8];
    if pc >= n then w == 0
    else if pc == n - 1 then
      OpcodeOf(w) == 3 && DestinationOf(w) == 0 && w % BIT_22 == 0 && Written(c, pc, LeftOf(w))
    else match OpcodeOf(w)
      case 1 => LeftOf(w) < c[7] && w % BIT_22 == 0
      case 2 => Written(c, pc, LeftOf(w)) && Written(c, pc, RightOf(w)) && w % BIT_19 == 0
      case 4 => Written(c, pc, LeftOf(w)) && Written(c, pc, RightOf(w)) && w % BIT_19 == 0
      case 5 => Written(c, pc, LeftOf(w)) && Written(c, pc, RightOf(w)) && w % BIT_19 == 0
      case 6 => Written(c, pc, LeftOf(w))
      case 7 => Written(c, pc, LeftOf(w))
      case _ => false
  }

  predicate ViewValid(c: seq<int>, v: nat)
    requires |c| == CONFIG_WORDS && v < 8
  {
    var view := ViewAt(c, v);
    if v >= c[7] then view == View(0, 0, 0, 0, 0)
    else
      && 0 <= view.buffer <= 1
      && 0 <= view.base <= 323 && 0 <= view.si <= 323 && 0 <= view.sj <= 323 && 0 <= view.sk <= 323
      && AddressAt(view, c[1] - 1, c[2] - 1, c[3] - 1) < c[5 + view.buffer]
  }

  predicate HeaderValid(c: seq<int>) {
    && |c| == CONFIG_WORDS && AllU32(c) && c[0] == FOLD_MAGIC
    && 1 <= c[1] <= 16 && 1 <= c[2] <= 16 && 1 <= c[3] <= 64 && 0 <= c[4] <= 1
    && 0 <= c[5] <= 324 && 0 <= c[6] <= 324 && 1 <= c[7] <= 8 && 2 <= c[8] <= 16
  }

  ghost predicate ConfigValid(c: seq<int>) {
    && HeaderValid(c)
    && (forall v :: 0 <= v < 8 ==> ViewValid(c, v))
    && forall pc :: 0 <= pc < 16 ==> WordValid(c, pc)
  }

  method ValidateConfig(c: seq<int>) returns (ok: bool)
    ensures ok <==> ConfigValid(c)
  {
    if !HeaderValid(c) {
      return false;
    }
    var v := 0;
    while v < 8
      invariant 0 <= v <= 8 && forall u :: 0 <= u < v ==> ViewValid(c, u)
    {
      if !ViewValid(c, v) {
        return false;
      }
      v := v + 1;
    }
    ok := ScanConfig(c);
  }

  method ScanConfig(c: seq<int>) returns (ok: bool)
    requires HeaderValid(c)
    ensures ok <==> forall pc :: 0 <= pc < 16 ==> WordValid(c, pc)
  {
    var defined: set<int> := {};
    var pc, n := 0, c[8];
    while pc < 16
      invariant 0 <= pc <= 16
      invariant pc < n ==> forall x :: x in defined <==> Written(c, pc, x)
      invariant forall q :: 0 <= q < pc ==> WordValid(c, q)
    {
      var w := c[49 + pc];
      var op, a, b := OpcodeOf(w), LeftOf(w), RightOf(w);
      var bad;
      if pc >= n {
        bad := w != 0;
      } else if pc == n - 1 {
        bad := op != 3 || DestinationOf(w) != 0 || w % BIT_22 != 0 || a !in defined;
      } else if op == 1 {
        bad := a >= c[7] || w % BIT_22 != 0;
      } else if op in {2, 4, 5} {
        bad := a !in defined || b !in defined || w % BIT_19 != 0;
      } else if op in {6, 7} {
        bad := a !in defined;
      } else {
        bad := true;
      }
      assert bad <==> !WordValid(c, pc);
      if bad {
        return false;
      }
      if pc < n - 1 {
        WrittenStep(c, pc, defined, defined + {DestinationOf(w)});
        defined := defined + {DestinationOf(w)};
      }
      pc := pc + 1;
    }
    ok := true;
  }

  lemma {:induction false} WrittenStep(c: seq<int>, pc: nat, defined: set<int>, after: set<int>)
    requires |c| == CONFIG_WORDS && pc < 16 && forall x :: x in defined <==> Written(c, pc, x)
    requires after == defined + {DestinationOf(c[49 + pc])}
    ensures forall x :: x in after <==> Written(c, pc + 1, x)
  {
    assert CodeAt(c, pc) == c[49 + pc];
    forall x ensures x in after <==> Written(c, pc + 1, x) {
      if x in defined {
        var q :| 0 <= q < pc && DestinationOf(CodeAt(c, q)) == x;
        assert q < pc + 1;
      }
      if Written(c, pc + 1, x) && x !in defined {
        var q :| 0 <= q < pc + 1 && DestinationOf(CodeAt(c, q)) == x;
        assert !(q < pc);
      }
    }
  }

  // ----- Compiled configurations pass the check -----

  lemma {:induction false} RegionOperandWritten(r: Region, dest: seq<nat>, sources: seq<seq<nat>>, code: seq<int>, k: nat, j: nat)
    requires LowersRegion(r, dest, sources, code) && k <= |r.nodes| && j < |sources[k]|
    ensures Written(ConfigOf(r, code), k, sources[k][j])
  {
    var items, c := FoldItems(r), ConfigOf(r, code);
    assert ReadsFrom(items, dest, k, sources[k]);
    assert DefinedBefore(items, k, items[k].uses[j]);
    var i :| 0 <= i < k && items[i].id == items[k].uses[j] && items[i].defines;
    RegionSources(r, dest, sources, code, i);
    MapWordFields(r, r.nodes[i], dest[i], sources[i]);
    assert CodeAt(c, i) == code[i] by { ConfigLayout(r, code); }
  }

  lemma {:induction false} RegionWordValid(r: Region, dest: seq<nat>, sources: seq<seq<nat>>, code: seq<int>, pc: nat)
    requires LowersRegion(r, dest, sources, code) && pc < 16
    ensures WordValid(ConfigOf(r, code), pc)
    ensures 0 <= ConfigOf(r, code)[49 + pc] < U32
  {
    var n, c := |r.nodes|, ConfigOf(r, code);
    assert c[7] == |r.views| && c[8] == n + 1 && c[49 + pc] == (if pc <= n then code[pc] else 0) by { ConfigLayout(r, code); }
    if pc <= n {
      RegionSources(r, dest, sources, code, pc);
      forall j | 0 <= j < |sources[pc]| ensures Written(c, pc, sources[pc][j]) {
        RegionOperandWritten(r, dest, sources, code, pc, j);
      }
      if pc < n {
        MapWordFields(r, r.nodes[pc], dest[pc], sources[pc]);
      } else {
        ImmediateFields(3, 0, sources[n][0], 0);
      }
    }
  }

  lemma {:induction false} RegionViewValid(r: Region, code: seq<int>, v: nat)
    requires 1 <= |r.views| <= 8 && |code| <= 16 && v < 8
    ensures ViewValid(ConfigOf(r, code), v) <==> (v < |r.views| ==> ViewBounded(r, r.views[v].view))
  {
    var c := ConfigOf(r, code);
    ConfigLayout(r, code);
    if v < |r.views| {
      ConfigView(r, code, v);
    } else {
      assert c[9 + 5 * v] == 0 && c[9 + (5 * v + 1)] == 0 && c[9 + (5 * v + 2)] == 0 && c[9 + (5 * v + 3)] == 0 && c[9 + (5 * v + 4)] == 0;
    }
  }

  lemma {:induction false} RegionWordsU32(r: Region, dest: seq<nat>, sources: seq<seq<nat>>, code: seq<int>)
    requires LowersRegion(r, dest, sources, code) && Bounded(r)
    ensures AllU32(ConfigOf(r, code))
  {
    var c := ConfigOf(r, code);
    forall x | 0 <= x < CONFIG_WORDS ensures 0 <= c[x] < U32 {
      if x < 9 {
        ConfigLayout(r, code);
      } else if x < 49 {
        var v := (x - 9) / 5;
        RegionViewValid(r, code, v);
        assert x == 9 + 5 * v || x == 10 + 5 * v || x == 11 + 5 * v || x == 12 + 5 * v || x == 13 + 5 * v;
        ViewFieldsU32(r, code, v);
      } else {
        RegionWordValid(r, dest, sources, code, x - 49);
      }
    }
  }

  lemma {:induction false} ViewFieldsU32(r: Region, code: seq<int>, v: nat)
    requires 1 <= |r.views| <= 8 && |code| <= 16 && v < 8 && ViewValid(ConfigOf(r, code), v)
    ensures var c := ConfigOf(r, code);
            0 <= c[9 + 5 * v] <= 323 && 0 <= c[10 + 5 * v] <= 323 && 0 <= c[11 + 5 * v] <= 323
            && 0 <= c[12 + 5 * v] <= 323 && 0 <= c[13 + 5 * v] <= 323
  {
  }

  /** Of a lowered region only the bounds remain to be checked. */
  lemma {:induction false} ConfigValidIffBounded(r: Region, dest: seq<nat>, sources: seq<seq<nat>>, code: seq<int>)
    requires LowersRegion(r, dest, sources, code)
    ensures ConfigValid(ConfigOf(r, code)) <==> Bounded(r)
  {
    var c := ConfigOf(r, code);
    assert c[0] == FOLD_MAGIC && c[1] == r.rows && c[2] == r.columns && c[3] == r.extent && c[4] == FoldIndex(r.fold)
           && c[5] == r.lengthA && c[6] == r.lengthB && c[7] == |r.views| && c[8] == |r.nodes| + 1 by { ConfigLayout(r, code); }
    forall v | 0 <= v < 8 ensures ViewValid(c, v) <==> (v < |r.views| ==> ViewBounded(r, r.views[v].view)) {
      RegionViewValid(r, code, v);
    }
    forall pc | 0 <= pc < 16 ensures WordValid(c, pc) {
      RegionWordValid(r, dest, sources, code, pc);
    }
    if Bounded(r) {
      RegionWordsU32(r, dest, sources, code);
    }
  }

  // ----- compile_region -----

  method CheckRegion(r: Region) returns (ok: bool)
    ensures ok <==> Formed(r)
  {
    if !(1 <= |r.views| <= 8) || !(1 <= |r.nodes| <= 15) {
      return false;
    }
    var items := FoldItems(r);
    var seen: set<string> := {};
    var k := 0;
    while k < |r.nodes|
      invariant 0 <= k <= |r.nodes|
      invariant seen == (set j | 0 <= j < k :: r.nodes[j].id) && NodesChecked(r, k)
    {
      var node := r.nodes[k];
      SeenIsDefined(r, seen, k);
      if !NodeShaped(r, node) || node.id in seen || exists u :: u in node.args && u !in seen {
        NotFormed(r, k, seen);
        return false;
      }
      NextChecked(r, k, seen);
      seen := seen + {node.id};
      k := k + 1;
    }
    SeenIsDefined(r, seen, k);
    ok := r.result in seen;
    if ok {
      FormedByParts(r);
    } else {
      assert r.result in items[k].uses;
    }
  }

  ghost predicate NodesChecked(r: Region, k: nat)
    requires k <= |r.nodes|
  {
    && (forall j :: 0 <= j < k ==> NodeShaped(r, r.nodes[j]))
    && (forall i, j :: 0 <= i < j < k ==> r.nodes[i].id != r.nodes[j].id)
    && forall j, u {:trigger DefinedBefore(FoldItems(r), j, u)} :: 0 <= j < k && u in r.nodes[j].args ==> DefinedBefore(FoldItems(r), j, u)
  }

  lemma {:induction false} NextChecked(r: Region, k: nat, seen: set<string>)
    requires k < |r.nodes| && NodesChecked(r, k) && seen == set j | 0 <= j < k :: r.nodes[j].id
    requires forall u :: u in seen <==> DefinedBefore(FoldItems(r), k, u)
    requires NodeShaped(r, r.nodes[k]) && r.nodes[k].id !in seen && forall u :: u in r.nodes[k].args ==> u in seen
    ensures NodesChecked(r, k + 1)
  {
  }

  lemma {:induction false} SeenIsDefined(r: Region, seen: set<string>, k: nat)
    requires k <= |r.nodes| && seen == set j | 0 <= j < k :: r.nodes[j].id
    ensures forall u :: u in seen <==> DefinedBefore(FoldItems(r), k, u)
  {
    var items := FoldItems(r);
    forall u ensures u in seen <==> DefinedBefore(items, k, u) {
      if u in seen {
        var j :| 0 <= j < k && r.nodes[j].id == u;
        assert items[j].id == u && items[j].defines;
      }
    }
  }

  lemma {:induction false} NotFormed(r: Region, k: nat, seen: set<string>)
    requires k < |r.nodes| && seen == set j | 0 <= j < k :: r.nodes[j].id
    requires forall u :: u in seen <==> DefinedBefore(FoldItems(r), k, u)
    requires !NodeShaped(r, r.nodes[k]) || r.nodes[k].id in seen || exists u :: u in r.nodes[k].args && u !in seen
    ensures !Formed(r)
  {
    var items := FoldItems(r);
    if r.nodes[k].id in seen {
      var j :| 0 <= j < k && r.nodes[j].id == r.nodes[k].id;
      assert items[j].id == items[k].id;
    }
    if u :| u in r.nodes[k].args && u !in seen {
      assert u in items[k].uses && !DefinedBefore(items, k, u);
    }
  }

  lemma {:induction false} FormedByParts(r: Region)
    requires 1 <= |r.views| <= 8 && 1 <= |r.nodes| <= 15 && NodesChecked(r, |r.nodes|)
    requires DefinedBefore(FoldItems(r), |r.nodes|, r.result)
    ensures Formed(r)
  {
    var items := FoldItems(r);
    forall i, j | 0 <= i < j < |items| ensures items[i].id != items[j].id {
      assert NodeShaped(r, r.nodes[i]);
    }
  }

  method EncodeRegion(r: Region, dest: seq<nat>, sources: seq<seq<nat>>) returns (code: seq<int>)
    requires |dest| == |sources| == |r.nodes| + 1 && forall k :: 0 <= k < |r.nodes| ==> NodeShaped(r, r.nodes[k])
    requires forall k :: 0 <= k <= |r.nodes| ==> |sources[k]| == |FoldItems(r)[k].uses|
    ensures |code| == |r.nodes| + 1 && |sources[|r.nodes|]| == 1 && code[|r.nodes|] == YieldWord(sources[|r.nodes|][0])
    ensures forall k :: 0 <= k < |r.nodes| ==> |sources[k]| == OpArity(r.nodes[k].op) && code[k] == MapWord(r, r.nodes[k], dest[k], sources[k])
  {
    code := [];
    while |code| < |r.nodes|
      invariant |code| <= |r.nodes|
      invariant forall k :: 0 <= k < |code| ==> |sources[k]| == OpArity(r.nodes[k].op) && code[k] == MapWord(r, r.nodes[k], dest[k], sources[k])
    {
      var k := |code|;
      assert FoldItems(r)[k].uses == r.nodes[k].args;
      code := code + [MapWord(r, r.nodes[k], dest[k], sources[k])];
    }
    assert FoldItems(r)[|r.nodes|].uses == [r.result];
    code := code + [YieldWord(sources[|r.nodes|][0])];
  }

  ghost predicate CompiledRegion(r: Region, c: seq<int>) {
    exists dest, sources, code :: LowersRegion(r, dest, sources, code) && c == ConfigOf(r, code)
  }

  /** Accepts exactly the admitted regions, and lowers them to valid configurations. */
  method CompileRegion(r: Region) returns (config: Option<seq<int>>)
    ensures config.Some? <==> Admitted(r)
    ensures config.Some? ==> CompiledRegion(r, config.value) && ConfigValid(config.value)
  {
    var formed := CheckRegion(r);
    if !formed {
      return None;
    }
    var dest, sources := Assign(FoldItems(r), false);
    if dest.None? {
      return None;
    }
    forall k | 0 <= k <= |r.nodes| ensures |sources[k]| == |FoldItems(r)[k].uses| {
      assert ReadsFrom(FoldItems(r), dest.value, k, sources[k]);
    }
    var code := EncodeRegion(r, dest.value, sources);
    assert LowersRegion(r, dest.value, sources, code);
    ConfigValidIffBounded(r, dest.value, sources, code);
    var c := ConfigOf(r, code);
    var valid := ValidateConfig(c);
    config := if valid then Some(c) else None;
  }
}

/**
  Why reusing registers is sound.  The same straight-line code is run twice: over an environment of
  named values, and over an eight-register file.  If no register is overwritten between a definition
  and a later use of it, every instruction reads the same operands in both runs.
 */
module RegisterMachine {
  import opened Registers

  /** What instruction `k` computes from its operand values. */
  type Meaning = (nat, seq<int>) -> int

  function Lookup(env: map<string, int>, x: string): int {
    if x in env then env[x] else 0
  }

  function Arguments(env: map<string, int>, uses: seq<string>): (args: seq<int>)
    ensures |args| == |uses|
    ensures forall j :: 0 <= j < |uses| ==> args[j] == Lookup(env, uses[j])
  {
    seq(|uses|, j requires 0 <= j < |uses| => Lookup(env, uses[j]))
  }

  function Register(file: seq<int>, x: int): int {
    if 0 <= x < |file| then file[x] else 0
  }

  function Fetch(file: seq<int>, sources: seq<nat>): (args: seq<int>)
    ensures |args| == |sources|
    ensures forall j :: 0 <= j < |sources| && sources[j] < |file| ==> args[j] == file[sources[j]]
  {
    seq(|sources|, j requires 0 <= j < |sources| => if sources[j] < |file| then file[sources[j]] else 0)
  }

  /** The named values after `k` instructions. */
  function Env(items: seq<Item>, f: Meaning, k: nat): (env: map<string, int>)
    requires k <= |items|
  {
    if k == 0 then map[]
    else
      var env := Env(items, f, k - 1);
      if items[k - 1].defines
      then env[items[k - 1].id := f(k - 1, Arguments(env, items[k - 1].uses))]
      else env
  }

  /** The register file after `k` instructions, starting from zeros. */
  function File(items: seq<Item>, dest: seq<nat>, sources: seq<seq<nat>>, f: Meaning, k: nat): (file: seq<int>)
    requires k <= |items| == |dest| == |sources|
    ensures |file| == REGISTERS
  {
    if k == 0 then [0, 0, 0, 0, 0, 0, 0, 0]
    else
      var file := File(items, dest, sources, f, k - 1);
      if items[k - 1].defines && dest[k - 1] < REGISTERS
      then file[dest[k - 1] := f(k - 1, Fetch(file, sources[k - 1]))]
      else file
  }

  /** No definition strictly between `k` and `i` goes to the register of `k`. */
  ghost predicate Untouched(items: seq<Item>, dest: seq<nat>, k: nat, i: nat)
    requires k < |items| == |dest| && i <= |items|
  {
    forall m :: k < m < i && items[m].defines ==> dest[m] != dest[k]
  }

  /** Between a definition and a use of it, its register is not redefined. */
  ghost predicate NoClobber(items: seq<Item>, dest: seq<nat>)
    requires |dest| == |items|
  {
    && (forall k :: 0 <= k < |items| && items[k].defines ==> dest[k] < REGISTERS)
    && forall k, i :: 0 <= k < i < |items| && items[k].defines && items[k].id in items[i].uses
                      ==> Untouched(items, dest, k, i)
  }

  /** Linear scan never reuses a register while its value has a later use. */
  lemma {:induction false} LinearScanIsSafe(items: seq<Item>, keepUnused: bool, dest: seq<nat>)
    requires LinearScan(items, keepUnused, dest)
    ensures NoClobber(items, dest)
  {
    forall k, i | 0 <= k < i < |items| && items[k].defines && items[k].id in items[i].uses
      ensures Untouched(items, dest, k, i)
    {
      forall m | k < m < i && items[m].defines ensures dest[m] != dest[k] {
        assert UsedFrom(items, m + 1, items[k].id);
        assert Held(items, keepUnused, k, m);
        assert LowestFree(items, keepUnused, dest, m);
        assert dest[k] in HeldRegisters(items, keepUnused, dest, m);
      }
    }
    assert forall k :: 0 <= k < |items| && items[k].defines ==> LowestFree(items, keepUnused, dest, k);
  }

  /** A value with a use at `i` or later is still in its register before instruction `i`. */
  lemma {:induction false} ValueSurvives(items: seq<Item>, dest: seq<nat>, sources: seq<seq<nat>>, f: Meaning, k: nat, i: nat)
    requires SingleAssignment(items) && |items| == |dest| == |sources| && NoClobber(items, dest)
    requires forall j :: 0 <= j < |items| ==> ReadsFrom(items, dest, j, sources[j])
    requires k < i <= |items| && items[k].defines && UsedFrom(items, i, items[k].id)
    ensures File(items, dest, sources, f, i)[dest[k]] == Lookup(Env(items, f, i), items[k].id)
    decreases i, 0
  {
    var u := items[k].id;
    var p := i - 1;
    if k == p {
      OperandsAgree(items, dest, sources, f, p);
      Defines(items, dest, sources, f, p);
    } else {
      NotOverwritten(items, dest, k, p, i);
      ValueSurvives(items, dest, sources, f, k, p);
      Preserves(items, dest, sources, f, u, dest[k], p);
    }
  }

  lemma {:induction false} NotOverwritten(items: seq<Item>, dest: seq<nat>, k: nat, p: nat, i: nat)
    requires SingleAssignment(items) && |items| == |dest| && NoClobber(items, dest)
    requires k < p < i <= |items| && items[k].defines && UsedFrom(items, i, items[k].id)
    ensures items[p].id != items[k].id && (items[p].defines ==> dest[p] != dest[k]) && UsedFrom(items, p, items[k].id)
  {
    var later :| i <= later < |items| && items[k].id in items[later].uses;
    assert Untouched(items, dest, k, later);
  }

  lemma {:induction false} Defines(items: seq<Item>, dest: seq<nat>, sources: seq<seq<nat>>, f: Meaning, p: nat)
    requires p < |items| == |dest| == |sources| && items[p].defines && dest[p] < REGISTERS
    requires Fetch(File(items, dest, sources, f, p), sources[p]) == Arguments(Env(items, f, p), items[p].uses)
    ensures File(items, dest, sources, f, p + 1)[dest[p]] == Lookup(Env(items, f, p + 1), items[p].id)
  {
  }

  lemma {:induction false} Preserves(items: seq<Item>, dest: seq<nat>, sources: seq<seq<nat>>, f: Meaning, u: string, d: nat, p: nat)
    requires p < |items| == |dest| == |sources| && d < REGISTERS
    requires items[p].id != u && (items[p].defines ==> dest[p] != d)
    requires File(items, dest, sources, f, p)[d] == Lookup(Env(items, f, p), u)
    ensures File(items, dest, sources, f, p + 1)[d] == Lookup(Env(items, f, p + 1), u)
  {
  }

  /** Every instruction fetches from registers exactly its named operand values. */
  lemma {:induction false} OperandsAgree(items: seq<Item>, dest: seq<nat>, sources: seq<seq<nat>>, f: Meaning, i: nat)
    requires SingleAssignment(items) && |items| == |dest| == |sources| && NoClobber(items, dest)
    requires forall j :: 0 <= j < |items| ==> ReadsFrom(items, dest, j, sources[j])
    requires i < |items|
    ensures Fetch(File(items, dest, sources, f, i), sources[i]) == Arguments(Env(items, f, i), items[i].uses)
    decreases i, 1
  {
    var uses, file := items[i].uses, File(items, dest, sources, f, i);
    forall j | 0 <= j < |uses| ensures Fetch(file, sources[i])[j] == Lookup(Env(items, f, i), uses[j]) {
      assert DefinedBefore(items, i, uses[j]);
      var k :| 0 <= k < i && items[k].id == uses[j] && items[k].defines;
      assert UsedFrom(items, i, uses[j]);
      ValueSurvives(items, dest, sources, f, k, i);
      assert ReadsFrom(items, dest, i, sources[i]);
    }
  }
}

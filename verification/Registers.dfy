/**
  Register allocation for straight-line single-assignment code on an eight-register file.
  The graph compiler and the affine compiler run the same loop: count the uses of every value,
  release a register at its last use, hand out the lowest free register, and reject rather than
  spill.  They differ in one point: the graph compiler never releases a value nobody uses
  (`keepUnused`), the affine compiler releases it at once.
 */
module Registers {
  import opened Base

  const REGISTERS: nat := 8

  /** One instruction: its name, the values it reads, and whether it defines a value. */
  datatype Item = Item(id: string, uses: seq<string>, defines: bool)

  predicate AllRegisters(sources: seq<nat>) {
    forall j :: 0 <= j < |sources| ==> sources[j] < REGISTERS
  }

  // ----- Single assignment, uses and lifetimes -----

  ghost predicate DefinedBefore(items: seq<Item>, k: nat, u: string)
    requires k <= |items|
  {
    exists j :: 0 <= j < k && items[j].id == u && items[j].defines
  }

  ghost predicate SingleAssignment(items: seq<Item>) {
    && (forall i, j :: 0 <= i < j < |items| ==> items[i].id != items[j].id)
    && forall i, u {:trigger DefinedBefore(items, i, u)} ::
         0 <= i < |items| && u in items[i].uses ==> DefinedBefore(items, i, u)
  }

  ghost predicate UsedFrom(items: seq<Item>, k: nat, u: string) {
    exists i :: k <= i < |items| && u in items[i].uses
  }

  /** Value `j` still occupies its register once instruction `k` has released its operands. */
  ghost predicate Held(items: seq<Item>, keepUnused: bool, j: nat, k: nat)
    requires j < |items|
  {
    && items[j].defines
    && (UsedFrom(items, k + 1, items[j].id) || (keepUnused && !UsedFrom(items, 0, items[j].id)))
  }

  ghost function HeldAt(items: seq<Item>, keepUnused: bool, k: nat): set<nat>
    requires k <= |items|
  {
    set j: nat | j < k && Held(items, keepUnused, j, k)
  }

  /** Some instruction needs a register while eight earlier values are still held. */
  ghost predicate Overflows(items: seq<Item>, keepUnused: bool) {
    exists k: nat :: k < |items| && items[k].defines && |HeldAt(items, keepUnused, k)| >= REGISTERS
  }

  ghost function HeldRegisters(items: seq<Item>, keepUnused: bool, dest: seq<nat>, k: nat): set<nat>
    requires k <= |items| && k <= |dest|
  {
    set j: nat | j < k && Held(items, keepUnused, j, k) :: dest[j]
  }

  /** `dest` gives every defined value the lowest register that no held value occupies. */
  ghost predicate LowestFree(items: seq<Item>, keepUnused: bool, dest: seq<nat>, k: nat)
    requires k < |items| && k < |dest|
  {
    var taken := HeldRegisters(items, keepUnused, dest, k);
    if !items[k].defines then dest[k] == 0 else
      && dest[k] < REGISTERS
      && dest[k] !in taken
      && forall r: nat :: r < dest[k] ==> r in taken
  }

  ghost predicate LinearScan(items: seq<Item>, keepUnused: bool, dest: seq<nat>) {
    && |dest| == |items|
    && forall k :: 0 <= k < |items| ==> LowestFree(items, keepUnused, dest, k)
  }

  /** The assignment is determined by the lifetimes alone. */
  lemma {:induction false} LinearScanUnique(items: seq<Item>, keepUnused: bool, a: seq<nat>, b: seq<nat>, k: nat)
    requires LinearScan(items, keepUnused, a) && LinearScan(items, keepUnused, b) && k <= |items|
    ensures a[..k] == b[..k]
  {
    if k > 0 {
      LinearScanUnique(items, keepUnused, a, b, k - 1);
      var i := k - 1;
      forall j | 0 <= j < i ensures a[j] == b[j] {
        assert a[j] == a[..i][j] && b[j] == b[..i][j];
      }
      assert HeldRegisters(items, keepUnused, a, i) == HeldRegisters(items, keepUnused, b, i);
      assert LowestFree(items, keepUnused, a, i) && LowestFree(items, keepUnused, b, i);
      assert a[..k] == a[..i] + [a[i]] && b[..k] == b[..i] + [b[i]];
    }
  }

  // ----- Use counts -----

  function Uses(items: seq<Item>, u: string, k: nat): (n: nat)
    requires k <= |items|
    decreases |items| - k
  {
    if k == |items| then 0 else multiset(items[k].uses)[u] + Uses(items, u, k + 1)
  }

  lemma {:induction false} UsesPositive(items: seq<Item>, u: string, k: nat)
    requires k <= |items|
    ensures Uses(items, u, k) > 0 <==> UsedFrom(items, k, u)
    decreases |items| - k
  {
    if k < |items| {
      UsesPositive(items, u, k + 1);
      if UsedFrom(items, k, u) && !UsedFrom(items, k + 1, u) {
        assert u in items[k].uses;
      }
      if u in items[k].uses {
        assert UsedFrom(items, k, u);
      }
      if UsedFrom(items, k + 1, u) {
        var i :| k + 1 <= i < |items| && u in items[i].uses;
        assert k <= i;
      }
    }
  }

  lemma {:induction false} NoEarlyUses(items: seq<Item>, i: nat, k: nat)
    requires SingleAssignment(items) && k <= i < |items|
    ensures Uses(items, items[i].id, k) == Uses(items, items[i].id, i + 1)
    decreases i - k
  {
    assert !DefinedBefore(items, k, items[i].id);
    if k < i {
      NoEarlyUses(items, i, k + 1);
    }
  }

  // ----- The register file during the loop -----

  /** The value of instruction `i` is live when it has remaining uses, or is kept without any. */
  ghost predicate Live(items: seq<Item>, keepUnused: bool, remaining: map<string, nat>, i: nat)
    requires i < |items| && items[i].id in remaining
  {
    && items[i].defines
    && (remaining[items[i].id] > 0 || (keepUnused && Uses(items, items[i].id, 0) == 0))
  }

  ghost predicate Known(items: seq<Item>, remaining: map<string, nat>) {
    forall i :: 0 <= i < |items| ==> items[i].id in remaining
  }

  /** After `|dest|` instructions, `registers` maps exactly the live values to their registers. */
  ghost predicate Holds(items: seq<Item>, keepUnused: bool, remaining: map<string, nat>,
                        registers: map<string, nat>, dest: seq<nat>)
    requires Known(items, remaining) && |dest| <= |items|
  {
    && (forall x :: x in registers ==> exists i :: 0 <= i < |dest| && items[i].id == x)
    && (forall i :: 0 <= i < |dest| ==> (items[i].id in registers <==> Live(items, keepUnused, remaining, i)))
    && (forall i :: 0 <= i < |dest| && items[i].id in registers ==> registers[items[i].id] == dest[i])
  }

  /** No register is shared, and `free` lists exactly the unused ones, each once. */
  ghost predicate Exclusive(registers: map<string, nat>, free: seq<nat>) {
    && (forall x, y :: x in registers && y in registers && x != y ==> registers[x] != registers[y])
    && Distinct(free)
    && Elements(free) == RegisterNames() - registers.Values
    && registers.Values <= RegisterNames()
  }

  function RegisterNames(): set<nat> {
    {0, 1, 2, 3, 4, 5, 6, 7}
  }

  lemma {:induction false} HoldsRelease(items: seq<Item>, keepUnused: bool, remaining: map<string, nat>,
                     registers: map<string, nat>, dest: seq<nat>, u: string)
    requires SingleAssignment(items) && Known(items, remaining) && |dest| <= |items|
    requires u in remaining && remaining[u] > 0 && Uses(items, u, 0) > 0
    requires Holds(items, keepUnused, remaining, registers, dest)
    ensures var left := remaining[u := remaining[u] - 1];
            Holds(items, keepUnused, left, if left[u] == 0 then registers - {u} else registers, dest)
  {
  }

  lemma {:induction false} ExclusiveRelease(registers: map<string, nat>, free: seq<nat>, u: string)
    requires Exclusive(registers, free) && u in registers
    ensures Exclusive(registers - {u}, free + [registers[u]])
  {
    var r := registers[u];
    assert (registers - {u}).Values == registers.Values - {r} by {
      forall v | v in registers.Values - {r} ensures v in (registers - {u}).Values {
        var x :| x in registers && registers[x] == v;
        assert x in registers - {u};
      }
    }
    assert r !in Elements(free);
    assert Elements(free + [r]) == Elements(free) + {r};
  }

  lemma {:induction false} ExclusiveTake(registers: map<string, nat>, free: seq<nat>, u: string)
    requires Exclusive(registers, free) && free != [] && u !in registers
    ensures Exclusive(registers[u := free[0]], free[1..])
  {
    var r := free[0];
    assert r in Elements(free);
    assert registers[u := r].Values == registers.Values + {r} by {
      forall v | v in registers.Values + {r} ensures v in registers[u := r].Values {
        if v == r {
          assert u in registers[u := r];
        } else {
          var x :| x in registers && registers[x] == v;
          assert x in registers[u := r];
        }
      }
    }
    assert Elements(free[1..]) == Elements(free) - {r};
  }

  /** An injective map has as many values as keys. */
  lemma {:induction false} InjectiveSize(m: map<string, nat>)
    requires forall x, y :: x in m && y in m && x != y ==> m[x] != m[y]
    ensures |m.Values| == |m|
  {
    if m != map[] {
      var u :| u in m;
      var rest := m - {u};
      InjectiveSize(rest);
      assert m.Values == rest.Values + {m[u]} by {
        forall v | v in m.Values ensures v in rest.Values + {m[u]} {
          var x :| x in m && m[x] == v;
          assert x == u || x in rest;
        }
      }
      assert m.Keys == rest.Keys + {u};
    } else {
      assert m.Values == {};
    }
  }

  /** Naming instructions by index or by identifier counts the same. */
  lemma {:induction false} NamesSize(items: seq<Item>, indices: set<nat>, names: set<string>)
    requires SingleAssignment(items) && forall i :: i in indices ==> i < |items|
    requires names == set i | i in indices :: items[i].id
    ensures |indices| == |names|
  {
    if indices == {} {
      assert names == {};
    } else {
      var i :| i in indices;
      var rest := indices - {i};
      var restNames := set j | j in rest :: items[j].id;
      NamesSize(items, rest, restNames);
      assert names == restNames + {items[i].id};
      assert items[i].id !in restNames;
    }
  }

  lemma {:induction false} RegisteredIffHeld(items: seq<Item>, keepUnused: bool, remaining: map<string, nat>,
                          registers: map<string, nat>, dest: seq<nat>)
    requires Known(items, remaining) && |dest| < |items|
    requires Holds(items, keepUnused, remaining, registers, dest)
    requires forall i :: 0 <= i < |items| ==> remaining[items[i].id] == Uses(items, items[i].id, |dest| + 1)
    ensures forall i :: 0 <= i < |dest| ==> (items[i].id in registers <==> Held(items, keepUnused, i, |dest|))
  {
    forall i | 0 <= i < |dest|
      ensures items[i].id in registers <==> Held(items, keepUnused, i, |dest|)
    {
      UsesPositive(items, items[i].id, |dest| + 1);
      UsesPositive(items, items[i].id, 0);
    }
  }

  /** `registers` names exactly the values of `held` and places them as `dest` says. */
  ghost predicate Places(items: seq<Item>, registers: map<string, nat>, dest: seq<nat>, held: set<nat>) {
    && (forall x :: x in registers ==> exists i :: i in held && i < |items| && items[i].id == x)
    && (forall i :: i in held ==> i < |dest| && i < |items| && items[i].id in registers && registers[items[i].id] == dest[i])
  }

  lemma {:induction false} PlacedValues(items: seq<Item>, registers: map<string, nat>, free: seq<nat>, dest: seq<nat>, held: set<nat>)
    requires SingleAssignment(items) && Places(items, registers, dest, held) && Exclusive(registers, free)
    ensures (set i | i in held :: dest[i]) == registers.Values
    ensures |held| + |free| == REGISTERS
  {
    var image := set i | i in held :: dest[i];
    forall v | v in registers.Values ensures v in image {
      var x :| x in registers && registers[x] == v;
      var i :| i in held && i < |items| && items[i].id == x;
      assert dest[i] == v;
    }
    forall v | v in image ensures v in registers.Values {
      var i :| i in held && dest[i] == v;
      assert items[i].id in registers;
    }
    var names := set i | i in held :: items[i].id;
    assert registers.Keys == names;
    NamesSize(items, held, names);
    CountFree(registers, free);
  }

  lemma {:induction false} CountFree(registers: map<string, nat>, free: seq<nat>)
    requires Exclusive(registers, free)
    ensures |registers| + |free| == REGISTERS
  {
    InjectiveSize(registers);
    ElementsSize(free);
    RegisterCount();
    SplitSize(RegisterNames(), registers.Values);
  }

  lemma {:induction false} RegisterCount()
    ensures |RegisterNames()| == REGISTERS
  {
  }

  lemma {:induction false} SplitSize(all: set<nat>, part: set<nat>)
    requires part <= all
    ensures |all| == |part| + |all - part|
  {
    assert all == part + (all - part);
  }

  /** Once operands are released, the occupied registers are the held values, one for one. */
  lemma {:induction false} OccupiedIsHeld(items: seq<Item>, keepUnused: bool, remaining: map<string, nat>,
                       registers: map<string, nat>, free: seq<nat>, dest: seq<nat>)
    requires SingleAssignment(items) && Known(items, remaining) && |dest| < |items|
    requires Holds(items, keepUnused, remaining, registers, dest) && Exclusive(registers, free)
    requires forall i :: 0 <= i < |items| ==> remaining[items[i].id] == Uses(items, items[i].id, |dest| + 1)
    ensures HeldRegisters(items, keepUnused, dest, |dest|) == registers.Values
    ensures |HeldAt(items, keepUnused, |dest|)| + |free| == REGISTERS
  {
    RegisteredIffHeld(items, keepUnused, remaining, registers, dest);
    HeldIsPlaced(items, keepUnused, registers, dest);
    PlacedValues(items, registers, free, dest, HeldAt(items, keepUnused, |dest|));
  }

  lemma {:induction false} HeldIsPlaced(items: seq<Item>, keepUnused: bool, registers: map<string, nat>, dest: seq<nat>)
    requires |dest| < |items|
    requires forall x :: x in registers ==> exists i :: 0 <= i < |dest| && items[i].id == x
    requires forall i :: 0 <= i < |dest| ==> (items[i].id in registers <==> Held(items, keepUnused, i, |dest|))
    requires forall i :: 0 <= i < |dest| && items[i].id in registers ==> registers[items[i].id] == dest[i]
    ensures Places(items, registers, dest, HeldAt(items, keepUnused, |dest|))
    ensures HeldRegisters(items, keepUnused, dest, |dest|) == set i | i in HeldAt(items, keepUnused, |dest|) :: dest[i]
  {
    var held := HeldAt(items, keepUnused, |dest|);
    forall x | x in registers ensures exists i :: i in held && i < |items| && items[i].id == x {
      var i :| 0 <= i < |dest| && items[i].id == x;
      assert i in held;
    }
  }

  // ----- The allocation loop -----

  lemma {:induction false} ConsAscending(x: nat, s: seq<nat>)
    requires Ascending(s) && forall y :: y in Elements(s) ==> x < y
    ensures Ascending([x] + s) && Elements([x] + s) == Elements(s) + {x}
  {
    forall i, j | 0 <= i < j < |[x] + s| ensures ([x] + s)[i] < ([x] + s)[j] {
      assert s[j - 1] in Elements(s);
    }
  }

  lemma {:induction false} AscendingHead(s: seq<nat>)
    requires Ascending(s) && s != []
    ensures Ascending(s[1..]) && Elements(s) == Elements(s[1..]) + {s[0]}
    ensures forall y :: y in Elements(s[1..]) ==> s[0] < y
  {
    assert s == [s[0]] + s[1..];
  }

  function Insert(s: seq<nat>, x: nat): (r: seq<nat>)
    requires Ascending(s) && x !in Elements(s)
    ensures Ascending(r) && Elements(r) == Elements(s) + {x}
  {
    if s == [] then [x]
    else
      AscendingHead(s);
      if x < s[0] then
        ConsAscending(x, s);
        [x] + s
      else
        var rest := Insert(s[1..], x);
        ConsAscending(s[0], rest);
        [s[0]] + rest
  }

  /** `list.sort()` on the duplicate-free free list. */
  function Sort(s: seq<nat>): (r: seq<nat>)
    requires Distinct(s)
    ensures Ascending(r) && Elements(r) == Elements(s)
  {
    if s == [] then [] else
      var rest := Sort(s[1..]);
      assert s[0] !in Elements(rest);
      assert s == [s[0]] + s[1..];
      Insert(rest, s[0])
  }

  predicate Ascending(s: seq<nat>) {
    forall i, j :: 0 <= i < j < |s| ==> s[i] < s[j]
  }

  ghost predicate CountsFrom(items: seq<Item>, remaining: map<string, nat>, k: nat)
    requires Known(items, remaining) && k <= |items|
  {
    forall i :: 0 <= i < |items| ==> remaining[items[i].id] == Uses(items, items[i].id, k)
  }

  /** Counts that still include the operands `pending` of the instruction before `k`. */
  ghost predicate CountsWith(items: seq<Item>, remaining: map<string, nat>, pending: seq<string>, k: nat)
    requires Known(items, remaining) && k <= |items|
  {
    forall i :: 0 <= i < |items| ==>
      remaining[items[i].id] == multiset(pending)[items[i].id] + Uses(items, items[i].id, k)
  }

  method CountUses(items: seq<Item>) returns (remaining: map<string, nat>)
    requires SingleAssignment(items)
    ensures Known(items, remaining) && CountsFrom(items, remaining, 0)
  {
    remaining := map i | 0 <= i < |items| :: items[i].id := 0;
    assert Known(items, remaining);
    var k := 0;
    while k < |items|
      invariant k <= |items| && Known(items, remaining) && Tallied(items, remaining, [], k)
    {
      TallyOperands(items, remaining, k);
      remaining := CountOperands(items, remaining, k);
      k := k + 1;
    }
  }

  method CountOperands(items: seq<Item>, counted: map<string, nat>, k: nat) returns (remaining: map<string, nat>)
    requires SingleAssignment(items) && Known(items, counted) && k < |items|
    requires Tallied(items, counted, items[k].uses, k + 1)
    ensures Known(items, remaining) && Tallied(items, remaining, [], k + 1)
  {
    remaining := counted;
    var uses, j := items[k].uses, 0;
    assert uses[0..] == uses;
    while j < |uses|
      invariant j <= |uses| && Known(items, remaining)
      invariant Tallied(items, remaining, uses[j..], k + 1)
    {
      assert DefinedBefore(items, k, uses[j]);
      CountUp(items, remaining, uses, j, k + 1);
      remaining := remaining[uses[j] := remaining[uses[j]] + 1];
      j := j + 1;
    }
    assert uses[j..] == [];
  }

  /** What has been counted, the operands `pending` of one instruction, and the uses from `k` on make up all uses. */
  ghost predicate Tallied(items: seq<Item>, remaining: map<string, nat>, pending: seq<string>, k: nat)
    requires Known(items, remaining) && k <= |items|
  {
    forall i :: 0 <= i < |items| ==>
      remaining[items[i].id] + multiset(pending)[items[i].id] + Uses(items, items[i].id, k) == Uses(items, items[i].id, 0)
  }

  lemma {:induction false} TallyOperands(items: seq<Item>, remaining: map<string, nat>, k: nat)
    requires Known(items, remaining) && k < |items| && Tallied(items, remaining, [], k)
    ensures Tallied(items, remaining, items[k].uses, k + 1)
  {
  }

  lemma {:induction false} CountUp(items: seq<Item>, remaining: map<string, nat>, uses: seq<string>, j: nat, k: nat)
    requires Known(items, remaining) && k <= |items| && j < |uses| && Tallied(items, remaining, uses[j..], k)
    requires uses[j] in remaining
    ensures Tallied(items, remaining[uses[j] := remaining[uses[j]] + 1], uses[j + 1..], k)
  {
    assert uses[j..] == [uses[j]] + uses[j + 1..];
  }

  /** Gives up one use of every operand, and its register at the last one. */
  method Release(items: seq<Item>, keepUnused: bool, uses: seq<string>, remaining: map<string, nat>,
                 registers: map<string, nat>, free: seq<nat>, ghost dest: seq<nat>)
    returns (left: map<string, nat>, kept: map<string, nat>, freed: seq<nat>)
    requires SingleAssignment(items) && Known(items, remaining) && |dest| < |items| && uses == items[|dest|].uses
    requires CountsFrom(items, remaining, |dest|)
    requires Holds(items, keepUnused, remaining, registers, dest) && Exclusive(registers, free)
    ensures Known(items, left) && CountsFrom(items, left, |dest| + 1)
    ensures Holds(items, keepUnused, left, kept, dest) && Exclusive(kept, freed)
  {
    left, kept, freed := remaining, registers, free;
    var j := 0;
    assert uses[0..] == uses;
    while j < |uses|
      invariant j <= |uses| && Known(items, left)
      invariant CountsWith(items, left, uses[j..], |dest| + 1)
      invariant Holds(items, keepUnused, left, kept, dest) && Exclusive(kept, freed)
    {
      var u := uses[j];
      OperandIsLive(items, keepUnused, left, kept, dest, uses, j);
      HoldsRelease(items, keepUnused, left, kept, dest, u);
      ExclusiveRelease(kept, freed, u);
      CountDown(items, left, uses, j, |dest| + 1);
      left := left[u := left[u] - 1];
      if left[u] == 0 {
        freed := freed + [kept[u]];
        kept := kept - {u};
      }
      j := j + 1;
    }
    assert uses[j..] == [];
  }

  lemma {:induction false} OperandIsLive(items: seq<Item>, keepUnused: bool, left: map<string, nat>, kept: map<string, nat>,
                      dest: seq<nat>, uses: seq<string>, j: nat)
    requires SingleAssignment(items) && Known(items, left) && |dest| < |items| && uses == items[|dest|].uses
    requires j < |uses| && CountsWith(items, left, uses[j..], |dest| + 1)
    requires Holds(items, keepUnused, left, kept, dest)
    ensures uses[j] in left && left[uses[j]] > 0 && uses[j] in kept && Uses(items, uses[j], 0) > 0
  {
    var u := uses[j];
    assert DefinedBefore(items, |dest|, u);
    assert u in uses[j..];
    UsesPositive(items, u, 0);
  }

  lemma {:induction false} CountDown(items: seq<Item>, left: map<string, nat>, uses: seq<string>, j: nat, k: nat)
    requires Known(items, left) && k <= |items| && j < |uses| && CountsWith(items, left, uses[j..], k)
    requires uses[j] in left && left[uses[j]] > 0
    ensures CountsWith(items, left[uses[j] := left[uses[j]] - 1], uses[j + 1..], k)
  {
    assert uses[j..] == [uses[j]] + uses[j + 1..];
  }

  /** The registers from which instruction `k` reads: where its operands were defined. */
  ghost predicate ReadsFrom(items: seq<Item>, dest: seq<nat>, k: nat, sources: seq<nat>)
    requires k < |items|
  {
    && |sources| == |items[k].uses|
    && forall j, i :: 0 <= j < |sources| && 0 <= i < k && i < |dest| && items[i].id == items[k].uses[j] ==> sources[j] == dest[i]
  }

  /** The registers the operands currently occupy. */
  method OperandRegisters(ghost items: seq<Item>, ghost keepUnused: bool, uses: seq<string>, ghost remaining: map<string, nat>,
                          registers: map<string, nat>, ghost dest: seq<nat>) returns (read: seq<nat>)
    requires SingleAssignment(items) && Known(items, remaining) && |dest| < |items| && uses == items[|dest|].uses
    requires CountsFrom(items, remaining, |dest|)
    requires Holds(items, keepUnused, remaining, registers, dest)
    ensures ReadsFrom(items, dest, |dest|, read)
  {
    read := [];
    while |read| < |uses|
      invariant |read| <= |uses|
      invariant forall j, i :: 0 <= j < |read| && 0 <= i < |dest| && items[i].id == uses[j] ==> read[j] == dest[i]
    {
      assert DefinedBefore(items, |dest|, uses[|read|]);
      read := read + [registers[uses[|read|]]];
    }
  }

  /** The loop's progress: every instruction so far got its lowest free register, and had one. */
  ghost predicate Scanned(items: seq<Item>, keepUnused: bool, dest: seq<nat>)
    requires |dest| <= |items|
  {
    forall k :: 0 <= k < |dest| ==>
      LowestFree(items, keepUnused, dest, k) && (items[k].defines ==> |HeldAt(items, keepUnused, k)| < REGISTERS)
  }

  lemma {:induction false} ScannedStep(items: seq<Item>, keepUnused: bool, dest: seq<nat>, d: nat)
    requires |dest| < |items| && Scanned(items, keepUnused, dest)
    requires !items[|dest|].defines ==> d == 0
    requires items[|dest|].defines ==> |HeldAt(items, keepUnused, |dest|)| < REGISTERS && d < REGISTERS
    requires items[|dest|].defines ==> d !in HeldRegisters(items, keepUnused, dest, |dest|)
    requires items[|dest|].defines ==> forall r: nat :: r < d ==> r in HeldRegisters(items, keepUnused, dest, |dest|)
    ensures Scanned(items, keepUnused, dest + [d])
  {
    var next := dest + [d];
    forall k | 0 <= k < |next|
      ensures LowestFree(items, keepUnused, next, k) && (items[k].defines ==> |HeldAt(items, keepUnused, k)| < REGISTERS)
    {
      assert HeldRegisters(items, keepUnused, next, k) == HeldRegisters(items, keepUnused, dest, k);
      if k < |dest| {
        assert LowestFree(items, keepUnused, dest, k);
      }
    }
  }

  lemma {:induction false} LowestIsFree(registers: map<string, nat>, free: seq<nat>)
    requires Exclusive(registers, free) && Ascending(free) && free != []
    ensures free[0] < REGISTERS && free[0] !in registers.Values
    ensures forall r: nat :: r < free[0] ==> r in registers.Values
  {
    assert free[0] in Elements(free);
    forall r: nat | r < free[0] ensures r in registers.Values {
      assert r !in Elements(free);
      assert r in RegisterNames();
    }
  }

  lemma {:induction false} SortedExclusive(registers: map<string, nat>, free: seq<nat>)
    requires Exclusive(registers, free)
    ensures Exclusive(registers, Sort(free))
  {
  }

  lemma {:induction false} HoldsSkip(items: seq<Item>, keepUnused: bool, remaining: map<string, nat>, registers: map<string, nat>, dest: seq<nat>)
    requires SingleAssignment(items) && Known(items, remaining) && |dest| < |items|
    requires Holds(items, keepUnused, remaining, registers, dest)
    ensures items[|dest|].id !in registers
    ensures !items[|dest|].defines ==> Holds(items, keepUnused, remaining, registers, dest + [0])
  {
  }

  lemma {:induction false} HoldsTake(items: seq<Item>, keepUnused: bool, remaining: map<string, nat>, registers: map<string, nat>,
                  dest: seq<nat>, d: nat)
    requires SingleAssignment(items) && Known(items, remaining) && |dest| < |items| && items[|dest|].defines
    requires Holds(items, keepUnused, remaining, registers, dest)
    requires remaining[items[|dest|].id] == Uses(items, items[|dest|].id, |dest| + 1)
    ensures var id := items[|dest|].id;
            Holds(items, keepUnused, remaining,
                  if keepUnused || remaining[id] != 0 then registers[id := d] else registers, dest + [d])
  {
    NoEarlyUses(items, |dest|, 0);
  }

  /** Records the definition in register `d`, releasing it again when it is dead and unused values are not kept. */
  method Occupy(items: seq<Item>, keepUnused: bool, remaining: map<string, nat>, registers: map<string, nat>,
                free: seq<nat>, ghost dest: seq<nat>, id: string)
    returns (taken: map<string, nat>, left: seq<nat>)
    requires SingleAssignment(items) && Known(items, remaining) && |dest| < |items| && items[|dest|].defines
    requires id == items[|dest|].id && CountsFrom(items, remaining, |dest| + 1)
    requires Holds(items, keepUnused, remaining, registers, dest) && Exclusive(registers, free) && free != []
    ensures Holds(items, keepUnused, remaining, taken, dest + [free[0]]) && Exclusive(taken, left)
  {
    HoldsSkip(items, keepUnused, remaining, registers, dest);
    HoldsTake(items, keepUnused, remaining, registers, dest, free[0]);
    ExclusiveTake(registers, free, id);
    taken, left := registers[id := free[0]], free[1..];
    if !keepUnused && remaining[id] == 0 {
      ExclusiveRelease(taken, left, id);
      left := left + [taken[id]];
      taken := taken - {id};
      assert taken == registers;
    }
  }

  ghost predicate Consistent(items: seq<Item>, keepUnused: bool, remaining: map<string, nat>, registers: map<string, nat>,
                             free: seq<nat>, dest: seq<nat>)
  {
    && |dest| <= |items| && Known(items, remaining) && CountsFrom(items, remaining, |dest|)
    && Holds(items, keepUnused, remaining, registers, dest) && Exclusive(registers, free)
    && Scanned(items, keepUnused, dest)
  }

  ghost predicate AllRead(items: seq<Item>, dest: seq<nat>, sources: seq<seq<nat>>) {
    && |sources| <= |items|
    && forall k :: 0 <= k < |sources| ==> ReadsFrom(items, dest, k, sources[k])
  }

  lemma {:induction false} ReadNext(items: seq<Item>, dest: seq<nat>, d: nat, sources: seq<seq<nat>>, read: seq<nat>)
    requires |dest| == |sources| < |items| && AllRead(items, dest, sources) && ReadsFrom(items, dest, |dest|, read)
    ensures AllRead(items, dest + [d], sources + [read])
  {
    forall k | 0 <= k < |sources| ensures ReadsFrom(items, dest + [d], k, sources[k]) {
      assert ReadsFrom(items, dest, k, sources[k]);
    }
  }

  /** One turn of the loop; `ok` is false when a definition finds no free register. */
  method AssignNext(items: seq<Item>, keepUnused: bool, remaining: map<string, nat>, registers: map<string, nat>,
                    free: seq<nat>, dest: seq<nat>)
    returns (ok: bool, remaining': map<string, nat>, registers': map<string, nat>, free': seq<nat>, d: nat)
    requires SingleAssignment(items) && |dest| < |items|
    requires Consistent(items, keepUnused, remaining, registers, free, dest)
    ensures ok <==> !(items[|dest|].defines && |HeldAt(items, keepUnused, |dest|)| >= REGISTERS)
    ensures ok ==> Consistent(items, keepUnused, remaining', registers', free', dest + [d])
  {
    var item := items[|dest|];
    remaining', registers', free' := Release(items, keepUnused, item.uses, remaining, registers, free, dest);
    SortedExclusive(registers', free');
    free' := Sort(free');
    ok, d := true, 0;
    if item.defines {
      OccupiedIsHeld(items, keepUnused, remaining', registers', free', dest);
      if free' == [] {
        return false, remaining', registers', free', d;
      }
      LowestIsFree(registers', free');
      d := free'[0];
      registers', free' := Occupy(items, keepUnused, remaining', registers', free', dest, item.id);
    } else {
      HoldsSkip(items, keepUnused, remaining', registers', dest);
    }
    ScannedStep(items, keepUnused, dest, d);
  }

  /**
    The allocation loop.  It fails exactly when some definition finds eight held values; otherwise every
    definition gets the lowest register no held value occupies, and every operand is read from the
    register its definition was given.
   */
  method Assign(items: seq<Item>, keepUnused: bool) returns (r: Option<seq<nat>>, sources: seq<seq<nat>>)
    requires SingleAssignment(items)
    ensures r.None? <==> Overflows(items, keepUnused)
    ensures r.Some? ==> LinearScan(items, keepUnused, r.value) && |sources| == |items|
    ensures r.Some? ==> forall k :: 0 <= k < |items| ==> ReadsFrom(items, r.value, k, sources[k])
  {
    var remaining := CountUses(items);
    var registers: map<string, nat> := map[];
    var free: seq<nat> := [0, 1, 2, 3, 4, 5, 6, 7];
    var dest: seq<nat> := [];
    sources := [];
    assert Exclusive(registers, free) by { assert registers.Values == {}; }
    while |dest| < |items|
      invariant |sources| == |dest| && AllRead(items, dest, sources)
      invariant Consistent(items, keepUnused, remaining, registers, free, dest)
      decreases |items| - |dest|
    {
      var read := OperandRegisters(items, keepUnused, items[|dest|].uses, remaining, registers, dest);
      var ok, remaining', registers', free', d := AssignNext(items, keepUnused, remaining, registers, free, dest);
      if !ok {
        return None, sources;
      }
      ReadNext(items, dest, d, sources, read);
      remaining, registers, free := remaining', registers', free';
      dest, sources := dest + [d], sources + [read];
    }
    r := Some(dest);
  }
}

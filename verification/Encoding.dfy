/**
  The 32-bit instruction word.  Fields occupy disjoint bits, so `|` of shifted fields is written as a
  sum and `>>`/`&` as division and remainder by powers of two.
 */
module Encoding {
  import opened Base
  import opened Descriptor

  const LOAD := 1
  const ADD := 2
  const STORE := 3
  const MAX := 4
  const MUL := 5
  const ADD_IMM := 6
  const GE_IMM := 7

  const BIT_15 := 0x8000
  const BIT_19 := 0x8_0000
  const BIT_20 := 0x10_0000
  const BIT_22 := 0x40_0000
  const BIT_25 := 0x200_0000
  const BIT_28 := 0x1000_0000

  function Opcode(kind: Kind): nat {
    match kind
    case LoadU32 => LOAD
    case AddU32 => ADD
    case StoreU32 => STORE
    case MaxU32 => MAX
    case MulU32 => MUL
    case AddImmU32 => ADD_IMM
    case GeImmU32 => GE_IMM
  }

  function Selector(d: Direction): nat {
    match d case Center => 0 case North => 1 case South => 2 case West => 3 case East => 4
  }

  function AddressBits(a: Address): int {
    match a
    case Compass(d) => Selector(d) * BIT_22
    case Relative(row, column) => (row % 32) * BIT_20 + (column % 32) * BIT_15
  }

  /** The word for a node, given the register it defines and the registers it reads. */
  function Encode(node: Node, destination: nat, sources: seq<nat>): int
    requires |sources| == Arity(node.kind)
    requires node.kind == LoadU32 ==> node.address.Some?
    requires node.kind in {AddImmU32, GeImmU32} ==> node.immediate.Some?
  {
    match node.kind
    case LoadU32 => LOAD * BIT_28 + destination * BIT_25 + AddressBits(node.address.value)
    case AddU32 | MaxU32 | MulU32 =>
      Opcode(node.kind) * BIT_28 + destination * BIT_25 + sources[0] * BIT_22 + sources[1] * BIT_19
    case AddImmU32 | GeImmU32 =>
      Opcode(node.kind) * BIT_28 + destination * BIT_25 + sources[0] * BIT_22 + node.immediate.value
    case StoreU32 => STORE * BIT_28 + sources[0] * BIT_25
  }

  // ----- Field extraction -----

  function OpcodeOf(w: int): int { w / BIT_28 }
  function DestinationOf(w: int): int { w / BIT_25 % 8 }
  function LeftOf(w: int): int { w / BIT_22 % 8 }
  function RightOf(w: int): int { w / BIT_19 % 8 }
  function ImmediateOf(w: int): int { w % BIT_22 }

  function SignedFive(v: int): int {
    var low := v % 32;
    if low >= 16 then low - 32 else low
  }

  function RowDeltaOf(w: int): int { SignedFive(w / BIT_20) }
  function ColumnDeltaOf(w: int): int { SignedFive(w / BIT_15) }

  lemma {:induction false} TopFields(op: int, d: int, rest: int)
    requires 0 <= op < 16 && 0 <= d < 8 && 0 <= rest < BIT_25
    ensures var w := op * BIT_28 + d * BIT_25 + rest;
            0 <= w < U32 && OpcodeOf(w) == op && DestinationOf(w) == d && w % BIT_25 == rest
            && w / BIT_22 == op * 64 + d * 8 + rest / BIT_22 && w % BIT_22 == rest % BIT_22
            && w / BIT_20 == op * 256 + d * 32 + rest / BIT_20
            && w / BIT_15 == op * 8192 + d * 1024 + rest / BIT_15
            && w / BIT_19 == op * 512 + d * 64 + rest / BIT_19
  {
    var w := op * BIT_28 + d * BIT_25 + rest;
    assert w / BIT_25 == op * 8 + d;
  }

  lemma {:induction false} BinaryFields(op: int, d: int, a: int, b: int)
    requires 0 <= op < 16 && 0 <= d < 8 && 0 <= a < 8 && 0 <= b < 8
    ensures var w := op * BIT_28 + d * BIT_25 + a * BIT_22 + b * BIT_19;
            0 <= w < U32 && OpcodeOf(w) == op && DestinationOf(w) == d && LeftOf(w) == a && RightOf(w) == b
            && w % BIT_19 == 0
  {
    var rest := a * BIT_22 + b * BIT_19;
    TopFields(op, d, rest);
    assert rest / BIT_22 == a;
    assert rest / BIT_19 == a * 8 + b;
  }

  lemma {:induction false} ImmediateFields(op: int, d: int, a: int, imm: int)
    requires 0 <= op < 16 && 0 <= d < 8 && 0 <= a < 8 && 0 <= imm < BIT_22
    ensures var w := op * BIT_28 + d * BIT_25 + a * BIT_22 + imm;
            0 <= w < U32 && OpcodeOf(w) == op && DestinationOf(w) == d && LeftOf(w) == a && ImmediateOf(w) == imm
  {
    var rest := a * BIT_22 + imm;
    TopFields(op, d, rest);
    assert rest / BIT_22 == a;
  }

  lemma {:induction false} RelativeFields(d: int, row: int, column: int)
    requires 0 <= d < 8 && -1 <= row <= 1 && -1 <= column <= 1
    ensures var w := LOAD * BIT_28 + d * BIT_25 + AddressBits(Relative(row, column));
            0 <= w < U32 && OpcodeOf(w) == LOAD && DestinationOf(w) == d && RowDeltaOf(w) == row && ColumnDeltaOf(w) == column
            && w % BIT_15 == 0
  {
    var r, c := row % 32, column % 32;
    var rest := r * BIT_20 + c * BIT_15;
    TopFields(LOAD, d, rest);
    assert rest / BIT_20 == r;
    assert rest / BIT_15 == r * 32 + c;
  }

  lemma {:induction false} CompassFields(d: int, direction: Direction)
    requires 0 <= d < 8
    ensures var w := LOAD * BIT_28 + d * BIT_25 + AddressBits(Compass(direction));
            0 <= w < U32 && OpcodeOf(w) == LOAD && DestinationOf(w) == d && LeftOf(w) == Selector(direction) && w % BIT_22 == 0
  {
    ImmediateFields(LOAD, d, Selector(direction), 0);
  }

  lemma {:induction false} StoreFields(source: int)
    requires 0 <= source < 8
    ensures var w := STORE * BIT_28 + source * BIT_25;
            0 <= w < U32 && OpcodeOf(w) == STORE && DestinationOf(w) == source && w % BIT_25 == 0
  {
    TopFields(STORE, source, 0);
  }
}

/**
  The two independent checks of a program image: the one in front of the software fallback and the one of
  the sealed-bundle verifier.  Both are characterised without their scanning state: an instruction is
  acceptable when its fields are in form and every register it reads was written by an earlier one.
 */
module GraphValidators {
  import opened Base
  import opened Registers
  import opened Descriptor
  import opened Encoding
  import opened GraphCompiler

  /** Some earlier instruction wrote register `r`. */
  ghost predicate Written(code: seq<int>, i: nat, r: int)
    requires i <= |code|
  {
    exists j :: 0 <= j < i && OpcodeOf(code[j]) != STORE && DestinationOf(code[j]) == r
  }

  /** Load words: a known selector and no other bits, or two deltas in -1..1 and no other bits. */
  predicate LoadForm(version: int, w: int) {
    if version < 3 then LeftOf(w) <= 4 && w % BIT_22 == 0
    else w % BIT_15 == 0 && -1 <= RowDeltaOf(w) <= 1 && -1 <= ColumnDeltaOf(w) <= 1
  }

  /** The first program version with each binary or immediate opcode. */
  function FirstVersion(opcode: int): int {
    match opcode case 4 => 2 case 5 => 4 case 6 => 5 case 7 => 6 case _ => 1
  }

  /** What the fallback check demands of instruction `i`. */
  ghost predicate Acceptable(version: int, code: seq<int>, i: nat)
    requires i < |code|
  {
    var w, last := code[i], i == |code| - 1;
    match OpcodeOf(w)
    case 1 => !last && LoadForm(version, w)
    case 2 => !last && w % BIT_19 == 0 && Written(code, i, LeftOf(w)) && Written(code, i, RightOf(w))
    case 3 => last && w % BIT_25 == 0 && Written(code, i, DestinationOf(w))
    case 4 => !last && version >= FirstVersion(4) && w % BIT_19 == 0 && Written(code, i, LeftOf(w)) && Written(code, i, RightOf(w))
    case 5 => !last && version >= FirstVersion(5) && w % BIT_19 == 0 && Written(code, i, LeftOf(w)) && Written(code, i, RightOf(w))
    case 6 => !last && version >= FirstVersion(6) && Written(code, i, LeftOf(w))
    case 7 => !last && version >= FirstVersion(7) && Written(code, i, LeftOf(w))
    case _ => false
  }

  ghost predicate AllAcceptable(version: int, code: seq<int>) {
    forall i :: 0 <= i < |code| ==> Acceptable(version, code, i)
  }

  /** The scan of `_validate_fallback_program`, with its growing set of defined registers. */
  method ScanFallback(version: int, code: seq<int>) returns (ok: bool)
    requires 1 <= version <= 6 && |code| >= 2
    ensures ok <==> AllAcceptable(version, code)
  {
    var defined: set<int> := {};
    var stores, i := 0, 0;
    while i < |code|
      invariant 0 <= i <= |code|
      invariant forall r :: r in defined <==> Written(code, i, r)
      invariant forall j :: 0 <= j < i ==> Acceptable(version, code, j)
      invariant stores == if i == |code| then 1 else 0
    {
      var w := code[i];
      var last := i == |code| - 1;
      var opcode, left, right := OpcodeOf(w), LeftOf(w), RightOf(w);
      var bad;
      if opcode == LOAD {
        bad := last || !LoadForm(version, w);
      } else if opcode in {ADD, MAX, MUL} {
        bad := last || w % BIT_19 != 0 || left !in defined || right !in defined
               || (opcode == MAX && version !in {2, 3, 4, 5, 6}) || (opcode == MUL && version !in {4, 5, 6});
      } else if opcode in {ADD_IMM, GE_IMM} {
        var allowed := if opcode == GE_IMM then {6} else {5, 6};
        bad := version !in allowed || last || left !in defined;
      } else if opcode == STORE {
        bad := !last || w % BIT_25 != 0 || DestinationOf(w) !in defined;
        stores := stores + 1;
      } else {
        bad := true;
      }
      assert bad <==> !Acceptable(version, code, i);
      if bad {
        return false;
      }
      ghost var before := defined;
      if opcode != STORE {
        defined := defined + {DestinationOf(w)};
      }
      WrittenStep(code, i, before, defined);
      i := i + 1;
    }
    ok := stores == 1;
  }

  lemma {:induction false} WrittenStep(code: seq<int>, i: nat, before: set<int>, after: set<int>)
    requires i < |code| && forall r :: r in before <==> Written(code, i, r)
    requires after == if OpcodeOf(code[i]) != STORE then before + {DestinationOf(code[i])} else before
    ensures forall r :: r in after <==> Written(code, i + 1, r)
  {
    forall r ensures r in after <==> Written(code, i + 1, r) {
      if r in before {
        var j :| 0 <= j < i && OpcodeOf(code[j]) != STORE && DestinationOf(code[j]) == r;
        assert 0 <= j < i + 1;
      }
      if Written(code, i + 1, r) && r !in before {
        var j :| 0 <= j < i + 1 && OpcodeOf(code[j]) != STORE && DestinationOf(code[j]) == r;
        assert !(j < i);
      }
    }
  }

  // ----- The sealed-bundle check -----

  ghost predicate SealedAcceptable(version: int, code: seq<int>, i: nat)
    requires i < |code|
  {
    var w, last := code[i], i == |code| - 1;
    match OpcodeOf(w)
    case 1 => !last && LeftOf(w) <= 4 && w % BIT_22 == 0
    case 2 => !last && Written(code, i, LeftOf(w)) && Written(code, i, RightOf(w)) && w % BIT_19 == 0
    case 4 => version == 2 && !last && Written(code, i, LeftOf(w)) && Written(code, i, RightOf(w)) && w % BIT_19 == 0
    case 3 => last && Written(code, i, DestinationOf(w)) && w % BIT_25 == 0
    case _ => false
  }

  ghost predicate AllSealed(version: int, code: seq<int>) {
    forall i :: 0 <= i < |code| ==> SealedAcceptable(version, code, i)
  }

  /** The words from `from` on are zero. */
  predicate Cleared(words: seq<int>, from: int)
    requires 0 <= from
  {
    forall i :: from <= i < |words| ==> words[i] == 0
  }

  ghost predicate SealedAccepts(words: seq<int>) {
    && |words| == PAYLOAD_WORDS && words[0] == MAGIC && 1 <= words[1] <= 2 && words[3] == 8
    && 2 <= words[2] <= 16 && Cleared(words, 12 + words[2])
    && AllSealed(words[1], words[12..12 + words[2]])
  }

  method ValidProgramWords(words: seq<int>) returns (ok: bool)
    ensures ok <==> SealedAccepts(words)
  {
    if |words| != PAYLOAD_WORDS || words[0] != MAGIC || words[1] !in {1, 2} || words[3] != 8 {
      return false;
    }
    var count := words[2];
    if !(2 <= count <= 16) || !Cleared(words, 12 + count) {
      return false;
    }
    ok := ScanSealed(words[1], words[12..12 + count]);
  }

  method ScanSealed(version: int, code: seq<int>) returns (ok: bool)
    requires |code| >= 2
    ensures ok <==> AllSealed(version, code)
  {
    var defined: set<int> := {};
    var i := 0;
    while i < |code|
      invariant 0 <= i <= |code|
      invariant forall r :: r in defined <==> Written(code, i, r)
      invariant forall j :: 0 <= j < i ==> SealedAcceptable(version, code, j)
    {
      var w := code[i];
      var last := i == |code| - 1;
      var opcode, dst, reserved := OpcodeOf(w), DestinationOf(w), w % BIT_19;
      var bad;
      if opcode == 1 {
        bad := last || LeftOf(w) > 4 || w % BIT_22 != 0;
      } else if opcode in {2, 4} {
        bad := (opcode == 4 && version != 2) || last || LeftOf(w) !in defined || RightOf(w) !in defined || reserved != 0;
      } else if opcode == 3 {
        bad := !last || dst !in defined || w % BIT_25 != 0;
      } else {
        bad := true;
      }
      assert bad <==> !SealedAcceptable(version, code, i);
      if bad {
        return false;
      }
      ghost var before := defined;
      if opcode != STORE {
        defined := defined + {dst};
      }
      WrittenStep(code, i, before, defined);
      i := i + 1;
    }
    ok := true;
  }

  // ----- Whole images -----

  /** What the fallback receives: the payload and the fields that repeat parts of it. */
  datatype Image = Image(payload: seq<int>, instructions: seq<int>, count: int, digest: seq<int>)

  ghost predicate FallbackAccepts(image: Image, sha: Digest) {
    var p := image.payload;
    && |p| == PAYLOAD_WORDS && AllU32(p)
    && p[0] == MAGIC && 1 <= p[1] <= 6 && p[3] == REGISTERS
    && 2 <= p[2] <= CAPACITY && image.count == p[2]
    && image.instructions == p[12..12 + p[2]]
    && Cleared(p, 12 + p[2])
    && image.digest == sha([p[2]] + image.instructions) && p[4..12] == image.digest
    && AllAcceptable(p[1], image.instructions)
  }

  method ValidateFallback(image: Image, sha: Digest) returns (ok: bool)
    ensures ok <==> FallbackAccepts(image, sha)
  {
    var p := image.payload;
    if |p| != PAYLOAD_WORDS || !AllU32(p) {
      return false;
    }
    if p[0] != MAGIC || p[1] !in {1, 2, 3, 4, 5, 6} || p[3] != REGISTERS {
      return false;
    }
    var count := p[2];
    if !(2 <= count <= CAPACITY) || image.count != count || image.instructions != p[12..12 + count] || !Cleared(p, 12 + count) {
      return false;
    }
    var digest := sha([count] + image.instructions);
    if image.digest != digest || p[4..12] != digest {
      return false;
    }
    ok := ScanFallback(p[1], image.instructions);
  }

  lemma {:induction false} RulesAgree(version: int, code: seq<int>)
    requires 1 <= version <= 2
    ensures AllAcceptable(version, code) <==> AllSealed(version, code)
  {
    forall i | 0 <= i < |code| ensures Acceptable(version, code, i) <==> SealedAcceptable(version, code, i) {
    }
  }

  /** For program versions 1 and 2 the two validators accept the same images, digest aside. */
  lemma {:induction false} ValidatorsAgree(image: Image, sha: Digest)
    requires |image.payload| == PAYLOAD_WORDS && AllU32(image.payload) && 1 <= image.payload[1] <= 2
    requires image.count == image.payload[2]
    requires 2 <= image.count <= CAPACITY ==> image.instructions == image.payload[12..12 + image.count]
    requires 2 <= image.count <= CAPACITY ==>
               image.digest == sha([image.count] + image.instructions) && image.payload[4..12] == image.digest
    ensures FallbackAccepts(image, sha) <==> SealedAccepts(image.payload)
  {
    var p := image.payload;
    if 2 <= p[2] <= CAPACITY {
      var code, header := image.instructions, p[0] == MAGIC && p[3] == REGISTERS && Cleared(p, 12 + p[2]);
      assert FallbackAccepts(image, sha) <==> header && AllAcceptable(p[1], code);
      assert SealedAccepts(p) <==> header && AllSealed(p[1], code);
      assert AllAcceptable(p[1], code) <==> AllSealed(p[1], code) by { RulesAgree(p[1], code); }
    }
  }
}

/** Small shared vocabulary: optional values and facts about duplicate-free sequences. */
module Base {

  datatype Option<+T> = None | Some(value: T)

  const U32 := 0x1_0000_0000

  predicate AllU32(words: seq<int>) {
    forall i :: 0 <= i < |words| ==> 0 <= words[i] < U32
  }

  function Zeros(n: nat): (z: seq<int>)
    ensures |z| == n && forall i :: 0 <= i < n ==> z[i] == 0
  {
    seq(n, _ => 0)
  }

  predicate NameLetter(c: char) {
    'A' <= c <= 'Z' || 'a' <= c <= 'z' || '0' <= c <= '9'
  }

  /** The names of jobs and stages: a letter or digit, then up to 79 letters, digits, dashes and underscores. */
  predicate ProjectName(s: string) {
    && 1 <= |s| <= 80 && NameLetter(s[0])
    && forall i :: 1 <= i < |s| ==> NameLetter(s[i]) || s[i] == '-' || s[i] == '_'
  }

  ghost predicate Distinct<T>(s: seq<T>) {
    forall i, j :: 0 <= i < j < |s| ==> s[i] != s[j]
  }

  function Elements<T>(s: seq<T>): set<T> {
    set x | x in s
  }

  /** The first position of `x`; on a duplicate-free sequence, its only one. */
  function Position<T(==)>(s: seq<T>, x: T): (p: nat)
    requires x in s
    ensures p < |s| && s[p] == x && x !in s[..p]
  {
    if s[0] == x then 0 else
      assert s == [s[0]] + s[1..];
      var p := Position(s[1..], x);
      assert s[..p + 1] == [s[0]] + s[1..][..p];
      p + 1
  }

  function Max(a: int, b: int): int {
    if a < b then b else a
  }

  lemma {:induction false} ElementsSize<T>(s: seq<T>)
    requires Distinct(s)
    ensures |Elements(s)| == |s|
  {
    if s != [] {
      var t := s[..|s| - 1];
      ElementsSize(t);
      assert Elements(s) == Elements(t) + {s[|s| - 1]};
      assert s[|s| - 1] !in Elements(t);
    }
  }

  lemma {:induction false} SubsetSize<T>(a: set<T>, b: set<T>)
    requires a <= b
    ensures |a| <= |b|
  {
    assert b == a + (b - a);
  }

  lemma {:induction false} SubsetSameSize<T>(a: set<T>, b: set<T>)
    requires a <= b && |a| >= |b|
    ensures a == b
  {
    if a != b {
      var x :| x in b && x !in a;
      SubsetSize(a, b - {x});
    }
  }

  /** Pigeonhole: a sequence longer than the set it is drawn from repeats an element. */
  lemma {:induction false} Pigeonhole<T>(s: seq<T>, pool: set<T>) returns (i: nat, j: nat)
    requires forall x :: x in s ==> x in pool
    requires |s| > |pool|
    ensures i < j < |s| && s[i] == s[j]
  {
    if Distinct(s) {
      ElementsSize(s);
      SubsetSize(Elements(s), pool);
      assert false;
    } else {
      i, j :| 0 <= i < j < |s| && s[i] == s[j];
    }
  }

  lemma {:induction false} Regroup<T>(a: seq<T>, b: seq<T>, c: seq<T>)
    ensures (a + b) + c == a + (b + c)
  {
  }

  lemma {:induction false} MulMonotone(a: int, b: int, c: int)
    requires a <= b && 0 <= c
    ensures a * c <= b * c
  {
    assert b * c == a * c + (b - a) * c;
  }

  lemma {:induction false} DivisionOf(q: int, rem: int, d: int)
    requires 0 <= rem < d
    ensures (q * d + rem) / d == q && (q * d + rem) % d == rem
  {
    var n := q * d + rem;
    assert n == d * (n / d) + n % d;
    var k := n / d - q;
    assert rem - n % d == k * d;
    if k >= 1 {
      MulMonotone(1, k, d);
    } else if k <= -1 {
      MulMonotone(k, -1, d);
    }
  }

  /** The product a * b.  Stated by repeated addition, so that proofs that only pass products along stay linear. */
  function Times(a: int, b: int): int
    decreases if b < 0 then -b else b
  {
    if b == 0 then 0 else if b > 0 then Times(a, b - 1) + a else Times(a, b + 1) - a
  }

  lemma {:induction false} TimesIsProduct(a: int, b: int)
    ensures Times(a, b) == a * b
    decreases if b < 0 then -b else b
  {
    if b > 0 {
      TimesIsProduct(a, b - 1);
    } else if b < 0 {
      TimesIsProduct(a, b + 1);
    }
  }

  lemma {:induction false} TimesNonNegative(a: nat, b: nat)
    ensures Times(a, b) >= 0
  {
    if b > 0 {
      TimesNonNegative(a, b - 1);
    }
  }
}

// Machine words of the millicode library: 16-bit digits, 32-bit words and
// 64-bit double words as bounded naturals, the half-word macros of longlong.h,
// and big-endian digit strings in base 2^16.
module Words {
  import opened Arith

  type Digit = x: nat | x < 0x1_0000
  type Word = x: nat | x < 0x1_0000_0000
  type DWord = x: nat | x < 0x1_0000_0000_0000_0000
  type SDWord = x: int | -0x8000_0000_0000_0000 <= x < 0x8000_0000_0000_0000

  /** Unsigned 32-bit arithmetic reduces modulo 2^32. */
  function U32(x: int): (r: nat)
    ensures r < 0x1_0000_0000
  { x % 0x1_0000_0000 }

  lemma SmallWord(x: nat)
    requires x < 0x1_0000_0000
    ensures U32(x) == x
  {}

  /** Conversion of any integer to an unsigned 64-bit value. */
  function U64(x: int): (r: nat)
    ensures r < 0x1_0000_0000_0000_0000
  { x % 0x1_0000_0000_0000_0000 }

  /** The two's complement reading of an unsigned 64-bit value. */
  function S64(x: DWord): (r: int)
    ensures -0x8000_0000_0000_0000 <= r < 0x8000_0000_0000_0000
  {
    if x < 0x8000_0000_0000_0000 then x else x - 0x1_0000_0000_0000_0000
  }

  function HHalf(x: Word): (r: nat)
    ensures r < 0x1_0000
  { x / 0x1_0000 }

  function LHalf(x: Word): (r: nat)
    ensures r < 0x1_0000
  { x % 0x1_0000 }

  function LHup(x: Word): (r: nat)
    ensures r < 0x1_0000_0000
  { x * 0x1_0000 % 0x1_0000_0000 }

  function Hi(x: DWord): (r: nat)
    ensures r < 0x1_0000_0000
  { x / 0x1_0000_0000 }

  function Lo(x: DWord): (r: nat)
    ensures r < 0x1_0000_0000
  { x % 0x1_0000_0000 }

  /** The bitwise or of two naturals. */
  function BitOr(x: nat, y: nat): nat
    decreases x + y
  {
    if x == 0 && y == 0 then 0
    else (if x % 2 == 1 || y % 2 == 1 then 1 else 0) + 2 * BitOr(x / 2, y / 2)
  }

  function Pow2(k: nat): (p: nat)
    ensures p > 0
  {
    if k == 0 then 1 else 2 * Pow2(k - 1)
  }

  /** COMBINE(a, b): two digits glued into one word with a shift and an or. */
  function Combine(a: Digit, b: Digit): nat { BitOr(a * 0x1_0000, b) }

  /** Oring a small number into the zero low bits of another adds them. */
  lemma {:induction false} OrDisjoint(x: nat, k: nat, y: nat)
    requires y < Pow2(k)
    ensures BitOr(x * Pow2(k), y) == x * Pow2(k) + y
    ensures BitOr(y, x * Pow2(k)) == x * Pow2(k) + y
    decreases k, x
  {
    if k == 0 {
      OrZero(x);
    } else {
      OrDisjoint(x, k - 1, y / 2);
      Assoc(2, Pow2(k - 1), x);
      Comm(Pow2(k - 1), x);
      Comm(Pow2(k), x);
      OrDouble(x * Pow2(k - 1), y);
    }
  }

  lemma OrDouble(z: nat, y: nat)
    ensures BitOr(2 * z, y) == y % 2 + 2 * BitOr(z, y / 2)
    ensures BitOr(y, 2 * z) == y % 2 + 2 * BitOr(y / 2, z)
  {}

  lemma {:induction false} OrZero(x: nat)
    ensures BitOr(x, 0) == x && BitOr(0, x) == x
  {
    if x != 0 { OrZero(x / 2); }
  }

  lemma PowTable()
    ensures Pow2(16) == 0x1_0000
  {
    assert Pow2(4) == 16;
    assert Pow2(8) == 256;
    assert Pow2(12) == 4096;
  }

  lemma CombineIsPair(a: Digit, b: Digit)
    ensures Combine(a, b) == a * 0x1_0000 + b
    ensures Combine(a, b) < 0x1_0000_0000
  {
    PowTable();
    OrDisjoint(a, 16, b);
  }

  lemma {:induction false} PowAdd(a: nat, b: nat)
    ensures Pow2(a + b) == Pow2(a) * Pow2(b)
  {
    if a != 0 {
      PowAdd(a - 1, b);
      assert Pow2(a + b) == 2 * Pow2(a - 1 + b);
    }
  }

  // Digit strings, most significant digit first.

  /** 65536^k */
  function Pow(k: nat): (p: nat)
    ensures p > 0
  {
    if k == 0 then 1 else 0x1_0000 * Pow(k - 1)
  }

  function Val(s: seq<nat>): nat {
    if |s| == 0 then 0 else Val(s[..|s| - 1]) * 0x1_0000 + s[|s| - 1]
  }

  ghost predicate Digits(s: seq<nat>) { forall i :: 0 <= i < |s| ==> s[i] < 0x1_0000 }

  lemma {:induction false} ValBound(s: seq<nat>)
    requires Digits(s)
    ensures Val(s) < Pow(|s|)
  {
    if |s| > 0 {
      ValBound(s[..|s| - 1]);
    }
  }

  lemma {:induction false} ValCons(d: nat, s: seq<nat>)
    ensures Val([d] + s) == d * Pow(|s|) + Val(s)
  {
    var w := [d] + s;
    if |s| == 0 {
      assert w[..0] == [];
    } else {
      var s' := s[..|s| - 1];
      ValCons(d, s');
      assert w[..|w| - 1] == [d] + s';
      var p := Pow(|s'|);
      assert d * (0x1_0000 * p) == (d * p) * 0x1_0000;
    }
  }

  lemma {:induction false} ValConcat(a: seq<nat>, b: seq<nat>)
    ensures Val(a + b) == Val(a) * Pow(|b|) + Val(b)
  {
    if |b| == 0 {
      assert a + b == a;
    } else {
      var b' := b[..|b| - 1];
      ValConcat(a, b');
      assert (a + b)[..|a + b| - 1] == a + b';
      var p, v := Pow(|b'|), Val(a);
      assert v * (0x1_0000 * p) == (v * p) * 0x1_0000;
    }
  }

  lemma {:induction false} ValZeros(z: seq<nat>, s: seq<nat>)
    requires forall i :: 0 <= i < |z| ==> z[i] == 0
    ensures Val(z + s) == Val(s)
  {
    if |z| == 0 {
      assert z + s == s;
    } else {
      ValZeros(z[1..], s);
      assert z + s == [0] + (z[1..] + s);
      ValCons(0, z[1..] + s);
    }
  }

  /** The value of four digits is the pair of words made of them. */
  lemma ValFour(s: seq<nat>)
    requires |s| == 4
    ensures Val(s) == ((s[0] * 0x1_0000 + s[1]) * 0x1_0000 + s[2]) * 0x1_0000 + s[3]
  {
    assert s[..3][..2] == s[..2] && s[..2][..1] == s[..1] && s[..1][..0] == [];
    assert Val(s[..1]) == s[0];
    assert Val(s[..2]) == s[0] * 0x1_0000 + s[1];
    assert Val(s[..3]) == (s[0] * 0x1_0000 + s[1]) * 0x1_0000 + s[2];
  }

  function DWordDigits(x: DWord): (s: seq<Digit>)
    ensures |s| == 4
  {
    [HHalf(Hi(x)), LHalf(Hi(x)), HHalf(Lo(x)), LHalf(Lo(x))]
  }

  lemma SplitJoin(x: DWord)
    ensures Val(DWordDigits(x)) == x
  {
    ValFour(DWordDigits(x));
  }
}

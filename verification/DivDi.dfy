// __divdi3 and __moddi3: signed division on top of __qdivrem.
module DivDi {
  import opened Words
  import opened Arith
  import opened QDivRem

  /** Division truncating toward zero, as section 6.5.5 of ISO/IEC 9899:1999 defines it. */
  function TruncDiv(a: int, b: int): int
    requires b != 0
  {
    if (a < 0) == (b < 0) then Abs(a) / Abs(b) else -(Abs(a) / Abs(b))
  }

  function TruncMod(a: int, b: int): int
    requires b != 0
  {
    if a < 0 then -(Abs(a) % Abs(b)) else Abs(a) % Abs(b)
  }

  /** The truncating quotient and remainder satisfy the division equation, and the
      remainder is smaller than the divisor and carries the dividend's sign. */
  lemma TruncEquation(a: int, b: int)
    requires b != 0
    ensures a == TruncDiv(a, b) * b + TruncMod(a, b)
    ensures Abs(TruncMod(a, b)) < Abs(b)
    ensures TruncMod(a, b) == 0 || (TruncMod(a, b) < 0 <==> a < 0)
  {
    var q, r := Abs(a) / Abs(b), Abs(a) % Abs(b);
    DivModParts(Abs(a), Abs(b));
    NegProduct(q, Abs(b));
  }

  /** Nothing else does: the three conditions determine quotient and remainder. */
  lemma TruncUnique(a: int, b: int, q: int, r: int)
    requires b != 0
    requires a == q * b + r && Abs(r) < Abs(b)
    requires r == 0 || (r < 0 <==> a < 0)
    ensures q == TruncDiv(a, b) && r == TruncMod(a, b)
  {
    TruncEquation(a, b);
    var d := q - TruncDiv(a, b);
    DistrSub(q, TruncDiv(a, b), b);
    assert d * b == TruncMod(a, b) - r;
    SmallMultiple(d, b, TruncMod(a, b) - r);
  }

  lemma SmallMultiple(d: int, b: int, x: int)
    requires d * b == x && -x < Abs(b) && x < Abs(b)
    ensures d == 0
  {
    NegProduct(d, b);
    Cancel(d, 1, Abs(b));
    Cancel(-1, d, Abs(b));
  }

  /** Unsigned negation, as -ua computes it. */
  function Negated(x: DWord): (r: DWord) { U64(0 - x as int) }

  /** The magnitude of a signed operand, as the first lines of both functions compute it. */
  method Magnitude(a: SDWord) returns (ua: DWord)
    ensures ua == Abs(a)
  {
    ua := U64(a);
    if a < 0 { ua := Negated(ua); }
  }

  /** __divdi3 */
  method Divdi3(a: SDWord, b: SDWord) returns (trap: bool, q: SDWord)
    ensures trap <==> b == 0
    ensures b != 0 ==> q == S64(U64(TruncDiv(a, b)))
  {
    var ua := Magnitude(a);
    var ub := Magnitude(b);
    var neg := (a < 0) != (b < 0);
    var uq, ur;
    trap, uq, ur := QDivRem.QDivRem(ua, ub, false);
    ghost var x: int := uq;
    if neg { uq := Negated(uq); }
    q := S64(uq);
    if b != 0 { assert TruncDiv(a, b) == if neg then 0 - x else x; }
    assert U64(x) == x;
  }

  /** __moddi3 */
  method Moddi3(a: SDWord, b: SDWord) returns (trap: bool, r: SDWord)
    ensures trap <==> b == 0
    ensures b != 0 ==> r == TruncMod(a, b)
  {
    var ua := Magnitude(a);
    var ub := Magnitude(b);
    var uq, ur;
    trap, uq, ur := QDivRem.QDivRem(ua, ub, true);
    if b != 0 { RemainderFits(a, b); }
    ghost var x: int := ur;
    if b != 0 { assert TruncMod(a, b) == if a < 0 then 0 - x else x; }
    if a < 0 { ur := Negated(ur); }
    r := S64(ur);
  }

  lemma RemainderFits(a: SDWord, b: SDWord)
    requires b != 0
    ensures Abs(a) % Abs(b) < 0x8000_0000_0000_0000
  {
    DivModParts(Abs(a), Abs(b));
  }

  /** The quotient is exact for every pair of operands but one, whose true
      quotient 2^63 does not fit. */
  lemma QuotientExactIff(a: SDWord, b: SDWord)
    requires b != 0
    ensures S64(U64(TruncDiv(a, b))) == TruncDiv(a, b)
            <==> !(a == -0x8000_0000_0000_0000 && b == -1)
  {
    QuotientBound(Abs(a), Abs(b));
    WrapFixed(TruncDiv(a, b));
  }

  lemma QuotientBound(x: nat, y: nat)
    requires y > 0
    ensures 0 <= x / y <= x && (y > 1 && x > 0 ==> x / y < x) && (y == 1 ==> x / y == x)
  {
    DivNat(x, y);
    DivBounds(x, y);
    Mono(1, y, x / y);
    Mono(2, y, x / y);
    Comm(y, x / y);
  }

  lemma WrapFixed(x: int)
    requires -0x8000_0000_0000_0000 <= x <= 0x8000_0000_0000_0000
    ensures S64(U64(x)) == x <==> x != 0x8000_0000_0000_0000
  {}

  /** In every case, overflow included, a = (a / b) * b + a % b modulo 2^64. */
  lemma DivModIdentity(a: SDWord, b: SDWord)
    requires b != 0
    ensures U64(S64(U64(TruncDiv(a, b))) * b + TruncMod(a, b)) == U64(a)
  {
    TruncEquation(a, b);
    QuotientExactIff(a, b);
  }
}

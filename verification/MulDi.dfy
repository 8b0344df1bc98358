// __lmulq and __muldi3: multiplication by the three-product splitting of
// section 4.3.3 of Knuth, with a signed middle term and carries kept by hand.
module MulDi {
  import opened Words
  import opened Arith

  /** A double word as its two halves. */
  function Pair(h: nat, l: nat): nat { h * 0x1_0000_0000 + l }

  function Signed(neg: bool, x: int): int { if neg then -x else x }

  lemma Wrap64(x: int, k: int)
    ensures U64(x + k * 0x1_0000_0000_0000_0000) == U64(x)
  {}

  /** Wrapping the high half does not change the double word modulo 2^64. */
  lemma WrapHigh(h: int, l: nat)
    ensures U64(U32(h) * 0x1_0000_0000 + l) == U64(h * 0x1_0000_0000 + l)
  {
    Wrap64(U32(h) * 0x1_0000_0000 + l, h / 0x1_0000_0000);
  }

  /** prod += x << N, where the test for a wrapped low half supplies the carry. */
  lemma AddShifted(h: Word, l: Word, x: Word)
    ensures var l' := U32(l + LHup(x));
            var h' := U32(h + (HHalf(x) + (if l' < l then 1 else 0)));
            Pair(h', l') == U64(Pair(h, l) + x * 0x1_0000)
  {
    var l' := U32(l + LHup(x));
    var c := if l' < l then 1 else 0;
    assert l + LHup(x) == l' + c * 0x1_0000_0000;
    assert x * 0x1_0000 == HHalf(x) * 0x1_0000_0000 + LHup(x);
    WrapHigh(h + (HHalf(x) + c), l');
    assert Pair(U32(h + (HHalf(x) + c)), l') < 0x1_0000_0000_0000_0000;
  }

  /** prod -= x << N, where the test for a wrapped low half supplies the borrow. */
  lemma SubShifted(h: Word, l: Word, x: Word)
    ensures var l' := U32(l as int - LHup(x));
            var h' := U32(h as int - (HHalf(x) + (if l' > l then 1 else 0)));
            Pair(h', l') == U64(Pair(h, l) - x * 0x1_0000)
  {
    var l' := U32(l as int - LHup(x));
    var c := if l' > l then 1 else 0;
    assert l - LHup(x) == l' - c * 0x1_0000_0000;
    assert x * 0x1_0000 == HHalf(x) * 0x1_0000_0000 + LHup(x);
    WrapHigh(h as int - (HHalf(x) + c), l');
    assert Pair(U32(h as int - (HHalf(x) + c)), l') < 0x1_0000_0000_0000_0000;
  }

  /** prod += x, where the sum being below x supplies the carry. */
  lemma AddLow(h: Word, l: Word, x: Word)
    ensures var l' := U32(l + x);
            var h' := if l' < x then U32(h + 1) else h;
            Pair(h', l') == U64(Pair(h, l) + x)
  {
    var l' := U32(l + x);
    var c := if l' < x then 1 else 0;
    assert l + x == l' + c * 0x1_0000_0000;
    WrapHigh(h + c, l');
  }

  /** The splitting identity, with the middle product signed. */
  lemma Splitting(b: nat, u1: int, u0: int, v1: int, v0: int)
    ensures (u1 * b + u0) * (v1 * b + v0)
            == (u1 * v1) * (b * b) + ((u1 - u0) * (v0 - v1) + u1 * v1 + u0 * v0) * b + u0 * v0
  {
    MiddleTerm(u1, u0, v1, v0);
    var m := u1 * v0 + u0 * v1;
    Distr(u1 * b, u0, v1 * b + v0);
    Comm(u1 * b, v1 * b + v0);
    Distr(v1 * b, v0, u1 * b);
    Comm(u0, v1 * b + v0);
    Distr(v1 * b, v0, u0);
    FourFactors(v1, u1, b);
    ThreeFactors(v0, u1, b);
    ThreeFactors(u0, v1, b);
    Comm(u0, v1 * b);
    Distr(u1 * v0, u0 * v1, b);
    Comm(v1, u1);
    Comm(v0, u1);
    Comm(v0, u0);
  }

  lemma FourFactors(x: int, y: int, b: int)
    ensures (x * b) * (y * b) == (x * y) * (b * b)
  {
    Assoc(x * b, y, b);
    Comm(x * b, y);
    Assoc(y, x, b);
    Comm(y, x);
    Assoc(x * y, b, b);
  }

  lemma ThreeFactors(x: int, y: int, b: int)
    ensures x * (y * b) == (x * y) * b
  {
    Assoc(x, y, b);
  }

  lemma MiddleTerm(u1: int, u0: int, v1: int, v0: int)
    ensures (u1 - u0) * (v0 - v1) + u1 * v1 + u0 * v0 == u1 * v0 + u0 * v1
  {
    DistrSub(u1, u0, v0 - v1);
    Comm(u1, v0 - v1);
    Comm(u0, v0 - v1);
    DistrSub(v0, v1, u1);
    DistrSub(v0, v1, u0);
    Comm(v0, u1);
    Comm(v1, u1);
    Comm(v0, u0);
    Comm(v1, u0);
  }

  lemma HalfProduct(x: nat, y: nat)
    requires x < 0x1_0000 && y < 0x1_0000
    ensures 0 <= x * y < 0x1_0000_0000 && U32(x * y) == x * y
  {
    Mono(x, 0xffff, y);
    Mono(0, x, y);
    SmallWord(x * y);
  }

  /** The sign test on two differences recovers the signed product. */
  lemma SignedProduct(a: int, b: int)
    ensures (if a >= 0 then a else -a) * (if b >= 0 then b else -b)
            == (if (a < 0) != (b < 0) then -(a * b) else a * b)
  {}

  lemma WordProduct(x: nat, y: nat)
    requires x < 0x1_0000_0000 && y < 0x1_0000_0000
    ensures 0 <= x * y < 0x1_0000_0000_0000_0000
  {
    Mono(x, 0xffff_ffff, y);
    Mono(0, x, y);
  }

  /** The exact product from the three half-word products. */
  lemma ProductFromParts(u: Word, v: Word, m: int)
    requires m == (HHalf(u) as int - LHalf(u)) * (LHalf(v) as int - HHalf(v))
    ensures var high, low := HHalf(u) * HHalf(v), LHalf(u) * LHalf(v);
            u * v == U64(high * 0x1_0000_0000 + high * 0x1_0000 + m * 0x1_0000 + low * 0x1_0000 + low)
  {
    Splitting(0x1_0000, HHalf(u), LHalf(u), HHalf(v), LHalf(v));
    WordProduct(u, v);
  }

  /** __lmulq: two words multiply to a double word exactly. */
  method Lmulq(u: Word, v: Word) returns (prod: DWord)
    ensures prod == u * v
  {
    var u1, u0, v1, v0 := HHalf(u), LHalf(u), HHalf(v), LHalf(v);
    HalfProduct(u0, v0);
    var low := U32(u0 * v0);
    if u1 == 0 && v1 == 0 {
      return low;
    }
    var udiff, vdiff, neg := Differences(u1, u0, v1, v0);
    HalfProduct(udiff, vdiff);
    var mid := U32(udiff * vdiff);
    HalfProduct(u1, v1);
    var high := U32(u1 * v1);
    prod := Assemble(high, mid, low, neg);
    ProductFromParts(u, v, Signed(neg, mid));
  }

  /** |u1 - u0| and |v0 - v1|, and whether the product of the differences is negative. */
  method Differences(u1: Word, u0: Word, v1: Word, v0: Word) returns (udiff: nat, vdiff: nat, neg: bool)
    ensures Signed(neg, udiff * vdiff) == (u1 as int - u0) * (v0 as int - v1)
    ensures u1 < 0x1_0000 && u0 < 0x1_0000 ==> udiff < 0x1_0000
    ensures v1 < 0x1_0000 && v0 < 0x1_0000 ==> vdiff < 0x1_0000
  {
    if u1 >= u0 { udiff, neg := u1 - u0, false; } else { udiff, neg := u0 - u1, true; }
    if v0 >= v1 { vdiff := v0 - v1; } else { vdiff, neg := v1 - v0, !neg; }
    SignedProduct(u1 as int - u0, v0 as int - v1);
  }

  /** prod += x << N on the two halves. */
  method PlusShifted(h: Word, l: Word, x: Word) returns (h': Word, l': Word)
    ensures Pair(h', l') == U64(Pair(h, l) + x * 0x1_0000)
  {
    AddShifted(h, l, x);
    l' := U32(l + LHup(x));
    h' := U32(h + (HHalf(x) + (if l' < l then 1 else 0)));
  }

  /** prod -= x << N on the two halves. */
  method MinusShifted(h: Word, l: Word, x: Word) returns (h': Word, l': Word)
    ensures Pair(h', l') == U64(Pair(h, l) - x * 0x1_0000)
  {
    SubShifted(h, l, x);
    l' := U32(l as int - LHup(x));
    h' := U32(h as int - (HHalf(x) + (if l' > l then 1 else 0)));
  }

  /** The carry-tracking tail of __lmulq. */
  method Assemble(high: Word, mid: Word, low: Word, neg: bool) returns (prod: DWord)
    ensures prod == U64(high * 0x1_0000_0000 + high * 0x1_0000 + Signed(neg, mid) * 0x1_0000 + low * 0x1_0000 + low)
  {
    var prodh := U32(high + HHalf(high));
    var prodl := LHup(high);
    FirstTerm(high);
    ghost var t1 := Pair(prodh, prodl);
    if neg {
      prodh, prodl := MinusShifted(prodh, prodl, mid);
    } else {
      prodh, prodl := PlusShifted(prodh, prodl, mid);
    }
    ghost var t2 := Pair(prodh, prodl);
    prodh, prodl := PlusShifted(prodh, prodl, low);
    ghost var t3 := Pair(prodh, prodl);
    AddLow(prodh, prodl, low);
    prodl := U32(prodl + low);
    if prodl < low { prodh := U32(prodh + 1); }
    SumOfWraps(high * 0x1_0000_0000 + high * 0x1_0000, Signed(neg, mid) * 0x1_0000,
               low * 0x1_0000, low, t1, t2, t3);
    prod := Pair(prodh, prodl);
  }

  lemma FirstTerm(high: Word)
    ensures U64(Pair(U32(high + HHalf(high)), LHup(high))) == U64(high * 0x1_0000_0000 + high * 0x1_0000)
  {
    assert high * 0x1_0000 == HHalf(high) * 0x1_0000_0000 + LHup(high);
    WrapHigh(high + HHalf(high), LHup(high));
  }

  lemma SumOfWraps(a: int, b: int, c: int, d: int, t1: int, t2: int, t3: int)
    requires U64(t1) == U64(a) && t2 == U64(t1 + b) && t3 == U64(t2 + c)
    ensures U64(t3 + d) == U64(a + b + c + d)
  {
    Wrapped(t1, a, b + c + d);
    Wrapped(t2, t1 + b, c + d);
    Wrapped(t3, t2 + c, d);
  }

  lemma Wrapped(x: int, y: int, z: int)
    requires U64(x) == U64(y)
    ensures U64(x + z) == U64(y + z)
  {
    var m := 0x1_0000_0000_0000_0000;
    Wrap64(y + z, x / m - y / m);
  }

  /** __muldi3: signed multiplication is multiplication modulo 2^64. */
  method Muldi3(a: SDWord, b: SDWord) returns (r: SDWord)
    ensures r == S64(U64(a * b))
  {
    var u := Unsigned(a);
    var v := Unsigned(b);
    var negall := (a < 0) != (b < 0);
    SignedProduct(a, b);
    var prod := MulWords(u, v);
    NegateWrap((u as int) * v);
    if negall { prod := U64(Signed(true, prod)); }
    r := S64(prod);
  }

  /** The operand made nonnegative; -a wraps to 2^63 for the least value. */
  method Unsigned(a: SDWord) returns (u: DWord)
    ensures u == if a >= 0 then a else 0 - a
  {
    if a >= 0 { u := U64(a); } else { u := U64(Signed(true, a)); }
  }

  lemma NegateWrap(x: int)
    ensures U64(Signed(true, U64(x))) == U64(-x)
  {
    Wrap64(-x, x / 0x1_0000_0000_0000_0000);
  }

  /** The unsigned body of __muldi3. */
  method MulWords(u: DWord, v: DWord) returns (prod: DWord)
    ensures prod == U64(u * v)
  {
    var u1, u0, v1, v0 := Hi(u), Lo(u), Hi(v), Lo(v);
    if u1 == 0 && v1 == 0 {
      prod := Lmulq(u0, v0);
      WordProduct(u0, v0);
      return;
    }
    var low := Lmulq(u0, v0);
    var udiff, vdiff, negmid := Differences(u1, u0, v1, v0);
    var mid := U32(udiff * vdiff);
    var high := U32(u1 * v1);
    var prodh := U32(high + (if negmid then U32(Signed(true, mid)) else mid) + Lo(low) + Hi(low));
    prod := Pair(prodh, Lo(low));
    HighSum(u1 * v1, udiff * vdiff, negmid, low);
    ProductModulo(u, v, Signed(negmid, udiff * vdiff));
  }

  lemma ProductModulo(u: DWord, v: DWord, m: int)
    requires m == (Hi(u) as int - Lo(u)) * (Lo(v) as int - Hi(v))
    ensures U64(u * v) == U64((Hi(u) * Hi(v) + m + Lo(u) * Lo(v)) * 0x1_0000_0000 + Lo(u) * Lo(v))
  {
    Splitting(0x1_0000_0000, Hi(u), Lo(u), Hi(v), Lo(v));
    DropTop(Hi(u) * Hi(v), m + Hi(u) * Hi(v) + Lo(u) * Lo(v), Lo(u) * Lo(v));
  }

  /** The high word of the product: every term may be wrapped on its own. */
  lemma HighSum(high: int, mid: int, neg: bool, low: DWord)
    ensures Pair(U32(U32(high) + (if neg then U32(Signed(true, U32(mid))) else U32(mid)) + Lo(low) + Hi(low)), Lo(low))
            == U64((high + Signed(neg, mid) + low) * 0x1_0000_0000 + low)
  {
    WrapTerms(high, mid, neg, Lo(low) + Hi(low));
    var t := high + Signed(neg, mid) + Lo(low) + Hi(low);
    WrapHigh(t, Lo(low));
    Wrap64(t * 0x1_0000_0000 + Lo(low), Hi(low));
    assert U32(t) * 0x1_0000_0000 + Lo(low) < 0x1_0000_0000_0000_0000;
  }

  lemma WrapTerms(high: int, mid: int, neg: bool, x: int)
    ensures U32(U32(high) + (if neg then U32(Signed(true, U32(mid))) else U32(mid)) + x)
            == U32(high + Signed(neg, mid) + x)
  {
    WrapTerm(high, (if neg then U32(Signed(true, U32(mid))) else U32(mid)) + x);
    if neg {
      WrapTerm(Signed(true, U32(mid)), high + x);
      WrapNegated(mid, high + x);
    } else {
      WrapTerm(mid, high + x);
    }
  }

  lemma WrapTerm(y: int, x: int)
    ensures U32(U32(y) + x) == U32(y + x)
  {}

  lemma WrapNegated(y: int, x: int)
    ensures U32(Signed(true, U32(y)) + x) == U32(-y + x)
  {}

  lemma DropTop(top: int, middle: int, low: int)
    ensures U64(top * (0x1_0000_0000 * 0x1_0000_0000) + middle * 0x1_0000_0000 + low)
            == U64(middle * 0x1_0000_0000 + low)
  {
    Wrap64(middle * 0x1_0000_0000 + low, top);
  }
}

// Steps D1 and D8: normalisation, shifting digit strings by 1 to 15 bits and back.
module QShift {
  import opened Words
  import opened Arith
  import opened QLongDivide

  lemma ShiftWeights(sh: nat)
    requires sh <= 16
    ensures Pow2(sh) * Pow2(16 - sh) == 0x1_0000
  {
    PowAdd(sh, 16 - sh);
    PowTable();
  }

  /** The high bits of a digit are its overflow when shifted, the low bits its residue. */
  lemma SplitDigit(x: nat, P: nat, Q: nat)
    requires P * Q == 0x1_0000 && P > 0 && Q > 0
    ensures x * P == (x / Q) * 0x1_0000 + (x % Q) * P
    ensures (x * P) % 0x1_0000 == (x % Q) * P
    ensures x < 0x1_0000 ==> x / Q < P
  {
    DivModParts(x, Q);
    var h, l := x / Q, x % Q;
    Distr(h * Q, l, P);
    Assoc(h, Q, P);
    Comm(Q, P);
    Mono(l, Q - 1, P);
    DistrSub(Q, 1, P);
    assert x * P == h * 0x1_0000 + l * P;
    DivIs(x * P, 0x1_0000, h, l * P);
    Cancel(h, P, Q);
  }

  /** The bits a digit loses when shifted left by sh, as C's shift right extracts them. */
  function Over(x: Digit, sh: nat): nat
    requires sh <= 16
  {
    DivNat(x, Pow2(16 - sh));
    x / Pow2(16 - sh)
  }

  /** The bits a digit keeps when shifted left by sh. */
  function Kept(x: Digit, sh: nat): nat
    requires sh <= 16
  {
    LHalf(U32(x * Pow2(sh)))
  }

  lemma ShiftSplits(x: Digit, sh: nat)
    requires sh <= 16
    ensures x * Pow2(sh) == Over(x, sh) * 0x1_0000 + Kept(x, sh)
    ensures Over(x, sh) < Pow2(sh)
    ensures Kept(x, sh) == (x % Pow2(16 - sh)) * Pow2(sh)
    ensures Kept(x, sh) + Pow2(sh) <= 0x1_0000
  {
    var P, Q := Pow2(sh), Pow2(16 - sh);
    ShiftWeights(sh);
    SplitDigit(x, P, Q);
    ShiftFits(x, P, Q);
    Mono(x % Q, Q - 1, P);
    DistrSub(Q, 1, P);
    Comm(Q, P);
  }

  lemma ShiftFits(x: Digit, P: nat, Q: nat)
    requires P * Q == 0x1_0000 && P > 0 && Q > 0
    ensures U32(x * P) == x * P
  {
    Mono(1, Q, P);
    Comm(P, Q);
    Mono(P, 0x1_0000, x);
    Comm(P, x);
    Mono(0, P, x);
    SmallWord(x * P);
  }

  /** One digit of shl: what it keeps joined by an or to what its neighbour loses. */
  function ShlDigit(x: Digit, y: Digit, sh: nat): (r: nat)
    requires sh <= 16
    ensures r == Kept(x, sh) + Over(y, sh) && r < 0x1_0000
  {
    ShiftSplits(x, sh);
    ShiftSplits(y, sh);
    OrDisjoint(x % Pow2(16 - sh), sh, Over(y, sh));
    BitOr(Kept(x, sh), Over(y, sh))
  }

  /** Digit i of s shifted left; the digit past the end counts as zero. */
  function Shifted(s: seq<Digit>, sh: nat, i: nat): (r: nat)
    requires i < |s| && sh <= 16
    ensures r < 0x1_0000
  {
    ShlDigit(s[i], if i + 1 < |s| then s[i + 1] else 0, sh)
  }

  /** The bits each digit passes to its left neighbour; none enter at the right end. */
  ghost function Carries(s: seq<Digit>, sh: nat): (c: seq<nat>)
    requires sh <= 16
    ensures |c| == |s| + 1 && c[|s|] == 0
  {
    seq(|s| + 1, i requires 0 <= i <= |s| => if i < |s| then Over(s[i], sh) else 0)
  }

  /** Column equations of a multiplication by P: digit plus outgoing carry equals
      scaled digit plus incoming carry. */
  ghost predicate Balanced(s: seq<nat>, r: seq<nat>, c: seq<nat>, P: nat) {
    |r| <= |s| < |c| && forall i :: 0 <= i < |r| ==> r[i] + c[i] * 0x1_0000 == s[i] * P + c[i + 1]
  }

  lemma ShiftBalanced(s: seq<Digit>, sh: nat, r: seq<Digit>)
    requires sh <= 16 && |r| <= |s|
    requires forall i :: 0 <= i < |r| ==> r[i] == Shifted(s, sh, i)
    ensures Balanced(s, r, Carries(s, sh), Pow2(sh))
  {
    forall i | 0 <= i < |r|
      ensures r[i] + Carries(s, sh)[i] * 0x1_0000 == s[i] * Pow2(sh) + Carries(s, sh)[i + 1]
    {
      ShiftBalancedAt(s, sh, i);
    }
  }

  lemma ShiftBalancedAt(s: seq<Digit>, sh: nat, i: nat)
    requires sh <= 16 && i < |s|
    ensures Shifted(s, sh, i) + Carries(s, sh)[i] * 0x1_0000 == s[i] * Pow2(sh) + Carries(s, sh)[i + 1]
  {
    OverZero(sh);
    ShiftSplits(s[i], sh);
    var y: Digit := if i + 1 < |s| then s[i + 1] else 0;
    assert Shifted(s, sh, i) == Kept(s[i], sh) + Over(y, sh);
  }

  lemma {:induction false} BalancedValue(s: seq<nat>, r: seq<nat>, c: seq<nat>, P: nat, k: nat)
    requires Balanced(s, r, c, P) && k <= |r|
    ensures Val(s[..k]) * P + c[k] == Val(r[..k]) + c[0] * Pow(k)
  {
    if k > 0 {
      BalancedValue(s, r, c, P, k - 1);
      assert s[..k] == s[..k - 1] + [s[k - 1]] && r[..k] == r[..k - 1] + [r[k - 1]];
      Snoc(s[..k - 1], s[k - 1]);
      Snoc(r[..k - 1], r[k - 1]);
      PrefixShift(Val(s[..k - 1]), Val(r[..k - 1]), s[k - 1], r[k - 1], P, c[k - 1], c[k], c[0], Pow(k - 1));
    }
  }

  lemma PrefixShift(a: nat, b: nat, x: nat, z: nat, P: nat, c: nat, c': nat, o: nat, w: nat)
    requires a * P + c == b + o * w
    requires z + c * 0x1_0000 == x * P + c'
    ensures (a * 0x1_0000 + x) * P + c' == b * 0x1_0000 + z + o * (0x1_0000 * w)
  {
    Distr(a * 0x1_0000, x, P);
    Assoc(0x1_0000, a, P);
    Assoc(0x1_0000, o, w);
  }

  /** shl: shift p[off..off+len] left by sh bits in place. */
  method Shl(p: array<Digit>, off: nat, len: nat, sh: nat)
    requires off + len < p.Length && sh <= 16
    modifies p
    ensures p[..off] == old(p[..off]) && p[off + len + 1..] == old(p[off + len + 1..])
    ensures old(Val(p[off..off + len + 1])) * Pow2(sh)
            == Val(p[off..off + len + 1]) + Over(old(p[off]), sh) * Pow(len + 1)
  {
    ghost var s := p[off..off + len + 1];
    var i := 0;
    while i < len
      invariant 0 <= i <= len
      invariant p[..off] == old(p[..off]) && p[off + len + 1..] == old(p[off + len + 1..])
      invariant forall k :: i <= k <= len ==> p[off + k] == s[k]
      invariant forall k :: 0 <= k < i ==> p[off + k] == Shifted(s, sh, k)
    {
      ghost var d := Shifted(s, sh, i);
      assert p[off + i] == s[i] && p[off + i + 1] == s[i + 1];
      p[off + i] := ShlDigit(p[off + i], p[off + i + 1], sh);
      assert p[off + i] == d;
      i := i + 1;
    }
    OverZero(sh);
    p[off + i] := Kept(p[off + i], sh);
    ghost var r := p[off..off + len + 1];
    ShiftedValue(s, sh, r);
  }

  lemma ShiftedValue(s: seq<Digit>, sh: nat, r: seq<Digit>)
    requires sh <= 16 && |r| == |s| > 0
    requires forall i :: 0 <= i < |r| ==> r[i] == Shifted(s, sh, i)
    ensures Val(s) * Pow2(sh) == Val(r) + Over(s[0], sh) * Pow(|s|)
  {
    ShiftBalanced(s, sh, r);
    BalancedValue(s, r, Carries(s, sh), Pow2(sh), |s|);
    assert s[..|s|] == s && r[..|s|] == r;
  }

  lemma OverZero(sh: nat)
    requires sh <= 16
    ensures Over(0, sh) == 0
  {
    DivIs(0, Pow2(16 - sh), 0, 0);
  }

  /** One digit of the remainder's shift right by d bits. */
  function ShrDigit(hi: Digit, lo: Digit, d: nat): (r: nat)
    requires d <= 16
    ensures r == ShlDigit(hi, lo, 16 - d)
  {
    ShiftSplits(hi, 16 - d);
    ShiftSplits(lo, 16 - d);
    OrDisjoint(hi % Pow2(d), 16 - d, Over(lo, 16 - d));
    BitOr(lo / Pow2(d), LHalf(U32(hi * Pow2(16 - d))))
  }

  /** The remainder's unshift: u[um..um+n] moves right by d bits in place. */
  method Unshift(u: array<Digit>, um: nat, n: nat, d: nat)
    requires um + n < u.Length && d <= 16 && u[um] == 0
    modifies u
    ensures u[..um + 1] == old(u[..um + 1])
    ensures Val(u[..][um + 1..um + n + 1]) == Val(old(u[..])[um + 1..um + n + 1]) / Pow2(d)
  {
    ghost var s0 := u[..];
    ghost var s := s0[um..um + n + 1];
    var i := n;
    while i > 0
      invariant 0 <= i <= n
      invariant u[..um] == old(u[..um])
      invariant forall k :: 0 <= k <= i ==> u[um + k] == s[k]
      invariant forall k :: i < k <= n ==> u[um + k] == ShlDigit(s[k - 1], s[k], 16 - d)
    {
      ghost var x := ShlDigit(s[i - 1], s[i], 16 - d);
      assert u[um + (i - 1)] == s[i - 1] && u[um + i] == s[i];
      u[um + i] := ShrDigit(u[um + i - 1], u[um + i], d);
      assert u[um + i] == x;
      i := i - 1;
    }
    u[um + i] := 0;
    ghost var r := u[..][um + 1..um + n + 1];
    assert u[..um + 1] == old(u[..um + 1]) by {
      assert u[..um + 1] == u[..um] + [0];
      assert old(u[..um + 1]) == old(u[..um]) + [0];
    }
    forall k | 0 <= k < n
      ensures r[k] == Shifted(s, 16 - d, k)
    {
      assert r[k] == u[um + (k + 1)];
    }
    UnshiftValue(s, r, d);
    assert s[1..] == s0[um + 1..um + n + 1];
  }

  /** A right shift by d is a left shift by 16 - d moved down one digit. */
  lemma UnshiftValue(s: seq<Digit>, r: seq<Digit>, d: nat)
    requires |s| == |r| + 1 && s[0] == 0 && d <= 16
    requires forall k :: 0 <= k < |r| ==> r[k] == Shifted(s, 16 - d, k)
    ensures Val(r) == Val(s[1..]) / Pow2(d)
  {
    var n := |r|;
    var c := Carries(s, 16 - d);
    ShiftBalanced(s, 16 - d, r);
    BalancedValue(s, r, c, Pow2(16 - d), n);
    OverZero(16 - d);
    assert r[..n] == r;
    assert c[n] == s[n] / Pow2(d);
    ShiftWeights(d);
    UnshiftSum(s, r, Pow2(d), Pow2(16 - d), c[n], c[0]);
  }

  lemma UnshiftSum(s: seq<nat>, r: seq<nat>, P: nat, Q: nat, last: nat, first: nat)
    requires |s| == |r| + 1 && s[0] == 0 && P > 0 && P * Q == 0x1_0000
    requires first == 0 && last == s[|r|] / P
    requires Val(s[..|r|]) * Q + last == Val(r) + first * Pow(|r|)
    ensures Val(r) == Val(s[1..]) / P
  {
    assert s == [0] + s[1..];
    ValZeros([0], s[1..]);
    assert s == s[..|r|] + [s[|r|]];
    Snoc(s[..|r|], s[|r|]);
    RightShift(Val(s[..|r|]), s[|r|], P, Q, Val(r));
  }

  lemma RightShift(a: nat, x: nat, P: nat, Q: nat, r: nat)
    requires P > 0 && P * Q == 0x1_0000 && a * Q + x / P == r
    ensures r == (a * 0x1_0000 + x) / P
  {
    DivModParts(x, P);
    Distr(a * Q, x / P, P);
    Assoc(a, Q, P);
    Comm(P, Q);
    DivIs(a * 0x1_0000 + x, P, r, x % P);
  }

  /** The shift count of step D1: the least d that sets the top bit of a nonzero digit. */
  method ShiftCount(x: Digit) returns (d: nat)
    requires x != 0
    ensures d <= 15
    ensures 0x8000 <= x * Pow2(d) < 0x1_0000
    ensures d > 0 ==> x * Pow2(d - 1) < 0x8000
  {
    d := 0;
    var t: Word := x;
    while t < 0x8000
      invariant 0 < t < 0x1_0000 && d <= 15
      invariant t == x * Pow2(d)
      invariant t >= Pow2(d)
      invariant d > 0 ==> x * Pow2(d - 1) < 0x8000
      decreases 0x1_0000 - t
    {
      DoubleShift(x, d);
      t := U32(t * 2);
      d := d + 1;
      BelowBit(d);
    }
  }

  /** Step D1: shift both numbers so that the divisor's leading digit has its top bit set. */
  method Normalise(u: array<Digit>, uo: nat, v: array<Digit>, vo: nat, m: nat, n: nat)
    returns (d: nat)
    requires u != v && uo + m + n < u.Length && vo + n < v.Length && n >= 1
    requires u[uo] == 0 && v[vo + 1] != 0
    modifies u, v
    ensures d <= 15
    ensures u[..uo] == old(u[..uo])
    ensures Val(u[uo..uo + m + n + 1]) == old(Val(u[uo..uo + m + n + 1])) * Pow2(d)
    ensures Val(v[vo + 1..vo + n + 1]) == old(Val(v[vo + 1..vo + n + 1])) * Pow2(d)
    ensures v[vo + 1] >= 0x8000
  {
    d := ShiftCount(v[vo + 1]);
    ghost var us, vs := u[uo..uo + m + n + 1], v[vo + 1..vo + n + 1];
    if d > 0 {
      NoOverflow(v[vo + 1], d);
      OverZero(d);
      Shl(u, uo, m + n, d);
      assert Val(u[uo..uo + m + n + 1]) == Val(us) * Pow2(d);
      ghost var u1 := u[..];
      assert v[vo + 1..vo + n + 1] == vs;
      Shl(v, vo + 1, n - 1, d);
      assert u[..] == u1 && u[uo..uo + m + n + 1] == u1[uo..uo + m + n + 1];
    } else {
      ShiftByNone(Val(us), Val(vs));
    }
    NormalisedDigit(vs, v[vo + 1..vo + n + 1], Pow2(d));
  }

  lemma ShiftByNone(x: nat, y: nat)
    ensures x * Pow2(0) == x && y * Pow2(0) == y
  {}

  lemma DoubleShift(x: nat, d: nat)
    ensures x * Pow2(d + 1) == x * Pow2(d) * 2
  {
    Assoc(x, Pow2(d), 2);
  }

  lemma BelowBit(d: nat)
    ensures d <= 16 && Pow2(d) < 0x1_0000 ==> d <= 15
  {
    PowTable();
  }

  lemma NoOverflow(x: Digit, d: nat)
    requires d <= 16 && x * Pow2(d) < 0x1_0000
    ensures Over(x, d) == 0
  {
    ShiftWeights(d);
    Cancel(x, Pow2(16 - d), Pow2(d));
    Comm(Pow2(d), Pow2(16 - d));
    DivIs(x, Pow2(16 - d), 0, x);
  }

  /** If the leading digit times P has its top bit set, so has the leading digit of the product. */
  lemma NormalisedDigit(vs: seq<Digit>, ws: seq<Digit>, P: nat)
    requires vs != [] && |ws| == |vs| && Val(ws) == Val(vs) * P
    requires vs[0] * P >= 0x8000
    ensures ws[0] >= 0x8000
  {
    Leading(vs, 1);
    Leading(ws, 1);
    Single(vs[0]);
    Single(ws[0]);
    assert vs[..1] == [vs[0]] && ws[..1] == [ws[0]];
    ScaledTop(vs[0], ws[0], Pow(|vs| - 1), P, Val(vs), Val(ws));
  }

  lemma ScaledTop(v0: nat, w0: nat, w: nat, P: nat, x: nat, y: nat)
    requires v0 * w <= x && y == x * P && y < (w0 + 1) * w && v0 * P >= 0x8000
    ensures w0 >= 0x8000
  {
    Mono(v0 * w, x, P);
    Assoc(v0, P, w);
    Comm(w, P);
    Assoc(v0, w, P);
    Mono(0x8000, v0 * P, w);
    Cancel(0x8000, w0 + 1, w);
  }

  /** The top n digits of a shifted dividend are below a divisor of n digits. */
  lemma TopBelowDivisor(us: seq<Digit>, n: nat, x: nat, vx: nat, P: nat)
    requires n >= 1 && |us| > n && Val(us) == x * P && P > 0
    requires x < Pow(|us| - 1) && vx >= Pow(n - 1)
    ensures Val(us[..n]) < vx * P
  {
    var k := |us| - n;
    Leading(us, n);
    PowSplit(n - 1, k);
    Mono(x, Pow(n - 1) * Pow(k) - 1, P);
    DistrSub(Pow(n - 1) * Pow(k), 1, P);
    Assoc(Pow(n - 1), Pow(k), P);
    Comm(Pow(k), P);
    Assoc(Pow(n - 1), P, Pow(k));
    Cancel(Val(us[..n]), Pow(n - 1) * P, Pow(k));
    Mono(Pow(n - 1), vx, P);
  }

  lemma {:induction false} PowSplit(a: nat, b: nat)
    ensures Pow(a + b) == Pow(a) * Pow(b)
  {
    if a > 0 {
      PowSplit(a - 1, b);
      assert a + b - 1 == (a - 1) + b;
      Assoc(0x1_0000, Pow(a - 1), Pow(b));
    }
  }
}

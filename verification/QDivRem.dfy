// __qdivrem: 64-bit unsigned division by Knuth's Algorithm D in base 2^16.
module QDivRem {
  import opened Words
  import opened Arith
  import opened QColumns
  import opened QLongDivide
  import opened QShift

  /** Undoing the scale factor of a scaled division. */
  lemma Unscale(x: nat, v: nat, P: nat, Q: nat, R: nat)
    requires P > 0 && x * P == Q * (v * P) + R && R < v * P
    ensures R / P == x - Q * v && 0 <= x - Q * v < v
  {
    Assoc(Q, v, P);
    DistrSub(x, Q * v, P);
    Cancel(-1, x - Q * v, P);
    Cancel(x - Q * v, v, P);
    DivIs(R, P, x - Q * v, 0);
  }

  /** Four digits read as the two words of a 64-bit value. */
  function FromDigits(a: Digit, b: Digit, c: Digit, d: Digit): (r: nat)
    ensures r == Val([a, b, c, d]) && r < 0x1_0000_0000_0000_0000
  {
    CombineIsPair(a, b);
    CombineIsPair(c, d);
    ValFour([a, b, c, d]);
    Combine(a, b) * 0x1_0000_0000 + Combine(c, d)
  }

  /** Exercise 16: division by a single digit, one digit at a time. */
  method DivideByDigit(u1: Digit, u2: Digit, u3: Digit, u4: Digit, t: Digit)
    returns (q: DWord, rem: DWord)
    requires t != 0
    ensures Val([u1, u2, u3, u4]) == q * t + rem && rem < t
  {
    var q1, r1 := DivideWord(u1, t);
    CombineIsPair(r1, u2);
    var q2, r2 := DivideWord(Combine(r1, u2), t);
    CombineIsPair(r2, u3);
    var q3, r3 := DivideWord(Combine(r2, u3), t);
    CombineIsPair(r3, u4);
    var q4, r4 := DivideWord(Combine(r3, u4), t);
    rem := r4;
    q := FromDigits(q1, q2, q3, q4);
    FourStepDivision([u1, u2, u3, u4], [q1, q2, q3, q4], t, r1, r2, r3, r4);
  }

  method DivideWord(rbj: Word, t: Digit) returns (q: Digit, r: Digit)
    requires rbj < 0x1_0000 * t
    ensures rbj == q * t + r && r < t
  {
    DivModParts(rbj, t);
    Cancel(rbj / t, 0x1_0000, t);
    q := rbj / t;
    r := rbj % t;
  }

  lemma FourStepDivision(us: seq<nat>, qs: seq<nat>, t: nat, r1: nat, r2: nat, r3: nat, r4: nat)
    requires |us| == |qs| == 4
    requires us[0] == qs[0] * t + r1
    requires r1 * 0x1_0000 + us[1] == qs[1] * t + r2
    requires r2 * 0x1_0000 + us[2] == qs[2] * t + r3
    requires r3 * 0x1_0000 + us[3] == qs[3] * t + r4
    ensures Val(us) == Val(qs) * t + r4
  {
    ValFour(us);
    ValFour(qs);
    ScaledQuotient(us[0], qs[0], r1, t, us[1], qs[1], r2);
    var u2, q2 := us[0] * 0x1_0000 + us[1], qs[0] * 0x1_0000 + qs[1];
    ScaledQuotient(u2, q2, r2, t, us[2], qs[2], r3);
    ScaledQuotient(u2 * 0x1_0000 + us[2], q2 * 0x1_0000 + qs[2], r3, t, us[3], qs[3], r4);
  }

  /** A five-digit buffer whose slots before k are zero holds the value of the rest. */
  lemma BufferValue(s: seq<Digit>, k: nat)
    requires |s| == 5 && 1 <= k <= 5 && forall i :: 1 <= i < k ==> s[i] == 0
    ensures FromDigits(s[1], s[2], s[3], s[4]) == Val(s[k..])
  {
    assert [s[1], s[2], s[3], s[4]] == s[1..k] + s[k..];
    ValZeros(s[1..k], s[k..]);
  }

  lemma LeadingNonzero(s: seq<Digit>)
    requires s != [] && s[0] != 0
    ensures Val(s) >= Pow(|s| - 1)
  {
    Headed(s, 0);
    assert s[0..] == s;
    Mono(1, s[0], Pow(|s| - 1));
  }

  lemma LeadingZero(s: seq<Digit>)
    requires s != [] && s[0] == 0
    ensures Val(s) < Pow(|s| - 1)
  {
    assert s == [0] + s[1..];
    ValZeros([0], s[1..]);
    ValBound(s[1..]);
  }

  method ZeroPrefix(q: array<Digit>, k: nat)
    requires k <= q.Length
    modifies q
    ensures forall i :: 0 <= i < k ==> q[i] == 0
  {
    var i := k;
    while i > 0
      invariant 0 <= i <= k
      invariant forall j :: i <= j < k ==> q[j] == 0
    {
      i := i - 1;
      q[i] := 0;
    }
  }

  lemma PrefixZeros(a: seq<Digit>, b: seq<Digit>, c: seq<Digit>, uo: nat, m: nat)
    requires uo + m < |a| == |b| == |c|
    requires a[..uo] == b[..uo] && b[..uo] == c[..uo]
    requires forall k :: 0 <= k <= uo ==> c[k] == 0
    requires forall k :: uo <= k < uo + (m + 1) ==> a[k] == 0
    ensures forall k :: 0 <= k <= uo + m ==> a[k] == 0
  {
    forall k | 0 <= k < uo
      ensures a[k] == 0
    {
      assert a[k] == a[..uo][k] == c[..uo][k];
    }
  }

  /** Program D on the prepared digits: u holds x from digit uo on and v holds y
      from digit vo+1 on; the quotient digits end in q[qo..] and the remainder,
      still scaled by 2^d, in the low digits of u. */
  method ProgramD(u: array<Digit>, uo: nat, v: array<Digit>, vo: nat, q: array<Digit>, qo: nat, m: nat, n: nat,
                  ghost x: nat, ghost y: nat)
    returns (d: nat)
    requires u != v && q != u && q != v && u.Length == v.Length == q.Length == 5
    requires uo + m + n == 4 && vo + n == 4 && qo + m == 4 && n >= 2
    requires forall k :: 0 <= k <= uo ==> u[k] == 0
    requires forall k :: 0 <= k < qo ==> q[k] == 0
    requires Val(u[uo..]) == x && Val(v[vo + 1..]) == y
    requires v[vo + 1] != 0
    modifies u, v, q
    ensures y > 0 && d <= 15
    ensures Val(q[..][qo..]) == x / y
    ensures Val(u[..][uo + m + 1..]) / Pow2(d) == x % y
    ensures forall k :: 0 <= k <= uo + m ==> u[k] == 0
    ensures forall k :: 0 <= k < qo ==> q[k] == 0
  {
    ghost var z, q0 := u[..], q[..];
    assert v[vo + 1..vo + n + 1] == v[vo + 1..] && u[uo..uo + m + n + 1] == u[uo..];
    LeadingNonzero(v[vo + 1..]);
    LeadingZero(u[uo..]);
    d := Normalise(u, uo, v, vo, m, n);
    ghost var u0 := u[..];
    ghost var ws := u0[uo..uo + m + n + 1];
    TopBelowDivisor(ws, n, x, y, Pow2(d));
    Reslice(u0, uo, uo + m + n + 1, n);
    assert u[uo..uo + n] == u0[uo..uo + n];
    assert q[..] == q0;
    LongDivide(u, uo, v, vo, q, qo, m, n);
    DivideOutcome(u[..], q[..], u0, q0, z, uo, qo, m, n, x, y, Pow2(d));
  }

  lemma Reslice(a: seq<Digit>, i: nat, j: nat, n: nat)
    requires i + n <= j <= |a|
    ensures a[i..j][..n] == a[i..i + n]
  {}

  lemma DivideOutcome(u: seq<Digit>, q: seq<Digit>, u0: seq<Digit>, q0: seq<Digit>, z: seq<Digit>,
                      uo: nat, qo: nat, m: nat, n: nat, x: nat, y: nat, P: nat)
    requires |u| == |q| == |z| == 5 && uo + m + n == 4 && qo + m == 4 && P > 0 && y > 0
    requires LoopState(u, q, u0, q0, uo, qo, y * P, m, n, m + 1)
    requires Val(u0[uo..uo + m + n + 1]) == x * P
    requires u0[..uo] == z[..uo]
    requires forall k :: 0 <= k <= uo ==> z[k] == 0
    requires forall k :: 0 <= k < qo ==> q0[k] == 0
    ensures Val(q[qo..]) == x / y && Val(u[uo + m + 1..]) / P == x % y
    ensures forall k :: 0 <= k <= uo + m ==> u[k] == 0
    ensures forall k :: 0 <= k < qo ==> q[k] == 0
  {
    PrefixZeros(u, u0, z, uo, m);
    forall k | 0 <= k < qo
      ensures q[k] == 0
    {
      assert q[k] == q[..qo][k] == q0[..qo][k];
    }
    assert q[qo..] == q[qo..qo + (m + 1)] && u[uo + m + 1..] == u[uo + (m + 1)..uo + (m + 1) + n];
    assert u0[uo..uo + m + n + 1] == u0[uo..uo + (m + 1) + n];
    ScaledDivision(x, y, P, Val(q[qo..]), Val(u[uo + m + 1..]));
  }

  lemma ScaledDivision(x: nat, y: nat, P: nat, Q: nat, R: nat)
    requires P > 0 && y > 0 && x * P == Q * (y * P) + R && R < y * P
    ensures Q == x / y && R / P == x % y
  {
    Unscale(x, y, P, Q, R);
    DivIs(x, y, Q, x - Q * y);
  }

  /** The remainder in the low digits of u, shifted back by d bits. */
  method ReadRemainder(u: array<Digit>, um: nat, n: nat, d: nat) returns (rem: DWord)
    requires u.Length == 5 && um + n == 4 && d <= 15
    requires forall k :: 0 <= k <= um ==> u[k] == 0
    modifies u
    ensures rem == Val(old(u[..])[um + 1..]) / Pow2(d)
  {
    TailSlice(u[..], um + 1, um + n + 1);
    if d != 0 {
      ghost var z := u[..um + 1];
      Unshift(u, um, n, d);
      TailSlice(u[..], um + 1, um + n + 1);
      forall k | 0 <= k <= um
        ensures u[k] == 0
      {
        assert u[k] == u[..um + 1][k] == z[k];
      }
    } else {
      ShiftByNone(Val(u[..][um + 1..]), 0);
      DivIs(Val(u[..][um + 1..]), Pow2(0), Val(u[..][um + 1..]), 0);
    }
    BufferValue(u[..], um + 1);
    rem := FromDigits(u[1], u[2], u[3], u[4]);
  }

  lemma TailSlice(a: seq<Digit>, i: nat, j: nat)
    requires i <= j == |a|
    ensures a[i..j] == a[i..]
  {}

  /** Skip the divisor's leading zero digits; n counts the digits left. */
  method SkipDivisorZeros(v: array<Digit>) returns (n: nat, vo: nat)
    requires v.Length == 5 && Val(v[1..5]) > 0
    ensures 1 <= n && vo + n == 4
    ensures Val(v[vo + 1..]) == Val(v[1..5])
    ensures n >= 2 ==> v[vo + 1] != 0
  {
    n, vo := 4, 0;
    while v[vo + 1] == 0 && n > 1
      invariant 1 <= n && vo + n == 4
      invariant forall k :: 1 <= k <= vo ==> v[k] == 0
      decreases n
    {
      n := n - 1;
      vo := vo + 1;
    }
    SuffixValue(v[..], vo + 1);
    assert v[..][1..5] == v[1..5];
    assert v[..][vo + 1..] == v[vo + 1..];
  }

  /** Skip the dividend's leading zero digits; it has at least as many digits as the divisor. */
  method SkipDividendZeros(u: array<Digit>, n: nat) returns (m: nat, uo: nat)
    requires u.Length == 5 && u[0] == 0 && 1 <= n <= 4
    requires Val(u[1..5]) >= Pow(n - 1)
    ensures uo + m + n == 4
    ensures forall k :: 0 <= k <= uo ==> u[k] == 0
    ensures Val(u[uo..]) == Val(u[1..5])
  {
    m, uo := 4 - n, 0;
    while u[uo + 1] == 0
      invariant uo + m + n == 4
      invariant forall k :: 0 <= k <= uo ==> u[k] == 0
      decreases m
    {
      SuffixValue(u[..], uo + 1);
      assert u[..][1..5] == u[1..5];
      LeadingZero(u[..][uo + 1..]);
      PowMono(n - 1, 3 - uo);
      m := m - 1;
      uo := uo + 1;
    }
    SuffixValue(u[..], uo + 1);
    assert u[..][1..5] == u[1..5];
    assert u[uo..] == [0] + u[..][uo + 1..];
    ValZeros([0], u[..][uo + 1..]);
  }

  lemma {:induction false} PowMono(a: nat, b: nat)
    ensures Pow(a) < Pow(b) ==> a < b
    decreases a
  {
    if a > 0 && b > 0 { PowMono(a - 1, b - 1); }
  }

  /** Break a 64-bit value into digits 1 to 4 of a buffer. */
  method LoadDigits(x: DWord) returns (a: array<Digit>)
    ensures fresh(a) && a.Length == 5
    ensures Val(a[1..5]) == x
  {
    a := new Digit[5];
    a[1], a[2], a[3], a[4] := HHalf(Hi(x)), LHalf(Hi(x)), HHalf(Lo(x)), LHalf(Lo(x));
    assert a[1..5] == DWordDigits(x);
    SplitJoin(x);
  }

  /** __qdivrem: the quotient and, when asked for, the remainder; a zero divisor traps. */
  method QDivRem(ull: DWord, vll: DWord, arq: bool) returns (trap: bool, quo: DWord, rem: DWord)
    ensures trap <==> vll == 0
    ensures !trap ==> quo == ull / vll
    ensures !trap && arq ==> rem == ull % vll
  {
    trap, quo, rem := false, 0, 0;
    if vll == 0 {
      trap := true;
      return;
    }
    if ull < vll {
      DivIs(ull, vll, 0, ull);
      rem := ull;
      return;
    }
    var u := LoadDigits(ull);
    u[0] := 0;
    assert u[1..5] == u[..][1..5];
    var v := LoadDigits(vll);
    var n, vo := SkipDivisorZeros(v);
    if n == 1 {
      assert v[vo + 1..] == [v[4]];
      Single(v[4]);
      assert u[1..5] == [u[1], u[2], u[3], u[4]];
      quo, rem := DivideByDigit(u[1], u[2], u[3], u[4], v[4]);
      DivIs(ull, vll, quo, rem);
      return;
    }
    LeadingNonzero(v[vo + 1..]);
    var m, uo := SkipDividendZeros(u, n);
    var q := new Digit[5];
    ZeroPrefix(q, 4 - m);
    var d := ProgramD(u, uo, v, vo, q, 4 - m, m, n, ull, vll);
    BufferValue(q[..], 4 - m);
    quo := FromDigits(q[1], q[2], q[3], q[4]);
    if arq {
      rem := ReadRemainder(u, uo + m, n, d);
    }
  }

  lemma SuffixValue(s: seq<Digit>, k: nat)
    requires |s| == 5 && 1 <= k <= 5 && forall i :: 1 <= i < k ==> s[i] == 0
    ensures Val(s[1..5]) == Val(s[k..])
  {
    assert s[1..5] == s[1..k] + s[k..];
    ValZeros(s[1..k], s[k..]);
  }
}

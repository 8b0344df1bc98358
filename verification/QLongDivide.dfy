// Steps D2 to D7: one quotient digit after another.
module QLongDivide {
  import opened Words
  import opened Arith
  import opened QEstimate
  import opened QColumns

  lemma WindowOf(us: seq<Digit>, vs: seq<Digit>)
    requires |us| == |vs| + 1 && |vs| >= 2
    requires vs[0] >= 0x8000 && Val(us) < 0x1_0000 * Val(vs)
    ensures Window(us[0], us[1], us[2], vs[0], vs[1], Val(us), Val(vs), Pow(|vs| - 2))
  {
    LeadingThree(us);
    LeadingTwo(vs);
  }

  lemma LeadingThree(s: seq<Digit>)
    requires |s| >= 3
    ensures Between((s[0] as int * 0x1_0000 + s[1]) * 0x1_0000 + s[2], Pow(|s| - 3), Val(s))
  {
    Leading(s, 3);
    ShortVal(s);
  }

  lemma LeadingTwo(s: seq<Digit>)
    requires |s| >= 2
    ensures Between(s[0] as int * 0x1_0000 + s[1], Pow(|s| - 2), Val(s))
  {
    Leading(s, 2);
    ShortVal(s);
  }

  /** A digit string lies between its leading digits and their successor, scaled. */
  lemma Leading(s: seq<Digit>, k: nat)
    requires k <= |s|
    ensures Between(Val(s[..k]), Pow(|s| - k), Val(s))
  {
    assert s == s[..k] + s[k..];
    ValConcat(s[..k], s[k..]);
    ValBound(s[k..]);
    Distr(Val(s[..k]), 1, Pow(|s| - k));
  }

  lemma ShortVal(s: seq<nat>)
    requires |s| >= 2
    ensures Val(s[..2]) == s[0] * 0x1_0000 + s[1]
    ensures |s| >= 3 ==> Val(s[..3]) == (s[0] * 0x1_0000 + s[1]) * 0x1_0000 + s[2]
  {
    assert s[..2][..1] == s[..1] && s[..1][..0] == [];
    assert Val(s[..1]) == s[0];
    if |s| >= 3 { assert s[..3][..2] == s[..2]; }
  }

  /** Step D5: the subtraction borrows exactly when the estimate is one too large,
      and otherwise leaves the remainder of the window. */
  lemma BorrowIffTooLarge(U: nat, V: nat, qhat: nat, left: nat, b: nat, M: nat)
    requires V > 0 && U / V <= qhat <= U / V + 1
    requires left + qhat * V == U + b * M && left < M && b <= 1 && V <= M
    ensures b == 1 <==> qhat == U / V + 1
    ensures b == 0 ==> left == U % V
    ensures b == 1 ==> left + V == U % V + M
  {
    DivBounds(U, V);
    Distr(U / V, 1, V);
  }

  /** Step D6: the carry out of the top column cancels the borrow. */
  lemma AddBackRestores(rem: nat, V: nat, left: nat, left': nat, c: nat, M: nat)
    requires rem < V && V <= M && left + V == rem + M
    requires left' + c * M == left + V && left' < M && c <= 1
    ensures left' == rem
  {}

  lemma TopDigitZero(s: seq<Digit>)
    requires s != [] && Val(s) < Pow(|s| - 1)
    ensures s[0] == 0 && Val(s[1..]) == Val(s)
  {
    Headed(s, 0);
    assert s[0..] == s;
    BelowOne(s[0], Pow(|s| - 1), Val(s[1..]));
  }

  lemma BelowOne(a: nat, P: nat, x: nat)
    requires a * P + x < P
    ensures a == 0
  {
    Cancel(a, 1, P);
  }

  lemma Quotient(us: seq<nat>, V: nat, qd: nat, r: seq<nat>)
    requires V > 0 && qd == Val(us) / V && Val(r) == Val(us) % V
    ensures Divided(us, V, [qd], r)
  {
    Single(qd);
    DivModParts(Val(us), V);
  }

  lemma Single(d: nat)
    ensures Val([d]) == d
  {
    assert [d][..0] == [];
  }

  /** One digit of the quotient: the window u[uj..uj+n] gives way to a zero digit
      and the remainder, and nothing else changes. */
  ghost predicate DigitStep(u: seq<Digit>, u': seq<Digit>, uj: nat, n: nat, V: nat, qd: nat) {
    && uj + n < |u| == |u'|
    && u'[..uj] == u[..uj] && u'[uj] == 0 && u'[uj + n + 1..] == u[uj + n + 1..]
    && Divided(u[uj..uj + n + 1], V, [qd], u'[uj + 1..uj + n + 1])
  }

  /** Steps D3 to D6: one quotient digit, leaving the remainder in the window. */
  method DivideDigit(u: array<Digit>, uj: nat, v: array<Digit>, vo: nat, n: nat)
    returns (qd: Digit)
    requires u != v && uj + n < u.Length && vo + n < v.Length && n >= 2
    requires v[vo + 1] >= 0x8000
    requires Val(u[uj..uj + n + 1]) < 0x1_0000 * Val(v[vo + 1..vo + n + 1])
    modifies u
    ensures DigitStep(old(u[..]), u[..], uj, n, Val(v[vo + 1..vo + n + 1]), qd)
  {
    ghost var u0 := u[..];
    ghost var us, vs := u0[uj..uj + n + 1], v[vo + 1..vo + n + 1];
    ghost var U, V := Val(us), Val(vs);
    WindowOf(us, vs);
    var qhat, _ := EstimateDigit(u[uj], u[uj + 1], u[uj + 2], v[vo + 1], v[vo + 2], U, V, Pow(n - 2));
    ValBound(vs);
    ValZeros([0], vs);
    var borrow, s := MulSub(u, uj, v, vo, n, qhat);
    ValBound(s);
    BorrowIffTooLarge(U, V, qhat, Val(s), if borrow then 1 else 0, Pow(n + 1));
    if borrow {
      qhat := qhat - 1;
      ghost var c, s1 := 0, s;
      assert u[uj..uj + n + 1] == s1;
      c, s := AddBack(u, uj, v, vo, n);
      ValBound(s);
      AddBackRestores(U % V, V, Val(s1), Val(s), c, Pow(n + 1));
      Respliced(u0, s1, s, uj, n);
    }
    TopDigitZero(s);
    qd := qhat;
    Quotient(us, V, qd, s[1..]);
    StepTaken(u0, s, uj, n, V, qd);
  }

  lemma Respliced(u: seq<Digit>, s1: seq<Digit>, s: seq<Digit>, uj: nat, n: nat)
    requires uj + n < |u| && |s1| == |s| == n + 1
    ensures var w := u[..uj] + s1 + u[uj + n + 1..];
            w[..uj] + s + w[uj + n + 1..] == u[..uj] + s + u[uj + n + 1..]
  {}

  lemma StepTaken(u: seq<Digit>, s: seq<Digit>, uj: nat, n: nat, V: nat, qd: nat)
    requires uj + n < |u| && |s| == n + 1 && s[0] == 0
    requires Divided(u[uj..uj + n + 1], V, [qd], s[1..])
    ensures DigitStep(u, u[..uj] + s + u[uj + n + 1..], uj, n, V, qd)
  {
    assert (u[..uj] + s + u[uj + n + 1..])[uj + 1..uj + n + 1] == s[1..];
  }

  lemma Snoc(s: seq<nat>, d: nat)
    ensures Val(s + [d]) == Val(s) * 0x1_0000 + d
  {
    assert (s + [d])[..|s|] == s;
  }

  lemma NextWindowFits(r: seq<nat>, V: nat, d: Digit)
    requires Val(r) < V
    ensures Val(r + [d]) < 0x1_0000 * V
  {
    Snoc(r, d);
  }

  /** Dividing us by V gives the quotient digits qs and the remainder digits r. */
  ghost predicate Divided(us: seq<nat>, V: nat, qs: seq<nat>, r: seq<nat>) {
    Val(us) == Val(qs) * V + Val(r) && Val(r) < V
  }

  /** One more digit of long division: the quotient and remainder of a prefix
      give those of the prefix with its next digit. */
  lemma ExtendQuotient(us: seq<nat>, k: nat, V: nat, qs: seq<nat>, r: seq<nat>, qd: nat, r': seq<nat>)
    requires k < |us| && Divided(us[..k], V, qs, r)
    requires Divided(r + [us[k]], V, [qd], r')
    ensures Divided(us[..k + 1], V, qs + [qd], r')
  {
    assert us[..k + 1] == us[..k] + [us[k]];
    Snoc(us[..k], us[k]);
    Snoc(r, us[k]);
    Snoc(qs, qd);
    Single(qd);
    ScaledQuotient(Val(us[..k]), Val(qs), Val(r), V, us[k], qd, Val(r'));
  }

  lemma ScaledQuotient(x: nat, Q: nat, r: nat, V: nat, d: nat, qd: nat, r': nat)
    requires x == Q * V + r && r * 0x1_0000 + d == qd * V + r'
    ensures x * 0x1_0000 + d == (Q * 0x1_0000 + qd) * V + r'
  {
    Distr(Q * 0x1_0000, qd, V);
    Assoc(0x1_0000, Q, V);
  }

  /** The state of the digit loop before step j: the digits above the window are
      zero, those below are untouched, and the prefix seen so far is divided. */
  ghost predicate LoopState(u: seq<Digit>, q: seq<Digit>, orig: seq<Digit>, qorig: seq<Digit>,
                            uo: nat, qo: nat, V: nat, m: nat, n: nat, j: nat) {
    && |u| == |orig| && |q| == |qorig|
    && uo + m + n < |u| && qo + m < |q| && j <= m + 1
    && u[..uo] == orig[..uo] && q[..qo] == qorig[..qo]
    && (forall k :: uo <= k < uo + j ==> u[k] == 0)
    && u[uo + j + n..] == orig[uo + j + n..]
    && Divided(orig[uo..uo + j + n], V, q[qo..qo + j], u[uo + j..uo + j + n])
  }

  lemma LoopWindow(u: seq<Digit>, q: seq<Digit>, orig: seq<Digit>, qorig: seq<Digit>,
                   uo: nat, qo: nat, V: nat, m: nat, n: nat, j: nat)
    requires LoopState(u, q, orig, qorig, uo, qo, V, m, n, j) && j <= m
    ensures u[uo + j..uo + j + n + 1] == u[uo + j..uo + j + n] + [orig[uo + j + n]]
    ensures Val(u[uo + j..uo + j + n + 1]) < 0x1_0000 * V
  {
    assert u[uo + j + n] == u[uo + j + n..][0] == orig[uo + j + n];
    NextWindowFits(u[uo + j..uo + j + n], V, orig[uo + j + n]);
  }

  lemma LoopStep(u: seq<Digit>, q: seq<Digit>, orig: seq<Digit>, qorig: seq<Digit>,
                 uo: nat, qo: nat, V: nat, m: nat, n: nat, j: nat, u': seq<Digit>, qd: Digit)
    requires LoopState(u, q, orig, qorig, uo, qo, V, m, n, j) && j <= m
    requires DigitStep(u, u', uo + j, n, V, qd)
    ensures LoopState(u', q[qo + j := qd], orig, qorig, uo, qo, V, m, n, j + 1)
  {
    LoopWindow(u, q, orig, qorig, uo, qo, V, m, n, j);
    var q' := q[qo + j := qd];
    LoopFrame(u, orig, uo, n, j, u');
    assert q'[..qo] == q[..qo];
    assert q'[qo..qo + j + 1] == q[qo..qo + j] + [qd];
    var us := orig[uo..uo + j + n + 1];
    assert us[..|us| - 1] == orig[uo..uo + j + n] && us[|us| - 1] == orig[uo + j + n];
    LoopValue(us, V, q[qo..qo + j], u[uo + j..uo + j + n], qd, u'[uo + j + 1..uo + j + n + 1]);
  }

  lemma LoopValue(us: seq<nat>, V: nat, qs: seq<nat>, r: seq<nat>, qd: nat, r': seq<nat>)
    requires us != [] && Divided(us[..|us| - 1], V, qs, r)
    requires Divided(r + [us[|us| - 1]], V, [qd], r')
    ensures Divided(us, V, qs + [qd], r')
  {
    ExtendQuotient(us, |us| - 1, V, qs, r, qd, r');
    assert us[..|us|] == us;
  }

  lemma LoopFrame(u: seq<Digit>, orig: seq<Digit>, uo: nat, n: nat, j: nat, u': seq<Digit>)
    requires uo + j + n < |u| == |u'| == |orig|
    requires u[..uo] == orig[..uo] && forall k :: uo <= k < uo + j ==> u[k] == 0
    requires u[uo + j + n..] == orig[uo + j + n..]
    requires u'[..uo + j] == u[..uo + j] && u'[uo + j] == 0
    requires u'[uo + j + n + 1..] == u[uo + j + n + 1..]
    ensures u'[..uo] == orig[..uo]
    ensures u'[uo + j + 1 + n..] == orig[uo + j + 1 + n..]
    ensures forall k :: uo <= k < uo + j + 1 ==> u'[k] == 0
  {
    assert u'[..uo] == u'[..uo + j][..uo] == u[..uo + j][..uo] == u[..uo];
    assert u[uo + j + n + 1..] == u[uo + j + n..][1..];
    assert orig[uo + j + n + 1..] == orig[uo + j + n..][1..];
    forall k | uo <= k < uo + j
      ensures u'[k] == 0
    {
      assert u'[k] == u'[..uo + j][k] == u[..uo + j][k];
    }
  }

  /** Steps D2 to D7: the digit loop over u[uo..uo+m+n], quotient into q[qo..qo+m]. */
  method LongDivide(u: array<Digit>, uo: nat, v: array<Digit>, vo: nat, q: array<Digit>, qo: nat, m: nat, n: nat)
    requires u != v && q != u && q != v
    requires uo + m + n < u.Length && vo + n < v.Length && qo + m < q.Length && n >= 2
    requires v[vo + 1] >= 0x8000
    requires Val(u[uo..uo + n]) < Val(v[vo + 1..vo + n + 1])
    modifies u, q
    ensures LoopState(u[..], q[..], old(u[..]), old(q[..]), uo, qo, Val(v[vo + 1..vo + n + 1]), m, n, m + 1)
  {
    ghost var vs, orig, qorig := v[..], u[..], q[..];
    ghost var V := Val(vs[vo + 1..vo + n + 1]);
    var j := 0;
    assert orig[uo..uo + n] == u[uo..uo + n];
    while j <= m
      invariant 0 <= j <= m + 1 && v[..] == vs
      invariant LoopState(u[..], q[..], orig, qorig, uo, qo, V, m, n, j)
    {
      ghost var u0, q0 := u[..], q[..];
      LoopWindow(u0, q0, orig, qorig, uo, qo, V, m, n, j);
      assert u[uo + j..uo + j + n + 1] == u0[uo + j..uo + j + n + 1];
      assert v[vo + 1..vo + n + 1] == vs[vo + 1..vo + n + 1];
      var qd := DivideDigit(u, uo + j, v, vo, n);
      LoopStep(u0, q0, orig, qorig, uo, qo, V, m, n, j, u[..], qd);
      q[qo + j] := qd;
      j := j + 1;
    }
  }
}

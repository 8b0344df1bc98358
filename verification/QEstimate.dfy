// Step D3 of Knuth's Algorithm D (The Art of Computer Programming, volume 2, section
// 4.3.1): the estimate of one quotient digit.
module QEstimate {
  import opened Words
  import opened Arith

  // The quotient-digit estimate, for any base b and any divisor of at least two
  // digits. The dividend window is uTop * p + uLow and the divisor vTop * p + vLow,
  // where uTop holds the three leading digits, vTop the two leading digits and
  // p is the weight of the digits below them.

  /** A candidate that fails the test of step D3 is larger than the true digit. */
  lemma FailingCandidateTooBig(q: nat, uTop: nat, uLow: nat, vTop: nat, vLow: nat, p: nat)
    requires uLow < p
    requires q * vTop > uTop
    ensures q * (vTop * p + vLow) > uTop * p + uLow
  {
    Mono(uTop + 1, q * vTop, p);
    Distr(uTop, 1, p);
    Assoc(q, vTop, p);
    Distr(vTop * p, vLow, q);
    Comm(q, vTop * p + vLow);
    Comm(q, vTop * p);
    Mono(0, vLow, q);
  }

  /** A candidate that passes the test of step D3 is at most one too large. */
  lemma PassingCandidateWithinOne(q: nat, uTop: nat, uLow: nat, vTop: nat, vLow: nat, p: nat)
    requires 0 < q <= vTop && vLow < p
    requires q * vTop <= uTop
    ensures (q - 1) * (vTop * p + vLow) <= uTop * p + uLow
  {
    var a := vTop * p;
    DistrSub(q, 1, a + vLow);
    Comm(q, a + vLow);
    Distr(a, vLow, q);
    Comm(a, q);
    Assoc(q, vTop, p);
    Mono(q * vTop, uTop, p);
    Mono(vLow, p, q - 1);
    DistrSub(q, 1, vLow);
    Comm(vLow, q);
    Comm(vLow, q - 1);
    Comm(p, q - 1);
    Mono(q - 1, vTop, p);
  }

  /** Theorem B of section 4.3.1: with a normalised divisor the first guess made
      from two dividend digits and one divisor digit is at most two too large. */
  lemma FirstGuessWithinTwo(b: nat, guess: nat, d: nat, v1: nat, u01: nat, U: nat, V: nat, P: nat)
    requires 2 * v1 >= b && guess < b && P > 0
    requires v1 * P <= V < (v1 + 1) * P
    requires u01 * P <= U < (d + 1) * V
    requires guess * v1 <= u01
    ensures guess <= d + 2
  {
    // guess * V <= guess * v1 * P + guess * P <= U + guess * P < (d + 1) * V + 2 * V
    Mono(V, (v1 + 1) * P, guess);
    Comm(V, guess);
    Comm((v1 + 1) * P, guess);
    Distr(v1, 1, P);
    Distr(v1 * P, P, guess);
    Comm(v1 * P, guess);
    Assoc(guess, v1, P);
    Mono(guess * v1, u01, P);
    Comm(P, guess);
    Mono(guess, b, P);
    Mono(b, 2 * v1, P);
    Assoc(2, v1, P);
    Distr(d + 1, 2, V);
    Cancel(guess, d + 3, V);
  }

  /** A digit estimate never falls below the true digit. */
  lemma GuessNotTooSmall(d: nat, v1: nat, u01: nat, U: nat, V: nat, P: nat)
    requires P > 0
    requires v1 * P <= V && d * V <= U < (u01 + 1) * P
    ensures d * v1 <= u01
  {
    Mono(v1 * P, V, d);
    Comm(v1 * P, d);
    Comm(V, d);
    Assoc(d, v1, P);
    Cancel(d * v1, u01 + 1, P);
  }

  ghost predicate Between(top: nat, p: nat, x: nat) { top * p <= x < (top + 1) * p }

  /** The window and the divisor seen through their leading digits. */
  ghost predicate Window(u0: Digit, u1: Digit, u2: Digit, v1: Digit, v2: Digit, U: nat, V: nat, p: nat) {
    && p > 0
    && Between((u0 * 0x1_0000 + u1) * 0x1_0000 + u2, p, U)
    && Between(v1 * 0x1_0000 + v2, p, V)
    && 0x8000 <= v1
    && U < 0x1_0000 * V
  }

  lemma CoarseWindow(hi: nat, lo: Digit, p: nat, x: nat)
    requires Between(hi * 0x1_0000 + lo, p, x)
    ensures hi * (0x1_0000 * p) <= x < (hi + 1) * (0x1_0000 * p)
  {
    Assoc(hi, 0x1_0000, p);
    Mono(hi * 0x1_0000, hi * 0x1_0000 + lo, p);
    Assoc(hi + 1, 0x1_0000, p);
    Mono(hi * 0x1_0000 + lo + 1, (hi + 1) * 0x1_0000, p);
  }

  lemma DigitBounds(U: nat, V: nat)
    requires U < 0x1_0000 * V
    ensures (U / V) * V <= U < (U / V + 1) * V && U / V < 0x1_0000
  {
    DivBounds(U, V);
    Distr(U / V, 1, V);
    Cancel(U / V, 0x1_0000, V);
  }

  /** What the true digit satisfies before any guess is made. */
  lemma WindowFacts(u0: Digit, u1: Digit, u2: Digit, v1: Digit, v2: Digit, U: nat, V: nat, p: nat)
    requires Window(u0, u1, u2, v1, v2, U, V, p)
    ensures V > 0 && U / V < 0x1_0000
    ensures u0 <= v1
    ensures U / V * v1 <= u0 * 0x1_0000 + u1
  {
    var u01, P := u0 * 0x1_0000 + u1, 0x1_0000 * p;
    DigitBounds(U, V);
    CoarseWindow(u01, u2, p, U);
    CoarseWindow(v1, v2, p, V);
    GuessNotTooSmall(U / V, v1, u01, U, V, P);
    Assoc(v1 + 1, 0x1_0000, P);
    Assoc(0x1_0000, v1 + 1, P);
    Cancel(u01, (v1 + 1) * 0x1_0000, P);
  }

  lemma FirstGuess(g: nat, u0: Digit, u1: Digit, u2: Digit, v1: Digit, v2: Digit, U: nat, V: nat, p: nat)
    requires Window(u0, u1, u2, v1, v2, U, V, p) && V > 0
    requires g < 0x1_0000 && g * v1 <= u0 * 0x1_0000 + u1
    ensures g <= U / V + 2
  {
    var u01, P := u0 * 0x1_0000 + u1, 0x1_0000 * p;
    DigitBounds(U, V);
    CoarseWindow(u01, u2, p, U);
    CoarseWindow(v1, v2, p, V);
    FirstGuessWithinTwo(0x1_0000, g, U / V, v1, u01, U, V, P);
  }

  /** Splitting off the low part of a number between two multiples. */
  lemma LowPart(top: nat, p: nat, x: nat)
    requires Between(top, p, x)
    ensures 0 <= x - top * p < p
  {
    Distr(top, 1, p);
  }

  lemma LeadingProduct(q: nat, rhat: nat, u01: nat, v1: nat, v2: nat)
    requires q * v1 + rhat == u01
    ensures q * (v1 * 0x1_0000 + v2) - (u01 * 0x1_0000) == q * v2 - rhat * 0x1_0000
  {
    Distr(v1 * 0x1_0000, v2, q);
    Comm(v1 * 0x1_0000 + v2, q);
    Comm(v2, q);
    Comm(v1 * 0x1_0000, q);
    Assoc(q, v1, 0x1_0000);
  }

  lemma Correction(q: nat, rhat: nat, u0: Digit, u1: Digit, u2: Digit, v1: Digit, v2: Digit, U: nat, V: nat, p: nat)
    requires Window(u0, u1, u2, v1, v2, U, V, p) && V > 0
    requires q * v1 + rhat == u0 * 0x1_0000 + u1
    requires U / V <= q && v2 * q > rhat * 0x1_0000 + u2
    ensures U / V < q && (q - 1) * v1 + (rhat + v1) == u0 * 0x1_0000 + u1
  {
    var u01 := u0 * 0x1_0000 + u1;
    var uTop, vTop := u01 * 0x1_0000 + u2, v1 * 0x1_0000 + v2;
    LeadingProduct(q, rhat, u01, v1, v2);
    LowPart(uTop, p, U);
    FailingCandidateTooBig(q, uTop, U - uTop * p, vTop, V - vTop * p, p);
    DivBounds(U, V);
    Comm(q, V);
    DistrSub(q, 1, v1);
  }

  lemma Accepted(q: nat, rhat: nat, u0: Digit, u1: Digit, u2: Digit, v1: Digit, v2: Digit, U: nat, V: nat, p: nat)
    requires Window(u0, u1, u2, v1, v2, U, V, p) && V > 0
    requires q * v1 + rhat == u0 * 0x1_0000 + u1
    requires q < 0x1_0000
    requires v2 * q <= rhat * 0x1_0000 + u2 || rhat >= 0x1_0000
    ensures q <= U / V + 1
  {
    var u01 := u0 * 0x1_0000 + u1;
    var uTop, vTop := u01 * 0x1_0000 + u2, v1 * 0x1_0000 + v2;
    LeadingProduct(q, rhat, u01, v1, v2);
    ProductFits(v2, q);
    if q > 0 {
      LowPart(vTop, p, V);
      PassingCandidateWithinOne(q, uTop, U - uTop * p, vTop, V - vTop * p, p);
      DigitBounds(U, V);
      Cancel(q - 1, U / V + 1, V);
    }
  }

  lemma ProductFits(a: Digit, b: nat)
    requires b < 0x1_0000
    ensures U32(a * b) == a * b
    ensures a * b <= 0xfffe_0001
  {
    Mono(a, 0xffff, b);
    Mono(0, a, b);
    SmallWord(a * b);
  }

  /** The first guess, when it needs no special case. */
  lemma QuotientGuess(u0: Digit, u1: Digit, v1: Digit, d: nat)
    requires u0 < v1 && d * v1 <= u0 * 0x1_0000 + u1
    ensures var nn := u0 * 0x1_0000 + u1;
            nn / v1 * v1 + nn % v1 == nn && nn / v1 < 0x1_0000 && d <= nn / v1 && nn % v1 < v1
  {
    var nn := u0 * 0x1_0000 + u1;
    DivBounds(nn, v1);
    Distr(nn / v1, 1, v1);
    Cancel(nn / v1, 0x1_0000, v1);
    Cancel(d, nn / v1 + 1, v1);
  }

  /** Step D3. The window is U and the divisor V. The result is the true digit or
      one more, reached with at most two corrections of the first guess. */
  method EstimateDigit(u0: Digit, u1: Digit, u2: Digit, v1: Digit, v2: Digit,
                       ghost U: nat, ghost V: nat, ghost p: nat)
    returns (qhat: Word, ghost corrections: nat)
    requires Window(u0, u1, u2, v1, v2, U, V, p)
    ensures V > 0
    ensures qhat < 0x1_0000
    ensures U / V <= qhat <= U / V + 1
    ensures corrections <= 2
  {
    WindowFacts(u0, u1, u2, v1, v2, U, V, p);
    ghost var d := U / V;
    var rhat: nat;
    var stop := false;
    corrections := 0;
    if u0 == v1 {
      qhat := 0x1_0000 - 1;
      rhat := u1 + v1;
      stop := rhat >= 0x1_0000;
    } else {
      CombineIsPair(u0, u1);
      QuotientGuess(u0, u1, v1, d);
      var nn := Combine(u0, u1);
      qhat := nn / v1;
      rhat := nn % v1;
    }
    FirstGuess(qhat, u0, u1, u2, v1, v2, U, V, p);
    while !stop && U32(v2 * qhat) > Combine(rhat, u2)
      invariant qhat < 0x1_0000 && d <= qhat
      invariant qhat * v1 + rhat == u0 * 0x1_0000 + u1
      invariant stop <==> rhat >= 0x1_0000
      invariant qhat + corrections <= d + 2
      decreases qhat
    {
      CombineIsPair(rhat, u2);
      ProductFits(v2, qhat);
      Correction(qhat, rhat, u0, u1, u2, v1, v2, U, V, p);
      qhat := qhat - 1;
      rhat := rhat + v1;
      corrections := corrections + 1;
      if rhat >= 0x1_0000 { stop := true; }
    }
    ProductFits(v2, qhat);
    if !stop { CombineIsPair(rhat, u2); }
    Accepted(qhat, rhat, u0, u1, u2, v1, v2, U, V, p);
  }
}

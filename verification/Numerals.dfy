// Numbers as text: digits of a number in a base, and the number that digits spell.
module Numerals {
  import opened Arith

  const DIGITS: string := "0123456789abcdef"

  /** The digits of n, most significant first; one digit for zero. */
  function Digits(n: nat, base: nat): (s: string)
    requires 2 <= base <= 16
    ensures |s| > 0
  {
    (if n < base then [] else Digits(n / base, base)) + [DIGITS[n % base]]
  }

  lemma DigitsStep(n: nat, base: nat)
    requires 2 <= base <= 16
    ensures n % base < 16 && 0 <= n / base && (n / base > 0 <==> n >= base) && (n > 0 ==> n / base < n)
    ensures Digits(n, base) == (if n / base > 0 then Digits(n / base, base) else []) + [DIGITS[n % base]]
  {
    DivBounds(n, base);
    DivBelow(n, base, 1);
    if n > 0 {
      DivBelow(n, base, n);
      Mono(2, base, n);
    }
  }

  /** The digit to the left of those already written. */
  lemma ConvertStep(num: nat, base: nat, x: nat, tail: string)
    requires 2 <= base <= 16 && Digits(num, base) == Digits(x, base) + tail
    ensures x % base < 16 && 0 <= x / base
    ensures x / base > 0 ==> Digits(num, base) == Digits(x / base, base) + ([DIGITS[x % base]] + tail)
    ensures x / base == 0 ==> Digits(num, base) == [DIGITS[x % base]] + tail
  {
    DigitsStep(x, base);
    var init, last := if x / base > 0 then Digits(x / base, base) else [], [DIGITS[x % base]];
    assert Digits(num, base) == (init + last) + tail == init + (last + tail);
  }

  /** base to the power k. */
  function Power(base: nat, k: nat): nat {
    if k == 0 then 1 else base * Power(base, k - 1)
  }

  lemma DivBelow(n: nat, base: nat, p: nat)
    requires base > 0
    ensures n / base < p <==> n < base * p
  {
    var q := n / base;
    DivBounds(n, base);
    Comm(base, p);
    if q < p {
      Mono(q + 1, p, base);
      Distr(q, 1, base);
    } else {
      Mono(p, q, base);
    }
  }

  /** A number below base^k has at most k digits, and one not below it has more. */
  lemma {:induction false} DigitsLength(n: nat, base: nat, k: nat)
    requires 2 <= base <= 16 && k > 0
    ensures n < Power(base, k) <==> |Digits(n, base)| <= k
    decreases k
  {
    var p := Power(base, k - 1);
    PowerPositive(base, k - 1);
    DigitsShorter(n, base);
    if n < base {
      Mono(1, p, base);
    } else if k == 1 {
      assert p == 1;
    } else {
      DigitsLength(n / base, base, k - 1);
      DivBelow(n, base, p);
    }
  }

  lemma DigitsShorter(n: nat, base: nat)
    requires 2 <= base <= 16
    ensures |Digits(n, base)| == if n < base then 1 else |Digits(n / base, base)| + 1
  {}

  lemma {:induction false} PowerPositive(base: nat, k: nat)
    requires base > 0
    ensures Power(base, k) > 0
  {
    if k > 0 {
      PowerPositive(base, k - 1);
      Mono(1, Power(base, k - 1), base);
    }
  }

  lemma {:induction false} PowerMono(b: nat, c: nat, k: nat)
    requires b <= c
    ensures Power(b, k) <= Power(c, k)
  {
    if k > 0 {
      PowerMono(b, c, k - 1);
      Mono(b, c, Power(b, k - 1));
      Mono(Power(b, k - 1), Power(c, k - 1), c);
    }
  }

  /** Every 64-bit number fits in 22 digits in base 8 or more, which is what the buffer of
      23 leaves beside the NUL; and the largest one needs all of them in base 8. */
  lemma NumberFits(n: nat, base: nat)
    requires n < 0x1_0000_0000_0000_0000 && 8 <= base <= 16
    ensures |Digits(n, base)| <= 22
    ensures |Digits(0xffff_ffff_ffff_ffff, 8)| == 22
  {
    EightPowers();
    PowerMono(8, base, 22);
    DigitsLength(n, base, 22);
    DigitsLength(0xffff_ffff_ffff_ffff, 8, 22);
    DigitsLength(0xffff_ffff_ffff_ffff, 8, 21);
  }

  lemma EightPowers()
    ensures Power(8, 21) == 0x8000_0000_0000_0000 && Power(8, 22) == 0x4_0000_0000_0000_0000
  {
    assert Power(8, 4) == 4096;
    assert Power(8, 8) == 8 * Power(8, 7) == 64 * Power(8, 6) == 512 * Power(8, 5) == 4096 * Power(8, 4);
    assert Power(8, 12) == 8 * Power(8, 11) == 64 * Power(8, 10) == 512 * Power(8, 9) == 4096 * Power(8, 8);
    assert Power(8, 16) == 8 * Power(8, 15) == 64 * Power(8, 14) == 512 * Power(8, 13) == 4096 * Power(8, 12);
    assert Power(8, 20) == 8 * Power(8, 19) == 64 * Power(8, 18) == 512 * Power(8, 17) == 4096 * Power(8, 16);
    assert Power(8, 22) == 8 * Power(8, 21) == 64 * Power(8, 20);
  }

  function WithSign(neg: bool, n: nat): int {
    if neg then 0 - n as int else n
  }

  predicate IsDigit(c: char) {
    '0' <= c <= '9'
  }

  function DigitValue(c: char): nat
    requires IsDigit(c)
  {
    c as int - '0' as int
  }

  predicate AllDigits(s: string) {
    forall i :: 0 <= i < |s| ==> IsDigit(s[i])
  }

  /** The number that a string of decimal digits spells. */
  function Value(s: string): nat
    requires AllDigits(s)
  {
    if s == [] then 0 else Value(s[..|s| - 1]) * 10 + DigitValue(s[|s| - 1])
  }

  lemma ValuePush(s: string, c: char)
    requires AllDigits(s) && IsDigit(c)
    ensures Value(s + [c]) == Value(s) * 10 + DigitValue(c)
  {
    assert (s + [c])[..|s|] == s;
  }

  lemma {:induction false} ValueZero(s: string)
    requires AllDigits(s)
    ensures Value(s) == 0 <==> forall i :: 0 <= i < |s| ==> s[i] == '0'
  {
    if s != [] { ValueZero(s[..|s| - 1]); }
  }

  lemma {:induction false} ValueCons(c: char, s: string)
    requires IsDigit(c) && AllDigits(s)
    ensures AllDigits([c] + s) && Value([c] + s) == DigitValue(c) * Power(10, |s|) + Value(s)
    decreases |s|
  {
    if s == [] {
      assert [c] + s == [c] && [c][..0] == [];
    } else {
      var n := |s| - 1;
      ValueCons(c, s[..n]);
      assert ([c] + s)[..|s|] == [c] + s[..n];
      Assoc(DigitValue(c), Power(10, n), 10);
      Comm(Power(10, n), 10);
    }
  }

  /** Reducing a factor does not change the remainder. */
  lemma ModMul(w: nat, p: nat, r: nat, m: nat)
    requires m > 0
    ensures (w % m * p + r) % m == (w * p + r) % m
  {
    var q := w / m;
    assert w == q * m + w % m;
    Distr(q * m, w % m, p);
    Assoc(q, m, p);
    Comm(m, p);
    Assoc(q, p, m);
    ModAdd(w % m * p + r, q * p, m);
  }

  lemma ModAdd(x: nat, k: nat, m: nat)
    requires m > 0
    ensures (x + k * m) % m == x % m
  {
    DivBounds(x, m);
    Distr(x / m, k, m);
    DivIs(x + k * m, m, x / m + k, x % m);
  }

  lemma NegMod(n: nat, m: nat)
    requires m > 0
    ensures (0 - n as int) % m == (m - n % m) % m
  {
    var q, x := n / m, n % m;
    assert n == q * m + x;
    DistrSub(0, q, m);
    if x == 0 {
      ModIs(0 - n as int, m, 0 - q as int, 0);
    } else {
      DistrSub(0 - q as int, 1, m);
      ModIs(0 - n as int, m, 0 - q as int - 1, m - x);
      ModIs(m - x, m, 0, m - x);
    }
  }

  lemma ModIs(a: int, m: nat, q: int, r: nat)
    requires m > 0 && a == q * m + r && r < m
    ensures a % m == r
  {
    var d := a / m;
    assert a == d * m + a % m;
    DistrSub(q, d, m);
    Cancel(q - d, 1, m);
    Cancel(-1, q - d, m);
  }

  /** Reducing w, and taking m off once more or not, leaves a number congruent to it. */
  lemma Congruent(w: nat, m: nat)
    requires m > 0
    ensures (w % m - w) % m == 0 && (w % m - m - w) % m == 0
  {
    var q := w / m;
    assert w == q * m + w % m;
    DistrSub(0, q, m);
    ModIs(w % m - w, m, 0 - q as int, 0);
    DistrSub(0 - q as int, 1, m);
    ModIs(w % m - m - w, m, 0 - q as int - 1, 0);
  }

  lemma CongruentOnce(x: int, y: int, w: int, m: nat)
    requires m > 0 && (x - w) % m == 0 && (y - w) % m == 0 && x < y + m && y < x + m
    ensures x == y
  {
    var a, b := (x - w) / m, (y - w) / m;
    assert x - w == a * m && y - w == b * m;
    DistrSub(a, b, m);
    Cancel(a - b, 1, m);
    Cancel(-1, a - b, m);
  }

  /** What a digit of any base up to sixteen stands for. */
  function CharValue(c: char): nat {
    if IsDigit(c) then DigitValue(c) else if 'a' <= c <= 'f' then c as int - 'a' as int + 10 else 16
  }

  predicate InBase(s: string, base: nat) {
    forall i :: 0 <= i < |s| ==> CharValue(s[i]) < base
  }

  /** The number that a string of digits spells in a base. */
  function Spelled(s: string, base: nat): nat {
    if s == [] then 0 else Spelled(s[..|s| - 1], base) * base + CharValue(s[|s| - 1])
  }

  lemma CharOfValue(r: nat)
    requires r < 16
    ensures CharValue(DIGITS[r]) == r
  {
    assert DIGITS[0] == '0' && DIGITS[1] == '1' && DIGITS[2] == '2' && DIGITS[3] == '3' && DIGITS[4] == '4';
    assert DIGITS[5] == '5' && DIGITS[6] == '6' && DIGITS[7] == '7' && DIGITS[8] == '8' && DIGITS[9] == '9';
    assert DIGITS[10] == 'a' && DIGITS[11] == 'b' && DIGITS[12] == 'c' && DIGITS[13] == 'd' && DIGITS[14] == 'e';
    assert DIGITS[15] == 'f';
  }

  lemma SpelledPush(s: string, c: char, base: nat)
    ensures Spelled(s + [c], base) == Spelled(s, base) * base + CharValue(c)
    ensures InBase(s, base) && CharValue(c) < base ==> InBase(s + [c], base)
  {
    assert (s + [c])[..|s|] == s;
  }

  lemma DigitSpelled(n: nat, base: nat, q: nat, r: nat, init: string)
    requires n == q * base + r && r < base <= 16 && InBase(init, base) && Spelled(init, base) == q
    requires if init == [] then q == 0 else CharValue(init[0]) > 0
    ensures var s := init + [DIGITS[r]];
            InBase(s, base) && Spelled(s, base) == n && (n > 0 ==> CharValue(s[0]) > 0)
  {
    CharOfValue(r);
    SpelledPush(init, DIGITS[r], base);
  }

  /** In every base the digits spell the number, without leading zeros. */
  lemma {:induction false} DigitsSpellIn(n: nat, base: nat)
    requires 2 <= base <= 16
    ensures InBase(Digits(n, base), base) && Spelled(Digits(n, base), base) == n
    ensures n > 0 ==> CharValue(Digits(n, base)[0]) > 0
    decreases n
  {
    DigitsStep(n, base);
    DivModParts(n, base);
    var q, r := n / base, n % base;
    if q > 0 { DigitsSpellIn(q, base); }
    DigitSpelled(n, base, q, r, if q > 0 then Digits(q, base) else []);
  }
}

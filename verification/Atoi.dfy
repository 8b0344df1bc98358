// atoi, and what it makes of the text that printf produces for an int.
module Atoi {
  import opened Arith
  import opened Basics
  import opened Conversions
  import opened Numerals
  import opened Printf

  predicate IsBlank(c: char) {
    c == ' ' || c == '\t'
  }

  /** The string without its leading blanks. */
  function Skipped(s: string): string {
    if s != [] && IsBlank(s[0]) then Skipped(s[1..]) else s
  }

  /** The digits a string starts with. */
  function Leading(s: string): (d: string)
    ensures AllDigits(d)
  {
    if s != [] && IsDigit(s[0]) then [s[0]] + Leading(s[1..]) else []
  }

  predicate Minus(s: string) { s != [] && s[0] == '-' }
  predicate Plus(s: string) { s != [] && s[0] == '+' }

  function AfterSign(s: string): string {
    if Minus(s) || Plus(s) then s[1..] else s
  }

  /** An unsigned 32-bit word taken for an int. */
  function ToInt(x: int): int {
    var u := x % 0x1_0000_0000;
    if u < 0x8000_0000 then u else u - 0x1_0000_0000
  }

  /** The int that a string stands for: blanks, a sign, digits, anything. */
  function Parsed(s: string): int {
    Numeral(Skipped(s))
  }

  function Numeral(t: string): int {
    var n := Value(Leading(AfterSign(t)));
    ToInt(if Minus(t) then 0 - n as int else n)
  }

  /** The 32 bits that are left of val with x behind it, p making room for x. */
  function Kept(val: nat, p: nat, x: nat): nat {
    (val * p + x) % 0x1_0000_0000
  }

  /** val after more digits, in the loop that keeps only 32 bits of it. */
  lemma Accumulates(val: nat, c: char, rest: string)
    requires IsDigit(c) && AllDigits(rest)
    ensures AllDigits([c] + rest)
    ensures Kept(val, Power(10, |rest| + 1), Value([c] + rest))
            == Kept(Kept(val, 10, DigitValue(c)), Power(10, |rest|), Value(rest))
  {
    ValueCons(c, rest);
    ShiftedMod(val, DigitValue(c), Power(10, |rest|), Value(rest), Power(10, |rest| + 1), Value([c] + rest));
  }

  lemma ShiftedMod(val: nat, d: nat, p: nat, r: nat, q: nat, x: nat)
    requires q == 10 * p && x == d * p + r
    ensures Kept(val, q, x) == Kept(Kept(val, 10, d), p, r)
  {
    Shifted(val, d, p);
    ModMul(val * 10 + d, p, r, 0x1_0000_0000);
  }

  lemma Shifted(val: nat, d: nat, p: nat)
    ensures val * (10 * p) + d * p == (val * 10 + d) * p
  {
    Assoc(val, 10, p);
    Distr(val * 10, d, p);
  }

  /** The 32 bits that are left when val is followed by the digits t starts with. */
  ghost function Left32(val: nat, t: string): nat {
    Kept(val, Power(10, |Leading(t)|), Value(Leading(t)))
  }

  lemma Left32Step(val: nat, t: string)
    requires t != [] && IsDigit(t[0])
    ensures Left32(Kept(val, 10, DigitValue(t[0])), t[1..]) == Left32(val, t)
  {
    Accumulates(val, t[0], Leading(t[1..]));
    assert Leading(t) == [t[0]] + Leading(t[1..]);
  }

  lemma Left32Ends(val: nat, t: string)
    ensures Left32(0, t) == Value(Leading(t)) % 0x1_0000_0000
    ensures Leading(t) == [] && val < 0x1_0000_0000 ==> Left32(val, t) == val
  {}

  /** The digit loop of atoi. */
  method Accumulate(s: string) returns (val: nat)
    ensures val == Value(Leading(s)) % 0x1_0000_0000
  {
    val := 0;
    var t := s;
    while t != [] && IsDigit(t[0])
      invariant 0 <= val < 0x1_0000_0000 && Left32(val, t) == Left32(0, s)
      decreases |t|
    {
      Left32Step(val, t);
      val := Kept(val, 10, DigitValue(t[0]));
      t := t[1..];
    }
    Left32Ends(0, s);
    Left32Ends(val, t);
  }

  /** atoi, on 32-bit unsigned arithmetic. */
  method Atoi(s: string) returns (r: int)
    ensures r == Parsed(s)
  {
    var t := s;
    while t != [] && IsBlank(t[0])
      invariant Skipped(t) == Skipped(s)
      decreases |t|
    {
      t := t[1..];
    }
    var neg := false;
    if t != [] && t[0] == '-' {
      neg := true;
      t := t[1..];
    } else if t != [] && t[0] == '+' {
      t := t[1..];
    }
    var val := Accumulate(t);
    WordOf(Value(Leading(t)));
    if neg {
      r := ToInt((0x1_0000_0000 - val) % 0x1_0000_0000);
    } else {
      r := ToInt(val);
    }
  }

  /** Keeping 32 bits of the magnitude keeps the int. */
  lemma WordOf(n: nat)
    ensures ToInt(n % 0x1_0000_0000) == ToInt(n)
    ensures ToInt((0x1_0000_0000 - n % 0x1_0000_0000) % 0x1_0000_0000) == ToInt(0 - n as int)
  {
    NegMod(n, 0x1_0000_0000);
    var x := (0x1_0000_0000 - n % 0x1_0000_0000) % 0x1_0000_0000;
    assert x % 0x1_0000_0000 == x && n % 0x1_0000_0000 % 0x1_0000_0000 == n % 0x1_0000_0000;
  }

  // ---------------------------------------------------------------- reading back %d

  lemma {:induction false} LeadingDigits(d: string, rest: string)
    requires AllDigits(d) && (rest == [] || !IsDigit(rest[0]))
    ensures Leading(d + rest) == d
    decreases |d|
  {
    if d == [] {
      assert d + rest == rest;
    } else {
      assert (d + rest)[1..] == d[1..] + rest;
      LeadingDigits(d[1..], rest);
    }
  }

  predicate AllBlank(s: string) {
    forall i :: 0 <= i < |s| ==> s[i] == ' ' || s[i] == '\t'
  }

  lemma {:induction false} SkipBlanks(blanks: string, s: string)
    requires AllBlank(blanks) && (s == [] || !IsBlank(s[0]))
    ensures Skipped(blanks + s) == s
  {
    if blanks == [] {
      assert blanks + s == s;
    } else {
      assert (blanks + s)[1..] == blanks[1..] + s && (blanks + s)[0] == blanks[0];
      SkipBlanks(blanks[1..], s);
    }
  }

  /** The sign in front of a number. */
  datatype SignChar = NoSign | PlusSign | MinusSign

  function SignOf(g: SignChar): string {
    match g case NoSign => "" case PlusSign => "+" case MinusSign => "-"
  }

  lemma SignedParts(g: SignChar, s: string)
    requires s != "" && IsDigit(s[0])
    ensures var t := SignOf(g) + s; t != "" && !IsBlank(t[0]) && Minus(t) == g.MinusSign? && AfterSign(t) == s
  {
    var t := SignOf(g) + s;
    if g.NoSign? { assert t == s; } else { assert t[0] == SignOf(g)[0] && t[1..] == s; }
  }

  lemma NumeralOf(t: string, d: string)
    requires Leading(AfterSign(t)) == d
    ensures Numeral(t) == ToInt(WithSign(Minus(t), Value(d)))
  {}

  lemma NumeralText(g: SignChar, d: string, rest: string)
    requires d != "" && AllDigits(d) && (rest == [] || !IsDigit(rest[0]))
    ensures Numeral(SignOf(g) + (d + rest)) == ToInt(WithSign(g.MinusSign?, Value(d)))
  {
    LeadingDigits(d, rest);
    SignedParts(g, d + rest);
    NumeralOf(SignOf(g) + (d + rest), d);
  }

  /** Blanks or tabs, a plus, a minus or neither, decimal digits and something else are read
      as the number that the digits spell, with that sign, if it is an int. */
  lemma ParsedText(blanks: string, g: SignChar, d: string, rest: string, v: int)
    requires AllBlank(blanks) && d != "" && InBase(d, 10) && (rest == [] || !IsDigit(rest[0]))
    requires v == WithSign(g.MinusSign?, Spelled(d, 10)) && -0x8000_0000 <= v < 0x8000_0000
    ensures Parsed(blanks + (SignOf(g) + (d + rest))) == v
  {
    ValueSpelled(d);
    NumeralText(g, d, rest);
    SignedParts(g, d + rest);
    SkipBlanks(blanks, SignOf(g) + (d + rest));
    IntItself(v);
  }

  lemma {:induction false} ZerosInFront(n: nat, d: string)
    requires AllDigits(d)
    ensures AllDigits(Fill('0', n) + d) && Value(Fill('0', n) + d) == Value(d)
  {
    if n == 0 {
      assert Fill('0', 0) + d == d;
    } else {
      ZerosInFront(n - 1, d);
      assert Fill('0', n) + d == ['0'] + (Fill('0', n - 1) + d);
      ValueCons('0', Fill('0', n - 1) + d);
    }
  }

  lemma Tenfold(x: nat, p: nat)
    ensures x * p * 10 == x * (10 * p)
  {
    Assoc(x, p, 10);
    Comm(p, 10);
  }

  lemma ZeroBehind(s: string)
    requires AllDigits(s)
    ensures AllDigits(s + ['0']) && Value(s + ['0']) == Value(s) * 10
  {
    ValuePush(s, '0');
  }

  lemma MoreFill(d: string, n: nat)
    requires n > 0
    ensures d + Fill('0', n) == d + Fill('0', n - 1) + ['0']
  {}

  lemma {:induction false} ZerosBehind(d: string, n: nat)
    requires AllDigits(d)
    ensures AllDigits(d + Fill('0', n)) && Value(d + Fill('0', n)) == Value(d) * Power(10, n)
  {
    if n == 0 {
      assert d + Fill('0', 0) == d;
    } else {
      ZerosBehind(d, n - 1);
      ZeroBehind(d + Fill('0', n - 1));
      MoreFill(d, n);
      Tenfold(Value(d), Power(10, n - 1));
    }
  }

  /** A decimal string spells in base ten the number that atoi reads. */
  lemma {:induction false} ValueSpelled(s: string)
    requires InBase(s, 10)
    ensures AllDigits(s) && Value(s) == Spelled(s, 10)
  {
    if s != [] { ValueSpelled(s[..|s| - 1]); }
  }

  lemma DigitsSpell(n: nat)
    ensures AllDigits(Digits(n, 10)) && Value(Digits(n, 10)) == n
  {
    DigitsSpellIn(n, 10);
    ValueSpelled(Digits(n, 10));
  }

  /** The padding of a %d field. */
  function PadOf(m: string, neg: bool, d: string): nat {
    var len := |d| + if neg then 1 else 0;
    if Width(m) > len then Width(m) - len else 0
  }

  /** The number n, or, when zeros are put to its right, the number with those zeros. */
  function Scaled(m: string, pad: nat, n: nat): nat {
    if Left(m) && ZeroFill(m) then n * Power(10, pad) else n
  }

  /** How atoi reads a sign, digits and something after them. */
  lemma NumeralSigned(neg: bool, d: string, rest: string)
    requires d != [] && AllDigits(d) && (rest == [] || !IsDigit(rest[0]))
    ensures Numeral(SignText(neg) + d + rest) == ToInt(WithSign(neg, Value(d)))
  {
    var t := SignText(neg) + d + rest;
    SignedText(neg, d, rest);
    LeadingDigits(d, rest);
    NumeralOf(t, d);
  }

  lemma SignedText(neg: bool, d: string, rest: string)
    requires d != [] && AllDigits(d)
    ensures var t := SignText(neg) + d + rest;
            t != [] && !IsBlank(t[0]) && Minus(t) == neg && AfterSign(t) == d + rest
  {
    var t := SignText(neg) + d + rest;
    assert IsDigit(d[0]);
    if neg {
      assert t == "-" + (d + rest) && t[0] == '-' && t[1..] == d + rest;
    } else {
      assert t == d + rest && t[0] == d[0];
    }
  }

  lemma ParsedSigned(blanks: nat, neg: bool, d: string, rest: string)
    requires d != [] && AllDigits(d) && (rest == [] || !IsDigit(rest[0]))
    ensures Parsed(Fill(' ', blanks) + (SignText(neg) + d + rest)) == ToInt(WithSign(neg, Value(d)))
  {
    SignedText(neg, d, rest);
    SkipBlanks(Fill(' ', blanks), SignText(neg) + d + rest);
    NumeralSigned(neg, d, rest);
  }

  /** A field with one prefix, as blanks, the prefix, digits, and what follows. */
  function Behind(m: string, pad: nat): string { if Left(m) && !ZeroFill(m) then Fill(' ', pad) else "" }
  function Ahead(m: string, pad: nat): nat { if !Left(m) && !ZeroFill(m) then pad else 0 }
  function Middle(m: string, pad: nat, d: string): string {
    if !ZeroFill(m) then d else if Left(m) then d + Fill('0', pad) else Fill('0', pad) + d
  }

  lemma Parts(a: string, b: string, c: string)
    ensures a + "" + b + c == "" + (a + (b + c) + "")
    ensures a + "" + b + c == "" + (a + b + c)
    ensures a + "" + c + b == "" + (a + (c + b) + "")
    ensures c + a + "" + b == c + (a + b + "")
  {}

  lemma PartsOf(m: string, sign: string, d: string, pad: nat, fill: string)
    requires fill == Fill(if ZeroFill(m) then '0' else ' ', pad)
    ensures Fill(' ', Ahead(m, pad)) + (sign + Middle(m, pad, d) + Behind(m, pad))
            == if Left(m) then sign + "" + d + fill
               else if ZeroFill(m) then sign + "" + fill + d
               else fill + sign + "" + d
  {
    assert Fill(' ', 0) == "";
    Parts(sign, d, fill);
  }

  lemma FieldIs(m: string, sign: string, d: string, pad: nat, fill: string)
    requires pad == (if Width(m) > |sign| + |d| then Width(m) - (|sign| + |d|) else 0)
    requires fill == Fill(if ZeroFill(m) then '0' else ' ', pad)
    ensures Field(m, sign, "", d)
            == if Left(m) then sign + "" + d + fill
               else if ZeroFill(m) then sign + "" + fill + d
               else fill + sign + "" + d
  {
    assert |sign| + |""| + |d| == |sign| + |d|;
  }

  lemma FieldShape(m: string, neg: bool, d: string)
    ensures var pad := PadOf(m, neg, d);
            Field(m, SignText(neg), "", d)
            == Fill(' ', Ahead(m, pad)) + (SignText(neg) + Middle(m, pad, d) + Behind(m, pad))
  {
    var pad, sign := PadOf(m, neg, d), SignText(neg);
    var fill := Fill(if ZeroFill(m) then '0' else ' ', pad);
    FieldIs(m, sign, d, pad, fill);
    PartsOf(m, sign, d, pad, fill);
  }

  lemma BehindEnds(m: string, pad: nat)
    ensures Behind(m, pad) == [] || !IsDigit(Behind(m, pad)[0])
  {}

  lemma MiddleValue(m: string, pad: nat, d: string)
    requires d != [] && AllDigits(d)
    ensures var x := Middle(m, pad, d);
            x != [] && AllDigits(x) && Value(x) == Scaled(m, pad, Value(d))
  {
    ZerosBehind(d, pad);
    ZerosInFront(pad, d);
  }

  /** What atoi makes of digits d with a sign in a field. */
  lemma ParsedNumber(m: string, neg: bool, d: string)
    requires d != [] && AllDigits(d)
    ensures Parsed(Field(m, SignText(neg), "", d)) == ToInt(WithSign(neg, Scaled(m, PadOf(m, neg, d), Value(d))))
  {
    var pad := PadOf(m, neg, d);
    FieldShape(m, neg, d);
    MiddleValue(m, pad, d);
    BehindEnds(m, pad);
    ParsedSigned(Ahead(m, pad), neg, Middle(m, pad, d), Behind(m, pad));
  }

  function Padding(m: string, v: int): nat {
    PadOf(m, v < 0, Digits(Abs(v), 10))
  }

  /** The number atoi finds in a %d field. */
  function ReadBack(m: string, v: int): int {
    WithSign(v < 0, Scaled(m, Padding(m, v), Abs(v)))
  }

  lemma FieldReadBack(m: string, v: int)
    ensures Parsed(Field(m, SignText(v < 0), "", Digits(Abs(v), 10))) == ToInt(ReadBack(m, v))
  {
    DigitsSpell(Abs(v));
    ParsedNumber(m, v < 0, Digits(Abs(v), 10));
  }

  lemma ParsedField(m: string, args: seq<Arg>, v: int)
    requires v == Signed(Bits(args), SizeOf(m))
    ensures Parsed(Converted(m, 'd', args)) == ToInt(ReadBack(m, v))
  {
    ConvertedDecimal(m, args, v);
    FieldReadBack(m, v);
  }

  // ---------------------------------------------------------------- when it comes back

  /** An odd factor does not help towards a power of two. */
  lemma {:induction false} OddFactor(e: nat, x: nat, m: nat, t: int) returns (u: int)
    requires m % 2 == 1 && x * m == Power(2, e) * t
    ensures x == Power(2, e) * u
    decreases e
  {
    if e == 0 {
      u := x;
    } else {
      var p := Power(2, e - 1);
      Assoc(2, p, t);
      EvenFactor(x, m, p * t);
      var y := x / 2;
      Assoc(2, y, m);
      assert y * m == p * t;
      u := OddFactor(e - 1, y, m, t);
      Assoc(2, p, u);
    }
  }

  lemma EvenFactor(x: nat, m: nat, k: int)
    requires m % 2 == 1 && x * m == 2 * k
    ensures x == 2 * (x / 2)
  {
    var j := m / 2;
    assert m == 2 * j + 1;
    Comm(x, m);
    Distr(2 * j, 1, x);
    Assoc(2, j, x);
    assert x == 2 * (k - j * x);
  }

  lemma {:induction false} TenPowerOdd(k: nat)
    requires k > 0
    ensures Power(10, k) > 0 && (Power(10, k) - 1) % 2 == 1
  {
    PowerPositive(10, k - 1);
    var q := Power(10, k - 1);
    assert Power(10, k) == 2 * (5 * q);
  }

  lemma WordPower()
    ensures Power(2, 32) == 0x1_0000_0000
  {
    assert Power(2, 8) == 256;
    assert Power(2, 16) == 256 * Power(2, 8) by {
      assert Power(2, 12) == 16 * Power(2, 8);
      assert Power(2, 16) == 16 * Power(2, 12);
    }
    assert Power(2, 20) == 16 * Power(2, 16);
    assert Power(2, 24) == 16 * Power(2, 20);
    assert Power(2, 28) == 16 * Power(2, 24);
    assert Power(2, 32) == 16 * Power(2, 28);
  }

  /** A nonzero int with zeros behind it is another int, even in 32 bits. */
  lemma ZerosChange(v: int, k: nat)
    requires -0x8000_0000 <= v < 0x8000_0000 && v != 0 && k > 0
    ensures ToInt(v * Power(10, k)) != v
  {
    var p, n := Power(10, k), Abs(v);
    TenPowerOdd(k);
    WordPower();
    var w := v * p;
    if ToInt(w) == v {
      var t := (w - v) / 0x1_0000_0000;
      SameWord(w, v);
      DistrSub(p, 1, v);
      Comm(p, v);
      Comm(p - 1, v);
      assert v * (p - 1) == 0x1_0000_0000 * t;
      var u;
      if v > 0 {
        u := OddFactor(32, n, p - 1, t);
      } else {
        DistrSub(0, v, p - 1);
        u := OddFactor(32, n, p - 1, 0 - t);
      }
    }
  }

  lemma SameWord(w: int, v: int)
    requires ToInt(w) == v
    ensures w - v == 0x1_0000_0000 * ((w - v) / 0x1_0000_0000)
  {}

  lemma IntItself(v: int)
    requires -0x8000_0000 <= v < 0x8000_0000
    ensures ToInt(v) == v
  {}

  lemma ReadBackIff(m: string, v: int)
    requires -0x8000_0000 <= v < 0x8000_0000
    ensures ToInt(ReadBack(m, v)) == v <==> !(Left(m) && ZeroFill(m) && Padding(m, v) > 0 && v != 0)
  {
    var pad := Padding(m, v);
    IntItself(v);
    if Left(m) && ZeroFill(m) {
      NegProduct(Abs(v), Power(10, pad));
      assert ReadBack(m, v) == v * Power(10, pad);
      if pad > 0 && v != 0 {
        ZerosChange(v, pad);
      } else if v == 0 {
        assert 0 * Power(10, pad) == 0;
      }
    }
  }

  lemma SignedIsInt(w: nat, size: Size)
    requires size != LlongSz
    ensures -0x8000_0000 <= Signed(w, size) < 0x8000_0000
  {}

  /** For every int, width and flags, atoi of the %d text gives the int back, except when a
      nonzero number is aligned to the left and filled up with zeros. */
  lemma AtoiOfDecimal(m: string, args: seq<Arg>, v: int)
    requires SizeOf(m) != LlongSz && v == Signed(Bits(args), SizeOf(m))
    ensures Parsed(Converted(m, 'd', args)) == v <==> !(Left(m) && ZeroFill(m) && Padding(m, v) > 0 && v != 0)
  {
    ParsedField(m, args, v);
    SignedIsInt(Bits(args), SizeOf(m));
    ReadBackIff(m, v);
  }

  lemma DigitsOfExample()
    ensures Only("-05") == "05" && SizeOf("-05") == IntSz
  {
    assert "-05"[..2] == "-0" && "-0"[..1] == "-" && "-"[..0] == "";
    assert Only("-") == "" && Only("-0") == "0";
    assert SizeOf("-") == IntSz && SizeOf("-0") == IntSz;
  }

  lemma WidthOfExample()
    ensures Width("-05") == 5 && ZeroFill("-05") && Left("-05") && SizeOf("-05") == IntSz
  {
    DigitsOfExample();
    assert "05"[..1] == "0" && "0"[..0] == "" && Value("0") == 0;
    assert "-05"[0] == '-';
  }

  /** The exception is there: 1 printed with "%-05d" is 10000 to atoi. */
  lemma PaddedOneIsTenThousand()
    ensures Parsed(Converted("-05", 'd', [Word(1)])) == 10000
  {
    WidthOfExample();
    assert Digits(1, 10) == ['1'];
    assert Power(10, 4) == 10 * Power(10, 3) == 100 * Power(10, 2);
    assert ReadBack("-05", 1) == 10000;
    ParsedField("-05", [Word(1)], 1);
  }

  // ---------------------------------------------------------------- through the buffer

  lemma TextOfDecimal(m: string, args: seq<Arg>)
    requires AllMods(m)
    ensures TextOf("%" + m + "d", args) == Converted(m, 'd', args)
  {
    TextOfOnly(m, 'd', args);
  }

  predicate NoNul(s: string) {
    forall i :: 0 <= i < |s| ==> s[i] != '\0'
  }

  lemma FieldNoNul(m: string, prefix: string, stuff: string)
    requires NoNul(prefix) && NoNul(stuff)
    ensures NoNul(Field(m, prefix, "", stuff))
  {}

  lemma DigitsNoNul(n: nat)
    ensures NoNul(Digits(n, 10))
  {
    DigitsSpell(n);
  }

  lemma DecimalHasNoNul(m: string, args: seq<Arg>)
    ensures NoNul(Converted(m, 'd', args))
  {
    var v := Signed(Bits(args), SizeOf(m));
    ConvertedDecimal(m, args, v);
    DigitsNoNul(Abs(v));
    FieldNoNul(m, SignText(v < 0), Digits(Abs(v), 10));
  }

  /** The string that starts at a buffer's first character. */
  method CString(buf: array<char>) returns (s: string)
    requires !NoNul(buf[..])
    ensures NoNul(s) && |s| < buf.Length && s == buf[..|s|] && buf[|s|] == '\0'
  {
    var i := 0;
    while buf[i] != '\0'
      invariant 0 <= i < buf.Length && NoNul(buf[..i])
      decreases buf.Length - i
    {
      i := i + 1;
    }
    return buf[..i];
  }

  /** Printed into a buffer with room for it, and read back from there. */
  method PrintAndRead(buf: array<char>, len: nat, m: string, args: seq<Arg>) returns (r: int)
    requires AllMods(m) && SizeOf(m) != LlongSz && |Converted(m, 'd', args)| < len <= buf.Length
    modifies buf
    ensures var v := Signed(Bits(args), SizeOf(m));
            r == v <==> !(Left(m) && ZeroFill(m) && Padding(m, v) > 0 && v != 0)
  {
    var chars := Vsnprintf(buf, len, "%" + m + "d", args);
    ghost var text := Converted(m, 'd', args);
    TextOfDecimal(m, args);
    DecimalHasNoNul(m, args);
    assert buf[..chars] == text[..chars] == text && buf[chars] == '\0' && buf[..][chars] == '\0';
    var s := CString(buf);
    SameText(buf[..], text, s);
    r := Atoi(s);
    AtoiOfDecimal(m, args, Signed(Bits(args), SizeOf(m)));
  }

  /** A buffer holds only one string. */
  lemma SameText(b: string, s: string, t: string)
    requires NoNul(s) && |s| < |b| && b[..|s|] == s && b[|s|] == '\0'
    requires NoNul(t) && |t| < |b| && b[..|t|] == t && b[|t|] == '\0'
    ensures s == t
  {
    OneString(s, t, '\0');
  }
}

// What each conversion of printf puts in the text, in terms of the argument alone.
module Conversions {
  import opened Arith
  import opened Numerals
  import opened Printf

  // ---------------------------------------------------------------- formats, piece by piece

  lemma {:induction false} TextInOne(pre: string, m: string, c: char, tail: string, args: seq<Arg>)
    requires AllMods(m) && !IsMod(c)
    ensures TextIn(pre, m + [c] + tail, args) == Converted(pre + m, c, args) + TextOf(tail, Rest(c, args))
    decreases |m|
  {
    if m == [] {
      assert m + [c] + tail == [c] + tail && pre + m == pre;
      assert ([c] + tail)[1..] == tail;
    } else {
      assert (m + [c] + tail)[1..] == m[1..] + [c] + tail && (pre + [m[0]]) + m[1..] == pre + m;
      TextInOne(pre + [m[0]], m[1..], c, tail, args);
    }
  }

  /** A conversion prints its field, and what follows is printed from the arguments that
      are left. */
  lemma TextOfOne(m: string, c: char, tail: string, args: seq<Arg>)
    requires AllMods(m) && !IsMod(c)
    ensures TextOf("%" + m + [c] + tail, args) == Converted(m, c, args) + TextOf(tail, Rest(c, args))
  {
    assert ("%" + m + [c] + tail)[1..] == m + [c] + tail && "" + m == m;
    TextInOne("", m, c, tail, args);
  }

  lemma TextOfOnly(m: string, c: char, args: seq<Arg>)
    requires AllMods(m) && !IsMod(c)
    ensures TextOf("%" + m + [c], args) == Converted(m, c, args)
  {
    assert "%" + m + [c] + "" == "%" + m + [c];
    TextOfOne(m, c, "", args);
    assert TextOf("", Rest(c, args)) == "";
  }

  /** Characters outside conversions are printed as they are. */
  lemma {:induction false} PlainText(s: string, tail: string, args: seq<Arg>)
    requires '%' !in s
    ensures TextOf(s + tail, args) == s + TextOf(tail, args)
    decreases |s|
  {
    if s == [] {
      assert s + tail == tail;
    } else {
      assert (s + tail)[1..] == s[1..] + tail && s == [s[0]] + s[1..];
      PlainText(s[1..], tail, args);
    }
  }

  /** Each conversion uses up the argument it prints: what the rest of the format prints, it
      prints from the arguments after that. */
  lemma ArgumentsInOrder(m: string, c: char, tail: string, arg: Arg, args: seq<Arg>)
    requires AllMods(m) && c in {'d', 'o', 'u', 'p', 'x', 's', 'c'}
    ensures TextOf("%" + m + [c] + tail, [arg] + args) == TextOf("%" + m + [c], [arg]) + TextOf(tail, args)
  {
    TextOfOne(m, c, tail, [arg] + args);
    TextOfOnly(m, c, [arg]);
    assert ([arg] + args)[1..] == args;
  }

  // ---------------------------------------------------------------- fields

  /** The text is as wide as asked for, or as its parts need, which are a head that stays in
      front of zeros and what comes behind them. With a minus they are at the left end;
      without it what comes behind is at the right end, and the head in front of it or, if
      zeros fill the field, at the left end. All else is filling. */
  ghost predicate Laid(text: string, m: string, head: string, stuff: string) {
    var len, fill := |head| + |stuff|, if ZeroFill(m) then '0' else ' ';
    && |text| == (if Width(m) > len then Width(m) else len) && var pad := |text| - len;
    if '-' in m then
      text[..len] == head + stuff && forall i :: len <= i < |text| ==> text[i] == fill
    else
      && text[|head| + pad..] == stuff
      && if fill == '0' then text[..|head|] == head && forall i :: |head| <= i < |head| + pad ==> text[i] == '0'
         else text[pad..|head| + pad] == head && forall i :: 0 <= i < pad ==> text[i] == ' '
  }

  lemma FieldIsLaid(m: string, prefix: string, prefix2: string, stuff: string)
    ensures Laid(Field(m, prefix, prefix2, stuff), m, prefix + prefix2, stuff)
  {}

  // ---------------------------------------------------------------- numbers

  /** t spells n in a base, without leading zeros. */
  ghost predicate Spells(t: string, base: nat, n: nat) {
    t != "" && InBase(t, base) && Spelled(t, base) == n && (n > 0 ==> CharValue(t[0]) > 0) && (n == 0 ==> t == "0")
  }

  lemma ZeroIsDigit(base: nat)
    requires 2 <= base <= 16
    ensures Digits(0, base) == "0"
  {
    assert 0 % base == 0 && DIGITS[0] == '0';
  }

  lemma DigitsAreSpelled(n: nat, base: nat)
    requires 2 <= base <= 16
    ensures Spells(Digits(n, base), base, n)
  {
    DigitsSpellIn(n, base);
    if n == 0 { ZeroIsDigit(base); }
  }

  lemma NumberField(m: string, c: char, w: nat, args: seq<Arg>, n: nat)
    requires c in {'o', 'u', 'p', 'x'} && args != [] && args[0] == Word(w)
    requires n == Unsigned(w, if c == 'p' then IntSz else SizeOf(m))
    ensures Converted(m, c, args) == Field(m, "", Prefix(m, c), Digits(n, BaseOf(c)))
  {}

  lemma NumberText(m: string, c: char, base: nat, prefix: string, size: Size, w: nat, args: seq<Arg>)
    returns (t: string, n: nat)
    requires AllMods(m) && c in {'o', 'u', 'p', 'x'} && base == BaseOf(c) && prefix == Prefix(m, c)
    requires size == if c == 'p' then IntSz else SizeOf(m)
    ensures Laid(TextOf("%" + m + [c], [Word(w)] + args), m, prefix, t)
    ensures Spells(t, base, n) && StandsFor(n, w, size, false)
  {
    n := Unsigned(w, size);
    t := Digits(n, base);
    TextOfOnly(m, c, [Word(w)] + args);
    NumberField(m, c, w, [Word(w)] + args, n);
    DigitsAreSpelled(n, base);
    ValuesStandFor(w, size);
    FieldIsLaid(m, "", prefix, t);
    assert "" + prefix == prefix;
  }

  /** %x: the number that the argument's bits stand for, in base sixteen, behind 0x if there
      is a # among the modifiers. */
  lemma HexText(m: string, w: nat, args: seq<Arg>) returns (t: string, n: nat)
    requires AllMods(m)
    ensures Laid(TextOf("%" + m + "x", [Word(w)] + args), m, if '#' in m then "0x" else "", t)
    ensures Spells(t, 16, n) && StandsFor(n, w, SizeOf(m), false)
  {
    t, n := NumberText(m, 'x', 16, if '#' in m then "0x" else "", SizeOf(m), w, args);
  }

  /** %o: in base eight, behind 0. */
  lemma OctalText(m: string, w: nat, args: seq<Arg>) returns (t: string, n: nat)
    requires AllMods(m)
    ensures Laid(TextOf("%" + m + "o", [Word(w)] + args), m, if '#' in m then "0" else "", t)
    ensures Spells(t, 8, n) && StandsFor(n, w, SizeOf(m), false)
  {
    t, n := NumberText(m, 'o', 8, if '#' in m then "0" else "", SizeOf(m), w, args);
  }

  /** %u: in base ten, with nothing in front. */
  lemma UnsignedText(m: string, w: nat, args: seq<Arg>) returns (t: string, n: nat)
    requires AllMods(m)
    ensures Laid(TextOf("%" + m + "u", [Word(w)] + args), m, "", t)
    ensures Spells(t, 10, n) && StandsFor(n, w, SizeOf(m), false)
  {
    t, n := NumberText(m, 'u', 10, "", SizeOf(m), w, args);
  }

  /** %p: a word of 32 bits in base sixteen, always behind 0x. */
  lemma PointerText(m: string, w: nat, args: seq<Arg>) returns (t: string, n: nat)
    requires AllMods(m)
    ensures Laid(TextOf("%" + m + "p", [Word(w)] + args), m, "0x", t)
    ensures Spells(t, 16, n) && StandsFor(n, w, IntSz, false)
  {
    t, n := NumberText(m, 'p', 16, "0x", IntSz, w, args);
  }

  function SignText(neg: bool): string {
    if neg then "-" else ""
  }

  lemma ConvertedDecimal(m: string, args: seq<Arg>, v: int)
    requires v == Signed(Bits(args), SizeOf(m))
    ensures Converted(m, 'd', args) == Field(m, SignText(v < 0), "", Digits(Abs(v), 10))
  {}

  lemma DecimalIsLaid(m: string, w: nat, args: seq<Arg>) returns (x: int, t: string)
    requires AllMods(m)
    ensures x == Signed(w, SizeOf(m)) && t == Digits(Abs(x), 10)
    ensures Laid(TextOf("%" + m + "d", [Word(w)] + args), m, SignText(x < 0), t)
  {
    x := Signed(w, SizeOf(m));
    t := Digits(Abs(x), 10);
    TextOfOnly(m, 'd', [Word(w)] + args);
    ConvertedDecimal(m, [Word(w)] + args, x);
    FieldIsLaid(m, SignText(x < 0), "", t);
    assert SignText(x < 0) + "" == SignText(x < 0);
  }

  /** %d: the signed number that the bits stand for, in base ten, behind its sign if it is
      negative. */
  lemma DecimalText(m: string, w: nat, args: seq<Arg>) returns (t: string, x: int)
    requires AllMods(m)
    ensures Laid(TextOf("%" + m + "d", [Word(w)] + args), m, if x < 0 then "-" else "", t)
    ensures Spells(t, 10, if x < 0 then -x else x) && StandsFor(x, w, SizeOf(m), true)
  {
    x, t := DecimalIsLaid(m, w, args);
    DigitsAreSpelled(Abs(x), 10);
    ValuesStandFor(w, SizeOf(m));
  }

  // ---------------------------------------------------------------- strings and characters

  /** %s: the string, or (null) for a null pointer. */
  lemma StringText(m: string, arg: Arg, args: seq<Arg>)
    requires AllMods(m)
    ensures Laid(TextOf("%" + m + "s", [arg] + args), m, "", if arg.Text? then arg.s else "(null)")
  {
    var str := if arg.Text? then arg.s else "(null)";
    TextOfOnly(m, 's', [arg] + args);
    FieldIsLaid(m, "", "", str);
    assert "" + "" == "";
  }

  /** %c: the character, or nothing if it is NUL. */
  lemma CharText(m: string, w: nat, args: seq<Arg>)
    requires AllMods(m)
    ensures Laid(TextOf("%" + m + "c", [Word(w)] + args), m, "", if w % 256 == 0 then "" else [(w % 256) as char])
  {
    var str := if w % 256 == 0 then "" else [(w % 256) as char];
    TextOfOnly(m, 'c', [Word(w)] + args);
    FieldIsLaid(m, "", "", str);
    assert "" + "" == "" && Bits([Word(w)] + args) == w;
  }

  /** Anything else behind a %, such as a second %, is printed itself and takes no argument. */
  lemma OtherText(m: string, c: char, args: seq<Arg>)
    requires AllMods(m) && !IsMod(c) && c !in {'d', 'o', 'u', 'p', 'x', 's', 'c'}
    ensures Laid(TextOf("%" + m + [c], args), m, "", [c])
    ensures forall tail: string ::
              TextOf("%" + m + [c] + tail, args) == TextOf("%" + m + [c], args) + TextOf(tail, args)
  {
    TextOfOnly(m, c, args);
    FieldIsLaid(m, "", "", [c]);
    assert "" + "" == "";
    forall tail: string
      ensures TextOf("%" + m + [c] + tail, args) == TextOf("%" + m + [c], args) + TextOf(tail, args)
    {
      TextOfOne(m, c, tail, args);
    }
  }

  // ---------------------------------------------------------------- sizes

  /** The number of l's behind the last z. */
  function Ells(m: string): nat {
    if m == [] then 0
    else
      var c := m[|m| - 1];
      if c == 'z' then 0 else Ells(m[..|m| - 1]) + if c == 'l' then 1 else 0
  }

  /** An argument is taken for a long long exactly if there are l's behind the last z and
      their number is even. */
  lemma {:induction false} LongLongIff(m: string)
    ensures SizeOf(m) == LlongSz <==> Ells(m) > 0 && Ells(m) % 2 == 0
    ensures SizeOf(m) == LongSz <==> Ells(m) % 2 == 1
  {
    if m != [] { LongLongIff(m[..|m| - 1]); }
  }
}

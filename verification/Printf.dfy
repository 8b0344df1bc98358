// printf formatting and snprintf.
module Printf {
  import opened Arith
  import opened Numerals

  // ---------------------------------------------------------------- the format language

  /** Modifiers are the characters between the % and the type. */
  predicate IsMod(c: char) {
    c == '#' || c == '-' || c == 'l' || c == 'z' || IsDigit(c)
  }

  predicate AllMods(m: string) {
    forall i :: 0 <= i < |m| ==> IsMod(m[i])
  }

  /** Types that print a number. */
  predicate IsNum(c: char) {
    c == 'd' || c == 'o' || c == 'u' || c == 'p' || c == 'x'
  }

  /** The digits among the modifiers. */
  function Only(m: string): (d: string)
    ensures AllDigits(d)
  {
    if m == [] then [] else Only(m[..|m| - 1]) + if IsDigit(m[|m| - 1]) then [m[|m| - 1]] else []
  }

  /** The field width is the number the digits spell; a leading zero asks for zero fill,
      a minus for alignment to the left, a hash for a base prefix. */
  function Width(m: string): nat { Value(Only(m)) }
  predicate ZeroFill(m: string) { |Only(m)| > 0 && Only(m)[0] == '0' }
  predicate Left(m: string) { '-' in m }
  predicate Alt(m: string) { '#' in m }

  datatype Size = IntSz | LongSz | LlongSz | SizetSz

  function SizeOf(m: string): Size {
    if m == [] then IntSz
    else
      var s := SizeOf(m[..|m| - 1]);
      match m[|m| - 1]
      case 'l' => if s == LongSz then LlongSz else LongSz
      case 'z' => SizetSz
      case _ => s
  }

  /** An argument: a number or pointer as it is passed, or a string. */
  datatype Arg = Word(w: nat) | Text(s: string)

  function Fill(c: char, n: nat): (s: string)
    ensures |s| == n && forall i :: 0 <= i < n ==> s[i] == c
  {
    seq(n, _ => c)
  }

  /** A field: the text with its two prefixes, padded to the width. */
  function Field(m: string, prefix: string, prefix2: string, stuff: string): string {
    var len := |prefix| + |prefix2| + |stuff|;
    var pad := if Width(m) > len then Width(m) - len else 0;
    if Left(m) then prefix + prefix2 + stuff + Fill(if ZeroFill(m) then '0' else ' ', pad)
    else if ZeroFill(m) then prefix + prefix2 + Fill('0', pad) + stuff
    else Fill(' ', pad) + prefix + prefix2 + stuff
  }

  function Signed(w: nat, size: Size): int {
    if size == LlongSz then
      var x := w % 0x1_0000_0000_0000_0000;
      if x < 0x8000_0000_0000_0000 then x else x - 0x1_0000_0000_0000_0000
    else
      var x := w % 0x1_0000_0000;
      if x < 0x8000_0000 then x else x - 0x1_0000_0000
  }

  function Unsigned(w: nat, size: Size): nat {
    if size == LlongSz then w % 0x1_0000_0000_0000_0000 else w % 0x1_0000_0000
  }

  /** long long is 64 bits wide, the other sizes 32. */
  function Modulus(size: Size): nat {
    if size == LlongSz then 0x1_0000_0000_0000_0000 else 0x1_0000_0000
  }

  /** x is the number of that size, with or without a sign, that the bits w stand for. */
  predicate StandsFor(x: int, w: nat, size: Size, signed: bool) {
    && (x - w) % Modulus(size) == 0
    && if signed then -(Modulus(size) / 2) <= x < Modulus(size) / 2 else 0 <= x < Modulus(size)
  }

  lemma StandsForOne(x: int, y: int, w: nat, size: Size, signed: bool)
    requires StandsFor(x, w, size, signed) && StandsFor(y, w, size, signed)
    ensures x == y
  {
    CongruentOnce(x, y, w, Modulus(size));
  }

  lemma ValuesStandFor(w: nat, size: Size)
    ensures StandsFor(Signed(w, size), w, size, true) && StandsFor(Unsigned(w, size), w, size, false)
  {
    Congruent(w, Modulus(size));
  }

  function Bits(args: seq<Arg>): nat {
    if args != [] && args[0].Word? then args[0].w else 0
  }

  function BaseOf(c: char): (b: nat)
    ensures b in {8, 10, 16}
  {
    if c == 'd' || c == 'u' then 10 else if c == 'o' then 8 else 16
  }

  function Prefix(m: string, c: char): string {
    if !Alt(m) && c != 'p' then "" else if BaseOf(c) == 16 then "0x" else if BaseOf(c) == 8 then "0" else ""
  }

  /** The magnitude and the sign that a numeric conversion prints. */
  function Magnitude(size: Size, c: char, args: seq<Arg>): (n: nat)
    ensures n < 0x1_0000_0000_0000_0000
  {
    if c == 'd' then Abs(Signed(Bits(args), size)) else Unsigned(Bits(args), if c == 'p' then IntSz else size)
  }

  predicate Negative(size: Size, c: char, args: seq<Arg>) {
    c == 'd' && Signed(Bits(args), size) < 0
  }

  /** Sign and magnitude make up the number that the argument stands for; nothing else
      does. */
  lemma MagnitudeStandsFor(size: Size, c: char, args: seq<Arg>, num: nat, sign: bool)
    requires IsNum(c) && (sign ==> num > 0)
    ensures StandsFor(WithSign(sign, num), Bits(args), if c == 'p' then IntSz else size, c == 'd')
            <==> num == Magnitude(size, c, args) && sign == Negative(size, c, args)
  {
    var size' := if c == 'p' then IntSz else size;
    var x := WithSign(sign, num);
    ValuesStandFor(Bits(args), size');
    if StandsFor(x, Bits(args), size', c == 'd') {
      var y := if c == 'd' then Signed(Bits(args), size') else Unsigned(Bits(args), size');
      StandsForOne(x, y, Bits(args), size', c == 'd');
    }
  }

  function Sign(m: string, c: char, args: seq<Arg>): string {
    if Negative(SizeOf(m), c, args) then "-" else ""
  }

  predicate TakesArg(c: char) {
    IsNum(c) || c == 's' || c == 'c'
  }

  function Rest(c: char, args: seq<Arg>): seq<Arg> {
    if TakesArg(c) && args != [] then args[1..] else args
  }

  /** What %, the modifiers m and the type c print. */
  function Converted(m: string, c: char, args: seq<Arg>): string {
    if IsNum(c) then
      Field(m, Sign(m, c, args), Prefix(m, c), Digits(Magnitude(SizeOf(m), c, args), BaseOf(c)))
    else if c == 's' then
      Field(m, "", "", if args != [] && args[0].Text? then args[0].s else "(null)")
    else if c == 'c' then
      Field(m, "", "", if Bits(args) % 256 == 0 then "" else [(Bits(args) % 256) as char])
    else Field(m, "", "", [c])
  }

  /** What a format prints: TextIn is the rest of it after a % and the modifiers m. */
  function TextOf(fmt: string, args: seq<Arg>): string
    decreases |fmt|, 0
  {
    if fmt == [] then [] else if fmt[0] == '%' then TextIn("", fmt[1..], args) else [fmt[0]] + TextOf(fmt[1..], args)
  }

  function TextIn(m: string, fmt: string, args: seq<Arg>): string
    decreases |fmt|, 1
  {
    if fmt == [] then []
    else if IsMod(fmt[0]) then TextIn(m + [fmt[0]], fmt[1..], args)
    else Converted(m, fmt[0], args) + TextOf(fmt[1..], Rest(fmt[0], args))
  }

  // ---------------------------------------------------------------- snprintf's output

  /** The context of snprintf. */
  class Snp {
    const buf: array<char>
    const buflen: nat
    var bufpos: nat
    ghost var sent: string   // all that was sent, stored or not

    constructor (buf: array<char>, len: nat)
      requires len <= buf.Length
      ensures Valid() && sent == "" && this.buf == buf && buflen == if len == 0 then 0 else len - 1
    {
      this.buf, buflen, bufpos, sent := buf, if len == 0 then 0 else len - 1, 0, "";
    }

    /** The buffer holds the first characters sent, as many as there is room for. */
    ghost predicate Valid()
      reads this, buf
    {
      && buflen <= buf.Length && bufpos == Min(buflen, |sent|)
      && buf[..bufpos] == sent[..bufpos]
    }

    /** __snprintf_send */
    method Send(data: string)
      requires Valid()
      modifies this`bufpos, this`sent, buf
      ensures Valid() && sent == old(sent) + data
      ensures buf[buflen..] == old(buf[buflen..])
    {
      for i := 0 to |data|
        invariant Valid() && sent == old(sent) + data[..i]
        invariant buf[buflen..] == old(buf[buflen..])
      {
        if bufpos < buflen {
          buf[bufpos] := data[i];
          bufpos := bufpos + 1;
        }
        sent := sent + [data[i]];
      }
      assert data[..|data|] == data;
    }
  }

  // ---------------------------------------------------------------- the printf state

  class Pf {
    const sink: Snp
    var args: seq<Arg>
    var charcount: nat
    var inPct: bool
    var size: Size
    var spacing: nat
    var rightspc: bool
    var fillchar: char
    var altformat: bool
    ghost var mods: string   // the modifiers seen since the %

    /** The fields say what the modifiers seen so far ask for. */
    ghost predicate Shaped()
      reads `size, `spacing, `rightspc, `fillchar, `altformat, `mods
    {
      && size == SizeOf(mods) && spacing == Width(mods) && rightspc == Left(mods) && altformat == Alt(mods)
      && fillchar == (if ZeroFill(mods) then '0' else ' ')
      && AllMods(mods)
    }

    ghost predicate Valid()
      reads this, sink, sink.buf
    {
      sink.Valid() && charcount == |sink.sent| && Shaped() && (!inPct ==> mods == "")
    }

    constructor (sink: Snp, args: seq<Arg>)
      requires sink.Valid() && sink.sent == ""
      ensures Valid() && this.sink == sink && this.args == args && !inPct
    {
      this.sink, this.args, charcount, inPct := sink, args, 0, false;
      size, spacing, rightspc, fillchar, altformat, mods := IntSz, 0, false, ' ', false, "";
    }

    /** __pf_print */
    method Print(txt: string)
      requires Valid()
      modifies this`charcount, sink`bufpos, sink`sent, sink.buf
      ensures Valid() && sink.sent == old(sink.sent) + txt
      ensures sink.buf[sink.buflen..] == old(sink.buf[sink.buflen..])
    {
      sink.Send(txt);
      charcount := charcount + |txt|;
    }

    /** __pf_endfield */
    method EndField()
      requires sink.Valid() && charcount == |sink.sent|
      modifies this`inPct, this`size, this`spacing, this`rightspc, this`fillchar, this`altformat, this`mods
      ensures Valid() && !inPct
    {
      inPct, size, spacing, rightspc, fillchar, altformat, mods := false, IntSz, 0, false, ' ', false, "";
    }

    /** __pf_modifier */
    method Modifier(ch: char)
      requires Valid() && inPct && IsMod(ch)
      modifies this`size, this`spacing, this`rightspc, this`fillchar, this`altformat, this`mods
      ensures Valid() && mods == old(mods) + [ch]
    {
      ModifierMeans(mods, ch);
      SizePush(mods, ch);
      AllModsPush(mods, ch);
      mods := mods + [ch];
      match ch {
        case '#' => altformat := true;
        case '-' => rightspc := true;
        case 'l' => size := if size == LongSz then LlongSz else LongSz;
        case 'z' => size := SizetSz;
        case '0' =>
          if spacing > 0 { spacing := spacing * 10; } else { fillchar := '0'; }
        case _ => spacing := spacing * 10 + DigitValue(ch);
      }
    }

    /** __pf_fill */
    method Pad(spc: nat)
      requires Valid()
      modifies this`charcount, sink`bufpos, sink`sent, sink.buf
      ensures Valid() && sink.sent == old(sink.sent) + Fill(fillchar, spc)
      ensures sink.buf[sink.buflen..] == old(sink.buf[sink.buflen..])
    {
      for i := 0 to spc
        invariant Valid() && sink.sent == old(sink.sent) + Fill(fillchar, i)
        invariant sink.buf[sink.buflen..] == old(sink.buf[sink.buflen..])
      {
        Print([fillchar]);
        assert Fill(fillchar, i) + [fillchar] == Fill(fillchar, i + 1);
      }
    }

    /** __pf_printstuff */
    method PrintStuff(prefix: string, prefix2: string, stuff: string)
      requires Valid()
      modifies this`charcount, sink`bufpos, sink`sent, sink.buf
      ensures Valid() && sink.sent == old(sink.sent) + Field(mods, prefix, prefix2, stuff)
      ensures sink.buf[sink.buflen..] == old(sink.buf[sink.buflen..])
    {
      var len := |prefix| + |prefix2| + |stuff|;
      var spc := if spacing > len then spacing - len else 0;
      ghost var s0 := sink.sent;
      PadIf(spc > 0 && !rightspc && fillchar != '0', spc);
      ghost var s1 := sink.sent;
      Print(prefix);
      Print(prefix2);
      ghost var s2 := sink.sent;
      PadIf(spc > 0 && !rightspc && fillchar == '0', spc);
      Print(stuff);
      ghost var s3 := sink.sent;
      PadIf(spc > 0 && rightspc, spc);
      FieldParts(mods, prefix, prefix2, stuff, s0, s1, s2, s3, sink.sent);
    }

    method PadIf(cond: bool, spc: nat)
      requires Valid()
      modifies this`charcount, sink`bufpos, sink`sent, sink.buf
      ensures Valid() && sink.sent == old(sink.sent) + if cond then Fill(fillchar, spc) else []
      ensures sink.buf[sink.buflen..] == old(sink.buf[sink.buflen..])
    {
      if cond { Pad(spc); }
    }

    /** The digit loop of __pf_printnum, from right to left in its buffer of 23. */
    static method Convert(num: nat, base: nat) returns (text: string)
      requires num < 0x1_0000_0000_0000_0000 && 8 <= base <= 16
      ensures text == Digits(num, base)
    {
      NumberFits(num, base);
      var buf := new char[23];
      var x := 22;
      buf[x] := '\0';
      x := x - 1;
      var xnum: nat, more := num, true;
      while more
        invariant -1 <= x <= 21
        invariant more ==> Digits(num, base) == Digits(xnum, base) + buf[x + 1..22]
        invariant !more ==> Digits(num, base) == buf[x + 1..22]
        decreases more, xnum
      {
        DigitsStep(xnum, base);
        ConvertStep(num, base, xnum, buf[x + 1..22]);
        ghost var tail := buf[x + 1..22];
        buf[x] := DIGITS[xnum % base];
        assert buf[x..22] == [buf[x]] + tail;
        x := x - 1;
        xnum := xnum / base;
        more := xnum > 0;
      }
      x := x + 1;
      return buf[x..22];
    }

    /** __pf_getnum for type c: sign and magnitude of the number that the next argument
        stands for. */
    method GetNum(c: char) returns (num: nat, sign: bool)
      requires IsNum(c)
      modifies this`args
      ensures StandsFor(WithSign(sign, num), Bits(old(args)), if c == 'p' then IntSz else size, c == 'd')
      ensures (sign ==> num > 0) && args == Rest(c, old(args))
    {
      var w := if args != [] && args[0].Word? then args[0].w else 0;
      args := if args != [] then args[1..] else args;
      sign := false;
      if c == 'p' {
        num := w % 0x1_0000_0000;
      } else if c == 'd' {
        var signednum := Signed(w, size);
        sign := signednum < 0;
        num := if sign then -signednum else signednum;
      } else {
        num := Unsigned(w, size);
      }
      ValuesStandFor(w, if c == 'p' then IntSz else size);
    }

    /** __pf_getnum, __pf_setbase and __pf_printnum for type c. */
    method PrintNum(c: char)
      requires Valid() && IsNum(c)
      modifies this`args, this`charcount, sink`bufpos, sink`sent, sink.buf
      ensures Valid() && sink.sent == old(sink.sent) + Converted(mods, c, old(args)) && args == Rest(c, old(args))
      ensures sink.buf[sink.buflen..] == old(sink.buf[sink.buflen..])
    {
      ghost var passed := args;
      var num, sign := GetNum(c);
      MagnitudeStandsFor(size, c, passed, num, sign);
      var base := if c == 'd' || c == 'u' then 10 else if c == 'x' || c == 'p' then 16 else 8;
      var baseprefix := altformat || c == 'p';
      var text := Convert(num, base);
      var bprefix := if baseprefix && base == 16 then "0x" else if baseprefix && base == 8 then "0" else "";
      PrintStuff(if sign then "-" else "", bprefix, text);
    }

    /** The other conversions of __pf_send: a string, a character, or anything else. */
    method PrintOther(c: char)
      requires Valid() && !IsNum(c)
      modifies this`args, this`charcount, sink`bufpos, sink`sent, sink.buf
      ensures Valid() && sink.sent == old(sink.sent) + Converted(mods, c, old(args)) && args == Rest(c, old(args))
      ensures sink.buf[sink.buflen..] == old(sink.buf[sink.buflen..])
    {
      var str: string;
      if c == 's' {
        str := if args != [] && args[0].Text? then args[0].s else "(null)";
      } else if c == 'c' {
        var x := (if args != [] && args[0].Word? then args[0].w else 0) % 256;
        str := if x == 0 then "" else [x as char];
      } else {
        str := [c];
      }
      args := if (c == 's' || c == 'c') && args != [] then args[1..] else args;
      PrintStuff("", "", str);
    }

    /** A type character: the field is printed and the state reset. */
    method EndConversion(ch: char)
      requires Valid() && inPct && !IsMod(ch)
      modifies this`args, this`charcount, this`inPct, this`size, this`spacing, this`rightspc, this`fillchar,
               this`altformat, this`mods, sink`bufpos, sink`sent, sink.buf
      ensures Valid() && !inPct && sink.sent == old(sink.sent) + Converted(old(mods), ch, old(args))
              && args == Rest(ch, old(args))
      ensures sink.buf[sink.buflen..] == old(sink.buf[sink.buflen..])
    {
      if IsNum(ch) { PrintNum(ch); } else { PrintOther(ch); }
      EndField();
    }

    /** What is still to be printed, given the format characters still to come. */
    ghost function Pending(rest: string): string
      reads this
    {
      if inPct then TextIn(mods, rest, args) else TextOf(rest, args)
    }

    /** __pf_send: whatever state it is in, sending a character prints a first part of
        what is pending and leaves the rest pending. */
    method SendChar(ch: char, ghost rest: string)
      requires Valid()
      modifies this`args, this`charcount, this`inPct, this`size, this`spacing, this`rightspc, this`fillchar,
               this`altformat, this`mods, sink`bufpos, sink`sent, sink.buf
      ensures Valid() && sink.sent + Pending(rest) == old(sink.sent + Pending([ch] + rest))
      ensures sink.buf[sink.buflen..] == old(sink.buf[sink.buflen..])
    {
      TextUnfolds(mods, ch, rest, args);
      ghost var s, pending := sink.sent, Pending([ch] + rest);
      if !inPct && ch != '%' {
        Print([ch]);
        Associates(s, [ch], Pending(rest));
      } else if !inPct {
        inPct := true;
      } else if IsMod(ch) {
        Modifier(ch);
      } else {
        ghost var m, a := mods, args;
        EndConversion(ch);
        Associates(s, Converted(m, ch, a), Pending(rest));
      }
    }

    /** The loop of __vprintf. */
    method SendAll(fmt: string)
      requires Valid() && !inPct && sink.sent == ""
      modifies this`args, this`charcount, this`inPct, this`size, this`spacing, this`rightspc, this`fillchar,
               this`altformat, this`mods, sink`bufpos, sink`sent, sink.buf
      ensures Valid() && sink.sent == TextOf(fmt, old(args))
      ensures sink.buf[sink.buflen..] == old(sink.buf[sink.buflen..])
    {
      ghost var all := TextOf(fmt, args);
      assert fmt[0..] == fmt;
      for i := 0 to |fmt|
        invariant Valid() && sink.sent + Pending(fmt[i..]) == all
        invariant sink.buf[sink.buflen..] == old(sink.buf[sink.buflen..])
      {
        assert fmt[i..] == [fmt[i]] + fmt[i + 1..];
        SendChar(fmt[i], fmt[i + 1..]);
      }
      assert fmt[|fmt|..] == [];
    }
  }

  lemma Associates(a: string, b: string, c: string)
    ensures (a + b) + c == a + (b + c)
  {}

  lemma TextUnfolds(m: string, ch: char, rest: string, args: seq<Arg>)
    ensures TextOf([ch] + rest, args) == if ch == '%' then TextIn("", rest, args) else [ch] + TextOf(rest, args)
    ensures TextIn(m, [ch] + rest, args)
            == if IsMod(ch) then TextIn(m + [ch], rest, args) else Converted(m, ch, args) + TextOf(rest, Rest(ch, args))
  {
    assert ([ch] + rest)[1..] == rest;
  }

  /** __vprintf into the context of snprintf: what is sent is the text of the format, and
      the result is its length. */
  method Vprintf(snp: Snp, fmt: string, args: seq<Arg>) returns (chars: nat)
    requires snp.Valid() && snp.sent == ""
    modifies snp`bufpos, snp`sent, snp.buf
    ensures snp.Valid() && snp.sent == TextOf(fmt, args) && chars == |TextOf(fmt, args)|
    ensures snp.buf[snp.buflen..] == old(snp.buf[snp.buflen..])
  {
    var pf := new Pf(snp, args);
    pf.SendAll(fmt);
    return pf.charcount;
  }

  /** vsnprintf: the buffer gets the first len - 1 characters of the text, or all of it,
      and a NUL, and nothing beyond; the result is the length of the whole text. */
  method Vsnprintf(buf: array<char>, len: nat, fmt: string, args: seq<Arg>) returns (chars: nat)
    requires len <= buf.Length
    modifies buf
    ensures chars == |TextOf(fmt, args)|
    ensures len > 0 ==> var k := Min(len - 1, chars); buf[..k] == TextOf(fmt, args)[..k] && buf[k] == '\0'
    ensures buf[len..] == old(buf[len..])
  {
    var snp := new Snp(buf, len);
    chars := Vprintf(snp, fmt, args);
    assert len > 0 ==> snp.buf[snp.buflen..][1..] == buf[len..];
    if len > 0 {
      buf[snp.bufpos] := '\0';
    }
  }

  /** The pieces that __pf_printstuff sends make up the field. */
  lemma FieldParts(m: string, prefix: string, prefix2: string, stuff: string,
                   s0: string, s1: string, s2: string, s3: string, s4: string)
    requires var len := |prefix| + |prefix2| + |stuff|;
             var pad := if Width(m) > len then Width(m) - len else 0;
             && s1 == s0 + (if pad > 0 && !Left(m) && !ZeroFill(m) then Fill(' ', pad) else [])
             && s2 == s1 + prefix + prefix2
             && s3 == s2 + (if pad > 0 && !Left(m) && ZeroFill(m) then Fill('0', pad) else []) + stuff
             && s4 == s3 + (if pad > 0 && Left(m) then Fill(if ZeroFill(m) then '0' else ' ', pad) else [])
    ensures s4 == s0 + Field(m, prefix, prefix2, stuff)
  {
    var len := |prefix| + |prefix2| + |stuff|;
    var pad := if Width(m) > len then Width(m) - len else 0;
    assert forall c :: Fill(c, 0) == [];
    if Left(m) {
      assert s4 == s0 + (prefix + prefix2 + stuff + Fill(if ZeroFill(m) then '0' else ' ', pad));
    } else if ZeroFill(m) {
      assert s4 == s0 + (prefix + prefix2 + Fill('0', pad) + stuff);
    } else {
      assert s4 == s0 + (Fill(' ', pad) + prefix + prefix2 + stuff);
    }
  }

  lemma OnlyPush(m: string, c: char)
    ensures Only(m + [c]) == if IsDigit(c) then Only(m) + [c] else Only(m)
  {
    assert (m + [c])[..|m|] == m;
  }

  lemma AllModsPush(m: string, c: char)
    requires AllMods(m) && IsMod(c)
    ensures AllMods(m + [c])
  {}

  lemma SizePush(m: string, c: char)
    ensures SizeOf(m + [c]) == match c
                               case 'l' => (if SizeOf(m) == LongSz then LlongSz else LongSz)
                               case 'z' => SizetSz
                               case _ => SizeOf(m)
  {
    assert (m + [c])[..|m|] == m;
  }

  /** What one more modifier adds. */
  lemma ModifierMeans(m: string, c: char)
    ensures Left(m + [c]) == (Left(m) || c == '-') && Alt(m + [c]) == (Alt(m) || c == '#')
    ensures Width(m + [c]) == if IsDigit(c) then Width(m) * 10 + DigitValue(c) else Width(m)
    ensures ZeroFill(m + [c]) == (ZeroFill(m) || (c == '0' && Width(m) == 0))
  {
    OnlyPush(m, c);
    ValueZero(Only(m));
    if IsDigit(c) { ValuePush(Only(m), c); }
  }
}

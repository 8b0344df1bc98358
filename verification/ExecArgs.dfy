// The argument buffer of execv: argv is copied from the old program's memory into a
// kernel buffer, and from there onto the new program's stack.
module ExecArgs {
  import opened Basics
  import opened UserMem
  import opened Words

  /** ARG_MAX */
  const ARG_MAX := 65536

  /** A 32-bit word in memory, high byte first. */
  function WordBytes(w: nat): (b: seq<Byte>)
    requires w < 0x1_0000_0000
    ensures |b| == 4
  {
    [w / 0x100_0000, w / 0x1_0000 % 256, w / 256 % 256, w % 256]
  }

  function FromBytes(b: seq<Byte>): (w: nat)
    requires |b| == 4
    ensures w < 0x1_0000_0000
  {
    b[0] as int * 0x100_0000 + b[1] as int * 0x1_0000 + b[2] as int * 256 + b[3] as int
  }

  lemma WordRoundTrip(w: nat)
    requires w < 0x1_0000_0000
    ensures FromBytes(WordBytes(w)) == w
  {
    var a := w / 256;
    var b := a / 256;
    assert w / 0x1_0000 == b && w / 0x100_0000 == b / 256;
    assert w == 256 * a + w % 256 && a == 256 * b + a % 256 && b == 256 * (b / 256) + b % 256;
  }

  ghost function WordAt(m: Memory, a: nat): nat {
    FromBytes([Get(m, a), Get(m, a + 1), Get(m, a + 2), Get(m, a + 3)])
  }

  lemma WordHeld(m: Memory, a: nat, b: seq<Byte>)
    requires |b| == 4 && HoldsAt(m, a, b)
    ensures WordAt(m, a) == FromBytes(b)
  {}

  /** Strings one after another, each with its NUL, as the buffer holds them. */
  ghost function Flat(args: seq<seq<Byte>>): seq<Byte> {
    if args == [] then [] else Flat(args[..|args| - 1]) + args[|args| - 1] + [0]
  }

  lemma FlatPush(args: seq<seq<Byte>>, s: seq<Byte>)
    ensures Flat(args + [s]) == Flat(args) + s + [0]
  {
    assert (args + [s])[..|args|] == args;
  }

  /** Where argument i is in the buffer. */
  lemma {:induction false} FlatAt(args: seq<seq<Byte>>, i: nat)
    requires i < |args|
    ensures var pos := |Flat(args[..i])|;
            && pos + |args[i]| + 1 <= |Flat(args)|
            && Flat(args)[..pos] == Flat(args[..i])
            && Flat(args)[pos..pos + |args[i]|] == args[i] && Flat(args)[pos + |args[i]|] == 0
            && pos + |args[i]| + 1 == |Flat(args[..i + 1])|
    decreases |args|
  {
    var last := |args| - 1;
    var init := args[..last];
    var pos := |Flat(args[..i])|;
    if i < last {
      FlatAt(init, i);
      assert init[..i] == args[..i] && init[..i + 1] == args[..i + 1];
      assert Flat(args)[..|Flat(init)|] == Flat(init);
      assert Flat(args)[pos..pos + |args[i]|] == Flat(init)[pos..pos + |args[i]|];
      assert Flat(args)[..pos] == Flat(init)[..pos];
    } else {
      assert args[..i + 1] == args;
      assert Flat(args)[..pos] == Flat(init);
    }
  }

  lemma {:induction false} FlatSize(args: seq<seq<Byte>>)
    ensures |args| <= |Flat(args)|
  {
    if args != [] { FlatSize(args[..|args| - 1]); }
  }

  /** argv at a: pointers to the argument strings, then NULL. */
  ghost predicate ArgvAt(m: Memory, a: nat, args: seq<seq<Byte>>) {
    && (forall i :: 0 <= i < |args| ==> ArgAt(m, a, args[i], i))
    && WordAt(m, a + 4 * |args|) == 0
  }

  ghost predicate ArgAt(m: Memory, a: nat, s: seq<Byte>, i: nat) {
    WordAt(m, a + 4 * i) != 0 && StringAt(m, WordAt(m, a + 4 * i), s)
  }

  /** The word at a, or the string s with its NUL at a, is in user space and can be
      accessed. */
  ghost predicate WordReach(mapped: nat -> bool, a: nat) {
    a + 4 <= USERSPACETOP && Reachable(mapped, a, 4)
  }

  ghost predicate StringReach(mapped: nat -> bool, a: nat, s: seq<Byte>) {
    a + |s| + 1 <= USERSPACETOP && Reachable(mapped, a, |s| + 1)
  }

  /** The pointer at u can be read, and is NULL, or points to the string s, which can be
      read too. */
  ghost predicate EndThere(m: Memory, mapped: nat -> bool, u: nat) {
    WordReach(mapped, u) && WordAt(m, u) == 0
  }

  ghost predicate ArgThere(m: Memory, mapped: nat -> bool, u: nat, s: seq<Byte>) {
    && WordReach(mapped, u) && WordAt(m, u) != 0
    && StringAt(m, WordAt(m, u), s) && StringReach(mapped, WordAt(m, u), s)
  }

  /** argv at a starts with these, which can be read. */
  ghost predicate StartsWith(m: Memory, mapped: nat -> bool, a: nat, args: seq<seq<Byte>>) {
    forall i :: 0 <= i < |args| ==> ArgThere(m, mapped, a + 4 * i, args[i])
  }

  /** argv at a, all of which can be read. */
  ghost predicate Readable(m: Memory, mapped: nat -> bool, a: nat, args: seq<seq<Byte>>) {
    StartsWith(m, mapped, a, args) && EndThere(m, mapped, a + 4 * |args|)
  }

  lemma StartsWithMore(m: Memory, mapped: nat -> bool, a: nat, args: seq<seq<Byte>>, s: seq<Byte>)
    requires StartsWith(m, mapped, a, args) && ArgThere(m, mapped, a + 4 * |args|, s)
    ensures StartsWith(m, mapped, a, args + [s])
  {}

  lemma SameString(m: Memory, a: nat, s: seq<Byte>, t: seq<Byte>)
    requires StringAt(m, a, s) && StringAt(m, a, t)
    ensures s == t
  {
    OneString(s, t, 0);
  }

  datatype ExecError = Efault | E2big | Enomem

  class ArgBuf {
    const data: array<Byte>
    var len: nat
    var nargs: nat

    /** argbuf_init and argbuf_allocate */
    constructor (size: nat)
      requires size <= ARG_MAX
      ensures len == 0 && nargs == 0 && data.Length == size && fresh(data) && Holds([])
    {
      data := new Byte[size](_ => 0);
      len, nargs := 0, 0;
    }

    /** The buffer holds these arguments. */
    ghost predicate Holds(args: seq<seq<Byte>>)
      reads this, data
    {
      && data.Length <= ARG_MAX && len <= data.Length && nargs == |args|
      && data[..len] == Flat(args) && forall i :: 0 <= i < |args| ==> NulFree(args[i])
    }

    /** One turn of argbuf_copyin's loop; next is what the string there may be. */
    method NextArg(user: User, u: nat, ghost args: seq<seq<Byte>>, ghost next: seq<Byte>) returns (r: Turn)
      requires Holds(args) && u < 0x1_0000_0000
      modifies this`len, this`nargs, data
      ensures r.Arg? ==> Holds(args + [r.s]) && len > old(len) && ArgThere(user.mem, user.mapped, u, r.s)
      ensures r.End? ==> Holds(args) && len == old(len)
      ensures r.End? <==> EndThere(user.mem, user.mapped, u)
      ensures ArgThere(user.mem, user.mapped, u, next) ==> r == Tried(next, data.Length - old(len))
    {
      var w := user.CopyIn(u, 4);
      if w.Err? { return Fail(ExecError.Efault); }
      WordHeld(user.mem, u, w.value);
      var thisarg := FromBytes(w.value);
      if thisarg == 0 { return End; }
      r := NextString(user, thisarg, args, next);
    }

    /** The string part of a turn. */
    method NextString(user: User, thisarg: nat, ghost args: seq<seq<Byte>>, ghost next: seq<Byte>) returns (r: Turn)
      requires Holds(args) && 0 < thisarg < 0x1_0000_0000
      modifies this`len, this`nargs, data
      ensures !r.End?
      ensures r.Arg? ==> Holds(args + [r.s]) && len > old(len)
                         && StringAt(user.mem, thisarg, r.s) && StringReach(user.mapped, thisarg, r.s)
      ensures StringAt(user.mem, thisarg, next) && StringReach(user.mapped, thisarg, next) ==>
                r == Tried(next, data.Length - old(len))
    {
      var n := user.CopyInStr(thisarg, data, len, data.Length - len);
      if StringAt(user.mem, thisarg, next) && StringReach(user.mapped, thisarg, next) {
        StringTried(user.mem, user.mapped, thisarg, next, data.Length - len);
      }
      if n.Err? {
        return Fail(if n.error == Enametoolong then E2big else ExecError.Efault);
      }
      var s := data[len..len + n.value - 1];
      if StringAt(user.mem, thisarg, next) { SameString(user.mem, thisarg, s, next); }
      FlatPush(args, s);
      Grown(data[..], len, n.value);
      len := len + n.value;
      nargs := nargs + 1;
      return Arg(s);
    }

    /** argbuf_copyin: it succeeds exactly if argv points to arguments that can all be
        read and fit, and the buffer then holds them. If they can be read and do not fit,
        the error is E2BIG, except that it is EFAULT when some of them fill the buffer. */
    method CopyIn(user: User, uargv: nat, ghost want: seq<seq<Byte>>) returns (r: Copied)
      requires Holds([]) && uargv < 0x1_0000_0000
      modifies this`len, this`nargs, data
      ensures r.Args? ==> Holds(r.args) && Readable(user.mem, user.mapped, uargv, r.args)
      ensures Readable(user.mem, user.mapped, uargv, want) ==> r == Attempt(want, data.Length)
    {
      var args: seq<seq<Byte>> := [];
      var u := uargv;
      ghost var good := Readable(user.mem, user.mapped, uargv, want);
      while true
        invariant Holds(args) && u == uargv + 4 * |args| && u < 0x1_0000_0000
        invariant StartsWith(user.mem, user.mapped, uargv, args)
        invariant good ==> args <= want
        decreases data.Length - len
      {
        if good { NextThere(user.mem, user.mapped, uargv, want, args); }
        ghost var next := if |args| < |want| then want[|args|] else [];
        var t := NextArg(user, u, args, next);
        if good { TurnDecides(user.mem, user.mapped, uargv, want, args, data.Length, t); }
        match t {
          case End => return Args(args);
          case Fail(e) => return Failed(e);
          case Arg(s) =>
            StartsWithMore(user.mem, user.mapped, uargv, args, s);
            args := args + [s];
            u := u + 4;
        }
      }
    }

    /** One turn of argbuf_copyout's loop: the pointer to argument i, then the string;
        0 if a copy fails, as it must above user space. */
    method PutArg(user: User, slot: nat, at: nat, pos: nat, ghost args: seq<seq<Byte>>, ghost i: nat) returns (n: nat)
      requires Holds(args) && i < |args| && pos == |Flat(args[..i])| && pos < len
      requires slot < 0x1_0000_0000 && at + pos < 0x1_0000_0000
      requires slot < USERSPACETOP ==> slot + 4 <= at && at + len < 0x1_0000_0000
      modifies user`mem
      ensures n != 0 <==> WordReach(user.mapped, slot) && StringReach(user.mapped, at + pos, args[i])
      ensures n != 0 ==> n == |args[i]| + 1 && pos + n <= len
      ensures n != 0 ==> pos + n <= |Flat(args)| && WordAt(user.mem, slot) == at + pos
                         && HoldsAt(user.mem, at + pos, Flat(args)[pos..pos + n])
      ensures n != 0 ==> OnlyThere(old(user.mem), user.mem, slot, 4, at + pos, n)
    {
      var ok := user.CopyOut(WordBytes(at + pos), slot);
      if !ok { return 0; }
      WordRoundTrip(at + pos);
      ghost var m := user.mem;
      WordHeld(m, slot, WordBytes(at + pos));
      n := PutString(user, at + pos, pos, args, i);
      if n != 0 { WordFrame(m, user.mem, slot); }
    }

    /** The string part of that turn. */
    method PutString(user: User, dest: nat, pos: nat, ghost args: seq<seq<Byte>>, ghost i: nat) returns (n: nat)
      requires Holds(args) && i < |args| && pos == |Flat(args[..i])| && pos < len && dest + (len - pos) <= 0x1_0000_0000
      modifies user`mem
      ensures n != 0 <==> StringReach(user.mapped, dest, args[i])
      ensures n != 0 ==> n == |args[i]| + 1 && pos + n <= len
      ensures n != 0 ==> pos + n <= |Flat(args)| && HoldsAt(user.mem, dest, Flat(args)[pos..pos + n])
      ensures n != 0 ==> SameOutside(old(user.mem), user.mem, dest, n)
    {
      var r := user.CopyOutStr(data, pos, dest, len - pos);
      ghost var t, s := data[pos..len], args[i];
      FlatAt(args, i);
      Within(data[..], len, pos, s);
      FitsString(t, s, user.mapped, dest);
      if r.Err? { return 0; }
      n := r.value;
      assert t[..n - 1] == data[pos..pos + n - 1] && t[n - 1] == 0;
      FirstNul(t, s, n);
      Sliced(data[..], len, pos, pos + n);
    }

    /** The whole turn, i arguments being in place. */
    method PutNext(user: User, slot: nat, at: nat, pos: nat, ghost m0: Memory, ghost base: nat,
                   ghost args: seq<seq<Byte>>, ghost i: nat) returns (n: nat)
      requires Holds(args) && i < |args| && pos == |Flat(args[..i])| && slot == base + 4 * i
      requires slot < 0x1_0000_0000 && at + pos < 0x1_0000_0000
      requires base < USERSPACETOP ==> base + 4 * (|args| + 1) == at && at + len < 0x1_0000_0000
      requires base < USERSPACETOP ==> Placed(m0, user.mem, base, at, args, i)
      modifies user`mem
      ensures n != 0 <==> SlotReach(user.mapped, base, at, args, i)
      ensures n != 0 ==> base < USERSPACETOP && pos + n == |Flat(args[..i + 1])| && pos + n <= len
                         && at + pos + n <= USERSPACETOP && Placed(m0, user.mem, base, at, args, i + 1)
    {
      FlatAt(args, i);
      ghost var m := user.mem;
      n := PutArg(user, slot, at, pos, args, i);
      if n != 0 { PlacedStep(m0, m, user.mem, base, at, args, i); }
    }

    /** The loop of argbuf_copyout. */
    method PutArgs(user: User, base: nat, at: nat, ghost args: seq<seq<Byte>>) returns (slot: nat, ok: bool)
      requires Holds(args) && base < 0x1_0000_0000 && at < 0x1_0000_0000
      requires base < USERSPACETOP ==> base + 4 * (|args| + 1) == at && at + len < 0x1_0000_0000
      modifies user`mem
      ensures ok ==> slot == base + 4 * |args| && (args != [] ==> base < USERSPACETOP && at + len <= USERSPACETOP)
      ensures ok <==> AllReach(user.mapped, base, at, args, |args|)
      ensures ok && base < USERSPACETOP ==> Placed(old(user.mem), user.mem, base, at, args, |args|)
    {
      var pos := 0;
      slot := base;
      ghost var i := 0;
      assert args[..0] == [] && args[..|args|] == args;
      while pos < len
        invariant 0 <= i <= |args| && pos == |Flat(args[..i])| && pos <= len && slot == base + 4 * i
        invariant i > 0 ==> base < USERSPACETOP && at + pos <= USERSPACETOP
        invariant AllReach(user.mapped, base, at, args, i)
        invariant base < USERSPACETOP ==> Placed(old(user.mem), user.mem, base, at, args, i)
        decreases len - pos
      {
        var n := PutNext(user, slot, at, pos, old(user.mem), base, args, i);
        if n == 0 { return slot, false; }
        pos := pos + n;
        slot := slot + 4;
        i := i + 1;
      }
      if i < |args| { FlatAt(args, i); }
      return slot, true;
    }

    /** argbuf_copyout: on success the new stack holds a word-aligned argv array that ends
        in NULL, and above it, below the old stack pointer, the strings it points to. */
    method CopyOut(user: User, ustackp: nat, ghost args: seq<seq<Byte>>) returns (r: Laid)
      requires Holds(args) && ustackp < 0x1_0000_0000
      modifies user`mem
      ensures r.Stack? <==> StackFits(user.mapped, ustackp, |Flat(args)|, |args|)
      ensures r.Stack? ==> r.argc == |args| && r.ustack == r.uargv && r.uargv % 4 == 0
                           && ArgvAt(user.mem, r.uargv, args) && Below(user.mem, r.uargv, args, ustackp)
                           && r.uargv <= ustackp && SameOutside(old(user.mem), user.mem, r.uargv, ustackp - r.uargv)
      ensures r.Stack? ==> var end := r.uargv + 4 * (|args| + 1) + |Flat(args)|; end <= ustackp < end + 4
    {
      FlatSize(args);
      StackRoom(ustackp, len, nargs);
      var at := StringsAt(ustackp, len);
      var base := ArrayAt(ustackp, len, nargs);
      FitsIff(user.mapped, ustackp, args, at, base);
      var ok := PutAll(user, base, at, ustackp, args);
      return if ok then Stack(base, nargs, base) else NoStack;
    }

    method PutAll(user: User, base: nat, at: nat, ghost limit: nat, ghost args: seq<seq<Byte>>) returns (ok: bool)
      requires Holds(args) && base < 0x1_0000_0000 && at < 0x1_0000_0000 && limit < 0x1_0000_0000
      requires base < USERSPACETOP ==> base + 4 * (|args| + 1) == at && at + len <= limit
      modifies user`mem
      ensures ok <==> AllReach(user.mapped, base, at, args, |args|) && WordReach(user.mapped, base + 4 * |args|)
      ensures ok ==> base < USERSPACETOP && base <= limit && ArgvAt(user.mem, base, args)
                     && Below(user.mem, base, args, limit) && SameOutside(old(user.mem), user.mem, base, limit - base)
    {
      var slot;
      slot, ok := PutArgs(user, base, at, args);
      if !ok { return; }
      ghost var m := user.mem;
      ok := PutNull(user, slot);
      if ok { Finished(old(user.mem), m, user.mem, base, at, args, limit); }
    }

    /** The NULL that ends argv. */
    method PutNull(user: User, slot: nat) returns (ok: bool)
      requires slot < 0x1_0000_0000
      modifies user`mem
      ensures ok <==> WordReach(user.mapped, slot)
      ensures ok ==> WordAt(user.mem, slot) == 0 && SameOutside(old(user.mem), user.mem, slot, 4)
    {
      ok := user.CopyOut(WordBytes(0), slot);
      if ok {
        WordHeld(user.mem, slot, WordBytes(0));
        WordRoundTrip(0);
      }
    }
  }

  datatype Laid = Stack(ustack: nat, argc: nat, uargv: nat) | NoStack

  /** The array and the strings do not overlap, and all of them are below limit. */
  ghost predicate Below(m: Memory, uargv: nat, args: seq<seq<Byte>>, limit: nat) {
    forall i :: 0 <= i < |args| ==> StringBelow(m, uargv, args, i, limit)
  }

  ghost predicate StringBelow(m: Memory, uargv: nat, args: seq<seq<Byte>>, i: nat, limit: nat)
    requires i < |args|
  {
    var p := WordAt(m, uargv + 4 * i);
    uargv + 4 * (|args| + 1) <= p && p + |args[i]| + 1 <= limit
  }

  ghost predicate InReach(mapped: nat -> bool, a: nat, n: nat) {
    a + n <= USERSPACETOP && Reachable(mapped, a, n)
  }

  /** Rounded down to a whole word. */
  function Down4(x: nat): nat {
    x - x % 4
  }

  /** Where argbuf_copyout puts the strings, and the array. */
  function StringsAt(ustackp: nat, len: nat): nat {
    Down4(U32(ustackp - len))
  }

  function ArrayAt(ustackp: nat, len: nat, n: nat): nat {
    U32(StringsAt(ustackp, len) - (n + 1) * 4)
  }

  /** Strings of len bytes in all, and below them a word-aligned array of n pointers and
      a NULL, have room below ustackp where user memory can be accessed. */
  ghost predicate StackFits(mapped: nat -> bool, ustackp: nat, len: nat, n: nat) {
    ustackp >= len && FitsFrom(mapped, Down4(ustackp - len), len, n)
  }

  /** That is, from the highest word boundary that leaves room for the strings. */
  lemma StackFitsIff(mapped: nat -> bool, ustackp: nat, len: nat, n: nat)
    ensures StackFits(mapped, ustackp, len, n)
            <==> exists at: nat :: at % 4 == 0 && at + len <= ustackp < at + len + 4 && FitsFrom(mapped, at, len, n)
  {
    if ustackp >= len {
      var at := Down4(ustackp - len);
      assert at % 4 == 0 && at + len <= ustackp < at + len + 4;
      forall b: nat | b % 4 == 0 && b + len <= ustackp < b + len + 4
        ensures b == at
      {}
    }
  }

  ghost predicate FitsFrom(mapped: nat -> bool, at: nat, len: nat, n: nat) {
    at >= 4 * (n + 1) && at + len <= USERSPACETOP && Reachable(mapped, at - 4 * (n + 1), 4 * (n + 1) + len)
  }

  /** Entry j of argv at base, and its string among those at at, can be written. */
  ghost predicate SlotReach(mapped: nat -> bool, base: nat, at: nat, args: seq<seq<Byte>>, j: nat)
    requires j < |args|
  {
    WordReach(mapped, base + 4 * j) && StringReach(mapped, at + |Flat(args[..j])|, args[j])
  }

  ghost predicate AllReach(mapped: nat -> bool, base: nat, at: nat, args: seq<seq<Byte>>, k: nat)
    requires k <= |args|
  {
    forall j :: 0 <= j < k ==> SlotReach(mapped, base, at, args, j)
  }

  /** Entry by entry, that is the array up to there and the strings up to there. */
  lemma {:induction false} AllReachIs(mapped: nat -> bool, base: nat, at: nat, args: seq<seq<Byte>>, k: nat)
    requires k <= |args|
    ensures AllReach(mapped, base, at, args, k)
            <==> k == 0 || (InReach(mapped, base, 4 * k) && InReach(mapped, at, |Flat(args[..k])|))
  {
    if k > 0 {
      AllReachIs(mapped, base, at, args, k - 1);
      FlatAt(args, k - 1);
      var pos := |Flat(args[..k - 1])|;
      ReachSplit(mapped, base, 4 * (k - 1), 4);
      ReachSplit(mapped, at, pos, |args[k - 1]| + 1);
      assert AllReach(mapped, base, at, args, k)
             <==> AllReach(mapped, base, at, args, k - 1) && SlotReach(mapped, base, at, args, k - 1);
      assert args[..0] == [];
    }
  }

  lemma ReachSplit(mapped: nat -> bool, a: nat, n: nat, k: nat)
    ensures Reachable(mapped, a, n + k) <==> Reachable(mapped, a, n) && Reachable(mapped, a + n, k)
  {
    if Reachable(mapped, a, n) && Reachable(mapped, a + n, k) {
      forall x: nat | a <= x < a + n + k
        ensures mapped(x)
      {
        if x >= a + n { assert mapped(x); }
      }
    }
  }

  /** The copies succeed exactly if there is room. */
  lemma FitsIff(mapped: nat -> bool, ustackp: nat, args: seq<seq<Byte>>, at: nat, base: nat)
    requires ustackp < 0x1_0000_0000 && |Flat(args)| <= ARG_MAX
    requires at == StringsAt(ustackp, |Flat(args)|) && base == ArrayAt(ustackp, |Flat(args)|, |args|)
    ensures AllReach(mapped, base, at, args, |args|) && WordReach(mapped, base + 4 * |args|)
            <==> StackFits(mapped, ustackp, |Flat(args)|, |args|)
  {
    FlatSize(args);
    StackRoom(ustackp, |Flat(args)|, |args|);
    FitsThere(mapped, args, at, base);
  }

  lemma FitsThere(mapped: nat -> bool, args: seq<seq<Byte>>, at: nat, base: nat)
    requires base < USERSPACETOP ==> base + 4 * (|args| + 1) == at
    ensures AllReach(mapped, base, at, args, |args|) && WordReach(mapped, base + 4 * |args|)
            <==> base < USERSPACETOP && FitsFrom(mapped, at, |Flat(args)|, |args|)
  {
    var len, n := |Flat(args)|, |args|;
    AllReachIs(mapped, base, at, args, n);
    assert args[..n] == args;
    ReachSplit(mapped, base, 4 * n, 4);
    ReachSplit(mapped, base, 4 * (n + 1), len);
  }

  /** Where the stack pointer arithmetic leads: to the region just below the old stack
      pointer, or, if it wraps, above user space. */
  lemma StackRoom(ustackp: nat, len: nat, n: nat)
    requires ustackp < 0x1_0000_0000 && len <= ARG_MAX && n <= len
    ensures var at, base := StringsAt(ustackp, len), ArrayAt(ustackp, len, n);
            && at < 0x1_0000_0000 && base < 0x1_0000_0000
            && (base < USERSPACETOP ==>
                  && ustackp >= len && at == Down4(ustackp - len) && at + len <= ustackp
                  && base + 4 * (n + 1) == at && base % 4 == 0)
            && (ustackp >= len && 4 * (n + 1) <= Down4(ustackp - len) <= USERSPACETOP ==> base < USERSPACETOP)
  {
    var s := U32(ustackp - len);
    var at := Down4(s);
    if ustackp < len {
      assert s == ustackp - len + 0x1_0000_0000;
    } else {
      assert s == ustackp - len;
    }
    if at < (n + 1) * 4 {
      assert U32(at - (n + 1) * 4) == at - (n + 1) * 4 + 0x1_0000_0000;
    } else {
      assert U32(at - (n + 1) * 4) == at - (n + 1) * 4;
    }
  }

  /** One argument, once the final NULL is in place. */
  lemma ArgFinished(m: Memory, m': Memory, base: nat, at: nat, args: seq<seq<Byte>>, limit: nat, i: nat)
    requires i < |args| && NulFree(args[i]) && PointerAt(m, base, at, args, i) && HoldsAt(m, at, Flat(args))
    requires base + 4 * (|args| + 1) == at && at + |Flat(args)| <= limit && SameOutside(m, m', base + 4 * |args|, 4)
    ensures ArgAt(m', base, args[i], i) && StringBelow(m', base, args, i, limit)
  {
    WordFrame(m, m', base + 4 * i);
    FlatAt(args, i);
    StringIn(m, m', at, Flat(args), |Flat(args[..i])|, args[i], base + 4 * |args|);
  }

  /** The final NULL completes the array. */
  lemma Finished(m0: Memory, m: Memory, m': Memory, base: nat, at: nat, args: seq<seq<Byte>>, limit: nat)
    requires Placed(m0, m, base, at, args, |args|) && base + 4 * (|args| + 1) == at && at + |Flat(args)| <= limit
    requires SameOutside(m, m', base + 4 * |args|, 4) && WordAt(m', base + 4 * |args|) == 0
    requires forall i :: 0 <= i < |args| ==> NulFree(args[i])
    ensures ArgvAt(m', base, args) && Below(m', base, args, limit) && SameOutside(m0, m', base, limit - base)
  {
    assert args[..|args|] == args;
    forall i | 0 <= i < |args|
      ensures ArgAt(m', base, args[i], i) && StringBelow(m', base, args, i, limit)
    {
      ArgFinished(m, m', base, at, args, limit, i);
    }
    StillOutside(m0, m, m', base, limit - base, base + 4 * |args|, 4, base + 4 * |args|, 4);
  }

  lemma StringIn(m: Memory, m': Memory, at: nat, flat: seq<Byte>, pos: nat, s: seq<Byte>, slot: nat)
    requires HoldsAt(m, at, flat) && SameOutside(m, m', slot, 4) && slot + 4 <= at
    requires pos + |s| < |flat| && flat[pos..pos + |s|] == s && flat[pos + |s|] == 0 && NulFree(s)
    ensures StringAt(m', at + pos, s)
  {
    forall k | 0 <= k < |s|
      ensures Get(m', at + pos + k) == s[k]
    {
      assert Get(m, at + (pos + k)) == flat[pos + k] && s[k] == flat[pos..pos + |s|][k];
    }
    assert Get(m, at + (pos + |s|)) == flat[pos + |s|];
  }

  /** What copyinstr makes of a string with room for rem bytes: too long for a buffer
      that is full is a fault, since copycheck refuses the empty region. */
  ghost function Tried(s: seq<Byte>, rem: nat): Turn {
    if |s| + 1 <= rem then Arg(s) else Fail(if rem == 0 then ExecError.Efault else E2big)
  }

  lemma StringTried(m: Memory, mapped: nat -> bool, a: nat, s: seq<Byte>, rem: nat)
    requires StringAt(m, a, s) && StringReach(mapped, a, s) && a + rem <= 0x1_0000_0000
    ensures EndsWithin(m, mapped, a, rem) <==> |s| + 1 <= rem
    ensures |s| + 1 > rem ==> TooLong(m, mapped, a, rem)
  {
    if |s| + 1 <= rem {
      assert Get(m, a + |s|) == 0 && Reachable(mapped, a, a + |s| + 1 - a);
    } else {
      forall x: nat | a <= x < a + rem
        ensures Get(m, x) != 0
      {
        assert Get(m, a + (x - a)) == s[x - a];
      }
    }
  }

  /** Some of the arguments, but not all, take up exactly size bytes. */
  ghost predicate Fills(args: seq<seq<Byte>>, size: nat) {
    exists k :: 0 <= k < |args| && |Flat(args[..k])| == size
  }

  /** What argbuf_copyin makes of arguments that can be read. */
  ghost function Attempt(args: seq<seq<Byte>>, size: nat): Copied {
    if |Flat(args)| <= size then Args(args) else Failed(if Fills(args, size) then ExecError.Efault else E2big)
  }

  lemma FlatGrows(args: seq<seq<Byte>>, i: nat, j: nat)
    requires i <= j <= |args|
    ensures |Flat(args[..i])| <= |Flat(args[..j])|
  {
    FlatPrefix(args[..j], i);
    assert args[..j][..i] == args[..i];
  }

  /** The argument that does not fit decides the error. */
  lemma Overfull(want: seq<seq<Byte>>, i: nat, size: nat)
    requires i < |want| && |Flat(want[..i])| <= size < |Flat(want[..i])| + |want[i]| + 1
    ensures size < |Flat(want)| && (Fills(want, size) <==> |Flat(want[..i])| == size)
  {
    FlatAt(want, i);
    forall k | 0 <= k < |want| && |Flat(want[..k])| == size
      ensures |Flat(want[..i])| == size
    {
      if k <= i { FlatGrows(want, k, i); } else { FlatGrows(want, i + 1, k); }
    }
  }

  /** PAGE_SIZE, the size of the first buffer. */
  const FIRST_MAX := 4096

  /** The arguments that argbuf_fromuser takes, if they can be read; first and second say
      whether there is memory for its two buffers. */
  ghost predicate Taken(args: seq<seq<Byte>>, first: bool, second: bool) {
    && first
    && (|Flat(args)| <= FIRST_MAX || (second && |Flat(args)| <= ARG_MAX && !Fills(args, FIRST_MAX)))
  }

  lemma NoMore(m: Memory, mapped: nat -> bool, a: nat, x: seq<seq<Byte>>, y: seq<seq<Byte>>)
    requires Readable(m, mapped, a, x) && Readable(m, mapped, a, y)
    ensures |y| <= |x|
  {
    var i := if |x| < |y| then |x| else 0;
    assert i < |y| ==> ArgThere(m, mapped, a + 4 * i, y[i]);
  }

  /** argv points to one list of arguments only. */
  lemma ReadableOnce(m: Memory, mapped: nat -> bool, a: nat, x: seq<seq<Byte>>, y: seq<seq<Byte>>)
    requires Readable(m, mapped, a, x) && Readable(m, mapped, a, y)
    ensures x == y
  {
    NoMore(m, mapped, a, x, y);
    NoMore(m, mapped, a, y, x);
    forall i | 0 <= i < |x|
      ensures x[i] == y[i]
    {
      SameString(m, WordAt(m, a + 4 * i), x[i], y[i]);
    }
  }

  /** argbuf_fromuser: a buffer of one page, and if that is too small one of ARG_MAX. It
      succeeds exactly if the arguments can be read and are of the kind it takes. */
  method FromUser(user: User, uargv: nat, first: bool, second: bool) returns (r: Copied, buf: ArgBuf)
    requires uargv < 0x1_0000_0000
    ensures fresh(buf) && fresh(buf.data)
    ensures r.Args? ==> buf.Holds(r.args) && Readable(user.mem, user.mapped, uargv, r.args)
    ensures forall args | Readable(user.mem, user.mapped, uargv, args) ::
              r == Args(args) <==> Taken(args, first, second)
  {
    ghost var m, mapped := user.mem, user.mapped;
    ghost var there := exists args :: Readable(m, mapped, uargv, args);
    ghost var want: seq<seq<Byte>> :| there ==> Readable(m, mapped, uargv, want);
    forall args | Readable(m, mapped, uargv, args)
      ensures args == want
    {
      ReadableOnce(m, mapped, uargv, args, want);
    }
    buf := new ArgBuf(FIRST_MAX);
    if !first { return Failed(Enomem), buf; }
    r := buf.CopyIn(user, uargv, want);
    if r == Failed(E2big) {
      buf := new ArgBuf(ARG_MAX);
      if !second { return Failed(Enomem), buf; }
      r := buf.CopyIn(user, uargv, want);
    }
  }

  /** What sys_execv does with argv: it succeeds exactly if the arguments of the old
      program can be read, argbuf_fromuser takes them, and the new stack has room for them;
      each argument then reaches the new program unchanged, in order. */
  method PassArgs(from: User, to: User, uargv: nat, ustackp: nat, first: bool, second: bool)
    returns (r: Laid, ghost args: seq<seq<Byte>>)
    requires from != to && uargv < 0x1_0000_0000 && ustackp < 0x1_0000_0000
    modifies to`mem
    ensures r.Stack? ==> Readable(from.mem, from.mapped, uargv, args)
    ensures forall x | Readable(from.mem, from.mapped, uargv, x) ::
              r.Stack? <==> Taken(x, first, second) && StackFits(to.mapped, ustackp, |Flat(x)|, |x|)
    ensures r.Stack? ==> ArgvAt(to.mem, r.uargv, args) && r.argc == |args|
                         && r.uargv % 4 == 0 && Below(to.mem, r.uargv, args, ustackp)
  {
    args := [];
    var c, buf := FromUser(from, uargv, first, second);
    if c.Failed? { return NoStack, []; }
    args := c.args;
    forall x | Readable(from.mem, from.mapped, uargv, x)
      ensures x == args
    {
      ReadableOnce(from.mem, from.mapped, uargv, x, args);
    }
    r := buf.CopyOut(to, ustackp, args);
  }

  /** A list well below ARG_MAX that is refused: its first argument fills the page, and
      copyinstr takes the empty rest of the buffer for a fault. */
  lemma FullPageRefused(long: seq<Byte>, short: seq<Byte>)
    requires |long| == 4095 && |short| == 1
    ensures |Flat([long, short])| == 4098 && !Taken([long, short], true, true)
  {
    var args := [long, short];
    FlatAt(args, 0);
    FlatAt(args, 1);
    assert args[..0] == [] && args[..1] == [long] && args[..2] == args;
    assert |Flat(args[..1])| == FIRST_MAX;
  }

  /** After the arguments read so far comes the next one wanted, or the end. */
  lemma NextThere(m: Memory, mapped: nat -> bool, a: nat, want: seq<seq<Byte>>, args: seq<seq<Byte>>)
    requires args <= want && Readable(m, mapped, a, want)
    ensures |args| == |want| ==> EndThere(m, mapped, a + 4 * |args|)
    ensures |args| < |want| ==> ArgThere(m, mapped, a + 4 * |args|, want[|args|])
  {}

  lemma NextDecides(want: seq<seq<Byte>>, args: seq<seq<Byte>>, size: nat)
    requires args <= want && |args| < |want| && |Flat(args)| <= size
    ensures var t := Tried(want[|args|], size - |Flat(args)|);
            !t.End? && (t.Arg? ==> args + [t.s] <= want) && (t.Fail? ==> Attempt(want, size) == Failed(t.e))
  {
    assert want[..|args|] == args && args + [want[|args|]] == want[..|args| + 1];
    if |Flat(args)| + |want[|args|]| + 1 > size { Overfull(want, |args|, size); }
  }

  /** A turn either takes the next argument wanted or decides the outcome. */
  lemma TurnDecides(m: Memory, mapped: nat -> bool, a: nat, want: seq<seq<Byte>>, args: seq<seq<Byte>>, size: nat,
                    t: Turn)
    requires args <= want && Readable(m, mapped, a, want) && |Flat(args)| <= size
    requires t.End? <==> EndThere(m, mapped, a + 4 * |args|)
    requires |args| < |want| ==> t == Tried(want[|args|], size - |Flat(args)|)
    ensures t.End? ==> Attempt(want, size) == Args(args)
    ensures t.Fail? ==> Attempt(want, size) == Failed(t.e)
    ensures t.Arg? ==> args + [t.s] <= want
  {
    NextThere(m, mapped, a, want, args);
    if |args| == |want| {
      assert args == want;
    } else {
      NextDecides(want, args, size);
    }
  }

  datatype Turn = End | Arg(s: seq<Byte>) | Fail(e: ExecError)
  datatype Copied = Args(args: seq<seq<Byte>>) | Failed(e: ExecError)

  /** t starts with the string s and its terminator. */
  ghost predicate Leads(t: seq<Byte>, s: seq<Byte>) {
    NulFree(s) && |s| < |t| && t[..|s|] == s && t[|s|] == 0
  }

  lemma Within(d: seq<Byte>, len: nat, pos: nat, s: seq<Byte>)
    requires NulFree(s) && pos + |s| < len <= |d| && d[..len][pos..pos + |s|] == s && d[..len][pos + |s|] == 0
    ensures Leads(d[pos..len], s)
  {
    assert d[pos..len][..|s|] == d[..len][pos..pos + |s|];
  }

  /** The first NUL in t is where s ends. */
  lemma FirstNul(t: seq<Byte>, s: seq<Byte>, n: nat)
    requires Leads(t, s) && 0 < n <= |t| && NulFree(t[..n - 1]) && t[n - 1] == 0
    ensures n == |s| + 1
  {
    var k, j := if n - 1 < |s| then n - 1 else 0, if |s| < n - 1 then |s| else 0;
    assert k < |s| ==> t[k] == s[k] != 0;
    assert j < n - 1 ==> t[j] == t[..n - 1][j] != 0;
  }

  lemma FitsString(t: seq<Byte>, s: seq<Byte>, mapped: nat -> bool, dest: nat)
    requires Leads(t, s)
    ensures FitsAt(t, mapped, dest) <==> StringReach(mapped, dest, s)
  {
    assert forall k | 0 <= k < |s| :: t[k] == s[k] != 0;
    if StringReach(mapped, dest, s) { assert t[|s|] == 0 && Reachable(mapped, dest, |s| + 1); }
  }

  lemma Grown(d: seq<Byte>, len: nat, n: nat)
    requires 0 < n && len + n <= |d|
    ensures d[..len + n] == d[..len] + d[len..len + n - 1] + [d[len + n - 1]]
  {}

  lemma Sliced(d: seq<Byte>, len: nat, a: nat, b: nat)
    requires a <= b <= len <= |d|
    ensures d[..len][a..b] == d[a..b] && (b < len ==> d[..len][b] == d[b])
  {}

  /** Memory differs at most in two regions. */
  ghost predicate OnlyThere(m: Memory, m': Memory, a: nat, n: nat, b: nat, k: nat) {
    forall x: nat | !(a <= x < a + n) && !(b <= x < b + k) :: Get(m', x) == Get(m, x)
  }

  /** Entry j of the argv array at base points where argument j is, in the strings at at. */
  ghost predicate PointerAt(m: Memory, base: nat, at: nat, args: seq<seq<Byte>>, j: nat)
    requires j < |args|
  {
    WordAt(m, base + 4 * j) == at + |Flat(args[..j])|
  }

  lemma WordFrame(m: Memory, m': Memory, a: nat)
    requires forall x: nat | a <= x < a + 4 :: Get(m', x) == Get(m, x)
    ensures WordAt(m', a) == WordAt(m, a)
  {}

  /** Another n bytes of the strings are in place. */
  lemma Joined(m: Memory, m': Memory, at: nat, flat: seq<Byte>, pos: nat, n: nat, slot: nat)
    requires pos + n <= |flat| && slot + 4 <= at && HoldsAt(m, at, flat[..pos])
             && HoldsAt(m', at + pos, flat[pos..pos + n])
    requires OnlyThere(m, m', slot, 4, at + pos, n)
    ensures HoldsAt(m', at, flat[..pos + n])
  {
    forall k | 0 <= k < pos + n
      ensures Get(m', at + k) == flat[k]
    {
      if k >= pos {
        assert Get(m', at + pos + (k - pos)) == flat[pos..pos + n][k - pos];
      } else {
        assert Get(m, at + k) == flat[..pos][k];
      }
    }
  }

  lemma PointersStay(m: Memory, m': Memory, base: nat, at: nat, args: seq<seq<Byte>>, i: nat, pos: nat, n: nat)
    requires i < |args| && base + 4 * i + 4 <= at && OnlyThere(m, m', base + 4 * i, 4, at + pos, n)
    requires forall j :: 0 <= j < i ==> PointerAt(m, base, at, args, j)
    requires PointerAt(m', base, at, args, i)
    ensures forall j :: 0 <= j < i + 1 ==> PointerAt(m', base, at, args, j)
  {
    forall j | 0 <= j < i
      ensures PointerAt(m', base, at, args, j)
    {
      assert PointerAt(m, base, at, args, j);
      WordFrame(m, m', base + 4 * j);
    }
  }

  /** The first i arguments are in place: their pointers from base on, their strings from
      at on, and nothing else of memory is changed. */
  ghost predicate Placed(m0: Memory, m: Memory, base: nat, at: nat, args: seq<seq<Byte>>, i: nat) {
    && i <= |args| && base <= at && HoldsAt(m, at, Flat(args[..i]))
    && SameOutside(m0, m, base, at + |Flat(args)| - base)
    && forall j :: 0 <= j < i ==> PointerAt(m, base, at, args, j)
  }

  lemma PlacedStep(m0: Memory, m: Memory, m': Memory, base: nat, at: nat, args: seq<seq<Byte>>, i: nat)
    requires Placed(m0, m, base, at, args, i) && i < |args| && base + 4 * (|args| + 1) == at
    requires PointerAt(m', base, at, args, i)
    requires var pos, n := |Flat(args[..i])|, |args[i]| + 1;
             && pos + n <= |Flat(args)| && HoldsAt(m', at + pos, Flat(args)[pos..pos + n])
             && OnlyThere(m, m', base + 4 * i, 4, at + pos, n)
    ensures Placed(m0, m', base, at, args, i + 1)
  {
    var pos, n := |Flat(args[..i])|, |args[i]| + 1;
    StringsJoined(m, m', base, at, args, i);
    PointersStay(m, m', base, at, args, i, pos, n);
    StillOutside(m0, m, m', base, at + |Flat(args)| - base, base + 4 * i, 4, at + pos, n);
  }

  lemma StringsJoined(m: Memory, m': Memory, base: nat, at: nat, args: seq<seq<Byte>>, i: nat)
    requires i < |args| && base + 4 * i + 4 <= at && HoldsAt(m, at, Flat(args[..i]))
    requires var pos, n := |Flat(args[..i])|, |args[i]| + 1;
             && pos + n <= |Flat(args)| && HoldsAt(m', at + pos, Flat(args)[pos..pos + n])
             && OnlyThere(m, m', base + 4 * i, 4, at + pos, n)
    ensures HoldsAt(m', at, Flat(args[..i + 1]))
  {
    FlatPrefix(args, i);
    FlatPrefix(args, i + 1);
    FlatAt(args, i);
    Joined(m, m', at, Flat(args), |Flat(args[..i])|, |args[i]| + 1, base + 4 * i);
  }

  lemma FlatPrefix(args: seq<seq<Byte>>, i: nat)
    requires i <= |args|
    ensures |Flat(args[..i])| <= |Flat(args)| && Flat(args)[..|Flat(args[..i])|] == Flat(args[..i])
  {
    if i < |args| { FlatAt(args, i); } else { assert args[..i] == args; }
  }

  lemma StillOutside(m0: Memory, m: Memory, m': Memory, a: nat, n: nat, b: nat, k: nat, c: nat, l: nat)
    requires SameOutside(m0, m, a, n) && OnlyThere(m, m', b, k, c, l)
    requires a <= b && b + k <= a + n && a <= c && c + l <= a + n
    ensures SameOutside(m0, m', a, n)
  {}
}

// Copying between the kernel and user memory: copycheck, copyin, copyout, copyinstr
// and copyoutstr.
module UserMem {
  import opened Words

  type Byte = x: int | 0 <= x < 256
  type Memory = map<nat, Byte>

  /** USERSPACETOP: user space runs from 0 up to it. */
  const USERSPACETOP := 0x8000_0000

  datatype Error = Efault | Enametoolong
  datatype Result<T> = Ok(value: T) | Err(error: Error)

  function Get(m: Memory, a: nat): Byte {
    if a in m then m[a] else 0
  }

  /** copycheck on 32-bit addresses: how much of the region is in user space. */
  function CopyCheck(bot: nat, len: nat): Result<nat> {
    var top := U32(bot + len - 1);
    if top < bot then Err(Efault)
    else if bot >= USERSPACETOP then Err(Efault)
    else if top >= USERSPACETOP then Ok(USERSPACETOP - bot)
    else Ok(len)
  }

  /** A region that is not empty passes if it starts in user space and does not wrap, and
      is then cut off at the end of user space. An empty region passes only at address
      zero, and is then taken for all of user space. */
  lemma CopyCheckIs(bot: nat, len: nat)
    requires bot < 0x1_0000_0000 && len < 0x1_0000_0000
    ensures len > 0 ==> (CopyCheck(bot, len).Ok? <==> bot < USERSPACETOP && bot + len <= 0x1_0000_0000)
    ensures len > 0 && CopyCheck(bot, len).Ok? ==>
              CopyCheck(bot, len).value == if bot + len <= USERSPACETOP then len else USERSPACETOP - bot
    ensures len == 0 ==> (CopyCheck(bot, len).Ok? <==> bot == 0)
    ensures len == 0 && bot == 0 ==> CopyCheck(bot, len).value == USERSPACETOP
  {}

  /** The n bytes at a, and whether they are those of s. */
  ghost predicate HoldsAt(m: Memory, a: nat, s: seq<Byte>) {
    forall i :: 0 <= i < |s| ==> Get(m, a + i) == s[i]
  }

  ghost predicate SameOutside(m: Memory, m': Memory, a: nat, n: nat) {
    forall x: nat | x < a || a + n <= x :: Get(m', x) == Get(m, x)
  }

  ghost predicate NulFree(s: seq<Byte>) {
    forall i :: 0 <= i < |s| ==> s[i] != 0
  }

  /** The string s, and its terminator, are at a. */
  ghost predicate StringAt(m: Memory, a: nat, s: seq<Byte>) {
    NulFree(s) && HoldsAt(m, a, s) && Get(m, a + |s|) == 0
  }

  /** All of the n bytes at a can be reached without a fault. */
  ghost predicate Reachable(mapped: nat -> bool, a: nat, n: nat) {
    forall x: nat | a <= x < a + n :: mapped(x)
  }

  ghost predicate NoNul(m: Memory, a: nat, n: nat) {
    forall x: nat | a <= x < a + n :: Get(m, x) != 0
  }

  /** A NUL ends the string at a within len bytes, inside user space, without a fault. */
  ghost predicate EndsWithin(m: Memory, mapped: nat -> bool, a: nat, len: nat) {
    exists e: nat :: a <= e < a + len && e < USERSPACETOP && Reachable(mapped, a, e + 1 - a) && Get(m, e) == 0
  }

  /** All of the len bytes can be read, in user space, and there is no NUL. */
  ghost predicate TooLong(m: Memory, mapped: nat -> bool, a: nat, len: nat) {
    a + len <= USERSPACETOP && Reachable(mapped, a, len) && NoNul(m, a, len)
  }

  /** A NUL ends the string in s, and its way to a is inside user space, without a fault. */
  ghost predicate FitsAt(s: seq<Byte>, mapped: nat -> bool, a: nat) {
    exists k :: 0 <= k < |s| && s[k] == 0 && a + k < USERSPACETOP && Reachable(mapped, a, k + 1)
  }

  /** The addresses of n bytes from base on. */
  ghost function Range(base: nat, n: nat): (r: seq<nat>)
    ensures |r| == n && forall i :: 0 <= i < n ==> r[i] == base + i
  {
    seq(n, i requires 0 <= i => base + i)
  }

  /** Bytes stored one after another; a later one prevails. */
  ghost function Store(m: Memory, addrs: seq<nat>, data: seq<Byte>): Memory
    requires |addrs| == |data|
    decreases |addrs|
  {
    if addrs == [] then m else Store(m[addrs[0] := data[0]], addrs[1..], data[1..])
  }

  lemma {:induction false} StoreConcat(m: Memory, a: seq<nat>, b: seq<nat>, x: seq<Byte>, y: seq<Byte>)
    requires |a| == |x| && |b| == |y|
    ensures Store(m, a + b, x + y) == Store(Store(m, a, x), b, y)
    decreases |a|
  {
    if a == [] {
      assert a + b == b && x + y == y;
    } else {
      assert (a + b)[1..] == a[1..] + b && (x + y)[1..] == x[1..] + y;
      StoreConcat(m[a[0] := x[0]], a[1..], b, x[1..], y);
    }
  }

  lemma StorePush(m: Memory, base: nat, data: seq<Byte>, i: nat)
    requires i < |data|
    ensures Store(m, Range(base, i), data[..i])[base + i := data[i]] == Store(m, Range(base, i + 1), data[..i + 1])
  {
    StoreConcat(m, Range(base, i), [base + i], data[..i], [data[i]]);
    assert Range(base, i) + [base + i] == Range(base, i + 1) && data[..i] + [data[i]] == data[..i + 1];
  }

  lemma {:induction false} StoredAt(m: Memory, base: nat, data: seq<Byte>, k: nat)
    requires k <= |data|
    ensures var m' := Store(m, Range(base, k), data[..k]); HoldsAt(m', base, data[..k]) && SameOutside(m, m', base, k)
    decreases k
  {
    if k > 0 {
      StoredAt(m, base, data, k - 1);
      StorePush(m, base, data, k - 1);
    }
  }

  lemma Wider(m: Memory, m': Memory, a: nat, n: nat, k: nat)
    requires SameOutside(m, m', a, n) && n <= k
    ensures SameOutside(m, m', a, k)
  {}

  /** memcpy to user memory: it stops at the first byte that cannot be reached. */
  method WriteBytes(m: Memory, mapped: nat -> bool, dest: nat, data: seq<Byte>) returns (m': Memory, done: nat)
    ensures done <= |data| && m' == Store(m, Range(dest, done), data[..done])
    ensures Reachable(mapped, dest, done) && (done < |data| ==> !mapped(dest + done))
  {
    m' := m;
    for i := 0 to |data|
      invariant m' == Store(m, Range(dest, i), data[..i]) && Reachable(mapped, dest, i)
    {
      if !mapped(dest + i) { return m', i; }
      StorePush(m, dest, data, i);
      m' := m'[dest + i := data[i]];
    }
    return m', |data|;
  }

  /** copyout; a fault leaves the first done bytes written. */
  method WriteOut(m: Memory, mapped: nat -> bool, dest: nat, data: seq<Byte>)
    returns (m': Memory, ok: bool, ghost done: nat)
    requires dest < 0x1_0000_0000 && |data| < 0x1_0000_0000
    ensures done <= |data| && m' == Store(m, Range(dest, done), data[..done])
    ensures ok <==> data != [] && dest + |data| <= USERSPACETOP && Reachable(mapped, dest, |data|)
    ensures ok ==> done == |data|
    ensures !ok ==> if data != [] && dest + |data| <= USERSPACETOP
                    then done < |data| && Reachable(mapped, dest, done) && !mapped(dest + done) else done == 0
  {
    CopyCheckIs(dest, |data|);
    var c := CopyCheck(dest, |data|);
    if c.Err? || c.value != |data| { return m, false, 0; }
    var n;
    m', n := WriteBytes(m, mapped, dest, data);
    return m', n == |data|, n;
  }

  /** copyin: data is what the kernel's buffer has got, all of it or, on a fault, the bytes
      before the one that cannot be reached. */
  method ReadIn(m: Memory, mapped: nat -> bool, src: nat, len: nat) returns (ok: bool, data: seq<Byte>)
    requires src < 0x1_0000_0000 && len < 0x1_0000_0000
    ensures ok <==> len > 0 && src + len <= USERSPACETOP && Reachable(mapped, src, len)
    ensures |data| <= len && HoldsAt(m, src, data) && (ok ==> |data| == len)
    ensures !ok ==> if len > 0 && src + len <= USERSPACETOP
                    then |data| < len && Reachable(mapped, src, |data|) && !mapped(src + |data|) else data == []
  {
    CopyCheckIs(src, len);
    var c := CopyCheck(src, len);
    if c.Err? || c.value != len { return false, []; }
    data := [];
    for i := 0 to len
      invariant |data| == i && HoldsAt(m, src, data) && Reachable(mapped, src, i)
    {
      if !mapped(src + i) { return false, data; }
      data := data + [Get(m, src + i)];
    }
    return true, data;
  }

  class User {
    var mem: Memory
    const mapped: nat -> bool   // where user memory can be accessed

    constructor (mem: Memory, mapped: nat -> bool)
      ensures this.mem == mem && this.mapped == mapped
    {
      this.mem, this.mapped := mem, mapped;
    }

    /** copyin */
    method CopyIn(src: nat, len: nat) returns (r: Result<seq<Byte>>)
      requires src < 0x1_0000_0000 && len < 0x1_0000_0000
      ensures r.Ok? <==> len > 0 && src + len <= USERSPACETOP && Reachable(mapped, src, len)
      ensures r.Ok? ==> |r.value| == len && HoldsAt(mem, src, r.value)
      ensures r.Err? ==> r.error == Efault
    {
      var ok, data := ReadIn(mem, mapped, src, len);
      return if ok then Ok(data) else Err(Efault);
    }

    /** copyout; a fault may leave part of the region written. */
    method CopyOut(data: seq<Byte>, dest: nat) returns (ok: bool)
      requires dest < 0x1_0000_0000 && |data| < 0x1_0000_0000
      modifies this`mem
      ensures ok <==> data != [] && dest + |data| <= USERSPACETOP && Reachable(mapped, dest, |data|)
      ensures ok ==> HoldsAt(mem, dest, data)
      ensures SameOutside(old(mem), mem, dest, |data|)
    {
      ghost var m, done := mem, 0;
      mem, ok, done := WriteOut(mem, mapped, dest, data);
      StoredAt(m, dest, data, done);
      assert data[..|data|] == data;
    }

    /** copyinstr, into data from position off on, at most len bytes with the NUL. It
        succeeds exactly when the string ends within the part of the region that is in
        user space, and can be reached. */
    method CopyInStr(src: nat, data: array<Byte>, off: nat, len: nat) returns (r: Result<nat>)
      requires src < 0x1_0000_0000 && len < 0x1_0000_0000 && off + len <= data.Length
      modifies data
      ensures r.Ok? ==> 0 < r.value <= len && src + r.value <= USERSPACETOP && Reachable(mapped, src, r.value)
                        && StringAt(mem, src, data[off..off + r.value - 1]) && data[off + r.value - 1] == 0
      ensures r.Ok? <==> src + len <= 0x1_0000_0000 && EndsWithin(mem, mapped, src, len)
      ensures r == Err(Enametoolong) <==> if len == 0 then src == 0 else TooLong(mem, mapped, src, len)
      ensures data[..off] == old(data[..off])
      ensures var end := off + if r.Ok? then r.value else len; data[end..] == old(data[end..])
    {
      CopyCheckIs(src, len);
      var c := CopyCheck(src, len);
      if c.Err? { return Err(Efault); }
      var n, found := ReadString(mem, mapped, src, data, off, len, c.value);
      EndsIf(mem, mapped, src, len, n, found, c.value);
      if found {
        StringHeld(mem, src, data[off..off + n]);
        assert data[off..off + n][..n - 1] == data[off..off + n - 1];
        return Ok(n);
      }
      if (n < len && n < c.value) || c.value < len { return Err(Efault); }
      return Err(Enametoolong);
    }

    /** copyoutstr, from data at position off on, at most len bytes with the NUL. */
    method CopyOutStr(data: array<Byte>, off: nat, dest: nat, len: nat) returns (r: Result<nat>)
      requires dest < 0x1_0000_0000 && len < 0x1_0000_0000 && off + len <= data.Length
      modifies this`mem
      ensures r.Ok? <==> dest + len <= 0x1_0000_0000 && FitsAt(data[off..off + len], mapped, dest)
      ensures r.Ok? ==> 0 < r.value <= len && dest + r.value <= USERSPACETOP
                        && NulFree(data[off..off + r.value - 1]) && data[off + r.value - 1] == 0
                        && HoldsAt(mem, dest, data[off..off + r.value]) && SameOutside(old(mem), mem, dest, r.value)
      ensures SameOutside(old(mem), mem, dest, len)
    {
      CopyCheckIs(dest, len);
      var c := CopyCheck(dest, len);
      if c.Err? { return Err(Efault); }
      var s, n, found := data[off..off + len], 0, false;
      ghost var m := mem;
      mem, n, found := WriteString(mem, mapped, dest, s, c.value);
      Wider(m, mem, dest, n, len);
      FitsIf(s, mapped, dest, n, found, c.value);
      if found {
        assert s[..n] == data[off..off + n] && s[..n - 1] == data[off..off + n - 1];
        return Ok(n);
      }
      if (n < len && n < c.value) || c.value < len { return Err(Efault); }
      return Err(Enametoolong);
    }
  }

  lemma OneMore(a: seq<Byte>, b: seq<Byte>, off: nat, i: nat)
    requires off + i < |a| && |b| == |a| && b == a[off + i := b[off + i]]
    ensures b[off..off + i] == a[off..off + i] && b[off..off + i + 1] == a[off..off + i] + [b[off + i]]
    ensures b[..off] == a[..off] && b[off + i + 1..] == a[off + i..][1..]
  {}

  /** The string at src up to and with its NUL, but no more than len and stop bytes. */
  method ReadString(m: Memory, mapped: nat -> bool, src: nat, data: array<Byte>, off: nat, len: nat, stop: nat)
    returns (n: nat, found: bool)
    requires off + len <= data.Length
    modifies data
    ensures n <= len && n <= stop && Reachable(mapped, src, n) && HoldsAt(m, src, data[off..off + n])
    ensures if found then n > 0 && Get(m, src + n - 1) == 0 && NoNul(m, src, n - 1) else NoNul(m, src, n)
    ensures !found ==> n == len || n == stop || !mapped(src + n)
    ensures data[..off] == old(data[..off]) && data[off + n..] == old(data[off + n..])
  {
    n := 0;
    while n < len && n < stop
      invariant n <= len && n <= stop && Reachable(mapped, src, n) && HoldsAt(m, src, data[off..off + n])
      invariant NoNul(m, src, n)
      invariant data[..off] == old(data[..off]) && data[off + n..] == old(data[off + n..])
    {
      if !mapped(src + n) { return n, false; }
      ghost var before := data[..];
      data[off + n] := Get(m, src + n);
      OneMore(before, data[..], off, n);
      n := n + 1;
      if data[off + n - 1] == 0 { return n, true; }
    }
    return n, false;
  }

  /** Bytes read up to a NUL are a string and its terminator. */
  lemma StringHeld(m: Memory, a: nat, s: seq<Byte>)
    requires s != [] && HoldsAt(m, a, s) && Get(m, a + |s| - 1) == 0 && NoNul(m, a, |s| - 1)
    ensures StringAt(m, a, s[..|s| - 1]) && s[|s| - 1] == 0
  {
    forall i | 0 <= i < |s| - 1
      ensures s[i] != 0
    {
      assert Get(m, a + i) == s[i];
    }
  }

  lemma EndsIf(m: Memory, mapped: nat -> bool, src: nat, len: nat, n: nat, found: bool, stop: nat)
    requires n <= len && n <= stop && Reachable(mapped, src, n)
    requires len > 0 ==> src < USERSPACETOP && stop == if src + len <= USERSPACETOP then len else USERSPACETOP - src
    requires if found then n > 0 && Get(m, src + n - 1) == 0 && NoNul(m, src, n - 1) else NoNul(m, src, n)
    requires !found ==> n == len || n == stop || !mapped(src + n)
    ensures EndsWithin(m, mapped, src, len) <==> found
    ensures len > 0 ==> (TooLong(m, mapped, src, len) <==> !found && n == len)
  {
    if found {
      var e := src + n - 1;
      assert Reachable(mapped, src, e + 1 - src) && Get(m, e) == 0;
    }
  }

  /** The string in s up to and with its NUL, but no more than stop bytes. */
  method WriteString(m: Memory, mapped: nat -> bool, dest: nat, s: seq<Byte>, stop: nat)
    returns (m': Memory, n: nat, found: bool)
    ensures n <= |s| && n <= stop && Reachable(mapped, dest, n)
    ensures HoldsAt(m', dest, s[..n]) && SameOutside(m, m', dest, n)
    ensures if found then n > 0 && s[n - 1] == 0 && NulFree(s[..n - 1]) else NulFree(s[..n])
    ensures !found ==> n == |s| || n == stop || !mapped(dest + n)
  {
    m', n := m, 0;
    while n < |s| && n < stop
      invariant n <= |s| && n <= stop && Reachable(mapped, dest, n) && NulFree(s[..n])
      invariant HoldsAt(m', dest, s[..n]) && SameOutside(m, m', dest, n)
    {
      if !mapped(dest + n) { return m', n, false; }
      m' := m'[dest + n := s[n]];
      n := n + 1;
      if s[n - 1] == 0 { return m', n, true; }
    }
    return m', n, false;
  }

  lemma FitsIf(s: seq<Byte>, mapped: nat -> bool, dest: nat, n: nat, found: bool, stop: nat)
    requires n <= |s| && n <= stop && Reachable(mapped, dest, n)
    requires |s| > 0 ==> stop == if dest + |s| <= USERSPACETOP then |s| else USERSPACETOP - dest
    requires if found then n > 0 && s[n - 1] == 0 else NulFree(s[..n]) && (n == |s| || n == stop || !mapped(dest + n))
    ensures FitsAt(s, mapped, dest) <==> found
  {
    assert forall k | 0 <= k < n :: s[k] == s[..n][k];
    if found { assert s[n - 1] == 0 && Reachable(mapped, dest, n - 1 + 1); }
  }
}

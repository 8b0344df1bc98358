// uiomove: moving bytes between a kernel buffer and a list of memory segments.
module Uio {
  import opened Arith
  import opened UserMem

  datatype Iovec = Iovec(base: nat, len: nat)

  datatype Direction = Read | Write

  /** The byte addresses of a list of segments, in order. */
  ghost function Addrs(iov: seq<Iovec>): seq<nat> {
    if iov == [] then [] else Range(iov[0].base, iov[0].len) + Addrs(iov[1..])
  }

  predicate InWords(iov: seq<Iovec>) {
    forall v | v in iov :: v.base < 0x1_0000_0000 && v.len < 0x1_0000_0000
  }

  ghost function Load(m: Memory, addrs: seq<nat>): (r: seq<Byte>)
    ensures |r| == |addrs|
  {
    seq(|addrs|, i requires 0 <= i < |addrs| => Get(m, addrs[i]))
  }

  // ---------------------------------------------------------------- what a transfer does

  /** What a uio stands for: the memory, the addresses still to be used, the position. */
  datatype View = View(mem: Memory, addrs: seq<nat>, offset: int)

  /** Data sent out to the segments, as much of it as there is room for. */
  ghost function Sent(v: View, data: seq<Byte>): View {
    var k := Min(|data|, |v.addrs|);
    View(Store(v.mem, v.addrs[..k], data[..k]), v.addrs[k..], v.offset + k)
  }

  /** The bytes taken in from the segments, n of them or as many as there are. */
  ghost function Taken(v: View, n: nat): seq<Byte> {
    Load(v.mem, v.addrs[..Min(n, |v.addrs|)])
  }

  ghost function Advanced(v: View, n: nat): View {
    var k := Min(n, |v.addrs|);
    v.(addrs := v.addrs[k..], offset := v.offset + k)
  }

  /** Any split of a transfer into two calls has the effect of one. */
  lemma SentInParts(v: View, x: seq<Byte>, y: seq<Byte>)
    ensures Sent(v, x + y) == Sent(Sent(v, x), y)
  {
    var k := Min(|x|, |v.addrs|);
    var w := Sent(v, x);
    var j := Min(|y|, |w.addrs|);
    assert Min(|x + y|, |v.addrs|) == k + j;
    assert v.addrs[..k + j] == v.addrs[..k] + w.addrs[..j];
    assert v.addrs[k + j..] == w.addrs[j..];
    if k == |x| {
      assert (x + y)[..k + j] == x[..k] + y[..j];
    } else {
      assert j == 0 && (x + y)[..k + j] == x[..k] + y[..j];
    }
    StoreConcat(v.mem, v.addrs[..k], w.addrs[..j], x[..k], y[..j]);
  }

  lemma TakenInParts(v: View, n: nat, m: nat)
    ensures Taken(v, n + m) == Taken(v, n) + Taken(Advanced(v, n), m)
    ensures Advanced(v, n + m) == Advanced(Advanced(v, n), m)
  {
    var k := Min(n, |v.addrs|);
    var w := Advanced(v, n);
    var j := Min(m, |w.addrs|);
    assert Min(n + m, |v.addrs|) == k + j;
    assert v.addrs[..k + j] == v.addrs[..k] + w.addrs[..j];
    assert v.addrs[k + j..] == w.addrs[j..];
  }

  /** What was sent can be taken back, if the segments do not overlap. */
  lemma SentThenTaken(v: View, data: seq<Byte>)
    requires forall i, j :: 0 <= i < j < |v.addrs| ==> v.addrs[i] != v.addrs[j]
    requires |data| <= |v.addrs|
    ensures Taken(v.(mem := Sent(v, data).mem), |data|) == data
  {
    var k := |data|;
    StoredThere(v.mem, v.addrs[..k], data[..k]);
    assert data[..k] == data;
  }

  lemma {:induction false} StoredThere(m: Memory, addrs: seq<nat>, data: seq<Byte>)
    requires |addrs| == |data| && forall i, j :: 0 <= i < j < |addrs| ==> addrs[i] != addrs[j]
    ensures Load(Store(m, addrs, data), addrs) == data
    ensures forall a: nat :: a !in addrs ==> Get(Store(m, addrs, data), a) == Get(m, a)
    decreases |addrs|
  {
    if addrs != [] {
      var m' := m[addrs[0] := data[0]];
      StoredThere(m', addrs[1..], data[1..]);
      assert addrs[0] !in addrs[1..];
      forall i | 0 <= i < |addrs|
        ensures Get(Store(m, addrs, data), addrs[i]) == data[i]
      {
        if i > 0 {
          assert Load(Store(m', addrs[1..], data[1..]), addrs[1..])[i - 1] == data[1..][i - 1];
        }
      }
    }
  }

  lemma AddrsHead(iov: seq<Iovec>, size: nat)
    requires iov != [] && size <= iov[0].len
    ensures var rest := [Iovec(iov[0].base + size, iov[0].len - size)] + iov[1..];
            Addrs(iov) == Range(iov[0].base, size) + Addrs(rest)
  {
    var rest := [Iovec(iov[0].base + size, iov[0].len - size)] + iov[1..];
    assert rest[1..] == iov[1..];
    assert Range(iov[0].base, iov[0].len) == Range(iov[0].base, size) + Range(rest[0].base, rest[0].len);
  }

  /** A chunk that fits in the first segment. */
  lemma SentChunk(v: View, base: nat, rest: seq<nat>, part: seq<Byte>)
    requires v.addrs == Range(base, |part|) + rest
    ensures Sent(v, part) == View(Store(v.mem, Range(base, |part|), part), rest, v.offset + |part|)
  {
    assert v.addrs[..|part|] == Range(base, |part|) && v.addrs[|part|..] == rest && part[..|part|] == part;
  }

  lemma TakenChunk(v: View, base: nat, rest: seq<nat>, n: nat)
    requires v.addrs == Range(base, n) + rest
    ensures Taken(v, n) == Load(v.mem, Range(base, n)) && Advanced(v, n) == v.(addrs := rest, offset := v.offset + n)
  {
    assert v.addrs[..n] == Range(base, n) && v.addrs[n..] == rest;
  }

  lemma TakenPart(v: View, base: nat, n: nat, rest: seq<nat>, k: nat)
    requires v.addrs == Range(base, n) + rest && k <= n
    ensures Taken(v, k) == Load(v.mem, Range(base, k)) && Advanced(v, 0) == v && Taken(v, 0) == []
  {
    assert v.addrs[..k] == Range(base, k);
  }

  lemma SentPrefix(v: View, data: seq<Byte>)
    ensures Sent(v, data[..Min(|data|, |v.addrs|)]) == Sent(v, data)
  {
    var k := Min(|data|, |v.addrs|);
    assert data[..k][..k] == data[..k];
  }

  lemma Resliced(data: seq<Byte>, from: nat, n: nat)
    requires from + n <= |data|
    ensures data[from..][..n] == data[from..from + n]
  {}

  lemma SentNext(v: View, data: seq<Byte>, sent: nat, size: nat)
    requires sent + size <= |data|
    ensures Sent(v, data[..sent + size]) == Sent(Sent(v, data[..sent]), data[sent..][..size])
  {
    assert data[sent..][..size] == data[sent..sent + size];
    SentInParts(v, data[..sent], data[sent..sent + size]);
    assert data[..sent] + data[sent..sent + size] == data[..sent + size];
  }

  /** What a copy that stops after part of the data leaves: those bytes are written, and
      nothing is accounted for. */
  ghost function Torn(v: View, part: seq<Byte>): View {
    v.(mem := Sent(v, part).mem)
  }

  /** After a prefix of data has been sent from state v, and torn more bytes written. */
  ghost predicate Stopped(v: View, w: View, data: seq<Byte>, sent: nat, torn: nat) {
    sent + torn <= |data| && w == Torn(Sent(v, data[..sent]), data[sent..sent + torn])
  }

  ghost predicate SentUpTo(v: View, w: View, data: seq<Byte>, sent: nat) {
    sent <= |data| && w == Sent(v, data[..sent])
  }

  /** A chunk at the first addresses, of which only k bytes were written. */
  lemma TornChunk(v: View, base: nat, size: nat, rest: seq<nat>, part: seq<Byte>, k: nat)
    requires v.addrs == Range(base, size) + rest && |part| == size && k <= size
    ensures Torn(v, part[..k]) == v.(mem := Store(v.mem, Range(base, k), part[..k]))
  {
    assert v.addrs[..k] == Range(base, k) && part[..k][..k] == part[..k];
  }

  /** memmove to the segment. */
  method MoveTo(m: Memory, base: nat, data: seq<Byte>) returns (m': Memory)
    ensures m' == Store(m, Range(base, |data|), data)
  {
    m' := m;
    for i := 0 to |data|
      invariant m' == Store(m, Range(base, i), data[..i])
    {
      StorePush(m, base, data, i);
      m' := m'[base + i := data[i]];
    }
    assert data[..|data|] == data;
  }

  /** memmove from the segment. */
  method MoveFrom(m: Memory, base: nat, n: nat) returns (data: seq<Byte>)
    ensures data == Load(m, Range(base, n))
  {
    data := [];
    for i := 0 to n
      invariant data == Load(m, Range(base, i))
    {
      data := data + [Get(m, base + i)];
    }
  }

  // ---------------------------------------------------------------- the code

  datatype Outcome = Done | Fault | OutOfBuffers

  class Uio {
    var iov: seq<Iovec>       // from the current one on; uio_iovcnt is its length
    var offset: int
    var resid: nat
    const rw: Direction
    const user: bool          // segments are in user space, where a copy can fail
    const mapped: nat -> bool // where user memory can be accessed
    var mem: Memory           // the space the segments are in

    constructor (iov: seq<Iovec>, offset: int, resid: nat, rw: Direction, user: bool, mapped: nat -> bool, mem: Memory)
      requires resid == |Addrs(iov)| && (user ==> InWords(iov))
      ensures Valid() && Now() == View(mem, Addrs(iov), offset)
      ensures this.rw == rw && this.user == user && this.mapped == mapped && this.resid == resid
    {
      this.iov, this.offset, this.resid, this.rw := iov, offset, resid, rw;
      this.user, this.mapped, this.mem := user, mapped, mem;
    }

    /** uio_kinit */
    constructor Kinit(kbuf: nat, len: nat, pos: int, rw: Direction, mem: Memory)
      ensures Valid() && Now() == View(mem, Range(kbuf, len), pos) && this.rw == rw && !user && resid == len
    {
      iov, offset, resid, this.rw, user, this.mem := [Iovec(kbuf, len)], pos, len, rw, false, mem;
      mapped := a => true;
      new;
      assert Addrs(iov) == Range(kbuf, len) + Addrs([]);
    }

    /** uio_resid is the total length of the segments; user addresses and lengths are
        32-bit words. */
    ghost predicate Valid()
      reads this
    {
      resid == |Addrs(iov)| && (user ==> InWords(iov))
    }

    ghost function Now(): View
      reads this
    {
      View(mem, Addrs(iov), offset)
    }

    /** A byte there can be copied. */
    ghost predicate Fine(a: nat) {
      !user || (a < USERSPACETOP && mapped(a))
    }

    ghost predicate FineRange(base: nat, n: nat) {
      forall a: nat :: base <= a < base + n ==> Fine(a)
    }

    /** All of the first n bytes, or as many as there are, can be copied. */
    ghost predicate AllFine(v: View, n: nat) {
      forall i :: 0 <= i < n && i < |v.addrs| ==> Fine(v.addrs[i])
    }

    /** After sent bytes a copy of n in all stopped, torn bytes further on: at the first
        byte that cannot be copied, or before a chunk that runs out of user space. */
    ghost predicate StopsAt(v: View, n: nat, sent: nat, torn: nat) {
      && sent + torn < n && sent + torn < |v.addrs| && AllFine(v, sent + torn)
      && (!Fine(v.addrs[sent + torn]) || (torn == 0 && Beyond(v, n, sent)))
    }

    ghost predicate Beyond(v: View, n: nat, from: nat) {
      exists i :: from <= i < n && i < |v.addrs| && v.addrs[i] >= USERSPACETOP
    }

    /** The first segment gives up size bytes at its front. */
    method Advance(size: nat)
      requires Valid() && iov != [] && size <= iov[0].len && (user ==> iov[0].base + size < 0x1_0000_0000)
      modifies this`iov, this`resid, this`offset
      ensures Valid() && resid == old(resid) - size && offset == old(offset) + size
              && Now() == Advanced(old(Now()), size)
      ensures old(Addrs(iov)) == Range(old(iov[0].base), size) + Addrs(iov)
    {
      AddrsHead(iov, size);
      ghost var all := Addrs(iov);
      iov := [Iovec(iov[0].base + size, iov[0].len - size)] + iov[1..];
      resid := resid - size;
      offset := offset + size;
      assert all[size..] == Addrs(iov);
    }

    /** Empty segments are stepped over; while bytes remain there is another segment. */
    method Skip() returns (ok: bool)
      requires Valid() && resid > 0
      modifies this`iov
      ensures ok && Valid() && iov != [] && iov[0].len > 0 && Now() == old(Now())
    {
      while iov[0].len == 0
        invariant iov != [] && Addrs(iov) == old(Addrs(iov)) && (user ==> InWords(iov))
        decreases |iov|
      {
        assert Addrs(iov) == Range(iov[0].base, 0) + Addrs(iov[1..]);
        iov := iov[1..];
        if |iov| == 0 { return false; }
      }
      return true;
    }

    /** The copy of one turn to the first segment; torn bytes are written if it fails. */
    method CopyTo(part: seq<Byte>) returns (ok: bool, ghost torn: nat)
      requires Valid() && iov != [] && 0 < |part| <= iov[0].len
      modifies this`mem
      ensures torn <= |part| && mem == Store(old(mem), Range(iov[0].base, torn), part[..torn])
      ensures ok <==> FineRange(iov[0].base, |part|)
      ensures if ok then torn == |part| else torn < |part|
      ensures !ok ==> FineRange(iov[0].base, torn)
      ensures !ok ==> !Fine(iov[0].base + torn) || (torn == 0 && iov[0].base + |part| > USERSPACETOP)
      ensures ok && user ==> iov[0].base + |part| < 0x1_0000_0000
    {
      assert part[..|part|] == part;
      if user {
        mem, ok, torn := WriteOut(mem, mapped, iov[0].base, part);
        FineIsReachable(iov[0].base, |part|);
        if 0 < torn < |part| { FineIsReachable(iov[0].base, torn); }
      } else {
        mem := MoveTo(mem, iov[0].base, part);
        return true, |part|;
      }
    }

    /** One turn of the loop: to the next segment with room, and as much as fits there. */
    method SendNext(rest: seq<Byte>) returns (r: Outcome, size: nat, ghost torn: nat)
      requires Valid() && resid > 0 && rest != []
      modifies this`iov, this`offset, this`resid, this`mem
      ensures Valid() && size + torn <= |rest| && resid + size == old(resid) && offset == old(offset) + size
      ensures r == Done || r == Fault
      ensures r == Done ==> size > 0 && torn == 0 && Now() == Sent(old(Now()), rest[..size])
                            && AllFine(old(Now()), size)
      ensures r == Fault ==> size == 0 && torn < |rest| && torn < old(resid) && Now() == Torn(old(Now()), rest[..torn])
                             && !AllFine(old(Now()), |rest|) && StopsAt(old(Now()), |rest|, 0, torn)
    {
      r, size, torn := OutOfBuffers, 0, 0;
      var ok := Skip();
      if !ok { return; }
      r, size, torn := SendHere(rest);
    }

    /** As much as fits in the first segment, which is not empty. */
    method SendHere(rest: seq<Byte>) returns (r: Outcome, size: nat, ghost torn: nat)
      requires Valid() && resid > 0 && rest != [] && iov != [] && iov[0].len > 0
      modifies this`iov, this`offset, this`resid, this`mem
      ensures Valid() && size + torn <= |rest| && resid + size == old(resid) && offset == old(offset) + size
      ensures r == Done || r == Fault
      ensures r == Done ==> size > 0 && torn == 0 && Now() == Sent(old(Now()), rest[..size])
                            && AllFine(old(Now()), size)
      ensures r == Fault ==> size == 0 && torn < |rest| && torn < old(resid) && Now() == Torn(old(Now()), rest[..torn])
                             && !AllFine(old(Now()), |rest|) && StopsAt(old(Now()), |rest|, 0, torn)
    {
      ghost var v, base := Now(), iov[0].base;
      var n := Min(iov[0].len, |rest|);
      AddrsHead(iov, n);
      ghost var after := Addrs([Iovec(base + n, iov[0].len - n)] + iov[1..]);
      FineChunk(v, base, n, after);
      var ok;
      ok, torn := CopyTo(rest[..n]);
      if !ok {
        StopsInChunk(v, base, n, after, |rest|, torn);
        TornChunk(v, base, n, after, rest[..n], torn);
        assert rest[..n][..torn] == rest[..torn];
        return Fault, 0, torn;
      }
      Advance(n);
      SentChunk(v, base, Addrs(iov), rest[..n]);
      assert rest[..n][..n] == rest[..n];
      return Done, n, 0;
    }

    lemma FineIsReachable(base: nat, n: nat)
      requires user && n > 0
      ensures FineRange(base, n) <==> base + n <= USERSPACETOP && Reachable(mapped, base, n)
    {
      if FineRange(base, n) {
        assert Fine(base + n - 1);
        forall x: nat | base <= x < base + n
          ensures mapped(x)
        {
          assert Fine(x);
        }
      }
    }

    lemma StopsInChunk(v: View, base: nat, n: nat, after: seq<nat>, all: nat, torn: nat)
      requires v.addrs == Range(base, n) + after && torn < n <= all && FineRange(base, torn)
      requires !Fine(base + torn) || (torn == 0 && base + n > USERSPACETOP)
      ensures StopsAt(v, all, 0, torn)
    {
      assert forall i :: 0 <= i < n ==> v.addrs[i] == base + i;
      assert v.addrs[torn] == base + torn && v.addrs[n - 1] == base + n - 1;
    }

    lemma FineChunk(v: View, base: nat, n: nat, rest: seq<nat>)
      requires v.addrs == Range(base, n) + rest
      ensures AllFine(v, n) <==> FineRange(base, n)
    {
      assert forall i :: 0 <= i < n ==> v.addrs[i] == base + i;
      if AllFine(v, n) {
        forall a: nat | base <= a < base + n
          ensures Fine(a)
        {
          assert Fine(v.addrs[a - base]);
        }
      }
    }

    /** The turn that follows sent bytes of data. */
    method SendFrom(data: seq<Byte>, ghost v: View, sent: nat) returns (r: Outcome, size: nat, ghost torn: nat)
      requires Valid() && resid > 0 && sent < |data| && sent <= |v.addrs|
      requires SentUpTo(v, Now(), data, sent) && AllFine(v, sent)
      modifies this`iov, this`offset, this`resid, this`mem
      ensures Valid() && sent + size + torn <= |data| && resid + size == old(resid) && offset == old(offset) + size
      ensures r == Done || r == Fault
      ensures r == Done ==> size > 0 && torn == 0 && SentUpTo(v, Now(), data, sent + size) && AllFine(v, sent + size)
      ensures r == Fault ==> size == 0 && torn < old(resid) && sent + torn < |data| && !AllFine(v, |data|)
                             && Stopped(v, Now(), data, sent, torn) && StopsAt(v, |data|, sent, torn)
    {
      ghost var w := Now();
      r, size, torn := SendNext(data[sent..]);
      FineNext(v, w, data, sent, size);
      if r == Fault { StopsLater(v, w, data, sent, torn); }
      SentNext(v, data, sent, size);
      Resliced(data, sent, torn);
    }

    /** The loop of uiomove, sending data. */
    method SendAll(data: seq<Byte>) returns (r: Outcome, sent: nat, ghost torn: nat)
      requires Valid()
      modifies this`iov, this`offset, this`resid, this`mem
      ensures Valid() && sent <= |data| && resid + sent == old(resid) && offset == old(offset) + sent
      ensures r == Done || r == Fault
      ensures r == Done ==> (sent == |data| || resid == 0) && SentUpTo(old(Now()), Now(), data, sent)
                            && AllFine(old(Now()), sent)
      ensures r == Fault ==> sent + torn < |data| && torn < resid && !AllFine(old(Now()), |data|)
                             && Stopped(old(Now()), Now(), data, sent, torn) && StopsAt(old(Now()), |data|, sent, torn)
    {
      ghost var v := Now();
      var n: nat := |data|;
      sent, torn := 0, 0;
      while n > 0 && resid > 0
        invariant Valid() && n + sent == |data| && resid + sent == old(resid) && offset == old(offset) + sent
        invariant SentUpTo(v, Now(), data, sent) && AllFine(v, sent)
        decreases n
      {
        var size;
        r, size, torn := SendFrom(data, v, sent);
        if r != Done { return; }
        n := n - size;
        sent := sent + size;
      }
      r := Done;
    }

    /** uiomove of data out to the segments (uio_rw is UIO_READ). It sends all that there
        is room for exactly if every byte of it can be copied. If not, what is accounted
        for is a prefix of data, and torn more bytes of it are written. */
    method MoveOut(data: seq<Byte>) returns (r: Outcome, ghost sent: nat, ghost torn: nat)
      requires Valid() && rw == Read
      modifies this`iov, this`offset, this`resid, this`mem
      ensures Valid() && resid + sent == old(resid) && offset + resid == old(offset + resid)
      ensures r == Done || r == Fault
      ensures r == Done <==> AllFine(old(Now()), |data|)
      ensures r == Done ==> sent == Min(|data|, old(resid)) && Now() == Sent(old(Now()), data)
      ensures r == Fault ==> torn < resid && sent + torn < |data| && Stopped(old(Now()), Now(), data, sent, torn)
                             && StopsAt(old(Now()), |data|, sent, torn)
    {
      ghost var v := Now();
      r, sent, torn := SendAll(data);
      SentPrefix(v, data);
    }

    lemma FineNext(v: View, w: View, data: seq<Byte>, sent: nat, size: nat)
      requires sent <= |data| && sent <= |v.addrs| && w == Sent(v, data[..sent]) && AllFine(v, sent)
      ensures AllFine(w, size) ==> AllFine(v, sent + size)
      ensures !AllFine(w, |data| - sent) ==> !AllFine(v, |data|)
    {
      assert w.addrs == v.addrs[sent..];
      assert forall i :: 0 <= i < |w.addrs| ==> w.addrs[i] == v.addrs[sent + i];
      assert forall i :: sent <= i < |v.addrs| ==> v.addrs[i] == w.addrs[i - sent];
    }

    lemma StopsLater(v: View, w: View, data: seq<Byte>, sent: nat, torn: nat)
      requires sent <= |data| && sent <= |v.addrs| && w == Sent(v, data[..sent]) && AllFine(v, sent)
      requires StopsAt(w, |data| - sent, 0, torn)
      ensures StopsAt(v, |data|, sent, torn)
    {
      FineNext(v, w, data, sent, torn);
      assert w.addrs == v.addrs[sent..];
      assert w.addrs[torn] == v.addrs[sent + torn];
      if torn == 0 && Beyond(w, |data| - sent, 0) {
        var i :| 0 <= i < |data| - sent && i < |w.addrs| && w.addrs[i] >= USERSPACETOP;
        assert v.addrs[sent + i] == w.addrs[i];
      }
    }

    /** The copy of one turn from the first segment; if it fails, part is what the kernel's
        buffer has got. */
    method CopyFrom(size: nat) returns (ok: bool, part: seq<Byte>)
      requires Valid() && iov != [] && 0 < size <= iov[0].len
      ensures ok <==> FineRange(iov[0].base, size)
      ensures part == Load(mem, Range(iov[0].base, |part|)) && if ok then |part| == size else |part| < size
      ensures ok && user ==> iov[0].base + size < 0x1_0000_0000
      ensures !ok ==> FineRange(iov[0].base, |part|)
      ensures !ok ==> !Fine(iov[0].base + |part|) || (part == [] && iov[0].base + size > USERSPACETOP)
    {
      if user {
        ok, part := ReadIn(mem, mapped, iov[0].base, size);
        FineIsReachable(iov[0].base, size);
        if 0 < |part| < size { FineIsReachable(iov[0].base, |part|); }
      } else {
        part := MoveFrom(mem, iov[0].base, size);
        ok := true;
      }
    }

    /** One turn of the loop, taking bytes in; torn is what a failing copy has got. */
    method TakeNext(n: nat) returns (r: Outcome, part: seq<Byte>, torn: seq<Byte>)
      requires Valid() && resid > 0 && n > 0
      modifies this`iov, this`offset, this`resid
      ensures Valid() && |part| <= n && resid + |part| == old(resid) && offset == old(offset) + |part|
      ensures r == Done || r == Fault
      ensures part == Taken(old(Now()), |part|) && Now() == Advanced(old(Now()), |part|)
      ensures r == Done ==> part != [] && torn == [] && AllFine(old(Now()), |part|)
      ensures r == Fault ==> part == [] && torn == Taken(old(Now()), |torn|) && !AllFine(old(Now()), n)
                             && StopsAt(old(Now()), n, 0, |torn|)
    {
      r, part, torn := OutOfBuffers, [], [];
      var ok := Skip();
      if !ok { return; }
      r, part, torn := TakeHere(n);
    }

    method TakeHere(n: nat) returns (r: Outcome, part: seq<Byte>, torn: seq<Byte>)
      requires Valid() && resid > 0 && n > 0 && iov != [] && iov[0].len > 0
      modifies this`iov, this`offset, this`resid
      ensures Valid() && |part| <= n && resid + |part| == old(resid) && offset == old(offset) + |part|
      ensures r == Done || r == Fault
      ensures part == Taken(old(Now()), |part|) && Now() == Advanced(old(Now()), |part|)
      ensures r == Done ==> part != [] && torn == [] && AllFine(old(Now()), |part|)
      ensures r == Fault ==> part == [] && torn == Taken(old(Now()), |torn|) && !AllFine(old(Now()), n)
                             && StopsAt(old(Now()), n, 0, |torn|)
    {
      ghost var v, base := Now(), iov[0].base;
      var size := Min(iov[0].len, n);
      AddrsHead(iov, size);
      ghost var after := Addrs([Iovec(base + size, iov[0].len - size)] + iov[1..]);
      FineChunk(v, base, size, after);
      var ok;
      ok, torn := CopyFrom(size);
      if !ok {
        StopsInChunk(v, base, size, after, n, |torn|);
        TakenPart(v, base, size, after, |torn|);
        return Fault, [], torn;
      }
      Advance(size);
      TakenChunk(v, base, Addrs(iov), size);
      return Done, torn, [];
    }

    /** uiomove of n bytes in from the segments (uio_rw is UIO_WRITE). What is accounted for
        is data; on a fault the kernel's buffer holds the bytes of torn behind it. */
    method MoveIn(n: nat) returns (r: Outcome, data: seq<Byte>, torn: seq<Byte>)
      requires Valid() && rw == Write
      modifies this`iov, this`offset, this`resid
      ensures Valid() && |data| <= n && data == Taken(old(Now()), |data|) && Now() == Advanced(old(Now()), |data|)
      ensures resid + |data| == old(resid) && offset + resid == old(offset + resid)
      ensures r == Done || r == Fault
      ensures r == Done <==> AllFine(old(Now()), n)
      ensures r == Done ==> |data| == Min(n, old(resid)) && data == Taken(old(Now()), n)
                            && Now() == Advanced(old(Now()), n) && torn == []
      ensures r == Fault ==> torn == Taken(Now(), |torn|) && StopsAt(old(Now()), n, |data|, |torn|)
    {
      ghost var v := Now();
      data := [];
      while |data| < n && resid > 0
        invariant Valid() && |data| <= n && resid + |data| == old(resid) && offset == old(offset) + |data|
        invariant data == Taken(v, |data|) && Now() == Advanced(v, |data|) && AllFine(v, |data|)
        decreases n - |data|
      {
        var part;
        r, part, torn := TakeAt(v, |data|, n);
        if r != Done { return; }
        data := data + part;
      }
      return Done, data, [];
    }

    /** The turn that follows bytes already taken. */
    method TakeAt(ghost v: View, taken: nat, n: nat) returns (r: Outcome, part: seq<Byte>, torn: seq<Byte>)
      requires Valid() && resid > 0 && taken < n && taken <= |v.addrs|
      requires Now() == Advanced(v, taken) && AllFine(v, taken)
      modifies this`iov, this`offset, this`resid
      ensures Valid() && taken + |part| <= n && resid + |part| == old(resid) && offset == old(offset) + |part|
      ensures r == Done || r == Fault
      ensures Taken(v, taken + |part|) == Taken(v, taken) + part && Now() == Advanced(v, taken + |part|)
      ensures r == Done ==> part != [] && AllFine(v, taken + |part|)
      ensures r == Fault ==> part == [] && torn == Taken(Now(), |torn|) && !AllFine(v, n)
                             && StopsAt(v, n, taken, |torn|)
    {
      ghost var w := Now();
      r, part, torn := TakeNext(n - taken);
      FineAhead(v, w, taken, |part|, n);
      TakenInParts(v, taken, |part|);
      if r == Fault { StopsAhead(v, w, taken, n, |torn|); }
    }

    lemma StopsAhead(v: View, w: View, taken: nat, n: nat, torn: nat)
      requires taken <= n && taken <= |v.addrs| && w == Advanced(v, taken) && AllFine(v, taken)
      requires StopsAt(w, n - taken, 0, torn)
      ensures StopsAt(v, n, taken, torn)
    {
      FineAhead(v, w, taken, torn, n);
      assert w.addrs[torn] == v.addrs[taken + torn];
      if torn == 0 && Beyond(w, n - taken, 0) {
        var i :| 0 <= i < n - taken && i < |w.addrs| && w.addrs[i] >= USERSPACETOP;
        assert v.addrs[taken + i] == w.addrs[i];
      }
    }

    lemma FineAhead(v: View, w: View, taken: nat, size: nat, n: nat)
      requires taken <= n && taken <= |v.addrs| && w == Advanced(v, taken) && AllFine(v, taken)
      ensures AllFine(w, size) ==> AllFine(v, taken + size)
      ensures !AllFine(w, n - taken) ==> !AllFine(v, n)
    {
      assert w.addrs == v.addrs[taken..];
      assert forall i :: 0 <= i < |w.addrs| ==> w.addrs[i] == v.addrs[taken + i];
      assert forall i :: taken <= i < |v.addrs| ==> v.addrs[i] == w.addrs[i - taken];
    }

    method SendZeros(amt: nat) returns (r: Outcome, ghost sent: nat, ghost torn: nat)
      requires Valid() && rw == Read
      modifies this`iov, this`offset, this`resid, this`mem
      ensures Valid() && offset + resid == old(offset + resid)
      ensures r == Done || r == Fault
      ensures r == Done ==> ZerosUpTo(old(Now()), Now(), amt) && sent == amt && torn == 0
      ensures r == Fault ==> sent + torn < amt && ZerosStopped(old(Now()), Now(), sent, torn)
      ensures r == Done <==> AllFine(old(Now()), amt)
    {
      r, sent, torn := MoveOut(Zeros(amt));
      if r == Done { sent, torn := amt, 0; }
      assert Zeros(amt)[..sent] == Zeros(sent) && Zeros(amt)[sent..sent + torn] == Zeros(torn);
    }

    /** The turn that follows sent zeros. */
    method SendZerosFrom(ghost v: View, ghost sent: nat, amt: nat, ghost count: nat)
      returns (r: Outcome, ghost sent': nat, ghost torn: nat)
      requires Valid() && rw == Read && ZerosUpTo(v, Now(), sent) && AllFine(v, sent) && sent + amt <= count
      modifies this`iov, this`offset, this`resid, this`mem
      ensures Valid() && offset + resid == old(offset + resid)
      ensures r == Done || r == Fault
      ensures r == Done ==> sent' == sent + amt && ZerosUpTo(v, Now(), sent') && AllFine(v, sent')
      ensures r == Fault ==> sent' + torn < count && ZerosStopped(v, Now(), sent', torn) && !AllFine(v, count)
    {
      ghost var w := Now();
      ghost var k;
      r, k, torn := SendZeros(amt);
      ZerosFine(v, w, sent, amt, count);
      sent' := sent + k;
      if r == Done {
        ZerosFollow(v, w, Now(), sent, amt);
      } else {
        ZerosThenStopped(v, w, Now(), sent, k, torn);
      }
    }

    /** uiomovezeros: sixteen zeros at a time. */
    method MoveZeros(count: nat) returns (r: Outcome, ghost sent: nat, ghost torn: nat)
      requires Valid() && rw == Read
      modifies this`iov, this`offset, this`resid, this`mem
      ensures Valid() && offset + resid == old(offset + resid)
      ensures r == Done || r == Fault
      ensures r == Done <==> AllFine(old(Now()), count)
      ensures r == Done ==> ZerosUpTo(old(Now()), Now(), count)
      ensures r == Fault ==> sent + torn < count && ZerosStopped(old(Now()), Now(), sent, torn)
    {
      ghost var v := Now();
      var n := count;
      sent, torn := 0, 0;
      NoZeros(v);
      while n > 0
        invariant sent + n == count && Valid() && offset + resid == old(offset + resid)
        invariant ZerosUpTo(v, Now(), sent) && AllFine(v, sent)
      {
        var amt := if 16 > n then n else 16;
        r, sent, torn := SendZerosFrom(v, sent, amt, count);
        if r != Done { return; }
        n := n - amt;
      }
      r := Done;
    }

    lemma ZerosFine(v: View, w: View, sent: nat, amt: nat, count: nat)
      requires ZerosUpTo(v, w, sent) && AllFine(v, sent) && sent + amt <= count
      ensures AllFine(w, amt) ==> AllFine(v, sent + amt)
      ensures !AllFine(w, amt) ==> !AllFine(v, count)
    {
      if sent <= |v.addrs| {
        assert w.addrs == v.addrs[sent..];
        assert forall i :: 0 <= i < |w.addrs| ==> w.addrs[i] == v.addrs[sent + i];
        assert forall i :: sent <= i < |v.addrs| ==> v.addrs[i] == w.addrs[i - sent];
      }
    }
  }

  ghost predicate ZerosUpTo(v: View, w: View, n: nat) {
    w == Sent(v, Zeros(n))
  }

  ghost predicate ZerosStopped(v: View, w: View, n: nat, torn: nat) {
    w == Torn(Sent(v, Zeros(n)), Zeros(torn))
  }

  lemma NoZeros(v: View)
    ensures ZerosUpTo(v, v, 0)
  {}

  lemma ZerosFollow(v: View, w: View, x: View, n: nat, m: nat)
    requires ZerosUpTo(v, w, n) && ZerosUpTo(w, x, m)
    ensures ZerosUpTo(v, x, n + m)
  {
    ZerosSent(v, n, m);
  }

  lemma ZerosThenStopped(v: View, w: View, x: View, n: nat, m: nat, torn: nat)
    requires ZerosUpTo(v, w, n) && ZerosStopped(w, x, m, torn)
    ensures ZerosStopped(v, x, n + m, torn)
  {
    ZerosSent(v, n, m);
  }

  lemma ZerosSent(v: View, n: nat, m: nat)
    ensures Sent(Sent(v, Zeros(n)), Zeros(m)) == Sent(v, Zeros(n + m))
  {
    SentInParts(v, Zeros(n), Zeros(m));
    assert Zeros(n) + Zeros(m) == Zeros(n + m);
  }

  function Zeros(n: nat): (z: seq<Byte>)
    ensures |z| == n && forall i :: 0 <= i < n ==> z[i] == 0
  {
    seq(n, _ => 0)
  }
}

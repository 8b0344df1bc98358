// One page of the kernel heap: blocks of one size, the free ones chained through
// their own first words.
module HeapPage {
  import opened Basics
  import opened Arith

  /** Words of memory, by address; a word never written reads as zero. */
  type Memory = map<nat, nat>

  function Read(m: Memory, a: nat): nat {
    if a in m then m[a] else 0
  }

  /** sizes[] */
  function BlockSize(b: nat): (n: nat)
    requires b < 8
    ensures 16 <= n <= 2048
  {
    [16, 32, 64, 128, 256, 512, 1024, 2048][b]
  }

  /** Blocks on a page of type b. */
  function Blocks(b: nat): (n: nat)
    requires b < 8
    ensures 2 <= n <= 256
  {
    4096 / BlockSize(b)
  }

  lemma BlocksFill(b: nat)
    requires b < 8
    ensures Blocks(b) * BlockSize(b) == 4096
  {}

  /** x is a multiple of n. */
  predicate Divides(n: nat, x: nat)
    requires n > 0
  {
    if x < n then x == 0 else Divides(n, x - n)
  }

  lemma {:induction false} DividesIsMod(n: nat, x: nat)
    requires n > 0
    ensures Divides(n, x) <==> x % n == 0
  {
    if x >= n {
      DividesIsMod(n, x - n);
      DivBounds(x - n, n);
      var q, r := (x - n) / n, (x - n) % n;
      Distr(q, 1, n);
      DivIs(x, n, q + 1, r);
    }
  }

  /** An offset at which a block of type b starts. */
  predicate IsBlock(b: nat, off: nat)
    requires b < 8
  {
    off < 4096 && Divides(BlockSize(b), off)
  }

  const INVALID_OFFSET := 0xffff

  /** chain lists the free blocks' offsets from freelist_offset on: distinct blocks of
      the page, each pointing at the next, the last at NULL. */
  ghost predicate IsChain(m: Memory, base: nat, b: nat, first: nat, nfree: nat, chain: seq<nat>) {
    && BlockSet(b, chain) && |chain| == nfree
    && first == (if chain == [] then INVALID_OFFSET else chain[0])
    && forall i :: 0 <= i < |chain| ==> PointsOn(m, base, chain, i)
  }

  /** The i-th free block points at the next, or the last at NULL. */
  ghost predicate PointsOn(m: Memory, base: nat, chain: seq<nat>, i: nat)
    requires i < |chain|
  {
    Read(m, base + chain[i]) == if i + 1 < |chain| then base + chain[i + 1] else 0
  }

  /** A write elsewhere than to a free block leaves the chain. */
  lemma ChainFrame(m: Memory, m': Memory, base: nat, b: nat, first: nat, nfree: nat, chain: seq<nat>)
    requires IsChain(m, base, b, first, nfree, chain)
    requires forall i :: 0 <= i < |chain| ==> Read(m', base + chain[i]) == Read(m, base + chain[i])
    ensures IsChain(m', base, b, first, nfree, chain)
  {
    forall i | 0 <= i < |chain|
      ensures PointsOn(m', base, chain, i)
    {
      assert PointsOn(m, base, chain, i);
    }
  }

  /** The two memories agree outside the n bytes at a. */
  ghost predicate SameOutside(m: Memory, m': Memory, a: nat, n: nat) {
    forall x: nat | x < a || a + n <= x :: Read(m', x) == Read(m, x)
  }

  /** Changes within another page leave the chain. */
  lemma ChainElsewhere(m: Memory, m': Memory, other: nat, base: nat, b: nat, first: nat, nfree: nat, chain: seq<nat>)
    requires IsChain(m, base, b, first, nfree, chain) && SameOutside(m, m', other, 4096)
    requires other + 4096 <= base || base + 4096 <= other
    ensures IsChain(m', base, b, first, nfree, chain)
  {
    forall i | 0 <= i < |chain|
      ensures Read(m', base + chain[i]) == Read(m, base + chain[i])
    {
      assert IsBlock(b, chain[i]);
    }
    ChainFrame(m, m', base, b, first, nfree, chain);
  }

  /** Putting a block at the head of the chain, as kfree does. */
  lemma ChainPush(m: Memory, m': Memory, base: nat, b: nat, first: nat, nfree: nat, chain: seq<nat>, off: nat)
    requires IsChain(m, base, b, first, nfree, chain) && IsBlock(b, off) && off !in chain
    requires forall i :: 0 <= i < |chain| ==> Read(m', base + chain[i]) == Read(m, base + chain[i])
    requires Read(m', base + off) == if chain == [] then 0 else base + first
    ensures IsChain(m', base, b, off, nfree + 1, [off] + chain)
  {
    var c := [off] + chain;
    forall i | 0 <= i < |c|
      ensures PointsOn(m', base, c, i)
    {
      if i > 0 { assert c[i] == chain[i - 1] && PointsOn(m, base, chain, i - 1); }
    }
  }

  /** Offsets of distinct blocks: a predicate that keeps the arithmetic out of sight. */
  ghost predicate BlockSet(b: nat, chain: seq<nat>) {
    b < 8 && Distinct(chain) && forall i :: 0 <= i < |chain| ==> IsBlock(b, chain[i])
  }

  ghost predicate AllBlocks(b: nat, chain: seq<nat>) {
    b < 8 && forall off :: IsBlock(b, off) ==> off in chain
  }

  lemma MultiplesApart(b: nat, x: nat, y: nat)
    requires b < 8 && IsBlock(b, x) && IsBlock(b, y) && x != y
    ensures x + BlockSize(b) <= y || y + BlockSize(b) <= x
  {
    var n := BlockSize(b);
    var i, j := x / n, y / n;
    DividesIsMod(n, x);
    DividesIsMod(n, y);
    assert x == i * n && y == j * n;
    Mono(i + 1, j, n);
    Mono(j + 1, i, n);
    Distr(i, 1, n);
    Distr(j, 1, n);
  }

  lemma WithinPage(b: nat, off: nat)
    requires b < 8 && IsBlock(b, off)
    ensures off + BlockSize(b) <= 4096
  {
    var n := BlockSize(b);
    DividesIsMod(n, off);
    BlocksFill(b);
    assert off == off / n * n;
    Cancel(off / n, Blocks(b), n);
    Mono(off / n + 1, Blocks(b), n);
    Distr(off / n, 1, n);
  }

  /** A block written over and put at the head of the chain. */
  lemma ChainPut(m: Memory, m': Memory, base: nat, b: nat, first: nat, nfree: nat, chain: seq<nat>, off: nat)
    requires IsChain(m, base, b, first, nfree, chain) && IsBlock(b, off) && off !in chain
    requires SameOutside(m, m', base + off, BlockSize(b))
    requires Read(m', base + off) == if chain == [] then 0 else base + first
    ensures IsChain(m', base, b, off, nfree + 1, [off] + chain) && SameOutside(m, m', base, 4096)
    ensures nfree + 1 <= Blocks(b)
  {
    WithinPage(b, off);
    forall i | 0 <= i < |chain|
      ensures Read(m', base + chain[i]) == Read(m, base + chain[i])
    {
      MultiplesApart(b, off, chain[i]);
    }
    ChainPush(m, m', base, b, first, nfree, chain, off);
    ChainFits(b, [off] + chain);
  }

  /** Distinct blocks are at most as many as the page has, and exactly as many only if
      they are all of them. */
  lemma ChainFits(b: nat, chain: seq<nat>)
    requires BlockSet(b, chain)
    ensures |chain| <= Blocks(b) && (|chain| == Blocks(b) <==> AllBlocks(b, chain))
  {
    var all := PageOffsets(b);
    DistinctSize(chain);
    SubsetSize(Members(chain), all);
    assert AllBlocks(b, chain) <==> all <= Members(chain);
    if all <= Members(chain) { assert all == Members(chain); }
  }

  /** The offsets of all blocks of a page. */
  lemma PageOffsets(b: nat) returns (all: set<nat>)
    requires b < 8
    ensures |all| == Blocks(b) && forall off :: off in all <==> IsBlock(b, off)
  {
    all := Offsets(b, Blocks(b));
    OffsetsSize(b, Blocks(b));
    forall off: nat
      ensures off in all <==> IsBlock(b, off)
    {
      if off in all { OffsetsAreBlocks(b, Blocks(b), off); }
      if IsBlock(b, off) { OffsetIsMultiple(b, off); }
    }
  }

  /** The offsets of the first n blocks. */
  ghost function Offsets(b: nat, n: nat): set<nat>
    requires b < 8
  {
    if n == 0 then {} else Offsets(b, n - 1) + {(n - 1) * BlockSize(b)}
  }

  lemma {:induction false} OffsetsAreBlocks(b: nat, n: nat, x: nat)
    requires b < 8 && n <= Blocks(b) && x in Offsets(b, n)
    ensures IsBlock(b, x) && x < n * BlockSize(b)
  {
    if x == (n - 1) * BlockSize(b) {
      MultipleIsBlock(b, n - 1);
    } else {
      OffsetsAreBlocks(b, n - 1, x);
    }
  }

  lemma MultipleIsBlock(b: nat, k: nat)
    requires b < 8 && k < Blocks(b)
    ensures IsBlock(b, k * BlockSize(b))
  {
    var n := BlockSize(b);
    BlocksFill(b);
    Mono(k + 1, Blocks(b), n);
    Distr(k, 1, n);
    DivIs(k * n, n, k, 0);
    DividesIsMod(n, k * n);
  }

  lemma {:induction false} OffsetsSize(b: nat, n: nat)
    requires b < 8 && n <= Blocks(b)
    ensures |Offsets(b, n)| == n
  {
    if n > 0 {
      OffsetsSize(b, n - 1);
      if (n - 1) * BlockSize(b) in Offsets(b, n - 1) {
        OffsetsAreBlocks(b, n - 1, (n - 1) * BlockSize(b));
      }
    }
  }

  lemma {:induction false} OffsetsHave(b: nat, n: nat, k: nat)
    requires b < 8 && k < n
    ensures k * BlockSize(b) in Offsets(b, n)
  {
    if k < n - 1 { OffsetsHave(b, n - 1, k); }
  }

  lemma OffsetIsMultiple(b: nat, off: nat)
    requires b < 8 && IsBlock(b, off)
    ensures off in Offsets(b, Blocks(b))
  {
    var n := BlockSize(b);
    var k := off / n;
    DividesIsMod(n, off);
    BlocksFill(b);
    assert off == k * n;
    Cancel(k, Blocks(b), n);
    OffsetsHave(b, Blocks(b), k);
  }

  lemma {:induction false} SubsetSize(a: set<nat>, c: set<nat>)
    requires a <= c
    ensures |a| <= |c| && (|a| == |c| ==> a == c)
  {
    if a != {} {
      var x :| x in a;
      SubsetSize(a - {x}, c - {x});
      assert a == (a - {x}) + {x} && c == (c - {x}) + {x};
    }
  }

  /** The chain of a fresh page: the blocks from the last to the first. */
  ghost function Downward(b: nat, n: nat): (chain: seq<nat>)
    requires b < 8
    ensures |chain| == n && forall i :: 0 <= i < n ==> chain[i] == (n - 1 - i) * BlockSize(b)
  {
    if n == 0 then [] else [(n - 1) * BlockSize(b)] + Downward(b, n - 1)
  }

  lemma {:induction false} DownwardIsSet(b: nat, n: nat)
    requires b < 8 && n <= Blocks(b)
    ensures BlockSet(b, Downward(b, n))
    ensures forall i :: 0 <= i < n ==> Downward(b, n)[i] < n * BlockSize(b)
  {
    if n > 0 {
      DownwardIsSet(b, n - 1);
      MultipleIsBlock(b, n - 1);
      var rest := Downward(b, n - 1);
      assert forall i :: 0 <= i < n - 1 ==> rest[i] < (n - 1) * BlockSize(b);
      Distr(n - 1, 1, BlockSize(b));
    }
  }

  /** The loop that threads a fresh page's blocks into a chain, each pointing at the one
      below it; returns the offset of the last. */
  method Carve(m: Memory, base: nat, b: nat) returns (m': Memory, first: nat)
    requires b < 8
    ensures IsChain(m', base, b, first, Blocks(b), Downward(b, Blocks(b))) && first == (Blocks(b) - 1) * BlockSize(b)
    ensures SameOutside(m, m', base, 4096)
  {
    var n, size := Blocks(b), BlockSize(b);
    m' := m[base := 0];
    first := 0;
    assert Downward(b, 1) == [0 * size] + Downward(b, 0);
    for i := 1 to n
      invariant first == (i - 1) * size && first < 4096
      invariant IsChain(m', base, b, first, i, Downward(b, i))
      invariant SameOutside(m, m', base, 4096)
    {
      ghost var before := m';
      DownwardIsSet(b, i);
      MultipleIsBlock(b, i);
      Distr(i - 1, 1, size);
      m' := m'[base + i * size := base + (i - 1) * size];
      CarveStep(before, m', base, b, i);
      first := i * size;
    }
  }

  lemma CarveStep(m: Memory, m': Memory, base: nat, b: nat, i: nat)
    requires b < 8 && 1 <= i < Blocks(b) && IsChain(m, base, b, (i - 1) * BlockSize(b), i, Downward(b, i))
    requires m' == m[base + i * BlockSize(b) := base + (i - 1) * BlockSize(b)]
    ensures IsChain(m', base, b, i * BlockSize(b), i + 1, Downward(b, i + 1))
  {
    var chain, off := Downward(b, i), i * BlockSize(b);
    DownwardIsSet(b, i);
    MultipleIsBlock(b, i);
    assert off !in chain;
    ChainPush(m, m', base, b, (i - 1) * BlockSize(b), i, chain, off);
    assert Downward(b, i + 1) == [off] + chain;
  }

  // ---------------------------------------------------------------- free or in use

  /** Address p starts a block of the page at base. */
  ghost predicate BlockAt(base: nat, b: nat, p: nat) {
    b < 8 && base <= p && IsBlock(b, p - base)
  }

  /** Each block of the page is on the chain or in a client's hands, not both. */
  ghost predicate PageLive(base: nat, b: nat, chain: seq<nat>, live: map<nat, nat>) {
    forall p: nat | BlockAt(base, b, p) :: p in live <==> p - base !in chain
  }

  ghost predicate SameBut(live: map<nat, nat>, live': map<nat, nat>, p: nat) {
    forall q | q != p :: (q in live' <==> q in live) && (q in live ==> live'[q] == live[q])
  }

  lemma PageLiveOther(base: nat, b: nat, chain: seq<nat>, live: map<nat, nat>, live': map<nat, nat>, p: nat)
    requires PageLive(base, b, chain, live) && !BlockAt(base, b, p) && SameBut(live, live', p)
    ensures PageLive(base, b, chain, live')
  {}

  lemma PageLiveTake(base: nat, b: nat, chain: seq<nat>, live: map<nat, nat>, size: nat)
    requires PageLive(base, b, chain, live) && BlockSet(b, chain) && chain != []
    ensures PageLive(base, b, chain[1..], live[base + chain[0] := size])
    ensures BlockAt(base, b, base + chain[0]) && base + chain[0] !in live
  {
    assert chain == [chain[0]] + chain[1..] && chain[0] !in chain[1..];
    assert IsBlock(b, chain[0]) && chain[0] in chain;
    assert BlockAt(base, b, base + chain[0]);
  }

  lemma PageLivePut(base: nat, b: nat, chain: seq<nat>, live: map<nat, nat>, p: nat)
    requires PageLive(base, b, chain, live) && BlockAt(base, b, p) && p in live
    ensures PageLive(base, b, [p - base] + chain, live - {p}) && p - base !in chain
  {}

  /** All blocks of the page are free exactly when no client holds one. */
  lemma AllFreeIff(base: nat, b: nat, chain: seq<nat>, live: map<nat, nat>)
    requires PageLive(base, b, chain, live) && BlockSet(b, chain)
    ensures |chain| == Blocks(b) <==> forall p: nat | BlockAt(base, b, p) :: p !in live
  {
    ChainFits(b, chain);
    if AllBlocks(b, chain) {
      forall p: nat | BlockAt(base, b, p)
        ensures p !in live
      {
        assert IsBlock(b, p - base);
      }
    } else {
      var off: nat :| IsBlock(b, off) && off !in chain;
      assert BlockAt(base, b, base + off);
    }
  }

  /** The offsets of the blocks in clients' hands: as many as are not on the chain. */
  lemma InUse(base: nat, b: nat, chain: seq<nat>, live: map<nat, nat>) returns (inUse: set<nat>)
    requires PageLive(base, b, chain, live) && BlockSet(b, chain)
    ensures |chain| + |inUse| == Blocks(b)
    ensures forall off: nat :: off in inUse <==> IsBlock(b, off) && base + off in live
  {
    var all := PageOffsets(b);
    DistinctSize(chain);
    assert Members(chain) <= all;
    inUse := all - Members(chain);
    assert all == inUse + Members(chain);
    forall off: nat
      ensures off in inUse <==> IsBlock(b, off) && base + off in live
    {
      assert IsBlock(b, off) ==> BlockAt(base, b, base + off);
    }
  }

  /** The head of the chain leaves it. */
  lemma ChainPop(m: Memory, base: nat, b: nat, first: nat, nfree: nat, chain: seq<nat>)
    requires IsChain(m, base, b, first, nfree, chain) && chain != []
    ensures IsChain(m, base, b, if |chain| == 1 then INVALID_OFFSET else chain[1], nfree - 1, chain[1..])
    ensures Read(m, base + first) == if |chain| == 1 then 0 else base + chain[1]
    ensures first < 4096 && (|chain| > 1 ==> chain[1] < 4096)
  {
    assert PointsOn(m, base, chain, 0);
    assert IsBlock(b, chain[0]) && (|chain| > 1 ==> IsBlock(b, chain[1]));
    var c := chain[1..];
    forall i | 0 <= i < |c|
      ensures PointsOn(m, base, c, i) && IsBlock(b, c[i])
    {
      assert c[i] == chain[i + 1] && PointsOn(m, base, chain, i + 1);
    }
  }
}

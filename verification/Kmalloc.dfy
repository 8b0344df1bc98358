// The kernel heap: requests below 2048 bytes come from pages of equal blocks, larger
// ones are whole pages. alloc_kpages and free_kpages are outside: what they supply and
// take back are parameters and results.
module Kmalloc {
  import opened Basics
  import opened Arith
  import opened HeapPage
  import opened RefLists
  import PageRefs

  /** Everything kmalloc keeps, with the page list, the free chains and the blocks in
      clients' hands written out. */
  datatype View = View(
    mem: Memory, refs: seq<PageRef>, sizebases: seq<int>, allbase: int,
    slots: seq<nat>,               // the pagerefs on the list of all pages, in order
    chains: map<nat, seq<nat>>,    // each one's free blocks, in order
    live: map<nat, nat>,           // block addresses handed out, with the sizes asked for
    big: map<nat, nat>)            // whole-page allocations, with their numbers of pages

  ghost function Base(h: View, s: nat): (a: nat)
    requires s < |h.refs|
    ensures a % 4096 == 0
  {
    PageAddr(h.refs[s])
  }

  ghost function Kind(h: View, s: nat): nat
    requires s < |h.refs|
  {
    BlockType(h.refs[s])
  }

  /** The all-pages list, and the list of each size as its sublist, in the same order. */
  ghost predicate ListsOk(h: View) {
    && |h.refs| == 4096 && |h.sizebases| == 8
    && Distinct(h.slots) && (forall s | s in h.slots :: s < 4096)
    && Linked(h.refs, false, h.allbase, h.slots)
    && forall b :: 0 <= b < 8 ==> Linked(h.refs, true, h.sizebases[b], OfType(h.refs, h.slots, b))
  }

  ghost predicate PageOk(h: View, s: nat)
    requires s < |h.refs|
  {
    && s in h.chains && Base(h, s) > 0
    && IsChain(h.mem, Base(h, s), Kind(h, s), h.refs[s].first, h.refs[s].nfree, h.chains[s])
  }

  ghost predicate PagesOk(h: View)
    requires |h.refs| == 4096
  {
    && (forall s | s in h.slots && s < 4096 :: PageOk(h, s))
    && forall s, t | s in h.slots && t in h.slots && s < 4096 && t < 4096 && s != t :: Base(h, s) != Base(h, t)
  }

  /** p is where a block of page s starts. */
  ghost predicate BlockOn(h: View, s: nat, p: nat)
    requires s < |h.refs|
  {
    BlockAt(Base(h, s), Kind(h, s), p)
  }

  /** A client's block is on some page, and large enough for what was asked. */
  ghost predicate Housed(h: View, p: nat)
    requires |h.refs| == 4096 && p in h.live
  {
    exists s :: s in h.slots && s < 4096 && BlockOn(h, s, p) && h.live[p] <= BlockSize(Kind(h, s))
  }

  ghost predicate LiveOk(h: View)
    requires |h.refs| == 4096 && PagesOk(h)
  {
    && (forall s | s in h.slots && s < 4096 :: PageLive(Base(h, s), Kind(h, s), h.chains[s], h.live))
    && forall p | p in h.live :: Housed(h, p)
  }

  /** A page is kept only while some block of it is in use; except may be the page that
      is about to be used or released. */
  ghost predicate NoneEmpty(h: View, except: int)
    requires |h.refs| == 4096
  {
    forall s | s in h.slots && s < 4096 && s != except :: Kind(h, s) < 8 && h.refs[s].nfree < Blocks(Kind(h, s))
  }

  /** The pages from address a on, n of them, are used by nothing here. */
  ghost predicate Unused(h: View, a: nat, n: nat)
    requires |h.refs| == 4096
  {
    && a > 0 && a % 4096 == 0
    && (forall s | s in h.slots && s < 4096 :: Base(h, s) < a || a + n * 4096 <= Base(h, s))
    && forall q | q in h.big :: a + n * 4096 <= q || q + h.big[q] * 4096 <= a
  }

  ghost predicate BigOk(h: View)
    requires |h.refs| == 4096
  {
    && (forall p | p in h.big :: p > 0 && p % 4096 == 0 && h.big[p] >= 1)
    && (forall p, s | p in h.big && s in h.slots && s < 4096 :: Base(h, s) < p || p + h.big[p] * 4096 <= Base(h, s))
    && forall p, q | p in h.big && q in h.big && p != q :: p + h.big[p] * 4096 <= q || q + h.big[q] * 4096 <= p
  }

  ghost predicate Inv(h: View, except: int) {
    ListsOk(h) && PagesOk(h) && LiveOk(h) && NoneEmpty(h, except) && BigOk(h)
  }

  // ---------------------------------------------------------------- what it gives

  /** A client's block at p, n bytes long, on a page of blocks. */
  ghost predicate SmallBlock(h: View, p: nat, n: nat)
    requires |h.refs| == 4096
  {
    exists s :: s in h.slots && s < 4096 && p in h.live && BlockOn(h, s, p) && n == BlockSize(Kind(h, s))
  }

  /** A client's whole pages at p, n bytes long. */
  ghost predicate BigBlock(h: View, p: nat, n: nat) {
    p in h.big && n == h.big[p] * 4096
  }

  /** Two blocks of one page, or of two pages, do not overlap. */
  lemma BlocksApart(h: View, s: nat, t: nat, p: nat, q: nat)
    requires |h.refs| == 4096 && PagesOk(h) && s in h.slots && t in h.slots && s < 4096 && t < 4096
    requires BlockOn(h, s, p) && BlockOn(h, t, q) && p != q
    ensures p + BlockSize(Kind(h, s)) <= q || q + BlockSize(Kind(h, t)) <= p
  {
    BlockWithin(h, s, p);
    BlockWithin(h, t, q);
    if s == t {
      MultiplesApart(Kind(h, s), p - Base(h, s), q - Base(h, s));
    } else {
      PagesApart(Base(h, s), Base(h, t));
    }
  }

  lemma BlockWithin(h: View, s: nat, p: nat)
    requires s < |h.refs| && BlockOn(h, s, p)
    ensures Base(h, s) <= p && p + BlockSize(Kind(h, s)) <= Base(h, s) + 4096
  {
    WithinPage(Kind(h, s), p - Base(h, s));
  }

  lemma PagesApart(x: nat, y: nat)
    requires x % 4096 == 0 && y % 4096 == 0 && x != y
    ensures x + 4096 <= y || y + 4096 <= x
  {}

  lemma SmallFromBig(h: View, except: int, p: nat, n: nat, q: nat, m: nat)
    requires Inv(h, except) && SmallBlock(h, p, n) && BigBlock(h, q, m)
    ensures p + n <= q || q + m <= p
  {
    var s :| s in h.slots && s < 4096 && p in h.live && BlockOn(h, s, p) && n == BlockSize(Kind(h, s));
    BlockWithin(h, s, p);
    var x, k := Base(h, s), h.big[q];
    assert x < q || q + k * 4096 <= x;
    WholePages(q, k, x);
  }

  lemma SmallFromSmall(h: View, except: int, p: nat, n: nat, q: nat, m: nat)
    requires Inv(h, except) && SmallBlock(h, p, n) && SmallBlock(h, q, m) && p != q
    ensures p + n <= q || q + m <= p
  {
    var s :| s in h.slots && s < 4096 && p in h.live && BlockOn(h, s, p) && n == BlockSize(Kind(h, s));
    var t :| t in h.slots && t < 4096 && q in h.live && BlockOn(h, t, q) && m == BlockSize(Kind(h, t));
    BlocksApart(h, s, t, p, q);
  }

  /** All blocks in clients' hands are disjoint from each other. */
  lemma LiveBlocksDisjoint(h: View, except: int, p: nat, n: nat, q: nat, m: nat)
    requires Inv(h, except) && p != q
    requires (SmallBlock(h, p, n) || BigBlock(h, p, n)) && (SmallBlock(h, q, m) || BigBlock(h, q, m))
    ensures p + n <= q || q + m <= p
  {
    if SmallBlock(h, p, n) {
      if SmallBlock(h, q, m) { SmallFromSmall(h, except, p, n, q, m); } else { SmallFromBig(h, except, p, n, q, m); }
    } else if SmallBlock(h, q, m) {
      SmallFromBig(h, except, q, m, p, n);
    }
  }

  /** A page that starts outside a run of whole pages lies outside it. */
  lemma WholePages(a: nat, n: nat, x: nat)
    requires a % 4096 == 0 && x % 4096 == 0 && (x < a || a + n * 4096 <= x)
    ensures x + 4096 <= a || a + n * 4096 <= x
  {}

  /** On every page, the free blocks and the blocks in use add up to the page. */
  lemma FreePlusLive(h: View, except: int, s: nat) returns (inUse: set<nat>)
    requires Inv(h, except) && s in h.slots && s < 4096
    ensures Kind(h, s) < 8 && h.refs[s].nfree + |inUse| == Blocks(Kind(h, s))
    ensures forall off: nat :: off in inUse <==> IsBlock(Kind(h, s), off) && Base(h, s) + off in h.live
  {
    assert PageOk(h, s) && PageLive(Base(h, s), Kind(h, s), h.chains[s], h.live);
    inUse := FreePlusLiveOn(h, s);
  }

  lemma FreePlusLiveOn(h: View, s: nat) returns (inUse: set<nat>)
    requires s < |h.refs| && PageOk(h, s) && PageLive(Base(h, s), Kind(h, s), h.chains[s], h.live)
    ensures Kind(h, s) < 8 && h.refs[s].nfree + |inUse| == Blocks(Kind(h, s))
    ensures forall off: nat :: off in inUse <==> IsBlock(Kind(h, s), off) && Base(h, s) + off in h.live
  {
    inUse := InUse(Base(h, s), Kind(h, s), h.chains[s], h.live);
  }

  /** The list of each size holds the pages of that block type, each once, in the order
      of the list of all pages; together they hold every page. */
  lemma SizeListsPartition(h: View, except: int, s: nat, b: nat)
    requires Inv(h, except) && b < 8
    ensures Linked(h.refs, true, h.sizebases[b], OfType(h.refs, h.slots, b)) && Distinct(OfType(h.refs, h.slots, b))
    ensures s in OfType(h.refs, h.slots, b) <==> s in h.slots && s < 4096 && Kind(h, s) == b
    ensures s in h.slots ==> s < 4096 && Kind(h, s) < 8 && s in OfType(h.refs, h.slots, Kind(h, s))
  {
    OfTypeMembers(h.refs, h.slots, b);
    if s in h.slots {
      assert PageOk(h, s);
      OfTypeMembers(h.refs, h.slots, Kind(h, s));
    }
  }

  // ---------------------------------------------------------------- steps

  /** Page addresses, block types and list pointers are as they were. */
  ghost predicate SameLists(h: View, h': View) {
    && |h'.refs| == |h.refs| && h'.sizebases == h.sizebases && h'.allbase == h.allbase && h'.slots == h.slots
    && forall q :: 0 <= q < |h.refs| ==>
         && h'.refs[q].pab == h.refs[q].pab
         && h'.refs[q].nextSame == h.refs[q].nextSame && h'.refs[q].nextAll == h.refs[q].nextAll
  }

  lemma ListsFrame(h: View, h': View)
    requires ListsOk(h) && SameLists(h, h')
    ensures ListsOk(h')
  {
    forall b | 0 <= b < 8
      ensures Linked(h'.refs, true, h'.sizebases[b], OfType(h'.refs, h'.slots, b))
    {
      OfTypeFrame(h.refs, h'.refs, h.slots, b);
    }
  }

  /** A block address belongs to one page only. */
  lemma OnePage(h: View, s: nat, t: nat, p: nat)
    requires |h.refs| == 4096 && PagesOk(h) && s in h.slots && t in h.slots && s < 4096 && t < 4096
    requires BlockOn(h, s, p) && BlockOn(h, t, p)
    ensures s == t
  {
    BlockWithin(h, s, p);
    BlockWithin(h, t, p);
    if Base(h, s) != Base(h, t) { PagesApart(Base(h, s), Base(h, t)); }
  }

  /** Only page s changes: its free chain, its first words, and one of its blocks. */
  ghost predicate OnlyPage(h: View, h': View, s: nat)
    requires |h.refs| == 4096
  {
    && SameLists(h, h') && s in h.slots && s < 4096 && h'.big == h.big
    && (forall t | t in h.slots && t < 4096 && t != s ::
          h'.refs[t] == h.refs[t] && (t in h.chains ==> t in h'.chains && h'.chains[t] == h.chains[t]))
    && SameOutside(h.mem, h'.mem, Base(h, s), 4096)
  }

  lemma OtherPages(h: View, h': View, s: nat)
    requires ListsOk(h) && PagesOk(h) && OnlyPage(h, h', s) && PageOk(h', s)
    ensures PagesOk(h')
  {
    forall t | t in h'.slots && t < 4096 && t != s
      ensures PageOk(h', t)
    {
      assert PageOk(h, t) && Base(h', t) == Base(h, t) && Kind(h', t) == Kind(h, t);
      PagesApart(Base(h, s), Base(h, t));
      ChainElsewhere(h.mem, h'.mem, Base(h, s), Base(h, t), Kind(h, t), h.refs[t].first, h.refs[t].nfree, h.chains[t]);
    }
    assert forall t | t in h.slots && t < 4096 :: Base(h', t) == Base(h, t);
  }

  lemma BigFrame(h: View, h': View)
    requires |h.refs| == 4096 && BigOk(h) && SameLists(h, h') && h'.big == h.big
    ensures BigOk(h')
  {
    assert forall t | t in h.slots && t < 4096 :: Base(h', t) == Base(h, t);
  }

  /** The block at p of page s passes to a client, or back. */
  lemma LiveStep(h: View, h': View, s: nat, p: nat)
    requires ListsOk(h) && PagesOk(h) && LiveOk(h) && OnlyPage(h, h', s) && PagesOk(h') && BlockOn(h, s, p)
    requires SameBut(h.live, h'.live, p) && (p in h'.live ==> h'.live[p] <= BlockSize(Kind(h, s)))
    requires PageLive(Base(h, s), Kind(h, s), h'.chains[s], h'.live)
    ensures LiveOk(h')
  {
    forall t | t in h'.slots && t < 4096
      ensures PageLive(Base(h', t), Kind(h', t), h'.chains[t], h'.live)
    {
      assert Base(h', t) == Base(h, t) && Kind(h', t) == Kind(h, t);
      if t != s {
        if BlockOn(h, t, p) { OnePage(h, s, t, p); }
        PageLiveOther(Base(h, t), Kind(h, t), h.chains[t], h.live, h'.live, p);
      }
    }
    forall q | q in h'.live
      ensures Housed(h', q)
    {
      HousedStays(h, h', s, p, q);
    }
  }

  lemma HousedStays(h: View, h': View, s: nat, p: nat, q: nat)
    requires |h.refs| == 4096 && SameLists(h, h') && s in h.slots && s < 4096 && BlockOn(h, s, p)
    requires SameBut(h.live, h'.live, p) && q in h'.live && (q in h.live ==> Housed(h, q))
    requires p in h'.live ==> h'.live[p] <= BlockSize(Kind(h, s))
    ensures Housed(h', q)
  {
    if q == p {
      assert Base(h', s) == Base(h, s) && Kind(h', s) == Kind(h, s) && BlockOn(h', s, q);
    } else {
      var t :| t in h.slots && t < 4096 && BlockOn(h, t, q) && h.live[q] <= BlockSize(Kind(h, t));
      assert Base(h', t) == Base(h, t) && Kind(h', t) == Kind(h, t) && BlockOn(h', t, q);
    }
  }

  /** doalloc: the first free block of page s goes to a client who asked for size bytes. */
  ghost function Take(h: View, s: nat, size: nat): View
    requires s < |h.refs| && s in h.chains && h.chains[s] != [] && h.refs[s].nfree > 0
  {
    var c := h.chains[s];
    h.(refs := h.refs[s := h.refs[s].(nfree := h.refs[s].nfree - 1,
                                      first := if |c| == 1 then INVALID_OFFSET else c[1])],
       chains := h.chains[s := c[1..]],
       live := h.live[Base(h, s) + c[0] := size])
  }

  /** Block p of page s changes hands and the page's chain with it. */
  lemma PageStep(h: View, h': View, s: nat, p: nat)
    requires ListsOk(h) && PagesOk(h) && LiveOk(h) && BigOk(h) && NoneEmpty(h, s)
    requires OnlyPage(h, h', s) && PageOk(h', s) && BlockOn(h, s, p) && SameBut(h.live, h'.live, p)
    requires p in h'.live ==> h'.live[p] <= BlockSize(Kind(h, s))
    requires PageLive(Base(h, s), Kind(h, s), h'.chains[s], h'.live)
    ensures Inv(h', s)
  {
    ListsFrame(h, h');
    OtherPages(h, h', s);
    LiveStep(h, h', s, p);
    BigFrame(h, h');
    assert forall t | t in h.slots && t < 4096 :: Kind(h', t) == Kind(h, t);
  }

  lemma TakePage(h: View, s: nat, size: nat)
    requires |h.refs| == 4096 && s in h.slots && s < 4096 && PageOk(h, s) && h.refs[s].nfree > 0
    ensures h.chains[s] != [] && OnlyPage(h, Take(h, s, size), s) && PageOk(Take(h, s, size), s)
    ensures h.refs[s].nfree <= Blocks(Kind(h, s))
    ensures Base(h, s) + h.refs[s].first == Base(h, s) + h.chains[s][0]
    ensures Read(h.mem, Base(h, s) + h.refs[s].first) == if |h.chains[s]| == 1 then 0 else Base(h, s) + h.chains[s][1]
    ensures h.refs[s].first < 4096 && (|h.chains[s]| > 1 ==> h.chains[s][1] < 4096)
  {
    ChainPop(h.mem, Base(h, s), Kind(h, s), h.refs[s].first, h.refs[s].nfree, h.chains[s]);
    ChainFits(Kind(h, s), h.chains[s]);
  }

  lemma TakeLive(h: View, s: nat, size: nat)
    requires s < |h.refs| && PageOk(h, s) && h.refs[s].nfree > 0
    requires PageLive(Base(h, s), Kind(h, s), h.chains[s], h.live)
    ensures h.chains[s] != []
    ensures var h', p := Take(h, s, size), Base(h, s) + h.chains[s][0];
            && PageLive(Base(h, s), Kind(h, s), h'.chains[s], h'.live) && SameBut(h.live, h'.live, p)
            && BlockOn(h, s, p) && p !in h.live
  {
    PageLiveTake(Base(h, s), Kind(h, s), h.chains[s], h.live, size);
    assert Take(h, s, size).chains[s] == h.chains[s][1..];
  }

  lemma TakeKeeps(h: View, s: nat, size: nat)
    requires Inv(h, s) && s in h.slots && s < 4096 && h.refs[s].nfree > 0 && Kind(h, s) < 8
             && size <= BlockSize(Kind(h, s))
    ensures s in h.chains && h.chains[s] != [] && Inv(Take(h, s, size), -1)
    ensures var p := Base(h, s) + h.chains[s][0]; p !in h.live && BlockOn(h, s, p)
  {
    assert PageOk(h, s);
    TakePage(h, s, size);
    var h' := Take(h, s, size);
    TakeLive(h, s, size);
    PageStep(h, h', s, Base(h, s) + h.chains[s][0]);
    NoneEmptyStep(h, h', s);
  }

  lemma NoneEmptyStep(h: View, h': View, s: nat)
    requires |h.refs| == 4096 && s < 4096 && NoneEmpty(h, s) && SameLists(h, h')
    requires forall t | t in h.slots && t < 4096 && t != s :: h'.refs[t] == h.refs[t]
    requires Kind(h, s) < 8 && h'.refs[s].nfree < Blocks(Kind(h, s))
    ensures NoneEmpty(h', -1)
  {
    assert forall t | t in h.slots && t < 4096 :: Kind(h', t) == Kind(h, t);
  }

  /** What doalloc reads: the assertions it makes hold, and the word at the head of the
      chain leads to the chain's next block. */
  lemma TakeReads(h: View, s: nat)
    requires |h.refs| == 4096 && s in h.slots && s < 4096 && PageOk(h, s) && h.refs[s].nfree > 0
    ensures h.chains[s] != [] && h.refs[s].first == h.chains[s][0] && h.refs[s].first < 4096
    ensures var next := Read(h.mem, Base(h, s) + h.refs[s].first);
            && (next == 0 <==> h.refs[s].nfree == 1)
            && (next == 0 <==> |h.chains[s]| == 1)
            && (next != 0 ==> next == Base(h, s) + h.chains[s][1] && h.chains[s][1] < 4096)
  {
    TakePage(h, s, 0);
  }

  /** The start of subpage_kfree's end: block p of page s goes back on the chain. */
  ghost function Put(h: View, mem: Memory, s: nat, p: nat): View
    requires s < |h.refs| && s in h.chains && Base(h, s) <= p
  {
    h.(mem := mem,
       refs := h.refs[s := h.refs[s].(nfree := h.refs[s].nfree + 1, first := p - Base(h, s))],
       chains := h.chains[s := [p - Base(h, s)] + h.chains[s]],
       live := h.live - {p})
  }

  lemma PutPage(h: View, mem: Memory, s: nat, p: nat)
    requires |h.refs| == 4096 && s in h.slots && s < 4096 && PageOk(h, s) && BlockOn(h, s, p)
             && p - Base(h, s) !in h.chains[s]
    requires SameOutside(h.mem, mem, p, BlockSize(Kind(h, s)))
    requires Read(mem, p) == if h.refs[s].first == INVALID_OFFSET then 0 else Base(h, s) + h.refs[s].first
    ensures OnlyPage(h, Put(h, mem, s, p), s) && PageOk(Put(h, mem, s, p), s)
    ensures h.refs[s].nfree + 1 <= Blocks(Kind(h, s))
  {
    FirstIsValid(h, s);
    ChainPut(h.mem, mem, Base(h, s), Kind(h, s), h.refs[s].first, h.refs[s].nfree, h.chains[s], p - Base(h, s));
  }

  lemma PutLive(h: View, mem: Memory, s: nat, p: nat)
    requires s < |h.refs| && PageOk(h, s) && BlockOn(h, s, p) && p in h.live
    requires PageLive(Base(h, s), Kind(h, s), h.chains[s], h.live)
    ensures var h' := Put(h, mem, s, p);
            && PageLive(Base(h, s), Kind(h, s), h'.chains[s], h'.live) && SameBut(h.live, h'.live, p)
    ensures p - Base(h, s) !in h.chains[s]
  {
    PageLivePut(Base(h, s), Kind(h, s), h.chains[s], h.live, p);
    assert Put(h, mem, s, p).chains[s] == [p - Base(h, s)] + h.chains[s];
  }

  lemma PutKeeps(h: View, mem: Memory, s: nat, p: nat)
    requires Inv(h, -1) && s in h.slots && s < 4096 && BlockOn(h, s, p) && p in h.live
    requires SameOutside(h.mem, mem, p, BlockSize(Kind(h, s)))
    requires Read(mem, p) == if h.refs[s].first == INVALID_OFFSET then 0 else Base(h, s) + h.refs[s].first
    ensures s in h.chains && Inv(Put(h, mem, s, p), s)
    ensures Put(h, mem, s, p).refs[s].nfree <= Blocks(Kind(h, s))
  {
    assert PageOk(h, s);
    PutLive(h, mem, s, p);
    PutPage(h, mem, s, p);
    PageStep(h, Put(h, mem, s, p), s, p);
  }

  /** The page is empty now exactly when the block was its last one in use. */
  lemma PutEmptiesIff(h: View, mem: Memory, s: nat, p: nat)
    requires Inv(h, -1) && s in h.slots && s < 4096 && BlockOn(h, s, p) && p in h.live && s in h.chains
    requires Inv(Put(h, mem, s, p), s)
    ensures Put(h, mem, s, p).refs[s].nfree == Blocks(Kind(h, s))
            <==> forall q: nat | BlockOn(h, s, q) && q != p :: q !in h.live
  {
    var h' := Put(h, mem, s, p);
    assert PageOk(h', s) && Base(h', s) == Base(h, s) && Kind(h', s) == Kind(h, s);
    AllFreeIff(Base(h, s), Kind(h, s), h'.chains[s], h'.live);
    assert forall q: nat :: BlockOn(h, s, q) <==> BlockAt(Base(h, s), Kind(h, s), q);
  }

  /** freelist_offset is INVALID_OFFSET exactly when nothing is free. */
  lemma FirstIsValid(h: View, s: nat)
    requires s < |h.refs| && PageOk(h, s)
    ensures h.refs[s].first == INVALID_OFFSET <==> h.refs[s].nfree == 0
    ensures h.refs[s].first == INVALID_OFFSET <==> h.chains[s] == []
  {
    if h.chains[s] != [] { assert IsBlock(Kind(h, s), h.chains[s][0]); }
  }

  /** A fresh page at a, carved into blocks of type b, goes on both lists as pageref s. */
  ghost function AddPage(h: View, mem: Memory, s: nat, a: nat, b: nat, first: nat): View
    requires s < |h.refs| && b < |h.sizebases| == 8
  {
    h.(mem := mem,
       refs := h.refs[s := PageRef(h.sizebases[b], h.allbase, MkPab(a, b), first, Blocks(b))],
       sizebases := h.sizebases[b := s], allbase := s, slots := [s] + h.slots,
       chains := h.chains[s := Downward(b, Blocks(b))])
  }

  lemma AddTypes(h: View, mem: Memory, s: nat, a: nat, b: nat, first: nat, k: nat)
    requires ListsOk(h) && s < 4096 && s !in h.slots && b < 8 && a % 4096 == 0
    ensures var h' := AddPage(h, mem, s, a, b, first);
            OfType(h'.refs, h'.slots, k) == (if k == b then [s] else []) + OfType(h.refs, h.slots, k)
  {
    var h' := AddPage(h, mem, s, a, b, first);
    PabRoundTrip(h'.refs[s], a, b);
    OfTypeFrame(h.refs, h'.refs, h.slots, k);
    assert h'.slots[1..] == h.slots;
    assert [] + OfType(h.refs, h.slots, k) == OfType(h.refs, h.slots, k);
  }

  lemma AddLists(h: View, mem: Memory, s: nat, a: nat, b: nat, first: nat)
    requires ListsOk(h) && s < 4096 && s !in h.slots && b < 8 && a % 4096 == 0
    ensures ListsOk(AddPage(h, mem, s, a, b, first))
  {
    var h' := AddPage(h, mem, s, a, b, first);
    LinkedPush(h.refs, h'.refs, false, h.allbase, h.slots, s);
    forall k | 0 <= k < 8
      ensures Linked(h'.refs, true, h'.sizebases[k], OfType(h'.refs, h'.slots, k))
    {
      var list := OfType(h.refs, h.slots, k);
      AddTypes(h, mem, s, a, b, first, k);
      OfTypeMembers(h.refs, h.slots, k);
      if k == b {
        LinkedPush(h.refs, h'.refs, true, h.sizebases[k], list, s);
      } else {
        LinkedFrame(h.refs, h'.refs, true, h.sizebases[k], list);
        assert [] + list == list;
      }
    }
  }

  lemma AddPages(h: View, mem: Memory, s: nat, a: nat, b: nat, first: nat)
    requires ListsOk(h) && PagesOk(h) && s < 4096 && s !in h.slots && b < 8 && Unused(h, a, 1)
    requires IsChain(mem, a, b, first, Blocks(b), Downward(b, Blocks(b))) && SameOutside(h.mem, mem, a, 4096)
    ensures PagesOk(AddPage(h, mem, s, a, b, first))
  {
    var h' := AddPage(h, mem, s, a, b, first);
    PabRoundTrip(h'.refs[s], a, b);
    assert PageOk(h', s);
    forall t | t in h.slots && t < 4096
      ensures PageOk(h', t) && Base(h', t) == Base(h, t) && Base(h', t) != a
    {
      assert PageOk(h, t);
      PagesApart(a, Base(h, t));
      ChainElsewhere(h.mem, mem, a, Base(h, t), Kind(h, t), h.refs[t].first, h.refs[t].nfree, h.chains[t]);
    }
  }

  /** Nothing of a fresh page is in a client's hands. */
  lemma FreshUnused(h: View, a: nat, b: nat, p: nat)
    requires ListsOk(h) && PagesOk(h) && LiveOk(h) && Unused(h, a, 1) && b < 8 && BlockAt(a, b, p)
    ensures p !in h.live
  {
    WithinPage(b, p - a);
    if p in h.live {
      assert Housed(h, p);
      var t :| t in h.slots && t < 4096 && BlockOn(h, t, p) && h.live[p] <= BlockSize(Kind(h, t));
      BlockWithin(h, t, p);
      PagesApart(a, Base(h, t));
    }
  }

  lemma AddLive(h: View, mem: Memory, s: nat, a: nat, b: nat, first: nat)
    requires ListsOk(h) && PagesOk(h) && LiveOk(h) && s < 4096 && s !in h.slots && b < 8 && Unused(h, a, 1)
    requires PagesOk(AddPage(h, mem, s, a, b, first))
    ensures LiveOk(AddPage(h, mem, s, a, b, first))
  {
    var h', chain := AddPage(h, mem, s, a, b, first), Downward(b, Blocks(b));
    PabRoundTrip(h'.refs[s], a, b);
    DownwardIsSet(b, Blocks(b));
    ChainFits(b, chain);
    forall p: nat | BlockAt(a, b, p)
      ensures p in h.live <==> p - a !in chain
    {
      FreshUnused(h, a, b, p);
    }
    forall t | t in h.slots && t < 4096
      ensures Base(h', t) == Base(h, t) && Kind(h', t) == Kind(h, t) && h'.chains[t] == h.chains[t]
    {}
    forall p | p in h.live
      ensures Housed(h', p)
    {
      assert Housed(h, p);
      var t :| t in h.slots && t < 4096 && BlockOn(h, t, p) && h.live[p] <= BlockSize(Kind(h, t));
      assert BlockOn(h', t, p);
    }
  }

  lemma AddRest(h: View, mem: Memory, s: nat, a: nat, b: nat, first: nat)
    requires |h.refs| == 4096 && |h.sizebases| == 8 && NoneEmpty(h, -1) && BigOk(h) && s < 4096 && s !in h.slots
             && b < 8 && Unused(h, a, 1)
    ensures var h' := AddPage(h, mem, s, a, b, first);
            NoneEmpty(h', s) && BigOk(h') && Kind(h', s) == b && Base(h', s) == a
  {
    var h' := AddPage(h, mem, s, a, b, first);
    PabRoundTrip(h'.refs[s], a, b);
    assert forall t | t in h.slots && t < 4096 :: h'.refs[t] == h.refs[t];
    assert forall t | t in h'.slots && t < 4096 && t != s ::
      t in h.slots && Base(h', t) == Base(h, t) && Kind(h', t) == Kind(h, t);
  }

  lemma AddKeeps(h: View, mem: Memory, s: nat, a: nat, b: nat, first: nat)
    requires Inv(h, -1) && s < 4096 && s !in h.slots && b < 8 && Unused(h, a, 1)
    requires IsChain(mem, a, b, first, Blocks(b), Downward(b, Blocks(b))) && SameOutside(h.mem, mem, a, 4096)
    ensures var h' := AddPage(h, mem, s, a, b, first); Inv(h', s) && Kind(h', s) == b && Base(h', s) == a
  {
    AddLists(h, mem, s, a, b, first);
    AddPages(h, mem, s, a, b, first);
    AddLive(h, mem, s, a, b, first);
    AddRest(h, mem, s, a, b, first);
  }

  /** Page s leaves both lists; nothing else about the pages changes. */
  ghost predicate Dropped(h: View, h': View, s: nat) {
    && |h'.refs| == |h.refs| && h'.mem == h.mem && h'.chains == h.chains && h'.live == h.live && h'.big == h.big
    && h'.slots == Without(h.slots, s)
    && forall q :: 0 <= q < |h.refs| ==>
         h'.refs[q].pab == h.refs[q].pab && h'.refs[q].first == h.refs[q].first && h'.refs[q].nfree == h.refs[q].nfree
  }

  lemma DropKeeps(h: View, h': View, s: nat)
    requires Inv(h, s) && s in h.slots && s < 4096 && Dropped(h, h', s) && ListsOk(h')
    requires Kind(h, s) < 8 && h.refs[s].nfree == Blocks(Kind(h, s))
    ensures Inv(h', -1)
  {
    WithoutMembers(h.slots, s);
    forall t | t in h'.slots && t < 4096
      ensures PageOk(h', t) && Base(h', t) == Base(h, t) && Kind(h', t) == Kind(h, t)
    {
      assert PageOk(h, t);
    }
    assert PageOk(h, s);
    AllFreeIff(Base(h, s), Kind(h, s), h.chains[s], h.live);
    forall p | p in h.live
      ensures Housed(h', p)
    {
      assert Housed(h, p);
      var t :| t in h.slots && t < 4096 && BlockOn(h, t, p) && h.live[p] <= BlockSize(Kind(h, t));
      assert t != s;
      assert BlockOn(h', t, p);
    }
  }

  /** What the two loops of remove_lists leave: first the list of the page's own size,
      then the list of all pages. */
  lemma DropLists(h: View, refs1: seq<PageRef>, same: int, refs2: seq<PageRef>, all: int, s: nat)
    requires ListsOk(h) && s in h.slots && s < 4096 && Kind(h, s) < 8 && |refs1| == |refs2| == 4096
    requires Linked(refs1, true, same, Without(OfType(h.refs, h.slots, Kind(h, s)), s))
    requires forall q :: 0 <= q < 4096 ==> refs1[q] == SetNxt(h.refs[q], true, Nxt(refs1[q], true))
    requires forall q :: 0 <= q < 4096 && q !in OfType(h.refs, h.slots, Kind(h, s)) ==> refs1[q] == h.refs[q]
    requires Linked(refs2, false, all, Without(h.slots, s))
    requires forall q :: 0 <= q < 4096 ==> refs2[q] == SetNxt(refs1[q], false, Nxt(refs2[q], false))
    ensures var h' := h.(refs := refs2, sizebases := h.sizebases[Kind(h, s) := same], allbase := all,
                         slots := Without(h.slots, s));
            Dropped(h, h', s) && ListsOk(h')
  {
    var b, slots := Kind(h, s), Without(h.slots, s);
    var h' := h.(refs := refs2, sizebases := h.sizebases[b := same], allbase := all, slots := slots);
    WithoutMembers(h.slots, s);
    forall k | 0 <= k < 8
      ensures Linked(refs2, true, h'.sizebases[k], OfType(refs2, slots, k))
    {
      OfTypeFrame(h.refs, refs2, slots, k);
      OfTypeWithout(h.refs, h.slots, k, s);
      OfTypeMembers(h.refs, h.slots, k);
      OfTypeMembers(h.refs, h.slots, b);
      if k == b {
        LinkedFrame(refs1, refs2, true, same, OfType(refs2, slots, k));
      } else {
        WithoutAbsent(OfType(h.refs, h.slots, k), s);
        LinkedFrame(h.refs, refs2, true, h.sizebases[k], OfType(h.refs, h.slots, k));
      }
    }
  }

  /** The two loops of remove_lists. */
  method UnlinkBoth(refs: seq<PageRef>, sizebase: int, allbase: int, pr: nat, ghost h: View)
    returns (refs2: seq<PageRef>, same: int, all: int)
    requires ListsOk(h) && pr in h.slots && pr < 4096 && Kind(h, pr) < 8
    requires h.refs == refs && h.allbase == allbase && h.sizebases[Kind(h, pr)] == sizebase
    ensures var h' := h.(refs := refs2, sizebases := h.sizebases[Kind(h, pr) := same], allbase := all,
                         slots := Without(h.slots, pr));
            Dropped(h, h', pr) && ListsOk(h')
  {
    ghost var list := OfType(refs, h.slots, Kind(h, pr));
    OfTypeMembers(refs, h.slots, Kind(h, pr));
    var refs1;
    refs1, same := Unlink(refs, true, sizebase, pr, list);
    LinkedFrame(refs, refs1, false, allbase, h.slots);
    refs2, all := Unlink(refs1, false, allbase, pr, h.slots);
    DropLists(h, refs1, same, refs2, all, pr);
  }

  // ---------------------------------------------------------------- the allocator

  /** blocktype: the smallest block that fits. */
  method TypeFor(size: nat) returns (b: nat)
    requires size <= 2048
    ensures b < 8 && size <= BlockSize(b) && (b > 0 ==> BlockSize(b - 1) < size)
  {
    for i := 0 to 8
      invariant i > 0 ==> BlockSize(i - 1) < size
    {
      if size <= BlockSize(i) { return i; }
    }
    assert false;
  }

  /** fill_deadbeef over the n bytes at a, word by word. */
  method FillDeadbeef(m: Memory, a: nat, n: nat) returns (m': Memory)
    ensures SameOutside(m, m', a, n)
    ensures forall i :: 0 <= i < n / 4 ==> Read(m', a + 4 * i) == 0xdeadbeef
  {
    m' := m;
    for i := 0 to n / 4
      invariant SameOutside(m, m', a, n)
      invariant forall j :: 0 <= j < i ==> Read(m', a + 4 * j) == 0xdeadbeef
    {
      m' := m'[a + 4 * i := 0xdeadbeef];
    }
  }

  /** Pages for a large request, in the source's 32-bit arithmetic. */
  function NPages(size: nat): nat {
    (size + 4095) % 0x1_0000_0000 / 4096
  }

  /** The pages hold the request exactly when rounding it up does not wrap, and then one page
      less would not hold it. */
  lemma LargeEnoughIff(size: nat)
    requires 2048 <= size < 0x1_0000_0000
    ensures NPages(size) * 4096 >= size <==> size <= 0xffff_f000
    ensures size <= 0xffff_f000 ==> (NPages(size) - 1) * 4096 < size
    ensures NPages(size) == 0 <==> size > 0xffff_f000
  {}

  /** A request of 4 GB less 4095 bytes rounds up to no page at all. */
  lemma RoundingWraps()
    ensures NPages(0xffff_f001) == 0 && NPages(0xffff_f000) * 4096 == 0xffff_f000
  {}

  /** The page in slot s is of the block size that a request for size bytes gets. */
  ghost predicate RightSize(h: View, s: nat, size: nat)
    requires s < |h.refs|
  {
    Kind(h, s) < 8 && size <= BlockSize(Kind(h, s)) && (Kind(h, s) > 0 ==> BlockSize(Kind(h, s) - 1) < size)
  }

  /** No page of the block size for this request has a free block. */
  ghost predicate NoneFree(h: View, size: nat)
    requires |h.refs| == 4096
  {
    forall s | s in h.slots && s < 4096 && RightSize(h, s, size) :: h.refs[s].nfree == 0
  }

  lemma SearchedAll(h: View, b: nat, size: nat)
    requires |h.refs| == 4096 && b < 8 && size <= BlockSize(b) && (b > 0 ==> BlockSize(b - 1) < size)
    requires forall s | s in h.slots && s < 4096 && Kind(h, s) == b :: h.refs[s].nfree == 0
    ensures NoneFree(h, size)
  {}

  /** The fields of a heap. */
  datatype Contents = Contents(
    mem: Memory, refs: seq<PageRef>, sizebases: seq<int>, allbase: int, roots: seq<PageRefs.Root>)

  /** These fields stand for h, and satisfy the invariant. */
  ghost predicate Sound(n: Contents, h: View, leaked: bool) {
    && h.mem == n.mem && h.refs == n.refs && h.sizebases == n.sizebases && h.allbase == n.allbase
    && PageRefs.RootsOk(n.roots, leaked) && (forall s | s in h.slots :: PageRefs.IsCovered(n.roots, s))
    && Inv(h, -1)
  }

  class Heap {
    var mem: Memory
    var refs: seq<PageRef>
    var sizebases: seq<int>
    var allbase: int
    const table: PageRefs.Table
    ghost var v: View   // the above, with what it stands for

    ghost predicate Shown()
      reads this
    {
      v.mem == mem && v.refs == refs && v.sizebases == sizebases && v.allbase == allbase
    }

    /** Every pageref on the lists is marked in the bitmap. */
    ghost predicate Covers()
      reads this, table
    {
      table.Valid() && forall s | s in v.slots :: table.Covered(s)
    }

    ghost predicate Valid()
      reads this, table
    {
      Shown() && Covers() && Inv(v, -1)
    }

    constructor (refs: seq<PageRef>)
      requires |refs| == 4096
      ensures Valid() && v.live == map[] && v.big == map[] && v.slots == [] && fresh(table) && !table.leaked
    {
      mem, this.refs, sizebases, allbase := map[], refs, seq(8, _ => -1), -1;
      v := View(map[], refs, seq(8, _ => -1), -1, [], map[], map[], map[]);
      table := new PageRefs.Table();
    }

    /** The search for a page of type b with a free block. */
    method FindPage(b: nat) returns (pr: int)
      requires Shown() && ListsOk(v) && b < 8
      ensures pr >= 0 ==> pr in v.slots && pr < 4096 && Kind(v, pr) == b && refs[pr].nfree > 0
      ensures pr < 0 ==> forall s | s in v.slots && s < 4096 && Kind(v, s) == b :: refs[s].nfree == 0
    {
      ghost var list := OfType(refs, v.slots, b);
      OfTypeMembers(refs, v.slots, b);
      pr := sizebases[b];
      ghost var k := 0;
      while pr != -1
        invariant 0 <= k <= |list| && pr == if k < |list| then list[k] else -1
        invariant forall i :: 0 <= i < k ==> refs[list[i]].nfree == 0
        decreases |list| - k
      {
        assert list[k] in list;
        if refs[pr].nfree > 0 { return; }
        pr := refs[pr].nextSame;
        k := k + 1;
      }
    }

    /** doalloc: take the first free block of page pr. */
    method TakeBlock(pr: nat, ghost size: nat) returns (p: nat)
      requires Shown() && |refs| == 4096 && pr in v.slots && pr < 4096 && PageOk(v, pr) && refs[pr].nfree > 0
      modifies this`refs, this`v
      ensures Shown() && old(v.chains[pr]) != [] && v == Take(old(v), pr, size)
              && p == old(Base(v, pr) + v.chains[pr][0])
    {
      TakeReads(v, pr);
      var r := refs[pr];
      p := PageAddr(r) + r.first;
      var next := Read(mem, p);
      var first := if next != 0 then next - PageAddr(r) else INVALID_OFFSET;
      refs := refs[pr := r.(nfree := r.nfree - 1, first := first)];
      v := Take(v, pr, size);
    }

    /** The page at a becomes blocks of type b, first on both lists, through pageref s. */
    method NewPage(s: nat, a: nat, b: nat)
      requires Shown() && |refs| == 4096 && |sizebases| == 8 && s < 4096 && b < 8
      modifies this`mem, this`refs, this`sizebases, this`allbase, this`v
      ensures Shown() && SameOutside(old(mem), mem, a, 4096)
      ensures exists first :: IsChain(mem, a, b, first, Blocks(b), Downward(b, Blocks(b)))
                              && v == AddPage(old(v), mem, s, a, b, first)
    {
      var first;
      mem, first := Carve(mem, a, b);
      refs := refs[s := PageRef(sizebases[b], allbase, MkPab(a, b), first, Blocks(b))];
      sizebases := sizebases[b := s];
      allbase := s;
      v := AddPage(v, mem, s, a, b, first);
    }

    /** A block at p that serves a request for size bytes: large enough, aligned to its
        own size. */
    ghost predicate Serves(p: nat, size: nat)
      reads this
      requires |v.refs| == 4096
    {
      exists n :: n > 0 && SmallBlock(v, p, n) && size <= n && p % n == 0
    }

    /** No new page can be had: alloc_kpages fails, or there is no pageref for it. */
    ghost predicate OutOfPages(page: nat, refPage: bool)
      reads this, table
      requires table.Valid()
    {
      page == 0 || !refPage || forall k: nat | k < 4096 :: PageRefs.InUse(table.roots, k)
    }

    /** A page with a free block of type b is at hand. */
    ghost predicate HasRoom(pr: int, b: nat)
      reads this, table
    {
      && Shown() && Covers() && 0 <= pr < 4096 && b < 8 && Inv(v, pr)
      && pr in v.slots && Kind(v, pr) == b && refs[pr].nfree > 0
    }

    /** The part of subpage_kmalloc that makes a new page. */
    method MakePage(b: nat, page: nat, refPage: bool) returns (pr: int)
      requires Valid() && b < 8 && page != 0 && Unused(v, page, 1)
      modifies this, table
      ensures v.live == old(v.live) && v.big == old(v.big)
      ensures pr >= 0 ==> HasRoom(pr, b)
      ensures pr < 0 ==> Valid() && v == old(v)
      ensures pr < 0 && refPage ==> forall k: nat | k < 4096 :: PageRefs.InUse(table.roots, k)
    {
      ghost var at;
      pr, at := table.Alloc(refPage);
      if pr >= 0 {
        NewPage(pr, page, b);
        ghost var first :| IsChain(mem, page, b, first, Blocks(b), Downward(b, Blocks(b)))
                           && v == AddPage(old(v), mem, pr, page, b, first);
        AddKeeps(old(v), mem, pr, page, b, first);
      }
    }

    /** The lock is given up, and other calls leave the heap in any state that satisfies
        the invariant. */
    method Others(n: Contents, ghost h: View, ghost leaked: bool)
      requires Sound(n, h, leaked)
      modifies this, table
      ensures Valid() && v == h && table.roots == n.roots
    {
      mem, refs, sizebases, allbase := n.mem, n.refs, n.sizebases, n.allbase;
      v := h;
      table.Become(n.roots, leaked);
    }

    /** subpage_kmalloc. page is what alloc_kpages would return, refPage whether it would
        also supply a page of pagerefs if one is needed; back is a page returned with
        free_kpages. The lock is given up around alloc_kpages: if it comes to that, other
        calls have made the heap n, which stands for h, by the time page is there. */
    method SubpageKmalloc(size: nat, page: nat, refPage: bool, n: Contents, ghost h: View, ghost leaked: bool)
      returns (p: nat, back: nat)
      requires Valid() && size <= 2048 && Sound(n, h, leaked) && (page != 0 ==> Unused(h, page, 1))
      modifies this, table
      ensures Valid() && |v.refs| == 4096 && |old(v).refs| == 4096
      ensures Served(if NoneFree(old(v), size) then h else old(v), p, size)
      ensures p != 0 ==> back == 0
      ensures p == 0 ==> page == 0 || back == page
      ensures p == 0 ==> NoneFree(old(v), size) && OutOfPages(page, refPage)
    {
      var b := TypeFor(size);
      var pr := FindPage(b);
      if pr < 0 {
        SearchedAll(v, b, size);
        Others(n, h, leaked);
        if page == 0 { return 0, 0; }
        pr := MakePage(b, page, refPage);
        if pr < 0 { return 0, page; }
      } else {
        assert RightSize(v, pr, size);
      }
      p := Finish(pr, b, size);
      back := 0;
    }

    /** From heap h, a block at p that was not in use has come into use, or nothing has
        changed. */
    ghost predicate Served(h: View, p: nat, size: nat)
      reads this
      requires |v.refs| == 4096
    {
      && v.big == h.big
      && (p != 0 ==> p !in h.live && v.live == h.live[p := size] && Serves(p, size))
      && (p == 0 ==> v == h)
    }

    method Finish(pr: nat, b: nat, ghost size: nat) returns (p: nat)
      requires HasRoom(pr, b) && size <= BlockSize(b)
      modifies this`refs, this`v
      ensures Valid() && v.big == old(v.big) && |v.refs| == 4096
      ensures p > 0 && p !in old(v.live) && v.live == old(v.live)[p := size] && Serves(p, size)
    {
      ghost var h := v;
      TakeKeeps(h, pr, size);
      assert PageOk(h, pr);
      p := TakeBlock(pr, size);
      BlockServes(h, v, pr, p, size);
    }

    /** The search of subpage_kfree: the page that ptr points into. */
    method FindOwner(ptr: nat) returns (pr: int)
      requires Shown() && ListsOk(v)
      ensures pr >= 0 ==> pr in v.slots && pr < 4096 && Base(v, pr) <= ptr < Base(v, pr) + 4096
      ensures pr < 0 ==> forall s | s in v.slots && s < 4096 :: !(Base(v, s) <= ptr < Base(v, s) + 4096)
    {
      pr := allbase;
      ghost var k := 0;
      while pr != -1
        invariant 0 <= k <= |v.slots| && pr == if k < |v.slots| then v.slots[k] else -1
        invariant forall i :: 0 <= i < k ==> !(Base(v, v.slots[i]) <= ptr < Base(v, v.slots[i]) + 4096)
        decreases |v.slots| - k
      {
        assert v.slots[k] in v.slots;
        var prpage := PageAddr(refs[pr]);
        if prpage <= ptr < prpage + 4096 { return; }
        pr := refs[pr].nextAll;
        k := k + 1;
      }
    }

    /** The block at ptr is overwritten and becomes the first free block of page pr. */
    method GiveBlock(pr: nat, ptr: nat)
      requires Shown() && |refs| == 4096 && pr < 4096 && pr in v.chains && BlockOn(v, pr, ptr)
      modifies this`mem, this`refs, this`v
      ensures Shown() && v == Put(old(v), mem, pr, ptr)
      ensures SameOutside(old(mem), mem, ptr, BlockSize(old(Kind(v, pr))))
      ensures Read(mem, ptr) == old(if refs[pr].first == INVALID_OFFSET then 0 else Base(v, pr) + refs[pr].first)
    {
      var r := refs[pr];
      var base := PageAddr(r);
      var m := FillDeadbeef(mem, ptr, BlockSize(BlockType(r)));
      m := m[ptr := if r.first == INVALID_OFFSET then 0 else base + r.first];
      v := Put(v, m, pr, ptr);
      mem := m;
      refs := refs[pr := r.(nfree := r.nfree + 1, first := ptr - base)];
    }

    /** remove_lists */
    method RemoveLists(pr: nat)
      requires Shown() && ListsOk(v) && pr in v.slots && pr < 4096 && Kind(v, pr) < 8
      modifies this`refs, this`sizebases, this`allbase, this`v
      ensures Shown() && ListsOk(v) && Dropped(old(v), v, pr)
    {
      var b := BlockType(refs[pr]);
      ghost var h := v;
      var refs2, same, all := UnlinkBoth(refs, sizebases[b], allbase, pr, h);
      refs, sizebases, allbase := refs2, sizebases[b := same], all;
      v := h.(refs := refs2, sizebases := h.sizebases[b := same], allbase := all, slots := Without(h.slots, pr));
    }

    /** The end of subpage_kfree for a page that has become empty. */
    method ReleasePage(pr: nat) returns (ok: bool)
      requires Shown() && Covers() && Inv(v, pr) && pr in v.slots && pr < 4096 && Kind(v, pr) < 8
      requires refs[pr].nfree == Blocks(Kind(v, pr))
      modifies this`refs, this`sizebases, this`allbase, this`v, table
      ensures v.live == old(v.live) && v.big == old(v.big) && v.slots == Without(old(v.slots), pr)
      ensures ok ==> Valid()
      ensures ok <==> PageRefs.Paged(old(table.roots), pr)
      ensures !ok ==> table.leaked
    {
      ghost var h := v;
      RemoveLists(pr);
      DropKeeps(h, v, pr);
      WithoutMembers(h.slots, pr);
      ok := table.Free(pr);
    }

    /** Block ptr of page pr goes back; the page goes too if that was its last. */
    method ReturnBlock(pr: nat, ptr: nat) returns (r: Freed)
      requires Valid() && pr in v.slots && pr < 4096 && BlockOn(v, pr, ptr) && ptr in v.live
      modifies this`mem, this`refs, this`sizebases, this`allbase, this`v, table
      ensures r.Kept? || r.Released? || (r.Panicked? && table.leaked)
      ensures !r.Panicked? ==> Valid() && v.live == old(v.live) - {ptr} && v.big == old(v.big)
      ensures r.Kept? ==> v.slots == old(v.slots)
      ensures r.Released? ==> r.page == old(Base(v, pr)) && v.slots == Without(old(v.slots), pr)
      ensures r.Kept? <==> exists q: nat :: old(BlockOn(v, pr, q)) && q != ptr && q in old(v.live)
      ensures r.Panicked? <==> !r.Kept? && !PageRefs.Paged(old(table.roots), pr)
    {
      ghost var h := v;
      assert PageOk(h, pr);
      var page, b := PageAddr(refs[pr]), BlockType(refs[pr]);
      GiveBlock(pr, ptr);
      PutKeeps(h, mem, pr, ptr);
      PutEmptiesIff(h, mem, pr, ptr);
      if refs[pr].nfree == Blocks(b) {
        var ok := ReleasePage(pr);
        return if ok then Released(page) else Panicked;
      }
      KeptIsFull(h, v, pr);
      return Kept;
    }

    /** subpage_kfree on a pointer that kmalloc returned. */
    method SubpageKfree(ptr: nat) returns (r: Freed)
      requires Valid() && (ptr in v.live || ptr in v.big)
      modifies this`mem, this`refs, this`sizebases, this`allbase, this`v, table
      ensures r.NotOurs? <==> ptr in old(v.big)
      ensures r.NotOurs? ==> Valid() && v == old(v)
      ensures r.Panicked? ==> table.leaked
      ensures r.Kept? || r.Released? ==> Valid() && v.live == old(v.live) - {ptr} && v.big == old(v.big)
      ensures r.Kept? ==> v.slots == old(v.slots)
      ensures !r.NotOurs? ==> |old(v).refs| == 4096 && FreedAs(old(v), old(table.roots), ptr, r, v.slots)
    {
      OwnerOf(v, ptr);
      var pr := FindOwner(ptr);
      if pr < 0 {
        return NotOurs;
      }
      OwnerIs(v, ptr, pr);
      r := ReturnBlock(pr, ptr);
    }

    /** kmalloc; see SubpageKmalloc for the parameters. A request of 2048 bytes or more
        gets the pages alloc_kpages supplies. */
    method Kmalloc(size: nat, page: nat, refPage: bool, n: Contents, ghost h: View, ghost leaked: bool)
      returns (p: nat, back: nat)
      requires Valid() && size < 0x1_0000_0000 && Sound(n, h, leaked)
      requires page != 0 ==> if size >= 2048 then Unused(v, page, NPages(size)) else Unused(h, page, 1)
      modifies this, table
      ensures Valid() && |v.refs| == 4096 && |old(v).refs| == 4096
      ensures size < 2048 ==> Served(if NoneFree(old(v), size) then h else old(v), p, size)
      ensures p == 0 && size < 2048 ==> NoneFree(old(v), size) && OutOfPages(page, refPage)
      ensures size >= 2048 ==> p == page
      ensures p == 0 && size >= 2048 ==> v == old(v)
      ensures p != 0 && 2048 <= size <= 0xffff_f000 ==>
        p % 4096 == 0 && NPages(size) * 4096 >= size && v == old(v).(big := old(v.big)[p := NPages(size)])
      ensures p != 0 && size > 0xffff_f000 ==> v == old(v)
    {
      if size >= 2048 {
        LargeEnoughIff(size);
        if page != 0 && NPages(size) > 0 {
          BigKeeps(v, page, NPages(size));
          v := v.(big := v.big[page := NPages(size)]);
        }
        return page, 0;
      }
      p, back := SubpageKmalloc(size, page, refPage, n, h, leaked);
    }

    /** kfree on a pointer that kmalloc returned, or NULL. */
    method Kfree(ptr: nat) returns (r: Freed)
      requires Valid() && (ptr == 0 || ptr in v.live || ptr in v.big)
      modifies this`mem, this`refs, this`sizebases, this`allbase, this`v, table
      ensures r.Panicked? ==> table.leaked
      ensures !r.Panicked? ==> Valid()
      ensures ptr == 0 ==> r.Kept? && v == old(v)
      ensures ptr != 0 && ptr in old(v.big) ==> r == Released(ptr) && ptr % 4096 == 0
                                                && v == old(v).(big := old(v.big) - {ptr})
      ensures ptr != 0 && ptr !in old(v.big) && !r.Panicked? ==> v.live == old(v.live) - {ptr} && v.big == old(v.big)
      ensures ptr != 0 && ptr !in old(v.big) ==>
        |old(v).refs| == 4096 && FreedAs(old(v), old(table.roots), ptr, r, v.slots)
    {
      if ptr == 0 { return Kept; }
      r := SubpageKfree(ptr);
      if r.NotOurs? {
        BigDropKeeps(v, ptr);
        v := v.(big := v.big - {ptr});
        return Released(ptr);
      }
    }

    /** A client writes a word in a block it holds: the heap does not notice. */
    method ClientStore(p: nat, a: nat, w: nat, ghost n: nat)
      requires Valid() && SmallBlock(v, p, n) && p <= a < p + n
      modifies this`mem, this`v
      ensures Valid() && v == old(v).(mem := mem) && mem == old(mem)[a := w]
    {
      ghost var h := v.(mem := v.mem[a := w]);
      StoreKeeps(v, p, a, w, n);
      Poke(a, w, h);
    }

    method Poke(a: nat, w: nat, ghost h: View)
      requires Shown() && h == v.(mem := mem[a := w])
      modifies this`mem, this`v
      ensures Shown() && v == h && mem == old(mem)[a := w]
    {
      mem := mem[a := w];
      v := h;
    }
  }

  /** Block ptr was on page s. The page was kept exactly if another of its blocks is in
      use; if none is, it left the lists, and freeing its pageref failed exactly if a root
      before the pageref's own has no page. */
  ghost predicate LastBlock(h: View, roots: seq<PageRefs.Root>, s: nat, ptr: nat, r: Freed, slots: seq<nat>)
    requires s < |h.refs| && s < 4096 && |roots| == 16
  {
    && BlockOn(h, s, ptr)
    && (r.Kept? <==> exists q: nat :: BlockOn(h, s, q) && q != ptr && q in h.live)
    && (r.Panicked? <==> !r.Kept? && !PageRefs.Paged(roots, s))
    && (r.Kept? ==> slots == h.slots)
    && (r.Released? ==> r.page == Base(h, s) && slots == Without(h.slots, s))
  }

  ghost predicate FreedAs(h: View, roots: seq<PageRefs.Root>, ptr: nat, r: Freed, slots: seq<nat>)
    requires |h.refs| == 4096
  {
    |roots| == 16 && exists s :: s in h.slots && s < 4096 && LastBlock(h, roots, s, ptr, r, slots)
  }

  /** A block in use lies on exactly one page; whole pages lie on none. */
  lemma OwnerOf(h: View, ptr: nat)
    requires Inv(h, -1) && (ptr in h.live || ptr in h.big)
    ensures ptr in h.live ==> exists s :: s in h.slots && s < 4096 && Base(h, s) <= ptr < Base(h, s) + 4096
    ensures ptr in h.big ==> forall s | s in h.slots && s < 4096 :: !(Base(h, s) <= ptr < Base(h, s) + 4096)
    ensures !(ptr in h.live && ptr in h.big)
  {
    if ptr in h.live {
      assert Housed(h, ptr);
      var s :| s in h.slots && s < 4096 && BlockOn(h, s, ptr) && h.live[ptr] <= BlockSize(Kind(h, s));
      BlockWithin(h, s, ptr);
    }
    if ptr in h.big {
      forall s | s in h.slots && s < 4096
        ensures !(Base(h, s) <= ptr < Base(h, s) + 4096)
      {
        WholePages(ptr, h.big[ptr], Base(h, s));
      }
    }
  }

  lemma OwnerIs(h: View, ptr: nat, pr: nat)
    requires Inv(h, -1) && ptr in h.live && pr in h.slots && pr < 4096 && Base(h, pr) <= ptr < Base(h, pr) + 4096
    ensures BlockOn(h, pr, ptr)
  {
    assert Housed(h, ptr);
    var s :| s in h.slots && s < 4096 && BlockOn(h, s, ptr) && h.live[ptr] <= BlockSize(Kind(h, s));
    BlockWithin(h, s, ptr);
    if Base(h, s) != Base(h, pr) { PagesApart(Base(h, s), Base(h, pr)); }
  }

  lemma BigAdded(h: View, a: nat, n: nat)
    requires |h.refs| == 4096 && BigOk(h) && n >= 1 && Unused(h, a, n)
    ensures BigOk(h.(big := h.big[a := n]))
  {
    var h' := h.(big := h.big[a := n]);
    assert forall s | s in h.slots && s < 4096 :: Base(h', s) == Base(h, s);
  }

  lemma BigKeeps(h: View, a: nat, n: nat)
    requires Inv(h, -1) && n >= 1 && Unused(h, a, n)
    ensures Inv(h.(big := h.big[a := n]), -1)
  {
    BigAdded(h, a, n);
    SameButBig(h, h.(big := h.big[a := n]));
  }

  lemma BigDropped(h: View, a: nat)
    requires |h.refs| == 4096 && BigOk(h) && a in h.big
    ensures BigOk(h.(big := h.big - {a})) && a % 4096 == 0
  {
    var h' := h.(big := h.big - {a});
    assert forall s | s in h.slots && s < 4096 :: Base(h', s) == Base(h, s);
  }

  lemma BigDropKeeps(h: View, a: nat)
    requires Inv(h, -1) && a in h.big
    ensures Inv(h.(big := h.big - {a}), -1) && a % 4096 == 0
  {
    BigDropped(h, a);
    SameButBig(h, h.(big := h.big - {a}));
  }

  lemma SameButBig(h: View, h': View)
    requires ListsOk(h) && PagesOk(h) && LiveOk(h) && NoneEmpty(h, -1) && h' == h.(big := h'.big)
    ensures ListsOk(h') && PagesOk(h') && LiveOk(h') && NoneEmpty(h', -1)
  {
    assert forall s | s in h.slots && s < 4096 :: PageOk(h, s) ==> PageOk(h', s);
    forall p | p in h.live
      ensures Housed(h', p)
    {
      assert Housed(h, p);
      var t :| t in h.slots && t < 4096 && BlockOn(h, t, p) && h.live[p] <= BlockSize(Kind(h, t));
      assert BlockOn(h', t, p);
    }
  }

  lemma StoreOnPage(h: View, s: nat, p: nat, a: nat, w: nat)
    requires |h.refs| == 4096 && s in h.slots && s < 4096 && PageOk(h, s) && BlockOn(h, s, p) && p in h.live
    requires PageLive(Base(h, s), Kind(h, s), h.chains[s], h.live) && p <= a < p + BlockSize(Kind(h, s))
    ensures var h' := h.(mem := h.mem[a := w]); OnlyPage(h, h', s) && PageOk(h', s)
  {
    BlockWithin(h, s, p);
    StorePage(h.mem, h.mem[a := w], Base(h, s), Kind(h, s), h.refs[s].first, h.refs[s].nfree, h.chains[s], p, a);
  }

  lemma StoreKeeps(h: View, p: nat, a: nat, w: nat, n: nat)
    requires Inv(h, -1) && SmallBlock(h, p, n) && p <= a < p + n
    ensures Inv(h.(mem := h.mem[a := w]), -1)
  {
    var s :| s in h.slots && s < 4096 && p in h.live && BlockOn(h, s, p) && n == BlockSize(Kind(h, s));
    assert PageOk(h, s);
    StoreOnPage(h, s, p, a, w);
    OtherPages(h, h.(mem := h.mem[a := w]), s);
    SameButMem(h, h.(mem := h.mem[a := w]));
  }

  /** A store inside a block in use misses every free block of its page. */
  lemma StorePage(m: Memory, m': Memory, base: nat, b: nat, first: nat, nfree: nat, chain: seq<nat>, p: nat, a: nat)
    requires IsChain(m, base, b, first, nfree, chain) && BlockAt(base, b, p) && p - base !in chain
    requires p <= a < p + BlockSize(b) && a in m' && m' == m[a := m'[a]]
    ensures IsChain(m', base, b, first, nfree, chain)
  {
    forall i | 0 <= i < |chain|
      ensures Read(m', base + chain[i]) == Read(m, base + chain[i])
    {
      MultiplesApart(b, p - base, chain[i]);
    }
    ChainFrame(m, m', base, b, first, nfree, chain);
  }

  lemma SameButMem(h: View, h': View)
    requires ListsOk(h) && PagesOk(h) && LiveOk(h) && NoneEmpty(h, -1) && BigOk(h)
    requires h' == h.(mem := h'.mem) && PagesOk(h')
    ensures Inv(h', -1)
  {
    forall p | p in h.live
      ensures Housed(h', p)
    {
      assert Housed(h, p);
      var t :| t in h.slots && t < 4096 && BlockOn(h, t, p) && h.live[p] <= BlockSize(Kind(h, t));
      assert BlockOn(h', t, p);
    }
  }

  datatype Freed = NotOurs | Kept | Released(page: nat) | Panicked

  lemma KeptIsFull(h: View, h': View, s: nat)
    requires |h.refs| == 4096 && Inv(h', s) && s < 4096 && Kind(h', s) < 8 && h'.refs[s].nfree < Blocks(Kind(h', s))
    ensures Inv(h', -1)
  {}

  /** The block taken is the client's, and aligned. */
  lemma BlockServes(h: View, h': View, s: nat, p: nat, size: nat)
    requires |h.refs| == 4096 && s in h.slots && s < 4096 && PageOk(h, s) && h.refs[s].nfree > 0 && h.chains[s] != []
    requires h' == Take(h, s, size) && p == Base(h, s) + h.chains[s][0] && BlockOn(h, s, p)
    ensures p > 0 && SmallBlock(h', p, BlockSize(Kind(h, s))) && p % BlockSize(Kind(h, s)) == 0
  {
    var n, off, base := BlockSize(Kind(h, s)), h.chains[s][0], Base(h, s);
    assert Base(h', s) == base && Kind(h', s) == Kind(h, s) && BlockOn(h', s, p);
    DividesIsMod(n, off);
    BlocksFill(Kind(h, s));
    var x, k, y := base / 4096, Blocks(Kind(h, s)), off / n;
    assert base == x * 4096 && off == y * n;
    Assoc(x, k, n);
    Distr(x * k, y, n);
    DivIs(p, n, x * k + y, 0);
  }
}

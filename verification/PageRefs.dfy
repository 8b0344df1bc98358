// allocpageref and freepageref: a bitmap of the pageref structures in use, one root
// for each page of 256 of them.
module PageRefs {

  /** page: whether the root's page of pagerefs has been allocated. A bitmap word of
      the source is 32 consecutive entries of inuse. */
  datatype Root = Root(page: bool, inuse: seq<bool>, num: nat)

  function Count(bits: seq<bool>): (n: nat)
    ensures n <= |bits|
  {
    if bits == [] then 0 else (if bits[0] then 1 else 0) + Count(bits[1..])
  }

  lemma {:induction false} CountUpdate(bits: seq<bool>, j: nat, b: bool)
    requires j < |bits|
    ensures Count(bits[j := b]) == Count(bits) - (if bits[j] then 1 else 0) + (if b then 1 else 0)
  {
    if j == 0 {
      assert bits[0 := b][1..] == bits[1..];
    } else {
      CountUpdate(bits[1..], j - 1, b);
      assert bits[j := b][1..] == bits[1..][j - 1 := b];
    }
  }

  lemma {:induction false} CountFull(bits: seq<bool>)
    ensures Count(bits) == |bits| <==> forall j :: 0 <= j < |bits| ==> bits[j]
  {
    if bits != [] {
      CountFull(bits[1..]);
      assert (forall j :: 0 <= j < |bits| ==> bits[j]) <==>
             bits[0] && forall j :: 0 <= j < |bits[1..]| ==> bits[1..][j] by {
        assert forall j :: 0 <= j < |bits| - 1 ==> bits[1..][j] == bits[j + 1];
        assert forall j :: 0 < j < |bits| ==> bits[j] == bits[1..][j - 1];
      }
    }
  }

  lemma {:induction false} CountNone(bits: seq<bool>)
    ensures Count(bits) == 0 <==> forall j :: 0 <= j < |bits| ==> !bits[j]
  {
    if bits != [] {
      CountNone(bits[1..]);
      assert (forall j :: 0 <= j < |bits| ==> !bits[j]) <==>
             !bits[0] && forall j :: 0 <= j < |bits[1..]| ==> !bits[1..][j] by {
        assert forall j :: 0 <= j < |bits| - 1 ==> bits[1..][j] == bits[j + 1];
        assert forall j :: 0 < j < |bits| ==> bits[j] == bits[1..][j - 1];
      }
    }
  }

  /** The scan for a clear bit, word by word. */
  method FindBit(inuse: seq<bool>) returns (at: int)
    requires |inuse| == 256
    ensures at >= 0 ==> at < 256 && !inuse[at] && forall j :: 0 <= j < at ==> inuse[j]
    ensures at < 0 ==> forall j :: 0 <= j < 256 ==> inuse[j]
  {
    for i := 0 to 8
      invariant forall j :: 0 <= j < i * 32 ==> inuse[j]
    {
      for j := 0 to 32
        invariant forall k :: 0 <= k < i * 32 + j ==> inuse[k]
      {
        if !inuse[i * 32 + j] {
          return i * 32 + j;
        }
      }
    }
    return -1;
  }

  /** All roots before the one that slot belongs to have their page. */
  predicate Paged(roots: seq<Root>, slot: nat)
    requires |roots| == 16 && slot < 4096
  {
    forall r :: 0 <= r < slot / 256 ==> roots[r].page
  }

  /** Slot 256 * r + j is pageref j of root r. */
  predicate InUse(roots: seq<Root>, slot: nat)
    requires |roots| == 16 && forall r :: 0 <= r < 16 ==> |roots[r].inuse| == 256
  {
    slot < 4096 && roots[slot / 256].inuse[slot % 256]
  }

  predicate IsCovered(roots: seq<Root>, slot: nat)
    requires |roots| == 16 && forall r :: 0 <= r < 16 ==> |roots[r].inuse| == 256
  {
    InUse(roots, slot) && roots[slot / 256].page
  }

  /** numinuse counts the bits. A root is used only when those before it have a page or
      are full, and without a page it never gets a bit back. */
  ghost predicate RootsOk(roots: seq<Root>, leaked: bool) {
    && |roots| == 16
    && (forall r :: 0 <= r < 16 ==> |roots[r].inuse| == 256 && roots[r].num == Count(roots[r].inuse))
    && (!leaked ==> forall r :: 0 <= r < 16 ==> roots[r].page || roots[r].num == 0)
    && (forall r, s :: 0 <= r < s < 16 && (roots[s].page || roots[s].num > 0) ==> roots[r].page || roots[r].num == 256)
  }

  /** What marking slot at leaves: one more bit, and a page if there was one or got is
      true. */
  function Marked(roots: seq<Root>, at: nat, got: bool): seq<Root>
    requires |roots| == 16 && at < 4096 && |roots[at / 256].inuse| == 256
  {
    var root := roots[at / 256];
    roots[at / 256 := Root(root.page || got, root.inuse[at % 256 := true], root.num + 1)]
  }

  class Table {
    var roots: seq<Root>
    ghost var leaked: bool   // a page of pagerefs could not be allocated once

    ghost predicate Valid()
      reads this
    {
      RootsOk(roots, leaked)
    }

    /** A pageref that has been handed out: marked, and on a page that exists. */
    ghost predicate Covered(slot: nat)
      reads this
      requires Valid()
    {
      IsCovered(roots, slot)
    }

    constructor ()
      ensures Valid() && !leaked && forall slot: nat :: !InUse(roots, slot)
      ensures forall r :: 0 <= r < 16 ==> !roots[r].page
    {
      var empty := Root(false, seq(256, _ => false), 0);
      roots := seq(16, _ => empty);
      leaked := false;
      CountNone(empty.inuse);
    }

    /** What others leave while the lock is given up. */
    method Become(next: seq<Root>, ghost leaked': bool)
      requires RootsOk(next, leaked')
      modifies this
      ensures roots == next && leaked == leaked'
    {
      roots, leaked := next, leaked';
    }

    /** allocpageref, or -1; at is the slot it marks. gotPage says whether alloc_kpages
        would supply a page for a root that has none; if it does not, the bit already set
        stays set. */
    method Alloc(gotPage: bool) returns (slot: int, ghost at: int)
      requires Valid()
      modifies this
      ensures Valid()
      ensures at < 0 ==> slot < 0 && unchanged(this) && forall k: nat | k < 4096 :: InUse(roots, k)
      ensures at >= 0 ==> at < 4096 && !InUse(old(roots), at) && forall k: nat | k < at :: InUse(old(roots), k)
      ensures at >= 0 ==> roots == Marked(old(roots), at, gotPage) && leaked == (old(leaked) || slot < 0)
      ensures at >= 0 ==> slot == if old(roots)[at / 256].page || gotPage then at else -1
      ensures slot >= 0 ==> slot < 4096 && !InUse(old(roots), slot) && Covered(slot) && leaked == old(leaked)
      ensures at >= 0 ==> InUse(roots, at) && forall k: nat | k != at :: InUse(roots, k) == InUse(old(roots), k)
      ensures forall k: nat | old(Covered(k)) :: Covered(k)
      ensures slot < 0 ==> gotPage ==> unchanged(this) && forall k: nat | k < 4096 :: InUse(roots, k)
      ensures forall r :: 0 <= r < 16 && old(roots[r].num) < 256 && gotPage ==> slot >= 0
    {
      var r := 0;
      while r < 16
        invariant 0 <= r <= 16
        invariant forall q :: 0 <= q < r ==> roots[q].num == 256
        modifies {}
      {
        if roots[r].num < 256 { break; }
        r := r + 1;
      }
      if r < 16 {
        CountFull(roots[r].inuse);
        var j := FindBit(roots[r].inuse);
        assert j >= 0;
        slot, at := Mark(r, j, gotPage);
        return;
      }
      forall k: nat | k < 4096
        ensures InUse(roots, k)
      {
        CountFull(roots[k / 256].inuse);
      }
      return -1, -1;
    }

    /** The rest of allocpageref, once bit j of root r has been found. */
    method Mark(r: nat, j: nat, gotPage: bool) returns (slot: int, ghost at: int)
      requires Valid() && r < 16 && j < 256 && !roots[r].inuse[j] && forall i :: 0 <= i < j ==> roots[r].inuse[i]
      requires forall q :: 0 <= q < r ==> roots[q].num == 256
      modifies this
      ensures Valid() && at == 256 * r + j
      ensures !InUse(old(roots), at) && forall k: nat | k < at :: InUse(old(roots), k)
      ensures roots == Marked(old(roots), at, gotPage) && leaked == (old(leaked) || slot < 0)
      ensures slot == if old(roots)[r].page || gotPage then at else -1
      ensures InUse(roots, at) && (slot >= 0 ==> Covered(slot))
      ensures forall k: nat | k != at :: InUse(roots, k) == InUse(old(roots), k)
      ensures forall k: nat | old(Covered(k)) :: Covered(k)
    {
      at := 256 * r + j;
      assert at / 256 == r && at % 256 == j;
      forall k: nat | k < at
        ensures InUse(roots, k)
      {
        if k / 256 < r { CountFull(roots[k / 256].inuse); }
      }
      CountUpdate(roots[r].inuse, j, true);
      CountFull(roots[r].inuse);
      var page := roots[r].page || gotPage;
      if !page { leaked := true; }
      roots := roots[r := Root(page, roots[r].inuse[j := true], roots[r].num + 1)];
      return if page then 256 * r + j else -1, at;
    }

    /** freepageref. The one assertion that can fail is that a root without a page has
        nothing in use. It fails exactly if a root before the one the pageref is on has
        no page, for then all of that root's bits are marked. */
    method Free(slot: nat) returns (ok: bool)
      requires Valid() && slot < 4096 && Covered(slot)
      modifies this`roots
      ensures Valid()
      ensures ok <==> Paged(old(roots), slot)
      ensures !leaked ==> ok
      ensures ok ==> !InUse(roots, slot)
      ensures ok ==> forall k: nat | k != slot ::
                       InUse(roots, k) == InUse(old(roots), k) && Covered(k) == old(Covered(k))
      ensures !ok ==> unchanged(this)
    {
      var r := 0;
      while r < 16
        invariant 0 <= r <= slot / 256 && unchanged(this)
        invariant forall q :: 0 <= q < r ==> roots[q].page
        decreases 16 - r
      {
        if !roots[r].page {
          if roots[r].num != 0 { return false; }
          r := r + 1;
          continue;
        }
        if r * 256 <= slot < r * 256 + 256 {
          var j := slot - r * 256;
          assert r == slot / 256 && j == slot % 256;
          CountUpdate(roots[r].inuse, j, false);
          roots := roots[r := Root(true, roots[r].inuse[j := false], roots[r].num - 1)];
          forall k: nat | k != slot && k < 4096
            ensures k / 256 != r || k % 256 != j
          {
            assert k == k / 256 * 256 + k % 256;
          }
          return true;
        }
        r := r + 1;
      }
      assert false;
    }
  }

  /** A run that ends in the failing assertion: 256 refusals use up the first root, the
      next pageref comes from the second, and cannot be given back. */
  method FreeCanFail() returns (table: Table, slot: nat, ok: bool)
    ensures table.Valid() && slot == 256 && table.Covered(slot) && !ok
  {
    table := new Table();
    for i := 0 to 256
      invariant table.Valid() && fresh(table) && !table.roots[0].page
      invariant forall k: nat | k < 4096 :: InUse(table.roots, k) <==> k < i
    {
      var s;
      ghost var at;
      assert !InUse(table.roots, i);
      s, at := table.Alloc(false);
      assert at == i;
    }
    var s;
    ghost var at;
    assert !InUse(table.roots, 256);
    s, at := table.Alloc(true);
    assert at == 256;
    slot := 256;
    ghost var roots := table.roots;
    assert !roots[0].page && !Paged(roots, 256);
    ok := table.Free(slot);
  }
}

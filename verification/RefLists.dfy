// Pagerefs and the two singly linked lists each of them is on: all pages, and the
// pages of one block size.
module RefLists {
  import opened Basics

  /** A pageref; a list pointer is an index into the pagerefs, or -1 for NULL. */
  datatype PageRef = PageRef(nextSame: int, nextAll: int, pab: nat, first: nat, nfree: nat)

  /** PR_PAGEADDR, PR_BLOCKTYPE and MKPAB: a page address and a block type in one word. */
  function PageAddr(r: PageRef): (a: nat)
    ensures a % 4096 == 0
  {
    r.pab - r.pab % 4096
  }

  function BlockType(r: PageRef): nat {
    r.pab % 4096
  }

  function MkPab(pa: nat, blk: nat): nat {
    pa - pa % 4096 + blk % 4096
  }

  lemma PabRoundTrip(r: PageRef, pa: nat, blk: nat)
    requires pa % 4096 == 0 && blk < 4096 && r.pab == MkPab(pa, blk)
    ensures PageAddr(r) == pa && BlockType(r) == blk
  {}

  function Nxt(r: PageRef, same: bool): int {
    if same then r.nextSame else r.nextAll
  }

  function SetNxt(r: PageRef, same: bool, p: int): PageRef {
    if same then r.(nextSame := p) else r.(nextAll := p)
  }

  function HeadOf(list: seq<nat>): int {
    if list == [] then -1 else list[0]
  }

  function After(list: seq<nat>, i: nat): int
    requires i < |list|
  {
    if i + 1 < |list| then list[i + 1] else -1
  }

  /** list is what the pointers spell out from head on. */
  ghost predicate Linked(refs: seq<PageRef>, same: bool, head: int, list: seq<nat>) {
    && head == HeadOf(list)
    && forall i :: 0 <= i < |list| ==>
         list[i] < |refs| && Nxt(refs[list[i]], same) == After(list, i)
  }

  lemma LinkedPush(refs: seq<PageRef>, refs': seq<PageRef>, same: bool, head: int, list: seq<nat>, p: nat)
    requires Linked(refs, same, head, list) && p < |refs| == |refs'| && p !in list
    requires Nxt(refs'[p], same) == head
    requires forall q :: 0 <= q < |refs| && q != p ==> Nxt(refs'[q], same) == Nxt(refs[q], same)
    ensures Linked(refs', same, p, [p] + list)
  {
    var l := [p] + list;
    forall i | 0 <= i < |l|
      ensures l[i] < |refs'| && Nxt(refs'[l[i]], same) == After(l, i)
    {
      if i > 0 { assert l[i] == list[i - 1] && list[i - 1] in list && l[i] != p; }
      assert i + 1 < |l| ==> l[i + 1] == list[i];
    }
  }

  lemma LinkedFrame(refs: seq<PageRef>, refs': seq<PageRef>, same: bool, head: int, list: seq<nat>)
    requires Linked(refs, same, head, list) && |refs'| == |refs|
    requires forall q :: q in list && q < |refs| ==> Nxt(refs'[q], same) == Nxt(refs[q], same)
    ensures Linked(refs', same, head, list)
  {}

  /** list without x. */
  function Without(list: seq<nat>, x: nat): seq<nat> {
    if list == [] then []
    else if list[0] == x then Without(list[1..], x)
    else [list[0]] + Without(list[1..], x)
  }

  lemma {:induction false} WithoutAbsent(list: seq<nat>, x: nat)
    requires x !in list
    ensures Without(list, x) == list
  {
    if list != [] { WithoutAbsent(list[1..], x); }
  }

  /** list without position k. */
  function RemoveAt(list: seq<nat>, k: nat): (l: seq<nat>)
    requires k < |list|
    ensures |l| == |list| - 1 && forall i :: 0 <= i < |l| ==> l[i] == if i < k then list[i] else list[i + 1]
  {
    list[..k] + list[k + 1..]
  }

  lemma {:induction false} WithoutAt(list: seq<nat>, k: nat)
    requires k < |list| && Distinct(list)
    ensures Without(list, list[k]) == RemoveAt(list, k)
  {
    if k == 0 {
      WithoutAbsent(list[1..], list[0]);
      assert RemoveAt(list, 0) == list[1..];
    } else {
      WithoutAt(list[1..], k - 1);
      assert RemoveAt(list, k) == [list[0]] + RemoveAt(list[1..], k - 1);
    }
  }

  lemma {:induction false} WithoutMembers(list: seq<nat>, x: nat)
    ensures forall y :: y in Without(list, x) <==> y in list && y != x
    ensures Distinct(list) ==> Distinct(Without(list, x))
  {
    if list != [] {
      WithoutMembers(list[1..], x);
      assert list == [list[0]] + list[1..];
      var w := Without(list[1..], x);
      assert Distinct(list) ==> list[0] !in list[1..];
    }
  }

  /** The pages of block type b, in the order of the list. */
  function OfType(refs: seq<PageRef>, list: seq<nat>, b: nat): seq<nat> {
    if list == [] then []
    else if list[0] < |refs| && BlockType(refs[list[0]]) == b then [list[0]] + OfType(refs, list[1..], b)
    else OfType(refs, list[1..], b)
  }

  lemma {:induction false} OfTypeMembers(refs: seq<PageRef>, list: seq<nat>, b: nat)
    ensures forall y :: y in OfType(refs, list, b) <==> y in list && y < |refs| && BlockType(refs[y]) == b
    ensures Distinct(list) ==> Distinct(OfType(refs, list, b))
  {
    if list != [] {
      OfTypeMembers(refs, list[1..], b);
      assert list == [list[0]] + list[1..];
      assert Distinct(list) ==> list[0] !in list[1..];
    }
  }

  lemma {:induction false} OfTypeFrame(refs: seq<PageRef>, refs': seq<PageRef>, list: seq<nat>, b: nat)
    requires |refs| == |refs'|
    requires forall p :: p in list && p < |refs| ==> refs'[p].pab == refs[p].pab
    ensures OfType(refs', list, b) == OfType(refs, list, b)
  {
    if list != [] { OfTypeFrame(refs, refs', list[1..], b); }
  }

  lemma {:induction false} OfTypeWithout(refs: seq<PageRef>, list: seq<nat>, b: nat, x: nat)
    ensures OfType(refs, Without(list, x), b) == Without(OfType(refs, list, b), x)
  {
    if list != [] {
      OfTypeWithout(refs, list[1..], b, x);
      assert list[0] != x ==> Without(list, x)[1..] == Without(list[1..], x);
    }
  }

  /** The walk of remove_lists: the pageref before p, or -1 if p is first. */
  method Before(refs: seq<PageRef>, same: bool, head: int, p: nat, ghost list: seq<nat>)
    returns (prev: int, ghost k: nat)
    requires Linked(refs, same, head, list) && p in list
    ensures k < |list| && list[k] == p && prev == if k == 0 then -1 else list[k - 1]
  {
    var cur := head;
    prev, k := -1, 0;
    while cur != p
      invariant 0 <= k < |list| && cur == list[k]
      invariant forall j :: 0 <= j < k ==> list[j] != p
      invariant prev == if k == 0 then -1 else list[k - 1]
      decreases |list| - k
    {
      prev, cur := cur, Nxt(refs[cur], same);
      k := k + 1;
    }
  }

  /** One loop of remove_lists: p leaves the list that starts at head. */
  method Unlink(refs: seq<PageRef>, same: bool, head: int, p: nat, ghost list: seq<nat>)
    returns (refs': seq<PageRef>, head': int)
    requires Linked(refs, same, head, list) && Distinct(list) && p in list
    ensures |refs'| == |refs| && Linked(refs', same, head', Without(list, p))
    ensures forall q :: 0 <= q < |refs| ==> refs'[q] == SetNxt(refs[q], same, Nxt(refs'[q], same))
    ensures forall q :: 0 <= q < |refs| && q !in list ==> refs'[q] == refs[q]
  {
    ghost var k;
    var prev;
    prev, k := Before(refs, same, head, p, list);
    if prev == -1 {
      refs', head' := refs, Nxt(refs[p], same);
    } else {
      refs', head' := refs[prev := SetNxt(refs[prev], same, Nxt(refs[p], same))], head;
    }
    WithoutAt(list, k);
    UnlinkedAt(refs, refs', same, head, head', list, k);
  }

  lemma UnlinkedAt(refs: seq<PageRef>, refs': seq<PageRef>, same: bool, head: int, head': int, list: seq<nat>, k: nat)
    requires Linked(refs, same, head, list) && Distinct(list) && k < |list| && |refs'| == |refs|
    requires head' == if k == 0 then Nxt(refs[list[0]], same) else head
    requires forall i :: 0 <= i < |list| ==>
      Nxt(refs'[list[i]], same) == if i + 1 == k then After(list, k) else After(list, i)
    ensures Linked(refs', same, head', RemoveAt(list, k))
  {}
}

// threadlist: the doubly linked list of threads with a bookend node at each end,
// shown to refine a sequence of threads.
module ThreadList {
  import opened Basics

  class Thread {
    const listnode: Node

    /** threadlistnode_init */
    constructor ()
      ensures fresh(this) && fresh(listnode)
      ensures listnode.prev == null && listnode.next == null && listnode.self == this
    {
      var n := new Node();
      listnode := n;
      new;
      n.self := this;
    }
  }

  class Node {
    var prev: Node?
    var next: Node?
    var self: Thread?

    constructor ()
      ensures prev == null && next == null && self == null
    {
      prev, next, self := null, null, null;
    }
  }

  /** Consecutive nodes point at each other. */
  ghost predicate Linked(s: seq<Node>)
    reads s`prev, s`next
  {
    forall k :: 0 < k < |s| ==> s[k - 1].next == s[k] && s[k].prev == s[k - 1]
  }

  /** The bookends name no thread; every other node belongs to the thread it names. */
  ghost predicate Owned(s: seq<Node>)
    reads s`self
  {
    forall i :: 0 <= i < |s| ==>
      if 0 < i < |s| - 1 then s[i].self != null && s[i].self.listnode == s[i] else s[i].self == null
  }

  lemma InsertDistinct(s: seq<Node>, i: nat, x: Node)
    requires Distinct(s) && x !in s && i <= |s|
    ensures Distinct(s[..i] + [x] + s[i..])
  {
    var t := s[..i] + [x] + s[i..];
    forall j, k | 0 <= j < k < |t|
      ensures t[j] != t[k]
    {
      assert t[j] == if j < i then s[j] else if j == i then x else s[j - 1];
      assert t[k] == if k < i then s[k] else if k == i then x else s[k - 1];
    }
  }

  lemma RemoveDistinct(s: seq<Node>, i: nat)
    requires Distinct(s) && i < |s|
    ensures Distinct(s[..i] + s[i + 1..]) && s[i] !in s[..i] + s[i + 1..]
  {
    var t := s[..i] + s[i + 1..];
    forall j, k | 0 <= j < k < |t|
      ensures t[j] != t[k]
    {
      assert t[j] == if j < i then s[j] else s[j + 1];
      assert t[k] == if k < i then s[k] else s[k + 1];
    }
  }

  /** Consecutive nodes from position i on to position j point at each other. */
  ghost predicate LinkedIn(s: seq<Node>, i: nat, j: nat)
    reads s`prev, s`next
  {
    forall k :: i < k <= j && k < |s| ==> s[k - 1].next == s[k] && s[k].prev == s[k - 1]
  }

  /** A chain of distinct nodes from one bookend to the other. */
  ghost predicate Chain(s: seq<Node>)
    reads s
  {
    && |s| >= 2 && Distinct(s) && Linked(s) && Owned(s)
    && s[0].prev == null && s[|s| - 1].next == null
  }

  /** A chain in which the pointers between positions i and i + 1 have been turned to x. */
  ghost predicate Opened(a: seq<Node>, i: nat, x: Node)
    reads a, x
  {
    && i + 1 < |a| && Distinct(a) && x !in a && Owned(a) && x.self != null && x.self.listnode == x
    && a[0].prev == null && a[|a| - 1].next == null
    && LinkedIn(a, 0, i) && LinkedIn(a, i + 1, |a| - 1)
    && x.prev == a[i] && x.next == a[i + 1] && a[i].next == x && a[i + 1].prev == x
  }

  lemma OpenedIsChain(a: seq<Node>, i: nat, x: Node)
    requires Opened(a, i, x)
    ensures Chain(a[..i + 1] + [x] + a[i + 1..])
  {
    InsertDistinct(a, i + 1, x);
    OwnedInsert(a, i + 1, x);
    Spliced(a, i, x);
  }

  /** A chain in which the neighbours of position i have been turned to each other. */
  ghost predicate Closed(a: seq<Node>, i: nat)
    reads a
  {
    && 0 < i < |a| - 1 && Distinct(a) && Owned(a)
    && a[0].prev == null && a[|a| - 1].next == null
    && LinkedIn(a, 0, i - 1) && LinkedIn(a, i + 1, |a| - 1)
    && a[i - 1].next == a[i + 1] && a[i + 1].prev == a[i - 1]
  }

  lemma ClosedIsChain(a: seq<Node>, i: nat)
    requires Closed(a, i)
    ensures Chain(a[..i] + a[i + 1..]) && a[i] !in a[..i] + a[i + 1..]
  {
    RemoveDistinct(a, i);
    OwnedRemove(a, i);
    Unspliced(a, i);
  }

  /** Pointing the neighbours at positions i and i + 1 at x splices x in. */
  lemma Spliced(a: seq<Node>, i: nat, x: Node)
    requires i + 1 < |a| && LinkedIn(a, 0, i) && LinkedIn(a, i + 1, |a| - 1)
    requires x.prev == a[i] && x.next == a[i + 1] && a[i].next == x && a[i + 1].prev == x
    ensures Linked(a[..i + 1] + [x] + a[i + 1..])
  {
    var b := a[..i + 1] + [x] + a[i + 1..];
    forall k | 0 < k < |b|
      ensures b[k - 1].next == b[k] && b[k].prev == b[k - 1]
    {
      assert k <= i ==> b[k] == a[k] && b[k - 1] == a[k - 1];
      assert k > i + 2 ==> b[k] == a[k - 1] && b[k - 1] == a[k - 2];
    }
  }

  /** Pointing the neighbours of position i at each other unsplices the node there. */
  lemma Unspliced(a: seq<Node>, i: nat)
    requires 0 < i < |a| - 1 && LinkedIn(a, 0, i - 1) && LinkedIn(a, i + 1, |a| - 1)
    requires a[i - 1].next == a[i + 1] && a[i + 1].prev == a[i - 1]
    ensures Linked(a[..i] + a[i + 1..])
  {
    var b := a[..i] + a[i + 1..];
    forall k | 0 < k < |b|
      ensures b[k - 1].next == b[k] && b[k].prev == b[k - 1]
    {
      assert b[k] == a[if k < i then k else k + 1];
      assert b[k - 1] == a[if k - 1 < i then k - 1 else k];
    }
  }

  lemma OwnedInsert(s: seq<Node>, i: nat, x: Node)
    requires Owned(s) && 0 < i < |s| && x.self != null && x.self.listnode == x
    ensures Owned(s[..i] + [x] + s[i..])
  {
    var t := s[..i] + [x] + s[i..];
    forall k | 0 <= k < |t| && k != i
      ensures t[k] == s[if k < i then k else k - 1]
    {}
  }

  lemma OwnedRemove(s: seq<Node>, i: nat)
    requires Owned(s) && 0 < i < |s| - 1
    ensures Owned(s[..i] + s[i + 1..])
  {
    var t := s[..i] + s[i + 1..];
    forall k | 0 <= k < |t|
      ensures t[k] == s[if k < i then k else k + 1]
    {}
  }

  /** The threads named between the bookends. */
  ghost function ThreadsOf(s: seq<Node>): (ts: seq<Thread>)
    reads s
    requires |s| >= 2 && Owned(s)
    ensures |ts| == |s| - 2 && forall i :: 0 <= i < |ts| ==> ts[i] == s[i + 1].self
  {
    seq(|s| - 2, i requires 0 <= i < |s| - 2 && Owned(s) reads s => SelfOf(s[i + 1]))
  }

  ghost function SelfOf(n: Node): Thread
    reads n
    requires n.self != null
  {
    n.self
  }

  class List {
    const head: Node
    const tail: Node
    var count: nat
    ghost var all: seq<Node>   // every node, bookends included

    ghost predicate Valid()
      reads this, all
    {
      && |all| == count + 2 && all[0] == head && all[count + 1] == tail
      && Chain(all)
    }

    /** threadlist_init */
    constructor ()
      ensures Valid() && count == 0 && fresh(all)
    {
      var h := new Node();
      var t := new Node();
      head, tail, count, all := h, t, 0, [h, t];
      new;
      head.next, tail.prev := tail, head;
    }

    /** The four assignments shared by both insertions. */
    static method Link(addee: Node, before: Node, after: Node)
      requires addee != before && addee != after
      modifies addee`prev, addee`next, before`next, after`prev
      ensures addee.prev == before && addee.next == after && before.next == addee && after.prev == addee
    {
      addee.prev := before;
      addee.next := after;
      addee.prev.next := addee;
      addee.next.prev := addee;
    }

    /** With addee between the nodes at positions i and i + 1, the nodes are a chain. */
    method LinkAt(addee: Node, before: Node, after: Node, ghost i: nat)
      requires Valid() && i <= count && before == all[i] && after == all[i + 1]
      requires addee !in all && addee.self != null && addee.self.listnode == addee
      modifies all`prev, all`next, addee`prev, addee`next
      ensures Chain(all[..i + 1] + [addee] + all[i + 1..])
    {
      Link(addee, before, after);
      OpenedIsChain(all, i, addee);
    }

    /** Linking and counting: addee goes between the nodes at positions i and i + 1. */
    method LinkBetween(addee: Node, before: Node, after: Node, ghost i: nat)
      requires Valid() && i <= count && before == all[i] && after == all[i + 1]
      requires addee !in all && addee.self != null && addee.self.listnode == addee
      modifies this`count, this`all, all`prev, all`next, addee`prev, addee`next
      ensures Valid() && all == old(all[..i + 1] + [addee] + all[i + 1..])
    {
      LinkAt(addee, before, after, i);
      count := count + 1;
      all := all[..i + 1] + [addee] + all[i + 1..];
    }

    /** threadlist_insertafternode */
    method InsertAfterNode(onlist: Node, t: Thread, ghost i: nat)
      requires Valid() && i <= count && onlist == all[i]
      requires t.listnode !in all && t.listnode.self == t
      modifies this`count, this`all, all`prev, all`next, t.listnode`prev, t.listnode`next
      ensures Valid() && all == old(all[..i + 1] + [t.listnode] + all[i + 1..])
    {
      assert all[i].next == all[i + 1];
      LinkBetween(t.listnode, onlist, onlist.next, i);
    }

    /** threadlist_insertbeforenode */
    method InsertBeforeNode(t: Thread, onlist: Node, ghost i: nat)
      requires Valid() && i <= count && onlist == all[i + 1]
      requires t.listnode !in all && t.listnode.self == t
      modifies this`count, this`all, all`prev, all`next, t.listnode`prev, t.listnode`next
      ensures Valid() && all == old(all[..i + 1] + [t.listnode] + all[i + 1..])
    {
      assert all[i + 1].prev == all[i];
      LinkBetween(t.listnode, onlist.prev, onlist, i);
    }

    /** threadlist_removenode */
    static method Unlink(tln: Node, before: Node, after: Node)
      requires tln.prev == before && tln.next == after && tln != before && tln != after
      modifies tln`prev, tln`next, before`next, after`prev
      ensures before.next == after && after.prev == before && tln.prev == null && tln.next == null
    {
      tln.prev.next := tln.next;
      tln.next.prev := tln.prev;
      tln.prev := null;
      tln.next := null;
    }

    /** Without the node at position i, the others are a chain. */
    method UnlinkAt(tln: Node, ghost i: nat)
      requires Valid() && 0 < i <= count && tln == all[i]
      modifies all`prev, all`next
      ensures Chain(all[..i] + all[i + 1..]) && tln !in all[..i] + all[i + 1..]
      ensures tln.prev == null && tln.next == null
    {
      ghost var a := all;
      assert a[i - 1].next == a[i] && a[i].prev == a[i - 1] && a[i].next == a[i + 1] && a[i + 1].prev == a[i];
      Unlink(tln, tln.prev, tln.next);
      ClosedIsChain(a, i);
    }

    /** The node at position i is unlinked and no longer counted. */
    method RemoveNode(tln: Node, ghost i: nat)
      requires Valid() && 0 < i <= count && tln == all[i]
      modifies this`count, this`all, all`prev, all`next
      ensures Valid() && all == old(all[..i] + all[i + 1..])
      ensures tln.prev == null && tln.next == null && tln !in all
    {
      UnlinkAt(tln, i);
      count := count - 1;
      all := all[..i] + all[i + 1..];
    }

    /** A node with no links is on no list. */
    lemma Unlinked(n: Node)
      requires Valid() && n.prev == null && n.next == null
      ensures n !in all
    {
      forall i | 0 <= i < |all|
        ensures all[i] != n
      {
        if i == 0 { assert all[0].next == all[1]; } else { assert all[i].prev == all[i - 1]; }
      }
    }

    ghost function Threads(): seq<Thread>
      reads this, all
      requires Valid()
    {
      ThreadsOf(all)
    }

    /** threadlist_isempty */
    method IsEmpty() returns (b: bool)
      requires Valid()
      ensures b <==> Threads() == []
    {
      b := count == 0;
    }

    /** threadlist_addhead */
    method AddHead(t: Thread)
      requires Valid() && t.listnode.self == t && t.listnode.prev == null && t.listnode.next == null
      modifies this`count, this`all, all`prev, all`next, t.listnode`prev, t.listnode`next
      ensures Valid() && Threads() == [t] + old(Threads()) && all == old(all[..1] + [t.listnode] + all[1..])
    {
      Unlinked(t.listnode);
      InsertAfterNode(head, t, 0);
    }

    /** threadlist_addtail */
    method AddTail(t: Thread)
      requires Valid() && t.listnode.self == t && t.listnode.prev == null && t.listnode.next == null
      modifies this`count, this`all, all`prev, all`next, t.listnode`prev, t.listnode`next
      ensures Valid() && Threads() == old(Threads()) + [t]
              && all == old(all[..count + 1] + [t.listnode] + all[count + 1..])
    {
      Unlinked(t.listnode);
      InsertBeforeNode(t, tail, count);
    }

    /** threadlist_remhead */
    method RemHead() returns (t: Thread?)
      requires Valid()
      modifies this`count, this`all, all`prev, all`next
      ensures Valid()
      ensures old(Threads()) == [] ==> t == null && all == old(all)
      ensures old(Threads()) != [] ==> t == old(Threads())[0] && Threads() == old(Threads())[1..]
      ensures t != null ==> Detached(t) && all == old(all[..1] + all[2..])
    {
      var tln := head.next;
      assert all[0].next == all[1] && (count > 0 ==> all[1].next == all[2]);
      if tln.next == null {
        return null;
      }
      RemoveNode(tln, 1);
      return tln.self;
    }

    /** threadlist_remtail */
    method RemTail() returns (t: Thread?)
      requires Valid()
      modifies this`count, this`all, all`prev, all`next
      ensures Valid()
      ensures old(Threads()) == [] ==> t == null && all == old(all)
      ensures old(Threads()) != [] ==>
                t == old(Threads())[|old(Threads())| - 1] && Threads() == old(Threads())[..|old(Threads())| - 1]
      ensures t != null ==> Detached(t) && all == old(all[..count] + all[count + 1..])
    {
      var tln := tail.prev;
      assert all[count + 1].prev == all[count] && (count > 0 ==> all[count].prev == all[count - 1]);
      if tln.prev == null {
        return null;
      }
      RemoveNode(tln, count);
      return tln.self;
    }

    /** t is on no list. */
    ghost predicate Detached(t: Thread)
      reads this, t.listnode
    {
      t.listnode.prev == null && t.listnode.next == null && t.listnode.self == t && t.listnode !in all
    }

    /** threadlist_insertafter */
    method InsertAfter(onlist: Thread, addee: Thread, ghost i: nat)
      requires Valid() && i < count && Threads()[i] == onlist
      requires addee.listnode.self == addee && addee.listnode.prev == null && addee.listnode.next == null
      modifies this`count, this`all, all`prev, all`next, addee.listnode`prev, addee.listnode`next
      ensures Valid() && Threads() == old(Threads()[..i + 1] + [addee] + Threads()[i + 1..])
    {
      Unlinked(addee.listnode);
      assert onlist.listnode == all[i + 1];
      InsertAfterNode(onlist.listnode, addee, i + 1);
    }

    /** threadlist_insertbefore */
    method InsertBefore(addee: Thread, onlist: Thread, ghost i: nat)
      requires Valid() && i < count && Threads()[i] == onlist
      requires addee.listnode.self == addee && addee.listnode.prev == null && addee.listnode.next == null
      modifies this`count, this`all, all`prev, all`next, addee.listnode`prev, addee.listnode`next
      ensures Valid() && Threads() == old(Threads()[..i] + [addee] + Threads()[i..])
    {
      Unlinked(addee.listnode);
      assert onlist.listnode == all[i + 1];
      InsertBeforeNode(addee, onlist.listnode, i);
    }

    /** threadlist_remove */
    method Remove(t: Thread, ghost i: nat)
      requires Valid() && i < count && Threads()[i] == t
      modifies this`count, this`all, all`prev, all`next
      ensures Valid() && Threads() == old(Threads()[..i] + Threads()[i + 1..])
      ensures Detached(t)
    {
      assert t.listnode == all[i + 1];
      RemoveNode(t.listnode, i + 1);
    }

    /** THREADLIST_FORALL visits the threads in order. */
    method Forward() returns (ts: seq<Thread>)
      requires Valid()
      ensures ts == Threads()
    {
      ts := [];
      assert all[0].next == all[1];
      var it := head.next.self;
      while it != null
        invariant |ts| <= count && ts == Threads()[..|ts|]
        invariant it == all[|ts| + 1].self
        decreases count - |ts|
      {
        ts := ts + [it];
        assert it.listnode == all[|ts|] && all[|ts|].next == all[|ts| + 1];
        it := it.listnode.next.self;
      }
    }

    /** THREADLIST_FORALL_REV visits the same threads in the opposite order. */
    method Backward() returns (ts: seq<Thread>)
      requires Valid()
      ensures |ts| == |Threads()| && forall k :: 0 <= k < |ts| ==> ts[k] == Threads()[|ts| - 1 - k]
    {
      ts := [];
      assert all[count + 1].prev == all[count];
      var it := tail.prev.self;
      while it != null
        invariant |ts| <= count
        invariant forall k :: 0 <= k < |ts| ==> ts[k] == Threads()[count - 1 - k]
        invariant it == all[count - |ts|].self
        decreases count - |ts|
      {
        ts := ts + [it];
        assert it.listnode == all[count + 1 - |ts|] && all[count + 1 - |ts|].prev == all[count - |ts|];
        it := it.listnode.prev.self;
      }
    }
  }

  ghost predicate Disjoint(a: seq<Node>, b: seq<Node>) {
    forall i, j :: 0 <= i < |a| && 0 <= j < |b| ==> a[i] != b[j]
  }

  lemma DisjointLess(a: seq<Node>, b: seq<Node>, k: nat)
    requires Disjoint(a, b) && k < |a|
    ensures Disjoint(a[..k] + a[k + 1..], b)
  {}

  lemma DisjointMoved(a: seq<Node>, b: seq<Node>, x: Node, k: nat)
    requires Disjoint(a, b) && x !in a && k <= |b|
    ensures Disjoint(a, b[..k] + [x] + b[k..])
  {}

  /** A list none of whose nodes changed is as it was. */
  twostate lemma Untouched(l: List)
    requires old(l.Valid()) && unchanged(l) && forall i | 0 <= i < |l.all| :: unchanged(l.all[i])
    ensures l.Valid() && l.Threads() == old(l.Threads())
  {}

  /** One step of wchan_wakeall's transfer: the head of one list becomes the tail of
      another, and each list keeps its other threads. */
  method MoveHead(src: List, dst: List) returns (done: bool)
    requires src != dst && src.Valid() && dst.Valid() && Disjoint(src.all, dst.all)
    modifies src`count, src`all, dst`count, dst`all, src.all`prev, src.all`next, dst.all`prev, dst.all`next
    ensures src.Valid() && dst.Valid() && Disjoint(src.all, dst.all)
    ensures done <==> old(src.Threads()) == []
    ensures src.Threads() == if done then [] else old(src.Threads())[1..]
    ensures dst.Threads() == if done then old(dst.Threads()) else old(dst.Threads()) + [old(src.Threads())[0]]
  {
    DisjointLess(src.all, dst.all, 1);
    var t := src.RemHead();
    Untouched(dst);
    if t == null {
      return true;
    }
    label removed:
    ghost var a, b := src.all, dst.all;
    dst.AddTail(t);
    Untouched@removed(src);
    DisjointMoved(a, b, t.listnode, |b| - 1);
    return false;
  }
}

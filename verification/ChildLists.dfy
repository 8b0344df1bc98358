// child_list: the children of a process, as a singly linked list of pids.
module ChildLists {
  import opened Basics

  /** s without the first x in it. */
  function Without(s: seq<int>, x: int): seq<int> {
    if s == [] then [] else if s[0] == x then s[1..] else [s[0]] + Without(s[1..], x)
  }

  lemma {:induction false} WithoutAt(s: seq<int>, k: nat)
    requires k < |s| && s[k] !in s[..k]
    ensures Without(s, s[k]) == s[..k] + s[k + 1..]
  {
    if k > 0 {
      assert s[0] in s[..k];
      assert s[1..][..k - 1] == s[..k][1..];
      WithoutAt(s[1..], k - 1);
      assert s[..k] + s[k + 1..] == [s[0]] + (s[1..][..k - 1] + s[1..][k..]);
    }
  }

  class Node {
    const pid: int
    var next: Node?

    constructor (pid: int)
      ensures this.pid == pid && next == null
    {
      this.pid := pid;
      next := null;
    }
  }

  /** Each node points to the next one, and the last to none. */
  ghost predicate Chain(nodes: seq<Node>)
    reads nodes`next
  {
    Distinct(nodes) && Consecutive(nodes)
  }

  ghost predicate Consecutive(nodes: seq<Node>)
    reads nodes`next
  {
    forall i :: 0 <= i < |nodes| ==> nodes[i].next == At(nodes, i + 1)
  }

  lemma RemoveDistinct(nodes: seq<Node>, k: nat)
    requires k < |nodes| && Distinct(nodes)
    ensures Distinct(RemoveAt(nodes, k))
  {}

  /** The last of the nodes points to n. */
  ghost predicate LeadTo(nodes: seq<Node>, n: Node)
    reads nodes`next
  {
    forall i :: 0 <= i < |nodes| ==> nodes[i].next == At(nodes + [n], i + 1)
  }

  lemma PushChain(nodes: seq<Node>, n: Node)
    requires Distinct(nodes) && LeadTo(nodes, n) && n !in nodes && n.next == null
    ensures Chain(nodes + [n])
  {
    var all := nodes + [n];
    forall i | 0 <= i < |all|
      ensures all[i].next == At(all, i + 1)
    {
      assert i < |nodes| ==> all[i] == nodes[i];
    }
  }

  /** The node before position k points past it, and every other one to the next. */
  ghost predicate Bypassed(nodes: seq<Node>, k: nat)
    requires k < |nodes|
    reads nodes`next
  {
    && (forall i :: 0 <= i < k - 1 || k < i < |nodes| ==> nodes[i].next == At(nodes, i + 1))
    && (k > 0 ==> nodes[k - 1].next == At(nodes, k + 1))
  }

  lemma BypassConsecutive(nodes: seq<Node>, k: nat)
    requires k < |nodes| && Bypassed(nodes, k)
    ensures Consecutive(RemoveAt(nodes, k))
  {
    var rest := RemoveAt(nodes, k);
    forall i | 0 <= i < |rest|
      ensures rest[i].next == At(rest, i + 1)
    {
      assert rest[i] == nodes[if i < k then i else i + 1];
      assert At(rest, i + 1) == At(nodes, if i + 1 < k then i + 1 else i + 2);
    }
  }

  lemma Elsewhere(nodes: seq<Node>, k: nat, i: nat)
    requires Distinct(nodes) && k < |nodes| && i < |nodes| && i != k
    ensures nodes[i] != nodes[k]
  {}

  function At(nodes: seq<Node>, i: nat): Node? {
    if i < |nodes| then nodes[i] else null
  }

  ghost function PidsOf(nodes: seq<Node>): (p: seq<int>)
    ensures |p| == |nodes| && forall i :: 0 <= i < |p| ==> p[i] == nodes[i].pid
  {
    seq(|nodes|, i requires 0 <= i < |nodes| => nodes[i].pid)
  }

  ghost function RemoveAt(nodes: seq<Node>, k: nat): (r: seq<Node>)
    requires k < |nodes|
    ensures |r| == |nodes| - 1 && forall i :: 0 <= i < |r| ==> r[i] == if i < k then nodes[i] else nodes[i + 1]
  {
    nodes[..k] + nodes[k + 1..]
  }

  lemma PidsRemoved(nodes: seq<Node>, k: nat)
    requires k < |nodes|
    ensures PidsOf(RemoveAt(nodes, k)) == PidsOf(nodes)[..k] + PidsOf(nodes)[k + 1..]
  {
    var p, r := PidsOf(nodes), RemoveAt(nodes, k);
    assert forall i :: 0 <= i < |r| ==> PidsOf(r)[i] == (p[..k] + p[k + 1..])[i];
  }

  lemma PidsPushed(nodes: seq<Node>, n: Node)
    ensures PidsOf(nodes + [n]) == PidsOf(nodes) + [n.pid]
  {}

  class List {
    var head: Node?
    ghost var nodes: seq<Node>

    ghost predicate Valid()
      reads this, nodes
    {
      Chain(nodes) && head == At(nodes, 0)
    }

    /** The pids on the list, in order. */
    ghost function Pids(): seq<int>
      reads this
    {
      PidsOf(nodes)
    }

    constructor ()
      ensures Valid() && Pids() == [] && nodes == []
    {
      head, nodes := null, [];
    }

    /** add_new_child, at the end of the list. It fails only if its node cannot be
        allocated, and then changes nothing. */
    method Add(child: int, got: bool) returns (ok: bool)
      requires Valid()
      modifies this, nodes`next
      ensures Valid() && ok == got
      ensures Pids() == if ok then old(Pids()) + [child] else old(Pids())
      ensures forall n | n in nodes :: n in old(nodes) || fresh(n)
    {
      if head == null {
        if !got { return false; }
        head := new Node(child);
        nodes := [head];
        return true;
      }
      var last: Node := head;
      ghost var k := 0;
      while last.next != null
        invariant 0 <= k < |nodes| && last == nodes[k]
        modifies {}
        decreases |nodes| - k
      {
        last := last.next;
        k := k + 1;
      }
      assert k == |nodes| - 1;
      if !got { return false; }
      var node := new Node(child);
      last.next := node;
      PidsPushed(nodes, node);
      PushChain(nodes, node);
      nodes := nodes + [node];
      return true;
    }

    /** The walk of remove_child_from_list: the first node with that pid, and the one
        before it. */
    method Find(child: int) returns (prev: Node?, c: Node?, ghost k: nat)
      requires Valid()
      ensures k <= |nodes| && c == At(nodes, k) && (prev == if k == 0 then null else nodes[k - 1])
      ensures child !in Pids()[..k] && (c != null ==> k < |nodes| && Pids()[k] == child)
    {
      prev, c, k := null, head, 0;
      while c != null
        invariant 0 <= k <= |nodes| && c == At(nodes, k)
        invariant prev == if k == 0 then null else nodes[k - 1]
        invariant child !in Pids()[..k]
        decreases |nodes| - k
      {
        if c.pid == child { return; }
        prev := c;
        c := c.next;
        k := k + 1;
      }
    }

    method Unlink(prev: Node?, c: Node, ghost k: nat)
      requires Valid() && k < |nodes| && c == nodes[k] && prev == if k == 0 then null else nodes[k - 1]
      modifies this, nodes`next
      ensures Valid() && nodes == RemoveAt(old(nodes), k)
    {
      RemoveDistinct(nodes, k);
      Relink(prev, c, k);
      nodes := RemoveAt(nodes, k);
    }

    method Relink(prev: Node?, c: Node, ghost k: nat)
      requires Valid() && k < |nodes| && c == nodes[k] && prev == if k == 0 then null else nodes[k - 1]
      modifies this`head, nodes`next
      ensures Consecutive(RemoveAt(nodes, k)) && head == At(RemoveAt(nodes, k), 0)
    {
      ghost var rest := RemoveAt(nodes, k);
      var next := c.next;
      assert next == At(nodes, k + 1) == At(rest, k);
      if prev == null {
        head := next;
      } else {
        prev.next := next;
      }
      BypassConsecutive(nodes, k);
    }

    /** remove_child_from_list */
    method Remove(child: int) returns (ok: bool)
      requires Valid()
      modifies this, nodes`next
      ensures Valid() && (ok <==> child in old(Pids()))
      ensures Pids() == if ok then Without(old(Pids()), child) else old(Pids())
      ensures forall n | n in nodes :: n in old(nodes)
    {
      var prev, c;
      ghost var k;
      prev, c, k := Find(child);
      if c == null {
        assert Pids()[..k] == Pids();
        return false;
      }
      WithoutAt(Pids(), k);
      PidsRemoved(nodes, k);
      Unlink(prev, c, k);
      return true;
    }

    /** is_child */
    method Has(child: int) returns (found: bool)
      requires Valid()
      ensures found <==> child in Pids()
    {
      var c := head;
      ghost var k := 0;
      while c != null
        invariant 0 <= k <= |nodes| && c == At(nodes, k)
        invariant child !in Pids()[..k]
        decreases |nodes| - k
      {
        if c.pid == child { return true; }
        c := c.next;
        k := k + 1;
      }
      assert Pids()[..k] == Pids();
      return false;
    }

    /** What delete_child_list takes off the list in one turn. */
    method RemoveFirst() returns (pid: int)
      requires Valid() && head != null
      modifies this, nodes`next
      ensures Valid() && old(Pids()) == [pid] + Pids()
      ensures forall n | n in nodes :: n in old(nodes)
    {
      var c := head;
      pid := c.pid;
      PidsRemoved(nodes, 0);
      ghost var p := Pids();
      assert p[..0] + p[1..] == p[1..] && p == [p[0]] + p[1..];
      Outside(nodes, 0);
      Unlink(null, c, 0);
      Clear(c);
    }

    method Clear(c: Node)
      requires Valid() && c !in nodes
      modifies c`next
      ensures Valid() && unchanged(this)
    {
      c.next := null;
    }
  }

  lemma Outside(nodes: seq<Node>, k: nat)
    requires Distinct(nodes) && k < |nodes|
    ensures nodes[k] !in RemoveAt(nodes, k)
  {
    forall i | 0 <= i < |nodes| && i != k
      ensures nodes[i] != nodes[k]
    {
      Elsewhere(nodes, k, i);
    }
  }
}

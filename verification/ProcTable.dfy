// The process table and the parent and child links. Each system call is one step.
module ProcTable {
  import opened Basics
  import opened ChildLists

  /** MAX_PROC */
  const MAX_PROC := 100

  function After(i: int): int {
    if i + 1 > MAX_PROC then 1 else i + 1
  }

  /** How many slots the scan passes from i before it is back at last. */
  function Distance(i: int, last: int): nat
    requires 1 <= i <= MAX_PROC && 1 <= last <= MAX_PROC
  {
    if i <= last then last - i else last - i + MAX_PROC
  }

  /** The circular scan from slot i: the first free slot, or -1 back at last. */
  function ScanFrom(taken: seq<bool>, last: int, i: int): int
    requires |taken| == MAX_PROC + 1 && 1 <= last <= MAX_PROC && 1 <= i <= MAX_PROC
    decreases Distance(i, last)
  {
    if i == last then -1 else if !taken[i] then i else ScanFrom(taken, last, After(i))
  }

  /** The pid the scan picks, or -1; before the first process the table is empty. */
  function Scan(taken: seq<bool>, last: int): int
    requires |taken| == MAX_PROC + 1 && 0 <= last <= MAX_PROC
  {
    if last == 0 then 1 else ScanFrom(taken, last, After(last))
  }

  /** Slot k is met by the scan that starts at i. */
  ghost predicate Ahead(i: int, last: int, k: int)
    requires 1 <= i <= MAX_PROC && 1 <= last <= MAX_PROC && 1 <= k <= MAX_PROC
  {
    Distance(k, last) <= Distance(i, last) && k != last
  }

  lemma {:induction false} ScanFromFinds(taken: seq<bool>, last: int, i: int)
    requires |taken| == MAX_PROC + 1 && 1 <= last <= MAX_PROC && 1 <= i <= MAX_PROC
    ensures var r := ScanFrom(taken, last, i);
            && (r == -1 <==> forall k :: 1 <= k <= MAX_PROC && Ahead(i, last, k) ==> taken[k])
            && (r != -1 ==> 1 <= r <= MAX_PROC && r != last && !taken[r] && Ahead(i, last, r)
                            && forall k :: 1 <= k <= MAX_PROC && Ahead(i, last, k) && !Ahead(r, last, k) ==> taken[k])
    decreases Distance(i, last)
  {
    if i != last && taken[i] {
      ScanFromFinds(taken, last, After(i));
      assert forall k :: 1 <= k <= MAX_PROC && Ahead(i, last, k) ==> k == i || Ahead(After(i), last, k);
    }
  }

  /** Every slot other than last is taken. */
  ghost predicate Full(taken: seq<bool>, last: int)
    requires |taken| == MAX_PROC + 1
  {
    forall k :: 1 <= k <= MAX_PROC && k != last ==> taken[k]
  }

  /** The scan fails only if every slot other than last is taken, and otherwise picks a
      free slot other than last. */
  lemma ScanFinds(taken: seq<bool>, last: int)
    requires |taken| == MAX_PROC + 1 && 0 <= last <= MAX_PROC
    requires last == 0 ==> forall k :: 1 <= k <= MAX_PROC ==> !taken[k]
    ensures Scan(taken, last) == -1 <==> Full(taken, last)
    ensures Scan(taken, last) != -1 ==> 1 <= Scan(taken, last) <= MAX_PROC && Scan(taken, last) != last
                                        && !taken[Scan(taken, last)]
  {
    if last > 0 {
      ScanFromFinds(taken, last, After(last));
      assert forall k :: 1 <= k <= MAX_PROC && k != last ==> Ahead(After(last), last, k);
    } else {
      assert !taken[1];
    }
  }

  // ---------------------------------------------------------------- families

  /** A process's links. */
  datatype Links = Links(father: int, children: seq<int>)

  /** The links of the live processes, by pid. */
  type Family = map<int, Links>

  /** Each child of p is listed once, is live and has p as its father. */
  ghost predicate ChildrenOk(m: Family, p: int)
    requires p in m
  {
    Distinct(m[p].children) && forall c | c in m[p].children :: c > 0 && c != p && c in m && m[c].father == p
  }

  /** If c has a father, it is live and lists c. */
  ghost predicate FatherOk(m: Family, c: int)
    requires c in m
  {
    m[c].father != -1 ==> m[c].father in m && c in m[m[c].father].children
  }

  ghost predicate FamilyOk(m: Family) {
    (forall p | p in m :: ChildrenOk(m, p)) && (forall c | c in m :: FatherOk(m, c)) && -1 !in m
  }

  /** c is in p's child list, once, if and only if p is c's father. */
  lemma FatherIffChild(m: Family, p: int, c: int)
    requires FamilyOk(m) && p in m && c in m
    ensures m[c].father == p <==> c in m[p].children
    ensures multiset(m[p].children)[c] == if m[c].father == p then 1 else 0
  {
    assert ChildrenOk(m, p) && FatherOk(m, c);
    if c in m[p].children {
      var k :| 0 <= k < |m[p].children| && m[p].children[k] == c;
      Once(m[p].children, k);
    }
  }

  lemma {:induction false} Once(s: seq<int>, k: nat)
    requires Distinct(s) && k < |s|
    ensures multiset(s)[s[k]] == 1
  {
    assert s == s[..k] + [s[k]] + s[k + 1..];
    assert s[k] !in s[..k] && s[k] !in s[k + 1..];
  }

  function Born(m: Family, i: int): Family {
    m[i := Links(-1, [])]
  }

  /** The child joins its father's list, at the end. */
  function Linked(m: Family, father: int, child: int): Family
    requires father in m && child in m
  {
    var m1 := m[father := m[father].(children := m[father].children + [child])];
    m1[child := m1[child].(father := father)]
  }

  /** A new process i, and it is the last child of father. */
  ghost predicate HasForked(m: Family, m': Family, father: int, i: int) {
    i !in m && father in m && m' == Linked(Born(m, i), father, i)
  }

  /** Process i is gone: its children have no father, its father lacks it. */
  function Gone(m: Family, i: int): Family
    requires i in m
  {
    map j | j in m && j != i ::
      Links(if j in m[i].children then -1 else m[j].father,
            if m[i].father == j then Without(m[j].children, i) else m[j].children)
  }

  /** The three effects of Gone, in the order proc_deinit has them. */
  function Orphaned(m: Family, cs: seq<int>): Family {
    map j | j in m :: Links(if j in cs then -1 else m[j].father, m[j].children)
  }

  function Unlisted(m: Family, father: int, i: int): Family
    requires father in m
  {
    m[father := m[father].(children := Without(m[father].children, i))]
  }

  lemma GoneInSteps(m: Family, i: int)
    requires FamilyOk(m) && i in m
    ensures m[i].father != -1 ==> m[i].father in Orphaned(m - {i}, m[i].children)
    ensures Gone(m, i) == if m[i].father == -1 then Orphaned(m - {i}, m[i].children)
                          else Unlisted(Orphaned(m - {i}, m[i].children), m[i].father, i)
  {
    assert ChildrenOk(m, i) && FatherOk(m, i);
    assert m[i].father != -1 ==> ChildrenOk(m, m[i].father);
  }

  lemma BornKeeps(m: Family, i: int)
    requires FamilyOk(m) && i !in m && i >= 0
    ensures FamilyOk(Born(m, i))
  {
    var g := Born(m, i);
    forall p | p in m
      ensures ChildrenOk(g, p) && FatherOk(g, p)
    {
      assert ChildrenOk(m, p) && FatherOk(m, p);
    }
  }

  lemma LinkedKeeps(m: Family, father: int, child: int)
    requires FamilyOk(m) && father in m && child in m && father != child && child > 0 && m[child].father == -1
    ensures FamilyOk(Linked(m, father, child))
  {
    var g := Linked(m, father, child);
    assert ChildrenOk(m, father) && child !in m[father].children;
    forall p | p in m
      ensures ChildrenOk(g, p) && FatherOk(g, p)
    {
      assert ChildrenOk(m, p) && FatherOk(m, p);
    }
  }

  lemma {:induction false} WithoutMembers(s: seq<int>, x: int)
    requires Distinct(s)
    ensures Distinct(Without(s, x)) && forall y :: y in Without(s, x) <==> y in s && y != x
  {
    if s != [] {
      assert s == [s[0]] + s[1..] && s[0] !in s[1..];
      if s[0] != x { WithoutMembers(s[1..], x); }
    }
  }

  lemma GoneAt(m: Family, i: int, p: int)
    requires FamilyOk(m) && i in m && p in m && p != i
    ensures Distinct(Gone(m, i)[p].children)
    ensures forall c :: c in Gone(m, i)[p].children <==> c in m[p].children && c != i
    ensures Gone(m, i)[p].father == if m[p].father == i then -1 else m[p].father
  {
    assert ChildrenOk(m, p) && ChildrenOk(m, i) && FatherOk(m, p);
    WithoutMembers(m[p].children, i);
  }

  lemma GoneKeeps(m: Family, i: int)
    requires FamilyOk(m) && i in m
    ensures FamilyOk(Gone(m, i))
  {
    var g := Gone(m, i);
    forall p | p in g
      ensures ChildrenOk(g, p) && FatherOk(g, p)
    {
      GoneAt(m, i, p);
      assert ChildrenOk(m, p) && FatherOk(m, p);
      forall c | c in g[p].children
        ensures c > 0 && c != p && c in g && g[c].father == p
      {
        GoneAt(m, i, c);
      }
      if g[p].father != -1 { GoneAt(m, i, g[p].father); }
    }
  }

  /** Undoing a birth, or a birth and a link, leaves the family as it was. */
  lemma GoneBorn(m: Family, i: int)
    requires FamilyOk(m) && i !in m && i >= 0
    ensures Gone(Born(m, i), i) == m
  {
    forall p | p in m
      ensures Gone(Born(m, i), i)[p] == m[p]
    {
      assert ChildrenOk(m, p) && FatherOk(m, p);
    }
  }

  lemma {:induction false} WithoutLast(s: seq<int>, x: int)
    requires x !in s
    ensures Without(s + [x], x) == s
  {
    if s != [] {
      WithoutLast(s[1..], x);
      assert (s + [x])[1..] == s[1..] + [x];
    }
  }

  lemma GoneLinked(m: Family, father: int, i: int)
    requires FamilyOk(m) && i !in m && i > 0 && father in m
    ensures Gone(Linked(Born(m, i), father, i), i) == m
  {
    assert ChildrenOk(m, father) && i !in m[father].children;
    WithoutLast(m[father].children, i);
    forall p | p in m
      ensures Gone(Linked(Born(m, i), father, i), i)[p] == m[p]
    {
      assert ChildrenOk(m, p) && FatherOk(m, p);
    }
  }

  // ---------------------------------------------------------------- the table

  datatype ForkResult = Forked(pid: int) | Enproc | Enomem | Failed

  /** The argument of waitpid that status values go through. */
  datatype StatusPtr = Null | Misplaced | Usable

  datatype WaitResult = Waited(pid: int) | NotWaited(pid: int) | Echild | Efault | Einval | Esrch

  /** A process; children stands for child_list, whose nodes ChildLists has. */
  class Proc {
    var pid: int
    var father: int
    var children: seq<int>

    constructor ()
      ensures pid == -1 && father == -1 && children == []
    {
      pid, father, children := -1, -1, [];
    }

    /** add_new_child; fails only if its node cannot be allocated. */
    method AddChild(child: int, got: bool) returns (ok: bool)
      modifies this`children
      ensures ok == got && children == if ok then old(children) + [child] else old(children)
    {
      if got { children := children + [child]; }
      return got;
    }

    /** remove_child_from_list */
    method RemoveChild(child: int) returns (ok: bool)
      modifies this`children
      ensures ok <==> child in old(children)
      ensures children == if ok then Without(old(children), child) else old(children)
    {
      for i := 0 to |children|
        invariant unchanged(this) && child !in children[..i]
      {
        if children[i] == child {
          WithoutAt(children, i);
          children := children[..i] + children[i + 1..];
          return true;
        }
      }
      assert children[..|children|] == children;
      return false;
    }

    /** is_child */
    method IsChild(child: int) returns (found: bool)
      ensures found <==> child in children
    {
      for i := 0 to |children|
        invariant child !in children[..i]
      {
        if children[i] == child { return true; }
      }
      assert children[..|children|] == children;
      return false;
    }
  }

  class Table {
    const slots: array<Proc?>
    const kproc: Proc
    var last: int
    ghost var live: set<Proc>

    /** table[p.p_pid] is p for every live process, and only live ones are in the table. */
    ghost predicate TableOk()
      reads this, slots, live
    {
      && slots.Length == MAX_PROC + 1 && kproc in live && slots[0] == kproc
      && (forall i :: 0 <= i <= MAX_PROC && slots[i] != null ==> slots[i] in live && slots[i].pid == i)
      && (forall p | p in live :: 0 <= p.pid <= MAX_PROC && slots[p.pid] == p)
      && 0 <= last <= MAX_PROC
      && (last == 0 ==> forall i :: 1 <= i <= MAX_PROC ==> slots[i] == null)
    }

    ghost function Image(): Family
      reads this, slots, live
      requires TableOk()
    {
      map i | 0 <= i <= MAX_PROC && slots[i] != null :: LinksOf(slots[i])
    }

    static ghost function LinksOf(p: Proc?): Links
      reads p
      requires p != null
    {
      Links(p.father, p.children)
    }

    ghost predicate Valid()
      reads this, slots, live
    {
      TableOk() && FamilyOk(Image())
    }

    ghost function Taken(): seq<bool>
      reads this, slots
      requires slots.Length == MAX_PROC + 1
    {
      seq(MAX_PROC + 1, i requires 0 <= i <= MAX_PROC reads this, slots => slots[i] != null)
    }

    /** proc_bootstrap, with the kernel process taken to have pid 0 and no links. */
    constructor (k: Proc)
      requires k.pid == 0 && k.father == -1 && k.children == []
      ensures Valid() && kproc == k && live == {k} && last == 0 && fresh(slots)
    {
      kproc, last, live := k, 0, {k};
      slots := new Proc?[MAX_PROC + 1](_ => null);
      new;
      slots[0] := k;
    }

    /** get_valid_pid */
    method GetValidPid() returns (index: int)
      requires TableOk()
      ensures index == Scan(Taken(), last)
    {
      index := if last + 1 > MAX_PROC then 1 else last + 1;
      while index != last
        invariant 1 <= index <= MAX_PROC
        invariant last == 0 ==> index == 1
        invariant last > 0 ==> ScanFrom(Taken(), last, index) == Scan(Taken(), last)
        decreases if last > 0 then Distance(index, last) else 0
      {
        if slots[index] == null { return; }
        index := index + 1;
        index := if index > MAX_PROC then 1 else index;
      }
      return -1;
    }

    /** What proc_init does with the slot it finds. */
    method Place(p: Proc, index: int)
      requires TableOk() && p !in live && 1 <= index <= MAX_PROC && slots[index] == null
      modifies slots, this`last, this`live, p
      ensures TableOk() && live == old(live) + {p} && last == index && p.pid == index
      ensures index !in old(Image()) && Image() == Born(old(Image()), index)
    {
      slots[index] := p;
      last := index;
      live := live + {p};
      p.pid, p.father, p.children := index, -1, [];
    }

    /** proc_init: the same scan, which here takes the slot it finds. */
    method Init(p: Proc) returns (pid: int)
      requires TableOk() && p !in live
      modifies slots, this`last, this`live, p
      ensures pid == old(Scan(Taken(), last)) && TableOk()
      ensures pid == -1 ==> live == old(live) && Image() == old(Image())
      ensures pid != -1 ==> live == old(live) + {p} && last == pid && p.pid == pid && Image() == Born(old(Image()), pid)
      ensures pid != -1 ==> pid !in old(Image()) && 1 <= pid <= MAX_PROC
    {
      var index := last + 1;
      index := if index > MAX_PROC then 1 else index;
      while index != last
        invariant 1 <= index <= MAX_PROC
        invariant last == 0 ==> index == 1
        invariant last > 0 ==> ScanFrom(Taken(), last, index) == Scan(Taken(), last)
        modifies {}
        decreases if last > 0 then Distance(index, last) else 0
      {
        if slots[index] == null {
          break;
        }
        index := index + 1;
        index := if index > MAX_PROC then 1 else index;
      }
      if index == last {
        p.pid := -1;
        return -1;
      }
      Place(p, index);
      return index;
    }

    /** proc_search_pid. The slot is read through without a test, so callers must know
        that it is not empty. */
    method Search(pid: int) returns (p: Proc?)
      requires TableOk() && (1 <= pid <= MAX_PROC ==> slots[pid] != null)
      ensures p == if 1 <= pid <= MAX_PROC then slots[pid] else null
    {
      if pid <= 0 || pid > MAX_PROC { return null; }
      p := slots[pid];
      if p.pid != pid { return null; }
    }

    /** delete_child_list: each child loses its father. */
    method DeleteChildren(p: Proc) returns (r: int)
      requires TableOk() && p !in live
      requires forall c | c in p.children :: 1 <= c <= MAX_PROC && slots[c] != null
      modifies p`children, live`father
      ensures r == 0 && TableOk() && Image() == Orphaned(old(Image()), old(p.children))
    {
      ghost var all, k := p.children, 0;
      while p.children != []
        invariant 0 <= k <= |all| && p.children == all[k..]
        invariant TableOk() && p !in live
        invariant forall q | q in live :: q.father == if q.pid in all[..k] then -1 else old(q.father)
        decreases |p.children|
      {
        assert p.children[0] == all[k] && all[k] in all && all[..k + 1] == all[..k] + [all[k]];
        var child := Search(p.children[0]);
        p.children := p.children[1..];
        if child == null { return -1; }
        child.father := -1;
        k := k + 1;
      }
      assert all[..k] == all;
      return 0;
    }

    /** The slot of p is given up. */
    method Vacate(p: Proc)
      requires TableOk() && p in live && p != kproc
      modifies slots, this`live
      ensures TableOk() && live == old(live) - {p} && Image() == old(Image()) - {p.pid} && slots[p.pid] == null
    {
      slots[p.pid] := null;
      live := live - {p};
    }

    /** The father's list loses the pid; false if it was not there. */
    method Unlist(father: int, index: int) returns (ok: bool)
      requires TableOk() && 0 <= father <= MAX_PROC && slots[father] != null
      modifies live`children
      ensures TableOk() && ok == (index in old(slots[father].children))
      ensures ok ==> father in old(Image()) && Image() == Unlisted(old(Image()), father, index)
    {
      var parent := Search(father);
      if father == kproc.pid {
        parent := kproc;
      }
      ok := parent.RemoveChild(index);
    }

    /** proc_deinit: never fails for a live process other than the kernel's. */
    method Deinit(p: Proc) returns (r: int)
      requires Valid() && p in live && p != kproc
      modifies slots, this`live, live`father, live`children
      ensures r == 0 && Valid() && live == old(live) - {p}
      ensures old(p.pid) in old(Image()) && Image() == Gone(old(Image()), old(p.pid))
    {
      ghost var m := Image();
      var index := p.pid;
      if index <= 0 || index > MAX_PROC {
        return -1;
      }
      assert m[index] == Links(p.father, p.children) && ChildrenOk(m, index) && FatherOk(m, index);
      GoneKeeps(m, index);
      GoneInSteps(m, index);
      Vacate(p);
      r := Unlink(p, index, m);
    }

    /** The links of a process that has left the table. */
    method Unlink(p: Proc, index: int, ghost m: Family) returns (r: int)
      requires TableOk() && p !in live && index in m && Image() == m - {index}
               && m[index] == Links(p.father, p.children)
      requires ChildrenOk(m, index) && FatherOk(m, index) && index !in m[index].children && p.father != index
      modifies p`children, live`father, live`children
      ensures r == 0 && TableOk()
      ensures Image() == if m[index].father == -1 then Orphaned(m - {index}, m[index].children)
                         else Unlisted(Orphaned(m - {index}, m[index].children), m[index].father, index)
    {
      assert forall c | c in p.children :: c in Image();
      r := DeleteChildren(p);
      if r == -1 {
        return -1;
      }
      if p.father != -1 {
        assert p.father in Image() && Image()[p.father].children == m[p.father].children;
        var ok := Unlist(p.father, index);
        if !ok {
          return -1;
        }
      }
    }

    /** Undoing an unfinished fork: proc_destroy on the new process. */
    method Abandon(newproc: Proc, ghost m: Family)
      requires Valid() && newproc in live && newproc != kproc && newproc.pid in Image()
      requires Gone(Image(), newproc.pid) == m
      modifies slots, this`live, live`father, live`children
      ensures Valid() && live == old(live) - {newproc} && Image() == m
    {
      var r := Deinit(newproc);
    }

    /** The new process joins its father's list. */
    method LinkUp(father: Proc, newproc: Proc, noded: bool) returns (ok: bool)
      requires TableOk() && father in live && newproc in live && father != newproc
      modifies father`children, newproc`father
      ensures TableOk() && ok == noded && father.pid in old(Image()) && newproc.pid in old(Image())
      ensures Image() == if ok then Linked(old(Image()), father.pid, newproc.pid) else old(Image())
    {
      ok := father.AddChild(newproc.pid, noded);
      if ok { newproc.father := father.pid; }
    }

    /** add_newp: the slot, which is already the process's own, is written again. */
    method AddNewp(pid: int, p: Proc) returns (r: int)
      requires TableOk() && p in live && p.pid == pid
      modifies slots, this`last
      ensures TableOk() && Image() == old(Image())
      ensures r == if pid <= 0 then -1 else 0
      ensures r == 0 ==> last == pid
    {
      if pid <= 0 || pid > MAX_PROC + 1 { return -1; }
      slots[pid] := p;
      last := pid;
      return 0;
    }

    /** The end of sys_fork, the new process being linked to its father. */
    method Launch(father: Proc, newproc: Proc, i: int, started: bool, ghost m: Family) returns (r: ForkResult)
      requires Valid() && father in live && newproc in live && newproc != kproc && father != newproc
      requires FamilyOk(m) && newproc.pid == i && 1 <= i <= MAX_PROC && i !in m && father.pid in m
      requires Image() == Linked(Born(m, i), father.pid, i)
      modifies slots, this`last, this`live, live`father, live`children
      ensures Valid() && r == if started then Forked(i) else Failed
      ensures Image() == (if started then old(Image()) else m)
              && live == if started then old(live) else old(live) - {newproc}
    {
      var e := AddNewp(i, newproc);
      if e == -1 {
        return Enomem;
      }
      if !started {
        GoneLinked(m, father.pid, i);
        Abandon(newproc, m);
        return Failed;
      }
      return Forked(newproc.pid);
    }

    /** sys_fork once the new process has its slot; m is the family before that. */
    method ForkRest(father: Proc, newproc: Proc, i: int, copied: bool, framed: bool, noded: bool, started: bool,
                    ghost m: Family)
      returns (r: ForkResult)
      requires Valid() && father in live && newproc in live && newproc != kproc && father != newproc
      requires FamilyOk(m) && newproc.pid == i && 1 <= i <= MAX_PROC && i !in m && Image() == Born(m, i)
               && father.pid in m
      modifies slots, this`last, this`live, live`father, live`children
      ensures Valid()
      ensures r.Forked? <==> copied && framed && noded && started
      ensures r.Forked? ==> r.pid == i && Image() == Linked(Born(m, i), father.pid, i) && live == old(live)
      ensures !r.Forked? ==> !r.Enproc? && Image() == m && live == old(live) - {newproc}
    {
      GoneBorn(m, i);
      if !copied || !framed {
        Abandon(newproc, m);
        return if copied then Enomem else Failed;
      }
      LinkedKeeps(Born(m, i), father.pid, i);
      var ok := LinkUp(father, newproc, noded);
      if !ok {
        Abandon(newproc, m);
        return Enomem;
      }
      r := Launch(father, newproc, i, started, m);
    }

    /** sys_fork by process father. newproc is the structure that an allocation would
        supply; the flags say which of the steps on the way succeed: allocating it,
        copying the address space, the trapframe, the child list node, the new thread. */
    method Fork(father: Proc, newproc: Proc, created: bool, copied: bool, framed: bool, noded: bool, started: bool)
      returns (r: ForkResult)
      requires Valid() && father in live && newproc !in live
      modifies slots, this`last, this`live, live`father, live`children, newproc
      ensures Valid() && father in live
      ensures r.Enproc? <==> old(Full(Taken(), last))
      ensures r.Forked? <==> !r.Enproc? && created && copied && framed && noded && started
      ensures r.Forked? ==> r.pid == old(Scan(Taken(), last)) && HasForked(old(Image()), Image(), father.pid, r.pid)
                            && live == old(live) + {newproc}
      ensures !r.Forked? ==> Image() == old(Image()) && live == old(live)
    {
      ghost var m, taken := Image(), Taken();
      ScanFinds(taken, last);
      var i := GetValidPid();
      assert Image() == m && Taken() == taken;
      if i <= 0 {
        return Enproc;
      }
      if !created {
        return Enomem;
      }
      r := ForkNew(father, newproc, i, copied, framed, noded, started);
    }

    /** sys_fork from the creation of the child on; i is the pid that was announced. */
    method ForkNew(father: Proc, newproc: Proc, i: int, copied: bool, framed: bool, noded: bool, started: bool)
      returns (r: ForkResult)
      requires Valid() && father in live && newproc !in live && i == Scan(Taken(), last) && i > 0
      modifies slots, this`last, this`live, live`father, live`children, newproc
      ensures Valid() && father in live && !r.Enproc?
      ensures r.Forked? <==> copied && framed && noded && started
      ensures r.Forked? ==> r.pid == i && HasForked(old(Image()), Image(), father.pid, i)
                            && live == old(live) + {newproc}
      ensures !r.Forked? ==> Image() == old(Image()) && live == old(live)
    {
      ghost var m := Image();
      ScanFinds(Taken(), last);
      assert father.pid in m;
      var pid := Init(newproc);
      BornKeeps(m, pid);
      r := ForkRest(father, newproc, i, copied, framed, noded, started, m);
    }

    /** sys_waitpid by process cur, as one step: a child that is waited for has exited. */
    method WaitPid(cur: Proc, pid: int, status: StatusPtr, options: int) returns (r: WaitResult)
      requires Valid() && cur in live
      modifies slots, this`live, live`father, live`children
      ensures Valid() && cur in live
      ensures r.Waited? <==> pid != cur.pid && status.Usable? && pid in old(cur.children) && options == 0
      ensures r.Waited? ==> r.pid == pid && pid in old(Image()) && Image() == Gone(old(Image()), pid)
      ensures !r.Waited? ==> Image() == old(Image()) && live == old(live)
      ensures r.Echild? <==> pid == cur.pid || (status.Usable? && pid !in old(cur.children))
      ensures r.Efault? <==> pid != cur.pid && status.Misplaced?
      ensures r.Einval? <==> pid != cur.pid && status.Usable? && pid in old(cur.children) && options !in {0, 1}
      ensures r.NotWaited? ==> r.pid == pid
      ensures r.NotWaited? <==> pid != cur.pid
                                && (status.Null? || (status.Usable? && pid in old(cur.children) && options == 1))
      ensures !r.Esrch?
    {
      if pid == cur.pid { return Echild; }
      if status.Null? { return NotWaited(pid); }
      if status.Misplaced? { return Efault; }
      var child := cur.IsChild(pid);
      if !child { return Echild; }
      if options == 1 { return NotWaited(pid); }
      if options != 0 { return Einval; }
      r := Reap(cur, pid);
    }

    /** The end of sys_waitpid. */
    method Reap(cur: Proc, pid: int) returns (r: WaitResult)
      requires Valid() && cur in live && pid in cur.children
      modifies slots, this`live, live`father, live`children
      ensures Valid() && cur in live
      ensures r == Waited(pid) && pid in old(Image()) && Image() == Gone(old(Image()), pid)
    {
      ghost var m := Image();
      assert m[cur.pid] == Links(cur.father, cur.children) && ChildrenOk(m, cur.pid);
      var p := Search(pid);
      if p == null { return Esrch; }
      var d := Deinit(p);
      return Waited(pid);
    }
  }
}

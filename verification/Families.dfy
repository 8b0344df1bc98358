// Families over whole runs of fork and waitpid: a forest, in which each process is younger
// than its father and the children are listed in the order of their birth.
module Families {
  import opened Basics
  import opened ChildLists
  import opened ProcTable

  /** A fork that succeeds, or a process that is reaped. */
  datatype Call = Forks(father: int, child: int) | Reaps(pid: int)

  ghost predicate Possible(m: Family, call: Call) {
    match call
    case Forks(father, child) => father in m && child !in m && child > 0
    case Reaps(pid) => pid in m && pid != 0
  }

  /** What sys_fork and sys_waitpid make of the family. */
  function Following(m: Family, call: Call): Family
    requires Possible(m, call)
  {
    match call
    case Forks(father, child) => Linked(Born(m, child), father, child)
    case Reaps(pid) => Gone(m, pid)
  }

  ghost predicate IsRun(families: seq<Family>, calls: seq<Call>) {
    && |families| == |calls| + 1 && families[0] == map[0 := Links(-1, [])]
    && forall i :: 0 <= i < |calls| ==>
         Possible(families[i], calls[i]) && families[i + 1] == Following(families[i], calls[i])
  }

  /** The time of birth of process p after the first k calls: the number of its last fork, and
      0 for the kernel's process. */
  function Birth(calls: seq<Call>, k: nat, p: int): nat
    requires k <= |calls|
  {
    if k == 0 then 0
    else if calls[k - 1].Forks? && calls[k - 1].child == p then k
    else Birth(calls, k - 1, p)
  }

  /** Older processes are in front. */
  ghost predicate ByAge(calls: seq<Call>, k: nat, ps: seq<int>)
    requires k <= |calls|
  {
    forall i, j :: 0 <= i < j < |ps| ==> Birth(calls, k, ps[i]) < Birth(calls, k, ps[j])
  }

  /** Every process is younger than its father, and its children are listed by age. */
  ghost predicate Aged(m: Family, calls: seq<Call>, k: nat)
    requires k <= |calls|
  {
    && (forall p | p in m && m[p].father != -1 :: Birth(calls, k, m[p].father) < Birth(calls, k, p))
    && forall p | p in m :: ByAge(calls, k, m[p].children)
  }

  lemma {:induction false} BirthBound(calls: seq<Call>, k: nat, p: int)
    requires k <= |calls|
    ensures Birth(calls, k, p) <= k
  {
    if k > 0 { BirthBound(calls, k - 1, p); }
  }

  lemma ForksKeeps(m: Family, father: int, child: int)
    requires FamilyOk(m) && father in m && child !in m && child > 0
    ensures FamilyOk(Linked(Born(m, child), father, child))
  {
    BornKeeps(m, child);
    LinkedKeeps(Born(m, child), father, child);
  }

  lemma ForkAges(m: Family, calls: seq<Call>, k: nat, father: int, child: int)
    requires k < |calls| && calls[k] == Forks(father, child)
    requires FamilyOk(m) && Possible(m, calls[k]) && Aged(m, calls, k)
    ensures Aged(Linked(Born(m, child), father, child), calls, k + 1)
  {
    var g := Linked(Born(m, child), father, child);
    forall p | p in m
      ensures Birth(calls, k + 1, p) == Birth(calls, k, p) <= k
    {
      BirthBound(calls, k, p);
    }
    forall p | p in g
      ensures ByAge(calls, k + 1, g[p].children)
      ensures g[p].father != -1 ==> Birth(calls, k + 1, g[p].father) < Birth(calls, k + 1, p)
    {
      if p in m { assert ChildrenOk(m, p) && FatherOk(m, p); }
    }
  }

  lemma {:induction false} WithoutByAge(calls: seq<Call>, k: nat, ps: seq<int>, x: int)
    requires k <= |calls| && ByAge(calls, k, ps)
    ensures ByAge(calls, k, Without(ps, x)) && forall y | y in Without(ps, x) :: y in ps
  {
    if ps != [] {
      var tail := ps[1..];
      assert ByAge(calls, k, tail);
      WithoutByAge(calls, k, tail, x);
      forall y | y in Without(tail, x)
        ensures y in ps && Birth(calls, k, ps[0]) < Birth(calls, k, y)
      {
        assert y in tail;
      }
    }
  }

  lemma ReapAges(m: Family, calls: seq<Call>, k: nat, pid: int)
    requires k < |calls| && calls[k] == Reaps(pid) && FamilyOk(m) && pid in m && Aged(m, calls, k)
    ensures Aged(Gone(m, pid), calls, k + 1)
  {
    var g := Gone(m, pid);
    forall p | p in g
      ensures ByAge(calls, k + 1, g[p].children)
      ensures g[p].father != -1 ==> Birth(calls, k + 1, g[p].father) < Birth(calls, k + 1, p)
    {
      GoneAt(m, pid, p);
      WithoutByAge(calls, k, m[p].children, pid);
      assert ByAge(calls, k, g[p].children);
    }
  }

  /** Over every run of forks and reaps: links agree in both directions, every process is
      younger than its father, and every child list is in the order of birth. */
  lemma {:induction false} FamilyAges(families: seq<Family>, calls: seq<Call>, k: nat)
    requires IsRun(families, calls) && k <= |calls|
    ensures FamilyOk(families[k]) && Aged(families[k], calls, k)
  {
    if k > 0 {
      FamilyAges(families, calls, k - 1);
      var m := families[k - 1];
      match calls[k - 1]
      case Forks(father, child) =>
        ForksKeeps(m, father, child);
        ForkAges(m, calls, k - 1, father, child);
      case Reaps(pid) =>
        GoneKeeps(m, pid);
        ReapAges(m, calls, k - 1, pid);
    }
  }

  /** The process n steps up from p, or -1. */
  ghost function Ancestor(m: Family, p: int, n: nat): int
    decreases n
  {
    if n == 0 then p else if p in m then Ancestor(m, m[p].father, n - 1) else -1
  }

  lemma {:induction false} AncestorsAreOlder(m: Family, calls: seq<Call>, k: nat, p: int, n: nat)
    requires k <= |calls| && FamilyOk(m) && Aged(m, calls, k) && p in m && n > 0
    ensures Ancestor(m, p, n) in m ==> Birth(calls, k, Ancestor(m, p, n)) < Birth(calls, k, p)
    decreases n
  {
    assert FatherOk(m, p);
    var f := m[p].father;
    if n == 1 {
      assert Ancestor(m, f, 0) == f;
    } else if f in m {
      AncestorsAreOlder(m, calls, k, f, n - 1);
    } else {
      assert Ancestor(m, f, n - 1) == -1;
    }
  }

  /** Over every run the family is a forest: no process is its own ancestor. */
  lemma FamilyIsForest(families: seq<Family>, calls: seq<Call>, k: nat, p: int, n: nat)
    requires IsRun(families, calls) && k <= |calls| && p in families[k] && n > 0
    ensures Ancestor(families[k], p, n) != p
  {
    FamilyAges(families, calls, k);
    AncestorsAreOlder(families[k], calls, k, p, n);
  }
}

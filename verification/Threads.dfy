// The thread system on any number of CPUs, as a machine whose steps are the regions
// that run under a spinlock. The window in which an idle CPU's run queue is unlocked
// while its last thread is still current is the phase Idling.
module Threads {
  import opened Basics

  type Tid = nat

  datatype Status = Run | Ready | Sleep | Zombie

  datatype Thread = Thread(cpu: nat, status: Status)

  /** The lists a thread can be on. A CPU that is waking threads has taken them off a
      channel and not yet queued them (Hand); a CPU that is migrating threads has
      them on its private list (Victims). */
  datatype Place = RunQ(c: nat) | Zombies(c: nat) | Chan(w: nat) | Hand(c: nat) | Victims(c: nat)

  /** Cleaning is the part of thread_switch, or thread_startup, after the new thread
      has been chosen and before its zombies have been destroyed. */
  datatype Phase = Running | Cleaning | Idling

  /** count is the run queue length that a migration in progress has measured. */
  datatype Cpu = Cpu(cur: Tid, phase: Phase, count: Option<nat>)

  type Lists = map<Place, seq<Tid>>

  datatype State = State(cpus: seq<Cpu>, lists: Lists, threads: map<Tid, Thread>)

  function Get(m: Lists, p: Place): seq<Tid> {
    if p in m then m[p] else []
  }

  ghost predicate In(m: Lists, t: Tid, p: Place) {
    t in Get(m, p)
  }

  /** Every list has distinct threads, and no thread is on two lists. */
  ghost predicate Separate(m: Lists) {
    && (forall p :: Distinct(Get(m, p)))
    && (forall t, p, q :: In(m, t, p) && In(m, t, q) ==> p == q)
  }

  ghost predicate Free(m: Lists, t: Tid) {
    forall p :: !In(m, t, p)
  }

  // ---------------------------------------------------------------- list operations

  lemma AddTail(m: Lists, p: Place, t: Tid)
    requires Separate(m) && Free(m, t)
    ensures var m' := m[p := Get(m, p) + [t]];
            Separate(m') && forall u, r :: In(m', u, r) <==> In(m, u, r) || (r == p && u == t)
  {
    var m' := m[p := Get(m, p) + [t]];
    assert !In(m, t, p);
    assert forall r :: Get(m', r) == if r == p then Get(m, p) + [t] else Get(m, r);
    assert forall u, r :: In(m', u, r) <==> In(m, u, r) || (r == p && u == t);
  }

  lemma RemHead(m: Lists, p: Place)
    requires Separate(m) && Get(m, p) != []
    ensures var m' := m[p := Get(m, p)[1..]];
            Separate(m') && forall u, r :: In(m', u, r) <==> In(m, u, r) && u != Get(m, p)[0]
  {
    var q := Get(m, p);
    var m' := m[p := q[1..]];
    assert q == [q[0]] + q[1..] && q[0] !in q[1..] && In(m, q[0], p);
    assert forall u :: u in q <==> u == q[0] || u in q[1..];
    assert forall r :: Get(m', r) == if r == p then q[1..] else Get(m, r);
    assert forall r | r != p :: !In(m, q[0], r);
    assert forall u, r | r != p :: In(m', u, r) <==> In(m, u, r);
    assert forall u :: In(m', u, p) <==> In(m, u, p) && u != q[0];
  }

  lemma Clear(m: Lists, p: Place)
    requires Separate(m)
    ensures var m' := m[p := []];
            Separate(m') && forall u, r :: In(m', u, r) <==> In(m, u, r) && r != p
  {
    var m' := m[p := []];
    assert forall r :: Get(m', r) == if r == p then [] else Get(m, r);
    assert forall u, r :: In(m', u, r) <==> In(m, u, r) && r != p;
  }

  /** a and b hold, without repetition, the threads that x and y held. */
  ghost predicate Redivided(x: seq<Tid>, y: seq<Tid>, a: seq<Tid>, b: seq<Tid>) {
    && Distinct(a) && Distinct(b)
    && (forall t | t in a :: t !in b && (t in x || t in y))
    && (forall t | t in b :: t in x || t in y)
    && (forall t | t in x :: t in a || t in b)
    && (forall t | t in y :: t in a || t in b)
  }

  /** Any redistribution between two lists. */
  lemma Redivide(m: Lists, p: Place, q: Place, a: seq<Tid>, b: seq<Tid>)
    requires Separate(m) && p != q && Redivided(Get(m, p), Get(m, q), a, b)
    ensures var m' := m[p := a][q := b];
            && Separate(m')
            && (forall u, r :: r != p && r != q ==> (In(m', u, r) <==> In(m, u, r)))
            && (forall u :: In(m', u, p) <==> u in a)
            && (forall u :: In(m', u, q) <==> u in b)
  {
    var m' := m[p := a][q := b];
    assert forall r :: Get(m', r) == if r == p then a else if r == q then b else Get(m, r);
    assert forall u :: In(m', u, p) ==> In(m, u, p) || In(m, u, q);
    assert forall u :: In(m', u, q) ==> In(m, u, p) || In(m, u, q);
    assert forall u, r :: r != p && r != q ==> (In(m', u, r) <==> In(m, u, r));
  }

  lemma SplitRedivides(x: seq<Tid>, y: seq<Tid>, keep: seq<Tid>, moved: seq<Tid>)
    requires Distinct(x) && Distinct(y) && (forall t | t in x :: t !in y)
    requires x == keep + moved || x == moved + keep
    ensures Redivided(x, y, keep, y + moved)
  {
    var k, m := if x == keep + moved then 0 else |moved|, if x == keep + moved then |keep| else 0;
    assert forall i :: 0 <= i < |keep| ==> keep[i] == x[k + i];
    assert forall i :: 0 <= i < |moved| ==> moved[i] == x[m + i];
    assert forall t | t in x :: t in keep || t in moved;
    forall i, j | 0 <= i < j < |y + moved|
      ensures (y + moved)[i] != (y + moved)[j]
    {
      assert j >= |y| ==> (y + moved)[j] == x[m + j - |y|] && x[m + j - |y|] in x;
    }
    forall t | t in keep
      ensures t !in y + moved
    {
      var i :| 0 <= i < |keep| && keep[i] == t;
      assert x[k + i] == t && t in x;
      assert forall j :: 0 <= j < |moved| ==> moved[j] == x[m + j] != x[k + i];
    }
  }

  /** The threads in moved are now on list q; the others are where they were. */
  ghost predicate Shifted(m: Lists, m': Lists, q: Place, moved: seq<Tid>) {
    && Separate(m')
    && (forall u, r :: In(m', u, r) <==> if u in moved then r == q else In(m, u, r))
    && (forall u :: Free(m', u) <==> Free(m, u))
  }

  lemma ShiftOfSplit(m: Lists, m': Lists, p: Place, q: Place, keep: seq<Tid>, moved: seq<Tid>)
    requires p != q && Separate(m) && Separate(m')
    requires forall u, r :: r != p && r != q ==> (In(m', u, r) <==> In(m, u, r))
    requires forall u :: In(m', u, p) <==> u in keep
    requires forall u :: In(m', u, q) <==> In(m, u, q) || u in moved
    requires forall u :: In(m, u, p) <==> u in keep || u in moved
    ensures Shifted(m, m', q, moved)
  {
    forall u, r
      ensures In(m', u, r) <==> if u in moved then r == q else In(m, u, r)
    {
      assert u in moved ==> In(m', u, q);
      assert r == p || r == q ==> (u in moved ==> In(m, u, p));
    }
    forall u
      ensures Free(m', u) <==> Free(m, u)
    {
      assert u in moved ==> In(m, u, p) && In(m', u, q);
      assert u !in moved ==> forall r :: In(m', u, r) <==> In(m, u, r);
    }
  }

  /** Moving some threads from one list to the tail of another. */
  lemma Moved(m: Lists, p: Place, q: Place, keep: seq<Tid>, moved: seq<Tid>)
    requires Separate(m) && p != q && (Get(m, p) == keep + moved || Get(m, p) == moved + keep)
    ensures Shifted(m, m[p := keep][q := Get(m, q) + moved], q, moved)
    ensures forall t | t in moved :: In(m, t, p)
  {
    forall t | t in Get(m, p)
      ensures t !in Get(m, q)
    {
      assert In(m, t, p) && (t in Get(m, q) ==> In(m, t, q));
    }
    SplitRedivides(Get(m, p), Get(m, q), keep, moved);
    Redivide(m, p, q, keep, Get(m, q) + moved);
    ShiftOfSplit(m, m[p := keep][q := Get(m, q) + moved], p, q, keep, moved);
  }

  // ---------------------------------------------------------------- the machine

  datatype Step =
    | Fork(c: nat, t: Tid)       // thread_fork
    | Yield(c: nat)              // thread_switch(S_READY)
    | SleepOn(c: nat, w: nat)    // thread_switch(S_SLEEP) on channel w
    | Exit(c: nat)               // thread_switch(S_ZOMBIE)
    | Poll(c: nat)               // the idle loop looks at the run queue again
    | Exorcise(c: nat)           // the tail of thread_switch or thread_startup
    | WakeOne(c: nat, w: nat)    // wchan_wakeone up to taking the thread off
    | WakeAll(c: nat, w: nat)    // wchan_wakeall up to the private list
    | MakeRunnable(c: nat)       // thread_make_runnable on one taken thread
    | Measure(c: nat)            // thread_consider_migration reads its own queue
    | Take(c: nat, k: nat)       // ... moves k threads to its private list
    | Give(c: nat, d: nat)       // ... and handles the first of them for CPU d
    | Restore(c: nat)            // ... and puts back what is left

  /** Broken: an assertion or an access to a destroyed thread. */
  datatype Outcome = Next(state: State) | Blocked | Broken

  /** cpu_create: each CPU runs a boot thread of its own, whose state was never set to
      running. */
  function Init(n: nat): State {
    State(seq(n, (c: nat) => Cpu(c, Running, None)), map[], map t: nat | t < n :: Thread(t, Ready))
  }

  /** Handlers run to completion, so a CPU switches or starts a wakeup or migration
      only when it is not inside one. */
  predicate Quiet(s: State, c: nat)
    requires c < |s.cpus|
  {
    Get(s.lists, Hand(c)) == [] && Get(s.lists, Victims(c)) == [] && s.cpus[c].count.None?
  }

  /** The end of thread_switch: take the head of the run queue, or stay idle. */
  function Pick(s: State, c: nat): Outcome
    requires c < |s.cpus|
  {
    var q := Get(s.lists, RunQ(c));
    if q == [] then Next(s)
    else if q[0] !in s.threads then Broken
    else
      Next(State(s.cpus[c := s.cpus[c].(cur := q[0], phase := Cleaning)],
                 s.lists[RunQ(c) := q[1..]],
                 s.threads[q[0] := s.threads[q[0]].(status := Run)]))
  }

  /** The current thread goes on list p and the CPU counts as idle. */
  function Put(s: State, c: nat, status: Status, p: Place): State
    requires c < |s.cpus| && s.cpus[c].cur in s.threads
  {
    var cur := s.cpus[c].cur;
    State(s.cpus[c := s.cpus[c].(phase := Idling)],
          s.lists[p := Get(s.lists, p) + [cur]],
          s.threads[cur := s.threads[cur].(status := status)])
  }

  /** thread_switch by a CPU that is running. */
  ghost function Switch(s: State, c: nat, status: Status, p: Place): Outcome
    requires c < |s.cpus|
  {
    var cur := s.cpus[c].cur;
    if s.cpus[c].phase != Running || !Quiet(s, c) then Blocked
    else if cur !in s.threads || s.threads[cur].cpu != c || !Free(s.lists, cur) then Broken
    else Pick(Put(s, c, status, p), c)
  }

  ghost function ForkThread(s: State, c: nat, t: Tid): Outcome
    requires c < |s.cpus|
  {
    var cur := s.cpus[c].cur;
    if s.cpus[c].phase != Running || t in s.threads then Blocked
    else if cur !in s.threads || s.threads[cur].cpu >= |s.cpus| || !Free(s.lists, t) then Broken
    else
      var d := s.threads[cur].cpu;
      Next(s.(lists := s.lists[RunQ(d) := Get(s.lists, RunQ(d)) + [t]], threads := s.threads[t := Thread(d, Ready)]))
  }

  ghost function Destroy(s: State, c: nat): Outcome
    requires c < |s.cpus|
  {
    var zs := Get(s.lists, Zombies(c));
    if s.cpus[c].phase != Cleaning then Blocked
    else if exists z | z in zs :: z == s.cpus[c].cur || z !in s.threads || s.threads[z].status != Zombie then Broken
    else Next(State(s.cpus[c := s.cpus[c].(phase := Running)], s.lists[Zombies(c) := []],
                    s.threads - set z | z in zs))
  }

  function Wake(s: State, c: nat, w: nat, all: bool): Outcome
    requires c < |s.cpus|
  {
    var q := Get(s.lists, Chan(w));
    var k := if all || q == [] then |q| else 1;
    if s.cpus[c].phase == Cleaning || !Quiet(s, c) then Blocked
    else Next(s.(lists := s.lists[Chan(w) := q[k..]][Hand(c) := Get(s.lists, Hand(c)) + q[..k]]))
  }

  function Queue(s: State, c: nat): Outcome
    requires c < |s.cpus|
  {
    var q := Get(s.lists, Hand(c));
    if q == [] then Blocked
    else if q[0] !in s.threads || s.threads[q[0]].cpu >= |s.cpus| then Broken
    else
      var d := s.threads[q[0]].cpu;
      Next(s.(lists := s.lists[Hand(c) := q[1..]][RunQ(d) := Get(s.lists, RunQ(d)) + [q[0]]],
              threads := s.threads[q[0] := Thread(d, Ready)]))
  }

  function TakeVictims(s: State, c: nat, k: nat): Outcome
    requires c < |s.cpus|
  {
    var q := Get(s.lists, RunQ(c));
    match s.cpus[c].count
    case None => Blocked
    case Some(m) =>
      if k > m || Get(s.lists, Victims(c)) != [] then Blocked
      else if k > |q| then Broken
      else Next(s.(lists := s.lists[RunQ(c) := q[..|q| - k]][Victims(c) := Get(s.lists, Victims(c)) + q[|q| - k..]],
                   cpus := s.cpus[c := s.cpus[c].(count := None)]))
  }

  function GiveVictim(s: State, c: nat, d: nat): Outcome
    requires c < |s.cpus|
  {
    var q := Get(s.lists, Victims(c));
    if q == [] || d >= |s.cpus| || d == c then Blocked
    else if q[0] == s.cpus[c].cur then Next(s.(lists := s.lists[Victims(c) := q[1..] + [q[0]]]))
    else if q[0] !in s.threads then Broken
    else Next(s.(lists := s.lists[Victims(c) := q[1..]][RunQ(d) := Get(s.lists, RunQ(d)) + [q[0]]],
                 threads := s.threads[q[0] := s.threads[q[0]].(cpu := d)]))
  }

  function RestoreVictims(s: State, c: nat): Outcome
    requires c < |s.cpus|
  {
    var q := Get(s.lists, Victims(c));
    Next(s.(lists := s.lists[Victims(c) := []][RunQ(c) := Get(s.lists, RunQ(c)) + q]))
  }

  ghost function Apply(s: State, step: Step): Outcome
    requires step.c < |s.cpus|
  {
    match step
    case Fork(c, t) => ForkThread(s, c, t)
    case Yield(c) => if Get(s.lists, RunQ(c)) == [] then Blocked else Switch(s, c, Ready, RunQ(c))
    case SleepOn(c, w) => Switch(s, c, Sleep, Chan(w))
    case Exit(c) => Switch(s, c, Zombie, Zombies(c))
    case Poll(c) => if s.cpus[c].phase != Idling || !Quiet(s, c) then Blocked else Pick(s, c)
    case Exorcise(c) => Destroy(s, c)
    case WakeOne(c, w) => Wake(s, c, w, false)
    case WakeAll(c, w) => Wake(s, c, w, true)
    case MakeRunnable(c) => Queue(s, c)
    case Measure(c) =>
      if s.cpus[c].phase == Cleaning || !Quiet(s, c) then Blocked
      else Next(s.(cpus := s.cpus[c := s.cpus[c].(count := Some(|Get(s.lists, RunQ(c))|))]))
    case Take(c, k) => TakeVictims(s, c, k)
    case Give(c, d) => GiveVictim(s, c, d)
    case Restore(c) => RestoreVictims(s, c)
  }

  // ---------------------------------------------------------------- the invariant

  /** What a list says about a thread on it. */
  ghost predicate Belongs(th: Thread, p: Place) {
    match p
    case RunQ(c) => th == Thread(c, Ready)
    case Victims(c) => th == Thread(c, Ready)
    case Zombies(c) => th == Thread(c, Zombie)
    case Chan(_) => th.status == Sleep
    case Hand(_) => th.status == Sleep
  }

  ghost predicate Homes(s: State) {
    forall t, p :: In(s.lists, t, p) ==> t in s.threads && Belongs(s.threads[t], p)
  }

  /** A running CPU's thread is on no list; an idle CPU's is on one. */
  ghost predicate Currents(s: State) {
    forall c :: 0 <= c < |s.cpus| ==>
      var cpu := s.cpus[c];
      && cpu.cur in s.threads && s.threads[cpu.cur].cpu == c
      && (cpu.phase.Idling? <==> !Free(s.lists, cpu.cur))
  }

  /** A thread on no list is running on its own CPU. */
  ghost predicate Accounted(s: State) {
    forall t :: t in s.threads ==>
      && s.threads[t].cpu < |s.cpus|
      && (Free(s.lists, t) ==> s.cpus[s.threads[t].cpu].cur == t)
  }

  /** Nobody but a CPU itself shortens its run queue. */
  ghost predicate Measured(s: State) {
    forall c :: 0 <= c < |s.cpus| && s.cpus[c].count.Some? ==>
      s.cpus[c].count.value <= |Get(s.lists, RunQ(c))|
  }

  ghost predicate Inv(s: State) {
    Separate(s.lists) && Homes(s) && Currents(s) && Accounted(s) && Measured(s)
  }

  lemma InitInv(n: nat)
    ensures Inv(Init(n))
  {}

  lemma ForkKeeps(s: State, c: nat, t: Tid)
    requires Inv(s) && c < |s.cpus| && !ForkThread(s, c, t).Blocked?
    ensures ForkThread(s, c, t).Next? && Inv(ForkThread(s, c, t).state)
  {
    assert Free(s.lists, t);
    AddTail(s.lists, RunQ(c), t);
    var s' := ForkThread(s, c, t).state;
    assert In(s'.lists, t, RunQ(c));
  }

  lemma PutKeeps(s: State, c: nat, status: Status, p: Place)
    requires Inv(s) && c < |s.cpus| && s.cpus[c].phase == Running && Belongs(Thread(c, status), p)
    ensures s.cpus[c].cur in s.threads && Inv(Put(s, c, status, p))
  {
    var cur, s' := s.cpus[c].cur, Put(s, c, status, p);
    assert Free(s.lists, cur);
    AddTail(s.lists, p, cur);
    assert In(s'.lists, cur, p);
    assert forall u :: u != cur ==> (Free(s'.lists, u) <==> Free(s.lists, u)) by {
      assert forall u, r :: u != cur ==> (In(s'.lists, u, r) <==> In(s.lists, u, r));
    }
  }

  lemma PickKeeps(s: State, c: nat)
    requires Inv(s) && c < |s.cpus| && s.cpus[c].phase == Idling && s.cpus[c].count.None?
    ensures Pick(s, c).Next? && Inv(Pick(s, c).state)
  {
    var q := Get(s.lists, RunQ(c));
    if q != [] {
      assert In(s.lists, q[0], RunQ(c));
      RemHead(s.lists, RunQ(c));
      var s' := Pick(s, c).state;
      assert Free(s'.lists, q[0]);
      assert forall u :: u != q[0] ==> (Free(s'.lists, u) <==> Free(s.lists, u)) by {
        assert forall u, r :: u != q[0] ==> (In(s'.lists, u, r) <==> In(s.lists, u, r));
      }
      assert Homes(s');
      assert Currents(s');
    }
  }

  lemma SwitchKeeps(s: State, c: nat, status: Status, p: Place)
    requires Inv(s) && c < |s.cpus| && Belongs(Thread(c, status), p) && !Switch(s, c, status, p).Blocked?
    ensures Switch(s, c, status, p).Next? && Inv(Switch(s, c, status, p).state)
  {
    PutKeeps(s, c, status, p);
    PickKeeps(Put(s, c, status, p), c);
  }

  /** A thread that exorcise destroys is a zombie and is current nowhere. */
  lemma ZombieNotCurrent(s: State, c: nat, z: Tid)
    requires Inv(s) && c < |s.cpus| && s.cpus[c].phase == Cleaning && z in Get(s.lists, Zombies(c))
    ensures z in s.threads && s.threads[z].status == Zombie
    ensures forall d :: 0 <= d < |s.cpus| ==> s.cpus[d].cur != z
  {
    assert In(s.lists, z, Zombies(c));
  }

  lemma DestroyKeeps(s: State, c: nat)
    requires Inv(s) && c < |s.cpus| && !Destroy(s, c).Blocked?
    ensures Destroy(s, c).Next? && Inv(Destroy(s, c).state)
  {
    var zs := Get(s.lists, Zombies(c));
    forall z | z in zs
      ensures z in s.threads && s.threads[z].status == Zombie
      ensures forall d :: 0 <= d < |s.cpus| ==> s.cpus[d].cur != z
      ensures In(s.lists, z, Zombies(c))
    {
      ZombieNotCurrent(s, c, z);
    }
    Clear(s.lists, Zombies(c));
    var s' := Destroy(s, c).state;
    assert forall u | u !in zs :: !In(s.lists, u, Zombies(c));
    assert forall u | u !in zs :: Free(s'.lists, u) <==> Free(s.lists, u) by {
      assert forall u, r | u !in zs :: In(s'.lists, u, r) <==> In(s.lists, u, r);
    }
    assert Homes(s');
    assert Currents(s');
  }

  /** Threads moved to list q, with the CPU and state that q calls for; a current
      thread keeps its CPU. */
  lemma ShiftKeeps(s: State, s': State, q: Place, moved: seq<Tid>)
    requires Inv(s) && Shifted(s.lists, s'.lists, q, moved)
    requires |s'.cpus| == |s.cpus| && s'.threads.Keys == s.threads.Keys
    requires forall c :: 0 <= c < |s.cpus| ==> s'.cpus[c].cur == s.cpus[c].cur && s'.cpus[c].phase == s.cpus[c].phase
    requires forall t | t in s.threads && t !in moved :: s'.threads[t] == s.threads[t]
    requires forall t | t in moved :: t in s.threads && Belongs(s'.threads[t], q) && !Free(s.lists, t)
               && s'.threads[t].cpu < |s.cpus|
               && (s'.threads[t].cpu == s.threads[t].cpu || s.cpus[s.threads[t].cpu].cur != t)
    requires Measured(s')
    ensures Inv(s')
  {}

  /** Threads moved between lists that say the same about them. */
  lemma ShiftSame(s: State, s': State, p: Place, q: Place, moved: seq<Tid>)
    requires Inv(s) && Shifted(s.lists, s'.lists, q, moved) && s'.threads == s.threads
    requires forall t | t in moved :: In(s.lists, t, p)
    requires forall th: Thread :: Belongs(th, p) ==> Belongs(th, q)
    requires |s'.cpus| == |s.cpus|
    requires forall c :: 0 <= c < |s.cpus| ==> s'.cpus[c].cur == s.cpus[c].cur && s'.cpus[c].phase == s.cpus[c].phase
    requires Measured(s')
    ensures Inv(s')
  {
    ShiftKeeps(s, s', q, moved);
  }

  /** No run queue gets shorter, save that of a CPU that is not counting on it. */
  lemma MeasuredStays(s: State, s': State)
    requires Measured(s) && |s'.cpus| == |s.cpus|
    requires forall c :: 0 <= c < |s.cpus| ==>
      || s'.cpus[c].count.None?
      || (s'.cpus[c].count == s.cpus[c].count && |Get(s'.lists, RunQ(c))| >= |Get(s.lists, RunQ(c))|)
    ensures Measured(s')
  {}

  lemma WakeMeasured(s: State, c: nat, w: nat, all: bool)
    requires Measured(s) && c < |s.cpus| && Wake(s, c, w, all).Next?
    ensures Measured(Wake(s, c, w, all).state)
  {
    MeasuredStays(s, Wake(s, c, w, all).state);
  }

  lemma WakeKeeps(s: State, c: nat, w: nat, all: bool)
    requires Inv(s) && c < |s.cpus| && Wake(s, c, w, all).Next?
    ensures Inv(Wake(s, c, w, all).state)
  {
    var q := Get(s.lists, Chan(w));
    var k := if all || q == [] then |q| else 1;
    assert q == q[..k] + q[k..];
    Moved(s.lists, Chan(w), Hand(c), q[k..], q[..k]);
    WakeMeasured(s, c, w, all);
    ShiftSame(s, Wake(s, c, w, all).state, Chan(w), Hand(c), q[..k]);
  }

  lemma QueueMeasured(s: State, c: nat)
    requires Measured(s) && c < |s.cpus| && Queue(s, c).Next?
    ensures Measured(Queue(s, c).state)
  {
    MeasuredStays(s, Queue(s, c).state);
  }

  lemma QueueKeeps(s: State, c: nat)
    requires Inv(s) && c < |s.cpus| && !Queue(s, c).Blocked?
    ensures Queue(s, c).Next? && Inv(Queue(s, c).state)
  {
    var q := Get(s.lists, Hand(c));
    assert q == [q[0]] + q[1..] && In(s.lists, q[0], Hand(c));
    var d := s.threads[q[0]].cpu;
    Moved(s.lists, Hand(c), RunQ(d), q[1..], [q[0]]);
    QueueMeasured(s, c);
    ShiftKeeps(s, Queue(s, c).state, RunQ(d), [q[0]]);
  }

  lemma TakeMeasured(s: State, c: nat, k: nat)
    requires Measured(s) && c < |s.cpus| && TakeVictims(s, c, k).Next?
    ensures Measured(TakeVictims(s, c, k).state)
  {
    MeasuredStays(s, TakeVictims(s, c, k).state);
  }

  lemma TakeShifts(s: State, c: nat, k: nat) returns (moved: seq<Tid>)
    requires Separate(s.lists) && Measured(s) && c < |s.cpus| && !TakeVictims(s, c, k).Blocked?
    ensures TakeVictims(s, c, k).Next?
    ensures Shifted(s.lists, TakeVictims(s, c, k).state.lists, Victims(c), moved)
    ensures forall t | t in moved :: In(s.lists, t, RunQ(c))
  {
    var q := Get(s.lists, RunQ(c));
    assert q == q[..|q| - k] + q[|q| - k..];
    moved := q[|q| - k..];
    Moved(s.lists, RunQ(c), Victims(c), q[..|q| - k], moved);
  }

  lemma TakeKeeps(s: State, c: nat, k: nat)
    requires Inv(s) && c < |s.cpus| && !TakeVictims(s, c, k).Blocked?
    ensures TakeVictims(s, c, k).Next? && Inv(TakeVictims(s, c, k).state)
  {
    var moved := TakeShifts(s, c, k);
    TakeMeasured(s, c, k);
    ShiftSame(s, TakeVictims(s, c, k).state, RunQ(c), Victims(c), moved);
  }

  lemma RotateKeeps(m: Lists, p: Place)
    requires Separate(m) && Get(m, p) != []
    ensures var m' := m[p := Get(m, p)[1..] + [Get(m, p)[0]]];
            Shifted(m, m', p, [])
  {
    var q := Get(m, p);
    var m' := m[p := q[1..] + [q[0]]];
    assert q == [q[0]] + q[1..] && q[0] !in q[1..];
    assert forall r :: Get(m', r) == if r == p then q[1..] + [q[0]] else Get(m, r);
    assert forall u :: u in q <==> u in q[1..] + [q[0]];
    assert forall u, r :: In(m', u, r) <==> In(m, u, r);
  }

  lemma GiveMeasured(s: State, c: nat, d: nat)
    requires Measured(s) && c < |s.cpus| && GiveVictim(s, c, d).Next?
    ensures Measured(GiveVictim(s, c, d).state)
  {
    MeasuredStays(s, GiveVictim(s, c, d).state);
  }

  lemma GiveKeeps(s: State, c: nat, d: nat)
    requires Inv(s) && c < |s.cpus| && !GiveVictim(s, c, d).Blocked?
    ensures GiveVictim(s, c, d).Next? && Inv(GiveVictim(s, c, d).state)
  {
    var q := Get(s.lists, Victims(c));
    assert q == [q[0]] + q[1..] && In(s.lists, q[0], Victims(c));
    var s' := GiveVictim(s, c, d).state;
    if q[0] == s.cpus[c].cur {
      RotateKeeps(s.lists, Victims(c));
      GiveMeasured(s, c, d);
      ShiftKeeps(s, s', Victims(c), []);
    } else {
      Moved(s.lists, Victims(c), RunQ(d), q[1..], [q[0]]);
      GiveMeasured(s, c, d);
      ShiftKeeps(s, s', RunQ(d), [q[0]]);
    }
  }

  lemma RestoreMeasured(s: State, c: nat)
    requires Measured(s) && c < |s.cpus| && RestoreVictims(s, c).Next?
    ensures Measured(RestoreVictims(s, c).state)
  {
    MeasuredStays(s, RestoreVictims(s, c).state);
  }

  lemma RestoreKeeps(s: State, c: nat)
    requires Inv(s) && c < |s.cpus|
    ensures Inv(RestoreVictims(s, c).state)
  {
    var q := Get(s.lists, Victims(c));
    assert q == q + [];
    Moved(s.lists, Victims(c), RunQ(c), [], q);
    RestoreMeasured(s, c);
    ShiftSame(s, RestoreVictims(s, c).state, Victims(c), RunQ(c), q);
  }

  /** No step fails an assertion or touches a destroyed thread; every step keeps the
      invariant. */
  lemma StepSafe(s: State, step: Step)
    requires Inv(s) && step.c < |s.cpus|
    ensures !Apply(s, step).Broken?
    ensures Apply(s, step).Next? ==> Inv(Apply(s, step).state)
  {
    if !Apply(s, step).Blocked? {
      match step
      case Fork(c, t) => ForkKeeps(s, c, t);
      case Yield(c) => SwitchKeeps(s, c, Ready, RunQ(c));
      case SleepOn(c, w) => SwitchKeeps(s, c, Sleep, Chan(w));
      case Exit(c) => SwitchKeeps(s, c, Zombie, Zombies(c));
      case Poll(c) => PickKeeps(s, c);
      case Exorcise(c) => DestroyKeeps(s, c);
      case WakeOne(c, w) => WakeKeeps(s, c, w, false);
      case WakeAll(c, w) => WakeKeeps(s, c, w, true);
      case MakeRunnable(c) => QueueKeeps(s, c);
      case Measure(c) =>
      case Take(c, k) => TakeKeeps(s, c, k);
      case Give(c, d) => GiveKeeps(s, c, d);
      case Restore(c) => RestoreKeeps(s, c);
    }
  }

  // ---------------------------------------------------------------- runs

  /** s is the state after the given steps from boot on n CPUs. */
  ghost predicate Reaches(n: nat, steps: seq<Step>, s: State)
    decreases |steps|
  {
    if steps == [] then s == Init(n) else
      var last := steps[|steps| - 1];
      exists before: State :: Reaches(n, steps[..|steps| - 1], before)
        && last.c < |before.cpus| && Apply(before, last) == Next(s)
  }

  lemma {:induction false} RunInv(n: nat, steps: seq<Step>, s: State)
    requires Reaches(n, steps, s)
    ensures Inv(s)
    decreases |steps|
  {
    if steps == [] {
      InitInv(n);
    } else {
      var last := steps[|steps| - 1];
      var before: State :| Reaches(n, steps[..|steps| - 1], before)
        && last.c < |before.cpus| && Apply(before, last) == Next(s);
      RunInv(n, steps[..|steps| - 1], before);
      StepSafe(before, last);
    }
  }

  /** In every reachable state: no thread is current on two CPUs; no thread is on two
      lists or twice on one; a thread on a CPU's run queue belongs to that CPU; and
      every live thread is either on a list or running, not both. */
  lemma RunSafe(n: nat, steps: seq<Step>, s: State)
    requires Reaches(n, steps, s)
    ensures forall c, d :: 0 <= c < |s.cpus| && 0 <= d < |s.cpus| && s.cpus[c].cur == s.cpus[d].cur ==> c == d
    ensures Separate(s.lists)
    ensures forall t, c :: In(s.lists, t, RunQ(c)) ==> t in s.threads && s.threads[t] == Thread(c, Ready)
    ensures forall t :: t in s.threads ==>
              (Free(s.lists, t) <==> exists c :: 0 <= c < |s.cpus| && s.cpus[c].cur == t && !s.cpus[c].phase.Idling?)
  {
    RunInv(n, steps, s);
    forall t | t in s.threads
      ensures Free(s.lists, t) <==> exists c :: 0 <= c < |s.cpus| && s.cpus[c].cur == t && !s.cpus[c].phase.Idling?
    {
      if Free(s.lists, t) {
        assert s.cpus[s.threads[t].cpu].cur == t;
      }
    }
  }

  /** Whatever happens next in a reachable state, no assertion fails; and a destroyed
      thread was a zombie and current nowhere, even on a CPU that is idling. */
  lemma NextStepSafe(n: nat, steps: seq<Step>, s: State, step: Step)
    requires Reaches(n, steps, s) && step.c < |s.cpus|
    ensures !Apply(s, step).Broken?
    ensures match Apply(s, step)
            case Next(s') =>
              && (forall t | t in s.threads && t !in s'.threads ::
                    step.Exorcise? && s.threads[t] == Thread(step.c, Zombie))
              && |s'.cpus| == |s.cpus|
              && (forall c :: 0 <= c < |s.cpus| ==> s'.cpus[c].cur in s'.threads && s.cpus[c].cur in s'.threads)
            case _ => true
  {
    RunInv(n, steps, s);
    StepSafe(s, step);
    if Apply(s, step).Next? {
      if step.Exorcise? {
        forall z | z in Get(s.lists, Zombies(step.c))
          ensures z in s.threads && s.threads[z] == Thread(step.c, Zombie)
          ensures forall d :: 0 <= d < |s.cpus| ==> s.cpus[d].cur != z
        {
          assert In(s.lists, z, Zombies(step.c));
          ZombieNotCurrent(s, step.c, z);
        }
      } else {
        OnlyExorciseDestroys(s, step);
      }
    }
  }

  lemma OnlyExorciseDestroys(s: State, step: Step)
    requires step.c < |s.cpus| && Apply(s, step).Next? && !step.Exorcise?
    ensures s.threads.Keys <= Apply(s, step).state.threads.Keys && |Apply(s, step).state.cpus| == |s.cpus|
  {}

  lemma OneMore(n: nat, steps: seq<Step>, s: State, step: Step, s': State)
    requires Reaches(n, steps, s) && step.c < |s.cpus| && Apply(s, step) == Next(s')
    ensures Reaches(n, steps + [step], s')
  {
    assert (steps + [step])[..|steps|] == steps;
  }

  /** Two CPUs, the first idle after its thread went to sleep. */
  function OneAsleep(lists: Lists, status: Status): State {
    State([Cpu(0, Idling, None), Cpu(1, Running, None)], lists, map[0 := Thread(0, status), 1 := Thread(1, Ready)])
  }

  lemma GoesToSleep()
    ensures |Init(2).cpus| == 2 && Apply(Init(2), SleepOn(0, 0)) == Next(OneAsleep(map[Chan(0) := [0]], Sleep))
  {
    var s, s' := Init(2), OneAsleep(map[Chan(0) := [0]], Sleep);
    assert Free(s.lists, 0) && s.cpus == [Cpu(0, Running, None), Cpu(1, Running, None)];
    assert s.threads == map[0 := Thread(0, Ready), 1 := Thread(1, Ready)];
    assert [] + [0] == [0];
    assert Put(s, 0, Sleep, Chan(0)) == s';
  }

  lemma IsWoken()
    ensures Apply(OneAsleep(map[Chan(0) := [0]], Sleep), WakeOne(1, 0))
            == Next(OneAsleep(map[Chan(0) := [], Hand(1) := [0]], Sleep))
  {
    assert [0][1..] == [] && [] + [0][..1] == [0];
  }

  lemma IsQueued()
    ensures Apply(OneAsleep(map[Chan(0) := [], Hand(1) := [0]], Sleep), MakeRunnable(1))
            == Next(OneAsleep(map[Chan(0) := [], Hand(1) := [], RunQ(0) := [0]], Ready))
  {
    assert [0][1..] == [] && [] + [0] == [0];
  }

  lemma WokenReached() returns (steps: seq<Step>)
    ensures Reaches(2, steps, OneAsleep(map[Chan(0) := [], Hand(1) := [0]], Sleep))
  {
    assert Reaches(2, [], Init(2));
    GoesToSleep();
    steps := [] + [SleepOn(0, 0)];
    OneMore(2, [], Init(2), SleepOn(0, 0), OneAsleep(map[Chan(0) := [0]], Sleep));
    IsWoken();
    OneMore(2, steps, OneAsleep(map[Chan(0) := [0]], Sleep), WakeOne(1, 0),
            OneAsleep(map[Chan(0) := [], Hand(1) := [0]], Sleep));
    steps := steps + [WakeOne(1, 0)];
  }

  /** The window is real: CPU 0's thread sleeps, CPU 0 idles, CPU 1 wakes the thread,
      and it sits on CPU 0's run queue while still current there. */
  lemma IdleThreadRequeued() returns (steps: seq<Step>, s: State)
    ensures Reaches(2, steps, s)
    ensures |s.cpus| == 2 && s.cpus[0].phase == Idling && Get(s.lists, RunQ(0)) == [s.cpus[0].cur]
  {
    var before := WokenReached();
    IsQueued();
    s := OneAsleep(map[Chan(0) := [], Hand(1) := [], RunQ(0) := [0]], Ready);
    OneMore(2, before, OneAsleep(map[Chan(0) := [], Hand(1) := [0]], Sleep), MakeRunnable(1), s);
    steps := before + [MakeRunnable(1)];
  }
}

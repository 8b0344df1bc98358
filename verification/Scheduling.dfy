// Who runs when: what runs of the machine in Threads make of its queues and channels.
module Scheduling {
  import opened Basics
  import opened Threads

  ghost predicate Leads(s: State, step: Step, s': State) {
    step.c < |s.cpus| && Apply(s, step) == Next(s')
  }

  /** A state that some run from boot on some number of CPUs leads to. */
  ghost predicate Reachable(s: State) {
    exists n: nat, run :: Reaches(n, run, s)
  }

  lemma ReachableInv(s: State)
    requires Reachable(s)
    ensures Inv(s)
  {
    var n: nat, run :| Reaches(n, run, s);
    RunInv(n, run, s);
  }

  lemma ReachableNext(s: State, step: Step, s': State)
    requires Reachable(s) && Leads(s, step, s')
    ensures Reachable(s')
  {
    var n: nat, run :| Reaches(n, run, s);
    OneMore(n, run, s, step, s');
  }

  /** A CPU in its thread, in the midst of no wakeup or migration. */
  ghost predicate Calm(s: State, c: nat) {
    c < |s.cpus| && s.cpus[c].phase == Running && Quiet(s, c)
  }

  /** Apart from CPU c, some threads and some lists, all is as it was. */
  ghost predicate Only(s: State, s': State, c: nat, ts: set<Tid>, ps: set<Place>) {
    && |s'.cpus| == |s.cpus| && (forall d :: 0 <= d < |s.cpus| && d != c ==> s'.cpus[d] == s.cpus[d])
    && (forall p :: p !in ps ==> Get(s'.lists, p) == Get(s.lists, p))
    && (forall t | t !in ts :: t in s'.threads <==> t in s.threads)
    && (forall t | t !in ts && t in s.threads :: s'.threads[t] == s.threads[t])
  }

  /** The thread on a CPU and, behind it, those that wait for it. */
  ghost function Line(s: State, c: nat): seq<Tid>
    requires c < |s.cpus|
  {
    [s.cpus[c].cur] + Get(s.lists, RunQ(c))
  }

  /** The other CPUs, and the lists but one, are as they were. */
  ghost predicate SameBut(s: State, s': State, c: nat, p: Place) {
    && |s'.cpus| == |s.cpus| && (forall d :: 0 <= d < |s.cpus| && d != c ==> s'.cpus[d] == s.cpus[d])
    && forall r :: r != p ==> Get(s'.lists, r) == Get(s.lists, r)
  }

  // ---------------------------------------------------------------- thread_switch

  /** The threads to choose from once the current one is on list p. */
  ghost function Choice(s: State, c: nat, p: Place): seq<Tid>
    requires c < |s.cpus|
  {
    Get(s.lists, RunQ(c)) + if p == RunQ(c) then [s.cpus[c].cur] else []
  }

  /** The current thread goes to the end of list p, the head of the run queue runs, and
      the CPU idles in the old thread if there is none. Nothing else changes. */
  ghost predicate Switched(s: State, s': State, c: nat, status: Status, p: Place) {
    c < |s.cpus| && SwitchedLists(s, s', c, p) && SwitchedThreads(s, s', c, status, p) &&
    var w := Choice(s, c, p);
    s'.cpus == s.cpus[c := if w == [] then Cpu(s.cpus[c].cur, Idling, None) else Cpu(w[0], Cleaning, None)]
  }

  ghost predicate SwitchedLists(s: State, s': State, c: nat, p: Place)
    requires c < |s.cpus|
  {
    var w := Choice(s, c, p);
    && Get(s'.lists, RunQ(c)) == (if w == [] then [] else w[1..])
    && (p != RunQ(c) ==> Get(s'.lists, p) == Get(s.lists, p) + [s.cpus[c].cur])
    && forall r :: r != p && r != RunQ(c) ==> Get(s'.lists, r) == Get(s.lists, r)
  }

  ghost predicate SwitchedThreads(s: State, s': State, c: nat, status: Status, p: Place)
    requires c < |s.cpus|
  {
    var cur, w := s.cpus[c].cur, Choice(s, c, p);
    && (forall t :: t in s'.threads <==> t in s.threads)
    && (forall t | t in s.threads && t != cur && (w == [] || t != w[0]) :: s'.threads[t] == s.threads[t])
    && cur in s.threads && (w == [] || cur != w[0] ==> s'.threads[cur] == Thread(c, status))
    && (w != [] ==> w[0] in s.threads && s'.threads[w[0]] == Thread(c, Run))
  }

  /** What is used of the invariant: the threads to choose from are the CPU's own. */
  ghost predicate MaySwitch(s: State, c: nat, p: Place) {
    && Calm(s, c) && s.cpus[c].cur in s.threads && s.threads[s.cpus[c].cur].cpu == c && Free(s.lists, s.cpus[c].cur)
    && forall t | t in Choice(s, c, p) :: t in s.threads && s.threads[t].cpu == c
  }

  lemma MaySwitchAlways(s: State, c: nat, p: Place)
    requires Inv(s) && Calm(s, c)
    ensures MaySwitch(s, c, p)
  {
    forall t | t in Choice(s, c, p)
      ensures t in s.threads && s.threads[t].cpu == c
    {
      if t in Get(s.lists, RunQ(c)) { assert In(s.lists, t, RunQ(c)); }
    }
  }

  lemma SwitchSwitches(s: State, c: nat, status: Status, p: Place) returns (s': State)
    requires MaySwitch(s, c, p)
    ensures Switch(s, c, status, p) == Next(s') && Switched(s, s', c, status, p)
  {
    var s1, w := Put(s, c, status, p), Choice(s, c, p);
    assert Get(s1.lists, RunQ(c)) == w;
    assert w != [] ==> w[0] in w;
    s' := Pick(s1, c).state;
    assert forall r :: Get(s1.lists, r) == if r == p then Get(s.lists, p) + [s.cpus[c].cur] else Get(s.lists, r);
  }

  lemma YieldSwitches(s: State, c: nat) returns (s': State)
    requires Reachable(s) && Calm(s, c) && Get(s.lists, RunQ(c)) != []
    ensures Leads(s, Yield(c), s') && Switched(s, s', c, Ready, RunQ(c)) && Get(s.lists, RunQ(c))[0] != s.cpus[c].cur
  {
    ReachableInv(s);
    MaySwitchAlways(s, c, RunQ(c));
    s' := SwitchSwitches(s, c, Ready, RunQ(c));
    var q := Get(s.lists, RunQ(c));
    assert In(s.lists, q[0], RunQ(c)) && Free(s.lists, s.cpus[c].cur);
  }

  /** thread_yield: the CPU goes on to the head of its run queue, and the thread that
      yields goes to the end of it. */
  lemma YieldRunsHead(s: State, c: nat) returns (s': State)
    requires Reachable(s) && Calm(s, c) && Get(s.lists, RunQ(c)) != []
    ensures Leads(s, Yield(c), s') && c < |s'.cpus|
    ensures var cur, q := s.cpus[c].cur, Get(s.lists, RunQ(c));
            && s'.cpus[c].cur == q[0] && Get(s'.lists, RunQ(c)) == q[1..] + [cur]
            && q[0] in s'.threads && s'.threads[q[0]] == Thread(c, Run)
            && cur in s'.threads && s'.threads[cur] == Thread(c, Ready)
            && s'.cpus[c].phase == Cleaning && Quiet(s', c)
    ensures SameBut(s, s', c, RunQ(c)) && Line(s', c) == Line(s, c)[1..] + [Line(s, c)[0]]
  {
    s' := YieldSwitches(s, c);
    var cur, q := s.cpus[c].cur, Get(s.lists, RunQ(c));
    assert (q + [cur])[1..] == q[1..] + [cur] && (q + [cur])[0] == q[0];
    assert Line(s, c)[1..] == q && q == [q[0]] + q[1..];
  }

  /** wchan_sleep: the thread goes to the end of the channel, and the CPU to the head of its
      run queue, or idle. */
  lemma SleepJoinsChannel(s: State, c: nat, w: nat) returns (s': State)
    requires Reachable(s) && Calm(s, c)
    ensures Leads(s, SleepOn(c, w), s') && Switched(s, s', c, Sleep, Chan(w))
  {
    ReachableInv(s);
    MaySwitchAlways(s, c, Chan(w));
    s' := SwitchSwitches(s, c, Sleep, Chan(w));
  }

  /** The idle loop: as soon as there is a thread in the run queue, its head runs. */
  lemma PollRunsHead(s: State, c: nat) returns (s': State)
    requires Reachable(s) && c < |s.cpus| && s.cpus[c].phase == Idling && Quiet(s, c)
    ensures Leads(s, Poll(c), s') && c < |s'.cpus|
    ensures var q := Get(s.lists, RunQ(c));
            if q == [] then s' == s
            else && s'.cpus[c].cur == q[0] && Get(s'.lists, RunQ(c)) == q[1..] && s'.cpus[c].phase == Cleaning
                 && q[0] in s'.threads && s'.threads[q[0]] == Thread(c, Run)
                 && Only(s, s', c, {q[0]}, {RunQ(c)})
  {
    ReachableInv(s);
    PickKeeps(s, c);
    s' := Apply(s, Poll(c)).state;
    var q := Get(s.lists, RunQ(c));
    if q != [] { assert In(s.lists, q[0], RunQ(c)); }
  }

  /** exorcise destroys the zombies of its CPU, all of them and no other thread. */
  lemma ExorciseDestroys(s: State, c: nat) returns (s': State)
    requires Reachable(s) && c < |s.cpus| && s.cpus[c].phase == Cleaning
    ensures Leads(s, Exorcise(c), s') && c < |s'.cpus|
    ensures forall t :: t in s'.threads <==> t in s.threads && t !in Get(s.lists, Zombies(c))
    ensures Get(s'.lists, Zombies(c)) == [] && s'.cpus[c] == s.cpus[c].(phase := Running)
    ensures forall t | t in s'.threads :: s'.threads[t] == s.threads[t]
    ensures SameBut(s, s', c, Zombies(c)) && Line(s', c) == Line(s, c) && (Quiet(s, c) ==> Calm(s', c))
  {
    ReachableInv(s);
    DestroyKeeps(s, c);
    s' := Apply(s, Exorcise(c)).state;
  }

  lemma DestroyedIsFree(s: State, t: Tid)
    requires Reachable(s) && t !in s.threads
    ensures Free(s.lists, t)
  {
    ReachableInv(s);
  }

  lemma ExitJoinsZombies(s: State, c: nat) returns (s': State)
    requires Reachable(s) && Calm(s, c)
    ensures Leads(s, Exit(c), s') && Switched(s, s', c, Zombie, Zombies(c))
  {
    ReachableInv(s);
    MaySwitchAlways(s, c, Zombies(c));
    s' := SwitchSwitches(s, c, Zombie, Zombies(c));
  }

  lemma ExitGoesOn(s: State, c: nat) returns (s': State)
    requires Reachable(s) && Calm(s, c) && Get(s.lists, RunQ(c)) != []
    ensures Leads(s, Exit(c), s') && Reachable(s') && c < |s'.cpus| && s'.cpus[c].phase == Cleaning
    ensures Quiet(s', c) && Line(s', c) == Get(s.lists, RunQ(c)) && s.cpus[c].cur in Get(s'.lists, Zombies(c))
  {
    s' := ExitJoinsZombies(s, c);
    ReachableNext(s, Exit(c), s');
    var q := Get(s.lists, RunQ(c));
    assert q == [q[0]] + q[1..];
  }

  /** thread_exit, when there is another thread to run: the one that exits is destroyed as
      soon as the next one is through its switch, and is on no list then. */
  lemma ExitIsDestroyed(s: State, c: nat) returns (s1: State, s2: State)
    requires Reachable(s) && Calm(s, c) && Get(s.lists, RunQ(c)) != []
    ensures Leads(s, Exit(c), s1) && Leads(s1, Exorcise(c), s2) && Calm(s2, c)
    ensures s.cpus[c].cur !in s2.threads && Free(s2.lists, s.cpus[c].cur)
    ensures Line(s2, c) == Get(s.lists, RunQ(c))
  {
    s1 := ExitGoesOn(s, c);
    s2 := ExorciseDestroys(s1, c);
    ReachableNext(s1, Exorcise(c), s2);
    DestroyedIsFree(s2, s.cpus[c].cur);
  }

  // ---------------------------------------------------------------- round robin

  /** The thread on CPU c yields and the next one comes through its switch. */
  ghost predicate Turn(s: State, c: nat, s': State) {
    exists s1: State :: Leads(s, Yield(c), s1) && Leads(s1, Exorcise(c), s')
  }

  /** That, k times, with no other step in between. */
  ghost predicate Turns(s: State, c: nat, k: nat, s': State) {
    if k == 0 then s' == s else exists before: State :: Turns(s, c, k - 1, before) && Turn(before, c, s')
  }

  function Turned(r: seq<Tid>, k: nat): seq<Tid>
    requires k <= |r|
  {
    r[k..] + r[..k]
  }

  lemma TurnedOnce(r: seq<Tid>, k: nat)
    requires k < |r|
    ensures Turned(r, k)[1..] + [Turned(r, k)[0]] == Turned(r, k + 1)
    ensures Turned(r, k + 1)[0] == if k + 1 == |r| then r[0] else r[1..][k]
  {}

  lemma OneRound(s: State, c: nat) returns (s': State)
    requires Reachable(s) && Calm(s, c) && Get(s.lists, RunQ(c)) != []
    ensures Turn(s, c, s') && Reachable(s') && Calm(s', c) && Line(s', c) == Line(s, c)[1..] + [Line(s, c)[0]]
  {
    var s1 := YieldRunsHead(s, c);
    ReachableNext(s, Yield(c), s1);
    s' := ExorciseDestroys(s1, c);
    ReachableNext(s1, Exorcise(c), s');
  }

  /** Threads that keep yielding take turns: after k yields the k-th thread of the queue
      runs and those before it are behind the others, in order; after as many yields as
      there are threads, each has run once and the first one runs again. */
  lemma {:induction false} RoundRobin(s: State, c: nat, k: nat) returns (s': State)
    requires Reachable(s) && Calm(s, c) && Get(s.lists, RunQ(c)) != [] && k <= |Line(s, c)|
    ensures Turns(s, c, k, s') && Reachable(s') && Calm(s', c)
    ensures Line(s', c) == Turned(Line(s, c), k)
    ensures s'.cpus[c].cur == if k == 0 || k == |Line(s, c)| then s.cpus[c].cur else Get(s.lists, RunQ(c))[k - 1]
  {
    if k == 0 {
      s' := s;
    } else {
      var r := Line(s, c);
      var s0 := RoundRobin(s, c, k - 1);
      assert |Turned(r, k - 1)| == |r| > 1;
      TurnedOnce(r, k - 1);
      s' := OneRound(s0, c);
    }
  }

  // ---------------------------------------------------------------- wakeups

  /** A CPU that may wake threads. */
  ghost predicate MayWake(s: State, c: nat) {
    c < |s.cpus| && s.cpus[c].phase != Cleaning && Quiet(s, c)
  }

  /** wchan_wakeall takes every thread off the channel, in order. */
  lemma WakeAllTakesAll(s: State, c: nat, w: nat) returns (s': State)
    requires Reachable(s) && MayWake(s, c)
    ensures Leads(s, WakeAll(c, w), s') && s'.cpus == s.cpus
    ensures Get(s'.lists, Chan(w)) == [] && Get(s'.lists, Hand(c)) == Get(s.lists, Chan(w))
    ensures Only(s, s', c, {}, {Chan(w), Hand(c)})
  {
    s' := Apply(s, WakeAll(c, w)).state;
    var q := Get(s.lists, Chan(w));
    assert [] + q[..|q|] == q;
  }

  /** wchan_wakeone takes the thread that came to the channel first, if there is one. */
  lemma WakeOneTakesHead(s: State, c: nat, w: nat) returns (s': State)
    requires Reachable(s) && MayWake(s, c)
    ensures Leads(s, WakeOne(c, w), s') && s'.cpus == s.cpus
    ensures Get(s.lists, Chan(w)) == Get(s'.lists, Hand(c)) + Get(s'.lists, Chan(w))
    ensures |Get(s'.lists, Hand(c))| == if Get(s.lists, Chan(w)) == [] then 0 else 1
    ensures Only(s, s', c, {}, {Chan(w), Hand(c)})
  {
    s' := Apply(s, WakeOne(c, w)).state;
    var q := Get(s.lists, Chan(w));
    assert q != [] ==> q == q[..1] + q[1..];
  }

  /** Those of the threads in h that belong to CPU d, in order. */
  ghost function Its(s: State, h: seq<Tid>, d: nat): seq<Tid> {
    if h == [] then []
    else (if h[0] in s.threads && s.threads[h[0]].cpu == d then [h[0]] else []) + Its(s, h[1..], d)
  }

  lemma {:induction false} ItsSame(s: State, s': State, h: seq<Tid>, d: nat)
    requires forall t | t in h :: t in s.threads && t in s'.threads && s'.threads[t].cpu == s.threads[t].cpu
    ensures Its(s', h, d) == Its(s, h, d)
  {
    if h != [] { ItsSame(s, s', h[1..], d); }
  }

  /** thread_make_runnable: the first thread in hand goes to the end of its own CPU's run
      queue. */
  ghost predicate Queued(s: State, s': State, c: nat, t: Tid) {
    && t in s.threads && t in s'.threads && s'.threads[t] == Thread(s.threads[t].cpu, Ready)
    && s'.cpus == s.cpus && Get(s.lists, Hand(c)) == [t] + Get(s'.lists, Hand(c))
    && Get(s'.lists, RunQ(s.threads[t].cpu)) == Get(s.lists, RunQ(s.threads[t].cpu)) + [t]
    && (forall p :: p != Hand(c) && p != RunQ(s.threads[t].cpu) ==> Get(s'.lists, p) == Get(s.lists, p))
    && (forall u :: u in s'.threads <==> u in s.threads)
    && (forall u | u in s.threads && u != t :: s'.threads[u] == s.threads[u])
  }

  lemma ListIsSound(s: State, p: Place)
    requires Reachable(s)
    ensures Distinct(Get(s.lists, p))
    ensures forall t | t in Get(s.lists, p) :: t in s.threads && Belongs(s.threads[t], p) && s.threads[t].cpu < |s.cpus|
  {
    ReachableInv(s);
    forall t | t in Get(s.lists, p)
      ensures t in s.threads && Belongs(s.threads[t], p) && s.threads[t].cpu < |s.cpus|
    {
      assert In(s.lists, t, p);
    }
  }

  lemma HandIsQueued(s: State, c: nat) returns (s': State)
    requires Reachable(s) && c < |s.cpus| && Get(s.lists, Hand(c)) != []
    ensures Leads(s, MakeRunnable(c), s') && Queued(s, s', c, Get(s.lists, Hand(c))[0])
  {
    ListIsSound(s, Hand(c));
    var h := Get(s.lists, Hand(c));
    assert h == [h[0]] + h[1..] && h[0] in h;
    s' := Apply(s, MakeRunnable(c)).state;
  }

  /** k threads in hand are made runnable, one after the other. */
  ghost predicate Unloads(s: State, c: nat, k: nat, s': State)
    decreases k
  {
    if k == 0 then s' == s else exists s1: State :: Leads(s, MakeRunnable(c), s1) && Unloads(s1, c, k - 1, s')
  }

  /** Each of the threads h, in their order, is behind the others on its own CPU's run queue;
      every other list is as it was. */
  ghost predicate QueuesGrow(s: State, s': State, c: nat, h: seq<Tid>) {
    && Get(s'.lists, Hand(c)) == []
    && (forall d :: Get(s'.lists, RunQ(d)) == Get(s.lists, RunQ(d)) + Its(s, h, d))
    && (forall p :: p != Hand(c) && !p.RunQ? ==> Get(s'.lists, p) == Get(s.lists, p))
  }

  /** The threads h are ready on the CPUs they were on; every other is as it was. */
  ghost predicate BecomeReady(s: State, s': State, h: seq<Tid>) {
    && (forall t | t in h :: t in s.threads && t in s'.threads && s'.threads[t] == Thread(s.threads[t].cpu, Ready))
    && (forall t :: t in s'.threads <==> t in s.threads)
    && (forall t | t in s.threads && t !in h :: s'.threads[t] == s.threads[t])
  }

  lemma QueuesGrowMore(s: State, s1: State, s': State, c: nat, h: seq<Tid>)
    requires h != [] && Queued(s, s1, c, h[0]) && QueuesGrow(s1, s', c, h[1..])
    requires forall t | t in h :: t in s.threads
    ensures QueuesGrow(s, s', c, h)
  {
    forall d
      ensures Get(s'.lists, RunQ(d)) == Get(s.lists, RunQ(d)) + Its(s, h, d)
    {
      ItsSame(s, s1, h[1..], d);
      var added := if s.threads[h[0]].cpu == d then [h[0]] else [];
      assert Get(s1.lists, RunQ(d)) == Get(s.lists, RunQ(d)) + added;
      assert Its(s, h, d) == added + Its(s, h[1..], d);
    }
  }

  lemma BecomeReadyMore(s: State, s1: State, s': State, c: nat, h: seq<Tid>)
    requires h != [] && Queued(s, s1, c, h[0]) && BecomeReady(s1, s', h[1..]) && h[0] !in h[1..]
    ensures BecomeReady(s, s', h)
  {
    assert h == [h[0]] + h[1..];
  }

  /** When all threads in hand have been made runnable, they are ready, each at the end of
      its own CPU's run queue, in the order in which they were on the channel. */
  lemma {:induction false} HandIsUnloaded(s: State, c: nat) returns (s': State)
    requires Reachable(s) && c < |s.cpus|
    ensures var h := Get(s.lists, Hand(c));
            && Unloads(s, c, |h|, s') && Reachable(s') && s'.cpus == s.cpus
            && QueuesGrow(s, s', c, h) && BecomeReady(s, s', h)
    decreases |Get(s.lists, Hand(c))|
  {
    var h := Get(s.lists, Hand(c));
    if h == [] {
      s' := s;
    } else {
      ListIsSound(s, Hand(c));
      var s1 := HandIsQueued(s, c);
      ReachableNext(s, MakeRunnable(c), s1);
      var k := |Get(s1.lists, Hand(c))|;
      assert h[1..] == Get(s1.lists, Hand(c)) && |h| == k + 1;
      s' := HandIsUnloaded(s1, c);
      QueuesGrowMore(s, s1, s', c, h);
      BecomeReadyMore(s, s1, s', c, h);
      UnloadsMore(s, s1, s', c, k);
    }
  }

  lemma UnloadsMore(s: State, s1: State, s': State, c: nat, k: nat)
    requires Leads(s, MakeRunnable(c), s1) && Unloads(s1, c, k, s')
    ensures Unloads(s, c, k + 1, s')
  {}

  // ---------------------------------------------------------------- channels as queues

  ghost predicate Trace(states: seq<State>, steps: seq<Step>) {
    && |states| == |steps| + 1 && Reachable(states[0])
    && forall i :: 0 <= i < |steps| ==> Leads(states[i], steps[i], states[i + 1])
  }

  /** The thread that a step puts to sleep on channel w, and those that it wakes there. */
  ghost function Came(s: State, step: Step, w: nat): seq<Tid> {
    if step.SleepOn? && step.w == w && step.c < |s.cpus| then [s.cpus[step.c].cur] else []
  }

  ghost function Went(step: Step, s': State, w: nat): seq<Tid> {
    if (step.WakeOne? || step.WakeAll?) && step.w == w then Get(s'.lists, Hand(step.c)) else []
  }

  lemma WakeStep(s: State, c: nat, v: nat, all: bool, w: nat)
    requires c < |s.cpus| && Wake(s, c, v, all).Next?
    ensures var s' := Wake(s, c, v, all).state;
            Get(s.lists, Chan(w)) == (if v == w then Get(s'.lists, Hand(c)) else []) + Get(s'.lists, Chan(w))
  {
    var q := Get(s.lists, Chan(w));
    assert q != [] ==> q == q[..1] + q[1..];
    assert q == q[..|q|] + q[|q|..];
  }

  lemma ChannelStep(s: State, step: Step, s': State, w: nat)
    requires Leads(s, step, s')
    ensures Get(s.lists, Chan(w)) + Came(s, step, w) == Went(step, s', w) + Get(s'.lists, Chan(w))
  {
    if step.WakeOne? || step.WakeAll? {
      WakeStep(s, step.c, step.w, step.WakeAll?, w);
    } else {
      assert Get(s'.lists, Chan(w)) == Get(s.lists, Chan(w)) + Came(s, step, w);
    }
  }

  /** All the threads put to sleep on channel w over a run, and all woken, in order. */
  ghost function AllCame(states: seq<State>, steps: seq<Step>, w: nat): seq<Tid>
    requires |states| == |steps| + 1
  {
    if steps == [] then [] else
      var n := |steps| - 1;
      AllCame(states[..n + 1], steps[..n], w) + Came(states[n], steps[n], w)
  }

  ghost function AllWent(states: seq<State>, steps: seq<Step>, w: nat): seq<Tid>
    requires |states| == |steps| + 1
  {
    if steps == [] then [] else
      var n := |steps| - 1;
      AllWent(states[..n + 1], steps[..n], w) + Went(steps[n], states[n + 1], w)
  }

  /** Over every run a wait channel is a queue: those woken and, after them, those asleep at
      the end are those asleep at the start and, after them, those that went to sleep, in
      that order. So threads are woken in the order in which they went to sleep. */
  lemma {:induction false} ChannelIsQueue(states: seq<State>, steps: seq<Step>, w: nat)
    requires Trace(states, steps)
    ensures Get(states[0].lists, Chan(w)) + AllCame(states, steps, w)
            == AllWent(states, steps, w) + Get(states[|steps|].lists, Chan(w))
    decreases |steps|
  {
    if steps != [] {
      var n := |steps| - 1;
      ChannelIsQueue(states[..n + 1], steps[..n], w);
      ChannelStep(states[n], steps[n], states[n + 1], w);
      Regroup(Get(states[0].lists, Chan(w)), AllCame(states[..n + 1], steps[..n], w), Came(states[n], steps[n], w),
              AllWent(states[..n + 1], steps[..n], w), Get(states[n].lists, Chan(w)),
              Went(steps[n], states[n + 1], w), Get(states[n + 1].lists, Chan(w)));
    }
  }

  // ---------------------------------------------------------------- fork and migration

  /** thread_fork: the new thread is ready, at the end of the run queue of its maker's CPU. */
  lemma ForkQueuesChild(s: State, c: nat, t: Tid) returns (s': State)
    requires Reachable(s) && c < |s.cpus| && s.cpus[c].phase == Running && t !in s.threads
    ensures Leads(s, Fork(c, t), s') && s'.cpus == s.cpus && SameBut(s, s', c, RunQ(c))
    ensures Get(s'.lists, RunQ(c)) == Get(s.lists, RunQ(c)) + [t]
    ensures s'.threads == s.threads[t := Thread(c, Ready)]
  {
    ReachableInv(s);
    ForkKeeps(s, c, t);
    s' := Apply(s, Fork(c, t)).state;
  }

  /** thread_consider_migration counts its run queue, */
  ghost predicate Counted(s: State, s': State, c: nat) {
    && c < |s.cpus| && s'.lists == s.lists && s'.threads == s.threads
    && s'.cpus == s.cpus[c := s.cpus[c].(count := Some(|Get(s.lists, RunQ(c))|))]
  }

  /** takes the last k threads of it, */
  ghost predicate TakenOff(s: State, s': State, c: nat, k: nat) {
    && c < |s.cpus| && s'.threads == s.threads && s'.cpus == s.cpus[c := s.cpus[c].(count := None)]
    && Get(s.lists, RunQ(c)) == Get(s'.lists, RunQ(c)) + Get(s'.lists, Victims(c)) && |Get(s'.lists, Victims(c))| == k
    && forall p :: p != RunQ(c) && p != Victims(c) ==> Get(s'.lists, p) == Get(s.lists, p)
  }

  /** and in the end puts back those that are left. */
  ghost predicate PutBack(s: State, s': State, c: nat) {
    && s'.cpus == s.cpus && s'.threads == s.threads && Get(s'.lists, Victims(c)) == []
    && Get(s'.lists, RunQ(c)) == Get(s.lists, RunQ(c)) + Get(s.lists, Victims(c))
    && forall p :: p != RunQ(c) && p != Victims(c) ==> Get(s'.lists, p) == Get(s.lists, p)
  }

  lemma QueueIsCounted(s: State, c: nat) returns (s': State)
    requires MayWake(s, c)
    ensures Leads(s, Measure(c), s') && Counted(s, s', c)
  {
    s' := Apply(s, Measure(c)).state;
  }

  lemma CountBounds(s: State, c: nat, m: nat)
    requires Reachable(s) && c < |s.cpus| && s.cpus[c].count == Some(m)
    ensures m <= |Get(s.lists, RunQ(c))|
  {
    ReachableInv(s);
  }

  lemma VictimsAreTaken(s: State, c: nat, m: nat, k: nat) returns (s': State)
    requires Reachable(s) && c < |s.cpus| && s.cpus[c].count == Some(m) && k <= m && Get(s.lists, Victims(c)) == []
    ensures Leads(s, Take(c, k), s') && TakenOff(s, s', c, k)
  {
    CountBounds(s, c, m);
    var q := Get(s.lists, RunQ(c));
    var keep, moved := q[..|q| - k], [] + q[|q| - k..];
    assert q == keep + moved && |moved| == k;
    s' := Apply(s, Take(c, k)).state;
    assert s'.lists == s.lists[RunQ(c) := keep][Victims(c) := moved];
  }

  lemma VictimsGoBack(s: State, c: nat) returns (s': State)
    requires c < |s.cpus|
    ensures Leads(s, Restore(c), s') && PutBack(s, s', c)
  {
    s' := Apply(s, Restore(c)).state;
  }

  /** A migration that gives none of them away leaves everything as it was. */
  lemma TakenIsRestored(s: State, s1: State, s2: State, s3: State, c: nat, k: nat)
    requires c < |s.cpus| && Quiet(s, c) && Counted(s, s1, c) && TakenOff(s1, s2, c, k) && PutBack(s2, s3, c)
    ensures s3.cpus == s.cpus && s3.threads == s.threads && forall p :: Get(s3.lists, p) == Get(s.lists, p)
  {
    Recount(s.cpus, c, Some(|Get(s.lists, RunQ(c))|));
  }

  lemma Recount(cpus: seq<Cpu>, c: nat, count: Option<nat>)
    requires c < |cpus| && cpus[c].count.None?
    ensures var counted := cpus[c := cpus[c].(count := count)];
            counted[c := counted[c].(count := None)] == cpus
  {}

  /** The first victim goes to the end of the other CPU's run queue and belongs there, or
      behind the other victims if it is the current thread. */
  lemma VictimIsGiven(s: State, c: nat, d: nat) returns (s': State)
    requires Reachable(s) && c < |s.cpus| && d < |s.cpus| && d != c && Get(s.lists, Victims(c)) != []
    ensures Leads(s, Give(c, d), s') && s'.cpus == s.cpus
    ensures var v := Get(s.lists, Victims(c));
            if v[0] == s.cpus[c].cur then
              Get(s'.lists, Victims(c)) == v[1..] + [v[0]] && s'.threads == s.threads && SameBut(s, s', c, Victims(c))
            else
              && Get(s'.lists, Victims(c)) == v[1..] && Get(s'.lists, RunQ(d)) == Get(s.lists, RunQ(d)) + [v[0]]
              && s'.threads == s.threads[v[0] := Thread(d, Ready)]
              && forall p :: p != Victims(c) && p != RunQ(d) ==> Get(s'.lists, p) == Get(s.lists, p)
  {
    ListIsSound(s, Victims(c));
    assert Get(s.lists, Victims(c))[0] in Get(s.lists, Victims(c));
    s' := Apply(s, Give(c, d)).state;
  }
}

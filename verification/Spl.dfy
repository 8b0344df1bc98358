// Interrupt masking: splraise/spllower/splx, spinlocks, and what becomes of the count
// of raises when thread_switch hands a CPU, and the run queue lock it holds, from one
// thread to another.
module Spl {
  import opened Basics

  type Tid = nat

  datatype Lock = RunQueue(c: nat) | Other(id: nat)

  /** t_curspl, t_iplhigh_count, and the level thread_switch will restore. */
  datatype Thread = Thread(high: bool, count: nat, saved: bool)

  datatype Kind = Yield | Sleep(lk: Lock) | Exit

  /** Where a CPU is in thread_switch. */
  datatype Pc =
    | Body                   // outside
    | Enter(kind: Kind)      // level raised, taking the run queue lock
    | Choosing(dead: bool)   // current thread queued; run queue lock held or being retaken
    | Idle(dead: bool)       // run queue lock released, in cpu_idle
    | Tail                   // in the next thread, run queue lock still held

  /** A spinlock belongs to the CPU c it was taken on; t is the thread that took it. The
      run queue lock passes to the thread that thread_switch goes on to. */
  datatype Holder = Holder(c: nat, t: Tid)

  /** spin is the lock spinlock_acquire is waiting for. */
  datatype Cpu = Cpu(cur: Tid, irq: bool, spinlocks: nat, spin: Option<Lock>, pc: Pc)

  datatype State = State(cpus: seq<Cpu>, locks: map<Lock, Holder>, threads: map<Tid, Thread>, out: set<Tid>)

  datatype Step =
    | SplX(c: nat, high: bool)
    | Acquire(c: nat, l: Lock)
    | Win(c: nat)
    | Release(c: nat, l: Lock)
    | Fork(c: nat, t: Tid)
    | Switch(c: nat, kind: Kind)
    | Decide(c: nat, nothing: bool)
    | Choose(c: nat, t: Tid)
    | GoIdle(c: nat)
    | Unidle(c: nat)
    | Finish(c: nat)

  /** Misuse is an assertion or panic on the caller of a spinlock or of thread_switch, or
      giving up a spinlock that another thread took; Broken is an assertion that the code
      runs into by itself. */
  datatype Result = Next(state: State) | Blocked | Misuse | Broken

  predicate Exists(s: State, c: nat) {
    c < |s.cpus| && s.cpus[c].cur in s.threads
  }

  function CurThread(s: State, c: nat): Thread
    requires Exists(s, c)
  {
    s.threads[s.cpus[c].cur]
  }

  /** splraise: interrupts go off on the first raise. */
  function Raise(s: State, c: nat): State
    requires Exists(s, c)
  {
    var th := CurThread(s, c);
    s.(cpus := s.cpus[c := s.cpus[c].(irq := if th.count == 0 then false else s.cpus[c].irq)],
       threads := s.threads[s.cpus[c].cur := th.(count := th.count + 1)])
  }

  /** spllower: interrupts go on again at the last lower. */
  function Lower(s: State, c: nat): State
    requires Exists(s, c) && CurThread(s, c).count > 0
  {
    var th := CurThread(s, c);
    s.(cpus := s.cpus[c := s.cpus[c].(irq := if th.count == 1 then true else s.cpus[c].irq)],
       threads := s.threads[s.cpus[c].cur := th.(count := th.count - 1)])
  }

  function SetLevel(s: State, c: nat, high: bool): State
    requires Exists(s, c)
  {
    s.(threads := s.threads[s.cpus[c].cur := CurThread(s, c).(high := high)])
  }

  /** splx */
  function Set(s: State, c: nat, high: bool): Result
    requires Exists(s, c)
  {
    var th := CurThread(s, c);
    if !th.high && high then Next(SetLevel(Raise(s, c), c, true))
    else if th.high && !high then
      if th.count == 0 then Broken else Next(Lower(SetLevel(s, c, false), c))
    else Next(s)
  }

  /** spinlock_acquire up to its loop. */
  function Begin(s: State, c: nat, l: Lock): Result
    requires Exists(s, c)
  {
    if l in s.locks && s.locks[l].c == c then Misuse
    else
      var r := Raise(s, c);
      Next(r.(cpus := r.cpus[c := r.cpus[c].(spinlocks := r.cpus[c].spinlocks + 1, spin := Some(l))]))
  }

  /** spinlock_release */
  function Drop(s: State, c: nat, l: Lock): Result
    requires Exists(s, c)
  {
    if l !in s.locks || s.locks[l] != Holder(c, s.cpus[c].cur) || s.cpus[c].spinlocks == 0 then Misuse
    else if CurThread(s, c).count == 0 then Broken
    else Next(Lower(s.(locks := s.locks - {l},
                       cpus := s.cpus[c := s.cpus[c].(spinlocks := s.cpus[c].spinlocks - 1)]), c))
  }

  /** The locks CPU c holds, and the locks thread t took. */
  function Held(s: State, c: nat): set<Lock> {
    set l | l in s.locks && s.locks[l].c == c
  }

  function Own(s: State, t: Tid): set<Lock> {
    set l | l in s.locks && s.locks[l].t == t
  }

  function At(s: State, c: nat, pc: Pc): State
    requires c < |s.cpus|
  {
    s.(cpus := s.cpus[c := s.cpus[c].(pc := pc)])
  }

  /** The two ends of a use of the run queue lock inside thread_switch. */
  function Leave(s: State, c: nat): Result
    requires Exists(s, c)
  {
    var saved := CurThread(s, c).saved;
    match Drop(s, c, RunQueue(c))
    case Next(s1) =>
      if !Exists(s1, c) then Broken else
        (match Set(s1, c, saved)
         case Next(s2) => if c < |s2.cpus| then Next(At(s2, c, Body)) else Broken
         case _ => Broken)
    case _ => Broken
  }

  function StartSwitch(s: State, c: nat, kind: Kind): Result
    requires Exists(s, c)
  {
    var s0 := s.(threads := s.threads[s.cpus[c].cur := CurThread(s, c).(saved := CurThread(s, c).high)]);
    match Set(s0, c, true)
    case Next(s1) =>
      if !Exists(s1, c) then Broken else
        (match Begin(s1, c, RunQueue(c))
         case Next(s2) => if c < |s2.cpus| then Next(At(s2, c, Enter(kind))) else Broken
         case r => r)
    case r => r
  }

  /** wchan_sleep asserts that its own spinlock is held and no other; the other callers
      of thread_switch may hold any. */
  predicate MaySwitch(s: State, c: nat, kind: Kind)
    requires c < |s.cpus|
  {
    kind.Sleep? ==> s.cpus[c].spinlocks == 1 && kind.lk in s.locks && s.locks[kind.lk] == Holder(c, s.cpus[c].cur)
  }

  function Apply(s: State, step: Step): Result
    requires Exists(s, step.c)
  {
    var cpu := s.cpus[step.c];
    match step
    case SplX(c, high) => if !cpu.pc.Body? || cpu.spin.Some? then Blocked else Set(s, c, high)
    case Acquire(c, l) => if !cpu.pc.Body? || cpu.spin.Some? then Blocked else Begin(s, c, l)
    case Win(c) =>
      (match cpu.spin
       case None => Blocked
       case Some(l) =>
         if l in s.locks then Blocked
         else Next(s.(locks := s.locks[l := Holder(c, cpu.cur)], cpus := s.cpus[c := cpu.(spin := None)])))
    case Release(c, l) => if !cpu.pc.Body? || cpu.spin.Some? then Blocked else Drop(s, c, l)
    case Fork(c, t) =>
      if !cpu.pc.Body? || cpu.spin.Some? || t in s.threads then Blocked
      else Next(s.(threads := s.threads[t := CREATED.(count := CREATED.count + 1)], out := s.out + {t}))
    case Switch(c, kind) =>
      if !cpu.pc.Body? || cpu.spin.Some? then Blocked
      else if !MaySwitch(s, c, kind) then Misuse
      else StartSwitch(s, c, kind)
    case Decide(c, nothing) =>
      if !cpu.pc.Enter? || cpu.spin.Some? then Blocked
      else (match cpu.pc.kind
            case Yield => if nothing then Leave(s, c) else Next(At(s, c, Choosing(false)))
            case Exit => Next(At(s, c, Choosing(true)))
            case Sleep(lk) =>
              (match Drop(s, c, lk)
               case Next(s1) => if c < |s1.cpus| then Next(At(s1, c, Choosing(false))) else Broken
               case _ => Broken))
    case Choose(c, t) =>
      if !cpu.pc.Choosing? || cpu.spin.Some? then Blocked
      else if t in s.out then
        Next(s.(cpus := s.cpus[c := cpu.(cur := t, pc := Tail)],
                locks := s.locks[RunQueue(c) := Holder(c, t)],
                out := s.out - {t} + if cpu.pc.dead then {} else {cpu.cur}))
      else if t == cpu.cur && !cpu.pc.dead then Next(At(s, c, Tail))
      else Blocked
    case GoIdle(c) =>
      if !cpu.pc.Choosing? || cpu.spin.Some? then Blocked
      else (match Drop(s, c, RunQueue(c))
            case Next(s1) => if c < |s1.cpus| then Next(At(s1, c, Idle(cpu.pc.dead))) else Broken
            case _ => Broken)
    case Unidle(c) =>
      if !cpu.pc.Idle? then Blocked
      else (match Begin(s, c, RunQueue(c))
            case Next(s1) => if c < |s1.cpus| then Next(At(s1, c, Choosing(cpu.pc.dead))) else Broken
            case _ => Broken)
    case Finish(c) => if !cpu.pc.Tail? then Blocked else Leave(s, c)
  }

  /** thread_create */
  const CREATED := Thread(true, 1, false)

  function BootThreads(n: nat): (m: map<Tid, Thread>)
    ensures forall t: nat :: (t in m <==> t < n) && (t in m ==> m[t] == CREATED)
  {
    if n == 0 then map[] else BootThreads(n - 1)[n - 1 := CREATED]
  }

  /** Boot: each CPU runs a thread of its own, at high level. */
  function Init(n: nat): State {
    State(seq(n, (c: nat) => Cpu(c, false, 0, None, Body)), map[], BootThreads(n), {})
  }

  // ---------------------------------------------------------------- invariant

  function Spinning(cpu: Cpu): nat {
    if cpu.spin.Some? then 1 else 0
  }

  /** A thread on a CPU is charged one raise for its level and one for each spinlock it
      has taken or waits for, and interrupts are on exactly when that is none. */
  ghost predicate Charged(s: State, c: nat)
    requires Exists(s, c)
  {
    var cpu, th := s.cpus[c], CurThread(s, c);
    && th.count == (if th.high then 1 else 0) + |Own(s, cpu.cur)| + Spinning(cpu)
    && (cpu.irq <==> th.count == 0)
    && cpu.spinlocks == |Held(s, c)| + Spinning(cpu)
  }

  ghost predicate Mine(s: State, c: nat, l: Lock)
    requires c < |s.cpus|
  {
    l in s.locks && s.locks[l] == Holder(c, s.cpus[c].cur)
  }

  /** The locks that go with each point of thread_switch. */
  ghost predicate PhaseOk(s: State, c: nat)
    requires Exists(s, c)
  {
    var cpu, th, runq := s.cpus[c], CurThread(s, c), RunQueue(c);
    var taking := if cpu.spin.Some? then cpu.spin == Some(runq) else Mine(s, c, runq);
    match cpu.pc
    case Body => true
    case Enter(kind) => th.high && taking && (kind.Sleep? ==> Mine(s, c, kind.lk) && kind.lk != runq)
    case Choosing(_) => th.high && taking
    case Idle(_) => th.high && cpu.spin.None? && runq !in Held(s, c)
    case Tail => th.high && cpu.spin.None? && Mine(s, c, runq)
  }

  ghost predicate CpuOk(s: State, c: nat) {
    Exists(s, c) && Charged(s, c) && PhaseOk(s, c) && s.cpus[c].cur !in s.out
  }

  /** A thread that has been switched out, or never run, is charged one raise for each
      spinlock it took and has not given up, and two more: its level, and the run queue
      lock it will find held. */
  ghost predicate OutOk(s: State) {
    forall t | t in s.out :: t in s.threads && s.threads[t].high && s.threads[t].count == 2 + |Own(s, t)|
  }

  ghost predicate Inv(s: State) {
    && (forall c :: 0 <= c < |s.cpus| ==> CpuOk(s, c))
    && (forall c, d :: 0 <= c < d < |s.cpus| ==> s.cpus[c].cur != s.cpus[d].cur)
    && OutOk(s)
    && (forall l | l in s.locks :: s.locks[l].t in s.threads)
  }

  /** Only CPU c, its current thread and the locks that thread took on it differ. */
  ghost predicate Local(s: State, s': State, c: nat) {
    && Exists(s, c) && Exists(s', c) && |s'.cpus| == |s.cpus| && s'.out == s.out
    && s'.cpus[c].cur == s.cpus[c].cur
    && (forall d :: 0 <= d < |s.cpus| && d != c ==> s'.cpus[d] == s.cpus[d])
    && (forall t | t in s.threads && t != s.cpus[c].cur :: t in s'.threads && s'.threads[t] == s.threads[t])
    && (forall l | l in s.locks && s.locks[l] != Holder(c, s.cpus[c].cur) ::
          l in s'.locks && s'.locks[l] == s.locks[l])
    && (forall l | l in s'.locks && s'.locks[l] != Holder(c, s.cpus[c].cur) ::
          l in s.locks && s'.locks[l] == s.locks[l])
  }

  lemma HeldElsewhere(s: State, s': State, c: nat, d: nat)
    requires Local(s, s', c) && d != c
    ensures Held(s', d) == Held(s, d)
  {}

  lemma OwnElsewhere(s: State, s': State, c: nat, t: Tid)
    requires Local(s, s', c) && t != s.cpus[c].cur
    ensures Own(s', t) == Own(s, t)
  {}

  lemma OtherCpuKeeps(s: State, s': State, c: nat, d: nat)
    requires Local(s, s', c) && d != c && d < |s.cpus| && CpuOk(s, d) && s.cpus[d].cur != s.cpus[c].cur
    ensures CpuOk(s', d)
  {
    HeldElsewhere(s, s', c, d);
    OwnElsewhere(s, s', c, s.cpus[d].cur);
  }

  lemma LocalKeeps(s: State, s': State, c: nat)
    requires Inv(s) && Local(s, s', c) && Charged(s', c) && PhaseOk(s', c)
    ensures Inv(s')
  {
    assert CpuOk(s, c);
    forall d | 0 <= d < |s.cpus| && d != c
      ensures CpuOk(s', d)
    {
      assert CpuOk(s, d);
      OtherCpuKeeps(s, s', c, d);
    }
    forall t | t in s.out
      ensures t in s'.threads && s'.threads[t].high && s'.threads[t].count == 2 + |Own(s', t)|
    {
      OwnElsewhere(s, s', c, t);
    }
  }

  /** The same locks, taken by the same threads on the same CPUs. */
  lemma SameLocks(s: State, s': State)
    requires s'.locks == s.locks
    ensures forall d :: Held(s', d) == Held(s, d)
    ensures forall t :: Own(s', t) == Own(s, t)
  {}

  /** What a step on CPU c leaves as it was. */
  ghost predicate Same(s: State, s': State, c: nat)
    requires Exists(s, c) && Exists(s', c)
  {
    s'.cpus[c].pc == s.cpus[c].pc && CurThread(s', c).saved == CurThread(s, c).saved
  }

  lemma BeginCharges(s: State, c: nat, l: Lock)
    requires Exists(s, c) && Charged(s, c) && s.cpus[c].spin.None? && Begin(s, c, l).Next?
    ensures var s' := Begin(s, c, l).state;
            && Local(s, s', c) && Charged(s', c) && Same(s, s', c) && s'.locks == s.locks
            && s'.cpus[c].spin == Some(l) && CurThread(s', c).high == CurThread(s, c).high
  {
    SameLocks(s, Begin(s, c, l).state);
  }

  lemma DropCharges(s: State, c: nat, l: Lock)
    requires Exists(s, c) && Charged(s, c) && s.cpus[c].spin.None? && Mine(s, c, l)
    ensures Drop(s, c, l).Next?
    ensures var s' := Drop(s, c, l).state;
            && Local(s, s', c) && Charged(s', c) && Same(s, s', c) && s'.locks == s.locks - {l}
            && s'.cpus[c].spin.None? && CurThread(s', c).high == CurThread(s, c).high
  {
    assert l in Held(s, c) && l in Own(s, s.cpus[c].cur);
    var s1 := s.(locks := s.locks - {l}, cpus := s.cpus[c := s.cpus[c].(spinlocks := s.cpus[c].spinlocks - 1)]);
    assert Held(s1, c) == Held(s, c) - {l} && Own(s1, s.cpus[c].cur) == Own(s, s.cpus[c].cur) - {l};
    SameLocks(s1, Lower(s1, c));
  }

  lemma SetCharges(s: State, c: nat, high: bool)
    requires Exists(s, c) && Charged(s, c)
    ensures Set(s, c, high).Next?
    ensures var s' := Set(s, c, high).state;
            && Local(s, s', c) && Charged(s', c) && Same(s, s', c) && s'.locks == s.locks
            && s'.cpus[c].spin == s.cpus[c].spin && CurThread(s', c).high == high
  {
    SameLocks(s, Set(s, c, high).state);
  }

  /** Moving to another point changes nothing else. */
  lemma AtCharges(s: State, c: nat, pc: Pc)
    requires Exists(s, c) && Charged(s, c)
    ensures var s' := At(s, c, pc);
            Local(s, s', c) && Charged(s', c) && s'.locks == s.locks && s'.cpus[c] == s.cpus[c].(pc := pc)
  {
    SameLocks(s, At(s, c, pc));
  }

  lemma LocalTwice(s: State, s1: State, s2: State, c: nat)
    requires Local(s, s1, c) && Local(s1, s2, c)
    ensures Local(s, s2, c)
  {}

  /** The level restored is the one that was saved. */
  lemma LeaveKeeps(s: State, c: nat)
    requires Inv(s) && c < |s.cpus| && s.cpus[c].spin.None? && Mine(s, c, RunQueue(c))
    ensures Exists(s, c) && Leave(s, c).Next? && Inv(Leave(s, c).state)
    ensures var s', t := Leave(s, c).state, s.cpus[c].cur;
            Local(s, s', c) && s'.threads[t].saved == s.threads[t].saved == s'.threads[t].high
  {
    assert CpuOk(s, c);
    DropCharges(s, c, RunQueue(c));
    var s1 := Drop(s, c, RunQueue(c)).state;
    SetCharges(s1, c, CurThread(s, c).saved);
    var s2 := Set(s1, c, CurThread(s, c).saved).state;
    AtCharges(s2, c, Body);
    LocalTwice(s, s1, s2, c);
    LocalTwice(s, s2, At(s2, c, Body), c);
    LocalKeeps(s, At(s2, c, Body), c);
  }

  lemma Singleton(held: set<Lock>, l: Lock)
    requires |held| == 1 && l in held
    ensures held == {l}
  {
    assert |held - {l}| == 0;
  }

  /** thread_switch keeps the level to go back to and raises it. */
  lemma LevelIsSaved(s: State, c: nat) returns (s1: State)
    requires Exists(s, c) && Charged(s, c) && s.cpus[c].spin.None?
    ensures var th := CurThread(s, c);
            Set(s.(threads := s.threads[s.cpus[c].cur := th.(saved := th.high)]), c, true) == Next(s1)
    ensures Local(s, s1, c) && Charged(s1, c) && s1.locks == s.locks && s1.cpus[c].spin.None?
    ensures CurThread(s1, c).high && CurThread(s1, c).saved == CurThread(s, c).high
  {
    var s0 := s.(threads := s.threads[s.cpus[c].cur := CurThread(s, c).(saved := CurThread(s, c).high)]);
    SameLocks(s, s0);
    SetCharges(s0, c, true);
    s1 := Set(s0, c, true).state;
    LocalTwice(s, s0, s1, c);
  }

  /** thread_switch may be entered with any spinlocks held except the CPU's own run queue
      lock. */
  lemma StartSwitchKeeps(s: State, c: nat, kind: Kind)
    requires Inv(s) && c < |s.cpus| && s.cpus[c].pc.Body? && s.cpus[c].spin.None? && MaySwitch(s, c, kind)
    ensures Exists(s, c) && !StartSwitch(s, c, kind).Broken? && !StartSwitch(s, c, kind).Blocked?
    ensures StartSwitch(s, c, kind).Misuse? <==> RunQueue(c) in Held(s, c)
    ensures StartSwitch(s, c, kind).Next? ==> Inv(StartSwitch(s, c, kind).state)
    ensures StartSwitch(s, c, kind).Next? ==>
              StartSwitch(s, c, kind).state.threads[s.cpus[c].cur].saved == s.threads[s.cpus[c].cur].high
  {
    assert CpuOk(s, c);
    var s1 := LevelIsSaved(s, c);
    if RunQueue(c) !in Held(s, c) {
      BeginCharges(s1, c, RunQueue(c));
      var s2 := Begin(s1, c, RunQueue(c)).state;
      AtCharges(s2, c, Enter(kind));
      LocalTwice(s, s1, s2, c);
      LocalTwice(s, s2, At(s2, c, Enter(kind)), c);
      if kind.Sleep? { Singleton(Held(s, c), kind.lk); }
      LocalKeeps(s, At(s2, c, Enter(kind)), c);
    }
  }

  lemma WinKeeps(s: State, c: nat)
    requires Inv(s) && c < |s.cpus| && Exists(s, c) && Apply(s, Win(c)).Next?
    ensures Inv(Apply(s, Win(c)).state)
  {
    assert CpuOk(s, c);
    var s', l, t := Apply(s, Win(c)).state, s.cpus[c].spin.value, s.cpus[c].cur;
    assert Held(s', c) == Held(s, c) + {l} && Own(s', t) == Own(s, t) + {l};
    LocalKeeps(s, s', c);
  }

  /** Giving up a lock and moving to another point of thread_switch. */
  lemma DropToKeeps(s: State, c: nat, l: Lock, pc: Pc)
    requires Inv(s) && c < |s.cpus| && Exists(s, c) && s.cpus[c].spin.None? && Mine(s, c, l)
    requires CurThread(s, c).high
    requires (pc.Choosing? && l != RunQueue(c) && Mine(s, c, RunQueue(c))) || (pc.Idle? && l == RunQueue(c))
    ensures Drop(s, c, l).Next? && c < |Drop(s, c, l).state.cpus| && Inv(At(Drop(s, c, l).state, c, pc))
  {
    assert CpuOk(s, c);
    DropCharges(s, c, l);
    var s1 := Drop(s, c, l).state;
    AtCharges(s1, c, pc);
    LocalTwice(s, s1, At(s1, c, pc), c);
    LocalKeeps(s, At(s1, c, pc), c);
  }

  lemma DecideKeeps(s: State, c: nat, nothing: bool)
    requires Inv(s) && c < |s.cpus| && Exists(s, c) && s.cpus[c].pc.Enter? && s.cpus[c].spin.None?
    ensures Apply(s, Decide(c, nothing)).Next? && Inv(Apply(s, Decide(c, nothing)).state)
  {
    assert CpuOk(s, c);
    match s.cpus[c].pc.kind
    case Yield =>
      LeaveKeeps(s, c);
      PcKeeps(s, c, Choosing(false));
    case Exit => PcKeeps(s, c, Choosing(true));
    case Sleep(lk) => DropToKeeps(s, c, lk, Choosing(false));
  }

  /** Moving on while holding the run queue lock. */
  lemma PcKeeps(s: State, c: nat, pc: Pc)
    requires Inv(s) && c < |s.cpus| && Exists(s, c) && CurThread(s, c).high && s.cpus[c].spin.None?
    requires Mine(s, c, RunQueue(c)) && (pc.Choosing? || pc.Tail?)
    ensures Inv(At(s, c, pc))
  {
    assert CpuOk(s, c);
    AtCharges(s, c, pc);
    LocalKeeps(s, At(s, c, pc), c);
  }

  /** The run queue lock passes from thread a to thread t, and nothing else does. */
  lemma LockPasses(s: State, s': State, c: nat, a: Tid, t: Tid)
    requires RunQueue(c) in s.locks && s.locks[RunQueue(c)] == Holder(c, a) && a != t
    requires s'.locks == s.locks[RunQueue(c) := Holder(c, t)]
    ensures forall d :: Held(s', d) == Held(s, d)
    ensures |Own(s', a)| == |Own(s, a)| - 1 && |Own(s', t)| == |Own(s, t)| + 1
    ensures forall u | u != a && u != t :: Own(s', u) == Own(s, u)
  {
    var l := RunQueue(c);
    assert l in Own(s, a) && l !in Own(s, t);
    assert Own(s', a) == Own(s, a) - {l} && Own(s', t) == Own(s, t) + {l};
  }

  lemma ChooseKeeps(s: State, c: nat, t: Tid)
    requires Inv(s) && c < |s.cpus| && Exists(s, c) && Apply(s, Choose(c, t)).Next?
    ensures Inv(Apply(s, Choose(c, t)).state)
  {
    assert CpuOk(s, c);
    if t !in s.out {
      PcKeeps(s, c, Tail);
    } else {
      var s', a := Apply(s, Choose(c, t)).state, s.cpus[c].cur;
      LockPasses(s, s', c, a, t);
      forall d | 0 <= d < |s.cpus|
        ensures CpuOk(s', d) && s.cpus[d].cur != t
      {
        assert CpuOk(s, d);
      }
    }
  }

  lemma UnidleKeeps(s: State, c: nat)
    requires Inv(s) && c < |s.cpus| && Exists(s, c) && s.cpus[c].pc.Idle?
    ensures Apply(s, Unidle(c)).Next? && Inv(Apply(s, Unidle(c)).state)
  {
    assert CpuOk(s, c);
    BeginCharges(s, c, RunQueue(c));
    var s1 := Begin(s, c, RunQueue(c)).state;
    AtCharges(s1, c, Choosing(s.cpus[c].pc.dead));
    LocalTwice(s, s1, Apply(s, Unidle(c)).state, c);
    LocalKeeps(s, Apply(s, Unidle(c)).state, c);
  }

  lemma ForkKeeps(s: State, c: nat, t: Tid)
    requires Inv(s) && c < |s.cpus| && Exists(s, c) && Apply(s, Fork(c, t)).Next?
    ensures Inv(Apply(s, Fork(c, t)).state)
  {
    var s' := Apply(s, Fork(c, t)).state;
    SameLocks(s, s');
    assert Own(s, t) == {};
    forall d | 0 <= d < |s.cpus|
      ensures CpuOk(s', d)
    {
      assert CpuOk(s, d);
    }
  }

  /** Calls made outside thread_switch, in any order. */
  lemma BodyKeeps(s: State, step: Step)
    requires Inv(s) && Exists(s, step.c) && s.cpus[step.c].pc.Body? && s.cpus[step.c].spin.None?
    requires step.SplX? || step.Acquire? || step.Release?
    ensures !Apply(s, step).Broken? && (Apply(s, step).Next? ==> Inv(Apply(s, step).state))
  {
    var c := step.c;
    assert CpuOk(s, c);
    match step {
      case SplX(_, high) => SetCharges(s, c, high);
      case Acquire(_, l) => if Begin(s, c, l).Next? { BeginCharges(s, c, l); }
      case Release(_, l) => if Mine(s, c, l) { DropCharges(s, c, l); }
    }
    if Apply(s, step).Next? { LocalKeeps(s, Apply(s, step).state, c); }
  }

  lemma StepSafe(s: State, step: Step)
    requires Inv(s) && Exists(s, step.c)
    ensures !Apply(s, step).Broken?
    ensures Apply(s, step).Next? ==> Inv(Apply(s, step).state)
  {
    var c := step.c;
    assert CpuOk(s, c);
    if !Apply(s, step).Blocked? {
      match step
      case SplX(_, _) => BodyKeeps(s, step);
      case Acquire(_, _) => BodyKeeps(s, step);
      case Win(_) => WinKeeps(s, c);
      case Release(_, _) => BodyKeeps(s, step);
      case Fork(_, t) => ForkKeeps(s, c, t);
      case Switch(_, kind) => if MaySwitch(s, c, kind) { StartSwitchKeeps(s, c, kind); }
      case Decide(_, nothing) => DecideKeeps(s, c, nothing);
      case Choose(_, t) => ChooseKeeps(s, c, t);
      case GoIdle(_) => DropToKeeps(s, c, RunQueue(c), Idle(s.cpus[c].pc.dead));
      case Unidle(_) => UnidleKeeps(s, c);
      case Finish(_) => LeaveKeeps(s, c);
    }
  }

  // ---------------------------------------------------------------- runs

  /** s is the state after the given steps from boot on n CPUs. */
  ghost predicate Reaches(n: nat, steps: seq<Step>, s: State)
    decreases |steps|
  {
    if steps == [] then s == Init(n) else
      var last := steps[|steps| - 1];
      exists before: State :: Reaches(n, steps[..|steps| - 1], before)
        && Exists(before, last.c) && Apply(before, last) == Next(s)
  }

  lemma InitInv(n: nat)
    ensures Inv(Init(n))
  {
    var s := Init(n);
    forall c | 0 <= c < n
      ensures CpuOk(s, c)
    {
      assert Held(s, c) == {} && Own(s, c) == {};
    }
  }

  lemma {:induction false} RunInv(n: nat, steps: seq<Step>, s: State)
    requires Reaches(n, steps, s)
    ensures Inv(s)
    decreases |steps|
  {
    if steps == [] {
      InitInv(n);
    } else {
      var last := steps[|steps| - 1];
      var before: State :| Reaches(n, steps[..|steps| - 1], before)
        && Exists(before, last.c) && Apply(before, last) == Next(s);
      RunInv(n, steps[..|steps| - 1], before);
      StepSafe(before, last);
    }
  }

  /** Over every run, on every CPU c: the current thread's count is one for its level
      plus one for each spinlock it took or waits for; c_spinlocks is the number of
      spinlocks the CPU holds or waits for; interrupts are on exactly when the count is
      zero, and never inside thread_switch. A thread that is switched out has two more
      raises than spinlocks, and so two exactly if it took none along. */
  lemma RunSafe(n: nat, steps: seq<Step>, s: State, c: nat)
    requires Reaches(n, steps, s) && c < |s.cpus|
    ensures Exists(s, c)
    ensures var cpu, th := s.cpus[c], CurThread(s, c);
            && th.count == (if th.high then 1 else 0) + |Own(s, cpu.cur)| + Spinning(cpu)
            && cpu.spinlocks == |Held(s, c)| + Spinning(cpu)
            && (cpu.irq <==> th.count == 0)
            && (cpu.irq ==> cpu.pc.Body? && !th.high && Own(s, cpu.cur) == {})
    ensures forall t | t in s.out ::
              t in s.threads && s.threads[t].count == 2 + |Own(s, t)| && (s.threads[t].count == 2 <==> Own(s, t) == {})
  {
    RunInv(n, steps, s);
    assert CpuOk(s, c);
  }

  /** In any reachable state no step of thread_switch fails an assertion of its own or
      lowers a count that is zero; and only the first raise turns interrupts off, only
      the last lower turns them on. */
  lemma NextStepSafe(n: nat, steps: seq<Step>, s: State, step: Step)
    requires Reaches(n, steps, s) && step.c < |s.cpus|
    ensures Exists(s, step.c) && !Apply(s, step).Broken?
    ensures match Apply(s, step)
            case Next(s') =>
              && Exists(s', step.c)
              && (s.cpus[step.c].irq && !s'.cpus[step.c].irq ==> CurThread(s, step.c).count == 0)
              && (!s.cpus[step.c].irq && s'.cpus[step.c].irq ==> CurThread(s', step.c).count == 0)
            case _ => true
  {
    RunInv(n, steps, s);
    assert CpuOk(s, step.c);
    StepSafe(s, step);
    if Apply(s, step).Next? {
      CpusStay(s, step);
      assert CpuOk(Apply(s, step).state, step.c);
    }
  }

  lemma CpusStay(s: State, step: Step)
    requires Exists(s, step.c) && Apply(s, step).Next?
    ensures |Apply(s, step).state.cpus| == |s.cpus|
  {}

  // ---------------------------------------------------------------- no lock left behind

  /** thread_yield and thread_exit called with no spinlock held, which the code does not
      check. */
  predicate Careful(s: State, step: Step)
    requires step.c < |s.cpus|
  {
    step.Switch? && !step.kind.Sleep? ==> s.cpus[step.c].spinlocks == 0
  }

  ghost predicate Leads(s: State, step: Step, s': State) {
    Exists(s, step.c) && Apply(s, step) == Next(s')
  }

  ghost predicate CarefulStep(s: State, step: Step, s': State) {
    Leads(s, step, s') && Careful(s, step)
  }

  /** s' is the state after the given steps from s, all of them careful. */
  ghost predicate CarefulFrom(s: State, steps: seq<Step>, s': State)
    decreases |steps|
  {
    if steps == [] then s' == s else
      var last := steps[|steps| - 1];
      exists before: State :: CarefulFrom(s, steps[..|steps| - 1], before) && CarefulStep(before, last, s')
  }

  ghost predicate CarefulRun(n: nat, steps: seq<Step>, s: State) {
    CarefulFrom(Init(n), steps, s)
  }

  /** The locks that CPU c may hold at a point of thread_switch. */
  ghost predicate Allowed(c: nat, pc: Pc, l: Lock) {
    match pc
    case Body => true
    case Enter(kind) => l == RunQueue(c) || kind == Sleep(l)
    case Choosing(_) => l == RunQueue(c)
    case Idle(_) => false
    case Tail => l == RunQueue(c)
  }

  /** Every lock a CPU holds was taken by its current thread and is in its place. */
  ghost predicate Tidy(s: State) {
    forall l | l in s.locks ::
      var h := s.locks[l];
      h.c < |s.cpus| && h.t == s.cpus[h.c].cur && Allowed(h.c, s.cpus[h.c].pc, l)
  }

  lemma TidyOwns(s: State, c: nat)
    requires Inv(s) && Tidy(s) && c < |s.cpus|
    ensures Own(s, s.cpus[c].cur) == Held(s, c)
  {}

  lemma TidyOut(s: State, t: Tid)
    requires Inv(s) && Tidy(s) && t in s.out
    ensures Own(s, t) == {}
  {
    forall l | l in s.locks
      ensures s.locks[l].t != t
    {
      assert CpuOk(s, s.locks[l].c);
    }
  }

  lemma TidySwitch(s: State, c: nat, kind: Kind)
    requires Inv(s) && Tidy(s) && Exists(s, c) && Careful(s, Switch(c, kind)) && Apply(s, Switch(c, kind)).Next?
    ensures Tidy(Apply(s, Switch(c, kind)).state)
  {
    assert CpuOk(s, c);
    if kind.Sleep? { Singleton(Held(s, c), kind.lk); }
    assert forall l | l in s.locks && s.locks[l].c == c :: l in Held(s, c);
  }

  /** CPU c has moved on, its thread the same, and perhaps gave up a lock. */
  lemma TidyAfter(s: State, s': State, c: nat)
    requires Tidy(s) && c < |s.cpus| == |s'.cpus| && s'.cpus[c].cur == s.cpus[c].cur
    requires forall d :: 0 <= d < |s.cpus| && d != c ==> s'.cpus[d] == s.cpus[d]
    requires forall l | l in s'.locks :: l in s.locks && s'.locks[l] == s.locks[l]
    requires forall l | l in s'.locks && s'.locks[l].c == c :: Allowed(c, s'.cpus[c].pc, l)
    ensures Tidy(s')
  {
    forall l | l in s'.locks
      ensures var h := s'.locks[l]; h.c < |s'.cpus| && h.t == s'.cpus[h.c].cur && Allowed(h.c, s'.cpus[h.c].pc, l)
    {
      assert s.locks[l].c < |s.cpus|;
    }
  }

  lemma TidyBody(s: State, step: Step)
    requires Inv(s) && Tidy(s) && Exists(s, step.c) && Apply(s, step).Next?
    requires step.SplX? || step.Acquire? || step.Release? || step.Fork?
    ensures Tidy(Apply(s, step).state)
  {
    TidyAfter(s, Apply(s, step).state, step.c);
  }

  lemma TidyWin(s: State, c: nat)
    requires Inv(s) && Tidy(s) && Exists(s, c) && Apply(s, Win(c)).Next?
    ensures Tidy(Apply(s, Win(c)).state)
  {
    assert CpuOk(s, c);
  }

  lemma TidyLeave(s: State, c: nat)
    requires Tidy(s) && Exists(s, c) && Leave(s, c).Next?
    ensures Tidy(Leave(s, c).state)
  {
    TidyAfter(s, Leave(s, c).state, c);
  }

  lemma TidyDecide(s: State, c: nat, nothing: bool)
    requires Inv(s) && Tidy(s) && Exists(s, c) && Apply(s, Decide(c, nothing)).Next?
    ensures Tidy(Apply(s, Decide(c, nothing)).state)
  {
    if s.cpus[c].pc.kind.Yield? && nothing {
      TidyLeave(s, c);
    } else {
      TidyAfter(s, Apply(s, Decide(c, nothing)).state, c);
    }
  }

  lemma TidyChoose(s: State, c: nat, t: Tid)
    requires Inv(s) && Tidy(s) && Exists(s, c) && Apply(s, Choose(c, t)).Next?
    ensures Tidy(Apply(s, Choose(c, t)).state)
  {
    assert CpuOk(s, c);
  }

  lemma TidyIdle(s: State, step: Step)
    requires Inv(s) && Tidy(s) && Exists(s, step.c) && Apply(s, step).Next? && (step.GoIdle? || step.Unidle?)
    ensures Tidy(Apply(s, step).state)
  {
    TidyAfter(s, Apply(s, step).state, step.c);
  }

  lemma TidyStep(s: State, step: Step)
    requires Inv(s) && Tidy(s) && Exists(s, step.c) && Careful(s, step) && Apply(s, step).Next?
    ensures Tidy(Apply(s, step).state)
  {
    match step
    case SplX(_, _) => TidyBody(s, step);
    case Acquire(_, _) => TidyBody(s, step);
    case Win(c) => TidyWin(s, c);
    case Release(_, _) => TidyBody(s, step);
    case Fork(_, _) => TidyBody(s, step);
    case Switch(c, kind) => TidySwitch(s, c, kind);
    case Decide(c, nothing) => TidyDecide(s, c, nothing);
    case Choose(c, t) => TidyChoose(s, c, t);
    case GoIdle(_) => TidyIdle(s, step);
    case Unidle(_) => TidyIdle(s, step);
    case Finish(c) => TidyLeave(s, c);
  }

  lemma {:induction false} CarefulIsTidy(n: nat, steps: seq<Step>, s: State)
    requires CarefulRun(n, steps, s)
    ensures Reaches(n, steps, s) && Tidy(s)
    decreases |steps|
  {
    if steps != [] {
      var last := steps[|steps| - 1];
      var before: State :| CarefulFrom(Init(n), steps[..|steps| - 1], before) && CarefulStep(before, last, s);
      CarefulIsTidy(n, steps[..|steps| - 1], before);
      RunInv(n, steps[..|steps| - 1], before);
      TidyStep(before, last);
    }
  }

  /** If threads yield and exit only without spinlocks, then over every such run the count
      is that of the CPU's spinlocks, interrupts are never on while the CPU holds one, and
      every thread that is switched out has count two. */
  lemma CarefulRunSafe(n: nat, steps: seq<Step>, s: State, c: nat)
    requires CarefulRun(n, steps, s) && c < |s.cpus|
    ensures Exists(s, c)
    ensures var cpu, th := s.cpus[c], CurThread(s, c);
            && th.count == (if th.high then 1 else 0) + |Held(s, c)| + Spinning(cpu)
            && (cpu.irq ==> cpu.pc.Body? && !th.high && Held(s, c) == {})
    ensures forall t | t in s.out :: t in s.threads && s.threads[t].count == 2
  {
    CarefulIsTidy(n, steps, s);
    RunInv(n, steps, s);
    RunSafe(n, steps, s, c);
    TidyOwns(s, c);
    forall t | t in s.out
      ensures t in s.threads && s.threads[t].count == 2
    {
      TidyOut(s, t);
    }
  }

  /** One CPU, its boot thread 0 and a forked thread 1. */
  function Two(cpu: Cpu, locks: map<Lock, Holder>, th0: Thread, th1: Thread, out: set<Tid>): State {
    State([cpu], locks, map[0 := th0, 1 := th1], out)
  }

  /** The run in which thread 0 takes a spinlock and yields to thread 1. */
  function Yielding(k: nat): State {
    var forked, left := Thread(true, 2, false), map[Other(0) := Holder(0, 0)];
    if k == 0 then Two(Cpu(0, false, 0, None, Body), map[], Thread(true, 1, false), forked, {1})
    else if k == 1 then Two(Cpu(0, false, 1, Some(Other(0)), Body), map[], Thread(true, 2, false), forked, {1})
    else if k == 2 then Two(Cpu(0, false, 1, None, Body), left, Thread(true, 2, false), forked, {1})
    else if k == 3 then Two(Cpu(0, false, 2, Some(RunQueue(0)), Enter(Yield)), left, Thread(true, 3, true), forked, {1})
    else if k == 4 then
      Two(Cpu(0, false, 2, None, Enter(Yield)), left[RunQueue(0) := Holder(0, 0)], Thread(true, 3, true), forked, {1})
    else if k == 5 then
      Two(Cpu(0, false, 2, None, Choosing(false)), left[RunQueue(0) := Holder(0, 0)],
          Thread(true, 3, true), forked, {1})
    else if k == 6 then
      Two(Cpu(1, false, 2, None, Tail), left[RunQueue(0) := Holder(0, 1)], Thread(true, 3, true), forked, {0})
    else Two(Cpu(1, true, 1, None, Body), left, Thread(true, 3, true), Thread(false, 0, false), {0})
  }

  lemma FirstSteps()
    ensures Leads(Init(1), Fork(0, 1), Yielding(0)) && Leads(Yielding(0), Acquire(0, Other(0)), Yielding(1))
    ensures Leads(Yielding(1), Win(0), Yielding(2))
  {
    assert Init(1).cpus == [Cpu(0, false, 0, None, Body)];
  }

  lemma SwitchStep()
    ensures Leads(Yielding(2), Switch(0, Yield), Yielding(3))
  {
    var s := Yielding(2);
    var s0 := s.(threads := s.threads[0 := Thread(true, 2, true)]);
    assert Set(s0, 0, true) == Next(s0);
    assert s0.threads[0 := Thread(true, 3, true)] == Yielding(3).threads;
  }

  lemma NextSteps()
    ensures Leads(Yielding(3), Win(0), Yielding(4)) && Leads(Yielding(4), Decide(0, false), Yielding(5))
    ensures Leads(Yielding(5), Choose(0, 1), Yielding(6))
  {}

  lemma FinishStep()
    ensures Leads(Yielding(6), Finish(0), Yielding(7))
  {
    var s := Yielding(6);
    assert s.locks - {RunQueue(0)} == Yielding(7).locks;
    var s1 := Drop(s, 0, RunQueue(0)).state;
    var left, th0 := Yielding(7).locks, Thread(true, 3, true);
    assert s1 == Two(Cpu(1, false, 1, None, Tail), left, th0, Thread(true, 1, false), {0});
    var s2 := Set(s1, 0, false).state;
    assert s2 == Two(Cpu(1, true, 1, None, Tail), left, th0, Thread(false, 0, false), {0});
  }

  function YieldingStep(k: nat): Step {
    match k
    case 1 => Acquire(0, Other(0))
    case 2 => Win(0)
    case 3 => Switch(0, Yield)
    case 4 => Win(0)
    case 5 => Decide(0, false)
    case 6 => Choose(0, 1)
    case _ => Finish(0)
  }

  lemma YieldingLeads(k: nat)
    requires k < 7
    ensures Leads(Yielding(k), YieldingStep(k + 1), Yielding(k + 1))
  {
    match k
    case 0 => FirstSteps();
    case 1 => FirstSteps();
    case 2 => SwitchStep();
    case 6 => FinishStep();
    case _ => NextSteps();
  }

  lemma {:induction false} YieldingReached(k: nat) returns (steps: seq<Step>)
    requires k <= 7
    ensures Reaches(1, steps, Yielding(k))
  {
    if k == 0 {
      FirstSteps();
      steps := OneMore(1, [], Init(1), Fork(0, 1), Yielding(0));
    } else {
      steps := YieldingReached(k - 1);
      YieldingLeads(k - 1);
      steps := OneMore(1, steps, Yielding(k - 1), YieldingStep(k), Yielding(k));
    }
  }

  /** The condition is needed: a thread that yields with a spinlock held leaves it on its
      CPU, where the next thread runs with interrupts on. */
  lemma LockLeftBehind() returns (steps: seq<Step>, s: State)
    ensures Reaches(1, steps, s) && |s.cpus| == 1 && s.cpus[0].irq && Held(s, 0) == {Other(0)}
  {
    steps := YieldingReached(7);
    s := Yielding(7);
  }

  lemma OneMore(n: nat, steps: seq<Step>, s: State, step: Step, s': State) returns (all: seq<Step>)
    requires Reaches(n, steps, s) && Leads(s, step, s')
    ensures Reaches(n, all, s')
  {
    all := steps + [step];
    assert all[..|all| - 1] == steps && all[|all| - 1] == step;
  }

  // ---------------------------------------------------------------- exactly when it fails

  /** Interrupts are on only while the CPU holds no spinlock. */
  ghost predicate Masked(s: State, c: nat)
    requires c < |s.cpus|
  {
    s.cpus[c].irq ==> Held(s, c) == {}
  }

  ghost predicate MaskedAfter(s: State, c: nat) {
    forall steps, s' | CarefulFrom(s, steps, s') :: c < |s'.cpus| && Masked(s', c)
  }

  lemma CarefulMore(s: State, steps: seq<Step>, s1: State, step: Step, s2: State) returns (all: seq<Step>)
    requires CarefulFrom(s, steps, s1) && CarefulStep(s1, step, s2)
    ensures all == steps + [step] && CarefulFrom(s, all, s2)
  {
    all := steps + [step];
    assert all[..|all| - 1] == steps && all[|all| - 1] == step;
  }

  lemma {:induction false} TidyFrom(s: State, steps: seq<Step>, s': State)
    requires Inv(s) && Tidy(s) && CarefulFrom(s, steps, s')
    ensures Inv(s') && Tidy(s') && |s'.cpus| == |s.cpus|
    decreases |steps|
  {
    if steps != [] {
      var last := steps[|steps| - 1];
      var before: State :| CarefulFrom(s, steps[..|steps| - 1], before) && CarefulStep(before, last, s');
      TidyFrom(s, steps[..|steps| - 1], before);
      StepSafe(before, last);
      TidyStep(before, last);
      CpusStay(before, last);
    }
  }

  lemma TidyMasks(s: State, c: nat)
    requires Inv(s) && Tidy(s) && c < |s.cpus|
    ensures Masked(s, c)
  {
    assert CpuOk(s, c);
    TidyOwns(s, c);
  }

  /** Thread t waits to run, on a CPU about to enter thread_switch, and the run queue lock
      is free. */
  ghost predicate AboutToSwitch(s: State, c: nat, t: Tid) {
    && c < |s.cpus| && s.cpus[c].pc.Body? && s.cpus[c].spin.None?
    && RunQueue(c) !in s.locks && t in s.out
  }

  lemma SwitchEnters(s: State, c: nat, kind: Kind, t: Tid) returns (s': State)
    requires Inv(s) && AboutToSwitch(s, c, t) && !kind.Sleep?
    ensures Leads(s, Switch(c, kind), s') && Inv(s') && |s'.cpus| == |s.cpus| && s'.out == s.out && s'.locks == s.locks
    ensures s'.cpus[c].cur == s.cpus[c].cur && s'.cpus[c].pc == Enter(kind) && s'.cpus[c].spin == Some(RunQueue(c))
  {
    StartSwitchKeeps(s, c, kind);
    s' := StartSwitch(s, c, kind).state;
  }

  lemma LockIsWon(s: State, c: nat, kind: Kind) returns (s': State)
    requires Inv(s) && c < |s.cpus| && s.cpus[c].pc == Enter(kind) && !kind.Sleep?
    requires s.cpus[c].spin == Some(RunQueue(c)) && RunQueue(c) !in s.locks
    ensures Leads(s, Win(c), s') && Inv(s') && |s'.cpus| == |s.cpus| && s'.out == s.out
    ensures s'.locks == s.locks[RunQueue(c) := Holder(c, s.cpus[c].cur)]
    ensures s'.cpus[c].cur == s.cpus[c].cur && s'.cpus[c].pc == Enter(kind) && s'.cpus[c].spin.None?
  {
    assert CpuOk(s, c);
    s' := Apply(s, Win(c)).state;
    WinKeeps(s, c);
  }

  lemma ThreadIsQueued(s: State, c: nat, kind: Kind) returns (s': State)
    requires Inv(s) && c < |s.cpus| && s.cpus[c].pc == Enter(kind) && !kind.Sleep? && s.cpus[c].spin.None?
    ensures Leads(s, Decide(c, false), s') && Inv(s') && |s'.cpus| == |s.cpus| && s'.out == s.out && s'.locks == s.locks
    ensures s'.cpus[c].pc.Choosing? && s'.cpus[c].spin.None?
  {
    assert CpuOk(s, c);
    DecideKeeps(s, c, false);
    s' := Apply(s, Decide(c, false)).state;
  }

  lemma OtherIsChosen(s: State, c: nat, t: Tid) returns (s': State)
    requires Inv(s) && c < |s.cpus| && s.cpus[c].pc.Choosing? && s.cpus[c].spin.None? && t in s.out
    ensures Leads(s, Choose(c, t), s') && Inv(s') && |s'.cpus| == |s.cpus|
    ensures s'.locks == s.locks[RunQueue(c) := Holder(c, t)]
    ensures s'.cpus[c].cur == t && s'.cpus[c].pc.Tail? && s'.cpus[c].spin.None?
  {
    assert CpuOk(s, c);
    s' := Apply(s, Choose(c, t)).state;
    ChooseKeeps(s, c, t);
  }

  lemma TailIsLeft(s: State, c: nat) returns (s': State)
    requires Inv(s) && c < |s.cpus| && s.cpus[c].pc.Tail?
    ensures Leads(s, Finish(c), s') && Inv(s') && |s'.cpus| == |s.cpus| && s'.locks == s.locks - {RunQueue(c)}
    ensures s'.cpus[c].cur == s.cpus[c].cur && s'.cpus[c].pc.Body? && s'.cpus[c].spin.None?
  {
    assert CpuOk(s, c);
    LeaveKeeps(s, c);
    s' := Leave(s, c).state;
  }

  lemma LevelIsLowered(s: State, c: nat) returns (s': State)
    requires Inv(s) && c < |s.cpus| && s.cpus[c].pc.Body? && s.cpus[c].spin.None? && Own(s, s.cpus[c].cur) == {}
    ensures Leads(s, SplX(c, false), s') && |s'.cpus| == |s.cpus| && s'.locks == s.locks && s'.cpus[c].irq
  {
    assert CpuOk(s, c);
    SetCharges(s, c, false);
    s' := Set(s, c, false).state;
    SameLocks(s, s');
  }

  lemma OtherComes(s: State, c: nat, kind: Kind, t: Tid) returns (steps: seq<Step>, s': State)
    requires Inv(s) && c < |s.cpus| && s.cpus[c].pc == Enter(kind) && !kind.Sleep?
    requires s.cpus[c].spin == Some(RunQueue(c)) && RunQueue(c) !in s.locks && t in s.out
    ensures CarefulFrom(s, steps, s') && Inv(s') && |s'.cpus| == |s.cpus|
    ensures s'.locks == s.locks[RunQueue(c) := Holder(c, t)] && s'.cpus[c].cur == t && s'.cpus[c].pc.Tail?
  {
    var s1 := LockIsWon(s, c, kind);
    steps := CarefulMore(s, [], s, Win(c), s1);
    var s2 := ThreadIsQueued(s1, c, kind);
    steps := CarefulMore(s, steps, s1, Decide(c, false), s2);
    s' := OtherIsChosen(s2, c, t);
    steps := CarefulMore(s, steps, s2, Choose(c, t), s');
  }

  lemma OtherUnmasks(s0: State, before: seq<Step>, s: State, c: nat) returns (steps: seq<Step>, s': State)
    requires CarefulFrom(s0, before, s) && Inv(s) && c < |s.cpus|
    requires s.cpus[c].pc.Tail? && Own(s, s.cpus[c].cur) == {RunQueue(c)}
    ensures CarefulFrom(s0, steps, s') && |s'.cpus| == |s.cpus| && s'.cpus[c].irq && s'.locks == s.locks - {RunQueue(c)}
  {
    var s1 := TailIsLeft(s, c);
    steps := CarefulMore(s0, before, s, Finish(c), s1);
    forall l | l in s1.locks
      ensures s1.locks[l].t != s.cpus[c].cur
    {
      assert l !in Own(s, s.cpus[c].cur);
    }
    assert Own(s1, s1.cpus[c].cur) == {};
    s' := LevelIsLowered(s1, c);
    steps := CarefulMore(s0, steps, s1, SplX(c, false), s');
  }

  /** From the point where thread_switch has been entered, a thread that has taken no
      spinlock comes to run there with interrupts on, and the CPU's spinlocks stay. */
  lemma NextRunsUnmasked(s: State, c: nat, kind: Kind, t: Tid) returns (steps: seq<Step>, s': State)
    requires Inv(s) && c < |s.cpus| && s.cpus[c].pc == Enter(kind) && !kind.Sleep?
    requires s.cpus[c].spin == Some(RunQueue(c)) && RunQueue(c) !in s.locks && t in s.out && Own(s, t) == {}
    ensures CarefulFrom(s, steps, s') && |s'.cpus| == |s.cpus| && s'.cpus[c].irq && Held(s', c) == Held(s, c)
  {
    var s3;
    steps, s3 := OtherComes(s, c, kind, t);
    assert Own(s3, t) == Own(s, t) + {RunQueue(c)};
    steps, s' := OtherUnmasks(s, steps, s3, c);
    assert s'.locks == s.locks;
    SameLocks(s, s');
  }

  /** In a state that a careful run has reached, a thread yields or exits while another
      one waits to run. Interrupts stay off whenever the CPU holds a spinlock, in all
      careful continuations, if and only if c_spinlocks is zero at the call. */
  lemma SwitchMaskedIff(n: nat, run: seq<Step>, s: State, c: nat, kind: Kind, t: Tid) returns (s1: State)
    requires CarefulRun(n, run, s) && AboutToSwitch(s, c, t) && !kind.Sleep?
    ensures Leads(s, Switch(c, kind), s1)
    ensures MaskedAfter(s1, c) <==> s.cpus[c].spinlocks == 0
  {
    CarefulIsTidy(n, run, s);
    RunInv(n, run, s);
    assert CpuOk(s, c);
    s1 := SwitchEnters(s, c, kind, t);
    SameLocks(s, s1);
    if s.cpus[c].spinlocks == 0 {
      TidyStep(s, Switch(c, kind));
      forall steps, s' | CarefulFrom(s1, steps, s')
        ensures c < |s'.cpus| && Masked(s', c)
      {
        TidyFrom(s1, steps, s');
        TidyMasks(s', c);
      }
    } else {
      TidyOut(s, t);
      var steps, s' := NextRunsUnmasked(s1, c, kind, t);
      assert CarefulFrom(s1, steps, s') && !Masked(s', c);
    }
  }
}

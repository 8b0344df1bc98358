// The interrupt level of a thread across thread_switch: whatever other threads and CPUs do
// in the meantime, a thread comes out of thread_switch at the level at which it went in.
module SplLevels {
  import opened Basics
  import opened Spl

  /** The states of a run and the steps between them. */
  ghost predicate Trace(states: seq<State>, steps: seq<Step>) {
    && |states| == |steps| + 1
    && forall i :: 0 <= i < |steps| ==> Leads(states[i], steps[i], states[i + 1])
  }

  /** Thread t is running, outside thread_switch. */
  ghost predicate InBody(s: State, t: Tid) {
    exists c :: 0 <= c < |s.cpus| && s.cpus[c].cur == t && s.cpus[c].pc.Body?
  }

  /** Thread t is inside thread_switch, or has not started, and is to go on at level h. */
  ghost predicate Inside(s: State, t: Tid, h: bool) {
    t in s.threads && s.threads[t].saved == h && !InBody(s, t)
  }

  /** What becomes of that: t stays inside, or comes out at level h. */
  ghost predicate InsideOrOut(s: State, t: Tid, h: bool) {
    t in s.threads && s.threads[t].saved == h && (InBody(s, t) ==> s.threads[t].high == h)
  }

  /** What a step of a CPU leaves alone: a thread that is not current there, and the other
      CPUs. Another thread comes to that CPU only in the midst of thread_switch. */
  ghost predicate Elsewhere(s: State, c: nat, s': State, t: Tid) {
    && c < |s.cpus| == |s'.cpus| && (t in s.threads ==> t in s'.threads && s'.threads[t] == s.threads[t])
    && (forall d :: 0 <= d < |s.cpus| && d != c ==> s'.cpus[d] == s.cpus[d])
    && (s'.cpus[c].cur != s.cpus[c].cur ==> s'.cpus[c].pc.Tail?)
  }

  lemma BodyElsewhere(s: State, step: Step, s': State, t: Tid)
    requires Leads(s, step, s') && s.cpus[step.c].cur != t
    requires step.SplX? || step.Acquire? || step.Win? || step.Release? || step.Fork?
    ensures Elsewhere(s, step.c, s', t)
  {}

  lemma SwitchElsewhere(s: State, step: Step, s': State, t: Tid)
    requires Leads(s, step, s') && s.cpus[step.c].cur != t && step.Switch?
    ensures Elsewhere(s, step.c, s', t)
  {}

  lemma LeaveElsewhere(s: State, c: nat, s': State, t: Tid)
    requires Exists(s, c) && Leave(s, c) == Next(s') && s.cpus[c].cur != t
    ensures Elsewhere(s, c, s', t)
  {}

  lemma DecideElsewhere(s: State, c: nat, nothing: bool, s': State, t: Tid)
    requires Leads(s, Decide(c, nothing), s') && s.cpus[c].cur != t
    ensures Elsewhere(s, c, s', t)
  {
    if s.cpus[c].pc.kind.Yield? && nothing { LeaveElsewhere(s, c, s', t); }
  }

  lemma ChooseElsewhere(s: State, step: Step, s': State, t: Tid)
    requires Leads(s, step, s') && s.cpus[step.c].cur != t && (step.Choose? || step.GoIdle? || step.Unidle?)
    ensures Elsewhere(s, step.c, s', t)
  {}

  lemma StepElsewhere(s: State, step: Step, s': State, t: Tid)
    requires Leads(s, step, s') && s.cpus[step.c].cur != t
    ensures Elsewhere(s, step.c, s', t)
  {
    match step
    case Switch(_, _) => SwitchElsewhere(s, step, s', t);
    case Decide(c, nothing) => DecideElsewhere(s, c, nothing, s', t);
    case Finish(c) => LeaveElsewhere(s, c, s', t);
    case Choose(_, _) => ChooseElsewhere(s, step, s', t);
    case GoIdle(_) => ChooseElsewhere(s, step, s', t);
    case Unidle(_) => ChooseElsewhere(s, step, s', t);
    case _ => BodyElsewhere(s, step, s', t);
  }

  /** A step of a CPU on which t is not current. */
  lemma OthersKeepLevel(s: State, step: Step, s': State, t: Tid, h: bool)
    requires Inv(s) && Leads(s, step, s') && Inside(s, t, h) && s.cpus[step.c].cur != t
    ensures Inside(s', t, h)
  {
    StepElsewhere(s, step, s', t);
    forall d | 0 <= d < |s'.cpus|
      ensures !(s'.cpus[d].cur == t && s'.cpus[d].pc.Body?)
    {
      assert d != step.c ==> s'.cpus[d] == s.cpus[d];
    }
  }

  /** A step of t's own CPU, t being inside thread_switch. */
  lemma OwnKeepsLevel(s: State, step: Step, s': State, t: Tid, h: bool)
    requires Inv(s) && Leads(s, step, s') && Inside(s, t, h) && s.cpus[step.c].cur == t
    ensures InsideOrOut(s', t, h)
  {
    var c := step.c;
    assert CpuOk(s, c) && !s.cpus[c].pc.Body?;
    if step.Finish? || (step.Decide? && s.cpus[c].pc.kind.Yield? && step.nothing) {
      LeaveKeeps(s, c);
    } else {
      StaysInside(s, step, s', t);
    }
  }

  lemma StaysInside(s: State, step: Step, s': State, t: Tid)
    requires Inv(s) && Leads(s, step, s') && s.cpus[step.c].cur == t && !InBody(s, t) && !step.Finish?
    requires step.Decide? && s.cpus[step.c].pc.Enter? && s.cpus[step.c].pc.kind.Yield? ==> !step.nothing
    ensures t in s.threads && t in s'.threads && s'.threads[t].saved == s.threads[t].saved && !InBody(s', t)
  {
    var c := step.c;
    assert CpuOk(s, c) && !s.cpus[c].pc.Body?;
    assert |s'.cpus| == |s.cpus| && !s'.cpus[c].pc.Body?;
    forall d | 0 <= d < |s'.cpus| && d != c
      ensures s'.cpus[d].cur != t
    {
      assert s'.cpus[d] == s.cpus[d] && CpuOk(s, d);
    }
  }

  lemma {:induction false} LevelIsKept(states: seq<State>, steps: seq<Step>, t: Tid, h: bool)
    requires Trace(states, steps) && Inv(states[0]) && Inside(states[0], t, h)
    requires forall i :: 0 <= i < |steps| ==> !InBody(states[i], t)
    ensures Inv(states[|steps|]) && InsideOrOut(states[|steps|], t, h)
    decreases |steps|
  {
    if steps != [] {
      var n := |steps| - 1;
      LevelIsKept(states[..n + 1], steps[..n], t, h);
      var s, step, s' := states[n], steps[n], states[n + 1];
      assert !InBody(s, t);
      StepSafe(s, step);
      if s.cpus[step.c].cur == t { OwnKeepsLevel(s, step, s', t, h); } else { OthersKeepLevel(s, step, s', t, h); }
    }
  }

  lemma SwitchSaves(s: State, c: nat, kind: Kind, s': State)
    requires Inv(s) && Leads(s, Switch(c, kind), s')
    ensures Inv(s') && Inside(s', s.cpus[c].cur, s.threads[s.cpus[c].cur].high)
  {
    assert CpuOk(s, c);
    StepSafe(s, Switch(c, kind));
    var t := s.cpus[c].cur;
    forall d | 0 <= d < |s'.cpus|
      ensures !(s'.cpus[d].cur == t && s'.cpus[d].pc.Body?)
    {
      assert d != c ==> s'.cpus[d] == s.cpus[d];
    }
  }

  lemma ForkIsInside(s: State, c: nat, t: Tid, s': State)
    requires Inv(s) && Leads(s, Fork(c, t), s')
    ensures Inside(s', t, false)
  {
    forall d | 0 <= d < |s'.cpus|
      ensures s'.cpus[d].cur != t
    {
      assert CpuOk(s, d);
    }
  }

  /** t is not outside thread_switch until the end of the run. */
  ghost predicate OutAtEnd(states: seq<State>, steps: seq<Step>, t: Tid) {
    && Trace(states, steps)
    && (forall i :: 0 <= i < |steps| ==> !InBody(states[i], t)) && InBody(states[|steps|], t)
  }

  /** Over every run: a thread that enters thread_switch runs on, the next time it is outside
      again, at the level at which it went in; on whatever CPU, after whatever steps of others,
      and also if it found nothing else to run and came back at once. */
  lemma LevelRestored(n: nat, run: seq<Step>, s: State, c: nat, kind: Kind, states: seq<State>, steps: seq<Step>)
    requires Reaches(n, run, s) && Exists(s, c) && states != [] && Leads(s, Switch(c, kind), states[0])
    requires OutAtEnd(states, steps, s.cpus[c].cur)
    ensures var t := s.cpus[c].cur;
            t in states[|steps|].threads && states[|steps|].threads[t].high == s.threads[t].high
  {
    var t := s.cpus[c].cur;
    RunInv(n, run, s);
    SwitchSaves(s, c, kind, states[0]);
    LevelIsKept(states, steps, t, s.threads[t].high);
  }

  /** Over every run: a new thread first runs at low level. */
  lemma NewThreadStartsLow(n: nat, run: seq<Step>, s: State, c: nat, t: Tid, states: seq<State>, steps: seq<Step>)
    requires Reaches(n, run, s) && states != [] && Leads(s, Fork(c, t), states[0]) && OutAtEnd(states, steps, t)
    ensures t in states[|steps|].threads && !states[|steps|].threads[t].high
  {
    RunInv(n, run, s);
    StepSafe(s, Fork(c, t));
    ForkIsInside(s, c, t, states[0]);
    LevelIsKept(states, steps, t, false);
  }

  // ---------------------------------------------------------------- coming back at once

  lemma YieldEnters(s: State, c: nat) returns (s': State)
    requires Inv(s) && c < |s.cpus| && s.cpus[c].pc.Body? && s.cpus[c].spin.None? && RunQueue(c) !in s.locks
    ensures Leads(s, Switch(c, Yield), s') && Inv(s') && Local(s, s', c) && s'.locks == s.locks
    ensures s'.cpus[c].pc == Enter(Yield) && s'.cpus[c].spin == Some(RunQueue(c))
    ensures s'.threads[s.cpus[c].cur].saved == s.threads[s.cpus[c].cur].high
  {
    assert CpuOk(s, c);
    StartSwitchKeeps(s, c, Yield);
    s' := Apply(s, Switch(c, Yield)).state;
  }

  lemma QueueLockIsWon(s: State, c: nat) returns (s': State)
    requires Inv(s) && c < |s.cpus| && s.cpus[c].pc == Enter(Yield)
    requires s.cpus[c].spin == Some(RunQueue(c)) && RunQueue(c) !in s.locks
    ensures Leads(s, Win(c), s') && Inv(s') && Local(s, s', c) && s'.threads == s.threads
    ensures s'.locks == s.locks[RunQueue(c) := Holder(c, s.cpus[c].cur)]
    ensures s'.cpus[c].pc == Enter(Yield) && s'.cpus[c].spin.None?
  {
    assert CpuOk(s, c);
    s' := Apply(s, Win(c)).state;
    WinKeeps(s, c);
  }

  lemma YieldReturns(s: State, c: nat) returns (s': State)
    requires Inv(s) && c < |s.cpus| && s.cpus[c].pc == Enter(Yield) && s.cpus[c].spin.None?
    ensures Leads(s, Decide(c, true), s') && Inv(s') && Local(s, s', c) && s'.locks == s.locks - {RunQueue(c)}
    ensures s'.cpus[c].pc.Body? && s'.cpus[c].spin.None?
    ensures s'.threads[s.cpus[c].cur].high == s.threads[s.cpus[c].cur].saved
  {
    assert CpuOk(s, c);
    LeaveKeeps(s, c);
    s' := Apply(s, Decide(c, true)).state;
  }

  /** At the same point, with the same locks and level, a CPU and its thread are the same. */
  lemma SameCharge(s: State, s': State, c: nat)
    requires Inv(s) && Inv(s') && Local(s, s', c) && s'.locks == s.locks
    requires s.cpus[c].spin.None? && s'.cpus[c].spin.None? && s'.cpus[c].pc == s.cpus[c].pc
    requires CurThread(s', c).high == CurThread(s, c).high
    ensures s'.cpus == s.cpus && CurThread(s', c).count == CurThread(s, c).count
  {
    assert CpuOk(s, c) && CpuOk(s', c);
    SameLocks(s, s');
    assert s'.cpus[c] == s.cpus[c];
  }

  lemma CameBack(s: State, s1: State, s2: State, s3: State, c: nat)
    requires Inv(s) && Inv(s3) && Local(s, s1, c) && Local(s1, s2, c) && Local(s2, s3, c) && RunQueue(c) !in s.locks
    requires s1.locks == s.locks && s2.locks == s1.locks[RunQueue(c) := Holder(c, s.cpus[c].cur)]
    requires s3.locks == s2.locks - {RunQueue(c)} && s2.threads == s1.threads
    requires s.cpus[c].spin.None? && s3.cpus[c].spin.None? && s3.cpus[c].pc == s.cpus[c].pc
    requires CurThread(s1, c).saved == CurThread(s, c).high && CurThread(s3, c).high == CurThread(s2, c).saved
    ensures Local(s, s3, c) && s3.cpus == s.cpus && s3.locks == s.locks
    ensures CurThread(s3, c).high == CurThread(s, c).high && CurThread(s3, c).count == CurThread(s, c).count
  {
    LocalTwice(s, s1, s2, c);
    LocalTwice(s, s2, s3, c);
    assert s3.locks == s.locks;
    SameCharge(s, s3, c);
  }

  /** thread_yield with nothing else to run: the three steps back to where it was leave the
      CPUs, the locks, every other thread, and its own level and count as they were. */
  lemma EarlyReturn(n: nat, run: seq<Step>, s: State, c: nat) returns (s1: State, s2: State, s3: State)
    requires Reaches(n, run, s) && c < |s.cpus| && s.cpus[c].pc.Body? && s.cpus[c].spin.None?
    requires RunQueue(c) !in s.locks
    ensures Leads(s, Switch(c, Yield), s1) && Leads(s1, Win(c), s2) && Leads(s2, Decide(c, true), s3)
    ensures s3.cpus == s.cpus && s3.locks == s.locks && Exists(s, c) && Exists(s3, c)
    ensures CurThread(s3, c).high == CurThread(s, c).high && CurThread(s3, c).count == CurThread(s, c).count
    ensures forall u | u in s.threads && u != s.cpus[c].cur :: u in s3.threads && s3.threads[u] == s.threads[u]
  {
    RunInv(n, run, s);
    s1 := YieldEnters(s, c);
    s2 := QueueLockIsWon(s1, c);
    s3 := YieldReturns(s2, c);
    CameBack(s, s1, s2, s3, c);
  }

  // ---------------------------------------------------------------- never coming back

  /** Thread t has exited: it is not to be chosen, and where it is still current its CPU is
      on its way to another thread. */
  ghost predicate Exiting(s: State, t: Tid) {
    && t in s.threads && t !in s.out
    && forall c :: 0 <= c < |s.cpus| && s.cpus[c].cur == t ==>
         s.cpus[c].pc == Enter(Exit) || s.cpus[c].pc == Choosing(true) || s.cpus[c].pc == Idle(true)
  }

  lemma OthersOut(s: State, step: Step, s': State, t: Tid)
    requires Leads(s, step, s') && t in s.threads && t !in s.out && s.cpus[step.c].cur != t
    ensures t !in s'.out && s'.cpus[step.c].cur != t
  {}

  lemma OwnExit(s: State, step: Step, s': State, t: Tid)
    requires Inv(s) && Leads(s, step, s') && Exiting(s, t) && s.cpus[step.c].cur == t
    ensures t in s'.threads && t !in s'.out && |s'.cpus| == |s.cpus|
    ensures var cpu := s'.cpus[step.c];
            cpu.cur == t ==> cpu.pc == Enter(Exit) || cpu.pc == Choosing(true) || cpu.pc == Idle(true)
    ensures forall d :: 0 <= d < |s.cpus| && d != step.c ==> s'.cpus[d] == s.cpus[d]
  {
    assert CpuOk(s, step.c);
  }

  lemma ExitingStep(s: State, step: Step, s': State, t: Tid)
    requires Inv(s) && Leads(s, step, s') && Exiting(s, t)
    ensures Exiting(s', t)
  {
    if s.cpus[step.c].cur == t {
      OwnExit(s, step, s', t);
    } else {
      StepElsewhere(s, step, s', t);
      OthersOut(s, step, s', t);
    }
  }

  lemma {:induction false} ExitingStays(states: seq<State>, steps: seq<Step>, t: Tid)
    requires Trace(states, steps) && Inv(states[0]) && Exiting(states[0], t)
    ensures Inv(states[|steps|]) && Exiting(states[|steps|], t)
    decreases |steps|
  {
    if steps != [] {
      var n := |steps| - 1;
      ExitingStays(states[..n + 1], steps[..n], t);
      assert Leads(states[n], steps[n], states[n + 1]);
      StepSafe(states[n], steps[n]);
      ExitingStep(states[n], steps[n], states[n + 1], t);
    }
  }

  /** Over every run: a thread that has entered thread_switch to exit never runs again. */
  lemma ExitIsFinal(n: nat, run: seq<Step>, s: State, c: nat, states: seq<State>, steps: seq<Step>)
    requires Reaches(n, run, s) && Exists(s, c) && states != [] && Leads(s, Switch(c, Exit), states[0])
    requires Trace(states, steps)
    ensures !InBody(states[|steps|], s.cpus[c].cur)
  {
    var t := s.cpus[c].cur;
    RunInv(n, run, s);
    assert CpuOk(s, c);
    StepSafe(s, Switch(c, Exit));
    assert forall d :: 0 <= d < |s.cpus| && d != c ==> states[0].cpus[d] == s.cpus[d];
    ExitingStays(states, steps, t);
  }

  // ---------------------------------------------------------------- nobody is lost

  /** Thread t waits to be chosen, or is current and not on its way out for good. */
  ghost predicate Present(s: State, t: Tid) {
    t in s.out || exists c :: 0 <= c < |s.cpus| && s.cpus[c].cur == t && Alive(s.cpus[c].pc)
  }

  ghost predicate Alive(pc: Pc) {
    pc != Enter(Exit) && pc != Choosing(true) && pc != Idle(true)
  }

  ghost predicate Exits(s: State, step: Step, t: Tid) {
    step.c < |s.cpus| && step.Switch? && step.kind.Exit? && s.cpus[step.c].cur == t
  }

  lemma WaitingStep(s: State, step: Step, s': State, t: Tid)
    requires Leads(s, step, s') && t in s.out && s.cpus[step.c].cur != t
    ensures t in s'.out || (step.c < |s'.cpus| && s'.cpus[step.c].cur == t && s'.cpus[step.c].pc.Tail?)
  {}

  lemma CurrentStep(s: State, step: Step, s': State, t: Tid)
    requires Inv(s) && Leads(s, step, s') && s.cpus[step.c].cur == t && Alive(s.cpus[step.c].pc) && !Exits(s, step, t)
    ensures t in s'.out || (step.c < |s'.cpus| && s'.cpus[step.c].cur == t && Alive(s'.cpus[step.c].pc))
  {
    assert CpuOk(s, step.c);
  }

  lemma PresentStep(s: State, step: Step, s': State, t: Tid)
    requires Inv(s) && Leads(s, step, s') && Present(s, t) && !Exits(s, step, t)
    ensures Present(s', t)
  {
    if t in s.out {
      assert CpuOk(s, step.c);
      WaitingStep(s, step, s', t);
    } else {
      var c :| 0 <= c < |s.cpus| && s.cpus[c].cur == t && Alive(s.cpus[c].pc);
      if c == step.c {
        CurrentStep(s, step, s', t);
      } else {
        assert CpuOk(s, c) && s.cpus[step.c].cur != t;
        StepElsewhere(s, step, s', t);
        assert s'.cpus[c] == s.cpus[c];
      }
    }
  }

  /** Over every run: a thread that is there stays there, running or waiting to be chosen,
      until it exits. */
  lemma {:induction false} NobodyIsLost(states: seq<State>, steps: seq<Step>, t: Tid)
    requires Trace(states, steps) && Inv(states[0]) && Present(states[0], t)
    requires forall i :: 0 <= i < |steps| ==> !Exits(states[i], steps[i], t)
    ensures Inv(states[|steps|]) && Present(states[|steps|], t)
    decreases |steps|
  {
    if steps != [] {
      var n := |steps| - 1;
      NobodyIsLost(states[..n + 1], steps[..n], t);
      assert Leads(states[n], steps[n], states[n + 1]) && !Exits(states[n], steps[n], t);
      StepSafe(states[n], steps[n]);
      PresentStep(states[n], steps[n], states[n + 1], t);
    }
  }

  /** A new thread is there. */
  lemma NewIsPresent(s: State, c: nat, t: Tid, s': State)
    requires Leads(s, Fork(c, t), s')
    ensures Present(s', t)
  {}

  lemma ChosenComes(s: State, c: nat, t: Tid) returns (s': State)
    requires Inv(s) && c < |s.cpus| && s.cpus[c].pc.Choosing? && s.cpus[c].spin.None?
    requires t in s.out || (t == s.cpus[c].cur && Alive(s.cpus[c].pc))
    ensures Leads(s, Choose(c, t), s') && Inv(s') && |s'.cpus| == |s.cpus| && s'.threads == s.threads
    ensures s'.cpus[c].cur == t && s'.cpus[c].pc.Tail? && t in s.threads
  {
    assert CpuOk(s, c);
    s' := Apply(s, Choose(c, t)).state;
    ChooseKeeps(s, c, t);
  }

  /** Where thread_switch chooses, it may go on to any thread that waits, or to the one it
      came from unless that has exited; two steps later that thread runs at its level. */
  lemma AnyoneMayRun(s: State, c: nat, t: Tid) returns (s1: State, s2: State)
    requires Inv(s) && c < |s.cpus| && s.cpus[c].pc.Choosing? && s.cpus[c].spin.None?
    requires t in s.out || (t == s.cpus[c].cur && Alive(s.cpus[c].pc))
    ensures Leads(s, Choose(c, t), s1) && Leads(s1, Finish(c), s2)
    ensures c < |s2.cpus| && s2.cpus[c].cur == t && s2.cpus[c].pc.Body?
    ensures t in s.threads && t in s2.threads && s2.threads[t].high == s.threads[t].saved
  {
    s1 := ChosenComes(s, c, t);
    assert CpuOk(s1, c);
    LeaveKeeps(s1, c);
    s2 := Apply(s1, Finish(c)).state;
  }
}

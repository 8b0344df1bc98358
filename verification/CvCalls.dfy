// What the calls of the lock and condition variable interface come to, step by step, in any
// state that the machine of LockCv can be in.
module CvCalls {
  import opened Basics
  import Semaphores
  import opened LockCv

  type Tid = Semaphores.Tid

  ghost predicate Reachable(s: State) {
    exists n: nat, m: nat, run :: Reaches(n, m, run, s)
  }

  ghost predicate Leads(s: State, step: Step, s': State) {
    CvsExist(s) && step.t < |s.pcs| && Apply(s, step) == Next(s')
  }

  lemma ReachableInv(s: State)
    requires Reachable(s)
    ensures Inv(s)
  {
    var n: nat, m: nat, run :| Reaches(n, m, run, s);
    RunSafe(n, m, run, s);
  }

  lemma ReachableNext(s: State, step: Step, s': State)
    requires Reachable(s) && Leads(s, step, s')
    ensures Reachable(s')
  {
    var n: nat, m: nat, run :| Reaches(n, m, run, s);
    var all := run + [step];
    assert all[..|all| - 1] == run && all[|all| - 1] == step;
    assert Reaches(n, m, all, s');
  }

  /** Thread t owns the lock, is between calls, and nobody is inside lk_spinlock. */
  ghost predicate Owns(s: State, t: Tid) {
    t < |s.pcs| && s.pcs[t].Idle? && s.owner == Some(t) && s.lkspin.None?
  }

  // ---------------------------------------------------------------- waking

  /** Exactly the threads who have been woken from condition variable k; nothing else is
      changed but the channel, which has lost them. */
  ghost predicate Woken(s: State, s': State, k: nat, who: seq<Tid>) {
    && |s'.pcs| == |s.pcs| && k < |s.cvs| == |s'.cvs| && s'.owner == s.owner && s'.lkspin == s.lkspin && s'.sem == s.sem
    && s.cvs[k].chan == who + s'.cvs[k].chan && s'.cvs[k].spin == s.cvs[k].spin
    && (forall j :: 0 <= j < |s.cvs| && j != k ==> s'.cvs[j] == s.cvs[j])
    && forall u :: 0 <= u < |s.pcs| ==> s'.pcs[u] == if u in who then WaitWoken(k) else s.pcs[u]
  }

  lemma ChannelWaits(s: State, k: nat)
    requires Inv(s) && k < |s.cvs|
    ensures forall u | u in s.cvs[k].chan :: u < |s.pcs| && s.pcs[u] == WaitChan(k)
  {
    assert CvOk(s, k);
  }

  lemma WakeIsWoken(s: State, t: Tid, k: nat, all: bool)
    requires t < |s.pcs| && s.pcs[t].Idle? && k < |s.cvs|
    requires forall u | u in s.cvs[k].chan :: u < |s.pcs| && s.pcs[u] == WaitChan(k)
    ensures Woken(s, Wake(At(s, t, Waking(k, all)), t, k, all), k, Taken(s.cvs[k].chan, all))
  {
    var who := Taken(s.cvs[k].chan, all);
    assert s.cvs[k].chan == who + s.cvs[k].chan[|who|..];
    assert forall u | u in who :: u in s.cvs[k].chan;
  }

  lemma WakerRuns(s: State, s1: State, t: Tid, k: nat, all: bool) returns (s2: State)
    requires Inv(s) && Owns(s, t) && k < |s.cvs| && s.cvs[k].spin.None? && s1 == At(s, t, Waking(k, all))
    ensures Leads(s1, Run(t), s2) && Woken(s, s2, k, Taken(s.cvs[k].chan, all))
  {
    ChannelWaits(s, k);
    assert CvsExist(s1);
    WakeIsWoken(s, t, k, all);
    s2 := Wake(s1, t, k, all);
  }

  /** cv_broadcast wakes every thread asleep on its condition variable, and no other. */
  lemma BroadcastWakesAll(s: State, t: Tid, k: nat) returns (s1: State, s2: State)
    requires Reachable(s) && Owns(s, t) && k < |s.cvs| && s.cvs[k].spin.None?
    ensures Leads(s, Call(t, Broadcast(k)), s1) && Leads(s1, Run(t), s2)
    ensures Woken(s, s2, k, s.cvs[k].chan) && s2.cvs[k].chan == []
  {
    ReachableInv(s);
    s1 := Apply(s, Call(t, Broadcast(k))).state;
    s2 := WakerRuns(s, s1, t, k, true);
  }

  /** cv_signal wakes the thread that has been asleep there longest, and no other. */
  lemma SignalWakesHead(s: State, t: Tid, k: nat) returns (s1: State, s2: State)
    requires Reachable(s) && Owns(s, t) && k < |s.cvs| && s.cvs[k].spin.None?
    ensures Leads(s, Call(t, Signal(k)), s1) && Leads(s1, Run(t), s2)
    ensures var chan := s.cvs[k].chan; Woken(s, s2, k, if chan == [] then [] else [chan[0]])
  {
    ReachableInv(s);
    s1 := Apply(s, Call(t, Signal(k))).state;
    s2 := WakerRuns(s, s1, t, k, false);
    var chan := s.cvs[k].chan;
    assert chan != [] ==> chan[..1] == [chan[0]];
  }

  // ---------------------------------------------------------------- single steps

  lemma CallStarts(s: State, t: Tid, op: Op, pc: Pc) returns (s': State)
    requires Reachable(s) && Owns(s, t) && (op.Release? || (op.Wait? && op.k < |s.cvs|))
    requires pc == if op.Release? then RelOwner(None) else WaitSpin(op.k)
    ensures Leads(s, Call(t, op), s') && Reachable(s') && s' == At(s, t, pc)
  {
    ReachableInv(s);
    s' := Apply(s, Call(t, op)).state;
    ReachableNext(s, Call(t, op), s');
  }

  lemma SpinIsTaken(s: State, t: Tid, k: nat) returns (s': State)
    requires Reachable(s) && t < |s.pcs| && k < |s.cvs| && s.pcs[t] == WaitSpin(k) && s.cvs[k].spin.None?
    ensures Leads(s, Run(t), s') && Reachable(s')
    ensures s' == At(s, t, RelOwner(Some(k))).(cvs := s.cvs[k := Cv(Some(t), s.cvs[k].chan)])
  {
    ReachableInv(s);
    s' := Apply(s, Run(t)).state;
    ReachableNext(s, Run(t), s');
  }

  lemma OwnerIsCleared(s: State, t: Tid, cv: Option<nat>) returns (s': State)
    requires Reachable(s) && t < |s.pcs| && s.pcs[t] == RelOwner(cv) && s.lkspin.None?
    ensures Leads(s, Run(t), s') && Reachable(s')
    ensures s' == At(s, t, RelV(cv)).(owner := None, lkspin := Some(t))
  {
    ReachableInv(s);
    s' := Apply(s, Run(t)).state;
    ReachableNext(s, Run(t), s');
  }

  /** The V inside lock_release: the lock's unit is there again, and the thread that has
      been waiting for it longest is awake. */
  lemma UnitIsPosted(s: State, t: Tid, cv: Option<nat>) returns (s': State)
    requires Reachable(s) && t < |s.pcs| && s.pcs[t] == RelV(cv)
    ensures Leads(s, Run(t), s') && Reachable(s') && Posted(s, s', t) && s'.sem.count == 1
    ensures var w := s.sem.wchan;
            w != [] ==> w[0] < |s.pcs| && s'.pcs[w[0]].AcqRetry? && s'.sem.wchan == w[1..]
  {
    ReachableInv(s);
    assert InSection(s, t);
    PostIsPosted(s, t);
    s' := Apply(s, Run(t)).state;
    ReachableNext(s, Run(t), s');
    assert s.sem.wchan != [] ==> s.sem.wchan[0] in s.sem.wchan && s.pcs[s.sem.wchan[0]].AcqSleep?;
  }

  lemma LkSpinIsLeft(s: State, t: Tid, cv: Option<nat>) returns (s': State)
    requires Reachable(s) && t < |s.pcs| && s.pcs[t] == RelDone(cv)
    ensures Leads(s, Run(t), s') && Reachable(s')
    ensures s' == At(s, t, match cv case None => Idle case Some(k) => WaitSleep(k)).(lkspin := None)
  {
    ReachableInv(s);
    s' := Apply(s, Run(t)).state;
    ReachableNext(s, Run(t), s');
  }

  lemma FallsAsleep(s: State, t: Tid, k: nat) returns (s': State)
    requires Reachable(s) && t < |s.pcs| && k < |s.cvs| && s.pcs[t] == WaitSleep(k)
    ensures Leads(s, Run(t), s') && Reachable(s')
    ensures s' == At(s, t, WaitChan(k)).(cvs := s.cvs[k := Cv(None, s.cvs[k].chan + [t])])
  {
    ReachableInv(s);
    WaitSleepKeeps(s, t);
    s' := Apply(s, Run(t)).state;
    ReachableNext(s, Run(t), s');
  }

  lemma UnitIsTaken(s: State, t: Tid, cv: Option<nat>) returns (s': State)
    requires Reachable(s) && t < |s.pcs| && s.pcs[t] in {AcqTry(cv), AcqRetry(cv)} && s.sem.count == 1
    ensures Leads(s, Run(t), s') && Reachable(s') && s'.sem.count == 0
    ensures s'.pcs == s.pcs[t := AcqGot(cv)] && s'.owner == s.owner && s'.lkspin == s.lkspin && s'.cvs == s.cvs
  {
    ReachableInv(s);
    TestAdvances(s, t);
    s' := Apply(s, Run(t)).state;
    ReachableNext(s, Run(t), s');
  }

  lemma OwnerIsSet(s: State, t: Tid, cv: Option<nat>) returns (s': State)
    requires Reachable(s) && t < |s.pcs| && s.pcs[t] == AcqGot(cv) && s.lkspin.None?
    ensures Leads(s, Run(t), s') && Reachable(s') && s' == At(s, t, Idle).(owner := Some(t))
  {
    ReachableInv(s);
    GotKeeps(s, t);
    s' := Apply(s, Run(t)).state;
    ReachableNext(s, Run(t), s');
  }

  // ---------------------------------------------------------------- whole calls

  /** lock_release after its first test, called directly or by cv_wait. */
  lemma LockIsLeft(s: State, t: Tid, cv: Option<nat>) returns (s1: State, s2: State, s3: State)
    requires Reachable(s) && t < |s.pcs| && s.pcs[t] == RelOwner(cv) && s.lkspin.None?
    ensures Leads(s, Run(t), s1) && Leads(s1, Run(t), s2) && Leads(s2, Run(t), s3) && Reachable(s3)
    ensures |s3.pcs| == |s.pcs| && s3.pcs[t] == match cv case None => Idle case Some(k) => WaitSleep(k)
    ensures s3.owner.None? && s3.lkspin.None? && s3.sem.count == 1 && s3.cvs == s.cvs
    ensures s.sem.wchan != [] ==> s.sem.wchan[0] < |s3.pcs| && s3.pcs[s.sem.wchan[0]].AcqRetry?
  {
    s1 := OwnerIsCleared(s, t, cv);
    s2 := UnitIsPosted(s1, t, cv);
    s3 := LkSpinIsLeft(s2, t, cv);
  }

  /** cv_wait, while no other thread moves: the thread gives up the lock and goes to sleep on
      the channel of its own condition variable, behind those already there. */
  lemma WaitSleeps(s: State, t: Tid, k: nat)
    returns (s0: State, s1: State, s2: State, s3: State, s4: State, s5: State)
    requires Reachable(s) && Owns(s, t) && k < |s.cvs| && s.cvs[k].spin.None?
    ensures Leads(s, Call(t, Wait(k)), s0) && Leads(s0, Run(t), s1) && Leads(s1, Run(t), s2)
    ensures Leads(s2, Run(t), s3) && Leads(s3, Run(t), s4) && Leads(s4, Run(t), s5) && Reachable(s5)
    ensures |s5.pcs| == |s.pcs| && s5.pcs[t] == WaitChan(k) && s5.owner.None? && s5.lkspin.None?
    ensures s5.cvs == s.cvs[k := Cv(None, s.cvs[k].chan + [t])] && s5.sem.count == 1
  {
    s0 := CallStarts(s, t, Wait(k), WaitSpin(k));
    s1 := SpinIsTaken(s0, t, k);
    s2, s3, s4 := LockIsLeft(s1, t, Some(k));
    s5 := FallsAsleep(s4, t, k);
    assert s5.cvs == s.cvs[k := Cv(None, s.cvs[k].chan + [t])];
  }

  /** lock_release, while no other thread moves: nobody owns the lock, and the thread that
      waits for it longest is awake. */
  lemma ReleaseFrees(s: State, t: Tid) returns (s0: State, s1: State, s2: State, s3: State)
    requires Reachable(s) && Owns(s, t)
    ensures Leads(s, Call(t, Release), s0) && Leads(s0, Run(t), s1) && Leads(s1, Run(t), s2) && Leads(s2, Run(t), s3)
    ensures Reachable(s3) && |s3.pcs| == |s.pcs| && s3.pcs[t].Idle?
    ensures s3.owner.None? && s3.lkspin.None? && s3.sem.count == 1 && s3.cvs == s.cvs
    ensures s.sem.wchan != [] ==> s.sem.wchan[0] < |s3.pcs| && s3.pcs[s.sem.wchan[0]].AcqRetry?
  {
    s0 := CallStarts(s, t, Release, RelOwner(None));
    s1, s2, s3 := LockIsLeft(s0, t, None);
  }

  /** A thread that tries for the lock, or has been woken to try again, while it is free and
      no other thread moves, owns it two steps later. */
  lemma FreeLockIsTaken(s: State, t: Tid, cv: Option<nat>) returns (s1: State, s2: State)
    requires Reachable(s) && t < |s.pcs| && s.pcs[t] in {AcqTry(cv), AcqRetry(cv)} && s.sem.count == 1 && s.lkspin.None?
    ensures Leads(s, Run(t), s1) && Leads(s1, Run(t), s2) && Reachable(s2)
    ensures |s2.pcs| == |s.pcs| && Owns(s2, t) && s2.sem.count == 0 && s2.cvs == s.cvs
  {
    s1 := UnitIsTaken(s, t, cv);
    s2 := OwnerIsSet(s1, t, cv);
  }

  /** A thread that tries for the lock, or has been woken to try again, while it is taken goes
      to sleep behind those that wait for it already. */
  lemma TakenLockIsAwaited(s: State, t: Tid, cv: Option<nat>) returns (s': State)
    requires Reachable(s) && t < |s.pcs| && s.pcs[t] in {AcqTry(cv), AcqRetry(cv)} && s.sem.count == 0
    ensures Leads(s, Run(t), s') && Reachable(s') && s'.pcs == s.pcs[t := AcqSleep(cv)]
    ensures s'.sem.wchan == s.sem.wchan + [t] && s'.owner == s.owner && s'.lkspin == s.lkspin && s'.cvs == s.cvs
  {
    ReachableInv(s);
    TestAdvances(s, t);
    s' := Apply(s, Run(t)).state;
    ReachableNext(s, Run(t), s');
  }

  /** A thread that has been woken from a condition variable, while the lock is free and no
      other thread moves, comes out of cv_wait owning the lock three steps later. */
  lemma WokenComesOut(s: State, t: Tid, k: nat) returns (s1: State, s2: State, s3: State)
    requires Reachable(s) && t < |s.pcs| && s.pcs[t] == WaitWoken(k) && k < |s.cvs| && s.cvs[k].spin.None?
    requires s.sem.count == 1 && s.lkspin.None?
    ensures Leads(s, Run(t), s1) && Leads(s1, Run(t), s2) && Leads(s2, Run(t), s3) && Owns(s3, t)
  {
    ReachableInv(s);
    WaitWokenKeeps(s, t);
    s1 := Apply(s, Run(t)).state;
    ReachableNext(s, Run(t), s1);
    s2, s3 := FreeLockIsTaken(s1, t, Some(k));
  }

  /** lock_release hands the lock on: if threads wait for it, the one that has waited longest
      owns it after two steps of its own. */
  lemma ReleaseHandsOn(s: State, t: Tid)
    returns (s0: State, s1: State, s2: State, s3: State, s4: State, s5: State)
    requires Reachable(s) && Owns(s, t) && s.sem.wchan != []
    ensures Leads(s, Call(t, Release), s0) && Leads(s0, Run(t), s1) && Leads(s1, Run(t), s2) && Leads(s2, Run(t), s3)
    ensures var u := s.sem.wchan[0]; Leads(s3, Run(u), s4) && Leads(s4, Run(u), s5) && Owns(s5, u)
  {
    s0, s1, s2, s3 := ReleaseFrees(s, t);
    var u := s.sem.wchan[0];
    s4, s5 := FreeLockIsTaken(s3, u, s3.pcs[u].cv);
  }

  /** lock_acquire on a free lock. */
  lemma AcquireTakes(s: State, t: Tid) returns (s0: State, s1: State, s2: State)
    requires Reachable(s) && t < |s.pcs| && s.pcs[t].Idle? && s.sem.count == 1 && s.lkspin.None?
    ensures Leads(s, Call(t, Acquire), s0) && Leads(s0, Run(t), s1) && Leads(s1, Run(t), s2) && Owns(s2, t)
  {
    ReachableInv(s);
    assert s.owner == Some(t) ==> InSection(s, t);
    s0 := Apply(s, Call(t, Acquire)).state;
    ReachableNext(s, Call(t, Acquire), s0);
    s1, s2 := FreeLockIsTaken(s0, t, None);
  }

  // ---------------------------------------------------------------- cv_wait over runs

  ghost predicate Trace(states: seq<State>, steps: seq<Step>) {
    && |states| == |steps| + 1
    && forall i :: 0 <= i < |steps| ==> Leads(states[i], steps[i], states[i + 1])
  }

  /** Inside cv_wait on condition variable k, and on no channel but that one's. */
  ghost predicate WaitsOn(s: State, t: Tid, k: nat) {
    && t < |s.pcs| && InWait(s.pcs[t], k)
    && forall j :: 0 <= j < |s.cvs| && t in s.cvs[j].chan ==> j == k
  }

  lemma InWaitWaitsOn(s: State, t: Tid, k: nat)
    requires Reachable(s) && t < |s.pcs| && InWait(s.pcs[t], k)
    ensures WaitsOn(s, t, k)
  {
    ReachableInv(s);
    forall j | 0 <= j < |s.cvs| && t in s.cvs[j].chan
      ensures j == k
    {
      assert CvOk(s, j);
    }
  }

  lemma StaysInWait(s: State, step: Step, s': State, t: Tid, k: nat)
    requires Reachable(s) && Leads(s, step, s') && t < |s.pcs| && InWait(s.pcs[t], k)
    ensures |s'.pcs| == |s.pcs| && (InWait(s'.pcs[t], k) || (s'.pcs[t].Idle? && s'.owner == Some(t)))
  {
    var n: nat, m: nat, run :| Reaches(n, m, run, s);
    RunSafe(n, m, run, s);
    WaitReturnsHolding(n, m, run, s, step, t, k);
  }

  /** Over every run: from the call of cv_wait on k until the thread is out of it, the thread
      is on no channel but that of k; and it comes out owning the lock. */
  lemma {:induction false} WaitIsOnItsOwn(s: State, t: Tid, k: nat, states: seq<State>, steps: seq<Step>)
    requires Reachable(s) && Owns(s, t) && k < |s.cvs| && states != [] && Leads(s, Call(t, Wait(k)), states[0])
    requires Trace(states, steps) && forall i :: 0 <= i < |steps| ==> t < |states[i].pcs| && !states[i].pcs[t].Idle?
    ensures var s' := states[|steps|];
            Reachable(s') && (WaitsOn(s', t, k) || (t < |s'.pcs| && s'.pcs[t].Idle? && s'.owner == Some(t)))
    decreases |steps|
  {
    if steps == [] {
      var s0 := CallStarts(s, t, Wait(k), WaitSpin(k));
      InWaitWaitsOn(s0, t, k);
    } else {
      var n := |steps| - 1;
      WaitIsOnItsOwn(s, t, k, states[..n + 1], steps[..n]);
      assert Leads(states[n], steps[n], states[n + 1]);
      StaysInWait(states[n], steps[n], states[n + 1], t, k);
      ReachableNext(states[n], steps[n], states[n + 1]);
      if InWait(states[n + 1].pcs[t], k) { InWaitWaitsOn(states[n + 1], t, k); }
    }
  }
}

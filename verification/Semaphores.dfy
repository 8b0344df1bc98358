// Counting semaphores: P and V over every interleaving. Each region between taking
// and giving up sem_lock is one step; a sleeping thread gives the lock up inside
// wchan_sleep, so one P is one step per turn of its retry loop.
module Semaphores {
  import opened Basics

  type Tid = nat

  /** The semaphore, with the threads that a wakeup has removed from the channel and
      that have not yet tested the count again. */
  datatype Sem = Sem(count: nat, wchan: seq<Tid>, woken: set<Tid>)

  /** sem_count is a 32-bit unsigned integer: V's assertion fails when it wraps. */
  const LIMIT := 0x1_0000_0000

  datatype Event =
    | Enter(t: Tid)   // P's first test of the count
    | Retry(t: Tid)   // P's test after a wakeup
    | V

  /** What an event does: it may complete a P or a V, or only put a thread to sleep. */
  datatype Outcome = Done(sem: Sem) | Asleep(sem: Sem) | Overflow

  function Create(initial: nat): Sem
    requires initial < LIMIT
  {
    Sem(initial, [], {})
  }

  /** A thread that could start a P: it is not already inside one. */
  predicate Outside(s: Sem, t: Tid) {
    t !in s.wchan && t !in s.woken
  }

  predicate Enabled(s: Sem, e: Event) {
    match e
    case Enter(t) => Outside(s, t)
    case Retry(t) => t in s.woken
    case V => true
  }

  function TestCount(s: Sem, t: Tid): Outcome {
    if s.count == 0 then
      Asleep(Sem(0, s.wchan + [t], s.woken - {t}))
    else
      Done(Sem(s.count - 1, s.wchan, s.woken - {t}))
  }

  /** V: count up, then wake the thread at the head of the channel. */
  function Signal(s: Sem): Outcome {
    if s.count + 1 == LIMIT then
      Overflow
    else if s.wchan == [] then
      Done(Sem(s.count + 1, [], s.woken))
    else
      Done(Sem(s.count + 1, s.wchan[1..], s.woken + {s.wchan[0]}))
  }

  function Apply(s: Sem, e: Event): Outcome {
    match e
    case Enter(t) => TestCount(s, t)
    case Retry(t) => TestCount(s, t)
    case V => Signal(s)
  }

  /** No wakeup is lost: while a thread sleeps, the threads on their way to test the
      count again are at least as many as the units there are to take. */
  ghost predicate Inv(s: Sem) {
    && Distinct(s.wchan)
    && (forall t | t in s.woken :: t !in s.wchan)
    && (s.wchan != [] ==> s.count <= |s.woken|)
    && s.count < LIMIT
  }

  lemma TestKeepsInv(s: Sem, t: Tid)
    requires Inv(s) && t !in s.wchan
    ensures Inv(TestCount(s, t).sem)
  {
    assert t in s.woken ==> |s.woken - {t}| == |s.woken| - 1;
    assert t !in s.woken ==> s.woken - {t} == s.woken;
  }

  lemma SignalKeepsInv(s: Sem)
    requires Inv(s) && s.count + 1 < LIMIT
    ensures Inv(Signal(s).sem)
  {
    if s.wchan != [] {
      assert s.wchan[0] in s.wchan;
      assert |s.woken + {s.wchan[0]}| == |s.woken| + 1;
    }
  }

  lemma StepKeepsInv(s: Sem, e: Event)
    requires Inv(s) && Enabled(s, e) && !Apply(s, e).Overflow?
    ensures Inv(Apply(s, e).sem)
  {
    match e
    case Enter(t) => TestKeepsInv(s, t);
    case Retry(t) => TestKeepsInv(s, t);
    case V => SignalKeepsInv(s);
  }

  /** A run of the semaphore: the states and the events between them. */
  ghost predicate IsRun(states: seq<Sem>, events: seq<Event>) {
    && |states| == |events| + 1
    && forall i :: 0 <= i < |events| ==>
         && Enabled(states[i], events[i])
         && !Apply(states[i], events[i]).Overflow?
         && states[i + 1] == Apply(states[i], events[i]).sem
  }

  ghost predicate Completes(s: Sem, e: Event) {
    Apply(s, e).Done?
  }

  /** The Ps, and the Vs, that a run completes. */
  ghost function Ps(states: seq<Sem>, events: seq<Event>): nat
    requires IsRun(states, events)
  {
    if events == [] then 0 else
      var n := |events| - 1;
      Ps(states[..n + 1], events[..n]) + if Completes(states[n], events[n]) && !events[n].V? then 1 else 0
  }

  ghost function Vs(states: seq<Sem>, events: seq<Event>): nat
    requires IsRun(states, events)
  {
    if events == [] then 0 else
      var n := |events| - 1;
      Vs(states[..n + 1], events[..n]) + if events[n].V? then 1 else 0
  }

  /** Over every run from sem_create(initial): the count is the initial value plus the
      completed Vs minus the completed Ps, and no wakeup is lost. */
  lemma {:induction false} RunInvariant(initial: nat, states: seq<Sem>, events: seq<Event>)
    requires IsRun(states, events) && initial < LIMIT && states[0] == Create(initial)
    ensures states[|events|].count + Ps(states, events) == initial + Vs(states, events)
    ensures Inv(states[|events|])
    decreases |events|
  {
    if events != [] {
      var n := |events| - 1;
      RunInvariant(initial, states[..n + 1], events[..n]);
      StepKeepsInv(states[n], events[n]);
    }
  }

  /** Once every woken thread has tested the count, a thread still asleep is rightly so. */
  lemma SleepersAreRight(initial: nat, states: seq<Sem>, events: seq<Event>)
    requires IsRun(states, events) && initial < LIMIT && states[0] == Create(initial)
    requires var s := states[|events|]; s.woken == {} && s.wchan != []
    ensures states[|events|].count == 0
    ensures initial + Vs(states, events) == Ps(states, events)
  {
    RunInvariant(initial, states, events);
  }

  /** The thread that an event puts to sleep, and the one that it wakes. */
  ghost function Came(s: Sem, e: Event): seq<Tid> {
    if !e.V? && s.count == 0 then [e.t] else []
  }

  ghost function Any(ts: set<Tid>): Tid
    requires ts != {}
  {
    var u :| u in ts; u
  }

  ghost function Went(s: Sem, s': Sem): seq<Tid> {
    if s'.woken - s.woken == {} then [] else [Any(s'.woken - s.woken)]
  }

  /** Those of the first k events of a run, in order. */
  ghost function AllCame(states: seq<Sem>, events: seq<Event>, k: nat): seq<Tid>
    requires k <= |events| < |states|
  {
    if k == 0 then [] else AllCame(states, events, k - 1) + Came(states[k - 1], events[k - 1])
  }

  ghost function AllWent(states: seq<Sem>, events: seq<Event>, k: nat): seq<Tid>
    requires k <= |events| < |states|
  {
    if k == 0 then [] else AllWent(states, events, k - 1) + Went(states[k - 1], states[k])
  }

  lemma QueueStep(s: Sem, e: Event, s': Sem)
    requires Inv(s) && Enabled(s, e) && !Apply(s, e).Overflow? && s' == Apply(s, e).sem
    ensures s.wchan + Came(s, e) == Went(s, s') + s'.wchan
  {
    if e.V? && s.wchan != [] {
      assert s.wchan[0] in s.wchan && s'.woken - s.woken == {s.wchan[0]};
      assert s.wchan == [s.wchan[0]] + s.wchan[1..];
    }
  }

  lemma {:induction false} InvAt(initial: nat, states: seq<Sem>, events: seq<Event>, k: nat)
    requires IsRun(states, events) && initial < LIMIT && states[0] == Create(initial) && k <= |events|
    ensures Inv(states[k])
  {
    if k > 0 {
      InvAt(initial, states, events, k - 1);
      StepKeepsInv(states[k - 1], events[k - 1]);
    }
  }

  lemma QueueMore(came: seq<Tid>, went: seq<Tid>, q: seq<Tid>, c: seq<Tid>, w: seq<Tid>, q': seq<Tid>)
    requires came == went + q && q + c == w + q'
    ensures came + c == went + w + q'
  {
    Regroup([], came, c, went, q, w, q');
  }

  /** Over every run the wait channel is a queue: the threads woken, in order, and after them
      those still asleep are the threads that went to sleep, in order. So V always wakes the
      thread that has been asleep longest. */
  lemma {:induction false} SleepersAreQueue(initial: nat, states: seq<Sem>, events: seq<Event>, k: nat)
    requires IsRun(states, events) && initial < LIMIT && states[0] == Create(initial) && k <= |events|
    ensures AllCame(states, events, k) == AllWent(states, events, k) + states[k].wchan
  {
    if k > 0 {
      SleepersAreQueue(initial, states, events, k - 1);
      InvAt(initial, states, events, k - 1);
      QueueStep(states[k - 1], events[k - 1], states[k]);
      QueueMore(AllCame(states, events, k - 1), AllWent(states, events, k - 1), states[k - 1].wchan,
                Came(states[k - 1], events[k - 1]), Went(states[k - 1], states[k]), states[k].wchan);
    }
  }

  /** Every woken thread tests the count again, in the order given. */
  function RetryAll(s: Sem, order: seq<Tid>): Sem
    decreases |order|
  {
    if order == [] then s
    else match TestCount(s, order[0])
      case Done(n) => RetryAll(n, order[1..])
      case Asleep(n) => RetryAll(n, order[1..])
      case Overflow => s
  }

  /** Whatever order the scheduler picks, when the woken threads have had their turn
      either no thread sleeps or no unit is left; and each unit goes to some thread. */
  lemma {:induction false} WokenThreadsDrain(s: Sem, order: seq<Tid>)
    requires Inv(s) && Distinct(order) && s.woken == Members(order)
    ensures var r := RetryAll(s, order);
            && Inv(r) && r.woken == {} && (s.wchan != [] ==> r.wchan != [] && r.count == 0)
            && r.count == if s.count <= |order| then 0 else s.count - |order|
    decreases |order|
  {
    if order != [] {
      var t := order[0];
      assert t in s.woken;
      StepKeepsInv(s, Retry(t));
      var n := TestCount(s, t).sem;
      assert order == [t] + order[1..];
      assert n.woken == Members(order[1..]);
      DistinctSize(order);
      WokenThreadsDrain(n, order[1..]);
    }
  }

  // P as the program runs it: a retry loop around a sleep, with other threads running
  // in between.

  class Semaphore {
    var count: nat
    var wchan: seq<Tid>
    var woken: set<Tid>
    ghost var past: seq<Sem>       // the run so far
    ghost var events: seq<Event>
    ghost const initial: nat

    ghost function Now(): Sem
      reads this
    {
      Sem(count, wchan, woken)
    }

    ghost predicate Valid()
      reads this
    {
      && IsRun(past, events) && initial < LIMIT && past[0] == Create(initial)
      && past[|events|] == Now() && Inv(Now())
    }

    /** sem_create */
    constructor (initialCount: nat)
      requires initialCount < LIMIT
      ensures Valid() && initial == initialCount && Now() == Create(initialCount) && events == []
    {
      count, wchan, woken := initialCount, [], {};
      initial := initialCount;
      past, events := [Create(initialCount)], [];
    }

    ghost method Record(e: Event, s: Sem)
      requires IsRun(past, events) && initial < LIMIT && past[0] == Create(initial) && past[|events|] == s && Inv(s)
      requires Enabled(s, e) && !Apply(s, e).Overflow? && Apply(s, e).sem == Now()
      modifies this`past, this`events
      ensures Valid() && events == old(events) + [e]
    {
      StepKeepsInv(s, e);
      past, events := past + [Now()], events + [e];
    }

    /** One turn of P's loop with sem_lock held: take a unit or go to sleep. */
    method Test(t: Tid, again: bool) returns (done: bool)
      requires Valid() && if again then t in woken else Outside(Now(), t)
      modifies this
      ensures Valid() && events == old(events) + [if again then Retry(t) else Enter(t)]
      ensures done <==> old(count) > 0
      ensures done ==> Outside(Now(), t) && count == old(count) - 1
      ensures !done ==> t in wchan && count == 0
      ensures forall u | u != t :: Outside(Now(), u) == old(Outside(Now(), u))
    {
      ghost var s := Now();
      woken := woken - {t};
      if count == 0 {
        wchan := wchan + [t];
        done := false;
      } else {
        count := count - 1;
        done := true;
      }
      Record(if again then Retry(t) else Enter(t), s);
    }

    /** V; fails only on the assertion that the count did not wrap to zero. */
    method Up() returns (ok: bool)
      requires Valid()
      modifies this
      ensures Valid()
      ensures ok <==> old(count) + 1 < LIMIT
      ensures ok ==> events == old(events) + [V] && count == old(count) + 1
      ensures ok && old(wchan) != [] ==> old(wchan)[0] in woken && wchan == old(wchan)[1..]
      ensures forall u :: Outside(Now(), u) == old(Outside(Now(), u))
      ensures !ok ==> unchanged(this)
    {
      if count + 1 == LIMIT { return false; }
      ghost var s := Now();
      count := count + 1;
      if wchan != [] {
        woken := woken + {wchan[0]};
        wchan := wchan[1..];
      }
      Record(V, s);
      return true;
    }

    /** P by thread t. Each element of others is what the other threads do during one
        sleep of t; the call returns with done false if they stop before t gets a unit. */
    method P(t: Tid, others: seq<seq<Event>>) returns (done: bool)
      requires Valid() && Outside(Now(), t)
      requires forall i, j | 0 <= i < |others| && 0 <= j < |others[i]| ::
                 others[i][j] != Enter(t) && others[i][j] != Retry(t)
      modifies this
      ensures Valid()
      ensures done ==> Outside(Now(), t) && |events| > |old(events)|
      ensures done ==> events[|events| - 1] in {Enter(t), Retry(t)}
                       && past[|events|].count + 1 == past[|events| - 1].count
      ensures !done ==> !Outside(Now(), t)
      ensures old(count) > 0 ==> done
    {
      done := Test(t, false);
      var i := 0;
      while !done && i < |others|
        invariant Valid() && 0 <= i <= |others| && |events| > |old(events)|
        invariant !done ==> t in wchan || t in woken
        invariant done ==> Outside(Now(), t)
        invariant done ==> events[|events| - 1] in {Enter(t), Retry(t)}
                           && past[|events|].count + 1 == past[|events| - 1].count
        invariant old(count) > 0 ==> done
      {
        Elsewhere(t, others[i]);
        i := i + 1;
        if t in woken {
          done := Test(t, true);
        }
      }
    }

    /** Other threads' steps, skipping those not possible; t stays where it was or is woken. */
    method Elsewhere(t: Tid, es: seq<Event>)
      requires Valid() && !Outside(Now(), t)
      requires forall j | 0 <= j < |es| :: es[j] != Enter(t) && es[j] != Retry(t)
      modifies this
      ensures Valid() && !Outside(Now(), t) && |events| >= |old(events)|
    {
      for k := 0 to |es|
        invariant Valid() && !Outside(Now(), t) && |events| >= |old(events)|
      {
        match es[k] {
          case Enter(u) =>
            if u !in wchan && u !in woken { var _ := Test(u, false); }
          case Retry(u) =>
            if u in woken { var _ := Test(u, true); }
          case V =>
            var _ := Up();
        }
      }
    }
  }
}

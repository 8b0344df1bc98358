// Locks built on a semaphore, and condition variables built on a wait channel, over
// every interleaving of any number of threads. The lock's spinlock and each condition
// variable's spinlock are explicit, since a thread takes steps while holding them.
module LockCv {
  import opened Basics
  import opened Semaphores

  /** Where a thread is. The field cv says whether lock_acquire or lock_release was
      called by cv_wait, and on which condition variable. */
  datatype Pc =
    | Idle                      // between operations
    | AcqTry(cv: Option<nat>)   // lock_acquire: about to enter P
    | AcqSleep(cv: Option<nat>) // asleep inside P
    | AcqRetry(cv: Option<nat>) // woken inside P
    | AcqGot(cv: Option<nat>)   // P done, owner not yet set
    | RelOwner(cv: Option<nat>) // lock_release: about to clear the owner
    | RelV(cv: Option<nat>)     // owner cleared, lk_spinlock held, about to V
    | RelDone(cv: Option<nat>)  // V done, lk_spinlock still held
    | WaitSpin(k: nat)          // cv_wait: about to take cv_spinlock
    | WaitSleep(k: nat)         // lock released, cv_spinlock held, about to sleep
    | WaitChan(k: nat)          // asleep on the condition variable
    | WaitWoken(k: nat)         // woken, about to retake cv_spinlock and then the lock
    | Waking(k: nat, all: bool) // cv_signal or cv_broadcast: about to take cv_spinlock

  datatype Cv = Cv(spin: Option<Tid>, chan: seq<Tid>)

  datatype State = State(pcs: seq<Pc>, sem: Sem, owner: Option<Tid>, lkspin: Option<Tid>, cvs: seq<Cv>)

  datatype Op = Acquire | Release | Wait(k: nat) | Signal(k: nat) | Broadcast(k: nat)

  datatype Step = Call(t: Tid, op: Op) | Run(t: Tid)

  /** Misuse is an assertion on the caller; Broken is an assertion on the code itself. */
  datatype Result = Next(state: State) | Misuse | Broken

  /** lock_create and cv_create: n threads, m condition variables. */
  function Init(n: nat, m: nat): State {
    State(seq(n, _ => Idle), Create(1), None, None, seq(m, _ => Cv(None, [])))
  }

  function At(s: State, t: Tid, pc: Pc): State
    requires t < |s.pcs|
  {
    s.(pcs := s.pcs[t := pc])
  }

  /** The first assertions of each operation, through lock_do_i_hold. */
  function Start(s: State, t: Tid, op: Op): Result
    requires t < |s.pcs|
  {
    if !s.pcs[t].Idle? || s.lkspin.Some? || (!op.Acquire? && !op.Release? && op.k >= |s.cvs|) then Next(s)
    else if op.Acquire? then
      if s.owner == Some(t) then Misuse else Next(At(s, t, AcqTry(None)))
    else if s.owner != Some(t) then Misuse
    else Next(At(s, t, match op
                       case Acquire => Idle
                       case Release => RelOwner(None)
                       case Wait(k) => WaitSpin(k)
                       case Signal(k) => Waking(k, false)
                       case Broadcast(k) => Waking(k, true)))
  }

  /** One turn of P's loop on the lock's semaphore. */
  function Test(s: State, t: Tid, cv: Option<nat>): State
    requires t < |s.pcs|
  {
    match TestCount(s.sem, t)
    case Done(sem) => At(s, t, AcqGot(cv)).(sem := sem)
    case Asleep(sem) => At(s, t, AcqSleep(cv)).(sem := sem)
    case Overflow => s
  }

  /** A sleeping thread made runnable again. */
  function Roused(pc: Pc): Pc {
    match pc
    case AcqSleep(cv) => AcqRetry(cv)
    case WaitChan(k) => WaitWoken(k)
    case _ => pc
  }

  function RouseAll(pcs: seq<Pc>, who: seq<Tid>): (r: seq<Pc>)
    ensures |r| == |pcs|
    ensures forall u | 0 <= u < |r| :: r[u] == if u in who then Roused(pcs[u]) else pcs[u]
  {
    seq(|pcs|, u requires 0 <= u < |pcs| => if u in who then Roused(pcs[u]) else pcs[u])
  }

  /** What wchan_wakeone, or wchan_wakeall, takes off a channel. */
  function Taken(chan: seq<Tid>, all: bool): seq<Tid> {
    if all || chan == [] then chan else chan[..1]
  }

  /** V on the lock's semaphore by thread t inside lock_release. */
  function Post(s: State, t: Tid, cv: Option<nat>): Result
    requires t < |s.pcs|
  {
    match Semaphores.Signal(s.sem)
    case Done(sem) =>
      Next(s.(pcs := RouseAll(s.pcs, Taken(s.sem.wchan, false))[t := RelDone(cv)], sem := sem))
    case Asleep(_) => Broken
    case Overflow => Broken
  }

  function Wake(s: State, t: Tid, k: nat, all: bool): State
    requires t < |s.pcs| && k < |s.cvs|
  {
    var who := Taken(s.cvs[k].chan, all);
    s.(pcs := RouseAll(s.pcs, who)[t := Idle],
       cvs := s.cvs[k := s.cvs[k].(chan := s.cvs[k].chan[|who|..])])
  }

  /** wchan_sleep asserts that t holds this spinlock and no other. */
  predicate OnlySpin(s: State, t: Tid, k: nat)
    requires k < |s.cvs|
  {
    && s.lkspin != Some(t) && s.cvs[k].spin == Some(t)
    && forall j :: 0 <= j < |s.cvs| && j != k ==> s.cvs[j].spin != Some(t)
  }

  /** Inside P it asserts that the semaphore's spinlock is the only one t holds. */
  predicate NoSpin(s: State, t: Tid) {
    s.lkspin != Some(t) && forall j :: 0 <= j < |s.cvs| ==> s.cvs[j].spin != Some(t)
  }

  /** The condition variable a thread is inside an operation on. */
  function CvOf(pc: Pc): Option<nat> {
    match pc
    case Idle => None
    case WaitSpin(k) => Some(k)
    case WaitSleep(k) => Some(k)
    case WaitChan(k) => Some(k)
    case WaitWoken(k) => Some(k)
    case Waking(k, _) => Some(k)
    case _ => pc.cv
  }

  predicate CvsExist(s: State) {
    forall t :: 0 <= t < |s.pcs| ==> match CvOf(s.pcs[t]) case None => true case Some(k) => k < |s.cvs|
  }

  /** One step of thread t; a thread waiting for a spinlock or a wakeup stays put. */
  function Advance(s: State, t: Tid): Result
    requires t < |s.pcs| && CvsExist(s)
  {
    match s.pcs[t]
    case Idle => Next(s)
    case AcqTry(cv) => if s.sem.count == 0 && !NoSpin(s, t) then Broken else Next(Test(s, t, cv))
    case AcqSleep(_) => Next(s)
    case AcqRetry(cv) => if s.sem.count == 0 && !NoSpin(s, t) then Broken else Next(Test(s, t, cv))
    case AcqGot(cv) =>
      if s.lkspin.Some? then Next(s)
      else if s.owner.Some? then Broken
      else Next(At(s, t, Idle).(owner := Some(t)))
    case RelOwner(cv) =>
      if s.lkspin.Some? then Next(s)
      else if s.owner != Some(t) then Broken
      else Next(At(s, t, RelV(cv)).(owner := None, lkspin := Some(t)))
    case RelV(cv) => Post(s, t, cv)
    case RelDone(cv) =>
      Next(At(s, t, match cv case None => Idle case Some(k) => WaitSleep(k)).(lkspin := None))
    case WaitSpin(k) =>
      if s.cvs[k].spin.Some? then Next(s)
      else Next(At(s, t, RelOwner(Some(k))).(cvs := s.cvs[k := s.cvs[k].(spin := Some(t))]))
    case WaitSleep(k) =>
      if !OnlySpin(s, t, k) then Broken
      else Next(At(s, t, WaitChan(k)).(cvs := s.cvs[k := Cv(None, s.cvs[k].chan + [t])]))
    case WaitChan(_) => Next(s)
    case WaitWoken(k) =>
      if s.cvs[k].spin.Some? then Next(s)
      else if s.owner == Some(t) then Broken
      else Next(At(s, t, AcqTry(Some(k))))
    case Waking(k, all) =>
      if s.cvs[k].spin.Some? then Next(s) else Next(Wake(s, t, k, all))
  }

  function Apply(s: State, step: Step): Result
    requires step.t < |s.pcs| && CvsExist(s)
  {
    match step
    case Call(t, op) => Start(s, t, op)
    case Run(t) => Advance(s, t)
  }

  // ---------------------------------------------------------------- invariant

  /** Between the P and the V of the lock. */
  ghost predicate InSection(s: State, t: Tid) {
    t < |s.pcs| && (s.owner == Some(t) || s.pcs[t].AcqGot? || s.pcs[t].RelV?)
  }

  /** The places where a thread must own the lock. */
  ghost predicate MustOwn(pc: Pc) {
    pc.RelOwner? || pc.WaitSpin? || pc.Waking?
  }

  ghost predicate HoldsLkSpin(pc: Pc) {
    pc.RelV? || pc.RelDone?
  }

  /** A thread's tie to a condition variable: it holds the spinlock from before
      lock_release until it is on the channel. */
  datatype Tie = Free | Spins(k: nat) | Sleeps(k: nat)

  ghost function TieOf(pc: Pc): Tie {
    match pc
    case RelOwner(Some(k)) => Spins(k)
    case RelV(Some(k)) => Spins(k)
    case RelDone(Some(k)) => Spins(k)
    case WaitSleep(k) => Spins(k)
    case WaitChan(k) => Sleeps(k)
    case _ => Free
  }

  ghost predicate OwnerOk(s: State) {
    && (s.owner.Some? ==> s.owner.value < |s.pcs|)
    && forall t :: 0 <= t < |s.pcs| ==>
         && (MustOwn(s.pcs[t]) ==> s.owner == Some(t))
         && (s.owner == Some(t) ==> s.pcs[t].Idle? || MustOwn(s.pcs[t]))
  }

  ghost predicate SemOk(s: State) {
    && Semaphores.Inv(s.sem)
    && (forall t | t in s.sem.wchan :: t < |s.pcs|)
    && forall t :: 0 <= t < |s.pcs| ==>
         && (t in s.sem.wchan <==> s.pcs[t].AcqSleep?)
         && (t in s.sem.woken <==> s.pcs[t].AcqRetry?)
  }

  ghost predicate LkSpinOk(s: State) {
    && (s.lkspin.Some? ==> s.lkspin.value < |s.pcs|)
    && forall t :: 0 <= t < |s.pcs| ==> (s.lkspin == Some(t) <==> HoldsLkSpin(s.pcs[t]))
  }

  ghost predicate CvOk(s: State, k: nat)
    requires k < |s.cvs|
  {
    && Distinct(s.cvs[k].chan) && (forall t | t in s.cvs[k].chan :: t < |s.pcs|)
    && forall t :: 0 <= t < |s.pcs| ==>
         && (t in s.cvs[k].chan <==> TieOf(s.pcs[t]) == Sleeps(k))
         && (s.cvs[k].spin == Some(t) <==> TieOf(s.pcs[t]) == Spins(k))
  }

  ghost predicate CvsOk(s: State) {
    forall k :: 0 <= k < |s.cvs| ==> CvOk(s, k)
  }

  /** The semaphore has a unit, or exactly one thread is in the section. */
  ghost predicate Exclusive(s: State) {
    && s.sem.count <= 1
    && (forall t, u :: InSection(s, t) && InSection(s, u) ==> t == u)
    && (s.sem.count == 0 <==> exists t :: InSection(s, t))
  }

  ghost predicate Inv(s: State) {
    && CvsExist(s) && OwnerOk(s) && SemOk(s) && LkSpinOk(s) && Exclusive(s) && CvsOk(s)
  }

  lemma InitInv(n: nat, m: nat)
    ensures Inv(Init(n, m))
  {}

  lemma CvsFrame(s: State, s': State)
    requires CvsOk(s) && s'.cvs == s.cvs && |s'.pcs| == |s.pcs|
    requires forall t :: 0 <= t < |s.pcs| ==> TieOf(s'.pcs[t]) == TieOf(s.pcs[t])
    ensures CvsOk(s')
  {
    forall k | 0 <= k < |s.cvs|
      ensures CvOk(s', k)
    {
      assert CvOk(s, k);
    }
  }

  /** The section has the same threads in it and the semaphore the same count. */
  lemma SectionFrame(s: State, s': State)
    requires Exclusive(s) && s'.sem.count == s.sem.count
    requires forall t :: InSection(s', t) <==> InSection(s, t)
    ensures Exclusive(s')
  {}

  lemma TestSem(s: State, t: Tid)
    requires SemOk(s) && t < |s.pcs| && (s.pcs[t].AcqTry? || s.pcs[t].AcqRetry?)
    ensures SemOk(Test(s, t, s.pcs[t].cv))
  {
    TestKeepsInv(s.sem, t);
  }

  lemma TestSection(s: State, t: Tid)
    requires Exclusive(s) && t < |s.pcs| && (s.pcs[t].AcqTry? || s.pcs[t].AcqRetry?) && s.owner != Some(t)
    ensures Exclusive(Test(s, t, s.pcs[t].cv))
  {
    var s' := Test(s, t, s.pcs[t].cv);
    if s.sem.count == 0 {
      SectionFrame(s, s');
    } else {
      assert forall u :: !InSection(s, u);
      assert InSection(s', t);
      assert forall u :: InSection(s', u) ==> InSection(s, u) || u == t;
    }
  }

  /** A thread that takes or awaits no condition variable's spinlock holds none. */
  lemma HasNoSpin(s: State, t: Tid)
    requires Inv(s) && t < |s.pcs| && (s.pcs[t].AcqTry? || s.pcs[t].AcqRetry?)
    ensures NoSpin(s, t)
  {
    forall j | 0 <= j < |s.cvs|
      ensures s.cvs[j].spin != Some(t)
    {
      assert CvOk(s, j);
    }
  }

  lemma TestAdvances(s: State, t: Tid)
    requires Inv(s) && t < |s.pcs| && (s.pcs[t].AcqTry? || s.pcs[t].AcqRetry?)
    ensures Advance(s, t) == Next(Test(s, t, s.pcs[t].cv))
  {
    HasNoSpin(s, t);
  }

  /** Both tests of the count, and the sleep that may follow. */
  lemma TestKeeps(s: State, t: Tid)
    requires Inv(s) && t < |s.pcs| && (s.pcs[t].AcqTry? || s.pcs[t].AcqRetry?)
    ensures Inv(Test(s, t, s.pcs[t].cv)) && Advance(s, t) == Next(Test(s, t, s.pcs[t].cv))
  {
    TestAdvances(s, t);
    CvsFrame(s, Test(s, t, s.pcs[t].cv));
    TestSem(s, t);
    TestSection(s, t);
  }

  lemma StartKeeps(s: State, t: Tid, op: Op)
    requires Inv(s) && t < |s.pcs| && Start(s, t, op).Next?
    ensures Inv(Start(s, t, op).state)
  {
    var s' := Start(s, t, op).state;
    CvsFrame(s, s');
    SectionFrame(s, s');
  }

  lemma GotKeeps(s: State, t: Tid)
    requires Inv(s) && t < |s.pcs| && s.pcs[t].AcqGot?
    ensures Advance(s, t).Next? && Inv(Advance(s, t).state)
  {
    assert InSection(s, t);
    assert s.owner.Some? ==> InSection(s, s.owner.value);
    var s' := Advance(s, t).state;
    CvsFrame(s, s');
    SectionFrame(s, s');
  }

  lemma RelOwnerKeeps(s: State, t: Tid)
    requires Inv(s) && t < |s.pcs| && s.pcs[t].RelOwner?
    ensures Advance(s, t).Next? && Inv(Advance(s, t).state)
  {
    var s' := Advance(s, t).state;
    CvsFrame(s, s');
    SectionFrame(s, s');
  }

  /** A channel splits into the threads taken off it and the rest. */
  lemma TakenSplits(chan: seq<Tid>, all: bool)
    requires Distinct(chan)
    ensures var who := Taken(chan, all);
            && Distinct(chan[|who|..])
            && (forall u | u in chan :: u in who || u in chan[|who|..])
            && (forall u | u in who :: u in chan && u !in chan[|who|..])
            && (forall u | u in chan[|who|..] :: u in chan && u !in who)
  {
    var who := Taken(chan, all);
    var rest := chan[|who|..];
    assert chan == who + rest;
    forall u | u in who
      ensures u !in rest
    {
      var i :| 0 <= i < |who| && who[i] == u;
      assert chan[i] == u;
      assert forall j :: 0 <= j < |rest| ==> rest[j] == chan[|who| + j];
    }
  }

  lemma PostSem(s: State, t: Tid)
    requires SemOk(s) && t < |s.pcs| && s.pcs[t].RelV? && s.sem.count == 0
    ensures Post(s, t, s.pcs[t].cv).Next? && SemOk(Post(s, t, s.pcs[t].cv).state)
  {
    SignalKeepsInv(s.sem);
    TakenSplits(s.sem.wchan, false);
    var s', who := Post(s, t, s.pcs[t].cv).state, Taken(s.sem.wchan, false);
    assert s'.sem.wchan == s.sem.wchan[|who|..];
    assert forall u :: u in s'.sem.woken <==> u in s.sem.woken || u in who;
  }

  lemma PostSection(s: State, t: Tid)
    requires Exclusive(s) && t < |s.pcs| && s.pcs[t].RelV? && s.owner.None? && s.sem.count == 0
    ensures Post(s, t, s.pcs[t].cv).Next? && Exclusive(Post(s, t, s.pcs[t].cv).state)
  {
    var s' := Post(s, t, s.pcs[t].cv).state;
    assert InSection(s, t);
    assert forall u :: InSection(s', u) ==> InSection(s, u) && u != t;
  }

  /** V moves the caller on, and at most moves threads on from their sleep inside P. */
  ghost predicate Posted(s: State, s': State, t: Tid) {
    && t < |s.pcs| == |s'.pcs| && s'.owner == s.owner && s'.lkspin == s.lkspin && s'.cvs == s.cvs
    && s.pcs[t].RelV? && s'.pcs[t] == RelDone(s.pcs[t].cv)
    && forall u :: 0 <= u < |s.pcs| && u != t ==>
         s'.pcs[u] == s.pcs[u] || (s.pcs[u].AcqSleep? && s'.pcs[u] == AcqRetry(s.pcs[u].cv))
  }

  lemma PostIsPosted(s: State, t: Tid)
    requires SemOk(s) && t < |s.pcs| && s.pcs[t].RelV? && s.sem.count == 0
    ensures Post(s, t, s.pcs[t].cv).Next? && Posted(s, Post(s, t, s.pcs[t].cv).state, t)
  {
    var who := Taken(s.sem.wchan, false);
    assert forall u :: 0 <= u < |s.pcs| && u in who ==> u in s.sem.wchan && s.pcs[u].AcqSleep?;
  }

  lemma PostedRest(s: State, s': State, t: Tid)
    requires CvsExist(s) && OwnerOk(s) && LkSpinOk(s) && CvsOk(s) && Posted(s, s', t)
    ensures CvsExist(s') && OwnerOk(s') && LkSpinOk(s') && CvsOk(s')
  {
    CvsFrame(s, s');
  }

  lemma PostKeeps(s: State, t: Tid)
    requires Inv(s) && t < |s.pcs| && s.pcs[t].RelV?
    ensures Advance(s, t).Next? && Inv(Advance(s, t).state)
  {
    assert InSection(s, t) && (s.owner.Some? ==> InSection(s, s.owner.value));
    PostSem(s, t);
    PostSection(s, t);
    PostIsPosted(s, t);
    PostedRest(s, Post(s, t, s.pcs[t].cv).state, t);
  }

  lemma RelDoneKeeps(s: State, t: Tid)
    requires Inv(s) && t < |s.pcs| && s.pcs[t].RelDone?
    ensures Advance(s, t).Next? && Inv(Advance(s, t).state)
  {
    var s' := Advance(s, t).state;
    CvsFrame(s, s');
    SectionFrame(s, s');
  }

  /** Only condition variable k and thread t's tie to it change. */
  lemma CvStepKeeps(s: State, s': State, t: Tid, k: nat)
    requires CvsOk(s) && k < |s.cvs| && |s'.cvs| == |s.cvs| && t < |s.pcs| == |s'.pcs|
    requires CvOk(s', k)
    requires forall j :: 0 <= j < |s.cvs| && j != k ==> s'.cvs[j] == s.cvs[j]
    requires forall u, j :: 0 <= u < |s.pcs| && j != k ==>
               (TieOf(s'.pcs[u]) == Spins(j) <==> TieOf(s.pcs[u]) == Spins(j))
               && (TieOf(s'.pcs[u]) == Sleeps(j) <==> TieOf(s.pcs[u]) == Sleeps(j))
    ensures CvsOk(s')
  {
    forall j | 0 <= j < |s'.cvs|
      ensures CvOk(s', j)
    {
      assert CvOk(s, j);
    }
  }

  lemma WaitSpinKeeps(s: State, t: Tid)
    requires Inv(s) && t < |s.pcs| && s.pcs[t].WaitSpin?
    ensures Advance(s, t).Next? && Inv(Advance(s, t).state)
  {
    var k, s' := s.pcs[t].k, Advance(s, t).state;
    assert CvOk(s, k);
    assert CvOk(s', k);
    CvStepKeeps(s, s', t, k);
    SectionFrame(s, s');
  }

  lemma WaitSleepKeeps(s: State, t: Tid)
    requires Inv(s) && t < |s.pcs| && s.pcs[t].WaitSleep?
    ensures Advance(s, t).Next? && Inv(Advance(s, t).state)
  {
    var k := s.pcs[t].k;
    forall j | 0 <= j < |s.cvs|
      ensures s.cvs[j].spin == Some(t) <==> j == k
    {
      assert CvOk(s, j);
    }
    assert OnlySpin(s, t, k);
    var s' := Advance(s, t).state;
    assert CvOk(s, k);
    assert CvOk(s', k);
    CvStepKeeps(s, s', t, k);
    SectionFrame(s, s');
  }

  lemma WaitWokenKeeps(s: State, t: Tid)
    requires Inv(s) && t < |s.pcs| && s.pcs[t].WaitWoken?
    ensures Advance(s, t).Next? && Inv(Advance(s, t).state)
  {
    var s' := Advance(s, t).state;
    CvsFrame(s, s');
    SectionFrame(s, s');
  }

  lemma WakeCv(s: State, t: Tid, k: nat, all: bool)
    requires CvsOk(s) && t < |s.pcs| && k < |s.cvs| && s.pcs[t] == Waking(k, all) && s.cvs[k].spin.None?
    ensures CvOk(Wake(s, t, k, all), k)
  {
    assert CvOk(s, k);
    TakenSplits(s.cvs[k].chan, all);
  }

  lemma WakeCvs(s: State, t: Tid, k: nat, all: bool)
    requires CvsOk(s) && t < |s.pcs| && k < |s.cvs| && s.pcs[t] == Waking(k, all) && s.cvs[k].spin.None?
    ensures CvsOk(Wake(s, t, k, all))
  {
    WakeCv(s, t, k, all);
    assert CvOk(s, k);
    TakenSplits(s.cvs[k].chan, all);
    CvStepKeeps(s, Wake(s, t, k, all), t, k);
  }

  /** Waking threads on a condition variable touches nothing of the lock. */
  ghost predicate Woke(s: State, s': State, t: Tid, k: nat) {
    && t < |s.pcs| == |s'.pcs| && s'.owner == s.owner && s'.lkspin == s.lkspin && s'.sem == s.sem
    && |s'.cvs| == |s.cvs| && s.pcs[t].Waking? && s'.pcs[t].Idle?
    && forall u :: 0 <= u < |s.pcs| && u != t ==>
         s'.pcs[u] == s.pcs[u] || (s.pcs[u] == WaitChan(k) && s'.pcs[u] == WaitWoken(k))
  }

  lemma WakeIsWoke(s: State, t: Tid, k: nat, all: bool)
    requires CvsOk(s) && t < |s.pcs| && k < |s.cvs| && s.pcs[t] == Waking(k, all)
    ensures Woke(s, Wake(s, t, k, all), t, k)
  {
    assert CvOk(s, k);
    var who := Taken(s.cvs[k].chan, all);
    assert forall u :: 0 <= u < |s.pcs| && u in who ==> u in s.cvs[k].chan && s.pcs[u] == WaitChan(k);
  }

  lemma WokeRest(s: State, s': State, t: Tid, k: nat)
    requires Inv(s) && Woke(s, s', t, k)
    ensures CvsExist(s') && OwnerOk(s') && SemOk(s') && LkSpinOk(s') && Exclusive(s')
  {
    SectionFrame(s, s');
  }

  lemma WakingKeeps(s: State, t: Tid)
    requires Inv(s) && t < |s.pcs| && s.pcs[t].Waking?
    ensures Advance(s, t).Next? && Inv(Advance(s, t).state)
  {
    var k, all := s.pcs[t].k, s.pcs[t].all;
    if s.cvs[k].spin.None? {
      WakeCvs(s, t, k, all);
      WakeIsWoke(s, t, k, all);
      WokeRest(s, Wake(s, t, k, all), t, k);
    }
  }

  lemma AdvanceKeeps(s: State, t: Tid)
    requires Inv(s) && t < |s.pcs|
    ensures Advance(s, t).Next? && Inv(Advance(s, t).state)
  {
    match s.pcs[t]
    case Idle =>
    case AcqTry(_) => TestKeeps(s, t);
    case AcqSleep(_) =>
    case AcqRetry(_) => TestKeeps(s, t);
    case AcqGot(_) => GotKeeps(s, t);
    case RelOwner(_) => RelOwnerKeeps(s, t);
    case RelV(_) => PostKeeps(s, t);
    case RelDone(_) => RelDoneKeeps(s, t);
    case WaitSpin(_) => WaitSpinKeeps(s, t);
    case WaitSleep(_) => WaitSleepKeeps(s, t);
    case WaitChan(_) =>
    case WaitWoken(_) => WaitWokenKeeps(s, t);
    case Waking(_, _) => WakingKeeps(s, t);
  }

  lemma ThreadsStay(s: State, step: Step)
    requires step.t < |s.pcs| && CvsExist(s) && Apply(s, step).Next?
    ensures |Apply(s, step).state.pcs| == |s.pcs|
  {}

  /** No step breaks one of the code's own assertions, and every step keeps the invariant. */
  lemma StepSafe(s: State, step: Step)
    requires Inv(s) && step.t < |s.pcs|
    ensures !Apply(s, step).Broken?
    ensures Apply(s, step).Next? ==> Inv(Apply(s, step).state)
  {
    match step
    case Call(t, op) =>
      if Start(s, t, op).Next? { StartKeeps(s, t, op); }
    case Run(t) => AdvanceKeeps(s, t);
  }

  // ---------------------------------------------------------------- runs

  /** The states from boot after the given steps, in order. */
  ghost predicate Reaches(n: nat, m: nat, steps: seq<Step>, s: State)
    decreases |steps|
  {
    if steps == [] then s == Init(n, m) else
      var last := steps[|steps| - 1];
      exists before: State :: Reaches(n, m, steps[..|steps| - 1], before)
        && CvsExist(before) && last.t < |before.pcs| && Apply(before, last) == Next(s)
  }

  /** Over every run: the invariant, hence at most one thread between the P and the V
      of the lock; and whatever thread moves next, no assertion of the code fails. */
  lemma {:induction false} RunSafe(n: nat, m: nat, steps: seq<Step>, s: State)
    requires Reaches(n, m, steps, s)
    ensures Inv(s) && |s.pcs| == n
    ensures forall t, u :: InSection(s, t) && InSection(s, u) ==> t == u
    ensures forall step: Step :: step.t < n ==> !Apply(s, step).Broken?
    decreases |steps|
  {
    if steps == [] {
      InitInv(n, m);
    } else {
      var last := steps[|steps| - 1];
      var before: State :| Reaches(n, m, steps[..|steps| - 1], before)
        && CvsExist(before) && last.t < |before.pcs| && Apply(before, last) == Next(s);
      RunSafe(n, m, steps[..|steps| - 1], before);
      StepSafe(before, last);
      ThreadsStay(before, last);
    }
    forall step: Step | step.t < n
      ensures !Apply(s, step).Broken?
    {
      StepSafe(s, step);
    }
  }

  /** Inside cv_wait on condition variable k. */
  ghost predicate InWait(pc: Pc, k: nat) {
    CvOf(pc) == Some(k) && !pc.Waking?
  }

  /** A step of another thread at most makes a sleeping thread runnable. */
  lemma OthersAtMostRouse(s: State, step: Step, u: Tid)
    requires step.t < |s.pcs| && u < |s.pcs| && u != step.t && CvsExist(s) && Apply(s, step).Next?
    ensures var s' := Apply(s, step).state;
            |s'.pcs| == |s.pcs| && s'.pcs[u] in {s.pcs[u], Roused(s.pcs[u])}
  {}

  /** A thread's own step inside cv_wait stays inside, or ends owning the lock. */
  lemma OwnStepInWait(s: State, t: Tid, k: nat)
    requires t < |s.pcs| && CvsExist(s) && InWait(s.pcs[t], k) && Advance(s, t).Next?
    ensures var s' := Advance(s, t).state;
            |s'.pcs| == |s.pcs| && (InWait(s'.pcs[t], k) || (s'.pcs[t].Idle? && s'.owner == Some(t)))
  {}

  /** cv_wait ends only with the caller owning the lock again. */
  lemma WaitReturnsHolding(n: nat, m: nat, steps: seq<Step>, s: State, step: Step, t: Tid, k: nat)
    requires Reaches(n, m, steps, s) && step.t < n && t < n && CvsExist(s) && |s.pcs| == n && InWait(s.pcs[t], k)
    ensures match Apply(s, step)
            case Next(s') => |s'.pcs| == n && (InWait(s'.pcs[t], k) || (s'.pcs[t].Idle? && s'.owner == Some(t)))
            case Misuse => step.Call? && step.t != t
            case Broken => false
  {
    RunSafe(n, m, steps, s);
    if Apply(s, step).Next? {
      if step.t != t {
        OthersAtMostRouse(s, step, t);
      } else if step.Run? {
        OwnStepInWait(s, t, k);
      }
    }
  }

  /** When a signal or broadcast takes effect, every other thread inside cv_wait is on
      the channel or has already been woken: none is between giving up the lock and
      going to sleep. The one at the head, or all of them, are then woken. */
  lemma SignalFindsWaiters(n: nat, m: nat, steps: seq<Step>, s: State, t: Tid, u: Tid, k: nat, all: bool)
    requires Reaches(n, m, steps, s) && t < n && u < n && u != t && |s.pcs| == n && k < |s.cvs|
    requires s.pcs[t] == Waking(k, all) && s.cvs[k].spin.None? && InWait(s.pcs[u], k)
    ensures u in s.cvs[k].chan || s.pcs[u] in {WaitWoken(k), AcqTry(Some(k)), AcqSleep(Some(k)), AcqRetry(Some(k))}
    ensures var s' := Wake(s, t, k, all);
            u in s.cvs[k].chan && (all || s.cvs[k].chan[0] == u) ==> s'.pcs[u] == WaitWoken(k)
  {
    RunSafe(n, m, steps, s);
    assert CvOk(s, k);
    assert InSection(s, t) && (s.pcs[u].AcqGot? ==> InSection(s, u));
  }
}

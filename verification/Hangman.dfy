// hangman: the deadlock detector. Each actor waits for at most one lockable and
// each lockable is held by at most one actor, so the waits-for graph is a partial
// function from actors to actors.
module WaitsFor {
  import opened Basics

  datatype Graph<A(==), L(==)> = Graph(waits: map<A, L>, holds: map<L, A>)

  /** The actor that actor a waits for. */
  ghost function Next<A, L>(g: Graph<A, L>, a: A): Option<A> {
    if a in g.waits && g.waits[a] in g.holds then Some(g.holds[g.waits[a]]) else None
  }

  /** The actor n waits-for edges away from a, if there is one. */
  ghost function Follow<A, L>(g: Graph<A, L>, a: A, n: nat): Option<A> {
    if n == 0 then Some(a)
    else match Next(g, a) case None => None case Some(b) => Follow(g, b, n - 1)
  }

  ghost predicate OnCycle<A, L>(g: Graph<A, L>, a: A, n: nat) { n > 0 && Follow(g, a, n) == Some(a) }

  /** No actor waits, directly or through others, for itself. */
  ghost predicate Acyclic<A, L>(g: Graph<A, L>) {
    forall a, n: nat | a in g.waits :: !OnCycle(g, a, n)
  }

  /** A chain of holders and waits leads from lockable l to the actor. */
  ghost predicate Reaches<A, L>(g: Graph<A, L>, l: L, target: A) {
    l in g.holds && exists n: nat :: Follow(g, g.holds[l], n) == Some(target)
  }

  ghost function AddWait<A, L>(g: Graph<A, L>, a: A, l: L): Graph<A, L> { g.(waits := g.waits[a := l]) }

  ghost function Grant<A, L>(g: Graph<A, L>, a: A, l: L): Graph<A, L> {
    Graph(g.waits - {a}, g.holds[l := a])
  }

  ghost function Drop<A, L>(g: Graph<A, L>, l: L): Graph<A, L> { g.(holds := g.holds - {l}) }

  lemma {:induction false} FollowSum<A, L>(g: Graph<A, L>, a: A, m: nat, n: nat)
    ensures Follow(g, a, m + n)
            == (match Follow(g, a, m) case None => None case Some(b) => Follow(g, b, n))
    decreases m
  {
    if m > 0 {
      match Next(g, a) {
        case None =>
        case Some(b) => FollowSum(g, b, m - 1, n);
      }
    }
  }

  /** A walk in the extended graph that ends at a exists already in the old graph,
      cut off at its first visit to a. */
  lemma {:induction false} FirstVisit<A, L>(g: Graph<A, L>, g': Graph<A, L>, a: A, b: A, n: nat)
    requires g'.holds == g.holds && g'.waits - {a} == g.waits - {a}
    requires Follow(g', b, n) == Some(a)
    ensures exists m: nat :: Follow(g, b, m) == Some(a)
    decreases n
  {
    if b == a {
      assert Follow(g, b, 0) == Some(a);
    } else {
      NextElsewhere(g, g', a, b);
      var c := Next(g, b).value;
      FirstVisit(g, g', a, c, n - 1);
      var m: nat :| Follow(g, c, m) == Some(a);
      assert Follow(g, b, m + 1) == Some(a);
    }
  }

  lemma NextElsewhere<A, L>(g: Graph<A, L>, g': Graph<A, L>, a: A, b: A)
    requires g'.holds == g.holds && g'.waits - {a} == g.waits - {a}
    requires b != a
    ensures Next(g', b) == Next(g, b)
  {
    assert b in g.waits <==> b in (g.waits - {a});
    assert b in g'.waits <==> b in (g'.waits - {a});
  }

  /** A walk of fewer than n steps from b leads to a. */
  ghost predicate Visits<A, L>(g: Graph<A, L>, b: A, n: nat, a: A) {
    exists i: nat :: i < n && Follow(g, b, i) == Some(a)
  }

  lemma Visit<A, L>(g: Graph<A, L>, b: A, n: nat, a: A, i: nat)
    requires i < n && Follow(g, b, i) == Some(a)
    ensures Visits(g, b, n, a)
  {}

  /** A walk in the extended graph either avoids a or visits it on the way. */
  lemma {:induction false} AvoidsOrVisits<A, L>(g: Graph<A, L>, g': Graph<A, L>, a: A, b: A, n: nat)
    requires g'.holds == g.holds && g'.waits - {a} == g.waits - {a}
    ensures Follow(g', b, n) == Follow(g, b, n) || Visits(g', b, n, a)
    decreases n
  {
    if n > 0 {
      if b == a {
        Visit(g', b, n, a, 0);
      } else {
        NextElsewhere(g, g', a, b);
        match Next(g, b) {
          case None =>
          case Some(c) =>
            AvoidsOrVisits(g, g', a, c, n - 1);
            if Visits(g', c, n - 1, a) {
              var i: nat :| i < n - 1 && Follow(g', c, i) == Some(a);
              Visit(g', b, n, a, i + 1);
            }
        }
      }
    }
  }

  lemma Rotate<A, L>(g: Graph<A, L>, b: A, n: nat, i: nat, a: A)
    requires i < n && OnCycle(g, b, n) && Follow(g, b, i) == Some(a)
    ensures OnCycle(g, a, n)
  {
    FollowSum(g, b, i, n - i);
    FollowSum(g, a, n - i, i);
  }

  /** An actor waiting for nothing is never left on the way to itself. */
  lemma {:induction false} WalkKept<A, L>(g: Graph<A, L>, g': Graph<A, L>, a: A, b: A, n: nat)
    requires g'.holds == g.holds && g'.waits - {a} == g.waits - {a} && a !in g.waits
    requires Follow(g, b, n) == Some(a)
    ensures Follow(g', b, n) == Some(a)
    decreases n
  {
    if n > 0 {
      NextElsewhere(g, g', a, b);
      WalkKept(g, g', a, Next(g, b).value, n - 1);
    }
  }

  lemma CycleMustWait<A, L>(g: Graph<A, L>, a: A, n: nat)
    requires Acyclic(g)
    ensures !OnCycle(g, a, n)
  {
    if a !in g.waits { assert Next(g, a) == None; }
  }

  /** A cycle after the wait was there before, or runs through the new edge. */
  lemma CycleOldOrThroughWait<A, L>(g: Graph<A, L>, a: A, l: L, b: A, n: nat)
    requires a !in g.waits && OnCycle(AddWait(g, a, l), b, n)
    ensures OnCycle(g, b, n) || Reaches(g, l, a)
  {
    var g' := AddWait(g, a, l);
    assert g'.waits - {a} == g.waits - {a};
    AvoidsOrVisits(g, g', a, b, n);
    if i: nat :| i < n && Follow(g', b, i) == Some(a) {
      Rotate(g', b, n, i, a);
      assert Follow(g', g.holds[l], n - 1) == Some(a);
      FirstVisit(g, g', a, g.holds[l], n - 1);
    }
  }

  /** The exact test: a new wait closes a cycle if and only if the lockable already
      leads to the actor. */
  lemma WaitClosesCycleIff<A, L>(g: Graph<A, L>, a: A, l: L)
    requires Acyclic(g) && a !in g.waits
    ensures Acyclic(AddWait(g, a, l)) <==> !Reaches(g, l, a)
  {
    var g' := AddWait(g, a, l);
    assert g'.waits - {a} == g.waits - {a};
    if Reaches(g, l, a) {
      var m: nat :| Follow(g, g.holds[l], m) == Some(a);
      WalkKept(g, g', a, g.holds[l], m);
      assert OnCycle(g', a, m + 1);
    } else {
      forall b, n: nat | b in g'.waits
        ensures !OnCycle(g', b, n)
      {
        CycleMustWait(g, b, n);
        if OnCycle(g', b, n) { CycleOldOrThroughWait(g, a, l, b, n); }
      }
    }
  }

  /** Removing edges, or leading edges into an actor that waits for nothing, keeps
      every walk that ends at an actor with an outgoing edge. */
  lemma {:induction false} WalkInherited<A, L>(g: Graph<A, L>, g': Graph<A, L>, b: A, n: nat, c: A)
    requires forall x | x in g'.waits :: Next(g', x) == Next(g, x) || Next(g', x) == None
                                         || (Next(g', x).Some? && Next(g', x).value !in g'.waits)
    requires Follow(g', b, n) == Some(c) && c in g'.waits
    ensures Follow(g, b, n) == Some(c)
    decreases n
  {
    if n > 0 {
      WalkInherited(g, g', Next(g', b).value, n - 1, c);
    }
  }

  lemma AcyclicInherited<A, L>(g: Graph<A, L>, g': Graph<A, L>)
    requires Acyclic(g) && g'.waits.Keys <= g.waits.Keys
    requires forall x | x in g'.waits :: Next(g', x) == Next(g, x) || Next(g', x) == None
                                         || (Next(g', x).Some? && Next(g', x).value !in g'.waits)
    ensures Acyclic(g')
  {
    forall a, n: nat | a in g'.waits
      ensures !OnCycle(g', a, n)
    {
      if OnCycle(g', a, n) {
        WalkInherited(g, g', a, n, a);
        assert OnCycle(g, a, n);
      }
    }
  }

  lemma GrantKeepsAcyclic<A, L>(g: Graph<A, L>, a: A, l: L)
    requires Acyclic(g) && l !in g.holds
    ensures Acyclic(Grant(g, a, l)) && l in Grant(g, a, l).holds && Grant(g, a, l).holds[l] == a
  {
    AcyclicInherited(g, Grant(g, a, l));
  }

  lemma DropKeepsAcyclic<A, L>(g: Graph<A, L>, l: L)
    requires Acyclic(g)
    ensures Acyclic(Drop(g, l))
  {
    AcyclicInherited(g, Drop(g, l));
  }

  // Whole runs of the detector.

  datatype Step<A, L> = Wait(a: A, l: L) | Acquire(a: A, l: L) | Release(a: A, l: L)

  datatype Result<A, L> = Go(g: Graph<A, L>) | Deadlock | Panic

  /** One detector call, as a transition of the graph. */
  ghost function Apply<A, L>(g: Graph<A, L>, s: Step<A, L>): Result<A, L> {
    match s
    case Wait(a, l) =>
      if a in g.waits then Panic
      else if Reaches(g, l, a) then Deadlock
      else Go(AddWait(g, a, l))
    case Acquire(a, l) =>
      if a !in g.waits || g.waits[a] != l then Panic
      else if l in g.holds then Panic
      else Go(Grant(g, a, l))
    case Release(a, l) =>
      if a in g.waits then Panic
      else if l !in g.holds || g.holds[l] != a then Panic
      else Go(Drop(g, l))
  }

  ghost function Run<A, L>(g: Graph<A, L>, steps: seq<Step<A, L>>): Result<A, L>
    decreases |steps|
  {
    if steps == [] then Go(g)
    else match Apply(g, steps[0]) case Go(g') => Run(g', steps[1..]) case r => r
  }

  lemma StepKeepsAcyclic<A, L>(g: Graph<A, L>, s: Step<A, L>)
    requires Acyclic(g)
    ensures Apply(g, s).Go? ==> Acyclic(Apply(g, s).g)
    ensures s.Wait? && s.a !in g.waits ==> (Apply(g, s).Deadlock? <==> !Acyclic(AddWait(g, s.a, s.l)))
  {
    match s {
      case Wait(a, l) => if a !in g.waits { WaitClosesCycleIff(g, a, l); }
      case Acquire(a, l) => if l !in g.holds { GrantKeepsAcyclic(g, a, l); }
      case Release(a, l) => DropKeepsAcyclic(g, l);
    }
  }

  /** Over every sequence of calls from an empty graph, the graph stays acyclic until
      a deadlock is reported or a misuse panics. */
  lemma {:induction false} RunStaysAcyclic<A, L>(g: Graph<A, L>, steps: seq<Step<A, L>>)
    requires Acyclic(g)
    ensures Run(g, steps).Go? ==> Acyclic(Run(g, steps).g)
    decreases |steps|
  {
    if steps != [] {
      StepKeepsAcyclic(g, steps[0]);
      match Apply(g, steps[0]) {
        case Go(g') => RunStaysAcyclic(g', steps[1..]);
        case Deadlock =>
        case Panic =>
      }
    }
  }

  // ---------------------------------------------------------------- the calls behind the graph

  ghost function Empty<A, L>(): Graph<A, L> { Graph(map[], map[]) }

  ghost predicate Holds<A, L>(g: Graph<A, L>, a: A, l: L) { l in g.holds && g.holds[l] == a }
  ghost predicate Awaits<A, L>(g: Graph<A, L>, a: A, l: L) { a in g.waits && g.waits[a] == l }

  /** The last call that gave lockable l to an actor or took it back. */
  ghost function LastOn<A, L>(steps: seq<Step<A, L>>, l: L): Option<Step<A, L>>
    decreases |steps|
  {
    if steps == [] then None
    else
      var last := steps[|steps| - 1];
      if last.l == l && !last.Wait? then Some(last) else LastOn(steps[..|steps| - 1], l)
  }

  /** The last call by actor a. */
  ghost function LastBy<A, L>(steps: seq<Step<A, L>>, a: A): Option<Step<A, L>>
    decreases |steps|
  {
    if steps == [] then None
    else
      var last := steps[|steps| - 1];
      if last.a == a then Some(last) else LastBy(steps[..|steps| - 1], a)
  }

  /** By the calls so far: a got l and still has it; a asked for l and is still waiting. */
  ghost predicate Took<A, L>(steps: seq<Step<A, L>>, a: A, l: L) { LastOn(steps, l) == Some(Step.Acquire(a, l)) }
  ghost predicate Asked<A, L>(steps: seq<Step<A, L>>, a: A, l: L) { LastBy(steps, a) == Some(Step.Wait(a, l)) }

  lemma {:induction false} RunMore<A, L>(g: Graph<A, L>, steps: seq<Step<A, L>>, s: Step<A, L>)
    ensures Run(g, steps + [s]) == match Run(g, steps) case Go(g') => Apply(g', s) case r => r
    decreases |steps|
  {
    if steps == [] {
      assert ([] + [s])[1..] == [] && ([] + [s])[0] == s;
    } else {
      assert (steps + [s])[1..] == steps[1..] + [s];
      match Apply(g, steps[0]) {
        case Go(g') => RunMore(g', steps[1..], s);
        case Deadlock =>
        case Panic =>
      }
    }
  }

  /** An actor holds a lockable if and only if its acquiring it was the last that happened
      to the lockable, and waits for one if and only if that wait was its last call. */
  lemma {:induction false} GraphIsHistory<A, L>(steps: seq<Step<A, L>>, g: Graph<A, L>, a: A, l: L)
    requires Run(Empty(), steps) == Go(g)
    ensures Holds(g, a, l) <==> Took(steps, a, l)
    ensures Awaits(g, a, l) <==> Asked(steps, a, l)
    decreases |steps|
  {
    if steps != [] {
      var before, last := steps[..|steps| - 1], steps[|steps| - 1];
      assert steps == before + [last];
      RunMore(Empty(), before, last);
      var g0 := Run(Empty(), before).g;
      GraphIsHistory(before, g0, a, l);
      GraphIsHistory(before, g0, last.a, last.l);
    }
  }

  // ---------------------------------------------------------------- rings

  /** Each actor holds its lockable, and waits for that of the next one. */
  ghost predicate Chained<A, L>(g: Graph<A, L>, ring: seq<(A, L)>) {
    && (forall i :: 0 <= i < |ring| ==> Holds(g, ring[i].0, ring[i].1))
    && (forall i :: 0 <= i < |ring| - 1 ==> Awaits(g, ring[i].0, ring[i + 1].1))
  }

  lemma {:induction false} ChainedLeads<A, L>(g: Graph<A, L>, ring: seq<(A, L)>)
    requires ring != [] && Chained(g, ring)
    ensures Follow(g, ring[0].0, |ring| - 1) == Some(ring[|ring| - 1].0)
    decreases |ring|
  {
    if |ring| > 1 {
      assert Next(g, ring[0].0) == Some(ring[1].0);
      ChainedLeads(g, ring[1..]);
    }
  }

  lemma {:induction false} WalkIsChained<A, L>(g: Graph<A, L>, l: L, n: nat, target: A) returns (ring: seq<(A, L)>)
    requires l in g.holds && Follow(g, g.holds[l], n) == Some(target)
    ensures |ring| == n + 1 && Chained(g, ring) && ring[0].1 == l && ring[n].0 == target
    decreases n
  {
    var a := g.holds[l];
    if n == 0 {
      ring := [(a, l)];
    } else {
      var rest := WalkIsChained(g, g.waits[a], n - 1, target);
      ring := [(a, l)] + rest;
    }
  }

  /** hangman_wait reports a deadlock if and only if there is a ring of actors, from the
      holder of the lockable to the caller, each holding what the one before waits for. */
  lemma DeadlockIffRing<A, L>(g: Graph<A, L>, a: A, l: L)
    requires a !in g.waits
    ensures Apply(g, Step.Wait(a, l)).Deadlock?
            <==> exists ring: seq<(A, L)> ::
                   ring != [] && Chained(g, ring) && ring[0].1 == l && ring[|ring| - 1].0 == a
  {
    if Reaches(g, l, a) {
      var n: nat :| Follow(g, g.holds[l], n) == Some(a);
      var ring := WalkIsChained(g, l, n, a);
    }
    forall ring: seq<(A, L)> | ring != [] && Chained(g, ring) && ring[0].1 == l && ring[|ring| - 1].0 == a
      ensures Reaches(g, l, a)
    {
      ChainedLeads(g, ring);
    }
  }

  /** What the calls so far say of a ring: each actor's acquiring its lockable was the last
      that happened to that, and all but the last actor then called for the next one's. */
  ghost predicate Ringed<A, L>(steps: seq<Step<A, L>>, ring: seq<(A, L)>) {
    && (forall i :: 0 <= i < |ring| ==> Took(steps, ring[i].0, ring[i].1))
    && (forall i :: 0 <= i < |ring| - 1 ==> Asked(steps, ring[i].0, ring[i + 1].1))
  }

  lemma RingIsHistory<A, L>(steps: seq<Step<A, L>>, g: Graph<A, L>, ring: seq<(A, L)>)
    requires Run(Empty(), steps) == Go(g)
    ensures Chained(g, ring) <==> Ringed(steps, ring)
  {
    forall i | 0 <= i < |ring|
      ensures Holds(g, ring[i].0, ring[i].1) <==> Took(steps, ring[i].0, ring[i].1)
    {
      GraphIsHistory(steps, g, ring[i].0, ring[i].1);
    }
    forall i | 0 <= i < |ring| - 1
      ensures Awaits(g, ring[i].0, ring[i + 1].1) <==> Asked(steps, ring[i].0, ring[i + 1].1)
    {
      GraphIsHistory(steps, g, ring[i].0, ring[i + 1].1);
    }
  }

  /** Nobody has got l since it was last given back. */
  ghost predicate Open<A, L>(steps: seq<Step<A, L>>, l: L) {
    match LastOn(steps, l) case Some(s) => !s.Acquire? case None => true
  }

  ghost predicate Busy<A, L>(steps: seq<Step<A, L>>, a: A) {
    match LastBy(steps, a) case Some(s) => s.Wait? case None => false
  }

  lemma {:induction false} LastOnIs<A, L>(steps: seq<Step<A, L>>, a: A, l: L)
    ensures LastOn(steps, l).Some? ==> !LastOn(steps, l).value.Wait? && LastOn(steps, l).value.l == l
    ensures LastBy(steps, a).Some? ==> LastBy(steps, a).value.a == a
    decreases |steps|
  {
    if steps != [] { LastOnIs(steps[..|steps| - 1], a, l); }
  }

  /** Exactly when each call goes through, by the calls before it. */
  lemma CallOutcome<A, L>(steps: seq<Step<A, L>>, g: Graph<A, L>, a: A, l: L)
    requires Run(Empty(), steps) == Go(g)
    ensures Apply(g, Step.Wait(a, l)).Panic? <==> Busy(steps, a)
    ensures Apply(g, Step.Acquire(a, l)).Go? <==> Asked(steps, a, l) && Open(steps, l)
    ensures Apply(g, Step.Release(a, l)).Go? <==> Took(steps, a, l) && !Busy(steps, a)
    ensures !Apply(g, Step.Acquire(a, l)).Deadlock? && !Apply(g, Step.Release(a, l)).Deadlock?
  {
    LastOnIs(steps, a, l);
    GraphIsHistory(steps, g, a, l);
    if a in g.waits { GraphIsHistory(steps, g, a, g.waits[a]); }
    if l in g.holds { GraphIsHistory(steps, g, g.holds[l], l); }
    if Busy(steps, a) { GraphIsHistory(steps, g, a, LastBy(steps, a).value.l); }
    if !Open(steps, l) { GraphIsHistory(steps, g, LastOn(steps, l).value.a, l); }
  }

  /** After any run of calls, the wait that closes such a ring is a deadlock, and no other
      wait by an actor whose last call was not a wait is. */
  lemma RingDeadlocks<A, L>(steps: seq<Step<A, L>>, g: Graph<A, L>, a: A, l: L)
    requires Run(Empty(), steps) == Go(g)
    requires !Busy(steps, a)
    ensures Apply(g, Step.Wait(a, l)).Deadlock?
            <==> exists ring: seq<(A, L)> ::
                   ring != [] && Ringed(steps, ring) && ring[0].1 == l && ring[|ring| - 1].0 == a
  {
    CallOutcome(steps, g, a, l);
    DeadlockIffRing(g, a, l);
    forall ring: seq<(A, L)>
      ensures Chained(g, ring) <==> Ringed(steps, ring)
    {
      RingIsHistory(steps, g, ring);
    }
  }
}

module Hangman {
  import opened Basics
  import opened WaitsFor

  class Actor {
    var waiting: Lockable?
    constructor ()
      ensures waiting == null
    {
      waiting := null;
    }
  }

  class Lockable {
    var holding: Actor?
    constructor ()
      ensures holding == null
    {
      holding := null;
    }
  }

  datatype Verdict = Fine | DeadlockFound | Misuse

  /** The detector over the actors and lockables it has been told about. */
  class Detector {
    const ownLock: Lockable
    ghost var actors: set<Actor>
    ghost var lockables: set<Lockable>
    ghost var calls: seq<Step<Actor, Lockable>>   // those that went through, ownLock aside

    constructor (own: Lockable)
      ensures Valid() && ownLock == own && actors == {} && lockables == {} && calls == []
    {
      ownLock := own;
      actors, lockables, calls := {}, {}, [];
    }

    ghost predicate Valid()
      reads this, actors, lockables
    {
      Closed() && LedTo(calls, Waits())
    }

    /** No pointer leaves the actors and lockables known. */
    ghost predicate Closed()
      reads this`actors, this`lockables, actors, lockables
    {
      && (forall a | a in actors :: a.waiting != null ==> a.waiting in lockables)
      && (forall l | l in lockables :: l.holding != null ==> l.holding in actors)
    }

    ghost function Waits(): Graph<Actor, Lockable>
      reads this`actors, this`lockables, actors, lockables
    {
      Graph(map a | a in actors && a.waiting != null :: NonNull(a.waiting),
            map l | l in lockables && l.holding != null :: NonNullActor(l.holding))
    }

    static ghost function NonNull(l: Lockable?): Lockable
      requires l != null
    {
      l
    }

    static ghost function NonNullActor(a: Actor?): Actor
      requires a != null
    {
      a
    }

    /** hangman_check: whether the holders reached from start include target. The
        walk ends because the graph has no cycle. */
    method Check(start: Lockable, target: Actor) returns (found: bool)
      requires Valid() && start in lockables
      ensures found <==> Reaches(Waits(), start, target)
    {
      ghost var g := Waits();
      var cur := start.holding;
      ghost var n: nat, seen: set<Actor> := 0, {};
      while cur != null
        invariant cur != null ==> cur in actors && cur !in seen
        invariant start.holding != null
                  ==> Follow(g, start.holding, n) == (if cur == null then None else Some(NonNullActor(cur)))
        invariant start.holding == null ==> cur == null
        invariant start.holding != null ==> forall i: nat | i < n :: Follow(g, start.holding, i) != Some(target)
        invariant start.holding != null
                  ==> forall a | a in seen :: exists i: nat :: i < n && Follow(g, start.holding, i) == Some(a)
        invariant seen <= actors
        decreases actors - seen
      {
        if cur == target {
          assert start in g.holds && Follow(g, g.holds[start], n) == Some(target);
          return true;
        }
        NextStep(g, start.holding, n, cur);
        if cur.waiting == null {
          break;
        }
        seen := seen + {cur};
        n := n + 1;
        cur := cur.waiting.holding;
        if cur != null { NotSeenAgain(g, NonNullActor(start.holding), n, cur); }
      }
      if start.holding != null {
        NeverReached(g, start.holding, target, n);
      }
      return false;
    }

    /** HANGMAN_ACTORINIT */
    method InitActor(a: Actor)
      requires Valid() && a !in actors
      modifies this`actors, a
      ensures Valid() && actors == old(actors) + {a} && Waits() == old(Waits())
    {
      a.waiting := null;
      actors := actors + {a};
      assert Waits() == old(Waits());
    }

    /** HANGMAN_LOCKABLEINIT */
    method InitLockable(l: Lockable)
      requires Valid() && l !in lockables
      modifies this`lockables, l
      ensures Valid() && lockables == old(lockables) + {l} && Waits() == old(Waits())
    {
      l.holding := null;
      lockables := lockables + {l};
      assert Waits() == old(Waits());
    }

    method Point(a: Actor, l: Lockable)
      requires Closed() && a in actors && l in lockables
      modifies a
      ensures Closed() && Waits() == AddWait(old(Waits()), a, l)
    {
      a.waiting := l;
    }

    /** hangman_wait */
    method Wait(a: Actor, l: Lockable) returns (v: Verdict)
      requires Valid() && a in actors && l in lockables
      modifies a, this`calls
      ensures Valid()
      ensures l == ownLock ==> v == Fine && Waits() == old(Waits())
      ensures l != ownLock ==> Matches(v, old(Waits()), Step.Wait(a, l), Waits())
      ensures calls == if v == Fine && l != ownLock then old(calls) + [Step.Wait(a, l)] else old(calls)
    {
      if l == ownLock { return Fine; }
      if a.waiting != null { return Misuse; }
      ghost var g := Waits();
      var found := Check(l, a);
      if found { return DeadlockFound; }
      Point(a, l);
      OneMoreCall(calls, g, Step.Wait(a, l));
      calls := calls + [Step.Wait(a, l)];
      return Fine;
    }

    /** The two assignments of hangman_acquire. */
    method Give(a: Actor, l: Lockable)
      requires Closed() && a in actors && l in lockables
      modifies a, l
      ensures Closed() && Waits() == Grant(old(Waits()), a, l)
    {
      l.holding := a;
      a.waiting := null;
    }

    /** hangman_acquire */
    method Acquire(a: Actor, l: Lockable) returns (v: Verdict)
      requires Valid() && a in actors && l in lockables
      modifies a, l, this`calls
      ensures Valid()
      ensures l == ownLock ==> v == Fine && Waits() == old(Waits())
      ensures l != ownLock ==> Matches(v, old(Waits()), Step.Acquire(a, l), Waits())
      ensures calls == if v == Fine && l != ownLock then old(calls) + [Step.Acquire(a, l)] else old(calls)
    {
      if l == ownLock { return Fine; }
      if a.waiting != l { return Misuse; }
      if l.holding != null { return Misuse; }
      ghost var g := Waits();
      Give(a, l);
      OneMoreCall(calls, g, Step.Acquire(a, l));
      calls := calls + [Step.Acquire(a, l)];
      return Fine;
    }

    /** hangman_release */
    method Release(a: Actor, l: Lockable) returns (v: Verdict)
      requires Valid() && a in actors && l in lockables
      modifies l, this`calls
      ensures Valid()
      ensures l == ownLock ==> v == Fine && Waits() == old(Waits())
      ensures l != ownLock ==> Matches(v, old(Waits()), Step.Release(a, l), Waits())
      ensures calls == if v == Fine && l != ownLock then old(calls) + [Step.Release(a, l)] else old(calls)
    {
      if l == ownLock { return Fine; }
      if a.waiting != null { return Misuse; }
      if l.holding != a { return Misuse; }
      ghost var g := Waits();
      l.holding := null;
      assert Waits() == Drop(g, l);
      OneMoreCall(calls, g, Step.Release(a, l));
      calls := calls + [Step.Release(a, l)];
      return Fine;
    }
  }

  /** The graph is what the calls have made of an empty one, and has no cycle. */
  ghost predicate LedTo(calls: seq<Step<Actor, Lockable>>, g: Graph<Actor, Lockable>) {
    Run(Empty(), calls) == Go(g) && Acyclic(g)
  }

  lemma OneMoreCall(calls: seq<Step<Actor, Lockable>>, g: Graph<Actor, Lockable>, s: Step<Actor, Lockable>)
    requires LedTo(calls, g) && Apply(g, s).Go?
    ensures LedTo(calls + [s], Apply(g, s).g)
  {
    RunMore(Empty(), calls, s);
    StepKeepsAcyclic(g, s);
  }

  /** A call's verdict and its effect on the graph are those of the transition. */
  ghost predicate Matches(v: Verdict, g: Graph<Actor, Lockable>, s: Step<Actor, Lockable>, g': Graph<Actor, Lockable>) {
    match Apply(g, s)
    case Go(n) => v == Fine && g' == n
    case Deadlock => v == DeadlockFound && g' == g
    case Panic => v == Misuse && g' == g
  }

  lemma NextStep(g: Graph<Actor, Lockable>, h: Actor, n: nat, cur: Actor)
    requires Follow(g, h, n) == Some(cur)
    ensures Follow(g, h, n + 1) == Next(g, cur)
  {
    FollowSum(g, h, n, 1);
    match Next(g, cur) {
      case None =>
      case Some(b) => assert Follow(g, b, 0) == Some(b);
    }
  }

  lemma SeenAgainIsCycle(g: Graph<Actor, Lockable>, h: Actor, i: nat, n: nat, cur: Actor)
    requires i < n && Follow(g, h, i) == Some(cur) && Follow(g, h, n) == Some(cur)
    ensures OnCycle(g, cur, n - i)
  {
    FollowSum(g, h, i, n - i);
  }

  lemma NotSeenAgain(g: Graph<Actor, Lockable>, h: Actor, n: nat, cur: Actor)
    requires Acyclic(g) && Follow(g, h, n) == Some(cur)
    ensures forall i: nat | i < n :: Follow(g, h, i) != Some(cur)
  {
    forall i: nat | i < n
      ensures Follow(g, h, i) != Some(cur)
    {
      CycleMustWait(g, cur, n - i);
      if Follow(g, h, i) == Some(cur) { SeenAgainIsCycle(g, h, i, n, cur); }
    }
  }

  /** Past the end of a walk that met neither the target nor a successor. */
  lemma NeverReached(g: Graph<Actor, Lockable>, h: Actor, target: Actor, n: nat)
    requires forall i: nat | i < n :: Follow(g, h, i) != Some(target)
    requires Follow(g, h, n) == None || (Follow(g, h, n) != Some(target) && Follow(g, h, n + 1) == None)
    ensures forall m: nat :: Follow(g, h, m) != Some(target)
  {
    forall m: nat
      ensures Follow(g, h, m) != Some(target)
    {
      if m > n {
        if Follow(g, h, n) == None { FollowSum(g, h, n, m - n); } else { FollowSum(g, h, n + 1, m - n - 1); }
      }
    }
  }
}

// thread_consider_migration: a CPU with more than its share of ready threads hands
// some to CPUs with less. Every run queue is locked only while it is being read or
// changed, so other CPUs act in between.
module Migration {

  type Tid = nat

  /** All the threads on a sequence of queues. */
  ghost function Total(qs: seq<seq<Tid>>): multiset<Tid> {
    if qs == [] then multiset{} else multiset(qs[0]) + Total(qs[1..])
  }

  lemma {:induction false} TotalUpdate(qs: seq<seq<Tid>>, i: nat, q: seq<Tid>)
    requires i < |qs|
    ensures Total(qs[i := q]) + multiset(qs[i]) == Total(qs) + multiset(q)
  {
    if i > 0 {
      TotalUpdate(qs[1..], i - 1, q);
      assert qs[i := q][1..] == qs[1..][i - 1 := q];
      var h, a, b := multiset(qs[0]), Total(qs[1..][i - 1 := q]), multiset(qs[i]);
      assert (h + a) + b == h + (a + b);
    } else {
      assert qs[0 := q][1..] == qs[1..];
    }
  }

  lemma TotalUpdateAt(qs: seq<seq<Tid>>, i: nat, q: seq<Tid>)
    requires i < |qs|
    ensures forall t :: Total(qs[i := q])[t] + multiset(qs[i])[t] == Total(qs)[t] + multiset(q)[t]
  {
    TotalUpdate(qs, i, q);
    forall t
      ensures Total(qs[i := q])[t] + multiset(qs[i])[t] == Total(qs)[t] + multiset(q)[t]
    {
      assert (Total(qs[i := q]) + multiset(qs[i]))[t] == (Total(qs) + multiset(q))[t];
    }
  }

  /** The number of threads on the queues from i on. */
  ghost function Load(qs: seq<seq<Tid>>, i: nat): nat
    requires i <= |qs|
    decreases |qs| - i
  {
    if i == |qs| then 0 else |qs[i]| + Load(qs, i + 1)
  }

  /** How many threads the queues from i on, other than my own, lack to reach a share. */
  ghost function Room(qs: seq<seq<Tid>>, me: nat, share: nat, i: nat): nat
    requires i <= |qs|
    decreases |qs| - i
  {
    if i == |qs| then 0
    else (if i == me || |qs[i]| >= share then 0 else share - |qs[i]|) + Room(qs, me, share, i + 1)
  }

  /** The queues from i on lack at least what a full share each would add to them. */
  lemma {:induction false} RoomBound(qs: seq<seq<Tid>>, me: nat, share: nat, i: nat)
    requires i <= |qs|
    ensures Room(qs, me, share, i) + Load(qs, i)
            >= (|qs| - i) * share + if i <= me < |qs| then |qs[me]| - share else 0
    decreases |qs| - i
  {
    if i < |qs| {
      RoomBound(qs, me, share, i + 1);
      assert (|qs| - i) * share == (|qs| - (i + 1)) * share + share;
    }
  }

  function DivRoundUp(a: nat, b: nat): nat
    requires b > 0
  {
    (a + b - 1) / b
  }

  /** The share is the least that would do for all the threads. */
  lemma ShareIsLeast(total: nat, n: nat)
    requires n > 0
    ensures n * DivRoundUp(total, n) >= total && (DivRoundUp(total, n) > 0 ==> n * (DivRoundUp(total, n) - 1) < total)
  {
    var q := DivRoundUp(total, n);
    assert total + n - 1 == n * q + (total + n - 1) % n;
    assert q > 0 ==> n * (q - 1) == n * q - n;
  }

  /** When the donor gives away what it has above its share, there is room for it all. */
  lemma RoomForAll(qs: seq<seq<Tid>>, me: nat)
    requires me < |qs| && |qs[me]| >= DivRoundUp(Load(qs, 0), |qs|)
    ensures var share := DivRoundUp(Load(qs, 0), |qs|); |qs[me]| - share <= Room(qs, me, share, 0)
  {
    var n, total := |qs|, Load(qs, 0);
    var share := DivRoundUp(total, n);
    assert n * share >= total by {
      assert total + n - 1 == n * share + (total + n - 1) % n;
    }
    RoomBound(qs, me, share, 0);
  }

  /** t_cpu of t is as it was. */
  ghost predicate SameHome(h: map<Tid, nat>, h': map<Tid, nat>, t: Tid) {
    (t in h' <==> t in h) && (t in h' ==> h'[t] == h[t])
  }

  /** No thread is there twice. */
  ghost predicate Once(q: seq<Tid>) {
    forall t :: multiset(q)[t] <= 1
  }

  lemma OncePart(q: seq<Tid>, k: nat)
    requires k <= |q|
    ensures Once(q) ==> Once(q[k..])
  {
    assert q == q[..k] + q[k..];
    assert forall t :: multiset(q)[t] == multiset(q[..k])[t] + multiset(q[k..])[t];
  }

  /** Queue i has the threads in x behind its own; the others are as they were. */
  ghost predicate Longer(qs: seq<seq<Tid>>, qs': seq<seq<Tid>>, i: nat, x: seq<Tid>) {
    |qs'| == |qs| && i < |qs| && qs'[i] == qs[i] + x && forall j :: 0 <= j < |qs| && j != i ==> qs'[j] == qs[j]
  }

  lemma LongerTwice(a: seq<seq<Tid>>, b: seq<seq<Tid>>, c: seq<seq<Tid>>, i: nat, x: seq<Tid>, y: seq<Tid>)
    requires Longer(a, b, i, x) && Longer(b, c, i, y)
    ensures Longer(a, c, i, x + y)
  {
    assert (a[i] + x) + y == a[i] + (x + y);
  }

  /** The hand splits into what stays and what goes. */
  lemma HandSplits(hand: seq<Tid>, victims: seq<Tid>, sent: seq<Tid>)
    requires Once(hand) && multiset(victims) + multiset(sent) == multiset(hand)
    ensures Once(victims) && forall t | t in victims :: t in hand
    ensures forall t | t in sent :: t in hand && t !in victims
  {
    assert forall t :: multiset(hand)[t] == multiset(victims)[t] + multiset(sent)[t];
    assert forall t :: t in victims ==> t in multiset(victims);
    assert forall t :: t in sent ==> t in multiset(sent);
    forall t | t in victims || t in sent
      ensures t in hand
    {
      assert t in multiset(hand);
    }
  }

  class Cpus {
    const me: nat            // the CPU that runs the code
    const cur: Tid           // its current thread
    var queues: seq<seq<Tid>>
    var homes: map<Tid, nat> // t_cpu
    var others: seq<seq<seq<Tid>>>  // what the queues become at the unlocks to come
    ghost var lost: multiset<Tid>   // what was ready before, and after, others acted
    ghost var gained: multiset<Tid>

    constructor (me: nat, cur: Tid, queues: seq<seq<Tid>>, homes: map<Tid, nat>, others: seq<seq<seq<Tid>>>)
      requires me < |queues|
      ensures this.me == me && this.cur == cur && this.queues == queues && this.homes == homes && this.others == others
      ensures lost == gained
    {
      this.me, this.cur, this.queues, this.homes, this.others := me, cur, queues, homes, others;
      lost, gained := multiset{}, multiset{};
    }

    ghost predicate Valid()
      reads this
    {
      me < |queues|
    }

    /** How many times t is ready, in hand or on a queue, less what others changed. */
    ghost function Ready(hand: seq<Tid>, t: Tid): int
      reads this
    {
      Total(queues)[t] as int + multiset(hand)[t] as int + lost[t] as int - gained[t] as int
    }

    /** A run queue lock is given up and other CPUs may act: they can change their own
        queues as they like, but to mine they only add at the tail. */
    method Unlock()
      requires Valid()
      modifies this`queues, this`others, this`lost, this`gained
      ensures Valid() && |queues| == |old(queues)| && old(queues)[me] <= queues[me]
      ensures forall hand, t :: Ready(hand, t) == old(Ready(hand, t))
      ensures old(others) == [] ==> unchanged(this)
    {
      if others != [] {
        var next := others[0];
        others := others[1..];
        if |next| == |queues| && queues[me] <= next[me] {
          lost, gained := lost + Total(queues), gained + Total(next);
          queues := next;
        }
      }
    }

    /** The first loop: my own count, and the total, as seen queue by queue. */
    method Measure() returns (mine: nat, total: nat)
      requires Valid()
      modifies this`queues, this`others, this`lost, this`gained
      ensures Valid() && |queues| == |old(queues)| && mine <= |queues[me]|
      ensures forall t :: Ready([], t) == old(Ready([], t))
      ensures old(others) == [] ==> unchanged(this) && mine == |queues[me]| && total == Load(queues, 0)
    {
      mine, total := 0, 0;
      for i := 0 to |queues|
        invariant Valid() && |queues| == |old(queues)|
        invariant i <= me ==> mine == 0
        invariant mine <= |queues[me]|
        invariant forall t :: Ready([], t) == old(Ready([], t))
        invariant old(others) == [] ==> unchanged(this) && total + Load(queues, i) == Load(queues, 0)
        invariant old(others) == [] && i > me ==> mine == |queues[me]|
      {
        total := total + |queues[i]|;
        if i == me { mine := |queues[i]|; }
        Unlock();
      }
    }

    /** The second loop: threads leave my queue from the tail, keeping their order. */
    method Take(k: nat) returns (victims: seq<Tid>)
      requires Valid() && k <= |queues[me]|
      modifies this`queues
      ensures queues == old(queues)[me := old(queues)[me][..|old(queues)[me]| - k]]
      ensures victims == old(queues)[me][|old(queues)[me]| - k..]
      ensures forall t :: Ready(victims, t) == old(Ready([], t))
    {
      ghost var q := queues[me];
      victims := [];
      assert q[..|q|] == q && queues == queues[me := q];
      for i := 0 to k
        invariant |queues| == |old(queues)| && queues == old(queues)[me := q[..|q| - i]]
        invariant victims == q[|q| - i..]
      {
        var t := queues[me][|queues[me]| - 1];
        queues := queues[me := queues[me][..|queues[me]| - 1]];
        victims := [t] + victims;
        assert queues[me] == q[..|q| - (i + 1)];
      }
      TotalUpdateAt(old(queues), me, q[..|q| - k]);
      assert q == q[..|q| - k] + victims;
    }

    /** One turn of that: the first victim goes to CPU i, or behind the others if it is the
        current thread. */
    method FillOne(i: nat, hand: seq<Tid>) returns (victims: seq<Tid>, ghost moved: seq<Tid>)
      requires Valid() && i < |queues| && hand != []
      modifies this`queues, this`homes
      ensures Longer(old(queues), queues, i, moved) && multiset(victims) + multiset(moved) == multiset(hand)
      ensures if hand[0] == cur then moved == [] && victims == hand[1..] + [cur] && homes == old(homes)
              else moved == [hand[0]] && victims == hand[1..] && homes == old(homes)[hand[0] := i]
    {
      var t := hand[0];
      assert hand == [t] + hand[1..];
      if t == cur {
        return hand[1..] + [t], [];
      }
      homes := homes[t := i];
      queues := queues[i := queues[i] + [t]];
      return hand[1..], [t];
    }

    /** Where the inner loop stands: what is in hand and what was sent make up the first
        hand, and t_cpu says what was sent. */
    ghost predicate Filling(i: nat, hand: seq<Tid>, want: nat, h0: map<Tid, nat>,
                            victims: seq<Tid>, toSend: nat, sent: seq<Tid>, h: map<Tid, nat>) {
      && toSend + |sent| <= want && toSend <= |victims| && (forall k :: toSend <= k < |victims| ==> victims[k] == cur)
      && multiset(victims) + multiset(sent) == multiset(hand) && cur !in sent
      && (forall t | t in sent :: t in h && h[t] == i) && forall t | t !in sent :: SameHome(h0, h, t)
    }

    lemma FillingStep(i: nat, hand: seq<Tid>, want: nat, h0: map<Tid, nat>, v: seq<Tid>, n: nat, sent: seq<Tid>,
                      h: map<Tid, nat>, v': seq<Tid>, moved: seq<Tid>, h': map<Tid, nat>)
      requires Filling(i, hand, want, h0, v, n, sent, h) && n > 0 && multiset(v') + multiset(moved) == multiset(v)
      requires if v[0] == cur then moved == [] && v' == v[1..] + [cur] && h' == h
               else moved == [v[0]] && v' == v[1..] && h' == h[v[0] := i]
      ensures Filling(i, hand, want, h0, v', n - 1, sent + moved, h')
    {
      assert multiset(sent + moved) == multiset(sent) + multiset(moved);
      forall t | t !in sent + moved
        ensures SameHome(h0, h', t)
      {
        assert SameHome(h0, h, t);
      }
    }

    /** The inner loop of the third: CPU i takes victims until it has its share. The
        first toSend victims are still to be placed; the rest are the current thread,
        set aside. */
    method Fill(i: nat, share: nat, hand: seq<Tid>, want: nat)
      returns (victims: seq<Tid>, toSend: nat, ghost sent: seq<Tid>)
      requires Valid() && i < |queues| && i != me
      requires want <= |hand| && forall k :: want <= k < |hand| ==> hand[k] == cur
      modifies this`queues, this`homes
      ensures Longer(old(queues), queues, i, sent)
      ensures Filling(i, hand, want, old(homes), victims, toSend, sent, homes)
      ensures |queues[i]| <= share || sent == []
      ensures toSend > 0 ==> |queues[i]| >= share
    {
      victims, toSend, sent := hand, want, [];
      ghost var qs := queues;
      assert Longer(qs, queues, i, sent);
      while |queues[i]| < share && toSend > 0
        invariant |queues| == |qs| && Longer(qs, queues, i, sent)
        invariant Filling(i, hand, want, old(homes), victims, toSend, sent, homes)
        invariant |queues[i]| <= share || sent == []
        decreases toSend
      {
        ghost var held, h, q0, moved := victims, homes, queues, [];
        victims, moved := FillOne(i, victims);
        FillingStep(i, hand, want, old(homes), held, toSend, sent, h, victims, moved, homes);
        LongerTwice(qs, q0, queues, i, sent, moved);
        sent := sent + moved;
        toSend := toSend - 1;
      }
    }

    /** One turn of the third loop: CPU i's queue is locked, filled and unlocked. */
    method FillNext(i: nat, share: nat, hand: seq<Tid>, want: nat) returns (victims: seq<Tid>, toSend: nat)
      requires Valid() && i < |queues| && i != me
      requires want <= |hand| && forall k :: want <= k < |hand| ==> hand[k] == cur
      modifies this`queues, this`homes, this`others, this`lost, this`gained
      ensures Valid() && |queues| == |old(queues)| && old(queues)[me] <= queues[me]
      ensures toSend <= want && toSend <= |victims| && forall k :: toSend <= k < |victims| ==> victims[k] == cur
      ensures forall t :: Ready(victims, t) == old(Ready(hand, t))
      ensures multiset(victims)[cur] == multiset(hand)[cur]
      ensures SameHome(old(homes), homes, cur)
      ensures old(others) == [] ==>
        && others == [] && queues == old(queues)[i := queues[i]]
        && old(queues)[i] <= queues[i] && (queues[i] == old(queues)[i] || |queues[i]| <= share)
        && cur !in queues[i][|old(queues)[i]|..]
        && (toSend > 0 ==> |queues[i]| >= share && toSend + |queues[i]| - |old(queues)[i]| <= want)
      ensures old(others) == [] ==>
        old(queues)[i] <= queues[i] && Moved(i, queues[i][|old(queues)[i]|..], old(homes), homes, hand, victims)
      ensures forall t :: SameHome(old(homes), homes, t) || (t in homes && homes[t] == i && t != cur)
    {
      ghost var before, sent := queues, [];
      victims, toSend, sent := Fill(i, share, hand, want);
      assert multiset(hand)[cur] == multiset(victims)[cur] + multiset(sent)[cur];
      assert queues == before[i := before[i] + sent];
      FillCounts(before, i, hand, victims, sent);
      assert queues[i][|before[i]|..] == sent;
      assert Moved(i, sent, old(homes), homes, hand, victims);
      Unlock();
    }

    /** The third loop: each other CPU in turn takes what brings it up to its share. */
    method Spread(share: nat, hand: seq<Tid>, want: nat) returns (victims: seq<Tid>)
      requires Valid() && want == |hand|
      modifies this`queues, this`homes, this`others, this`lost, this`gained
      ensures Valid() && |queues| == |old(queues)| && old(queues)[me] <= queues[me]
      ensures forall t :: Ready(victims, t) == old(Ready(hand, t))
      ensures multiset(victims)[cur] == multiset(hand)[cur]
      ensures SameHome(old(homes), homes, cur)
      ensures old(others) == [] ==> others == [] && Received(old(queues), queues, share)
                                    && queues[me] == old(queues)[me]
      ensures old(others) == [] && want <= Room(old(queues), me, share, 0)
              ==> forall k :: 0 <= k < |victims| ==> victims[k] == cur
      ensures old(others) == [] && Once(hand) ==> Homed(old(queues), queues, old(homes), homes, victims)
      ensures forall t :: SameHome(old(homes), homes, t) || Elsewhere(homes, |queues|, t)
    {
      ghost var qs := queues;
      victims := hand;
      var toSend: nat := want;
      var i := 0;
      while i < |queues| && toSend > 0
        invariant Valid() && |queues| == |qs| && 0 <= i <= |queues| && qs[me] <= queues[me]
        invariant toSend <= |victims| && forall k :: toSend <= k < |victims| ==> victims[k] == cur
        invariant forall t :: Ready(victims, t) == old(Ready(hand, t))
        invariant multiset(victims)[cur] == multiset(hand)[cur]
        invariant SameHome(old(homes), homes, cur)
        invariant old(others) == [] ==> others == [] && Received(qs, queues, share) && queues[me] == qs[me]
        invariant old(others) == [] ==> forall j :: i <= j < |qs| ==> queues[j] == qs[j]
        invariant old(others) == [] && want <= Room(qs, me, share, 0) ==> toSend <= Room(qs, me, share, i)
        invariant old(others) == [] && Once(hand) ==> Once(victims) && Homed(qs, queues, old(homes), homes, victims)
        invariant forall t :: SameHome(old(homes), homes, t) || Elsewhere(homes, |queues|, t)
        decreases |queues| - i
      {
        if i != me {
          ghost var q0, h0, held := queues, homes, victims;
          victims, toSend := FillNext(i, share, victims, toSend);
          if old(others) == [] && Once(hand) {
            HomedStep(qs, q0, queues, i, old(homes), h0, homes, held, victims);
          }
          forall t
            ensures SameHome(old(homes), homes, t) || Elsewhere(homes, |queues|, t)
          {
            assert SameHome(old(homes), h0, t) || Elsewhere(h0, |queues|, t);
          }
        }
        i := i + 1;
      }
    }

    /** Filling one queue only moves threads from the hand to it. */
    ghost method FillCounts(before: seq<seq<Tid>>, i: nat, held: seq<Tid>, victims: seq<Tid>, sent: seq<Tid>)
      requires i < |before| && queues == before[i := before[i] + sent]
      requires multiset(victims) + multiset(sent) == multiset(held)
      ensures forall t :: Total(queues)[t] + multiset(victims)[t] == Total(before)[t] + multiset(held)[t]
    {
      TotalUpdateAt(before, i, before[i] + sent);
      forall t
        ensures Total(queues)[t] + multiset(victims)[t] == Total(before)[t] + multiset(held)[t]
      {
        assert (multiset(victims) + multiset(sent))[t] == multiset(held)[t];
      }
    }

    /** Each other CPU keeps its threads, in order, gains none that is my current
        thread, and is not raised above the share. */
    ghost predicate Received(qs: seq<seq<Tid>>, qs': seq<seq<Tid>>, share: nat) {
      && |qs'| == |qs|
      && forall i :: 0 <= i < |qs| && i != me ==>
           && qs[i] <= qs'[i] && (qs'[i] == qs[i] || |qs'[i]| <= share)
           && cur !in qs'[i][|qs[i]|..]
    }

    /** The threads in sent go from the hand to CPU i, and t_cpu says so. */
    ghost predicate Moved(i: nat, sent: seq<Tid>, h: map<Tid, nat>, h': map<Tid, nat>,
                          hand: seq<Tid>, victims: seq<Tid>) {
      && multiset(victims) + multiset(sent) == multiset(hand)
      && (forall t | t in sent :: t in h' && h'[t] == i)
      && forall t | t !in sent :: SameHome(h, h', t)
    }

    ghost predicate Elsewhere(h: map<Tid, nat>, n: nat, t: Tid) {
      t in h && h[t] < n && h[t] != me && t != cur
    }

    /** What CPU j has gained. */
    ghost function Gained(qs: seq<seq<Tid>>, qs': seq<seq<Tid>>, j: nat): seq<Tid> {
      if j < |qs| && j < |qs'| && |qs[j]| <= |qs'[j]| then qs'[j][|qs[j]|..] else []
    }

    /** Every thread that another CPU has gained belongs to that CPU, and is no longer in
        hand; every other thread belongs where it did. */
    ghost predicate Homed(qs: seq<seq<Tid>>, qs': seq<seq<Tid>>, h: map<Tid, nat>, h': map<Tid, nat>, hand: seq<Tid>) {
      && (forall j :: 0 <= j < |qs| && j != me ==> BelongTo(j, Gained(qs, qs', j), h', hand))
      && forall t | !Somewhere(qs, qs', t) :: SameHome(h, h', t)
    }

    ghost predicate BelongTo(j: nat, q: seq<Tid>, h: map<Tid, nat>, hand: seq<Tid>) {
      forall t | t in q :: t in h && h[t] == j && t !in hand
    }

    lemma StillBelong(j: nat, q: seq<Tid>, i: nat, sent: seq<Tid>, h: map<Tid, nat>, h': map<Tid, nat>,
                      hand: seq<Tid>, victims: seq<Tid>)
      requires BelongTo(j, q, h, hand) && Once(hand) && Moved(i, sent, h, h', hand, victims)
      ensures BelongTo(j, q, h', victims) && BelongTo(i, sent, h', victims)
    {
      HandSplits(hand, victims, sent);
      forall t | t in q
        ensures t in h' && h'[t] == j && t !in victims
      {
        assert t !in sent && SameHome(h, h', t);
      }
    }

    ghost predicate Somewhere(qs: seq<seq<Tid>>, qs': seq<seq<Tid>>, t: Tid) {
      exists j :: 0 <= j < |qs| && j != me && t in Gained(qs, qs', j)
    }

    lemma HomedStep(qs: seq<seq<Tid>>, q0: seq<seq<Tid>>, q1: seq<seq<Tid>>, i: nat,
                    h: map<Tid, nat>, h0: map<Tid, nat>, h1: map<Tid, nat>, hand: seq<Tid>, victims: seq<Tid>)
      requires |q0| == |q1| == |qs| && i < |qs| && i != me && q0[i] == qs[i] && q1 == q0[i := q1[i]] && qs[i] <= q1[i]
      requires Homed(qs, q0, h, h0, hand) && Once(hand) && Moved(i, q1[i][|qs[i]|..], h0, h1, hand, victims)
      ensures Homed(qs, q1, h, h1, victims) && Once(victims)
    {
      var sent := q1[i][|qs[i]|..];
      assert Gained(qs, q1, i) == sent && Gained(qs, q0, i) == [];
      HandSplits(hand, victims, sent);
      forall j | 0 <= j < |qs| && j != me
        ensures BelongTo(j, Gained(qs, q1, j), h1, victims)
      {
        StillBelong(j, Gained(qs, q0, j), i, sent, h0, h1, hand, victims);
        assert j != i ==> Gained(qs, q1, j) == Gained(qs, q0, j);
      }
      forall t | !Somewhere(qs, q1, t)
        ensures SameHome(h, h1, t)
      {
        StaysOut(qs, q0, q1, i, t);
        assert SameHome(h, h0, t) && SameHome(h0, h1, t);
      }
    }

    lemma StaysOut(qs: seq<seq<Tid>>, q0: seq<seq<Tid>>, q1: seq<seq<Tid>>, i: nat, t: Tid)
      requires |q0| == |q1| == |qs| && i < |qs| && i != me && q0[i] == qs[i] && q1 == q0[i := q1[i]] && qs[i] <= q1[i]
      requires !Somewhere(qs, q1, t)
      ensures !Somewhere(qs, q0, t) && t !in q1[i][|qs[i]|..]
    {
      assert Gained(qs, q1, i) == q1[i][|qs[i]|..] && Gained(qs, q0, i) == [];
      forall j | 0 <= j < |qs| && j != me
        ensures t !in Gained(qs, q0, j)
      {
        assert t !in Gained(qs, q1, j);
      }
    }

    /** The end: what is left goes back on my own queue. */
    method PutBack(victims: seq<Tid>)
      requires Valid()
      modifies this`queues, this`others, this`lost, this`gained
      ensures Valid() && |queues| == |old(queues)|
      ensures forall t :: Ready([], t) == old(Ready(victims, t))
      ensures old(others) == [] ==> queues == old(queues)[me := old(queues)[me] + victims]
    {
      if victims == [] {
        assert queues[me] + victims == queues[me];
        return;
      }
      TotalUpdateAt(queues, me, queues[me] + victims);
      queues := queues[me := queues[me] + victims];
      Unlock();
    }

    /** The donor keeps its share and, after it, the current thread if that was among
        the victims; everyone else is as Received says. */
    ghost predicate Evened(qs: seq<seq<Tid>>, qs': seq<seq<Tid>>, share: nat)
      requires me < |qs| && share <= |qs[me]|
    {
      && Received(qs, qs', share)
      && |qs'[me]| == share + multiset(qs[me][share..])[cur]
      && qs'[me][..share] == qs[me][..share]
      && forall k :: share <= k < |qs'[me]| ==> qs'[me][k] == cur
    }

    lemma HomedSame(qs: seq<seq<Tid>>, q0: seq<seq<Tid>>, q1: seq<seq<Tid>>, q2: seq<seq<Tid>>,
                    h: map<Tid, nat>, h': map<Tid, nat>, hand: seq<Tid>)
      requires |q0| == |q1| == |q2| == |qs| && Homed(q0, q1, h, h', hand)
      requires forall j :: 0 <= j < |qs| && j != me ==> q0[j] == qs[j] && q2[j] == q1[j]
      ensures Homed(qs, q2, h, h', [])
    {
      forall j | 0 <= j < |qs| && j != me
        ensures BelongTo(j, Gained(qs, q2, j), h', [])
      {
        assert Gained(qs, q2, j) == Gained(q0, q1, j) && BelongTo(j, Gained(q0, q1, j), h', hand);
      }
      forall t | !Somewhere(qs, q2, t)
        ensures SameHome(h, h', t)
      {
        forall j | 0 <= j < |qs| && j != me
          ensures t !in Gained(q0, q1, j)
        {
          assert t !in Gained(qs, q2, j);
        }
        assert !Somewhere(q0, q1, t);
      }
    }

    /** From taking the victims to putting the last of them back. */
    method Migrate(share: nat, mine: nat)
      requires Valid() && share <= mine <= |queues[me]|
      modifies this`queues, this`homes, this`others, this`lost, this`gained
      ensures Valid() && |queues| == |old(queues)|
      ensures forall t :: Ready([], t) == old(Ready([], t))
      ensures SameHome(old(homes), homes, cur)
      ensures old(others) == [] && mine == |old(queues)[me]| && mine - share <= Room(old(queues), me, share, 0)
              ==> Evened(old(queues), queues, share)
      ensures old(others) == [] && Once(old(queues)[me]) ==> Homed(old(queues), queues, old(homes), homes, [])
      ensures forall t :: SameHome(old(homes), homes, t) || Elsewhere(homes, |queues|, t)
    {
      ghost var qs := queues;
      var victims := Take(mine - share);
      ghost var q0 := queues;
      RoomWithoutMine(qs, queues, me, share, 0);
      ghost var hand := victims;
      Unlock();
      OncePart(qs[me], |qs[me]| - (mine - share));
      victims := Spread(share, victims, mine - share);
      ghost var q1 := queues;
      PutBack(victims);
      if old(others) == [] && Once(qs[me]) {
        HomedSame(qs, q0, q1, queues, old(homes), homes, victims);
      }
      if old(others) == [] && mine == |qs[me]| && mine - share <= Room(qs, me, share, 0) {
        AllSame(victims, cur);
      }
    }

    /** thread_consider_migration. In every case each thread ready before is ready
        after, and the current thread keeps its CPU. If no other CPU acts meanwhile,
        all victims but the current thread are placed. */
    method ConsiderMigration()
      requires Valid()
      modifies this`queues, this`homes, this`others, this`lost, this`gained
      ensures Valid() && |queues| == |old(queues)|
      ensures forall t :: Ready([], t) == old(Ready([], t))
      ensures SameHome(old(homes), homes, cur)
      ensures old(others) == [] ==>
        var qs := old(queues);
        var share := DivRoundUp(Load(qs, 0), |qs|);
        if |qs[me]| < share then queues == qs else Evened(qs, queues, share)
      ensures old(others) == [] && Once(old(queues)[me]) ==> Homed(old(queues), queues, old(homes), homes, [])
      ensures forall t :: SameHome(old(homes), homes, t) || Elsewhere(homes, |queues|, t)
    {
      var mine, total := Measure();
      var share := DivRoundUp(total, |queues|);
      if mine < share {
        return;
      }
      if old(others) == [] {
        RoomForAll(queues, me);
      }
      Migrate(share, mine);
    }
  }

  lemma {:induction false} AllSame(q: seq<Tid>, x: Tid)
    requires forall k :: 0 <= k < |q| ==> q[k] == x
    ensures multiset(q)[x] == |q|
  {
    if q != [] {
      AllSame(q[1..], x);
      assert q == [q[0]] + q[1..];
    }
  }

  lemma {:induction false} RoomWithoutMine(qs: seq<seq<Tid>>, qs': seq<seq<Tid>>, me: nat, share: nat, i: nat)
    requires i <= |qs| == |qs'| && forall j :: 0 <= j < |qs| && j != me ==> qs'[j] == qs[j]
    ensures Room(qs', me, share, i) == Room(qs, me, share, i)
    decreases |qs| - i
  {
    if i < |qs| { RoomWithoutMine(qs, qs', me, share, i + 1); }
  }
}

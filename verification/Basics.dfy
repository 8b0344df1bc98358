// Notions that several modules share.
module Basics {

  datatype Option<+T> = None | Some(value: T)

  ghost predicate Distinct<T>(s: seq<T>) {
    forall i, j :: 0 <= i < j < |s| ==> s[i] != s[j]
  }

  function Members(s: seq<nat>): set<nat> {
    set x | x in s
  }

  lemma {:induction false} DistinctSize(s: seq<nat>)
    requires Distinct(s)
    ensures |Members(s)| == |s|
  {
    if s != [] {
      DistinctSize(s[1..]);
      assert s[0] !in Members(s[1..]) && s == [s[0]] + s[1..];
      assert Members(s) == Members(s[1..]) + {s[0]};
    }
  }

  /** One more step of a queue: what was there and came is what went and is there. */
  lemma Regroup<T>(a: seq<T>, b: seq<T>, c: seq<T>, d: seq<T>, e: seq<T>, f: seq<T>, g: seq<T>)
    requires a + b == d + e && e + c == f + g
    ensures a + (b + c) == (d + f) + g
  {
    assert a + (b + c) == (a + b) + c == d + (e + c);
  }

  /** From one place on, memory holds one string and no other: s and t end at their first
      nul, and agree as far as both go. */
  lemma OneString<T>(s: seq<T>, t: seq<T>, nul: T)
    requires nul !in s && nul !in t
    requires forall i :: 0 <= i <= |s| && i <= |t| ==> (s + [nul])[i] == (t + [nul])[i]
    ensures s == t
  {
    var i := if |s| < |t| then |s| else |t|;
    assert (s + [nul])[i] == (t + [nul])[i];
    assert |s| == |t| && forall j :: 0 <= j < |s| ==> s[j] == (s + [nul])[j] == (t + [nul])[j] == t[j];
  }
}

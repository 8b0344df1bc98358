// Steps D4 and D6: multiply and subtract, and add back, digit by digit in place.
module QColumns {
  import opened Words
  import opened Arith
  import opened QEstimate

  /** One borrow step of D4, as 32-bit arithmetic computes it. */
  lemma BorrowStep(u: Digit, prod: nat, t: Digit)
    requires prod <= 0xfffe_0001
    ensures var x := U32(u - prod - t);
            LHalf(x) + prod + t == u + ((0x1_0000 - HHalf(x)) % 0x1_0000) * 0x1_0000
  {
    var y := u - prod - t;
    var x := U32(y);
    assert x == if y < 0 then y + 0x1_0000_0000 else y;
  }

  /** A digit column equation joined to the equation of the columns below it. */
  lemma ColumnSub(P: nat, d': nat, d: nat, q: nat, v: nat, t: nat, t': nat, s': nat, s: nat, vs: nat)
    requires d' + v * q + t == d + t' * 0x1_0000
    requires s' + q * vs == s + t * P
    ensures (d' * P + s') + q * (v * P + vs) == (d * P + s) + t' * (0x1_0000 * P)
  {
    Distr(d' + v * q, t, P);
    Distr(d', v * q, P);
    Distr(d, t' * 0x1_0000, P);
    Assoc(t', 0x1_0000, P);
    Comm(q, v * P + vs);
    Distr(v * P, vs, q);
    Comm(v * P, q);
    Assoc(q, v, P);
    Comm(q, v);
    Comm(vs, q);
  }

  lemma ColumnAdd(P: nat, d': nat, d: nat, v: nat, t: nat, t': nat, s': nat, s: nat, vs: nat)
    requires d' + t' * 0x1_0000 == t + d + v
    requires s' + t * P == s + vs
    ensures (d' * P + s') + t' * (0x1_0000 * P) == (d * P + s) + (v * P + vs)
  {
    Distr(d', t' * 0x1_0000, P);
    Assoc(t', 0x1_0000, P);
    Distr(t + d, v, P);
    Distr(t, d, P);
  }

  lemma Headed(s: seq<nat>, k: nat)
    requires k < |s|
    ensures Val(s[k..]) == s[k] * Pow(|s| - k - 1) + Val(s[k + 1..])
  {
    assert s[k..] == [s[k]] + s[k + 1..];
    ValCons(s[k], s[k + 1..]);
  }

  /** The columns s are us minus q times vs, owing the borrow t to the column above. */
  ghost predicate Subtracted(us: seq<nat>, vs: seq<nat>, q: nat, s: seq<nat>, t: nat) {
    |us| == |vs| == |s| && Val(s) + q * Val(vs) == Val(us) + t * Pow(|us|)
  }

  lemma SubtractColumn(us: seq<nat>, vs: seq<nat>, k: nat, q: nat, s: seq<nat>, d: nat, t: nat, t': nat)
    requires k < |us| == |vs|
    requires Subtracted(us[k + 1..], vs[k + 1..], q, s, t)
    requires d + vs[k] * q + t == us[k] + t' * 0x1_0000
    ensures Subtracted(us[k..], vs[k..], q, [d] + s, t')
  {
    ColumnSub(Pow(|s|), d, us[k], q, vs[k], t, t', Val(s), Val(us[k + 1..]), Val(vs[k + 1..]));
    Headed(us, k);
    Headed(vs, k);
    ValCons(d, s);
  }

  /** The columns s are us plus vs, passing the carry t to the column above. */
  ghost predicate Added(us: seq<nat>, vs: seq<nat>, s: seq<nat>, t: nat) {
    |us| == |vs| == |s| && Val(s) + t * Pow(|us|) == Val(us) + Val(vs)
  }

  lemma AddColumn(us: seq<nat>, vs: seq<nat>, k: nat, s: seq<nat>, d: nat, t: nat, t': nat)
    requires k < |us| == |vs|
    requires Added(us[k + 1..], vs[k + 1..], s, t)
    requires d + t' * 0x1_0000 == t + us[k] + vs[k]
    ensures Added(us[k..], vs[k..], [d] + s, t')
  {
    ColumnAdd(Pow(|s|), d, us[k], vs[k], t, t', Val(s), Val(us[k + 1..]), Val(vs[k + 1..]));
    Headed(us, k);
    Headed(vs, k);
    ValCons(d, s);
  }

  lemma BorrowDigit(u: Digit, v: Digit, q: nat, t: Digit)
    requires q < 0x1_0000
    ensures var x := U32(u as int - U32(v * q) - t);
            LHalf(x) + v * q + t == u + ((0x1_0000 - HHalf(x)) % 0x1_0000) * 0x1_0000
  {
    ProductFits(v, q);
    BorrowStep(u, v * q, t);
  }

  lemma TopBorrowDigit(u: Digit, t: Digit)
    ensures var x := U32(u as int - t);
            LHalf(x) + t == u + (if HHalf(x) != 0 then 1 else 0) * 0x1_0000
  {}

  lemma CarryDigit(u: Digit, v: Digit, t: nat)
    requires t <= 1
    ensures var x := U32(t + u as int + v);
            HHalf(x) <= 1 && LHalf(x) + HHalf(x) * 0x1_0000 == t + u + v
  {}

  lemma Splice(a: seq<Digit>, k: nat, s: seq<Digit>, right: seq<Digit>, d: Digit)
    requires k < |a|
    ensures (a[..k + 1] + s + right)[k := d] == a[..k] + ([d] + s) + right
  {}

  /** The column loop of step D4, over v[vo+1..vo+n]. */
  method MulSubColumns(u: array<Digit>, uj: nat, v: array<Digit>, vo: nat, n: nat, qhat: Word)
    returns (t: Digit, ghost s: seq<Digit>)
    requires u != v && uj + n < u.Length && vo + n < v.Length
    requires qhat < 0x1_0000
    modifies u
    ensures |s| == n && u[..] == old(u[..uj + 1]) + s + old(u[uj + n + 1..])
    ensures Subtracted(old(u[uj..uj + n + 1])[1..], v[vo + 1..vo + n + 1], qhat, s, t)
  {
    t := 0;
    var i := n;
    ghost var orig := u[..];
    ghost var us, vs := orig[uj..uj + n + 1], [0] + v[vo + 1..vo + n + 1];
    s := [];
    while i > 0
      invariant 0 <= i <= n && |s| == n - i
      invariant u[..] == orig[..uj + i + 1] + s + orig[uj + n + 1..]
      invariant Subtracted(us[i + 1..], vs[i + 1..], qhat, s, t)
    {
      assert u[uj + i] == us[i];
      BorrowDigit(u[uj + i], v[vo + i], qhat, t);
      var x := U32(u[uj + i] as int - U32(v[vo + i] * qhat) - t);
      var d: Digit := LHalf(x);
      SubtractColumn(us, vs, i, qhat, s, d, t, (0x1_0000 - HHalf(x)) % 0x1_0000);
      Splice(orig, uj + i, s, orig[uj + n + 1..], d);
      u[uj + i] := d;
      s := [d] + s;
      t := (0x1_0000 - HHalf(x)) % 0x1_0000;
      i := i - 1;
    }
    assert vs[1..] == v[vo + 1..vo + n + 1];
  }

  /** Step D4: subtract qhat times v[vo+1..vo+n] from the window u[uj..uj+n]. */
  method MulSub(u: array<Digit>, uj: nat, v: array<Digit>, vo: nat, n: nat, qhat: Word)
    returns (borrow: bool, ghost s: seq<Digit>)
    requires u != v && uj + n < u.Length && vo + n < v.Length
    requires qhat < 0x1_0000
    modifies u
    ensures |s| == n + 1 && u[..] == old(u[..uj]) + s + old(u[uj + n + 1..])
    ensures Subtracted(old(u[uj..uj + n + 1]), [0] + v[vo + 1..vo + n + 1], qhat, s, if borrow then 1 else 0)
  {
    ghost var orig, us, vs := u[..], u[uj..uj + n + 1], v[vo + 1..vo + n + 1];
    var t;
    t, s := MulSubColumns(u, uj, v, vo, n, qhat);
    assert u[uj] == us[0];
    TopBorrowDigit(u[uj], t);
    var x := U32(u[uj] as int - t);
    var d: Digit := LHalf(x);
    borrow := HHalf(x) != 0;
    SubtractTop(us, vs, qhat, s, d, t, if borrow then 1 else 0);
    Splice(orig, uj, s, orig[uj + n + 1..], d);
    u[uj] := d;
    s := [d] + s;
  }

  lemma SubtractTop(us: seq<nat>, vs: seq<nat>, q: nat, s: seq<nat>, d: nat, t: nat, b: nat)
    requires us != [] && Subtracted(us[1..], vs, q, s, t)
    requires d + t == us[0] + b * 0x1_0000
    ensures Subtracted(us, [0] + vs, q, [d] + s, b)
  {
    var zs := [0] + vs;
    assert zs[1..] == vs && us[0..] == us && zs[0..] == zs;
    SubtractColumn(us, zs, 0, q, s, d, t, b);
  }

  /** The column loop of step D6. */
  method AddColumns(u: array<Digit>, uj: nat, v: array<Digit>, vo: nat, n: nat)
    returns (t: Digit, ghost s: seq<Digit>)
    requires u != v && uj + n < u.Length && vo + n < v.Length
    modifies u
    ensures |s| == n && u[..] == old(u[..uj + 1]) + s + old(u[uj + n + 1..])
    ensures t <= 1
    ensures Added(old(u[uj..uj + n + 1])[1..], v[vo + 1..vo + n + 1], s, t)
  {
    t := 0;
    var i := n;
    ghost var orig := u[..];
    ghost var us, vs := orig[uj..uj + n + 1], [0] + v[vo + 1..vo + n + 1];
    s := [];
    while i > 0
      invariant 0 <= i <= n && t <= 1 && |s| == n - i
      invariant u[..] == orig[..uj + i + 1] + s + orig[uj + n + 1..]
      invariant Added(us[i + 1..], vs[i + 1..], s, t)
    {
      assert u[uj + i] == us[i];
      CarryDigit(u[uj + i], v[vo + i], t);
      var x := U32(t + u[uj + i] as int + v[vo + i]);
      var d: Digit := LHalf(x);
      AddColumn(us, vs, i, s, d, t, HHalf(x));
      Splice(orig, uj + i, s, orig[uj + n + 1..], d);
      u[uj + i] := d;
      s := [d] + s;
      t := HHalf(x);
      i := i - 1;
    }
    assert vs[1..] == v[vo + 1..vo + n + 1];
  }

  /** Step D6: add v[vo+1..vo+n] back into the window u[uj..uj+n]. */
  method AddBack(u: array<Digit>, uj: nat, v: array<Digit>, vo: nat, n: nat)
    returns (ghost carry: nat, ghost s: seq<Digit>)
    requires u != v && uj + n < u.Length && vo + n < v.Length
    modifies u
    ensures |s| == n + 1 && u[..] == old(u[..uj]) + s + old(u[uj + n + 1..])
    ensures carry <= 1
    ensures Added(old(u[uj..uj + n + 1]), [0] + v[vo + 1..vo + n + 1], s, carry)
  {
    ghost var orig, us, vs := u[..], u[uj..uj + n + 1], v[vo + 1..vo + n + 1];
    var t;
    t, s := AddColumns(u, uj, v, vo, n);
    assert u[uj] == us[0];
    CarryDigit(u[uj], 0, t);
    var x := U32(u[uj] as int + t);
    var d: Digit := LHalf(x);
    carry := HHalf(x);
    AddTop(us, vs, s, d, t, carry);
    Splice(orig, uj, s, orig[uj + n + 1..], d);
    u[uj] := d;
    s := [d] + s;
  }

  lemma AddTop(us: seq<nat>, vs: seq<nat>, s: seq<nat>, d: nat, t: nat, c: nat)
    requires us != [] && Added(us[1..], vs, s, t)
    requires d + c * 0x1_0000 == t + us[0]
    ensures Added(us, [0] + vs, [d] + s, c)
  {
    var zs := [0] + vs;
    assert zs[1..] == vs && us[0..] == us && zs[0..] == zs;
    AddColumn(us, zs, 0, s, d, t, c);
  }
}

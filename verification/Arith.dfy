// Multiplication and division facts, one product at a time.
module Arith {

  function Abs(x: int): nat {
    if x < 0 then -x else x
  }

  function Min(a: nat, b: nat): nat {
    if a < b then a else b
  }

  lemma Distr(a: int, b: int, c: int)
    ensures (a + b) * c == a * c + b * c
  {}

  lemma DistrSub(a: int, b: int, c: int)
    ensures (a - b) * c == a * c - b * c
  {}

  lemma Assoc(a: int, b: int, c: int)
    ensures a * (b * c) == (a * b) * c
  {}

  lemma Comm(a: int, b: int)
    ensures a * b == b * a
  {}

  lemma Mono(a: int, b: int, c: int)
    ensures a <= b && 0 <= c ==> a * c <= b * c
  {}

  lemma Cancel(a: int, b: int, c: int)
    ensures 0 <= c && a * c < b * c ==> a < b
  {
    Mono(b, a, c);
  }

  lemma DivIs(x: nat, v: nat, q: nat, r: nat)
    requires x == q * v + r && r < v
    ensures x / v == q && x % v == r
  {
    var d := x / v;
    assert d * v + x % v == x;
    Distr(d, 1, v);
    Distr(q, 1, v);
    Cancel(d, q + 1, v);
    Cancel(q, d + 1, v);
  }

  lemma DivNat(x: nat, v: nat)
    requires v > 0
    ensures x / v >= 0
  {
    var d := x / v;
    assert x < d * v + v;
    Mono(d, -1, v);
  }

  lemma DivBounds(x: nat, v: nat)
    requires v > 0
    ensures (x / v) * v <= x < (x / v) * v + v
  {}

  lemma DivModParts(x: nat, V: nat)
    requires V > 0
    ensures x == x / V * V + x % V && x % V < V
  {}

  lemma NegProduct(x: int, y: int)
    ensures (-x) * y == -(x * y) && x * (-y) == -(x * y) && (-x) * (-y) == x * y
  {}
}

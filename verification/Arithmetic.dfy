/** Products, quotients and remainders of natural numbers. */
module Arithmetic {

  lemma MulMono(a: nat, b: nat, c: nat)
    requires a <= b
    ensures a * c <= b * c
  {
  }

  lemma MulSwap(a: nat, b: nat, c: nat)
    ensures a * (b * c) == b * (a * c)
  {
    assert a * (b * c) == (a * b) * c == (b * a) * c == b * (a * c);
  }

  /** A quotient and a remainder below the divisor determine each other. */
  lemma DivModUnique(q: nat, r: nat, s: nat)
    requires r < s
    ensures (q * s + r) / s == q && (q * s + r) % s == r
  {
    var k := q * s + r;
    assert k == (k / s) * s + k % s;
    assert (k / s + 1) * s == (k / s) * s + s && (q + 1) * s == q * s + s;
    if k / s < q { MulMono(k / s + 1, q, s); }
    if k / s > q { MulMono(q + 1, k / s, s); }
  }

  lemma DivBelow(k: nat, d: nat, s: nat)
    requires k < d * s
    ensures s > 0 && k / s < d && k == (k / s) * s + k % s && k % s < s
  {
    assert s > 0;
    assert k == (k / s) * s + k % s;
    if k / s >= d { MulMono(d, k / s, s); }
  }

  /** Dividing twice is dividing by the product. */
  lemma DivDiv(v: nat, a: nat, b: nat)
    requires a >= 1 && b >= 1
    ensures a * b >= 1 && (v / a) / b == v / (a * b)
  {
    var u := v / a;
    Division(v, a);
    Division(u, b);
    Nested(u / b, b, u % b, a, v % a);
    DivModUnique(u / b, (u % b) * a + v % a, a * b);
  }

  lemma Division(v: nat, a: nat)
    requires a >= 1
    ensures v == a * (v / a) + v % a && v % a < a
  {
  }

  lemma Nested(q: nat, b: nat, r: nat, a: nat, w: nat)
    requires r < b && w < a
    ensures r * a + w < a * b && a * (b * q + r) + w == q * (a * b) + (r * a + w)
  {
    MulMono(r + 1, b, a);
    assert (r + 1) * a == r * a + a && b * a == a * b;
    MulSwap(q, a, b);
    assert a * (b * q + r) == a * (b * q) + a * r;
    assert b * q == q * b && a * r == r * a;
    MulSwap(a, q, b);
  }
}

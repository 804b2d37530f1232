/** Division with remainder by a variable divisor, and powers of two. */
module Arithmetic {
  lemma Division(r: nat, q: int, t: nat)
    requires t < r
    ensures (r * q + t) / r == q && (r * q + t) % r == t
  {
    var a := r * q + t;
    assert a == r * (a / r) + a % r;
    if a / r < q {
      Widens(r, a / r, q);
    } else if a / r > q {
      Widens(r, q, a / r);
    }
  }

  lemma {:induction false} Widens(r: nat, p: int, q: int)
    requires p < q
    ensures r * p + r <= r * q
    decreases q - p
  {
    assert r * q == r * (q - 1) + r;
    if p + 1 < q {
      Widens(r, p, q - 1);
    }
  }

  lemma ModDown(a: nat, r: nat)
    requires 0 < r <= a
    ensures (a - r) % r == a % r
  {
    Division(r, a / r - 1, a % r);
    assert r * (a / r - 1) + a % r == a - r;
  }

  lemma ModUp(a: nat, b: nat, r: nat)
    requires 0 < r && a % r == 0
    ensures (a + b) % r == b % r
  {
    assert a + b == r * (a / r + b / r) + b % r;
    Division(r, a / r + b / r, b % r);
  }

  function Quotient(a: nat, d: nat): (q: nat)
    requires d > 0
    ensures d * q <= a < d * q + d
  {
    assert a == d * (a / d) + a % d;
    a / d
  }

  lemma DivideByLess(a: nat, d: nat, e: nat)
    requires 0 < d <= e
    ensures Quotient(a, e) <= Quotient(a, d)
  {
    var p, q := Quotient(a, d), Quotient(a, e);
    Scales(d, e, q);
    if p < q {
      Widens(d, p, q);
    }
  }

  lemma {:induction false} Scales(d: nat, e: nat, q: nat)
    requires d <= e
    ensures d * q <= e * q
  {
    if q > 0 {
      Scales(d, e, q - 1);
      assert d * q == d * (q - 1) + d && e * q == e * (q - 1) + e;
    }
  }

  function Power2(n: nat): (p: nat)
    ensures p >= 1
  {
    if n == 0 then 1 else 2 * Power2(n - 1)
  }
}

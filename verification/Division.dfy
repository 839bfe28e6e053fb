/** Division with remainder by any number. */
module Division {
  lemma QuotientIs(p: nat, b: nat, q: nat)
    requires b > 0 && b * q <= p < b * q + b
    ensures p / b == q && p % b == p - b * q
  {
    var k, r := p / b, p % b;
    Divided(p, b);
    Smaller(b, q, p - b * q, k);
    Smaller(b, k, r, q);
  }

  lemma Divided(p: nat, b: nat)
    requires b > 0
    ensures p == b * (p / b) + p % b && p % b < b
  {
  }

  lemma Smaller(b: nat, x: nat, r: nat, y: nat)
    requires b * x + r >= b * y && r < b
    ensures x >= y
  {
    if x < y { Times(b, x, y); }
  }

  lemma {:induction false} Times(b: nat, x: nat, y: nat)
    requires x < y
    ensures b * x + b <= b * y
    decreases y
  {
    assert b * y == b * (y - 1) + b;
    if x < y - 1 { Times(b, x, y - 1); }
  }

  lemma ModuloLess(x: nat, a: nat)
    requires 0 < a <= x
    ensures x % a == (x - a) % a
  {
    var q, r := (x - a) / a, (x - a) % a;
    Divided(x - a, a);
    assert a * (q + 1) == a * q + a;
    QuotientIs(x, a, q + 1);
  }
}

/** Facts about products and quotients. */
module Arithmetic {
  lemma Steps(d: nat, a: int, b: int)
    requires d * a < d * b
    ensures d * a + d <= d * b
  {
    assert d * b - d * a == d * (b - a);
    Factor(d, b - a);
  }

  lemma Factor(d: nat, c: int)
    requires d * c > 0
    ensures d * c >= d
  {
  }

  lemma Regroup(d: nat, m: nat, a: nat)
    ensures (d * m) * a == d * (m * a) && d * (m * a) + d * m == d * (m * a + m)
  {
  }

  lemma Quotient(x: nat, p: nat)
    requires p > 0 && x % p == 0
    ensures x == p * (x / p)
  {
  }

  lemma QuotientOf(a: int, b: int, d: nat, y: int)
    requires d * a <= y < d * a + d && d * b <= y < d * b + d
    ensures a == b
  {
    if d * a < d * b {
      Steps(d, a, b);
    } else if d * b < d * a {
      Steps(d, b, a);
    } else {
      assert d * (a - b) == 0;
    }
  }

  lemma DivBounds(x: nat, d: nat)
    requires d > 0
    ensures d * (x / d) <= x < d * (x / d) + d
  {
  }

  lemma DivTwice(v: nat, b: nat, c: nat)
    requires b >= 1 && c >= 1
    ensures b * c >= 1 && v / b / c == v / (b * c)
  {
    var w := v / b;
    DivBounds(v, b);
    DivBounds(w, c);
    NestedBounds(v, w, w / c, b, c);
    var d := b * c;
    Positive(b, c);
    DivBounds(v, d);
    QuotientOf(w / c, v / d, d, v);
  }

  lemma Positive(b: nat, c: nat)
    requires b >= 1 && c >= 1
    ensures b * c >= 1
  {
  }

  lemma NestedBounds(v: nat, w: nat, a: nat, b: nat, c: nat)
    requires b * w <= v < b * w + b && c * a <= w < c * a + c
    ensures (b * c) * a <= v < (b * c) * a + b * c
  {
    Monotone(b, c * a, w);
    Monotone(b, w + 1, c * a + c);
    Regroup(b, c, a);
    assert b * (w + 1) == b * w + b;
  }

  lemma Monotone(b: nat, x: nat, y: nat)
    requires x <= y
    ensures b * x <= b * y
  {
  }
}

/** Elementary facts about products and quotients. */
module Arithmetic {

  lemma StrictlyMore(a: int, b: int, f: int)
    requires a < b && f > 0
    ensures a * f + f <= b * f
  {
    var k := b - a - 1;
    assert k * f >= 0;
    assert b == a + 1 + k;
    assert (a + 1 + k) * f == a * f + f + k * f;
  }

  lemma MulMonotone(b: nat, x: nat, y: nat)
    requires x <= y
    ensures b * x <= b * y
  {
    assert b * (y - x) >= 0;
  }

  lemma MulAtLeast(r: nat, c: nat)
    requires c > 0
    ensures r * c >= r
  {
  }

  lemma Quotient(x: nat, g: nat, c: nat, r: nat)
    requires g > 0 && x == g * c + r && r < g
    ensures x / g == c && x % g == r
  {
    var d := x / g;
    assert g * d + x % g == g * c + r;
    if d > c {
      StrictlyMore(c, d, g);
    } else if d < c {
      StrictlyMore(d, c, g);
    }
  }

  lemma SameFactor(a: real, b: real, f: real)
    requires f > 0.0 && a * f == b * f
    ensures a == b
  {
    assert (a - b) * f == 0.0;
  }
}

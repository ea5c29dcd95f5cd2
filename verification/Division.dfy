/** Facts about quotients and remainders by a variable divisor. */
module Division {

  lemma QuotientUnique(m: int, q: int, r: int, q': int, r': int)
    requires 0 <= r < m && 0 <= r' < m && m * q + r == m * q' + r'
    ensures r == r' && q == q'
  {
    var d := q' - q;
    assert m * d == r - r' by { assert m * d == m * q' - m * q; }
    assert d >= 1 ==> m * d >= m;
    assert d <= -1 ==> m * d <= -m;
  }

  /** Numbers with the same remainder lie at least the divisor apart. */
  lemma SameRemainder(x: nat, y: nat, m: nat)
    requires m > 0 && x < y && x % m == y % m
    ensures x + m <= y
  {
    var d := y / m - x / m;
    assert m * d == y - x by {
      assert m * d == m * (y / m) - m * (x / m);
      assert y == m * (y / m) + y % m && x == m * (x / m) + x % m;
    }
    assert d >= 1 ==> m * d >= m;
    assert d <= 0 ==> m * d <= 0;
  }

  lemma SmallRemainder(x: nat, m: nat)
    requires x < m
    ensures x % m == x
  {
  }

  lemma QuotientBelow(x: nat, d: nat, m: nat)
    requires d > 0 && x < m * d
    ensures x / d < m
  {
    var q := x / d;
    assert x == d * q + x % d;
    assert q >= m ==> d * q >= d * m;
    assert d * m == m * d;
  }
}

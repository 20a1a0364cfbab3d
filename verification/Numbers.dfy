/** Integers as every component uses them. */
module Numbers {

  const TWO64: nat := 0x1_0000_0000_0000_0000

  /** What a uint64 holds of the exact result `x`. */
  function U64(x: int): (r: int)
    ensures 0 <= r < TWO64
    ensures 0 <= x < TWO64 ==> r == x
  {
    x % TWO64
  }

  lemma Distribute(m: int, a: int, b: int)
    ensures m * (a + b) == m * a + m * b
  {
  }

  lemma QuotientIs(a: nat, q: nat, rest: nat, m: nat)
    requires a == q * m + rest && rest < m
    ensures q == a / m
  {
    var d := a / m - q;
    assert a == m * (a / m) + a % m;
    assert m * (a / m) - m * q == m * d;
    assert d >= 1 ==> m * d >= m;
    assert d <= -1 ==> m * d <= 0 - m;
  }

  /** Dividing twice is dividing by the product. */
  lemma DivideTwice(x: nat, a: nat, b: nat)
    requires a > 0 && b > 0
    ensures a * b > 0 && x / a / b == x / (a * b)
  {
    var q, r := x / a, x % a;
    var y, z := q / b, q % b;
    assert q == b * y + z && x == a * q + r;
    Distribute(a, b * y, z);
    assert a * (b * y) == (a * b) * y;
    Distribute(a, z, b - z);
    assert a * (b - z) >= a;
    assert a * z + r < a * b;
    QuotientIs(x, y, a * z + r, a * b);
  }
}

// Facts about products that the solver is better told than left to find.
module Arithmetic {
  lemma SmallMultiple(m: int, d: int)
    requires m > 0 && -m < m * d < m
    ensures d == 0
  {
    if d >= 1 {
      AtLeast(m, d);
    } else if d <= -1 {
      assert m * -d == -(m * d);
      AtLeast(m, -d);
    }
  }

  lemma AtLeast(m: int, d: int)
    requires m > 0 && d >= 1
    ensures m * d >= m
  {
  }

  lemma MultipleIsZero(m: nat, d: nat)
    requires m > 0
    ensures (m * d) % m == 0
  {
    var q, r := (m * d) / m, (m * d) % m;
    assert m * (d - q) == r;
    SmallMultiple(m, d - q);
  }
}

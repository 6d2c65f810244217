/** The few facts about products and quotients that the address computations rest on. */
module Arithmetic {

  function Quot(a: nat, p: nat): nat
    requires p > 0
  {
    a / p
  }

  function Rem(a: nat, p: nat): (r: nat)
    requires p > 0
    ensures r < p
  {
    a % p
  }

  lemma MulMonotone(a: nat, b: nat, p: nat)
    requires a <= b
    ensures a * p <= b * p
  {
  }

  /** Column `b` of row `a` lies within `m` rows of `p` columns. */
  lemma RowBound(a: nat, b: nat, m: nat, p: nat)
    requires a < m && b < p
    ensures a * p + b < m * p
  {
    MulMonotone(a + 1, m, p);
    assert (a + 1) * p == a * p + p;
  }

  lemma DivBound(a: nat, p: nat, m: nat)
    requires p > 0 && a < m * p
    ensures Quot(a, p) < m
    ensures a == Quot(a, p) * p + Rem(a, p)
  {
    if a / p >= m {
      MulMonotone(m, a / p, p);
    }
  }

  lemma DivMod(p: nat, a: nat, b: nat)
    requires b < p
    ensures Quot(a * p + b, p) == a && Rem(a * p + b, p) == b
  {
    DivBound(a * p + b, p, a + 1);
    if (a * p + b) / p < a {
      MulMonotone((a * p + b) / p + 1, a, p);
    }
  }

  lemma DivWhole(a: nat, p: nat)
    requires p > 0
    ensures a == Quot(a, p) * p + Rem(a, p)
  {
  }

  lemma NextMultiple(a: nat, p: nat)
    requires p > 0 && Rem(a, p) == 0
    ensures Quot(a + p, p) == Quot(a, p) + 1 && Rem(a + p, p) == 0
  {
    DivWhole(a, p);
    DivMod(p, Quot(a, p) + 1, 0);
    hide Quot, Rem;
    var q := Quot(a, p);
    assert (q + 1) * p == q * p + p;
  }
}

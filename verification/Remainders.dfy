/** Remainders, proved from the definition so that no other module reasons about products. */
module Remainders {

  function Mod(a: nat, m: nat): (r: nat)
    requires m > 0
    ensures r < m
  {
    a % m
  }

  lemma MulAtLeast(k: nat, m: nat)
    requires k >= 1
    ensures k * m >= m
  {
    assert k * m == (k - 1) * m + m;
  }

  lemma ModIs(a: nat, q: nat, r: nat, m: nat)
    requires r < m && a == q * m + r
    ensures Mod(a, m) == r && a / m == q
  {
    var q', r' := a / m, a % m;
    assert a == q' * m + r';
    assert (q' - q) * m == r - r' && (q - q') * m == r' - r;
    if q' > q {
      MulAtLeast(q' - q, m);
    } else if q' < q {
      MulAtLeast(q - q', m);
    }
  }

  lemma ModSmall(r: nat, m: nat)
    requires m > 0 && r <= m
    ensures Mod(r, m) == if r == m then 0 else r
  {
    if r == m {
      ModIs(r, 1, 0, m);
    } else {
      ModIs(r, 0, r, m);
    }
  }

  lemma ModShift(a: nat, d: nat, m: nat)
    requires d < m
    ensures Mod(a + d, m) == if Mod(a, m) + d < m then Mod(a, m) + d else Mod(a, m) + d - m
  {
    var q, s := a / m, a % m;
    assert a == q * m + s && (q + 1) * m == q * m + m;
    if s + d < m {
      ModIs(a + d, q, s + d, m);
    } else {
      ModIs(a + d, q + 1, s + d - m, m);
    }
  }

  lemma DivSucc(a: nat, m: nat)
    requires m > 0
    ensures (a + 1) / m == a / m + if Mod(a + 1, m) == 0 then 1 else 0
  {
    var q, s := a / m, a % m;
    assert a == q * m + s && (q + 1) * m == q * m + m;
    if s + 1 < m {
      ModIs(a + 1, q, s + 1, m);
    } else {
      ModIs(a + 1, q + 1, 0, m);
    }
  }

  lemma ModPlus(n: nat, m: nat)
    requires m > 0
    ensures Mod(n + m, m) == Mod(n, m)
  {
    var q, s := n / m, n % m;
    assert n == q * m + s && (q + 1) * m == q * m + m;
    ModIs(n + m, q + 1, s, m);
  }

  /** The count of the numbers below n that leave remainder r grows at n exactly when n leaves r. */
  lemma CountStep(n: nat, m: nat, r: nat)
    requires r < m
    ensures (n + m - r) / m == (n + m - 1 - r) / m + if Mod(n, m) == r then 1 else 0
  {
    hide Mod;
    DivSucc(n + m - 1 - r, m);
    ModPlus(n, m);
    ModShift(n + m - r, r, m);
  }
}

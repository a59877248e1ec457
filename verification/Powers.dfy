/** Powers of two, multiples and remainders. */
module Powers {

  function Max(a: nat, b: nat): (m: nat)
    ensures m >= a && m >= b && (m == a || m == b)
  {
    if a < b then b else a
  }

  function Pow2(k: nat): (p: nat)
    ensures p > 0
  {
    if k == 0 then 1 else 2 * Pow2(k - 1)
  }

  lemma {:induction false} Pow2Grows(k: nat, n: nat)
    requires k <= n
    ensures Pow2(k) <= Pow2(n)
    decreases n
  {
    if k < n {
      Pow2Grows(k, n - 1);
    }
  }

  lemma {:induction false} Doubled(u: nat, p: nat)
    ensures u * (2 * p) == 2 * (u * p) && (2 * u) * p == 2 * (u * p) && (2 * u + 1) * p == 2 * (u * p) + p
  {
  }

  lemma {:induction false} Pow2Sum(j: nat, k: nat)
    ensures Pow2(j + k) == Pow2(j) * Pow2(k)
  {
    if j > 0 {
      Pow2Sum(j - 1, k);
      Doubled(Pow2(j - 1), Pow2(k));
    }
  }

  lemma {:induction false} Scaled(a: nat, b: nat, p: nat)
    requires a <= b
    ensures a * p <= b * p
  {
  }

  /** Multiples of `m` are at least `m` apart. */
  lemma {:induction false} Multiples(a: nat, b: nat, m: nat)
    requires a < b
    ensures a * m + m <= b * m
  {
    Scaled(a + 1, b, m);
    assert (a + 1) * m == a * m + m;
  }

  /** A number is one multiple and one remainder. */
  lemma {:induction false} Unique(a: nat, q: nat, r: nat, q': nat, r': nat, m: nat)
    requires a == q * m + r == q' * m + r' && r < m && r' < m
    ensures q == q'
  {
    if q < q' {
      Multiples(q, q', m);
    } else if q' < q {
      Multiples(q', q, m);
    }
  }

  lemma {:induction false} DivMod(a: nat, m: nat)
    requires m > 0
    ensures a == a / m * m + a % m && a % m < m
  {
  }

  lemma {:induction false} Divided(a: nat, q: nat, r: nat, m: nat)
    requires a == q * m + r && r < m
    ensures a / m == q && a % m == r
  {
    DivMod(a, m);
    Unique(a, q, r, a / m, a % m, m);
  }

  lemma {:induction false} SameParts(a: nat, b: nat, m: nat)
    requires m > 0 && a / m == b / m && a % m == b % m
    ensures a == b
  {
    DivMod(a, m);
    DivMod(b, m);
  }

  lemma {:induction false} DivBelow(m: nat, n: nat, j: nat)
    requires m > 0
    ensures j / m < n <==> j < n * m
  {
    var q := j / m;
    DivMod(j, m);
    if q < n {
      Multiples(q, n, m);
    } else {
      Scaled(n, q, m);
    }
  }

  lemma {:induction false} Above(a: nat, b: nat, m: nat)
    requires a * m < b * m
    ensures a < b
  {
    if b <= a {
      Scaled(b, a, m);
    }
  }

  lemma {:induction false} Distribute(u: nat, w: nat, q: nat, p: nat)
    ensures (u + w) * q * p == u * q * p + w * (q * p)
  {
    assert (u + w) * q == u * q + w * q;
    assert (u * q + w * q) * p == u * q * p + w * q * p;
    assert w * q * p == w * (q * p);
  }

  function DivNat(a: nat, m: nat): (q: nat)
    requires m > 0
  {
    a / m
  }
}

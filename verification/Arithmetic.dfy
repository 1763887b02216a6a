/** Powers of two and the division facts the address arithmetic needs. */
module Arithmetic {

  function Pow2(n: nat): (p: nat)
    ensures p >= 1
  {
    if n == 0 then 1 else 2 * Pow2(n - 1)
  }

  lemma {:induction false} Pow2Monotone(a: nat, b: nat)
    requires a <= b
    ensures Pow2(a) <= Pow2(b)
    ensures a < b ==> Pow2(a) < Pow2(b)
    decreases b
  {
    if a < b {
      Pow2Monotone(a, b - 1);
    }
  }

  lemma {:induction false} Pow2Add(a: nat, b: nat)
    ensures Pow2(a + b) == Pow2(a) * Pow2(b)
  {
    if a != 0 {
      Pow2Add(a - 1, b);
      assert a + b - 1 == (a - 1) + b;
      MulAssoc(2, Pow2(a - 1), Pow2(b));
    }
  }

  lemma {:induction false} Pow2Byte(n: nat)
    ensures Pow2(n + 8) == 256 * Pow2(n)
  {
    assert Pow2(n + 4) == 2 * Pow2(n + 3) == 4 * Pow2(n + 2) == 8 * Pow2(n + 1) == 16 * Pow2(n);
    assert Pow2(n + 8) == 2 * Pow2(n + 7) == 4 * Pow2(n + 6) == 8 * Pow2(n + 5) == 16 * Pow2(n + 4);
  }

  lemma {:induction false} Pow2Word()
    ensures Pow2(16) == 0x1_0000 && Pow2(32) == 0x1_0000_0000
  {
    Pow2Byte(0);
    Pow2Byte(8);
    Pow2Byte(16);
    Pow2Byte(24);
  }

  lemma {:induction false} MulAssoc(a: int, b: int, c: int)
    ensures (a * b) * c == a * (b * c)
  {
  }

  lemma {:induction false} MulMonotone(a: int, b: int, c: nat)
    requires a <= b
    ensures a * c <= b * c
  {
  }

  /** A quotient and a remainder in range are the quotient and the remainder. */
  lemma {:induction false} DivModUnique(n: int, d: nat, q: int, r: nat)
    requires d >= 1 && n == q * d + r && r < d
    ensures n / d == q && n % d == r
  {
    var q', r' := n / d, n % d;
    assert n == q' * d + r';
    assert (q' + 1) * d == q' * d + d && (q + 1) * d == q * d + d;
    if q' < q {
      MulMonotone(q' + 1, q, d);
    } else if q' > q {
      MulMonotone(q + 1, q', d);
    }
  }

  lemma {:induction false} Regroup(b: int, e: int, s: int, d: int)
    ensures (b * e + s) * d == b * (d * e) + s * d
  {
    MulAssoc(b, e, d);
    assert e * d == d * e;
  }

  lemma {:induction false} NestSplit(a: int, b: int, s: int, d: int, e: int, m: int)
    requires m == d * e && a == b * e + s
    ensures a * d == b * m + s * d
  {
    Regroup(b, e, s, d);
  }

  lemma {:induction false} NestBound(s: nat, r: nat, d: nat, e: nat, m: int)
    requires m == d * e && s < e && r < d
    ensures s * d + r < m
  {
    MulMonotone(s + 1, e, d);
    assert (s + 1) * d == s * d + d;
  }

  /** Dividing twice is dividing by the product `m`; the remainders nest. */
  lemma {:induction false} DivModNest(n: nat, d: nat, e: nat, m: nat)
    requires d >= 1 && e >= 1 && m >= 1 && m == d * e
    ensures n / d / e == n / m
    ensures n % m == (n / d % e) * d + n % d
  {
    var a, r := n / d, n % d;
    var b, s := a / e, a % e;
    NestSplit(a, b, s, d, e, m);
    NestBound(s, r, d, e, m);
    DivModUnique(n, m, b, s * d + r);
  }

  lemma {:induction false} Multiple(n: nat, d: nat, q: nat)
    requires d >= 1 && n == q * d
    ensures n / d == q && n % d == 0
  {
    DivModUnique(n, d, q, 0);
  }

  lemma {:induction false} NestedQuotient(n: nat, d: nat, e: nat, m: nat, a: nat)
    requires d >= 1 && e >= 1 && m >= 1 && m == d * e && a == n / d
    ensures n / m == a / e
  {
    DivModNest(n, d, e, m);
  }

  lemma {:induction false} Cleared(n: nat, m: nat, q: nat)
    requires m >= 1 && q == n / m
    ensures n - n % m == q * m
  {
  }

  /** Clearing d's remainder first makes no difference to clearing that of a multiple `m` of d. */
  lemma {:induction false} ClearFineThenCoarse(n: nat, d: nat, e: nat, m: nat)
    requires d >= 1 && e >= 1 && m >= 1 && m == d * e
    ensures n - n % d >= 0
    ensures var t := n - n % d; t - t % m == n - n % m
  {
    var a := n / d;
    Cleared(n, d, a);
    SameMultiple(n, n - n % d, d, e, m, a);
  }

  lemma {:induction false} SameMultiple(n: nat, t: nat, d: nat, e: nat, m: nat, a: nat)
    requires d >= 1 && e >= 1 && m >= 1 && m == d * e && a == n / d && t == a * d
    ensures t - t % m == n - n % m
  {
    var q := a / e;
    assert n / m == q by {
      NestedQuotient(n, d, e, m, a);
    }
    assert t / m == q by {
      Multiple(t, d, a);
      NestedQuotient(t, d, e, m, a);
    }
    Cleared(n, m, q);
    Cleared(t, m, q);
  }

  lemma {:induction false} NestedRemainder(n: nat, d: nat, e: nat, m: nat, a: nat, r: nat)
    requires d >= 1 && e >= 1 && m >= 1 && m == d * e && a == n / d && r == n % d
    ensures n % m == (a % e) * d + r
  {
    DivModNest(n, d, e, m);
  }

  /** Once the remainder of a multiple `m` of d is cleared, d leaves no remainder. */
  lemma {:induction false} ClearCoarseThenFine(n: nat, d: nat, e: nat, m: nat)
    requires d >= 1 && e >= 1 && m >= 1 && m == d * e
    ensures (n - n % m) % d == 0
  {
    var a := n / m;
    NestSplit(a * e, a, 0, d, e, m);
    Multiple(n - n % m, d, a * e);
  }
}

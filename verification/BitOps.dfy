/** Bitwise operators of unsigned words, on natural numbers. */
module BitOps {
  import opened Arithmetic

  function BitAnd(x: nat, y: nat): (z: nat)
    ensures z <= x
  {
    if x == 0 || y == 0 then 0 else x % 2 * (y % 2) + 2 * BitAnd(x / 2, y / 2)
  }

  function BitOr(x: nat, y: nat): nat {
    if x == 0 then y else if y == 0 then x
    else (if x % 2 == 1 || y % 2 == 1 then 1 else 0) + 2 * BitOr(x / 2, y / 2)
  }

  /** (x >> i) & 1 */
  predicate Bit(x: nat, i: nat)
    decreases i
  {
    if i == 0 then x % 2 == 1 else Bit(x / 2, i - 1)
  }

  lemma {:induction false} ZeroBit(i: nat)
    ensures !Bit(0, i)
  {
    if i != 0 {
      ZeroBit(i - 1);
    }
  }

  lemma {:induction false} AndBit(x: nat, y: nat, i: nat)
    ensures Bit(BitAnd(x, y), i) <==> Bit(x, i) && Bit(y, i)
    decreases i
  {
    if x == 0 || y == 0 {
      ZeroBit(i);
    } else if i != 0 {
      AndBit(x / 2, y / 2, i - 1);
    } else {
      Parity(x % 2 * (y % 2), BitAnd(x / 2, y / 2));
    }
  }

  lemma {:induction false} OrBit(x: nat, y: nat, i: nat)
    ensures Bit(BitOr(x, y), i) <==> Bit(x, i) || Bit(y, i)
    decreases i
  {
    if x == 0 || y == 0 {
      ZeroBit(i);
    } else if i != 0 {
      OrBit(x / 2, y / 2, i - 1);
    }
  }

  lemma {:induction false} Parity(b: nat, n: nat)
    ensures (b + 2 * n) % 2 == b % 2
  {
  }

  /** 1 << c */
  lemma {:induction false} PowerBit(c: nat, i: nat)
    ensures Bit(Pow2(c), i) <==> i == c
    decreases c
  {
    if c == 0 {
      if i != 0 {
        ZeroBit(i - 1);
      }
    } else if i != 0 {
      PowerBit(c - 1, i - 1);
    }
  }

  /** The complement within an n-bit word. */
  lemma {:induction false} ComplementBit(n: nat, x: nat, i: nat)
    requires x < Pow2(n) && i < n
    ensures Bit(Pow2(n) - 1 - x, i) <==> !Bit(x, i)
    decreases n
  {
    if i != 0 {
      assert (Pow2(n) - 1 - x) / 2 == Pow2(n - 1) - 1 - x / 2;
      ComplementBit(n - 1, x / 2, i - 1);
    }
  }

  /** A word is its bits. */
  lemma {:induction false} SameBits(n: nat, x: nat, y: nat)
    requires x < Pow2(n) && y < Pow2(n)
    requires forall i :: 0 <= i < n ==> (Bit(x, i) <==> Bit(y, i))
    ensures x == y
    decreases n
  {
    if n != 0 {
      forall i | 0 <= i < n - 1 ensures Bit(x / 2, i) <==> Bit(y / 2, i) {
        assert Bit(x, i + 1) <==> Bit(y, i + 1);
      }
      SameBits(n - 1, x / 2, y / 2);
      assert Bit(x, 0) <==> Bit(y, 0);
    }
  }

  lemma {:induction false} OrBound(n: nat, x: nat, y: nat)
    requires x < Pow2(n) && y < Pow2(n)
    ensures BitOr(x, y) < Pow2(n)
    decreases n
  {
    if x != 0 && y != 0 {
      OrBound(n - 1, x / 2, y / 2);
    }
  }

  /** n >> k */
  function Shift(n: nat, k: nat): nat {
    if k == 0 then n else Shift(n / 2, k - 1)
  }

  lemma {:induction false} ShiftAdd(n: nat, j: nat, k: nat)
    ensures Shift(n, j + k) == Shift(Shift(n, j), k)
    decreases j
  {
    if j > 0 {
      ShiftAdd(n / 2, j - 1, k);
    }
  }

  /** The last `k` bits are zero. */
  predicate LowClear(n: nat, k: nat) {
    k == 0 || (n % 2 == 0 && LowClear(n / 2, k - 1))
  }

  /** The numbers that agree with `a` up to its last `k` bits. */
  lemma {:induction false} ShiftedAlike(a: nat, k: nat, p: nat)
    requires LowClear(a, k)
    ensures Shift(p, k) == Shift(a, k) <==> a <= p < a + Pow2(k)
    decreases k
  {
    if k > 0 {
      ShiftedAlike(a / 2, k - 1, p / 2);
    }
  }
}

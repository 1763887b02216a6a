/** Blocks of numbers of `w` bits that share a prefix, and lists of blocks that tile an interval. */
module PrefixBlocks {
  import opened Arithmetic
  import opened BitOps

  datatype Block = Block(data: nat, prefixlen: nat)

  /** The number of bits a prefix leaves free. */
  function Free(w: nat, b: Block): nat {
    if b.prefixlen <= w then w - b.prefixlen else 0
  }

  function Size(w: nat, b: Block): (n: nat)
    ensures n >= 1
  {
    Pow2(Free(w, b))
  }

  /** The first `prefixlen` bits of the number are those of the entry. */
  predicate Matches(w: nat, b: Block, p: nat) {
    Shift(p, Free(w, b)) == Shift(b.data, Free(w, b))
  }

  predicate Aligned(w: nat, b: Block) {
    b.prefixlen <= w && LowClear(b.data, Free(w, b))
  }

  /** An aligned block matches exactly the numbers in it. */
  lemma {:induction false} AlignedMatches(w: nat, b: Block, p: nat)
    requires Aligned(w, b)
    ensures Matches(w, b, p) <==> b.data <= p < b.data + Size(w, b)
  {
    ShiftedAlike(b.data, Free(w, b), p);
  }

  lemma {:induction false} OneMoreBit(n: nat, k: nat)
    requires LowClear(n, k) && Shift(n, k) % 2 == 0
    ensures LowClear(n, k + 1) && Shift(n, k + 1) == Shift(n, k) / 2
    decreases k
  {
    if k > 0 {
      OneMoreBit(n / 2, k - 1);
    }
  }

  lemma {:induction false} OneBitLess(n: nat, k: nat)
    requires k > 0 && LowClear(n, k)
    ensures LowClear(n, k - 1)
    decreases k
  {
    if k > 1 {
      OneBitLess(n / 2, k - 1);
    }
  }

  lemma {:induction false} ShiftBound(n: nat, k: nat)
    requires Shift(n, k) >= 1
    ensures Pow2(k) <= n
    decreases k
  {
    if k > 0 {
      ShiftBound(n / 2, k - 1);
    }
  }

  /** The blocks are aligned and follow one another from `a` up to `b` without gap or overlap. */
  predicate Tiles(w: nat, list: seq<Block>, a: nat, b: nat) {
    if list == [] then a == b
    else
      var last := list[|list| - 1];
      Aligned(w, last) && last.data + Size(w, last) == b && Tiles(w, list[..|list| - 1], a, last.data)
  }

  lemma {:induction false} TilesPrefix(w: nat, list: seq<Block>, a: nat, b: nat, j: nat)
    requires Tiles(w, list, a, b) && j < |list|
    ensures Aligned(w, list[j]) && list[j].data + Size(w, list[j]) <= b
    ensures Tiles(w, list[..j], a, list[j].data)
    decreases |list|
  {
    var n := |list| - 1;
    if j < n {
      assert list[..n][j] == list[j] && list[..n][..j] == list[..j];
      TilesPrefix(w, list[..n], a, list[n].data, j);
    }
  }

  lemma {:induction false} TilesAscend(w: nat, list: seq<Block>, a: nat, b: nat)
    requires Tiles(w, list, a, b)
    ensures a <= b
    decreases |list|
  {
    if list != [] {
      TilesAscend(w, list[..|list| - 1], a, list[|list| - 1].data);
    }
  }

  /** No aligned block of twice the size starts there and fits. (At 0 nothing is said.) */
  predicate Maximal(start: nat, k: nat, end: nat) {
    start == 0 || !LowClear(start, k + 1) || start + 2 * Pow2(k) > end + 1
  }

  lemma {:induction false} OddBit(n: nat, k: nat)
    requires Shift(n, k) % 2 == 1
    ensures !LowClear(n, k + 1)
    decreases k
  {
    if k > 0 {
      OddBit(n / 2, k - 1);
    }
  }
}

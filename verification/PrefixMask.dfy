/**
 Masking an address to its prefix.  The program clears bytes in place; here that loop is proved
 equal to arithmetic truncation of the big-endian address, and the laws of prefixes
 (section 3.1 of RFC 4632, section 2.3 of RFC 4291) follow for every address and length.
 */
module PrefixMask {
  import opened Arithmetic
  import opened BitOps

  const IPV4_PREFIX_LEN: nat := 32
  const IPV6_UINT_LEN: nat := 16
  const IPV4_UINT_LEN: nat := 4

  datatype Family = Inet | Inet6

  /** The family is guessed from the prefix length alone. */
  function FamilyOf(prefixLen: nat): Family {
    if prefixLen > IPV4_PREFIX_LEN then Inet6 else Inet
  }

  function Width(af: Family): nat {
    if af == Inet then IPV4_UINT_LEN else IPV6_UINT_LEN
  }

  type byte = x: nat | x < 256

  /** (uint8_t)(0xFF << (8 - hostScope)): shifted as an int, then cut to eight bits. */
  function ByteMask(hostScope: nat): byte
    requires hostScope < 8
  {
    0xFF * Pow2(8 - hostScope) % 256
  }

  /** What the byte loop leaves behind. */
  function MaskedBytes(bytes: seq<byte>, prefixLen: nat): seq<byte> {
    seq(|bytes|, i requires 0 <= i < |bytes| =>
      if i < prefixLen / 8 then bytes[i]
      else if i == prefixLen / 8 then BitAnd(bytes[i], ByteMask(prefixLen % 8))
      else 0)
  }

  method MaskInPlace(buf: array<byte>, prefixLen: nat)
    requires buf.Length == IPV6_UINT_LEN
    modifies buf
    ensures var n := Width(FamilyOf(prefixLen));
            && buf[..n] == MaskedBytes(old(buf[..n]), prefixLen)
            && buf[n..] == old(buf[n..])
            && (prefixLen <= 8 * n ==> Value(buf[..n]) == Truncated(Value(old(buf[..n])), 8 * n, prefixLen))
            && (prefixLen > 8 * n ==> buf[..] == old(buf[..]))
    ensures prefixLen <= 32 ==>
      && Value(buf[..4]) == old(Value(buf[..4])) - old(Value(buf[..4])) % Pow2(32 - prefixLen)
      && buf[4..] == old(buf[4..])
    ensures 33 <= prefixLen <= 128 ==>
      Value(buf[..16]) == old(Value(buf[..16])) - old(Value(buf[..16])) % Pow2(128 - prefixLen)
  {
    ghost var before := buf[..];
    var arrayLen := if FamilyOf(prefixLen) == Inet then IPV4_UINT_LEN else IPV6_UINT_LEN;
    var netScope := prefixLen / 8;
    var hostScope := prefixLen % 8;
    var mask := 0xFF * Pow2(8 - hostScope) % 256;
    ghost var cut := netScope;
    if netScope < arrayLen {
      buf[netScope] := BitAnd(buf[netScope], mask);
    }
    netScope := netScope + 1;
    while netScope < arrayLen
      invariant cut < netScope
      invariant forall i :: 0 <= i < IPV6_UINT_LEN ==> buf[i] == CutByte(before[i], i, cut, mask, netScope, arrayLen)
    {
      buf[netScope] := 0;
      netScope := netScope + 1;
    }
    LoopResult(before, buf[..], prefixLen, mask, netScope, arrayLen);
  }

  /** Byte `i` when the loop has reached `reached`. */
  function CutByte(b: byte, i: nat, cut: nat, mask: byte, reached: nat, arrayLen: nat): byte {
    if i == cut && cut < arrayLen then BitAnd(b, mask)
    else if cut < i < reached && i < arrayLen then 0
    else b
  }

  lemma {:induction false} LoopResult(before: seq<byte>, after: seq<byte>, prefixLen: nat, mask: byte, reached: nat, n: nat)
    requires |before| == |after| == IPV6_UINT_LEN && n == Width(FamilyOf(prefixLen)) <= reached
    requires mask == ByteMask(prefixLen % 8)
    requires forall i :: 0 <= i < IPV6_UINT_LEN ==> after[i] == CutByte(before[i], i, prefixLen / 8, mask, reached, n)
    ensures after[..n] == MaskedBytes(before[..n], prefixLen) && after[n..] == before[n..]
    ensures prefixLen <= 8 * n ==> Value(after[..n]) == Truncated(Value(before[..n]), 8 * n, prefixLen)
    ensures prefixLen > 8 * n ==> after == before
  {
    assert after[..n] == MaskedBytes(before[..n], prefixLen);
    if prefixLen <= 8 * n {
      MaskIsTruncation(before[..n], prefixLen);
    }
  }

  // ---------------------------------------------------------------------------------------
  // The bytes as a number

  function Value(bytes: seq<byte>): (v: nat)
    ensures v < Pow2(8 * |bytes|)
  {
    if bytes == [] then 0
    else
      var init := bytes[..|bytes| - 1];
      assert Pow2(8 * |bytes|) == 256 * Pow2(8 * |init|) by { Pow2Byte(8 * |init|); }
      Value(init) * 256 + bytes[|bytes| - 1]
  }

  lemma {:induction false} AndDouble(x: nat, y: nat)
    ensures BitAnd(x, 2 * y) == 2 * BitAnd(x / 2, y)
    ensures BitAnd(x, 2 * y + 1) == x % 2 + 2 * BitAnd(x / 2, y)
  {
    assert 2 * y % 2 == 0 && 2 * y / 2 == y && (2 * y + 1) % 2 == 1 && (2 * y + 1) / 2 == y;
  }

  lemma {:induction false} AndAllOnes(x: nat, n: nat)
    requires x < Pow2(n)
    ensures BitAnd(x, Pow2(n) - 1) == x
    decreases n
  {
    if n != 0 {
      assert Pow2(n) - 1 == 2 * (Pow2(n - 1) - 1) + 1;
      AndDouble(x, Pow2(n - 1) - 1);
      AndAllOnes(x / 2, n - 1);
    }
  }

  lemma {:induction false} ClearDouble(x: nat, d: nat)
    requires d >= 1
    ensures x - x % (2 * d) == 2 * (x / 2 - x / 2 % d)
  {
    DivModNest(x, 2, d, 2 * d);
  }

  lemma {:induction false} AndHighStep(x: nat, h: nat, e: nat, d: nat)
    requires e >= 1 && d == 2 * e && BitAnd(x / 2, h) == x / 2 - x / 2 % e
    ensures BitAnd(x, 2 * h) == x - x % d
  {
    AndDouble(x, h);
    ClearDouble(x, e);
  }

  /** And-ing with a run of high ones clears the low bits. */
  lemma {:induction false} AndHighOnes(x: nat, n: nat, s: nat, d: nat, top: nat)
    requires x < top && s <= n && d == Pow2(s) && top == Pow2(n)
    ensures d <= top
    ensures BitAnd(x, top - d) == x - x % d
    decreases n
  {
    if s == 0 {
      AndAllOnes(x, n);
    } else {
      var e, half := Pow2(s - 1), Pow2(n - 1);
      AndHighOnes(x / 2, n - 1, s - 1, e, half);
      AndHighStep(x, half - e, e, d);
    }
  }

  lemma {:induction false} MaskOneByte(x: byte, hostScope: nat)
    requires hostScope < 8
    ensures BitAnd(x, ByteMask(hostScope)) == x - x % Pow2(8 - hostScope)
  {
    var p := Pow2(8 - hostScope);
    assert Pow2(8) == 256;
    Pow2Monotone(8 - hostScope, 8);
    DivModUnique(0xFF * p, 256, p - 1, 256 - p);
    AndHighOnes(x, 8, 8 - hostScope, p, 256);
  }

  /** Clearing the last `bits - prefixLen` bits. */
  function Truncated(n: int, bits: nat, prefixLen: nat): int
    requires prefixLen <= bits
  {
    n - n % Pow2(bits - prefixLen)
  }

  /** The byte loop is arithmetic truncation of the big-endian address. */
  lemma {:induction false} MaskIsTruncation(bytes: seq<byte>, prefixLen: nat)
    requires prefixLen <= 8 * |bytes|
    ensures Value(MaskedBytes(bytes, prefixLen)) == Truncated(Value(bytes), 8 * |bytes|, prefixLen)
  {
    MaskClears(bytes, prefixLen, Pow2(8 * |bytes| - prefixLen));
  }

  lemma {:induction false} MaskClears(bytes: seq<byte>, prefixLen: nat, d: nat)
    requires prefixLen <= 8 * |bytes| && d == Pow2(8 * |bytes| - prefixLen)
    ensures Value(MaskedBytes(bytes, prefixLen)) == Value(bytes) - Value(bytes) % d
    decreases |bytes|
  {
    if |bytes| == 0 {
      assert MaskedBytes(bytes, prefixLen) == [];
    } else if prefixLen <= 8 * (|bytes| - 1) {
      var n := |bytes| - 1;
      MaskClears(bytes[..n], prefixLen, Pow2(8 * n - prefixLen));
      ClearsBeforeLast(bytes, prefixLen, Pow2(8 * n - prefixLen), d);
    } else {
      ClearsInLast(bytes, prefixLen, d);
    }
  }

  lemma {:induction false} ClearsBeforeLast(bytes: seq<byte>, prefixLen: nat, e: nat, d: nat)
    requires |bytes| >= 1 && prefixLen <= 8 * (|bytes| - 1)
    requires e == Pow2(8 * (|bytes| - 1) - prefixLen) && d == Pow2(8 * |bytes| - prefixLen)
    requires var init := bytes[..|bytes| - 1]; Value(MaskedBytes(init, prefixLen)) == Value(init) - Value(init) % e
    ensures Value(MaskedBytes(bytes, prefixLen)) == Value(bytes) - Value(bytes) % d
  {
    var n := |bytes| - 1;
    ValueSplit(bytes);
    ValueSplit(MaskedBytes(bytes, prefixLen));
    MaskedBeforeLast(bytes, prefixLen);
    Pow2Byte(8 * n - prefixLen);
    ClearByte(Value(bytes[..n]), bytes[n], e, d);
  }

  lemma {:induction false} ClearsInLast(bytes: seq<byte>, prefixLen: nat, d: nat)
    requires |bytes| >= 1 && 8 * (|bytes| - 1) < prefixLen <= 8 * |bytes| && d == Pow2(8 * |bytes| - prefixLen)
    ensures Value(MaskedBytes(bytes, prefixLen)) == Value(bytes) - Value(bytes) % d
  {
    var n := |bytes| - 1;
    ValueSplit(bytes);
    ValueSplit(MaskedBytes(bytes, prefixLen));
    MaskedInLast(bytes, prefixLen, d);
    LowRemainder(Value(bytes[..n]), bytes[n], prefixLen - 8 * n, d);
  }

  lemma {:induction false} ValueSplit(bytes: seq<byte>)
    requires bytes != []
    ensures Value(bytes) == Value(bytes[..|bytes| - 1]) * 256 + bytes[|bytes| - 1]
  {
  }

  lemma {:induction false} MaskedBeforeLast(bytes: seq<byte>, prefixLen: nat)
    requires |bytes| >= 1 && prefixLen <= 8 * (|bytes| - 1)
    ensures var n := |bytes| - 1; var masked := MaskedBytes(bytes, prefixLen);
            masked[..n] == MaskedBytes(bytes[..n], prefixLen) && masked[n] == 0
  {
    var n := |bytes| - 1;
    if prefixLen / 8 == n {
      MaskOneByte(bytes[n], 0);
      DivModUnique(bytes[n], 256, 0, bytes[n]);
      assert Pow2(8) == 256;
    }
  }

  lemma {:induction false} MaskedInLast(bytes: seq<byte>, prefixLen: nat, d: nat)
    requires |bytes| >= 1 && 8 * (|bytes| - 1) < prefixLen <= 8 * |bytes| && d == Pow2(8 * |bytes| - prefixLen)
    ensures var n := |bytes| - 1; var masked := MaskedBytes(bytes, prefixLen);
            && masked[..n] == bytes[..n]
            && masked[n] == bytes[n] - bytes[n] % d
  {
    var n := |bytes| - 1;
    if prefixLen < 8 * |bytes| {
      assert prefixLen / 8 == n;
      MaskOneByte(bytes[n], prefixLen % 8);
    }
  }

  lemma {:induction false} ClearByte(v: nat, last: byte, e: nat, d: nat)
    requires e >= 1 && d == 256 * e
    ensures (v * 256 + last) - (v * 256 + last) % d == (v - v % e) * 256
  {
    var n := v * 256 + last;
    DivModUnique(n, 256, v, last);
    NestedRemainder(n, 256, e, d, v, last);
  }

  lemma {:induction false} LowRemainder(v: nat, last: byte, h: nat, d: nat)
    requires 1 <= h <= 8 && d == Pow2(8 - h)
    ensures (v * 256 + last) % d == last % d
  {
    assert Pow2(h) * d == 256 by {
      Pow2Add(h, 8 - h);
      assert Pow2(8) == 256;
    }
    SameRemainder(v, last, Pow2(h), d, 256);
  }

  lemma {:induction false} SameRemainder(v: nat, last: nat, e: nat, d: nat, m: nat)
    requires d >= 1 && m == e * d
    ensures (v * m + last) % d == last % d
  {
    var q, r := last / d, last % d;
    var n := v * m + last;
    assert n == (v * e + q) * d + r by {
      MulAssoc(v, e, d);
      Distribute(v * e, q, d);
    }
    DivModUnique(n, d, v * e + q, r);
  }

  lemma {:induction false} Distribute(a: int, b: int, c: int)
    ensures (a + b) * c == a * c + b * c
  {
  }

  // ---------------------------------------------------------------------------------------
  // The laws of prefixes

  lemma {:induction false} TruncatedQuotient(n: nat, bits: nat, prefixLen: nat)
    requires prefixLen <= bits
    ensures Truncated(n, bits, prefixLen) == n / Pow2(bits - prefixLen) * Pow2(bits - prefixLen)
  {
  }

  lemma {:induction false} PowerSplit(bits: nat, p: nat, q: nat)
    requires p <= q <= bits
    ensures Pow2(bits - p) == Pow2(bits - q) * Pow2(q - p)
  {
    Pow2Add(bits - q, q - p);
    assert (bits - q) + (q - p) == bits - p;
  }

  /** Masking to `p` and then to `q` is masking to the shorter of the two; with p == q, idempotence. */
  lemma {:induction false} NestedMasks(n: nat, bits: nat, p: nat, q: nat)
    requires p <= bits && q <= bits
    ensures Truncated(Truncated(n, bits, p), bits, q) == Truncated(n, bits, if p <= q then p else q)
  {
    if p <= q {
      PowerSplit(bits, p, q);
      ClearCoarseThenFine(n, Pow2(bits - q), Pow2(q - p), Pow2(bits - p));
    } else {
      PowerSplit(bits, q, p);
      ClearFineThenCoarse(n, Pow2(bits - p), Pow2(p - q), Pow2(bits - q));
    }
  }

  /** Bit `i` of an address, counted from the most significant one. */
  function AddressBit(n: nat, bits: nat, i: nat): nat
    requires i < bits
  {
    n / Pow2(bits - 1 - i) % 2
  }

  predicate FirstBitsAgree(m: nat, n: nat, bits: nat, p: nat)
    requires p <= bits
  {
    forall i :: 0 <= i < p ==> AddressBit(m, bits, i) == AddressBit(n, bits, i)
  }

  lemma {:induction false} QuotientIsFirstBits(m: nat, n: nat, bits: nat, p: nat)
    requires p <= bits && m < Pow2(bits) && n < Pow2(bits)
    ensures m / Pow2(bits - p) == n / Pow2(bits - p) <==> FirstBitsAgree(m, n, bits, p)
    decreases p
  {
    if p == 0 {
      DivModUnique(m, Pow2(bits), 0, m);
      DivModUnique(n, Pow2(bits), 0, n);
    } else {
      var d := Pow2(bits - p);
      QuotientIsFirstBits(m, n, bits, p - 1);
      assert Pow2(bits - (p - 1)) == d * 2;
      DivModNest(m, d, 2, d * 2);
      DivModNest(n, d, 2, d * 2);
      assert AddressBit(m, bits, p - 1) == m / d % 2 && AddressBit(n, bits, p - 1) == n / d % 2;
      if FirstBitsAgree(m, n, bits, p) {
        assert FirstBitsAgree(m, n, bits, p - 1);
        assert AddressBit(m, bits, p - 1) == AddressBit(n, bits, p - 1);
      }
    }
  }

  /** Two addresses have the same masked form exactly when their first p bits agree. */
  lemma {:induction false} MaskedAlikeIffPrefixAgrees(m: nat, n: nat, bits: nat, p: nat)
    requires p <= bits && m < Pow2(bits) && n < Pow2(bits)
    ensures Truncated(m, bits, p) == Truncated(n, bits, p) <==> FirstBitsAgree(m, n, bits, p)
  {
    var d := Pow2(bits - p);
    QuotientIsFirstBits(m, n, bits, p);
    TruncatedQuotient(m, bits, p);
    TruncatedQuotient(n, bits, p);
    if m / d * d == n / d * d {
      DivModUnique(m / d * d, d, m / d, 0);
      DivModUnique(m / d * d, d, n / d, 0);
    }
  }

  lemma {:induction false} ValueInjective(a: seq<byte>, b: seq<byte>)
    requires |a| == |b| && Value(a) == Value(b)
    ensures a == b
    decreases |a|
  {
    if |a| != 0 {
      var n := |a| - 1;
      DivModUnique(Value(a), 256, Value(a[..n]), a[n]);
      DivModUnique(Value(b), 256, Value(b[..n]), b[n]);
      ValueInjective(a[..n], b[..n]);
      assert a == a[..n] + [a[n]] && b == b[..n] + [b[n]];
    }
  }

  /** The same three laws on the bytes themselves, where the routes use them. */
  lemma {:induction false} MaskedBytesLaws(a: seq<byte>, b: seq<byte>, p: nat, q: nat)
    requires |a| == |b| && p <= 8 * |a| && q <= 8 * |a|
    ensures MaskedBytes(MaskedBytes(a, p), q) == MaskedBytes(a, if p <= q then p else q)
    ensures MaskedBytes(a, p) == MaskedBytes(b, p) <==> FirstBitsAgree(Value(a), Value(b), 8 * |a|, p)
  {
    var bits := 8 * |a|;
    MaskIsTruncation(a, p);
    MaskIsTruncation(MaskedBytes(a, p), q);
    MaskIsTruncation(a, if p <= q then p else q);
    NestedMasks(Value(a), bits, p, q);
    ValueInjective(MaskedBytes(MaskedBytes(a, p), q), MaskedBytes(a, if p <= q then p else q));
    MaskIsTruncation(b, p);
    MaskedAlikeIffPrefixAgrees(Value(a), Value(b), bits, p);
    if Value(MaskedBytes(a, p)) == Value(MaskedBytes(b, p)) {
      ValueInjective(MaskedBytes(a, p), MaskedBytes(b, p));
    }
  }
}

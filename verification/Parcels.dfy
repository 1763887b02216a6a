/** A parcel as its unread typed tokens: writes append, reads take from the front. */
module Parcels {

  datatype Token =
    | U8(u8: nat) | U16(u16: nat) | U32(u32: nat) | I32(i32: int) | Flag(flag: bool) | Str(str: string)

  /** The outcome of a read: whether it succeeded, the value (the default if not), what is left. */
  datatype Read<T> = Read(ok: bool, value: T, rest: seq<Token>)

  function ReadU8(ts: seq<Token>, init: nat): Read<nat> {
    if ts != [] && ts[0].U8? then Read(true, ts[0].u8, ts[1..]) else Read(false, init, ts)
  }

  function ReadU16(ts: seq<Token>, init: nat): Read<nat> {
    if ts != [] && ts[0].U16? then Read(true, ts[0].u16, ts[1..]) else Read(false, init, ts)
  }

  function ReadU32(ts: seq<Token>, init: nat): Read<nat> {
    if ts != [] && ts[0].U32? then Read(true, ts[0].u32, ts[1..]) else Read(false, init, ts)
  }

  function ReadI32(ts: seq<Token>, init: int): Read<int> {
    if ts != [] && ts[0].I32? then Read(true, ts[0].i32, ts[1..]) else Read(false, init, ts)
  }

  function ReadFlag(ts: seq<Token>, init: bool): Read<bool> {
    if ts != [] && ts[0].Flag? then Read(true, ts[0].flag, ts[1..]) else Read(false, init, ts)
  }

  function ReadStr(ts: seq<Token>, init: string): Read<string> {
    if ts != [] && ts[0].Str? then Read(true, ts[0].str, ts[1..]) else Read(false, init, ts)
  }

  lemma {:induction false} Assoc(a: seq<Token>, b: seq<Token>, c: seq<Token>)
    ensures (a + b) + c == a + (b + c)
  {
  }

  // A read of what was just written.

  lemma {:induction false} PopU8(v: nat, ts: seq<Token>)
    ensures forall init :: ReadU8([U8(v)] + ts, init) == Read(true, v, ts)
  {
    assert ([U8(v)] + ts)[1..] == ts;
  }

  lemma {:induction false} PopU32(v: nat, ts: seq<Token>)
    ensures forall init :: ReadU32([U32(v)] + ts, init) == Read(true, v, ts)
  {
    assert ([U32(v)] + ts)[1..] == ts;
  }

  lemma {:induction false} PopI32(v: int, ts: seq<Token>)
    ensures forall init :: ReadI32([I32(v)] + ts, init) == Read(true, v, ts)
  {
    assert ([I32(v)] + ts)[1..] == ts;
  }

  lemma {:induction false} PopFlag(v: bool, ts: seq<Token>)
    ensures forall init :: ReadFlag([Flag(v)] + ts, init) == Read(true, v, ts)
  {
    assert ([Flag(v)] + ts)[1..] == ts;
  }

  lemma {:induction false} PopStr(v: string, ts: seq<Token>)
    ensures forall init :: ReadStr([Str(v)] + ts, init) == Read(true, v, ts)
  {
    assert ([Str(v)] + ts)[1..] == ts;
  }

  class Parcel {
    var unread: seq<Token>

    constructor ()
      ensures unread == []
    {
      unread := [];
    }

    method Write(t: Token)
      modifies this
      ensures unread == old(unread) + [t]
    {
      unread := unread + [t];
    }

    /** What an element's own Marshalling appends. */
    method Append(ts: seq<Token>)
      modifies this
      ensures unread == old(unread) + ts
    {
      unread := unread + ts;
    }

    /** Reads fields one by one until one cannot be read. */
    method TakeFields(kinds: seq<Kind>) returns (ok: bool, fields: seq<Token>)
      modifies this
      ensures Read(ok, fields, unread) == ReadFields(kinds, old(unread))
    {
      ghost var all := unread;
      fields := [];
      while |fields| < |kinds| && unread != [] && KindOf(unread[0]) == kinds[|fields|]
        invariant |fields| <= |kinds|
        invariant fields + unread == all
        invariant forall i :: 0 <= i < |fields| ==> KindOf(fields[i]) == kinds[i]
        decreases |unread|
      {
        fields, unread := fields + [unread[0]], unread[1..];
      }
      ok := |fields| == |kinds|;
      TakenFields(kinds, fields, unread);
    }

    method TakeI32(init: int) returns (ok: bool, v: int)
      modifies this
      ensures Read(ok, v, unread) == ReadI32(old(unread), init)
    {
      var r := ReadI32(unread, init);
      ok, v, unread := r.ok, r.value, r.rest;
    }

    method TakeFlag(init: bool) returns (ok: bool, v: bool)
      modifies this
      ensures Read(ok, v, unread) == ReadFlag(old(unread), init)
    {
      var r := ReadFlag(unread, init);
      ok, v, unread := r.ok, r.value, r.rest;
    }

    method TakeStr(init: string) returns (ok: bool, v: string)
      modifies this
      ensures Read(ok, v, unread) == ReadStr(old(unread), init)
    {
      var r := ReadStr(unread, init);
      ok, v, unread := r.ok, r.value, r.rest;
    }

    method TakeU8(init: nat) returns (ok: bool, v: nat)
      modifies this
      ensures Read(ok, v, unread) == ReadU8(old(unread), init)
    {
      var r := ReadU8(unread, init);
      ok, v, unread := r.ok, r.value, r.rest;
    }

    method TakeU32(init: nat) returns (ok: bool, v: nat)
      modifies this
      ensures Read(ok, v, unread) == ReadU32(old(unread), init)
    {
      var r := ReadU32(unread, init);
      ok, v, unread := r.ok, r.value, r.rest;
    }
  }

  // ---------------------------------------------------------------------------------------
  // Records: fields read one after the other, stopping at the first that is not there

  datatype Kind = OctetField | ShortField | WordField | IntField | FlagField | TextField

  function KindOf(t: Token): Kind {
    match t
    case U8(_) => OctetField
    case U16(_) => ShortField
    case U32(_) => WordField
    case I32(_) => IntField
    case Flag(_) => FlagField
    case Str(_) => TextField
  }

  /** How many fields can be read. */
  function Matching(kinds: seq<Kind>, ts: seq<Token>): (n: nat)
    ensures n <= |kinds| && n <= |ts|
    ensures forall i :: 0 <= i < n ==> KindOf(ts[i]) == kinds[i]
    ensures n < |kinds| && n < |ts| ==> KindOf(ts[n]) != kinds[n]
  {
    if kinds == [] || ts == [] || KindOf(ts[0]) != kinds[0] then 0 else 1 + Matching(kinds[1..], ts[1..])
  }

  lemma {:induction false} MatchingIs(kinds: seq<Kind>, ts: seq<Token>, n: nat)
    requires n <= |kinds| && n <= |ts|
    requires forall i :: 0 <= i < n ==> KindOf(ts[i]) == kinds[i]
    requires n == |kinds| || n == |ts| || KindOf(ts[n]) != kinds[n]
    ensures Matching(kinds, ts) == n
    decreases n
  {
    if n > 0 {
      MatchingIs(kinds[1..], ts[1..], n - 1);
    }
  }

  function ReadFields(kinds: seq<Kind>, ts: seq<Token>): (r: Read<seq<Token>>)
    ensures |r.value| <= |kinds| && (r.ok <==> |r.value| == |kinds|)
    ensures forall i :: 0 <= i < |r.value| ==> KindOf(r.value[i]) == kinds[i]
    ensures r.value + r.rest == ts
  {
    var n := Matching(kinds, ts);
    Read(n == |kinds|, ts[..n], ts[n..])
  }

  // Field `i` of those read, or what the receiver held before if the reading stopped earlier.

  function TextAt(v: seq<Token>, i: nat, init: string): string {
    if i < |v| && v[i].Str? then v[i].str else init
  }

  function OctetAt(v: seq<Token>, i: nat, init: nat): nat {
    if i < |v| && v[i].U8? then v[i].u8 else init
  }

  function ShortAt(v: seq<Token>, i: nat, init: nat): nat {
    if i < |v| && v[i].U16? then v[i].u16 else init
  }

  function WordAt(v: seq<Token>, i: nat, init: nat): nat {
    if i < |v| && v[i].U32? then v[i].u32 else init
  }

  function FlagAt(v: seq<Token>, i: nat, init: bool): bool {
    if i < |v| && v[i].Flag? then v[i].flag else init
  }

  lemma {:induction false} TakenFields(kinds: seq<Kind>, fields: seq<Token>, unread: seq<Token>)
    requires |fields| <= |kinds| && forall i :: 0 <= i < |fields| ==> KindOf(fields[i]) == kinds[i]
    requires |fields| == |kinds| || unread == [] || KindOf(unread[0]) != kinds[|fields|]
    ensures ReadFields(kinds, fields + unread) == Read(|fields| == |kinds|, fields, unread)
  {
    var all := fields + unread;
    assert all[..|fields|] == fields && all[|fields|..] == unread;
    MatchingIs(kinds, all, |fields|);
  }

  predicate Fits(fields: seq<Token>, kinds: seq<Kind>) {
    |fields| == |kinds| && forall i :: 0 <= i < |kinds| ==> KindOf(fields[i]) == kinds[i]
  }

  lemma {:induction false} PopFields(fields: seq<Token>, kinds: seq<Kind>, rest: seq<Token>)
    requires Fits(fields, kinds)
    ensures ReadFields(kinds, fields + rest) == Read(true, fields, rest)
  {
    TakenFields(kinds, fields, rest);
  }

  // ---------------------------------------------------------------------------------------
  // Counted lists

  function Min(a: nat, b: nat): nat {
    if a <= b then a else b
  }

  function EncodeAll<T>(enc: T -> seq<Token>, xs: seq<T>): seq<Token> {
    if xs == [] then [] else EncodeAll(enc, xs[..|xs| - 1]) + enc(xs[|xs| - 1])
  }

  /** A count, then that many items: the first `limit` of the list. */
  function EncodeList<T>(enc: T -> seq<Token>, limit: nat, xs: seq<T>): seq<Token> {
    var n := Min(|xs|, limit);
    [U32(n)] + EncodeAll(enc, xs[..n])
  }

  /** Up to `n` items; the first one that cannot be read ends the list. */
  function DecodeItems<T>(dec: seq<Token> -> Read<T>, n: nat, ts: seq<Token>): (r: Read<seq<T>>)
    ensures |r.value| <= n && (r.ok ==> |r.value| == n)
  {
    if n == 0 then Read(true, [], ts)
    else
      var r := DecodeItems(dec, n - 1, ts);
      if !r.ok then r
      else
        var x := dec(r.rest);
        if x.ok then Read(true, r.value + [x.value], x.rest) else Read(false, r.value, x.rest)
  }

  function DecodeList<T>(dec: seq<Token> -> Read<T>, limit: nat, ts: seq<Token>): (r: Read<seq<T>>)
    ensures |r.value| <= limit
  {
    var n := ReadU32(ts, 0);
    if !n.ok then Read(false, [], ts) else DecodeItems(dec, Min(n.value, limit), n.rest)
  }

  function Identity<T>(x: T): T {
    x
  }

  function Map<S, T>(f: S -> T, xs: seq<S>): (ys: seq<T>)
    ensures |ys| == |xs| && forall i :: 0 <= i < |xs| ==> ys[i] == f(xs[i])
  {
    if xs == [] then [] else Map(f, xs[..|xs| - 1]) + [f(xs[|xs| - 1])]
  }

  /** Decoding what one item wrote gives the item in normal form and consumes exactly its tokens. */
  ghost predicate RoundTrips<T(!new)>(enc: T -> seq<Token>, dec: seq<Token> -> Read<T>, norm: T -> T) {
    forall x, rest :: dec(enc(x) + rest) == Read(true, norm(x), rest)
  }

  lemma {:induction false} ItemsRoundTrip<T(!new)>(enc: T -> seq<Token>, dec: seq<Token> -> Read<T>, norm: T -> T,
                                                   xs: seq<T>, rest: seq<Token>)
    requires RoundTrips(enc, dec, norm)
    ensures DecodeItems(dec, |xs|, EncodeAll(enc, xs) + rest) == Read(true, Map(norm, xs), rest)
    decreases |xs|
  {
    if xs == [] {
      assert EncodeAll(enc, xs) + rest == rest;
    } else {
      var n := |xs| - 1;
      var tail := enc(xs[n]) + rest;
      assert EncodeAll(enc, xs) + rest == EncodeAll(enc, xs[..n]) + tail;
      ItemsRoundTrip(enc, dec, norm, xs[..n], tail);
    }
  }

  /** A list comes back cut to its first `limit` items, each in normal form, with exact framing. */
  lemma {:induction false} ListRoundTrip<T(!new)>(enc: T -> seq<Token>, dec: seq<Token> -> Read<T>, norm: T -> T,
                                                  limit: nat, xs: seq<T>, rest: seq<Token>)
    requires RoundTrips(enc, dec, norm)
    ensures DecodeList(dec, limit, EncodeList(enc, limit, xs) + rest)
         == Read(true, Map(norm, xs[..Min(|xs|, limit)]), rest)
  {
    var n := Min(|xs|, limit);
    var items := EncodeAll(enc, xs[..n]);
    assert (EncodeList(enc, limit, xs) + rest)[1..] == items + rest;
    ItemsRoundTrip(enc, dec, norm, xs[..n], rest);
  }

  lemma {:induction false} IdentityMap<T>(xs: seq<T>)
    ensures Map(Identity<T>, xs) == xs
  {
  }

  lemma {:induction false} FailureSticks<T>(dec: seq<Token> -> Read<T>, i: nat, n: nat, ts: seq<Token>)
    requires i <= n && !DecodeItems(dec, i, ts).ok
    ensures DecodeItems(dec, n, ts) == DecodeItems(dec, i, ts)
    decreases n
  {
    if i < n {
      FailureSticks(dec, i, n - 1, ts);
    }
  }

  /** If whatever the item reader accepts is in normal form, so is every list it yields. */
  lemma {:induction false} DecodedItemsAreNormal<T(!new)>(dec: seq<Token> -> Read<T>, norm: T -> T, n: nat, ts: seq<Token>)
    requires forall t :: dec(t).ok ==> norm(dec(t).value) == dec(t).value
    ensures Map(norm, DecodeItems(dec, n, ts).value) == DecodeItems(dec, n, ts).value
  {
    if n != 0 {
      DecodedItemsAreNormal(dec, norm, n - 1, ts);
    }
  }

  /** An item reader that accepts nothing but what the writer writes. */
  ghost predicate Canonical<T>(enc: T -> seq<Token>, dec: seq<Token> -> Read<T>) {
    forall ts :: dec(ts).ok ==> ts == enc(dec(ts).value) + dec(ts).rest
  }

  lemma {:induction false} ItemsAreCanonical<T>(enc: T -> seq<Token>, dec: seq<Token> -> Read<T>, n: nat, ts: seq<Token>)
    requires Canonical(enc, dec) && DecodeItems(dec, n, ts).ok
    ensures ts == EncodeAll(enc, DecodeItems(dec, n, ts).value) + DecodeItems(dec, n, ts).rest
  {
    if n == 0 {
    } else {
      var r := DecodeItems(dec, n - 1, ts);
      var x := dec(r.rest);
      ItemsAreCanonical(enc, dec, n - 1, ts);
      assert (r.value + [x.value])[..n - 1] == r.value;
      Assoc(EncodeAll(enc, r.value), enc(x.value), x.rest);
    }
  }
}

/** Network capabilities in one 32-bit word, and the matching of requests against suppliers. */
module NetCaps {
  import opened Arithmetic
  import opened BitOps

  const NET_CAPABILITY_MMS := 0
  const NET_CAPABILITY_INTERNET := 12
  const NET_CAPABILITY_END := 32

  predicate IsValidNetCap(cap: nat) {
    NET_CAPABILITY_MMS <= cap < NET_CAPABILITY_END
  }

  type word = x: nat | x < 0x1_0000_0000

  /** The mathematical set a word stands for. */
  function SetOf(w: word): set<nat> {
    set c: nat | 0 <= c < 32 && Bit(w, c)
  }

  function ValidPart(caps: set<nat>): set<nat> {
    set c: nat | c in caps && IsValidNetCap(c)
  }

  /** caps | (1 << cap) */
  function Inserted(w: word, cap: nat): word
    requires cap < 32
  {
    WordSize(cap);
    OrBound(32, w, Pow2(cap));
    BitOr(w, Pow2(cap))
  }

  /** caps & ~(1 << cap) */
  function Removed(w: word, cap: nat): word
    requires cap < 32
  {
    WordSize(cap);
    BitAnd(w, Pow2(32) - 1 - Pow2(cap))
  }

  lemma {:induction false} WordSize(cap: nat)
    requires cap < 32
    ensures Pow2(cap) < Pow2(32) == 0x1_0000_0000
  {
    Pow2Monotone(cap, 32);
    Pow2Word();
  }

  lemma {:induction false} InsertedSet(w: word, cap: nat)
    requires cap < 32
    ensures SetOf(Inserted(w, cap)) == SetOf(w) + {cap}
  {
    forall d | 0 <= d < 32 ensures Bit(Inserted(w, cap), d) <==> Bit(w, d) || d == cap {
      OrBit(w, Pow2(cap), d);
      PowerBit(cap, d);
    }
  }

  lemma {:induction false} RemovedSet(w: word, cap: nat)
    requires cap < 32
    ensures SetOf(Removed(w, cap)) == SetOf(w) - {cap}
  {
    WordSize(cap);
    forall d | 0 <= d < 32 ensures Bit(Removed(w, cap), d) <==> Bit(w, d) && d != cap {
      AndBit(w, Pow2(32) - 1 - Pow2(cap), d);
      ComplementBit(32, Pow2(cap), d);
      PowerBit(cap, d);
    }
  }

  /** Words and sets of valid capabilities determine each other: operator== is set equality. */
  lemma {:induction false} WordIsItsSet(v: word, w: word)
    ensures SetOf(v) == SetOf(w) <==> v == w
  {
    if SetOf(v) == SetOf(w) {
      WordSize(0);
      forall i | 0 <= i < 32 ensures Bit(v, i) <==> Bit(w, i) {
        assert i in SetOf(v) <==> i in SetOf(w);
      }
      SameBits(32, v, w);
    }
  }

  class Capabilities {
    var caps: word

    constructor Empty()
      ensures SetOf(caps) == {}
    {
      caps := 0;
      forall c | 0 <= c < 32 ensures !Bit(0, c) { ZeroBit(c); }
    }

    constructor FromSet(netCaps: set<nat>)
      ensures SetOf(caps) == ValidPart(netCaps) == set c: nat | c in netCaps && c < 32
    {
      caps := 0;
      new;
      forall c | 0 <= c < 32 ensures !Bit(0, c) { ZeroBit(c); }
      var rest := netCaps;
      while rest != {}
        invariant rest <= netCaps
        invariant SetOf(caps) == ValidPart(netCaps - rest)
        decreases rest
      {
        var cap :| cap in rest;
        InsertNetCap(cap);
        assert netCaps - (rest - {cap}) == netCaps - rest + {cap};
        rest := rest - {cap};
      }
      assert netCaps - rest == netCaps;
    }

    method InsertNetCap(cap: nat)
      modifies this
      ensures SetOf(caps) == if IsValidNetCap(cap) then old(SetOf(caps)) + {cap} else old(SetOf(caps))
    {
      if IsValidNetCap(cap) {
        InsertedSet(caps, cap);
        caps := Inserted(caps, cap);
      }
    }

    method RemoveNetCap(cap: nat)
      modifies this
      ensures SetOf(caps) == old(SetOf(caps)) - {cap}
    {
      if IsValidNetCap(cap) {
        RemovedSet(caps, cap);
        caps := Removed(caps, cap);
      }
    }

    predicate HasNetCap(cap: nat)
      requires IsValidNetCap(cap)
      reads this
      ensures HasNetCap(cap) <==> cap in SetOf(caps)
    {
      Bit(caps, cap)
    }

    predicate HasNetCaps(netCaps: set<nat>)
      requires forall cap :: cap in netCaps ==> IsValidNetCap(cap)
      reads this
      ensures HasNetCaps(netCaps) <==> netCaps <= SetOf(caps)
    {
      forall cap :: cap in netCaps ==> HasNetCap(cap)
    }

    method ToSet() returns (ret: set<nat>)
      ensures ret == SetOf(caps)
    {
      ret := {};
      for cap := 0 to NET_CAPABILITY_END
        invariant ret == set c: nat | 0 <= c < cap && Bit(caps, c)
      {
        if HasNetCap(cap) {
          ret := ret + {cap};
        }
      }
    }
  }

  // ---------------------------------------------------------------------------------------
  // Any history of inserts and removes

  datatype Edit = Insert(cap: nat) | Remove(cap: nat)

  function EditWord(w: word, e: Edit): word {
    if !IsValidNetCap(e.cap) then w
    else match e case Insert(c) => Inserted(w, c) case Remove(c) => Removed(w, c)
  }

  function EditSet(s: set<nat>, e: Edit): set<nat> {
    match e
    case Insert(c) => if IsValidNetCap(c) then s + {c} else s
    case Remove(c) => s - {c}
  }

  function EditWords(w: word, edits: seq<Edit>): word {
    if edits == [] then w else EditWord(EditWords(w, edits[..|edits| - 1]), edits[|edits| - 1])
  }

  function EditSets(s: set<nat>, edits: seq<Edit>): set<nat> {
    if edits == [] then s else EditSet(EditSets(s, edits[..|edits| - 1]), edits[|edits| - 1])
  }

  /** The word stays the encoding of the set that the same edits produce. */
  lemma {:induction false} EditsAgree(w: word, edits: seq<Edit>)
    ensures SetOf(EditWords(w, edits)) == EditSets(SetOf(w), edits)
  {
    if edits != [] {
      var n := |edits| - 1;
      EditsAgree(w, edits[..n]);
      var e := edits[n];
      if IsValidNetCap(e.cap) {
        InsertedSet(EditWords(w, edits[..n]), e.cap);
        RemovedSet(EditWords(w, edits[..n]), e.cap);
      }
    }
  }
}

/** NetActivate::MatchRequestAndNetwork and its CompareBy helpers. */
module RequestMatching {
  import opened Options
  import opened BitOps
  import opened NetCaps

  const BEARER_WIFI := 1
  const IDENT_WIFI := "wifi"

  datatype Specifier = Specifier(ident: string, caps: set<nat>, bearerTypes: set<nat>, upKbps: nat, downKbps: nat)

  datatype Supplier = Supplier(caps: word, bearer: nat, ident: string, upKbps: nat, downKbps: nat)

  predicate LegalRequest(s: Specifier) {
    forall cap :: cap in s.caps ==> IsValidNetCap(cap)
  }

  predicate HasCap(w: word, cap: nat)
    requires IsValidNetCap(cap)
  {
    Bit(w, cap)
  }

  predicate CompareByNetworkCapabilities(s: Option<Specifier>, caps: word)
    requires s.Some? ==> LegalRequest(s.value)
  {
    match s
    case None => false
    case Some(spec) =>
      if spec.caps == {} then HasCap(caps, NET_CAPABILITY_INTERNET)
      else forall cap :: cap in spec.caps ==> HasCap(caps, cap)
  }

  predicate CompareByNetworkNetType(s: Option<Specifier>, bearer: nat) {
    match s
    case None => false
    case Some(spec) => if spec.bearerTypes == {} then true else bearer in spec.bearerTypes
  }

  predicate CompareByNetworkIdent(spec: Specifier, ident: string, bearer: nat, skipCheckIdent: bool) {
    if ident == "" || spec.ident == "" then true
    else if spec.ident == IDENT_WIFI then true
    else if ident == spec.ident then true
    else skipCheckIdent && bearer == BEARER_WIFI
  }

  predicate CompareByNetworkBand(spec: Specifier, up: nat, down: nat) {
    up >= spec.upKbps && down >= spec.downKbps
  }

  predicate MatchRequestAndNetwork(s: Option<Specifier>, supplier: Option<Supplier>, skipCheckIdent: bool)
    requires s.Some? ==> LegalRequest(s.value)
  {
    match supplier
    case None => false
    case Some(n) =>
      if !CompareByNetworkCapabilities(s, n.caps) then false
      else if !CompareByNetworkNetType(s, n.bearer) then false
      else if !CompareByNetworkIdent(s.value, n.ident, n.bearer, skipCheckIdent) then false
      else CompareByNetworkBand(s.value, n.upKbps, n.downKbps)
  }

  /** What a request without capabilities asks for. */
  function Wanted(spec: Specifier): set<nat> {
    if spec.caps == {} then {NET_CAPABILITY_INTERNET} else spec.caps
  }

  /** Matching over bit words is containment of the wanted capability set, and so on. */
  lemma {:induction false} MatchIsSetInclusion(s: Option<Specifier>, supplier: Option<Supplier>, skip: bool)
    requires s.Some? ==> LegalRequest(s.value)
    ensures MatchRequestAndNetwork(s, supplier, skip) <==>
      && s.Some? && supplier.Some?
      && var spec, n := s.value, supplier.value;
      && (if spec.caps == {} then 12 in SetOf(n.caps) else spec.caps <= SetOf(n.caps))
      && (spec.bearerTypes == {} || n.bearer in spec.bearerTypes)
      && (spec.ident in {"", "wifi", n.ident} || n.ident == "" || (skip && n.bearer == 1))
      && spec.upKbps <= n.upKbps && spec.downKbps <= n.downKbps
  {
  }

  /** A supplier with more capabilities and more bandwidth keeps every request it matched, and a
      request that asks for more is matched by no more suppliers. */
  lemma {:induction false} MatchIsMonotone(weak: Specifier, strong: Specifier, n: Supplier, m: Supplier, skip: bool)
    requires LegalRequest(weak) && LegalRequest(strong)
    requires Wanted(weak) <= Wanted(strong) && weak.bearerTypes == strong.bearerTypes && weak.ident == strong.ident
    requires weak.upKbps <= strong.upKbps && weak.downKbps <= strong.downKbps
    requires SetOf(n.caps) <= SetOf(m.caps) && n.bearer == m.bearer && n.ident == m.ident
    requires n.upKbps <= m.upKbps && n.downKbps <= m.downKbps
    ensures MatchRequestAndNetwork(Some(strong), Some(n), skip) ==> MatchRequestAndNetwork(Some(weak), Some(m), skip)
  {
    MatchIsSetInclusion(Some(strong), Some(n), skip);
    MatchIsSetInclusion(Some(weak), Some(m), skip);
  }
}

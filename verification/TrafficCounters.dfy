/**
 The per-uid and per-interface traffic counters kept by the BPF programs.  Any number of CPUs
 run the same program on their packets: look the key up, insert a zero entry if it is absent,
 look it up again, then two atomic adds on the shared entry.  `Step` runs one helper call or
 one atomic add of one program run; a schedule is any sequence of events.
 */
module TrafficSpec {

  const UINT64_RANGE: nat := 0x1_0000_0000_0000_0000

  datatype Direction = Rx | Tx

  datatype Stats = Stats(rxPackets: nat, rxBytes: nat, txPackets: nat, txBytes: nat)

  const ZERO := Stats(0, 0, 0, 0)

  datatype Pc = Lookup | Insert | LookupAgain | AddPacket | AddBytes | Counted | Uncounted

  /** One run of an ingress (Rx) or egress (Tx) program on one packet of `len` bytes. */
  datatype ProgramRun = ProgramRun(key: nat, dir: Direction, len: nat, pc: Pc)

  datatype Kernel = Kernel(capacity: nat, entries: map<nat, Stats>, runs: seq<ProgramRun>)

  datatype Event = Arrive(key: nat, dir: Direction, len: nat) | Advance(run: nat)

  function Boot(capacity: nat): Kernel {
    Kernel(capacity, map[], [])
  }

  /** bpf_map_update_elem with BPF_NOEXIST: refused on an existing key and on a full map. */
  function InsertIfAbsent(entries: map<nat, Stats>, capacity: nat, key: nat): map<nat, Stats> {
    if key in entries || |entries| >= capacity then entries else entries[key := ZERO]
  }

  function AddOnePacket(s: Stats, dir: Direction): Stats {
    match dir
    case Rx => s.(rxPackets := (s.rxPackets + 1) % UINT64_RANGE)
    case Tx => s.(txPackets := (s.txPackets + 1) % UINT64_RANGE)
  }

  function AddLength(s: Stats, dir: Direction, len: nat): Stats {
    match dir
    case Rx => s.(rxBytes := (s.rxBytes + len) % UINT64_RANGE)
    case Tx => s.(txBytes := (s.txBytes + len) % UINT64_RANGE)
  }

  function Goto(k: Kernel, i: nat, pc: Pc): Kernel
    requires i < |k.runs|
  {
    k.(runs := k.runs[i := k.runs[i].(pc := pc)])
  }

  function AdvanceRun(k: Kernel, i: nat): Kernel
    requires i < |k.runs|
  {
    var r := k.runs[i];
    match r.pc
    case Lookup => Goto(k, i, if r.key in k.entries then AddPacket else Insert)
    case Insert => Goto(k, i, LookupAgain).(entries := InsertIfAbsent(k.entries, k.capacity, r.key))
    case LookupAgain => Goto(k, i, if r.key in k.entries then AddPacket else Uncounted)
    case AddPacket =>
      if r.key in k.entries
      then Goto(k, i, AddBytes).(entries := k.entries[r.key := AddOnePacket(k.entries[r.key], r.dir)])
      else k
    case AddBytes =>
      if r.key in k.entries
      then Goto(k, i, Counted).(entries := k.entries[r.key := AddLength(k.entries[r.key], r.dir, r.len)])
      else k
    case Counted => k
    case Uncounted => k
  }

  function Step(k: Kernel, e: Event): Kernel {
    match e
    case Arrive(key, dir, len) => k.(runs := k.runs + [ProgramRun(key, dir, len, Lookup)])
    case Advance(i) => if i < |k.runs| then AdvanceRun(k, i) else k
  }

  function Run(k: Kernel, events: seq<Event>): Kernel
    decreases |events|
  {
    if events == [] then k else Run(Step(k, events[0]), events[1..])
  }
}

module TrafficCounters {
  import opened TrafficSpec

  class StatsMap {
    const capacity: nat
    var entries: map<nat, Stats>

    constructor (capacity: nat)
      ensures this.capacity == capacity && entries == map[]
    {
      this.capacity := capacity;
      entries := map[];
    }

    method UpdateNoExist(key: nat, value: Stats)
      modifies this
      ensures entries == if key in old(entries) || |old(entries)| >= capacity then old(entries)
                         else old(entries)[key := value]
    {
      if key !in entries && |entries| < capacity {
        entries := entries[key := value];
      }
    }

    method FetchAndAddPackets(key: nat, dir: Direction)
      requires key in entries
      modifies this
      ensures entries == old(entries)[key := AddOnePacket(old(entries)[key], dir)]
    {
      var v := entries[key];
      if dir == Rx {
        entries := entries[key := v.(rxPackets := (v.rxPackets + 1) % UINT64_RANGE)];
      } else {
        entries := entries[key := v.(txPackets := (v.txPackets + 1) % UINT64_RANGE)];
      }
    }

    method FetchAndAddBytes(key: nat, dir: Direction, len: nat)
      requires key in entries
      modifies this
      ensures entries == old(entries)[key := AddLength(old(entries)[key], dir, len)]
    {
      var v := entries[key];
      if dir == Rx {
        entries := entries[key := v.(rxBytes := (v.rxBytes + len) % UINT64_RANGE)];
      } else {
        entries := entries[key := v.(txBytes := (v.txBytes + len) % UINT64_RANGE)];
      }
    }

    /** One whole program, when nothing interleaves: what the schedule of its five steps does. */
    method CountPacket(key: nat, dir: Direction, len: nat)
      modifies this
      ensures entries == Run(Kernel(capacity, old(entries), []), Solo(key, dir, len)).entries
      ensures key in entries <==> key in old(entries) || |old(entries)| < capacity
      ensures key in entries ==>
        entries[key] == AddLength(AddOnePacket(if key in old(entries) then old(entries)[key] else ZERO, dir), dir, len)
      ensures entries - {key} == old(entries) - {key}
    {
      ghost var before := entries;
      var found := key in entries;
      if !found {
        UpdateNoExist(key, ZERO);
        found := key in entries;
      }
      if found {
        FetchAndAddPackets(key, dir);
        FetchAndAddBytes(key, dir, len);
      }
      SoloEffect(Kernel(capacity, before, []), key, dir, len);
    }
  }

  function Solo(key: nat, dir: Direction, len: nat): seq<Event> {
    [Arrive(key, dir, len), Advance(0), Advance(0), Advance(0), Advance(0), Advance(0)]
  }

  lemma {:induction false} SoloEffect(k: Kernel, key: nat, dir: Direction, len: nat)
    requires k.runs == []
    ensures var n := Run(k, Solo(key, dir, len));
            var m := InsertIfAbsent(k.entries, k.capacity, key);
            n.entries == if key in m then m[key := AddLength(AddOnePacket(m[key], dir), dir, len)] else m
  {
    var s := Solo(key, dir, len);
    var k0 := Step(k, s[0]);
    var k1 := AdvanceRun(k0, 0);
    var k2 := AdvanceRun(k1, 0);
    var k3 := AdvanceRun(k2, 0);
    var k4 := AdvanceRun(k3, 0);
    var k5 := AdvanceRun(k4, 0);
    assert s[1..][1..] == s[2..] && s[2..][1..] == s[3..] && s[3..][1..] == s[4..] && s[4..][1..] == s[5..] && s[5..][1..] == [];
    assert Run(k4, s[5..]) == k5;
    assert Run(k3, s[4..]) == k5;
    assert Run(k2, s[3..]) == k5;
    assert Run(k1, s[2..]) == k5;
    assert Run(k0, s[1..]) == k5;
  }
}

/** Conservation over every schedule of any number of program runs. */
module TrafficProofs {
  import opened TrafficSpec

  predicate Packeted(r: ProgramRun, key: nat, dir: Direction) {
    r.key == key && r.dir == dir && (r.pc == AddBytes || r.pc == Counted)
  }

  /** Packet adds executed for the key so far. */
  function PacketAdds(runs: seq<ProgramRun>, key: nat, dir: Direction): nat {
    if runs == [] then 0
    else PacketAdds(runs[1..], key, dir) + if Packeted(runs[0], key, dir) then 1 else 0
  }

  /** What a run has added to the key's bytes. */
  function BytesOf(r: ProgramRun, key: nat, dir: Direction): nat {
    if r.key == key && r.dir == dir && r.pc == Counted then r.len else 0
  }

  /** Bytes summed by the byte adds executed for the key so far. */
  function ByteAdds(runs: seq<ProgramRun>, key: nat, dir: Direction): nat {
    if runs == [] then 0
    else ByteAdds(runs[1..], key, dir) + BytesOf(runs[0], key, dir)
  }

  function Tally(runs: seq<ProgramRun>, key: nat): Stats {
    Stats(PacketAdds(runs, key, Rx) % UINT64_RANGE, ByteAdds(runs, key, Rx) % UINT64_RANGE,
          PacketAdds(runs, key, Tx) % UINT64_RANGE, ByteAdds(runs, key, Tx) % UINT64_RANGE)
  }

  lemma {:induction false} PacketAddsUpdate(runs: seq<ProgramRun>, i: nat, r': ProgramRun, key: nat, dir: Direction)
    requires i < |runs|
    ensures PacketAdds(runs[i := r'], key, dir) + (if Packeted(runs[i], key, dir) then 1 else 0)
         == PacketAdds(runs, key, dir) + (if Packeted(r', key, dir) then 1 else 0)
  {
    if i == 0 {
      assert runs[i := r'][1..] == runs[1..];
    } else {
      assert runs[i := r'][1..] == runs[1..][i - 1 := r'];
      PacketAddsUpdate(runs[1..], i - 1, r', key, dir);
    }
  }

  lemma {:induction false} ByteAddsUpdate(runs: seq<ProgramRun>, i: nat, r': ProgramRun, key: nat, dir: Direction)
    requires i < |runs|
    ensures ByteAdds(runs[i := r'], key, dir) + BytesOf(runs[i], key, dir) == ByteAdds(runs, key, dir) + BytesOf(r', key, dir)
  {
    if i == 0 {
      assert runs[i := r'][1..] == runs[1..];
    } else {
      assert runs[i := r'][1..] == runs[1..][i - 1 := r'];
      ByteAddsUpdate(runs[1..], i - 1, r', key, dir);
    }
  }

  lemma {:induction false} AddsUpdate(runs: seq<ProgramRun>, i: nat, pc: Pc, key: nat, dir: Direction)
    requires i < |runs|
    ensures var r := runs[i]; var r' := r.(pc := pc); var runs' := runs[i := r'];
            && PacketAdds(runs', key, dir) + (if Packeted(r, key, dir) then 1 else 0)
            == PacketAdds(runs, key, dir) + (if Packeted(r', key, dir) then 1 else 0)
            && ByteAdds(runs', key, dir) + BytesOf(r, key, dir) == ByteAdds(runs, key, dir) + BytesOf(r', key, dir)
  {
    var r' := runs[i].(pc := pc);
    PacketAddsUpdate(runs, i, r', key, dir);
    ByteAddsUpdate(runs, i, r', key, dir);
  }

  lemma {:induction false} AddsAppend(runs: seq<ProgramRun>, r: ProgramRun, key: nat, dir: Direction)
    requires r.pc == Lookup
    ensures PacketAdds(runs + [r], key, dir) == PacketAdds(runs, key, dir)
    ensures ByteAdds(runs + [r], key, dir) == ByteAdds(runs, key, dir)
  {
    if runs == [] {
      assert runs + [r] == [r];
    } else {
      assert (runs + [r])[1..] == runs[1..] + [r];
      AddsAppend(runs[1..], r, key, dir);
    }
  }

  lemma {:induction false} NoAdds(runs: seq<ProgramRun>, key: nat, dir: Direction)
    requires forall i :: 0 <= i < |runs| && runs[i].key == key ==> runs[i].pc != AddBytes && runs[i].pc != Counted
    ensures PacketAdds(runs, key, dir) == 0 && ByteAdds(runs, key, dir) == 0
  {
    if runs != [] {
      NoAdds(runs[1..], key, dir);
    }
  }

  predicate RunInv(k: Kernel, r: ProgramRun) {
    match r.pc
    case Lookup => true
    case Insert => true
    case LookupAgain => r.key in k.entries || |k.entries| == k.capacity
    case Uncounted => r.key !in k.entries && |k.entries| == k.capacity
    case _ => r.key in k.entries
  }

  predicate Inv(k: Kernel) {
    && |k.entries| <= k.capacity
    && (forall i :: 0 <= i < |k.runs| ==> RunInv(k, k.runs[i]))
    && (forall key :: key in k.entries ==> k.entries[key] == Tally(k.runs, key))
  }

  lemma {:induction false} ModAdd(a: nat, b: nat)
    ensures (a % UINT64_RANGE + b) % UINT64_RANGE == (a + b) % UINT64_RANGE
  {
    var q, r := a / UINT64_RANGE, a % UINT64_RANGE;
    assert a == q * UINT64_RANGE + r;
    assert (a + b) - (r + b) == q * UINT64_RANGE;
  }

  /** Moving a run between places that add nothing leaves every tally as it was. */
  lemma {:induction false} TallyKept(runs: seq<ProgramRun>, i: nat, pc: Pc, key: nat)
    requires i < |runs|
    requires key == runs[i].key ==> (runs[i].pc !in {AddBytes, Counted} && pc !in {AddBytes, Counted})
    ensures Tally(runs[i := runs[i].(pc := pc)], key) == Tally(runs, key)
  {
    AddsUpdate(runs, i, pc, key, Rx);
    AddsUpdate(runs, i, pc, key, Tx);
  }

  lemma {:induction false} TallyPacket(runs: seq<ProgramRun>, i: nat)
    requires i < |runs| && runs[i].pc == AddPacket
    ensures Tally(runs[i := runs[i].(pc := AddBytes)], runs[i].key)
         == AddOnePacket(Tally(runs, runs[i].key), runs[i].dir)
  {
    var r := runs[i];
    AddsUpdate(runs, i, AddBytes, r.key, Rx);
    AddsUpdate(runs, i, AddBytes, r.key, Tx);
    ModAdd(PacketAdds(runs, r.key, r.dir), 1);
  }

  lemma {:induction false} TallyBytes(runs: seq<ProgramRun>, i: nat)
    requires i < |runs| && runs[i].pc == AddBytes
    ensures Tally(runs[i := runs[i].(pc := Counted)], runs[i].key)
         == AddLength(Tally(runs, runs[i].key), runs[i].dir, runs[i].len)
  {
    var r := runs[i];
    AddsUpdate(runs, i, Counted, r.key, Rx);
    AddsUpdate(runs, i, Counted, r.key, Tx);
    ModAdd(ByteAdds(runs, r.key, r.dir), r.len);
  }

  lemma {:induction false} FreshTally(k: Kernel, key: nat)
    requires Inv(k) && key !in k.entries
    ensures Tally(k.runs, key) == ZERO
  {
    forall j | 0 <= j < |k.runs| && k.runs[j].key == key
      ensures k.runs[j].pc != AddBytes && k.runs[j].pc != Counted
    {
      assert RunInv(k, k.runs[j]);
    }
    NoAdds(k.runs, key, Rx);
    NoAdds(k.runs, key, Tx);
  }

  lemma {:induction false} TallyStep(k: Kernel, i: nat, key: nat)
    requires Inv(k) && i < |k.runs| && key in AdvanceRun(k, i).entries
    ensures AdvanceRun(k, i).entries[key] == Tally(AdvanceRun(k, i).runs, key)
  {
    var r := k.runs[i];
    var pc := AdvanceRun(k, i).runs[i].pc;
    assert RunInv(k, r);
    if r.pc != Counted && r.pc != Uncounted {
      if r.key == key && r.pc == AddPacket {
        TallyPacket(k.runs, i);
      } else if r.key == key && r.pc == AddBytes {
        TallyBytes(k.runs, i);
      } else {
        TallyKept(k.runs, i, pc, key);
        if key !in k.entries {
          FreshTally(k, key);
        }
      }
    }
  }

  lemma {:induction false} RunInvStep(k: Kernel, i: nat, j: nat)
    requires Inv(k) && i < |k.runs| && j < |k.runs|
    ensures RunInv(AdvanceRun(k, i), AdvanceRun(k, i).runs[j])
    ensures |AdvanceRun(k, i).entries| <= k.capacity
  {
    assert RunInv(k, k.runs[i]) && RunInv(k, k.runs[j]);
  }

  lemma {:induction false} InvStep(k: Kernel, e: Event)
    requires Inv(k)
    ensures Inv(Step(k, e))
  {
    var n := Step(k, e);
    match e
    case Arrive(key, dir, len) =>
      forall key' | key' in k.entries
        ensures n.entries[key'] == Tally(n.runs, key')
      {
        AddsAppend(k.runs, ProgramRun(key, dir, len, Lookup), key', Rx);
        AddsAppend(k.runs, ProgramRun(key, dir, len, Lookup), key', Tx);
      }
    case Advance(i) =>
      if i < |k.runs| {
        RunInvStep(k, i, i);
        forall j | 0 <= j < |n.runs| ensures RunInv(n, n.runs[j]) { RunInvStep(k, i, j); }
        forall key | key in n.entries ensures n.entries[key] == Tally(n.runs, key) { TallyStep(k, i, key); }
      }
  }

  lemma {:induction false} InvRun(k: Kernel, events: seq<Event>)
    requires Inv(k)
    ensures Inv(Run(k, events)) && Run(k, events).capacity == k.capacity
    decreases |events|
  {
    if events != [] {
      InvStep(k, events[0]);
      InvRun(Step(k, events[0]), events[1..]);
    }
  }

  /** In every schedule each entry holds exactly the adds executed for its key, modulo 2^64, and
      a finished run goes uncounted only when the map is full and lacks its key. */
  lemma {:induction false} CountersAreExact(capacity: nat, events: seq<Event>)
    ensures var k := Run(Boot(capacity), events);
            && |k.entries| <= capacity
            && (forall key :: key in k.entries ==> k.entries[key] == Tally(k.runs, key))
            && (forall i :: 0 <= i < |k.runs| && k.runs[i].pc == Uncounted ==>
                  k.runs[i].key !in k.entries && |k.entries| == capacity)
            && (forall i :: 0 <= i < |k.runs| && k.runs[i].pc == Counted ==> k.runs[i].key in k.entries)
  {
    InvRun(Boot(capacity), events);
    var k := Run(Boot(capacity), events);
    forall i | 0 <= i < |k.runs| ensures RunInv(k, k.runs[i]) {}
  }

  // ---------------------------------------------------------------------------------------
  // All or nothing: a key's packets are all counted or none is.

  function Arrived(runs: seq<ProgramRun>, key: nat, dir: Direction): nat {
    if runs == [] then 0
    else Arrived(runs[1..], key, dir) + if runs[0].key == key && runs[0].dir == dir then 1 else 0
  }

  function ArrivedBytes(runs: seq<ProgramRun>, key: nat, dir: Direction): nat {
    if runs == [] then 0
    else ArrivedBytes(runs[1..], key, dir) + if runs[0].key == key && runs[0].dir == dir then runs[0].len else 0
  }

  predicate Finished(runs: seq<ProgramRun>, key: nat) {
    forall i :: 0 <= i < |runs| && runs[i].key == key ==> runs[i].pc == Counted || runs[i].pc == Uncounted
  }

  lemma {:induction false} AllCounted(runs: seq<ProgramRun>, key: nat, dir: Direction)
    requires forall i :: 0 <= i < |runs| && runs[i].key == key ==> runs[i].pc == Counted
    ensures PacketAdds(runs, key, dir) == Arrived(runs, key, dir)
    ensures ByteAdds(runs, key, dir) == ArrivedBytes(runs, key, dir)
  {
    if runs != [] {
      AllCounted(runs[1..], key, dir);
    }
  }

  /** Once the runs of a key are finished, either its entry holds the number and the summed
      length of all its packets, or the map is full, has no entry for it, and counted none. */
  lemma {:induction false} AllOrNothing(capacity: nat, events: seq<Event>, key: nat)
    requires Finished(Run(Boot(capacity), events).runs, key)
    ensures var k, top := Run(Boot(capacity), events), 0x1_0000_0000_0000_0000;
            if key in k.entries then
              k.entries[key] == Stats(Arrived(k.runs, key, Rx) % top, ArrivedBytes(k.runs, key, Rx) % top,
                                      Arrived(k.runs, key, Tx) % top, ArrivedBytes(k.runs, key, Tx) % top)
            else
              forall i :: 0 <= i < |k.runs| && k.runs[i].key == key ==> k.runs[i].pc == Uncounted && |k.entries| == capacity
  {
    CountersAreExact(capacity, events);
    var k := Run(Boot(capacity), events);
    if key in k.entries {
      AllCounted(k.runs, key, Rx);
      AllCounted(k.runs, key, Tx);
    }
  }

  /** No step removes or resets an entry: it changes only by an add of a run on its own key. */
  lemma {:induction false} EntriesPersist(k: Kernel, e: Event, key: nat)
    requires key in k.entries
    ensures key in Step(k, e).entries
    ensures var s, s' := k.entries[key], Step(k, e).entries[key];
            || s' == s
            || (e.Advance? && e.run < |k.runs| && k.runs[e.run].key == key &&
                var r := k.runs[e.run];
                || (r.pc == AddPacket && s' == AddOnePacket(s, r.dir))
                || (r.pc == AddBytes && s' == AddLength(s, r.dir, r.len)))
  {
  }

  /** From any state on, an entry once there stays, and the unreduced counts never go down. */
  lemma {:induction false} NothingIsForgotten(k: Kernel, events: seq<Event>, key: nat, dir: Direction)
    ensures key in k.entries ==> key in Run(k, events).entries
    ensures PacketAdds(k.runs, key, dir) <= PacketAdds(Run(k, events).runs, key, dir)
    ensures ByteAdds(k.runs, key, dir) <= ByteAdds(Run(k, events).runs, key, dir)
    decreases |events|
  {
    if events != [] {
      AddsGrow(k, events[0], key, dir);
      NothingIsForgotten(Step(k, events[0]), events[1..], key, dir);
    }
  }

  lemma {:induction false} AddsGrow(k: Kernel, e: Event, key: nat, dir: Direction)
    ensures key in k.entries ==> key in Step(k, e).entries
    ensures PacketAdds(k.runs, key, dir) <= PacketAdds(Step(k, e).runs, key, dir)
    ensures ByteAdds(k.runs, key, dir) <= ByteAdds(Step(k, e).runs, key, dir)
  {
    if key in k.entries {
      EntriesPersist(k, e, key);
    }
    match e
    case Arrive(key', dir', len) => AddsAppend(k.runs, ProgramRun(key', dir', len, Lookup), key, dir);
    case Advance(i) =>
      if i < |k.runs| {
        var pc := NextPc(k, i);
        AddsUpdate(k.runs, i, pc, key, dir);
      }
  }

  /** Where a run is after its step, never before the adds it has executed. */
  lemma {:induction false} NextPc(k: Kernel, i: nat) returns (pc: Pc)
    requires i < |k.runs|
    ensures AdvanceRun(k, i).runs == k.runs[i := k.runs[i].(pc := pc)]
    ensures k.runs[i].pc == Counted ==> pc == Counted
    ensures k.runs[i].pc == AddBytes ==> pc == AddBytes || pc == Counted
  {
    pc := AdvanceRun(k, i).runs[i].pc;
  }
}

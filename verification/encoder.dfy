/** The RaptorQ encoder: ns3_apps/rq-encoder.cc. */
module Encoder {
  import opened Words
  import opened Header
  import opened Blocks

  /** What SendPacket finds on its sockets: room to send, and for each slot the bytes to read, if accepted. */
  datatype Tick = Tick(txAvail: nat, rx: seq<Option<nat>>)

  datatype State = State(next: nat, sbid: UInt32, esi: nat, counts: seq<UInt32>,
                         rxTotal: seq<nat>, log: seq<Header>)

  predicate Readable(cfg: Config, o: Tick, slot: nat) {
    slot < |o.rx| && o.rx[slot].Some? && o.rx[slot].value >= cfg.t
  }

  /** Is the slot at distance d from slot `end` readable? */
  predicate ReadableAt(cfg: Config, o: Tick, end: nat, d: nat)
    requires cfg.Valid() && end < cfg.slots && d < cfg.slots
  {
    Readable(cfg, o, Cyclic(cfg, end + d))
  }

  function Cyclic(cfg: Config, slot: nat): (c: nat)
    ensures slot < 2 * cfg.slots ==> c < cfg.slots
  {
    if slot < cfg.slots then slot else slot - cfg.slots
  }

  /** First distance >= d from slot `end`, going round, at which a slot is readable. */
  function Probe(cfg: Config, end: nat, o: Tick, d: nat): (p: Option<nat>)
    ensures p.Some? ==> d <= p.value < cfg.slots
    decreases cfg.slots - d
  {
    if d >= cfg.slots then None
    else if Readable(cfg, o, Cyclic(cfg, end + d)) then Some(d)
    else Probe(cfg, end, o, d + 1)
  }

  function Init(cfg: Config): State {
    State(0, 0, 0, Zeros(), Zeros(), [])
  }

  predicate Shaped(cfg: Config, s: State) {
    && cfg.Valid()
    && s.next < cfg.slots && s.esi < cfg.n
    && |s.counts| == |s.rxTotal| == SLOT_COUNT
  }

  /** Reading one symbol from a slot. */
  function Take(cfg: Config, s: State, slot: nat): (r: State)
    requires Shaped(cfg, s) && slot < cfg.slots
    ensures Shaped(cfg, r)
  {
    s.(next := Cyclic(cfg, slot + 1),
       counts := s.counts[slot := ToUInt32(s.counts[slot] as int + 1)],
       rxTotal := s.rxTotal[slot := s.rxTotal[slot] + cfg.t])
  }

  lemma SeqnoFits(cfg: Config, sbid: UInt32, esi: nat)
    requires cfg.Valid() && esi < cfg.n
    ensures 0 <= cfg.n * sbid + esi < TWO_64
  {
    MulNonNegative(cfg.n, sbid);
    MulNonNegative(TWO_31 - cfg.n, sbid);
    assert (TWO_31 - cfg.n) * sbid == TWO_31 * sbid - cfg.n * sbid;
  }

  /** The header of the next packet. */
  function Stamp(cfg: Config, s: State, streamid: Int32): Header
    requires Shaped(cfg, s)
  {
    SeqnoFits(cfg, s.sbid, s.esi);
    FromCounts(cfg.n * s.sbid + s.esi, streamid, s.counts[..cfg.slots])
  }

  function Emit(cfg: Config, s: State, streamid: Int32): (r: State)
    requires Shaped(cfg, s)
    ensures Shaped(cfg, r)
  {
    var r := s.(log := s.log + [Stamp(cfg, s, streamid)]);
    if s.esi + 1 == cfg.n then r.(esi := 0, sbid := ToUInt32(s.sbid as int + 1), counts := Zeros())
    else r.(esi := s.esi + 1)
  }

  function Step(cfg: Config, s: State, o: Tick): (r: State)
    requires Shaped(cfg, s)
    ensures Shaped(cfg, r)
  {
    if o.txAvail < cfg.t + MIN_SIZE + cfg.slots * 4 then s
    else if s.esi < cfg.k then
      match Probe(cfg, s.next, o, 0)
      case None => s
      case Some(d) =>
        var slot := Cyclic(cfg, s.next + d);
        Emit(cfg, Take(cfg, s, slot), slot)
    else Emit(cfg, s, -1)
  }

  function Run(cfg: Config, ticks: seq<Tick>): (r: State)
    requires cfg.Valid()
    ensures Shaped(cfg, r)
  {
    if ticks == [] then Init(cfg)
    else Step(cfg, Run(cfg, ticks[..|ticks| - 1]), ticks[|ticks| - 1])
  }

  // --- the round-robin probe ---

  /**
   * The probe goes through the slots once in cyclic order from `end` and stops at the
   * first readable one; it fails only if none is readable.
   */
  lemma {:induction false} ProbeFirst(cfg: Config, end: nat, o: Tick, d: nat)
    requires cfg.Valid() && end < cfg.slots && d <= cfg.slots
    ensures var r := Probe(cfg, end, o, d);
            && (r.Some? ==> && d <= r.value < cfg.slots
                            && Readable(cfg, o, Cyclic(cfg, end + r.value))
                            && forall e :: d <= e < r.value ==> !ReadableAt(cfg, o, end, e))
            && (r.None? ==> forall e :: d <= e < cfg.slots ==> !ReadableAt(cfg, o, end, e))
    decreases cfg.slots - d
  {
    if d < cfg.slots {
      var c := Cyclic(cfg, end + d);
      if !Readable(cfg, o, c) {
        ProbeFirst(cfg, end, o, d + 1);
      }
    }
  }

  /** The slot after the one at distance d, and the probe from there. */
  lemma NextSlot(cfg: Config, end: nat, d: nat, o: Tick)
    requires end < cfg.slots && d < cfg.slots
    ensures var c := Cyclic(cfg, end + d);
            && Cyclic(cfg, end + d + 1) == Cyclic(cfg, c + 1)
            && Probe(cfg, end, o, d) == if Readable(cfg, o, c) then Some(d) else Probe(cfg, end, o, d + 1)
  {
  }

  lemma NoneReadable(cfg: Config, end: nat, o: Tick)
    requires cfg.Valid() && end < cfg.slots
    ensures Probe(cfg, end, o, 0).None? <==> forall slot :: 0 <= slot < cfg.slots ==> !Readable(cfg, o, slot)
  {
    ProbeFirst(cfg, end, o, 0);
    if Probe(cfg, end, o, 0).None? {
      forall slot | 0 <= slot < cfg.slots
        ensures !Readable(cfg, o, slot)
      {
        var e := if slot >= end then slot - end else slot + cfg.slots - end;
        assert !ReadableAt(cfg, o, end, e) && Cyclic(cfg, end + e) == slot;
      }
    }
  }

  /** How far slot i is ahead of the pointer. */
  function Ahead(cfg: Config, next: nat, i: nat): int {
    if i >= next then i - next else i + cfg.slots - next
  }

  ghost predicate Served(log: seq<Header>, from: nat, i: nat) {
    exists at :: from <= at < |log| && log[at].streamid == i
  }

  ghost function Sources(log: seq<Header>, from: nat): nat
    decreases |log|
  {
    if |log| <= from then 0
    else Sources(log[..|log| - 1], from) + if log[|log| - 1].streamid >= 0 then 1 else 0
  }

  /** While slot i stays readable and unserved, every source packet brings the pointer closer to it. */
  lemma {:induction false} Approach(cfg: Config, ticks: seq<Tick>, m: nat, i: nat)
    requires cfg.Valid() && i < cfg.slots && m <= |ticks|
    requires forall j :: m <= j < |ticks| ==> Readable(cfg, ticks[j], i)
    ensures Approaching(cfg, Run(cfg, ticks[..m]), Run(cfg, ticks), i)
    decreases |ticks|
  {
    if m == |ticks| {
      assert ticks[..m] == ticks;
    } else {
      var before := ticks[..|ticks| - 1];
      assert before[..m] == ticks[..m];
      Approach(cfg, before, m, i);
      Closer(cfg, Run(cfg, ticks[..m]), Run(cfg, before), ticks[|ticks| - 1], i);
    }
  }

  /** The slot has been served since `from`, or has come closer by as many slots as symbols were sent. */
  ghost predicate Approaching(cfg: Config, from: State, s: State, i: nat) {
    && |from.log| <= |s.log|
    && (Served(s.log, |from.log|, i)
        || Sources(s.log, |from.log|) + Ahead(cfg, s.next, i) <= Ahead(cfg, from.next, i))
  }

  lemma Closer(cfg: Config, from: State, s: State, o: Tick, i: nat)
    requires Shaped(cfg, s) && i < cfg.slots && Readable(cfg, o, i) && Approaching(cfg, from, s, i)
    ensures Approaching(cfg, from, Step(cfg, s, o), i)
  {
    var r := Step(cfg, s, o);
    if Served(s.log, |from.log|, i) {
      var at :| |from.log| <= at < |s.log| && s.log[at].streamid == i;
      assert r.log[at] == s.log[at];
    } else if |r.log| > |s.log| {
      assert r.log[..|s.log|] == s.log;
      ApproachStep(cfg, s, o, i);
      if r.log[|s.log|].streamid == i {
        assert Served(r.log, |from.log|, i);
      }
    }
  }

  lemma ApproachStep(cfg: Config, s: State, o: Tick, i: nat)
    requires Shaped(cfg, s) && i < cfg.slots && Readable(cfg, o, i)
    requires |Step(cfg, s, o).log| > |s.log|
    ensures var r := Step(cfg, s, o);
            var id := r.log[|s.log|].streamid;
            id == i || (id < 0 && r.next == s.next)
            || (id >= 0 && Ahead(cfg, r.next, i) < Ahead(cfg, s.next, i))
  {
    if s.esi < cfg.k {
      ProbeFirst(cfg, s.next, o, 0);
      assert Cyclic(cfg, s.next + Ahead(cfg, s.next, i)) == i;
      assert ReadableAt(cfg, o, s.next, Ahead(cfg, s.next, i));
    }
  }

  /** A slot that stays readable is served within `slots` source packets. */
  lemma Fairness(cfg: Config, ticks: seq<Tick>, m: nat, i: nat)
    requires cfg.Valid() && i < cfg.slots && m <= |ticks|
    requires forall j :: m <= j < |ticks| ==> Readable(cfg, ticks[j], i)
    requires Sources(Run(cfg, ticks).log, |Run(cfg, ticks[..m]).log|) >= cfg.slots
    ensures Served(Run(cfg, ticks).log, |Run(cfg, ticks[..m]).log|, i)
  {
    Approach(cfg, ticks, m, i);
  }

  // --- what every step keeps ---

  ghost predicate Inv(cfg: Config, s: State) {
    && Shaped(cfg, s)
    && EncoderLog(cfg, s.log)
    && s.esi == Esi(cfg, |s.log|)
    && s.sbid == ToUInt32(Blk(cfg, |s.log|))
    && (forall i :: 0 <= i < cfg.slots ==> s.counts[i] == Occ(s.log, i, Start(cfg, |s.log|), |s.log|))
    && (forall i :: 0 <= i < cfg.slots ==> s.rxTotal[i] == cfg.t * Occ(s.log, i, 0, |s.log|))
  }

  /** The 64-bit sequence number counts packets, modulo n * 2^32. */
  lemma SeqnoIsPosition(cfg: Config, len: nat)
    requires cfg.Valid()
    ensures cfg.n * ToUInt32(Blk(cfg, len)) + Esi(cfg, len) == SeqnoAt(cfg, len)
  {
    var q, b := Blk(cfg, len) / TWO_32, ToUInt32(Blk(cfg, len));
    MulGap(cfg.n, b, TWO_32);
    MulNonNegative(cfg.n, b);
    assert Blk(cfg, len) == TWO_32 * q + b;
    assert len == q * (cfg.n * TWO_32) + (cfg.n * b + Esi(cfg, len)) by {
      assert Blk(cfg, len) * cfg.n == (TWO_32 * q) * cfg.n + b * cfg.n;
      assert (TWO_32 * q) * cfg.n == q * (cfg.n * TWO_32);
    }
    DivUnique(len, cfg.n * TWO_32, q, cfg.n * b + Esi(cfg, len));
  }

  /** Up to 2^32 blocks, packets are numbered from 0 without wrapping. */
  lemma SeqnoIsIndex(cfg: Config, at: nat)
    requires cfg.Valid() && at < cfg.n * TWO_32
    ensures SeqnoAt(cfg, at) == at
  {
    MulNonNegative(cfg.n, TWO_32);
    DivUnique(at, cfg.n * TWO_32, 0, at);
  }

  lemma StampedPrefix(cfg: Config, log: seq<Header>, more: seq<Header>, at: nat)
    requires cfg.Valid() && at < |log| && Stamped(cfg, log, at)
    ensures Stamped(cfg, log + more, at)
  {
    var lo, hi, longer := Start(cfg, at), at + 1, log + more;
    forall i: nat | i < cfg.slots
      ensures Occ(longer, i, lo, hi) == Occ(log, i, lo, hi)
    {
      OccPrefix(log, more, i, lo, hi);
    }
  }

  lemma LogGrows(cfg: Config, log: seq<Header>, h: Header)
    requires cfg.Valid() && EncoderLog(cfg, log) && Stamped(cfg, log + [h], |log|)
    ensures EncoderLog(cfg, log + [h])
  {
    forall at | 0 <= at < |log|
      ensures Stamped(cfg, log + [h], at)
    {
      StampedPrefix(cfg, log, [h], at);
    }
  }

  /** s is an invariant state whose last read, if any, has been counted but not yet sent. */
  ghost predicate Unsent(cfg: Config, s: State, streamid: Int32) {
    && Shaped(cfg, s)
    && EncoderLog(cfg, s.log)
    && s.esi == Esi(cfg, |s.log|)
    && s.sbid == ToUInt32(Blk(cfg, |s.log|))
    && (if s.esi < cfg.k then 0 <= streamid < cfg.slots else streamid == -1)
    && (forall i :: 0 <= i < cfg.slots ==>
          s.counts[i] == Occ(s.log, i, Start(cfg, |s.log|), |s.log|) + if i == streamid then 1 else 0)
    && (forall i :: 0 <= i < cfg.slots ==>
          s.rxTotal[i] == cfg.t * (Occ(s.log, i, 0, |s.log|) + if i == streamid then 1 else 0))
  }

  lemma TakeCounts(cfg: Config, s: State, slot: nat)
    requires Inv(cfg, s) && s.esi < cfg.k && slot < cfg.slots
    ensures Unsent(cfg, Take(cfg, s, slot), slot)
  {
    StartIsAligned(cfg, |s.log|);
    OccBound(cfg, s.log, slot, Start(cfg, |s.log|), |s.log|);
  }

  lemma EmitCounts(cfg: Config, s: State, streamid: Int32, h: Header, i: nat)
    requires Unsent(cfg, s, streamid) && i < cfg.slots && h.streamid == streamid
    ensures var log, len := s.log + [h], |s.log|;
            && Occ(log, i, Start(cfg, len), len + 1) == s.counts[i] < TWO_31
            && s.rxTotal[i] == cfg.t * Occ(log, i, 0, len + 1)
  {
    var len := |s.log|;
    StartIsAligned(cfg, len);
    OccPrefix(s.log, [h], i, Start(cfg, len), len);
    OccPrefix(s.log, [h], i, 0, len);
    OccBound(cfg, s.log, i, Start(cfg, len), len);
  }

  lemma EmitStamps(cfg: Config, s: State, streamid: Int32)
    requires Unsent(cfg, s, streamid)
    ensures Stamped(cfg, Emit(cfg, s, streamid).log, |s.log|)
  {
    SeqnoIsPosition(cfg, |s.log|);
    var h := Stamp(cfg, s, streamid);
    forall i: nat | i < cfg.slots
      ensures h.iseq[i] == Occ(s.log + [h], i, Start(cfg, |s.log|), |s.log| + 1)
    {
      EmitCounts(cfg, s, streamid, h, i);
    }
  }

  lemma EmitKeeps(cfg: Config, s: State, streamid: Int32)
    requires Unsent(cfg, s, streamid)
    ensures Inv(cfg, Emit(cfg, s, streamid))
  {
    var h, len, r := Stamp(cfg, s, streamid), |s.log|, Emit(cfg, s, streamid);
    EmitStamps(cfg, s, streamid);
    LogGrows(cfg, s.log, h);
    NextBlock(cfg, s, streamid);
    forall i: nat | i < cfg.slots
      ensures r.counts[i] == Occ(r.log, i, Start(cfg, len + 1), len + 1)
      ensures r.rxTotal[i] == cfg.t * Occ(r.log, i, 0, len + 1)
    {
      EmitCounts(cfg, s, streamid, h, i);
    }
  }

  lemma NextBlock(cfg: Config, s: State, streamid: Int32)
    requires Unsent(cfg, s, streamid)
    ensures var r, len := Emit(cfg, s, streamid), |s.log|;
            && r.esi == Esi(cfg, len + 1) && r.sbid == ToUInt32(Blk(cfg, len + 1))
            && Start(cfg, len + 1) == (if r.esi == 0 then len + 1 else Start(cfg, len))
  {
    DivStep(|s.log|, cfg.n);
    StartStep(cfg, |s.log|);
    WrapAdd(Blk(cfg, |s.log|), 1);
  }

  lemma StepKeeps(cfg: Config, s: State, o: Tick)
    requires Inv(cfg, s)
    ensures Inv(cfg, Step(cfg, s, o))
  {
    if o.txAvail >= cfg.t + MIN_SIZE + cfg.slots * 4 {
      if s.esi >= cfg.k {
        EmitKeeps(cfg, s, -1);
      } else if Probe(cfg, s.next, o, 0).Some? {
        var slot := Cyclic(cfg, s.next + Probe(cfg, s.next, o, 0).value);
        if slot < cfg.slots {
          TakeCounts(cfg, s, slot);
          EmitKeeps(cfg, Take(cfg, s, slot), slot);
        }
      }
    }
  }

  /**
   * Over every run the sequence numbers are 0, 1, 2, ... (modulo n * 2^32), each block is k
   * source then n - k repair packets, and each header counts the symbols of its block so far.
   */
  lemma {:induction false} RunIsStamped(cfg: Config, ticks: seq<Tick>)
    requires cfg.Valid()
    ensures Inv(cfg, Run(cfg, ticks))
  {
    if ticks != [] {
      RunIsStamped(cfg, ticks[..|ticks| - 1]);
      StepKeeps(cfg, Run(cfg, ticks[..|ticks| - 1]), ticks[|ticks| - 1]);
    }
  }

  // --- when a packet is sent, and from which slot ---

  lemma RunStep(cfg: Config, ticks: seq<Tick>, o: Tick)
    requires cfg.Valid()
    ensures Run(cfg, ticks + [o]) == Step(cfg, Run(cfg, ticks), o)
  {
    assert (ticks + [o])[..|ticks|] == ticks;
  }

  lemma EsiOfRun(cfg: Config, ticks: seq<Tick>)
    requires cfg.Valid()
    ensures Run(cfg, ticks).esi == Esi(cfg, |Run(cfg, ticks).log|)
  {
    RunIsStamped(cfg, ticks);
  }

  /** Slot i has been accepted and has at least a symbol to read. */
  ghost predicate HasSymbol(o: Tick, t: int, i: int) {
    0 <= i < |o.rx| && o.rx[i].Some? && o.rx[i].value >= t
  }

  lemma FilledIff(cfg: Config, s: State, o: Tick)
    requires Shaped(cfg, s)
    ensures Probe(cfg, s.next, o, 0).Some? <==> exists i :: 0 <= i < cfg.slots && HasSymbol(o, cfg.t, i)
  {
    NoneReadable(cfg, s.next, o);
    if Probe(cfg, s.next, o, 0).Some? {
      ProbeFirst(cfg, s.next, o, 0);
      var i := Cyclic(cfg, s.next + Probe(cfg, s.next, o, 0).value);
      assert HasSymbol(o, cfg.t, i);
    } else {
      forall i | 0 <= i < cfg.slots
        ensures !HasSymbol(o, cfg.t, i)
      {
        assert !Readable(cfg, o, i);
      }
    }
  }

  lemma StepSends(cfg: Config, s: State, o: Tick)
    requires Shaped(cfg, s)
    ensures var r := Step(cfg, s, o);
            if o.txAvail >= cfg.t + 20 + 4 * cfg.slots && (s.esi < cfg.k ==> Probe(cfg, s.next, o, 0).Some?)
            then |r.log| == |s.log| + 1 && s.log < r.log else r == s
  {
  }

  /**
   * A tick sends exactly one packet if the socket has room for header and symbol and, in the
   * source part of a block, some slot has a symbol to read; otherwise it changes nothing.
   */
  lemma SendsIff(cfg: Config, ticks: seq<Tick>, o: Tick)
    requires cfg.Valid()
    ensures var s, r := Run(cfg, ticks), Run(cfg, ticks + [o]);
            var filled := exists i :: 0 <= i < cfg.slots && HasSymbol(o, cfg.t, i);
            if o.txAvail >= cfg.t + 20 + 4 * cfg.slots && (Esi(cfg, |s.log|) < cfg.k ==> filled)
            then |r.log| == |s.log| + 1 && s.log < r.log else r == s
  {
    var s := Run(cfg, ticks);
    EsiOfRun(cfg, ticks);
    RunStep(cfg, ticks, o);
    FilledIff(cfg, s, o);
    StepSends(cfg, s, o);
  }

  /** The slot after the one that was served last. */
  ghost function AfterLast(cfg: Config, log: seq<Header>): int {
    if log == [] then 0
    else
      var i := log[|log| - 1].streamid;
      if i < 0 then AfterLast(cfg, log[..|log| - 1]) else if i + 1 == cfg.slots then 0 else i + 1
  }

  lemma {:induction false} PointerIsAfterLast(cfg: Config, ticks: seq<Tick>)
    requires cfg.Valid()
    ensures Run(cfg, ticks).next == AfterLast(cfg, Run(cfg, ticks).log)
  {
    if ticks != [] {
      var before := ticks[..|ticks| - 1];
      PointerIsAfterLast(cfg, before);
      PointerStep(cfg, Run(cfg, before), ticks[|ticks| - 1]);
    }
  }

  lemma PointerStep(cfg: Config, s: State, o: Tick)
    requires Shaped(cfg, s) && s.next == AfterLast(cfg, s.log)
    ensures Step(cfg, s, o).next == AfterLast(cfg, Step(cfg, s, o).log)
  {
    var r := Step(cfg, s, o);
    assert |r.log| > |s.log| ==> r.log[..|s.log|] == s.log;
  }

  /** Going round from slot `start`, j comes before i. */
  ghost predicate Nearer(start: int, j: int, i: int) {
    if start <= j then i < start || j < i else i < start && j < i
  }

  /** Slot i has a symbol to read, and no slot before it, going round from slot `start`. */
  ghost predicate FirstWithSymbol(cfg: Config, o: Tick, start: int, i: int) {
    && 0 <= i < cfg.slots && HasSymbol(o, cfg.t, i)
    && forall j :: 0 <= j < cfg.slots && Nearer(start, j, i) ==> !HasSymbol(o, cfg.t, j)
  }

  /** The slot that the probe finds. */
  lemma FirstFilled(cfg: Config, next: nat, o: Tick)
    requires cfg.Valid() && next < cfg.slots && Probe(cfg, next, o, 0).Some?
    ensures FirstWithSymbol(cfg, o, next, Cyclic(cfg, next + Probe(cfg, next, o, 0).value))
  {
    ProbeFirst(cfg, next, o, 0);
    var d := Probe(cfg, next, o, 0).value;
    forall j: nat | j < cfg.slots && Nearer(next, j, Cyclic(cfg, next + d))
      ensures !HasSymbol(o, cfg.t, j)
    {
      var e := Ahead(cfg, next, j);
      assert Cyclic(cfg, next + e) == j && e < d;
      assert !ReadableAt(cfg, o, next, e);
    }
  }

  lemma StepServes(cfg: Config, s: State, o: Tick)
    requires Shaped(cfg, s) && |Step(cfg, s, o).log| > |s.log| && s.esi < cfg.k
    ensures FirstWithSymbol(cfg, o, s.next, Step(cfg, s, o).log[|s.log|].streamid)
  {
    var p := Probe(cfg, s.next, o, 0);
    assert p.Some? && Step(cfg, s, o).log[|s.log|].streamid == Cyclic(cfg, s.next + p.value);
    FirstFilled(cfg, s.next, o);
  }

  /**
   * Round robin: a source packet takes its symbol from the first slot, in cyclic order after the
   * one served last, that has a symbol to read.
   */
  lemma RoundRobin(cfg: Config, ticks: seq<Tick>, o: Tick)
    requires cfg.Valid() && |Run(cfg, ticks + [o]).log| > |Run(cfg, ticks).log|
    requires Esi(cfg, |Run(cfg, ticks).log|) < cfg.k
    ensures var log, longer := Run(cfg, ticks).log, Run(cfg, ticks + [o]).log;
            FirstWithSymbol(cfg, o, AfterLast(cfg, log), longer[|log|].streamid)
  {
    var s := Run(cfg, ticks);
    EsiOfRun(cfg, ticks);
    RunStep(cfg, ticks, o);
    PointerIsAfterLast(cfg, ticks);
    StepServes(cfg, s, o);
  }

  // --- the application object ---

  class RqEncoder {
    const cfg: Config
    var m_nextRxSlot: nat
    var m_sbid: UInt32
    var m_esi: nat
    const m_symbcounts: array<UInt32>
    const rxTotal: array<nat>
    ghost var log: seq<Header>

    ghost predicate Valid()
      reads this, m_symbcounts, rxTotal
    {
      m_symbcounts as object != rxTotal && Inv(cfg, Value())
    }

    ghost function Value(): State
      reads this, m_symbcounts, rxTotal
    {
      State(m_nextRxSlot, m_sbid, m_esi, m_symbcounts[..], rxTotal[..], log)
    }

    constructor (cfg: Config)
      requires cfg.Valid()
      ensures Valid() && this.cfg == cfg && Value() == Init(cfg)
      ensures fresh(m_symbcounts) && fresh(rxTotal)
    {
      this.cfg := cfg;
      m_nextRxSlot, m_sbid, m_esi, log := 0, 0, 0, [];
      m_symbcounts := new UInt32[SLOT_COUNT](i => 0);
      rxTotal := new nat[SLOT_COUNT](i => 0);
      new;
      assert m_symbcounts[..] == Zeros() && rxTotal[..] == Zeros();
    }

    /** One timer tick: forward one symbol or repair packet if the sockets allow it. */
    method SendPacket(o: Tick) returns (sent: Option<Header>)
      requires Valid()
      modifies this, m_symbcounts, rxTotal
      ensures Valid() && Value() == Step(cfg, old(Value()), o)
      ensures log == old(log) + if sent.Some? then [sent.value] else []
    {
      StepKeeps(cfg, Value(), o);
      if o.txAvail < cfg.t + MIN_SIZE + cfg.slots * 4 {
        return None;
      }
      var streamid := -1;
      if m_esi < cfg.k {
        streamid := ReadNext(o);
        if streamid == -1 {
          return None;
        }
      }
      var hdr := Transmit(streamid);
      sent := Some(hdr);
    }

    /** Take the symbol read and count it. */
    method ReadSymbol(slot: nat)
      requires Shaped(cfg, Value()) && m_symbcounts as object != rxTotal && slot < cfg.slots
      modifies m_symbcounts, rxTotal
      ensures Value() == Take(cfg, old(Value()), slot).(next := m_nextRxSlot)
    {
      rxTotal[slot] := rxTotal[slot] + cfg.t;
      m_symbcounts[slot] := ToUInt32(m_symbcounts[slot] as int + 1);
    }

    /** The probe loop: the next readable slot, if there is one. */
    method FindReadable(o: Tick) returns (streamid: int)
      requires cfg.Valid() && m_nextRxSlot < cfg.slots
      modifies `m_nextRxSlot
      ensures var p := Probe(cfg, old(m_nextRxSlot), o, 0);
              if p.None? then streamid == -1 && m_nextRxSlot == old(m_nextRxSlot)
              else && streamid == Cyclic(cfg, old(m_nextRxSlot) + p.value) < cfg.slots
                   && m_nextRxSlot == Cyclic(cfg, streamid + 1)
    {
      ghost var found := Probe(cfg, m_nextRxSlot, o, 0);
      var end := m_nextRxSlot;
      var tested := 0;
      // do ... while (m_nextRxSlot != end)
      while tested == 0 || m_nextRxSlot != end
        invariant tested <= cfg.slots && m_nextRxSlot == Cyclic(cfg, end + tested)
        invariant found == Probe(cfg, end, o, tested)
        decreases cfg.slots - tested
      {
        var slot := m_nextRxSlot;
        NextSlot(cfg, end, tested, o);
        m_nextRxSlot := m_nextRxSlot + 1;
        if m_nextRxSlot == cfg.slots {
          m_nextRxSlot := 0;
        }
        if slot < |o.rx| && o.rx[slot].Some? && o.rx[slot].value >= cfg.t {
          return slot;
        }
        tested := tested + 1;
      }
      streamid := -1;
    }

    /** Take a symbol from the next readable slot, if there is one. */
    method ReadNext(o: Tick) returns (streamid: int)
      requires Shaped(cfg, Value()) && m_symbcounts as object != rxTotal
      modifies `m_nextRxSlot, m_symbcounts, rxTotal
      ensures var p := Probe(cfg, old(m_nextRxSlot), o, 0);
              if p.None? then streamid == -1 && Value() == old(Value())
              else && streamid == Cyclic(cfg, old(m_nextRxSlot) + p.value) < cfg.slots
                   && Value() == Take(cfg, old(Value()), streamid)
    {
      streamid := FindReadable(o);
      if streamid != -1 {
        ReadSymbol(streamid);
      }
    }

    /** Stamp and send a packet, then move to the next ESI and possibly the next block. */
    method Transmit(streamid: Int32) returns (hdr: Header)
      requires Shaped(cfg, Value()) && m_symbcounts as object != rxTotal
      modifies `m_esi, `m_sbid, `log, m_symbcounts
      ensures hdr == Stamp(cfg, old(Value()), streamid)
      ensures Value() == Emit(cfg, old(Value()), streamid)
    {
      SeqnoFits(cfg, m_sbid, m_esi);
      hdr := FromCounts(cfg.n * m_sbid + m_esi, streamid, m_symbcounts[..cfg.slots]);
      log := log + [hdr];
      m_esi := m_esi + 1;
      if m_esi == cfg.n {
        m_esi := 0;
        m_sbid := ToUInt32(m_sbid as int + 1);
        forall i | 0 <= i < m_symbcounts.Length {
          m_symbcounts[i] := 0;
        }
        assert m_symbcounts[..] == Zeros();
      }
    }
  }
}

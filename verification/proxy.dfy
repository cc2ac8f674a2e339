/** The time-slice proxy: ns3_apps/timed-proxy.cc. Times are in nanoseconds. */
module Proxy {
  import opened Words
  import Header

  type Packet = Header.Bytes

  const NS_PER_MS: nat := 1_000_000
  const NS_PER_S: nat := 1_000_000_000

  /** Slice width and taper in milliseconds, slices in a cycle, map of active slices, bits per second. */
  datatype Config = Config(width: nat, taper: nat, nSlices: nat, activeMap: UInt32, rate: nat) {
    /** What the slot search needs to be defined and to end. */
    ghost predicate Valid() {
      && width >= 1 && 1 <= nSlices <= 32 && rate >= 1
      && exists k :: 0 <= k < nSlices && Bit(activeMap, k)
    }
  }

  /** Bit k of a map, as `(1u << k) & map` tests it. */
  predicate Bit(bits: nat, k: nat)
    decreases k
  {
    if k == 0 then bits % 2 == 1 else Bit(bits / 2, k - 1)
  }

  function Ms(t: nat): nat {
    t / NS_PER_MS
  }

  function SlotOf(cfg: Config, t: nat): nat
    requires cfg.width >= 1
  {
    Ms(t) / cfg.width
  }

  predicate Active(cfg: Config, slot: nat)
    requires cfg.nSlices >= 1
  {
    Bit(cfg.activeMap, slot % cfg.nSlices)
  }

  /** t is in an active slice and not in the taper at the slice's end. */
  predicate Eligible(cfg: Config, t: nat)
    requires cfg.width >= 1 && cfg.nSlices >= 1
  {
    Active(cfg, SlotOf(cfg, t)) && Ms(t) % cfg.width + cfg.taper < cfg.width
  }

  /** First active slot from s on, looking at `left` slots at most. */
  function Search(cfg: Config, s: nat, left: nat): nat
    requires cfg.nSlices >= 1
    decreases left
  {
    if left == 0 || Active(cfg, s) then s else Search(cfg, s + 1, left - 1)
  }

  function SlotStart(cfg: Config, slot: nat): nat {
    slot * cfg.width * NS_PER_MS
  }

  /** The next transmission opportunity at or after t. */
  function NextTime(cfg: Config, t: nat): nat
    requires cfg.width >= 1 && cfg.nSlices >= 1
  {
    if Eligible(cfg, t) then t else SlotStart(cfg, Search(cfg, SlotOf(cfg, t) + 1, cfg.nSlices))
  }

  /** Sending time of a packet at the configured rate. */
  function Duration(cfg: Config, p: Packet): nat
    requires cfg.rate >= 1
  {
    |p| * 8 * NS_PER_S / cfg.rate
  }

  // --- the slot search ---

  lemma {:induction false} RemainderAdvance(s: nat, j: nat, n: nat)
    requires n >= 1 && j <= n
    ensures (s + j) % n == if s % n + j < n then s % n + j else s % n + j - n
    decreases j
  {
    if j > 0 {
      RemainderAdvance(s, j - 1, n);
      DivStep(s + j - 1, n);
    }
  }

  /** Some slot among any nSlices consecutive ones is active. */
  lemma ActiveWithin(cfg: Config, s: nat)
    requires cfg.Valid()
    ensures exists x: nat :: s <= x < s + cfg.nSlices && Active(cfg, x)
  {
    var k :| 0 <= k < cfg.nSlices && Bit(cfg.activeMap, k);
    var m := s % cfg.nSlices;
    var j := if k >= m then k - m else k + cfg.nSlices - m;
    RemainderAdvance(s, j, cfg.nSlices);
    assert Active(cfg, s + j);
  }

  lemma {:induction false} SearchFirst(cfg: Config, s: nat, left: nat)
    requires cfg.nSlices >= 1 && exists x: nat :: s <= x < s + left && Active(cfg, x)
    ensures var r := Search(cfg, s, left);
            s <= r < s + left && Active(cfg, r) && forall x :: s <= x < r ==> !Active(cfg, x)
    decreases left
  {
    if !Active(cfg, s) {
      SearchFirst(cfg, s + 1, left - 1);
    }
  }

  lemma SlotStartFacts(cfg: Config, slot: nat)
    requires cfg.width >= 1
    ensures SlotOf(cfg, SlotStart(cfg, slot)) == slot && Ms(SlotStart(cfg, slot)) % cfg.width == 0
    ensures forall u: nat :: u < SlotStart(cfg, slot) ==> SlotOf(cfg, u) < slot
    ensures forall u: nat :: u >= SlotStart(cfg, slot) ==> SlotOf(cfg, u) >= slot
  {
    MulNonNegative(slot, cfg.width);
    var p := slot * cfg.width;
    assert Ms(SlotStart(cfg, slot)) == p;
    DivUnique(p, cfg.width, slot, 0);
    forall u: nat
      ensures u < SlotStart(cfg, slot) ==> SlotOf(cfg, u) < slot
      ensures u >= SlotStart(cfg, slot) ==> SlotOf(cfg, u) >= slot
    {
      if u < SlotStart(cfg, slot) {
        assert Ms(u) < p;
        DivMonotone(Ms(u), p, cfg.width);
      } else {
        DivMonotone(p, Ms(u), cfg.width);
      }
    }
  }

  /** Slot s is the time from s to s + 1 slice widths, in milliseconds. */
  lemma SlotCovers(cfg: Config, slot: nat, t: nat)
    requires cfg.width >= 1
    ensures SlotOf(cfg, t) == slot <==> slot * cfg.width * 1_000_000 <= t < (slot + 1) * cfg.width * 1_000_000
  {
    SlotStartFacts(cfg, slot);
    SlotStartFacts(cfg, slot + 1);
  }

  /** The opportunity found lies in an active slice, at most nSlices slices ahead. */
  lemma NextTimeActive(cfg: Config, t: nat)
    requires cfg.Valid()
    ensures var r := NextTime(cfg, t);
            r >= t && Active(cfg, SlotOf(cfg, r)) && SlotOf(cfg, r) <= SlotOf(cfg, t) + cfg.nSlices
  {
    if !Eligible(cfg, t) {
      var s := SlotOf(cfg, t) + 1;
      ActiveWithin(cfg, s);
      SearchFirst(cfg, s, cfg.nSlices);
      SlotStartFacts(cfg, Search(cfg, s, cfg.nSlices));
    }
  }

  /** From t on, a packet may go at an eligible time or at the start of a later active slice. */
  ghost predicate Opportunity(cfg: Config, t: nat, u: nat)
    requires cfg.Valid()
  {
    || (u >= t && Eligible(cfg, u))
    || (u > t && Active(cfg, SlotOf(cfg, u)) && u == SlotStart(cfg, SlotOf(cfg, u)))
  }

  /** With a taper shorter than a slice, opportunities are the eligible times. */
  lemma OpportunityIsEligible(cfg: Config, t: nat, u: nat)
    requires cfg.Valid() && cfg.taper < cfg.width
    ensures Opportunity(cfg, t, u) <==> u >= t && Eligible(cfg, u)
  {
    SlotStartFacts(cfg, SlotOf(cfg, u));
  }

  /** Whatever the taper, the search finds the first opportunity. */
  lemma NextTimeFirst(cfg: Config, t: nat)
    requires cfg.Valid()
    ensures Opportunity(cfg, t, NextTime(cfg, t))
    ensures forall u: nat :: u < NextTime(cfg, t) ==> !Opportunity(cfg, t, u)
  {
    if !Eligible(cfg, t) {
      var s := SlotOf(cfg, t) + 1;
      ActiveWithin(cfg, s);
      SearchFirst(cfg, s, cfg.nSlices);
      SlotStartFacts(cfg, Search(cfg, s, cfg.nSlices));
      SlotStartFacts(cfg, s - 1);
      forall u: nat | t <= u < NextTime(cfg, t)
        ensures !Opportunity(cfg, t, u)
      {
        DivMonotone(Ms(t), Ms(u), cfg.width);
      }
    }
  }

  /** With a taper shorter than a slice, it is the earliest eligible time from t on. */
  lemma NextTimeEarliest(cfg: Config, t: nat)
    requires cfg.Valid() && cfg.taper < cfg.width
    ensures Eligible(cfg, NextTime(cfg, t)) && NextTime(cfg, t) >= t
    ensures forall u: nat :: t <= u < NextTime(cfg, t) ==> !Eligible(cfg, u)
  {
    NextTimeFirst(cfg, t);
    OpportunityIsEligible(cfg, t, NextTime(cfg, t));
    forall u: nat | t <= u < NextTime(cfg, t)
      ensures !Eligible(cfg, u)
    {
      OpportunityIsEligible(cfg, t, u);
    }
  }

  /** Opportunities are always eligible exactly when the taper is shorter than a slice. */
  lemma EligibleIff(cfg: Config)
    requires cfg.Valid()
    ensures (forall t: nat :: Eligible(cfg, NextTime(cfg, t))) <==> cfg.taper < cfg.width
  {
    if cfg.taper < cfg.width {
      forall t: nat ensures Eligible(cfg, NextTime(cfg, t)) {
        NextTimeEarliest(cfg, t);
      }
    } else {
      assert !Eligible(cfg, NextTime(cfg, 0));
    }
  }

  // --- runs of the proxy ---

  /** A packet sent, when, and whether it opened a busy period. */
  datatype Sent = Sent(p: Packet, at: nat, opens: bool)

  /** `received` and `arrived` log the packets and when they came, `sent` those that left, in order. */
  datatype State = State(now: nat, store: seq<Packet>, pending: Option<nat>, txEnd: nat,
                         received: seq<Packet>, arrived: seq<nat>, sent: seq<Sent>, opening: bool)

  datatype Event = Rx(at: nat, p: Packet) | Fire

  const INIT := State(0, [], None, 0, [], [], [], false)

  /** Events happen in time order, and a send event not later than any event after it. */
  predicate Enabled(s: State, e: Event) {
    match e
    case Rx(at, _) => s.now <= at && (s.pending.Some? ==> at <= s.pending.value)
    case Fire => s.pending.Some?
  }

  /** A packet arrives; `next` is when it can go out if it finds the store empty. */
  function Store(s: State, at: nat, p: Packet, next: nat): State {
    var r := if s.store == [] then s.(pending := Some(next), opening := true) else s;
    r.(now := at, store := r.store + [p], received := r.received + [p], arrived := r.arrived + [at])
  }

  function Receive(cfg: Config, s: State, at: nat, p: Packet): State
    requires cfg.width >= 1 && cfg.nSlices >= 1
  {
    Store(s, at, p, NextTime(cfg, Max(s.txEnd, at)))
  }

  /** The first packet leaves; `next` is when the one behind it can go out, `end` when that one starts counting. */
  function Unstore(s: State, at: nat, next: nat, end: nat): State
    requires s.store != []
  {
    var r := s.(now := at, store := s.store[1..], pending := None, opening := false,
                sent := s.sent + [Sent(s.store[0], at, s.opening)]);
    if r.store == [] then r else r.(pending := Some(next), txEnd := end)
  }

  function Send(cfg: Config, s: State, at: nat): State
    requires cfg.width >= 1 && cfg.nSlices >= 1 && cfg.rate >= 1 && s.store != []
  {
    var next := NextTime(cfg, Max(s.txEnd, at));
    Unstore(s, at, next, next + Duration(cfg, s.store[0]))
  }

  ghost function Step(cfg: Config, s: State, e: Event): State
    requires cfg.Valid() && Enabled(s, e) && (e.Fire? ==> s.store != [])
  {
    match e
    case Rx(at, p) => Receive(cfg, s, at, p)
    case Fire => Send(cfg, s, s.pending.value)
  }

  /** The state after a run; an event that is not enabled cannot happen and changes nothing. */
  ghost function Run(cfg: Config, events: seq<Event>): (s: State)
    requires cfg.Valid()
    ensures Inv(cfg, s)
  {
    if events == [] then INIT
    else
      var s, e := Run(cfg, events[..|events| - 1]), events[|events| - 1];
      if Enabled(s, e) then
        StepKeeps(cfg, s, e);
        Step(cfg, s, e)
      else s
  }

  ghost function Packets(sent: seq<Sent>): (ps: seq<Packet>)
    ensures |ps| == |sent| && forall j :: 0 <= j < |sent| ==> ps[j] == sent[j].p
  {
    seq(|sent|, j requires 0 <= j < |sent| => sent[j].p)
  }

  /**
   * What is charged to the send after send j: nothing if send j opens a busy period, else the
   * duration of the packet before it.
   */
  ghost function Charge(cfg: Config, sent: seq<Sent>, j: nat): nat
    requires cfg.Valid() && j < |sent|
  {
    if sent[j].opens || j == 0 then 0 else Duration(cfg, sent[j - 1].p)
  }

  /** When the search for send j starts: its packet is there, and what it is charged has passed. */
  ghost function From(cfg: Config, sent: seq<Sent>, arrived: seq<nat>, j: nat): nat
    requires cfg.Valid() && j <= |sent| && j < |arrived|
  {
    if j == 0 then arrived[0] else Max(arrived[j], sent[j - 1].at + Charge(cfg, sent, j - 1))
  }

  /** Send j is at the first opportunity, and opens a busy period if its packet came after send j - 1. */
  ghost predicate Spaced(cfg: Config, sent: seq<Sent>, arrived: seq<nat>, j: nat)
    requires cfg.Valid() && j < |sent| <= |arrived|
  {
    && sent[j].at == NextTime(cfg, From(cfg, sent, arrived, j))
    && Follows(sent, arrived, j, sent[j].opens)
    && (j >= 1 ==> sent[j].at >= sent[j - 1].at)
  }

  /** Packet j came after the one before it had left, or while that one was waiting. */
  ghost predicate Follows(sent: seq<Sent>, arrived: seq<nat>, j: nat, opens: bool)
    requires j <= |sent| && j < |arrived|
  {
    && (opens && j >= 1 ==> arrived[j] >= sent[j - 1].at)
    && (!opens ==> j >= 1 && arrived[j] <= sent[j - 1].at)
  }

  ghost predicate AllSpaced(cfg: Config, sent: seq<Sent>, arrived: seq<nat>)
    requires cfg.Valid() && |sent| <= |arrived|
  {
    && (forall j :: 0 <= j < |sent| ==> Fair(cfg, sent[j].at))
    && (forall j {:trigger Spaced(cfg, sent, arrived, j)} :: 0 <= j < |sent| ==> Spaced(cfg, sent, arrived, j))
  }

  /**
   * What every event keeps: a send is pending exactly when something is stored, packets leave in
   * the order they came and none vanishes, every send is in an active slice (and outside the
   * taper, if that leaves any time at all), and every send is at the first opportunity.
   */
  ghost predicate Inv(cfg: Config, s: State) {
    && cfg.Valid()
    && (s.pending.Some? <==> s.store != [])
    && s.received == Packets(s.sent) + s.store
    && |s.arrived| == |s.received|
    && (forall j :: 0 <= j < |s.arrived| ==> s.arrived[j] <= s.now)
    && AllSpaced(cfg, s.sent, s.arrived)
    && (s.sent != [] ==> s.sent[|s.sent| - 1].at <= s.now)
    && (s.pending.Some? ==> Fair(cfg, s.pending.value) && s.pending.value >= s.now && Upcoming(cfg, s))
    && (s.pending.None? ==> Idle(cfg, s))
  }

  ghost predicate Fair(cfg: Config, at: nat)
    requires cfg.Valid()
  {
    Active(cfg, SlotOf(cfg, at)) && (cfg.taper < cfg.width ==> Eligible(cfg, at))
  }

  /** The pending send is at its first opportunity as well, and so will be the one after it. */
  ghost predicate Upcoming(cfg: Config, s: State)
    requires cfg.Valid() && s.pending.Some? && |s.sent| < |s.arrived|
  {
    var n, next := |s.sent|, s.pending.value;
    && next == NextTime(cfg, From(cfg, s.sent, s.arrived, n))
    && Follows(s.sent, s.arrived, n, s.opening)
    && (n >= 1 ==> next >= s.sent[n - 1].at)
    && if s.opening then next >= s.txEnd else s.txEnd == next + Duration(cfg, s.sent[n - 1].p)
  }

  /** With nothing stored, the end time kept is the one the last send was charged, if it was charged any. */
  ghost predicate Idle(cfg: Config, s: State)
    requires cfg.Valid()
  {
    var n := |s.sent|;
    if n == 0 then s.txEnd == 0
    else if s.sent[n - 1].opens then s.txEnd <= s.sent[n - 1].at
    else s.txEnd == s.sent[n - 1].at + Charge(cfg, s.sent, n - 1)
  }

  lemma NextIsFair(cfg: Config, t: nat)
    requires cfg.Valid()
    ensures Fair(cfg, NextTime(cfg, t)) && NextTime(cfg, t) >= t
  {
    NextTimeActive(cfg, t);
    if cfg.taper < cfg.width {
      NextTimeEarliest(cfg, t);
    }
  }

  lemma SpacedPrefix(cfg: Config, sent: seq<Sent>, more: seq<Sent>, arrived: seq<nat>, later: seq<nat>, j: nat)
    requires cfg.Valid() && j < |sent| <= |arrived| && |sent + more| <= |arrived + later|
    requires Spaced(cfg, sent, arrived, j)
    ensures Spaced(cfg, sent + more, arrived + later, j)
  {
    assert From(cfg, sent + more, arrived + later, j) == From(cfg, sent, arrived, j);
  }

  /** Sends stay spaced when more packets arrive or leave. */
  lemma AllSpacedPrefix(cfg: Config, sent: seq<Sent>, arrived: seq<nat>, later: seq<nat>)
    requires cfg.Valid() && |sent| <= |arrived| && AllSpaced(cfg, sent, arrived)
    ensures AllSpaced(cfg, sent, arrived + later)
  {
    forall j | 0 <= j < |sent|
      ensures Spaced(cfg, sent, arrived + later, j)
    {
      assert sent + [] == sent;
      SpacedPrefix(cfg, sent, [], arrived, later, j);
    }
  }

  /** A packet that finds the store empty is charged what the last send was. */
  lemma OpeningFrom(cfg: Config, s: State, at: nat)
    requires Inv(cfg, s) && s.pending.None? && s.now <= at
    ensures From(cfg, s.sent, s.arrived + [at], |s.sent|) == Max(s.txEnd, at)
    ensures Follows(s.sent, s.arrived + [at], |s.sent|, true)
  {
  }

  lemma StoreUpcoming(cfg: Config, s: State, at: nat, p: Packet, next: nat)
    requires Inv(cfg, s) && Enabled(s, Rx(at, p)) && Fair(cfg, next) && next >= Max(s.txEnd, at)
    requires next == NextTime(cfg, Max(s.txEnd, at))
    ensures Upcoming(cfg, Store(s, at, p, next))
  {
    if s.store == [] {
      OpeningFrom(cfg, s, at);
    } else {
      assert From(cfg, s.sent, s.arrived + [at], |s.sent|) == From(cfg, s.sent, s.arrived, |s.sent|);
    }
  }

  lemma ReceiveKeeps(cfg: Config, s: State, at: nat, p: Packet)
    requires Inv(cfg, s) && Enabled(s, Rx(at, p))
    ensures Inv(cfg, Receive(cfg, s, at, p))
  {
    var next := NextTime(cfg, Max(s.txEnd, at));
    NextIsFair(cfg, Max(s.txEnd, at));
    StoreUpcoming(cfg, s, at, p, next);
    AllSpacedPrefix(cfg, s.sent, s.arrived, [at]);
    StoreKeeps(cfg, s, at, p, next);
  }

  lemma StoreKeeps(cfg: Config, s: State, at: nat, p: Packet, next: nat)
    requires Inv(cfg, s) && Enabled(s, Rx(at, p)) && Fair(cfg, next) && next >= at
    requires Upcoming(cfg, Store(s, at, p, next)) && AllSpaced(cfg, s.sent, s.arrived + [at])
    ensures Inv(cfg, Store(s, at, p, next))
  {
    AppendStored(Packets(s.sent), s.store, p);
  }

  lemma AppendStored(gone: seq<Packet>, store: seq<Packet>, p: Packet)
    ensures gone + store + [p] == gone + (store + [p])
  {
  }

  /** The send that is due. */
  ghost function Due(s: State): Sent
    requires s.pending.Some? && s.store != []
  {
    Sent(s.store[0], s.pending.value, s.opening)
  }

  /** When the search for the send after the one due starts. */
  lemma NextFrom(cfg: Config, s: State)
    requires Inv(cfg, s) && s.pending.Some?
    ensures var n, sent, at := |s.sent|, s.sent + [Due(s)], s.pending.value;
            && at + Charge(cfg, sent, n) == Max(s.txEnd, at)
            && (|s.store| > 1 ==>
                  && From(cfg, sent, s.arrived, n + 1) == Max(s.txEnd, at)
                  && Follows(sent, s.arrived, n + 1, false))
  {
  }

  lemma SendUpcoming(cfg: Config, s: State)
    requires Inv(cfg, s) && s.pending.Some?
    ensures var r := Send(cfg, s, s.pending.value);
            if r.pending.None? then Idle(cfg, r)
            else Fair(cfg, r.pending.value) && r.pending.value >= r.now && Upcoming(cfg, r)
  {
    NextIsFair(cfg, Max(s.txEnd, s.pending.value));
    NextFrom(cfg, s);
  }

  lemma SendSpaced(cfg: Config, s: State)
    requires Inv(cfg, s) && s.pending.Some?
    ensures AllSpaced(cfg, s.sent + [Due(s)], s.arrived)
  {
    var n, sent := |s.sent|, s.sent + [Due(s)];
    assert s.arrived + [] == s.arrived;
    forall j | 0 <= j < n
      ensures Spaced(cfg, sent, s.arrived, j)
    {
      SpacedPrefix(cfg, s.sent, [Due(s)], s.arrived, [], j);
    }
    assert From(cfg, sent, s.arrived, n) == From(cfg, s.sent, s.arrived, n);
    assert Spaced(cfg, sent, s.arrived, n);
  }

  lemma SendKeeps(cfg: Config, s: State)
    requires Inv(cfg, s) && s.pending.Some?
    ensures Inv(cfg, Send(cfg, s, s.pending.value))
  {
    SendUpcoming(cfg, s);
    SendSpaced(cfg, s);
    SendInOrder(cfg, s);
  }

  lemma SendInOrder(cfg: Config, s: State)
    requires cfg.Valid() && s.store != [] && s.pending.Some? && s.received == Packets(s.sent) + s.store
    ensures var r := Send(cfg, s, s.pending.value); r.received == Packets(r.sent) + r.store
  {
    assert s.store == [s.store[0]] + s.store[1..];
    assert Packets(s.sent + [Due(s)]) == Packets(s.sent) + [s.store[0]];
  }

  lemma StepKeeps(cfg: Config, s: State, e: Event)
    requires Inv(cfg, s) && Enabled(s, e)
    ensures Inv(cfg, Step(cfg, s, e))
  {
    match e
    case Rx(at, p) => ReceiveKeeps(cfg, s, at, p);
    case Fire => SendKeeps(cfg, s);
  }

  // --- what a run receives and sends, from its events alone ---

  /** The packets that the events bring, in order. */
  ghost function Incoming(events: seq<Event>): seq<Packet> {
    if events == [] then []
    else
      var e := events[|events| - 1];
      Incoming(events[..|events| - 1]) + if e.Rx? then [e.p] else []
  }

  /** When they come. */
  ghost function ArrivalTimes(events: seq<Event>): seq<nat> {
    if events == [] then []
    else
      var e := events[|events| - 1];
      ArrivalTimes(events[..|events| - 1]) + if e.Rx? then [e.at] else []
  }

  ghost function Fires(events: seq<Event>): nat {
    if events == [] then 0
    else Fires(events[..|events| - 1]) + if events[|events| - 1].Fire? then 1 else 0
  }

  /** Every event can happen when its turn comes. */
  ghost predicate AllEnabled(cfg: Config, events: seq<Event>)
    requires cfg.Valid()
  {
    events != [] ==>
      var before := events[..|events| - 1];
      AllEnabled(cfg, before) && Enabled(Run(cfg, before), events[|events| - 1])
  }

  lemma StepLogs(cfg: Config, s: State, e: Event)
    requires Inv(cfg, s) && Enabled(s, e)
    ensures var r := Step(cfg, s, e);
            && r.received == s.received + (if e.Rx? then [e.p] else [])
            && r.arrived == s.arrived + (if e.Rx? then [e.at] else [])
            && |r.sent| == |s.sent| + if e.Fire? then 1 else 0
  {
  }

  /**
   * Nothing vanishes: whatever the events bring has been sent or is stored, in order and unchanged,
   * and every send event sends one packet.
   */
  lemma {:induction false} NothingVanishes(cfg: Config, events: seq<Event>)
    requires cfg.Valid() && AllEnabled(cfg, events)
    ensures var s := Run(cfg, events);
            && Packets(s.sent) + s.store == s.received == Incoming(events)
            && s.arrived == ArrivalTimes(events) && |s.sent| == Fires(events)
  {
    if events != [] {
      var before := events[..|events| - 1];
      NothingVanishes(cfg, before);
      StepLogs(cfg, Run(cfg, before), events[|events| - 1]);
    }
  }

  // --- pacing ---

  lemma Logs(cfg: Config, events: seq<Event>) returns (sent: seq<Sent>, arrived: seq<nat>)
    requires cfg.Valid()
    ensures sent == Run(cfg, events).sent && arrived == Run(cfg, events).arrived && |sent| <= |arrived|
    ensures AllSpaced(cfg, sent, arrived)
  {
    sent, arrived := Run(cfg, events).sent, Run(cfg, events).arrived;
  }

  /**
   * The time of every send of every run: the first opportunity once its packet has come and what
   * it is charged has passed since the send before.
   */
  lemma SendTimes(cfg: Config, events: seq<Event>, j: nat)
    requires cfg.Valid() && j < |Run(cfg, events).sent|
    ensures var s := Run(cfg, events);
            && |s.sent| <= |s.arrived|
            && s.sent[j].at == NextTime(cfg, From(cfg, s.sent, s.arrived, j))
            && Follows(s.sent, s.arrived, j, s.sent[j].opens)
  {
    var sent, arrived := Logs(cfg, events);
    assert Spaced(cfg, sent, arrived, j);
  }

  /** Total sending time of packets i..j-1 of the log. */
  ghost function Busy(cfg: Config, sent: seq<Sent>, i: nat, j: nat): nat
    requires cfg.Valid() && j <= |sent|
    decreases j
  {
    if j <= i then 0 else Busy(cfg, sent, i, j - 1) + Duration(cfg, sent[j - 1].p)
  }

  /** What sends i + 1..j are charged. */
  ghost function Charges(cfg: Config, sent: seq<Sent>, i: nat, j: nat): nat
    requires cfg.Valid() && j <= |sent|
    decreases j
  {
    if j <= i then 0 else Charges(cfg, sent, i, j - 1) + Charge(cfg, sent, j - 1)
  }

  lemma {:induction false} ChargesAdd(cfg: Config, sent: seq<Sent>, arrived: seq<nat>, i: nat, j: nat)
    requires cfg.Valid() && i < j < |sent| <= |arrived| && AllSpaced(cfg, sent, arrived)
    ensures sent[j].at >= sent[i].at + Charges(cfg, sent, i, j)
    ensures (forall m :: i < m < j ==> !sent[m].opens) ==> Charges(cfg, sent, i, j) >= Busy(cfg, sent, i, j - 1)
    decreases j
  {
    assert Spaced(cfg, sent, arrived, j);
    NextIsFair(cfg, From(cfg, sent, arrived, j));
    if j > i + 1 {
      ChargesAdd(cfg, sent, arrived, i, j - 1);
    }
  }

  /**
   * Pacing over whole runs: send j comes at least all that the sends up to it are charged after
   * send i. If no busy period opens in between, that is at least the durations of all packets
   * from i up to the last but one before j.
   */
  lemma PacedSends(cfg: Config, events: seq<Event>, i: nat, j: nat)
    requires cfg.Valid() && i < j < |Run(cfg, events).sent|
    ensures var sent := Run(cfg, events).sent;
            && sent[j].at >= sent[i].at + Charges(cfg, sent, i, j)
            && ((forall m :: i < m < j ==> !sent[m].opens) ==> sent[j].at >= sent[i].at + Busy(cfg, sent, i, j - 1))
  {
    var sent, arrived := Logs(cfg, events);
    ChargesAdd(cfg, sent, arrived, i, j);
  }

  /** Send j waits for the end of the packet sent before it. */
  ghost predicate WaitsOut(cfg: Config, sent: seq<Sent>, j: nat)
    requires cfg.Valid() && 1 <= j < |sent|
  {
    sent[j].at >= sent[j - 1].at + Duration(cfg, sent[j - 1].p)
  }

  lemma WaitsOutIff(cfg: Config, sent: seq<Sent>, arrived: seq<nat>, j: nat)
    requires cfg.Valid() && 1 <= j < |sent| <= |arrived| && Spaced(cfg, sent, arrived, j)
    ensures var from, end := From(cfg, sent, arrived, j), sent[j - 1].at + Duration(cfg, sent[j - 1].p);
            WaitsOut(cfg, sent, j) <==> end <= from || forall u: nat :: from <= u < end ==> !Opportunity(cfg, from, u)
  {
    NextTimeFirst(cfg, From(cfg, sent, arrived, j));
  }

  /**
   * Which packets are waited out, for every pair of successive sends of every run: the one whose
   * end is not after the time the search for its successor starts, or from there to its end is
   * no opportunity.
   */
  lemma PacedIff(cfg: Config, events: seq<Event>, j: nat)
    requires cfg.Valid() && 1 <= j < |Run(cfg, events).sent|
    ensures var s := Run(cfg, events);
            var from, end := From(cfg, s.sent, s.arrived, j), s.sent[j - 1].at + Duration(cfg, s.sent[j - 1].p);
            WaitsOut(cfg, s.sent, j) <==> end <= from || forall u: nat :: from <= u < end ==> !Opportunity(cfg, from, u)
  {
    var sent, arrived := Logs(cfg, events);
    assert Spaced(cfg, sent, arrived, j);
    WaitsOutIff(cfg, sent, arrived, j);
  }

  lemma DurationMonotone(cfg: Config, p: Packet, q: Packet)
    requires cfg.rate >= 1 && |p| <= |q|
    ensures Duration(cfg, p) <= Duration(cfg, q)
  {
    DivMonotone(|p| * 8 * NS_PER_S, |q| * 8 * NS_PER_S, cfg.rate);
  }

  /** What an opening packet, and any other packet, means for its successor. */
  lemma AfterOpening(cfg: Config, sent: seq<Sent>, arrived: seq<nat>, j: nat)
    requires cfg.Valid() && 1 <= j < |sent| <= |arrived| && AllSpaced(cfg, sent, arrived)
    ensures sent[j - 1].opens ==> sent[j].at == NextTime(cfg, Max(arrived[j], sent[j - 1].at))
    ensures sent[j - 1].opens && cfg.taper < cfg.width && arrived[j] <= sent[j - 1].at ==> sent[j].at == sent[j - 1].at
    ensures !sent[j - 1].opens ==> j >= 2
    ensures !sent[j - 1].opens && |sent[j - 1].p| <= |sent[j - 2].p| ==> WaitsOut(cfg, sent, j)
  {
    assert Spaced(cfg, sent, arrived, j) && Spaced(cfg, sent, arrived, j - 1);
    assert Fair(cfg, sent[j - 1].at);
    if !sent[j - 1].opens && |sent[j - 1].p| <= |sent[j - 2].p| {
      DurationMonotone(cfg, sent[j - 1].p, sent[j - 2].p);
      NextIsFair(cfg, From(cfg, sent, arrived, j));
    }
  }

  /**
   * In every run, the packet after one that opened a busy period is charged nothing: it leaves
   * at the first opportunity once it has come, together with the other if it was waiting. A
   * packet that opened no busy period is waited out if it is no longer than the one before.
   */
  lemma BurstOfTwo(cfg: Config, events: seq<Event>, j: nat)
    requires cfg.Valid() && 1 <= j < |Run(cfg, events).sent|
    ensures var s := Run(cfg, events);
            var at := s.sent[j - 1].at;
            if s.sent[j - 1].opens then
              && s.sent[j].at == NextTime(cfg, Max(s.arrived[j], at))
              && (cfg.taper < cfg.width && s.arrived[j] <= at ==> s.sent[j].at == at)
            else j >= 2 && (|s.sent[j - 1].p| <= |s.sent[j - 2].p| ==> WaitsOut(cfg, s.sent, j))
  {
    var sent, arrived := Logs(cfg, events);
    AfterOpening(cfg, sent, arrived, j);
  }

  /** A packet as long as the one before it. */
  lemma EqualPair(cfg: Config, sent: seq<Sent>, arrived: seq<nat>, j: nat)
    requires cfg.Valid() && 1 <= j < |sent| <= |arrived| && AllSpaced(cfg, sent, arrived)
    requires j >= 2 ==> |sent[j - 1].p| == |sent[j - 2].p|
    ensures var at := sent[j - 1].at;
            var from, end := Max(arrived[j], at), at + Duration(cfg, sent[j - 1].p);
            WaitsOut(cfg, sent, j) <==>
              || !sent[j - 1].opens
              || end <= from || forall u: nat :: from <= u < end ==> !Opportunity(cfg, from, u)
  {
    AfterOpening(cfg, sent, arrived, j);
    if sent[j - 1].opens {
      assert Spaced(cfg, sent, arrived, j);
      WaitsOutIff(cfg, sent, arrived, j);
    }
  }

  /** With packets of one size, all are waited out but those that opened busy periods, and these as in PacedIff. */
  lemma EqualPackets(cfg: Config, events: seq<Event>, len: nat, j: nat)
    requires cfg.Valid() && 1 <= j < |Run(cfg, events).sent|
    requires forall p :: p in Run(cfg, events).received ==> |p| == len
    ensures var s := Run(cfg, events);
            var from, end := Max(s.arrived[j], s.sent[j - 1].at), s.sent[j - 1].at + len * 8 * NS_PER_S / cfg.rate;
            WaitsOut(cfg, s.sent, j) <==>
              || !s.sent[j - 1].opens
              || end <= from || forall u: nat :: from <= u < end ==> !Opportunity(cfg, from, u)
  {
    var sent, arrived := Logs(cfg, events);
    SentWasReceived(cfg, events, j - 1);
    if j >= 2 {
      SentWasReceived(cfg, events, j - 2);
    }
    EqualPair(cfg, sent, arrived, j);
  }

  lemma SentWasReceived(cfg: Config, events: seq<Event>, j: nat)
    requires cfg.Valid() && j < |Run(cfg, events).sent|
    ensures Run(cfg, events).sent[j].p in Run(cfg, events).received
  {
    var s := Run(cfg, events);
    assert s.received[j] == s.sent[j].p;
  }

  const LONE := Config(20, 2, 1, 1, 8)   // one slice, always active; a byte takes a second

  lemma LoneTimes(p: Packet)
    requires |p| == 1
    ensures LONE.Valid() && Duration(LONE, p) == NS_PER_S && NextTime(LONE, 0) == 0 && NextTime(LONE, 1) == 1
  {
    assert Bit(LONE.activeMap, 0);
    DivUnique(8 * NS_PER_S, 8, NS_PER_S, 0);
  }

  lemma LoneStart(p: Packet)
    requires |p| == 1
    ensures LONE.Valid() && Run(LONE, [Rx(0, p)]) == State(0, [p], Some(0), 0, [p], [0], [], true)
  {
    LoneTimes(p);
    RunStep(LONE, [], Rx(0, p));
    assert [] + [Rx(0, p)] == [Rx(0, p)];
  }

  /** The first packet comes and goes at once. */
  lemma LoneFirst(p: Packet)
    requires |p| == 1
    ensures LONE.Valid() && Run(LONE, [Rx(0, p), Fire]) == State(0, [], None, 0, [p], [0], [Sent(p, 0, true)], false)
  {
    LoneTimes(p);
    LoneStart(p);
    RunStep(LONE, [Rx(0, p)], Fire);
    assert [Rx(0, p)] + [Fire] == [Rx(0, p), Fire];
  }

  /** The second one finds the store empty and goes at once too. */
  lemma LoneSecond(p: Packet, q: Packet)
    requires |p| == |q| == 1
    ensures LONE.Valid()
    ensures Run(LONE, [Rx(0, p), Fire, Rx(1, q)])
         == State(1, [q], Some(1), 0, [p, q], [0, 1], [Sent(p, 0, true)], true)
  {
    LoneFirst(p);
    LoneStore(p, q);
    RunStep(LONE, [Rx(0, p), Fire], Rx(1, q));
    assert [Rx(0, p), Fire] + [Rx(1, q)] == [Rx(0, p), Fire, Rx(1, q)];
  }

  lemma LoneStore(p: Packet, q: Packet)
    requires |p| == |q| == 1
    ensures LONE.Valid()
    ensures Step(LONE, State(0, [], None, 0, [p], [0], [Sent(p, 0, true)], false), Rx(1, q))
         == State(1, [q], Some(1), 0, [p, q], [0, 1], [Sent(p, 0, true)], true)
  {
    LoneTimes(p);
  }

  /**
   * Packets that come one at a time are never paced: with one slice, two packets of a second
   * each leave within a nanosecond of each other.
   */
  lemma LonePackets(p: Packet, q: Packet)
    requires |p| == |q| == 1
    ensures LONE.Valid() && Duration(LONE, p) == 1_000_000_000
    ensures Run(LONE, [Rx(0, p), Fire, Rx(1, q), Fire]).sent == [Sent(p, 0, true), Sent(q, 1, true)]
  {
    LoneTimes(p);
    LoneSecond(p, q);
    RunStep(LONE, [Rx(0, p), Fire, Rx(1, q)], Fire);
    assert [Rx(0, p), Fire, Rx(1, q)] + [Fire] == [Rx(0, p), Fire, Rx(1, q), Fire];
  }

  lemma RunStep(cfg: Config, events: seq<Event>, e: Event)
    requires cfg.Valid()
    ensures Run(cfg, events + [e])
         == if Enabled(Run(cfg, events), e) then Step(cfg, Run(cfg, events), e) else Run(cfg, events)
  {
    assert (events + [e])[..|events|] == events;
  }

  // --- slices given to a chain of proxies ---

  const SLICE_WIDTH_MS: nat := 20
  const DEFAULT_TAPER_MS: nat := 2

  function Pow2(a: nat): nat {
    if a == 0 then 1 else 2 * Pow2(a - 1)
  }

  lemma {:induction false} BitOfPow2(a: nat, k: nat)
    ensures Bit(Pow2(a), k) <==> a == k
  {
    if k == 0 {
    } else if a == 0 {
      BitOfZero(k - 1);
    } else {
      BitOfPow2(a - 1, k - 1);
    }
  }

  lemma {:induction false} BitOfZero(k: nat)
    ensures !Bit(0, k)
  {
    if k > 0 { BitOfZero(k - 1); }
  }

  lemma {:induction false} Pow2Bound(a: nat, b: nat)
    requires a < b
    ensures Pow2(a) < Pow2(b)
  {
    if a > 0 { Pow2Bound(a - 1, b - 1); } else { Pow2Positive(b - 1); }
  }

  lemma {:induction false} Pow2Positive(a: nat)
    ensures Pow2(a) >= 1
  {
    if a > 0 { Pow2Positive(a - 1); }
  }

  /** Slices in a cycle for a proxy mode. */
  function SlicesFor(proxyMode: nat): (sl: nat)
    ensures 2 <= sl <= 3
  {
    if proxyMode >= 2 then 3 else 2
  }

  /** The configuration of proxy i, counting from 1, in a cycle of sl slices. */
  function ProxyConfig(sl: nat, i: nat, rate: nat): (cfg: Config)
    requires 1 <= sl <= 32 && i >= 1
    ensures rate >= 1 ==> cfg.Valid()
  {
    BitOfPow2((i - 1) % sl, (i - 1) % sl);
    Pow2Bound((i - 1) % sl, 32);
    assert Pow2(32) == TWO_32 by { Pow2At32(); }
    Config(SLICE_WIDTH_MS, DEFAULT_TAPER_MS, sl, Pow2((i - 1) % sl), rate)
  }

  lemma Pow2At32()
    ensures Pow2(32) == TWO_32
  {
    assert Pow2(8) == 256;
    assert Pow2(16) == 0x1_0000;
    assert Pow2(24) == 0x100_0000;
  }

  /** The loop that writes one line for each proxy. */
  method ConfigureProxies(proxyMode: nat, meshSize: nat, rate: nat) returns (cfgs: seq<Config>)
    ensures proxyMode == 0 ==> cfgs == []
    ensures proxyMode > 0 ==> |cfgs| == meshSize
    ensures proxyMode > 0 ==>
              forall i :: 0 <= i < meshSize ==> cfgs[i] == ProxyConfig(SlicesFor(proxyMode), i + 1, rate)
    ensures proxyMode > 0 ==>
              forall i :: 0 <= i < meshSize ==>
                && cfgs[i].width == 20 && cfgs[i].taper == 2 && cfgs[i].rate == rate
                && cfgs[i].nSlices == if proxyMode == 1 then 2 else 3
  {
    cfgs := [];
    if proxyMode > 0 {
      var sl := 2;
      if proxyMode >= 2 {
        sl := 3;
      }
      for i := 1 to meshSize + 1
        invariant |cfgs| == i - 1
        invariant forall j :: 0 <= j < i - 1 ==> cfgs[j] == ProxyConfig(sl, j + 1, rate)
      {
        cfgs := cfgs + [ProxyConfig(sl, i, rate)];
      }
    }
  }

  lemma ProxyConfigValid(sl: nat, i: nat, rate: nat)
    requires 1 <= sl <= 32 && i >= 1 && rate >= 1
    ensures ProxyConfig(sl, i, rate).Valid()
    ensures forall slot: nat :: Active(ProxyConfig(sl, i, rate), slot) <==> slot % sl == (i - 1) % sl
  {
    forall slot: nat
      ensures Active(ProxyConfig(sl, i, rate), slot) <==> slot % sl == (i - 1) % sl
    {
      BitOfPow2((i - 1) % sl, slot % sl);
    }
  }

  lemma DifferentSlots(sl: nat, i: nat, j: nat, x: nat, y: nat)
    requires 1 <= i < j < i + sl && x % sl == (i - 1) % sl && y % sl == (j - 1) % sl
    ensures x != y
  {
    RemainderAdvance(i - 1, j - i, sl);
  }

  /**
   * Freedom from interference: in any runs of two different proxies fewer than sl hops apart, no
   * two packets are ever sent in the same time slice.
   */
  lemma NoSharedSlice(sl: nat, i: nat, j: nat, ri: nat, rj: nat, ei: seq<Event>, ej: seq<Event>)
    requires 1 <= sl <= 32 && 1 <= i < j < i + sl && ri >= 1 && rj >= 1
    ensures
      var ci, cj := ProxyConfig(sl, i, ri), ProxyConfig(sl, j, rj);
      forall m, n :: m in Run(ci, ei).sent && n in Run(cj, ej).sent ==> SlotOf(ci, m.at) != SlotOf(cj, n.at)
  {
    var ci, cj := ProxyConfig(sl, i, ri), ProxyConfig(sl, j, rj);
    ProxyConfigValid(sl, i, ri);
    ProxyConfigValid(sl, j, rj);
    forall m, n | m in Run(ci, ei).sent && n in Run(cj, ej).sent
      ensures SlotOf(ci, m.at) != SlotOf(cj, n.at)
    {
      DifferentSlots(sl, i, j, SlotOf(ci, m.at), SlotOf(cj, n.at));
    }
  }

  // --- the application object ---

  class TimedProxy {
    const cfg: Config
    var m_packetStore: seq<Packet>
    var m_sendEv: Option<nat>        // time of the pending send event, if it is running
    var m_txEndTime: nat
    ghost var s: State

    ghost predicate Valid()
      reads this
    {
      Inv(cfg, s) && s.store == m_packetStore && s.pending == m_sendEv && s.txEnd == m_txEndTime
    }

    constructor (cfg: Config)
      requires cfg.Valid()
      ensures Valid() && this.cfg == cfg && s == INIT
    {
      this.cfg := cfg;
      m_packetStore, m_sendEv, m_txEndTime, s := [], None, 0, INIT;
    }

    /** The slot search. */
    method GetNextTxTime(now: nat) returns (t: nat)
      requires cfg.Valid()
      ensures t == NextTime(cfg, Max(m_txEndTime, now))
    {
      var min_t := Max(m_txEndTime, now);
      var min := Ms(min_t);
      var slot := min / cfg.width;
      var slot_taper := (min + cfg.taper) / cfg.width;
      TaperTest(cfg, min);
      if Bit(cfg.activeMap, slot % cfg.nSlices) && slot == slot_taper {
        return min_t;
      }
      slot := NextActiveSlot(slot);
      MulNonNegative(slot, cfg.width);
      t := slot * cfg.width * NS_PER_MS;
    }

    /** The do-while loop of the search: the next active slot. */
    method NextActiveSlot(from: nat) returns (slot: nat)
      requires cfg.Valid()
      ensures slot == Search(cfg, from + 1, cfg.nSlices)
    {
      ghost var first := from + 1;
      ActiveWithin(cfg, first);
      SearchFirst(cfg, first, cfg.nSlices);
      slot := from + 1;
      // do ++slot while the slot is not active
      while !Bit(cfg.activeMap, slot % cfg.nSlices)
        invariant first <= slot <= Search(cfg, first, cfg.nSlices)
        decreases Search(cfg, first, cfg.nSlices) - slot
      {
        assert !Active(cfg, slot);
        slot := slot + 1;
      }
      assert Active(cfg, slot);
    }

    method HandleRead(now: nat, packets: seq<Packet>)
      requires Valid() && forall p :: p in packets ==> Enabled(s, Rx(now, p))
      modifies this
      ensures Valid() && s == ReceiveAll(cfg, old(s), now, packets)
      ensures m_packetStore == old(m_packetStore) + packets && m_txEndTime == old(m_txEndTime)
      ensures m_sendEv == if old(m_packetStore) != [] || packets == [] then old(m_sendEv)
                          else Some(NextTime(cfg, Max(old(m_txEndTime), now)))
    {
      for i := 0 to |packets|
        invariant Valid() && s == ReceiveAll(cfg, old(s), now, packets[..i])
        invariant i < |packets| ==> Enabled(s, Rx(now, packets[i]))
      {
        ReceiveOne(now, packets[i]);
        ReceiveAllStep(cfg, old(s), now, packets, i);
      }
      assert packets[..|packets|] == packets;
      ReceiveAllStores(cfg, old(s), now, packets);
    }

    /** The body of the receive loop. */
    method ReceiveOne(now: nat, packet: Packet)
      requires Valid() && Enabled(s, Rx(now, packet))
      modifies this
      ensures Valid() && s == Receive(cfg, old(s), now, packet)
      ensures s.now == now && (s.pending.Some? ==> s.pending.value >= now)
    {
      ReceiveKeeps(cfg, s, now, packet);
      if m_packetStore == [] {
        var t := GetNextTxTime(now);
        m_sendEv := Some(t);
      }
      m_packetStore := m_packetStore + [packet];
      s := Receive(cfg, s, now, packet);
    }

    /** The pending send event. */
    method SendNextPacket() returns (packet: Packet)
      requires Valid() && m_sendEv.Some?
      modifies this
      ensures Valid() && s == Send(cfg, old(s), old(m_sendEv.value))
      ensures old(m_packetStore) == [packet] + m_packetStore
    {
      StepKeeps(cfg, s, Fire);
      var now := m_sendEv.value;
      m_sendEv := None;
      packet := m_packetStore[0];
      m_packetStore := m_packetStore[1..];
      if m_packetStore != [] {
        var nextTime := GetNextTxTime(now);
        m_sendEv := Some(nextTime);
        m_txEndTime := nextTime + Duration(cfg, packet);
      }
      s := Send(cfg, s, now);
    }
  }

  ghost function ReceiveAll(cfg: Config, s: State, now: nat, packets: seq<Packet>): State
    requires cfg.Valid()
  {
    if packets == [] then s
    else Receive(cfg, ReceiveAll(cfg, s, now, packets[..|packets| - 1]), now, packets[|packets| - 1])
  }

  /** All packets are stored; only the first one may schedule a send. */
  lemma {:induction false} ReceiveAllStores(cfg: Config, s: State, now: nat, packets: seq<Packet>)
    requires cfg.Valid()
    ensures var r := ReceiveAll(cfg, s, now, packets);
            && r.store == s.store + packets && r.txEnd == s.txEnd
            && r.pending == if s.store != [] || packets == [] then s.pending
                            else Some(NextTime(cfg, Max(s.txEnd, now)))
  {
    if packets != [] {
      var p := packets[..|packets| - 1];
      ReceiveAllStores(cfg, s, now, p);
      assert packets == p + [packets[|packets| - 1]];
    }
  }

  lemma ReceiveAllStep(cfg: Config, s: State, now: nat, packets: seq<Packet>, i: nat)
    requires cfg.Valid() && i < |packets|
    ensures ReceiveAll(cfg, s, now, packets[..i + 1])
         == Receive(cfg, ReceiveAll(cfg, s, now, packets[..i]), now, packets[i])
  {
    assert packets[..i + 1][..i] == packets[..i];
  }

  /** Adding the taper leaves the slice exactly when the rest of the slice is no longer than it. */
  lemma TaperTest(cfg: Config, ms: nat)
    requires cfg.width >= 1
    ensures ms / cfg.width == (ms + cfg.taper) / cfg.width <==> ms % cfg.width + cfg.taper < cfg.width
  {
    var q, r := ms / cfg.width, ms % cfg.width;
    if r + cfg.taper < cfg.width {
      DivUnique(ms + cfg.taper, cfg.width, q, r + cfg.taper);
    } else {
      DivMonotone(ms, ms + cfg.taper, cfg.width);
    }
  }
}

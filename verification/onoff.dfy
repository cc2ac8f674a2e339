/** The on/off traffic source: ns3_apps/onoff-application.cc. Time is exact, in seconds; the rate is constant. */
module OnOff {
  import opened Words
  import Header

  /** Bits per second, bytes in a packet, the byte limit (0 for none), and whether datagrams are sent. */
  datatype Config = Config(rate: nat, pktSize: nat, maxBytes: nat, dgram: bool) {
    predicate Valid() {
      rate >= 1 && 1 <= pktSize && 8 * pktSize < TWO_32
    }

    function Bits(): int {
      8 * pktSize
    }
  }

  datatype Switch = SwitchOn | SwitchOff

  /**
   * A packet sent: its header, if any, the on-periods that ended without completing it, and the
   * time spent in the on-period that did.
   */
  datatype Sent = Sent(at: real, hdr: Option<Header.Header>, cuts: seq<real>, last: real)

  datatype State = State(now: real, residualBits: int, lastStart: real, totBytes: nat, seqNumber: UInt64,
                         send: Option<real>, switch: Option<(real, Switch)>,
                         cuts: seq<real>, sent: seq<Sent>)

  /** The switch events carry the random length of the period they begin. */
  datatype Event = StartSending(on: real) | StopSending(off: real) | SendPacket | StopApplication(at: real)

  /** Bits sent in a time d. */
  function BitsIn(cfg: Config, d: real): real {
    d * cfg.rate as real
  }

  /** Time that some bits take. */
  function TimeFor(cfg: Config, bits: int): real
    requires cfg.Valid()
  {
    bits as real / cfg.rate as real
  }

  /** The application has been started and begins with an off period. */
  function Init(off: real): State {
    State(0.0, 0, 0.0, 0, 0, None, Some((off, SwitchOn)), [], [])
  }

  function CancelEvents(cfg: Config, s: State): State {
    var r := s.(send := None, switch := None);
    if s.send.Some? then
      var delta := s.now - s.lastStart;
      r.(residualBits := s.residualBits + BitsIn(cfg, delta).Floor, cuts := s.cuts + [delta])
    else r
  }

  function ScheduleNextTx(cfg: Config, s: State): State
    requires cfg.Valid()
  {
    if cfg.maxBytes == 0 || s.totBytes < cfg.maxBytes then
      s.(send := Some(s.now + TimeFor(cfg, cfg.Bits() - s.residualBits)))
    else CancelEvents(cfg, s)
  }

  /** Each event happens at its time, in any order when several are due. */
  predicate Enabled(s: State, e: Event) {
    match e
    case StartSending(on) =>
      && s.switch.Some? && s.switch.value.1 == SwitchOn && on >= 0.0
      && (s.send.Some? ==> s.switch.value.0 <= s.send.value)
    case StopSending(off) =>
      && s.switch.Some? && s.switch.value.1 == SwitchOff && off >= 0.0
      && (s.send.Some? ==> s.switch.value.0 <= s.send.value)
    case SendPacket =>
      s.send.Some? && (s.switch.Some? ==> s.send.value <= s.switch.value.0)
    case StopApplication(at) =>
      s.now <= at && (s.send.Some? ==> at <= s.send.value) && (s.switch.Some? ==> at <= s.switch.value.0)
  }

  function Start(cfg: Config, s: State, at: real, on: real): State
    requires cfg.Valid()
  {
    ScheduleNextTx(cfg, s.(now := at, switch := None, lastStart := at)).(switch := Some((at + on, SwitchOff)))
  }

  function Stop(cfg: Config, s: State, at: real, off: real): State {
    CancelEvents(cfg, s.(now := at, switch := None)).(switch := Some((at + off, SwitchOn)))
  }

  /** Datagrams carry a header made from their number. */
  function HeaderOf(cfg: Config, seqNumber: UInt64): Option<Header.Header> {
    if cfg.dgram then Some(Header.NullHeader(seqNumber)) else None
  }

  function NextNumber(cfg: Config, seqNumber: UInt64): UInt64 {
    if !cfg.dgram then seqNumber else if seqNumber + 1 < TWO_64 then seqNumber + 1 else 0
  }

  /** A packet has just left. */
  function Departed(cfg: Config, s: State, at: real): State {
    s.(now := at, send := None, lastStart := at, residualBits := 0,
       totBytes := s.totBytes + cfg.pktSize, cuts := [],
       seqNumber := NextNumber(cfg, s.seqNumber),
       sent := s.sent + [Sent(at, HeaderOf(cfg, s.seqNumber), s.cuts, at - s.lastStart)])
  }

  function Transmit(cfg: Config, s: State, at: real): State
    requires cfg.Valid()
  {
    ScheduleNextTx(cfg, Departed(cfg, s, at))
  }

  function Step(cfg: Config, s: State, e: Event): State
    requires cfg.Valid() && Enabled(s, e)
  {
    match e
    case StartSending(on) => Start(cfg, s, s.switch.value.0, on)
    case StopSending(off) => Stop(cfg, s, s.switch.value.0, off)
    case SendPacket => Transmit(cfg, s, s.send.value)
    case StopApplication(at) => CancelEvents(cfg, s.(now := at))
  }

  /** An event that is not enabled cannot happen and changes nothing. */
  function Run(cfg: Config, off: real, events: seq<Event>): State
    requires cfg.Valid()
  {
    if events == [] then Init(off)
    else
      var s, e := Run(cfg, off, events[..|events| - 1]), events[|events| - 1];
      if Enabled(s, e) then Step(cfg, s, e) else s
  }

  // --- bits and fractions of bits ---

  /** On-time in completed periods. */
  ghost function TimeIn(cuts: seq<real>): real {
    if cuts == [] then 0.0 else TimeIn(cuts[..|cuts| - 1]) + cuts[|cuts| - 1]
  }

  /** Whole bits credited for them. */
  ghost function Whole(cfg: Config, cuts: seq<real>): int {
    if cuts == [] then 0 else Whole(cfg, cuts[..|cuts| - 1]) + BitsIn(cfg, cuts[|cuts| - 1]).Floor
  }

  /** Fraction of a bit forgotten when a period of length d is cut. */
  ghost function Fraction(cfg: Config, d: real): (f: real)
    ensures 0.0 <= f < 1.0
  {
    BitsIn(cfg, d) - BitsIn(cfg, d).Floor as real
  }

  ghost function Forgotten(cfg: Config, cuts: seq<real>): real {
    if cuts == [] then 0.0 else Forgotten(cfg, cuts[..|cuts| - 1]) + Fraction(cfg, cuts[|cuts| - 1])
  }

  lemma {:induction false} ForgottenBound(cfg: Config, cuts: seq<real>)
    ensures 0.0 <= Forgotten(cfg, cuts) <= |cuts| as real
    ensures cuts != [] ==> Forgotten(cfg, cuts) < |cuts| as real
    ensures Forgotten(cfg, cuts) == 0.0 <==> forall j :: 0 <= j < |cuts| ==> Fraction(cfg, cuts[j]) == 0.0
  {
    if cuts != [] {
      var p := cuts[..|cuts| - 1];
      ForgottenBound(cfg, p);
      assert forall j :: 0 <= j < |p| ==> cuts[j] == p[j];
    }
  }

  lemma BitsAdd(cfg: Config, a: real, b: real)
    ensures BitsIn(cfg, a + b) == BitsIn(cfg, a) + BitsIn(cfg, b)
  {
    var r := cfg.rate as real;
    assert (a + b) * r == a * r + b * r;
  }

  lemma {:induction false} WholeAndForgotten(cfg: Config, cuts: seq<real>)
    ensures BitsIn(cfg, TimeIn(cuts)) == Whole(cfg, cuts) as real + Forgotten(cfg, cuts)
  {
    if cuts == [] {
    } else {
      var p, d := cuts[..|cuts| - 1], cuts[|cuts| - 1];
      WholeAndForgotten(cfg, p);
      BitsAdd(cfg, TimeIn(p), d);
    }
  }

  // --- what every event keeps ---

  /** The residual is never more than a packet; a pending send is due when the rest is on the wire. */
  ghost predicate Inv(cfg: Config, s: State) {
    && cfg.Valid()
    && 0 <= s.residualBits <= cfg.Bits()
    && (s.send.Some? ==>
          && s.lastStart <= s.now <= s.send.value
          && BitsIn(cfg, s.send.value - s.lastStart) == (cfg.Bits() - s.residualBits) as real)
    && (s.send.Some? && s.switch.Some? ==> s.switch.value.1 == SwitchOff)
    && (s.switch.Some? ==> s.now <= s.switch.value.0)
    && s.totBytes == |s.sent| * cfg.pktSize
    && (cfg.maxBytes > 0 ==> s.totBytes < cfg.maxBytes + cfg.pktSize)
    && (cfg.maxBytes > 0 && s.send.Some? ==> s.totBytes < cfg.maxBytes)
  }

  /** The residual is what the cut periods are credited for, and every packet took the time it should. */
  ghost predicate Credited(cfg: Config, s: State) {
    && s.residualBits == Whole(cfg, s.cuts)
    && forall j :: 0 <= j < |s.sent| ==> OnTime(cfg, s.sent[j])
  }

  /** The on-time a packet took, in bits: its own bits and the fractions forgotten on the way. */
  ghost predicate OnTime(cfg: Config, p: Sent) {
    BitsIn(cfg, TimeIn(p.cuts)) + BitsIn(cfg, p.last) == cfg.Bits() as real + Forgotten(cfg, p.cuts)
  }

  lemma BitsMonotone(cfg: Config, a: real, b: real)
    requires cfg.Valid() && a <= b
    ensures BitsIn(cfg, a) <= BitsIn(cfg, b)
  {
    var r := cfg.rate as real;
    assert (b - a) * r == b * r - a * r;
  }

  /** The time some bits take is worth these bits. */
  lemma BitsOfTime(cfg: Config, bits: int)
    requires cfg.Valid()
    ensures BitsIn(cfg, TimeFor(cfg, bits)) == bits as real && (bits >= 0 ==> TimeFor(cfg, bits) >= 0.0)
  {
  }

  /** Cutting a period leaves at most the bits that were still due. */
  lemma CancelKeeps(cfg: Config, s: State)
    requires Inv(cfg, s)
    ensures var r := CancelEvents(cfg, s); Inv(cfg, r) && r.now == s.now && r.sent == s.sent
  {
    if s.send.Some? {
      var delta := s.now - s.lastStart;
      BitsMonotone(cfg, 0.0, delta);
      BitsMonotone(cfg, delta, s.send.value - s.lastStart);
    }
  }

  lemma CancelCredits(cfg: Config, s: State)
    requires Credited(cfg, s)
    ensures Credited(cfg, CancelEvents(cfg, s))
  {
    if s.send.Some? {
      assert CancelEvents(cfg, s).cuts[..|s.cuts|] == s.cuts;
    }
  }

  /** Scheduling from an idle state whose clock stands at the period's start. */
  lemma ScheduleKeeps(cfg: Config, s: State)
    requires Inv(cfg, s) && s.send.None? && s.lastStart == s.now
    requires s.switch.Some? ==> s.switch.value.1 == SwitchOff
    ensures Inv(cfg, ScheduleNextTx(cfg, s))
  {
    BitsOfTime(cfg, cfg.Bits() - s.residualBits);
  }

  lemma StartKeeps(cfg: Config, s: State, on: real)
    requires Inv(cfg, s) && Enabled(s, StartSending(on))
    ensures Inv(cfg, Step(cfg, s, StartSending(on)))
  {
    var at := s.switch.value.0;
    ScheduleKeeps(cfg, s.(now := at, switch := None, lastStart := at));
  }

  lemma StopKeeps(cfg: Config, s: State, off: real)
    requires Inv(cfg, s) && Enabled(s, StopSending(off))
    ensures Inv(cfg, Step(cfg, s, StopSending(off)))
  {
    CancelKeeps(cfg, s.(now := s.switch.value.0, switch := None));
  }

  lemma TransmitKeeps(cfg: Config, s: State)
    requires Inv(cfg, s) && Enabled(s, SendPacket)
    ensures Inv(cfg, Step(cfg, s, SendPacket))
  {
    ScheduleKeeps(cfg, Departed(cfg, s, s.send.value));
  }

  lemma TransmitCredits(cfg: Config, s: State)
    requires Inv(cfg, s) && Credited(cfg, s) && Enabled(s, SendPacket)
    ensures Credited(cfg, Step(cfg, s, SendPacket))
  {
    var t := Departed(cfg, s, s.send.value);
    WholeAndForgotten(cfg, s.cuts);
    assert OnTime(cfg, t.sent[|s.sent|]);
    CancelCredits(cfg, t);
  }

  /** Every event keeps both, in any run. */
  lemma {:induction false} RunKeeps(cfg: Config, off: real, events: seq<Event>)
    requires cfg.Valid() && off >= 0.0
    ensures Inv(cfg, Run(cfg, off, events)) && Credited(cfg, Run(cfg, off, events))
  {
    if events != [] {
      var s, e := Run(cfg, off, events[..|events| - 1]), events[|events| - 1];
      RunKeeps(cfg, off, events[..|events| - 1]);
      if Enabled(s, e) {
        match e
        case StartSending(on) =>
          StartKeeps(cfg, s, on);
          StartCredits(cfg, s, on);
        case StopSending(off) =>
          StopKeeps(cfg, s, off);
          StopCredits(cfg, s, off);
        case SendPacket =>
          TransmitKeeps(cfg, s);
          TransmitCredits(cfg, s);
        case StopApplication(at) =>
          CancelKeeps(cfg, s.(now := at));
          CancelCredits(cfg, s.(now := at));
      }
    }
  }

  lemma StartCredits(cfg: Config, s: State, on: real)
    requires cfg.Valid() && Credited(cfg, s) && Enabled(s, StartSending(on))
    ensures Credited(cfg, Step(cfg, s, StartSending(on)))
  {
    var at := s.switch.value.0;
    CancelCredits(cfg, s.(now := at, switch := None, lastStart := at));
  }

  lemma StopCredits(cfg: Config, s: State, off: real)
    requires cfg.Valid() && Credited(cfg, s) && Enabled(s, StopSending(off))
    ensures Credited(cfg, Step(cfg, s, StopSending(off)))
  {
    CancelCredits(cfg, s.(now := s.switch.value.0, switch := None));
  }

  // --- pacing ---

  /** On-time spent on a packet since the one before it. */
  ghost function OnTimeOf(p: Sent): real {
    TimeIn(p.cuts) + p.last
  }

  /**
   * Pacing, through any alternation of on and off periods: a packet leaves once the on-time
   * since the previous one is worth its bits, never early, and late by less than one bit for
   * each switch-off in between; exactly on time if and only if each of these switch-offs came
   * after a whole number of bits.
   */
  lemma Pacing(cfg: Config, off: real, events: seq<Event>, j: nat)
    requires cfg.Valid() && off >= 0.0 && j < |Run(cfg, off, events).sent|
    ensures var p := Run(cfg, off, events).sent[j];
            var bits := BitsIn(cfg, OnTimeOf(p));
            && cfg.Bits() as real <= bits
            && (if p.cuts == [] then bits == cfg.Bits() as real else bits < (cfg.Bits() + |p.cuts|) as real)
            && (bits == cfg.Bits() as real <==> forall m :: 0 <= m < |p.cuts| ==> Fraction(cfg, p.cuts[m]) == 0.0)
  {
    RunKeeps(cfg, off, events);
    var p := Run(cfg, off, events).sent[j];
    assert OnTime(cfg, p);
    BitsAdd(cfg, TimeIn(p.cuts), p.last);
    ForgottenBound(cfg, p.cuts);
  }

  // --- nothing that is due is held back ---

  /** An on period that has not been stopped, below the byte limit. */
  ghost predicate On(cfg: Config, s: State) {
    s.switch.Some? && s.switch.value.1 == SwitchOff && (cfg.maxBytes == 0 || s.totBytes < cfg.maxBytes)
  }

  lemma OnStep(cfg: Config, s: State, e: Event)
    requires cfg.Valid() && Enabled(s, e) && (On(cfg, s) <==> s.send.Some?)
    ensures var r := Step(cfg, s, e); On(cfg, r) <==> r.send.Some?
  {
  }

  /** In every run a packet is scheduled if and only if the source is on and below the limit. */
  lemma {:induction false} ScheduledIff(cfg: Config, off: real, events: seq<Event>)
    requires cfg.Valid()
    ensures var s := Run(cfg, off, events); On(cfg, s) <==> s.send.Some?
  {
    if events != [] {
      var s, e := Run(cfg, off, events[..|events| - 1]), events[|events| - 1];
      ScheduledIff(cfg, off, events[..|events| - 1]);
      if Enabled(s, e) {
        OnStep(cfg, s, e);
      }
    }
  }

  /** On-time since the last packet. */
  ghost function Unsent(s: State): real {
    TimeIn(s.cuts) + if s.send.Some? then s.now - s.lastStart else 0.0
  }

  /**
   * While the source is on, the next packet is due exactly when the on-time since the last one
   * is worth its bits and what was forgotten, and it is never overdue.
   */
  lemma NeverOverdue(cfg: Config, off: real, events: seq<Event>)
    requires cfg.Valid() && off >= 0.0 && On(cfg, Run(cfg, off, events))
    ensures var s := Run(cfg, off, events);
            var enough := cfg.Bits() as real + Forgotten(cfg, s.cuts);
            && s.send.Some? && s.now <= s.send.value
            && BitsIn(cfg, TimeIn(s.cuts) + (s.send.value - s.lastStart)) == enough
            && BitsIn(cfg, Unsent(s)) <= enough
  {
    var s := Run(cfg, off, events);
    RunKeeps(cfg, off, events);
    ScheduledIff(cfg, off, events);
    WholeAndForgotten(cfg, s.cuts);
    BitsAdd(cfg, TimeIn(s.cuts), s.send.value - s.lastStart);
    BitsMonotone(cfg, Unsent(s), TimeIn(s.cuts) + (s.send.value - s.lastStart));
  }

  /** Time spent on so far, going by the state before each event. */
  ghost function OnTotal(cfg: Config, off: real, events: seq<Event>): real
    requires cfg.Valid()
  {
    if events == [] then 0.0
    else
      var before := events[..|events| - 1];
      var s, r := Run(cfg, off, before), Run(cfg, off, events);
      OnTotal(cfg, off, before) + if On(cfg, s) then r.now - s.now else 0.0
  }

  /** On-time spent on the packets sent, and the fractions of bits forgotten on the way. */
  ghost function Spent(sent: seq<Sent>): real {
    if sent == [] then 0.0 else Spent(sent[..|sent| - 1]) + OnTimeOf(sent[|sent| - 1])
  }

  ghost function AllForgotten(cfg: Config, sent: seq<Sent>): real {
    if sent == [] then 0.0 else AllForgotten(cfg, sent[..|sent| - 1]) + Forgotten(cfg, sent[|sent| - 1].cuts)
  }

  lemma SpentStep(cfg: Config, s: State, e: Event)
    requires Inv(cfg, s) && Enabled(s, e)
    ensures var r := Step(cfg, s, e);
            Spent(r.sent) + Unsent(r) == Spent(s.sent) + Unsent(s) + if s.send.Some? then r.now - s.now else 0.0
  {
    match e
    case StartSending(on) =>
      var at := s.switch.value.0;
      ScheduleSpent(cfg, s.(now := at, switch := None, lastStart := at));
    case StopSending(off) => CancelSpent(cfg, s.(now := s.switch.value.0, switch := None));
    case SendPacket =>
      var t := Departed(cfg, s, s.send.value);
      assert t.sent[..|s.sent|] == s.sent;
      ScheduleSpent(cfg, t);
    case StopApplication(at) => CancelSpent(cfg, s.(now := at));
  }

  /** Cutting a period moves its time to the periods cut. */
  lemma CancelSpent(cfg: Config, s: State)
    ensures Unsent(CancelEvents(cfg, s)) == Unsent(s) && CancelEvents(cfg, s).sent == s.sent
  {
    if s.send.Some? {
      assert CancelEvents(cfg, s).cuts[..|s.cuts|] == s.cuts;
    }
  }

  lemma ScheduleSpent(cfg: Config, s: State)
    requires cfg.Valid() && s.lastStart == s.now
    ensures Unsent(ScheduleNextTx(cfg, s)) == TimeIn(s.cuts) && ScheduleNextTx(cfg, s).sent == s.sent
  {
    CancelSpent(cfg, s);
  }

  /** All on-time is accounted for: it went into a packet that was sent, or into the next one. */
  lemma {:induction false} OnTimeAddsUp(cfg: Config, off: real, events: seq<Event>)
    requires cfg.Valid() && off >= 0.0
    ensures var s := Run(cfg, off, events); OnTotal(cfg, off, events) == Spent(s.sent) + Unsent(s)
  {
    if events != [] {
      var before := events[..|events| - 1];
      var s, e := Run(cfg, off, before), events[|events| - 1];
      OnTimeAddsUp(cfg, off, before);
      RunKeeps(cfg, off, before);
      ScheduledIff(cfg, off, before);
      if Enabled(s, e) {
        SpentStep(cfg, s, e);
      }
    }
  }

  lemma {:induction false} SpentBits(cfg: Config, sent: seq<Sent>)
    requires forall j :: 0 <= j < |sent| ==> OnTime(cfg, sent[j])
    ensures BitsIn(cfg, Spent(sent)) == (cfg.Bits() * |sent|) as real + AllForgotten(cfg, sent)
  {
    if sent != [] {
      var p, last := sent[..|sent| - 1], sent[|sent| - 1];
      SpentBits(cfg, p);
      assert OnTime(cfg, last);
      BitsAdd(cfg, TimeIn(last.cuts), last.last);
      BitsAdd(cfg, Spent(p), OnTimeOf(last));
      assert cfg.Bits() * |sent| == cfg.Bits() * |p| + cfg.Bits();
    }
  }

  /**
   * Throughput of every run: while the source is on, its on-time so far is worth the bits sent
   * and those forgotten, and at most one packet more.
   */
  lemma Throughput(cfg: Config, off: real, events: seq<Event>)
    requires cfg.Valid() && off >= 0.0 && On(cfg, Run(cfg, off, events))
    ensures var s := Run(cfg, off, events);
            var least := (cfg.Bits() * |s.sent|) as real + AllForgotten(cfg, s.sent);
            least <= BitsIn(cfg, OnTotal(cfg, off, events)) <= least + cfg.Bits() as real + Forgotten(cfg, s.cuts)
  {
    var s := Run(cfg, off, events);
    RunKeeps(cfg, off, events);
    NeverOverdue(cfg, off, events);
    OnTimeAddsUp(cfg, off, events);
    TotalBits(cfg, s, OnTotal(cfg, off, events));
  }

  lemma TotalBits(cfg: Config, s: State, total: real)
    requires Inv(cfg, s) && Credited(cfg, s) && s.send.Some? && total == Spent(s.sent) + Unsent(s)
    ensures BitsIn(cfg, total)
         == (cfg.Bits() * |s.sent|) as real + AllForgotten(cfg, s.sent) + BitsIn(cfg, Unsent(s))
    ensures BitsIn(cfg, Unsent(s)) >= 0.0
  {
    SpentBits(cfg, s.sent);
    BitsAdd(cfg, Spent(s.sent), Unsent(s));
    UnsentBits(cfg, s);
  }

  lemma UnsentBits(cfg: Config, s: State)
    requires Inv(cfg, s) && Credited(cfg, s) && s.send.Some?
    ensures BitsIn(cfg, Unsent(s)) >= 0.0
  {
    WholeAndForgotten(cfg, s.cuts);
    ForgottenBound(cfg, s.cuts);
    BitsAdd(cfg, TimeIn(s.cuts), s.now - s.lastStart);
    BitsMonotone(cfg, 0.0, s.now - s.lastStart);
  }

  // --- the periods ---

  /**
   * Unless it is stopped or reaches the limit, the source keeps switching; the packets it sends
   * do not change when.
   */
  lemma {:induction false} PeriodsLast(cfg: Config, off: real, events: seq<Event>, e: Event, m: nat)
    requires cfg.Valid() && (e.StartSending? || e.StopSending?) && Enabled(Run(cfg, off, events), e)
    ensures var at, s := Run(cfg, off, events).switch.value.0, Run(cfg, off, events + [e] + Sends(m));
            (cfg.maxBytes == 0 || s.totBytes < cfg.maxBytes) ==>
              s.switch == Some(if e.StartSending? then (at + e.on, SwitchOff) else (at + e.off, SwitchOn))
    decreases m
  {
    if m == 0 {
      RunStep(cfg, off, events, e);
      assert events + [e] + Sends(0) == events + [e];
    } else {
      PeriodsLast(cfg, off, events, e, m - 1);
      RunStep(cfg, off, events + [e] + Sends(m - 1), SendPacket);
      assert events + [e] + Sends(m) == events + [e] + Sends(m - 1) + [SendPacket];
    }
  }

  ghost function Sends(m: nat): (es: seq<Event>)
    ensures |es| == m && forall j :: 0 <= j < m ==> es[j] == SendPacket
  {
    seq(m, _ => SendPacket)
  }

  /** With no event pending, nothing is ever sent again. */
  lemma {:induction false} StaysSilent(cfg: Config, off: real, events: seq<Event>, more: seq<Event>)
    requires cfg.Valid() && Run(cfg, off, events).send.None? && Run(cfg, off, events).switch.None?
    ensures var s := Run(cfg, off, events + more);
            s.send.None? && s.switch.None? && s.sent == Run(cfg, off, events).sent
    decreases |more|
  {
    if more == [] {
      assert events + more == events;
    } else {
      var k := |more| - 1;
      StaysSilent(cfg, off, events, more[..k]);
      RunStep(cfg, off, events + more[..k], more[k]);
      assert events + more == events + more[..k] + [more[k]];
    }
  }

  /** A stopped source sends nothing more. */
  lemma StoppedForGood(cfg: Config, off: real, events: seq<Event>, at: real, more: seq<Event>)
    requires cfg.Valid() && Enabled(Run(cfg, off, events), StopApplication(at))
    ensures Run(cfg, off, events + [StopApplication(at)] + more).sent == Run(cfg, off, events).sent
  {
    RunStep(cfg, off, events, StopApplication(at));
    StaysSilent(cfg, off, events + [StopApplication(at)], more);
  }

  ghost predicate AtLimit(cfg: Config, s: State) {
    cfg.maxBytes > 0 && s.totBytes >= cfg.maxBytes
  }

  lemma {:induction false} LimitIsSilent(cfg: Config, off: real, events: seq<Event>)
    requires cfg.Valid() && AtLimit(cfg, Run(cfg, off, events))
    ensures Run(cfg, off, events).send.None? && Run(cfg, off, events).switch.None?
  {
    var s := Run(cfg, off, events[..|events| - 1]);
    if AtLimit(cfg, s) {
      LimitIsSilent(cfg, off, events[..|events| - 1]);
    }
  }

  /** So does one that has reached its byte limit. */
  lemma LimitIsFinal(cfg: Config, off: real, events: seq<Event>, more: seq<Event>)
    requires cfg.Valid() && AtLimit(cfg, Run(cfg, off, events))
    ensures Run(cfg, off, events + more).sent == Run(cfg, off, events).sent
  {
    LimitIsSilent(cfg, off, events);
    StaysSilent(cfg, off, events, more);
  }

  /** The residual never exceeds a packet, and the byte limit is exceeded by less than a packet. */
  lemma ResidualAndLimit(cfg: Config, off: real, events: seq<Event>)
    requires cfg.Valid() && off >= 0.0
    ensures var s := Run(cfg, off, events);
            && 0 <= s.residualBits <= 8 * cfg.pktSize
            && s.totBytes == |s.sent| * cfg.pktSize
            && (cfg.maxBytes > 0 ==> s.totBytes < cfg.maxBytes + cfg.pktSize)
  {
    RunKeeps(cfg, off, events);
  }

  lemma RunStep(cfg: Config, off: real, events: seq<Event>, e: Event)
    requires cfg.Valid()
    ensures var s := Run(cfg, off, events);
            Run(cfg, off, events + [e]) == if Enabled(s, e) then Step(cfg, s, e) else s
  {
  }

  /** The example in the class documentation: 1000 bits at 500 bits/s, on at 3 s, off at 4 s, on again at 5.5 s. */
  lemma DocumentedExample()
    ensures var events := [StartSending(1.0), StopSending(1.5), StartSending(10.0)];
            Run(Config(500, 125, 0, true), 3.0, events).send == Some(6.5)
  {
    var cfg := Config(500, 125, 0, true);
    RunStep(cfg, 3.0, [], StartSending(1.0));
    assert [] + [StartSending(1.0)] == [StartSending(1.0)];
    RunStep(cfg, 3.0, [StartSending(1.0)], StopSending(1.5));
    assert [StartSending(1.0)] + [StopSending(1.5)] == [StartSending(1.0), StopSending(1.5)];
    RunStep(cfg, 3.0, [StartSending(1.0), StopSending(1.5)], StartSending(10.0));
    assert [StartSending(1.0), StopSending(1.5)] + [StartSending(10.0)]
        == [StartSending(1.0), StopSending(1.5), StartSending(10.0)];
  }

  /**
   * A late packet: at 3 bits/s, half a second credits one bit of one and a half, so a packet of
   * 8 bits takes 8.5 bits of on-time.
   */
  lemma LatePacket()
    ensures var cfg := Config(3, 1, 0, true);
            var s := Run(cfg, 0.0, [StartSending(0.5), StopSending(1.0), StartSending(10.0), SendPacket]);
            |s.sent| == 1 && BitsIn(cfg, OnTimeOf(s.sent[0])) == 8.5 && cfg.Bits() == 8
  {
    var cfg := Config(3, 1, 0, true);
    var s := LatePacketDue(cfg);
    var before := [StartSending(0.5), StopSending(1.0), StartSending(10.0)];
    RunStep(cfg, 0.0, before, SendPacket);
    assert before + [SendPacket] == [StartSending(0.5), StopSending(1.0), StartSending(10.0), SendPacket];
    BitsOfTime(cfg, 7);
    assert Transmit(cfg, s, s.send.value).sent[0].last == TimeFor(cfg, 7);
    LateBits(cfg, s.cuts);
  }

  lemma LateBits(cfg: Config, cuts: seq<real>)
    requires cfg == Config(3, 1, 0, true) && cuts == [0.5]
    ensures BitsIn(cfg, TimeIn(cuts) + TimeFor(cfg, 7)) == 8.5
  {
    assert cuts[..0] == [];
    BitsOfTime(cfg, 7);
    BitsAdd(cfg, 0.5, TimeFor(cfg, 7));
  }

  lemma LatePacketDue(cfg: Config) returns (s: State)
    requires cfg == Config(3, 1, 0, true)
    ensures s == Run(cfg, 0.0, [StartSending(0.5), StopSending(1.0), StartSending(10.0)])
    ensures s == State(1.5, 1, 1.5, 0, 0, Some(1.5 + TimeFor(cfg, 7)), Some((11.5, SwitchOff)), [0.5], [])
  {
    var on, cut, again := StartSending(0.5), StopSending(1.0), StartSending(10.0);
    RunStep(cfg, 0.0, [], on);
    RunStep(cfg, 0.0, [on], cut);
    RunStep(cfg, 0.0, [on, cut], again);
    assert [] + [on] == [on] && [on] + [cut] == [on, cut] && [on, cut] + [again] == [on, cut, again];
    assert Run(cfg, 0.0, [on, cut]) == State(0.5, 1, 0.0, 0, 0, None, Some((1.5, SwitchOn)), [0.5], []);
    s := Run(cfg, 0.0, [on, cut, again]);
  }

  /** Every header sent is that of number 0, though the counter counts. */
  ghost predicate Unnumbered(cfg: Config, s: State) {
    && (forall j :: 0 <= j < |s.sent| ==>
          s.sent[j].hdr == if cfg.dgram then Some(Header.Header(0, 0, [])) else None)
    && (|s.sent| < TWO_64 ==> s.seqNumber == if cfg.dgram then |s.sent| else 0)
  }

  lemma StaysUnnumbered(cfg: Config, s: State, e: Event)
    requires cfg.Valid() && Enabled(s, e) && Unnumbered(cfg, s)
    ensures Unnumbered(cfg, Step(cfg, s, e))
  {
  }

  /**
   * The source counts the datagrams it sends, but the header constructor drops the number: every
   * one goes out as number 0.
   */
  lemma {:induction false} AllNumberedZero(cfg: Config, off: real, events: seq<Event>)
    requires cfg.Valid()
    ensures Unnumbered(cfg, Run(cfg, off, events))
  {
    if events != [] {
      var s, e := Run(cfg, off, events[..|events| - 1]), events[|events| - 1];
      AllNumberedZero(cfg, off, events[..|events| - 1]);
      if Enabled(s, e) {
        StaysUnnumbered(cfg, s, e);
      }
    }
  }

  // --- the application object ---

  class MeshSimOnOffApplication {
    const cfg: Config
    var m_residualBits: int
    var m_lastStartTime: real
    var m_totBytes: nat
    var m_seqNumber: UInt64
    var m_sendEvent: Option<real>
    var m_startStopEvent: Option<(real, Switch)>
    ghost var now: real
    ghost var cuts: seq<real>
    ghost var sent: seq<Sent>

    ghost function Value(): State
      reads this
    {
      State(now, m_residualBits, m_lastStartTime, m_totBytes, m_seqNumber, m_sendEvent, m_startStopEvent, cuts, sent)
    }

    ghost predicate Valid()
      reads this
    {
      Inv(cfg, Value()) && Credited(cfg, Value())
    }

    /** Construction and StartApplication, with the length of the first off period. */
    constructor (cfg: Config, off: real)
      requires cfg.Valid() && off >= 0.0
      ensures Valid() && this.cfg == cfg && Value() == Init(off)
    {
      this.cfg := cfg;
      m_residualBits, m_lastStartTime, m_totBytes, m_seqNumber, m_sendEvent := 0, 0.0, 0, 0, None;
      m_startStopEvent := Some((off, SwitchOn));
      now, cuts, sent := 0.0, [], [];
      new;
      RunKeeps(cfg, off, []);
    }

    method DoCancelEvents(at: real)
      requires now == at
      modifies this
      ensures Value() == CancelEvents(cfg, old(Value()))
    {
      if m_sendEvent.Some? {
        var delta := at - m_lastStartTime;
        m_residualBits := m_residualBits + BitsIn(cfg, delta).Floor;
        cuts := cuts + [delta];
      }
      m_sendEvent := None;
      m_startStopEvent := None;
    }

    method DoScheduleNextTx(at: real)
      requires cfg.Valid() && now == at
      modifies this
      ensures Value() == ScheduleNextTx(cfg, old(Value()))
    {
      if cfg.maxBytes == 0 || m_totBytes < cfg.maxBytes {
        var bits := cfg.pktSize * 8 - m_residualBits;
        m_sendEvent := Some(at + bits as real / cfg.rate as real);
      } else {
        DoCancelEvents(at);
      }
    }

    method DoStartSending(on: real)
      requires Valid() && Enabled(Value(), StartSending(on))
      modifies this
      ensures Valid() && Value() == Step(cfg, old(Value()), StartSending(on))
    {
      StartKeeps(cfg, Value(), on);
      StartCredits(cfg, Value(), on);
      var at := m_startStopEvent.value.0;
      now, m_startStopEvent := at, None;
      m_lastStartTime := at;
      DoScheduleNextTx(at);
      m_startStopEvent := Some((at + on, SwitchOff));
    }

    method DoStopSending(off: real)
      requires Valid() && Enabled(Value(), StopSending(off))
      modifies this
      ensures Valid() && Value() == Step(cfg, old(Value()), StopSending(off))
    {
      StopKeeps(cfg, Value(), off);
      StopCredits(cfg, Value(), off);
      var at := m_startStopEvent.value.0;
      now, m_startStopEvent := at, None;
      DoCancelEvents(at);
      m_startStopEvent := Some((at + off, SwitchOn));
    }

    method DoSendPacket()
      requires Valid() && Enabled(Value(), SendPacket)
      modifies this
      ensures Valid() && Value() == Step(cfg, old(Value()), SendPacket)
    {
      TransmitKeeps(cfg, Value());
      TransmitCredits(cfg, Value());
      var at := m_sendEvent.value;
      var hdr := None;
      if cfg.dgram {
        hdr := Some(Header.NullHeader(m_seqNumber));
        m_seqNumber := NextNumber(cfg, m_seqNumber);
      }
      sent, cuts := sent + [Sent(at, hdr, cuts, at - m_lastStartTime)], [];
      now, m_sendEvent := at, None;
      m_totBytes := m_totBytes + cfg.pktSize;
      m_lastStartTime := at;
      m_residualBits := 0;
      DoScheduleNextTx(at);
    }
  }
}

/** Encoder, hops and decoder together. */
module EndToEnd {
  import opened Words
  import opened Header
  import opened Blocks
  import opened Reception
  import opened Contiguity
  import opened Release
  import Decoder
  import Encoder
  import Losses
  import OnOff
  import Proxy

  // --- hops ---

  /** A proxy living through some run of events, or a link that keeps some packets in their order. */
  datatype Hop = ProxyHop(cfg: Proxy.Config, events: seq<Proxy.Event>) | LossyLink(kept: seq<nat>)

  ghost predicate Increasing(ks: seq<nat>) {
    forall i, j :: 0 <= i < j < |ks| ==> ks[i] < ks[j]
  }

  /** `output` is what is left of `input` at the positions ks. */
  ghost predicate Picks(ks: seq<nat>, input: seq<Bytes>, output: seq<Bytes>) {
    && |ks| == |output| && Increasing(ks)
    && forall j :: 0 <= j < |ks| ==> ks[j] < |input| && output[j] == input[ks[j]]
  }

  ghost predicate Passes(hop: Hop, input: seq<Bytes>, output: seq<Bytes>) {
    match hop
    case ProxyHop(cfg, events) =>
      && cfg.Valid() && Proxy.AllEnabled(cfg, events)
      && input == Proxy.Incoming(events) && output == Proxy.Packets(Proxy.Run(cfg, events).sent)
    case LossyLink(kept) => Picks(kept, input, output)
  }

  /** Any number of hops, one after the other: stages[i] goes into hop i and stages[i + 1] comes out. */
  ghost predicate Delivers(hops: seq<Hop>, stages: seq<seq<Bytes>>) {
    && |stages| == |hops| + 1
    && forall i :: 0 <= i < |hops| ==> Passes(hops[i], stages[i], stages[i + 1])
  }

  lemma PicksPrefix(input: seq<Bytes>, m: nat) returns (ks: seq<nat>)
    requires m <= |input|
    ensures Picks(ks, input, input[..m])
  {
    ks := seq(m, j requires 0 <= j < m => j);
  }

  lemma PassesPicks(hop: Hop, input: seq<Bytes>, output: seq<Bytes>) returns (ks: seq<nat>)
    requires Passes(hop, input, output)
    ensures Picks(ks, input, output)
  {
    match hop
    case ProxyHop(cfg, events) =>
      Proxy.NothingVanishes(cfg, events);
      assert output == input[..|output|];
      ks := PicksPrefix(input, |output|);
    case LossyLink(kept) =>
      ks := kept;
  }

  lemma PicksCompose(a: seq<nat>, b: seq<nat>, x: seq<Bytes>, y: seq<Bytes>, z: seq<Bytes>) returns (c: seq<nat>)
    requires Picks(a, x, y) && Picks(b, y, z)
    ensures Picks(c, x, z)
  {
    c := seq(|b|, j requires 0 <= j < |b| => a[b[j]]);
  }

  lemma {:induction false} DeliversPicks(hops: seq<Hop>, stages: seq<seq<Bytes>>, m: nat) returns (ks: seq<nat>)
    requires Delivers(hops, stages) && m <= |hops|
    ensures Picks(ks, stages[0], stages[m])
  {
    if m == 0 {
      assert stages[0] == stages[0][..|stages[0]|];
      ks := PicksPrefix(stages[0], |stages[0]|);
    } else {
      var a := DeliversPicks(hops, stages, m - 1);
      var b := PassesPicks(hops[m - 1], stages[m - 1], stages[m]);
      ks := PicksCompose(a, b, stages[0], stages[m - 1], stages[m]);
    }
  }

  // --- packets on the wire ---

  /** d is header h followed by t bytes of payload. */
  ghost predicate IsPacket(h: Header, d: Bytes, t: int) {
    exists payload: Bytes :: |payload| == t && d == Encode(h) + payload
  }

  /** The encoder's packets as bytes. */
  ghost predicate OnWire(cfg: Config, log: seq<Header>, ds: seq<Bytes>) {
    |ds| == |log| && forall at :: 0 <= at < |log| ==> IsPacket(log[at], ds[at], cfg.t)
  }

  lemma PacketParses(h: Header, d: Bytes, t: int)
    requires IsPacket(h, d, t) && |h.iseq| < TWO_31
    ensures Parse(d).Good? && Parse(d).h == h
  {
    var payload: Bytes :| |payload| == t && d == Encode(h) + payload;
    RoundTrip(h, payload);
  }

  /** Bytes picked from the wire parse to genuine headers, in order. */
  lemma PickedAreGenuine(cfg: Config, log: seq<Header>, ds: seq<Bytes>, ks: seq<nat>, out: seq<Bytes>)
    requires cfg.Valid() && EncoderLog(cfg, log) && |log| <= TWO_31
    requires OnWire(cfg, log, ds) && Picks(ks, ds, out)
    ensures Decoder.AllGood(out) && Genuine(cfg, log, Decoder.Headers(out)) && InOrder(Decoder.Headers(out))
  {
    forall j | 0 <= j < |out|
      ensures Parse(out[j]).Good? && Parse(out[j]).h == log[ks[j]] && log[ks[j]].seqno == ks[j]
    {
      assert IsPacket(log[ks[j]], out[j], cfg.t) && Stamped(cfg, log, ks[j]);
      PacketParses(log[ks[j]], out[j], cfg.t);
      Encoder.SeqnoIsIndex(cfg, ks[j]);
    }
  }

  // --- all blocks together ---

  /** Symbols released to stream i on account of blocks below m. */
  ghost function ReleasedBelow(cfg: Config, rs: seq<Header>, m: nat, i: nat): int
    requires cfg.Valid() && i < cfg.slots && Counted(cfg, rs)
  {
    if m == 0 then 0 else ReleasedBelow(cfg, rs, m - 1, i) + Released(cfg, rs, m - 1, i)
  }

  lemma {:induction false} OneMorePacket(cfg: Config, rs: seq<Header>, m: nat, i: nat)
    requires cfg.Valid() && i < cfg.slots && Counted(cfg, rs) && rs != []
    ensures var p, h := rs[..|rs| - 1], rs[|rs| - 1];
            ReleasedBelow(cfg, rs, m, i) == ReleasedBelow(cfg, p, m, i)
              + if Blk(cfg, h.seqno) < m then Look(cfg, rs, i).units - Look(cfg, p, i).units else 0
    decreases m
  {
    if m > 0 { OneMorePacket(cfg, rs, m - 1, i); }
  }

  lemma {:induction false} UnitsAreReleases(cfg: Config, rs: seq<Header>, m: nat, i: nat)
    requires cfg.Valid() && i < cfg.slots && Counted(cfg, rs)
    requires forall j :: 0 <= j < |rs| ==> Blk(cfg, rs[j].seqno) < m
    ensures Look(cfg, rs, i).units == ReleasedBelow(cfg, rs, m, i)
    decreases |rs|
  {
    if rs == [] {
      NothingReleased(cfg, m, i);
    } else {
      OneMorePacket(cfg, rs, m, i);
      UnitsAreReleases(cfg, rs[..|rs| - 1], m, i);
    }
  }

  lemma {:induction false} NothingReleased(cfg: Config, m: nat, i: nat)
    requires cfg.Valid() && i < cfg.slots
    ensures ReleasedBelow(cfg, [], m, i) == 0
  {
    if m > 0 { NothingReleased(cfg, m - 1, i); }
  }

  /** With every block below m decoded, what they release is what the encoder put into them. */
  lemma {:induction false} AllSymbols(cfg: Config, log: seq<Header>, rs: seq<Header>, m: nat, i: nat)
    requires cfg.Valid() && Genuine(cfg, log, rs) && Counted(cfg, rs) && InOrder(rs) && i < cfg.slots
    requires forall b :: 0 <= b < m ==> Arrivals(cfg, rs, b) >= cfg.k
    ensures First(cfg, m) - cfg.n + cfg.k <= |log| || m == 0
    ensures ReleasedBelow(cfg, rs, m, i) == Occ(log, i, 0, Min(First(cfg, m), |log|))
    decreases m
  {
    if m > 0 {
      assert First(cfg, m) == First(cfg, m - 1) + cfg.n;
      AllSymbols(cfg, log, rs, m - 1, i);
      BlockIsFull(cfg, log, rs, m - 1);
      InOrderUnits(cfg, log, rs, m - 1, i);
      OccSplit(log, i, 0, First(cfg, m - 1), Last(cfg, log, m - 1));
    } else {
      assert First(cfg, 0) == 0;
    }
  }

  /** No block releases more symbols than the encoder put into it. */
  lemma BlockBound(cfg: Config, log: seq<Header>, rs: seq<Header>, b: nat, i: nat)
    requires cfg.Valid() && Genuine(cfg, log, rs) && Counted(cfg, rs) && InOrder(rs) && i < cfg.slots
    ensures Released(cfg, rs, b, i) <= Symbols(cfg, log, b, i)
  {
    InOrderUnits(cfg, log, rs, b, i);
    var c := Released(cfg, rs, b, i);
    if Arrivals(cfg, rs, b) < cfg.k && c >= 1 {
      assert Arrived(cfg, rs, b, i, c);
      var j :| 0 <= j < |rs| && IsSymbol(cfg, rs[j], b, i, c);
      SymbolInBlock(cfg, log, rs[j], i);
    }
  }

  lemma {:induction false} BelowBound(cfg: Config, log: seq<Header>, rs: seq<Header>, m: nat, i: nat)
    requires cfg.Valid() && Genuine(cfg, log, rs) && Counted(cfg, rs) && InOrder(rs) && i < cfg.slots
    ensures ReleasedBelow(cfg, rs, m, i) <= Occ(log, i, 0, Min(First(cfg, m), |log|))
    decreases m
  {
    if m > 0 {
      assert First(cfg, m) == First(cfg, m - 1) + cfg.n;
      BelowBound(cfg, log, rs, m - 1, i);
      BlockBound(cfg, log, rs, m - 1, i);
      if First(cfg, m - 1) <= |log| {
        OccSplit(log, i, 0, First(cfg, m - 1), Last(cfg, log, m - 1));
      }
    }
  }

  /** No block received is beyond the last one sent. */
  lemma BelowTop(cfg: Config, log: seq<Header>, rs: seq<Header>)
    requires cfg.Valid() && Genuine(cfg, log, rs) && log != []
    ensures forall j :: 0 <= j < |rs| ==> Blk(cfg, rs[j].seqno) < Blk(cfg, |log| - 1) + 1
  {
    forall j | 0 <= j < |rs| ensures Blk(cfg, rs[j].seqno) < Blk(cfg, |log| - 1) + 1 {
      assert Sent(log, rs[j]);
      BlkMonotone(cfg, rs[j].seqno, |log| - 1);
    }
  }

  /** No stream is released more symbols than the encoder read from it. */
  lemma AtMostRead(cfg: Config, log: seq<Header>, rs: seq<Header>, i: nat)
    requires cfg.Valid() && Genuine(cfg, log, rs) && Counted(cfg, rs) && InOrder(rs) && i < cfg.slots
    ensures Look(cfg, rs, i).units <= Occ(log, i, 0, |log|)
  {
    NoMoreThanSent(cfg, log, rs);
    if log != [] {
      var m := Blk(cfg, |log| - 1) + 1;
      BelowTop(cfg, log, rs);
      UnitsAreReleases(cfg, rs, m, i);
      BelowBound(cfg, log, rs, m, i);
      OccMonotone(log, i, 0, Min(First(cfg, m), |log|), |log|);
    }
  }

  // --- the theorems ---

  /** What the decoder has made of block b. */
  ghost predicate BlockExact(cfg: Config, log: seq<Header>, rs: seq<Header>, b: nat)
    requires cfg.Valid() && Decoder.AllAcceptable(cfg, rs)
  {
    if Arrivals(cfg, rs, b) >= cfg.k then
      && (forall i :: 0 <= i < cfg.slots ==> ReleasedBytes(cfg, rs, b, i) == Symbols(cfg, log, b, i) * cfg.t)
      && Sum(BlockBytes(cfg, rs, b)) == cfg.k * cfg.t
    else
      forall i :: 0 <= i < cfg.slots ==> ReleasesPrefix(cfg, rs, b, i)
  }

  /**
   * Stream i: no more bytes are released than were read, no more sent on than released, and the
   * others are in the buffer as long as 32 bits hold what was read.
   */
  ghost predicate StreamExact(e: Encoder.State, s: Decoder.State, i: nat) {
    && i < |e.rxTotal| && i < |s.released| == |s.slots| == |s.total|
    && s.total[i] <= s.released[i] <= e.rxTotal[i]
    && (e.rxTotal[i] < TWO_32 ==> s.total[i] + s.slots[i].nbuffered == s.released[i])
  }

  /** What the encoder's run, the hops and the order of events at the decoder have to do with each other. */
  ghost predicate Connected(cfg: Config, ticks: seq<Encoder.Tick>, hops: seq<Hop>, stages: seq<seq<Bytes>>)
    requires cfg.Valid()
  {
    var log := Encoder.Run(cfg, ticks).log;
    Delivers(hops, stages) && |log| <= TWO_31 && OnWire(cfg, log, stages[0])
  }

  /** The datagrams that arrive are the encoder's, in order. */
  lemma Received(cfg: Config, ticks: seq<Encoder.Tick>, hops: seq<Hop>, stages: seq<seq<Bytes>>)
    returns (e: Encoder.State, rs: seq<Header>)
    requires cfg.Valid() && Connected(cfg, ticks, hops, stages)
    ensures e == Encoder.Run(cfg, ticks) && Encoder.Inv(cfg, e)
    ensures Decoder.AllGood(stages[|hops|]) && rs == Decoder.Headers(stages[|hops|])
    ensures Genuine(cfg, e.log, rs) && InOrder(rs) && Counted(cfg, rs)
    ensures Decoder.AllAcceptable(cfg, rs) && AllSmall(rs)
  {
    e := Encoder.Run(cfg, ticks);
    Encoder.RunIsStamped(cfg, ticks);
    var ks := DeliversPicks(hops, stages, |hops|);
    PickedAreGenuine(cfg, e.log, stages[0], ks, stages[|hops|]);
    rs := Decoder.Headers(stages[|hops|]);
    GenuineIsAcceptable(cfg, e.log, rs);
  }

  /** One stream of the decoder, in bytes. */
  lemma ReleasedBound(cfg: Config, e: Encoder.State, rs: seq<Header>, s: Decoder.State, i: nat)
    requires Encoder.Inv(cfg, e) && Genuine(cfg, e.log, rs) && InOrder(rs) && Counted(cfg, rs) && i < cfg.slots
    requires |s.released| == SLOT_COUNT && s.released[i] == Look(cfg, rs, i).units * cfg.t
    requires Decoder.Balanced(s)
    ensures StreamExact(e, s, i)
  {
    AtMostRead(cfg, e.log, rs, i);
    MulMonotone(cfg.t, Look(cfg, rs, i).units, Occ(e.log, i, 0, |e.log|));
    Decoder.ConservationIff(s, i);
  }

  lemma MulMonotone(t: nat, x: int, y: int)
    requires x <= y
    ensures x * t <= t * y
  {
  }

  /**
   * End to end: for every run of the encoder, any number of proxies and order-preserving lossy
   * links, and any interleaving of receiving and sending at the decoder, every datagram that
   * arrives is well formed, every block is released exactly, no stream is released more than was
   * read from it, and what is released is sent on or in the buffer.
   */
  lemma EndToEndExact(cfg: Config, ticks: seq<Encoder.Tick>, hops: seq<Hop>, stages: seq<seq<Bytes>>,
                      es: seq<Decoder.Event>, b: nat)
    requires cfg.Valid() && Connected(cfg, ticks, hops, stages)
    requires forall j :: 0 <= j < |es| ==> Decoder.Possible(cfg, es[j])
    requires Decoder.AllGood(stages[|hops|]) ==> Decoder.RxOnly(es) == Decoder.Headers(stages[|hops|])
    ensures Decoder.AllGood(stages[|hops|]) && Decoder.AllAcceptable(cfg, Decoder.Headers(stages[|hops|]))
    ensures BlockExact(cfg, Encoder.Run(cfg, ticks).log, Decoder.Headers(stages[|hops|]), b)
    ensures var s := Decoder.RunEvents(cfg, es);
            && s.released == Decoder.Run(cfg, Decoder.Headers(stages[|hops|])).released && Decoder.Balanced(s)
            && forall i: nat :: i < cfg.slots ==> StreamExact(Encoder.Run(cfg, ticks), s, i)
  {
    var e, rs := Received(cfg, ticks, hops, stages);
    InOrderExact(cfg, e.log, rs, b);
    Decoder.SendingIsInvisible(cfg, es);
    forall i: nat | i < cfg.slots
      ensures StreamExact(e, Decoder.RunEvents(cfg, es), i)
    {
      LookIsRun(cfg, rs, i);
      ReleasedBound(cfg, e, rs, Decoder.RunEvents(cfg, es), i);
    }
  }

  lemma SameProduct(u: int, t: int, x: int, y: int)
    requires x == u * t && y == t * u
    ensures x == y
  {
  }

  /**
   * If k packets of every block the encoder has begun arrive, the decoder releases to each
   * stream exactly the bytes the encoder read from it.
   */
  lemma NothingLost(cfg: Config, ticks: seq<Encoder.Tick>, hops: seq<Hop>, stages: seq<seq<Bytes>>, i: nat)
    requires cfg.Valid() && i < cfg.slots && Connected(cfg, ticks, hops, stages)
    requires Decoder.AllGood(stages[|hops|]) ==>
               forall at :: 0 <= at < |stages[0]| ==>
                 Arrivals(cfg, Decoder.Headers(stages[|hops|]), Blk(cfg, at)) >= cfg.k
    ensures Decoder.AllGood(stages[|hops|]) && Decoder.AllAcceptable(cfg, Decoder.Headers(stages[|hops|]))
    ensures Decoder.Run(cfg, Decoder.Headers(stages[|hops|])).released[i] == Encoder.Run(cfg, ticks).rxTotal[i]
  {
    var e, rs := Received(cfg, ticks, hops, stages);
    AllReleased(cfg, e.log, rs, i);
    LookIsRun(cfg, rs, i);
    SameProduct(Occ(e.log, i, 0, |e.log|), cfg.t, Decoder.Run(cfg, rs).released[i], e.rxTotal[i]);
  }

  /** Slot i's buffer holds what was read and not sent on, modulo 2^32, so all of it if that is below 2^32. */
  ghost predicate BufferHoldsRest(s: Decoder.State, read: nat, i: nat) {
    && i < |s.slots| == |s.total| && s.total[i] <= read
    && s.slots[i].nbuffered == ToUInt32(read - s.total[i])
    && (s.total[i] + s.slots[i].nbuffered == read <==> read - s.total[i] < TWO_32)
  }

  /**
   * If nothing is lost, each buffer holds what was read and not yet sent on, modulo 2^32: nothing
   * is forgotten if and only if that backlog is below 2^32.
   */
  lemma NothingForgottenIff(cfg: Config, ticks: seq<Encoder.Tick>, hops: seq<Hop>, stages: seq<seq<Bytes>>,
                            es: seq<Decoder.Event>, i: nat)
    requires cfg.Valid() && i < cfg.slots && Connected(cfg, ticks, hops, stages)
    requires forall j :: 0 <= j < |es| ==> Decoder.Possible(cfg, es[j])
    requires Decoder.AllGood(stages[|hops|]) ==>
               var rs := Decoder.Headers(stages[|hops|]);
               Decoder.RxOnly(es) == rs
               && forall at :: 0 <= at < |stages[0]| ==> Arrivals(cfg, rs, Blk(cfg, at)) >= cfg.k
    ensures BufferHoldsRest(Decoder.RunEvents(cfg, es), Encoder.Run(cfg, ticks).rxTotal[i], i)
  {
    var e, rs := Received(cfg, ticks, hops, stages);
    NothingLost(cfg, ticks, hops, stages, i);
    Decoder.SendingIsInvisible(cfg, es);
    BacklogIff(Decoder.RunEvents(cfg, es), e.rxTotal[i], i);
  }

  /**
   * The last byte: if nothing is lost and the backlog of a slot is below 2^32, one more chance to
   * send with room for it brings the bytes sent on to the bytes read.
   */
  lemma EverythingSentOn(cfg: Config, ticks: seq<Encoder.Tick>, hops: seq<Hop>, stages: seq<seq<Bytes>>,
                         es: seq<Decoder.Event>, i: nat, room: nat)
    requires cfg.Valid() && i < cfg.slots && Connected(cfg, ticks, hops, stages)
    requires forall j :: 0 <= j < |es| ==> Decoder.Possible(cfg, es[j])
    requires Decoder.AllGood(stages[|hops|]) ==>
               var rs := Decoder.Headers(stages[|hops|]);
               Decoder.RxOnly(es) == rs
               && forall at :: 0 <= at < |stages[0]| ==> Arrivals(cfg, rs, Blk(cfg, at)) >= cfg.k
    requires var backlog := Encoder.Run(cfg, ticks).rxTotal[i] as int - Decoder.RunEvents(cfg, es).total[i];
             backlog < TWO_32 && backlog <= room
    ensures var more := es + [Decoder.Tx(i, true, room)];
            && (forall j :: 0 <= j < |more| ==> Decoder.Possible(cfg, more[j]))
            && Decoder.RunEvents(cfg, more).total[i] == Encoder.Run(cfg, ticks).rxTotal[i]
  {
    NothingForgottenIff(cfg, ticks, hops, stages, es, i);
    SendStep(cfg, es, i, true, room);
    Decoder.SendDrains(Decoder.RunEvents(cfg, es), i, Decoder.TxSocket(true, room));
  }

  lemma SendStep(cfg: Config, es: seq<Decoder.Event>, i: nat, connected: bool, room: nat)
    requires cfg.Valid() && i < cfg.slots && forall j :: 0 <= j < |es| ==> Decoder.Possible(cfg, es[j])
    ensures var more, s := es + [Decoder.Tx(i, connected, room)], Decoder.RunEvents(cfg, es);
            && (forall j :: 0 <= j < |more| ==> Decoder.Possible(cfg, more[j]))
            && Decoder.RunEvents(cfg, more) == Decoder.Send(s, i, Decoder.Sendable(s.slots[i], connected, room))
  {
    assert (es + [Decoder.Tx(i, connected, room)])[..|es|] == es;
  }

  lemma BacklogIff(s: Decoder.State, read: nat, i: nat)
    requires Decoder.Balanced(s) && i < |s.slots| && s.released[i] == read
    ensures BufferHoldsRest(s, read, i)
  {
  }

  /** In order, there are at least as many numbers as packets. */
  lemma {:induction false} InOrderCount(rs: seq<Header>, j: nat)
    requires InOrder(rs) && j < |rs|
    ensures rs[j].seqno >= j
  {
    if j > 0 { InOrderCount(rs, j - 1); }
  }

  lemma NoMoreThanSent(cfg: Config, log: seq<Header>, rs: seq<Header>)
    requires cfg.Valid() && Genuine(cfg, log, rs) && InOrder(rs)
    ensures |rs| <= |log|
  {
    if rs != [] {
      InOrderCount(rs, |rs| - 1);
      assert Sent(log, rs[|rs| - 1]);
    }
  }

  lemma AllReleased(cfg: Config, log: seq<Header>, rs: seq<Header>, i: nat)
    requires cfg.Valid() && Genuine(cfg, log, rs) && Counted(cfg, rs) && InOrder(rs) && i < cfg.slots
    requires forall at :: 0 <= at < |log| ==> Arrivals(cfg, rs, Blk(cfg, at)) >= cfg.k
    ensures Look(cfg, rs, i).units == Occ(log, i, 0, |log|)
  {
    NoMoreThanSent(cfg, log, rs);
    if log != [] {
      var top := |log| - 1;
      var m := Blk(cfg, top) + 1;
      BelowTop(cfg, log, rs);
      UnitsAreReleases(cfg, rs, m, i);
      forall b | 0 <= b < m ensures Arrivals(cfg, rs, b) >= cfg.k {
        FirstIsInBlock(cfg, b);
        BlkBounds(cfg, top);
        FirstMonotone(cfg, b, m - 1);
      }
      AllSymbols(cfg, log, rs, m, i);
      BlkBounds(cfg, top);
      assert First(cfg, m) == First(cfg, m - 1) + cfg.n;
    }
  }

  lemma FirstIsInBlock(cfg: Config, b: nat)
    requires cfg.Valid()
    ensures Blk(cfg, First(cfg, b)) == b
  {
    DivUnique(First(cfg, b), cfg.n, b, 0);
  }

  lemma FirstMonotone(cfg: Config, a: nat, b: nat)
    requires cfg.Valid() && a <= b
    ensures First(cfg, a) <= First(cfg, b)
  {
  }

  // --- the loss tracker ---

  /** The numbers the tracker takes from the datagrams that reach it. */
  ghost function Heard(ds: seq<Bytes>): seq<int> {
    if ds == [] then [] else Heard(ds[..|ds| - 1]) + Losses.Counting(ds[|ds| - 1])
  }

  /** A datagram counts as the number in its header. */
  lemma CountsAsSeqno(h: Header, d: Bytes, t: int)
    requires IsPacket(h, d, t) && |h.iseq| < TWO_31 && h.seqno <= TWO_63
    ensures Losses.Counting(d) == [h.seqno]
  {
    PacketParses(h, d, t);
    Losses.NumberIsSeqno(h.seqno);
  }

  /** Datagrams of the wire arrive: number ks[j] is the j-th. Any may be lost, repeated or overtaken. */
  ghost predicate Arriving(ks: seq<nat>, ds: seq<Bytes>, out: seq<Bytes>) {
    |ks| == |out| && forall j :: 0 <= j < |ks| ==> ks[j] < |ds| && out[j] == ds[ks[j]]
  }

  lemma {:induction false} HeardAre(ks: seq<nat>, out: seq<Bytes>)
    requires |ks| == |out| && forall j :: 0 <= j < |ks| ==> Losses.Counting(out[j]) == [ks[j]]
    ensures Heard(out) == ks
  {
    if out != [] {
      var m := |out| - 1;
      HeardAre(ks[..m], out[..m]);
      assert ks == ks[..m] + [ks[m]];
    }
  }

  /** What the tracker hears of an encoder's datagrams are their positions in the log. */
  lemma HeardArePositions(cfg: Config, log: seq<Header>, ds: seq<Bytes>, ks: seq<nat>, out: seq<Bytes>)
    requires cfg.Valid() && EncoderLog(cfg, log) && |log| <= cfg.n * TWO_32
    requires OnWire(cfg, log, ds) && Arriving(ks, ds, out)
    ensures Heard(out) == ks
  {
    forall j | 0 <= j < |ks|
      ensures Losses.Counting(out[j]) == [ks[j]]
    {
      var at := ks[j];
      Encoder.SeqnoIsIndex(cfg, at);
      assert Stamped(cfg, log, at) && IsPacket(log[at], out[j], cfg.t);
      CountsAsSeqno(log[at], out[j], cfg.t);
    }
    HeardAre(ks, out);
  }

  /**
   * The tracker on an encoder's datagrams, whichever of them arrive, however often and in
   * whatever order: up to the largest number processed it reports as lost exactly those that
   * never arrived and those that first arrived after n later ones, and as large reorders and
   * duplicates what the arrivals say.
   */
  lemma TrackerIsRight(cfg: Config, ticks: seq<Encoder.Tick>, ds: seq<Bytes>, ks: seq<nat>, out: seq<Bytes>,
                       n: nat, x: int)
    requires cfg.Valid() && n >= 1 && |Encoder.Run(cfg, ticks).log| <= cfg.n * TWO_32
    requires OnWire(cfg, Encoder.Run(cfg, ticks).log, ds) && Arriving(ks, ds, out)
    requires 0 <= x <= Losses.Run(n, Heard(out)).largest
    ensures Heard(out) == ks
    ensures var s := Losses.Run(n, Heard(out));
            && (x !in ks ==> Losses.Lost(s.events, x))
            && (forall k: nat :: Losses.FirstAt(ks, k, x) ==>
                  (Losses.Lost(s.events, x) <==> Losses.Larger(ks[..k], x) >= n))
    ensures Losses.ReportsAre(n, ks, x)
  {
    Encoder.RunIsStamped(cfg, ticks);
    HeardArePositions(cfg, Encoder.Run(cfg, ticks).log, ds, ks, out);
    Losses.LostIff(n, ks, x);
    Losses.ReportsIff(n, ks, x);
  }

  // --- the on/off source ---

  /** A datagram of the on/off source, whatever it carries. */
  ghost predicate FromOnOff(sent: seq<OnOff.Sent>, d: Bytes) {
    exists j, t :: 0 <= j < |sent| && sent[j].hdr.Some? && IsPacket(sent[j].hdr.value, d, t)
  }

  lemma {:induction false} HeardAreZero(cfg: OnOff.Config, off: real, events: seq<OnOff.Event>, ds: seq<Bytes>)
    requires cfg.Valid() && forall j :: 0 <= j < |ds| ==> FromOnOff(OnOff.Run(cfg, off, events).sent, ds[j])
    ensures |Heard(ds)| == |ds| && forall j :: 0 <= j < |ds| ==> Heard(ds)[j] == 0
  {
    if ds != [] {
      var sent, d := OnOff.Run(cfg, off, events).sent, ds[|ds| - 1];
      HeardAreZero(cfg, off, events, ds[..|ds| - 1]);
      OnOff.AllNumberedZero(cfg, off, events);
      CountsAsZero(sent, d);
    }
  }

  lemma CountsAsZero(sent: seq<OnOff.Sent>, d: Bytes)
    requires FromOnOff(sent, d)
    requires forall j :: 0 <= j < |sent| && sent[j].hdr.Some? ==> sent[j].hdr.value == NullHeader(0)
    ensures Losses.Counting(d) == [0]
  {
    var j, t :| 0 <= j < |sent| && sent[j].hdr.Some? && IsPacket(sent[j].hdr.value, d, t);
    PacketParses(sent[j].hdr.value, d, t);
    Losses.NumberIsSeqno(0);
  }

  /**
   * Losses of an on/off stream go unseen: whichever of its datagrams arrive, however often and
   * in whatever order, the tracker reports no loss and no reordering, only duplicates.
   */
  lemma LossesUnseen(cfg: OnOff.Config, off: real, events: seq<OnOff.Event>, ds: seq<Bytes>, n: nat)
    requires cfg.Valid() && n >= 1
    requires forall j :: 0 <= j < |ds| ==> FromOnOff(OnOff.Run(cfg, off, events).sent, ds[j])
    ensures var dups := if |ds| <= n then 0 else |ds| - n - 1;
            Losses.Tally(Losses.Run(n, Heard(ds)).events) == Losses.Summary(0, 0, dups, 0)
  {
    HeardAreZero(cfg, off, events, ds);
    Losses.UnnumberedStream(n, Heard(ds));
  }
}

/** Runs of encoder and decoder in which too much is released, claimed or forgotten. */
module Counterexamples {
  import opened Words
  import opened Header
  import opened Blocks
  import opened Reception
  import opened Contiguity
  import opened Release
  import Decoder
  import Encoder
  import EndToEnd

  const TINY := Config(2, 3, 1, 1)   // two source packets and one repair packet in a block

  function TinyBlock(): seq<Header> {
    [Header(0, 0, [1]), Header(1, 0, [2]), Header(2, -1, [2])]
  }

  /** Three timer ticks with room to send and a byte to read. */
  const TICK := Encoder.Tick(100, [Some(1)])
  const TICKS := [TICK, TICK, TICK]

  function EncoderAt(m: nat): Encoder.State
    requires m <= 3
  {
    Encoder.State(0, if m < 3 then 0 else 1, if m < 3 then m else 0,
                  if m == 1 || m == 2 then [m, 0, 0, 0, 0, 0, 0, 0] else Zeros(),
                  [if m < 2 then m else 2, 0, 0, 0, 0, 0, 0, 0], TinyBlock()[..m])
  }

  lemma EncoderTick(m: nat)
    requires m < 3
    ensures Encoder.Step(TINY, EncoderAt(m), TICK) == EncoderAt(m + 1)
  {
    var s := EncoderAt(m);
    var t := if m < 2 then Encoder.Take(TINY, s, 0) else s;
    assert Encoder.Stamp(TINY, t, if m < 2 then 0 else -1).iseq == TinyBlock()[m].iseq;
    assert TinyBlock()[..m] + [TinyBlock()[m]] == TinyBlock()[..m + 1];
  }

  lemma {:induction false} TinyTicks(ticks: seq<Encoder.Tick>)
    requires |ticks| <= 3 && forall j :: 0 <= j < |ticks| ==> ticks[j] == TICK
    ensures Encoder.Run(TINY, ticks) == EncoderAt(|ticks|)
  {
    if ticks != [] {
      TinyTicks(ticks[..|ticks| - 1]);
      EncoderTick(|ticks| - 1);
    }
  }

  /** The encoder does send this block, with two symbols of stream 0. */
  lemma TinyBlockIsSent()
    ensures Encoder.Run(TINY, TICKS).log == TinyBlock()
    ensures EncoderLog(TINY, TinyBlock()) && Symbols(TINY, TinyBlock(), 0, 0) == 2
  {
    TinyTicks(TICKS);
    assert TinyBlock()[..3] == TinyBlock();
    Encoder.RunIsStamped(TINY, TICKS);
    assert Occ(TinyBlock(), 0, 0, 1) == 1 && Occ(TinyBlock(), 0, 0, 2) == 2;
  }

  lemma LookOneMore(cfg: Config, rs: seq<Header>, h: Header, i: nat)
    requires cfg.Valid() && i < cfg.slots && Counted(cfg, rs) && |h.iseq| == cfg.slots
    ensures Look(cfg, rs + [h], i) == ViewStep(cfg, Look(cfg, rs, i), h, i)
  {
    assert (rs + [h])[..|rs|] == rs;
  }

  lemma FirstOne()
    ensures Look(TINY, [TinyBlock()[0]], 0) == View(0, 1, 1, 1, 1)
  {
    var a := TinyBlock()[0];
    LookOneMore(TINY, [], a, 0);
    assert [] + [a] == [a];
  }

  /** Packets 0 and 2 decode the block: both symbols are known, one of them in order. */
  lemma FirstTwo()
    ensures Look(TINY, [TinyBlock()[0], TinyBlock()[2]], 0) == View(0, 2, 1, 2, 2)
  {
    var a, b := TinyBlock()[0], TinyBlock()[2];
    FirstOne();
    LookOneMore(TINY, [a], b, 0);
    assert [a] + [b] == [a, b];
  }

  /** Either source packet of the block is released after that. */
  lemma ThirdArrives(j: nat) returns (rs: seq<Header>)
    requires j < 2
    ensures rs == [TinyBlock()[0], TinyBlock()[2], TinyBlock()[j]]
    ensures Genuine(TINY, TinyBlock(), rs) && Decoder.AllAcceptable(TINY, rs)
    ensures Sees(TINY, View(0, 3, 2, 2, 3), Decoder.Run(TINY, rs), 0)
  {
    var p, h := [TinyBlock()[0], TinyBlock()[2]], TinyBlock()[j];
    rs := p + [h];
    TinyBlockIsSent();
    GenuineIsAcceptable(TINY, TinyBlock(), rs);
    FirstTwo();
    LookOneMore(TINY, p, h, 0);
    LookIsRun(TINY, rs, 0);
  }

  /** Order 0, 2, 1: the block of two symbols releases three. */
  lemma ReorderingOverReleases()
    ensures var rs := [TinyBlock()[0], TinyBlock()[2], TinyBlock()[1]];
            && Genuine(TINY, TinyBlock(), rs) && NoDuplicates(rs) && Symbols(TINY, TinyBlock(), 0, 0) == 2
            && Decoder.AllAcceptable(TINY, rs) && Decoder.Run(TINY, rs).released[0] == 3
  {
    TinyBlockIsSent();
    var rs := ThirdArrives(1);
  }

  /** Packets 0, 2 and 0 again: the counter says two symbols in order, though symbol 2 never came. */
  lemma DuplicatesBreakContig()
    ensures var rs := [TinyBlock()[0], TinyBlock()[2], TinyBlock()[0]];
            && Genuine(TINY, TinyBlock(), rs) && Decoder.AllAcceptable(TINY, rs)
            && Decoder.Run(TINY, rs).slots[0].nsymbcontig == 2 && !Arrived(TINY, rs, 0, 0, 2)
  {
    var rs := ThirdArrives(0);
  }

  // --- a buffer that forgets ---

  const LONG := Config(1, 1, 1024, 1)   // one packet in a block, a kibibyte in a packet

  const LONG_TICK := Encoder.Tick(2048, [Some(1024)])

  function LongTicks(m: nat): (ticks: seq<Encoder.Tick>)
    ensures |ticks| == m && forall j :: 0 <= j < m ==> ticks[j] == LONG_TICK
  {
    seq(m, _ => LONG_TICK)
  }

  lemma LongStep(e: Encoder.State)
    requires Encoder.Shaped(LONG, e)
    ensures var r := Encoder.Step(LONG, e, LONG_TICK);
            |r.log| == |e.log| + 1 && r.rxTotal[0] == e.rxTotal[0] + 1024
  {
    assert Encoder.Probe(LONG, e.next, LONG_TICK, 0) == Some(0);
  }

  lemma {:induction false} LongRun(m: nat)
    ensures var e := Encoder.Run(LONG, LongTicks(m)); |e.log| == m && e.rxTotal[0] == 1024 * m
  {
    if m > 0 {
      LongRun(m - 1);
      assert LongTicks(m)[..m - 1] == LongTicks(m - 1);
      LongStep(Encoder.Run(LONG, LongTicks(m - 1)));
    }
  }

  /** All packets of the run, delivered in order. */
  lemma LongLog(m: nat) returns (e: Encoder.State)
    requires m <= TWO_31
    ensures e == Encoder.Run(LONG, LongTicks(m)) && Encoder.Inv(LONG, e) && |e.log| == m
    ensures Genuine(LONG, e.log, e.log) && InOrder(e.log)
  {
    e := Encoder.Run(LONG, LongTicks(m));
    LongRun(m);
    Encoder.RunIsStamped(LONG, LongTicks(m));
    forall at | 0 <= at < m ensures e.log[at].seqno == at {
      assert Stamped(LONG, e.log, at);
      Encoder.SeqnoIsIndex(LONG, at);
    }
  }

  lemma {:induction false} HasArrival(cfg: Config, rs: seq<Header>, j: nat)
    requires cfg.Valid() && j < |rs|
    ensures Arrivals(cfg, rs, Blk(cfg, rs[j].seqno)) >= 1
    decreases |rs|
  {
    if j < |rs| - 1 {
      HasArrival(cfg, rs[..|rs| - 1], j);
    }
  }

  /** With all packets delivered, all bytes are released. */
  lemma LongReleased(m: nat)
    requires m <= TWO_31
    ensures var log := Encoder.Run(LONG, LongTicks(m)).log;
            && Genuine(LONG, log, log) && InOrder(log) && Decoder.AllAcceptable(LONG, log)
            && Decoder.Run(LONG, log).released[0] == 1024 * m
  {
    var e := LongLog(m);
    var log := e.log;
    LongRun(m);
    GenuineIsAcceptable(LONG, log, log);
    forall at | 0 <= at < |log| ensures Arrivals(LONG, log, Blk(LONG, at)) >= LONG.k {
      HasArrival(LONG, log, at);
      assert Sent(log, log[at]);
    }
    EndToEnd.AllReleased(LONG, log, log, 0);
    LookIsRun(LONG, log, 0);
  }

  /** Receiving packets, with nothing sent in between. */
  ghost function Receipts(rs: seq<Header>): (es: seq<Decoder.Event>)
    ensures |es| == |rs| && forall j :: 0 <= j < |rs| ==> es[j] == Decoder.Rx(rs[j])
  {
    seq(|rs|, j requires 0 <= j < |rs| => Decoder.Rx(rs[j]))
  }

  lemma {:induction false} ReceiptsOnly(rs: seq<Header>)
    ensures Decoder.RxOnly(Receipts(rs)) == rs
  {
    if rs != [] {
      var p := rs[..|rs| - 1];
      ReceiptsOnly(p);
      assert Receipts(rs)[..|rs| - 1] == Receipts(p);
      assert p + [rs[|rs| - 1]] == rs;
    }
  }

  /**
   * With nothing sent on, 4194304 packets of 1024 bytes of an encoder leave a backlog that reads
   * as an empty buffer: conservation needs its bound.
   */
  lemma BufferWraps() returns (log: seq<Header>, s: Decoder.State)
    ensures log == Encoder.Run(LONG, LongTicks(0x40_0000)).log
    ensures Genuine(LONG, log, log) && InOrder(log)
    ensures forall j :: 0 <= j < |log| ==> Decoder.Possible(LONG, Receipts(log)[j])
    ensures s == Decoder.RunEvents(LONG, Receipts(log))
    ensures s.released[0] == TWO_32 && s.slots[0].nbuffered == 0 && s.total[0] == 0
  {
    log := Encoder.Run(LONG, LongTicks(0x40_0000)).log;
    LongReleased(0x40_0000);
    ReceiptsOnly(log);
    Decoder.SendingIsInvisible(LONG, Receipts(log));
    NothingSent(LONG, Receipts(log));
    s := Decoder.RunEvents(LONG, Receipts(log));
    WrapsAround(s);
  }

  lemma WrapsAround(s: Decoder.State)
    requires Decoder.Balanced(s) && |s.slots| > 0 && s.released[0] == TWO_32 && s.total[0] == 0
    ensures s.slots[0].nbuffered == 0
  {
  }

  lemma {:induction false} NothingSent(cfg: Config, es: seq<Decoder.Event>)
    requires cfg.Valid() && forall j :: 0 <= j < |es| ==> Decoder.Possible(cfg, es[j]) && es[j].Rx?
    ensures Decoder.RunEvents(cfg, es).total == Zeros()
  {
    if es != [] { NothingSent(cfg, es[..|es| - 1]); }
  }
}

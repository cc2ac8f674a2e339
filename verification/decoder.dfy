/** The RaptorQ decoder: ns3_apps/rq-decoder.cc. */
module Decoder {
  import opened Words
  import opened Header
  import opened Blocks

  datatype SlotState = SlotState(nbuffered: UInt32, nsymbcontig: int, nsymb: int)

  datatype SlotInfo = SlotInfo(n_src_rcv: int, n_contig_src_rcv: int)

  /** One line of the decoding trace. */
  datatype DecodeInfo = DecodeInfo(sbid: int, success: bool, n_rcv: int, n_src_rcv: int, slotinfo: seq<SlotInfo>)

  /** `released` counts the bytes handed to each stream, `total` the bytes sent on; `infos` is the trace. */
  datatype State = State(sbid: int, nrcv: int, nsrcrcv: int, slots: seq<SlotState>,
                         released: seq<nat>, total: seq<nat>, infos: seq<DecodeInfo>)

  predicate Shaped(cfg: Config, s: State) {
    && cfg.Valid()
    && |s.slots| == |s.released| == |s.total| == SLOT_COUNT
    && forall i :: 0 <= i < SLOT_COUNT ==> 0 <= s.slots[i].nsymbcontig <= s.slots[i].nsymb
  }

  /** What the decoder assumes of a header: a count for each slot, and a slot or -1 as stream. */
  predicate Acceptable(cfg: Config, h: Header) {
    |h.iseq| == cfg.slots && -1 <= h.streamid < SLOT_COUNT
  }

  function Init(cfg: Config): State {
    State(-1, 0, 0, seq(SLOT_COUNT, i => SlotState(0, 0, 0)), Zeros(), Zeros(), [])
  }

  function Info(cfg: Config, s: State): DecodeInfo
    requires Shaped(cfg, s)
  {
    DecodeInfo(s.sbid, s.nrcv >= cfg.k, s.nrcv, s.nsrcrcv,
               seq(cfg.slots, i requires 0 <= i < cfg.slots => SlotInfo(s.slots[i].nsymb, s.slots[i].nsymbcontig)))
  }

  /** Move on to source block b, reporting the one left behind. */
  function Enter(cfg: Config, s: State, b: int): (r: State)
    requires Shaped(cfg, s)
    ensures Shaped(cfg, r)
  {
    s.(infos := if s.sbid >= 0 then s.infos + [Info(cfg, s)] else s.infos,
       sbid := b, nrcv := 0, nsrcrcv := 0,
       slots := seq(SLOT_COUNT, i requires 0 <= i < SLOT_COUNT =>
                    if i < cfg.slots then SlotState(s.slots[i].nbuffered, 0, 0) else s.slots[i]))
  }

  /** Raise every stream's symbol count to the header's. */
  function Raise(cfg: Config, s: State, iseq: seq<Int32>): (r: State)
    requires Shaped(cfg, s) && |iseq| == cfg.slots
    ensures Shaped(cfg, r)
  {
    s.(slots := seq(SLOT_COUNT, i requires 0 <= i < SLOT_COUNT =>
                    if i < cfg.slots then s.slots[i].(nsymb := Max(s.slots[i].nsymb, iseq[i])) else s.slots[i]))
  }

  /** Buffer m more symbols of a stream. */
  function Grant(cfg: Config, x: SlotState, m: int): SlotState {
    x.(nbuffered := ToUInt32(x.nbuffered as int + m * cfg.t))
  }

  /** A packet that continues its stream without a gap is released at once. */
  function Advance(cfg: Config, s: State, streamid: int): (r: State)
    requires Shaped(cfg, s) && -1 <= streamid < SLOT_COUNT
    ensures Shaped(cfg, r)
  {
    if streamid != -1 && s.slots[streamid].nsymbcontig + 1 == s.slots[streamid].nsymb then
      var x := s.slots[streamid];
      s.(slots := s.slots[streamid := Grant(cfg, x.(nsymbcontig := x.nsymbcontig + 1), 1)],
         released := s.released[streamid := s.released[streamid] + cfg.t])
    else s
  }

  function Count(cfg: Config, s: State, esi: int): State {
    s.(nrcv := s.nrcv + 1, nsrcrcv := if esi < cfg.k then s.nsrcrcv + 1 else s.nsrcrcv)
  }

  /** Release what every stream held back. */
  function Unblock(cfg: Config, s: State): (r: State)
    requires Shaped(cfg, s)
    ensures Shaped(cfg, r)
  {
    s.(slots := seq(SLOT_COUNT, i requires 0 <= i < SLOT_COUNT =>
                    if i < cfg.slots then Grant(cfg, s.slots[i], Held(s, i)) else s.slots[i]),
       released := seq(SLOT_COUNT, i requires 0 <= i < SLOT_COUNT =>
                    if i < cfg.slots then s.released[i] + Held(s, i) * cfg.t else s.released[i]))
  }

  /** With the k-th packet of the block, release what was held back. */
  function Decode(cfg: Config, s: State): (r: State)
    requires Shaped(cfg, s)
    ensures Shaped(cfg, r)
  {
    if s.nrcv == cfg.k then
      var r := Unblock(cfg, s);
      r.(infos := r.infos + [Info(cfg, r)])
    else s
  }

  function Held(s: State, i: nat): nat
    requires i < |s.slots| && s.slots[i].nsymbcontig <= s.slots[i].nsymb
  {
    s.slots[i].nsymb - s.slots[i].nsymbcontig
  }

  function BlockOf(cfg: Config, h: Header): int
    requires cfg.Valid()
  {
    TruncDiv(ToInt32(h.seqno), cfg.n)
  }

  function EsiOf(cfg: Config, h: Header): int
    requires cfg.Valid()
  {
    TruncMod(ToInt32(h.seqno), cfg.n)
  }

  /** In a decoder's normal range, blocks and ESIs are quotients and remainders. */
  lemma SmallSeqno(cfg: Config, h: Header)
    requires cfg.Valid() && h.seqno < TWO_31
    ensures BlockOf(cfg, h) == Blk(cfg, h.seqno) && EsiOf(cfg, h) == Esi(cfg, h.seqno)
  {
  }

  /** Numbers that are negative as an int belong to no later block than block 0. */
  lemma NegativeSeqno(cfg: Config, h: Header)
    requires cfg.Valid() && ToInt32(h.seqno) < 0
    ensures BlockOf(cfg, h) * cfg.n + EsiOf(cfg, h) == ToInt32(h.seqno)
    ensures BlockOf(cfg, h) <= 0 && -cfg.n < EsiOf(cfg, h) <= 0
  {
    TruncIs(ToInt32(h.seqno), cfg.n);
  }

  /** A packet of the current block. */
  function Receive(cfg: Config, s: State, h: Header): (r: State)
    requires Shaped(cfg, s) && Acceptable(cfg, h)
    ensures Shaped(cfg, r)
  {
    Decode(cfg, Count(cfg, Advance(cfg, Raise(cfg, s, h.iseq), h.streamid), EsiOf(cfg, h)))
  }

  /** Processing one received packet. */
  function Step(cfg: Config, s: State, h: Header): (r: State)
    requires Shaped(cfg, s) && Acceptable(cfg, h)
    ensures Shaped(cfg, r)
  {
    var b := BlockOf(cfg, h);
    if b < s.sbid then s
    else Receive(cfg, if b > s.sbid then Enter(cfg, s, b) else s, h)
  }

  ghost predicate AllAcceptable(cfg: Config, rs: seq<Header>) {
    forall j :: 0 <= j < |rs| ==> Acceptable(cfg, rs[j])
  }

  /** The state after receiving the packets rs. */
  ghost function Run(cfg: Config, rs: seq<Header>): (r: State)
    requires cfg.Valid() && AllAcceptable(cfg, rs)
    ensures Shaped(cfg, r)
  {
    if rs == [] then Init(cfg)
    else Step(cfg, Run(cfg, rs[..|rs| - 1]), rs[|rs| - 1])
  }

  /** Bytes that leave a slot when its socket takes up to txavail. */
  function Sendable(x: SlotState, connected: bool, txavail: nat): UInt32 {
    if !connected then 0 else Min(txavail, x.nbuffered)
  }

  function Send(s: State, i: nat, amount: UInt32): State
    requires i < |s.slots| == |s.total| && amount <= s.slots[i].nbuffered
  {
    s.(slots := s.slots[i := s.slots[i].(nbuffered := s.slots[i].nbuffered - amount)],
       total := s.total[i := s.total[i] + amount])
  }

  // --- conservation of bytes ---

  /** Bytes buffered are the bytes released but not sent, in 32-bit arithmetic; never more is sent than released. */
  ghost predicate Balanced(s: State) {
    && |s.slots| == |s.released| == |s.total|
    && forall i :: 0 <= i < |s.slots| ==>
         s.total[i] <= s.released[i] && s.slots[i].nbuffered == ToUInt32(s.released[i] - s.total[i])
  }

  lemma StepBalanced(cfg: Config, s: State, h: Header)
    requires Shaped(cfg, s) && Acceptable(cfg, h) && Balanced(s)
    ensures Balanced(Step(cfg, s, h))
  {
    var b := BlockOf(cfg, h);
    if b > s.sbid {
      ReceiveBalanced(cfg, Enter(cfg, s, b), h);
    } else if b == s.sbid {
      ReceiveBalanced(cfg, s, h);
    }
  }

  lemma ReceiveBalanced(cfg: Config, s: State, h: Header)
    requires Shaped(cfg, s) && Acceptable(cfg, h) && Balanced(s)
    ensures Balanced(Receive(cfg, s, h))
  {
    var u := Raise(cfg, s, h.iseq);
    var v := Advance(cfg, u, h.streamid);
    AdvanceBalanced(cfg, u, h.streamid);
    var w := Count(cfg, v, EsiOf(cfg, h));
    assert Balanced(w);
    DecodeBalanced(cfg, w);
  }

  lemma AdvanceBalanced(cfg: Config, s: State, streamid: int)
    requires Shaped(cfg, s) && -1 <= streamid < SLOT_COUNT && Balanced(s)
    ensures Balanced(Advance(cfg, s, streamid))
  {
    if streamid != -1 {
      WrapAdd(s.released[streamid] - s.total[streamid], cfg.t);
    }
  }

  lemma DecodeBalanced(cfg: Config, s: State)
    requires Shaped(cfg, s) && Balanced(s)
    ensures Balanced(Decode(cfg, s))
  {
    if s.nrcv == cfg.k {
      var r := Decode(cfg, s);
      forall i | 0 <= i < |r.slots|
        ensures r.total[i] <= r.released[i] && r.slots[i].nbuffered == ToUInt32(r.released[i] - r.total[i])
      {
        MulNonNegative(cfg.t, Held(s, i));
        WrapAdd(s.released[i] - s.total[i], Held(s, i) * cfg.t);
      }
    }
  }

  lemma SendBalanced(s: State, i: nat, connected: bool, txavail: nat)
    requires Balanced(s) && i < |s.slots|
    ensures Balanced(Send(s, i, Sendable(s.slots[i], connected, txavail)))
  {
  }

  /** The socket of an outgoing slot: connected or not, with room for so many bytes. */
  datatype TxSocket = TxSocket(connected: bool, txavail: nat)

  /**
   * From s to r, slot i has given its socket what it takes: nothing if it is not connected, else
   * all there is room for, or all there is.
   */
  ghost predicate Drained(s: State, r: State, i: nat, socket: TxSocket)
    requires i < |s.slots| == |s.total| == |r.slots| == |r.total|
  {
    var moved := r.total[i] as int - s.total[i];
    && moved == s.slots[i].nbuffered - r.slots[i].nbuffered && 0 <= moved <= socket.txavail
    && (!socket.connected ==> moved == 0)
    && (socket.connected ==> r.slots[i].nbuffered == 0 || moved == socket.txavail)
  }

  lemma SendDrains(s: State, i: nat, socket: TxSocket)
    requires i < |s.slots| == |s.total|
    ensures Drained(s, Send(s, i, Sendable(s.slots[i], socket.connected, socket.txavail)), i, socket)
  {
  }

  /** As long as the backlog of a slot fits in 32 bits, bytes sent and buffered add up to bytes released; only then. */
  lemma ConservationIff(s: State, i: nat)
    requires Balanced(s) && i < |s.slots|
    ensures s.total[i] + s.slots[i].nbuffered == s.released[i] <==> s.released[i] - s.total[i] < TWO_32
  {
  }

  // --- receiving and sending interleaved ---

  /** A packet is received, or the socket of a slot takes what it can. */
  datatype Event = Rx(h: Header) | Tx(slot: nat, connected: bool, txavail: nat)

  ghost predicate Possible(cfg: Config, e: Event) {
    match e
    case Rx(h) => Acceptable(cfg, h)
    case Tx(slot, _, _) => slot < SLOT_COUNT
  }

  ghost function RunEvents(cfg: Config, es: seq<Event>): (s: State)
    requires cfg.Valid() && forall j :: 0 <= j < |es| ==> Possible(cfg, es[j])
    ensures Shaped(cfg, s) && Balanced(s)
  {
    if es == [] then Init(cfg)
    else
      var s, e := RunEvents(cfg, es[..|es| - 1]), es[|es| - 1];
      assert Possible(cfg, e);
      match e
      case Rx(h) =>
        StepBalanced(cfg, s, h);
        Step(cfg, s, h)
      case Tx(slot, connected, txavail) =>
        SendBalanced(s, slot, connected, txavail);
        Send(s, slot, Sendable(s.slots[slot], connected, txavail))
  }

  ghost function RxOnly(es: seq<Event>): seq<Header> {
    if es == [] then []
    else
      var e := es[|es| - 1];
      RxOnly(es[..|es| - 1]) + if e.Rx? then [e.h] else []
  }

  /** The same but for what is still buffered and what has been sent. */
  ghost predicate SameReception(s: State, r: State) {
    && s.sbid == r.sbid && s.nrcv == r.nrcv && s.nsrcrcv == r.nsrcrcv
    && s.released == r.released && s.infos == r.infos && |s.slots| == |r.slots| == SLOT_COUNT
    && forall i :: 0 <= i < SLOT_COUNT ==>
         s.slots[i].nsymbcontig == r.slots[i].nsymbcontig && s.slots[i].nsymb == r.slots[i].nsymb
  }

  lemma ReceiveIgnoresBuffers(cfg: Config, s: State, r: State, h: Header)
    requires Shaped(cfg, s) && Shaped(cfg, r) && Acceptable(cfg, h) && SameReception(s, r)
    ensures SameReception(Receive(cfg, s, h), Receive(cfg, r, h))
  {
    var us, ur := Raise(cfg, s, h.iseq), Raise(cfg, r, h.iseq);
    assert SameReception(us, ur);
    var vs, vr := Advance(cfg, us, h.streamid), Advance(cfg, ur, h.streamid);
    assert SameReception(vs, vr);
    DecodeIgnoresBuffers(cfg, Count(cfg, vs, EsiOf(cfg, h)), Count(cfg, vr, EsiOf(cfg, h)));
  }

  lemma SameInfo(cfg: Config, s: State, r: State)
    requires Shaped(cfg, s) && Shaped(cfg, r) && SameReception(s, r)
    ensures Info(cfg, s) == Info(cfg, r)
  {
  }

  lemma DecodeIgnoresBuffers(cfg: Config, s: State, r: State)
    requires Shaped(cfg, s) && Shaped(cfg, r) && SameReception(s, r)
    ensures SameReception(Decode(cfg, s), Decode(cfg, r))
  {
    if s.nrcv == cfg.k {
      SameInfo(cfg, Unblock(cfg, s), Unblock(cfg, r));
    }
  }

  lemma EnterIgnoresBuffers(cfg: Config, s: State, r: State, b: int)
    requires Shaped(cfg, s) && Shaped(cfg, r) && SameReception(s, r)
    ensures SameReception(Enter(cfg, s, b), Enter(cfg, r, b))
  {
    SameInfo(cfg, s, r);
  }

  lemma StepIgnoresBuffers(cfg: Config, s: State, r: State, h: Header)
    requires Shaped(cfg, s) && Shaped(cfg, r) && Acceptable(cfg, h) && SameReception(s, r)
    ensures SameReception(Step(cfg, s, h), Step(cfg, r, h))
  {
    var b := BlockOf(cfg, h);
    if b > s.sbid {
      EnterIgnoresBuffers(cfg, s, r, b);
      ReceiveIgnoresBuffers(cfg, Enter(cfg, s, b), Enter(cfg, r, b), h);
    } else if b == s.sbid {
      ReceiveIgnoresBuffers(cfg, s, r, h);
    }
  }

  /** Sending never influences what is received, released or traced. */
  lemma {:induction false} SendingIsInvisible(cfg: Config, es: seq<Event>)
    requires cfg.Valid() && forall j :: 0 <= j < |es| ==> Possible(cfg, es[j])
    ensures AllAcceptable(cfg, RxOnly(es))
    ensures SameReception(RunEvents(cfg, es), Run(cfg, RxOnly(es)))
  {
    if es != [] {
      var p, e := es[..|es| - 1], es[|es| - 1];
      SendingIsInvisible(cfg, p);
      assert Possible(cfg, e);
      var s, r := RunEvents(cfg, p), Run(cfg, RxOnly(p));
      match e
      case Rx(h) =>
        assert RxOnly(es)[..|RxOnly(p)|] == RxOnly(p);
        StepIgnoresBuffers(cfg, s, r, h);
      case Tx(slot, connected, txavail) =>
        assert RxOnly(es) == RxOnly(p);
        SendKeepsReception(s, r, slot, Sendable(s.slots[slot], connected, txavail));
    }
  }

  lemma SendKeepsReception(s: State, r: State, i: nat, amount: UInt32)
    requires SameReception(s, r) && i < |s.slots| == |s.total| && amount <= s.slots[i].nbuffered
    ensures SameReception(Send(s, i, amount), r)
  {
  }

  // --- the application object ---

  /** What became of a batch of datagrams: all handled, or the simulation aborted. */
  datatype Outcome = Handled | Malformed

  ghost predicate AllGood(ds: seq<Bytes>) {
    forall j :: 0 <= j < |ds| ==> Parse(ds[j]).Good?
  }

  /** The headers of a batch of datagrams. */
  ghost function Headers(ds: seq<Bytes>): (hs: seq<Header>)
    requires AllGood(ds)
    ensures |hs| == |ds| && forall j :: 0 <= j < |ds| ==> hs[j] == Parse(ds[j]).h
  {
    if ds == [] then [] else Headers(ds[..|ds| - 1]) + [Parse(ds[|ds| - 1]).h]
  }

  lemma HeadersStep(ds: seq<Bytes>, j: nat)
    requires j < |ds| && AllGood(ds[..j]) && Parse(ds[j]).Good?
    ensures AllGood(ds[..j + 1]) && Headers(ds[..j + 1]) == Headers(ds[..j]) + [Parse(ds[j]).h]
  {
    assert ds[..j + 1][..j] == ds[..j];
  }

  ghost function Steps(cfg: Config, s: State, rs: seq<Header>): (r: State)
    requires Shaped(cfg, s) && AllAcceptable(cfg, rs)
    ensures Shaped(cfg, r)
  {
    if rs == [] then s else Step(cfg, Steps(cfg, s, rs[..|rs| - 1]), rs[|rs| - 1])
  }

  /** TryToSend on slots 0..m. */
  ghost function SendAll(cfg: Config, s: State, tx: seq<TxSocket>, m: nat): (r: State)
    requires Shaped(cfg, s) && m <= cfg.slots <= |tx|
    ensures Shaped(cfg, r)
  {
    if m == 0 then s
    else
      var p := SendAll(cfg, s, tx, m - 1);
      Send(p, m - 1, Sendable(p.slots[m - 1], tx[m - 1].connected, tx[m - 1].txavail))
  }

  lemma {:induction false} SendAllDrains(cfg: Config, s: State, tx: seq<TxSocket>, m: nat)
    requires Shaped(cfg, s) && m <= cfg.slots <= |tx|
    ensures var r := SendAll(cfg, s, tx, m);
            && (forall i: nat :: i < m ==> Drained(s, r, i, tx[i]))
            && (forall i :: m <= i < SLOT_COUNT ==> r.total[i] == s.total[i] && r.slots[i] == s.slots[i])
  {
    if m > 0 {
      SendAllDrains(cfg, s, tx, m - 1);
    }
  }

  /** Receiving sends nothing. */
  lemma {:induction false} StepsKeepTotals(cfg: Config, s: State, rs: seq<Header>)
    requires Shaped(cfg, s) && AllAcceptable(cfg, rs)
    ensures Steps(cfg, s, rs).total == s.total
  {
    if rs != [] {
      StepsKeepTotals(cfg, s, rs[..|rs| - 1]);
    }
  }

  class RqDecoder {
    const cfg: Config
    var m_sbid: int
    var m_sb_nrcv: int
    var m_sb_nsrcrcv: int
    const m_slotStates: array<SlotState>
    const totals: array<nat>
    ghost var released: seq<nat>
    var trace: seq<DecodeInfo>

    ghost predicate Valid()
      reads this, m_slotStates, totals
    {
      m_slotStates as object != totals && Shaped(cfg, Value()) && Balanced(Value())
    }

    ghost function Value(): State
      reads this, m_slotStates, totals
    {
      State(m_sbid, m_sb_nrcv, m_sb_nsrcrcv, m_slotStates[..], released, totals[..], trace)
    }

    constructor (cfg: Config)
      requires cfg.Valid()
      ensures Valid() && this.cfg == cfg && Value() == Init(cfg)
      ensures fresh(m_slotStates) && fresh(totals)
    {
      this.cfg := cfg;
      m_sbid, m_sb_nrcv, m_sb_nsrcrcv, trace, released := -1, 0, 0, [], Zeros();
      m_slotStates := new SlotState[SLOT_COUNT](i => SlotState(0, 0, 0));
      totals := new nat[SLOT_COUNT](i => 0);
      new;
      assert Value().slots == Init(cfg).slots && Value().total == Init(cfg).total;
    }

    method PopulateDecodeInfo() returns (info: DecodeInfo)
      requires Shaped(cfg, Value())
      ensures info == Info(cfg, Value())
    {
      var slotinfo := [];
      for i := 0 to cfg.slots
        invariant |slotinfo| == i
        invariant forall j :: 0 <= j < i ==>
                    slotinfo[j] == SlotInfo(m_slotStates[j].nsymb, m_slotStates[j].nsymbcontig)
      {
        slotinfo := slotinfo + [SlotInfo(m_slotStates[i].nsymb, m_slotStates[i].nsymbcontig)];
      }
      info := DecodeInfo(m_sbid, m_sb_nrcv >= cfg.k, m_sb_nrcv, m_sb_nsrcrcv, slotinfo);
    }

    /** The branch of HandleRead that moves to a later source block. */
    method EnterBlock(sbid: int)
      requires Shaped(cfg, Value()) && m_slotStates as object != totals
      modifies `m_sbid, `m_sb_nrcv, `m_sb_nsrcrcv, `trace, m_slotStates
      ensures Value() == Enter(cfg, old(Value()), sbid)
    {
      if m_sbid >= 0 {
        var info := PopulateDecodeInfo();
        trace := trace + [info];
      }
      m_sbid := sbid;
      m_sb_nrcv := 0;
      m_sb_nsrcrcv := 0;
      for i := 0 to cfg.slots
        invariant forall j :: 0 <= j < SLOT_COUNT ==>
                    m_slotStates[j] == if j < i then SlotState(old(m_slotStates[j]).nbuffered, 0, 0)
                                       else old(m_slotStates[j])
        modifies m_slotStates
      {
        m_slotStates[i] := m_slotStates[i].(nsymbcontig := 0, nsymb := 0);
      }
      assert m_slotStates[..] == Enter(cfg, old(Value()), sbid).slots;
    }

    method RaiseCounts(iseq: seq<Int32>)
      requires Shaped(cfg, Value()) && m_slotStates as object != totals && |iseq| == cfg.slots
      modifies m_slotStates
      ensures Value() == Raise(cfg, old(Value()), iseq)
    {
      for i := 0 to cfg.slots
        invariant forall j :: 0 <= j < SLOT_COUNT ==>
                    var x := old(m_slotStates[j]);
                    m_slotStates[j] == if j < i then x.(nsymb := Max(x.nsymb, iseq[j])) else x
      {
        if iseq[i] > m_slotStates[i].nsymb {
          m_slotStates[i] := m_slotStates[i].(nsymb := iseq[i]);
        }
      }
      assert m_slotStates[..] == Raise(cfg, old(Value()), iseq).slots;
    }

    /** The k-th packet: release what every stream held back, and trace it. */
    method DecodeBlock()
      requires Shaped(cfg, Value()) && m_slotStates as object != totals && m_sb_nrcv == cfg.k
      modifies `trace, `released, m_slotStates
      ensures Value() == Decode(cfg, old(Value()))
    {
      ghost var s := Value();
      for i := 0 to cfg.slots
        invariant forall j :: 0 <= j < SLOT_COUNT ==>
                    m_slotStates[j] == if j < i then Grant(cfg, s.slots[j], Held(s, j)) else s.slots[j]
        modifies m_slotStates
      {
        var st := m_slotStates[i];
        m_slotStates[i] := Grant(cfg, st, st.nsymb - st.nsymbcontig);
      }
      released := seq(SLOT_COUNT, i requires 0 <= i < SLOT_COUNT =>
                      if i < cfg.slots then s.released[i] + Held(s, i) * cfg.t else s.released[i]);
      assert m_slotStates[..] == Decode(cfg, s).slots;
      var info := PopulateDecodeInfo();
      trace := trace + [info];
    }

    /** The body of the receive loop, for a well-formed packet. */
    method HandlePacket(h: Header)
      requires Valid() && Acceptable(cfg, h)
      modifies this, m_slotStates
      ensures Valid() && Value() == Step(cfg, old(Value()), h)
    {
      StepBalanced(cfg, Value(), h);
      var pkt_id := ToInt32(h.seqno);
      var sbid := TruncDiv(pkt_id, cfg.n);
      var esi := TruncMod(pkt_id, cfg.n);
      if sbid > m_sbid {
        EnterBlock(sbid);
      } else if sbid < m_sbid {
        return;
      }
      ReceivePacket(h, esi);
    }

    /** The rest of the loop body, for a packet of the current block. */
    method ReceivePacket(h: Header, esi: int)
      requires Shaped(cfg, Value()) && m_slotStates as object != totals
      requires Acceptable(cfg, h) && esi == EsiOf(cfg, h)
      modifies this, m_slotStates
      ensures Value() == Receive(cfg, old(Value()), h)
    {
      RaiseCounts(h.iseq);
      ReleaseInOrder(h.streamid);
      m_sb_nrcv := m_sb_nrcv + 1;
      if esi < cfg.k {
        m_sb_nsrcrcv := m_sb_nsrcrcv + 1;
      }
      assert Value() == Count(cfg, Advance(cfg, Raise(cfg, old(Value()), h.iseq), h.streamid), esi);
      if m_sb_nrcv == cfg.k {
        DecodeBlock();
      }
    }

    /** All datagrams waiting on the socket, then one attempt to send on every slot. */
    method HandleRead(ds: seq<Bytes>, tx: seq<TxSocket>) returns (outcome: Outcome)
      requires Valid() && cfg.slots <= |tx|
      requires forall j :: 0 <= j < |ds| && Parse(ds[j]).Good? ==> Acceptable(cfg, Parse(ds[j]).h)
      modifies this, m_slotStates, totals
      ensures Valid()
      ensures outcome.Handled? <==> AllGood(ds)
      ensures outcome.Handled? ==>
                Value() == SendAll(cfg, Steps(cfg, old(Value()), Headers(ds)), tx, cfg.slots)
      ensures outcome.Handled? ==>
                var received := Steps(cfg, old(Value()), Headers(ds));
                && (forall i: nat :: i < cfg.slots ==> Drained(received, Value(), i, tx[i]))
                && (forall i :: cfg.slots <= i < SLOT_COUNT ==> m_slotStates[i] == received.slots[i])
                && received.total == old(totals[..])
    {
      outcome := ReceiveAll(ds);
      if outcome.Handled? {
        StepsKeepTotals(cfg, old(Value()), Headers(ds));
        SendOnAll(tx);
      }
    }

    /** The loop that tries to send on every slot. */
    method SendOnAll(tx: seq<TxSocket>)
      requires Valid() && cfg.slots <= |tx|
      modifies m_slotStates, totals
      ensures Valid() && Value() == SendAll(cfg, old(Value()), tx, cfg.slots)
      ensures forall i: nat :: i < cfg.slots ==> Drained(old(Value()), Value(), i, tx[i])
      ensures forall i :: cfg.slots <= i < SLOT_COUNT ==> m_slotStates[i] == old(m_slotStates[i])
    {
      ghost var s := Value();
      for i := 0 to cfg.slots
        invariant Valid() && Value() == SendAll(cfg, s, tx, i)
      {
        TryToSend(i, tx[i]);
      }
      SendAllDrains(cfg, s, tx, cfg.slots);
    }

    /** The receive loop. */
    method ReceiveAll(ds: seq<Bytes>) returns (outcome: Outcome)
      requires Valid()
      requires forall j :: 0 <= j < |ds| && Parse(ds[j]).Good? ==> Acceptable(cfg, Parse(ds[j]).h)
      modifies this, m_slotStates
      ensures Valid()
      ensures outcome.Handled? <==> AllGood(ds)
      ensures outcome.Handled? ==> Value() == Steps(cfg, old(Value()), Headers(ds))
    {
      ghost var s, hs := Value(), [];
      for j := 0 to |ds|
        invariant Valid() && AllGood(ds[..j]) && hs == Headers(ds[..j])
        invariant Value() == Steps(cfg, s, hs)
      {
        var p := Parse(ds[j]);
        if !p.Good? {
          return Malformed;
        }
        HandlePacket(p.h);
        HeadersStep(ds, j);
        assert (hs + [p.h])[..j] == hs;
        hs := hs + [p.h];
      }
      assert ds[..|ds|] == ds;
      outcome := Handled;
    }

    /** The stream of the packet releases it if it is the next one expected. */
    method ReleaseInOrder(streamid: int)
      requires Shaped(cfg, Value()) && m_slotStates as object != totals && -1 <= streamid < SLOT_COUNT
      modifies `released, m_slotStates
      ensures Value() == Advance(cfg, old(Value()), streamid)
    {
      if streamid != -1 && m_slotStates[streamid].nsymbcontig + 1 == m_slotStates[streamid].nsymb {
        var x := m_slotStates[streamid];
        m_slotStates[streamid] := Grant(cfg, x.(nsymbcontig := x.nsymbcontig + 1), 1);
        released := released[streamid := released[streamid] + cfg.t];
      }
    }

    method TryToSend(slotID: nat, tx: TxSocket)
      requires Valid() && slotID < SLOT_COUNT
      modifies m_slotStates, totals
      ensures Valid()
      ensures Value() == Send(old(Value()), slotID, Sendable(old(m_slotStates[slotID]), tx.connected, tx.txavail))
      ensures Drained(old(Value()), Value(), slotID, tx)
      ensures forall i :: 0 <= i < SLOT_COUNT && i != slotID ==>
                totals[i] == old(totals[i]) && m_slotStates[i] == old(m_slotStates[i])
    {
      SendBalanced(Value(), slotID, tx.connected, tx.txavail);
      var x := m_slotStates[slotID];
      if !tx.connected || x.nbuffered == 0 || tx.txavail == 0 {
        assert Value() == Send(Value(), slotID, 0);
        return;
      }
      var amount := Min(tx.txavail, x.nbuffered);
      m_slotStates[slotID] := x.(nbuffered := x.nbuffered - amount);
      totals[slotID] := totals[slotID] + amount;
    }
  }
}

/** How much of each block the decoder releases, in order and out of order. */
module Release {
  import opened Words
  import opened Header
  import opened Blocks
  import opened Reception
  import opened Contiguity
  import Decoder

  // --- symbols of one stream ---

  /** A packet that is not of stream i in block b leaves the longest prefix as it was. */
  lemma SamePrefix(cfg: Config, rs: seq<Header>, b: nat, i: nat, c: int)
    requires cfg.Valid() && rs != []
    requires Blk(cfg, rs[|rs| - 1].seqno) != b || rs[|rs| - 1].streamid != i
    requires LongestPrefix(cfg, rs[..|rs| - 1], b, i, c)
    ensures LongestPrefix(cfg, rs, b, i, c)
  {
    forall m: int
      ensures Arrived(cfg, rs, b, i, m) <==> Arrived(cfg, rs[..|rs| - 1], b, i, m)
    {
      ArrivedStep(cfg, rs, b, i, m);
    }
  }

  lemma InOrderLast(rs: seq<Header>)
    requires InOrder(rs) && rs != []
    ensures MaxSeqno(rs) == rs[|rs| - 1].seqno
    ensures |rs| > 1 ==> MaxSeqno(rs[..|rs| - 1]) < rs[|rs| - 1].seqno
  {
  }

  // --- in-order delivery ---

  /** What holds of the current block when packets arrive in order. */
  ghost predicate InOrderState(cfg: Config, log: seq<Header>, rs: seq<Header>, i: nat)
    requires cfg.Valid() && Counted(cfg, rs) && i < cfg.slots
  {
    var v := Look(cfg, rs, i);
    && v.sbid >= 0
    && (v.nrcv < cfg.k ==> Released(cfg, rs, v.sbid, i) == v.contig && LongestPrefix(cfg, rs, v.sbid, i, v.contig))
    && (v.nrcv >= cfg.k ==> Released(cfg, rs, v.sbid, i) == Symbols(cfg, log, v.sbid, i))
  }

  /** The counts of a packet of stream i that opens or continues the current block in order. */
  lemma NextSymbol(cfg: Config, log: seq<Header>, rs: seq<Header>, i: nat)
    requires cfg.Valid() && Genuine(cfg, log, rs) && Counted(cfg, rs) && i < cfg.slots
    requires InOrder(rs) && rs != []
    ensures var p, h := rs[..|rs| - 1], rs[|rs| - 1];
            var v, b := Look(cfg, p, i), Blk(cfg, h.seqno);
            && b >= v.sbid && Look(cfg, rs, i).nsymb == h.iseq[i]
            && (b == v.sbid ==> h.iseq[i] >= v.nsymb)
            && (b == v.sbid && h.streamid == i ==> h.iseq[i] > v.nsymb)
            && (b > v.sbid && h.streamid == i ==> h.iseq[i] >= 1)
  {
    var p, h := rs[..|rs| - 1], rs[|rs| - 1];
    GenuinePrefix(cfg, log, rs, |rs| - 1);
    GenuineHeader(cfg, log, h);
    InOrderLast(rs);
    if p != [] {
      Position(cfg, log, p, i);
      var top := MaxSeqno(p);
      BlkMonotone(cfg, top, h.seqno);
      if Blk(cfg, h.seqno) == Blk(cfg, top) {
        OccMonotone(log, i, Start(cfg, top), top + 1, h.seqno);
      }
    }
  }

  /** After k packets of a block, later ones in order are repair packets. */
  lemma LaterIsRepair(cfg: Config, log: seq<Header>, rs: seq<Header>, i: nat)
    requires cfg.Valid() && Genuine(cfg, log, rs) && Counted(cfg, rs) && i < cfg.slots
    requires InOrder(rs) && |rs| > 1
    requires var v := Look(cfg, rs[..|rs| - 1], i); v.nrcv >= cfg.k && v.sbid == Blk(cfg, rs[|rs| - 1].seqno)
    ensures rs[|rs| - 1].streamid == -1
  {
    var p, h := rs[..|rs| - 1], rs[|rs| - 1];
    GenuinePrefix(cfg, log, rs, |rs| - 1);
    EnoughHeard(cfg, log, p, i);
    InOrderLast(rs);
    BlkMonotone(cfg, MaxSeqno(p), h.seqno);
    GenuineHeader(cfg, log, h);
  }

  lemma {:induction false} InOrderKeeps(cfg: Config, log: seq<Header>, rs: seq<Header>, i: nat)
    requires cfg.Valid() && Genuine(cfg, log, rs) && Counted(cfg, rs) && i < cfg.slots
    requires InOrder(rs) && rs != []
    ensures InOrderState(cfg, log, rs, i)
  {
    var p, h := rs[..|rs| - 1], rs[|rs| - 1];
    var b, v, w := Blk(cfg, h.seqno), Look(cfg, p, i), Look(cfg, rs, i);
    GenuinePrefix(cfg, log, rs, |rs| - 1);
    NextSymbol(cfg, log, rs, i);
    if w.nrcv >= cfg.k {
      EnoughHeard(cfg, log, rs, i);
    }
    if p != [] {
      InOrderKeeps(cfg, log, p, i);
      Position(cfg, log, p, i);
    }
    if b > v.sbid {
      NoneAbove(cfg, p, b, i);
      PrefixOpens(cfg, p, rs, b, i, w.contig);
    } else if v.nrcv >= cfg.k {
      LaterIsRepair(cfg, log, rs, i);
    } else {
      InOrderPrefix(cfg, log, rs, i);
    }
  }

  /** The first packet of a block. */
  lemma PrefixOpens(cfg: Config, p: seq<Header>, rs: seq<Header>, b: nat, i: nat, c: int)
    requires cfg.Valid() && rs != [] && p == rs[..|rs| - 1] && i < |rs[|rs| - 1].iseq|
    requires forall m :: !Arrived(cfg, p, b, i, m)
    requires var h := rs[|rs| - 1];
             Blk(cfg, h.seqno) == b && c == (if h.streamid == i && h.iseq[i] == 1 then 1 else 0)
    ensures LongestPrefix(cfg, rs, b, i, c)
  {
    ArrivedStep(cfg, rs, b, i, 1);
    ArrivedStep(cfg, rs, b, i, 2);
  }

  /** A further packet of a block. */
  lemma InOrderPrefix(cfg: Config, log: seq<Header>, rs: seq<Header>, i: nat)
    requires cfg.Valid() && Genuine(cfg, log, rs) && Counted(cfg, rs) && i < cfg.slots
    requires InOrder(rs) && |rs| > 1
    requires var p, b := rs[..|rs| - 1], Blk(cfg, rs[|rs| - 1].seqno);
             && Look(cfg, p, i).sbid == b
             && LongestPrefix(cfg, p, b, i, Look(cfg, p, i).contig)
    ensures LongestPrefix(cfg, rs, Blk(cfg, rs[|rs| - 1].seqno), i, Look(cfg, rs, i).contig)
  {
    var p, h := rs[..|rs| - 1], rs[|rs| - 1];
    var b, v, w := Blk(cfg, h.seqno), Look(cfg, p, i), Look(cfg, rs, i);
    GenuinePrefix(cfg, log, rs, |rs| - 1);
    NextSymbol(cfg, log, rs, i);
    if h.streamid != i {
      SamePrefix(cfg, rs, b, i, v.contig);
    } else {
      forall m | 1 <= m <= w.contig ensures Arrived(cfg, rs, b, i, m) {
        ArrivedStep(cfg, rs, b, i, m);
      }
      ArrivedStep(cfg, rs, b, i, w.contig + 1);
      if Arrived(cfg, p, b, i, w.contig + 1) {
        HeardBound(cfg, log, p, i, w.contig + 1);
      }
    }
  }

  /**
   * In-order delivery, in symbols: every block with k arrivals releases exactly the symbols the
   * encoder put into it, and a block with fewer the longest prefix received.
   */
  lemma {:induction false} InOrderUnits(cfg: Config, log: seq<Header>, rs: seq<Header>, b: nat, i: nat)
    requires cfg.Valid() && Genuine(cfg, log, rs) && Counted(cfg, rs) && i < cfg.slots && InOrder(rs)
    ensures Arrivals(cfg, rs, b) >= cfg.k ==> Released(cfg, rs, b, i) == Symbols(cfg, log, b, i)
    ensures Arrivals(cfg, rs, b) < cfg.k ==> LongestPrefix(cfg, rs, b, i, Released(cfg, rs, b, i))
  {
    if rs == [] || b > Blk(cfg, MaxSeqno(rs)) {
      NoneAbove(cfg, rs, b, i);
    } else {
      Position(cfg, log, rs, i);
      if b == Blk(cfg, MaxSeqno(rs)) {
        InOrderKeeps(cfg, log, rs, i);
      } else {
        InOrderLast(rs);
        GenuinePrefix(cfg, log, rs, |rs| - 1);
        InOrderUnits(cfg, log, rs[..|rs| - 1], b, i);
        if Arrivals(cfg, rs, b) < cfg.k {
          SamePrefix(cfg, rs, b, i, Released(cfg, rs, b, i));
        }
      }
    }
  }

  // --- bytes ---

  /** Bytes released to stream i so far. */
  ghost function Total(cfg: Config, rs: seq<Header>, i: nat): nat
    requires cfg.Valid() && i < cfg.slots && Decoder.AllAcceptable(cfg, rs)
  {
    Decoder.Run(cfg, rs).released[i]
  }

  /** Bytes the decoder releases to stream i on account of block b. */
  ghost function ReleasedBytes(cfg: Config, rs: seq<Header>, b: nat, i: nat): int
    requires cfg.Valid() && i < cfg.slots && Decoder.AllAcceptable(cfg, rs)
  {
    if rs == [] then 0
    else
      var p := rs[..|rs| - 1];
      ReleasedBytes(cfg, p, b, i)
      + if Blk(cfg, rs[|rs| - 1].seqno) == b
        then Total(cfg, rs, i) - Total(cfg, p, i) else 0
  }

  lemma TotalIsUnits(cfg: Config, log: seq<Header>, rs: seq<Header>, i: nat)
    requires cfg.Valid() && Genuine(cfg, log, rs) && i < cfg.slots
    requires Decoder.AllAcceptable(cfg, rs) && Counted(cfg, rs)
    ensures Total(cfg, rs, i) == Look(cfg, rs, i).units * cfg.t
  {
    LookIsRun(cfg, rs, i);
  }

  lemma GrowthInBytes(r: int, q: int, u: int, v: int, t: int, x: int, y: int)
    requires q == r + (v - u) && x == u * t && y == v * t
    ensures r * t + (y - x) == q * t
  {
    assert (r + (v - u)) * t == r * t + (v * t - u * t);
  }

  /** The growth of a total, in bytes or in symbols. */
  lemma BytesStep(cfg: Config, log: seq<Header>, rs: seq<Header>, i: nat, r: int, q: int)
    requires cfg.Valid() && Genuine(cfg, log, rs) && i < cfg.slots && rs != []
    requires Decoder.AllAcceptable(cfg, rs) && Counted(cfg, rs)
    requires q == r + (Look(cfg, rs, i).units - Look(cfg, rs[..|rs| - 1], i).units)
    ensures r * cfg.t + (Total(cfg, rs, i) - Total(cfg, rs[..|rs| - 1], i)) == q * cfg.t
  {
    var p := rs[..|rs| - 1];
    TotalIsUnits(cfg, log, rs, i);
    TotalIsUnits(cfg, log, p, i);
    GrowthInBytes(r, q, Look(cfg, p, i).units, Look(cfg, rs, i).units, cfg.t, Total(cfg, p, i), Total(cfg, rs, i));
  }

  lemma {:induction false} BytesAreUnits(cfg: Config, log: seq<Header>, rs: seq<Header>, b: nat, i: nat)
    requires cfg.Valid() && Genuine(cfg, log, rs) && i < cfg.slots
    requires Decoder.AllAcceptable(cfg, rs) && Counted(cfg, rs)
    ensures ReleasedBytes(cfg, rs, b, i) == Released(cfg, rs, b, i) * cfg.t
  {
    if rs != [] {
      var p := rs[..|rs| - 1];
      BytesAreUnits(cfg, log, p, b, i);
      if Blk(cfg, rs[|rs| - 1].seqno) == b {
        BytesStep(cfg, log, rs, i, Released(cfg, p, b, i), Released(cfg, rs, b, i));
      }
    }
  }

  /** What a block with too few arrivals releases to stream i: its longest received prefix. */
  ghost predicate ReleasesPrefix(cfg: Config, rs: seq<Header>, b: nat, i: nat)
    requires cfg.Valid() && i < cfg.slots && Decoder.AllAcceptable(cfg, rs)
  {
    exists c :: LongestPrefix(cfg, rs, b, i, c) && ReleasedBytes(cfg, rs, b, i) == c * cfg.t
  }

  /** The released bytes of a block, stream by stream. */
  ghost function BlockBytes(cfg: Config, rs: seq<Header>, b: nat): seq<int>
    requires cfg.Valid() && Decoder.AllAcceptable(cfg, rs)
  {
    seq(cfg.slots, i requires 0 <= i < cfg.slots => ReleasedBytes(cfg, rs, b, i))
  }

  lemma InOrderBytes(cfg: Config, log: seq<Header>, rs: seq<Header>, b: nat, i: nat)
    requires cfg.Valid() && Genuine(cfg, log, rs) && InOrder(rs) && i < cfg.slots
    requires Decoder.AllAcceptable(cfg, rs)
    ensures Arrivals(cfg, rs, b) >= cfg.k ==> ReleasedBytes(cfg, rs, b, i) == Symbols(cfg, log, b, i) * cfg.t
    ensures Arrivals(cfg, rs, b) < cfg.k ==> ReleasesPrefix(cfg, rs, b, i)
  {
    GenuineIsAcceptable(cfg, log, rs);
    BytesAreUnits(cfg, log, rs, b, i);
    InOrderUnits(cfg, log, rs, b, i);
  }

  /**
   * Exactness over order-preserving delivery: in every run, each block of which k packets
   * arrive releases to each stream the bytes the encoder put into it, k * t in all; a block
   * with fewer arrivals releases the longest received prefix of each stream.
   */
  lemma InOrderExact(cfg: Config, log: seq<Header>, rs: seq<Header>, b: nat)
    requires cfg.Valid() && Genuine(cfg, log, rs) && InOrder(rs) && Decoder.AllAcceptable(cfg, rs)
    ensures Arrivals(cfg, rs, b) >= cfg.k ==>
              && (forall i :: 0 <= i < cfg.slots ==> ReleasedBytes(cfg, rs, b, i) == Symbols(cfg, log, b, i) * cfg.t)
              && Sum(BlockBytes(cfg, rs, b)) == cfg.k * cfg.t
    ensures Arrivals(cfg, rs, b) < cfg.k ==>
              forall i :: 0 <= i < cfg.slots ==> ReleasesPrefix(cfg, rs, b, i)
  {
    forall i: nat | i < cfg.slots
      ensures Arrivals(cfg, rs, b) >= cfg.k ==> ReleasedBytes(cfg, rs, b, i) == Symbols(cfg, log, b, i) * cfg.t
      ensures Arrivals(cfg, rs, b) < cfg.k ==> ReleasesPrefix(cfg, rs, b, i)
    {
      InOrderBytes(cfg, log, rs, b, i);
    }
    if Arrivals(cfg, rs, b) >= cfg.k {
      BlockIsFull(cfg, log, rs, b);
      BlockTotal(cfg, log, b, BlockBytes(cfg, rs, b));
    }
  }

  lemma BlockTotal(cfg: Config, log: seq<Header>, b: nat, bytes: seq<int>)
    requires cfg.Valid() && EncoderLog(cfg, log) && First(cfg, b) + cfg.k <= Last(cfg, log, b)
    requires |bytes| == cfg.slots
    requires forall i :: 0 <= i < cfg.slots ==> bytes[i] == Symbols(cfg, log, b, i) * cfg.t
    ensures Sum(bytes) == cfg.k * cfg.t
  {
    SymbolsSum(cfg, log, b);
    SumScaled(Counts(log, First(cfg, b), Last(cfg, log, b), cfg.slots), cfg.t, bytes);
  }

  /** A block with k arrivals was sent at least up to its k-th packet. */
  lemma BlockIsFull(cfg: Config, log: seq<Header>, rs: seq<Header>, b: nat)
    requires cfg.Valid() && Genuine(cfg, log, rs) && NoDuplicates(rs) && Arrivals(cfg, rs, b) >= cfg.k
    ensures First(cfg, b) + cfg.k <= Last(cfg, log, b)
  {
    var hi := Max(Last(cfg, log, b), First(cfg, b));
    forall j | 0 <= j < |rs| && Blk(cfg, rs[j].seqno) == b
      ensures rs[j].seqno < hi
    {
      BlkBounds(cfg, rs[j].seqno);
      assert Sent(log, rs[j]);
    }
    ArrivalsFit(cfg, rs, b, hi);
  }

  // --- any order of delivery ---

  /** The p-th received packet is the k-th of its block, so the block is decoded at that moment. */
  ghost predicate DecodesAt(cfg: Config, rs: seq<Header>, p: nat, b: nat)
    requires cfg.Valid() && Counted(cfg, rs)
  {
    && 1 <= p <= |rs|
    && Blk(cfg, rs[p - 1].seqno) == b
    && Look(cfg, rs[..p], 0).sbid == b && Look(cfg, rs[..p], 0).nrcv == cfg.k
  }

  /** Packets rs[p..q] hold a packet of stream i of block b. */
  ghost predicate LateSymbol(cfg: Config, rs: seq<Header>, p: nat, q: nat, b: nat, i: nat)
    requires cfg.Valid() && q <= |rs|
  {
    exists j :: p <= j < q && Blk(cfg, rs[j].seqno) == b && rs[j].streamid == i
  }

  /** All views move through the blocks together. */
  lemma {:induction false} SameBlock(cfg: Config, rs: seq<Header>, i: nat)
    requires cfg.Valid() && Counted(cfg, rs) && i < cfg.slots
    ensures Look(cfg, rs, i).sbid == Look(cfg, rs, 0).sbid && Look(cfg, rs, i).nrcv == Look(cfg, rs, 0).nrcv
  {
    if rs != [] { SameBlock(cfg, rs[..|rs| - 1], i); }
  }

  /** Up to the packet that decodes the block, what was released is the contiguous prefix. */
  lemma {:induction false} ReleasedBeforeDecode(cfg: Config, log: seq<Header>, rs: seq<Header>, i: nat)
    requires cfg.Valid() && Genuine(cfg, log, rs) && Counted(cfg, rs) && i < cfg.slots && rs != []
    requires Look(cfg, rs, i).nrcv < cfg.k
             || (Look(cfg, rs, i).nrcv == cfg.k && Look(cfg, rs, i).sbid == Blk(cfg, rs[|rs| - 1].seqno))
    ensures var v := Look(cfg, rs, i);
            && v.sbid >= 0
            && Released(cfg, rs, v.sbid, i) == if v.nrcv == cfg.k then v.nsymb else v.contig
  {
    var p, h := rs[..|rs| - 1], rs[|rs| - 1];
    GenuinePrefix(cfg, log, rs, |rs| - 1);
    Position(cfg, log, rs, i);
    var v := Look(cfg, p, i);
    if p != [] {
      Position(cfg, log, p, i);
      if Blk(cfg, h.seqno) <= v.sbid {
        ReleasedBeforeDecode(cfg, log, p, i);
      }
    }
    if Blk(cfg, h.seqno) > v.sbid {
      NoneAbove(cfg, p, Blk(cfg, h.seqno), i);
    }
  }

  /**
   * Reordering: from the moment block b is decoded and while it stays current, stream i has got
   * its true number of symbols, and one more exactly if at that moment the contiguous prefix
   * lacked one symbol and a source packet of the stream came later.
   */
  lemma {:induction false} ReorderedUnits(cfg: Config, log: seq<Header>, rs: seq<Header>, p: nat, q: nat,
                                          b: nat, i: nat)
    requires cfg.Valid() && Genuine(cfg, log, rs) && Counted(cfg, rs) && NoDuplicates(rs) && i < cfg.slots
    requires p <= q <= |rs| && DecodesAt(cfg, rs, p, b) && Look(cfg, rs[..q], i).sbid == b
    ensures var contig, total := Look(cfg, rs[..p], i).contig, Symbols(cfg, log, b, i);
            var extra := if contig + 1 == total && LateSymbol(cfg, rs, p, q, b, i) then 1 else 0;
            && Released(cfg, rs[..q], b, i) == total + extra
            && Look(cfg, rs[..q], i).contig == contig + extra
            && Look(cfg, rs[..q], i).nrcv >= cfg.k
    decreases q
  {
    if p == q {
      AtDecode(cfg, log, rs, p, b, i);
    } else {
      SameBlock(cfg, rs[..p], i);
      StaysInBlock(cfg, log, rs, p, q, b, i);
      ReorderedUnits(cfg, log, rs, p, q - 1, b, i);
      NextAfterDecode(cfg, log, rs, q, b, i);
      LateStep(cfg, rs, p, q, b, i);
    }
  }

  lemma AtDecode(cfg: Config, log: seq<Header>, rs: seq<Header>, p: nat, b: nat, i: nat)
    requires cfg.Valid() && Genuine(cfg, log, rs) && Counted(cfg, rs) && NoDuplicates(rs) && i < cfg.slots
    requires p <= |rs| && DecodesAt(cfg, rs, p, b)
    ensures Released(cfg, rs[..p], b, i) == Symbols(cfg, log, b, i)
    ensures Look(cfg, rs[..p], i).nrcv == cfg.k
  {
    SameBlock(cfg, rs[..p], i);
    GenuinePrefix(cfg, log, rs, p);
    EnoughHeard(cfg, log, rs[..p], i);
    ReleasedBeforeDecode(cfg, log, rs[..p], i);
  }

  lemma LateStep(cfg: Config, rs: seq<Header>, p: nat, q: nat, b: nat, i: nat)
    requires cfg.Valid() && p < q <= |rs|
    ensures LateSymbol(cfg, rs, p, q, b, i)
       <==> LateSymbol(cfg, rs, p, q - 1, b, i) || (Blk(cfg, rs[q - 1].seqno) == b && rs[q - 1].streamid == i)
  {
  }

  /** One more packet while a decoded block is current. */
  lemma AfterDecode(cfg: Config, log: seq<Header>, rs: seq<Header>, i: nat, b: nat)
    requires cfg.Valid() && Genuine(cfg, log, rs) && Counted(cfg, rs) && NoDuplicates(rs) && i < cfg.slots
    requires rs != [] && Look(cfg, rs, i).sbid == b == Look(cfg, rs[..|rs| - 1], i).sbid
    requires Look(cfg, rs[..|rs| - 1], i).nrcv >= cfg.k
    ensures var p, h, v, w := rs[..|rs| - 1], rs[|rs| - 1], Look(cfg, rs[..|rs| - 1], i), Look(cfg, rs, i);
            var gap := v.contig + 1 == Symbols(cfg, log, b, i);
            var more := if Blk(cfg, h.seqno) == b && h.streamid == i && gap then 1 else 0;
            && Released(cfg, rs, b, i) == Released(cfg, p, b, i) + more
            && w.contig == v.contig + more && w.nrcv >= cfg.k
  {
    EnoughHeard(cfg, log, rs, i);
  }

  lemma NextAfterDecode(cfg: Config, log: seq<Header>, rs: seq<Header>, q: nat, b: nat, i: nat)
    requires cfg.Valid() && Genuine(cfg, log, rs) && Counted(cfg, rs) && NoDuplicates(rs) && i < cfg.slots
    requires 1 <= q <= |rs| && Look(cfg, rs[..q], i).sbid == b == Look(cfg, rs[..q - 1], i).sbid
    requires Look(cfg, rs[..q - 1], i).nrcv >= cfg.k
    ensures var h, v, w := rs[q - 1], Look(cfg, rs[..q - 1], i), Look(cfg, rs[..q], i);
            var gap := v.contig + 1 == Symbols(cfg, log, b, i);
            var more := if Blk(cfg, h.seqno) == b && h.streamid == i && gap then 1 else 0;
            && Released(cfg, rs[..q], b, i) == Released(cfg, rs[..q - 1], b, i) + more
            && w.contig == v.contig + more && w.nrcv >= cfg.k
  {
    assert rs[..q][..q - 1] == rs[..q - 1];
    GenuinePrefix(cfg, log, rs, q);
    AfterDecode(cfg, log, rs[..q], i, b);
  }

  /** The current block only ever moves forward. */
  lemma StaysInBlock(cfg: Config, log: seq<Header>, rs: seq<Header>, p: nat, q: nat, b: nat, i: nat)
    requires cfg.Valid() && Genuine(cfg, log, rs) && Counted(cfg, rs) && i < cfg.slots
    requires 1 <= p < q <= |rs| && Look(cfg, rs[..p], i).sbid == b == Look(cfg, rs[..q], i).sbid
    ensures Look(cfg, rs[..q - 1], i).sbid == b
  {
    GenuinePrefix(cfg, log, rs, p);
    GenuinePrefix(cfg, log, rs, q);
    GenuinePrefix(cfg, log, rs, q - 1);
    Forward(cfg, rs, p, q - 1, i);
    Forward(cfg, rs, q - 1, q, i);
  }

  lemma {:induction false} Forward(cfg: Config, rs: seq<Header>, p: nat, q: nat, i: nat)
    requires cfg.Valid() && Counted(cfg, rs) && i < cfg.slots && p <= q <= |rs|
    ensures Look(cfg, rs[..p], i).sbid <= Look(cfg, rs[..q], i).sbid
    decreases q
  {
    if p < q {
      Forward(cfg, rs, p, q - 1, i);
      assert rs[..q][..q - 1] == rs[..q - 1];
    }
  }

  /** Once the decoder is past a block, late packets of it release nothing. */
  lemma {:induction false} ReleasedSettled(cfg: Config, rs: seq<Header>, q: nat, b: nat, i: nat)
    requires cfg.Valid() && Counted(cfg, rs) && i < cfg.slots && q <= |rs|
    requires q == |rs| || Look(cfg, rs[..q + 1], i).sbid > b
    ensures Released(cfg, rs, b, i) == Released(cfg, rs[..q], b, i)
    decreases |rs|
  {
    if q < |rs| {
      var p := rs[..|rs| - 1];
      Forward(cfg, rs, q + 1, |rs|, i);
      assert rs[..|rs|] == rs;
      assert p[..q] == rs[..q];
      if q + 1 < |rs| {
        assert p[..q + 1] == rs[..q + 1];
        Forward(cfg, rs, q + 1, |p|, i);
        ReleasedSettled(cfg, p, q, b, i);
      } else {
        assert rs[..q + 1] == rs;
      }
    } else {
      assert rs[..q] == rs;
    }
  }

  /**
   * Up to the decoding of the block every symbol of stream i but the last arrives on time, and
   * the last one comes after it, before the decoder moves on.
   */
  ghost predicate LastIsLate(cfg: Config, rs: seq<Header>, p: nat, q: nat, b: nat, i: nat, total: int)
    requires cfg.Valid() && Counted(cfg, rs) && i < cfg.slots && p <= q <= |rs|
  {
    && (forall m :: 1 <= m < total ==> OnTime(cfg, rs[..p], b, i, m))
    && exists j :: p <= j < q && IsSymbol(cfg, rs[j], b, i, total)
  }

  lemma LateSymbolIsLast(cfg: Config, log: seq<Header>, rs: seq<Header>, p: nat, q: nat, b: nat, i: nat)
    requires cfg.Valid() && Genuine(cfg, log, rs) && Counted(cfg, rs) && NoDuplicates(rs) && i < cfg.slots
    requires p <= q <= |rs| && DecodesAt(cfg, rs, p, b)
    ensures Look(cfg, rs[..p], i).contig + 1 == Symbols(cfg, log, b, i) && LateSymbol(cfg, rs, p, q, b, i)
       <==> LastIsLate(cfg, rs, p, q, b, i, Symbols(cfg, log, b, i))
  {
    var a, total := rs[..p], Symbols(cfg, log, b, i);
    var c := Look(cfg, a, i).contig;
    GenuinePrefix(cfg, log, rs, p);
    SameBlock(cfg, a, i);
    EnoughHeard(cfg, log, a, i);
    ContigIsOnTime(cfg, log, a, i);
    forall j | p <= j < q && Blk(cfg, rs[j].seqno) == b && rs[j].streamid == i
      ensures IsSymbol(cfg, rs[j], b, i, rs[j].iseq[i]) && rs[j].iseq[i] > c && 1 <= rs[j].iseq[i] <= total
    {
      LateIsNew(cfg, log, rs, p, j, b, i);
    }
  }

  /** A packet that comes after the decoding carries a symbol beyond the contiguous ones. */
  lemma LateIsNew(cfg: Config, log: seq<Header>, rs: seq<Header>, p: nat, j: nat, b: nat, i: nat)
    requires cfg.Valid() && Genuine(cfg, log, rs) && Counted(cfg, rs) && NoDuplicates(rs) && i < cfg.slots
    requires p <= j < |rs| && DecodesAt(cfg, rs, p, b) && Blk(cfg, rs[j].seqno) == b && rs[j].streamid == i
    ensures var m := rs[j].iseq[i];
            IsSymbol(cfg, rs[j], b, i, m) && m > Look(cfg, rs[..p], i).contig && 1 <= m <= Symbols(cfg, log, b, i)
  {
    var a, h := rs[..p], rs[j];
    var m := h.iseq[i];
    GenuinePrefix(cfg, log, rs, p);
    SameBlock(cfg, a, i);
    GenuineHeader(cfg, log, h);
    SymbolInBlock(cfg, log, h, i);
    if m <= Look(cfg, a, i).contig {
      ContigIsOnTime(cfg, log, a, i);
      assert OnTime(cfg, a, b, i, m);
      var l :| 0 <= l < |a| && IsSymbol(cfg, a[l], b, i, m);
      OnlyRepeat(cfg, log, a, h, i);
      assert false;
    }
  }

  /** Every symbol is one of its block's. */
  lemma SymbolInBlock(cfg: Config, log: seq<Header>, h: Header, i: nat)
    requires cfg.Valid() && |log| <= TWO_31 && EncoderLog(cfg, log) && Sent(log, h) && i < cfg.slots
    requires |h.iseq| == cfg.slots && h.streamid == i
    ensures 1 <= h.iseq[i] <= Symbols(cfg, log, Blk(cfg, h.seqno), i)
  {
    var last := Last(cfg, log, Blk(cfg, h.seqno));
    GenuineHeader(cfg, log, h);
    BlkBounds(cfg, h.seqno);
    OccMonotone(log, i, Start(cfg, h.seqno), h.seqno + 1, last);
  }

  /** The same for the whole run, by the order of the packets. */
  lemma ReorderedReleases(cfg: Config, log: seq<Header>, rs: seq<Header>, p: nat, q: nat, b: nat, i: nat)
    requires cfg.Valid() && Genuine(cfg, log, rs) && Counted(cfg, rs) && NoDuplicates(rs) && i < cfg.slots
    requires p <= q <= |rs| && DecodesAt(cfg, rs, p, b)
    requires Look(cfg, rs[..q], i).sbid == b && (q == |rs| || Look(cfg, rs[..q + 1], i).sbid > b)
    ensures var total := Symbols(cfg, log, b, i);
            Released(cfg, rs, b, i) == if LastIsLate(cfg, rs, p, q, b, i, total) then total + 1 else total
  {
    LateSymbolIsLast(cfg, log, rs, p, q, b, i);
    ReorderedUnits(cfg, log, rs, p, q, b, i);
    ReleasedSettled(cfg, rs, q, b, i);
  }

  /** The view of a stream when the decoder leaves block b, or the run ends. */
  lemma LeftAt(cfg: Config, log: seq<Header>, rs: seq<Header>, q: nat, b: nat, i: nat)
    requires cfg.Valid() && Genuine(cfg, log, rs) && Counted(cfg, rs) && i < cfg.slots
    requires 1 <= q <= |rs| && Blk(cfg, MaxSeqno(rs[..q])) == b && (q == |rs| || Blk(cfg, rs[q].seqno) > b)
    ensures Look(cfg, rs[..q], i).sbid == b && Look(cfg, rs[..q], i).nrcv == Arrivals(cfg, rs[..q], b)
    ensures q == |rs| || Look(cfg, rs[..q + 1], i).sbid > b
  {
    GenuinePrefix(cfg, log, rs, q);
    Position(cfg, log, rs[..q], i);
    if q < |rs| {
      assert rs[..q + 1][..q] == rs[..q];
    }
  }

  /**
   * With packet p block b is the latest one heard of and has its k-th arrival; packet q is the
   * last one before a later block is heard of.
   */
  ghost predicate Decodes(cfg: Config, rs: seq<Header>, p: nat, q: nat, b: nat)
    requires cfg.Valid()
  {
    && 1 <= p <= q <= |rs| && Blk(cfg, rs[p - 1].seqno) == b
    && Blk(cfg, MaxSeqno(rs[..p])) == b && Arrivals(cfg, rs[..p], b) == cfg.k
    && Blk(cfg, MaxSeqno(rs[..q])) == b
    && (q == |rs| || Blk(cfg, rs[q].seqno) > b)
  }

  lemma DecodesView(cfg: Config, log: seq<Header>, rs: seq<Header>, p: nat, q: nat, b: nat, i: nat)
    requires cfg.Valid() && Genuine(cfg, log, rs) && Counted(cfg, rs) && i < cfg.slots
    requires Decodes(cfg, rs, p, q, b)
    ensures DecodesAt(cfg, rs, p, b)
    ensures Look(cfg, rs[..q], i).sbid == b && (q == |rs| || Look(cfg, rs[..q + 1], i).sbid > b)
  {
    GenuinePrefix(cfg, log, rs, p);
    Position(cfg, log, rs[..p], 0);
    LeftAt(cfg, log, rs, q, b, i);
  }

  /**
   * Packet q is the last one before a block after b is heard of; up to there b is the latest
   * block, with fewer than k arrivals.
   */
  ghost predicate NeverDecoded(cfg: Config, rs: seq<Header>, q: nat, b: nat)
    requires cfg.Valid()
  {
    && 1 <= q <= |rs|
    && Blk(cfg, MaxSeqno(rs[..q])) == b && Arrivals(cfg, rs[..q], b) < cfg.k
    && (q == |rs| || Blk(cfg, rs[q].seqno) > b)
  }

  /**
   * A block that is never decoded, under any loss and reordering without duplicates, for the
   * whole run: it releases to each stream exactly the symbols up to the first that is not on time.
   */
  lemma ReorderedUndecoded(cfg: Config, log: seq<Header>, rs: seq<Header>, q: nat, b: nat, i: nat)
    requires cfg.Valid() && Genuine(cfg, log, rs) && NoDuplicates(rs) && i < cfg.slots
    requires Decoder.AllAcceptable(cfg, rs) && Counted(cfg, rs) && NeverDecoded(cfg, rs, q, b)
    ensures exists c: nat :: OnTimeUpTo(cfg, rs[..q], b, i, c) && ReleasedBytes(cfg, rs, b, i) == c * cfg.t
  {
    var a := rs[..q];
    var c := Look(cfg, a, i).contig;
    GenuinePrefix(cfg, log, rs, q);
    LeftAt(cfg, log, rs, q, b, i);
    ReleasedBeforeDecode(cfg, log, a, i);
    ContigIsOnTime(cfg, log, a, i);
    ReleasedSettled(cfg, rs, q, b, i);
    BytesAreUnits(cfg, log, rs, b, i);
  }

  /**
   * The bytes of a decoded block under any loss and reordering without duplicates, for the whole
   * run. Each stream gets its true bytes, and one symbol too many exactly if all its symbols but
   * the last arrived on time and the last one comes after the decoding.
   */
  lemma ReorderedExactIff(cfg: Config, log: seq<Header>, rs: seq<Header>, p: nat, q: nat, b: nat, i: nat)
    requires cfg.Valid() && Genuine(cfg, log, rs) && NoDuplicates(rs) && i < cfg.slots
    requires Decoder.AllAcceptable(cfg, rs) && Counted(cfg, rs) && Decodes(cfg, rs, p, q, b)
    ensures var total := Symbols(cfg, log, b, i);
            var over := LastIsLate(cfg, rs, p, q, b, i, total);
            ReleasedBytes(cfg, rs, b, i) == (if over then total + 1 else total) * cfg.t
  {
    DecodesView(cfg, log, rs, p, q, b, i);
    ReorderedReleases(cfg, log, rs, p, q, b, i);
    BytesAreUnits(cfg, log, rs, b, i);
  }

  lemma TracesDecode(cfg: Config, s: Decoder.State, h: Header)
    requires Decoder.Shaped(cfg, s) && Decoder.Acceptable(cfg, h) && Decoder.BlockOf(cfg, h) >= s.sbid
    requires Decoder.Step(cfg, s, h).nrcv == cfg.k
    ensures var r := Decoder.Step(cfg, s, h);
            r.infos != [] && r.infos[|r.infos| - 1] == Decoder.Info(cfg, r)
  {
  }

  /**
   * What is traced with the k-th packet of a block, under any loss and reordering without
   * duplicates: for each stream the encoder's true count, and the number of symbols up to the
   * first that did not arrive on time.
   */
  lemma TracedAtDecode(cfg: Config, log: seq<Header>, rs: seq<Header>, i: nat)
    requires cfg.Valid() && Genuine(cfg, log, rs) && NoDuplicates(rs) && i < cfg.slots
    requires Decoder.AllAcceptable(cfg, rs) && Counted(cfg, rs) && rs != []
    requires var s := Decoder.Run(cfg, rs); s.nrcv == cfg.k && s.sbid == Blk(cfg, rs[|rs| - 1].seqno)
    ensures var s := Decoder.Run(cfg, rs);
            && s.infos != []
            && var info := s.infos[|s.infos| - 1];
               && info.sbid == s.sbid && info.success && info.n_rcv == cfg.k && |info.slotinfo| == cfg.slots
               && info.slotinfo[i].n_src_rcv == Symbols(cfg, log, s.sbid, i)
               && OnTimeUpTo(cfg, rs, s.sbid, i, info.slotinfo[i].n_contig_src_rcv)
  {
    var p, h := rs[..|rs| - 1], rs[|rs| - 1];
    LookIsRun(cfg, rs, i);
    EnoughHeard(cfg, log, rs, i);
    ContigIsOnTime(cfg, log, rs, i);
    GenuineHeader(cfg, log, h);
    NoLaterBlock(cfg, Decoder.Run(cfg, p), h);
    TracesDecode(cfg, Decoder.Run(cfg, p), h);
  }

  /** The current block does not move back. */
  lemma NoLaterBlock(cfg: Config, s: Decoder.State, h: Header)
    requires Decoder.Shaped(cfg, s) && Decoder.Acceptable(cfg, h)
    requires Decoder.Step(cfg, s, h).sbid == Decoder.BlockOf(cfg, h)
    ensures Decoder.BlockOf(cfg, h) >= s.sbid
  {
  }

  // --- any order of delivery, with duplicates ---

  /** What holds of the current block whatever is repeated: at most one symbol beyond those in order or those known. */
  ghost predicate AlmostExact(cfg: Config, log: seq<Header>, rs: seq<Header>, i: nat)
    requires cfg.Valid() && Counted(cfg, rs) && i < cfg.slots
  {
    var v := Look(cfg, rs, i);
    && v.sbid >= 0
    && v.nsymb <= Symbols(cfg, log, v.sbid, i)
    && var r := Released(cfg, rs, v.sbid, i);
       || r <= v.contig + (if v.nrcv < cfg.k then 0 else 1)
       || (v.nrcv >= cfg.k && v.contig + 2 <= v.nsymb && r <= v.nsymb)
  }

  /** The known count is at most the block's. */
  lemma KnownWithinBlock(cfg: Config, log: seq<Header>, rs: seq<Header>, i: nat)
    requires cfg.Valid() && Genuine(cfg, log, rs) && Counted(cfg, rs) && i < cfg.slots && rs != []
    ensures var v := Look(cfg, rs, i); v.sbid >= 0 && v.nsymb <= Symbols(cfg, log, v.sbid, i)
  {
    var m := MaxSeqno(rs);
    Position(cfg, log, rs, i);
    BlkBounds(cfg, m);
    OccMonotone(log, i, Start(cfg, m), m + 1, Last(cfg, log, Blk(cfg, m)));
  }

  lemma {:induction false} AlmostExactKept(cfg: Config, log: seq<Header>, rs: seq<Header>, i: nat)
    requires cfg.Valid() && Genuine(cfg, log, rs) && Counted(cfg, rs) && i < cfg.slots && rs != []
    ensures AlmostExact(cfg, log, rs, i)
  {
    var p, h := rs[..|rs| - 1], rs[|rs| - 1];
    var b, v := Blk(cfg, h.seqno), Look(cfg, p, i);
    GenuinePrefix(cfg, log, rs, |rs| - 1);
    KnownWithinBlock(cfg, log, rs, i);
    if p != [] {
      AlmostExactKept(cfg, log, p, i);
      Position(cfg, log, p, i);
    }
    if b > v.sbid {
      NoneAbove(cfg, p, b, i);
    }
  }

  lemma {:induction false} OneTooManyUnits(cfg: Config, log: seq<Header>, rs: seq<Header>, b: nat, i: nat)
    requires cfg.Valid() && Genuine(cfg, log, rs) && Counted(cfg, rs) && i < cfg.slots
    ensures Released(cfg, rs, b, i) <= Symbols(cfg, log, b, i) + 1
  {
    if rs == [] || b > Blk(cfg, MaxSeqno(rs)) {
      NoneAbove(cfg, rs, b, i);
    } else {
      Position(cfg, log, rs, i);
      if b == Blk(cfg, MaxSeqno(rs)) {
        AlmostExactKept(cfg, log, rs, i);
      } else {
        GenuinePrefix(cfg, log, rs, |rs| - 1);
        OneTooManyUnits(cfg, log, rs[..|rs| - 1], b, i);
      }
    }
  }

  /**
   * Under any loss, reordering and duplication a block never releases more than one symbol too
   * many to a stream.
   */
  lemma OneTooManyAtMost(cfg: Config, log: seq<Header>, rs: seq<Header>, b: nat, i: nat)
    requires cfg.Valid() && Genuine(cfg, log, rs) && Decoder.AllAcceptable(cfg, rs) && i < cfg.slots
    ensures ReleasedBytes(cfg, rs, b, i) <= (Symbols(cfg, log, b, i) + 1) * cfg.t
  {
    GenuineIsAcceptable(cfg, log, rs);
    OneTooManyUnits(cfg, log, rs, b, i);
    BytesAreUnits(cfg, log, rs, b, i);
    AtMostProduct(Released(cfg, rs, b, i), Symbols(cfg, log, b, i) + 1, cfg.t);
  }

  lemma AtMostProduct(r: int, s: int, t: int)
    requires r <= s && t >= 0
    ensures r * t <= s * t
  {
    MulNonNegative(s - r, t);
    assert (s - r) * t == s * t - r * t;
  }
}

/** What the decoder's contiguity counter means: the check that releases a packet at once. */
module Contiguity {
  import opened Words
  import opened Header
  import opened Blocks
  import opened Reception
  import Decoder

  lemma ArrivedStep(cfg: Config, rs: seq<Header>, b: nat, i: nat, m: int)
    requires cfg.Valid() && rs != []
    ensures Arrived(cfg, rs, b, i, m)
       <==> Arrived(cfg, rs[..|rs| - 1], b, i, m) || IsSymbol(cfg, rs[|rs| - 1], b, i, m)
  {
  }

  lemma GenuinePrefix(cfg: Config, log: seq<Header>, rs: seq<Header>, m: nat)
    requires cfg.Valid() && Genuine(cfg, log, rs) && m <= |rs|
    ensures Genuine(cfg, log, rs[..m]) && Counted(cfg, rs[..m])
    ensures InOrder(rs) ==> InOrder(rs[..m])
    ensures NoDuplicates(rs) ==> NoDuplicates(rs[..m])
  {
    GenuineIsAcceptable(cfg, log, rs[..m]);
  }

  // --- without duplicates: the symbols arrived in order ---

  /** Two different packets of a stream in one block carry different symbols. */
  lemma SymbolIsUnique(cfg: Config, log: seq<Header>, g: Header, h: Header, i: nat)
    requires cfg.Valid() && |log| <= TWO_31 && EncoderLog(cfg, log) && Sent(log, g) && Sent(log, h)
    requires i < cfg.slots && Blk(cfg, g.seqno) == Blk(cfg, h.seqno) && g.streamid == h.streamid == i
    ensures |g.iseq| == |h.iseq| == cfg.slots
    ensures g.seqno < h.seqno ==> g.iseq[i] < h.iseq[i]
  {
    GenuineHeader(cfg, log, g);
    GenuineHeader(cfg, log, h);
    if g.seqno < h.seqno {
      BlkMonotone(cfg, g.seqno, h.seqno);
      OccMonotone(log, i, Start(cfg, g.seqno), g.seqno + 1, h.seqno);
    }
  }

  /** Symbols 1..c of the stream have arrived, in that order. */
  ghost predicate ArrivedInOrder(cfg: Config, rs: seq<Header>, b: nat, i: nat, c: int)
    requires cfg.Valid()
  {
    && (forall m :: 1 <= m <= c ==> Arrived(cfg, rs, b, i, m))
    && forall j1, j2, m1, m2 ::
         (0 <= j1 < j2 < |rs| && 1 <= m1 <= c && 1 <= m2 <= c
          && IsSymbol(cfg, rs[j1], b, i, m1) && IsSymbol(cfg, rs[j2], b, i, m2)) ==> m1 < m2
  }

  /** Without duplicates no symbol arrives twice. */
  lemma SymbolTwice(cfg: Config, log: seq<Header>, rs: seq<Header>, b: nat, i: nat, m: int)
    requires cfg.Valid() && Genuine(cfg, log, rs) && NoDuplicates(rs) && i < cfg.slots && rs != []
    requires Arrived(cfg, rs[..|rs| - 1], b, i, m)
    ensures !IsSymbol(cfg, rs[|rs| - 1], b, i, m)
  {
    var p, h := rs[..|rs| - 1], rs[|rs| - 1];
    var j :| 0 <= j < |p| && IsSymbol(cfg, p[j], b, i, m);
    assert Sent(log, rs[j]) && Sent(log, h) && rs[j].seqno != h.seqno;
    if IsSymbol(cfg, h, b, i, m) {
      SymbolIsUnique(cfg, log, rs[j], h, i);
      SymbolIsUnique(cfg, log, h, rs[j], i);
    }
  }

  /** What arrives of a stream is beyond the symbols already in order. */
  lemma ContiguousIsNext(cfg: Config, log: seq<Header>, rs: seq<Header>, b: nat, i: nat, c: int, m: int)
    requires cfg.Valid() && Genuine(cfg, log, rs) && NoDuplicates(rs) && i < cfg.slots && rs != []
    requires ArrivedInOrder(cfg, rs[..|rs| - 1], b, i, c) && IsSymbol(cfg, rs[|rs| - 1], b, i, m)
    ensures m < 1 || m > c
  {
    if 1 <= m <= c {
      SymbolTwice(cfg, log, rs, b, i, m);
    }
  }

  /** A packet that brings no symbol up to c. */
  lemma SameOrder(cfg: Config, rs: seq<Header>, h: Header, b: nat, i: nat, c: int)
    requires cfg.Valid() && rs != [] && ArrivedInOrder(cfg, rs[..|rs| - 1], b, i, c)
    requires h == rs[|rs| - 1] && forall m :: 1 <= m <= c ==> !IsSymbol(cfg, h, b, i, m)
    ensures ArrivedInOrder(cfg, rs, b, i, c)
  {
    var p := rs[..|rs| - 1];
    forall m | 1 <= m <= c ensures Arrived(cfg, rs, b, i, m) {
      ArrivedStep(cfg, rs, b, i, m);
    }
    assert forall j :: 0 <= j < |p| ==> rs[j] == p[j];
  }

  /** A packet that brings symbol c + 1. */
  lemma LongerOrder(cfg: Config, rs: seq<Header>, b: nat, i: nat, c: nat)
    requires cfg.Valid() && rs != [] && ArrivedInOrder(cfg, rs[..|rs| - 1], b, i, c)
    requires IsSymbol(cfg, rs[|rs| - 1], b, i, c + 1)
    requires !Arrived(cfg, rs[..|rs| - 1], b, i, c + 1)
    ensures ArrivedInOrder(cfg, rs, b, i, c + 1)
  {
    var p := rs[..|rs| - 1];
    forall m | 1 <= m <= c + 1 ensures Arrived(cfg, rs, b, i, m) {
      ArrivedStep(cfg, rs, b, i, m);
    }
    forall j1, j2, m1, m2 | 0 <= j1 < j2 < |rs| && 1 <= m1 <= c + 1 && 1 <= m2 <= c + 1
        && IsSymbol(cfg, rs[j1], b, i, m1) && IsSymbol(cfg, rs[j2], b, i, m2)
      ensures m1 < m2
    {
      assert rs[j1] == p[j1];
      if j2 < |p| {
        assert rs[j2] == p[j2];
      }
    }
  }

  /**
   * Under any loss and reordering without duplicates, a contiguity counter of c means that
   * symbols 1..c of that stream and block arrived in that order.
   */
  lemma {:induction false} ContigMeansInOrder(cfg: Config, log: seq<Header>, rs: seq<Header>, i: nat)
    requires cfg.Valid() && Genuine(cfg, log, rs) && Counted(cfg, rs) && NoDuplicates(rs)
    requires i < cfg.slots && rs != []
    ensures var v := Look(cfg, rs, i); v.sbid >= 0 && ArrivedInOrder(cfg, rs, v.sbid, i, v.contig)
  {
    var p, h := rs[..|rs| - 1], rs[|rs| - 1];
    var b, v, w := Blk(cfg, h.seqno), Look(cfg, p, i), Look(cfg, rs, i);
    GenuinePrefix(cfg, log, rs, |rs| - 1);
    GenuineHeader(cfg, log, h);
    if p != [] {
      Position(cfg, log, p, i);
      ContigMeansInOrder(cfg, log, p, i);
    }
    if b < v.sbid {
      SameOrder(cfg, rs, h, w.sbid, i, w.contig);
    } else {
      if b > v.sbid {
        NoneAbove(cfg, p, b, i);
      }
      ContigStep(cfg, log, rs, b, i, if b > v.sbid then 0 else v.contig, w.contig);
    }
  }

  /** A packet of the current block. */
  lemma ContigStep(cfg: Config, log: seq<Header>, rs: seq<Header>, b: nat, i: nat, c: int, d: int)
    requires cfg.Valid() && Genuine(cfg, log, rs) && NoDuplicates(rs) && i < cfg.slots && rs != []
    requires c >= 0 && ArrivedInOrder(cfg, rs[..|rs| - 1], b, i, c)
    requires var h := rs[|rs| - 1];
             && Blk(cfg, h.seqno) == b && |h.iseq| == cfg.slots
             && (d == c || (d == c + 1 && h.streamid == i && h.iseq[i] <= d))
    ensures ArrivedInOrder(cfg, rs, b, i, d)
  {
    var p, h := rs[..|rs| - 1], rs[|rs| - 1];
    GenuineHeader(cfg, log, h);
    if h.streamid == i {
      ContiguousIsNext(cfg, log, rs, b, i, c, h.iseq[i]);
    }
    if d == c {
      SameOrder(cfg, rs, h, b, i, c);
    } else {
      if Arrived(cfg, p, b, i, d) {
        SymbolTwice(cfg, log, rs, b, i, d);
      }
      LongerOrder(cfg, rs, b, i, c);
    }
  }

  // --- without duplicates: the counter from the arrivals alone ---

  /** No packet of block b announces more than m symbols of stream i. */
  ghost predicate NoneBeyond(cfg: Config, rs: seq<Header>, b: nat, i: nat, m: int)
    requires cfg.Valid() && Counted(cfg, rs) && i < cfg.slots
  {
    forall j :: 0 <= j < |rs| && Blk(cfg, rs[j].seqno) == b ==> rs[j].iseq[i] <= m
  }

  /** Symbol m arrives before any packet that announces a later one. */
  ghost predicate OnTime(cfg: Config, rs: seq<Header>, b: nat, i: nat, m: int)
    requires cfg.Valid() && Counted(cfg, rs) && i < cfg.slots
  {
    exists j :: 0 <= j < |rs| && IsSymbol(cfg, rs[j], b, i, m) && NoneBeyond(cfg, rs[..j], b, i, m)
  }

  /** Symbols 1..c arrive on time, symbol c + 1 does not. */
  ghost predicate OnTimeUpTo(cfg: Config, rs: seq<Header>, b: nat, i: nat, c: int)
    requires cfg.Valid() && Counted(cfg, rs) && i < cfg.slots
  {
    (forall m :: 1 <= m <= c ==> OnTime(cfg, rs, b, i, m)) && !OnTime(cfg, rs, b, i, c + 1)
  }

  lemma OnTimeStep(cfg: Config, rs: seq<Header>, b: nat, i: nat, m: int)
    requires cfg.Valid() && Counted(cfg, rs) && i < cfg.slots && rs != []
    ensures OnTime(cfg, rs, b, i, m)
       <==> OnTime(cfg, rs[..|rs| - 1], b, i, m)
            || (IsSymbol(cfg, rs[|rs| - 1], b, i, m) && NoneBeyond(cfg, rs[..|rs| - 1], b, i, m))
  {
    var p := rs[..|rs| - 1];
    assert rs[..|p|] == p;
    assert forall j :: 0 <= j < |p| ==> rs[..j] == p[..j] && rs[j] == p[j];
  }

  /** The count known of a stream is the largest announced in the current block. */
  lemma KnownCount(cfg: Config, log: seq<Header>, rs: seq<Header>, i: nat, m: int)
    requires cfg.Valid() && Genuine(cfg, log, rs) && Counted(cfg, rs) && i < cfg.slots && rs != []
    ensures var v := Look(cfg, rs, i);
            v.sbid >= 0 && (v.nsymb <= m <==> NoneBeyond(cfg, rs, v.sbid, i, m))
  {
    var top, v := MaxSeqno(rs), Look(cfg, rs, i);
    Position(cfg, log, rs, i);
    MaxSeqnoAttained(rs);
    forall j | 0 <= j < |rs| && Blk(cfg, rs[j].seqno) == v.sbid
      ensures rs[j].iseq[i] <= v.nsymb && (rs[j].seqno == top ==> rs[j].iseq[i] == v.nsymb)
    {
      GenuineHeader(cfg, log, rs[j]);
      BlkMonotone(cfg, rs[j].seqno, top);
      OccMonotone(log, i, Start(cfg, top), rs[j].seqno + 1, top + 1);
    }
  }

  /** In a block that has just begun, every packet so far was of an earlier one. */
  lemma NoneBefore(cfg: Config, log: seq<Header>, rs: seq<Header>, b: nat, i: nat, m: int)
    requires cfg.Valid() && Genuine(cfg, log, rs) && Counted(cfg, rs) && i < cfg.slots && b > Look(cfg, rs, i).sbid
    ensures !Arrived(cfg, rs, b, i, m) && !OnTime(cfg, rs, b, i, m) && NoneBeyond(cfg, rs, b, i, m)
  {
    if rs != [] {
      Position(cfg, log, rs, i);
      MaxSeqnoAttained(rs);
      forall j | 0 <= j < |rs| ensures Blk(cfg, rs[j].seqno) < b {
        BlkMonotone(cfg, rs[j].seqno, MaxSeqno(rs));
      }
    }
  }

  /**
   * Under any loss and reordering without duplicates, the contiguity counter is the number of
   * symbols up to the first that did not arrive on time: it is determined by the order of the
   * arrivals.
   */
  lemma {:induction false} ContigIsOnTime(cfg: Config, log: seq<Header>, rs: seq<Header>, i: nat)
    requires cfg.Valid() && Genuine(cfg, log, rs) && Counted(cfg, rs) && NoDuplicates(rs)
    requires i < cfg.slots && rs != []
    ensures var v := Look(cfg, rs, i); v.sbid >= 0 && OnTimeUpTo(cfg, rs, v.sbid, i, v.contig)
  {
    var p, h := rs[..|rs| - 1], rs[|rs| - 1];
    var b, v, w := Blk(cfg, h.seqno), Look(cfg, p, i), Look(cfg, rs, i);
    GenuinePrefix(cfg, log, rs, |rs| - 1);
    GenuineHeader(cfg, log, h);
    if p != [] {
      ContigIsOnTime(cfg, log, p, i);
    }
    if b == v.sbid {
      OnTimeGrows(cfg, log, rs, i);
      OnTimeEnds(cfg, log, rs, i);
    } else {
      forall m: int
        ensures OnTime(cfg, rs, w.sbid, i, m) <==>
                  if b < v.sbid then OnTime(cfg, p, w.sbid, i, m) else IsSymbol(cfg, h, b, i, m)
      {
        OnTimeStep(cfg, rs, w.sbid, i, m);
        if b > v.sbid {
          NoneBefore(cfg, log, p, b, i, m);
        }
      }
    }
  }

  /** A further packet of the current block. */
  lemma OnTimeGrows(cfg: Config, log: seq<Header>, rs: seq<Header>, i: nat)
    requires cfg.Valid() && Genuine(cfg, log, rs) && Counted(cfg, rs) && NoDuplicates(rs)
    requires i < cfg.slots && |rs| > 1
    requires var p, b := rs[..|rs| - 1], Blk(cfg, rs[|rs| - 1].seqno);
             Look(cfg, p, i).sbid == b && OnTimeUpTo(cfg, p, b, i, Look(cfg, p, i).contig)
    ensures var b, c := Blk(cfg, rs[|rs| - 1].seqno), Look(cfg, rs, i).contig;
            forall m :: 1 <= m <= c ==> OnTime(cfg, rs, b, i, m)
  {
    var p, h := rs[..|rs| - 1], rs[|rs| - 1];
    var b, v, w := Blk(cfg, h.seqno), Look(cfg, p, i), Look(cfg, rs, i);
    GenuinePrefix(cfg, log, rs, |rs| - 1);
    GenuineHeader(cfg, log, h);
    forall m | 1 <= m <= w.contig ensures OnTime(cfg, rs, b, i, m) {
      OnTimeStep(cfg, rs, b, i, m);
      if m > v.contig {
        KnownCount(cfg, log, p, i, m);
        OnTimeOnce(cfg, log, rs, i, h.iseq[i]);
      }
    }
  }

  lemma OnTimeEnds(cfg: Config, log: seq<Header>, rs: seq<Header>, i: nat)
    requires cfg.Valid() && Genuine(cfg, log, rs) && Counted(cfg, rs) && NoDuplicates(rs)
    requires i < cfg.slots && |rs| > 1
    requires var p, b := rs[..|rs| - 1], Blk(cfg, rs[|rs| - 1].seqno);
             Look(cfg, p, i).sbid == b && OnTimeUpTo(cfg, p, b, i, Look(cfg, p, i).contig)
    ensures !OnTime(cfg, rs, Blk(cfg, rs[|rs| - 1].seqno), i, Look(cfg, rs, i).contig + 1)
  {
    var p, h := rs[..|rs| - 1], rs[|rs| - 1];
    var b, v, w := Blk(cfg, h.seqno), Look(cfg, p, i), Look(cfg, rs, i);
    GenuinePrefix(cfg, log, rs, |rs| - 1);
    OnTimeStep(cfg, rs, b, i, w.contig + 1);
    KnownCount(cfg, log, p, i, w.contig + 1);
    OnTimeOnce(cfg, log, rs, i, w.contig + 1);
  }

  lemma OnTimeOnce(cfg: Config, log: seq<Header>, rs: seq<Header>, i: nat, m: int)
    requires cfg.Valid() && Genuine(cfg, log, rs) && Counted(cfg, rs) && NoDuplicates(rs)
    requires i < cfg.slots && |rs| > 1
    requires Look(cfg, rs[..|rs| - 1], i).sbid == Blk(cfg, rs[|rs| - 1].seqno)
    ensures var p, h := rs[..|rs| - 1], rs[|rs| - 1];
            var b := Blk(cfg, h.seqno);
            OnTime(cfg, p, b, i, m) ==> 1 <= m <= Look(cfg, p, i).nsymb && !IsSymbol(cfg, h, b, i, m)
  {
    var p, b := rs[..|rs| - 1], Blk(cfg, rs[|rs| - 1].seqno);
    GenuinePrefix(cfg, log, rs, |rs| - 1);
    if OnTime(cfg, p, b, i, m) {
      assert Arrived(cfg, p, b, i, m);
      HeardBound(cfg, log, p, i, m);
      SymbolTwice(cfg, log, rs, b, i, m);
    }
  }

  // --- with duplicates: when the counter is right ---

  /** As many symbols as the counter says have arrived, from the first on. */
  ghost predicate CounterRight(cfg: Config, rs: seq<Header>, i: nat)
    requires cfg.Valid() && Counted(cfg, rs) && i < cfg.slots
  {
    var v := Look(cfg, rs, i);
    v.sbid >= 0 ==> forall m :: 1 <= m <= v.contig ==> Arrived(cfg, rs, v.sbid, i, m)
  }

  /** Packet j repeats a packet of stream i when exactly one symbol known is missing. */
  ghost predicate RepeatAtGap(cfg: Config, rs: seq<Header>, j: nat, i: nat)
    requires cfg.Valid() && Counted(cfg, rs) && i < cfg.slots && j < |rs|
  {
    var v := Look(cfg, rs[..j], i);
    && v.sbid == Blk(cfg, rs[j].seqno) && rs[j].streamid == i && rs[j] in rs[..j]
    && v.contig + 1 == v.nsymb
  }

  /** If exactly one symbol known is missing, it has not arrived, whatever was repeated. */
  lemma {:induction false} GapNotHeard(cfg: Config, log: seq<Header>, rs: seq<Header>, i: nat)
    requires cfg.Valid() && Genuine(cfg, log, rs) && Counted(cfg, rs) && i < cfg.slots && rs != []
    ensures var v := Look(cfg, rs, i);
            v.sbid >= 0 && (v.contig + 1 == v.nsymb ==> !Arrived(cfg, rs, v.sbid, i, v.nsymb))
  {
    var p, h := rs[..|rs| - 1], rs[|rs| - 1];
    var b, v, w := Blk(cfg, h.seqno), Look(cfg, p, i), Look(cfg, rs, i);
    GenuinePrefix(cfg, log, rs, |rs| - 1);
    GenuineHeader(cfg, log, h);
    if p != [] {
      GapNotHeard(cfg, log, p, i);
    }
    ArrivedStep(cfg, rs, w.sbid, i, w.nsymb);
    if b > v.sbid {
      NoneBefore(cfg, log, p, b, i, w.nsymb);
    } else if Arrived(cfg, p, v.sbid, i, w.nsymb) {
      HeardBound(cfg, log, p, i, w.nsymb);
    }
  }

  /** One more packet leaves the counter right, unless it is a repeat at a gap. */
  lemma RightStep(cfg: Config, log: seq<Header>, rs: seq<Header>, i: nat)
    requires cfg.Valid() && Genuine(cfg, log, rs) && Counted(cfg, rs) && i < cfg.slots && rs != []
    requires CounterRight(cfg, rs[..|rs| - 1], i) && !RepeatAtGap(cfg, rs, |rs| - 1, i)
    ensures CounterRight(cfg, rs, i)
  {
    var p, h := rs[..|rs| - 1], rs[|rs| - 1];
    var b, v, w := Blk(cfg, h.seqno), Look(cfg, p, i), Look(cfg, rs, i);
    GenuineHeader(cfg, log, h);
    forall m | 1 <= m <= w.contig
      ensures Arrived(cfg, rs, w.sbid, i, m)
    {
      ArrivedStep(cfg, rs, w.sbid, i, m);
      if !(b <= v.sbid && m <= v.contig) && !IsSymbol(cfg, h, b, i, m) {
        assert Arrived(cfg, p, b, i, h.iseq[i]);
        OnlyRepeat(cfg, log, p, h, i);
        assert false;
      }
    }
  }

  /** A packet whose symbol is there already is a repeat. */
  lemma OnlyRepeat(cfg: Config, log: seq<Header>, rs: seq<Header>, h: Header, i: nat)
    requires cfg.Valid() && Genuine(cfg, log, rs) && Sent(log, h) && i < cfg.slots
    requires h.streamid == i && |h.iseq| == cfg.slots && Arrived(cfg, rs, Blk(cfg, h.seqno), i, h.iseq[i])
    ensures h in rs
  {
    var j :| 0 <= j < |rs| && IsSymbol(cfg, rs[j], Blk(cfg, h.seqno), i, h.iseq[i]);
    SymbolIsUnique(cfg, log, rs[j], h, i);
    SymbolIsUnique(cfg, log, h, rs[j], i);
  }

  /** A repeat at a gap makes the counter wrong. */
  lemma WrongAfterRepeat(cfg: Config, log: seq<Header>, rs: seq<Header>, i: nat)
    requires cfg.Valid() && Genuine(cfg, log, rs) && Counted(cfg, rs) && i < cfg.slots && rs != []
    requires RepeatAtGap(cfg, rs, |rs| - 1, i)
    ensures !CounterRight(cfg, rs, i)
  {
    var p, h := rs[..|rs| - 1], rs[|rs| - 1];
    var b, v := Blk(cfg, h.seqno), Look(cfg, p, i);
    GenuinePrefix(cfg, log, rs, |rs| - 1);
    GenuineHeader(cfg, log, h);
    var j :| 0 <= j < |p| && p[j] == h;
    KnownCount(cfg, log, p, i, v.nsymb);
    GapNotHeard(cfg, log, p, i);
    ArrivedStep(cfg, rs, b, i, v.nsymb);
  }

  lemma {:induction false} StaysRight(cfg: Config, log: seq<Header>, rs: seq<Header>, n: nat, i: nat)
    requires cfg.Valid() && Genuine(cfg, log, rs) && Counted(cfg, rs) && i < cfg.slots && n <= |rs|
    requires forall j: nat :: j < n ==> !RepeatAtGap(cfg, rs, j, i)
    ensures CounterRight(cfg, rs[..n], i)
    decreases n
  {
    if n > 0 {
      StaysRight(cfg, log, rs, n - 1, i);
      GenuinePrefix(cfg, log, rs, n);
      assert rs[..n][..n - 1] == rs[..n - 1];
      assert !RepeatAtGap(cfg, rs, n - 1, i);
      RightStep(cfg, log, rs[..n], i);
    }
  }

  lemma RightIffNoRepeat(cfg: Config, log: seq<Header>, rs: seq<Header>, i: nat)
    requires cfg.Valid() && Genuine(cfg, log, rs) && Counted(cfg, rs) && i < cfg.slots
    ensures (forall n: nat :: n <= |rs| ==> CounterRight(cfg, rs[..n], i))
       <==> (forall j: nat :: j < |rs| ==> !RepeatAtGap(cfg, rs, j, i))
  {
    forall j: nat | j < |rs| && RepeatAtGap(cfg, rs, j, i)
      ensures !CounterRight(cfg, rs[..j + 1], i)
    {
      GenuinePrefix(cfg, log, rs, j + 1);
      assert rs[..j + 1][..j] == rs[..j];
      WrongAfterRepeat(cfg, log, rs[..j + 1], i);
    }
    if forall j: nat :: j < |rs| ==> !RepeatAtGap(cfg, rs, j, i) {
      forall n: nat | n <= |rs| ensures CounterRight(cfg, rs[..n], i) {
        StaysRight(cfg, log, rs, n, i);
      }
    }
  }

  /** The decoder after the first m packets. */
  ghost function At(cfg: Config, rs: seq<Header>, m: nat): (s: Decoder.State)
    requires cfg.Valid() && Decoder.AllAcceptable(cfg, rs) && m <= |rs|
    ensures Decoder.Shaped(cfg, s)
  {
    Decoder.Run(cfg, rs[..m])
  }

  lemma LookAt(cfg: Config, log: seq<Header>, rs: seq<Header>, m: nat, i: nat)
    requires cfg.Valid() && Genuine(cfg, log, rs) && Counted(cfg, rs) && Decoder.AllAcceptable(cfg, rs)
    requires m <= |rs| && i < cfg.slots
    ensures var s, v := At(cfg, rs, m), Look(cfg, rs[..m], i);
            && v.sbid == s.sbid && v.nrcv == s.nrcv
            && v.contig == s.slots[i].nsymbcontig && v.nsymb == s.slots[i].nsymb
  {
    LookIsRun(cfg, rs[..m], i);
  }

  /** After n packets, the symbols the decoder's counter claims in order have arrived. */
  ghost predicate ClaimsOnlyArrived(cfg: Config, rs: seq<Header>, n: nat, i: nat)
    requires cfg.Valid() && Decoder.AllAcceptable(cfg, rs) && i < cfg.slots && n <= |rs|
  {
    var s := At(cfg, rs, n);
    s.sbid >= 0 ==> forall m :: 1 <= m <= s.slots[i].nsymbcontig ==> Arrived(cfg, rs[..n], s.sbid, i, m)
  }

  /** Packet j passes the check for immediate release although it is a repeat. */
  ghost predicate ReleasesRepeat(cfg: Config, rs: seq<Header>, j: nat, i: nat)
    requires cfg.Valid() && Decoder.AllAcceptable(cfg, rs) && i < cfg.slots && j < |rs|
  {
    var s := At(cfg, rs, j);
    && s.sbid == Blk(cfg, rs[j].seqno) && rs[j].streamid == i && rs[j] in rs[..j]
    && s.slots[i].nsymbcontig + 1 == s.slots[i].nsymb
  }

  /**
   * Under any loss, reordering and duplication: what the decoder's counter claims is true after
   * every packet if and only if no packet of the stream is repeated while exactly one symbol
   * known of it is missing.
   */
  lemma ContigRightIff(cfg: Config, log: seq<Header>, rs: seq<Header>, i: nat)
    requires cfg.Valid() && Genuine(cfg, log, rs) && Decoder.AllAcceptable(cfg, rs) && i < cfg.slots
    ensures (forall n: nat :: n <= |rs| ==> ClaimsOnlyArrived(cfg, rs, n, i))
       <==> (forall j: nat :: j < |rs| ==> !ReleasesRepeat(cfg, rs, j, i))
  {
    GenuineIsAcceptable(cfg, log, rs);
    forall n: nat | n <= |rs|
      ensures ClaimsOnlyArrived(cfg, rs, n, i) <==> CounterRight(cfg, rs[..n], i)
      ensures n < |rs| ==> (ReleasesRepeat(cfg, rs, n, i) <==> RepeatAtGap(cfg, rs, n, i))
    {
      LookAt(cfg, log, rs, n, i);
    }
    RightIffNoRepeat(cfg, log, rs, i);
  }
}

/** What a decoder makes of an encoder's packets after loss, reordering and duplication. */
module Reception {
  import opened Words
  import opened Header
  import opened Blocks
  import Decoder

  // --- packets on the way ---

  /** Every received packet is one the encoder sent. Sequence numbers fit the decoder's int. */
  ghost predicate Genuine(cfg: Config, log: seq<Header>, rs: seq<Header>)
    requires cfg.Valid()
  {
    && |log| <= TWO_31 && EncoderLog(cfg, log)
    && forall j :: 0 <= j < |rs| ==> Sent(log, rs[j])
  }

  ghost predicate Sent(log: seq<Header>, h: Header) {
    0 <= h.seqno < |log| && log[h.seqno] == h
  }

  ghost predicate NoDuplicates(rs: seq<Header>) {
    forall i, j :: 0 <= i < j < |rs| ==> rs[i].seqno != rs[j].seqno
  }

  ghost predicate InOrder(rs: seq<Header>) {
    forall i, j :: 0 <= i < j < |rs| ==> rs[i].seqno < rs[j].seqno
  }

  /** Received packets of block b. */
  ghost function Arrivals(cfg: Config, rs: seq<Header>, b: nat): nat
    requires cfg.Valid()
  {
    if rs == [] then 0
    else Arrivals(cfg, rs[..|rs| - 1], b) + if Blk(cfg, rs[|rs| - 1].seqno) == b then 1 else 0
  }

  /** Symbol m of stream i of block b, counting from 1, is among the received packets. */
  ghost predicate Arrived(cfg: Config, rs: seq<Header>, b: nat, i: nat, m: int)
    requires cfg.Valid()
  {
    exists j :: 0 <= j < |rs| && IsSymbol(cfg, rs[j], b, i, m)
  }

  ghost predicate IsSymbol(cfg: Config, h: Header, b: nat, i: nat, m: int)
    requires cfg.Valid()
  {
    Blk(cfg, h.seqno) == b && h.streamid == i && i < |h.iseq| && h.iseq[i] == m
  }

  /** Symbols 1..c arrived and symbol c + 1 did not. */
  ghost predicate LongestPrefix(cfg: Config, rs: seq<Header>, b: nat, i: nat, c: int)
    requires cfg.Valid()
  {
    && 0 <= c
    && (forall m :: 1 <= m <= c ==> Arrived(cfg, rs, b, i, m))
    && !Arrived(cfg, rs, b, i, c + 1)
  }

  ghost function MaxSeqno(rs: seq<Header>): nat {
    if rs == [] then 0 else Max(MaxSeqno(rs[..|rs| - 1]), rs[|rs| - 1].seqno)
  }

  // --- one stream of the decoder ---

  /** The decoder as seen by one stream; `units` counts symbols released in the whole run. */
  datatype View = View(sbid: int, nrcv: int, contig: int, nsymb: int, units: nat)

  ghost predicate Fits(cfg: Config, v: View) {
    cfg.Valid() && 0 <= v.contig <= v.nsymb
  }

  ghost function ViewStep(cfg: Config, v: View, h: Header, i: nat): (r: View)
    requires Fits(cfg, v) && i < |h.iseq|
    ensures Fits(cfg, r)
  {
    var b := Blk(cfg, h.seqno);
    if b < v.sbid then v
    else
      var e := if b > v.sbid then View(b, 0, 0, 0, v.units) else v;
      var y := Max(e.nsymb, h.iseq[i]);
      var c := if h.streamid == i && e.contig + 1 == y then e.contig + 1 else e.contig;
      View(b, e.nrcv + 1, c, y, e.units + (c - e.contig) + if e.nrcv + 1 == cfg.k then y - c else 0)
  }

  ghost predicate Counted(cfg: Config, rs: seq<Header>) {
    forall j :: 0 <= j < |rs| ==> |rs[j].iseq| == cfg.slots
  }

  ghost function Look(cfg: Config, rs: seq<Header>, i: nat): (v: View)
    requires cfg.Valid() && i < cfg.slots && Counted(cfg, rs)
    ensures Fits(cfg, v)
  {
    if rs == [] then View(-1, 0, 0, 0, 0)
    else ViewStep(cfg, Look(cfg, rs[..|rs| - 1], i), rs[|rs| - 1], i)
  }

  /** Symbols released to stream i by packets of block b. */
  ghost function Released(cfg: Config, rs: seq<Header>, b: nat, i: nat): int
    requires cfg.Valid() && i < cfg.slots && Counted(cfg, rs)
  {
    if rs == [] then 0
    else
      var p := rs[..|rs| - 1];
      Released(cfg, p, b, i)
      + if Blk(cfg, rs[|rs| - 1].seqno) == b then Look(cfg, rs, i).units - Look(cfg, p, i).units else 0
  }

  lemma GenuineHeader(cfg: Config, log: seq<Header>, h: Header)
    requires cfg.Valid() && |log| <= TWO_31 && EncoderLog(cfg, log) && Sent(log, h)
    ensures Decoder.Acceptable(cfg, h)
    ensures Decoder.BlockOf(cfg, h) == Blk(cfg, h.seqno) && Decoder.EsiOf(cfg, h) == Esi(cfg, h.seqno)
    ensures if Esi(cfg, h.seqno) < cfg.k then 0 <= h.streamid < cfg.slots else h.streamid == -1
    ensures forall i :: 0 <= i < cfg.slots ==> h.iseq[i] == Occ(log, i, Start(cfg, h.seqno), h.seqno + 1)
  {
    assert Stamped(cfg, log, h.seqno);
    Decoder.SmallSeqno(cfg, h);
  }

  lemma GenuineIsAcceptable(cfg: Config, log: seq<Header>, rs: seq<Header>)
    requires cfg.Valid() && Genuine(cfg, log, rs)
    ensures Decoder.AllAcceptable(cfg, rs) && Counted(cfg, rs) && AllSmall(rs)
  {
    forall j | 0 <= j < |rs|
      ensures Decoder.Acceptable(cfg, rs[j])
    {
      GenuineHeader(cfg, log, rs[j]);
    }
  }

  /** A view of stream i agrees with the decoder. */
  ghost predicate Sees(cfg: Config, v: View, s: Decoder.State, i: nat)
    requires Decoder.Shaped(cfg, s) && i < cfg.slots
  {
    && v.sbid == s.sbid && v.nrcv == s.nrcv
    && v.contig == s.slots[i].nsymbcontig && v.nsymb == s.slots[i].nsymb
    && s.released[i] == v.units * cfg.t
  }

  lemma DecodeSlot(cfg: Config, s: Decoder.State, i: nat)
    requires Decoder.Shaped(cfg, s) && i < cfg.slots
    ensures var r, x := Decoder.Decode(cfg, s), s.slots[i];
            var held := if s.nrcv == cfg.k then x.nsymb - x.nsymbcontig else 0;
            && r.slots[i].nsymbcontig == x.nsymbcontig && r.slots[i].nsymb == x.nsymb
            && r.released[i] == s.released[i] + held * cfg.t
            && r.sbid == s.sbid && r.nrcv == s.nrcv
  {
  }

  /** One stream through the handling of a packet of the current block. */
  lemma ReceiveSlot(cfg: Config, s: Decoder.State, h: Header, i: nat)
    requires Decoder.Shaped(cfg, s) && Decoder.Acceptable(cfg, h) && i < cfg.slots
    ensures var r, x := Decoder.Receive(cfg, s, h), s.slots[i];
            var y := Max(x.nsymb, h.iseq[i]);
            var c := if h.streamid == i && x.nsymbcontig + 1 == y then 1 else 0;
            var held := if s.nrcv + 1 == cfg.k then y - x.nsymbcontig - c else 0;
            && r.slots[i].nsymbcontig == x.nsymbcontig + c && r.slots[i].nsymb == y
            && r.released[i] == s.released[i] + (c + held) * cfg.t
            && r.sbid == s.sbid && r.nrcv == s.nrcv + 1
  {
    var u := Decoder.Raise(cfg, s, h.iseq);
    var v := Decoder.Advance(cfg, u, h.streamid);
    DecodeSlot(cfg, Decoder.Count(cfg, v, Decoder.EsiOf(cfg, h)), i);
    var c := v.slots[i].nsymbcontig - s.slots[i].nsymbcontig;
    MulAdd(c, if s.nrcv + 1 == cfg.k then v.slots[i].nsymb - v.slots[i].nsymbcontig else 0, cfg.t);
  }

  lemma StepSlot(cfg: Config, s: Decoder.State, h: Header, i: nat, v: View)
    requires Decoder.Shaped(cfg, s) && Decoder.Acceptable(cfg, h) && i < cfg.slots
    requires Decoder.BlockOf(cfg, h) == Blk(cfg, h.seqno) && Fits(cfg, v) && Sees(cfg, v, s, i)
    ensures Sees(cfg, ViewStep(cfg, v, h, i), Decoder.Step(cfg, s, h), i)
  {
    var b := Decoder.BlockOf(cfg, h);
    if b > s.sbid {
      ReceiveSlot(cfg, Decoder.Enter(cfg, s, b), h, i);
    } else if b == s.sbid {
      ReceiveSlot(cfg, s, h, i);
    }
    MulAdd(v.units, ViewStep(cfg, v, h, i).units - v.units, cfg.t);
  }

  /** Sequence numbers in the range of the decoder's int. */
  ghost predicate AllSmall(rs: seq<Header>) {
    forall j :: 0 <= j < |rs| ==> rs[j].seqno < TWO_31
  }

  lemma {:induction false} LookIsRun(cfg: Config, rs: seq<Header>, i: nat)
    requires cfg.Valid() && i < cfg.slots && AllSmall(rs)
    requires Decoder.AllAcceptable(cfg, rs) && Counted(cfg, rs)
    ensures Sees(cfg, Look(cfg, rs, i), Decoder.Run(cfg, rs), i)
  {
    if rs != [] {
      var p, h := rs[..|rs| - 1], rs[|rs| - 1];
      LookIsRun(cfg, p, i);
      Decoder.SmallSeqno(cfg, h);
      StepSlot(cfg, Decoder.Run(cfg, p), h, i, Look(cfg, p, i));
    }
  }

  // --- where the decoder is: holds under any loss, reordering and duplication ---

  lemma {:induction false} MaxSeqnoAttained(rs: seq<Header>)
    requires rs != []
    ensures exists j :: 0 <= j < |rs| && rs[j].seqno == MaxSeqno(rs)
    ensures forall j :: 0 <= j < |rs| ==> rs[j].seqno <= MaxSeqno(rs)
  {
    if |rs| > 1 {
      var p := rs[..|rs| - 1];
      MaxSeqnoAttained(p);
      var j :| 0 <= j < |p| && p[j].seqno == MaxSeqno(p);
      assert rs[j] == p[j];
    } else {
      assert rs[..0] == [];
      assert rs[0].seqno == MaxSeqno(rs);
    }
  }

  lemma {:induction false} NoneAbove(cfg: Config, rs: seq<Header>, b: nat, i: nat)
    requires cfg.Valid() && i < cfg.slots && Counted(cfg, rs) && (rs == [] || Blk(cfg, MaxSeqno(rs)) < b)
    ensures Arrivals(cfg, rs, b) == 0 && Released(cfg, rs, b, i) == 0
    ensures forall m :: !Arrived(cfg, rs, b, i, m)
  {
    if rs != [] {
      var p := rs[..|rs| - 1];
      MaxSeqnoAttained(rs);
      forall j | 0 <= j < |rs| ensures Blk(cfg, rs[j].seqno) < b {
        BlkMonotone(cfg, rs[j].seqno, MaxSeqno(rs));
      }
      if p != [] {
        MaxSeqnoAttained(p);
        BlkMonotone(cfg, MaxSeqno(p), MaxSeqno(rs));
      }
      NoneAbove(cfg, p, b, i);
    }
  }

  /**
   * The decoder's position is that of the largest sequence number M received: it is in M's
   * block, has counted that block's arrivals, and knows every stream's count as of packet M.
   */
  lemma {:induction false} Position(cfg: Config, log: seq<Header>, rs: seq<Header>, i: nat)
    requires cfg.Valid() && Genuine(cfg, log, rs) && Counted(cfg, rs) && i < cfg.slots && rs != []
    ensures var v, m := Look(cfg, rs, i), MaxSeqno(rs);
            && 0 <= m < |log|
            && v.sbid == Blk(cfg, m)
            && v.nrcv == Arrivals(cfg, rs, v.sbid)
            && v.nsymb == Occ(log, i, Start(cfg, m), m + 1)
  {
    var p, h := rs[..|rs| - 1], rs[|rs| - 1];
    GenuineHeader(cfg, log, h);
    if p != [] {
      Position(cfg, log, p, i);
      KnownStep(cfg, log, MaxSeqno(p), h, i, Look(cfg, p, i));
      if Blk(cfg, h.seqno) > Blk(cfg, MaxSeqno(p)) {
        NoneAbove(cfg, p, Blk(cfg, h.seqno), i);
      }
    }
  }

  /** A view as of packet m, after one more packet. */
  lemma KnownStep(cfg: Config, log: seq<Header>, m: nat, h: Header, i: nat, v: View)
    requires cfg.Valid() && m < |log| && h.seqno < |log| && i < |h.iseq| && Fits(cfg, v)
    requires v.sbid == Blk(cfg, m) && v.nsymb == Occ(log, i, Start(cfg, m), m + 1)
    requires h.iseq[i] == Occ(log, i, Start(cfg, h.seqno), h.seqno + 1)
    ensures var w, top := ViewStep(cfg, v, h, i), Max(m, h.seqno);
            w.sbid == Blk(cfg, top) && w.nsymb == Occ(log, i, Start(cfg, top), top + 1)
  {
    BlkMonotone(cfg, Min(m, h.seqno), Max(m, h.seqno));
    if Blk(cfg, m) == Blk(cfg, h.seqno) {
      OccMonotone(log, i, Start(cfg, m), Min(m, h.seqno) + 1, Max(m, h.seqno) + 1);
    }
  }

  /** Everything heard of the current block is within the known counts. */
  lemma {:induction false} HeardBound(cfg: Config, log: seq<Header>, rs: seq<Header>, i: nat, m: int)
    requires cfg.Valid() && Genuine(cfg, log, rs) && Counted(cfg, rs) && i < cfg.slots && rs != []
    requires Look(cfg, rs, i).sbid >= 0 && Arrived(cfg, rs, Look(cfg, rs, i).sbid, i, m)
    ensures 1 <= m <= Look(cfg, rs, i).nsymb
  {
    var b, top := Look(cfg, rs, i).sbid, MaxSeqno(rs);
    Position(cfg, log, rs, i);
    MaxSeqnoAttained(rs);
    var j :| 0 <= j < |rs| && IsSymbol(cfg, rs[j], b, i, m);
    GenuineHeader(cfg, log, rs[j]);
    BlkMonotone(cfg, rs[j].seqno, top);
    OccMonotone(log, i, Start(cfg, top), rs[j].seqno + 1, top + 1);
  }

  // --- pigeonhole ---

  ghost function Interval(lo: int, hi: int): (s: set<int>)
    ensures |s| == if lo < hi then hi - lo else 0
    ensures forall x :: x in s <==> lo <= x < hi
    decreases hi - lo
  {
    if lo < hi then Interval(lo, hi - 1) + {hi - 1} else {}
  }

  ghost function Seqnos(cfg: Config, rs: seq<Header>, b: nat): set<int>
    requires cfg.Valid()
  {
    set j | 0 <= j < |rs| && Blk(cfg, rs[j].seqno) == b :: rs[j].seqno
  }

  lemma SeqnosStep(cfg: Config, rs: seq<Header>, b: nat)
    requires cfg.Valid() && rs != []
    ensures var p, h := rs[..|rs| - 1], rs[|rs| - 1];
            Seqnos(cfg, rs, b) == Seqnos(cfg, p, b) + if Blk(cfg, h.seqno) == b then {h.seqno} else {}
  {
    var p, h := rs[..|rs| - 1], rs[|rs| - 1];
    forall x | x in Seqnos(cfg, p, b)
      ensures x in Seqnos(cfg, rs, b)
    {
      var j :| 0 <= j < |p| && Blk(cfg, p[j].seqno) == b && p[j].seqno == x;
      assert rs[j] == p[j];
    }
  }

  lemma {:induction false} ArrivalsAreDistinct(cfg: Config, rs: seq<Header>, b: nat)
    requires cfg.Valid() && NoDuplicates(rs)
    ensures |Seqnos(cfg, rs, b)| == Arrivals(cfg, rs, b)
  {
    if rs == [] {
      assert Seqnos(cfg, rs, b) == {};
    } else {
      var p, h := rs[..|rs| - 1], rs[|rs| - 1];
      ArrivalsAreDistinct(cfg, p, b);
      SeqnosStep(cfg, rs, b);
    }
  }

  /** Without duplicates, a block cannot have more arrivals than sequence numbers up to the largest. */
  lemma ArrivalsFit(cfg: Config, rs: seq<Header>, b: nat, hi: nat)
    requires cfg.Valid() && NoDuplicates(rs) && First(cfg, b) <= hi
    requires forall j :: 0 <= j < |rs| && Blk(cfg, rs[j].seqno) == b ==> rs[j].seqno < hi
    ensures Arrivals(cfg, rs, b) <= hi - First(cfg, b)
  {
    ArrivalsAreDistinct(cfg, rs, b);
    var s, all := Seqnos(cfg, rs, b), Interval(First(cfg, b), hi);
    forall x | x in s ensures x in all {
      var j :| 0 <= j < |rs| && Blk(cfg, rs[j].seqno) == b && rs[j].seqno == x;
      BlkBounds(cfg, rs[j].seqno);
    }
    Subset(s, all);
  }

  lemma Subset(a: set<int>, b: set<int>)
    requires a <= b
    ensures |a| <= |b|
  {
    assert |b - a| == |b| - |a|;
  }

  /** The current block's largest packet has ESI >= k - 1 once k of its packets are in. */
  lemma EnoughHeard(cfg: Config, log: seq<Header>, rs: seq<Header>, i: nat)
    requires cfg.Valid() && Genuine(cfg, log, rs) && Counted(cfg, rs) && NoDuplicates(rs)
    requires i < cfg.slots && rs != [] && Look(cfg, rs, i).nrcv >= cfg.k
    ensures var v := Look(cfg, rs, i);
            && 0 <= v.sbid == Blk(cfg, MaxSeqno(rs)) && Esi(cfg, MaxSeqno(rs)) >= cfg.k - 1
            && v.nsymb == Symbols(cfg, log, v.sbid, i)
            && First(cfg, v.sbid) + cfg.k <= Last(cfg, log, v.sbid)
  {
    Position(cfg, log, rs, i);
    MaxSeqnoAttained(rs);
    var top := MaxSeqno(rs);
    var b := Blk(cfg, top);
    BlkBounds(cfg, top);
    ArrivalsFit(cfg, rs, b, top + 1);
    var last := Last(cfg, log, b);
    OccSplit(log, i, Start(cfg, top), top + 1, last);
    if top + 1 < last {
      WithinBlock(cfg, top, top + 1);
      OccOfRepair(cfg, log, i, top + 1, last);
    }
  }

  /**
   * The claim in the decoder's comment: with k packets of a block in, one of them has
   * ESI >= k - 1, so every stream's count is final and the counts add up to k.
   */
  lemma Pigeonhole(cfg: Config, log: seq<Header>, rs: seq<Header>)
    requires cfg.Valid() && Genuine(cfg, log, rs) && Decoder.AllAcceptable(cfg, rs) && NoDuplicates(rs)
    requires Decoder.Run(cfg, rs).nrcv >= cfg.k
    ensures var s := Decoder.Run(cfg, rs);
            && s.sbid >= 0
            && (exists j :: 0 <= j < |rs| && Blk(cfg, rs[j].seqno) == s.sbid && Esi(cfg, rs[j].seqno) >= cfg.k - 1)
            && (forall i :: 0 <= i < cfg.slots ==> s.slots[i].nsymb == Symbols(cfg, log, s.sbid, i))
            && Sum(seq(cfg.slots, i requires 0 <= i < cfg.slots => s.slots[i].nsymb)) == cfg.k
  {
    GenuineIsAcceptable(cfg, log, rs);
    var s := Decoder.Run(cfg, rs);
    forall i: nat | i < cfg.slots
      ensures 0 <= s.sbid == Blk(cfg, MaxSeqno(rs)) && Esi(cfg, MaxSeqno(rs)) >= cfg.k - 1
      ensures s.slots[i].nsymb == Symbols(cfg, log, s.sbid, i)
      ensures First(cfg, s.sbid) + cfg.k <= Last(cfg, log, s.sbid)
    {
      LookIsRun(cfg, rs, i);
      EnoughHeard(cfg, log, rs, i);
    }
    assert s.slots[0].nsymb == Symbols(cfg, log, s.sbid, 0);
    MaxSeqnoAttained(rs);
    SymbolsSum(cfg, log, s.sbid);
    assert seq(cfg.slots, i requires 0 <= i < cfg.slots => s.slots[i].nsymb)
        == Counts(log, First(cfg, s.sbid), Last(cfg, log, s.sbid), cfg.slots);
  }
}

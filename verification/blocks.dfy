/** Source blocks and the symbol counts of the streams merged into them. */
module Blocks {
  import opened Words
  import opened Header

  const SLOT_COUNT: nat := 8   // RX_SLOT_COUNT and TX_SLOT_COUNT of ProxyBase

  /** k source packets in each block of n packets, t payload bytes in a packet, one slot a stream. */
  datatype Config = Config(k: int, n: int, t: int, slots: nat) {
    predicate Valid() {
      && 1 <= k < TWO_31 && 1 <= n < TWO_31 && 1 <= t < TWO_32
      && 1 <= slots <= SLOT_COUNT
    }
  }

  function Zeros(): (z: seq<nat>)
    ensures |z| == SLOT_COUNT && forall i :: 0 <= i < |z| ==> z[i] == 0
  {
    seq(SLOT_COUNT, i => 0)
  }

  /** Number of packets of stream i in log[lo..hi]. */
  ghost function Occ(log: seq<Header>, i: int, lo: nat, hi: nat): nat
    requires hi <= |log|
    decreases hi
  {
    if hi <= lo then 0
    else Occ(log, i, lo, hi - 1) + if log[hi - 1].streamid == i then 1 else 0
  }

  /** Source block and position in it (ESI) of packet number `at`. */
  function Blk(cfg: Config, at: nat): nat
    requires cfg.Valid()
  {
    at / cfg.n
  }

  function Esi(cfg: Config, at: nat): (e: nat)
    requires cfg.Valid()
    ensures e < cfg.n && e <= at
  {
    at % cfg.n
  }

  lemma BlkMonotone(cfg: Config, a: nat, b: nat)
    requires cfg.Valid() && a <= b
    ensures Blk(cfg, a) <= Blk(cfg, b)
    ensures Blk(cfg, a) == Blk(cfg, b) ==> Esi(cfg, b) - Esi(cfg, a) == b - a && Start(cfg, a) == Start(cfg, b)
  {
    DivMonotone(a, b, cfg.n);
  }

  /** Where the block of packet number `at` begins. */
  function Start(cfg: Config, at: nat): nat
    requires cfg.Valid()
  {
    at - Esi(cfg, at)
  }

  lemma BlkBounds(cfg: Config, at: nat)
    requires cfg.Valid()
    ensures First(cfg, Blk(cfg, at)) == Start(cfg, at)
  {
  }

  lemma StartIsAligned(cfg: Config, at: nat)
    requires cfg.Valid()
    ensures Esi(cfg, Start(cfg, at)) == 0
  {
    DivUnique(Start(cfg, at), cfg.n, Blk(cfg, at), 0);
  }

  /** The next packet belongs to the same block unless this one is its last. */
  lemma StartStep(cfg: Config, at: nat)
    requires cfg.Valid()
    ensures Start(cfg, at + 1) == if Esi(cfg, at) + 1 == cfg.n then at + 1 else Start(cfg, at)
  {
    DivStep(at, cfg.n);
  }

  /** A packet less than a block after an aligned one. */
  lemma {:induction false} WithinBlock(cfg: Config, lo: nat, at: nat)
    requires cfg.Valid() && lo <= at && Esi(cfg, lo) + (at - lo) < cfg.n
    ensures Blk(cfg, at) == Blk(cfg, lo) && Esi(cfg, at) == Esi(cfg, lo) + (at - lo)
    decreases at
  {
    if lo < at {
      WithinBlock(cfg, lo, at - 1);
      DivStep(at - 1, cfg.n);
    }
  }

  /** The 64-bit sequence number of packet number `at`: see Encoder.SeqnoIsPosition. */
  ghost function SeqnoAt(cfg: Config, at: nat): nat
    requires cfg.Valid()
  {
    at % (cfg.n * TWO_32)
  }

  /** Packet number `at` of the log carries the right number, stream and counts. */
  ghost predicate Stamped(cfg: Config, log: seq<Header>, at: nat)
    requires cfg.Valid() && at < |log|
  {
    var h := log[at];
    && h.seqno == SeqnoAt(cfg, at)
    && (if Esi(cfg, at) < cfg.k then 0 <= h.streamid < cfg.slots else h.streamid == -1)
    && |h.iseq| == cfg.slots
    && forall i :: 0 <= i < cfg.slots ==> h.iseq[i] == Occ(log, i, Start(cfg, at), at + 1)
  }

  /** A log as an encoder writes it: see Encoder.RunIsStamped. */
  ghost predicate EncoderLog(cfg: Config, log: seq<Header>)
    requires cfg.Valid()
  {
    forall at :: 0 <= at < |log| ==> Stamped(cfg, log, at)
  }

  /** First packet of block b, and one past its last packet in the log. */
  ghost function First(cfg: Config, b: nat): nat
    requires cfg.Valid()
  {
    MulNonNegative(b, cfg.n);
    b * cfg.n
  }

  ghost function Last(cfg: Config, log: seq<Header>, b: nat): nat
    requires cfg.Valid()
  {
    Min(First(cfg, b) + cfg.n, |log|)
  }

  /** How many symbols of stream i the encoder put into block b. */
  ghost function Symbols(cfg: Config, log: seq<Header>, b: nat, i: int): nat
    requires cfg.Valid()
  {
    Occ(log, i, First(cfg, b), Last(cfg, log, b))
  }

  // --- counting ---

  lemma {:induction false} OccMonotone(log: seq<Header>, i: int, lo: nat, m: nat, hi: nat)
    requires m <= hi <= |log|
    ensures Occ(log, i, lo, m) <= Occ(log, i, lo, hi)
    decreases hi
  {
    if m < hi { OccMonotone(log, i, lo, m, hi - 1); }
  }

  lemma {:induction false} OccPrefix(log: seq<Header>, more: seq<Header>, i: int, lo: nat, hi: nat)
    requires hi <= |log|
    ensures Occ(log + more, i, lo, hi) == Occ(log, i, lo, hi)
    decreases hi
  {
    if lo < hi { OccPrefix(log, more, i, lo, hi - 1); }
  }

  lemma {:induction false} OccSplit(log: seq<Header>, i: int, lo: nat, m: nat, hi: nat)
    requires lo <= m <= hi <= |log|
    ensures Occ(log, i, lo, hi) == Occ(log, i, lo, m) + Occ(log, i, m, hi)
    decreases hi
  {
    if m < hi { OccSplit(log, i, lo, m, hi - 1); }
  }

  /** Repair packets belong to no stream. */
  lemma {:induction false} OccOfRepair(cfg: Config, log: seq<Header>, i: nat, lo: nat, hi: nat)
    requires cfg.Valid() && EncoderLog(cfg, log) && lo <= hi <= |log|
    requires Esi(cfg, lo) >= cfg.k && hi - lo <= cfg.n - Esi(cfg, lo)
    ensures Occ(log, i, lo, hi) == 0
    decreases hi
  {
    if lo < hi {
      OccOfRepair(cfg, log, i, lo, hi - 1);
      WithinBlock(cfg, lo, hi - 1);
      assert Stamped(cfg, log, hi - 1);
    }
  }

  /** The stream counts of packets [lo, hi) as a vector. */
  ghost function Counts(log: seq<Header>, lo: nat, hi: nat, m: nat): (c: seq<int>)
    requires hi <= |log|
    ensures |c| == m && forall i :: 0 <= i < m ==> c[i] == Occ(log, i, lo, hi)
  {
    seq(m, i requires 0 <= i < m => Occ(log, i, lo, hi))
  }

  ghost function Sum(s: seq<int>): int {
    if s == [] then 0 else Sum(s[..|s| - 1]) + s[|s| - 1]
  }

  lemma {:induction false} SumZero(s: seq<int>)
    requires forall i :: 0 <= i < |s| ==> s[i] == 0
    ensures Sum(s) == 0
  {
    if s != [] { SumZero(s[..|s| - 1]); }
  }

  lemma {:induction false} SumUpdate(s: seq<int>, i: nat, x: int)
    requires i < |s|
    ensures Sum(s[i := x]) == Sum(s) - s[i] + x
  {
    var k := |s| - 1;
    if i < k {
      SumUpdate(s[..k], i, x);
      assert s[i := x][..k] == s[..k][i := x];
    } else {
      assert s[i := x][..k] == s[..k];
    }
  }

  lemma {:induction false} SumBound(s: seq<int>, i: nat)
    requires i < |s| && forall j :: 0 <= j < |s| ==> s[j] >= 0
    ensures s[i] <= Sum(s)
  {
    SumUpdate(s, i, 0);
    SumNonNegative(s[i := 0]);
  }

  lemma {:induction false} SumNonNegative(s: seq<int>)
    requires forall j :: 0 <= j < |s| ==> s[j] >= 0
    ensures Sum(s) >= 0
  {
    if s != [] { SumNonNegative(s[..|s| - 1]); }
  }

  lemma {:induction false} SumScaled(s: seq<int>, t: int, r: seq<int>)
    requires |r| == |s| && forall j :: 0 <= j < |s| ==> r[j] == s[j] * t
    ensures Sum(r) == Sum(s) * t
  {
    if s != [] { SumScaled(s[..|s| - 1], t, r[..|s| - 1]); }
  }

  /** In a block, the counts over all streams add up to the source packets seen, at most k. */
  lemma {:induction false} CountsSum(cfg: Config, log: seq<Header>, lo: nat, hi: nat)
    requires cfg.Valid() && EncoderLog(cfg, log)
    requires lo <= hi <= |log| && Esi(cfg, lo) == 0 && hi - lo <= cfg.n
    ensures Sum(Counts(log, lo, hi, cfg.slots)) == Min(hi - lo, cfg.k)
    decreases hi
  {
    var c := Counts(log, lo, hi, cfg.slots);
    if lo == hi {
      SumZero(c);
    } else {
      CountsSum(cfg, log, lo, hi - 1);
      var before, s := Counts(log, lo, hi - 1, cfg.slots), log[hi - 1].streamid;
      WithinBlock(cfg, lo, hi - 1);
      assert Stamped(cfg, log, hi - 1);
      if hi - 1 - lo < cfg.k {
        assert c == before[s := before[s] + 1];
        SumUpdate(before, s, before[s] + 1);
      } else {
        assert c == before;
      }
    }
  }

  lemma OccBound(cfg: Config, log: seq<Header>, i: nat, lo: nat, hi: nat)
    requires cfg.Valid() && EncoderLog(cfg, log) && i < cfg.slots
    requires lo <= hi <= |log| && Esi(cfg, lo) == 0 && hi - lo <= cfg.n
    ensures Occ(log, i, lo, hi) <= Min(hi - lo, cfg.k)
  {
    CountsSum(cfg, log, lo, hi);
    SumBound(Counts(log, lo, hi, cfg.slots), i);
  }

  /** The counts in the header of ESI e always add up to min(e + 1, k). */
  lemma HeaderCountsSum(cfg: Config, log: seq<Header>, at: nat)
    requires cfg.Valid() && EncoderLog(cfg, log) && at < |log|
    ensures Sum(log[at].iseq) == Min(Esi(cfg, at) + 1, cfg.k)
  {
    var lo := Start(cfg, at);
    StartIsAligned(cfg, at);
    CountsSum(cfg, log, lo, at + 1);
    assert Stamped(cfg, log, at);
    assert log[at].iseq == Counts(log, lo, at + 1, cfg.slots);
  }

  /** A complete block holds exactly k symbols. */
  lemma SymbolsSum(cfg: Config, log: seq<Header>, b: nat)
    requires cfg.Valid() && EncoderLog(cfg, log) && First(cfg, b) + cfg.k <= Last(cfg, log, b)
    ensures Sum(Counts(log, First(cfg, b), Last(cfg, log, b), cfg.slots)) == cfg.k
  {
    DivUnique(b * cfg.n, cfg.n, b, 0);
    CountsSum(cfg, log, First(cfg, b), Last(cfg, log, b));
  }
}

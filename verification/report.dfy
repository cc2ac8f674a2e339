/** The decoding report written by the trace callback: sim/app_rq_dec_cb.cc. */
module Report {
  import opened Words
  import opened Header
  import opened Blocks
  import Decoder
  import Reception

  datatype Line = Line(sbid: int, success: bool, n_rcv: int, n_src_rcv: int)

  function ToLine(info: Decoder.DecodeInfo): Line {
    Line(info.sbid, info.success, info.n_rcv, info.n_src_rcv)
  }

  /** Lines printed so far and the cached entry. */
  datatype Cache = Cache(lines: seq<Line>, cached: Option<Line>)

  function Feed(c: Cache, info: Line): Cache {
    Cache(Flush(if c.cached.Some? && c.cached.value.sbid == info.sbid then c.(cached := None) else c), Some(info))
  }

  function Flush(c: Cache): seq<Line> {
    if c.cached.Some? then c.lines + [c.cached.value] else c.lines
  }

  ghost function FeedAll(infos: seq<Decoder.DecodeInfo>): Cache {
    if infos == [] then Cache([], None)
    else Feed(FeedAll(infos[..|infos| - 1]), ToLine(infos[|infos| - 1]))
  }

  /** Everything the callback has written once it is destroyed. */
  ghost function Printed(infos: seq<Decoder.DecodeInfo>): seq<Line> {
    Flush(FeedAll(infos))
  }

  class AppRqDecCb {
    var has_cached: bool
    var c: Decoder.DecodeInfo
    var fp: seq<Line>
    ghost var fed: seq<Decoder.DecodeInfo>

    ghost predicate Valid()
      reads this
    {
      FeedAll(fed) == Cache(fp, if has_cached then Some(ToLine(c)) else None)
    }

    constructor ()
      ensures Valid() && fed == []
    {
      has_cached, fp, fed := false, [], [];
      c := Decoder.DecodeInfo(0, false, 0, 0, []);
    }

    method RqDecCb(info: Decoder.DecodeInfo)
      requires Valid()
      modifies this
      ensures Valid() && fed == old(fed) + [info]
    {
      if has_cached && c.sbid != info.sbid {
        fp := fp + [ToLine(c)];
        has_cached := false;
      }
      c := info;
      has_cached := true;
      fed := fed + [info];
      assert fed[..|fed| - 1] == old(fed);
    }

    /** The destructor. */
    method Destroy()
      requires Valid()
      modifies this
      ensures fp == Printed(old(fed)) && !has_cached
    {
      if has_cached {
        fp := fp + [ToLine(c)];
        has_cached := false;
      }
    }
  }

  // --- what the report should say, in terms of the arrivals alone ---

  /** Sequence numbers the decoder's int can hold. */
  ghost predicate Small(cfg: Config, rs: seq<Header>) {
    forall j :: 0 <= j < |rs| ==> Decoder.Acceptable(cfg, rs[j]) && rs[j].seqno < TWO_31
  }

  /** The latest block heard of. */
  ghost function Current(cfg: Config, rs: seq<Header>): int
    requires cfg.Valid()
  {
    if rs == [] then -1 else Max(Current(cfg, rs[..|rs| - 1]), Blk(cfg, rs[|rs| - 1].seqno))
  }

  ghost function SourceArrivals(cfg: Config, rs: seq<Header>, b: int): nat
    requires cfg.Valid()
  {
    if rs == [] then 0
    else
      var h := rs[|rs| - 1];
      SourceArrivals(cfg, rs[..|rs| - 1], b)
      + if Blk(cfg, h.seqno) == b && Esi(cfg, h.seqno) < cfg.k then 1 else 0
  }

  ghost function Tally(cfg: Config, rs: seq<Header>, b: nat): Line
    requires cfg.Valid()
  {
    var n := Reception.Arrivals(cfg, rs, b);
    Line(b, n >= cfg.k, n, SourceArrivals(cfg, rs, b))
  }

  /** One line for each block left for a later one, counting its packets up to then. */
  ghost function BlocksLeft(cfg: Config, rs: seq<Header>): seq<Line>
    requires cfg.Valid()
  {
    if rs == [] then []
    else
      var p := rs[..|rs| - 1];
      var b := Current(cfg, p);
      if b >= 0 && Blk(cfg, rs[|rs| - 1].seqno) > b then BlocksLeft(cfg, p) + [Tally(cfg, p, b)]
      else BlocksLeft(cfg, p)
  }

  /** The arrivals up to and including the k-th of block b. */
  ghost function UpToDecode(cfg: Config, rs: seq<Header>, b: nat): seq<Header>
    requires cfg.Valid()
  {
    if rs == [] || Reception.Arrivals(cfg, rs[..|rs| - 1], b) < cfg.k then rs
    else UpToDecode(cfg, rs[..|rs| - 1], b)
  }

  ghost predicate Decoded(cfg: Config, rs: seq<Header>)
    requires cfg.Valid()
  {
    Current(cfg, rs) >= 0 && Reception.Arrivals(cfg, rs, Current(cfg, rs)) >= cfg.k
  }

  ghost function Expected(cfg: Config, rs: seq<Header>): Cache
    requires cfg.Valid()
  {
    if Decoded(cfg, rs) then
      Cache(BlocksLeft(cfg, rs), Some(Tally(cfg, UpToDecode(cfg, rs, Current(cfg, rs)), Current(cfg, rs))))
    else
      var l := BlocksLeft(cfg, rs);
      if l == [] then Cache([], None) else Cache(l[..|l| - 1], Some(l[|l| - 1]))
  }

  // --- the decoder's counters are the arrivals' ---

  lemma {:induction false} NoArrivalsAhead(cfg: Config, rs: seq<Header>, b: nat)
    requires cfg.Valid() && b > Current(cfg, rs)
    ensures Reception.Arrivals(cfg, rs, b) == 0 && SourceArrivals(cfg, rs, b) == 0
  {
    if rs != [] { NoArrivalsAhead(cfg, rs[..|rs| - 1], b); }
  }

  /** The decoder's block and counters, as a line. */
  ghost function Now(s: Decoder.State, k: int): Line {
    Line(s.sbid, s.nrcv >= k, s.nrcv, s.nsrcrcv)
  }

  /** What a packet does to the counters and to the trace. */
  lemma StepTrace(cfg: Config, s: Decoder.State, h: Header, b: int, esi: int)
    requires Decoder.Shaped(cfg, s) && Decoder.Acceptable(cfg, h)
    requires b == Decoder.BlockOf(cfg, h) && esi == Decoder.EsiOf(cfg, h)
    ensures var r := Decoder.Step(cfg, s, h);
            var left := if b > s.sbid >= 0 then [Decoder.Info(cfg, s)] else [];
            var n := if b > s.sbid then 1 else s.nrcv + 1;
            var m := (if b > s.sbid then 0 else s.nsrcrcv) + if esi < cfg.k then 1 else 0;
            if b < s.sbid then r == s
            else && r.sbid == b && r.nrcv == n && r.nsrcrcv == m
                 && r.infos == s.infos + left + if n == cfg.k then [Decoder.Info(cfg, r)] else []
  {
  }

  lemma {:induction false} CountersAreArrivals(cfg: Config, rs: seq<Header>)
    requires cfg.Valid() && Small(cfg, rs) && Decoder.AllAcceptable(cfg, rs)
    ensures var s := Decoder.Run(cfg, rs);
            && s.sbid == Current(cfg, rs)
            && (s.sbid >= 0 ==> Now(s, cfg.k) == Tally(cfg, rs, s.sbid))
            && (s.sbid < 0 ==> s.nrcv == 0 && rs == [])
  {
    if rs != [] {
      var p, h := rs[..|rs| - 1], rs[|rs| - 1];
      CountersAreArrivals(cfg, p);
      Decoder.SmallSeqno(cfg, h);
      StepTrace(cfg, Decoder.Run(cfg, p), h, Blk(cfg, h.seqno), Esi(cfg, h.seqno));
      if Blk(cfg, h.seqno) > Current(cfg, p) {
        NoArrivalsAhead(cfg, p, Blk(cfg, h.seqno));
      }
    }
  }

  // --- the report ---

  lemma {:induction false} LinesAreBehind(cfg: Config, rs: seq<Header>)
    requires cfg.Valid()
    ensures var l := BlocksLeft(cfg, rs);
            && (forall a :: 0 <= a < |l| ==> 0 <= l[a].sbid < Current(cfg, rs))
            && (forall a, c :: 0 <= a < c < |l| ==> l[a].sbid < l[c].sbid)
  {
    if rs != [] {
      var p := rs[..|rs| - 1];
      LinesAreBehind(cfg, p);
      var l := BlocksLeft(cfg, rs);
      forall a | 0 <= a < |BlocksLeft(cfg, p)|
        ensures l[a] == BlocksLeft(cfg, p)[a]
      {
      }
      assert |l| > |BlocksLeft(cfg, p)| ==> l[|l| - 1].sbid == Current(cfg, p);
    }
  }

  /** While the current block is undecoded, the cache holds the last line, of an earlier block. */
  lemma UndecodedCache(cfg: Config, rs: seq<Header>)
    requires cfg.Valid() && !Decoded(cfg, rs)
    ensures Flush(Expected(cfg, rs)) == BlocksLeft(cfg, rs)
    ensures var c := Expected(cfg, rs).cached; c.Some? ==> c.value.sbid < Current(cfg, rs)
  {
  }

  lemma FeedTwo(infos: seq<Decoder.DecodeInfo>, left: seq<Decoder.DecodeInfo>, done: seq<Decoder.DecodeInfo>)
    requires |left| <= 1 && |done| <= 1
    ensures var f := if left == [] then FeedAll(infos) else Feed(FeedAll(infos), ToLine(left[0]));
            FeedAll(infos + left + done) == if done == [] then f else Feed(f, ToLine(done[0]))
  {
    FeedOne(infos, left);
    FeedOne(infos + left, done);
  }

  lemma FeedOne(infos: seq<Decoder.DecodeInfo>, more: seq<Decoder.DecodeInfo>)
    requires |more| <= 1
    ensures FeedAll(infos + more) == if more == [] then FeedAll(infos) else Feed(FeedAll(infos), ToLine(more[0]))
  {
    if more == [] {
      assert infos + more == infos;
    } else {
      assert (infos + more)[..|infos|] == infos;
    }
  }

  /** The cache after each packet is the one expected from the arrivals. */
  lemma {:induction false} CacheIsExpected(cfg: Config, rs: seq<Header>)
    requires cfg.Valid() && Small(cfg, rs) && Decoder.AllAcceptable(cfg, rs)
    ensures FeedAll(Decoder.Run(cfg, rs).infos) == Expected(cfg, rs)
  {
    if rs != [] {
      var p, h := rs[..|rs| - 1], rs[|rs| - 1];
      var s, r, b := Decoder.Run(cfg, p), Decoder.Run(cfg, rs), Blk(cfg, h.seqno);
      CacheIsExpected(cfg, p);
      CountersAreArrivals(cfg, p);
      CountersAreArrivals(cfg, rs);
      Decoder.SmallSeqno(cfg, h);
      StepTrace(cfg, s, h, b, Esi(cfg, h.seqno));
      LinesAreBehind(cfg, p);
      if b >= s.sbid {
        FeedTwo(s.infos, if b > s.sbid >= 0 then [Decoder.Info(cfg, s)] else [],
                if r.nrcv == cfg.k then [Decoder.Info(cfg, r)] else []);
      }
      CacheStep(cfg, rs);
    }
  }

  /** The same step on the arrivals' side. */
  lemma CacheStep(cfg: Config, rs: seq<Header>)
    requires cfg.Valid() && rs != []
    ensures var p, b := rs[..|rs| - 1], Blk(cfg, rs[|rs| - 1].seqno);
            var c, e := Current(cfg, p), Expected(cfg, p);
            var f := if b > c >= 0 then Feed(e, Tally(cfg, p, c)) else e;
            Expected(cfg, rs)
            == if b >= c && Reception.Arrivals(cfg, rs, b) == cfg.k then Feed(f, Tally(cfg, rs, b)) else f
  {
    var p, b := rs[..|rs| - 1], Blk(cfg, rs[|rs| - 1].seqno);
    var c := Current(cfg, p);
    if !Decoded(cfg, p) {
      UndecodedCache(cfg, p);
    }
    if b > c {
      NoArrivalsAhead(cfg, p, b);
      LinesAreBehind(cfg, p);
      assert c >= 0 ==> (BlocksLeft(cfg, p) + [Tally(cfg, p, c)])[..|BlocksLeft(cfg, p)|] == BlocksLeft(cfg, p);
    }
  }

  /**
   * The report of any run, whatever the order of arrival: one line for each block left behind,
   * with its final counts, in increasing block order; then a line for the last block if and
   * only if it was decoded, as of its k-th packet.
   */
  lemma ReportIsComplete(cfg: Config, rs: seq<Header>)
    requires cfg.Valid() && Small(cfg, rs) && Decoder.AllAcceptable(cfg, rs)
    ensures var printed := Printed(Decoder.Run(cfg, rs).infos);
            && printed == BlocksLeft(cfg, rs)
                          + (if Decoded(cfg, rs) then
                               var b := Current(cfg, rs);
                               [Tally(cfg, UpToDecode(cfg, rs, b), b)]
                             else [])
            && (forall a, c :: 0 <= a < c < |printed| ==> printed[a].sbid < printed[c].sbid)
            && (Decoded(cfg, rs) ==> printed[|printed| - 1].sbid == Current(cfg, rs)
                                     && printed[|printed| - 1].n_rcv == cfg.k && printed[|printed| - 1].success)
  {
    CacheIsExpected(cfg, rs);
    LinesAreBehind(cfg, rs);
    if Decoded(cfg, rs) {
      DecodePoint(cfg, rs, Current(cfg, rs));
    } else {
      UndecodedCache(cfg, rs);
    }
  }

  lemma {:induction false} DecodePoint(cfg: Config, rs: seq<Header>, b: nat)
    requires cfg.Valid() && Reception.Arrivals(cfg, rs, b) >= cfg.k
    ensures Reception.Arrivals(cfg, UpToDecode(cfg, rs, b), b) == cfg.k
  {
    if Reception.Arrivals(cfg, rs[..|rs| - 1], b) >= cfg.k {
      DecodePoint(cfg, rs[..|rs| - 1], b);
    }
  }

  /** Every block that was once current and is no longer has its line. */
  lemma {:induction false} LeftBlocksAppear(cfg: Config, rs: seq<Header>, m: nat)
    requires cfg.Valid() && m <= |rs| && 0 <= Current(cfg, rs[..m]) < Current(cfg, rs)
    ensures exists a :: 0 <= a < |BlocksLeft(cfg, rs)| && BlocksLeft(cfg, rs)[a].sbid == Current(cfg, rs[..m])
    decreases |rs|
  {
    assert rs[..|rs|] == rs;
    var p := rs[..|rs| - 1];
    assert p[..m] == rs[..m];
    if Current(cfg, rs[..m]) < Current(cfg, p) {
      LeftBlocksAppear(cfg, p, m);
      var a :| 0 <= a < |BlocksLeft(cfg, p)| && BlocksLeft(cfg, p)[a].sbid == Current(cfg, rs[..m]);
      assert BlocksLeft(cfg, rs)[a] == BlocksLeft(cfg, p)[a];
    } else {
      CurrentGrows(cfg, p, m);
      assert BlocksLeft(cfg, rs)[|BlocksLeft(cfg, p)|].sbid == Current(cfg, p);
    }
  }

  lemma {:induction false} CurrentGrows(cfg: Config, rs: seq<Header>, m: nat)
    requires cfg.Valid() && m <= |rs|
    ensures Current(cfg, rs[..m]) <= Current(cfg, rs)
    decreases |rs|
  {
    if m == |rs| {
      assert rs[..m] == rs;
    } else {
      var p := rs[..|rs| - 1];
      assert p[..m] == rs[..m];
      CurrentGrows(cfg, p, m);
    }
  }
}

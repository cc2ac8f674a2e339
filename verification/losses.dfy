/** The packet-loss tracker of the receive callback (sim/app_rx_cb.cc) and the loss summary made from it. */
module Losses {
  import opened Words
  import Header
  import Heap

  /** A line of the loss trace. */
  datatype Event =
    | LostRange(lo: int, hi: int)
    | Dup(seqno: int)
    | LargeReorder(seqno: int, largest: int)
    | LargestProcessed(seqno: int)

  // --- specification: a window of at most n numbers, kept sorted ---

  /** `live` is the window, `pops` what left it, `maxima` those that were the largest so far. */
  datatype State = State(live: seq<int>, largest: int, events: seq<Event>, pops: seq<int>, maxima: seq<int>)

  const INIT := State([], -1, [], [], [])

  function Insert(s: seq<int>, v: int): (r: seq<int>)
    ensures |r| == |s| + 1
  {
    if s == [] || v <= s[0] then [v] + s else [s[0]] + Insert(s[1..], v)
  }

  /** The verdict on a number leaving the window. */
  function Verdict(v: int, largest: int): seq<Event> {
    if v < largest then [LargeReorder(v, largest)]
    else if v == largest then [Dup(v)]
    else if v > largest + 1 then [LostRange(largest + 1, v - 1)]
    else []
  }

  function Pop(s: State): State
    requires s.live != []
  {
    var v := s.live[0];
    State(s.live[1..], if v > s.largest then v else s.largest, s.events + Verdict(v, s.largest),
          s.pops + [v], if v > s.largest then s.maxima + [v] else s.maxima)
  }

  function Step(n: nat, s: State, v: int): State
    requires n >= 1
  {
    var t := if |s.live| == n then Pop(s) else s;
    t.(live := Insert(t.live, v))
  }

  function Run(n: nat, arrivals: seq<int>): State
    requires n >= 1
  {
    if arrivals == [] then INIT
    else Step(n, Run(n, arrivals[..|arrivals| - 1]), arrivals[|arrivals| - 1])
  }

  // --- counting ---

  /** How many numbers of s are larger than v. */
  ghost function Larger(s: seq<int>, v: int): nat {
    if s == [] then 0 else Larger(s[..|s| - 1], v) + if s[|s| - 1] > v then 1 else 0
  }

  lemma {:induction false} LargerConcat(s: seq<int>, t: seq<int>, v: int)
    ensures Larger(s + t, v) == Larger(s, v) + Larger(t, v)
  {
    if t == [] {
      assert s + t == s;
    } else {
      assert (s + t)[..|s + t| - 1] == s + t[..|t| - 1];
      LargerConcat(s, t[..|t| - 1], v);
    }
  }

  lemma {:induction false} LargerBound(s: seq<int>, v: int)
    ensures Larger(s, v) <= |s|
    ensures (forall j :: 0 <= j < |s| ==> s[j] > v) ==> Larger(s, v) == |s|
    ensures Larger(s, v) > 0 ==> exists j :: 0 <= j < |s| && s[j] > v
  {
    if s != [] {
      LargerBound(s[..|s| - 1], v);
    }
  }

  ghost predicate Sorted(s: seq<int>) {
    forall i, j :: 0 <= i < j < |s| ==> s[i] <= s[j]
  }

  lemma {:induction false} InsertContents(s: seq<int>, v: int)
    ensures multiset(Insert(s, v)) == multiset(s) + multiset{v}
  {
    if s != [] && v > s[0] {
      InsertContents(s[1..], v);
      assert s == [s[0]] + s[1..];
    }
  }

  lemma {:induction false} InsertSorted(s: seq<int>, v: int)
    requires Sorted(s)
    ensures Sorted(Insert(s, v))
  {
    if s != [] && v > s[0] {
      var r := Insert(s[1..], v);
      InsertSorted(s[1..], v);
      forall i | 0 <= i < |r| ensures s[0] <= r[i] {
        InsertMembers(s[1..], v, r[i]);
      }
    }
  }

  lemma {:induction false} InsertLarger(s: seq<int>, v: int, w: int)
    ensures Larger(Insert(s, v), w) == Larger(s, w) + if v > w then 1 else 0
  {
    if s == [] || v <= s[0] {
      LargerConcat([v], s, w);
      assert Larger([v], w) == if v > w then 1 else 0;
    } else {
      InsertLarger(s[1..], v, w);
      assert s == [s[0]] + s[1..];
      LargerConcat([s[0]], s[1..], w);
      LargerConcat([s[0]], Insert(s[1..], v), w);
    }
  }

  lemma InsertMembers(s: seq<int>, v: int, x: int)
    ensures x in Insert(s, v) <==> x in s || x == v
  {
  }

  // --- what every run keeps ---

  ghost predicate Lost(events: seq<Event>, x: int) {
    exists e :: 0 <= e < |events| && events[e].LostRange? && events[e].lo <= x <= events[e].hi
  }

  /** The window holds the numbers received and not yet popped, in order. */
  ghost predicate Contents(arrivals: seq<int>, s: State) {
    && Sorted(s.live)
    && |arrivals| == |s.pops| + |s.live|
    && multiset(arrivals) == multiset(s.pops) + multiset(s.live)
    && (forall j :: 0 <= j < |s.pops| ==> s.pops[j] <= s.largest)
    && (s.largest != -1 ==> s.largest in s.pops)
  }

  ghost predicate Window(n: nat, arrivals: seq<int>, s: State) {
    Contents(arrivals, s) && |s.live| == if |arrivals| < n then |arrivals| else n
  }

  lemma PopContents(arrivals: seq<int>, s: State)
    requires Contents(arrivals, s) && s.live != []
    ensures Contents(arrivals, Pop(s))
  {
    assert s.live == [s.live[0]] + s.live[1..];
    assert s.largest in s.pops ==> s.largest in Pop(s).pops;
    assert Pop(s).pops[|s.pops|] == s.live[0];
  }

  lemma InsertKeepsContents(arrivals: seq<int>, s: State, v: int)
    requires Contents(arrivals, s)
    ensures Contents(arrivals + [v], s.(live := Insert(s.live, v)))
  {
    InsertContents(s.live, v);
    InsertSorted(s.live, v);
  }

  lemma {:induction false} RunWindow(n: nat, arrivals: seq<int>)
    requires n >= 1
    ensures Window(n, arrivals, Run(n, arrivals))
  {
    if arrivals != [] {
      var p, v := arrivals[..|arrivals| - 1], arrivals[|arrivals| - 1];
      RunWindow(n, p);
      var s := Run(n, p);
      assert arrivals == p + [v];
      if |s.live| == n {
        PopContents(p, s);
        InsertKeepsContents(p, Pop(s), v);
      } else {
        InsertKeepsContents(p, s, v);
      }
    }
  }

  /** Of the arrivals larger than w, some were popped and the others are in the window. */
  lemma {:induction false} LargerSplits(n: nat, arrivals: seq<int>, w: int)
    requires n >= 1
    ensures var s := Run(n, arrivals); Larger(arrivals, w) == Larger(s.pops, w) + Larger(s.live, w)
  {
    if arrivals != [] {
      var p, v := arrivals[..|arrivals| - 1], arrivals[|arrivals| - 1];
      LargerSplits(n, p, w);
      RunWindow(n, p);
      var s := Run(n, p);
      if |s.live| == n {
        PopLarger(s, w);
        InsertLarger(s.live[1..], v, w);
      } else {
        InsertLarger(s.live, v, w);
      }
    }
  }

  lemma PopLarger(s: State, w: int)
    requires s.live != []
    ensures Larger(Pop(s).pops, w) + Larger(Pop(s).live, w) == Larger(s.pops, w) + Larger(s.live, w)
  {
    assert s.live == [s.live[0]] + s.live[1..];
    LargerConcat([s.live[0]], s.live[1..], w);
    LargerConcat(s.pops, [s.live[0]], w);
  }

  /** Lost ranges and new maxima split [0..largest]. */
  ghost predicate Partition(s: State) {
    && s.largest >= -1
    && (forall x :: 0 <= x <= s.largest <==> Lost(s.events, x) || x in s.maxima)
    && (forall x :: x in s.maxima ==> !Lost(s.events, x) && x in s.pops)
    && (forall i, j :: 0 <= i < j < |s.maxima| ==> s.maxima[i] < s.maxima[j])
    && (forall e :: 0 <= e < |s.events| && s.events[e].LostRange? ==> s.events[e].lo <= s.events[e].hi)
    && (forall e, f :: 0 <= e < f < |s.events| && s.events[e].LostRange? && s.events[f].LostRange? ==>
          s.events[e].hi < s.events[f].lo)
  }

  lemma LostAppend(events: seq<Event>, more: seq<Event>, x: int)
    requires |more| <= 1
    ensures Lost(events + more, x)
       <==> Lost(events, x) || (more != [] && more[0].LostRange? && more[0].lo <= x <= more[0].hi)
  {
    var all := events + more;
    if Lost(events, x) {
      var e :| 0 <= e < |events| && events[e].LostRange? && events[e].lo <= x <= events[e].hi;
      assert all[e] == events[e];
    }
    if more != [] {
      assert all[|events|] == more[0];
    }
  }

  lemma PopPartition(s: State)
    requires s.live != [] && Partition(s)
    ensures Partition(Pop(s))
  {
    var v, r := s.live[0], Pop(s);
    forall x: int
      ensures Lost(r.events, x) <==> Lost(s.events, x) || (v > s.largest + 1 && s.largest + 1 <= x <= v - 1)
    {
      LostAppend(s.events, Verdict(v, s.largest), x);
    }
    forall e | 0 <= e < |s.events| && s.events[e].LostRange?
      ensures s.events[e].hi <= s.largest
    {
      assert Lost(s.events, s.events[e].hi);
    }
    forall i | 0 <= i < |s.maxima|
      ensures s.maxima[i] <= s.largest
    {
      assert s.maxima[i] in s.maxima;
    }
    forall x | x in r.maxima
      ensures x in r.pops
    {
      assert x == v ==> r.pops[|s.pops|] == v;
    }
  }

  lemma {:induction false} RunPartition(n: nat, arrivals: seq<int>)
    requires n >= 1
    ensures Partition(Run(n, arrivals))
  {
    if arrivals != [] {
      var s := Run(n, arrivals[..|arrivals| - 1]);
      RunPartition(n, arrivals[..|arrivals| - 1]);
      if |s.live| == n {
        PopPartition(s);
      }
    }
  }

  /** What has been popped arrived before the last arrival. */
  lemma PoppedArrived(n: nat, arrivals: seq<int>)
    requires n >= 1 && arrivals != []
    ensures var p, r := arrivals[..|arrivals| - 1], Run(n, arrivals);
            && (forall x :: x in r.maxima ==> x in p)
            && (r.largest != -1 ==> r.largest in p)
  {
    var p, r := arrivals[..|arrivals| - 1], Run(n, arrivals);
    RunPartition(n, arrivals);
    RunWindow(n, arrivals);
    var s := Run(n, p);
    RunWindow(n, p);
    if |s.live| == n {
      PopContents(p, s);
    }
    forall x | x in r.pops
      ensures x in p
    {
      assert x in multiset(r.pops);
      assert x in multiset(p);
    }
  }

  // --- growth ---

  lemma {:induction false} Grows(n: nat, arrivals: seq<int>, k: nat)
    requires n >= 1 && k <= |arrivals|
    ensures var r, s := Run(n, arrivals[..k]), Run(n, arrivals);
            r.largest <= s.largest && r.events <= s.events && r.maxima <= s.maxima
    decreases |arrivals|
  {
    if k == |arrivals| {
      assert arrivals[..k] == arrivals;
    } else {
      var p := arrivals[..|arrivals| - 1];
      assert p[..k] == arrivals[..k];
      Grows(n, p, k);
    }
  }

  lemma {:induction false} LargerGrows(s: seq<int>, k: nat, v: int)
    requires k <= |s|
    ensures Larger(s[..k], v) <= Larger(s, v)
  {
    LargerConcat(s[..k], s[k..], v);
    assert s == s[..k] + s[k..];
  }

  // --- the reorder window ---

  /** If something larger than v has been popped, n larger numbers had arrived before the last arrival. */
  lemma {:induction false} PoppedMeansMany(n: nat, arrivals: seq<int>, v: int)
    requires n >= 1 && v >= -1 && Run(n, arrivals).largest > v
    ensures arrivals != [] && Larger(arrivals[..|arrivals| - 1], v) >= n
  {
    var p := arrivals[..|arrivals| - 1];
    var s := Run(n, p);
    RunWindow(n, p);
    if s.largest > v {
      PoppedMeansMany(n, p, v);
      LargerGrows(p, |p| - 1, v);
    } else {
      LargerSplits(n, p, v);
      AllLarger(s.live, v);
    }
  }

  lemma AllLarger(live: seq<int>, v: int)
    requires Sorted(live) && (live == [] || live[0] > v)
    ensures Larger(live, v) == |live|
  {
  }

  /** If n larger numbers arrived before v, one of them is popped when v arrives at the latest. */
  lemma ManyMeansPopped(n: nat, arrivals: seq<int>, v: int)
    requires n >= 1 && arrivals != [] && Larger(arrivals[..|arrivals| - 1], v) >= n
    ensures Run(n, arrivals).largest > v
  {
    var p := arrivals[..|arrivals| - 1];
    var s := Run(n, p);
    RunWindow(n, p);
    LargerSplits(n, p, v);
    LargerBound(p, v);
    OnePopped(p, s, v);
  }

  lemma OnePopped(p: seq<int>, s: State, v: int)
    requires Contents(p, s) && s.live != [] && Larger(s.pops, v) + Larger(s.live, v) >= |s.live|
    ensures Pop(s).largest > v
  {
    PopLarger(s, v);
    PopContents(p, s);
    LargerBound(Pop(s).live, v);
    LargerBound(Pop(s).pops, v);
  }

  /**
   * The window rule at arrival: when a number has just arrived, a larger one has left the
   * window if and only if at least n larger ones arrived before it.
   */
  lemma WindowAtArrival(n: nat, arrivals: seq<int>)
    requires n >= 1 && arrivals != [] && arrivals[|arrivals| - 1] >= -1
    ensures var v := arrivals[|arrivals| - 1];
            Run(n, arrivals).largest > v <==> Larger(arrivals[..|arrivals| - 1], v) >= n
  {
    var v := arrivals[|arrivals| - 1];
    if Run(n, arrivals).largest > v {
      PoppedMeansMany(n, arrivals, v);
    }
    if Larger(arrivals[..|arrivals| - 1], v) >= n {
      ManyMeansPopped(n, arrivals, v);
    }
  }

  /** Position k is where x arrives for the first time. */
  ghost predicate FirstAt(arrivals: seq<int>, k: nat, x: int) {
    k < |arrivals| && arrivals[k] == x && x !in arrivals[..k]
  }

  /** Waiting in the window below everything already passed, or already counted as received. */
  ghost predicate InTime(s: State, x: int) {
    (x in s.live && s.largest < x) || x in s.maxima
  }

  lemma WaitStep(n: nat, s: State, v: int, x: int)
    requires n >= 1 && Sorted(s.live) && InTime(s, x)
    ensures InTime(Step(n, s, v), x)
  {
    var t := if |s.live| == n then Pop(s) else s;
    InsertMembers(t.live, v, x);
    if |s.live| == n && x in s.live && x != s.live[0] {
      var j :| 0 <= j < |s.live| && s.live[j] == x;
      assert t.live[j - 1] == x;
    }
  }

  lemma ArrivesInTime(n: nat, p: seq<int>, x: int)
    requires n >= 1 && x >= 0 && x !in p && Larger(p, x) < n
    ensures InTime(Run(n, p + [x]), x)
  {
    var arrivals, s := p + [x], Run(n, p);
    assert arrivals[..|p|] == p;
    RunStep(n, p, x);
    WindowAtArrival(n, arrivals);
    PoppedArrived(n, arrivals);
    InsertMembers(if |s.live| == n then Pop(s).live else s.live, x, x);
  }

  /** A number that arrived in time waits in the window below all it lets pass, then is a new maximum. */
  lemma {:induction false} Waits(n: nat, arrivals: seq<int>, k: nat, x: int)
    requires n >= 1 && FirstAt(arrivals, k, x) && x >= 0 && Larger(arrivals[..k], x) < n
    ensures InTime(Run(n, arrivals), x)
    decreases |arrivals|
  {
    var p, v := arrivals[..|arrivals| - 1], arrivals[|arrivals| - 1];
    if k == |arrivals| - 1 {
      assert arrivals == p + [x];
      ArrivesInTime(n, p, x);
    } else {
      assert p[..k] == arrivals[..k];
      Waits(n, p, k, x);
      RunWindow(n, p);
      WaitStep(n, Run(n, p), v, x);
    }
  }

  /** A number that arrived too late was counted as lost before. */
  lemma TooLateIsLost(n: nat, arrivals: seq<int>, k: nat, x: int)
    requires n >= 1 && FirstAt(arrivals, k, x) && x >= 0 && Larger(arrivals[..k], x) >= n
    ensures Lost(Run(n, arrivals).events, x) && Run(n, arrivals[..k + 1]).largest > x
  {
    var q := arrivals[..k + 1];
    assert q[..k] == arrivals[..k];
    var r, s := Run(n, q), Run(n, arrivals);
    WindowAtArrival(n, q);
    RunPartition(n, q);
    PoppedArrived(n, q);
    assert Lost(r.events, x);
    Grows(n, arrivals, k + 1);
    var e :| 0 <= e < |r.events| && r.events[e].LostRange? && r.events[e].lo <= x <= r.events[e].hi;
    assert s.events[e] == r.events[e];
  }

  /**
   * The documented window rule, for every arrival sequence and every window n >= 1: of the
   * numbers up to the largest one processed, those reported lost are exactly the ones that
   * never arrived and the ones that arrived after at least n larger ones.
   */
  lemma LostIff(n: nat, arrivals: seq<int>, x: int)
    requires n >= 1 && 0 <= x <= Run(n, arrivals).largest
    ensures x !in arrivals ==> Lost(Run(n, arrivals).events, x)
    ensures forall k: nat :: FirstAt(arrivals, k, x) ==>
              (Lost(Run(n, arrivals).events, x) <==> Larger(arrivals[..k], x) >= n)
  {
    var s := Run(n, arrivals);
    RunPartition(n, arrivals);
    RunWindow(n, arrivals);
    if arrivals != [] {
      PoppedArrived(n, arrivals);
    }
    forall k: nat | FirstAt(arrivals, k, x)
      ensures Lost(s.events, x) <==> Larger(arrivals[..k], x) >= n
    {
      if Larger(arrivals[..k], x) >= n {
        TooLateIsLost(n, arrivals, k, x);
      } else {
        Waits(n, arrivals, k, x);
      }
    }
  }

  ghost predicate Distinct(s: seq<int>) {
    forall i, j :: 0 <= i < j < |s| ==> s[i] != s[j]
  }

  lemma {:induction false} DistinctOnce(s: seq<int>, x: int)
    requires Distinct(s)
    ensures multiset(s)[x] <= 1
  {
    if s != [] {
      var p := s[..|s| - 1];
      DistinctOnce(p, x);
      assert s == p + [s[|s| - 1]];
      if x in p {
        assert x != s[|s| - 1];
      }
    }
  }

  /** Without duplicates a number in the window has not been popped. */
  lemma LiveNotPopped(n: nat, arrivals: seq<int>, x: int)
    requires n >= 1 && Distinct(arrivals) && x in Run(n, arrivals).live
    ensures x !in Run(n, arrivals).maxima
  {
    var s := Run(n, arrivals);
    RunPartition(n, arrivals);
    RunWindow(n, arrivals);
    DistinctOnce(arrivals, x);
    assert multiset(s.live)[x] >= 1;
    assert multiset(s.pops)[x] == 0;
  }

  /**
   * The reorder window, exactly: without duplicates, the number popped when arrival t comes in
   * is reported as a large reorder if and only if at least n larger numbers arrived before it.
   */
  lemma LargeReorderIff(n: nat, arrivals: seq<int>, t: nat, k: nat)
    requires n >= 1 && Distinct(arrivals) && n <= t <= |arrivals| && k < t && arrivals[k] >= 0
    requires var s := Run(n, arrivals[..t]); |s.live| == n && s.live[0] == arrivals[k]
    ensures var s, v := Run(n, arrivals[..t]), arrivals[k];
            Verdict(v, s.largest) == [LargeReorder(v, s.largest)] <==> Larger(arrivals[..k], v) >= n
  {
    var a, x := arrivals[..t], arrivals[k];
    assert a[..k] == arrivals[..k] && FirstAt(a, k, x);
    if Larger(a[..k], x) >= n {
      TooLateIsLost(n, a, k, x);
      Grows(n, a, k + 1);
    } else {
      Waits(n, a, k, x);
      LiveNotPopped(n, a, x);
    }
  }

  // --- every report, counted ---

  ghost function Reorders(events: seq<Event>, x: int): nat {
    if events == [] then 0
    else
      var e := events[|events| - 1];
      Reorders(events[..|events| - 1], x) + if e.LargeReorder? && e.seqno == x then 1 else 0
  }

  ghost function Dups(events: seq<Event>, x: int): nat {
    if events == [] then 0
    else Dups(events[..|events| - 1], x) + if events[|events| - 1] == Dup(x) then 1 else 0
  }

  /** How many times x arrived after at least n larger numbers. */
  ghost function Late(n: nat, arrivals: seq<int>, x: int): nat {
    if arrivals == [] then 0
    else
      var p := arrivals[..|arrivals| - 1];
      Late(n, p, x) + if arrivals[|arrivals| - 1] == x && Larger(p, x) >= n then 1 else 0
  }

  /** What became of `count` arrivals of x, of which `late` came too late. */
  ghost predicate Accounted(s: State, x: int, count: int, late: int) {
    var d, r, m, l := Dups(s.events, x), Reorders(s.events, x), if x in s.maxima then 1 else 0, multiset(s.live)[x];
    && d + r + m + l == count
    && (s.largest == x || d > 0 ==> m == 1)
    && if s.largest > x then r + l == late else r == 0 == late
  }

  lemma PopReports(s: State, x: int)
    requires s.live != []
    ensures var v, r := s.live[0], Pop(s);
            && Dups(r.events, x) == Dups(s.events, x) + (if v == x == s.largest then 1 else 0)
            && Reorders(r.events, x) == Reorders(s.events, x) + if v == x < s.largest then 1 else 0
  {
    var w := Verdict(s.live[0], s.largest);
    if w == [] {
      assert s.events + w == s.events;
    } else {
      assert (s.events + w)[..|s.events|] == s.events;
    }
  }

  lemma PopLive(s: seq<int>, x: int)
    requires s != [] && Sorted(s)
    ensures multiset(s)[x] == multiset(s[1..])[x] + if s[0] == x then 1 else 0
    ensures s[0] > x ==> multiset(s)[x] == 0
  {
    assert s == [s[0]] + s[1..];
  }

  lemma PopAccounted(s: State, x: int, count: int, late: int)
    requires s.live != [] && Sorted(s.live) && x >= 0 && Accounted(s, x, count, late)
    requires forall m :: m in s.maxima ==> m <= s.largest
    ensures Accounted(Pop(s), x, count, late)
  {
    PopReports(s, x);
    PopLive(s.live, x);
  }

  lemma InsertAccounted(s: State, v: int, x: int, count: int, late: int)
    requires Accounted(s, x, count, late)
    ensures Accounted(s.(live := Insert(s.live, v)), x, count + (if v == x then 1 else 0),
                      late + if v == x && s.largest > x then 1 else 0)
  {
    InsertContents(s.live, v);
  }

  lemma StepAccounted(n: nat, s: State, v: int, x: int, count: int, late: int)
    requires n >= 1 && Sorted(s.live) && Partition(s) && x >= 0 && Accounted(s, x, count, late)
    ensures var r := Step(n, s, v);
            Accounted(r, x, count + (if v == x then 1 else 0), late + if v == x && r.largest > x then 1 else 0)
  {
    if |s.live| == n {
      PopAccounted(s, x, count, late);
      InsertAccounted(Pop(s), v, x, count, late);
    } else {
      InsertAccounted(s, v, x, count, late);
    }
  }

  lemma {:induction false} AllAccounted(n: nat, arrivals: seq<int>, x: int)
    requires n >= 1 && x >= 0
    ensures Accounted(Run(n, arrivals), x, multiset(arrivals)[x], Late(n, arrivals, x))
  {
    if arrivals != [] {
      var p, v := arrivals[..|arrivals| - 1], arrivals[|arrivals| - 1];
      AllAccounted(n, p, x);
      WindowSize(n, p);
      RunPartition(n, p);
      StepAccounted(n, Run(n, p), v, x, multiset(p)[x], Late(n, p, x));
      OneMoreArrival(n, arrivals, x);
    }
  }

  lemma OneMoreArrival(n: nat, arrivals: seq<int>, x: int)
    requires n >= 1 && x >= 0 && arrivals != []
    ensures var p, v := arrivals[..|arrivals| - 1], arrivals[|arrivals| - 1];
            && multiset(arrivals)[x] == multiset(p)[x] + (if v == x then 1 else 0)
            && Late(n, arrivals, x) == Late(n, p, x) + if v == x && Run(n, arrivals).largest > x then 1 else 0
  {
    var p, v := arrivals[..|arrivals| - 1], arrivals[|arrivals| - 1];
    if v == x {
      WindowAtArrival(n, arrivals);
    }
    assert arrivals == p + [v];
  }

  /** The reports on x and its copies still waiting, in terms of its early and late arrivals. */
  ghost predicate ReportsAre(n: nat, arrivals: seq<int>, x: int)
    requires n >= 1
  {
    var s := Run(n, arrivals);
    var waiting, late := multiset(s.live)[x], Late(n, arrivals, x);
    var early := multiset(arrivals)[x] - late;
    && Reorders(s.events, x) + (if x < s.largest then waiting else 0) == late
    && Dups(s.events, x) + (if x == s.largest then waiting else 0) == if early == 0 then 0 else early - 1
  }

  /**
   * Every report, exactly, for every arrival sequence: of a number below the largest processed,
   * each arrival after at least n larger ones is reported as a large reorder once it leaves the
   * window, and of the other arrivals each but the first as a duplicate. Of the largest itself
   * none came late.
   */
  lemma ReportsIff(n: nat, arrivals: seq<int>, x: int)
    requires n >= 1 && 0 <= x <= Run(n, arrivals).largest
    ensures ReportsAre(n, arrivals, x)
  {
    AllAccounted(n, arrivals, x);
  }

  /** Every large reorder names a larger number that was the largest processed. */
  ghost predicate NamesMaxima(s: State) {
    forall e :: 0 <= e < |s.events| && s.events[e].LargeReorder? ==>
      s.events[e].seqno < s.events[e].largest && s.events[e].largest in s.maxima
  }

  lemma PopNames(s: State)
    requires s.live != [] && s.live[0] >= 0 && NamesMaxima(s)
    requires s.largest >= 0 ==> s.largest in s.maxima
    ensures NamesMaxima(Pop(s))
  {
    var r := Pop(s);
    forall e | 0 <= e < |r.events| && r.events[e].LargeReorder?
      ensures r.events[e].seqno < r.events[e].largest && r.events[e].largest in r.maxima
    {
      if e < |s.events| {
        assert r.events[e] == s.events[e];
      }
    }
  }

  lemma {:induction false} ReordersNameMaxima(n: nat, arrivals: seq<int>)
    requires n >= 1 && forall j :: 0 <= j < |arrivals| ==> arrivals[j] >= 0
    ensures NamesMaxima(Run(n, arrivals))
  {
    if arrivals != [] {
      var p := arrivals[..|arrivals| - 1];
      var s := Run(n, p);
      ReordersNameMaxima(n, p);
      if |s.live| == n {
        LargestIsMaximum(n, p);
        LiveArrived(n, p, s.live[0]);
        PopNames(s);
      }
    }
  }

  lemma LiveArrived(n: nat, arrivals: seq<int>, x: int)
    requires n >= 1 && x in Run(n, arrivals).live
    ensures x in arrivals
  {
    RunWindow(n, arrivals);
    assert x in multiset(Run(n, arrivals).live);
    assert x in multiset(arrivals);
  }

  lemma LargestIsMaximum(n: nat, arrivals: seq<int>)
    requires n >= 1
    ensures var s := Run(n, arrivals); s.largest >= -1 && (s.largest >= 0 ==> s.largest in s.maxima)
  {
    RunPartition(n, arrivals);
    var s := Run(n, arrivals);
    if s.largest >= 0 {
      AllAccounted(n, arrivals, s.largest);
    }
  }

  // --- the summary ---

  datatype Summary = Summary(lossEvents: nat, lossPackets: int, dups: nat, reorders: nat)

  ghost function Tally(events: seq<Event>): Summary {
    if events == [] then Summary(0, 0, 0, 0)
    else
      var t, e := Tally(events[..|events| - 1]), events[|events| - 1];
      match e
      case LostRange(lo, hi) => t.(lossEvents := t.lossEvents + 1, lossPackets := t.lossPackets + (hi - lo + 1))
      case Dup(_) => t.(dups := t.dups + 1)
      case LargeReorder(_, _) => t.(reorders := t.reorders + 1)
      case LargestProcessed(_) => t
  }

  datatype Kind = Loss | Duplicate | Reordering | Final

  predicate IsOf(e: Event, kind: Kind) {
    match kind
    case Loss => e.LostRange?
    case Duplicate => e.Dup?
    case Reordering => e.LargeReorder?
    case Final => e.LargestProcessed?
  }

  /** The lines of a trace that are of one kind. */
  ghost function Lines(events: seq<Event>, kind: Kind): set<int> {
    set e | 0 <= e < |events| && IsOf(events[e], kind)
  }

  lemma LinesStep(events: seq<Event>, kind: Kind)
    requires events != []
    ensures var p, last := events[..|events| - 1], events[|events| - 1];
            |Lines(events, kind)| == |Lines(p, kind)| + if IsOf(last, kind) then 1 else 0
  {
    var k := |events| - 1;
    assert Lines(events, kind) == Lines(events[..k], kind) + if IsOf(events[k], kind) then {k} else {};
  }

  /** The totals are the numbers of lines of each kind. */
  lemma {:induction false} TallyCounts(events: seq<Event>)
    ensures var t := Tally(events);
            && t.lossEvents == |Lines(events, Loss)| && t.dups == |Lines(events, Duplicate)|
            && t.reorders == |Lines(events, Reordering)|
  {
    if events != [] {
      TallyCounts(events[..|events| - 1]);
      LinesStep(events, Loss);
      LinesStep(events, Duplicate);
      LinesStep(events, Reordering);
    }
  }

  /** The numbers in the final lines of a trace. */
  ghost function Finals(events: seq<Event>): seq<int> {
    if events == [] then []
    else
      var e := events[|events| - 1];
      Finals(events[..|events| - 1]) + if e.LargestProcessed? then [e.seqno] else []
  }

  /** A row of the database; no row for a trace without a final line; the script stops at a second one. */
  datatype Outcome = Inserted(t: Summary, largest: int) | Skipped | AssertionFailed

  ghost function SummaryOf(events: seq<Event>): Outcome {
    var f := Finals(events);
    if f == [] then Skipped else if |f| > 1 then AssertionFailed else Inserted(Tally(events), f[0])
  }

  lemma {:induction false} FinalsAreLines(events: seq<Event>)
    ensures |Finals(events)| == |Lines(events, Final)|
    ensures forall v :: v in Finals(events) ==> LargestProcessed(v) in events
  {
    if events != [] {
      FinalsAreLines(events[..|events| - 1]);
      LinesStep(events, Final);
    }
  }

  /** A trace makes a row if and only if it has exactly one final line, and the row carries that line's number. */
  lemma OutcomeIff(events: seq<Event>)
    ensures var o, n := SummaryOf(events), |Lines(events, Final)|;
            && (o.Skipped? <==> n == 0) && (o.Inserted? <==> n == 1) && (o.AssertionFailed? <==> n > 1)
            && (o.Inserted? ==> LargestProcessed(o.largest) in events)
  {
    FinalsAreLines(events);
  }

  /** The database script's totals over one trace. */
  method Summarize(events: seq<Event>) returns (r: Outcome)
    ensures r == SummaryOf(events)
  {
    var lossEvents, lossPackets, dups, reorders, finals := 0, 0, 0, 0, [];
    for i := 0 to |events|
      invariant lossEvents >= 0 && dups >= 0 && reorders >= 0
      invariant Tally(events[..i]) == Summary(lossEvents, lossPackets, dups, reorders)
      invariant finals == Finals(events[..i])
    {
      assert events[..i + 1][..i] == events[..i];
      match events[i]
      case LostRange(lo, hi) => lossEvents, lossPackets := lossEvents + 1, lossPackets + (hi - lo + 1);
      case Dup(_) => dups := dups + 1;
      case LargeReorder(_, _) => reorders := reorders + 1;
      case LargestProcessed(seqno) => finals := finals + [seqno];
    }
    assert events[..|events|] == events;
    if finals == [] {
      return Skipped;
    }
    if |finals| != 1 {
      return AssertionFailed;
    }
    r := Inserted(Summary(lossEvents, lossPackets, dups, reorders), finals[0]);
  }

  /**
   * Every packet is accounted for: lost packets and new maxima make up the numbers up to the
   * largest; maxima, duplicates, large reorders and the window make up the arrivals.
   */
  lemma {:induction false} SummaryAddsUp(n: nat, arrivals: seq<int>)
    requires n >= 1
    ensures var s := Run(n, arrivals);
            var t := Tally(s.events);
            && t.lossPackets + |s.maxima| == s.largest + 1
            && |s.maxima| + t.dups + t.reorders + |s.live| == |arrivals|
  {
    if arrivals != [] {
      var p := arrivals[..|arrivals| - 1];
      SummaryAddsUp(n, p);
      var s := Run(n, p);
      if |s.live| == n {
        var w := Verdict(s.live[0], s.largest);
        if w == [] {
          assert s.events + w == s.events;
        } else {
          assert (s.events + w)[..|s.events|] == s.events;
        }
      }
    }
  }

  lemma {:induction false} NoFinals(n: nat, arrivals: seq<int>)
    requires n >= 1
    ensures Finals(Run(n, arrivals).events) == []
  {
    if arrivals != [] {
      var s := Run(n, arrivals[..|arrivals| - 1]);
      NoFinals(n, arrivals[..|arrivals| - 1]);
      var w := if |s.live| == n then Verdict(s.live[0], s.largest) else [];
      if w == [] {
        assert s.events + w == s.events;
      } else {
        assert (s.events + w)[..|s.events|] == s.events;
      }
    }
  }

  /** Once the window has overflowed, something was processed. */
  lemma Processed(n: nat, arrivals: seq<int>)
    requires n >= 1 && forall j :: 0 <= j < |arrivals| ==> arrivals[j] >= 0
    ensures Run(n, arrivals).largest > -1 <==> |arrivals| > n
  {
    var s := Run(n, arrivals);
    RunWindow(n, arrivals);
    if |arrivals| > n {
      assert s.pops[0] in multiset(arrivals);
    }
  }

  /** The trace as the tracker leaves it behind. */
  function Closed(s: State): seq<Event> {
    s.events + if s.largest > -1 then [LargestProcessed(s.largest)] else []
  }

  /**
   * From the packets to the database: a stream gets a row exactly if more packets arrived than
   * the window holds, and its row accounts for every one of them. Of the numbers up to the
   * largest, those not lost arrived in time; the other arrivals are duplicates, large reorders
   * and the n numbers still in the window.
   */
  lemma DatabaseAddsUp(n: nat, arrivals: seq<int>)
    requires n >= 1 && forall j :: 0 <= j < |arrivals| ==> arrivals[j] >= 0
    ensures var o, s := SummaryOf(Closed(Run(n, arrivals))), Run(n, arrivals);
            if |arrivals| <= n then o == Skipped
            else && o.Inserted? && o.largest == s.largest
                 && o.t.lossPackets + |s.maxima| == o.largest + 1
                 && |arrivals| == (o.largest + 1 - o.t.lossPackets) + o.t.dups + o.t.reorders + n
  {
    var s := Run(n, arrivals);
    NoFinals(n, arrivals);
    Processed(n, arrivals);
    SummaryAddsUp(n, arrivals);
    RunWindow(n, arrivals);
    if s.largest > -1 {
      assert Closed(s)[..|s.events|] == s.events;
    } else {
      assert Closed(s) == s.events;
    }
  }

  lemma InsertZero(s: seq<int>)
    requires forall j :: 0 <= j < |s| ==> s[j] == 0
    ensures forall j :: 0 <= j < |Insert(s, 0)| ==> Insert(s, 0)[j] == 0
  {
    forall j | 0 <= j < |Insert(s, 0)|
      ensures Insert(s, 0)[j] == 0
    {
      InsertMembers(s, 0, Insert(s, 0)[j]);
    }
  }

  lemma {:induction false} ZeroWindow(n: nat, arrivals: seq<int>)
    requires n >= 1 && forall j :: 0 <= j < |arrivals| ==> arrivals[j] == 0
    ensures var s := Run(n, arrivals);
            && (forall j :: 0 <= j < |s.live| ==> s.live[j] == 0)
            && s.largest == (if |arrivals| <= n then -1 else 0)
            && |s.live| == (if |arrivals| < n then |arrivals| else n)
  {
    if arrivals != [] {
      var p := arrivals[..|arrivals| - 1];
      ZeroWindow(n, p);
      var s := Run(n, p);
      InsertZero(if |s.live| == n then s.live[1..] else s.live);
    }
  }

  /**
   * A stream whose packets all carry number 0, as the on/off source sends them, shows no losses:
   * every packet popped after the first is a duplicate.
   */
  lemma {:induction false} UnnumberedStream(n: nat, arrivals: seq<int>)
    requires n >= 1 && forall j :: 0 <= j < |arrivals| ==> arrivals[j] == 0
    ensures var s := Run(n, arrivals);
            && (forall j :: 0 <= j < |s.live| ==> s.live[j] == 0)
            && s.largest == (if |arrivals| <= n then -1 else 0)
            && Tally(s.events) == Summary(0, 0, if |arrivals| <= n then 0 else |arrivals| - n - 1, 0)
  {
    ZeroWindow(n, arrivals);
    if arrivals != [] {
      var p := arrivals[..|arrivals| - 1];
      UnnumberedStream(n, p);
      ZeroWindow(n, p);
      var s := Run(n, p);
      if |s.live| == n && s.largest == 0 {
        assert (s.events + [Dup(0)])[..|s.events|] == s.events;
      } else {
        assert s.events + [] == s.events;
      }
    }
  }

  // --- the tracker object ---

  lemma {:induction false} WindowSize(n: nat, arrivals: seq<int>)
    requires n >= 1
    ensures Sorted(Run(n, arrivals).live) && |Run(n, arrivals).live| <= n
  {
    RunWindow(n, arrivals);
  }

  /** b holds the negated members of a. */
  ghost predicate Opposite(a: multiset<int>, b: multiset<int>) {
    forall x :: a[x] == b[-x]
  }

  lemma OppositeWith(a: multiset<int>, b: multiset<int>, v: int)
    ensures Opposite(a, b) <==> Opposite(a + multiset{v}, b + multiset{-v})
  {
    var c, d := a + multiset{v}, b + multiset{-v};
    forall x ensures a[x] == b[-x] <==> c[x] == d[-x] {
      assert c[x] == a[x] + if x == v then 1 else 0;
    }
  }

  /** A heap of the negated numbers of a window. */
  ghost predicate HeapOf(heap: seq<int>, live: seq<int>) {
    Heap.IsHeap(heap) && |heap| == |live| && Opposite(multiset(live), multiset(heap))
  }

  lemma OppositeEqual(a: multiset<int>, b: multiset<int>, c: multiset<int>, d: multiset<int>)
    requires Opposite(a, b) && c == a && d == b
    ensures Opposite(c, d)
  {
  }

  lemma HeapInsert(heap: seq<int>, live: seq<int>, key: int, next: seq<int>)
    requires HeapOf(heap, live) && Heap.IsHeap(next) && |next| == |heap| + 1
    requires multiset(next) == multiset(heap) + multiset{key}
    ensures HeapOf(next, Insert(live, -key))
  {
    var v := -key;
    InsertContents(live, v);
    OppositeWith(multiset(live), multiset(heap), v);
    OppositeEqual(multiset(live) + multiset{v}, multiset(heap) + multiset{-v},
                  multiset(Insert(live, v)), multiset(next));
  }

  /** The largest key of the heap is the negated smallest number of the window. */
  lemma HeapTop(heap: seq<int>, live: seq<int>)
    requires HeapOf(heap, live) && heap != [] && Sorted(live)
    ensures heap[0] == -live[0]
  {
    var a, b := multiset(live), multiset(heap);
    assert live[0] in a && heap[0] in b;
    assert a[-heap[0]] == b[heap[0]] && a[live[0]] == b[-live[0]];
    var k :| 0 <= k < |heap| && heap[k] == -live[0];
    Heap.RootIsMax(heap, k);
  }

  lemma HeapPop(heap: seq<int>, live: seq<int>, next: seq<int>)
    requires HeapOf(heap, live) && heap != [] && Sorted(live) && Heap.IsHeap(next) && |next| == |heap| - 1
    requires multiset(next) == multiset(heap) - multiset{heap[0]}
    ensures HeapOf(next, live[1..])
  {
    HeapTop(heap, live);
    var v, r := live[0], live[1..];
    assert live == [v] + r;
    OppositeEqual(multiset(live), multiset(heap), multiset(r) + multiset{v}, multiset(next) + multiset{-v});
    OppositeWith(multiset(r), multiset(next), v);
  }

  lemma LastGone(s: seq<int>, m: nat)
    requires m < |s|
    ensures multiset(s[..m]) == multiset(s[..m + 1]) - multiset{s[m]}
  {
    Heap.LastApart(s, m);
  }

  /** A sequence number as the tracker sees it: negated as a 64-bit word and back. */
  function Number(seqno: UInt64): int {
    -(ToInt64(-(seqno as int)) as int)
  }

  lemma NumberIsSeqno(seqno: UInt64)
    ensures Number(seqno) == seqno <==> seqno <= TWO_63
  {
  }

  lemma RunStep(n: nat, arrivals: seq<int>, v: int)
    requires n >= 1
    ensures Run(n, arrivals + [v]) == Step(n, Run(n, arrivals), v)
  {
  }

  lemma NextState(n: nat, arrivals: seq<int>, s: State, v: int) returns (t: State)
    requires n >= 1 && s == Run(n, arrivals)
    ensures t == Step(n, s, v) && t == Run(n, arrivals + [v])
  {
    RunStep(n, arrivals, v);
    t := Step(n, s, v);
  }

  /** The number, if any, that a packet adds to the arrivals. */
  function Counting(packet: Header.Bytes): seq<int> {
    if |packet| >= Header.MIN_SIZE && Header.Parse(packet).Good? then [Number(Header.Parse(packet).h.seqno)] else []
  }

  /** Whatever does not begin with the header's magic number does not count. */
  lemma CountsOnlyPackets(packet: Header.Bytes)
    ensures |packet| < 20 || Header.BigEndian(packet[..4]) != Header.MAGIC ==> Counting(packet) == []
    ensures |Counting(packet)| <= 1
  {
  }

  class AppRxCb {
    const n_pl_heap_max_sz: nat
    var n_pl_heap_size: nat
    const pl_heap: array<int>
    var pl_largest_popped: int
    var pl_fp: Option<seq<Event>>   // the trace, if one is kept
    ghost var arrivals: seq<int>
    ghost var state: State

    ghost predicate Valid()
      reads this, pl_heap
    {
      && n_pl_heap_max_sz >= 1 && pl_heap.Length == n_pl_heap_max_sz
      && state == Run(n_pl_heap_max_sz, arrivals)
      && if pl_fp.Some? then Mirrors(state)
         else arrivals == [] && n_pl_heap_size == 0 && pl_largest_popped == -1
    }

    constructor (trace: bool, pl_window_size: nat)
      requires pl_window_size >= 1
      ensures Valid() && fresh(pl_heap) && arrivals == [] && n_pl_heap_max_sz == pl_window_size
      ensures pl_fp.Some? <==> trace
    {
      n_pl_heap_max_sz, n_pl_heap_size, pl_largest_popped := pl_window_size, 0, -1;
      pl_heap := new int[pl_window_size];
      pl_fp := if trace then Some([]) else None;
      arrivals, state := [], INIT;
    }

    /**
     * Note a received packet; only packets with a valid header count. A header cut short stops
     * the simulator.
     */
    method LogAndUpdateLosses(packet: Header.Bytes) returns (stopped: bool)
      requires Valid()
      requires Header.Parse(packet).Good? ==> Header.Parse(packet).h.seqno != TWO_63
      modifies this, pl_heap
      ensures Valid() && pl_fp.Some? == old(pl_fp.Some?)
      ensures stopped <==> old(pl_fp.Some?) && |packet| >= Header.MIN_SIZE && Header.Parse(packet).PastEnd?
      ensures arrivals == old(arrivals) + if old(pl_fp.Some?) then Counting(packet) else []
    {
      if pl_fp.None? || |packet| < Header.MIN_SIZE {
        return false;
      }
      var p := Header.Parse(packet);
      if !p.Good? {
        return p.PastEnd?;
      }
      UpdateLosses(ToInt64(-(p.h.seqno as int)));
      stopped := false;
    }

    method UpdateLosses(key: int)
      requires Valid() && pl_fp.Some?
      modifies this, pl_heap
      ensures Valid() && pl_fp.Some? && arrivals == old(arrivals) + [-key]
    {
      WindowSize(n_pl_heap_max_sz, arrivals);
      ghost var next := NextState(n_pl_heap_max_sz, arrivals, state, -key);
      PopAndPush(key, state, next);
      ghost var keys := pl_heap[..n_pl_heap_size];
      arrivals, state := arrivals + [-key], next;
      assert pl_heap[..n_pl_heap_size] == keys;
    }

    /** Pop if the window is full, then push the new key. */
    method PopAndPush(key: int, ghost s: State, ghost next: State)
      requires n_pl_heap_max_sz == pl_heap.Length >= 1
      requires Mirrors(s) && Sorted(s.live) && next == Step(n_pl_heap_max_sz, s, -key)
      modifies `n_pl_heap_size, `pl_largest_popped, `pl_fp, pl_heap
      ensures Mirrors(next)
    {
      if n_pl_heap_size == n_pl_heap_max_sz {
        PopOne(s);
        PushOne(key, Pop(s).live);
      } else {
        PushOne(key, s.live);
      }
    }

    /** The array holds exactly the window `live`. */
    ghost predicate Holds(live: seq<int>)
      reads `n_pl_heap_size, pl_heap
    {
      n_pl_heap_size <= pl_heap.Length && HeapOf(pl_heap[..n_pl_heap_size], live)
    }

    /** The fields hold exactly the state s. */
    ghost predicate Mirrors(s: State)
      reads `n_pl_heap_size, `pl_largest_popped, `pl_fp, pl_heap
    {
      Holds(s.live) && pl_largest_popped == s.largest && pl_fp == Some(s.events)
    }

    /** Pop the smallest number of the window and report on it. */
    method PopOne(ghost s: State)
      requires Mirrors(s) && Sorted(s.live) && s.live != []
      modifies `n_pl_heap_size, `pl_largest_popped, `pl_fp, pl_heap
      ensures Mirrors(Pop(s))
    {
      var v := TakeSmallest(s.live);
      Report(v);
      if v > pl_largest_popped {
        pl_largest_popped := v;
      }
    }

    /** The checks for reordering, duplicates and losses. */
    method Report(v: int)
      requires pl_fp.Some?
      modifies `pl_fp
      ensures pl_fp == Some(old(pl_fp).value + Verdict(v, pl_largest_popped))
    {
      if v < pl_largest_popped {
        pl_fp := Some(pl_fp.value + [LargeReorder(v, pl_largest_popped)]);
      } else if v == pl_largest_popped {
        pl_fp := Some(pl_fp.value + [Dup(v)]);
      } else if v > pl_largest_popped + 1 {
        pl_fp := Some(pl_fp.value + [LostRange(pl_largest_popped + 1, v - 1)]);
      } else {
        assert pl_fp.value + [] == pl_fp.value;
      }
    }

    method TakeSmallest(ghost live: seq<int>) returns (v: int)
      requires Holds(live) && Sorted(live) && live != []
      modifies `n_pl_heap_size, pl_heap
      ensures v == live[0] && Holds(live[1..])
    {
      ghost var before := pl_heap[..n_pl_heap_size];
      HeapTop(before, live);
      Heap.PopHeap(pl_heap, n_pl_heap_size);
      n_pl_heap_size := n_pl_heap_size - 1;
      v := -pl_heap[n_pl_heap_size];
      LastGone(pl_heap[..], n_pl_heap_size);
      HeapPop(before, live, pl_heap[..n_pl_heap_size]);
    }

    method PushOne(key: int, ghost live: seq<int>)
      requires Holds(live) && n_pl_heap_size < pl_heap.Length
      modifies `n_pl_heap_size, pl_heap
      ensures Holds(Insert(live, -key))
    {
      ghost var before := pl_heap[..n_pl_heap_size];
      AppendKey(key);
      Heap.PushHeap(pl_heap, n_pl_heap_size);
      HeapInsert(before, live, key, pl_heap[..n_pl_heap_size]);
    }

    method AppendKey(key: int)
      requires n_pl_heap_size < pl_heap.Length
      modifies `n_pl_heap_size, pl_heap
      ensures n_pl_heap_size == old(n_pl_heap_size) + 1
      ensures pl_heap[..n_pl_heap_size - 1] == old(pl_heap[..n_pl_heap_size])
      ensures multiset(pl_heap[..n_pl_heap_size]) == multiset(old(pl_heap[..n_pl_heap_size])) + multiset{key}
    {
      pl_heap[n_pl_heap_size] := key;
      n_pl_heap_size := n_pl_heap_size + 1;
      Heap.LastApart(pl_heap[..], n_pl_heap_size - 1);
    }

    /** The destructor closes the trace with the largest number processed. */
    method Destroy()
      requires Valid()
      modifies this
      ensures pl_fp == if old(pl_fp).Some? then Some(Closed(Run(n_pl_heap_max_sz, old(arrivals)))) else None
    {
      if pl_fp.Some? && pl_largest_popped > -1 {
        pl_fp := Some(pl_fp.value + [LargestProcessed(pl_largest_popped)]);
      } else if pl_fp.Some? {
        assert pl_fp.value + [] == pl_fp.value;
      }
    }
  }
}

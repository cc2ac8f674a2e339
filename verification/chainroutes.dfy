/** Routing of the basic chain: scripts/chainsim/sim_configs/basic/conf.in/routing.txt.php. */
module BasicChain {
  import opened Words
  import opened Routing
  import opened Chain

  /** The rows of mesh node i in a chain of n, as a set. */
  predicate MeshRow(n: int, i: int, r: Row) {
    match r.target
    case Any =>
      r == if i > 1 then Row(Any, Addr(2, i), Some(Addr(2, i - 1))) else Row(Any, Addr(1, 2), Some(Addr(1, 1)))
    case Net(_) => false
    case Host(a) =>
      || ((a.net == 2 || a.net == 3) && 1 <= a.host < i && r.iface == Addr(2, i) && r.gateway == Some(Addr(2, i - 1)))
      || ((a.net == 2 || a.net == 3) && i < a.host <= n && r.iface == Addr(2, i) && r.gateway == Some(Addr(2, i + 1)))
      || (BeyondChain(a) && i < n && r.iface == Addr(2, i) && r.gateway == Some(Addr(2, i + 1)))
      || (BeyondChain(a) && i == n && r.iface == Addr(3, i)
          && r.gateway == if a.net == 3 then None else Some(Addr(3, 101)))
  }

  /** The addresses of the station and of the host wired to it. */
  predicate BeyondChain(a: Addr) {
    a == Addr(3, 101) || a == Addr(4, 101) || a == Addr(4, 1)
  }

  /** The loop body for mesh node i. */
  method MeshTable(n: nat, i: nat) returns (rows: seq<Row>)
    requires 1 <= i <= n
    ensures forall r :: r in rows <==> MeshRow(n, i, r)
  {
    var self := Addr(2, i);
    rows := [];
    if i > 1 {
      rows := rows + [Row(Any, self, Some(Addr(2, i - 1)))];
    } else {
      rows := rows + [Row(Any, Addr(1, 2), Some(Addr(1, 1)))];
    }
    var nexthop := Addr(2, i - 1);
    for j := 1 to i
      invariant forall r :: r in rows <==> MeshRow(n, i, r) && (r.target.Any? || Behind(i, r, j))
    {
      rows := rows + [Row(Host(Addr(2, j)), self, Some(nexthop)), Row(Host(Addr(3, j)), self, Some(nexthop))];
    }
    if i < n {
      nexthop := Addr(2, i + 1);
      for j := i + 1 to n + 1
        invariant forall r :: r in rows <==> MeshRow(n, i, r) && (r.target.Any? || Behind(i, r, i) || Ahead(i, r, j))
      {
        rows := rows + [Row(Host(Addr(2, j)), self, Some(nexthop)), Row(Host(Addr(3, j)), self, Some(nexthop))];
      }
      rows := rows + [Row(Host(Addr(3, 101)), self, Some(nexthop)), Row(Host(Addr(4, 101)), self, Some(nexthop)),
                      Row(Host(Addr(4, 1)), self, Some(nexthop))];
    } else {
      var iface := Addr(3, i);
      nexthop := Addr(3, 101);
      rows := rows + [Row(Host(Addr(3, 101)), iface, None), Row(Host(Addr(4, 101)), iface, Some(nexthop)),
                      Row(Host(Addr(4, 1)), iface, Some(nexthop))];
    }
  }

  /** A route of node i to a mesh node before j and nearer to the backhaul. */
  predicate Behind(i: int, r: Row, j: int) {
    && r.target.Host? && (r.target.addr.net == 2 || r.target.addr.net == 3) && r.target.addr.host < j
    && r.gateway == Some(Addr(2, i - 1))
  }

  /** A route of node i to a mesh node before j and further away. */
  predicate Ahead(i: int, r: Row, j: int) {
    && r.target.Host? && (r.target.addr.net == 2 || r.target.addr.net == 3) && i < r.target.addr.host < j
    && r.gateway == Some(Addr(2, i + 1))
  }

  /** The whole file, for a chain of n. */
  ghost predicate Generated(n: nat, t: Tables) {
    && TableOf(t, Backhaul) == [Row(Any, Addr(1, 1), Some(Addr(1, 2)))]
    && TableOf(t, Sta(1)) == [Row(Any, Addr(3, 101), Some(Addr(3, n))), Row(Host(Addr(4, 1)), Addr(4, 101), None)]
    && TableOf(t, Wired(1)) == [Row(Any, Addr(4, 1), Some(Addr(4, 101)))]
    && forall i :: 1 <= i <= n ==> IsMeshTable(n, i, TableOf(t, Mesh(i)))
  }

  ghost predicate IsMeshTable(n: nat, i: int, rows: seq<Row>) {
    forall r :: r in rows <==> MeshRow(n, i, r)
  }

  method Generate(n: nat) returns (t: Tables)
    ensures Generated(n, t)
  {
    t := map[Addr(1, 1) := [Row(Any, Addr(1, 1), Some(Addr(1, 2)))],
             Addr(3, 101) := [Row(Any, Addr(3, 101), Some(Addr(3, n))), Row(Host(Addr(4, 1)), Addr(4, 101), None)],
             Addr(4, 1) := [Row(Any, Addr(4, 1), Some(Addr(4, 101)))]];
    ghost var fixed := t;
    for i := 1 to n + 1
      invariant forall a :: a in fixed ==> a in t && t[a] == fixed[a]
      invariant forall j :: 1 <= j < i ==> IsMeshTable(n, j, TableOf(t, Mesh(j)))
    {
      var rows := MeshTable(n, i);
      t := t[Addr(2, i) := rows];
    }
  }

  /** The best route of mesh node i for an address of node v. */
  function BestRow(n: nat, i: int, v: Node, dst: Addr): Row {
    if v.Backhaul? || dst.net == 1 then
      if i > 1 then Row(Any, Addr(2, i), Some(Addr(2, i - 1))) else Row(Any, Addr(1, 2), Some(Addr(1, 1)))
    else if v.Mesh? && v.i < i then Row(Host(dst), Addr(2, i), Some(Addr(2, i - 1)))
    else if i < n then Row(Host(dst), Addr(2, i), Some(Addr(2, i + 1)))
    else Row(Host(dst), Addr(3, i), if dst.net == 3 then None else Some(Addr(3, 101)))
  }

  lemma MeshHop(n: nat, w: Who, t: Tables, i: int, v: Node, dst: Addr)
    requires 1 <= n <= 100 && Generated(n, t) && 1 <= i <= n && v != Mesh(i) && Owns(Topo(n, 1, w), v, dst)
    ensures NextHop(Topo(n, 1, w), t, Mesh(i), dst) == Some(Toward(n, Mesh(i), v))
  {
    var row := BestRow(n, i, v, dst);
    assert IsMeshTable(n, i, TableOf(t, Mesh(i)));
    assert MeshRow(n, i, row);
    PlanIff(n, 1, w);
    UniqueIff(Topo(n, 1, w));
    forall r | r in TableOf(t, Mesh(i)) && Matches(r.target, dst)
      ensures r == row || Len(r.target) < Len(row.target)
    {
      assert MeshRow(n, i, r);
    }
    HopIs(Topo(n, 1, w), t, Mesh(i), dst, row, Toward(n, Mesh(i), v));
  }

  lemma EdgeHop(n: nat, w: Who, t: Tables, u: Node, v: Node, dst: Addr)
    requires 1 <= n <= 100 && Generated(n, t) && !u.Mesh? && Exists(Topo(n, 1, w), u)
    requires u != v && Owns(Topo(n, 1, w), v, dst)
    ensures NextHop(Topo(n, 1, w), t, u, dst) == Some(Toward(n, u, v))
  {
    PlanIff(n, 1, w);
    UniqueIff(Topo(n, 1, w));
    var row := if u == Sta(1) && dst == Addr(4, 1) then Row(Host(dst), Addr(4, 101), None) else TableOf(t, u)[0];
    HopIs(Topo(n, 1, w), t, u, dst, row, Toward(n, u, v));
  }

  /**
   * For every chain length the address plan allows, every node reaches every address in as many
   * hops as there are links between it and the address's owner.
   */
  lemma AllPairs(n: nat, w: Who, t: Tables, u: Node, v: Node, dst: Addr)
    requires 1 <= n <= 100 && Generated(n, t)
    requires Exists(Topo(n, 1, w), u) && Owns(Topo(n, 1, w), v, dst)
    ensures Dist(n, u, v) >= 0 && Delivers(Topo(n, 1, w), t, u, dst, Dist(n, u, v))
  {
    PlanIff(n, 1, w);
    UniqueIff(Topo(n, 1, w));
    forall x | Exists(Topo(n, 1, w), x) && x != v
      ensures NextHop(Topo(n, 1, w), t, x, dst) == Some(Toward(n, x, v))
    {
      if x.Mesh? {
        MeshHop(n, w, t, x.i, v, dst);
      } else {
        EdgeHop(n, w, t, x, v, dst);
      }
    }
    RoutedDelivers(n, 1, w, t, u, v, dst);
  }

  /** Backhaul to wired host and back take n + 2 hops. */
  lemma EndToEnd(n: nat, w: Who, t: Tables)
    requires 1 <= n <= 100 && Generated(n, t)
    ensures Delivers(Topo(n, 1, w), t, Backhaul, Addr(4, 1), n + 2)
    ensures Delivers(Topo(n, 1, w), t, Wired(1), Addr(1, 1), n + 2)
  {
    AllPairs(n, w, t, Backhaul, Wired(1), Addr(4, 1));
    AllPairs(n, w, t, Wired(1), Backhaul, Addr(1, 1));
  }

  /** Does the station answer for its address? */
  predicate StationAnswers(n: nat, w: Who) {
    n <= 100 || Addr(3, 101) in w
  }

  /** Packets for the wired host go out along the chain, then to whoever answers for the station's address. */
  lemma HostHop(n: nat, w: Who, t: Tables, i: int)
    requires Generated(n, t) && 1 <= i <= n
    ensures NextHop(Topo(n, 1, w), t, Mesh(i), Addr(4, 1))
         == Some(if i < n then Mesh(i + 1) else if StationAnswers(n, w) then Sta(1) else Mesh(101))
  {
    var dst := Addr(4, 1);
    var row := if i < n then Row(Host(dst), Addr(2, i), Some(Addr(2, i + 1)))
               else Row(Host(dst), Addr(3, n), Some(Addr(3, 101)));
    assert IsMeshTable(n, i, TableOf(t, Mesh(i)));
    assert MeshRow(n, i, row);
    forall r | r in TableOf(t, Mesh(i)) && Matches(r.target, dst)
      ensures r == row || Len(r.target) < Len(row.target)
    {
      assert MeshRow(n, i, r);
    }
    HopTo(Topo(n, 1, w), t, Mesh(i), dst, row,
          if i < n then Mesh(i + 1) else if StationAnswers(n, w) then Sta(1) else Mesh(101));
  }

  lemma {:induction false} OutToHost(n: nat, w: Who, t: Tables, i: int)
    requires Generated(n, t) && 1 <= i <= n && StationAnswers(n, w)
    ensures Delivers(Topo(n, 1, w), t, Mesh(i), Addr(4, 1), n + 2 - i)
    decreases n - i
  {
    HostHop(n, w, t, i);
    if i < n {
      OutToHost(n, w, t, i + 1);
    } else {
      StationToHost(n, w, t);
    }
  }

  lemma StationToHost(n: nat, w: Who, t: Tables)
    requires Generated(n, t)
    ensures Delivers(Topo(n, 1, w), t, Sta(1), Addr(4, 1), 1)
  {
    var topo, dst := Topo(n, 1, w), Addr(4, 1);
    HopTo(topo, t, Sta(1), dst, Row(Host(dst), Addr(4, 101), None), Wired(1));
    assert Delivers(topo, t, Wired(1), dst, 0);
  }

  lemma {:induction false} NeverOut(n: nat, w: Who, t: Tables, i: int, k: nat)
    requires Generated(n, t) && 1 <= i <= n && !StationAnswers(n, w)
    ensures !Delivers(Topo(n, 1, w), t, Mesh(i), Addr(4, 1), k)
    decreases k
  {
    if k > 0 {
      HostHop(n, w, t, i);
      NeverOut(n, w, t, if i < n then i + 1 else 101, k - 1);
    }
  }

  /**
   * The backhaul reaches the wired host exactly in chains that the address plan allows, and in
   * longer ones if the station is the one that answers for the address it shares with node 101.
   */
  lemma WiredHostIff(n: nat, w: Who, t: Tables)
    requires 1 <= n && Generated(n, t)
    ensures Reaches(Topo(n, 1, w), t, Backhaul, Addr(4, 1)) <==> n <= 100 || Addr(3, 101) in w
  {
    var topo, dst := Topo(n, 1, w), Addr(4, 1);
    HopTo(topo, t, Backhaul, dst, Row(Any, Addr(1, 1), Some(Addr(1, 2))), Mesh(1));
    if StationAnswers(n, w) {
      OutToHost(n, w, t, 1);
      OneMoreHop(topo, t, Backhaul, Mesh(1), dst, n + 1);
    } else {
      forall k: nat ensures !Delivers(topo, t, Backhaul, dst, k) {
        if k > 0 {
          NeverOut(n, w, t, 1, k - 1);
        }
      }
    }
  }

  /** Mesh node i reaches any address of node j in |i - j| hops. */
  lemma BetweenMeshNodes(n: nat, w: Who, t: Tables, i: int, j: int, dst: Addr)
    requires 1 <= n <= 100 && Generated(n, t) && 1 <= i <= n && 1 <= j <= n
    requires dst == Addr(2, j) || dst == Addr(3, j) || (j == 1 && dst == Addr(1, 2))
    ensures Delivers(Topo(n, 1, w), t, Mesh(i), dst, if i < j then j - i else i - j)
  {
    AllPairs(n, w, t, Mesh(i), Mesh(j), dst);
  }
}

/** Routing of a chain with several stations: scripts/chainsim/sim_configs/multiple/conf.in/routing.txt.php. */
module MultiChain {
  import opened Words
  import opened Routing
  import opened Chain

  /** Rows of mesh node i < n: everything goes away from the backhaul but what is closer to it. */
  predicate InnerRow(i: int, r: Row) {
    match r.target
    case Any => r == Row(Any, Addr(2, i), Some(Addr(2, i + 1)))
    case Net(_) => false
    case Host(a) =>
      || (a == Addr(1, 1) && i > 1 && r.iface == Addr(2, i) && r.gateway == Some(Addr(2, i - 1)))
      || (a == Addr(1, 1) && i == 1 && r.iface == Addr(1, 2) && r.gateway == Some(Addr(1, 1)))
      || ((a.net == 2 || a.net == 3) && 1 <= a.host < i && r.iface == Addr(2, i) && r.gateway == Some(Addr(2, i - 1)))
  }

  /** Rows of the last mesh node: everything goes to the backhaul but what belongs to a station. */
  predicate LastRow(n: int, m: int, r: Row) {
    match r.target
    case Any => r == Row(Any, Addr(2, n), Some(Addr(2, n - 1)))
    case Net(_) => false
    case Host(a) =>
      exists k :: 1 <= k <= m && StationRow(n, k, a, r)
  }

  predicate StationRow(n: int, k: int, a: Addr, r: Row) {
    && (a == Addr(3, 100 + k) || a == Addr(4, 100 + k) || a == Addr(4, k))
    && r.iface == Addr(3, n) && r.gateway == Some(Addr(3, 100 + k))
  }

  method InnerTable(i: nat) returns (rows: seq<Row>)
    requires 1 <= i
    ensures forall r :: r in rows <==> InnerRow(i, r)
  {
    var self := Addr(2, i);
    rows := [Row(Any, self, Some(Addr(2, i + 1)))];
    if i > 1 {
      var nexthop := Addr(2, i - 1);
      rows := rows + [Row(Host(Addr(1, 1)), self, Some(nexthop))];
      for j := 1 to i
        invariant forall r :: r in rows <==>
                    InnerRow(i, r)
                    && (r.target.Any? || r.target.addr == Addr(1, 1)
                        || (r.target.addr.host < j && r.target.addr.net != 1))
      {
        rows := rows + [Row(Host(Addr(2, j)), self, Some(nexthop)), Row(Host(Addr(3, j)), self, Some(nexthop))];
      }
    } else {
      rows := rows + [Row(Host(Addr(1, 1)), Addr(1, 2), Some(Addr(1, 1)))];
    }
  }

  method LastTable(n: nat, m: nat) returns (rows: seq<Row>)
    requires 2 <= n
    ensures forall r :: r in rows <==> LastRow(n, m, r)
  {
    rows := [Row(Any, Addr(2, n), Some(Addr(2, n - 1)))];
    for j := 1 to m + 1
      invariant forall r :: r in rows <==> LastRow(n, j - 1, r)
    {
      ghost var before := rows;
      var sta := Addr(3, j + 100);
      rows := rows + [Row(Host(sta), Addr(3, n), Some(sta)), Row(Host(Addr(4, j + 100)), Addr(3, n), Some(sta)),
                      Row(Host(Addr(4, j)), Addr(3, n), Some(sta))];
      forall r ensures r in rows <==> LastRow(n, j, r) {
        LastRowStep(n, j, r);
      }
    }
  }

  lemma LastRowStep(n: int, j: int, r: Row)
    requires j >= 1
    ensures LastRow(n, j, r)
       <==> LastRow(n, j - 1, r) || (r.target.Host? && StationRow(n, j, r.target.addr, r))
  {
  }

  ghost predicate IsInner(i: int, rows: seq<Row>) {
    forall r :: r in rows <==> InnerRow(i, r)
  }

  function StaTable(n: nat, k: int): seq<Row> {
    [Row(Any, Addr(3, 100 + k), Some(Addr(3, n))), Row(Host(Addr(4, k)), Addr(4, 100 + k), None)]
  }

  ghost predicate HasSta(n: nat, k: int, t: Tables) {
    Addr(3, 100 + k) in t && t[Addr(3, 100 + k)] == StaTable(n, k)
  }

  ghost predicate IsStation(n: nat, k: int, t: Tables) {
    && TableOf(t, Sta(k)) == StaTable(n, k)
    && TableOf(t, Wired(k)) == [Row(Any, Addr(4, k), Some(Addr(4, 100 + k)))]
  }

  /** The whole file, for n mesh nodes and m stations. */
  ghost predicate Generated(n: nat, m: nat, t: Tables) {
    && TableOf(t, Backhaul) == [Row(Any, Addr(1, 1), Some(Addr(1, 2)))]
    && (forall k :: 1 <= k <= m ==> IsStation(n, k, t))
    && (forall i :: 1 <= i < n ==> IsInner(i, TableOf(t, Mesh(i))))
    && forall r :: r in TableOf(t, Mesh(n)) <==> LastRow(n, m, r)
  }

  /** The tables of backhaul, stations and wired hosts. */
  ghost predicate HasEdges(n: nat, m: nat, t: Tables) {
    && Addr(1, 1) in t && t[Addr(1, 1)] == [Row(Any, Addr(1, 1), Some(Addr(1, 2)))]
    && forall k :: 1 <= k <= m ==> HasSta(n, k, t) && HasWired(k, t)
  }

  ghost predicate HasWired(k: int, t: Tables) {
    Addr(4, k) in t && t[Addr(4, k)] == [Row(Any, Addr(4, k), Some(Addr(4, 100 + k)))]
  }

  method EdgeTables(n: nat, m: nat) returns (t: Tables)
    ensures HasEdges(n, m, t)
  {
    t := map[Addr(1, 1) := [Row(Any, Addr(1, 1), Some(Addr(1, 2)))]];
    ghost var backhaul := t;
    for k := 1 to m + 1
      invariant forall a :: a in backhaul ==> a in t && t[a] == backhaul[a]
      invariant forall j :: 1 <= j < k ==> HasSta(n, j, t)
    {
      ghost var before := t;
      t := t[Addr(3, 100 + k) := StaTable(n, k)];
      forall j | 1 <= j < k ensures HasSta(n, j, t) {
        assert HasSta(n, j, before);
      }
    }
    ghost var stations := t;
    for k := 1 to m + 1
      invariant forall a :: a in stations && a.net != 4 ==> a in t && t[a] == stations[a]
      invariant forall j :: 1 <= j < k ==> HasWired(j, t)
    {
      ghost var before := t;
      t := t[Addr(4, k) := [Row(Any, Addr(4, k), Some(Addr(4, 100 + k)))]];
      forall j | 1 <= j < k ensures HasWired(j, t) {
        assert HasWired(j, before);
      }
    }
    forall k | 1 <= k <= m ensures HasSta(n, k, t) {
      assert HasSta(n, k, stations);
    }
  }

  method Generate(n: nat, m: nat) returns (t: Tables)
    requires 2 <= n
    ensures Generated(n, m, t)
  {
    t := EdgeTables(n, m);
    ghost var edges := t;
    for i := 1 to n
      invariant forall a :: a in edges && a.net != 2 ==> a in t && t[a] == edges[a]
      invariant forall j :: 1 <= j < i ==> Addr(2, j) in t && IsInner(j, t[Addr(2, j)])
    {
      var rows := InnerTable(i);
      t := t[Addr(2, i) := rows];
    }
    var last := LastTable(n, m);
    t := t[Addr(2, n) := last];
    forall k | 1 <= k <= m ensures IsStation(n, k, t) {
      assert HasSta(n, k, edges) && HasWired(k, edges);
    }
  }

  function InnerBest(i: int, v: Node, dst: Addr): Row {
    if v.Backhaul? then
      if i > 1 then Row(Host(dst), Addr(2, i), Some(Addr(2, i - 1))) else Row(Host(dst), Addr(1, 2), Some(Addr(1, 1)))
    else if v.Mesh? && v.i < i && dst.net != 1 then Row(Host(dst), Addr(2, i), Some(Addr(2, i - 1)))
    else Row(Any, Addr(2, i), Some(Addr(2, i + 1)))
  }

  lemma InnerHop(n: nat, m: nat, w: Who, t: Tables, i: int, v: Node, dst: Addr)
    requires 2 <= n <= 100 && m <= 100 && NoOverlap(Topo(n, m, w)) && Generated(n, m, t)
    requires 1 <= i < n && v != Mesh(i) && Owns(Topo(n, m, w), v, dst)
    ensures NextHop(Topo(n, m, w), t, Mesh(i), dst)
         == Some(if dst == Addr(1, 2) then Mesh(i + 1) else Toward(n, Mesh(i), v))
  {
    var row := InnerBest(i, v, dst);
    assert IsInner(i, TableOf(t, Mesh(i)));
    assert InnerRow(i, row);
    forall r | r in TableOf(t, Mesh(i)) && Matches(r.target, dst)
      ensures r == row || Len(r.target) < Len(row.target)
    {
      assert InnerRow(i, r);
    }
    HopIs(Topo(n, m, w), t, Mesh(i), dst, row, if dst == Addr(1, 2) then Mesh(i + 1) else Toward(n, Mesh(i), v));
  }

  lemma LastHop(n: nat, m: nat, w: Who, t: Tables, v: Node, dst: Addr)
    requires 2 <= n <= 100 && m <= 100 && NoOverlap(Topo(n, m, w)) && Generated(n, m, t)
    requires v != Mesh(n) && Owns(Topo(n, m, w), v, dst)
    ensures NextHop(Topo(n, m, w), t, Mesh(n), dst) == Some(Toward(n, Mesh(n), v))
  {
    var row := if v.Sta? || v.Wired? then Row(Host(dst), Addr(3, n), Some(Addr(3, 100 + v.k)))
               else Row(Any, Addr(2, n), Some(Addr(2, n - 1)));
    assert LastRow(n, m, row) by {
      if v.Sta? || v.Wired? {
        assert StationRow(n, v.k, dst, row);
      }
    }
    forall r | r in TableOf(t, Mesh(n)) && Matches(r.target, dst)
      ensures r == row || Len(r.target) < Len(row.target)
    {
      assert LastRow(n, m, r);
      if r.target.Host? {
        var k :| 1 <= k <= m && StationRow(n, k, dst, r);
        UniqueIff(Topo(n, m, w));
        assert Owns(Topo(n, m, w), Sta(k), dst) || Owns(Topo(n, m, w), Wired(k), dst);
      }
    }
    HopIs(Topo(n, m, w), t, Mesh(n), dst, row, Toward(n, Mesh(n), v));
  }

  lemma EdgeHop(n: nat, m: nat, w: Who, t: Tables, u: Node, v: Node, dst: Addr)
    requires 2 <= n <= 100 && m <= 100 && NoOverlap(Topo(n, m, w)) && Generated(n, m, t)
    requires !u.Mesh? && Exists(Topo(n, m, w), u) && u != v && Owns(Topo(n, m, w), v, dst)
    ensures NextHop(Topo(n, m, w), t, u, dst) == Some(Toward(n, u, v))
  {
    if u.Sta? || u.Wired? {
      assert IsStation(n, u.k, t);
    }
    UniqueIff(Topo(n, m, w));
    var row := if u.Sta? && v == Wired(u.k) then Row(Host(dst), Addr(4, 100 + u.k), None) else TableOf(t, u)[0];
    HopIs(Topo(n, m, w), t, u, dst, row, Toward(n, u, v));
  }

  lemma Hop(n: nat, m: nat, w: Who, t: Tables, u: Node, v: Node, dst: Addr)
    requires 2 <= n <= 100 && m <= 100 && NoOverlap(Topo(n, m, w)) && Generated(n, m, t)
    requires Exists(Topo(n, m, w), u) && u != v && Owns(Topo(n, m, w), v, dst) && (dst != Addr(1, 2) || n == 2)
    ensures NextHop(Topo(n, m, w), t, u, dst) == Some(Toward(n, u, v))
  {
    if u.Mesh? && u.i < n {
      InnerHop(n, m, w, t, u.i, v, dst);
    } else if u.Mesh? {
      LastHop(n, m, w, t, v, dst);
    } else {
      EdgeHop(n, m, w, t, u, v, dst);
    }
  }

  /** Every node reaches every address but 10.1.1.2 along the shortest path. */
  lemma AllPairs(n: nat, m: nat, w: Who, t: Tables, u: Node, v: Node, dst: Addr)
    requires 2 <= n <= 100 && m <= 100 && Generated(n, m, t)
    requires Exists(Topo(n, m, w), u) && Owns(Topo(n, m, w), v, dst) && (dst != Addr(1, 2) || n == 2)
    ensures Dist(n, u, v) >= 0 && Delivers(Topo(n, m, w), t, u, dst, Dist(n, u, v))
  {
    assert NoOverlap(Topo(n, m, w));
    forall x | Exists(Topo(n, m, w), x) && x != v
      ensures NextHop(Topo(n, m, w), t, x, dst) == Some(Toward(n, x, v))
    {
      Hop(n, m, w, t, x, v, dst);
    }
    RoutedDelivers(n, m, w, t, u, v, dst);
  }

  /** Backhaul to each wired host and back take n + 2 hops. */
  lemma BackhaulAndHosts(n: nat, m: nat, w: Who, t: Tables, k: int)
    requires 2 <= n <= 100 && m <= 100 && Generated(n, m, t) && 1 <= k <= m
    ensures Delivers(Topo(n, m, w), t, Backhaul, Addr(4, k), n + 2)
    ensures Delivers(Topo(n, m, w), t, Wired(k), Addr(1, 1), n + 2)
  {
    AllPairs(n, m, w, t, Backhaul, Wired(k), Addr(4, k));
    AllPairs(n, m, w, t, Wired(k), Backhaul, Addr(1, 1));
  }

  /** Does station k answer for its address? */
  predicate StationAnswers(n: nat, w: Who, k: int) {
    n < 100 + k || Addr(3, 100 + k) in w
  }

  /** Where packets for wired host k go: from the last node to the owner of the station's address. */
  lemma HostHop(n: nat, m: nat, w: Who, t: Tables, k: int, i: int)
    requires 2 <= n && Generated(n, m, t) && 1 <= k <= m <= 100 && 1 <= i <= n
    ensures NextHop(Topo(n, m, w), t, Mesh(i), Addr(4, k))
         == Some(if i < n then Mesh(i + 1) else if StationAnswers(n, w, k) then Sta(k) else Mesh(100 + k))
  {
    var dst := Addr(4, k);
    var next := if i < n then Mesh(i + 1) else if StationAnswers(n, w, k) then Sta(k) else Mesh(100 + k);
    if i < n {
      var row := Row(Any, Addr(2, i), Some(Addr(2, i + 1)));
      assert IsInner(i, TableOf(t, Mesh(i)));
      assert InnerRow(i, row);
      assert forall r :: r in TableOf(t, Mesh(i)) && Matches(r.target, dst) ==> InnerRow(i, r);
      HopTo(Topo(n, m, w), t, Mesh(i), dst, row, next);
    } else {
      var row := Row(Host(dst), Addr(3, n), Some(Addr(3, 100 + k)));
      assert StationRow(n, k, dst, row);
      assert LastRow(n, m, row);
      assert forall r :: r in TableOf(t, Mesh(n)) && Matches(r.target, dst) ==> LastRow(n, m, r);
      HopTo(Topo(n, m, w), t, Mesh(n), dst, row, next);
    }
  }

  lemma {:induction false} OutToHost(n: nat, m: nat, w: Who, t: Tables, k: int, i: int)
    requires 2 <= n && Generated(n, m, t) && 1 <= k <= m <= 100 && 1 <= i <= n && StationAnswers(n, w, k)
    ensures Delivers(Topo(n, m, w), t, Mesh(i), Addr(4, k), n + 2 - i)
    decreases n - i
  {
    HostHop(n, m, w, t, k, i);
    if i < n {
      OutToHost(n, m, w, t, k, i + 1);
    } else {
      assert IsStation(n, k, t);
      HopTo(Topo(n, m, w), t, Sta(k), Addr(4, k), Row(Host(Addr(4, k)), Addr(4, 100 + k), None), Wired(k));
      assert Delivers(Topo(n, m, w), t, Wired(k), Addr(4, k), 0);
      OneMoreHop(Topo(n, m, w), t, Sta(k), Wired(k), Addr(4, k), 0);
    }
  }

  lemma {:induction false} NeverOut(n: nat, m: nat, w: Who, t: Tables, k: int, i: int, hops: nat)
    requires 2 <= n && Generated(n, m, t) && 1 <= k <= m <= 100 && 1 <= i <= n && !StationAnswers(n, w, k)
    ensures !Delivers(Topo(n, m, w), t, Mesh(i), Addr(4, k), hops)
    decreases hops
  {
    if hops > 0 {
      HostHop(n, m, w, t, k, i);
      NeverOut(n, m, w, t, k, if i < n then i + 1 else 100 + k, hops - 1);
    }
  }

  /**
   * The backhaul reaches wired host k exactly if no mesh node has its station's address, or the
   * station is the one that answers for it.
   */
  lemma WiredHostIff(n: nat, m: nat, w: Who, t: Tables, k: int)
    requires 2 <= n && Generated(n, m, t) && 1 <= k <= m <= 100
    ensures Reaches(Topo(n, m, w), t, Backhaul, Addr(4, k)) <==> n < 100 + k || Addr(3, 100 + k) in w
  {
    var topo, dst := Topo(n, m, w), Addr(4, k);
    HopTo(topo, t, Backhaul, dst, Row(Any, Addr(1, 1), Some(Addr(1, 2))), Mesh(1));
    if StationAnswers(n, w, k) {
      OutToHost(n, m, w, t, k, 1);
      OneMoreHop(topo, t, Backhaul, Mesh(1), dst, n + 1);
    } else {
      forall hops: nat ensures !Delivers(topo, t, Backhaul, dst, hops) {
        if hops > 0 {
          NeverOut(n, m, w, t, k, 1, hops - 1);
        }
      }
    }
  }

  /** Packets for 10.1.1.2, the first mesh node's address on the backhaul link, never get there from further out. */
  lemma {:induction false} BackhaulLinkLoops(n: nat, m: nat, w: Who, t: Tables, u: Node, k: nat)
    requires 3 <= n <= 100 && m <= 100 && Generated(n, m, t)
    requires Exists(Topo(n, m, w), u) && u != Backhaul && u != Mesh(1)
    ensures !Delivers(Topo(n, m, w), t, u, Addr(1, 2), k)
    decreases k
  {
    assert NoOverlap(Topo(n, m, w));
    var v, dst := Mesh(1), Addr(1, 2);
    OnlyOwner(Topo(n, m, w), u, v, dst);
    if k > 0 {
      var next := FartherOut(n, m, w, t, u);
      BackhaulLinkLoops(n, m, w, t, next, k - 1);
      OneMoreHop(Topo(n, m, w), t, u, next, dst, k - 1);
    }
  }

  /** Where such a packet goes next: never nearer than the last but one mesh node. */
  lemma FartherOut(n: nat, m: nat, w: Who, t: Tables, u: Node) returns (next: Node)
    requires 3 <= n <= 100 && m <= 100 && Generated(n, m, t)
    requires Exists(Topo(n, m, w), u) && u != Backhaul && u != Mesh(1)
    ensures Exists(Topo(n, m, w), next) && next != Backhaul && next != Mesh(1)
    ensures NextHop(Topo(n, m, w), t, u, Addr(1, 2)) == Some(next)
  {
    assert NoOverlap(Topo(n, m, w));
    var v, dst := Mesh(1), Addr(1, 2);
    assert Owns(Topo(n, m, w), v, dst);
    if u.Mesh? && u.i < n {
      InnerHop(n, m, w, t, u.i, v, dst);
      next := Mesh(u.i + 1);
    } else if u.Mesh? {
      LastHop(n, m, w, t, v, dst);
      next := Mesh(n - 1);
    } else {
      EdgeHop(n, m, w, t, u, v, dst);
      next := Toward(n, u, v);
    }
  }

  lemma ReachesBackhaulLink(n: nat, m: nat, w: Who, t: Tables, u: Node)
    requires 2 <= n <= 100 && m <= 100 && Generated(n, m, t) && Exists(Topo(n, m, w), u)
    requires n == 2 || u == Backhaul || u == Mesh(1)
    ensures Reaches(Topo(n, m, w), t, u, Addr(1, 2))
  {
    assert NoOverlap(Topo(n, m, w));
    var v, dst := Mesh(1), Addr(1, 2);
    assert Owns(Topo(n, m, w), v, dst);
    assert Delivers(Topo(n, m, w), t, v, dst, 0);
    if n == 2 {
      AllPairs(n, m, w, t, u, v, dst);
      assert Delivers(Topo(n, m, w), t, u, dst, Dist(n, u, v));
    } else if u == Backhaul {
      EdgeHop(n, m, w, t, u, v, dst);
      assert Delivers(Topo(n, m, w), t, u, dst, 1);
    }
  }

  /** So that address is delivered exactly from the backhaul, from the first mesh node, or in a chain of two. */
  lemma BackhaulLinkIff(n: nat, m: nat, w: Who, t: Tables, u: Node)
    requires 2 <= n <= 100 && m <= 100 && Generated(n, m, t) && Exists(Topo(n, m, w), u)
    ensures Reaches(Topo(n, m, w), t, u, Addr(1, 2)) <==> n == 2 || u == Backhaul || u == Mesh(1)
  {
    if n == 2 || u == Backhaul || u == Mesh(1) {
      ReachesBackhaulLink(n, m, w, t, u);
    } else {
      forall k: nat ensures !Delivers(Topo(n, m, w), t, u, Addr(1, 2), k) {
        BackhaulLinkLoops(n, m, w, t, u, k);
      }
    }
  }
}

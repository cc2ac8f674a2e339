/** Static routes over the mesh's address plan, and forwarding along them. */
module Routing {
  import opened Words

  /** The address 10.1.net.host. */
  datatype Addr = Addr(net: int, host: int)

  /** 0.0.0.0/0, 10.1.net.0/24, or one host. */
  datatype Target = Any | Net(net: int) | Host(addr: Addr)

  /** A route: where to, through which own interface, and to which gateway, if not directly. */
  datatype Row = Row(target: Target, iface: Addr, gateway: Option<Addr>)

  /** The tables of a routing file, by the address after `routes_on`. */
  type Tables = map<Addr, seq<Row>>

  function Len(t: Target): nat {
    match t
    case Any => 0
    case Net(_) => 24
    case Host(_) => 32
  }

  predicate Matches(t: Target, dst: Addr) {
    match t
    case Any => true
    case Net(net) => dst.net == net
    case Host(a) => dst == a
  }

  /** The most specific route to dst; the first of several equally specific ones. */
  function Lookup(table: seq<Row>, dst: Addr): Option<Row> {
    if table == [] then None
    else
      var o := Lookup(table[1..], dst);
      if !Matches(table[0].target, dst) || (o.Some? && Len(o.value.target) > Len(table[0].target)) then o
      else Some(table[0])
  }

  /** A route that matches, and is alone in being so specific, is the one found. */
  lemma {:induction false} LookupIs(table: seq<Row>, dst: Addr, row: Row)
    requires Matches(row.target, dst)
    requires forall r :: r in table && Matches(r.target, dst) ==> r == row || Len(r.target) < Len(row.target)
    ensures row in table ==> Lookup(table, dst) == Some(row)
    ensures var o := Lookup(table, dst); o.Some? ==> o.value in table && Matches(o.value.target, dst)
  {
    if table != [] {
      LookupIs(table[1..], dst, row);
    }
  }

  // --- nodes and their addresses ---

  datatype Node = Backhaul | Mesh(i: int) | Sta(k: int) | Wired(k: int)

  /** Addresses for which a station answers although a mesh node has them too. */
  type Who = set<Addr>

  /** Which mesh nodes and stations there are, and who answers for an address they share. */
  datatype Topology = Topology(meshes: set<int>, stas: set<int>, stationWins: Who)

  predicate Exists(topo: Topology, u: Node) {
    match u
    case Backhaul => true
    case Mesh(i) => i in topo.meshes
    case Sta(k) => k in topo.stas
    case Wired(k) => k in topo.stas
  }

  /** The interfaces each node has; the backhaul is plugged into mesh node 1. */
  predicate Owns(topo: Topology, u: Node, a: Addr) {
    Exists(topo, u) &&
    match u
    case Backhaul => a == Addr(1, 1)
    case Mesh(i) => a == Addr(2, i) || a == Addr(3, i) || (i == 1 && a == Addr(1, 2))
    case Sta(k) => a == Addr(3, 100 + k) || a == Addr(4, 100 + k)
    case Wired(k) => a == Addr(4, k)
  }

  /** The node that answers for an address on the mesh or at the access points. */
  function OwnerOf(topo: Topology, a: Addr): Option<Node> {
    var mesh, sta := Mesh(a.host), Sta(a.host - 100);
    if Owns(topo, sta, a) && (!Owns(topo, mesh, a) || a in topo.stationWins) then Some(sta)
    else if Owns(topo, mesh, a) then Some(mesh)
    else None
  }

  predicate PointToPoint(net: int) {
    net == 1 || net == 4
  }

  /** The other end of a node's point-to-point link. */
  function Peer(u: Node, net: int): Option<Node> {
    match u
    case Backhaul => if net == 1 then Some(Mesh(1)) else None
    case Mesh(i) => if net == 1 && i == 1 then Some(Backhaul) else None
    case Sta(k) => if net == 4 then Some(Wired(k)) else None
    case Wired(k) => if net == 4 then Some(Sta(k)) else None
  }

  /** No station's address is also a mesh node's or another station's. */
  ghost predicate NoOverlap(topo: Topology) {
    forall k :: k in topo.stas ==> 100 + k !in topo.meshes && 100 + k !in topo.stas
  }

  ghost predicate UniqueOwners(topo: Topology) {
    forall a, u, v :: Owns(topo, u, a) && Owns(topo, v, a) ==> u == v
  }

  lemma UniqueIff(topo: Topology)
    ensures UniqueOwners(topo) <==> NoOverlap(topo)
  {
    if UniqueOwners(topo) {
      forall k | k in topo.stas
        ensures 100 + k !in topo.meshes && 100 + k !in topo.stas
      {
        assert Owns(topo, Sta(k), Addr(3, 100 + k)) && Owns(topo, Sta(k), Addr(4, 100 + k));
        assert !Owns(topo, Mesh(100 + k), Addr(3, 100 + k));
        assert !Owns(topo, Wired(100 + k), Addr(4, 100 + k));
      }
    }
    if NoOverlap(topo) {
      forall a, u, v | Owns(topo, u, a) && Owns(topo, v, a)
        ensures u == v
      {
        if u.Sta? { assert 100 + u.k !in topo.meshes; }
        if v.Sta? { assert 100 + v.k !in topo.meshes; }
      }
    }
  }

  // --- forwarding ---

  function Primary(u: Node): Addr {
    match u
    case Backhaul => Addr(1, 1)
    case Mesh(i) => Addr(2, i)
    case Sta(k) => Addr(3, 100 + k)
    case Wired(k) => Addr(4, k)
  }

  function TableOf(t: Tables, u: Node): seq<Row> {
    if Primary(u) in t then t[Primary(u)] else []
  }

  /**
   * Where a node sends a packet: out of its own interface, to a neighbour on the same network. A
   * point-to-point link takes it to the other end, whatever the address.
   */
  function Via(topo: Topology, u: Node, row: Row, dst: Addr): Option<Node> {
    var next := if row.gateway.Some? then row.gateway.value else dst;
    if !Owns(topo, u, row.iface) || row.iface.net != next.net then None
    else if !PointToPoint(next.net) then OwnerOf(topo, next)
    else
      var peer := Peer(u, next.net);
      if peer.Some? && Exists(topo, peer.value) then peer else None
  }

  function NextHop(topo: Topology, t: Tables, u: Node, dst: Addr): Option<Node> {
    var row := Lookup(TableOf(t, u), dst);
    if row.None? then None else Via(topo, u, row.value, dst)
  }

  /** A packet for dst at node u is delivered in exactly k hops. */
  ghost predicate Delivers(topo: Topology, t: Tables, u: Node, dst: Addr, k: nat)
    decreases k
  {
    if k == 0 then Owns(topo, u, dst)
    else
      var next := NextHop(topo, t, u, dst);
      !Owns(topo, u, dst) && next.Some? && Delivers(topo, t, next.value, dst, k - 1)
  }

  ghost predicate Reaches(topo: Topology, t: Tables, u: Node, dst: Addr) {
    exists k: nat :: Delivers(topo, t, u, dst, k)
  }

  lemma OnlyOwner(topo: Topology, u: Node, v: Node, a: Addr)
    requires NoOverlap(topo) && Owns(topo, v, a) && u != v
    ensures !Owns(topo, u, a)
  {
  }

  lemma OneMoreHop(topo: Topology, t: Tables, u: Node, next: Node, dst: Addr, k: nat)
    requires !Owns(topo, u, dst) && NextHop(topo, t, u, dst) == Some(next)
    ensures Delivers(topo, t, next, dst, k) <==> Delivers(topo, t, u, dst, k + 1)
  {
  }

  /** Forwarding is deterministic, so a node has one distance to dst: a delivered packet never comes back to a node. */
  lemma {:induction false} NoRevisit(topo: Topology, t: Tables, u: Node, dst: Addr, j: nat, k: nat)
    requires Delivers(topo, t, u, dst, j) && Delivers(topo, t, u, dst, k)
    ensures j == k
    decreases j
  {
    if j > 0 && k > 0 {
      NoRevisit(topo, t, NextHop(topo, t, u, dst).value, dst, j - 1, k - 1);
    }
  }
}

/** A chain of mesh nodes 1..n from the backhaul to the stations 1..m at its far end. */
module Chain {
  import opened Words
  import opened Routing

  function UpTo(n: nat): (s: set<int>)
    ensures forall i :: i in s <==> 1 <= i <= n
  {
    if n == 0 then {} else UpTo(n - 1) + {n}
  }

  function Topo(n: nat, m: nat, w: Who): Topology {
    Topology(UpTo(n), UpTo(m), w)
  }

  function Depth(n: nat, u: Node): int {
    match u
    case Backhaul => 0
    case Mesh(i) => i
    case Sta(_) => n + 1
    case Wired(_) => n + 2
  }

  predicate SameStation(u: Node, v: Node) {
    (u.Sta? || u.Wired?) && (v.Sta? || v.Wired?) ==> u.k == v.k
  }

  /** Number of links between two nodes. */
  function Dist(n: nat, u: Node, v: Node): int {
    var a, b := Depth(n, u), Depth(n, v);
    if SameStation(u, v) then (if a < b then b - a else a - b) else (a - n) + (b - n)
  }

  /** The neighbour of u on the way to v. */
  function Toward(n: nat, u: Node, v: Node): Node {
    match u
    case Backhaul => Mesh(1)
    case Wired(k) => Sta(k)
    case Sta(k) => if v == Wired(k) then v else Mesh(n)
    case Mesh(i) =>
      if Depth(n, v) < i then (if i > 1 then Mesh(i - 1) else Backhaul)
      else if i < n then Mesh(i + 1)
      else if v.Sta? || v.Wired? then Sta(v.k)
      else u
  }

  lemma TowardIsCloser(n: nat, m: nat, w: Who, u: Node, v: Node)
    requires n >= 1 && Exists(Topo(n, m, w), u) && Exists(Topo(n, m, w), v) && u != v
    ensures Exists(Topo(n, m, w), Toward(n, u, v))
    ensures Dist(n, Toward(n, u, v), v) == Dist(n, u, v) - 1 && Dist(n, u, v) >= 1
  {
  }

  /** Every node forwards packets for dst to its neighbour on the way to the owner v. */
  ghost predicate Routed(n: nat, m: nat, w: Who, t: Tables, v: Node, dst: Addr) {
    forall u :: Exists(Topo(n, m, w), u) && u != v ==> NextHop(Topo(n, m, w), t, u, dst) == Some(Toward(n, u, v))
  }

  lemma {:induction false} RoutedDelivers(n: nat, m: nat, w: Who, t: Tables, u: Node, v: Node, dst: Addr)
    requires n >= 1 && NoOverlap(Topo(n, m, w)) && Exists(Topo(n, m, w), u)
    requires Owns(Topo(n, m, w), v, dst) && Routed(n, m, w, t, v, dst)
    ensures Dist(n, u, v) >= 0 && Delivers(Topo(n, m, w), t, u, dst, Dist(n, u, v))
    decreases Dist(n, u, v)
  {
    if u != v {
      TowardIsCloser(n, m, w, u, v);
      var next := Toward(n, u, v);
      assert NextHop(Topo(n, m, w), t, u, dst) == Some(next);
      RoutedDelivers(n, m, w, t, next, v, dst);
      OnlyOwner(Topo(n, m, w), u, v, dst);
      OneMoreHop(Topo(n, m, w), t, u, next, dst, Dist(n, next, v));
    }
  }

  /** A table whose best route for dst is `row` sends it to the owner of the next address. */
  lemma HopIs(topo: Topology, t: Tables, u: Node, dst: Addr, row: Row, next: Node)
    requires NoOverlap(topo) && row in TableOf(t, u) && Matches(row.target, dst)
    requires forall r :: r in TableOf(t, u) && Matches(r.target, dst) ==> r == row || Len(r.target) < Len(row.target)
    requires var a := if row.gateway.Some? then row.gateway.value else dst;
             && Owns(topo, u, row.iface) && row.iface.net == a.net && Owns(topo, next, a)
             && (PointToPoint(a.net) ==> Peer(u, a.net) == Some(next))
    ensures NextHop(topo, t, u, dst) == Some(next)
  {
    LookupIs(TableOf(t, u), dst, row);
  }

  /** The same for one node whose address may be shared. */
  lemma HopTo(topo: Topology, t: Tables, u: Node, dst: Addr, row: Row, next: Node)
    requires row in TableOf(t, u) && Matches(row.target, dst)
    requires forall r :: r in TableOf(t, u) && Matches(r.target, dst) ==> r == row || Len(r.target) < Len(row.target)
    requires Via(topo, u, row, dst) == Some(next)
    ensures NextHop(topo, t, u, dst) == Some(next)
  {
    LookupIs(TableOf(t, u), dst, row);
  }

  /** The address plan of a chain is sound exactly up to 100 mesh nodes and 100 stations. */
  lemma PlanIff(n: nat, m: nat, w: Who)
    requires n >= 1 && m >= 1
    ensures UniqueOwners(Topo(n, m, w)) <==> n <= 100 && m <= 100
  {
    UniqueIff(Topo(n, m, w));
    if NoOverlap(Topo(n, m, w)) {
      assert 1 in Topo(n, m, w).stas;
      assert 101 !in Topo(n, m, w).meshes && 101 !in Topo(n, m, w).stas;
    }
  }
}

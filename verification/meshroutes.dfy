/** Routing tables for an arbitrary assignment of stations to mesh nodes: scripts/genroutingtables. */
module MeshTables {
  import opened Words
  import opened Routing
  import Chain

  /** An input line: a station's last octet, or none for "X", and the last octet of a mesh node. */
  datatype Line = Line(sta: Option<int>, mesh: int)

  datatype Pair = Pair(sta: int, mesh: int)

  function ApIp(mesh: int): Addr {
    Addr(3, mesh)
  }

  function Sta2wIp(sta: int): Addr {
    Addr(4, sta)
  }

  function WiredStaIp(sta: int): Addr {
    Addr(4, sta - 100)
  }

  function MeshNodes(lines: seq<Line>): set<int> {
    set l | l in lines :: l.mesh
  }

  /** The lines that name a station. */
  function Pairs(lines: seq<Line>): seq<Pair> {
    if lines == [] then []
    else
      var l := lines[|lines| - 1];
      Pairs(lines[..|lines| - 1]) + if l.sta.Some? then [Pair(l.sta.value, l.mesh)] else []
  }

  function Topo(lines: seq<Line>, w: Who): Topology {
    Topology(MeshNodes(lines), set p | p in Pairs(lines) :: p.sta - 100, w)
  }

  // --- the tables ---

  predicate StationAddr(sta: int, a: Addr) {
    a == Addr(3, sta) || a == Sta2wIp(sta) || a == WiredStaIp(sta)
  }

  /** Node x's route for an address of station p.sta. */
  predicate PairRow(x: int, p: Pair, r: Row) {
    && r.target.Host? && StationAddr(p.sta, r.target.addr)
    && if p.mesh == x then r.iface == ApIp(x) && r.gateway == Some(Addr(3, p.sta))
       else r.iface == Addr(2, x) && r.gateway == Some(Addr(2, p.mesh))
  }

  function BackhaulRow(x: int): Row {
    if x == 1 then Row(Net(1), Addr(1, 2), Some(Addr(1, 1))) else Row(Net(1), Addr(2, x), Some(Addr(2, 1)))
  }

  ghost predicate IsMeshTable(pairs: seq<Pair>, x: int, rows: seq<Row>) {
    forall r :: r in rows <==> r == BackhaulRow(x) || exists p :: p in pairs && PairRow(x, p, r)
  }

  predicate StaRow(p: Pair, r: Row) {
    || r == Row(Any, Addr(3, p.sta), Some(ApIp(p.mesh)))
    || r == Row(Host(WiredStaIp(p.sta)), Sta2wIp(p.sta), None)
  }

  function WiredRow(p: Pair): Row {
    Row(Any, WiredStaIp(p.sta), Some(Sta2wIp(p.sta)))
  }

  /** The tables of a station and of its wired host, for whatever lines name the station. */
  ghost predicate IsStaTable(pairs: seq<Pair>, k: int, rows: seq<Row>) {
    forall r :: r in rows <==> exists p :: p in pairs && p.sta == 100 + k && StaRow(p, r)
  }

  ghost predicate IsWiredTable(pairs: seq<Pair>, k: int, rows: seq<Row>) {
    forall r :: r in rows <==> exists p :: p in pairs && p.sta == 100 + k && r == WiredRow(p)
  }

  /** What the script prints, as tables. */
  ghost predicate Generated(lines: seq<Line>, t: Tables) {
    var pairs := Pairs(lines);
    && TableOf(t, Backhaul) == [Row(Any, Addr(1, 1), Some(Addr(1, 2)))]
    && (forall x :: x in MeshNodes(lines) ==> IsMeshTable(pairs, x, TableOf(t, Mesh(x))))
    && (forall k :: IsStaTable(pairs, k, TableOf(t, Sta(k))))
    && (forall k :: IsWiredTable(pairs, k, TableOf(t, Wired(k))))
  }

  // --- generating them ---

  method CollectPairs(lines: seq<Line>) returns (pairs: seq<Pair>)
    ensures pairs == Pairs(lines)
  {
    pairs := [];
    for i := 0 to |lines|
      invariant pairs == Pairs(lines[..i])
    {
      if lines[i].sta.Some? {
        pairs := pairs + [Pair(lines[i].sta.value, lines[i].mesh)];
      }
      assert lines[..i + 1][..i] == lines[..i];
    }
    assert lines[..|lines|] == lines;
  }

  method MeshTable(pairs: seq<Pair>, x: int) returns (rows: seq<Row>)
    ensures IsMeshTable(pairs, x, rows)
  {
    if x == 1 {
      rows := [Row(Net(1), Addr(1, 2), Some(Addr(1, 1)))];
    } else {
      rows := [Row(Net(1), Addr(2, x), Some(Addr(2, 1)))];
    }
    for i := 0 to |pairs|
      invariant IsMeshTable(pairs[..i], x, rows)
    {
      var p := pairs[i];
      var iface, gateway := Addr(2, x), Addr(2, p.mesh);
      if p.mesh == x {
        iface, gateway := ApIp(x), Addr(3, p.sta);
      }
      ghost var before := rows;
      rows := rows + [Row(Host(Addr(3, p.sta)), iface, Some(gateway)), Row(Host(Sta2wIp(p.sta)), iface, Some(gateway)),
                      Row(Host(WiredStaIp(p.sta)), iface, Some(gateway))];
      forall r ensures r in rows <==> r == BackhaulRow(x) || exists q :: q in pairs[..i + 1] && PairRow(x, q, r) {
        assert r in rows <==> r in before || PairRow(x, p, r);
      }
    }
    assert pairs[..|pairs|] == pairs;
  }

  /** Later rows for the same node are added to its table. */
  function AddRows(t: Tables, key: Addr, rows: seq<Row>): Tables {
    t[key := (if key in t then t[key] else []) + rows]
  }

  method MeshPart(lines: seq<Line>, pairs: seq<Pair>, t0: Tables) returns (t: Tables)
    requires forall a :: a in t0 ==> a.net == 1
    ensures forall a :: a in t && a.net != 2 ==> a in t0 && t[a] == t0[a]
    ensures forall a :: a in t0 ==> a in t && t[a] == t0[a]
    ensures forall x :: x in MeshNodes(lines) ==> IsMeshTable(pairs, x, TableOf(t, Mesh(x)))
  {
    t := t0;
    var todo := MeshNodes(lines);
    while todo != {}
      invariant todo <= MeshNodes(lines)
      invariant forall a :: a in t && a.net != 2 ==> a in t0 && t[a] == t0[a]
      invariant forall a :: a in t0 ==> a in t && t[a] == t0[a]
      invariant forall x :: x in MeshNodes(lines) - todo ==> IsMeshTable(pairs, x, TableOf(t, Mesh(x)))
      decreases todo
    {
      var x :| x in todo;
      var rows := MeshTable(pairs, x);
      t := t[Addr(2, x) := rows];
      todo := todo - {x};
    }
  }

  method StationPart(pairs: seq<Pair>, t0: Tables) returns (t: Tables)
    requires forall a :: a in t0 ==> a.net <= 2
    ensures forall a :: a in t && a.net != 3 ==> a in t0 && t[a] == t0[a]
    ensures forall a :: a in t0 ==> a in t && t[a] == t0[a]
    ensures forall k :: IsStaTable(pairs, k, TableOf(t, Sta(k)))
  {
    t := t0;
    assert forall k :: TableOf(t, Sta(k)) == [];
    for i := 0 to |pairs|
      invariant forall a :: a in t && a.net != 3 ==> a in t0 && t[a] == t0[a]
      invariant forall a :: a in t0 ==> a in t && t[a] == t0[a]
      invariant forall k :: IsStaTable(pairs[..i], k, TableOf(t, Sta(k)))
    {
      var p := pairs[i];
      ghost var before := t;
      t := AddRows(t, Addr(3, p.sta), [Row(Any, Addr(3, p.sta), Some(ApIp(p.mesh))),
                                       Row(Host(WiredStaIp(p.sta)), Sta2wIp(p.sta), None)]);
      ghost var upTo := pairs[..i + 1];
      forall k ensures IsStaTable(upTo, k, TableOf(t, Sta(k))) {
        assert IsStaTable(pairs[..i], k, TableOf(before, Sta(k)));
      }
    }
    assert pairs[..|pairs|] == pairs;
  }

  method WiredPart(pairs: seq<Pair>, t0: Tables) returns (t: Tables)
    requires forall a :: a in t0 ==> a.net <= 3
    ensures forall a :: a in t && a.net != 4 ==> a in t0 && t[a] == t0[a]
    ensures forall a :: a in t0 ==> a in t && t[a] == t0[a]
    ensures forall k :: IsWiredTable(pairs, k, TableOf(t, Wired(k)))
  {
    t := t0;
    assert forall k :: TableOf(t, Wired(k)) == [];
    for i := 0 to |pairs|
      invariant forall a :: a in t && a.net != 4 ==> a in t0 && t[a] == t0[a]
      invariant forall a :: a in t0 ==> a in t && t[a] == t0[a]
      invariant forall k :: IsWiredTable(pairs[..i], k, TableOf(t, Wired(k)))
    {
      var p := pairs[i];
      ghost var before := t;
      t := AddRows(t, WiredStaIp(p.sta), [Row(Any, WiredStaIp(p.sta), Some(Sta2wIp(p.sta)))]);
      ghost var upTo := pairs[..i + 1];
      forall k ensures IsWiredTable(upTo, k, TableOf(t, Wired(k))) {
        assert IsWiredTable(pairs[..i], k, TableOf(before, Wired(k)));
      }
    }
    assert pairs[..|pairs|] == pairs;
  }

  method Generate(lines: seq<Line>) returns (t: Tables)
    ensures Generated(lines, t)
  {
    var pairs := CollectPairs(lines);
    var backhaul := map[Addr(1, 1) := [Row(Any, Addr(1, 1), Some(Addr(1, 2)))]];
    var mesh := MeshPart(lines, pairs, backhaul);
    var sta := StationPart(pairs, mesh);
    t := WiredPart(pairs, sta);
    forall x | x in MeshNodes(lines) ensures IsMeshTable(pairs, x, TableOf(t, Mesh(x))) {
      assert IsMeshTable(pairs, x, TableOf(mesh, Mesh(x)));
    }
    forall k ensures IsStaTable(pairs, k, TableOf(t, Sta(k))) {
      assert IsStaTable(pairs, k, TableOf(sta, Sta(k)));
    }
  }

  // --- delivery ---

  ghost predicate OneNodeEach(lines: seq<Line>) {
    forall p, q :: p in Pairs(lines) && q in Pairs(lines) && p.sta == q.sta ==> p.mesh == q.mesh
  }

  /** Each station has one mesh node, node 1 is there, and no two interfaces share an address. */
  ghost predicate Sound(lines: seq<Line>, w: Who) {
    && OneNodeEach(lines)
    && 1 in MeshNodes(lines)
    && NoOverlap(Topo(lines, w))
  }

  lemma {:induction false} PairsAreLines(lines: seq<Line>, p: Pair)
    requires p in Pairs(lines)
    ensures p.mesh in MeshNodes(lines)
  {
    var init := lines[..|lines| - 1];
    if p in Pairs(init) {
      PairsAreLines(init, p);
      var l :| l in init && l.mesh == p.mesh;
      assert l in lines;
    }
  }

  /** Octets 101 to 200 for the stations and below 100 for the mesh nodes never overlap. */
  lemma DocumentedRangesAreSound(lines: seq<Line>, w: Who)
    requires forall p :: p in Pairs(lines) ==> 101 <= p.sta <= 200
    requires forall x :: x in MeshNodes(lines) ==> 1 <= x < 100
    ensures NoOverlap(Topo(lines, w))
  {
  }

  /** Overlaps come only from mesh octets above 100 and from stations 100 octets apart. */
  lemma OverlapIff(lines: seq<Line>, w: Who)
    ensures NoOverlap(Topo(lines, w))
       <==> forall p, q :: p in Pairs(lines) && q in Pairs(lines) ==> p.sta !in MeshNodes(lines) && q.sta != p.sta + 100
  {
    var topo := Topo(lines, w);
    if NoOverlap(topo) {
      forall p, q | p in Pairs(lines) && q in Pairs(lines)
        ensures p.sta !in MeshNodes(lines) && q.sta != p.sta + 100
      {
        assert p.sta - 100 in topo.stas && q.sta - 100 in topo.stas;
      }
    }
  }

  /** Some address has two different routes of the same length. */
  ghost predicate Ambiguous(rows: seq<Row>) {
    exists r, q :: r in rows && q in rows && r.target == q.target && r != q
  }

  /** Node x sends packets for stations p and q different ways. */
  predicate SentApart(x: int, p: Pair, q: Pair) {
    p.mesh == x || q.mesh == x || p.mesh != q.mesh
  }

  /** Stations p and q share an address, and node x sends packets for it different ways. */
  predicate Conflict(x: int, p: Pair, q: Pair) {
    (q.sta == p.sta + 100 && SentApart(x, p, q)) || (q.sta == p.sta && p.mesh != q.mesh)
  }

  /**
   * The table of a node is ambiguous if and only if two stations 100 octets apart are sent
   * different ways, or one station is given to two mesh nodes.
   */
  lemma AmbiguousIff(lines: seq<Line>, t: Tables, x: int)
    requires Generated(lines, t) && x in MeshNodes(lines)
    ensures Ambiguous(TableOf(t, Mesh(x)))
       <==> exists p, q :: p in Pairs(lines) && q in Pairs(lines) && Conflict(x, p, q)
  {
    if Ambiguous(TableOf(t, Mesh(x))) {
      var p, q := AmbiguousMeansConflict(lines, t, x);
    }
    forall p, q | p in Pairs(lines) && q in Pairs(lines) && Conflict(x, p, q)
      ensures Ambiguous(TableOf(t, Mesh(x)))
    {
      ConflictMeansAmbiguous(lines, t, x, p, q);
    }
  }

  lemma AmbiguousMeansConflict(lines: seq<Line>, t: Tables, x: int) returns (p: Pair, q: Pair)
    requires Generated(lines, t) && x in MeshNodes(lines) && Ambiguous(TableOf(t, Mesh(x)))
    ensures p in Pairs(lines) && q in Pairs(lines) && Conflict(x, p, q)
  {
    var pairs, rows := Pairs(lines), TableOf(t, Mesh(x));
    assert IsMeshTable(pairs, x, rows);
    var r, s :| r in rows && s in rows && r.target == s.target && r != s;
    p :| p in pairs && PairRow(x, p, r);
    q :| q in pairs && PairRow(x, q, s);
    SharedTarget(x, p, q, r, s);
    if !Conflict(x, p, q) {
      p, q := q, p;
    }
  }

  lemma SharedTarget(x: int, p: Pair, q: Pair, r: Row, s: Row)
    requires PairRow(x, p, r) && PairRow(x, q, s) && r.target == s.target && r != s
    ensures Conflict(x, p, q) || Conflict(x, q, p)
  {
  }

  lemma ConflictMeansAmbiguous(lines: seq<Line>, t: Tables, x: int, p: Pair, q: Pair)
    requires Generated(lines, t) && x in MeshNodes(lines)
    requires p in Pairs(lines) && q in Pairs(lines) && Conflict(x, p, q)
    ensures Ambiguous(TableOf(t, Mesh(x)))
  {
    var r, s := RouteTo(x, p, Sta2wIp(p.sta)), RouteTo(x, q, Sta2wIp(p.sta));
    assert IsMeshTable(Pairs(lines), x, TableOf(t, Mesh(x)));
    assert PairRow(x, p, r) && PairRow(x, q, s);
  }

  function RouteTo(x: int, p: Pair, dst: Addr): Row {
    if p.mesh == x then Row(Host(dst), ApIp(x), Some(Addr(3, p.sta)))
    else Row(Host(dst), Addr(2, x), Some(Addr(2, p.mesh)))
  }

  /** Stations 101 and 201 at node 1: it has two routes for 10.1.4.101, which two nodes own. */
  lemma HundredApart(w: Who, t: Tables)
    requires Generated([Line(Some(101), 1), Line(Some(201), 1)], t)
    ensures var topo := Topo([Line(Some(101), 1), Line(Some(201), 1)], w);
            && Owns(topo, Sta(1), Addr(4, 101)) && Owns(topo, Wired(101), Addr(4, 101))
            && Ambiguous(TableOf(t, Mesh(1)))
  {
    var a, b := Line(Some(101), 1), Line(Some(201), 1);
    assert [a, b][..1] == [a];
    assert Pairs([a]) == [Pair(101, 1)];
    assert Pairs([a, b]) == [Pair(101, 1), Pair(201, 1)];
    var lines := [a, b];
    assert lines[0] in lines;
    assert Pair(101, 1) in Pairs(lines) && Pair(201, 1) in Pairs(lines);
    assert Conflict(1, Pair(101, 1), Pair(201, 1));
    AmbiguousIff(lines, t, 1);
  }

  /** The mesh node that serves a node. */
  ghost function Serving(lines: seq<Line>, w: Who, u: Node): int
    requires Exists(Topo(lines, w), u)
  {
    match u
    case Backhaul => 1
    case Mesh(x) => x
    case Sta(k) => PairOf(lines, w, k).mesh
    case Wired(k) => PairOf(lines, w, k).mesh
  }

  ghost function PairOf(lines: seq<Line>, w: Who, k: int): (p: Pair)
    requires k in Topo(lines, w).stas
    ensures p in Pairs(lines) && p.sta == k + 100
  {
    var p :| p in Pairs(lines) && p.sta - 100 == k;
    p
  }

  function Level(u: Node): nat {
    match u
    case Backhaul => 1
    case Mesh(_) => 0
    case Sta(_) => 1
    case Wired(_) => 2
  }

  ghost function Dist(lines: seq<Line>, w: Who, u: Node, v: Node): nat
    requires Exists(Topo(lines, w), u) && Exists(Topo(lines, w), v)
  {
    if u == v then 0
    else if Chain.SameStation(u, v) && !u.Backhaul? && !v.Backhaul? && !u.Mesh? && !v.Mesh? then 1
    else Level(u) + Level(v) + if Serving(lines, w, u) == Serving(lines, w, v) then 0 else 1
  }

  ghost function Toward(lines: seq<Line>, w: Who, u: Node, v: Node): Node
    requires Exists(Topo(lines, w), u) && Exists(Topo(lines, w), v)
  {
    match u
    case Backhaul => Mesh(1)
    case Wired(k) => Sta(k)
    case Sta(k) => if v == Wired(k) then v else Mesh(Serving(lines, w, u))
    case Mesh(x) =>
      if Serving(lines, w, v) != x then Mesh(Serving(lines, w, v))
      else if v.Sta? || v.Wired? then Sta(v.k)
      else v
  }

  lemma TowardIsCloser(lines: seq<Line>, w: Who, u: Node, v: Node)
    requires Sound(lines, w) && Exists(Topo(lines, w), u) && Exists(Topo(lines, w), v) && u != v && !v.Mesh?
    ensures Exists(Topo(lines, w), Toward(lines, w, u, v))
    ensures Dist(lines, w, Toward(lines, w, u, v), v) + 1 == Dist(lines, w, u, v)
  {
    if u.Sta? { PairsAreLines(lines, PairOf(lines, w, u.k)); }
    if v.Sta? || v.Wired? { PairsAreLines(lines, PairOf(lines, w, v.k)); }
  }

  lemma MeshHop(lines: seq<Line>, w: Who, t: Tables, x: int, v: Node, dst: Addr)
    requires Sound(lines, w) && Generated(lines, t) && x in MeshNodes(lines)
    requires !v.Mesh? && Owns(Topo(lines, w), v, dst)
    ensures NextHop(Topo(lines, w), t, Mesh(x), dst) == Some(Toward(lines, w, Mesh(x), v))
  {
    var topo, pairs := Topo(lines, w), Pairs(lines);
    assert IsMeshTable(pairs, x, TableOf(t, Mesh(x)));
    UniqueIff(topo);
    var next := Toward(lines, w, Mesh(x), v);
    if v.Backhaul? {
      Chain.HopIs(topo, t, Mesh(x), dst, BackhaulRow(x), next);
    } else {
      var p := PairOf(lines, w, v.k);
      PairsAreLines(lines, p);
      var row := RouteTo(x, p, dst);
      assert PairRow(x, p, row);
      forall r | r in TableOf(t, Mesh(x)) && Matches(r.target, dst)
        ensures r == row || Len(r.target) < Len(row.target)
      {
        if r != BackhaulRow(x) {
          var q :| q in pairs && PairRow(x, q, r);
          SameStation(lines, w, p, q, v, dst);
        }
      }
      Chain.HopIs(topo, t, Mesh(x), dst, row, next);
    }
  }

  /** Two lines whose stations share an address are about the same station. */
  lemma SameStation(lines: seq<Line>, w: Who, p: Pair, q: Pair, v: Node, dst: Addr)
    requires Sound(lines, w) && p in Pairs(lines) && q in Pairs(lines)
    requires (v == Sta(p.sta - 100) || v == Wired(p.sta - 100)) && Owns(Topo(lines, w), v, dst)
    requires StationAddr(q.sta, dst)
    ensures p == q
  {
    var topo, k := Topo(lines, w), q.sta - 100;
    UniqueIff(topo);
    assert k in topo.stas;
    assert Owns(topo, Sta(k), dst) || Owns(topo, Wired(k), dst);
  }

  lemma EdgeHop(lines: seq<Line>, w: Who, t: Tables, u: Node, v: Node, dst: Addr)
    requires Sound(lines, w) && Generated(lines, t) && !u.Mesh? && Exists(Topo(lines, w), u)
    requires u != v && !v.Mesh? && Owns(Topo(lines, w), v, dst)
    ensures NextHop(Topo(lines, w), t, u, dst) == Some(Toward(lines, w, u, v))
  {
    var topo, pairs, next := Topo(lines, w), Pairs(lines), Toward(lines, w, u, v);
    UniqueIff(topo);
    if u.Backhaul? {
      Chain.HopIs(topo, t, u, dst, TableOf(t, u)[0], next);
    } else {
      var p := PairOf(lines, w, u.k);
      var s := p.sta;
      PairsAreLines(lines, p);
      assert IsStaTable(pairs, u.k, TableOf(t, Sta(u.k))) && IsWiredTable(pairs, u.k, TableOf(t, Wired(u.k)));
      var row := if u.Wired? then WiredRow(p)
                 else if v == Wired(u.k) then Row(Host(dst), Sta2wIp(s), None)
                 else Row(Any, Addr(3, s), Some(ApIp(p.mesh)));
      assert u.Sta? ==> StaRow(p, row);
      assert row in TableOf(t, u);
      forall r | r in TableOf(t, u) && Matches(r.target, dst)
        ensures r == row || Len(r.target) < Len(row.target)
      {
        if u.Sta? {
          var q :| q in pairs && q.sta == s && StaRow(q, r);
        } else {
          var q :| q in pairs && q.sta == s && r == WiredRow(q);
        }
      }
      Chain.HopIs(topo, t, u, dst, row, next);
    }
  }

  /**
   * For every sound input, every node reaches the backhaul and every address of every station and
   * wired host, along the shortest path.
   */
  lemma {:induction false} AllDelivered(lines: seq<Line>, w: Who, t: Tables, u: Node, v: Node, dst: Addr)
    requires Sound(lines, w) && Generated(lines, t)
    requires Exists(Topo(lines, w), u) && !v.Mesh? && Owns(Topo(lines, w), v, dst)
    ensures Delivers(Topo(lines, w), t, u, dst, Dist(lines, w, u, v))
    decreases Dist(lines, w, u, v)
  {
    if u != v {
      var next := Toward(lines, w, u, v);
      TowardIsCloser(lines, w, u, v);
      AllDelivered(lines, w, t, next, v, dst);
      OnlyOwner(Topo(lines, w), u, v, dst);
      if u.Mesh? {
        MeshHop(lines, w, t, u.i, v, dst);
      } else {
        EdgeHop(lines, w, t, u, v, dst);
      }
      OneMoreHop(Topo(lines, w), t, u, next, dst, Dist(lines, w, next, v));
    }
  }

  /** Backhaul and wired hosts reach each other in at most 4 hops: 3 for stations of node 1, else 4. */
  lemma FourHops(lines: seq<Line>, w: Who, t: Tables, p: Pair)
    requires Sound(lines, w) && Generated(lines, t) && p in Pairs(lines)
    ensures var d := if p.mesh == 1 then 3 else 4;
            && Delivers(Topo(lines, w), t, Backhaul, WiredStaIp(p.sta), d)
            && Delivers(Topo(lines, w), t, Wired(p.sta - 100), Addr(1, 1), d)
  {
    var k := p.sta - 100;
    assert k in Topo(lines, w).stas;
    AllDelivered(lines, w, t, Backhaul, Wired(k), WiredStaIp(p.sta));
    AllDelivered(lines, w, t, Wired(k), Backhaul, Addr(1, 1));
  }
}

/** Enumerators of parameter sets: scripts/modules/enumerators.py. */
module Enumerators {
  import opened Words

  datatype Value = Num(n: int) | Str(s: string)

  type Assignment = map<string, Value>

  /** A variable and the values it ranges over. */
  datatype Var = Var(key: string, values: seq<Value>)

  /** An ordered dict of variables has no key twice. */
  ghost predicate IsDict(vars: seq<Var>) {
    forall i, j :: 0 <= i < j < |vars| ==> vars[i].key != vars[j].key
  }

  // --- specification ---

  /** A copy of d2, updated with d1. */
  function Join(d2: Assignment, d1: Assignment): Assignment {
    d2 + d1
  }

  lemma JoinUnit(x: Assignment)
    ensures Join(x, map[]) == x && Join(map[], x) == x
  {
  }

  /** d2.update(d1) for every d2, in turn. */
  function Row(d1: Assignment, e: seq<Assignment>): (r: seq<Assignment>)
    ensures |r| == |e| && forall j :: 0 <= j < |e| ==> r[j] == Join(e[j], d1)
  {
    seq(|e|, j requires 0 <= j < |e| => Join(e[j], d1))
  }

  /** Every element of x joined with every element of y; x varies slowest and wins. */
  function Product(x: seq<Assignment>, y: seq<Assignment>): seq<Assignment> {
    if x == [] then [] else Product(x[..|x| - 1], y) + Row(x[|x| - 1], y)
  }

  /** The assignments of a single variable. */
  function Single(v: Var): (r: seq<Assignment>)
    ensures |r| == |v.values| && forall j :: 0 <= j < |r| ==> r[j] == map[v.key := v.values[j]]
  {
    seq(|v.values|, j requires 0 <= j < |v.values| => map[v.key := v.values[j]])
  }

  function Cartesian(vars: seq<Var>): seq<Assignment> {
    if vars == [] then []
    else if |vars| == 1 then Single(vars[0])
    else Product(Single(vars[0]), Cartesian(vars[1..]))
  }

  function CartesianExt(enums: seq<seq<Assignment>>): seq<Assignment> {
    if enums == [] then []
    else if |enums| == 1 then enums[0]
    else Product(CartesianExt(enums[..|enums| - 1]), enums[|enums| - 1])
  }

  function Union(enums: seq<seq<Assignment>>): seq<Assignment> {
    if enums == [] then [] else Union(enums[..|enums| - 1]) + enums[|enums| - 1]
  }

  // --- the generators ---

  method EnumCartesian(vars: seq<Var>) returns (out: seq<Assignment>)
    requires IsDict(vars)
    ensures out == Cartesian(vars)
    decreases |vars|
  {
    if |vars| == 0 {
      return [];
    }
    if |vars| == 1 {
      out := OneKey(vars[0]);
      return;
    }
    var key := vars[0].key;
    var dict2 := WithoutFirstKey(vars);
    out := [];
    ghost var heads := Single(vars[0]);
    for i := 0 to |vars[0].values|
      invariant out == Product(heads[..i], Cartesian(dict2))
    {
      var ds := EnumCartesian(dict2);
      var row := SetInAll(ds, key, vars[0].values[i]);
      out := out + row;
      ProductStep(heads, Cartesian(dict2), i);
    }
    assert heads[..|heads|] == heads;
  }

  /** The case of one variable. */
  method OneKey(v: Var) returns (out: seq<Assignment>)
    ensures out == Single(v)
  {
    out := [];
    for i := 0 to |v.values|
      invariant out == Single(v)[..i]
    {
      out := out + [map[v.key := v.values[i]]];
    }
  }

  /** The loop that copies all variables but the first key's. */
  method WithoutFirstKey(vars: seq<Var>) returns (dict2: seq<Var>)
    requires IsDict(vars) && vars != []
    ensures dict2 == vars[1..]
  {
    dict2 := [];
    for i := 0 to |vars|
      invariant dict2 == if i == 0 then [] else vars[1..i]
    {
      if vars[i].key != vars[0].key {
        dict2 := dict2 + [vars[i]];
      }
    }
  }

  /** d[key] = v for every d. */
  method SetInAll(ds: seq<Assignment>, key: string, v: Value) returns (out: seq<Assignment>)
    ensures out == Row(map[key := v], ds)
  {
    out := [];
    for j := 0 to |ds|
      invariant out == Row(map[key := v], ds)[..j]
    {
      var d := ds[j];
      d := d[key := v];
      assert d == Join(ds[j], map[key := v]);
      out := out + [d];
    }
  }

  lemma ProductStep(x: seq<Assignment>, y: seq<Assignment>, i: nat)
    requires i < |x|
    ensures Product(x[..i + 1], y) == Product(x[..i], y) + Row(x[i], y)
  {
    assert x[..i + 1][..i] == x[..i];
  }

  method EnumCartesianExt(enums: seq<seq<Assignment>>) returns (out: seq<Assignment>)
    ensures out == CartesianExt(enums)
    decreases |enums|
  {
    if |enums| == 0 {
      return [];
    }
    var e := enums[|enums| - 1];
    if |enums| == 1 {
      return e;
    }
    out := [];
    var ds := EnumCartesianExt(enums[..|enums| - 1]);
    for i := 0 to |ds|
      invariant out == Product(ds[..i], e)
    {
      var row := UpdateAll(e, ds[i]);
      out := out + row;
      ProductStep(ds, e, i);
    }
    assert ds[..|ds|] == ds;
  }

  /** dict(d2).update(d1) for every d2. */
  method UpdateAll(e: seq<Assignment>, d1: Assignment) returns (out: seq<Assignment>)
    ensures out == Row(d1, e)
  {
    out := [];
    for j := 0 to |e|
      invariant out == Row(d1, e)[..j]
    {
      var d2 := e[j];
      d2 := Join(d2, d1);
      out := out + [d2];
    }
  }

  method EnumUnion(enums: seq<seq<Assignment>>) returns (out: seq<Assignment>)
    ensures out == Union(enums)
  {
    out := [];
    for i := 0 to |enums|
      invariant out == Union(enums[..i])
    {
      ghost var done := out;
      for j := 0 to |enums[i]|
        invariant out == done + enums[i][..j]
      {
        out := out + [enums[i][j]];
      }
      assert enums[..i + 1][..i] == enums[..i];
      assert enums[i][..|enums[i]|] == enums[i];
    }
    assert enums[..|enums|] == enums;
  }

  /** How many elements the first i enumerators have. */
  ghost function Before(enums: seq<seq<Assignment>>, i: nat): nat
    requires i <= |enums|
  {
    if i == 0 then 0 else Before(enums, i - 1) + |enums[i - 1]|
  }

  /** A union has all elements, one enumerator after the other. */
  lemma {:induction false} UnionAt(enums: seq<seq<Assignment>>, i: nat, j: nat)
    requires i < |enums| && j < |enums[i]|
    ensures |Union(enums)| == Before(enums, |enums|)
    ensures Before(enums, i) + j < |Union(enums)| && Union(enums)[Before(enums, i) + j] == enums[i][j]
  {
    var k := |enums| - 1;
    UnionLength(enums, k);
    UnionLength(enums, |enums|);
    assert enums[..|enums|] == enums;
    if i < k {
      UnionAt(enums[..k], i, j);
      BeforePrefix(enums, k, i);
    }
  }

  lemma {:induction false} UnionLength(enums: seq<seq<Assignment>>, i: nat)
    requires i <= |enums|
    ensures |Union(enums[..i])| == Before(enums, i)
  {
    if i > 0 {
      UnionLength(enums, i - 1);
      assert enums[..i][..i - 1] == enums[..i - 1];
    }
  }

  lemma {:induction false} BeforePrefix(enums: seq<seq<Assignment>>, k: nat, i: nat)
    requires i <= k <= |enums|
    ensures Before(enums[..k], i) == Before(enums, i)
  {
    if i > 0 { BeforePrefix(enums, k, i - 1); }
  }

  // --- products ---

  lemma {:induction false} ProductConcat(x: seq<Assignment>, w: seq<Assignment>, y: seq<Assignment>)
    ensures Product(x + w, y) == Product(x, y) + Product(w, y)
  {
    if w == [] {
      assert x + w == x;
    } else {
      var init, last := w[..|w| - 1], w[|w| - 1];
      ProductConcat(x, init, y);
      ConcatAssociative(x, init, [last]);
      ConcatAssociative(Product(x, y), Product(init, y), Row(last, y));
      assert w == init + [last];
    }
  }

  lemma ConcatAssociative(a: seq<Assignment>, b: seq<Assignment>, c: seq<Assignment>)
    ensures (a + b) + c == a + (b + c)
  {
  }

  lemma RowOfRow(d: Assignment, e: Assignment, z: seq<Assignment>)
    ensures Row(Join(e, d), z) == Row(d, Row(e, z))
  {
    assert forall j :: 0 <= j < |z| ==> Row(Join(e, d), z)[j] == Row(d, Row(e, z))[j];
  }

  /** A row of a product is a product of a row. */
  lemma {:induction false} RowOfProduct(d: Assignment, y: seq<Assignment>, z: seq<Assignment>)
    ensures Product(Row(d, y), z) == Row(d, Product(y, z))
  {
    if y != [] {
      var k := |y| - 1;
      RowOfProduct(d, y[..k], z);
      assert Row(d, y)[..k] == Row(d, y[..k]);
      RowOfRow(d, y[k], z);
    }
  }

  lemma {:induction false} ProductAssociative(x: seq<Assignment>, y: seq<Assignment>, z: seq<Assignment>)
    ensures Product(Product(x, y), z) == Product(x, Product(y, z))
  {
    if x != [] {
      var k := |x| - 1;
      ProductAssociative(x[..k], y, z);
      ProductConcat(Product(x[..k], y), Row(x[k], y), z);
      RowOfProduct(x[k], y, z);
    }
  }

  const UNIT: seq<Assignment> := [map[]]

  lemma {:induction false} ProductUnit(x: seq<Assignment>)
    ensures Product(x, UNIT) == x
  {
    if x != [] {
      var k := |x| - 1;
      ProductUnit(x[..k]);
      JoinUnit(x[k]);
      assert Row(x[k], UNIT) == [x[k]];
      assert x == x[..k] + [x[k]];
    }
  }

  lemma UnitProduct(x: seq<Assignment>)
    ensures Product(UNIT, x) == x
  {
    assert UNIT[..0] == [];
    assert Product(UNIT, x) == Product([], x) + Row(map[], x);
    forall j | 0 <= j < |x|
      ensures Row(map[], x)[j] == x[j]
    {
      JoinUnit(x[j]);
    }
  }

  // --- cartesian_ext is associative ---

  lemma {:induction false} ExtSplit(a: seq<seq<Assignment>>, b: seq<seq<Assignment>>)
    requires a != [] && b != []
    ensures CartesianExt(a + b) == Product(CartesianExt(a), CartesianExt(b))
    decreases |b|
  {
    var k := |b| - 1;
    assert (a + b)[..|a + b| - 1] == a + b[..k];
    if k == 0 {
      assert a + b[..k] == a;
    } else {
      ExtSplit(a, b[..k]);
      ProductAssociative(CartesianExt(a), CartesianExt(b[..k]), b[k]);
    }
  }

  /** Nesting one cartesian_ext enumerator in another makes no difference. */
  lemma ExtAssociative(a: seq<seq<Assignment>>, b: seq<seq<Assignment>>, c: seq<seq<Assignment>>)
    requires b != []
    ensures CartesianExt(a + [CartesianExt(b)] + c) == CartesianExt(a + b + c)
  {
    var m := [CartesianExt(b)];
    assert CartesianExt(m) == CartesianExt(b);
    if a == [] {
      assert a + m == m && a + b == b;
    } else {
      ExtSplit(a, m);
      ExtSplit(a, b);
    }
    if c == [] {
      assert a + m + c == a + m && a + b + c == a + b;
    } else {
      ExtSplit(a + m, c);
      ExtSplit(a + b, c);
    }
  }

  /** An enumerator of just the empty assignment can be dropped, if another one remains. */
  lemma ExtUnit(a: seq<seq<Assignment>>, c: seq<seq<Assignment>>)
    requires a != [] || c != []
    ensures CartesianExt(a + [UNIT] + c) == CartesianExt(a + c)
  {
    var m := [UNIT];
    assert CartesianExt(m) == UNIT;
    if a == [] {
      assert a + m + c == m + c && a + c == c;
      ExtSplit(m, c);
      UnitProduct(CartesianExt(c));
    } else {
      ExtSplit(a, m);
      ProductUnit(CartesianExt(a));
      if c == [] {
        assert a + m + c == a + m && a + c == a;
      } else {
        ExtSplit(a + m, c);
        ExtSplit(a, c);
      }
    }
  }

  // --- cartesian is cartesian_ext over its one-key parts ---

  function Parts(vars: seq<Var>): (p: seq<seq<Assignment>>)
    ensures |p| == |vars| && forall i :: 0 <= i < |vars| ==> p[i] == Cartesian([vars[i]])
  {
    seq(|vars|, i requires 0 <= i < |vars| => Cartesian([vars[i]]))
  }

  lemma {:induction false} CartesianIsExt(vars: seq<Var>)
    ensures Cartesian(vars) == CartesianExt(Parts(vars))
  {
    if |vars| > 1 {
      CartesianIsExt(vars[1..]);
      PartsSplit(vars);
      ExtSplit([Single(vars[0])], Parts(vars[1..]));
    }
  }

  lemma PartsSplit(vars: seq<Var>)
    requires vars != []
    ensures Parts(vars) == [Single(vars[0])] + Parts(vars[1..])
    ensures CartesianExt([Single(vars[0])]) == Single(vars[0])
  {
  }

  // --- what is enumerated ---

  function Keys(vars: seq<Var>): set<string> {
    set i | 0 <= i < |vars| :: vars[i].key
  }

  /** d gives each variable one of its values, and nothing else. */
  ghost predicate Combination(vars: seq<Var>, d: Assignment) {
    && d.Keys == Keys(vars)
    && forall i :: 0 <= i < |vars| ==> vars[i].key in d && d[vars[i].key] in vars[i].values
  }

  /** d is a member of y joined with a member of x. */
  ghost predicate Joins(x: seq<Assignment>, y: seq<Assignment>, d: Assignment) {
    exists i, j :: 0 <= i < |x| && 0 <= j < |y| && d == Join(y[j], x[i])
  }

  lemma {:induction false} InProduct(x: seq<Assignment>, y: seq<Assignment>, d: Assignment)
    ensures d in Product(x, y) <==> Joins(x, y, d)
  {
    if x != [] {
      InProduct(x[..|x| - 1], y, d);
    }
  }

  /** The enumeration is exactly the set of all combinations. */
  lemma {:induction false} CartesianIsAll(vars: seq<Var>, d: Assignment)
    requires IsDict(vars) && vars != []
    ensures d in Cartesian(vars) <==> Combination(vars, d)
    decreases |vars|
  {
    if |vars| == 1 {
      SingleIsAll(vars, d);
    } else {
      var heads, tails := Single(vars[0]), Cartesian(vars[1..]);
      InProduct(heads, tails, d);
      if Joins(heads, tails, d) {
        var i, j :| 0 <= i < |heads| && 0 <= j < |tails| && d == Join(tails[j], heads[i]);
        CartesianIsAll(vars[1..], tails[j]);
        JoinIsCombination(vars, vars[0].values[i], tails[j]);
      }
      if Combination(vars, d) {
        var e := map k | k in d && k != vars[0].key :: d[k];
        SplitCombination(vars, d, e);
        CartesianIsAll(vars[1..], e);
        CombinationJoins(vars[0], tails, d, e);
      }
    }
  }

  lemma CombinationJoins(v: Var, tails: seq<Assignment>, d: Assignment, e: Assignment)
    requires e in tails && v.key in d && d[v.key] in v.values && d == e + map[v.key := d[v.key]]
    ensures Joins(Single(v), tails, d)
  {
  }

  lemma SingleIsAll(vars: seq<Var>, d: Assignment)
    requires |vars| == 1
    ensures d in Single(vars[0]) <==> Combination(vars, d)
  {
    var v := vars[0];
    assert Keys(vars) == {v.key};
    if Combination(vars, d) {
      var j :| 0 <= j < |v.values| && v.values[j] == d[v.key];
      assert d == Single(v)[j];
    }
  }

  lemma JoinIsCombination(vars: seq<Var>, x: Value, e: Assignment)
    requires IsDict(vars) && |vars| > 1 && x in vars[0].values && Combination(vars[1..], e)
    ensures Combination(vars, e + map[vars[0].key := x])
  {
  }

  lemma SplitCombination(vars: seq<Var>, d: Assignment, e: Assignment)
    requires IsDict(vars) && |vars| > 1 && Combination(vars, d)
    requires e == map k | k in d && k != vars[0].key :: d[k]
    ensures Combination(vars[1..], e) && d == e + map[vars[0].key := d[vars[0].key]]
  {
  }

  lemma KeysStep(vars: seq<Var>)
    requires vars != []
    ensures Keys(vars) == Keys(vars[1..]) + {vars[0].key}
  {
    forall k | k in Keys(vars)
      ensures k in Keys(vars[1..]) + {vars[0].key}
    {
      var i :| 0 <= i < |vars| && vars[i].key == k;
      if i > 0 {
        assert vars[1..][i - 1].key == k;
      }
    }
  }

  function Count(vars: seq<Var>): nat {
    if vars == [] then 1 else ProductOf(|vars[0].values|, Count(vars[1..]))
  }

  function ProductOf(a: nat, b: nat): nat {
    MulNonNegative(a, b);
    a * b
  }

  lemma {:induction false} ProductLength(x: seq<Assignment>, y: seq<Assignment>)
    ensures |Product(x, y)| == |x| * |y|
  {
    if x != [] {
      ProductLength(x[..|x| - 1], y);
      assert |x| * |y| == (|x| - 1) * |y| + |y|;
    }
  }

  /** d is x over y: the keys of both, with x's values where it has any. */
  ghost predicate Overrides(d: Assignment, x: Assignment, y: Assignment) {
    && d.Keys == x.Keys + y.Keys
    && forall k :: k in d ==> d[k] == if k in x then x[k] else y[k]
  }

  /** The order of a product: the first factor varies slowest, and it wins. */
  lemma {:induction false} ProductAt(x: seq<Assignment>, y: seq<Assignment>, i: nat, j: nat)
    requires i < |x| && j < |y|
    ensures i * |y| + j < |Product(x, y)| && Overrides(Product(x, y)[i * |y| + j], x[i], y[j])
  {
    var k := |x| - 1;
    ProductLength(x, y);
    ProductLength(x[..k], y);
    if i < k {
      ProductAt(x[..k], y, i, j);
    }
  }

  /** Two enumerators, the first of which may be a cartesian_ext itself: the first one varies slowest and wins. */
  lemma ExtAt(enums: seq<seq<Assignment>>, y: seq<Assignment>, i: nat, j: nat)
    requires enums != [] && i < |CartesianExt(enums)| && j < |y|
    ensures var all := CartesianExt(enums + [y]);
            i * |y| + j < |all| && Overrides(all[i * |y| + j], CartesianExt(enums)[i], y[j])
  {
    assert (enums + [y])[..|enums|] == enums;
    ProductAt(CartesianExt(enums), y, i, j);
  }

  /** A choice of one value for each variable. */
  ghost predicate Choice(vars: seq<Var>, choice: seq<nat>) {
    |choice| == |vars| && forall i :: 0 <= i < |vars| ==> choice[i] < |vars[i].values|
  }

  /** Its place if the first variable varies slowest. */
  ghost function Rank(vars: seq<Var>, choice: seq<nat>): nat
    requires Choice(vars, choice)
  {
    if vars == [] then 0
    else ProductOf(choice[0], Count(vars[1..])) + Rank(vars[1..], choice[1..])
  }

  /** The order of the enumeration: each choice is at its rank. */
  lemma {:induction false} CartesianAt(vars: seq<Var>, choice: seq<nat>)
    requires IsDict(vars) && vars != [] && Choice(vars, choice)
    ensures var at := Rank(vars, choice);
            && at < |Cartesian(vars)|
            && forall i :: 0 <= i < |vars| ==>
                 var d := Cartesian(vars)[at];
                 vars[i].key in d && d[vars[i].key] == vars[i].values[choice[i]]
    decreases |vars|
  {
    if |vars| == 1 {
      assert Rank(vars[1..], choice[1..]) == 0 && Count(vars[1..]) == 1;
    } else {
      var v, rest := vars[0], vars[1..];
      var at := Rank(rest, choice[1..]);
      CartesianAt(rest, choice[1..]);
      CartesianLength(rest);
      ProductAt(Single(v), Cartesian(rest), choice[0], at);
      var d, e := Cartesian(vars)[Rank(vars, choice)], Cartesian(rest)[at];
      assert Overrides(d, map[v.key := v.values[choice[0]]], e);
      forall i | 0 <= i < |vars|
        ensures vars[i].key in d && d[vars[i].key] == vars[i].values[choice[i]]
      {
        if i > 0 {
          assert rest[i - 1] == vars[i] && vars[i].key in e;
        }
      }
    }
  }

  ghost predicate NoRepeats<T>(s: seq<T>) {
    forall i, j :: 0 <= i < j < |s| ==> s[i] != s[j]
  }

  /** As many as the product of the list lengths. */
  lemma {:induction false} CartesianLength(vars: seq<Var>)
    requires vars != []
    ensures |Cartesian(vars)| == Count(vars)
  {
    if |vars| == 1 {
      assert Count(vars[1..]) == 1;
    } else {
      CartesianLength(vars[1..]);
      ProductLength(Single(vars[0]), Cartesian(vars[1..]));
    }
  }

  /** No combination comes twice, if no value does. */
  lemma {:induction false} CartesianNoRepeats(vars: seq<Var>)
    requires IsDict(vars) && forall i :: 0 <= i < |vars| ==> NoRepeats(vars[i].values)
    ensures NoRepeats(Cartesian(vars))
  {
    if |vars| == 1 {
      SingleNoRepeats(vars[0]);
    } else if |vars| > 1 {
      var v, rest := vars[0], vars[1..];
      CartesianNoRepeats(rest);
      SingleNoRepeats(v);
      KeysStep(vars);
      forall j | 0 <= j < |Cartesian(rest)|
        ensures Cartesian(rest)[j].Keys == Keys(rest)
      {
        assert Cartesian(rest)[j] in Cartesian(rest);
        CartesianIsAll(rest, Cartesian(rest)[j]);
      }
      assert v.key !in Keys(rest);
      ProductNoRepeats(Single(v), {v.key}, Cartesian(rest), Keys(rest));
    }
  }

  lemma SingleNoRepeats(v: Var)
    requires NoRepeats(v.values)
    ensures NoRepeats(Single(v)) && forall i :: 0 <= i < |Single(v)| ==> Single(v)[i].Keys == {v.key}
  {
    forall i, j | 0 <= i < j < |v.values|
      ensures Single(v)[i] != Single(v)[j]
    {
      assert Single(v)[i][v.key] != Single(v)[j][v.key];
    }
  }

  /** Joining assignments of separate keys loses nothing. */
  lemma JoinInjective(a: Assignment, b: Assignment, x: Assignment, y: Assignment)
    requires a.Keys == b.Keys && x.Keys == y.Keys && a.Keys !! x.Keys && a + x == b + y
    ensures a == b && x == y
  {
    forall k | k in a ensures a[k] == b[k] {
      assert (a + x)[k] == a[k] && (b + y)[k] == b[k];
    }
    forall k | k in x ensures x[k] == y[k] {
      assert (a + x)[k] == x[k] && (b + y)[k] == y[k];
    }
  }

  lemma {:induction false} ProductNoRepeats(x: seq<Assignment>, kx: set<string>, y: seq<Assignment>, ky: set<string>)
    requires NoRepeats(x) && NoRepeats(y) && kx !! ky
    requires forall i :: 0 <= i < |x| ==> x[i].Keys == kx
    requires forall j :: 0 <= j < |y| ==> y[j].Keys == ky
    ensures NoRepeats(Product(x, y))
    decreases |x|
  {
    if x != [] {
      var k := |x| - 1;
      var p, r := Product(x[..k], y), Row(x[k], y);
      ProductNoRepeats(x[..k], kx, y, ky);
      forall i, j | 0 <= i < j < |r| ensures r[i] != r[j] {
        if r[i] == r[j] {
          JoinInjective(y[i], y[j], x[k], x[k]);
        }
      }
      forall i, j | 0 <= i < |p| && 0 <= j < |r| ensures p[i] != r[j] {
        RowIsNew(x, kx, y, ky, i, j);
      }
    }
  }

  lemma RowIsNew(x: seq<Assignment>, kx: set<string>, y: seq<Assignment>, ky: set<string>, i: nat, j: nat)
    requires x != [] && NoRepeats(x) && kx !! ky && j < |y|
    requires forall a :: 0 <= a < |x| ==> x[a].Keys == kx
    requires forall b :: 0 <= b < |y| ==> y[b].Keys == ky
    requires i < |Product(x[..|x| - 1], y)|
    ensures Product(x[..|x| - 1], y)[i] != Row(x[|x| - 1], y)[j]
  {
    var k := |x| - 1;
    var d := Product(x[..k], y)[i];
    assert d in Product(x[..k], y);
    InProduct(x[..k], y, d);
    var a, b :| 0 <= a < k && 0 <= b < |y| && d == Join(y[b], x[..k][a]);
    assert x[a] != x[k];
    if d == Join(y[j], x[k]) {
      JoinInjective(y[b], y[j], x[a], x[k]);
    }
  }

  // --- enumerators from descriptions ---

  datatype Description =
    | CartesianOf(vars: seq<Var>)
    | CartesianExtOf(enums: seq<Description>)
    | UnionOf(enums: seq<Description>)
    | ListOf(list: seq<Assignment>)
    | SingletonOf(vals: Assignment)
    | UnknownType(tp: string)

  /** What a description stands for; none if it is of no known type, or contains one that is not. */
  function Enumerate(d: Description): Option<seq<Assignment>> {
    match d
    case CartesianOf(vars) => Some(Cartesian(vars))
    case CartesianExtOf(enums) =>
      var es := EnumerateAll(enums);
      if es.Some? then Some(CartesianExt(es.value)) else None
    case UnionOf(enums) =>
      var es := EnumerateAll(enums);
      if es.Some? then Some(Union(es.value)) else None
    case ListOf(list) => Some(list)
    case SingletonOf(vals) => Some([vals])
    case UnknownType(_) => None
  }

  function EnumerateAll(ds: seq<Description>): (r: Option<seq<seq<Assignment>>>)
    ensures r.Some? ==> |r.value| == |ds| && forall i :: 0 <= i < |ds| ==> Enumerate(ds[i]) == Some(r.value[i])
    ensures r.None? <==> exists i :: 0 <= i < |ds| && Enumerate(ds[i]).None?
  {
    if ds == [] then Some([])
    else
      var e, es := Enumerate(ds[0]), EnumerateAll(ds[1..]);
      if e.Some? && es.Some? then Some([e.value] + es.value) else None
  }

  /** What iterating over a generator comes to: the elements yielded, and whether it raises after them. */
  datatype Outcome = Outcome(emitted: seq<Assignment>, raises: bool)

  /** `for d in e`, which raises at once if there is no enumerator. */
  function Iterating(e: Option<Outcome>): Outcome {
    if e.Some? then e.value else Outcome([], true)
  }

  function UnionRun(es: seq<Outcome>): Outcome {
    if es == [] then Outcome([], false)
    else
      var r, e := UnionRun(es[..|es| - 1]), es[|es| - 1];
      if r.raises then r else Outcome(r.emitted + e.emitted, e.raises)
  }

  /** The last enumerator is listed first, then the others are run. */
  function ExtRun(es: seq<Outcome>): Outcome {
    if es == [] then Outcome([], false)
    else if |es| == 1 then es[0]
    else
      var e, r := es[|es| - 1], ExtRun(es[..|es| - 1]);
      if e.raises then Outcome([], true) else Outcome(Product(r.emitted, e.emitted), r.raises)
  }

  /** The enumerator made from a description; an unknown type is reported and gives none. */
  function GetEnumerator(d: Description): Option<Outcome> {
    match d
    case CartesianOf(vars) => Some(Outcome(Cartesian(vars), false))
    case CartesianExtOf(enums) => Some(ExtRun(GetAll(enums)))
    case UnionOf(enums) => Some(UnionRun(GetAll(enums)))
    case ListOf(list) => Some(Outcome(list, false))
    case SingletonOf(vals) => Some(Outcome([vals], false))
    case UnknownType(_) => None
  }

  function GetAll(ds: seq<Description>): (es: seq<Outcome>)
    ensures |es| == |ds| && forall i :: 0 <= i < |ds| ==> es[i] == Iterating(GetEnumerator(ds[i]))
  {
    if ds == [] then [] else [Iterating(GetEnumerator(ds[0]))] + GetAll(ds[1..])
  }

  function Emitted(es: seq<Outcome>): (r: seq<seq<Assignment>>)
    ensures |r| == |es| && forall i :: 0 <= i < |es| ==> r[i] == es[i].emitted
  {
    seq(|es|, i requires 0 <= i < |es| => es[i].emitted)
  }

  ghost predicate SomeRaises(es: seq<Outcome>) {
    exists i :: 0 <= i < |es| && es[i].raises
  }

  lemma RaisesStep(es: seq<Outcome>)
    requires es != []
    ensures SomeRaises(es) <==> SomeRaises(es[..|es| - 1]) || es[|es| - 1].raises
    ensures |es| > 1 ==> (SomeRaises(es[1..]) <==> SomeRaises(es[..|es| - 1][1..]) || es[|es| - 1].raises)
  {
    var p := es[..|es| - 1];
    assert es == p + [es[|es| - 1]];
    if |es| > 1 {
      assert es[1..] == p[1..] + [es[|es| - 1]];
    }
  }

  lemma EmittedStep(es: seq<Outcome>)
    requires es != []
    ensures Emitted(es) == Emitted(es[..|es| - 1]) + [es[|es| - 1].emitted]
    ensures Emitted(es)[..|es| - 1] == Emitted(es[..|es| - 1])
  {
  }

  /** A union raises if an enumerator does, and else yields all they yield. */
  lemma {:induction false} UnionRunIff(es: seq<Outcome>)
    ensures UnionRun(es).raises <==> SomeRaises(es)
    ensures !SomeRaises(es) ==> UnionRun(es).emitted == Union(Emitted(es))
  {
    if es != [] {
      UnionRunIff(es[..|es| - 1]);
      RaisesStep(es);
      EmittedStep(es);
    }
  }

  /** If it raises, it has yielded everything before the first enumerator that does, and what that one yields. */
  lemma {:induction false} UnionYieldsUpTo(es: seq<Outcome>, k: nat)
    requires k < |es| && es[k].raises && !SomeRaises(es[..k])
    ensures UnionRun(es).emitted == Union(Emitted(es[..k])) + es[k].emitted
    decreases |es|
  {
    var p := es[..|es| - 1];
    if k < |p| {
      assert p[..k] == es[..k];
      UnionYieldsUpTo(p, k);
      UnionRunIff(p);
    } else {
      UnionRunIff(es[..k]);
    }
  }

  /** A product raises if an enumerator does, and else yields the products of all they yield. */
  lemma {:induction false} ExtRunIff(es: seq<Outcome>)
    ensures ExtRun(es).raises <==> SomeRaises(es)
    ensures !SomeRaises(es) ==> ExtRun(es).emitted == CartesianExt(Emitted(es))
  {
    if es != [] {
      RaisesStep(es);
      EmittedStep(es);
      if |es| > 1 {
        ExtRunIff(es[..|es| - 1]);
      } else {
        assert es[..0] == [];
      }
    }
  }

  /** It yields nothing if any enumerator but the first raises. */
  lemma {:induction false} ExtYieldsNothing(es: seq<Outcome>)
    requires es != [] && SomeRaises(es[1..])
    ensures ExtRun(es).emitted == []
  {
    if |es| > 1 {
      RaisesStep(es);
      if !es[|es| - 1].raises {
        ExtYieldsNothing(es[..|es| - 1]);
      }
    }
  }

  /**
   * A description gives no enumerator exactly if its own type is unknown. Otherwise iterating
   * raises exactly if an unknown type is nested in it, and else yields what it stands for.
   */
  lemma {:induction false} GetEnumeratorIff(d: Description)
    ensures GetEnumerator(d).None? <==> d.UnknownType?
    ensures var r := Iterating(GetEnumerator(d));
            if r.raises then Enumerate(d).None? else Enumerate(d) == Some(r.emitted)
  {
    if d.CartesianExtOf? || d.UnionOf? {
      var es := GetAll(d.enums);
      forall i | 0 <= i < |d.enums|
        ensures if es[i].raises then Enumerate(d.enums[i]).None? else Enumerate(d.enums[i]) == Some(es[i].emitted)
      {
        GetEnumeratorIff(d.enums[i]);
      }
      UnionRunIff(es);
      ExtRunIff(es);
      var all := EnumerateAll(d.enums);
      if all.Some? {
        assert all.value == Emitted(es);
      }
    }
  }

  /** A cartesian description can be rewritten as a cartesian_ext of one-variable descriptions. */
  lemma CartesianRewrite(vars: seq<Var>)
    ensures var parts := seq(|vars|, i requires 0 <= i < |vars| => CartesianOf([vars[i]]));
            Enumerate(CartesianExtOf(parts)) == Enumerate(CartesianOf(vars))
  {
    var parts := seq(|vars|, i requires 0 <= i < |vars| => CartesianOf([vars[i]]));
    var es := EnumerateAll(parts);
    CartesianIsExt(vars);
    assert es.value == Parts(vars);
  }
}

module ProductTree {
  /**
   The recursive queries `GetHierarchy` and `GetAncestors` of `pkg/products/repository.go`,
   evaluated the way SQL evaluates a recursive query with UNION ALL: the working table is joined
   until it is empty, and nothing stops a row from coming back.
   */

  import opened Wrappers

  /** The columns of `products` the queries use. */
  datatype Product = Product(id: int, name: string, parent: Option<int>)

  /** A row of `product_tree`. */
  datatype Row = Row(id: int, name: string, depth: nat, path: string)

  ghost predicate DistinctIds(t: seq<Product>) {
    forall i, j :: 0 <= i < j < |t| ==> t[i].id != t[j].id
  }

  function Find(t: seq<Product>, id: int): (r: Option<Product>)
    ensures r.Some? ==> r.value in t && r.value.id == id
    ensures r.None? ==> forall p :: p in t ==> p.id != id
  {
    if t == [] then None else if t[0].id == id then Some(t[0]) else Find(t[1..], id)
  }

  lemma FindIs(t: seq<Product>, p: Product)
    requires DistinctIds(t) && p in t
    ensures Find(t, p.id) == Some(p)
  {
    var q := Find(t, p.id).value;
    var i :| 0 <= i < |t| && t[i] == p;
    var j :| 0 <= j < |t| && t[j] == q;
  }

  // ---------- the parent relation ----------

  /** The parent of a product, if it has one and that is in the table. */
  function ParentOf(t: seq<Product>, id: int): Option<int> {
    match Find(t, id)
    case None => None
    case Some(p) =>
      if p.parent.Some? && Find(t, p.parent.value).Some? then p.parent else None
  }

  /** `n` steps up from a product. */
  function Up(t: seq<Product>, id: int, n: nat): Option<int>
    decreases n
  {
    if Find(t, id).None? then None
    else if n == 0 then Some(id)
    else match ParentOf(t, id) { case None => None case Some(p) => Up(t, p, n - 1) }
  }

  ghost predicate OnCycle(t: seq<Product>, id: int) {
    exists n: nat :: n > 0 && Up(t, id, n) == Some(id)
  }

  lemma {:induction false} UpAdd(t: seq<Product>, y: int, m: nat, x: int, n: nat)
    requires Up(t, y, m) == Some(x)
    ensures Up(t, y, m + n) == Up(t, x, n)
    decreases m
  {
    if m > 0 {
      UpAdd(t, ParentOf(t, y).value, m - 1, x, n);
    }
  }

  function NameOf(t: seq<Product>, id: int): string {
    match Find(t, id) { case None => "" case Some(p) => p.name }
  }

  /** The names on the way down, joined by ` > `. */
  function PathOf(t: seq<Product>, id: int, n: nat): string
    decreases n
  {
    var name := NameOf(t, id);
    if n == 0 || ParentOf(t, id).None? then name
    else PathOf(t, ParentOf(t, id).value, n - 1) + " > " + name
  }

  // ---------- one join ----------

  function Matches(p: Product, working: seq<Row>): seq<Row> {
    if working == [] then []
    else (if p.parent == Some(working[0].id)
          then [Row(p.id, p.name, working[0].depth + 1, working[0].path + " > " + p.name)] else [])
         + Matches(p, working[1..])
  }

  /** `SELECT ... FROM products p JOIN product_tree pt ON p.parent_id = pt.id` */
  function Children(t: seq<Product>, working: seq<Row>): seq<Row> {
    if t == [] then [] else Matches(t[0], working) + Children(t[1..], working)
  }

  function Base(t: seq<Product>, x: int): seq<Row> {
    match Find(t, x) { case None => [] case Some(p) => [Row(x, p.name, 0, p.name)] }
  }

  /** The working table after `d` joins. */
  function Level(t: seq<Product>, x: int, d: nat): seq<Row> {
    if d == 0 then Base(t, x) else Children(t, Level(t, x, d - 1))
  }

  ghost predicate NoDuplicates(rows: seq<Row>) {
    forall i, j :: 0 <= i < j < |rows| ==> rows[i].id != rows[j].id
  }

  lemma {:induction false} NoMatch(p: Product, working: seq<Row>)
    requires forall w :: w in working ==> p.parent != Some(w.id)
    ensures Matches(p, working) == []
  {
    if working != [] {
      assert working[0] in working;
      NoMatch(p, working[1..]);
    }
  }

  ghost function ChildRow(p: Product, w: Row): Row {
    Row(p.id, p.name, w.depth + 1, w.path + " > " + p.name)
  }

  /** A product joins with at most one row of a working table without duplicates. */
  lemma {:induction false} MatchesIs(p: Product, working: seq<Row>)
    requires NoDuplicates(working)
    ensures |Matches(p, working)| <= 1
    ensures forall r :: r in Matches(p, working) <==>
      exists w :: w in working && p.parent == Some(w.id) && r == ChildRow(p, w)
  {
    if working != [] {
      var head, tail := working[0], working[1..];
      assert NoDuplicates(tail);
      assert working == [head] + tail;
      if p.parent == Some(head.id) {
        forall w | w in tail ensures p.parent != Some(w.id) {
          var i :| 0 <= i < |tail| && tail[i] == w;
          assert working[i + 1] == w;
        }
        NoMatch(p, tail);
        assert Matches(p, working) == [ChildRow(p, head)];
      } else {
        MatchesIs(p, tail);
        assert Matches(p, working) == Matches(p, tail);
      }
    }
  }

  /** Row `r` is a child of the working table. */
  ghost predicate IsChild(t: seq<Product>, working: seq<Row>, r: Row) {
    exists p, w :: p in t && w in working && p.parent == Some(w.id) && r == ChildRow(p, w)
  }

  lemma {:induction false} ChildrenAre(t: seq<Product>, working: seq<Row>)
    requires DistinctIds(t) && NoDuplicates(working)
    ensures forall r :: r in Children(t, working) <==> IsChild(t, working, r)
    ensures NoDuplicates(Children(t, working))
  {
    if t != [] {
      var head, tail := t[0], t[1..];
      assert t == [head] + tail;
      MatchesIs(head, working);
      ChildrenAre(tail, working);
      forall r ensures r in Children(t, working) <==> IsChild(t, working, r) {
        assert r in Children(t, working) <==> r in Matches(head, working) || r in Children(tail, working);
      }
      forall r | r in Children(tail, working) ensures r.id != head.id {
        var p, w :| p in tail && w in working && p.parent == Some(w.id) && r == ChildRow(p, w);
        var k :| 0 <= k < |tail| && tail[k] == p;
        assert t[k + 1] == p;
      }
      assert forall r :: r in Matches(head, working) ==> r.id == head.id;
      hide Matches, Children, IsChild;
      OneInFront(Matches(head, working), Children(tail, working), head.id);
    }
  }

  lemma OneInFront(first: seq<Row>, rest: seq<Row>, id: int)
    requires |first| <= 1 && NoDuplicates(rest)
    requires (forall r :: r in first ==> r.id == id) && (forall r :: r in rest ==> r.id != id)
    ensures NoDuplicates(first + rest)
  {
    var rows := first + rest;
    forall i, j | 0 <= i < j < |rows| ensures rows[i].id != rows[j].id {
      assert rows[j] == rest[j - |first|] && rows[j] in rest;
      if i < |first| {
        assert rows[i] in first;
      } else {
        assert rows[i] == rest[i - |first|];
      }
    }
  }

  // ---------- levels ----------

  /** Row `r` is right for the hierarchy of `x`: a descendant at its distance, with name and path. */
  ghost predicate IsDescendant(t: seq<Product>, x: int, r: Row) {
    && Up(t, r.id, r.depth) == Some(x)
    && r.name == NameOf(t, r.id) && r.path == PathOf(t, r.id, r.depth)
  }

  lemma ChildIsDescendant(t: seq<Product>, x: int, p: Product, w: Row)
    requires DistinctIds(t) && p in t && p.parent == Some(w.id) && IsDescendant(t, x, w)
    ensures IsDescendant(t, x, ChildRow(p, w))
  {
    FindIs(t, p);
    assert ParentOf(t, p.id) == Some(w.id);
  }

  lemma DescendantIsChild(t: seq<Product>, x: int, r: Row) returns (p: Product, w: Row)
    requires DistinctIds(t) && r.depth > 0 && IsDescendant(t, x, r)
    ensures p in t && p.parent == Some(w.id) && r == ChildRow(p, w)
    ensures IsDescendant(t, x, w) && w.depth == r.depth - 1
  {
    p := Find(t, r.id).value;
    var q := ParentOf(t, r.id).value;
    w := Row(q, NameOf(t, q), r.depth - 1, PathOf(t, q, r.depth - 1));
  }

  /** The working table after `d` joins holds exactly the descendants at distance `d`, each once. */
  lemma {:induction false} LevelIs(t: seq<Product>, x: int, d: nat)
    requires DistinctIds(t)
    ensures NoDuplicates(Level(t, x, d))
    ensures forall r :: r in Level(t, x, d) <==> IsDescendant(t, x, r) && r.depth == d
  {
    if d > 0 {
      var working := Level(t, x, d - 1);
      LevelIs(t, x, d - 1);
      ChildrenAre(t, working);
      forall r ensures r in Level(t, x, d) <==> IsDescendant(t, x, r) && r.depth == d {
        if IsChild(t, working, r) {
          var p, w :| p in t && w in working && p.parent == Some(w.id) && r == ChildRow(p, w);
          ChildIsDescendant(t, x, p, w);
        }
        if IsDescendant(t, x, r) && r.depth == d {
          var p, w := DescendantIsChild(t, x, r);
          assert w in working;
          assert IsChild(t, working, r);
        }
      }
    }
  }

  // ---------- sizes ----------

  function RowIds(rows: seq<Row>): set<int> {
    set i | 0 <= i < |rows| :: rows[i].id
  }

  function TableIds(t: seq<Product>): set<int> {
    set i | 0 <= i < |t| :: t[i].id
  }

  lemma RowIdsSnoc(front: seq<Row>, last: Row)
    ensures RowIds(front + [last]) == RowIds(front) + {last.id}
  {
    var rows := front + [last];
    forall id ensures id in RowIds(rows) <==> id in RowIds(front) + {last.id} {
      if id in RowIds(front) {
        var i :| 0 <= i < |front| && front[i].id == id;
        assert rows[i].id == id;
      }
      assert rows[|front|].id == last.id;
    }
  }

  lemma {:induction false} RowIdsSize(rows: seq<Row>)
    requires NoDuplicates(rows)
    ensures |RowIds(rows)| == |rows|
  {
    if rows == [] {
      assert RowIds(rows) == {};
    } else {
      var n := |rows| - 1;
      var front, last := rows[..n], rows[n];
      assert rows == front + [last];
      RowIdsSize(front);
      RowIdsSnoc(front, last);
      assert last.id !in RowIds(front);
    }
  }

  lemma {:induction false} TableIdsSize(t: seq<Product>)
    ensures |TableIds(t)| <= |t|
  {
    if t == [] {
      assert TableIds(t) == {};
    } else {
      var n := |t| - 1;
      TableIdsSize(t[..n]);
      assert TableIds(t) <= TableIds(t[..n]) + {t[n].id} by {
        forall id | id in TableIds(t) ensures id in TableIds(t[..n]) + {t[n].id} {
          var i :| 0 <= i < |t| && t[i].id == id;
          if i < n {
            assert t[..n][i].id == id;
          }
        }
      }
      SubsetSize(TableIds(t), TableIds(t[..n]) + {t[n].id});
    }
  }

  /** Rows of distinct products are no more than there are products. */
  lemma RowsBounded(t: seq<Product>, rows: seq<Row>)
    requires NoDuplicates(rows) && forall r :: r in rows ==> Find(t, r.id).Some?
    ensures |rows| <= |t|
  {
    RowIdsSize(rows);
    TableIdsSize(t);
    forall id | id in RowIds(rows) ensures id in TableIds(t) {
      var i :| 0 <= i < |rows| && rows[i].id == id;
      assert rows[i] in rows;
      var p := Find(t, id).value;
      var j :| 0 <= j < |t| && t[j] == p;
    }
    SubsetSize(RowIds(rows), TableIds(t));
  }

  // ---------- the hierarchy ----------

  ghost predicate UpTo(t: seq<Product>, x: int, d: int, rows: seq<Row>) {
    && NoDuplicates(rows)
    && (forall r :: r in rows <==> IsDescendant(t, x, r) && r.depth <= d)
  }

  lemma AddLevel(t: seq<Product>, x: int, d: nat, rows: seq<Row>)
    requires DistinctIds(t) && !OnCycle(t, x) && UpTo(t, x, d, rows)
    ensures UpTo(t, x, d + 1, rows + Level(t, x, d + 1))
  {
    var next := Level(t, x, d + 1);
    LevelIs(t, x, d + 1);
    var all := rows + next;
    forall i, j | 0 <= i < j < |all| ensures all[i].id != all[j].id {
      if j < |rows| {
        assert all[i] == rows[i] && all[j] == rows[j];
      } else if i >= |rows| {
        assert all[i] == next[i - |rows|] && all[j] == next[j - |rows|];
        assert all[i] in next && all[j] in next;
      } else {
        assert all[i] in rows && all[j] in next;
        if all[i].id == all[j].id {
          UpAdd(t, all[i].id, all[i].depth, x, all[j].depth - all[i].depth);
        }
      }
    }
  }

  lemma {:induction false} EmptyForever(t: seq<Product>, x: int, d: nat, r: Row)
    requires DistinctIds(t) && Level(t, x, d) == [] && d <= r.depth
    ensures !IsDescendant(t, x, r)
    decreases r.depth
  {
    if IsDescendant(t, x, r) {
      if r.depth == d {
        LevelIs(t, x, d);
      } else {
        var p, w := DescendantIsChild(t, x, r);
        EmptyForever(t, x, d, w);
      }
    }
  }

  // ---------- ORDER BY depth, name ----------

  /** How the database compares names: any two of them, and transitively. */
  ghost predicate IsCollation(atMost: (string, string) -> bool) {
    && (forall a, b :: atMost(a, b) || atMost(b, a))
    && (forall a, b, c :: atMost(a, b) && atMost(b, c) ==> atMost(a, c))
  }

  predicate Precedes(a: Row, b: Row, atMost: (string, string) -> bool) {
    a.depth < b.depth || (a.depth == b.depth && atMost(a.name, b.name))
  }

  ghost predicate InOrder(rows: seq<Row>, atMost: (string, string) -> bool) {
    forall i, j :: 0 <= i < j < |rows| ==> Precedes(rows[i], rows[j], atMost)
  }

  /** Where a row goes: behind all that precede it. */
  function Place(r: Row, rows: seq<Row>, atMost: (string, string) -> bool): (k: nat)
    ensures k <= |rows|
    ensures k > 0 ==> Precedes(rows[k - 1], r, atMost)
    ensures k < |rows| ==> !Precedes(rows[k], r, atMost)
  {
    if rows == [] || !Precedes(rows[0], r, atMost) then 0 else 1 + Place(r, rows[1..], atMost)
  }

  function OrderBy(rows: seq<Row>, atMost: (string, string) -> bool): seq<Row> {
    if rows == [] then []
    else
      var n := |rows| - 1;
      var front := OrderBy(rows[..n], atMost);
      var k := Place(rows[n], front, atMost);
      front[..k] + [rows[n]] + front[k..]
  }

  lemma PlacedInOrder(rows: seq<Row>, r: Row, k: nat, atMost: (string, string) -> bool)
    requires IsCollation(atMost) && InOrder(rows, atMost) && k <= |rows|
    requires k > 0 ==> Precedes(rows[k - 1], r, atMost)
    requires k < |rows| ==> !Precedes(rows[k], r, atMost)
    ensures InOrder(rows[..k] + [r] + rows[k..], atMost)
  {
    forall i | 0 <= i < |rows| ensures if i < k then Precedes(rows[i], r, atMost) else Precedes(r, rows[i], atMost) {
      if i < k {
        assert i == k - 1 || Precedes(rows[i], rows[k - 1], atMost);
      } else {
        assert i == k || Precedes(rows[k], rows[i], atMost);
      }
    }
  }

  lemma PlacedNoDuplicates(rows: seq<Row>, r: Row, k: nat)
    requires NoDuplicates(rows) && k <= |rows| && forall w :: w in rows ==> w.id != r.id
    ensures NoDuplicates(rows[..k] + [r] + rows[k..])
  {
    assert forall i :: 0 <= i < |rows| ==> rows[i] in rows;
  }

  /** The same rows, in order. */
  lemma {:induction false} OrderByIs(rows: seq<Row>, atMost: (string, string) -> bool)
    requires IsCollation(atMost) && NoDuplicates(rows)
    ensures InOrder(OrderBy(rows, atMost), atMost) && NoDuplicates(OrderBy(rows, atMost))
    ensures forall r :: r in OrderBy(rows, atMost) <==> r in rows
  {
    if rows != [] {
      var n := |rows| - 1;
      var last, front := rows[n], OrderBy(rows[..n], atMost);
      OrderByIs(rows[..n], atMost);
      forall w | w in front ensures w.id != last.id {
        var i :| 0 <= i < n && rows[..n][i] == w;
        assert rows[i] == w;
      }
      var k := Place(last, front, atMost);
      PlacedInOrder(front, last, k, atMost);
      PlacedNoDuplicates(front, last, k);
      hide InOrder, NoDuplicates, OrderBy;
      assert front == front[..k] + front[k..];
      assert rows == rows[..n] + [last];
    }
  }

  method GetHierarchy(t: seq<Product>, productID: int, atMost: (string, string) -> bool) returns (results: seq<Row>)
    requires DistinctIds(t) && !OnCycle(t, productID) && IsCollation(atMost)
    ensures forall r :: r in results <==> IsDescendant(t, productID, r)
    ensures NoDuplicates(results)
    ensures forall i, j :: 0 <= i < j < |results| ==>
      && results[i].depth <= results[j].depth
      && (results[i].depth == results[j].depth ==> atMost(results[i].name, results[j].name))
  {
    var working := Base(t, productID);
    var rows := working;
    ghost var d := 0;
    LevelIs(t, productID, 0);
    while working != []
      invariant working == Level(t, productID, d)
      invariant UpTo(t, productID, d, rows)
      decreases |t| - |rows|, |working|
    {
      AddLevel(t, productID, d, rows);
      working := Children(t, working);
      rows := rows + working;
      d := d + 1;
      RowsBounded(t, rows);
    }
    forall r | IsDescendant(t, productID, r) ensures r in rows {
      if r.depth > d {
        EmptyForever(t, productID, d, r);
      }
    }
    OrderByIs(rows, atMost);
    results := OrderBy(rows, atMost);
  }

  /** The evaluation comes to an end exactly when the product is not on a cycle. */
  lemma HierarchyEnds(t: seq<Product>, x: int)
    requires DistinctIds(t)
    ensures (exists d: nat :: Level(t, x, d) == []) <==> !OnCycle(t, x)
  {
    if OnCycle(t, x) {
      var n: nat :| n > 0 && Up(t, x, n) == Some(x);
      forall d: nat ensures Level(t, x, d) != [] {
        var m := Around(t, x, n, d);
        var r := Row(x, NameOf(t, x), m, PathOf(t, x, m));
        assert IsDescendant(t, x, r);
        if Level(t, x, d) == [] {
          EmptyForever(t, x, d, r);
        }
      }
    } else {
      var d := LastLevel(t, x);
    }
  }

  /** On a cycle every distance comes up again further out. */
  lemma {:induction false} Around(t: seq<Product>, x: int, n: nat, d: nat) returns (m: nat)
    requires n > 0 && Up(t, x, n) == Some(x)
    ensures m >= d && Up(t, x, m) == Some(x)
    decreases d
  {
    if d == 0 {
      m := 0;
    } else {
      m := Around(t, x, n, d - 1);
      if m < d {
        UpAdd(t, x, m, x, n);
        m := m + n;
      }
    }
  }

  lemma LastLevel(t: seq<Product>, x: int) returns (d: nat)
    requires DistinctIds(t) && !OnCycle(t, x)
    ensures Level(t, x, d) == []
  {
    var results := Base(t, x);
    d := 0;
    LevelIs(t, x, 0);
    while Level(t, x, d) != []
      invariant UpTo(t, x, d, results)
      decreases |t| - |results|, |Level(t, x, d)|
    {
      AddLevel(t, x, d, results);
      results := results + Level(t, x, d + 1);
      d := d + 1;
      RowsBounded(t, results);
    }
  }

  /** A product that is its own parent: no level of its hierarchy is empty. */
  lemma OwnParent(d: nat)
    ensures Level([Product(1, "a", Some(1))], 1, d) != []
  {
    var t := [Product(1, "a", Some(1))];
    assert Up(t, 1, 0) == Some(1);
    assert Up(t, 1, 1) == Some(1);
    assert OnCycle(t, 1);
    HierarchyEnds(t, 1);
  }

  // ---------- ancestors ----------

  lemma {:induction false} UpStep(t: seq<Product>, x: int, n: nat, y: int)
    requires Up(t, x, n) == Some(y)
    ensures Up(t, x, n + 1) == ParentOf(t, y)
  {
    UpAdd(t, x, n, y, 1);
    assert Up(t, y, 1) == ParentOf(t, y);
  }

  lemma {:induction false} UpDefined(t: seq<Product>, x: int, n: nat, m: nat)
    requires Up(t, x, m).Some? && n <= m
    ensures Up(t, x, n).Some?
    decreases n
  {
    if n > 0 {
      UpDefined(t, ParentOf(t, x).value, n - 1, m - 1);
    }
  }

  lemma UpGone(t: seq<Product>, x: int, m: nat, n: nat)
    ensures Up(t, x, m).None? && Up(t, x, n).Some? ==> n < m
  {
    if Up(t, x, n).Some? && m <= n {
      UpDefined(t, x, m, n);
    }
  }

  /** A row of `ancestors`. */
  datatype AncestorRow = AncestorRow(product: Product, depth: nat)

  function ParentMatches(p: Product, working: seq<AncestorRow>): seq<AncestorRow> {
    if working == [] then []
    else (if working[0].product.parent == Some(p.id) then [AncestorRow(p, working[0].depth + 1)] else [])
         + ParentMatches(p, working[1..])
  }

  /** `SELECT ... FROM products p JOIN ancestors a ON p.id = a.parent_id` */
  function Parents(t: seq<Product>, working: seq<AncestorRow>): seq<AncestorRow> {
    if t == [] then [] else ParentMatches(t[0], working) + Parents(t[1..], working)
  }

  function AncestorBase(t: seq<Product>, x: int): seq<AncestorRow> {
    match Find(t, x) { case None => [] case Some(p) => [AncestorRow(p, 0)] }
  }

  /** The working table of the ancestors query after `d` joins. */
  function AncestorLevel(t: seq<Product>, x: int, d: nat): seq<AncestorRow> {
    if d == 0 then AncestorBase(t, x) else Parents(t, AncestorLevel(t, x, d - 1))
  }

  /** The evaluation comes to an end. */
  ghost predicate AncestorsEmpty(t: seq<Product>, x: int) {
    exists d: nat :: AncestorLevel(t, x, d) == []
  }

  lemma {:induction false} NoParents(t: seq<Product>)
    ensures Parents(t, []) == []
  {
    if t != [] {
      NoParents(t[1..]);
    }
  }

  lemma MatchOne(p: Product, w: AncestorRow)
    ensures ParentMatches(p, [w]) == if w.product.parent == Some(p.id) then [AncestorRow(p, w.depth + 1)] else []
  {
    assert [w][1..] == [];
  }

  lemma {:induction false} NoParentIn(t: seq<Product>, w: AncestorRow)
    requires forall i :: 0 <= i < |t| ==> w.product.parent != Some(t[i].id)
    ensures Parents(t, [w]) == []
  {
    if t != [] {
      MatchOne(t[0], w);
      NoParentIn(t[1..], w);
    }
  }

  /** One row joins with the product that is its parent. */
  lemma {:induction false} ParentsOfOne(t: seq<Product>, w: AncestorRow)
    requires DistinctIds(t)
    ensures Parents(t, [w]) ==
            if w.product.parent.Some? && Find(t, w.product.parent.value).Some?
            then [AncestorRow(Find(t, w.product.parent.value).value, w.depth + 1)] else []
  {
    if t != [] {
      var head, tail := t[0], t[1..];
      hide ParentMatches;
      MatchOne(head, w);
      if w.product.parent == Some(head.id) {
        NoParentIn(tail, w);
      } else {
        ParentsOfOne(tail, w);
        assert [] + Parents(tail, [w]) == Parents(tail, [w]);
      }
    }
  }

  /** The row of a product at depth `d`, if there is such a product. */
  function RowAt(t: seq<Product>, id: Option<int>, d: nat): seq<AncestorRow> {
    if id.Some? && Find(t, id.value).Some? then [AncestorRow(Find(t, id.value).value, d)] else []
  }

  lemma ParentsOfRow(t: seq<Product>, id: Option<int>, d: nat)
    requires DistinctIds(t)
    ensures Parents(t, RowAt(t, id, d)) == RowAt(t, if id.Some? then ParentOf(t, id.value) else None, d + 1)
  {
    hide Parents, Find;
    if id.Some? && Find(t, id.value).Some? {
      ParentsOfOne(t, AncestorRow(Find(t, id.value).value, d));
    } else {
      NoParents(t);
    }
  }

  lemma {:induction false} UpNext(t: seq<Product>, x: int, d: nat)
    ensures Up(t, x, d + 1) == match Up(t, x, d) case None => None case Some(y) => ParentOf(t, y)
    ensures Up(t, x, d).Some? ==> Find(t, Up(t, x, d).value).Some?
  {
    if Up(t, x, d).Some? {
      UpStep(t, x, d, Up(t, x, d).value);
      UpAdd(t, x, d, Up(t, x, d).value, 0);
    } else {
      UpGone(t, x, d, d + 1);
    }
  }

  /** The working table after `d` joins holds the product `d` steps up, or nothing. */
  lemma {:induction false} AncestorLevelIs(t: seq<Product>, x: int, d: nat)
    requires DistinctIds(t)
    ensures AncestorLevel(t, x, d) == RowAt(t, Up(t, x, d), d)
    ensures Up(t, x, d).Some? ==> Find(t, Up(t, x, d).value).Some?
  {
    hide *;
    UpNext(t, x, d);
    if d == 0 {
      AncestorBaseIs(t, x);
    } else {
      UpNext(t, x, d - 1);
      AncestorNext(t, x, d - 1);
      AncestorLevelIs(t, x, d - 1);
      ParentsOfRow(t, Up(t, x, d - 1), d - 1);
    }
  }

  lemma AncestorBaseIs(t: seq<Product>, x: int)
    ensures AncestorLevel(t, x, 0) == RowAt(t, Up(t, x, 0), 0)
  {
    assert AncestorLevel(t, x, 0) == AncestorBase(t, x);
  }

  function Products(rows: seq<AncestorRow>): seq<Product> {
    seq(|rows|, i requires 0 <= i < |rows| => rows[i].product)
  }

  /** The way up from `x`, read from its far end. */
  ghost predicate IsChain(t: seq<Product>, x: int, ancestors: seq<Product>) {
    forall i :: 0 <= i < |ancestors| ==>
      ancestors[i] in t && Up(t, x, |ancestors| - i) == Some(ancestors[i].id)
  }

  lemma ChainGrows(t: seq<Product>, x: int, ancestors: seq<Product>, p: Product)
    requires IsChain(t, x, ancestors) && p in t && Up(t, x, |ancestors| + 1) == Some(p.id)
    ensures IsChain(t, x, [p] + ancestors)
  {
    hide Up;
    var all := [p] + ancestors;
    forall i | 0 <= i < |all| ensures all[i] in t && Up(t, x, |all| - i) == Some(all[i].id) {
      if i > 0 {
        assert all[i] == ancestors[i - 1];
      }
    }
  }

  /** Root first, the parent last: `ORDER BY depth DESC` without depth 0. */
  method GetAncestors(t: seq<Product>, productID: int) returns (ancestors: seq<Product>)
    requires DistinctIds(t) && AncestorsEmpty(t, productID)
    ensures IsChain(t, productID, ancestors) && Up(t, productID, |ancestors| + 1) == None
    ensures forall x :: IsAncestor(t, productID, x) <==> exists i :: 0 <= i < |ancestors| && ancestors[i].id == x
  {
    hide Up, Find, Parents, AncestorLevel, IsChain;
    ghost var n: nat :| AncestorLevel(t, productID, n) == [];
    AncestorLevelIs(t, productID, n);
    var working := AncestorBase(t, productID);
    ancestors := [];
    ghost var d := 0;
    AncestorLevelIs(t, productID, 0);
    ChainStarts(t, productID);
    while working != []
      invariant working == AncestorLevel(t, productID, d) && d <= n
      invariant |ancestors| == if working == [] && d > 0 then d - 1 else d
      invariant IsChain(t, productID, ancestors)
      decreases n - d
    {
      AncestorLevelIs(t, productID, d);
      UpGone(t, productID, n, d);
      AncestorNext(t, productID, d);
      working := Parents(t, working);
      d := d + 1;
      AncestorLevelIs(t, productID, d);
      if working != [] {
        ChainGrows(t, productID, ancestors, working[0].product);
        assert Products(working) == [working[0].product];
      } else {
        assert Products(working) + ancestors == ancestors;
      }
      ancestors := Products(working) + ancestors;
    }
    AncestorLevelIs(t, productID, d);
    UpGone(t, productID, d, d + 1);
    AllAncestors(t, productID, ancestors);
  }

  lemma ChainStarts(t: seq<Product>, x: int)
    ensures AncestorBase(t, x) == AncestorLevel(t, x, 0) && IsChain(t, x, [])
  {
  }

  lemma AncestorNext(t: seq<Product>, x: int, d: nat)
    ensures AncestorLevel(t, x, d + 1) == Parents(t, AncestorLevel(t, x, d))
  {
  }

  lemma AllAncestors(t: seq<Product>, y: int, ancestors: seq<Product>)
    requires IsChain(t, y, ancestors) && Up(t, y, |ancestors| + 1) == None
    ensures forall x :: IsAncestor(t, y, x) <==> exists i :: 0 <= i < |ancestors| && ancestors[i].id == x
  {
    forall x ensures IsAncestor(t, y, x) <==> exists i :: 0 <= i < |ancestors| && ancestors[i].id == x {
      if i :| 0 <= i < |ancestors| && ancestors[i].id == x {
        assert Up(t, y, |ancestors| - i) == Some(x);
      }
      if IsAncestor(t, y, x) {
        var n: nat :| n > 0 && Up(t, y, n) == Some(x);
        UpGone(t, y, |ancestors| + 1, n);
        var i := |ancestors| - n;
        assert n == |ancestors| - i;
        assert ancestors[i].id == x;
      }
    }
  }

  /** The way up meets a cycle. */
  ghost predicate MeetsCycle(t: seq<Product>, x: int) {
    exists m: nat, y: int :: Up(t, x, m) == Some(y) && OnCycle(t, y)
  }

  /** The query for the ancestors comes to an end exactly when the way up meets no cycle. */
  lemma AncestorsEnd(t: seq<Product>, x: int)
    requires DistinctIds(t)
    ensures AncestorsEmpty(t, x) <==> !MeetsCycle(t, x)
  {
    if MeetsCycle(t, x) {
      var m: nat, y: int :| Up(t, x, m) == Some(y) && OnCycle(t, y);
      var k: nat :| k > 0 && Up(t, y, k) == Some(y);
      forall n: nat ensures AncestorLevel(t, x, n) != [] {
        var far := Around(t, y, k, n);
        UpAdd(t, x, m, y, far);
        UpDefined(t, x, n, m + far);
        AncestorLevelIs(t, x, n);
      }
    } else {
      if forall n: nat :: Up(t, x, n) != None {
        LongChain(t, x);
      }
      var n: nat :| Up(t, x, n) == None;
      AncestorLevelIs(t, x, n);
    }
  }

  /** A chain longer than the table has products comes to some product twice. */
  lemma LongChain(t: seq<Product>, x: int)
    requires DistinctIds(t) && forall n: nat :: Up(t, x, n) != None
    ensures MeetsCycle(t, x)
  {
    var chain := seq(|t| + 1, i requires 0 <= i => Row(Up(t, x, i).value, "", i, ""));
    if NoDuplicates(chain) {
      forall r | r in chain ensures Find(t, r.id).Some? {
        var i :| 0 <= i < |chain| && chain[i] == r;
        UpAdd(t, x, i, r.id, 1);
      }
      RowsBounded(t, chain);
    } else {
      var i, j :| 0 <= i < j < |chain| && chain[i].id == chain[j].id;
      UpAdd(t, x, i, chain[i].id, j - i);
      assert OnCycle(t, chain[i].id);
    }
  }

  /** A product that is its own parent is found above itself for ever. */
  lemma {:induction false} OwnAncestor(d: nat)
    ensures AncestorLevel([Product(1, "a", Some(1))], 1, d) == [AncestorRow(Product(1, "a", Some(1)), d)]
  {
    if d > 0 {
      OwnAncestor(d - 1);
      ParentsOfOne([Product(1, "a", Some(1))], AncestorRow(Product(1, "a", Some(1)), d - 1));
    }
  }

  // ---------- both together ----------

  ghost predicate InHierarchy(t: seq<Product>, x: int, y: int) {
    exists r: Row :: IsDescendant(t, x, r) && r.id == y
  }

  ghost predicate IsAncestor(t: seq<Product>, y: int, x: int) {
    exists n: nat :: n > 0 && Up(t, y, n) == Some(x)
  }

  /** A product is in the hierarchy of `x` exactly when it is `x` or `x` is one of its ancestors. */
  lemma HierarchyAndAncestors(t: seq<Product>, x: int, y: int)
    requires Find(t, y).Some?
    ensures InHierarchy(t, x, y) <==> x == y || IsAncestor(t, y, x)
  {
    if x == y || IsAncestor(t, y, x) {
      var n: nat :| Up(t, y, n) == Some(x);
      assert IsDescendant(t, x, Row(y, NameOf(t, y), n, PathOf(t, y, n)));
    }
  }
}

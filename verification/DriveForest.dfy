/** The drive asset table of the assets tab and the sorted forest built from it.
    A table is a flat list of rows; each row names its parent folder by drive id. */
module DriveForest {
  import opened Sequences
  import opened StableSort

  datatype Asset = Asset(entityId: string, fileId: string, name: string, isFolder: bool,
                         parentId: Option<string>)

  datatype Node = Node(asset: Asset, children: seq<Node>)

  type NameOrder = (string, string) -> bool

  /** The key under which a row looks up its parent; absent parents look up the empty string. */
  function ParentKey(a: Asset): string {
    if a.parentId.Some? then a.parentId.value else ""
  }

  /** What the server guarantees of a table: drive ids are unique and non-empty, entity ids unique. */
  ghost predicate Table(items: seq<Asset>) {
    && (forall a :: a in items ==> a.fileId != "")
    && (forall i, j :: 0 <= i < j < |items| ==>
          items[i].fileId != items[j].fileId && items[i].entityId != items[j].entityId)
  }

  predicate Has(items: seq<Asset>, id: string) {
    exists a :: a in items && a.fileId == id
  }

  ghost function Lookup(items: seq<Asset>, id: string): (a: Asset)
    requires Has(items, id)
    ensures a in items && a.fileId == id
  {
    var a :| a in items && a.fileId == id; a
  }

  ghost function FileIds(items: seq<Asset>): set<string> {
    set a | a in items :: a.fileId
  }

  lemma {:induction false} SameRow(items: seq<Asset>, a: Asset, b: Asset)
    requires Table(items) && a in items && b in items
    requires a.fileId == b.fileId || a.entityId == b.entityId
    ensures a == b
  {
  }

  /** Folders before files, then by name. */
  function RowOrder(leq: NameOrder): (Asset, Asset) -> bool {
    (a: Asset, b: Asset) => if a.isFolder != b.isFolder then a.isFolder else leq(a.name, b.name)
  }

  // ----- Ancestry: the upward walk -----

  /** `a` has exactly `n` ancestors in the table and then leaves it. */
  ghost predicate Climbs(items: seq<Asset>, a: Asset, n: nat)
    decreases n
  {
    if n == 0 then !Has(items, ParentKey(a))
    else Has(items, ParentKey(a)) && Climbs(items, Lookup(items, ParentKey(a)), n - 1)
  }

  /** The drive ids of those ancestors, outermost first. */
  ghost function Path(items: seq<Asset>, a: Asset, n: nat): (p: seq<string>)
    requires Climbs(items, a, n)
    ensures |p| == n
    decreases n
  {
    if n == 0 then []
    else Path(items, Lookup(items, ParentKey(a)), n - 1) + [ParentKey(a)]
  }

  /** Like `Climbs`, passing only through folders. */
  ghost predicate FolderChain(items: seq<Asset>, a: Asset, n: nat)
    decreases n
  {
    if n == 0 then !Has(items, ParentKey(a))
    else
      Has(items, ParentKey(a)) &&
      var p := Lookup(items, ParentKey(a));
      p.isFolder && FolderChain(items, p, n - 1)
  }

  lemma {:induction false} FolderChainClimbs(items: seq<Asset>, a: Asset, n: nat)
    requires FolderChain(items, a, n)
    ensures Climbs(items, a, n)
    decreases n
  {
    if n == 0 {
    } else {
      FolderChainClimbs(items, Lookup(items, ParentKey(a)), n - 1);
    }
  }

  lemma {:induction false} ClimbsOnce(items: seq<Asset>, a: Asset, m: nat, n: nat)
    requires Climbs(items, a, m) && Climbs(items, a, n)
    ensures m == n
    decreases m
  {
    if m == 0 || n == 0 {
    } else {
      ClimbsOnce(items, Lookup(items, ParentKey(a)), m - 1, n - 1);
    }
  }

  ghost predicate Placeable(items: seq<Asset>, a: Asset) {
    a in items && exists n: nat :: FolderChain(items, a, n)
  }

  // ----- Building the forest -----

  /** `trail` lists folder ids from a root down; `Attached` rows are the children of its end
      (the roots, for the empty trail). */
  ghost predicate Attached(items: seq<Asset>, a: Asset, trail: seq<string>) {
    a in items &&
    if trail == [] then !Has(items, ParentKey(a))
    else a.parentId == Some(trail[|trail| - 1])
  }

  /** `f` is the folder at position `k` of the trail. */
  ghost predicate Step(items: seq<Asset>, trail: seq<string>, k: nat, f: Asset)
    requires k < |trail|
  {
    f in items && f.isFolder && f.fileId == trail[k] && Attached(items, f, trail[..k])
  }

  ghost predicate HasStep(items: seq<Asset>, trail: seq<string>, k: nat)
    requires k < |trail|
  {
    exists f :: Step(items, trail, k, f)
  }

  ghost predicate IsTrail(items: seq<Asset>, trail: seq<string>) {
    && Distinct(trail)
    && forall k :: 0 <= k < |trail| ==> HasStep(items, trail, k)
  }

  lemma {:induction false} NoRepeat(items: seq<Asset>, a: Asset, trail: seq<string>, k: nat)
    requires Table(items) && IsTrail(items, trail) && Attached(items, a, trail) && a.isFolder && k < |trail|
    ensures trail[k] != a.fileId
  {
    var last := |trail| - 1;
    assert HasStep(items, trail, k) && HasStep(items, trail, last);
    var f :| Step(items, trail, k, f);
    var p :| Step(items, trail, last, p);
    assert Has(items, trail[last]);
    if f == a {
      assert false;
    }
  }

  /** No path from a root repeats an id, even when the table contains parent cycles. */
  lemma {:induction false} TrailExtends(items: seq<Asset>, a: Asset, trail: seq<string>)
    requires Table(items) && IsTrail(items, trail) && Attached(items, a, trail) && a.isFolder
    ensures IsTrail(items, trail + [a.fileId])
    ensures a.fileId !in trail
  {
    var next := trail + [a.fileId];
    assert a.fileId !in trail by {
      if k :| 0 <= k < |trail| && trail[k] == a.fileId {
        NoRepeat(items, a, trail, k);
        assert false;
      }
    }
    forall k | 0 <= k < |next|
      ensures HasStep(items, next, k)
    {
      if k < |trail| {
        assert HasStep(items, trail, k);
        var f :| Step(items, trail, k, f);
        assert next[..k] == trail[..k];
        assert Step(items, next, k, f);
      } else {
        assert next[..k] == trail;
        assert Step(items, next, k, a);
      }
    }
  }

  /** The rows shown directly under the end of `trail`, in display order. */
  function Siblings(items: seq<Asset>, leq: NameOrder, trail: seq<string>): (r: seq<Asset>)
  {
    Sort(if trail == [] then Filter(items, (i: Asset) => !Has(items, ParentKey(i)))
         else Filter(items, (i: Asset) => i.parentId == Some(trail[|trail| - 1])),
         RowOrder(leq))
  }

  lemma {:induction false} SiblingsAttached(items: seq<Asset>, leq: NameOrder, trail: seq<string>)
    ensures forall a :: a in Siblings(items, leq, trail) <==> Attached(items, a, trail)
  {
    SortMember(if trail == [] then Filter(items, (i: Asset) => !Has(items, ParentKey(i)))
               else Filter(items, (i: Asset) => i.parentId == Some(trail[|trail| - 1])),
               RowOrder(leq));
  }

  /** The forest below `trail`. The trail exists only to show that the recursion ends: it grows
      by a fresh id of the table at every level. */
  function Level(items: seq<Asset>, leq: NameOrder, trail: seq<string>): seq<Node>
    requires Table(items) && IsTrail(items, trail)
    decreases FileIds(items) - (set x | x in trail), 1, 0
  {
    SiblingsAttached(items, leq, trail);
    Nodes(items, leq, Siblings(items, leq, trail), trail)
  }

  function Nodes(items: seq<Asset>, leq: NameOrder, rows: seq<Asset>, trail: seq<string>): (r: seq<Node>)
    requires Table(items) && IsTrail(items, trail)
    requires forall a :: a in rows ==> Attached(items, a, trail)
    ensures |r| == |rows|
    decreases FileIds(items) - (set x | x in trail), 0, |rows|
  {
    if rows == [] then []
    else
      var a := rows[0];
      var below :=
        if a.isFolder then
          TrailExtends(items, a, trail);
          TrailGrows(items, a, trail);
          Level(items, leq, trail + [a.fileId])
        else [];
      [Node(a, below)] + Nodes(items, leq, rows[1..], trail)
  }

  lemma {:induction false} TrailGrows(items: seq<Asset>, a: Asset, trail: seq<string>)
    requires a in items && a.fileId !in trail
    ensures FileIds(items) - (set x | x in trail + [a.fileId]) < FileIds(items) - (set x | x in trail)
  {
    var before, after := FileIds(items) - (set x | x in trail), FileIds(items) - (set x | x in trail + [a.fileId]);
    assert a.fileId in before && a.fileId !in after;
    assert after <= before;
  }

  function BuildTree(items: seq<Asset>, leq: NameOrder): seq<Node>
    requires Table(items)
  {
    Level(items, leq, [])
  }

  // ----- The order on screen -----

  /** Folders before files, then by name; rows of one kind whose names compare equal keep the order of
      the table. */
  ghost predicate ShownBefore(items: seq<Asset>, leq: NameOrder, a: Asset, b: Asset) {
    if a.isFolder != b.isFolder then a.isFolder
    else leq(a.name, b.name) && (leq(b.name, a.name) ==> Earlier(items, a, b))
  }

  ghost predicate InDisplayOrder(items: seq<Asset>, leq: NameOrder, nodes: seq<Node>) {
    && (forall i, j :: 0 <= i < j < |nodes| ==> ShownBefore(items, leq, nodes[i].asset, nodes[j].asset))
    && (forall k :: 0 <= k < |nodes| ==> InDisplayOrder(items, leq, nodes[k].children))
  }

  lemma {:induction false} RowPreorder(leq: NameOrder)
    requires TotalPreorder(leq)
    ensures TotalPreorder(RowOrder(leq))
  {
    var order := RowOrder(leq);
    forall a, b ensures order(a, b) || order(b, a) {
      assert leq(a.name, b.name) || leq(b.name, a.name);
    }
    forall a, b, c | order(a, b) && order(b, c) ensures order(a, c) {
      assert leq(a.name, b.name) && leq(b.name, c.name) ==> leq(a.name, c.name);
    }
  }

  lemma {:induction false} EarlierInFilter(items: seq<Asset>, keep: Asset -> bool, a: Asset, b: Asset)
    requires Earlier(Filter(items, keep), a, b)
    ensures Earlier(items, a, b)
  {
    assert items == [items[0]] + items[1..];
    var rest := Filter(items[1..], keep);
    EarlierSplit(items[0], rest, a, b);
    if Earlier(rest, a, b) {
      EarlierInFilter(items[1..], keep, a, b);
    }
    EarlierCons(items[0], items[1..], a, b);
  }

  lemma {:induction false} EarlierSplit(x: Asset, s: seq<Asset>, a: Asset, b: Asset)
    ensures Earlier([x] + s, a, b) ==> Earlier(s, a, b) || (a == x && b in s)
  {
    var t := [x] + s;
    if m, n :| 0 <= m < n < |t| && t[m] == a && t[n] == b {
      assert t[n] == s[n - 1];
      if m > 0 {
        assert t[m] == s[m - 1];
      }
    }
  }

  lemma {:induction false} SortedRows(items: seq<Asset>, leq: NameOrder, keep: Asset -> bool, i: nat, j: nat)
    requires TotalPreorder(leq) && i < j < |Sort(Filter(items, keep), RowOrder(leq))|
    ensures
      var r := Sort(Filter(items, keep), RowOrder(leq));
      ShownBefore(items, leq, r[i], r[j])
  {
    hide Sort, Filter, Earlier;
    var rows := Filter(items, keep);
    var r := Sort(rows, RowOrder(leq));
    RowPreorder(leq);
    SortSorts(rows, RowOrder(leq));
    assert RowOrder(leq)(r[i], r[j]);
    if RowOrder(leq)(r[j], r[i]) {
      SortKeeps(rows, RowOrder(leq), i, j);
      EarlierInFilter(items, keep, r[i], r[j]);
    }
  }

  lemma {:induction false} SiblingsShown(items: seq<Asset>, leq: NameOrder, trail: seq<string>, i: nat, j: nat)
    requires TotalPreorder(leq) && i < j < |Siblings(items, leq, trail)|
    ensures ShownBefore(items, leq, Siblings(items, leq, trail)[i], Siblings(items, leq, trail)[j])
  {
    hide Sort, Filter, ShownBefore;
    if trail == [] {
      SortedRows(items, leq, (a: Asset) => !Has(items, ParentKey(a)), i, j);
    } else {
      SortedRows(items, leq, (a: Asset) => a.parentId == Some(trail[|trail| - 1]), i, j);
    }
  }

  lemma {:induction false} LevelShown(items: seq<Asset>, leq: NameOrder, trail: seq<string>)
    requires Table(items) && IsTrail(items, trail) && TotalPreorder(leq)
    ensures InDisplayOrder(items, leq, Level(items, leq, trail))
    decreases FileIds(items) - (set x | x in trail), 1, 0
  {
    var rows := Siblings(items, leq, trail);
    SiblingsAttached(items, leq, trail);
    NodesShown(items, leq, rows, trail);
    var nodes := Level(items, leq, trail);
    hide Table, IsTrail, Siblings, ShownBefore, Level, Nodes;
    forall i, j | 0 <= i < j < |nodes| ensures ShownBefore(items, leq, nodes[i].asset, nodes[j].asset) {
      SiblingsShown(items, leq, trail, i, j);
    }
  }

  lemma {:induction false} NodesShown(items: seq<Asset>, leq: NameOrder, rows: seq<Asset>, trail: seq<string>)
    requires Table(items) && IsTrail(items, trail) && TotalPreorder(leq)
    requires forall a :: a in rows ==> Attached(items, a, trail)
    ensures
      var nodes := Nodes(items, leq, rows, trail);
      forall k :: 0 <= k < |rows| ==> nodes[k].asset == rows[k] && InDisplayOrder(items, leq, nodes[k].children)
    decreases FileIds(items) - (set x | x in trail), 0, |rows|
  {
    if rows == [] {
    } else {
      hide Table, IsTrail, Attached, Nodes, InDisplayOrder;
      var nodes := Nodes(items, leq, rows, trail);
      NodesShown(items, leq, rows[1..], trail);
      NodesRest(items, leq, rows, trail);
      HeadShown(items, leq, rows, trail);
      forall k | 0 < k < |rows| ensures nodes[k].asset == rows[k] && InDisplayOrder(items, leq, nodes[k].children) {
        assert nodes[k] == nodes[1..][k - 1] && rows[k] == rows[1..][k - 1];
      }
    }
  }

  lemma {:induction false} HeadShown(items: seq<Asset>, leq: NameOrder, rows: seq<Asset>, trail: seq<string>)
    requires Table(items) && IsTrail(items, trail) && TotalPreorder(leq)
    requires rows != [] && forall a :: a in rows ==> Attached(items, a, trail)
    ensures
      var first := Nodes(items, leq, rows, trail)[0];
      first.asset == rows[0] && InDisplayOrder(items, leq, first.children)
    decreases FileIds(items) - (set x | x in trail), 0, 0
  {
    var a := rows[0];
    if a.isFolder {
      TrailExtends(items, a, trail);
      TrailGrows(items, a, trail);
      LevelShown(items, leq, trail + [a.fileId]);
    }
  }

  lemma {:induction false} NodesRest(items: seq<Asset>, leq: NameOrder, rows: seq<Asset>, trail: seq<string>)
    requires Table(items) && IsTrail(items, trail) && rows != [] && forall a :: a in rows ==> Attached(items, a, trail)
    ensures Nodes(items, leq, rows, trail)[1..] == Nodes(items, leq, rows[1..], trail)
  {
  }

  /** In the forest built from any table, at the root and under every folder, no file stands before a
      folder, rows of one kind stand in the order of their names, and ties keep the order of the table. */
  lemma {:induction false} ForestInDisplayOrder(items: seq<Asset>, leq: NameOrder)
    requires Table(items) && TotalPreorder(leq)
    ensures InDisplayOrder(items, leq, BuildTree(items, leq))
  {
    LevelShown(items, leq, []);
  }
}

/** Where each table row lands in the forest, and the depth the indentation walk reports for it. */
module DriveRows {
  import opened Sequences
  import opened StableSort
  import opened DriveForest

  /** Every folder counts as expanded. */
  predicate All(id: string) { true }

  function Open(expanded: set<string>): string -> bool {
    id => id in expanded
  }

  /** The rows on screen, in preorder, when exactly the folders satisfying `open` are expanded. */
  function Visible(nodes: seq<Node>, open: string -> bool): seq<Node>
    decreases nodes
  {
    if nodes == [] then []
    else [nodes[0]] + (if Opens(nodes[0], open) then Visible(nodes[0].children, open) else []) + Visible(nodes[1..], open)
  }

  predicate Opens(node: Node, open: string -> bool) {
    node.asset.isFolder && open(node.asset.fileId)
  }

  /** The table rows behind the visible rows. */
  function Shown(nodes: seq<Node>, open: string -> bool): seq<Asset>
    decreases nodes
  {
    if nodes == [] then []
    else [nodes[0].asset] + (if Opens(nodes[0], open) then Shown(nodes[0].children, open) else []) + Shown(nodes[1..], open)
  }

  datatype Row = Row(node: Node, depth: nat)

  /** The visible rows with their level in the forest. */
  function Rows(nodes: seq<Node>, depth: nat, open: string -> bool): seq<Row>
    decreases nodes
  {
    if nodes == [] then []
    else [Row(nodes[0], depth)] + (if Opens(nodes[0], open) then Rows(nodes[0].children, depth + 1, open) else [])
         + Rows(nodes[1..], depth, open)
  }

  ghost predicate SameRows(rows: seq<Row>, visible: seq<Node>, shown: seq<Asset>) {
    && |rows| == |visible| == |shown|
    && forall i :: 0 <= i < |visible| ==> rows[i].node == visible[i] && visible[i].asset == shown[i]
  }

  lemma {:induction false} SameRowsJoin(rows: seq<Row>, visible: seq<Node>, shown: seq<Asset>,
                                        moreRows: seq<Row>, moreVisible: seq<Node>, moreShown: seq<Asset>)
    requires SameRows(rows, visible, shown) && SameRows(moreRows, moreVisible, moreShown)
    ensures SameRows(rows + moreRows, visible + moreVisible, shown + moreShown)
  {
  }

  /** The three listings are the same rows in the same order. */
  lemma {:induction false} ListingsAgree(nodes: seq<Node>, depth: nat, open: string -> bool)
    ensures SameRows(Rows(nodes, depth, open), Visible(nodes, open), Shown(nodes, open))
    decreases nodes
  {
    if nodes == [] {
    } else {
      var n, rest := nodes[0], nodes[1..];
      var rows, visible, shown := [Row(n, depth)], [n], [n.asset];
      if Opens(n, open) {
        ListingsAgree(n.children, depth + 1, open);
        SameRowsJoin(rows, visible, shown, Rows(n.children, depth + 1, open), Visible(n.children, open), Shown(n.children, open));
        rows, visible, shown := rows + Rows(n.children, depth + 1, open), visible + Visible(n.children, open),
                                shown + Shown(n.children, open);
      }
      ListingsAgree(rest, depth, open);
      SameRowsJoin(rows, visible, shown, Rows(rest, depth, open), Visible(rest, open), Shown(rest, open));
      hide SameRows;
      assert Rows(nodes, depth, open) == rows + Rows(rest, depth, open);
      assert Visible(nodes, open) == visible + Visible(rest, open);
      assert Shown(nodes, open) == shown + Shown(rest, open);
    }
  }

  /** `path` is the whole ancestry of `a`, and it consists of folders. */
  ghost predicate PathIs(items: seq<Asset>, a: Asset, path: seq<string>) {
    && FolderChain(items, a, |path|) && Climbs(items, a, |path|)
    && Path(items, a, |path|) == path
  }

  lemma {:induction false} PathStep(items: seq<Asset>, a: Asset, p: Asset, path: seq<string>)
    requires Has(items, ParentKey(a)) && p == Lookup(items, ParentKey(a)) && p.isFolder
    requires PathIs(items, p, path)
    ensures PathIs(items, a, path + [ParentKey(a)])
  {
  }

  /** The folder at the end of a trail is the parent that its attached rows look up. */
  lemma {:induction false} TrailEnd(items: seq<Asset>, a: Asset, trail: seq<string>) returns (p: Asset)
    requires Table(items) && IsTrail(items, trail) && Attached(items, a, trail) && trail != []
    ensures ParentKey(a) == trail[|trail| - 1] && Has(items, ParentKey(a))
    ensures p == Lookup(items, ParentKey(a)) && p.isFolder && Attached(items, p, trail[..|trail| - 1])
  {
    var last := |trail| - 1;
    assert HasStep(items, trail, last);
    p :| Step(items, trail, last, p);
    SameRow(items, p, Lookup(items, ParentKey(a)));
  }

  lemma {:induction false} AttachedChain(items: seq<Asset>, a: Asset, trail: seq<string>)
    requires Table(items) && IsTrail(items, trail) && Attached(items, a, trail)
    ensures PathIs(items, a, trail)
    decreases |trail|
  {
    if trail == [] {
    } else {
      var front := trail[..|trail| - 1];
      var p := TrailEnd(items, a, trail);
      PrefixTrail(items, trail);
      AttachedChain(items, p, front);
      PathStep(items, a, p, front);
      SplitLast(trail);
    }
  }

  lemma {:induction false} PrefixTrail(items: seq<Asset>, trail: seq<string>)
    requires IsTrail(items, trail) && trail != []
    ensures IsTrail(items, trail[..|trail| - 1])
  {
    var t := trail[..|trail| - 1];
    forall k | 0 <= k < |t|
      ensures HasStep(items, t, k)
    {
      assert HasStep(items, trail, k);
      var f :| Step(items, trail, k, f);
      assert t[..k] == trail[..k];
      assert Step(items, t, k, f);
    }
  }

  lemma {:induction false} ChainAttached(items: seq<Asset>, b: Asset, n: nat)
    requires Table(items) && b in items && FolderChain(items, b, n) && Climbs(items, b, n)
    ensures Attached(items, b, Path(items, b, n))
  {
  }

  /** A row whose path continues past `trail` sits below one folder attached to `trail`. */
  lemma {:induction false} BelowSibling(items: seq<Asset>, b: Asset, n: nat, trail: seq<string>) returns (a: Asset)
    requires Table(items) && b in items && FolderChain(items, b, n) && Climbs(items, b, n)
    requires trail <= Path(items, b, n) && |trail| < n
    ensures Attached(items, a, trail) && a.isFolder && a.fileId == Path(items, b, n)[|trail|]
    decreases n
  {
    var p := Lookup(items, ParentKey(b));
    var up := Path(items, p, n - 1);
    if |trail| == n - 1 {
      assert trail == up;
      ChainAttached(items, p, n - 1);
      a := p;
    } else {
      assert trail <= up;
      a := BelowSibling(items, p, n - 1, trail);
    }
  }

  /** `b` is placed below the end of `trail` by `n` ancestors, those after the trail being open. */
  ghost predicate UnderBy(items: seq<Asset>, b: Asset, n: nat, trail: seq<string>, open: string -> bool) {
    && FolderChain(items, b, n) && Climbs(items, b, n) && trail <= Path(items, b, n)
    && forall k :: |trail| <= k < n ==> open(Path(items, b, n)[k])
  }

  ghost predicate Under(items: seq<Asset>, b: Asset, trail: seq<string>, open: string -> bool) {
    b in items && exists n: nat :: UnderBy(items, b, n, trail, open)
  }

  /** `b` is the row `a` itself or shown somewhere inside it. */
  ghost predicate Within(items: seq<Asset>, b: Asset, a: Asset, trail: seq<string>, open: string -> bool) {
    b == a || (a.isFolder && open(a.fileId) && Under(items, b, trail + [a.fileId], open))
  }

  lemma {:induction false} UnderIffWithin(items: seq<Asset>, b: Asset, trail: seq<string>, open: string -> bool)
    requires Table(items) && IsTrail(items, trail)
    ensures Under(items, b, trail, open) <==> exists a :: Attached(items, a, trail) && Within(items, b, a, trail, open)
  {
    if Under(items, b, trail, open) {
      var n: nat :| UnderBy(items, b, n, trail, open);
      if n == |trail| {
        ChainAttached(items, b, n);
        assert Within(items, b, b, trail, open);
      } else {
        var a := BelowSibling(items, b, n, trail);
        assert UnderBy(items, b, n, trail + [a.fileId], open);
        assert Within(items, b, a, trail, open);
      }
    }
    if a :| Attached(items, a, trail) && Within(items, b, a, trail, open) {
      AttachedChain(items, a, trail);
      if b == a {
        assert UnderBy(items, b, |trail|, trail, open);
      } else {
        var n: nat :| UnderBy(items, b, n, trail + [a.fileId], open);
        assert Path(items, b, n)[|trail|] == a.fileId;
        assert UnderBy(items, b, n, trail, open);
      }
    }
  }

  /** Different children of one trail show different rows. */
  lemma {:induction false} WithinOnce(items: seq<Asset>, b: Asset, a: Asset, c: Asset, trail: seq<string>,
                                      open: string -> bool)
    requires Table(items) && IsTrail(items, trail)
    requires Attached(items, a, trail) && Attached(items, c, trail)
    requires Within(items, b, a, trail, open) && Within(items, b, c, trail, open)
    ensures a == c
  {
    if b == a {
      NotBelow(items, b, c, trail, open);
    } else if b == c {
      NotBelow(items, b, a, trail, open);
    } else {
      var m: nat :| UnderBy(items, b, m, trail + [a.fileId], open);
      var n: nat :| UnderBy(items, b, n, trail + [c.fileId], open);
      ClimbsOnce(items, b, m, n);
      assert a.fileId == Path(items, b, m)[|trail|] == c.fileId;
      SameRow(items, a, c);
    }
  }

  lemma {:induction false} NotBelow(items: seq<Asset>, b: Asset, a: Asset, trail: seq<string>, open: string -> bool)
    requires Table(items) && IsTrail(items, trail) && Attached(items, b, trail)
    ensures !Under(items, b, trail + [a.fileId], open)
  {
    AttachedChain(items, b, trail);
    forall n: nat ensures !UnderBy(items, b, n, trail + [a.fileId], open) {
      if Climbs(items, b, n) {
        ClimbsOnce(items, b, n, |trail|);
      }
    }
  }

  lemma {:induction false} SiblingsDistinct(items: seq<Asset>, leq: NameOrder, trail: seq<string>)
    requires Table(items)
    ensures Distinct(Siblings(items, leq, trail))
  {
    var keep := if trail == [] then (i: Asset) => !Has(items, ParentKey(i))
                else (i: Asset) => i.parentId == Some(trail[|trail| - 1]);
    var rows := Filter(items, keep);
    SortMultiset(rows, RowOrder(leq));
    forall x | x in Siblings(items, leq, trail)
      ensures multiset(Siblings(items, leq, trail))[x] <= 1
    {
      FilterMultiset(items, keep, x);
      DistinctCount(items, x);
    }
    CountDistinct(Siblings(items, leq, trail));
  }

  lemma {:induction false} LevelCount(items: seq<Asset>, leq: NameOrder, trail: seq<string>, open: string -> bool,
                                      b: Asset)
    requires Table(items) && IsTrail(items, trail)
    ensures multiset(Shown(Level(items, leq, trail), open))[b] == if Under(items, b, trail, open) then 1 else 0
    decreases FileIds(items) - (set x | x in trail), 1, 0
  {
    SiblingsAttached(items, leq, trail);
    SiblingsDistinct(items, leq, trail);
    NodesCount(items, leq, Siblings(items, leq, trail), trail, open, b);
    UnderIffWithin(items, b, trail, open);
  }

  lemma {:induction false} NodesCount(items: seq<Asset>, leq: NameOrder, rows: seq<Asset>, trail: seq<string>,
                                      open: string -> bool, b: Asset)
    requires Table(items) && IsTrail(items, trail) && Distinct(rows)
    requires forall a :: a in rows ==> Attached(items, a, trail)
    ensures multiset(Shown(Nodes(items, leq, rows, trail), open))[b] ==
            if exists a :: a in rows && Within(items, b, a, trail, open) then 1 else 0
    decreases FileIds(items) - (set x | x in trail), 0, |rows|
  {
    if rows == [] {
      assert Nodes(items, leq, rows, trail) == [];
    } else {
      hide Table, IsTrail, Distinct, Nodes, Shown, Within, Opens, Attached;
      RestDistinct(rows);
      NodesCount(items, leq, rows[1..], trail, open, b);
      NodesRest(items, leq, rows, trail);
      ShownCount(Nodes(items, leq, rows, trail), open, b);
      HeadCount(items, leq, rows, trail, open, b);
      OnlyOneHolds(items, rows, trail, open, b);
    }
  }

  lemma {:induction false} RestDistinct(rows: seq<Asset>)
    requires Distinct(rows) && rows != []
    ensures Distinct(rows[1..])
  {
  }

  /** The first sibling and what is shown inside it. */
  lemma {:induction false} HeadCount(items: seq<Asset>, leq: NameOrder, rows: seq<Asset>, trail: seq<string>,
                                     open: string -> bool, b: Asset)
    requires Table(items) && IsTrail(items, trail) && rows != [] && forall a :: a in rows ==> Attached(items, a, trail)
    ensures
      var first := Nodes(items, leq, rows, trail)[0];
      (if b == first.asset then 1 else 0) + (if Opens(first, open) then multiset(Shown(first.children, open))[b] else 0) ==
      if Within(items, b, rows[0], trail, open) then 1 else 0
    decreases FileIds(items) - (set x | x in trail), 0, 0
  {
    var a := rows[0];
    if a.isFolder {
      TrailExtends(items, a, trail);
      TrailGrows(items, a, trail);
      LevelCount(items, leq, trail + [a.fileId], open, b);
    }
    NotBelow(items, a, a, trail, open);
  }

  lemma {:induction false} ShownCount(nodes: seq<Node>, open: string -> bool, b: Asset)
    requires nodes != []
    ensures multiset(Shown(nodes, open))[b] ==
            (if b == nodes[0].asset then 1 else 0)
            + (if Opens(nodes[0], open) then multiset(Shown(nodes[0].children, open))[b] else 0)
            + multiset(Shown(nodes[1..], open))[b]
  {
  }

  lemma {:induction false} OnlyOneHolds(items: seq<Asset>, rows: seq<Asset>, trail: seq<string>, open: string -> bool,
                                        b: Asset)
    requires Table(items) && IsTrail(items, trail) && Distinct(rows) && rows != []
    requires forall a :: a in rows ==> Attached(items, a, trail)
    ensures (exists c :: c in rows && Within(items, b, c, trail, open)) <==>
            Within(items, b, rows[0], trail, open) || exists c :: c in rows[1..] && Within(items, b, c, trail, open)
    ensures Within(items, b, rows[0], trail, open) ==> !exists c :: c in rows[1..] && Within(items, b, c, trail, open)
  {
    forall c | c in rows[1..] && Within(items, b, c, trail, open)
      ensures !Within(items, b, rows[0], trail, open)
    {
      if Within(items, b, rows[0], trail, open) {
        WithinOnce(items, b, rows[0], c, trail, open);
        assert false;
      }
    }
  }

  /** Every row whose parent chain passes only through folders and ends outside the table is
      placed exactly once; no other row is placed, whatever cycles the table contains. */
  lemma {:induction false} PlacedExactlyOnce(items: seq<Asset>, leq: NameOrder, b: Asset)
    requires Table(items)
    ensures multiset(Shown(BuildTree(items, leq), All))[b] == if Placeable(items, b) then 1 else 0
  {
    LevelCount(items, leq, [], All, b);
    if Placeable(items, b) {
      var n: nat :| FolderChain(items, b, n);
      FolderChainClimbs(items, b, n);
      assert UnderBy(items, b, n, [], All);
    }
  }

  /** A placed row is on screen, once, exactly when each of its ancestors is expanded. */
  lemma {:induction false} VisibleExactlyWhenOpen(items: seq<Asset>, leq: NameOrder, expanded: set<string>, b: Asset,
                                                  n: nat)
    requires Table(items) && b in items && FolderChain(items, b, n) && Climbs(items, b, n)
    ensures multiset(Shown(BuildTree(items, leq), Open(expanded)))[b] ==
            if forall id :: id in Path(items, b, n) ==> id in expanded then 1 else 0
  {
    hide Table, Shown, Level, FolderChain, Climbs, Under;
    LevelCount(items, leq, [], Open(expanded), b);
    UnderIffOpen(items, expanded, b, n);
  }

  lemma {:induction false} UnderIffOpen(items: seq<Asset>, expanded: set<string>, b: Asset, n: nat)
    requires Table(items) && b in items && FolderChain(items, b, n) && Climbs(items, b, n)
    ensures Under(items, b, [], Open(expanded)) <==> forall id :: id in Path(items, b, n) ==> id in expanded
  {
    hide FolderChain, Climbs;
    var open := Open(expanded);
    if m: nat :| UnderBy(items, b, m, [], open) {
      ClimbsOnce(items, b, m, n);
      forall id | id in Path(items, b, n) ensures id in expanded {
        var k :| 0 <= k < n && Path(items, b, n)[k] == id;
        assert open(Path(items, b, n)[k]);
      }
    }
    if forall id :: id in Path(items, b, n) ==> id in expanded {
      assert UnderBy(items, b, n, [], open);
    }
  }

  lemma {:induction false} LevelDepths(items: seq<Asset>, leq: NameOrder, trail: seq<string>, open: string -> bool,
                                       r: Row)
    requires Table(items) && IsTrail(items, trail)
    requires r in Rows(Level(items, leq, trail), |trail|, open)
    ensures r.node.asset in items && FolderChain(items, r.node.asset, r.depth) && Climbs(items, r.node.asset, r.depth)
    decreases FileIds(items) - (set x | x in trail), 1, 0
  {
    SiblingsAttached(items, leq, trail);
    NodesDepths(items, leq, Siblings(items, leq, trail), trail, open, r);
  }

  lemma {:induction false} NodesDepths(items: seq<Asset>, leq: NameOrder, rows: seq<Asset>, trail: seq<string>,
                                       open: string -> bool, r: Row)
    requires Table(items) && IsTrail(items, trail)
    requires forall a :: a in rows ==> Attached(items, a, trail)
    requires r in Rows(Nodes(items, leq, rows, trail), |trail|, open)
    ensures r.node.asset in items && FolderChain(items, r.node.asset, r.depth) && Climbs(items, r.node.asset, r.depth)
    decreases FileIds(items) - (set x | x in trail), 0, |rows|
  {
    var nodes := Nodes(items, leq, rows, trail);
    if rows == [] {
    } else {
      var a := rows[0];
      assert nodes[1..] == Nodes(items, leq, rows[1..], trail);
      if r in Rows(nodes[1..], |trail|, open) {
        NodesDepths(items, leq, rows[1..], trail, open, r);
      } else if r == Row(nodes[0], |trail|) {
        AttachedChain(items, a, trail);
      } else {
        assert Opens(nodes[0], open) && r in Rows(nodes[0].children, |trail| + 1, open);
        TrailExtends(items, a, trail);
        TrailGrows(items, a, trail);
        LevelDepths(items, leq, trail + [a.fileId], open, r);
      }
    }
  }

  // ----- The indentation walk -----

  /** The drive-id index; unique ids make it a faithful lookup. */
  method IndexByFileId(items: seq<Asset>) returns (byFileId: map<string, Asset>)
    requires Table(items)
    ensures forall id :: id in byFileId <==> Has(items, id)
    ensures forall id :: id in byFileId ==> byFileId[id] == Lookup(items, id)
  {
    byFileId := map[];
    for i := 0 to |items|
      invariant forall id :: id in byFileId <==> Has(items[..i], id)
      invariant forall id :: id in byFileId ==> byFileId[id] in items && byFileId[id].fileId == id
    {
      byFileId := byFileId[items[i].fileId := items[i]];
      assert items[..i + 1] == items[..i] + [items[i]];
    }
    assert items[..|items|] == items;
    forall id | id in byFileId ensures byFileId[id] == Lookup(items, id) {
      SameRow(items, byFileId[id], Lookup(items, id));
    }
  }

  /** The loop guard holds after `k` steps up from `node`. */
  ghost predicate StillClimbing(items: seq<Asset>, node: Asset, k: nat)
    decreases k
  {
    Has(items, ParentKey(node)) && (k > 0 ==> StillClimbing(items, Lookup(items, ParentKey(node)), k - 1))
  }

  lemma {:induction false} ClimbsOrClimbing(items: seq<Asset>, node: Asset, k: nat)
    ensures StillClimbing(items, node, k) ==> forall n: nat :: n <= k ==> !Climbs(items, node, n)
    ensures !StillClimbing(items, node, k) ==> exists n: nat :: n <= k && Climbs(items, node, n)
    decreases k
  {
    if !Has(items, ParentKey(node)) {
      assert Climbs(items, node, 0);
    } else if k == 0 {
      assert !Climbs(items, node, 0);
    } else {
      var parent := Lookup(items, ParentKey(node));
      ClimbsOrClimbing(items, parent, k - 1);
      if StillClimbing(items, node, k) {
        forall n: nat | n <= k ensures !Climbs(items, node, n) {
          if n > 0 {
            var m: nat := n - 1;
            assert !Climbs(items, parent, m);
          }
        }
      } else {
        var m: nat :| m <= k - 1 && Climbs(items, parent, m);
        var n: nat := m + 1;
        assert n <= k && Climbs(items, node, n);
      }
    }
  }

  /** The depth used for indentation: the number of ancestors found in the table. The source's loop has
      no bound; `fuel` stops the model's after that many steps with the guard still true. */
  method GetDepth(items: seq<Asset>, node: Asset, filtering: bool, fuel: nat) returns (depth: nat, running: bool)
    requires Table(items)
    ensures filtering ==> depth == 0 && !running
    ensures !filtering ==> running == StillClimbing(items, node, fuel)
    ensures !filtering ==> if running then depth == fuel else Climbs(items, node, depth)
  {
    depth, running := 0, false;
    if filtering {
      return;
    }
    var current := node;
    var byFileId := IndexByFileId(items);
    while current.parentId.Some? && current.parentId.value != "" && current.parentId.value in byFileId
      invariant depth <= fuel
      invariant StillClimbing(items, node, fuel) <==> StillClimbing(items, current, fuel - depth)
      invariant forall n: nat :: Climbs(items, current, n) ==> Climbs(items, node, depth + n)
      decreases fuel - depth
    {
      if depth == fuel {
        return depth, true;
      }
      var parent := byFileId[current.parentId.value];
      forall n: nat | Climbs(items, parent, n) ensures Climbs(items, node, depth + 1 + n) {
        assert Climbs(items, current, n + 1);
      }
      depth := depth + 1;
      current := parent;
    }
    assert Climbs(items, current, 0);
  }

  /** The level at which a row sits in the forest is the depth the upward walk computes, and no other. */
  lemma {:induction false} DepthIsLevel(items: seq<Asset>, leq: NameOrder, open: string -> bool, r: Row, n: nat)
    requires Table(items) && r in Rows(BuildTree(items, leq), 0, open)
    ensures Climbs(items, r.node.asset, n) <==> n == r.depth
  {
    LevelDepths(items, leq, [], open, r);
    if Climbs(items, r.node.asset, n) {
      ClimbsOnce(items, r.node.asset, n, r.depth);
    }
  }

  lemma {:induction false} AncestorsClimb(items: seq<Asset>, a: Asset, n: nat, k: nat)
    requires Climbs(items, a, n) && k < n
    ensures Has(items, Path(items, a, n)[k])
    ensures Climbs(items, Lookup(items, Path(items, a, n)[k]), k)
    decreases n
  {
    if k == n - 1 {
    } else {
      AncestorsClimb(items, Lookup(items, ParentKey(a)), n - 1, k);
    }
  }

  lemma {:induction false} DistinctBound(s: seq<string>, ids: set<string>)
    requires Distinct(s) && forall x :: x in s ==> x in ids
    ensures |s| <= |ids|
    decreases |s|
  {
    if s == [] {
    } else {
      DistinctBound(s[1..], ids - {s[0]});
    }
  }

  lemma {:induction false} FileIdCount(items: seq<Asset>)
    ensures |FileIds(items)| <= |items|
  {
    if items == [] {
      assert FileIds(items) == {};
    } else {
      FileIdCount(items[1..]);
      assert FileIds(items) == FileIds(items[1..]) + {items[0].fileId};
    }
  }

  /** A walk that ends at all ends before it has made as many steps as the table has rows, so the
      rows on which `getDepth` loops can be recognised by a bounded walk. */
  lemma {:induction false} WalkBound(items: seq<Asset>, a: Asset, n: nat)
    requires Table(items) && a in items && Climbs(items, a, n)
    ensures n < |items|
  {
    var ids := Path(items, a, n) + [a.fileId];
    forall k | 0 <= k < n ensures ids[k] in FileIds(items) {
      AncestorsClimb(items, a, n, k);
    }
    forall i, j | 0 <= i < j < |ids| ensures ids[i] != ids[j] {
      AncestorsClimb(items, a, n, i);
      var x := Lookup(items, ids[i]);
      if ids[i] == ids[j] {
        if j < n {
          AncestorsClimb(items, a, n, j);
          ClimbsOnce(items, x, i, j);
        } else {
          SameRow(items, x, a);
          ClimbsOnce(items, a, i, n);
        }
        assert false;
      }
    }
    DistinctBound(ids, FileIds(items));
    FileIdCount(items);
  }

  /** The source's loop runs forever exactly when it has not ended after as many steps as the table has
      rows. */
  lemma {:induction false} LoopsForeverIff(items: seq<Asset>, node: Asset)
    requires Table(items) && node in items
    ensures (forall k: nat :: StillClimbing(items, node, k)) <==> StillClimbing(items, node, |items|)
  {
    if StillClimbing(items, node, |items|) {
      forall k: nat ensures StillClimbing(items, node, k) {
        ClimbsOrClimbing(items, node, |items|);
        ClimbsOrClimbing(items, node, k);
        if !StillClimbing(items, node, k) {
          var n: nat :| n <= k && Climbs(items, node, n);
          WalkBound(items, node, n);
          assert false;
        }
      }
    }
  }

  /** It does so on two folders that name each other as parents. */
  lemma {:induction false} ParentCycleLoops() returns (items: seq<Asset>, node: Asset)
    ensures Table(items) && node in items && node.isFolder
    ensures forall k: nat :: StillClimbing(items, node, k)
  {
    var a := Asset("e1", "a", "first", true, Some("b"));
    var b := Asset("e2", "b", "second", true, Some("a"));
    items, node := [a, b], a;
    forall k: nat ensures StillClimbing(items, node, k) {
      CycleClimbs(items, a, b, k);
    }
  }

  lemma {:induction false} CycleClimbs(items: seq<Asset>, a: Asset, b: Asset, k: nat)
    requires Table(items) && a in items && b in items && ParentKey(a) == b.fileId && ParentKey(b) == a.fileId
    ensures StillClimbing(items, a, k)
    decreases k
  {
    assert Has(items, b.fileId);
    SameRow(items, Lookup(items, b.fileId), b);
    if k == 0 {
    } else {
      CycleClimbs(items, b, a, k - 1);
    }
  }
}

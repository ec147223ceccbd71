/** Deleting a row from the local table: the fixed-point closure of doomed folder ids, the filter,
    and the effect on the forest. */
module DriveDelete {
  import opened Sequences
  import opened StableSort
  import opened DriveForest
  import DriveRows

  predicate ParentIn(a: Asset, ids: set<string>) {
    a.parentId.Some? && a.parentId.value != "" && a.parentId.value in ids
  }

  function FolderIds(items: seq<Asset>): set<string> {
    set a | a in items && a.isFolder :: a.fileId
  }

  /** `ids` holds the target and, with a folder's parent, the folder. */
  ghost predicate Closed(items: seq<Asset>, target: Asset, ids: set<string>) {
    && target.fileId in ids
    && forall a :: a in items && a.isFolder && ParentIn(a, ids) ==> a.fileId in ids
  }

  /** The least closed set: the target and every folder below it. */
  ghost function Closure(items: seq<Asset>, target: Asset): set<string> {
    set id | id in FolderIds(items) + {target.fileId} && (forall ids :: Closed(items, target, ids) ==> id in ids)
  }

  lemma {:induction false} ClosureLeast(items: seq<Asset>, target: Asset)
    ensures Closed(items, target, Closure(items, target))
    ensures forall ids :: Closed(items, target, ids) ==> Closure(items, target) <= ids
  {
    var c := Closure(items, target);
    forall a | a in items && a.isFolder && ParentIn(a, c) ensures a.fileId in c {
      forall ids | Closed(items, target, ids) ensures a.fileId in ids {
        assert ParentIn(a, ids);
      }
    }
  }

  /** The closure does not depend on the order of the table. */
  lemma {:induction false} ClosureIgnoresOrder(items: seq<Asset>, other: seq<Asset>, target: Asset)
    requires forall a :: a in items <==> a in other
    ensures Closure(items, target) == Closure(other, target)
  {
    forall ids ensures Closed(items, target, ids) <==> Closed(other, target, ids) {
    }
    ClosureLeast(items, target);
    ClosureLeast(other, target);
  }

  /** Every id of the closure is the target's or belongs to a folder whose parent is in it too. */
  lemma {:induction false} ClosureMember(items: seq<Asset>, target: Asset, id: string)
    requires id in Closure(items, target)
    ensures id == target.fileId ||
            exists a :: a in items && a.isFolder && a.fileId == id && ParentIn(a, Closure(items, target))
  {
    var c := Closure(items, target);
    ClosureLeast(items, target);
    if id != target.fileId && !exists a :: a in items && a.isFolder && a.fileId == id && ParentIn(a, c) {
      var smaller := c - {id};
      forall a | a in items && a.isFolder && ParentIn(a, smaller) ensures a.fileId in smaller {
        assert ParentIn(a, c);
      }
      assert Closed(items, target, smaller);
      assert false;
    }
  }

  /** The `grew` loop. It stops after at most one pass per folder plus one. */
  method RemovalIds(items: seq<Asset>, target: Asset) returns (ids: set<string>, passes: nat)
    ensures ids == Closure(items, target)
    ensures passes <= |FolderIds(items)| + 1
  {
    ClosureLeast(items, target);
    ids := {target.fileId};
    passes := 0;
    ghost var bound := FolderIds(items) + {target.fileId};
    var grew := true;
    while grew
      invariant target.fileId in ids && ids <= Closure(items, target) && ids <= bound
      invariant !grew ==> Closed(items, target, ids)
      invariant if grew then passes < |ids| else passes <= |ids|
      decreases bound - ids, grew
    {
      grew := false;
      ghost var before := ids;
      for k := 0 to |items|
        invariant before <= ids <= Closure(items, target) && ids <= bound
        invariant grew ==> before < ids && |before| < |ids|
        invariant !grew ==> ids == before
        invariant !grew ==>
          forall a :: a in items[..k] && a.isFolder && ParentIn(a, ids) ==> a.fileId in ids
      {
        var i := items[k];
        if i.isFolder && ParentIn(i, ids) && i.fileId !in ids {
          assert ParentIn(i, Closure(items, target));
          ids := ids + {i.fileId};
          grew := true;
        }
        assert items[..k + 1] == items[..k] + [i];
      }
      assert items[..|items|] == items;
      passes := passes + 1;
      if grew {
        assert bound - ids < bound - before;
      }
    }
    SubsetSize(ids, bound);
    assert |bound| <= |FolderIds(items)| + 1;
  }

  lemma {:induction false} SubsetSize(a: set<string>, b: set<string>)
    requires a <= b
    ensures |a| <= |b|
    decreases |a|
  {
    if a == {} {
    } else {
      var x :| x in a;
      SubsetSize(a - {x}, b - {x});
    }
  }

  ghost predicate Survives(items: seq<Asset>, target: Asset, a: Asset) {
    a.entityId != target.entityId && !ParentIn(a, Closure(items, target))
  }

  ghost function Remaining(items: seq<Asset>, target: Asset): seq<Asset> {
    Filter(items, (a: Asset) => Survives(items, target, a))
  }

  /** The component state that a delete touches. */
  class AssetsState {
    var items: seq<Asset>
    var selectedIds: set<string>
    var deleteTarget: Option<Asset>
    var deleteError: Option<string>

    /** `refusal` is the server's answer: an error keeps the view and the open modal. */
    method HandleDelete(asset: Asset, refusal: Option<string>)
      modifies this
      ensures refusal.Some? ==>
        items == old(items) && selectedIds == old(selectedIds) && deleteTarget == old(deleteTarget) && deleteError == refusal
      ensures refusal.None? ==>
        items == Remaining(old(items), asset) && selectedIds == old(selectedIds) - {asset.entityId} && deleteTarget == None &&
        deleteError == None
    {
      deleteError := None;
      if refusal.Some? {
        deleteError := refusal;
        return;
      }
      var ids, _ := RemovalIds(items, asset);
      var prev := items;
      FilterSame(prev, (i: Asset) => i.entityId != asset.entityId && !ParentIn(i, ids),
                 (a: Asset) => Survives(prev, asset, a));
      items := Filter(prev, (i: Asset) => i.entityId != asset.entityId && !ParentIn(i, ids));
      selectedIds := selectedIds - {asset.entityId};
      deleteTarget := None;
    }
  }

  /** A forest without one row and everything below it; all else keeps its place. */
  function Prune(nodes: seq<Node>, entityId: string): seq<Node>
    decreases nodes
  {
    if nodes == [] then []
    else if nodes[0].asset.entityId == entityId then Prune(nodes[1..], entityId)
    else [Node(nodes[0].asset, Prune(nodes[0].children, entityId))] + Prune(nodes[1..], entityId)
  }

  /** No surviving row names a removed row as its parent. */
  ghost predicate NoOrphans(items: seq<Asset>, target: Asset) {
    forall a :: a in items && Survives(items, target, a) && Has(items, ParentKey(a)) ==>
      Survives(items, target, Lookup(items, ParentKey(a)))
  }

  ghost predicate ParentsAreFolders(items: seq<Asset>) {
    forall a :: a in items && Has(items, ParentKey(a)) ==> Lookup(items, ParentKey(a)).isFolder
  }

  /** A removed folder's own id is in the closure, so its children go with it. */
  lemma {:induction false} RemovedFolder(items: seq<Asset>, target: Asset, p: Asset)
    requires Table(items) && target in items && p in items && !Survives(items, target, p)
    requires p.isFolder || p == target
    ensures p.fileId in Closure(items, target)
  {
  }

  lemma {:induction false} FolderParentsLeaveNoOrphans(items: seq<Asset>, target: Asset)
    requires Table(items) && target in items && ParentsAreFolders(items)
    ensures NoOrphans(items, target)
  {
  }

  lemma {:induction false} ClosureRowsGo(items: seq<Asset>, target: Asset, a: Asset)
    requires Table(items) && target in items && a in items && a.fileId in Closure(items, target)
    ensures !Survives(items, target, a)
  {
    ClosureMember(items, target, a.fileId);
    if a.fileId == target.fileId {
      SameRow(items, a, target);
    } else {
      var f :| f in items && f.isFolder && f.fileId == a.fileId && ParentIn(f, Closure(items, target));
      SameRow(items, a, f);
    }
  }

  lemma {:induction false} FilterTable(items: seq<Asset>, keep: Asset -> bool)
    requires Table(items)
    ensures Table(Filter(items, keep))
  {
    if items == [] {
    } else {
      FilterTable(items[1..], keep);
      var rest := Filter(items[1..], keep);
      forall j | 0 <= j < |rest|
        ensures rest[j].fileId != items[0].fileId && rest[j].entityId != items[0].entityId
      {
        assert rest[j] in items[1..];
      }
    }
  }

  lemma {:induction false} RemainingHas(items: seq<Asset>, target: Asset, a: Asset)
    requires Table(items) && NoOrphans(items, target)
    requires a in items && Survives(items, target, a)
    ensures Has(Remaining(items, target), ParentKey(a)) <==> Has(items, ParentKey(a))
  {
  }

  lemma {:induction false} RemainingAttached(items: seq<Asset>, target: Asset, a: Asset, trail: seq<string>)
    requires Table(items) && NoOrphans(items, target)
    ensures Attached(Remaining(items, target), a, trail) <==> Survives(items, target, a) && Attached(items, a, trail)
  {
  }

  lemma {:induction false} RemainingSiblings(items: seq<Asset>, leq: NameOrder, target: Asset, trail: seq<string>)
    requires Table(items) && NoOrphans(items, target) && TotalPreorder(leq)
    ensures Siblings(Remaining(items, target), leq, trail) ==
            Filter(Siblings(items, leq, trail), (a: Asset) => Survives(items, target, a))
  {
    var lives := (a: Asset) => Survives(items, target, a);
    var here := if trail == [] then (i: Asset) => !Has(items, ParentKey(i))
                else (i: Asset) => i.parentId == Some(trail[|trail| - 1]);
    var there := if trail == [] then (i: Asset) => !Has(Remaining(items, target), ParentKey(i))
                 else (i: Asset) => i.parentId == Some(trail[|trail| - 1]);
    forall a | a in items && lives(a) ensures here(a) == there(a) {
      RemainingHas(items, target, a);
    }
    SortedSelection(items, RowOrder(leq), lives, here, there);
  }

  lemma {:induction false} SortedSelection(items: seq<Asset>, order: (Asset, Asset) -> bool,
                        lives: Asset -> bool, here: Asset -> bool, there: Asset -> bool)
    requires TotalPreorder(order)
    requires forall a :: a in items && lives(a) ==> here(a) == there(a)
    ensures Sort(Filter(Filter(items, lives), there), order) == Filter(Sort(Filter(items, here), order), lives)
  {
    SortFilter(Filter(items, here), order, lives);
    var both := a => lives(a) && here(a);
    FilterTwice(items, here, lives, both);
    FilterTwice(items, lives, there, both);
  }

  /** The only removed row among the children of a surviving trail is the target itself. */
  lemma {:induction false} RemovedSibling(items: seq<Asset>, target: Asset, a: Asset, trail: seq<string>)
    requires Table(items) && target in items && NoOrphans(items, target)
    requires IsTrail(Remaining(items, target), trail)
    requires Attached(items, a, trail) && !Survives(items, target, a)
    ensures a == target
  {
    if a.entityId == target.entityId {
      SameRow(items, a, target);
    } else {
      var id := ParentKey(a);
      ClosureMember(items, target, id);
      assert Has(items, id);
      assert trail != [];
      var last := |trail| - 1;
      assert HasStep(Remaining(items, target), trail, last);
      var f :| Step(Remaining(items, target), trail, last, f);
      ClosureRowsGo(items, target, f);
      assert false;
    }
  }

  lemma {:induction false} LevelCommutes(items: seq<Asset>, leq: NameOrder, target: Asset, trail: seq<string>)
    requires Table(items) && target in items && NoOrphans(items, target) && TotalPreorder(leq)
    requires Table(Remaining(items, target)) && IsTrail(Remaining(items, target), trail) && IsTrail(items, trail)
    ensures Level(Remaining(items, target), leq, trail) == Prune(Level(items, leq, trail), target.entityId)
    decreases FileIds(Remaining(items, target)) - (set x | x in trail), 1, 0
  {
    SiblingsAttached(items, leq, trail);
    SiblingsAttached(Remaining(items, target), leq, trail);
    RemainingSiblings(items, leq, target, trail);
    NodesCommute(items, leq, target, Siblings(items, leq, trail), trail);
  }

  lemma {:induction false} NodesCommute(items: seq<Asset>, leq: NameOrder, target: Asset, rows: seq<Asset>,
                                        trail: seq<string>)
    requires Table(items) && target in items && NoOrphans(items, target) && TotalPreorder(leq)
    requires Table(Remaining(items, target)) && IsTrail(Remaining(items, target), trail) && IsTrail(items, trail)
    requires forall a :: a in rows ==> Attached(items, a, trail)
    requires forall a :: a in Filter(rows, (a: Asset) => Survives(items, target, a)) ==> Attached(Remaining(items, target), a, trail)
    ensures Nodes(Remaining(items, target), leq, Filter(rows, (a: Asset) => Survives(items, target, a)), trail) ==
            Prune(Nodes(items, leq, rows, trail), target.entityId)
    decreases FileIds(Remaining(items, target)) - (set x | x in trail), 0, |rows|
  {
    if rows == [] {
    } else {
      var rest := Remaining(items, target);
      var lives := (a: Asset) => Survives(items, target, a);
      var a := rows[0];
      var nodes := Nodes(items, leq, rows, trail);
      assert nodes[1..] == Nodes(items, leq, rows[1..], trail);
      NodesCommute(items, leq, target, rows[1..], trail);
      if Survives(items, target, a) {
        RemainingAttached(items, target, a, trail);
        if a.isFolder {
          TrailExtends(items, a, trail);
          TrailExtends(rest, a, trail);
          TrailGrows(rest, a, trail);
          LevelCommutes(items, leq, target, trail + [a.fileId]);
        }
        var kept := Filter(rows, lives);
        assert kept[0] == a && kept[1..] == Filter(rows[1..], lives);
      } else {
        RemovedSibling(items, target, a, trail);
      }
    }
  }

  lemma {:induction false} PruneCount(nodes: seq<Node>, entityId: string, b: Asset)
    ensures multiset(DriveRows.Shown(Prune(nodes, entityId), DriveRows.All))[b] <= multiset(DriveRows.Shown(nodes, DriveRows.All))[b]
    decreases nodes
  {
    if nodes == [] {
    } else {
      PruneCount(nodes[0].children, entityId, b);
      PruneCount(nodes[1..], entityId, b);
      DriveRows.ShownCount(nodes, DriveRows.All, b);
      var pruned := Prune(nodes, entityId);
      if nodes[0].asset.entityId != entityId {
        assert pruned[1..] == Prune(nodes[1..], entityId);
        DriveRows.ShownCount(pruned, DriveRows.All, b);
      }
    }
  }

  /** An orphan resurfaces as a root although the old forest never showed it. */
  lemma {:induction false} OrphanResurfaces(items: seq<Asset>, leq: NameOrder, target: Asset, a: Asset)
    requires Table(items) && target in items && Table(Remaining(items, target))
    requires a in items && Survives(items, target, a) && Has(items, ParentKey(a))
    requires !Survives(items, target, Lookup(items, ParentKey(a)))
    ensures multiset(DriveRows.Shown(BuildTree(Remaining(items, target), leq), DriveRows.All))[a] == 1
    ensures multiset(DriveRows.Shown(BuildTree(items, leq), DriveRows.All))[a] == 0
  {
    var rest := Remaining(items, target);
    var p := Lookup(items, ParentKey(a));
    if Has(rest, ParentKey(a)) {
      SameRow(items, Lookup(rest, ParentKey(a)), p);
      assert false;
    }
    assert DriveForest.FolderChain(rest, a, 0);
    DriveRows.PlacedExactlyOnce(rest, leq, a);
    if p.isFolder {
      RemovedFolder(items, target, p);
      assert false;
    }
    DriveRows.PlacedExactlyOnce(items, leq, a);
  }

  /** No file inside a doomed folder has child rows, other than the deleted row itself. */
  ghost predicate DoomedFilesChildless(items: seq<Asset>, target: Asset) {
    forall f, c :: f in items && c in items && !f.isFolder && f != target && ParentKey(c) == f.fileId ==>
      ParentIn(f, Closure(items, target)) ==> c == target
  }

  lemma {:induction false} NoOrphansIff(items: seq<Asset>, target: Asset)
    requires Table(items) && target in items
    ensures NoOrphans(items, target) <==> DoomedFilesChildless(items, target)
  {
    if DoomedFilesChildless(items, target) {
      forall a | a in items && Survives(items, target, a) && Has(items, ParentKey(a))
        ensures Survives(items, target, Lookup(items, ParentKey(a)))
      {
        var p := Lookup(items, ParentKey(a));
        if !Survives(items, target, p) {
          if p.isFolder || p == target {
            RemovedFolder(items, target, p);
          } else if p.entityId == target.entityId {
            SameRow(items, p, target);
          }
          assert false;
        }
      }
    }
    if NoOrphans(items, target) {
      forall f, c | f in items && c in items && !f.isFolder && f != target && ParentIn(f, Closure(items, target))
                    && ParentKey(c) == f.fileId
        ensures c == target
      {
        FileChildSurvives(items, target, f, c);
      }
    }
  }

  /** The children of a file are not swept up with it. */
  lemma {:induction false} FileChildSurvives(items: seq<Asset>, target: Asset, f: Asset, c: Asset)
    requires Table(items) && target in items && NoOrphans(items, target)
    requires f in items && c in items && !f.isFolder && f != target && ParentIn(f, Closure(items, target))
    requires ParentKey(c) == f.fileId
    ensures c == target
  {
    assert Has(items, ParentKey(c));
    SameRow(items, Lookup(items, ParentKey(c)), f);
    if ParentIn(c, Closure(items, target)) {
      ClosureMember(items, target, f.fileId);
      if f.fileId == target.fileId {
        SameRow(items, f, target);
      } else {
        var g :| g in items && g.isFolder && g.fileId == f.fileId && ParentIn(g, Closure(items, target));
        SameRow(items, f, g);
      }
      assert false;
    }
    assert !Survives(items, target, f);
    if c.entityId == target.entityId {
      SameRow(items, c, target);
    }
  }

  /** Deleting commutes with building the tree exactly when no file inside a doomed folder has child
      rows: then the new forest is the old one with the target's subtree pruned. */
  lemma {:induction false} DeleteCommutesIff(items: seq<Asset>, leq: NameOrder, target: Asset)
    requires Table(items) && target in items && TotalPreorder(leq)
    ensures Table(Remaining(items, target))
    ensures BuildTree(Remaining(items, target), leq) == Prune(BuildTree(items, leq), target.entityId)
            <==> DoomedFilesChildless(items, target)
  {
    NoOrphansIff(items, target);
    FilterTable(items, (a: Asset) => Survives(items, target, a));
    if NoOrphans(items, target) {
      LevelCommutes(items, leq, target, []);
    } else {
      var a :| a in items && Survives(items, target, a) && Has(items, ParentKey(a))
               && !Survives(items, target, Lookup(items, ParentKey(a)));
      OrphanResurfaces(items, leq, target, a);
      PruneCount(BuildTree(items, leq), target.entityId, a);
    }
  }

  /** In particular it commutes whenever every parent found in the table is a folder. */
  lemma {:induction false} DeleteCommutes(items: seq<Asset>, leq: NameOrder, target: Asset)
    requires Table(items) && target in items && TotalPreorder(leq) && ParentsAreFolders(items)
    ensures Table(Remaining(items, target))
    ensures BuildTree(Remaining(items, target), leq) == Prune(BuildTree(items, leq), target.entityId)
  {
    FolderParentsLeaveNoOrphans(items, target);
    NoOrphansIff(items, target);
    DeleteCommutesIff(items, leq, target);
  }

  /** Without that the claim can fail: a file with a child row, in a folder that is deleted. */
  lemma {:induction false} FileParentOrphans(leq: NameOrder) returns (items: seq<Asset>, target: Asset)
    requires TotalPreorder(leq)
    ensures Table(items) && target in items && Table(Remaining(items, target))
    ensures BuildTree(Remaining(items, target), leq) != Prune(BuildTree(items, leq), target.entityId)
  {
    var file, child;
    items, target, file, child := FileWithChild();
    assert !DoomedFilesChildless(items, target);
    hide *;
    DeleteCommutesIff(items, leq, target);
  }

  lemma {:induction false} FileWithChild() returns (items: seq<Asset>, target: Asset, file: Asset, child: Asset)
    ensures Table(items) && target in items && file in items && child in items
    ensures !file.isFolder && file != target && child != target && ParentKey(child) == file.fileId
    ensures ParentIn(file, Closure(items, target))
  {
    target := Asset("e1", "d", "docs", true, None);
    file := Asset("e2", "f", "a.txt", false, Some("d"));
    child := Asset("e3", "c", "b.txt", false, Some("f"));
    items := [target, file, child];
    ClosureLeast(items, target);
    hide Closure;
  }
}

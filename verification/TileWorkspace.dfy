/** The workspace's drop handlers on its board, and what moving a whole category keeps. */
module TileWorkspace {
  import opened Sequences
  import opened KeyedLists
  import opened TileBoard
  import opened TileMoves

  /** The categories after one of them was dropped before another, or at the end. */
  function DropCatResult(cats: seq<Category>, id: string, before: Option<string>): seq<Category> {
    var idx := CatIndex(cats, id);
    if idx < 0 then cats else InsertBefore(Without(cats, CatId, id), CatId, cats[idx], before)
  }

  lemma {:induction false} SpliceOutCat(cats: seq<Category>, id: string)
    requires Board(cats)
    ensures
      var i := CatIndex(cats, id);
      Without(cats, CatId, id) == if i < 0 then cats else cats[..i] + cats[i + 1..]
  {
    SpliceOut(cats, CatId, id);
  }

  lemma {:induction false} MoveConserves<T>(s: seq<T>, i: nat, at: nat)
    requires i < |s| && at < |s|
    ensures
      var left := s[..i] + s[i + 1..];
      multiset(left[..at] + [s[i]] + left[at..]) == multiset(s)
  {
    var left := s[..i] + s[i + 1..];
    assert left == left[..at] + left[at..];
    assert multiset(left) == multiset(left[..at]) + multiset(left[at..]);
    assert s == s[..i] + [s[i]] + s[i + 1..];
    assert multiset(s) == multiset(left) + multiset([s[i]]);
  }

  /** A dropped category takes all its tiles along: the board holds the same categories. */
  lemma {:induction false} DropCatConserves(cats: seq<Category>, id: string, before: Option<string>)
    requires Board(cats)
    ensures multiset(DropCatResult(cats, id, before)) == multiset(cats)
  {
    hide Board, InsertBefore, Without, IndexOf, Landing;
    var i := CatIndex(cats, id);
    if i >= 0 {
      SpliceOutCat(cats, id);
      var left := cats[..i] + cats[i + 1..];
      SpliceIn(left, CatId, cats[i], before);
      MoveConserves(cats, i, Landing(left, CatId, before));
    }
  }

  lemma {:induction false} DropCatKeepsBoard(cats: seq<Category>, id: string, before: Option<string>)
    requires Board(cats)
    ensures Board(DropCatResult(cats, id, before))
  {
    var r := DropCatResult(cats, id, before);
    DropCatConserves(cats, id, before);
    forall c ensures c in r <==> c in cats {
      assert c in multiset(r) <==> c in multiset(cats);
    }
    assert DistinctKeys(r, CatId) by {
      DropCatDistinct(cats, id, before);
    }
    hide DropCatResult, DistinctKeys;
  }

  lemma {:induction false} DropCatDistinct(cats: seq<Category>, id: string, before: Option<string>)
    requires DistinctKeys(cats, CatId)
    ensures DistinctKeys(DropCatResult(cats, id, before), CatId)
  {
    var i := CatIndex(cats, id);
    if i >= 0 {
      WithoutDistinct(cats, CatId, id);
      assert forall c :: c in Without(cats, CatId, id) ==> CatId(c) != CatId(cats[i]);
      hide DistinctKeys, Without, InsertBefore;
      InsertDistinct(Without(cats, CatId, id), CatId, cats[i], before);
    }
  }

  /** The dropped category, unchanged, stands immediately before the named one, or last when no other
      category has that name, and nowhere else; the others keep their order. */
  lemma {:induction false} DropCatLands(cats: seq<Category>, id: string, before: Option<string>, p: nat)
    requires Board(cats) && CatIndex(cats, id) >= 0 && p < |cats|
    ensures
      var r, others := DropCatResult(cats, id, before), Without(cats, CatId, id);
      && |r| == |cats| && Without(r, CatId, id) == others
      && (r[p].id == id <==>
            p == if before.Some? && before.value != "" && CatIndex(others, before.value) >= 0
                 then CatIndex(others, before.value) else |others|)
      && (r[p].id == id ==> r[p] == cats[CatIndex(cats, id)])
  {
    hide InsertBefore, IndexOf, Board, Without;
    var i, others := CatIndex(cats, id), Without(cats, CatId, id);
    DropCatOthers(cats, id);
    OthersKeepOrder(others, CatId, cats[i], before);
    WithoutAbsent(others, CatId, id);
    forall k | 0 <= k < |others| ensures Map(others, CatId)[k] != id {
      assert others[k] in others;
    }
    LandsBefore(others, CatId, cats[i], before, p);
    DropCatWhole(cats, id, before, p);
  }

  lemma {:induction false} DropCatOthers(cats: seq<Category>, id: string)
    requires Board(cats) && CatIndex(cats, id) >= 0
    ensures
      var others := Without(cats, CatId, id);
      && |others| == |cats| - 1 && DistinctKeys(others, CatId)
      && (forall c :: c in others ==> CatId(c) != id) && CatId(cats[CatIndex(cats, id)]) == id
  {
    SpliceOutCat(cats, id);
    WithoutDistinct(cats, CatId, id);
  }

  lemma {:induction false} DropCatWhole(cats: seq<Category>, id: string, before: Option<string>, p: nat)
    requires Board(cats) && CatIndex(cats, id) >= 0 && p < |DropCatResult(cats, id, before)|
    ensures
      var r, moved := DropCatResult(cats, id, before), cats[CatIndex(cats, id)];
      r[p].id == id <==> r[p] == moved
  {
    hide InsertBefore, IndexOf, Board, Without;
    var moved := cats[CatIndex(cats, id)];
    DropCatOthers(cats, id);
    InsertMember(Without(cats, CatId, id), CatId, moved, before, DropCatResult(cats, id, before)[p]);
    assert CatId(moved) == moved.id;
  }

  function TileIds(cats: seq<Category>, categoryId: string): seq<string> {
    var i := CatIndex(cats, categoryId);
    if i < 0 then [] else Map(cats[i].tiles, TileId)
  }

  /** The requests of a drop: the destination's new list and, if another category lost the tile, its. */
  function DropCalls(cats: seq<Category>, from: string, dest: string): seq<ApiCall> {
    [ReorderTiles(dest, TileIds(cats, dest))] + if from == dest then [] else [ReorderTiles(from, TileIds(cats, from))]
  }

  class Workspace {
    var tree: seq<Category>
    var drag: Drag
    /** The reorder requests sent so far. */
    var calls: seq<ApiCall>

    method DropTile(destCatId: string, beforeTileId: Option<string>)
      requires Board(tree)
      modifies this
      ensures Board(tree) && drag == NoDrag
      ensures old(drag).DragTile? && CanDrop(old(tree), old(drag).id, old(drag).from, destCatId) ==>
        && tree == DropTileResult(old(tree), old(drag).id, old(drag).from, destCatId, beforeTileId)
        && calls == old(calls) + DropCalls(tree, old(drag).from, destCatId)
      ensures !(old(drag).DragTile? && CanDrop(old(tree), old(drag).id, old(drag).from, destCatId)) ==>
        tree == old(tree) && calls == old(calls)
    {
      hide Board, DropTileResult, IndexOf, Splices;
      if !drag.DragTile? { drag := NoDrag; return; }
      var fromCat, draggedId := drag.from, drag.id;
      var cats := tree;
      var source, dest := CatIndex(cats, fromCat), CatIndex(cats, destCatId);
      if source < 0 || dest < 0 { drag := NoDrag; return; }
      var idx := IndexOf(cats[source].tiles, TileId, draggedId);
      if idx < 0 { drag := NoDrag; return; }
      cats := SpliceTile(cats, source, dest, idx, destCatId, beforeTileId);
      SplicesAreDrop(tree, draggedId, fromCat, destCatId, beforeTileId, source, dest, idx);
      DropKeepsCategories(tree, draggedId, fromCat, destCatId, beforeTileId, fromCat);
      DropKeepsCategories(tree, draggedId, fromCat, destCatId, beforeTileId, destCatId);
      DropKeepsBoard(tree, draggedId, fromCat, destCatId, beforeTileId);
      tree := cats;
      drag := NoDrag;
      calls := calls + [ReorderTiles(destCatId, Map(cats[dest].tiles, TileId))];
      if fromCat != destCatId {
        calls := calls + [ReorderTiles(fromCat, Map(cats[source].tiles, TileId))];
      }
    }

    /** The splices themselves, on the copied lists. */
    static method SpliceTile(tree: seq<Category>, source: nat, dest: nat, idx: nat, destCatId: string,
                             beforeTileId: Option<string>)
      returns (cats: seq<Category>)
      requires source < |tree| && dest < |tree| && idx < |tree[source].tiles|
      ensures cats == Splices(tree, source, dest, idx, destCatId, beforeTileId)
    {
      cats := tree;
      var moved := cats[source].tiles[idx];
      cats := cats[source := cats[source].(tiles := cats[source].tiles[..idx] + cats[source].tiles[idx + 1..])];
      var destTiles := cats[dest].tiles;
      var at := if beforeTileId.Some? && beforeTileId.value != "" then IndexOf(destTiles, TileId, beforeTileId.value)
                else |destTiles|;
      if at < 0 { at := |destTiles|; }
      cats := cats[dest := cats[dest].(tiles := destTiles[..at] + [moved.(categoryId := destCatId)] + destTiles[at..])];
    }

    method DropCat(beforeCatId: Option<string>)
      requires Board(tree)
      modifies this
      ensures Board(tree) && drag == NoDrag
      ensures old(drag).DragCat? && CatIndex(old(tree), old(drag).id) >= 0 ==>
        tree == DropCatResult(old(tree), old(drag).id, beforeCatId) && calls == old(calls) + [ReorderCats(Map(tree, CatId))]
      ensures !(old(drag).DragCat? && CatIndex(old(tree), old(drag).id) >= 0) ==> tree == old(tree) && calls == old(calls)
    {
      hide InsertBefore, Without, IndexOf, Board;
      if !drag.DragCat? { drag := NoDrag; return; }
      var cats := tree;
      var idx := CatIndex(cats, drag.id);
      if idx < 0 { drag := NoDrag; return; }
      var moved := cats[idx];
      SpliceOutCat(cats, drag.id);
      cats := cats[..idx] + cats[idx + 1..];
      SpliceIn(cats, CatId, moved, beforeCatId);
      var at := if beforeCatId.Some? && beforeCatId.value != "" then CatIndex(cats, beforeCatId.value) else |cats|;
      if at < 0 { at := |cats|; }
      cats := cats[..at] + [moved] + cats[at..];
      DropCatKeepsBoard(tree, drag.id, beforeCatId);
      tree := cats;
      drag := NoDrag;
      calls := calls + [ReorderCats(Map(cats, CatId))];
    }
  }
}

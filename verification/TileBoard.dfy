/** Drag-and-drop on the pass workspace: tiles move between categories and categories move among
    themselves; the new orders are sent to the store. */
module TileBoard {
  import opened Sequences
  import opened KeyedLists

  datatype Tile = Tile(id: string, categoryId: string, title: string)

  datatype Category = Category(id: string, title: string, tiles: seq<Tile>)

  datatype Drag = NoDrag | DragTile(id: string, from: string) | DragCat(id: string)

  datatype ApiCall = ReorderTiles(categoryId: string, tileIds: seq<string>) | ReorderCats(categoryIds: seq<string>)

  function TileId(t: Tile): string { t.id }

  function CatId(c: Category): string { c.id }

  // ----- The drops -----

  function CatIndex(cats: seq<Category>, id: string): (i: int)
    ensures -1 <= i < |cats|
  {
    IndexOf(cats, CatId, id)
  }

  /** Whether a drop of tile `id`, dragged out of `from`, onto `dest` changes anything. */
  predicate CanDrop(cats: seq<Category>, id: string, from: string, dest: string) {
    CatIndex(cats, from) >= 0 && CatIndex(cats, dest) >= 0
    && IndexOf(cats[CatIndex(cats, from)].tiles, TileId, id) >= 0
  }

  function Dragged(cats: seq<Category>, id: string, from: string): Tile
    requires CatIndex(cats, from) >= 0 && IndexOf(cats[CatIndex(cats, from)].tiles, TileId, id) >= 0
  {
    var tiles := cats[CatIndex(cats, from)].tiles;
    tiles[IndexOf(tiles, TileId, id)]
  }

  /** One category after the drop. */
  function AfterDrop(c: Category, moved: Tile, from: string, dest: string, before: Option<string>): Category {
    var left := if c.id == from then Without(c.tiles, TileId, moved.id) else c.tiles;
    if c.id == dest then c.(tiles := InsertBefore(left, TileId, moved.(categoryId := dest), before))
    else c.(tiles := left)
  }

  function DropTileResult(cats: seq<Category>, id: string, from: string, dest: string,
                          before: Option<string>): (r: seq<Category>)
    ensures |r| == |cats|
  {
    if !CanDrop(cats, id, from, dest) then cats
    else Map(cats, (c: Category) => AfterDrop(c, Dragged(cats, id, from), from, dest, before))
  }

  /** What the store guarantees of a pass: category ids are distinct, tile ids distinct over the
      whole board, and every tile names its container. */
  ghost predicate Board(cats: seq<Category>) {
    && DistinctKeys(cats, CatId)
    && (forall c :: c in cats ==> DistinctKeys(c.tiles, TileId))
    && (forall c, t :: c in cats && t in c.tiles ==> t.categoryId == c.id)
    && (forall c, d, t, u :: c in cats && d in cats && t in c.tiles && u in d.tiles && t.id == u.id ==> c == d)
  }

  /** The two splices of the source on the copied lists. */
  function Splices(cats: seq<Category>, source: nat, dest: nat, idx: nat, destId: string,
                   before: Option<string>): (r: seq<Category>)
    requires source < |cats| && dest < |cats| && idx < |cats[source].tiles|
    ensures |r| == |cats|
  {
    var tiles := cats[source].tiles;
    var out := cats[source := cats[source].(tiles := tiles[..idx] + tiles[idx + 1..])];
    var left := out[dest].tiles;
    var at := Landing(left, TileId, before);
    out[dest := out[dest].(tiles := left[..at] + [tiles[idx].(categoryId := destId)] + left[at..])]
  }

  lemma {:induction false} SplicesAt(cats: seq<Category>, si: nat, di: nat, id: string, from: string, dest: string,
                                     before: Option<string>, i: nat)
    requires si < |cats| && di < |cats| && i < |cats| && DistinctKeys(cats, CatId)
    requires cats[si].id == from && cats[di].id == dest && DistinctKeys(cats[si].tiles, TileId)
    requires IndexOf(cats[si].tiles, TileId, id) >= 0
    ensures
      var idx := IndexOf(cats[si].tiles, TileId, id);
      Splices(cats, si, di, idx, dest, before)[i] == AfterDrop(cats[i], cats[si].tiles[idx], from, dest, before)
  {
    hide IndexOf, InsertBefore, Without, Landing;
    var idx := IndexOf(cats[si].tiles, TileId, id);
    SpliceOut(cats[si].tiles, TileId, id);
    KeyPosition(cats, CatId, i, si);
    KeyPosition(cats, CatId, i, di);
    hide DistinctKeys;
    var left := if si == di then Without(cats[si].tiles, TileId, id) else cats[di].tiles;
    SpliceIn(left, TileId, cats[si].tiles[idx].(categoryId := dest), before);
  }

  lemma {:induction false} DropAt(cats: seq<Category>, id: string, from: string, dest: string, before: Option<string>,
                                  i: nat)
    requires CanDrop(cats, id, from, dest) && i < |cats|
    ensures DropTileResult(cats, id, from, dest, before)[i] == AfterDrop(cats[i], Dragged(cats, id, from), from, dest, before)
  {
  }

  lemma {:induction false} SplicesAreDropAt(cats: seq<Category>, id: string, from: string, dest: string,
                                            before: Option<string>,
                                            si: nat, di: nat, idx: nat, i: nat)
    requires Board(cats) && CanDrop(cats, id, from, dest) && i < |cats|
    requires si == CatIndex(cats, from) && di == CatIndex(cats, dest) && idx == IndexOf(cats[si].tiles, TileId, id)
    ensures Splices(cats, si, di, idx, dest, before)[i] == DropTileResult(cats, id, from, dest, before)[i]
  {
    assert cats[si] in cats && DistinctKeys(cats, CatId) && DistinctKeys(cats[si].tiles, TileId);
    assert Dragged(cats, id, from) == cats[si].tiles[idx];
    hide Board, IndexOf, DistinctKeys, AfterDrop, Splices, DropTileResult, Dragged;
    SplicesAt(cats, si, di, id, from, dest, before, i);
    DropAt(cats, id, from, dest, before, i);
  }

  lemma {:induction false} SplicesAreDrop(cats: seq<Category>, id: string, from: string, dest: string,
                                          before: Option<string>,
                                          si: nat, di: nat, idx: nat)
    requires Board(cats) && CanDrop(cats, id, from, dest)
    requires si == CatIndex(cats, from) && di == CatIndex(cats, dest) && idx == IndexOf(cats[si].tiles, TileId, id)
    ensures Splices(cats, si, di, idx, dest, before) == DropTileResult(cats, id, from, dest, before)
  {
    hide Board, IndexOf, Splices, DropTileResult;
    var r, e := Splices(cats, si, di, idx, dest, before), DropTileResult(cats, id, from, dest, before);
    forall i | 0 <= i < |cats| ensures r[i] == e[i] {
      SplicesAreDropAt(cats, id, from, dest, before, si, di, idx, i);
    }
  }

  lemma {:induction false} DropKeepsCategories(cats: seq<Category>, id: string, from: string, dest: string,
                                               before: Option<string>, c: string)
    ensures CatIndex(DropTileResult(cats, id, from, dest, before), c) == CatIndex(cats, c)
  {
    SameKeysIndex(DropTileResult(cats, id, from, dest, before), cats, CatId, c);
  }

}

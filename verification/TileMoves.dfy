/** What a drop changes and what it preserves. */
module TileMoves {
  import opened Sequences
  import opened KeyedLists
  import opened TileBoard

  lemma {:induction false} WithoutMember(tiles: seq<Tile>, id: string, t: Tile)
    ensures t in Without(tiles, TileId, id) <==> t in tiles && t.id != id
  {
    assert TileId(t) == t.id;
  }

  lemma {:induction false} WithoutTwice<T>(s: seq<T>, key: T -> string, id: string)
    ensures Without(Without(s, key, id), key, id) == Without(s, key, id)
  {
    var keep := (x: T) => key(x) != id;
    FilterTwice(s, keep, keep, keep);
  }

  lemma {:induction false} WithoutCount<T>(s: seq<T>, key: T -> string, id: string, x: T)
    ensures multiset(Without(s, key, id))[x] == if key(x) != id then multiset(s)[x] else 0
  {
    FilterMultiset(s, (y: T) => key(y) != id, x);
  }

  lemma {:induction false} SoleOwner(tiles: seq<Tile>, a: Tile, b: Tile)
    requires DistinctKeys(tiles, TileId) && a in tiles
    ensures b in tiles && b.id == a.id ==> b == a
  {
  }

  // ----- One category -----

  /** The tiles of a category before the moved one is inserted. */
  function Left(c: Category, id: string, from: string): seq<Tile> {
    if c.id == from then Without(c.tiles, TileId, id) else c.tiles
  }

  lemma {:induction false} AfterDropTiles(c: Category, moved: Tile, from: string, dest: string, before: Option<string>)
    ensures
      var r := AfterDrop(c, moved, from, dest, before);
      && r.id == c.id && r.title == c.title
      && r.tiles == if c.id == dest then InsertBefore(Left(c, moved.id, from), TileId, moved.(categoryId := dest), before)
                    else Left(c, moved.id, from)
  {
  }

  lemma {:induction false} LeftMember(c: Category, id: string, from: string, t: Tile)
    ensures t in Left(c, id, from) <==> t in c.tiles && !(c.id == from && t.id == id)
  {
    WithoutMember(c.tiles, id, t);
    hide Without;
  }

  lemma {:induction false} AfterDropMember(c: Category, moved: Tile, from: string, dest: string,
                                           before: Option<string>, t: Tile)
    ensures t in AfterDrop(c, moved, from, dest, before).tiles <==>
            (c.id == dest && t == moved.(categoryId := dest)) || (t in c.tiles && !(c.id == from && t.id == moved.id))
  {
    hide AfterDrop, Left, InsertBefore;
    AfterDropTiles(c, moved, from, dest, before);
    LeftMember(c, moved.id, from, t);
    InsertMember(Left(c, moved.id, from), TileId, moved.(categoryId := dest), before, t);
  }

  lemma {:induction false} LeftDistinct(c: Category, id: string, from: string)
    requires DistinctKeys(c.tiles, TileId)
    ensures DistinctKeys(Left(c, id, from), TileId)
  {
    WithoutDistinct(c.tiles, TileId, id);
    hide DistinctKeys, Without;
  }

  lemma {:induction false} AfterDropDistinct(c: Category, moved: Tile, from: string, dest: string, before: Option<string>)
    requires DistinctKeys(c.tiles, TileId)
    requires forall t :: t in c.tiles && t.id == moved.id ==> c.id == from
    ensures DistinctKeys(AfterDrop(c, moved, from, dest, before).tiles, TileId)
  {
    hide AfterDrop, Left, InsertBefore, DistinctKeys;
    AfterDropTiles(c, moved, from, dest, before);
    LeftDistinct(c, moved.id, from);
    forall y | y in Left(c, moved.id, from) ensures TileId(y) != moved.id {
      LeftMember(c, moved.id, from, y);
    }
    if c.id == dest {
      InsertDistinct(Left(c, moved.id, from), TileId, moved.(categoryId := dest), before);
    }
  }

  lemma {:induction false} InsertCount(s: seq<Tile>, x: Tile, before: Option<string>, t: Tile)
    ensures multiset(InsertBefore(s, TileId, x, before))[t] == multiset(s)[t] + if t == x then 1 else 0
  {
    hide InsertBefore, Landing;
    var at := Landing(s, TileId, before);
    SpliceIn(s, TileId, x, before);
    assert s == s[..at] + s[at..];
  }

  lemma {:induction false} LeftCount(c: Category, moved: Tile, from: string, t: Tile)
    requires DistinctKeys(c.tiles, TileId) && (c.id == from ==> moved in c.tiles)
    ensures multiset(Left(c, moved.id, from))[t] == multiset(c.tiles)[t] - if c.id == from && t == moved then 1 else 0
  {
    if c.id == from {
      WithoutCount(c.tiles, TileId, moved.id, t);
      forall i, j | 0 <= i < j < |c.tiles| ensures c.tiles[i] != c.tiles[j] {
        assert TileId(c.tiles[i]) != TileId(c.tiles[j]);
      }
      DistinctCount(c.tiles, t);
      SoleOwner(c.tiles, moved, t);
      hide DistinctKeys, Without;
      assert multiset(c.tiles)[t] == if t in c.tiles then 1 else 0;
    }
  }

  lemma {:induction false} AfterDropCount(c: Category, moved: Tile, from: string, dest: string, before: Option<string>,
                                          t: Tile)
    requires DistinctKeys(c.tiles, TileId) && (c.id == from ==> moved in c.tiles)
    ensures multiset(AfterDrop(c, moved, from, dest, before).tiles)[t] ==
            multiset(c.tiles)[t] - (if c.id == from && t == moved then 1 else 0)
            + if c.id == dest && t == moved.(categoryId := dest) then 1 else 0
  {
    hide AfterDrop, Left, InsertBefore, DistinctKeys;
    AfterDropTiles(c, moved, from, dest, before);
    LeftCount(c, moved, from, t);
    InsertCount(Left(c, moved.id, from), moved.(categoryId := dest), before, t);
  }

  // ----- The whole board -----

  /** What a drop that changes something relies on. */
  lemma {:induction false} DropFacts(cats: seq<Category>, id: string, from: string, dest: string, k: nat)
    requires Board(cats) && CanDrop(cats, id, from, dest) && k < |cats|
    ensures
      var moved := Dragged(cats, id, from);
      && moved.id == id && DistinctKeys(cats[k].tiles, TileId)
      && (cats[k].id == from <==> k == CatIndex(cats, from)) && (cats[k].id == dest <==> k == CatIndex(cats, dest))
      && (cats[k].id == from ==> moved in cats[k].tiles)
      && (forall t :: t in cats[k].tiles && t.id == id ==> cats[k].id == from && t == moved)
  {
    hide IndexOf;
    var si, di := CatIndex(cats, from), CatIndex(cats, dest);
    var moved := Dragged(cats, id, from);
    KeyPosition(cats, CatId, k, si);
    KeyPosition(cats, CatId, k, di);
    assert cats[k] in cats && cats[si] in cats && moved in cats[si].tiles && TileId(moved) == id;
    forall t | t in cats[k].tiles && t.id == id ensures cats[k].id == from && t == moved {
      assert cats[k] == cats[si];
      SoleOwner(cats[si].tiles, moved, t);
    }
  }

  /** Category ids stay distinct, tile ids stay distinct over the board, and every tile still names
      its container. */
  lemma {:induction false} DropKeepsBoard(cats: seq<Category>, id: string, from: string, dest: string,
                                          before: Option<string>)
    requires Board(cats)
    ensures Board(DropTileResult(cats, id, from, dest, before))
  {
    if CanDrop(cats, id, from, dest) {
      var moved := Dragged(cats, id, from);
      var r := DropTileResult(cats, id, from, dest, before);
      hide DropTileResult, AfterDrop, CanDrop, Dragged, IndexOf;
      forall k | 0 <= k < |cats|
        ensures r[k] == AfterDrop(cats[k], moved, from, dest, before) && r[k].id == cats[k].id
        ensures DistinctKeys(r[k].tiles, TileId)
      {
        DropAt(cats, id, from, dest, before, k);
        DropFacts(cats, id, from, dest, k);
        AfterDropTiles(cats[k], moved, from, dest, before);
        AfterDropDistinct(cats[k], moved, from, dest, before);
      }
      AfterDropBoard(cats, r, id, from, dest, before);
    }
  }

  lemma {:induction false} AfterDropBoard(cats: seq<Category>, r: seq<Category>, id: string, from: string,
                                          dest: string, before: Option<string>)
    requires Board(cats) && CanDrop(cats, id, from, dest) && |r| == |cats|
    requires forall k :: 0 <= k < |cats| ==>
      r[k] == AfterDrop(cats[k], Dragged(cats, id, from), from, dest, before) && r[k].id == cats[k].id
      && DistinctKeys(r[k].tiles, TileId)
    ensures Board(r)
  {
    hide AfterDrop, CanDrop, Dragged, IndexOf;
    forall i, j | 0 <= i < j < |r| ensures CatId(r[i]) != CatId(r[j]) {
      KeyPosition(cats, CatId, i, j);
    }
    hide Board;
    forall i, t | 0 <= i < |r| && t in r[i].tiles ensures t.categoryId == r[i].id {
      AfterDropNames(cats, id, from, dest, before, i, t);
    }
    forall i, j, t, u | 0 <= i < |r| && 0 <= j < |r| && t in r[i].tiles && u in r[j].tiles && t.id == u.id ensures i == j {
      SameHome(cats, id, from, dest, before, i, j, t, u);
    }
    BoardByIndex(r);
  }

  lemma {:induction false} BoardByIndex(r: seq<Category>)
    requires DistinctKeys(r, CatId)
    requires forall i :: 0 <= i < |r| ==> DistinctKeys(r[i].tiles, TileId)
    requires forall i, t :: 0 <= i < |r| && t in r[i].tiles ==> t.categoryId == r[i].id
    requires forall i, j, t, u :: 0 <= i < |r| && 0 <= j < |r| && t in r[i].tiles && u in r[j].tiles && t.id == u.id ==> i == j
    ensures Board(r)
  {
    hide DistinctKeys;
  }

  lemma {:induction false} AfterDropNames(cats: seq<Category>, id: string, from: string, dest: string,
                                          before: Option<string>, i: nat, t: Tile)
    requires Board(cats) && CanDrop(cats, id, from, dest) && i < |cats|
    requires t in AfterDrop(cats[i], Dragged(cats, id, from), from, dest, before).tiles
    ensures t.categoryId == cats[i].id
  {
    var moved := Dragged(cats, id, from);
    hide AfterDrop, CanDrop, Dragged, IndexOf, DistinctKeys;
    assert cats[i] in cats;
    AfterDropMember(cats[i], moved, from, dest, before, t);
  }

  lemma {:induction false} SameHome(cats: seq<Category>, id: string, from: string, dest: string, before: Option<string>,
                                    i: nat, j: nat, t: Tile, u: Tile)
    requires Board(cats) && CanDrop(cats, id, from, dest) && i < |cats| && j < |cats| && t.id == u.id
    requires t in AfterDrop(cats[i], Dragged(cats, id, from), from, dest, before).tiles
    requires u in AfterDrop(cats[j], Dragged(cats, id, from), from, dest, before).tiles
    ensures i == j
  {
    var moved := Dragged(cats, id, from);
    DropFacts(cats, id, from, dest, i);
    DropFacts(cats, id, from, dest, j);
    AfterDropMember(cats[i], moved, from, dest, before, t);
    AfterDropMember(cats[j], moved, from, dest, before, u);
    assert cats[i] in cats && cats[j] in cats;
    KeyPosition(cats, CatId, i, j);
    hide AfterDrop, CanDrop, Dragged, IndexOf;
  }

  function AllTiles(cats: seq<Category>): seq<Tile> {
    if cats == [] then [] else AllTiles(cats[..|cats| - 1]) + cats[|cats| - 1].tiles
  }

  /** How often `t` occurs in the first `n` categories. */
  function CountIn(cats: seq<Category>, t: Tile, n: nat): nat
    requires n <= |cats|
  {
    if n == 0 then 0 else CountIn(cats, t, n - 1) + multiset(cats[n - 1].tiles)[t]
  }

  lemma {:induction false} AllTilesCount(cats: seq<Category>, t: Tile, n: nat)
    requires n <= |cats|
    ensures multiset(AllTiles(cats[..n]))[t] == CountIn(cats, t, n)
  {
    if n == 0 {
    } else {
      AllTilesCount(cats, t, n - 1);
      assert cats[..n][..n - 1] == cats[..n - 1];
    }
  }

  lemma {:induction false} CountBefore(cats: seq<Category>, r: seq<Category>, si: nat, di: nat, x: Tile, y: Tile,
                                       t: Tile, n: nat)
    requires |r| == |cats| && n <= |cats|
    requires forall k :: 0 <= k < |cats| ==>
      multiset(r[k].tiles)[t] + (if k == si && t == x then 1 else 0)
      == multiset(cats[k].tiles)[t] + if k == di && t == y then 1 else 0
    ensures CountIn(r, t, n) + (if si < n && t == x then 1 else 0) == CountIn(cats, t, n) + if di < n && t == y then 1 else 0
  {
    if n == 0 {
    } else {
      CountBefore(cats, r, si, di, x, y, t, n - 1);
    }
  }

  lemma {:induction false} Exchanged<T>(a: multiset<T>, b: multiset<T>, x: T, y: T)
    requires forall t :: a[t] + (if t == x then 1 else 0) == b[t] + if t == y then 1 else 0
    requires b[x] >= 1
    ensures a == b - multiset{x} + multiset{y}
  {
  }

  /** A drop loses and invents nothing: the board holds the same tiles, the moved one naming its new
      category. */
  lemma {:induction false} DropConserves(cats: seq<Category>, id: string, from: string, dest: string,
                                         before: Option<string>)
    requires Board(cats) && CanDrop(cats, id, from, dest)
    ensures
      var moved := Dragged(cats, id, from);
      multiset(AllTiles(DropTileResult(cats, id, from, dest, before))) ==
      multiset(AllTiles(cats)) - multiset{moved} + multiset{moved.(categoryId := dest)}
  {
    hide Board, IndexOf, DropTileResult, AllTiles, Dragged, DistinctKeys;
    var before', after := AllTiles(cats), AllTiles(DropTileResult(cats, id, from, dest, before));
    var moved := Dragged(cats, id, from);
    forall t
      ensures multiset(after)[t] + (if t == moved then 1 else 0)
              == multiset(before')[t] + if t == moved.(categoryId := dest) then 1 else 0
    {
      CountAll(cats, id, from, dest, before, t);
    }
    DraggedCounts(cats, id, from, dest);
    Exchanged(multiset(after), multiset(before'), moved, moved.(categoryId := dest));
  }

  lemma {:induction false} DraggedCounts(cats: seq<Category>, id: string, from: string, dest: string)
    requires Board(cats) && CanDrop(cats, id, from, dest)
    ensures multiset(AllTiles(cats))[Dragged(cats, id, from)] >= 1
  {
    hide Board, IndexOf, AllTiles, Dragged, DistinctKeys;
    DropFacts(cats, id, from, dest, CatIndex(cats, from));
    AllTilesMember(cats, CatIndex(cats, from), Dragged(cats, id, from));
  }

  lemma {:induction false} CountAll(cats: seq<Category>, id: string, from: string, dest: string,
                                    before: Option<string>, t: Tile)
    requires Board(cats) && CanDrop(cats, id, from, dest)
    ensures
      var moved := Dragged(cats, id, from);
      multiset(AllTiles(DropTileResult(cats, id, from, dest, before)))[t] + (if t == moved then 1 else 0)
      == multiset(AllTiles(cats))[t] + if t == moved.(categoryId := dest) then 1 else 0
  {
    hide Board, IndexOf, DropTileResult, AllTiles, Dragged, AfterDrop, DistinctKeys;
    var r, moved := DropTileResult(cats, id, from, dest, before), Dragged(cats, id, from);
    var si, di := CatIndex(cats, from), CatIndex(cats, dest);
    forall k | 0 <= k < |cats|
      ensures multiset(r[k].tiles)[t] + (if k == si && t == moved then 1 else 0)
              == multiset(cats[k].tiles)[t] + if k == di && t == moved.(categoryId := dest) then 1 else 0
    {
      CountAt(cats, id, from, dest, before, t, k);
    }
    CountBefore(cats, r, si, di, moved, moved.(categoryId := dest), t, |cats|);
    AllTilesCount(cats, t, |cats|);
    AllTilesCount(r, t, |cats|);
    assert r[..|cats|] == r && cats[..|cats|] == cats;
  }

  lemma {:induction false} CountAt(cats: seq<Category>, id: string, from: string, dest: string, before: Option<string>,
                                   t: Tile, k: nat)
    requires Board(cats) && CanDrop(cats, id, from, dest) && k < |cats|
    ensures
      var moved := Dragged(cats, id, from);
      multiset(DropTileResult(cats, id, from, dest, before)[k].tiles)[t] + (if k == CatIndex(cats, from) && t == moved then 1 else 0)
      == multiset(cats[k].tiles)[t] + if k == CatIndex(cats, dest) && t == moved.(categoryId := dest) then 1 else 0
  {
    hide Board, IndexOf, DropTileResult, AfterDrop, Dragged, DistinctKeys;
    DropFacts(cats, id, from, dest, k);
    DropAt(cats, id, from, dest, before, k);
    AfterDropCount(cats[k], Dragged(cats, id, from), from, dest, before, t);
  }

  lemma {:induction false} AllTilesMember(cats: seq<Category>, k: nat, t: Tile)
    requires k < |cats| && t in cats[k].tiles
    ensures multiset(AllTiles(cats))[t] >= 1
  {
    var last := |cats| - 1;
    if k == last {
    } else {
      AllTilesMember(cats[..last], k, t);
    }
  }

  /** Every category keeps its other tiles in order; categories other than the two are untouched. */
  lemma {:induction false} DropKeepsOrder(cats: seq<Category>, id: string, from: string, dest: string,
                                          before: Option<string>, k: nat)
    requires Board(cats) && CanDrop(cats, id, from, dest) && k < |cats|
    ensures
      var r := DropTileResult(cats, id, from, dest, before);
      && r[k].id == cats[k].id && r[k].title == cats[k].title
      && Without(r[k].tiles, TileId, id) == Without(cats[k].tiles, TileId, id)
      && (cats[k].id != from && cats[k].id != dest ==> r[k] == cats[k])
  {
    var c, moved := cats[k], Dragged(cats, id, from);
    DropAt(cats, id, from, dest, before, k);
    DropFacts(cats, id, from, dest, k);
    hide Board, IndexOf, InsertBefore, DropTileResult, DistinctKeys, Without;
    OthersKeepOrder(Left(c, id, from), TileId, moved.(categoryId := dest), before);
    WithoutTwice(c.tiles, TileId, id);
  }

  /** In its new category the tile stands immediately before the named tile, or last when no other
      tile there has that name. */
  lemma {:induction false} DropLands(cats: seq<Category>, id: string, from: string, dest: string,
                                     before: Option<string>, p: nat)
    requires Board(cats) && CanDrop(cats, id, from, dest)
    requires p < |DropTileResult(cats, id, from, dest, before)[CatIndex(cats, dest)].tiles|
    ensures
      var tiles := DropTileResult(cats, id, from, dest, before)[CatIndex(cats, dest)].tiles;
      var others := Without(cats[CatIndex(cats, dest)].tiles, TileId, id);
      tiles[p].id == id <==>
        p == if before.Some? && before.value != "" && IndexOf(others, TileId, before.value) >= 0
             then IndexOf(others, TileId, before.value) else |others|
  {
    hide IndexOf, InsertBefore, Without, Board, DropTileResult, DistinctKeys, Landing, AfterDrop;
    DropDestination(cats, id, from, dest, before);
    var others := Without(cats[CatIndex(cats, dest)].tiles, TileId, id);
    InsertedAt(others, Dragged(cats, id, from).(categoryId := dest), before, p);
    LandingIs(others, before);
  }

  lemma {:induction false} LandingIs(others: seq<Tile>, before: Option<string>)
    ensures Landing(others, TileId, before) ==
            if before.Some? && before.value != "" && IndexOf(others, TileId, before.value) >= 0
            then IndexOf(others, TileId, before.value) else |others|
  {
  }

  lemma {:induction false} DropDestination(cats: seq<Category>, id: string, from: string, dest: string,
                                           before: Option<string>)
    requires Board(cats) && CanDrop(cats, id, from, dest)
    ensures
      var di := CatIndex(cats, dest);
      var others := Without(cats[di].tiles, TileId, id);
      var moved := Dragged(cats, id, from);
      && moved.id == id && (forall t :: t in others ==> t.id != id)
      && DropTileResult(cats, id, from, dest, before)[di].tiles ==
         InsertBefore(others, TileId, moved.(categoryId := dest), before)
  {
    hide IndexOf, InsertBefore, Without, Board, DropTileResult, DistinctKeys, AfterDrop;
    var di := CatIndex(cats, dest);
    DropAt(cats, id, from, dest, before, di);
    DropFacts(cats, id, from, dest, di);
    AfterDropTiles(cats[di], Dragged(cats, id, from), from, dest, before);
    if cats[di].id != from {
      WithoutAbsent(cats[di].tiles, TileId, id);
    }
    forall t | t in Without(cats[di].tiles, TileId, id) ensures t.id != id {
      WithoutMember(cats[di].tiles, id, t);
    }
  }

  lemma {:induction false} InsertedAt(others: seq<Tile>, x: Tile, before: Option<string>, p: nat)
    requires (forall t :: t in others ==> t.id != x.id) && p < |InsertBefore(others, TileId, x, before)|
    ensures InsertBefore(others, TileId, x, before)[p].id == x.id <==> p == Landing(others, TileId, before)
  {
    hide InsertBefore, Landing;
    SpliceIn(others, TileId, x, before);
  }
}

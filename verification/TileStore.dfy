/** The store behind the board: each tile row has a category and a position; the reorder request of
    a category rewrites the rows it lists. The workspace sends its requests without waiting. */
module TileStore {
  import opened Sequences
  import opened KeyedLists
  import opened TileBoard
  import opened TileMoves

  datatype Place = Place(categoryId: string, position: int)

  type Rows = map<string, Place>

  /** `reorderTiles`: the `i`-th listed row, if it exists, moves to position `i` of the category. */
  method ReorderTilesInStore(rows: Rows, categoryId: string, ids: seq<string>) returns (r: Rows)
    ensures r == Reordered(rows, categoryId, ids)
  {
    r := rows;
    for i := 0 to |ids|
      invariant r == Reordered(rows, categoryId, ids[..i])
    {
      assert ids[..i + 1][..i] == ids[..i];
      if ids[i] in r {
        r := r[ids[i] := Place(categoryId, i)];
      }
    }
    assert ids[..|ids|] == ids;
  }

  function Reordered(rows: Rows, categoryId: string, ids: seq<string>): Rows {
    if ids == [] then rows
    else
      var last := |ids| - 1;
      var r := Reordered(rows, categoryId, ids[..last]);
      if ids[last] in r then r[ids[last] := Place(categoryId, last)] else r
  }

  lemma {:induction false} ReorderedAt(rows: Rows, categoryId: string, ids: seq<string>)
    requires Distinct(ids)
    ensures Reordered(rows, categoryId, ids).Keys == rows.Keys
    ensures forall id :: id in rows && id !in ids ==> Reordered(rows, categoryId, ids)[id] == rows[id]
    ensures forall k :: 0 <= k < |ids| && ids[k] in rows ==> Reordered(rows, categoryId, ids)[ids[k]] == Place(categoryId, k)
  {
    if ids == [] {
    } else {
      var last := |ids| - 1;
      ReorderedAt(rows, categoryId, ids[..last]);
      SplitLast(ids);
    }
  }

  /** Requests over disjoint rows commute. */
  lemma {:induction false} ReorderedCommute(rows: Rows, a: string, ids: seq<string>, b: string, other: seq<string>)
    requires Distinct(ids) && Distinct(other) && forall id :: id in ids ==> id !in other
    ensures Reordered(Reordered(rows, a, ids), b, other) == Reordered(Reordered(rows, b, other), a, ids)
  {
    ReorderedAt(rows, a, ids);
    ReorderedAt(rows, b, other);
    ReorderedAt(Reordered(rows, a, ids), b, other);
    ReorderedAt(Reordered(rows, b, other), a, ids);
    hide Reordered;
    var x, y := Reordered(Reordered(rows, a, ids), b, other), Reordered(Reordered(rows, b, other), a, ids);
    forall id | id in rows ensures x[id] == y[id] {
      if id in ids {
        var k :| 0 <= k < |ids| && ids[k] == id;
      } else if id in other {
        var k :| 0 <= k < |other| && other[k] == id;
      }
    }
  }

  /** Loading category `c` by position yields exactly its tiles, in this order: its tiles' rows name it
      at increasing positions, and no other row names it. */
  ghost predicate Loads(rows: Rows, c: Category) {
    && (forall k :: 0 <= k < |c.tiles| ==> c.tiles[k].id in rows && rows[c.tiles[k].id].categoryId == c.id)
    && (forall k, l :: 0 <= k < l < |c.tiles| ==> rows[c.tiles[k].id].position < rows[c.tiles[l].id].position)
    && (forall id :: id in rows && rows[id].categoryId == c.id ==> exists t :: t in c.tiles && t.id == id)
  }

  ghost predicate Represents(rows: Rows, cats: seq<Category>) {
    forall c :: c in cats ==> Loads(rows, c)
  }

  function Ids(c: Category): seq<string> { Map(c.tiles, TileId) }

  lemma {:induction false} IdsSpec(c: Category)
    requires DistinctKeys(c.tiles, TileId)
    ensures Distinct(Ids(c)) && forall id :: id in Ids(c) <==> exists t :: t in c.tiles && t.id == id
  {
  }

  lemma {:induction false} ListedInPlace(rows: Rows, c: Category)
    requires DistinctKeys(c.tiles, TileId) && forall t :: t in c.tiles ==> t.id in rows
    ensures
      var r := Reordered(rows, c.id, Ids(c));
      forall k :: 0 <= k < |c.tiles| ==> c.tiles[k].id in r && r[c.tiles[k].id] == Place(c.id, k)
  {
    IdsSpec(c);
    ReorderedAt(rows, c.id, Ids(c));
    hide Reordered, DistinctKeys;
    forall k | 0 <= k < |c.tiles|
      ensures c.tiles[k].id in rows && Reordered(rows, c.id, Ids(c))[c.tiles[k].id] == Place(c.id, k)
    {
      assert c.tiles[k] in c.tiles && Ids(c)[k] == c.tiles[k].id;
    }
  }

  /** Sending the list of a category makes the store load it as listed, provided the listed rows exist
      and all rows that named the category are listed. */
  lemma {:induction false} ListedLoads(rows: Rows, c: Category)
    requires DistinctKeys(c.tiles, TileId) && forall t :: t in c.tiles ==> t.id in rows
    requires forall id :: id in rows && rows[id].categoryId == c.id ==> id in Ids(c)
    ensures Loads(Reordered(rows, c.id, Ids(c)), c)
  {
    ListedInPlace(rows, c);
    ListedOnly(rows, c);
    hide Reordered, DistinctKeys, Ids;
  }

  lemma {:induction false} ListedOnly(rows: Rows, c: Category)
    requires DistinctKeys(c.tiles, TileId)
    requires forall id :: id in rows && rows[id].categoryId == c.id ==> id in Ids(c)
    ensures
      var r := Reordered(rows, c.id, Ids(c));
      forall id :: id in r && r[id].categoryId == c.id ==> exists t :: t in c.tiles && t.id == id
  {
    IdsSpec(c);
    ReorderedAt(rows, c.id, Ids(c));
    hide Reordered, DistinctKeys;
    var r := Reordered(rows, c.id, Ids(c));
    forall id | id in r && r[id].categoryId == c.id ensures exists t :: t in c.tiles && t.id == id {
      assert id in Ids(c);
    }
  }

  /** A category whose rows a request does not touch, and which gains none, still loads the same. */
  lemma {:induction false} UnlistedLoads(rows: Rows, c: Category, categoryId: string, ids: seq<string>)
    requires Distinct(ids) && c.id != categoryId && Loads(rows, c)
    requires forall t :: t in c.tiles ==> t.id !in ids
    ensures Loads(Reordered(rows, categoryId, ids), c)
  {
    ReorderedAt(rows, categoryId, ids);
    hide Reordered;
    var r := Reordered(rows, categoryId, ids);
    forall k | 0 <= k < |c.tiles| ensures c.tiles[k].id in r && r[c.tiles[k].id] == rows[c.tiles[k].id] {
      assert c.tiles[k] in c.tiles;
    }
    forall id | id in r && r[id].categoryId == c.id ensures exists t :: t in c.tiles && t.id == id {
      assert id !in ids;
    }
  }

  /** Taking an element out keeps the others in order. */
  lemma {:induction false} WithoutOrder(s: seq<Tile>, id: string, k: nat, l: nat) returns (k': nat, l': nat)
    requires DistinctKeys(s, TileId) && k < l < |Without(s, TileId, id)|
    ensures k' < l' < |s| && s[k'] == Without(s, TileId, id)[k] && s[l'] == Without(s, TileId, id)[l]
  {
    hide Without, IndexOf, DistinctKeys;
    SpliceOut(s, TileId, id);
    var i := IndexOf(s, TileId, id);
    k', l' := if i < 0 || k < i then k else k + 1, if i < 0 || l < i then l else l + 1;
    if i >= 0 {
      SkipAt(s, i, k);
      SkipAt(s, i, l);
    }
  }

  lemma {:induction false} SkipAt<T>(s: seq<T>, i: nat, k: nat)
    requires i < |s| && k + 1 < |s|
    ensures (s[..i] + s[i + 1..])[k] == s[if k < i then k else k + 1]
  {
  }

  lemma {:induction false} ShrunkOrder(rows: Rows, c: Category, id: string, k: nat, l: nat)
    requires Loads(rows, c) && DistinctKeys(c.tiles, TileId) && k < l < |Without(c.tiles, TileId, id)|
    ensures
      var left := Without(c.tiles, TileId, id);
      && left[k].id in rows && left[l].id in rows
      && rows[left[k].id].position < rows[left[l].id].position
  {
    hide Without, DistinctKeys;
    var k', l' := WithoutOrder(c.tiles, id, k, l);
    assert rows[c.tiles[k'].id].position < rows[c.tiles[l'].id].position;
  }

  /** Removing a tile whose row has moved away leaves the rest loading in order, gaps or not. */
  lemma {:induction false} ShrunkLoads(rows: Rows, r: Rows, c: Category, id: string)
    requires Loads(rows, c) && DistinctKeys(c.tiles, TileId)
    requires r.Keys == rows.Keys && (id in r ==> r[id].categoryId != c.id)
    requires forall x :: x in rows && rows[x].categoryId == c.id && x != id ==> r[x] == rows[x]
    requires forall x :: x in rows && rows[x].categoryId != c.id ==> r[x].categoryId != c.id
    ensures Loads(r, c.(tiles := Without(c.tiles, TileId, id)))
  {
    hide Without, DistinctKeys;
    var left := Without(c.tiles, TileId, id);
    forall t ensures t in left <==> t in c.tiles && t.id != id {
      WithoutMember(c.tiles, id, t);
    }
    forall t | t in left ensures t.id in rows && r[t.id] == rows[t.id] && rows[t.id].categoryId == c.id {
      LoadsTile(rows, c, t);
    }
    forall k, l | 0 <= k < l < |left| ensures r[left[k].id].position < r[left[l].id].position {
      ShrunkOrder(rows, c, id, k, l);
      assert left[k] in left && left[l] in left;
    }
    forall x | x in r && r[x].categoryId == c.id ensures exists t :: t in left && t.id == x {
      var t :| t in c.tiles && t.id == x;
      assert t in left;
    }
  }

  lemma {:induction false} AfterIds(cats: seq<Category>, id: string, from: string, dest: string,
                                    before: Option<string>, t: Tile)
    requires Board(cats) && CanDrop(cats, id, from, dest)
    ensures
      var di := CatIndex(cats, dest);
      var moved := Dragged(cats, id, from);
      t in DropTileResult(cats, id, from, dest, before)[di].tiles <==>
      t == moved.(categoryId := dest) || (t in cats[di].tiles && t.id != id)
  {
    hide Board, IndexOf, DropTileResult, AfterDrop, InsertBefore, Without;
    var di := CatIndex(cats, dest);
    DropDestination(cats, id, from, dest, before);
    InsertMember(Without(cats[di].tiles, TileId, id), TileId, Dragged(cats, id, from).(categoryId := dest), before, t);
    WithoutMember(cats[di].tiles, id, t);
  }

  lemma {:induction false} RepresentsAt(rows: Rows, cats: seq<Category>, k: nat)
    requires Represents(rows, cats) && k < |cats|
    ensures Loads(rows, cats[k])
  {
  }

  lemma {:induction false} LoadsTile(rows: Rows, c: Category, t: Tile)
    requires Loads(rows, c) && t in c.tiles
    ensures t.id in rows && rows[t.id].categoryId == c.id
  {
  }

  /** The rows listed for the destination: the moved one and those already there. */
  lemma {:induction false} ListedRows(rows: Rows, cats: seq<Category>, id: string, from: string, dest: string,
                                      before: Option<string>, x: string)
    requires Board(cats) && Represents(rows, cats) && CanDrop(cats, id, from, dest)
    ensures
      var ids := Ids(DropTileResult(cats, id, from, dest, before)[CatIndex(cats, dest)]);
      && Distinct(ids) && id in rows && rows[id].categoryId == from
      && (x in ids <==> x == id || (x in rows && rows[x].categoryId == dest))
  {
    hide IndexOf, DropTileResult, AfterDrop, Loads, Ids;
    var si, di := CatIndex(cats, from), CatIndex(cats, dest);
    var moved, c := Dragged(cats, id, from), DropTileResult(cats, id, from, dest, before)[di];
    DropKeepsBoard(cats, id, from, dest, before);
    assert c in DropTileResult(cats, id, from, dest, before) && DistinctKeys(c.tiles, TileId);
    IdsSpec(c);
    DropFacts(cats, id, from, dest, si);
    DropFacts(cats, id, from, dest, di);
    RepresentsAt(rows, cats, si);
    RepresentsAt(rows, cats, di);
    LoadsTile(rows, cats[si], moved);
    hide Board, Represents, CanDrop, Dragged;
    AfterIds(cats, id, from, dest, before, moved.(categoryId := dest));
    if t :| t in c.tiles && t.id == x && x != id {
      AfterIds(cats, id, from, dest, before, t);
      LoadsTile(rows, cats[di], t);
    }
    if x in rows && rows[x].categoryId == dest && x != id {
      var t := LoadedTile(rows, cats[di], x);
      AfterIds(cats, id, from, dest, before, t);
      assert t in c.tiles && t.id == x;
    }
  }

  lemma {:induction false} LoadedTile(rows: Rows, c: Category, x: string) returns (t: Tile)
    requires Loads(rows, c) && x in rows && rows[x].categoryId == c.id
    ensures t in c.tiles && t.id == x
  {
    t :| t in c.tiles && t.id == x;
  }

  lemma {:induction false} DropShape(cats: seq<Category>, id: string, from: string, dest: string, before: Option<string>,
                                     k: nat)
    requires Board(cats) && CanDrop(cats, id, from, dest) && k < |cats|
    ensures
      var after, di := DropTileResult(cats, id, from, dest, before), CatIndex(cats, dest);
      && after[k].id == cats[k].id && DistinctKeys(after[k].tiles, TileId) && cats[di].id == dest
      && DistinctKeys(cats[k].tiles, TileId)
      && (k != di ==>
            && after[k] == (if cats[k].id == from then cats[k].(tiles := Without(cats[k].tiles, TileId, id)) else cats[k])
            && cats[k].id != dest)
  {
    hide IndexOf, DropTileResult, AfterDrop, Dragged, InsertBefore, Without;
    var after := DropTileResult(cats, id, from, dest, before);
    DropFacts(cats, id, from, dest, k);
    DropAt(cats, id, from, dest, before, k);
    AfterDropTiles(cats[k], Dragged(cats, id, from), from, dest, before);
    DropKeepsBoard(cats, id, from, dest, before);
    assert after[k] in after;
  }

  lemma {:induction false} DestinationAt(rows: Rows, cats: seq<Category>, id: string, from: string, dest: string,
                                         before: Option<string>, k: nat)
    requires Board(cats) && Represents(rows, cats) && CanDrop(cats, id, from, dest) && k < |cats|
    ensures
      var after := DropTileResult(cats, id, from, dest, before);
      Loads(Reordered(rows, dest, Ids(after[CatIndex(cats, dest)])), after[k])
  {
    hide Board, Represents, Loads, Ids, Reordered, DropTileResult, IndexOf, Without, Distinct, DistinctKeys, Dragged;
    var di := CatIndex(cats, dest);
    var after := DropTileResult(cats, id, from, dest, before);
    var c, ids := after[k], Ids(after[di]);
    DropShape(cats, id, from, dest, before, k);
    DropShape(cats, id, from, dest, before, di);
    RepresentsAt(rows, cats, k);
    IdsSpec(after[di]);
    ListedRows(rows, cats, id, from, dest, before, id);
    forall x ensures x in ids <==> x == id || (x in rows && rows[x].categoryId == dest) {
      ListedRows(rows, cats, id, from, dest, before, x);
    }
    if k == di {
      ListedLoads(rows, c);
    } else if cats[k].id == from {
      ListedPlaces(rows, dest, ids);
      ShrunkLoads(rows, Reordered(rows, dest, ids), cats[k], id);
    } else {
      forall t | t in cats[k].tiles ensures t.id !in ids {
        LoadsTile(rows, cats[k], t);
      }
      UnlistedLoads(rows, cats[k], dest, ids);
    }
  }

  lemma {:induction false} ListedPlaces(rows: Rows, categoryId: string, ids: seq<string>)
    requires Distinct(ids)
    ensures Reordered(rows, categoryId, ids).Keys == rows.Keys
    ensures forall x :: x in rows && x in ids ==> Reordered(rows, categoryId, ids)[x].categoryId == categoryId
    ensures forall x :: x in rows && x !in ids ==> Reordered(rows, categoryId, ids)[x] == rows[x]
  {
    ReorderedAt(rows, categoryId, ids);
    hide Reordered;
    forall x | x in rows && x in ids ensures Reordered(rows, categoryId, ids)[x].categoryId == categoryId {
      var k :| 0 <= k < |ids| && ids[k] == x;
    }
  }

  /** The request for the destination alone already makes the store agree with the screen. */
  lemma {:induction false} DestinationSuffices(rows: Rows, cats: seq<Category>, id: string, from: string, dest: string,
                                               before: Option<string>)
    requires Board(cats) && Represents(rows, cats) && CanDrop(cats, id, from, dest)
    ensures
      var after := DropTileResult(cats, id, from, dest, before);
      Represents(Reordered(rows, dest, Ids(after[CatIndex(cats, dest)])), after)
  {
    var after := DropTileResult(cats, id, from, dest, before);
    hide Board, DropTileResult, IndexOf, Loads, Reordered, Ids;
    forall k | 0 <= k < |cats| ensures Loads(Reordered(rows, dest, Ids(after[CatIndex(cats, dest)])), after[k]) {
      DestinationAt(rows, cats, id, from, dest, before, k);
    }
  }

  /** Sending the tiles of one category in a new order makes the store load that order and nothing else
      differently. */
  lemma {:induction false} PermutedSuffices(rows: Rows, cats: seq<Category>, n: nat, c: Category)
    requires Board(cats) && Represents(rows, cats) && n < |cats| && c.id == cats[n].id
    requires DistinctKeys(c.tiles, TileId) && forall t :: t in c.tiles <==> t in cats[n].tiles
    ensures Represents(Reordered(rows, c.id, Ids(c)), cats[n := c])
  {
    hide Loads, Ids, Reordered;
    var ids, after := Ids(c), cats[n := c];
    assert cats[n] in cats;
    IdsSpec(c);
    RepresentsAt(rows, cats, n);
    forall k | 0 <= k < |cats| ensures Loads(Reordered(rows, c.id, ids), after[k]) {
      assert cats[k] in cats;
      RepresentsAt(rows, cats, k);
      KeyPosition(cats, CatId, k, n);
      forall t | t in cats[k].tiles ensures t.id in rows && rows[t.id].categoryId == cats[k].id {
        LoadsTile(rows, cats[k], t);
      }
      if k == n {
        forall x | x in rows && rows[x].categoryId == c.id ensures x in ids {
          var t := LoadedTile(rows, cats[n], x);
        }
        ListedLoads(rows, c);
      } else {
        forall t | t in cats[k].tiles ensures t.id !in ids {
          assert forall u :: u in cats[n].tiles ==> u.id != t.id;
        }
        UnlistedLoads(rows, cats[k], c.id, ids);
      }
    }
  }

  /** Sending a category's own list never hurts. */
  lemma {:induction false} OwnListHarmless(rows: Rows, cats: seq<Category>, n: nat)
    requires Board(cats) && Represents(rows, cats) && n < |cats|
    ensures Represents(Reordered(rows, cats[n].id, Ids(cats[n])), cats)
  {
    assert cats[n] in cats;
    hide Loads, Ids, Reordered, Represents, DistinctKeys;
    PermutedSuffices(rows, cats, n, cats[n]);
    assert cats[n := cats[n]] == cats;
  }

  /** After a drop and its requests, in whichever order they arrive, the store loads exactly the board
      on screen. */
  lemma {:induction false} DropPersists(rows: Rows, cats: seq<Category>, id: string, from: string, dest: string,
                                        before: Option<string>)
    requires Board(cats) && Represents(rows, cats) && CanDrop(cats, id, from, dest) && from != dest
    ensures
      var after := DropTileResult(cats, id, from, dest, before);
      var destIds, fromIds := Ids(after[CatIndex(cats, dest)]), Ids(after[CatIndex(cats, from)]);
      && Represents(Reordered(Reordered(rows, dest, destIds), from, fromIds), after)
      && Represents(Reordered(Reordered(rows, from, fromIds), dest, destIds), after)
  {
    var after := DropTileResult(cats, id, from, dest, before);
    var si, di := CatIndex(cats, from), CatIndex(cats, dest);
    hide IndexOf, DropTileResult, AfterDrop, Loads, Reordered, Represents, Ids, InsertBefore;
    DropKeepsBoard(cats, id, from, dest, before);
    DropKeepsOrder(cats, id, from, dest, before, si);
    DropKeepsOrder(cats, id, from, dest, before, di);
    DestinationSuffices(rows, cats, id, from, dest, before);
    OwnListHarmless(Reordered(rows, dest, Ids(after[di])), after, si);
    DropFacts(cats, id, from, dest, si);
    DropFacts(cats, id, from, dest, di);
    ListsDisjoint(after, si, di);
    ReorderedCommute(rows, dest, Ids(after[di]), from, Ids(after[si]));
  }

  lemma {:induction false} ListsDisjoint(cats: seq<Category>, i: nat, j: nat)
    requires Board(cats) && i < |cats| && j < |cats| && i != j
    ensures Distinct(Ids(cats[i])) && Distinct(Ids(cats[j])) && forall id :: id in Ids(cats[j]) ==> id !in Ids(cats[i])
  {
  }
}

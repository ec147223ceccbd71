/** What the store is left with when the requests of one drop overtake those of the drop before it. */
module TileOvertaking {
  import opened Sequences
  import opened KeyedLists
  import opened TileBoard
  import opened TileMoves
  import opened TileStore
  import opened TileWorkspace
  import opened TileRuns

  // ----- The last request that lists a row decides -----

  /** The place that the last of the calls listing `id` gives it. */
  function Last(calls: seq<ApiCall>, id: string): Option<Place> {
    if calls == [] then None
    else
      var call := calls[|calls| - 1];
      if call.ReorderTiles? && id in call.tileIds then Some(Place(call.categoryId, PositionOf(call.tileIds, id)))
      else Last(calls[..|calls| - 1], id)
  }

  ghost predicate DistinctLists(calls: seq<ApiCall>) {
    forall c :: c in calls && c.ReorderTiles? ==> Distinct(c.tileIds)
  }

  lemma {:induction false} HandledLast(rows: Rows, calls: seq<ApiCall>, id: string)
    requires DistinctLists(calls)
    ensures HandledAll(rows, calls).Keys == rows.Keys
    ensures id in rows ==> HandledAll(rows, calls)[id] == if Last(calls, id).Some? then Last(calls, id).value else rows[id]
  {
    hide Reordered;
    if calls == [] {
      assert HandledAll(rows, calls) == rows;
    } else {
      var front, call := calls[..|calls| - 1], calls[|calls| - 1];
      assert forall c :: c in front ==> c in calls;
      HandledLast(rows, front, id);
      if call.ReorderTiles? {
        assert call in calls;
        ReorderedAt(HandledAll(rows, front), call.categoryId, call.tileIds);
      }
    }
  }

  lemma {:induction false} LastAppend(a: seq<ApiCall>, b: seq<ApiCall>, id: string)
    ensures Last(a + b, id) == if Last(b, id).Some? then Last(b, id) else Last(a, id)
  {
    if b == [] {
      assert a + b == a;
    } else {
      assert (a + b)[..|a + b| - 1] == a + b[..|b| - 1];
      LastAppend(a, b[..|b| - 1], id);
    }
  }

  lemma {:induction false} SameHandled(rows: Rows, a: seq<ApiCall>, b: seq<ApiCall>)
    requires DistinctLists(a) && DistinctLists(b) && forall id :: id in rows ==> Last(a, id) == Last(b, id)
    ensures HandledAll(rows, a) == HandledAll(rows, b)
  {
    hide HandledAll, DistinctLists;
    HandledLast(rows, a, "");
    HandledLast(rows, b, "");
    forall id | id in rows ensures HandledAll(rows, a)[id] == HandledAll(rows, b)[id] {
      HandledLast(rows, a, id);
      HandledLast(rows, b, id);
    }
  }

  // ----- What the requests of one drop say -----

  ghost predicate HasId(c: Category, id: string) { exists t :: t in c.tiles && t.id == id }

  predicate Touches(m: Move, categoryId: string) { categoryId == m.from || categoryId == m.dest }

  lemma {:induction false} HomeOnce(cats: seq<Category>, i: nat, j: nat, id: string)
    requires Board(cats) && i < |cats| && j < |cats| && HasId(cats[i], id) && HasId(cats[j], id)
    ensures i == j
  {
    var t :| t in cats[i].tiles && t.id == id;
    var u :| u in cats[j].tiles && u.id == id;
    assert cats[i] in cats && cats[j] in cats;
    KeyPosition(cats, CatId, i, j);
  }

  lemma {:induction false} IdsHas(c: Category, id: string)
    ensures id in Ids(c) <==> HasId(c, id)
  {
    if id in Ids(c) {
      var k :| 0 <= k < |c.tiles| && Ids(c)[k] == id;
      assert c.tiles[k] in c.tiles;
    }
    if t :| t in c.tiles && t.id == id {
      var k :| 0 <= k < |c.tiles| && c.tiles[k] == t;
      assert Ids(c)[k] == id;
    }
  }

  /** The dragged tile is in the category it is dragged from. */
  lemma {:induction false} SourceHas(cats: seq<Category>, m: Move, k: nat)
    requires Board(cats) && CanDrop(cats, m.id, m.from, m.dest) && k < |cats|
    ensures HasId(cats[k], m.id) <==> cats[k].id == m.from
  {
    hide IndexOf, Board, Dragged;
    DropFacts(cats, m.id, m.from, m.dest, k);
  }

  lemma {:induction false} MovedHas(cats: seq<Category>, m: Move, k: nat, id: string)
    requires Board(cats) && CanDrop(cats, m.id, m.from, m.dest) && k < |cats|
    ensures |Moved(cats, m)| == |cats| && Moved(cats, m)[k].id == cats[k].id
    ensures HasId(Moved(cats, m)[k], id) <==> if id == m.id then cats[k].id == m.dest else HasId(cats[k], id)
  {
    hide DropTileResult, AfterDrop, IndexOf, InsertBefore, Board, Dragged, Without;
    var moved := Dragged(cats, m.id, m.from);
    var after := Moved(cats, m)[k];
    DropFacts(cats, m.id, m.from, m.dest, k);
    DropKeepsOrder(cats, m.id, m.from, m.dest, m.before, k);
    DropAt(cats, m.id, m.from, m.dest, m.before, k);
    forall t ensures t in after.tiles <==>
                     (cats[k].id == m.dest && t == moved.(categoryId := m.dest))
                     || (t in cats[k].tiles && !(cats[k].id == m.from && t.id == m.id)) {
      AfterDropMember(cats[k], moved, m.from, m.dest, m.before, t);
    }
    HasAfter(cats[k], after, moved, m, id);
  }

  lemma {:induction false} HasAfter(c: Category, after: Category, moved: Tile, m: Move, id: string)
    requires moved.id == m.id && forall t :: t in c.tiles && t.id == m.id ==> c.id == m.from
    requires forall t :: t in after.tiles <==>
      (c.id == m.dest && t == moved.(categoryId := m.dest)) || (t in c.tiles && !(c.id == m.from && t.id == m.id))
    ensures HasId(after, id) <==> if id == m.id then c.id == m.dest else HasId(c, id)
  {
    if id == m.id && c.id == m.dest {
      assert moved.(categoryId := m.dest) in after.tiles;
    }
  }

  lemma {:induction false} RequestsDistinct(cats: seq<Category>, m: Move)
    requires Board(cats) && CanDrop(cats, m.id, m.from, m.dest)
    ensures DistinctLists(Requests(cats, m))
  {
    hide DropTileResult, IndexOf, Requests, Moved;
    RequestsAre(cats, m);
    MovedBoard(cats, m);
    var after := Moved(cats, m);
    CategoryIds(after, CatIndex(cats, m.dest));
    CategoryIds(after, CatIndex(cats, m.from));
  }

  /** A drop's requests list exactly the tiles of the two categories it touches, at their places. */
  lemma {:induction false} LastListed(cats: seq<Category>, m: Move, id: string)
    requires Board(cats) && CanDrop(cats, m.id, m.from, m.dest)
    ensures
      var after, last := Moved(cats, m), Last(Requests(cats, m), id);
      && |after| == |cats|
      && (last.Some? <==> exists k :: 0 <= k < |after| && Touches(m, after[k].id) && HasId(after[k], id))
      && (forall k :: 0 <= k < |after| && Touches(m, after[k].id) && HasId(after[k], id) ==>
            id in Ids(after[k]) && last == Some(Place(after[k].id, PositionOf(Ids(after[k]), id))))
  {
    hide DropTileResult, IndexOf, Requests, Moved, Ids, HasId, PositionOf;
    RequestsAre(cats, m);
    MovedBoard(cats, m);
    var after := Moved(cats, m);
    var d, f := CatIndex(cats, m.dest), CatIndex(cats, m.from);
    MovedHas(cats, m, d, id);
    MovedHas(cats, m, f, id);
    IdsHas(after[d], id);
    IdsHas(after[f], id);
    LastTwo(m.dest, Ids(after[d]), m.from, Ids(after[f]), id);
    assert [ReorderTiles(m.dest, Ids(after[d]))] + [] == [ReorderTiles(m.dest, Ids(after[d]))];
    forall k | 0 <= k < |after| && Touches(m, after[k].id) ensures k == d || k == f {
      SameCategory(after, k, d);
      SameCategory(after, k, f);
    }
    if HasId(after[d], id) && HasId(after[f], id) {
      HomeOnce(after, d, f, id);
    }
  }

  lemma {:induction false} ListedHome(cats: seq<Category>, m: Move, id: string) returns (k: nat)
    requires Board(cats) && CanDrop(cats, m.id, m.from, m.dest) && Last(Requests(cats, m), id).Some?
    ensures var after := Moved(cats, m); k < |after| == |cats| && Touches(m, after[k].id) && HasId(after[k], id)
  {
    hide Moved, Requests, Board, Last, HasId, Ids, PositionOf, IndexOf;
    LastListed(cats, m, id);
    k :| k < |cats| && Touches(m, Moved(cats, m)[k].id) && HasId(Moved(cats, m)[k], id);
  }

  lemma {:induction false} ListedAt(cats: seq<Category>, m: Move, k: nat, id: string)
    requires Board(cats) && CanDrop(cats, m.id, m.from, m.dest) && k < |Moved(cats, m)|
    requires Touches(m, Moved(cats, m)[k].id) && HasId(Moved(cats, m)[k], id)
    ensures
      var c := Moved(cats, m)[k];
      id in Ids(c) && Last(Requests(cats, m), id) == Some(Place(c.id, PositionOf(Ids(c), id)))
  {
    hide Moved, Requests, Board, Last, HasId, Ids, PositionOf, IndexOf;
    LastListed(cats, m, id);
  }

  lemma {:induction false} PositionIs(c: Category, p: nat)
    requires p < |c.tiles| && DistinctKeys(c.tiles, TileId)
    ensures c.tiles[p].id in Ids(c) && PositionOf(Ids(c), c.tiles[p].id) == p
  {
    hide PositionOf;
    var ids := Ids(c);
    assert ids[p] == c.tiles[p].id;
    var q := PositionOf(ids, ids[p]);
    KeyPosition(c.tiles, TileId, p, q);
  }

  lemma {:induction false} LastTwo(c: string, ids: seq<string>, d: string, other: seq<string>, id: string)
    ensures Last([ReorderTiles(c, ids)], id) == if id in ids then Some(Place(c, PositionOf(ids, id))) else None
    ensures Last([ReorderTiles(c, ids)] + [ReorderTiles(d, other)], id) ==
            if id in other then Some(Place(d, PositionOf(other, id)))
            else if id in ids then Some(Place(c, PositionOf(ids, id))) else None
  {
    var one := [ReorderTiles(c, ids)];
    assert one[..0] == [] && Last([], id) == None;
    LastAppend(one, [ReorderTiles(d, other)], id);
    var two := [ReorderTiles(d, other)];
    assert two[..0] == [];
  }

  ghost predicate Rising(rows: Rows, s: seq<Tile>) {
    && (forall k :: 0 <= k < |s| ==> s[k].id in rows)
    && (forall k, l :: 0 <= k < l < |s| ==> rows[s[k].id].position < rows[s[l].id].position)
  }

  lemma {:induction false} SameFirst(rows: Rows, s: seq<Tile>, t: seq<Tile>)
    requires Rising(rows, s) && Rising(rows, t) && s != [] && forall x :: x in s <==> x in t
    ensures t != [] && s[0] == t[0]
  {
    assert s[0] in t;
    var i :| 0 <= i < |t| && t[i] == s[0];
    assert t[0] in s;
    var j :| 0 <= j < |s| && s[j] == t[0];
  }

  lemma {:induction false} OneOrder(rows: Rows, s: seq<Tile>, t: seq<Tile>)
    requires Rising(rows, s) && Rising(rows, t) && forall x :: x in s <==> x in t
    ensures s == t
    decreases |s|
  {
    if s == [] {
      if t != [] {
        SameFirst(rows, t, s);
      }
    } else {
      SameFirst(rows, s, t);
      forall x ensures x in s[1..] <==> x in t[1..] {
        RisingOnce(rows, s, x);
        RisingOnce(rows, t, x);
      }
      OneOrder(rows, s[1..], t[1..]);
    }
  }

  /** A store loads at most one order of the same tiles. */
  lemma {:induction false} LoadsOneOrder(rows: Rows, c: Category, d: Category)
    requires Loads(rows, c) && Loads(rows, d) && forall t :: t in c.tiles <==> t in d.tiles
    ensures c.tiles == d.tiles
  {
    OneOrder(rows, c.tiles, d.tiles);
  }

  lemma {:induction false} RisingOnce(rows: Rows, s: seq<Tile>, x: Tile)
    requires Rising(rows, s) && s != []
    ensures x in s[1..] <==> x in s && x != s[0]
  {
    if x in s[1..] {
      var k :| 0 <= k < |s[1..]| && s[1..][k] == x;
      assert s[k + 1] == x;
    }
  }

  lemma {:induction false} OneBoard(rows: Rows, one: seq<Category>, two: seq<Category>, n: nat)
    requires n < |one| && |two| == |one| && Represents(rows, one) && Represents(rows, two)
    requires two == one[n := two[n]] && two[n].id == one[n].id && two[n].title == one[n].title
    requires forall t :: t in two[n].tiles <==> t in one[n].tiles
    ensures one == two
  {
    RepresentsAt(rows, one, n);
    RepresentsAt(rows, two, n);
    LoadsOneOrder(rows, one[n], two[n]);
    hide Represents, Loads;
    assert one[n] == two[n] && one[n := one[n]] == one;
  }

  lemma {:induction false} WithinCategory(cats: seq<Category>, m: Move, n: nat)
    requires Board(cats) && CanDrop(cats, m.id, m.from, m.dest) && m.from == m.dest && n == CatIndex(cats, m.dest)
    ensures |Moved(cats, m)| == |cats| && Moved(cats, m) == cats[n := Moved(cats, m)[n]]
    ensures Moved(cats, m)[n].id == cats[n].id == m.dest && DistinctKeys(Moved(cats, m)[n].tiles, TileId)
    ensures Moved(cats, m)[n].title == cats[n].title
    ensures forall t :: t in Moved(cats, m)[n].tiles <==> t in cats[n].tiles
  {
    hide DropTileResult, AfterDrop, IndexOf, Without, InsertBefore, DistinctKeys, Dragged;
    var after := Moved(cats, m);
    DropKeepsBoard(cats, m.id, m.from, m.dest, m.before);
    assert after[n] in after;
    hide Board;
    forall k | 0 <= k < |cats|
      ensures after[k].id == cats[k].id && after[k].title == cats[k].title && (k != n ==> after[k] == cats[k]) {
      DropFacts(cats, m.id, m.from, m.dest, k);
      DropKeepsOrder(cats, m.id, m.from, m.dest, m.before, k);
    }
    forall t ensures t in after[n].tiles <==> t in cats[n].tiles {
      WithinMember(cats, m, n, t);
    }
  }

  lemma {:induction false} WithinMember(cats: seq<Category>, m: Move, n: nat, t: Tile)
    requires Board(cats) && CanDrop(cats, m.id, m.from, m.dest) && m.from == m.dest && n == CatIndex(cats, m.dest)
    ensures |Moved(cats, m)| == |cats| && (t in Moved(cats, m)[n].tiles <==> t in cats[n].tiles)
  {
    hide DropTileResult, AfterDrop, IndexOf, Without, InsertBefore, DistinctKeys;
    var moved := Dragged(cats, m.id, m.from);
    DropFacts(cats, m.id, m.from, m.dest, n);
    DropAt(cats, m.id, m.from, m.dest, m.before, n);
    AfterDropMember(cats[n], moved, m.from, m.dest, m.before, t);
    assert cats[n] in cats && moved.(categoryId := m.dest) == moved;
  }

  // ----- Two drops whose requests arrive the other way round -----

  /** The second drop is made on the board that the first left, and both change something. */
  ghost predicate InTurn(cats: seq<Category>, first: Move, second: Move) {
    && CanDrop(cats, first.id, first.from, first.dest)
    && CanDrop(Moved(cats, first), second.id, second.from, second.dest)
  }

  function Overtaken(cats: seq<Category>, first: Move, second: Move): seq<ApiCall> {
    Requests(Moved(cats, first), second) + Requests(cats, first)
  }

  function InOrder(cats: seq<Category>, first: Move, second: Move): seq<ApiCall> {
    Requests(cats, first) + Requests(Moved(cats, first), second)
  }

  lemma {:induction false} JoinDistinct(a: seq<ApiCall>, b: seq<ApiCall>)
    requires DistinctLists(a) && DistinctLists(b)
    ensures DistinctLists(a + b)
  {
    assert forall c :: c in a + b ==> c in a || c in b;
  }

  lemma {:induction false} BothDistinct(cats: seq<Category>, first: Move, second: Move)
    requires Board(cats) && InTurn(cats, first, second)
    ensures DistinctLists(Requests(cats, first)) && DistinctLists(Requests(Moved(cats, first), second))
    ensures DistinctLists(Overtaken(cats, first, second)) && DistinctLists(InOrder(cats, first, second))
  {
    hide DistinctLists, Requests, Moved, Board;
    MovedBoard(cats, first);
    RequestsDistinct(cats, first);
    RequestsDistinct(Moved(cats, first), second);
    JoinDistinct(Requests(cats, first), Requests(Moved(cats, first), second));
    JoinDistinct(Requests(Moved(cats, first), second), Requests(cats, first));
  }

  lemma {:induction false} InOrderLoads(rows: Rows, cats: seq<Category>, first: Move, second: Move)
    requires Board(cats) && Represents(rows, cats)
    ensures Represents(HandledAll(rows, InOrder(cats, first, second)), Moved(Moved(cats, first), second))
  {
    hide Board, Represents, HandledAll, Requests, Moved;
    MoveHandled(rows, cats, first, false);
    MovedBoard(cats, first);
    MoveHandled(HandledAll(rows, Requests(cats, first)), Moved(cats, first), second, false);
    HandledAppend(rows, Requests(cats, first), Requests(Moved(cats, first), second));
  }

  /** Where a row is that both drops list: in a category that both touch, unless it is the second tile. */
  lemma {:induction false} ListedByBoth(cats: seq<Category>, first: Move, second: Move, id: string) returns (k: nat, l: nat)
    requires Board(cats) && InTurn(cats, first, second)
    requires Last(Requests(cats, first), id).Some? && Last(Requests(Moved(cats, first), second), id).Some?
    ensures
      var one := Moved(cats, first);
      var two := Moved(one, second);
      && k < |one| && l < |two| == |one| && one[l].id == two[l].id
      && Touches(first, one[k].id) && HasId(one[k], id) && Touches(second, two[l].id) && HasId(two[l], id)
      && (if id == second.id then one[k].id == second.from && two[l].id == second.dest else k == l)
  {
    hide Moved, Requests, Board, Last, HasId, IndexOf;
    var one := Moved(cats, first);
    var two := Moved(one, second);
    MovedBoard(cats, first);
    k := ListedHome(cats, first, id);
    l := ListedHome(one, second, id);
    MovedHas(one, second, l, id);
    if id == second.id {
      SourceHas(one, second, k);
    } else {
      HomeOnce(one, k, l, id);
    }
  }

  /** No category in common: the two drops' requests commute. */
  lemma {:induction false} ApartLoads(rows: Rows, cats: seq<Category>, first: Move, second: Move)
    requires Board(cats) && Represents(rows, cats) && InTurn(cats, first, second)
    requires !Touches(first, second.from) && !Touches(first, second.dest)
    ensures Represents(HandledAll(rows, Overtaken(cats, first, second)), Moved(Moved(cats, first), second))
  {
    hide Board, Represents, HandledAll, Requests, Moved, Last, HasId, DistinctLists;
    var a, b := Requests(cats, first), Requests(Moved(cats, first), second);
    BothDistinct(cats, first, second);
    InOrderLoads(rows, cats, first, second);
    forall id | id in rows ensures Last(a + b, id) == Last(b + a, id) {
      LastAppend(a, b, id);
      LastAppend(b, a, id);
      if Last(a, id).Some? && Last(b, id).Some? {
        var k, l := ListedByBoth(cats, first, second, id);
        assert false;
      }
    }
    SameHandled(rows, a + b, b + a);
  }

  /** The second drop stays within a category that the first touched: the first has the last word on it. */
  lemma {:induction false} WithinLoads(rows: Rows, cats: seq<Category>, first: Move, second: Move)
    requires Board(cats) && Represents(rows, cats) && InTurn(cats, first, second)
    requires second.from == second.dest && Touches(first, second.from)
    ensures Represents(HandledAll(rows, Overtaken(cats, first, second)), Moved(cats, first))
  {
    hide Board, Represents, HandledAll, Requests, Moved, Last, HasId, DistinctLists;
    var a, b := Requests(cats, first), Requests(Moved(cats, first), second);
    BothDistinct(cats, first, second);
    MoveHandled(rows, cats, first, false);
    forall id | id in rows ensures Last(b + a, id) == Last(a, id) {
      LastAppend(b, a, id);
      if Last(b, id).Some? {
        WithinListed(cats, first, second, id);
      }
    }
    SameHandled(rows, b + a, a);
  }

  lemma {:induction false} WithinListed(cats: seq<Category>, first: Move, second: Move, id: string)
    requires Board(cats) && InTurn(cats, first, second) && second.from == second.dest && Touches(first, second.from)
    requires Last(Requests(Moved(cats, first), second), id).Some?
    ensures Last(Requests(cats, first), id).Some?
  {
    hide Moved, Requests, Board, Last, HasId, IndexOf;
    var one := Moved(cats, first);
    MovedBoard(cats, first);
    var l := ListedHome(one, second, id);
    MovedHas(one, second, l, id);
    SourceHas(one, second, l);
    ListedAt(cats, first, l, id);
  }

  /** The second drop takes its tile out of a category that the first touched: the overtaken list of that
      category pulls it back. */
  lemma {:induction false} PulledBack(rows: Rows, cats: seq<Category>, first: Move, second: Move)
    requires Board(cats) && Represents(rows, cats) && InTurn(cats, first, second)
    requires second.from != second.dest && Touches(first, second.from)
    ensures !Represents(HandledAll(rows, Overtaken(cats, first, second)), Moved(Moved(cats, first), second))
    ensures Moved(Moved(cats, first), second) != Moved(cats, first)
  {
    hide Board, Represents, HandledAll, Requests, Moved, Last, HasId, DistinctLists, PositionOf;
    var one := Moved(cats, first);
    var two := Moved(one, second);
    var a, b, id := Requests(cats, first), Requests(one, second), second.id;
    var f, d := CatIndex(one, second.from), CatIndex(one, second.dest);
    BothDistinct(cats, first, second);
    MovedBoard(cats, first);
    SourceHas(one, second, f);
    SourceHas(one, second, d);
    MovedHas(one, second, d, id);
    LastListed(cats, first, id);
    LastAppend(b, a, id);
    HandledLast(rows, b + a, id);
    assert Last(b + a, id).Some? && Last(b + a, id).value.categoryId == second.from;
    var r := HandledAll(rows, b + a);
    if Represents(r, two) {
      LoadsId(r, two, d, id);
    }
  }

  lemma {:induction false} LoadsId(rows: Rows, cats: seq<Category>, k: nat, id: string)
    requires Represents(rows, cats) && k < |cats| && HasId(cats[k], id)
    ensures id in rows && rows[id].categoryId == cats[k].id
  {
    RepresentsAt(rows, cats, k);
    var t :| t in cats[k].tiles && t.id == id;
    LoadsTile(rows, cats[k], t);
  }

  /** The second drop brings a tile from elsewhere into a category that the first touched: that category's
      older list is handled last, all else is as if nothing had been overtaken. */
  lemma {:induction false} OlderListLast(rows: Rows, cats: seq<Category>, first: Move, second: Move)
    requires Board(cats) && InTurn(cats, first, second)
    requires !Touches(first, second.from) && Touches(first, second.dest)
    ensures
      var one := Moved(cats, first);
      var d := CatIndex(one, second.dest);
      HandledAll(rows, Overtaken(cats, first, second)) ==
      Reordered(HandledAll(rows, InOrder(cats, first, second)), second.dest, Ids(one[d]))
  {
    hide Board, HandledAll, Requests, Moved, Last, HasId, DistinctLists, Reordered, Ids, PositionOf;
    var one := Moved(cats, first);
    var d := CatIndex(one, second.dest);
    var a, b, late := Requests(cats, first), Requests(one, second), [ReorderTiles(second.dest, Ids(one[d]))];
    BothDistinct(cats, first, second);
    MovedBoard(cats, first);
    CategoryIds(one, d);
    OneDistinct(second.dest, Ids(one[d]));
    JoinDistinct(a + b, late);
    HandledAppend(rows, a + b, late);
    HandledTwo(HandledAll(rows, a + b), second.dest, Ids(one[d]), "", []);
    forall id | id in rows ensures Last(b + a, id) == Last((a + b) + late, id) {
      OlderListLastAt(cats, first, second, id);
    }
    SameHandled(rows, b + a, (a + b) + late);
  }

  lemma {:induction false} OneDistinct(c: string, ids: seq<string>)
    requires Distinct(ids)
    ensures DistinctLists([ReorderTiles(c, ids)])
  {
  }

  lemma {:induction false} OlderListLastAt(cats: seq<Category>, first: Move, second: Move, id: string)
    requires Board(cats) && InTurn(cats, first, second)
    requires !Touches(first, second.from) && Touches(first, second.dest)
    ensures
      var one := Moved(cats, first);
      var d := CatIndex(one, second.dest);
      var late := [ReorderTiles(second.dest, Ids(one[d]))];
      Last(Overtaken(cats, first, second), id) == Last(InOrder(cats, first, second) + late, id)
  {
    hide Board, Requests, Moved, Last, HasId, Ids, PositionOf;
    var one := Moved(cats, first);
    var d := CatIndex(one, second.dest);
    var a, b, late := Requests(cats, first), Requests(one, second), [ReorderTiles(second.dest, Ids(one[d]))];
    LastListed(cats, first, id);
    LastAppend(a, b, id);
    LastAppend(b, a, id);
    LastAppend(a + b, late, id);
    LastTwo(second.dest, Ids(one[d]), "", [], id);
    IdsHas(one[d], id);
    if id !in Ids(one[d]) && Last(a, id).Some? && Last(b, id).Some? {
      var k, l := ListedByBoth(cats, first, second, id);
      MovedBoard(cats, first);
      SameCategory(one, k, d);
      assert false;
    }
  }

  lemma {:induction false} CategoryIds(cats: seq<Category>, k: nat)
    requires Board(cats) && k < |cats|
    ensures DistinctKeys(cats[k].tiles, TileId) && Distinct(Ids(cats[k]))
  {
    assert cats[k] in cats;
    IdsSpec(cats[k]);
  }

  lemma {:induction false} SameCategory(cats: seq<Category>, k: nat, d: nat)
    requires Board(cats) && k < |cats| && d < |cats|
    ensures cats[k].id == cats[d].id ==> k == d
  {
    KeyPosition(cats, CatId, k, d);
  }

  /** The destination after the second drop is the older list with the second tile put in somewhere. */
  lemma {:induction false} PutIn(cats: seq<Category>, m: Move) returns (p: nat, x: Tile)
    requires Board(cats) && CanDrop(cats, m.id, m.from, m.dest) && m.from != m.dest
    ensures
      var d := CatIndex(cats, m.dest);
      var s := cats[d].tiles;
      && |Moved(cats, m)| == |cats| && p <= |s| && x.id == m.id
      && Moved(cats, m)[d].tiles == s[..p] + [x] + s[p..] && !HasId(cats[d], m.id)
  {
    hide DropTileResult, InsertBefore, IndexOf, Without, Board, HasId, Landing;
    var d := CatIndex(cats, m.dest);
    x := Dragged(cats, m.id, m.from).(categoryId := m.dest);
    p := Landing(cats[d].tiles, TileId, m.before);
    DropAt(cats, m.id, m.from, m.dest, m.before, d);
    SourceHas(cats, m, d);
    DropFacts(cats, m.id, m.from, m.dest, d);
    SpliceIn(cats[d].tiles, TileId, x, m.before);
  }

  /** The rows of the other tiles get the places of the older list; the second tile keeps its own, so the
      places tie unless it is last. */
  lemma {:induction false} OlderListLoadsIff(rows: Rows, c: Category, s: seq<Tile>, p: nat, x: Tile)
    requires p <= |s| && c.tiles == s[..p] + [x] + s[p..] && DistinctKeys(c.tiles, TileId)
    requires Loads(rows, c) && x.id in rows && rows[x.id] == Place(c.id, p)
    ensures Loads(Reordered(rows, c.id, Map(s, TileId)), c) <==> p == |s|
  {
    hide Reordered, DistinctKeys;
    var r := Reordered(rows, c.id, Map(s, TileId));
    OlderRows(rows, c, s, p, x);
    if p < |s| {
      assert c.tiles[p] == x && c.tiles[p + 1] == s[p];
      NoTie(r, c, p);
    } else {
      assert c.tiles == s + [x];
      OlderOnly(rows, c, s, x);
    }
  }

  lemma {:induction false} NoTie(rows: Rows, c: Category, p: nat)
    requires p + 1 < |c.tiles| && c.tiles[p].id in rows && c.tiles[p + 1].id in rows
    requires rows[c.tiles[p].id].position == rows[c.tiles[p + 1].id].position
    ensures !Loads(rows, c)
  {
  }

  lemma {:induction false} OlderOnly(rows: Rows, c: Category, s: seq<Tile>, x: Tile)
    requires c.tiles == s + [x] && DistinctKeys(c.tiles, TileId) && Loads(rows, c)
    ensures
      var r := Reordered(rows, c.id, Map(s, TileId));
      forall id :: id in r && r[id].categoryId == c.id ==> exists t :: t in c.tiles && t.id == id
  {
    hide Reordered, DistinctKeys;
    var older := Map(s, TileId);
    assert s[..|s|] + [x] + s[|s|..] == s + [x];
    OlderDistinct(c.tiles, s, |s|, x);
    ReorderedAt(rows, c.id, older);
    var r := Reordered(rows, c.id, older);
    forall id | id in r && r[id].categoryId == c.id ensures exists t :: t in c.tiles && t.id == id {
      if id in older {
        var k :| 0 <= k < |older| && older[k] == id;
        assert c.tiles[k] == s[k] && c.tiles[k] in c.tiles;
      }
    }
  }

  lemma {:induction false} OlderDistinct(tiles: seq<Tile>, s: seq<Tile>, p: nat, x: Tile)
    requires p <= |s| && tiles == s[..p] + [x] + s[p..] && DistinctKeys(tiles, TileId)
    ensures Distinct(Map(s, TileId)) && x.id !in Map(s, TileId)
  {
    forall j | 0 <= j < |s| ensures s[j] == tiles[if j < p then j else j + 1] {
    }
    assert tiles[p] == x;
    forall i, j | 0 <= i < j < |s| ensures TileId(s[i]) != TileId(s[j]) {
      var i', j' := if i < p then i else i + 1, if j < p then j else j + 1;
      assert TileId(tiles[i']) != TileId(tiles[j']);
    }
    forall j | 0 <= j < |s| ensures TileId(s[j]) != x.id {
      var j' := if j < p then j else j + 1;
      assert TileId(tiles[j']) != TileId(tiles[p]);
    }
  }

  lemma {:induction false} OlderRows(rows: Rows, c: Category, s: seq<Tile>, p: nat, x: Tile)
    requires p <= |s| && c.tiles == s[..p] + [x] + s[p..] && DistinctKeys(c.tiles, TileId)
    requires Loads(rows, c) && x.id in rows && rows[x.id] == Place(c.id, p)
    ensures
      var r := Reordered(rows, c.id, Map(s, TileId));
      && x.id in r && r[x.id] == Place(c.id, p)
      && forall j :: 0 <= j < |s| ==> s[j].id in r && r[s[j].id] == Place(c.id, j)
  {
    hide Reordered, DistinctKeys;
    var older := Map(s, TileId);
    OlderDistinct(c.tiles, s, p, x);
    ReorderedAt(rows, c.id, older);
    assert c.tiles[p] == x;
    forall j | 0 <= j < |s| ensures s[j].id in rows && older[j] == s[j].id {
      var j' := if j < p then j else j + 1;
      assert c.tiles[j'] == s[j] && TileId(s[j]) == s[j].id;
    }
  }

  ghost predicate StandsLast(c: Category, id: string) {
    c.tiles != [] && c.tiles[|c.tiles| - 1].id == id
  }

  lemma {:induction false} LastIff(c: Category, s: seq<Tile>, p: nat, x: Tile)
    requires p <= |s| && c.tiles == s[..p] + [x] + s[p..] && DistinctKeys(c.tiles, TileId)
    ensures StandsLast(c, x.id) <==> p == |s|
  {
    var last := |c.tiles| - 1;
    assert c.tiles[p] == x;
    if p < |s| {
      assert TileId(c.tiles[p]) != TileId(c.tiles[last]);
    }
  }

  lemma {:induction false} SecondPlace(rows: Rows, cats: seq<Category>, first: Move, second: Move, p: nat)
    requires Board(cats) && InTurn(cats, first, second) && second.id in rows
    requires
      var two := Moved(Moved(cats, first), second);
      var d := CatIndex(Moved(cats, first), second.dest);
      |two| == |Moved(cats, first)| && p < |two[d].tiles| && two[d].tiles[p].id == second.id
    ensures
      var r := HandledAll(rows, InOrder(cats, first, second));
      second.id in r && r[second.id] == Place(second.dest, p)
  {
    hide Board, HandledAll, Requests, Moved, Last, HasId, DistinctLists, DistinctKeys, IndexOf, PositionOf, Ids;
    var one := Moved(cats, first);
    var d := CatIndex(one, second.dest);
    var a, b := Requests(cats, first), Requests(one, second);
    BothDistinct(cats, first, second);
    MovedBoard(cats, first);
    MovedBoard(one, second);
    MovedHas(one, second, d, second.id);
    ListedAt(one, second, d, second.id);
    CategoryIds(Moved(one, second), d);
    PositionIs(Moved(one, second)[d], p);
    LastAppend(a, b, second.id);
    HandledLast(rows, a + b, second.id);
  }

  /** The overtaken board loads exactly when the second tile was dropped last in its new category. */
  lemma {:induction false} BroughtInIff(rows: Rows, cats: seq<Category>, first: Move, second: Move)
    requires Board(cats) && Represents(rows, cats) && InTurn(cats, first, second)
    requires !Touches(first, second.from) && Touches(first, second.dest)
    ensures
      var one := Moved(cats, first);
      var two := Moved(one, second);
      && |two| == |one|
      && (Represents(HandledAll(rows, Overtaken(cats, first, second)), two) <==>
          StandsLast(two[CatIndex(one, second.dest)], second.id))
  {
    hide Board, Represents, HandledAll, Requests, Moved, HasId, Reordered, Overtaken, InOrder, StandsLast;
    var one := Moved(cats, first);
    var two := Moved(one, second);
    var d := CatIndex(one, second.dest);
    MovedBoard(cats, first);
    MovedBoard(one, second);
    OlderListLast(rows, cats, first, second);
    InOrderLoads(rows, cats, first, second);
    var p, x := PutIn(one, second);
    MovedHas(one, second, d, second.id);
    CategoryIds(two, d);
    HasRow(rows, cats, first, second);
    var r, s := HandledAll(rows, InOrder(cats, first, second)), one[d].tiles;
    assert two[d].tiles[p] == x;
    SecondPlace(rows, cats, first, second, p);
    LastIff(two[d], s, p, x);
    OlderBoardIff(r, two, d, s, p, x);
  }

  lemma {:induction false} HasRow(rows: Rows, cats: seq<Category>, first: Move, second: Move)
    requires Board(cats) && Represents(rows, cats) && InTurn(cats, first, second)
    ensures second.id in rows
  {
    hide Board, Represents, HandledAll, Requests, Moved, HasId, DistinctLists;
    var one := Moved(cats, first);
    var f := CatIndex(one, second.from);
    MovedBoard(cats, first);
    SourceHas(one, second, f);
    MoveHandled(rows, cats, first, false);
    LoadsId(HandledAll(rows, Requests(cats, first)), one, f, second.id);
    RequestsDistinct(cats, first);
    HandledLast(rows, Requests(cats, first), second.id);
  }

  lemma {:induction false} OlderBoardIff(rows: Rows, two: seq<Category>, d: nat, s: seq<Tile>, p: nat, x: Tile)
    requires Board(two) && Represents(rows, two) && d < |two|
    requires p <= |s| && two[d].tiles == s[..p] + [x] + s[p..]
    requires x.id in rows && rows[x.id] == Place(two[d].id, p)
    ensures Represents(Reordered(rows, two[d].id, Map(s, TileId)), two) <==> p == |s|
  {
    var older := Map(s, TileId);
    var r := Reordered(rows, two[d].id, older);
    CategoryIds(two, d);
    RepresentsAt(rows, two, d);
    OlderDistinct(two[d].tiles, s, p, x);
    OlderListLoadsIff(rows, two[d], s, p, x);
    if Represents(r, two) {
      RepresentsAt(r, two, d);
    }
    if p == |s| {
      forall k | 0 <= k < |two| ensures Loads(r, two[k]) {
        OtherLoads(rows, two, d, k, s, p, x);
      }
    }
  }

  lemma {:induction false} Elsewhere(cats: seq<Category>, k: nat, d: nat, t: Tile)
    requires Board(cats) && k < |cats| && d < |cats| && k != d && t in cats[k].tiles
    ensures !HasId(cats[d], t.id)
  {
    if HasId(cats[d], t.id) {
      HomeOnce(cats, k, d, t.id);
    }
  }

  lemma {:induction false} OlderHas(c: Category, s: seq<Tile>, p: nat, x: Tile, id: string)
    requires p <= |s| && c.tiles == s[..p] + [x] + s[p..]
    ensures id in Map(s, TileId) ==> HasId(c, id)
  {
    if id in Map(s, TileId) {
      var j :| 0 <= j < |s| && Map(s, TileId)[j] == id;
      var j' := if j < p then j else j + 1;
      assert c.tiles[j'] == s[j] && c.tiles[j'] in c.tiles && s[j].id == id;
    }
  }

  lemma {:induction false} OtherLoads(rows: Rows, two: seq<Category>, d: nat, k: nat, s: seq<Tile>, p: nat, x: Tile)
    requires Board(two) && Represents(rows, two) && d < |two| && k < |two|
    requires p <= |s| && two[d].tiles == s[..p] + [x] + s[p..]
    ensures k != d ==> Loads(Reordered(rows, two[d].id, Map(s, TileId)), two[k])
  {
    if k != d {
      var older := Map(s, TileId);
      CategoryIds(two, d);
      OlderDistinct(two[d].tiles, s, p, x);
      SameCategory(two, k, d);
      RepresentsAt(rows, two, k);
      forall t | t in two[k].tiles ensures t.id !in older {
        Elsewhere(two, k, d, t);
        OlderHas(two[d], s, p, x, t.id);
      }
      UnlistedLoads(rows, two[k], two[d].id, older);
    }
  }

  /** What has to hold for the store to end up with the board on screen. */
  ghost predicate Survives(cats: seq<Category>, first: Move, second: Move)
    requires InTurn(cats, first, second)
  {
    var one := Moved(cats, first);
    var two := Moved(one, second);
    if Touches(first, second.from) then two == one
    else if Touches(first, second.dest) then
      CatIndex(two, second.dest) >= 0 && StandsLast(two[CatIndex(two, second.dest)], second.id)
    else true
  }

  /** If the requests of two drops overtake each other, the store loads the board on screen, whatever the
      creation times of its rows, if and only if: the second drop moved nothing, when it took its tile
      from a category that the first touched; the second tile was dropped last, when only its new
      category was touched by the first; and always, when the two have no category in common. */
  lemma {:induction false} OvertakenIff(rows: Rows, cats: seq<Category>, first: Move, second: Move)
    requires Board(cats) && Represents(rows, cats) && InTurn(cats, first, second)
    ensures Represents(HandledAll(rows, Overtaken(cats, first, second)), Moved(Moved(cats, first), second)) <==>
            Survives(cats, first, second)
  {
    hide Board, Represents, HandledAll, Moved, Overtaken, StandsLast;
    var one := Moved(cats, first);
    if Touches(first, second.from) {
      if second.from == second.dest {
        WithinIff(rows, cats, first, second);
      } else {
        PulledBack(rows, cats, first, second);
      }
    } else if Touches(first, second.dest) {
      BroughtInIff(rows, cats, first, second);
      MovedIndex(one, second, second.dest);
    } else {
      ApartLoads(rows, cats, first, second);
    }
  }

  lemma {:induction false} WithinIff(rows: Rows, cats: seq<Category>, first: Move, second: Move)
    requires Board(cats) && Represents(rows, cats) && InTurn(cats, first, second)
    requires second.from == second.dest && Touches(first, second.from)
    ensures
      var one := Moved(cats, first);
      var two := Moved(one, second);
      Represents(HandledAll(rows, Overtaken(cats, first, second)), two) <==> two == one
  {
    hide Board, Represents, HandledAll, Moved, Overtaken, IndexOf, Without, DistinctKeys;
    var one, n := Moved(cats, first), CatIndex(Moved(cats, first), second.dest);
    WithinLoads(rows, cats, first, second);
    MovedBoard(cats, first);
    WithinCategory(one, second, n);
    var r := HandledAll(rows, Overtaken(cats, first, second));
    if Represents(r, Moved(one, second)) {
      OneBoard(r, one, Moved(one, second), n);
    }
  }

  lemma {:induction false} FirstToEnd(c: string, title: string, x: Tile, y: Tile)
    requires x.id != y.id && x.categoryId == c
    ensures AfterDrop(Category(c, title, [x, y]), x, c, c, None) == Category(c, title, [y, x])
  {
    var tiles := [x, y];
    assert TileId(x) == x.id && TileId(y) == y.id;
    SpliceOut(tiles, TileId, x.id);
    assert IndexOf(tiles, TileId, x.id) == 0 && tiles[..0] + tiles[1..] == [y];
    InsertLast([y], TileId, x);
    assert x.(categoryId := c) == x && [y] + [x] == [y, x];
    hide Without, InsertBefore, IndexOf;
  }

  lemma {:induction false} TwoTiles(c: string, title: string, x: Tile, y: Tile)
    requires x.id != y.id && x.categoryId == y.categoryId == c
    ensures
      var cats := [Category(c, title, [x, y])];
      Board(cats) && CanDrop(cats, x.id, c, c) && Moved(cats, Move(x.id, c, c, None)) == [Category(c, title, [y, x])]
  {
    hide AfterDrop, Without, InsertBefore;
    var cat := Category(c, title, [x, y]);
    var cats := [cat];
    assert CatId(cat) == c && TileId(x) == x.id && TileId(y) == y.id;
    assert CatIndex(cats, c) == 0 && IndexOf(cat.tiles, TileId, x.id) == 0;
    FirstToEnd(c, title, x, y);
    DropAt(cats, x.id, c, c, None, 0);
    OneCategory(c, title, x, y);
  }

  lemma {:induction false} OneCategory(c: string, title: string, x: Tile, y: Tile)
    requires x.id != y.id && x.categoryId == y.categoryId == c
    ensures Board([Category(c, title, [x, y])])
  {
    assert TileId(x) == x.id && TileId(y) == y.id;
  }

  /** For instance, with two tiles: each in turn is dropped at the end, the requests arrive the other way
      round, and the store is left with the order after the first drop. */
  lemma {:induction false} OvertakenExample(rows: Rows, c: string, title: string, x: Tile, y: Tile)
    requires x.id != y.id && x.categoryId == y.categoryId == c && Represents(rows, [Category(c, title, [x, y])])
    ensures
      var cats := [Category(c, title, [x, y])];
      var first, second := Move(x.id, c, c, None), Move(y.id, c, c, None);
      && BoardAfter(cats, [first, second]) == cats
      && !Represents(HandledAll(rows, Overtaken(cats, first, second)), cats)
  {
    hide Moved, Board, CanDrop, Represents, HandledAll, Requests, Overtaken;
    var cats := [Category(c, title, [x, y])];
    var first, second := Move(x.id, c, c, None), Move(y.id, c, c, None);
    TwoTiles(c, title, x, y);
    TwoTiles(c, title, y, x);
    OvertakenIff(rows, cats, first, second);
    assert [first, second][..1] == [first] && [first][..0] == [];
    assert BoardAfter(cats, []) == cats && BoardAfter(cats, [first]) == Moved(cats, first);
    assert Moved(cats, first)[0].tiles[0] == y && cats[0].tiles[0] == x;
  }
}

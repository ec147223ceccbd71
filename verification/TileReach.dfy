/** Every arrangement of the same tiles over the same categories can be reached by drops. */
module TileReach {
  import opened Sequences
  import opened KeyedLists
  import opened TileBoard
  import opened TileMoves

  datatype Drop = Drop(id: string, from: string, dest: string)

  /** A sequence of drops at the end of a category. */
  function Apply(cats: seq<Category>, drops: seq<Drop>): seq<Category>
    decreases drops
  {
    if drops == [] then cats
    else Apply(DropTileResult(cats, drops[0].id, drops[0].from, drops[0].dest, None), drops[1..])
  }

  function Strip(t: Tile): Tile { t.(categoryId := "") }

  ghost predicate Holds(cats: seq<Category>, t: Tile) {
    exists c, u :: c in cats && u in c.tiles && Strip(u) == Strip(t)
  }

  /** Two boards over the same categories that hold the same tiles. */
  ghost predicate SameTiles(cats: seq<Category>, target: seq<Category>) {
    && |cats| == |target|
    && (forall i :: 0 <= i < |cats| ==> cats[i].(tiles := []) == target[i].(tiles := []))
    && (forall c, t :: c in cats && t in c.tiles ==> Holds(target, t))
    && (forall c, t :: c in target && t in c.tiles ==> Holds(cats, t))
  }

  /** The tiles of category `i` already placed when `c` categories and `j` tiles of the next are done. */
  function Placed(target: seq<Category>, c: nat, j: nat, i: nat): seq<Tile>
    requires i < |target| && (c < |target| ==> j <= |target[c].tiles|)
  {
    if i < c then target[i].tiles else if i == c then target[i].tiles[..j] else []
  }

  ghost predicate InPlaced(target: seq<Category>, c: nat, j: nat, i: nat, id: string)
    requires i < |target| && (c < |target| ==> j <= |target[c].tiles|)
  {
    exists t :: t in Placed(target, c, j, i) && t.id == id
  }

  ghost predicate IsDone(target: seq<Category>, c: nat, j: nat, id: string)
    requires c < |target| ==> j <= |target[c].tiles|
  {
    exists i: nat :: i < |target| && InPlaced(target, c, j, i, id)
  }

  /** Each category is its untouched originals followed by its placed tiles. */
  ghost function Form(cats: seq<Category>, target: seq<Category>, c: nat, j: nat): (r: seq<Category>)
    requires |cats| == |target| && (c < |target| ==> j <= |target[c].tiles|)
    ensures |r| == |cats|
  {
    seq(|cats|, i requires 0 <= i < |cats| =>
      cats[i].(tiles := Filter(cats[i].tiles, (t: Tile) => !IsDone(target, c, j, t.id)) + Placed(target, c, j, i)))
  }

  lemma {:induction false} PlacedStep(target: seq<Category>, c: nat, j: nat, i: nat)
    requires c < |target| && j < |target[c].tiles| && i < |target|
    ensures Placed(target, c, j + 1, i) == Placed(target, c, j, i) + if i == c then [target[c].tiles[j]] else []
  {
  }

  lemma {:induction false} InPlacedStep(target: seq<Category>, c: nat, j: nat, i: nat, id: string)
    requires c < |target| && j < |target[c].tiles| && i < |target|
    ensures InPlaced(target, c, j + 1, i, id) <==> InPlaced(target, c, j, i, id) || (i == c && id == target[c].tiles[j].id)
  {
  }

  lemma {:induction false} DoneStep(target: seq<Category>, c: nat, j: nat, id: string)
    requires c < |target| && j < |target[c].tiles|
    ensures IsDone(target, c, j + 1, id) <==> IsDone(target, c, j, id) || id == target[c].tiles[j].id
  {
    hide InPlaced;
    var k, u := j + 1, target[c].tiles[j];
    forall i: nat | i < |target|
      ensures InPlaced(target, c, k, i, id) <==> InPlaced(target, c, j, i, id) || (i == c && id == u.id)
    {
      InPlacedStep(target, c, j, i, id);
    }
    if id == u.id {
      assert InPlaced(target, c, k, c, id);
    }
    if i: nat :| i < |target| && InPlaced(target, c, j, i, id) {
      assert InPlaced(target, c, k, i, id);
    }
    if i: nat :| i < |target| && InPlaced(target, c, k, i, id) && id != u.id {
      assert InPlaced(target, c, j, i, id);
    }
  }

  lemma {:induction false} BoardUnique(cats: seq<Category>, i: nat, j: nat, t: Tile, u: Tile)
    requires Board(cats) && i < |cats| && j < |cats| && t in cats[i].tiles && u in cats[j].tiles && t.id == u.id
    ensures i == j && t == u
  {
  }

  lemma {:induction false} BoardCategory(cats: seq<Category>, i: nat)
    requires Board(cats) && i < |cats|
    ensures DistinctKeys(cats, CatId) && DistinctKeys(cats[i].tiles, TileId)
    ensures forall t :: t in cats[i].tiles ==> t.categoryId == cats[i].id
  {
  }

  lemma {:induction false} NextNotDone(target: seq<Category>, c: nat, j: nat)
    requires Board(target) && c < |target| && j < |target[c].tiles|
    ensures !IsDone(target, c, j, target[c].tiles[j].id)
  {
  }

  lemma {:induction false} FormAt(cats: seq<Category>, target: seq<Category>, c: nat, j: nat, i: nat)
    requires |cats| == |target| && (c < |target| ==> j <= |target[c].tiles|) && i < |cats|
    ensures Form(cats, target, c, j)[i] ==
            cats[i].(tiles := Filter(cats[i].tiles, (t: Tile) => !IsDone(target, c, j, t.id)) + Placed(target, c, j, i))
  {
  }

  /** Nothing is placed yet. */
  lemma {:induction false} FormStart(cats: seq<Category>, target: seq<Category>)
    requires |cats| == |target|
    ensures Form(cats, target, 0, 0) == cats
  {
    forall i | 0 <= i < |cats| ensures Form(cats, target, 0, 0)[i] == cats[i] {
      FilterAll(cats[i].tiles, (t: Tile) => !IsDone(target, 0, 0, t.id));
    }
  }

  /** Everything is placed. */
  lemma {:induction false} FormEnd(cats: seq<Category>, target: seq<Category>)
    requires SameTiles(cats, target)
    ensures Form(cats, target, |cats|, 0) == target
  {
    var n := |cats|;
    forall i | 0 <= i < n ensures Form(cats, target, n, 0)[i] == target[i] {
      forall t | t in cats[i].tiles ensures IsDone(target, n, 0, t.id) {
        assert cats[i] in cats && Holds(target, t);
        var d, u :| d in target && u in d.tiles && Strip(u) == Strip(t);
        var k: nat :| k < n && target[k] == d;
        assert u in Placed(target, n, 0, k) && u.id == Strip(u).id == Strip(t).id == t.id;
        assert InPlaced(target, n, 0, k, t.id);
      }
      FilterNone(cats[i].tiles, (t: Tile) => !IsDone(target, n, 0, t.id));
      FormAt(cats, target, n, 0, i);
      assert [] + target[i].tiles == target[i].tiles;
      assert cats[i].(tiles := []) == target[i].(tiles := []);
    }
  }

  /** A finished category is the start of the next. */
  lemma {:induction false} FormNext(cats: seq<Category>, target: seq<Category>, c: nat)
    requires |cats| == |target| && c < |target|
    ensures Form(cats, target, c, |target[c].tiles|) == Form(cats, target, c + 1, 0)
    ensures forall id :: IsDone(target, c, |target[c].tiles|, id) <==> IsDone(target, c + 1, 0, id)
  {
    var j := |target[c].tiles|;
    forall id ensures IsDone(target, c, j, id) <==> IsDone(target, c + 1, 0, id) {
      DoneNext(target, c, id);
    }
    hide IsDone;
    forall i | 0 <= i < |cats| ensures Form(cats, target, c, j)[i] == Form(cats, target, c + 1, 0)[i] {
      FormAt(cats, target, c, j, i);
      FormAt(cats, target, c + 1, 0, i);
      FilterSame(cats[i].tiles, (t: Tile) => !IsDone(target, c, j, t.id), (t: Tile) => !IsDone(target, c + 1, 0, t.id));
    }
  }

  lemma {:induction false} DoneNext(target: seq<Category>, c: nat, id: string)
    requires c < |target|
    ensures IsDone(target, c, |target[c].tiles|, id) <==> IsDone(target, c + 1, 0, id)
  {
    var j, d := |target[c].tiles|, c + 1;
    forall i: nat | i < |target| ensures InPlaced(target, c, j, i, id) <==> InPlaced(target, d, 0, i, id) {
      assert Placed(target, c, j, i) == Placed(target, d, 0, i);
    }
    hide InPlaced;
    if i: nat :| i < |target| && InPlaced(target, c, j, i, id) {
      assert InPlaced(target, d, 0, i, id);
    }
    if i: nat :| i < |target| && InPlaced(target, d, 0, i, id) {
      assert InPlaced(target, c, j, i, id);
    }
  }

  lemma {:induction false} Restored(t: Tile, u: Tile)
    requires Strip(t) == Strip(u)
    ensures t.(categoryId := u.categoryId) == u && t.id == u.id
  {
  }

  /** Where the next tile still lies. */
  lemma {:induction false} NextOrigin(cats: seq<Category>, target: seq<Category>, c: nat, j: nat) returns (o: nat,
                                      t: Tile)
    requires Board(target) && SameTiles(cats, target) && c < |target| && j < |target[c].tiles|
    ensures o < |cats| && t in cats[o].tiles && t.(categoryId := cats[c].id) == target[c].tiles[j]
    ensures t in Form(cats, target, c, j)[o].tiles
  {
    hide Form, IsDone, Board, Filter, Holds;
    var u := target[c].tiles[j];
    assert target[c] in target && u in target[c].tiles;
    assert cats[c].(tiles := []) == target[c].(tiles := []);
    o, t := HeldAt(cats, u);
    BoardCategory(target, c);
    Restored(t, u);
    NextNotDone(target, c, j);
    StillThere(cats, target, c, j, o, t);
  }

  lemma {:induction false} HeldAt(cats: seq<Category>, u: Tile) returns (o: nat, t: Tile)
    requires Holds(cats, u)
    ensures o < |cats| && t in cats[o].tiles && Strip(t) == Strip(u)
  {
    var d, t' :| d in cats && t' in d.tiles && Strip(t') == Strip(u);
    o :| 0 <= o < |cats| && cats[o] == d;
    t := t';
  }

  lemma {:induction false} StillThere(cats: seq<Category>, target: seq<Category>, c: nat, j: nat, o: nat, t: Tile)
    requires |cats| == |target| && (c < |target| ==> j <= |target[c].tiles|) && o < |cats|
    requires t in cats[o].tiles && !IsDone(target, c, j, t.id)
    ensures t in Form(cats, target, c, j)[o].tiles
  {
  }

  /** What is left of a category once the next tile has been taken out. */
  lemma {:induction false} FormLeft(cats: seq<Category>, target: seq<Category>, c: nat, j: nat, o: nat, t: Tile, i: nat)
    requires Board(cats) && Board(target) && |cats| == |target| && c < |target| && j < |target[c].tiles|
    requires o < |cats| && i < |cats| && t in cats[o].tiles && t.id == target[c].tiles[j].id
    ensures Left(Form(cats, target, c, j)[i], t.id, cats[o].id) ==
            Filter(cats[i].tiles, (x: Tile) => !IsDone(target, c, j + 1, x.id)) + Placed(target, c, j, i)
  {
    var now, later := (x: Tile) => !IsDone(target, c, j, x.id), (x: Tile) => !IsDone(target, c, j + 1, x.id);
    FormAt(cats, target, c, j, i);
    BoardCategory(cats, i);
    KeyPosition(cats, CatId, i, o);
    NextNotDone(target, c, j);
    forall x ensures IsDone(target, c, j + 1, x) <==> IsDone(target, c, j, x) || x == t.id {
      DoneStep(target, c, j, x);
    }
    forall x | x in Placed(target, c, j, i) ensures x.id != t.id {
      assert InPlaced(target, c, j, i, x.id);
    }
    hide IsDone, Placed, Form, Board, Filter, Without, InPlaced;
    if i == o {
      WithoutSum(cats[i].tiles, Placed(target, c, j, i), TileId, t.id, now, later);
    } else {
      forall x | x in cats[i].tiles ensures x.id != t.id {
        if x.id == t.id {
          BoardUnique(cats, i, o, x, t);
          assert false;
        }
      }
      FilterSame(cats[i].tiles, now, later);
    }
  }

  lemma {:induction false} WithoutSum<T>(s: seq<T>, placed: seq<T>, key: T -> string, id: string, now: T -> bool,
                                         later: T -> bool)
    requires forall x :: x in placed ==> key(x) != id
    requires forall x :: x in s ==> later(x) == (now(x) && key(x) != id)
    ensures Without(Filter(s, now) + placed, key, id) == Filter(s, later) + placed
  {
    hide Filter;
    var keep := (x: T) => key(x) != id;
    FilterAppend(Filter(s, now), placed, keep);
    FilterAll(placed, keep);
    FilterTwice(s, now, keep, later);
  }

  lemma {:induction false} FormIds(cats: seq<Category>, target: seq<Category>, c: nat, j: nat)
    requires |cats| == |target| && (c < |target| ==> j <= |target[c].tiles|)
    ensures forall i :: 0 <= i < |cats| ==> Form(cats, target, c, j)[i].id == cats[i].id
  {
  }

  lemma {:induction false} FormCanDrop(cats: seq<Category>, form: seq<Category>, o: nat, c: nat, t: Tile)
    requires Board(form) && |form| == |cats| && o < |cats| && c < |cats| && t in form[o].tiles
    requires forall i :: 0 <= i < |cats| ==> form[i].id == cats[i].id
    ensures CanDrop(form, t.id, cats[o].id, cats[c].id) && Dragged(form, t.id, cats[o].id) == t
  {
    hide IndexOf, Board;
    var k :| 0 <= k < |form[o].tiles| && form[o].tiles[k] == t;
    BoardCategory(form, o);
    FoundAt(form, CatId, o, cats[o].id);
    FoundAt(form, CatId, c, cats[c].id);
    FoundAt(form[o].tiles, TileId, k, t.id);
  }

  lemma {:induction false} FoundAt<T>(s: seq<T>, key: T -> string, k: nat, id: string)
    requires DistinctKeys(s, key) && k < |s| && key(s[k]) == id
    ensures IndexOf(s, key, id) == k
  {
  }

  lemma {:induction false} FormDropAt(cats: seq<Category>, target: seq<Category>, c: nat, j: nat, o: nat, t: Tile, i: nat)
    requires Board(cats) && Board(target) && |cats| == |target| && c < |target| && j < |target[c].tiles| && o < |cats| && i < |cats|
    requires t in cats[o].tiles && t.(categoryId := cats[c].id) == target[c].tiles[j]
    requires
      var form := Form(cats, target, c, j);
      CanDrop(form, t.id, cats[o].id, cats[c].id) && Dragged(form, t.id, cats[o].id) == t
    ensures DropTileResult(Form(cats, target, c, j), t.id, cats[o].id, cats[c].id, None)[i] == Form(cats, target, c, j + 1)[i]
  {
    hide Form, DropTileResult, AfterDrop, Left, IsDone, Placed, Board, CanDrop, Dragged, InsertBefore, Filter, DistinctKeys;
    var form, u := Form(cats, target, c, j), target[c].tiles[j];
    assert t.id == u.id;
    DropAt(form, t.id, cats[o].id, cats[c].id, None, i);
    FormIds(cats, target, c, j);
    AfterDropTiles(form[i], t, cats[o].id, cats[c].id, None);
    FormLeft(cats, target, c, j, o, t, i);
    BoardCategory(cats, i);
    KeyPosition(cats, CatId, i, c);
    PlacedStep(target, c, j, i);
    FormAt(cats, target, c, j, i);
    FormAt(cats, target, c, j + 1, i);
    var left := Left(form[i], t.id, cats[o].id);
    InsertLast(left, TileId, u);
    var kept := Filter(cats[i].tiles, (x: Tile) => !IsDone(target, c, j + 1, x.id));
    assert left == kept + Placed(target, c, j, i);
    assert left + [u] == kept + (Placed(target, c, j, i) + [u]);
    assert Placed(target, c, j, i) + [] == Placed(target, c, j, i);
  }

  /** Dropping the next tile at the end of its category. */
  lemma {:induction false} FormDrop(cats: seq<Category>, target: seq<Category>, c: nat, j: nat) returns (d: Drop)
    requires Board(cats) && Board(target) && SameTiles(cats, target) && c < |target| && j < |target[c].tiles|
    requires Board(Form(cats, target, c, j))
    ensures d.id == target[c].tiles[j].id
    ensures DropTileResult(Form(cats, target, c, j), d.id, d.from, d.dest, None) == Form(cats, target, c, j + 1)
  {
    hide DropTileResult, Form, CanDrop, Dragged, Board;
    var o, t := NextOrigin(cats, target, c, j);
    var form := Form(cats, target, c, j);
    d := Drop(t.id, cats[o].id, cats[c].id);
    FormIds(cats, target, c, j);
    FormCanDrop(cats, form, o, c, t);
    var r := DropTileResult(form, d.id, d.from, d.dest, None);
    forall i | 0 <= i < |cats| ensures r[i] == Form(cats, target, c, j + 1)[i] {
      FormDropAt(cats, target, c, j, o, t, i);
    }
  }

  /** No tile is moved twice. */
  ghost predicate EachOnce(drops: seq<Drop>) {
    forall k, l :: 0 <= k < l < |drops| ==> drops[k].id != drops[l].id
  }

  lemma {:induction false} ReachFrom(cats: seq<Category>, target: seq<Category>, c: nat,
                                     j: nat) returns (drops: seq<Drop>)
    requires Board(cats) && Board(target) && SameTiles(cats, target) && c <= |target|
    requires if c < |target| then j <= |target[c].tiles| else j == 0
    requires Board(Form(cats, target, c, j))
    ensures Apply(Form(cats, target, c, j), drops) == target && EachOnce(drops)
    ensures forall d :: d in drops ==> !IsDone(target, c, j, d.id)
    decreases |target| - c, if c < |target| then |target[c].tiles| - j else 0
  {
    hide IsDone, DropTileResult, Form, Board, SameTiles;
    if c == |target| {
      FormLength(cats, target);
      FormEnd(cats, target);
      drops := [];
    } else if j == |target[c].tiles| {
      FormLength(cats, target);
      FormNext(cats, target, c);
      drops := ReachFrom(cats, target, c + 1, 0);
    } else {
      FormLength(cats, target);
      var d := FormDrop(cats, target, c, j);
      DropKeepsBoard(Form(cats, target, c, j), d.id, d.from, d.dest, None);
      var rest := ReachFrom(cats, target, c, j + 1);
      drops := [d] + rest;
      NextNotDone(target, c, j);
      forall e | e in rest ensures !IsDone(target, c, j, e.id) && e.id != d.id {
        DoneStep(target, c, j, e.id);
      }
      assert drops[1..] == rest;
    }
  }

  lemma {:induction false} FormLength(cats: seq<Category>, target: seq<Category>)
    requires SameTiles(cats, target)
    ensures |cats| == |target|
  {
  }

  /** Any board can be turned into any other with the same tiles over the same categories by dropping
      each tile at most once, always at the end of a category. */
  lemma {:induction false} AllArrangementsReachable(cats: seq<Category>, target: seq<Category>)
    requires Board(cats) && Board(target) && SameTiles(cats, target)
    ensures exists drops :: Apply(cats, drops) == target && EachOnce(drops)
  {
    FormStart(cats, target);
    var drops := ReachFrom(cats, target, 0, 0);
    assert Apply(cats, drops) == target && EachOnce(drops);
  }
}

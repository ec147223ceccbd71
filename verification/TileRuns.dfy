/** Many drops in a row, each sending its requests without waiting for those before it. */
module TileRuns {
  import opened Sequences
  import opened KeyedLists
  import opened TileBoard
  import opened TileMoves
  import opened TileStore
  import opened TileWorkspace

  datatype Move = Move(id: string, from: string, dest: string, before: Option<string>)

  function Moved(cats: seq<Category>, m: Move): seq<Category> {
    DropTileResult(cats, m.id, m.from, m.dest, m.before)
  }

  /** What the workspace sends for one drop. */
  function Requests(cats: seq<Category>, m: Move): seq<ApiCall> {
    if CanDrop(cats, m.id, m.from, m.dest) then DropCalls(Moved(cats, m), m.from, m.dest) else []
  }

  function BoardAfter(cats: seq<Category>, moves: seq<Move>): seq<Category> {
    if moves == [] then cats else Moved(BoardAfter(cats, moves[..|moves| - 1]), moves[|moves| - 1])
  }

  /** The requests of one drop go out together; either may arrive first. */
  function Either(calls: seq<ApiCall>, swapped: bool): seq<ApiCall> {
    if swapped && |calls| == 2 then [calls[1]] + [calls[0]] else calls
  }

  /** The requests of all drops, those of one drop in either order. */
  function Arrivals(cats: seq<Category>, moves: seq<Move>, swapped: seq<bool>): seq<ApiCall>
    requires |swapped| == |moves|
  {
    if moves == [] then []
    else
      var last := |moves| - 1;
      Arrivals(cats, moves[..last], swapped[..last])
      + Either(Requests(BoardAfter(cats, moves[..last]), moves[last]), swapped[last])
  }

  function Handled(rows: Rows, call: ApiCall): Rows {
    if call.ReorderTiles? then Reordered(rows, call.categoryId, call.tileIds) else rows
  }

  function HandledAll(rows: Rows, calls: seq<ApiCall>): Rows {
    if calls == [] then rows else Handled(HandledAll(rows, calls[..|calls| - 1]), calls[|calls| - 1])
  }

  lemma {:induction false} HandledAppend(rows: Rows, a: seq<ApiCall>, b: seq<ApiCall>)
    ensures HandledAll(rows, a + b) == HandledAll(HandledAll(rows, a), b)
  {
    if b == [] {
      assert a + b == a;
    } else {
      assert (a + b)[..|a + b| - 1] == a + b[..|b| - 1];
      HandledAppend(rows, a, b[..|b| - 1]);
    }
  }

  lemma {:induction false} HandledTwo(rows: Rows, c: string, ids: seq<string>, d: string, other: seq<string>)
    ensures HandledAll(rows, [ReorderTiles(c, ids)]) == Reordered(rows, c, ids)
    ensures HandledAll(rows, [ReorderTiles(c, ids)] + [ReorderTiles(d, other)]) == Reordered(Reordered(rows, c, ids), d, other)
  {
    hide Reordered;
    var one := [ReorderTiles(c, ids)];
    assert one[..0] == [] && HandledAll(rows, []) == rows;
    var two := one + [ReorderTiles(d, other)];
    assert two[..1] == one;
  }

  lemma {:induction false} MovedIndex(cats: seq<Category>, m: Move, c: string)
    ensures CatIndex(Moved(cats, m), c) == CatIndex(cats, c)
  {
    DropKeepsCategories(cats, m.id, m.from, m.dest, m.before, c);
  }

  lemma {:induction false} RequestsAre(cats: seq<Category>, m: Move)
    requires CanDrop(cats, m.id, m.from, m.dest)
    ensures
      var after := Moved(cats, m);
      && |after| == |cats|
      && Requests(cats, m) ==
         [ReorderTiles(m.dest, Ids(after[CatIndex(cats, m.dest)]))] +
         if m.from == m.dest then [] else [ReorderTiles(m.from, Ids(after[CatIndex(cats, m.from)]))]
  {
    MovedIndex(cats, m, m.dest);
    MovedIndex(cats, m, m.from);
    hide DropTileResult, IndexOf, Dragged;
  }

  lemma {:induction false} MoveHandled(rows: Rows, cats: seq<Category>, m: Move, swapped: bool)
    requires Board(cats) && Represents(rows, cats)
    ensures Represents(HandledAll(rows, Either(Requests(cats, m), swapped)), Moved(cats, m))
  {
    if CanDrop(cats, m.id, m.from, m.dest) {
      RequestsAre(cats, m);
      hide Board, Represents, Reordered, IndexOf, HandledAll, DropTileResult, Requests, Ids, CanDrop, Dragged, DropCalls;
      var after := Moved(cats, m);
      var destIds, fromIds := Ids(after[CatIndex(cats, m.dest)]), Ids(after[CatIndex(cats, m.from)]);
      HandledTwo(rows, m.dest, destIds, m.from, fromIds);
      HandledTwo(rows, m.from, fromIds, m.dest, destIds);
      if m.from == m.dest {
        DestinationSuffices(rows, cats, m.id, m.from, m.dest, m.before);
        assert [ReorderTiles(m.dest, destIds)] + [] == [ReorderTiles(m.dest, destIds)];
      } else {
        DropPersists(rows, cats, m.id, m.from, m.dest, m.before);
      }
    } else {
      assert HandledAll(rows, []) == rows;
    }
  }

  /** However many drops the user makes, if their requests arrive drop by drop, those of one drop in
      either order, the store loads exactly the board on screen. */
  lemma {:induction false} RunPersists(rows: Rows, cats: seq<Category>, moves: seq<Move>, swapped: seq<bool>)
    requires Board(cats) && Represents(rows, cats) && |swapped| == |moves|
    ensures Board(BoardAfter(cats, moves))
    ensures Represents(HandledAll(rows, Arrivals(cats, moves, swapped)), BoardAfter(cats, moves))
  {
    hide Board, Represents, Requests, Moved, Either;
    if moves == [] {
      assert HandledAll(rows, []) == rows;
    } else {
      var last := |moves| - 1;
      var earlier, before := Arrivals(cats, moves[..last], swapped[..last]), BoardAfter(cats, moves[..last]);
      RunPersists(rows, cats, moves[..last], swapped[..last]);
      MovedBoard(before, moves[last]);
      MoveHandled(HandledAll(rows, earlier), before, moves[last], swapped[last]);
      HandledAppend(rows, earlier, Either(Requests(before, moves[last]), swapped[last]));
    }
  }

  lemma {:induction false} MovedBoard(cats: seq<Category>, m: Move)
    requires Board(cats)
    ensures Board(Moved(cats, m))
  {
    DropKeepsBoard(cats, m.id, m.from, m.dest, m.before);
  }
}

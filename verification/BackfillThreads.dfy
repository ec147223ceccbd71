/** What one asset version brings into a run, told from the fetched comments and their replies. */
module BackfillThreads {
  import opened Sequences
  import opened Backfill

  /** The comments and replies of a thread, all counted. */
  function Size(comments: seq<Comment>): nat {
    if comments == [] then 0
    else Size(comments[..|comments| - 1]) + 1 + |comments[|comments| - 1].replies|
  }

  /** A fetched comment or one of its replies has this id. */
  ghost predicate Holds(comments: seq<Comment>, id: string) {
    exists c :: c in comments && HoldsOne(c, id)
  }

  ghost predicate HoldsOne(c: Comment, id: string) {
    c.id == id || exists r :: r in c.replies && r.id == id
  }

  /** `e` stands for the comment `c` itself. */
  ghost predicate IsComment(e: Entry, c: Comment) {
    e.c == c && e.parentFrameioId == None
  }

  /** `e` stands for the reply `r` to the comment `c`. */
  ghost predicate IsReply(e: Entry, c: Comment, r: Reply) {
    && e.parentFrameioId == Some(c.id)
    && e.c.id == r.id && e.c.text == r.text && e.c.authorName == r.authorName && e.c.authorAvatar == r.authorAvatar
    && e.c.createdAt == r.createdAt && e.c.timestamp == None && e.c.duration == None && !e.c.completed && e.c.replies == []
  }

  lemma {:induction false} FlattenLast(comments: seq<Comment>)
    requires comments != []
    ensures
      var front, last := comments[..|comments| - 1], comments[|comments| - 1];
      Flatten(comments) == Flatten(front) + [Entry(last, None)] + ReplyEntries(last.replies, last.id)
  {
  }

  /** From position `at` on, `flat` lists the comment `c` and then its replies. */
  ghost predicate ListsAt(flat: seq<Entry>, at: nat, c: Comment) {
    && at + |c.replies| < |flat| && IsComment(flat[at], c)
    && forall j :: 0 <= j < |c.replies| ==> IsReply(flat[at + 1 + j], c, c.replies[j])
  }

  lemma {:induction false} ListsMore(flat: seq<Entry>, more: seq<Entry>, at: nat, c: Comment)
    requires ListsAt(flat, at, c)
    ensures ListsAt(flat + more, at, c)
  {
    hide IsComment, IsReply;
    var all := flat + more;
    forall j | 0 <= j < |c.replies| ensures IsReply(all[at + 1 + j], c, c.replies[j]) {
      assert all[at + 1 + j] == flat[at + 1 + j];
    }
  }

  lemma {:induction false} ListsLast(flat: seq<Entry>, c: Comment)
    ensures ListsAt(flat + [Entry(c, None)] + ReplyEntries(c.replies, c.id), |flat|, c)
  {
    var all := flat + [Entry(c, None)] + ReplyEntries(c.replies, c.id);
    forall j | 0 <= j < |c.replies| ensures IsReply(all[|flat| + 1 + j], c, c.replies[j]) {
      assert all[|flat| + 1 + j] == ReplyEntries(c.replies, c.id)[j];
    }
  }

  /** The entries of a thread, at their places: comment `i` behind everything before it, then its replies. */
  lemma {:induction false} FlattenAt(comments: seq<Comment>, i: nat)
    requires i < |comments|
    ensures |Flatten(comments)| == Size(comments) && ListsAt(Flatten(comments), Size(comments[..i]), comments[i])
  {
    hide Flatten, ListsAt, ReplyEntries;
    var last := |comments| - 1;
    var front, c := comments[..last], comments[last];
    FlattenSize(comments);
    FlattenSize(front);
    FlattenLast(comments);
    if i < last {
      FlattenAt(front, i);
      assert front[..i] == comments[..i];
      ListsMore(Flatten(front), [Entry(c, None)], Size(front[..i]), comments[i]);
      ListsMore(Flatten(front) + [Entry(c, None)], ReplyEntries(c.replies, c.id), Size(front[..i]), comments[i]);
    } else {
      ListsLast(Flatten(front), c);
    }
  }

  lemma {:induction false} FlattenSize(comments: seq<Comment>)
    ensures |Flatten(comments)| == Size(comments)
  {
    if comments == [] {
    } else {
      FlattenSize(comments[..|comments| - 1]);
    }
  }

  /** Every entry is a fetched comment or a reply to one. */
  lemma {:induction false} EntryOf(comments: seq<Comment>, n: nat) returns (i: nat)
    requires n < |Flatten(comments)|
    ensures i < |comments|
    ensures
      var e, c := Flatten(comments)[n], comments[i];
      IsComment(e, c) || exists r :: r in c.replies && IsReply(e, c, r)
  {
    var last := |comments| - 1;
    var front := Flatten(comments[..last]);
    FlattenLast(comments);
    hide Flatten;
    if n < |front| {
      i := EntryOf(comments[..last], n);
    } else {
      i := last;
      if n > |front| {
        var c, j := comments[last], n - |front| - 1;
        assert Flatten(comments)[n] == ReplyEntries(c.replies, c.id)[j];
        assert c.replies[j] in c.replies && IsReply(Flatten(comments)[n], c, c.replies[j]);
      }
    }
  }

  /** The ids that a thread brings are those of its comments and of their replies. */
  lemma {:induction false} FlattenIds(comments: seq<Comment>, id: string)
    ensures (exists e :: e in Flatten(comments) && e.c.id == id) <==> Holds(comments, id)
  {
    hide Flatten, Holds;
    var flat := Flatten(comments);
    if e :| e in flat && e.c.id == id {
      var n :| 0 <= n < |flat| && flat[n] == e;
      EntryHeld(comments, n);
    }
    if Holds(comments, id) {
      HeldEntry(comments, id);
    }
  }

  lemma {:induction false} EntryHeld(comments: seq<Comment>, n: nat)
    requires n < |Flatten(comments)|
    ensures Holds(comments, Flatten(comments)[n].c.id)
  {
    hide Flatten;
    var i := EntryOf(comments, n);
    assert comments[i] in comments && HoldsOne(comments[i], Flatten(comments)[n].c.id);
  }

  lemma {:induction false} HeldEntry(comments: seq<Comment>, id: string)
    requires Holds(comments, id)
    ensures exists e :: e in Flatten(comments) && e.c.id == id
  {
    hide Flatten, Size;
    var c :| c in comments && HoldsOne(c, id);
    var i :| 0 <= i < |comments| && comments[i] == c;
    FlattenAt(comments, i);
    var at, flat := Size(comments[..i]), Flatten(comments);
    if c.id == id {
      assert flat[at] in flat;
    } else {
      var r :| r in c.replies && r.id == id;
      var j :| 0 <= j < |c.replies| && c.replies[j] == r;
      assert flat[at + 1 + j] in flat;
    }
  }
}

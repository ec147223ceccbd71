/** What a backfill run guarantees: existing rows, one row per missing id, parents, totals, a second
    run, and when the dry run predicts the real one. */
module BackfillFacts {
  import opened Sequences
  import opened Backfill

  function IdOf(w: Work): string { w.entry.c.id }

  /** Some entry of the work has this id. */
  ghost predicate Mentions(work: seq<Work>, id: string) {
    exists w :: w in work && IdOf(w) == id
  }

  lemma {:induction false} MentionsGrow(work: seq<Work>, id: string)
    requires work != []
    ensures Mentions(work, id) <==> Mentions(work[..|work| - 1], id) || IdOf(work[|work| - 1]) == id
  {
  }

  // ----- The table -----

  /** A run keeps every existing row and adds exactly the missing ids whose insert does not throw. */
  lemma {:induction false} RowsAfter(t: Table, work: seq<Work>, fails: string -> bool)
    ensures
      var after := HandleAll(t, work, false, fails).0;
      && (forall id :: id in t.rows ==> id in after.rows && after.rows[id] == t.rows[id])
      && (forall id :: id in after.rows <==> id in t.rows || (Mentions(work, id) && !fails(id)))
  {
    if work == [] {
    } else {
      RowsAfter(t, work[..|work| - 1], fails);
      forall id ensures Mentions(work, id) <==> Mentions(work[..|work| - 1], id) || IdOf(work[|work| - 1]) == id {
        MentionsGrow(work, id);
      }
      hide Mentions;
    }
  }

  /** Local ids are fresh and never shared. */
  ghost predicate LocalIds(t: Table) {
    && (forall id :: id in t.rows ==> t.rows[id].commentId < t.nextId)
    && (forall id, other :: id in t.rows && other in t.rows && id != other ==> t.rows[id].commentId != t.rows[other].commentId)
  }

  lemma {:induction false} LocalIdsKept(t: Table, work: seq<Work>, dry: bool, fails: string -> bool)
    requires LocalIds(t)
    ensures LocalIds(HandleAll(t, work, dry, fails).0)
  {
    if work == [] {
    } else {
      LocalIdsKept(t, work[..|work| - 1], dry, fails);
    }
  }

  /** Every reply comes after the entry of its parent. */
  ghost predicate ParentsFirst(work: seq<Work>) {
    forall n :: 0 <= n < |work| && work[n].entry.parentFrameioId.Some? ==> Mentions(work[..n], work[n].entry.parentFrameioId.value)
  }

  /** The row `r` records the work `w`; a reply points at the row its parent has in `table`, if any, and
      is in its thread and share. */
  ghost predicate Records(r: Row, w: Work, table: Table) {
    var e := w.entry;
    && r.projectId == w.target.projectId && r.assetId == w.target.assetId && r.assetVersionId == w.target.assetVersionId
    && r.frameioFileId == w.target.frameioFileId
    && r.body == e.c.text && r.timestampSeconds == e.c.timestamp && r.durationSeconds == e.c.duration
    && r.authorAvatarUrl == e.c.authorAvatar && r.completed == e.c.completed && r.createdAt == e.c.createdAt
    && (r.authorUserId == if e.c.id in w.authors then Some(w.authors[e.c.id]) else None)
    && (r.authorExternalName == if e.c.id in w.authors then None else Some(e.c.authorName))
    && r.updatedAt == e.c.createdAt && r.visibility == None
    && match ParentRow(table, e)
       case Some(p) => r.parentCommentId == Some(p.commentId) && r.threadRootId == p.threadRootId && r.shareId == p.shareId
       case None => r.parentCommentId == None && r.threadRootId == r.commentId && r.shareId == None
  }

  /** Each added row records the first entry with its id, with its parent linked as of the end of the run. */
  lemma {:induction false} AddedRows(t: Table, work: seq<Work>, fails: string -> bool, id: string) returns (n: nat)
    requires ParentsFirst(work) && id !in t.rows && id in HandleAll(t, work, false, fails).0.rows
    ensures n < |work| && IdOf(work[n]) == id && !Mentions(work[..n], id)
    ensures Records(HandleAll(t, work, false, fails).0.rows[id], work[n], HandleAll(t, work, false, fails).0)
  {
    hide Mentions;
    var last := |work| - 1;
    RowsAfter(t, work, fails);
    assert work != [];
    var front, w := work[..last], work[last];
    var before, after := HandleAll(t, front, false, fails).0, HandleAll(t, work, false, fails).0;
    RowsAfter(t, front, fails);
    FrontParents(work);
    if id in before.rows {
      n := AddedRows(t, front, fails, id);
      assert front[..n] == work[..n];
      assert ParentsFirst(front);
      hide HandleAll;
      if work[n].entry.parentFrameioId.Some? {
        SameParent(t, work, fails, n);
      }
    } else {
      n := last;
      assert IdOf(w) == id;
      if w.entry.parentFrameioId.Some? {
        SameParent(t, work, fails, n);
      }
    }
  }

  lemma {:induction false} FrontParents(work: seq<Work>)
    requires ParentsFirst(work) && work != []
    ensures ParentsFirst(work[..|work| - 1])
  {
  }

  /** Whether a parent has a row, and which, is settled before its reply is handled. */
  lemma {:induction false} SameParent(t: Table, work: seq<Work>, fails: string -> bool, n: nat)
    requires ParentsFirst(work) && n < |work| && work[n].entry.parentFrameioId.Some?
    ensures
      var p := work[n].entry.parentFrameioId.value;
      var last := |work| - 1;
      var before, after := HandleAll(t, work[..last], false, fails).0, HandleAll(t, work, false, fails).0;
      && (p in before.rows <==> p in after.rows) && (p in before.rows ==> before.rows[p] == after.rows[p])
  {
    var p := work[n].entry.parentFrameioId.value;
    var last := |work| - 1;
    RowsAfter(t, work[..last], fails);
    RowsAfter(t, work, fails);
    assert Mentions(work[..n], p);
    var w :| w in work[..n] && IdOf(w) == p;
    assert w in work[..last] && w in work;
    hide HandleAll;
    OneStepKeeps(t, work, fails, p);
  }

  lemma {:induction false} OneStepKeeps(t: Table, work: seq<Work>, fails: string -> bool, p: string)
    requires work != []
    ensures
      var before, after := HandleAll(t, work[..|work| - 1], false, fails).0, HandleAll(t, work, false, fails).0;
      p in before.rows ==> p in after.rows && before.rows[p] == after.rows[p]
  {
  }

  // ----- Totals -----

  lemma {:induction false} TotalsAddUp(t: Table, work: seq<Work>, dry: bool, fails: string -> bool)
    ensures
      var tally := HandleAll(t, work, dry, fails).1;
      tally.inserted + tally.skipped + tally.errors == |work|
  {
    if work == [] {
    } else {
      TotalsAddUp(t, work[..|work| - 1], dry, fails);
    }
  }

  /** The entries whose insert is tried and throws. */
  function Refused(t: Table, work: seq<Work>, dry: bool, fails: string -> bool): seq<Work> {
    Filter(work, (w: Work) => !dry && IdOf(w) !in t.rows && fails(IdOf(w)))
  }

  lemma {:induction false} RefusedMore(t: Table, work: seq<Work>, dry: bool, fails: string -> bool)
    requires work != []
    ensures
      var w := work[|work| - 1];
      |Refused(t, work, dry, fails)| == |Refused(t, work[..|work| - 1], dry, fails)|
                                        + if !dry && IdOf(w) !in t.rows && fails(IdOf(w)) then 1 else 0
  {
    FilterLast(work, (w: Work) => !dry && IdOf(w) !in t.rows && fails(IdOf(w)));
  }

  lemma {:induction false} ErrorsAreRefused(t: Table, work: seq<Work>, dry: bool, fails: string -> bool)
    ensures HandleAll(t, work, dry, fails).1.errors == |Refused(t, work, dry, fails)|
    ensures dry ==> HandleAll(t, work, dry, fails).0 == t
  {
    if work == [] {
    } else {
      hide Refused, Mentions;
      var front := work[..|work| - 1];
      ErrorsAreRefused(t, front, dry, fails);
      RefusedMore(t, work, dry, fails);
      if !dry {
        RowsAfter(t, front, fails);
      }
    }
  }

  /** The reported insertions are the rows by which the table grew. */
  lemma {:induction false} InsertedIsGrowth(t: Table, work: seq<Work>, fails: string -> bool)
    ensures
      var (after, tally) := HandleAll(t, work, false, fails);
      |after.rows| == |t.rows| + tally.inserted
  {
    if work == [] {
    } else {
      InsertedIsGrowth(t, work[..|work| - 1], fails);
      var before, w := HandleAll(t, work[..|work| - 1], false, fails).0, work[|work| - 1];
      if IdOf(w) !in before.rows && !fails(IdOf(w)) {
        assert Inserted(before, w.target, w.authors, w.entry).rows.Keys == before.rows.Keys + {IdOf(w)};
        KeyCount(before.rows);
        KeyCount(Inserted(before, w.target, w.authors, w.entry).rows);
      }
    }
  }

  lemma {:induction false} KeyCount<V>(m: map<string, V>)
    ensures |m| == |m.Keys|
  {
  }

  lemma {:induction false} NothingMissing(t: Table, work: seq<Work>, fails: string -> bool)
    requires forall w :: w in work ==> IdOf(w) in t.rows || fails(IdOf(w))
    ensures HandleAll(t, work, false, fails).0 == t && HandleAll(t, work, false, fails).1.inserted == 0
  {
    if work == [] {
    } else {
      NothingMissing(t, work[..|work| - 1], fails);
      assert work[|work| - 1] in work;
    }
  }

  /** Running again inserts exactly the entries whose insert threw and now does not. */
  lemma {:induction false} SecondRunRetries(t: Table, work: seq<Work>, fails: string -> bool, again: string -> bool)
    ensures
      var after := HandleAll(t, work, false, fails).0;
      var (twice, tally) := HandleAll(after, work, false, again);
      && (forall id :: id in after.rows ==> id in twice.rows && twice.rows[id] == after.rows[id])
      && (forall id :: id in twice.rows && id !in after.rows <==> Retried(t, work, fails, again, id))
      && |twice.rows| == |after.rows| + tally.inserted
      && (twice == after <==> forall id :: !Retried(t, work, fails, again, id))
  {
    var after := HandleAll(t, work, false, fails).0;
    RowsAfter(t, work, fails);
    RowsAfter(after, work, again);
    InsertedIsGrowth(after, work, again);
    if forall id :: !Retried(t, work, fails, again, id) {
      forall w | w in work ensures IdOf(w) in after.rows || again(IdOf(w)) {
        assert Mentions(work, IdOf(w)) && !Retried(t, work, fails, again, IdOf(w));
      }
      NothingMissing(after, work, again);
    }
  }

  /** A missing id whose insert threw in the first run and does not in the second. */
  ghost predicate Retried(t: Table, work: seq<Work>, fails: string -> bool, again: string -> bool, id: string) {
    id !in t.rows && Mentions(work, id) && fails(id) && !again(id)
  }

  // ----- The dry run -----

  /** Entry `n` is missing at first, can be inserted, and is not a repetition. */
  ghost predicate Predicted(t: Table, work: seq<Work>, fails: string -> bool, n: nat)
    requires n < |work|
  {
    IdOf(work[n]) !in t.rows ==> !fails(IdOf(work[n])) && !Mentions(work[..n], IdOf(work[n]))
  }

  ghost predicate AllPredicted(t: Table, work: seq<Work>, fails: string -> bool) {
    forall n :: 0 <= n < |work| ==> Predicted(t, work, fails, n)
  }

  /** A dry run writes nothing. It never reports fewer insertions than the real run makes, and as many
      exactly when every missing id occurs once and no insert throws. */
  lemma {:induction false} DryRunPredictsIff(t: Table, work: seq<Work>, fails: string -> bool)
    ensures
      var dry, actual := HandleAll(t, work, true, fails), HandleAll(t, work, false, fails);
      && dry.0 == t && actual.1.inserted <= dry.1.inserted
      && (dry.1.inserted == actual.1.inserted <==> AllPredicted(t, work, fails))
  {
    if work == [] {
      assert HandleAll(t, work, true, fails) == (t, ZERO) == HandleAll(t, work, false, fails);
    } else {
      hide HandleAll, Handle, Predicted, AllPredicted;
      var last := |work| - 1;
      DryRunPredictsIff(t, work[..last], fails);
      DryRunStep(t, work, fails);
      AllPredictedMore(t, work, fails);
    }
  }

  lemma {:induction false} AllPredictedMore(t: Table, work: seq<Work>, fails: string -> bool)
    requires work != []
    ensures AllPredicted(t, work, fails) <==> AllPredicted(t, work[..|work| - 1], fails) && Predicted(t, work, fails, |work| - 1)
  {
    hide Predicted;
    var last := |work| - 1;
    var front := work[..last];
    forall n | 0 <= n < last ensures Predicted(t, work, fails, n) <==> Predicted(t, front, fails, n) {
      PredictedFront(t, work, fails, n);
    }
    if AllPredicted(t, work, fails) {
      assert forall n :: 0 <= n < last ==> Predicted(t, work, fails, n);
    }
  }

  lemma {:induction false} PredictedFront(t: Table, work: seq<Work>, fails: string -> bool, n: nat)
    requires n < |work| - 1
    ensures Predicted(t, work, fails, n) <==> Predicted(t, work[..|work| - 1], fails, n)
  {
    assert work[..n] == work[..|work| - 1][..n];
  }

  /** One more entry counts as much in the dry run as in the real one, if it is predicted, and otherwise
      in the dry run alone. */
  lemma {:induction false} DryRunStep(t: Table, work: seq<Work>, fails: string -> bool)
    requires work != []
    requires HandleAll(t, work[..|work| - 1], true, fails).0 == t
    ensures
      var front := work[..|work| - 1];
      var dry := HandleAll(t, work, true, fails).1.inserted - HandleAll(t, front, true, fails).1.inserted;
      var actual := HandleAll(t, work, false, fails).1.inserted - HandleAll(t, front, false, fails).1.inserted;
      && HandleAll(t, work, true, fails).0 == t
      && actual <= dry && (actual == dry <==> Predicted(t, work, fails, |work| - 1))
  {
    hide HandleAll, Mentions;
    var last := |work| - 1;
    RowsAfter(t, work[..last], fails);
    HandleAllGrows(t, work, last, true, fails);
    HandleAllGrows(t, work, last, false, fails);
    assert work[..last + 1] == work;
  }

  /** Both conditions matter: a comment that is fetched twice, or whose insert throws, is counted by the
      dry run once more than the real run inserts. */
  lemma {:induction false} DryRunOvercounts(t: Table, w: Work, fails: string -> bool)
    requires IdOf(w) !in t.rows
    ensures
      var dry, actual := HandleAll(t, [w, w], true, fails).1, HandleAll(t, [w, w], false, fails).1;
      dry.inserted == 2 && actual.inserted == if fails(IdOf(w)) then 0 else 1
  {
    var twice := [w, w];
    assert twice[..1] == [w] && [w][..0] == [];
    assert HandleAll(t, [], true, fails) == (t, ZERO) == HandleAll(t, [], false, fails);
    assert HandleAll(t, [w], true, fails) == (t, Tally(0, 1, 0, 0));
    assert HandleAll(t, [w], false, fails).1.inserted == if fails(IdOf(w)) then 0 else 1;
  }

  // ----- The whole run -----

  function TargetWork(target: Target, fetch: string -> Fetched, shims: map<string, Authors>): seq<Work> {
    var got := fetch(target.frameioFileId);
    if got.Unreachable? then [] else AssetWork(target, AuthorsOf(shims, target), Flatten(got.comments))
  }

  function AllWork(targets: seq<Target>, fetch: string -> Fetched, shims: map<string, Authors>): seq<Work> {
    if targets == [] then []
    else AllWork(targets[..|targets| - 1], fetch, shims) + TargetWork(targets[|targets| - 1], fetch, shims)
  }

  function Failures(targets: seq<Target>, fetch: string -> Fetched): nat {
    |Filter(targets, (t: Target) => fetch(t.frameioFileId).Unreachable?)|
  }

  lemma {:induction false} HandleAppend(t: Table, a: seq<Work>, b: seq<Work>, dry: bool, fails: string -> bool)
    ensures
      var (mid, one) := HandleAll(t, a, dry, fails);
      var (end, two) := HandleAll(mid, b, dry, fails);
      HandleAll(t, a + b, dry, fails) == (end, Add(one, two))
  {
    hide Handle;
    if b == [] {
      assert a + b == a;
    } else {
      var last := |b| - 1;
      assert (a + b)[..|a + b| - 1] == a + b[..last];
      HandleAppend(t, a, b[..last], dry, fails);
    }
  }

  /** A run and the handling of its work end in the same table with the same counts, except that each
      failed fetch is one more error. */
  ghost predicate Agrees(run: (Table, Tally), work: (Table, Tally), failed: nat) {
    && run.0 == work.0 && run.1.inserted == work.1.inserted && run.1.skipped == work.1.skipped
    && run.1.errors == work.1.errors + failed
  }

  lemma {:induction false} TargetIsWork(t: Table, target: Target, fetch: string -> Fetched,
                                        shims: map<string, Authors>, dry: bool,
                                        fails: string -> bool)
    ensures Agrees(AssetResult(t, target, AuthorsOf(shims, target), fetch(target.frameioFileId), dry, fails),
                   HandleAll(t, TargetWork(target, fetch, shims), dry, fails),
                   if fetch(target.frameioFileId).Unreachable? then 1 else 0)
  {
  }

  lemma {:induction false} FailuresGrow(front: seq<Target>, target: Target, fetch: string -> Fetched)
    ensures Failures(front + [target], fetch) == Failures(front, fetch) + if fetch(target.frameioFileId).Unreachable? then 1 else 0
  {
    var bad := (t: Target) => fetch(t.frameioFileId).Unreachable?;
    FilterAppend(front, [target], bad);
    FilterCons(target, [], bad);
  }

  /** A run over targets is a run over all their comments and replies. */
  lemma {:induction false} RunIsWork(t: Table, targets: seq<Target>, fetch: string -> Fetched,
                                     shims: map<string, Authors>, dry: bool, fails: string -> bool)
    ensures Agrees(RunTargets(t, targets, fetch, shims, dry, fails),
                   HandleAll(t, AllWork(targets, fetch, shims), dry, fails), Failures(targets, fetch))
    decreases targets, 1
  {
    if targets == [] {
      assert Failures([], fetch) == 0;
    } else {
      RunStepIsWork(t, targets, fetch, shims, dry, fails);
    }
  }

  lemma {:induction false} RunStepIsWork(t: Table, targets: seq<Target>, fetch: string -> Fetched,
                                         shims: map<string, Authors>, dry: bool, fails: string -> bool)
    requires targets != []
    ensures Agrees(RunTargets(t, targets, fetch, shims, dry, fails),
                   HandleAll(t, AllWork(targets, fetch, shims), dry, fails), Failures(targets, fetch))
    decreases targets, 0
  {
    var front, target := targets[..|targets| - 1], targets[|targets| - 1];
    SplitLast(targets);
    assert AllWork(targets, fetch, shims) == AllWork(front, fetch, shims) + TargetWork(target, fetch, shims);
    hide *;
    RunIsWork(t, front, fetch, shims, dry, fails);
    FailuresGrow(front, target, fetch);
    RunTargetsGrows(t, front, target, fetch, shims, dry, fails);
    var run, work := RunTargets(t, front, fetch, shims, dry, fails), HandleAll(t, AllWork(front, fetch, shims), dry, fails);
    AgreesTable(run, work, Failures(front, fetch));
    TargetIsWork(run.0, target, fetch, shims, dry, fails);
    HandleAppend(t, AllWork(front, fetch, shims), TargetWork(target, fetch, shims), dry, fails);
    AgreesAdd(run, work, Failures(front, fetch),
              AssetResult(run.0, target, AuthorsOf(shims, target), fetch(target.frameioFileId), dry, fails),
              HandleAll(work.0, TargetWork(target, fetch, shims), dry, fails),
              if fetch(target.frameioFileId).Unreachable? then 1 else 0);
  }

  lemma {:induction false} AgreesTable(run: (Table, Tally), work: (Table, Tally), failed: nat)
    requires Agrees(run, work, failed)
    ensures run.0 == work.0
  {
  }

  lemma {:induction false} AgreesAdd(run: (Table, Tally), work: (Table, Tally), m: nat, one: (Table, Tally),
                                     two: (Table, Tally), n: nat)
    requires Agrees(run, work, m) && Agrees(one, two, n)
    ensures Agrees((one.0, Add(run.1, one.1)), (two.0, Add(work.1, two.1)), m + n)
  {
  }

  /** A second run over the same targets inserts exactly the missing ids whose insert threw in the first
      run and does not now, and it writes nothing if and only if there is none. */
  lemma {:induction false} SecondRun(t: Table, targets: seq<Target>, fetch: string -> Fetched, shims: map<string, Authors>,
                                     fails: string -> bool, again: string -> bool)
    ensures
      var after := RunTargets(t, targets, fetch, shims, false, fails).0;
      var (twice, totals) := RunTargets(after, targets, fetch, shims, false, again);
      var work := AllWork(targets, fetch, shims);
      && (forall id :: id in after.rows ==> id in twice.rows && twice.rows[id] == after.rows[id])
      && (forall id :: id in twice.rows && id !in after.rows <==> Retried(t, work, fails, again, id))
      && |twice.rows| == |after.rows| + totals.inserted
      && (twice == after <==> forall id :: !Retried(t, work, fails, again, id))
  {
    hide RunTargets, HandleAll, AllWork, Retried;
    var after := RunTargets(t, targets, fetch, shims, false, fails).0;
    RunIsWork(t, targets, fetch, shims, false, fails);
    RunIsWork(after, targets, fetch, shims, false, again);
    SecondRunRetries(t, AllWork(targets, fetch, shims), fails, again);
  }

  // ----- Parents come first -----

  lemma {:induction false} FlattenParents(comments: seq<Comment>, n: nat)
    requires n < |Flatten(comments)| && Flatten(comments)[n].parentFrameioId.Some?
    ensures exists m: nat :: m < n && Flatten(comments)[m].c.id == Flatten(comments)[n].parentFrameioId.value
  {
    var last := comments[|comments| - 1];
    var front := Flatten(comments[..|comments| - 1]);
    var flat := Flatten(comments);
    assert flat == front + [Entry(last, None)] + ReplyEntries(last.replies, last.id);
    if n < |front| {
      FlattenParents(comments[..|comments| - 1], n);
      var m: nat :| m < n && front[m].c.id == front[n].parentFrameioId.value;
      assert flat[m] == front[m] && flat[n] == front[n];
    } else {
      assert n > |front|;
      assert flat[n] == ReplyEntries(last.replies, last.id)[n - |front| - 1];
      assert flat[|front|].c.id == last.id;
    }
  }

  lemma {:induction false} TargetParents(target: Target, fetch: string -> Fetched, shims: map<string, Authors>, k: nat)
    requires k < |TargetWork(target, fetch, shims)| && TargetWork(target, fetch, shims)[k].entry.parentFrameioId.Some?
    ensures
      var work := TargetWork(target, fetch, shims);
      exists m: nat :: m < k && IdOf(work[m]) == work[k].entry.parentFrameioId.value
  {
    var work := TargetWork(target, fetch, shims);
    var flat := Flatten(fetch(target.frameioFileId).comments);
    assert work[k].entry == flat[k];
    FlattenParents(fetch(target.frameioFileId).comments, k);
    var m: nat :| m < k && flat[m].c.id == flat[k].parentFrameioId.value;
    assert work[m].entry == flat[m];
  }

  /** The work of a whole run satisfies the order that `AddedRows` relies on. */
  lemma {:induction false} AllWorkParentsFirst(targets: seq<Target>, fetch: string -> Fetched,
                                               shims: map<string, Authors>)
    ensures ParentsFirst(AllWork(targets, fetch, shims))
  {
    if targets == [] {
    } else {
      var last := |targets| - 1;
      var front, work := AllWork(targets[..last], fetch, shims), TargetWork(targets[last], fetch, shims);
      AllWorkParentsFirst(targets[..last], fetch, shims);
      hide AllWork, TargetWork, Mentions;
      var all: seq<Work> := front + work;
      forall n | 0 <= n < |all| && all[n].entry.parentFrameioId.Some?
        ensures Mentions(all[..n], all[n].entry.parentFrameioId.value)
      {
        if n < |front| {
          FrontMentions(front, work, n);
        } else {
          TargetParents(targets[last], fetch, shims, n - |front|);
          BackMentions(front, work, n - |front|);
        }
      }
      JoinedWork(targets, fetch, shims);
    }
  }

  lemma {:induction false} JoinedWork(targets: seq<Target>, fetch: string -> Fetched, shims: map<string, Authors>)
    requires targets != []
    ensures AllWork(targets, fetch, shims) ==
            AllWork(targets[..|targets| - 1], fetch, shims) + TargetWork(targets[|targets| - 1], fetch, shims)
  {
  }

  lemma {:induction false} FrontMentions(front: seq<Work>, work: seq<Work>, n: nat)
    requires ParentsFirst(front) && n < |front| && front[n].entry.parentFrameioId.Some?
    ensures Mentions((front + work)[..n], front[n].entry.parentFrameioId.value)
  {
    hide Mentions;
    assert (front + work)[..n] == front[..n];
  }

  lemma {:induction false} BackMentions(front: seq<Work>, work: seq<Work>, k: nat)
    requires k < |work| && work[k].entry.parentFrameioId.Some?
    requires exists m: nat :: m < k && IdOf(work[m]) == work[k].entry.parentFrameioId.value
    ensures Mentions((front + work)[..|front| + k], work[k].entry.parentFrameioId.value)
  {
    var m: nat :| m < k && IdOf(work[m]) == work[k].entry.parentFrameioId.value;
    assert (front + work)[..|front| + k][|front| + m] == work[m];
    assert work[m] in (front + work)[..|front| + k];
  }
}

/** The run of the backfill script over all its targets: the rows it leaves, where each comes from, and
    what it reports. */
module BackfillRuns {
  import opened Sequences
  import opened Grouping
  import opened Backfill
  import opened BackfillThreads
  import opened BackfillFacts

  // ----- The rows -----

  /** One of the targets is fetched with a comment or a reply of this id. */
  ghost predicate Brings(targets: seq<Target>, fetch: string -> Fetched, id: string) {
    exists t :: t in targets && BringsOne(t, fetch, id)
  }

  ghost predicate BringsOne(t: Target, fetch: string -> Fetched, id: string) {
    var got := fetch(t.frameioFileId);
    got.Comments? && Holds(got.comments, id)
  }

  lemma {:induction false} TargetMentions(target: Target, fetch: string -> Fetched, shims: map<string, Authors>, id: string)
    ensures Mentions(TargetWork(target, fetch, shims), id) <==> BringsOne(target, fetch, id)
  {
    hide Flatten, Holds;
    var got, work := fetch(target.frameioFileId), TargetWork(target, fetch, shims);
    if got.Comments? {
      FlattenIds(got.comments, id);
    }
    if Mentions(work, id) {
      var w :| w in work && IdOf(w) == id;
      assert w.entry in Flatten(got.comments);
    }
    if BringsOne(target, fetch, id) {
      var e :| e in Flatten(got.comments) && e.c.id == id;
      assert Work(target, AuthorsOf(shims, target), e) in work;
    }
  }

  lemma {:induction false} AllWorkMentions(targets: seq<Target>, fetch: string -> Fetched, shims: map<string, Authors>, id: string)
    ensures Mentions(AllWork(targets, fetch, shims), id) <==> Brings(targets, fetch, id)
  {
    hide BringsOne, TargetWork;
    if targets == [] {
      assert AllWork(targets, fetch, shims) == [];
    } else {
      var last := |targets| - 1;
      AllWorkMentions(targets[..last], fetch, shims, id);
      TargetMentions(targets[last], fetch, shims, id);
      SplitLast(targets);
    }
  }

  /** Grouping by project does not change what is fetched. */
  lemma {:induction false} ByProjectBrings(targets: seq<Target>, fetch: string -> Fetched, id: string)
    ensures Brings(ByProject(targets), fetch, id) <==> Brings(targets, fetch, id)
  {
    hide BringsOne, Regrouped, Keys;
    GroupingConserves(targets, ProjectOf);
    assert forall t :: t in ByProject(targets) <==> t in multiset(ByProject(targets));
  }

  /** After a run over any list of targets every old row is as it was, and the ids with a row are the old
      ones and those fetched for some target whose insert did not throw. */
  lemma {:induction false} BackfillRows(t: Table, targets: seq<Target>, fetch: string -> Fetched, shims: map<string, Authors>,
                                        fails: string -> bool)
    ensures
      var after := RunTargets(t, ByProject(targets), fetch, shims, false, fails).0;
      && (forall id :: id in t.rows ==> id in after.rows && after.rows[id] == t.rows[id])
      && (forall id :: id in after.rows <==> id in t.rows || (Brings(targets, fetch, id) && !fails(id)))
  {
    hide RunTargets, HandleAll, AllWork, Mentions, Brings, ByProject;
    var work := AllWork(ByProject(targets), fetch, shims);
    RunIsWork(t, ByProject(targets), fetch, shims, false, fails);
    RowsAfter(t, work, fails);
    forall id ensures Mentions(work, id) <==> Brings(targets, fetch, id) {
      AllWorkMentions(ByProject(targets), fetch, shims, id);
      ByProjectBrings(targets, fetch, id);
    }
  }

  /** Each row that a run adds records the first entry handled with its id. The local id by which a
      reply names its parent belongs to that parent's row alone. */
  lemma {:induction false} BackfillRecords(t: Table, targets: seq<Target>, fetch: string -> Fetched, shims: map<string, Authors>,
                                           fails: string -> bool, id: string) returns (n: nat)
    requires LocalIds(t) && id !in t.rows && id in RunTargets(t, ByProject(targets), fetch, shims, false, fails).0.rows
    ensures
      var after, work := RunTargets(t, ByProject(targets), fetch, shims, false, fails).0, AllWork(ByProject(targets), fetch, shims);
      && n < |work| && IdOf(work[n]) == id && !Mentions(work[..n], id)
      && Records(after.rows[id], work[n], after)
      && forall other :: other in after.rows && Some(after.rows[other].commentId) == after.rows[id].parentCommentId ==>
           work[n].entry.parentFrameioId == Some(other)
  {
    hide RunTargets, HandleAll, AllWork, Mentions, ParentsFirst, ByProject;
    var work := AllWork(ByProject(targets), fetch, shims);
    RunIsWork(t, ByProject(targets), fetch, shims, false, fails);
    AllWorkParentsFirst(ByProject(targets), fetch, shims);
    n := AddedRows(t, work, fails, id);
    LocalIdsKept(t, work, false, fails);
  }

  /** A dry run writes nothing and reports at least the insertions of the real run, as many exactly when
      every missing id is handled once and no insert throws. */
  lemma {:induction false} BackfillDryRunIff(t: Table, targets: seq<Target>, fetch: string -> Fetched,
                                             shims: map<string, Authors>, fails: string -> bool)
    ensures
      var dry := RunTargets(t, ByProject(targets), fetch, shims, true, fails);
      var actual := RunTargets(t, ByProject(targets), fetch, shims, false, fails);
      var work := AllWork(ByProject(targets), fetch, shims);
      && dry.0 == t && actual.1.inserted <= dry.1.inserted
      && (dry.1.inserted == actual.1.inserted <==> AllPredicted(t, work, fails))
  {
    hide RunTargets, HandleAll, AllWork, ByProject, AllPredicted;
    var work := AllWork(ByProject(targets), fetch, shims);
    RunIsWork(t, ByProject(targets), fetch, shims, true, fails);
    RunIsWork(t, ByProject(targets), fetch, shims, false, fails);
    DryRunPredictsIff(t, work, fails);
  }

  // ----- The report of the script -----

  /** The sum over all targets. */
  function Total(targets: seq<Target>, weight: Target -> nat): nat {
    if targets == [] then 0 else Total(targets[..|targets| - 1], weight) + weight(targets[|targets| - 1])
  }

  lemma {:induction false} TotalAppend(a: seq<Target>, b: seq<Target>, weight: Target -> nat)
    ensures Total(a + b, weight) == Total(a, weight) + Total(b, weight)
  {
    if b == [] {
      assert a + b == a;
    } else {
      assert (a + b)[..|a + b| - 1] == a + b[..|b| - 1];
      TotalAppend(a, b[..|b| - 1], weight);
    }
  }

  lemma {:induction false} TotalOne(t: Target, weight: Target -> nat)
    ensures Total([t], weight) == weight(t)
  {
    assert [t][..0] == [];
  }

  /** A sum does not depend on the order. */
  lemma {:induction false} TotalPermuted(a: seq<Target>, b: seq<Target>, weight: Target -> nat)
    requires multiset(a) == multiset(b)
    ensures Total(a, weight) == Total(b, weight)
  {
    if a == [] {
      assert |multiset(b)| == 0;
    } else {
      var last := |a| - 1;
      var x := a[last];
      assert x in multiset(b);
      var i :| 0 <= i < |b| && b[i] == x;
      SamePermutation(a, b, i);
      TotalPermuted(a[..last], b[..i] + b[i + 1..], weight);
      TotalTakenOut(b, i, weight);
    }
  }

  lemma {:induction false} SamePermutation(a: seq<Target>, b: seq<Target>, i: nat)
    requires multiset(a) == multiset(b) && a != [] && i < |b| && b[i] == a[|a| - 1]
    ensures multiset(a[..|a| - 1]) == multiset(b[..i] + b[i + 1..])
  {
    TakenOut(b, i);
    SplitLast(a);
    assert multiset(a[..|a| - 1]) == multiset(a) - multiset([b[i]]) == multiset(b[..i] + b[i + 1..]);
  }

  lemma {:induction false} TakenOut(s: seq<Target>, i: nat)
    requires i < |s|
    ensures multiset(s) == multiset(s[..i] + s[i + 1..]) + multiset([s[i]])
  {
    assert s == s[..i] + [s[i]] + s[i + 1..];
  }

  lemma {:induction false} TotalTakenOut(s: seq<Target>, i: nat, weight: Target -> nat)
    requires i < |s|
    ensures Total(s, weight) == Total(s[..i] + s[i + 1..], weight) + weight(s[i])
  {
    assert s == s[..i] + [s[i]] + s[i + 1..];
    TotalAppend(s[..i] + [s[i]], s[i + 1..], weight);
    TotalAppend(s[..i], [s[i]], weight);
    TotalAppend(s[..i], s[i + 1..], weight);
    TotalOne(s[i], weight);
  }

  function FetchedOf(fetch: string -> Fetched): Target -> nat {
    (t: Target) => var got := fetch(t.frameioFileId); if got.Comments? then |got.comments| else 0
  }

  function SizeOf(got: Fetched): nat {
    if got.Comments? then Size(got.comments) else 0
  }

  function EntriesOf(fetch: string -> Fetched): Target -> nat {
    (t: Target) => SizeOf(fetch(t.frameioFileId))
  }

  function FailedOf(fetch: string -> Fetched): Target -> nat {
    (t: Target) => if fetch(t.frameioFileId).Unreachable? then 1 else 0
  }

  lemma {:induction false} WorkSize(targets: seq<Target>, fetch: string -> Fetched, shims: map<string, Authors>)
    ensures |AllWork(targets, fetch, shims)| == Total(targets, EntriesOf(fetch))
    ensures Failures(targets, fetch) == Total(targets, FailedOf(fetch))
  {
    if targets == [] {
    } else {
      var front, t := targets[..|targets| - 1], targets[|targets| - 1];
      WorkSize(front, fetch, shims);
      SplitLast(targets);
      FailuresGrow(front, t, fetch);
      hide Failures, Flatten, Size;
      if fetch(t.frameioFileId).Comments? {
        FlattenSize(fetch(t.frameioFileId).comments);
      }
    }
  }

  lemma {:induction false} FetchedTotal(t: Table, targets: seq<Target>, fetch: string -> Fetched, shims: map<string, Authors>,
                                        dry: bool, fails: string -> bool)
    ensures RunTargets(t, targets, fetch, shims, dry, fails).1.fetched == Total(targets, FetchedOf(fetch))
  {
    if targets == [] {
    } else {
      hide HandleAll;
      FetchedTotal(t, targets[..|targets| - 1], fetch, shims, dry, fails);
    }
  }

  /** The four totals of a run over any targets: the comments fetched; the rows added, if it is no dry run;
      the failed fetches and the inserts that threw; and all other comments and replies. */
  lemma {:induction false} RunTotals(t: Table, targets: seq<Target>, fetch: string -> Fetched,
                                     shims: map<string, Authors>, dry: bool, fails: string -> bool)
    ensures
      var (after, totals) := RunTargets(t, ByProject(targets), fetch, shims, dry, fails);
      && totals.fetched == Total(targets, FetchedOf(fetch))
      && (!dry ==> |after.rows| == |t.rows| + totals.inserted)
      && totals.errors == Total(targets, FailedOf(fetch)) + |Refused(t, AllWork(ByProject(targets), fetch, shims), dry, fails)|
      && totals.inserted + totals.skipped + totals.errors ==
         Total(targets, EntriesOf(fetch)) + Total(targets, FailedOf(fetch))
  {
    hide RunTargets, AllWork, HandleAll, Total, Failures, Refused, Regrouped, Keys;
    var all := ByProject(targets);
    var work := AllWork(all, fetch, shims);
    RunIsWork(t, all, fetch, shims, dry, fails);
    TotalsAddUp(t, work, dry, fails);
    ErrorsAreRefused(t, work, dry, fails);
    if !dry {
      InsertedIsGrowth(t, work, fails);
    }
    FetchedTotal(t, all, fetch, shims, dry, fails);
    WorkSize(all, fetch, shims);
    GroupingConserves(targets, ProjectOf);
    TotalPermuted(all, targets, FetchedOf(fetch));
    TotalPermuted(all, targets, EntriesOf(fetch));
    TotalPermuted(all, targets, FailedOf(fetch));
  }

  // ----- Where each row comes from -----

  /** The columns that every row takes from its target, and its author if the project knows one. */
  ghost predicate RowOfTarget(r: Row, t: Target, shims: map<string, Authors>, id: string, authorName: string) {
    && r.projectId == t.projectId && r.assetId == t.assetId && r.assetVersionId == t.assetVersionId
    && r.frameioFileId == t.frameioFileId && r.visibility == None
    && if t.projectId in shims && id in shims[t.projectId]
       then r.authorUserId == Some(shims[t.projectId][id]) && r.authorExternalName == None
       else r.authorUserId == None && r.authorExternalName == Some(authorName)
  }

  /** The row of a fetched comment. */
  ghost predicate RowOfComment(r: Row, c: Comment) {
    && r.body == c.text && r.timestampSeconds == c.timestamp && r.durationSeconds == c.duration
    && r.authorAvatarUrl == c.authorAvatar && r.completed == c.completed
    && r.createdAt == c.createdAt && r.updatedAt == c.createdAt
    && r.parentCommentId == None && r.threadRootId == r.commentId && r.shareId == None
  }

  /** The row of a reply to the comment `c`, whose own row, if any, is in `table`. */
  ghost predicate RowOfReply(r: Row, c: Comment, reply: Reply, table: Table) {
    && r.body == reply.text && r.timestampSeconds == None && r.durationSeconds == None
    && r.authorAvatarUrl == reply.authorAvatar && !r.completed
    && r.createdAt == reply.createdAt && r.updatedAt == reply.createdAt
    && if c.id != "" && c.id in table.rows then
         var p := table.rows[c.id];
         r.parentCommentId == Some(p.commentId) && r.threadRootId == p.threadRootId && r.shareId == p.shareId
       else r.parentCommentId == None && r.threadRootId == r.commentId && r.shareId == None
  }

  /** The row `r` with this id records the comment or one of its replies. */
  ghost predicate RowFrom(r: Row, id: string, t: Target, shims: map<string, Authors>, c: Comment, table: Table) {
    || (c.id == id && RowOfTarget(r, t, shims, id, c.authorName) && RowOfComment(r, c))
    || exists reply :: reply in c.replies && reply.id == id && RowOfTarget(r, t, shims, id, reply.authorName)
                       && RowOfReply(r, c, reply, table)
  }

  /** An entry of a whole run belongs to a comment fetched for one of the targets. */
  lemma {:induction false} WorkOf(targets: seq<Target>, fetch: string -> Fetched, shims: map<string, Authors>, n: nat)
    returns (t: Target, c: Comment)
    requires n < |AllWork(targets, fetch, shims)|
    ensures t in targets && fetch(t.frameioFileId).Comments? && c in fetch(t.frameioFileId).comments
    ensures
      var w := AllWork(targets, fetch, shims)[n];
      && w.target == t && w.authors == AuthorsOf(shims, t)
      && (IsComment(w.entry, c) || exists r :: r in c.replies && IsReply(w.entry, c, r))
  {
    hide AllWork, TargetWork, Flatten, IsComment, IsReply;
    WorkHasTarget(targets, fetch, shims);
    var last := |targets| - 1;
    var front := AllWork(targets[..last], fetch, shims);
    JoinedWork(targets, fetch, shims);
    if n < |front| {
      t, c := WorkOf(targets[..last], fetch, shims, n);
    } else {
      t := targets[last];
      c := TargetWorkOf(t, fetch, shims, n - |front|);
    }
  }

  lemma {:induction false} WorkHasTarget(targets: seq<Target>, fetch: string -> Fetched, shims: map<string, Authors>)
    ensures AllWork(targets, fetch, shims) != [] ==> targets != []
  {
  }

  lemma {:induction false} TargetWorkOf(t: Target, fetch: string -> Fetched, shims: map<string, Authors>, n: nat)
    returns (c: Comment)
    requires n < |TargetWork(t, fetch, shims)|
    ensures fetch(t.frameioFileId).Comments? && c in fetch(t.frameioFileId).comments
    ensures
      var w := TargetWork(t, fetch, shims)[n];
      && w.target == t && w.authors == AuthorsOf(shims, t)
      && (IsComment(w.entry, c) || exists r :: r in c.replies && IsReply(w.entry, c, r))
  {
    hide Flatten, IsComment, IsReply, AuthorsOf;
    var comments := fetch(t.frameioFileId).comments;
    var i := EntryOf(comments, n);
    c := comments[i];
  }

  /** Every row that a run adds is the row of a comment, or of a reply, fetched for one of the targets. */
  lemma {:induction false} BackfillSources(t: Table, targets: seq<Target>, fetch: string -> Fetched, shims: map<string, Authors>,
                                           fails: string -> bool, id: string) returns (target: Target, c: Comment)
    requires LocalIds(t) && id !in t.rows && id in RunTargets(t, ByProject(targets), fetch, shims, false, fails).0.rows
    ensures target in targets && fetch(target.frameioFileId).Comments? && c in fetch(target.frameioFileId).comments
    ensures
      var after := RunTargets(t, ByProject(targets), fetch, shims, false, fails).0;
      RowFrom(after.rows[id], id, target, shims, c, after)
  {
    hide RunTargets, AllWork, Regrouped, Keys, Mentions, LocalIds;
    var n := BackfillRecords(t, targets, fetch, shims, fails, id);
    target, c := WorkOf(ByProject(targets), fetch, shims, n);
    GroupingConserves(targets, ProjectOf);
    assert target in multiset(ByProject(targets));
    var w := AllWork(ByProject(targets), fetch, shims)[n];
    RecordsFrom(RunTargets(t, ByProject(targets), fetch, shims, false, fails).0, id, w, target, shims, c);
  }

  lemma {:induction false} RecordsFrom(after: Table, id: string, w: Work, target: Target, shims: map<string, Authors>, c: Comment)
    requires id in after.rows && Records(after.rows[id], w, after) && IdOf(w) == id
    requires w.target == target && w.authors == AuthorsOf(shims, target)
    requires IsComment(w.entry, c) || exists r :: r in c.replies && IsReply(w.entry, c, r)
    ensures RowFrom(after.rows[id], id, target, shims, c, after)
  {
    if !IsComment(w.entry, c) {
      var r :| r in c.replies && IsReply(w.entry, c, r);
      assert RowOfReply(after.rows[id], c, r, after);
    }
  }
}

/** The one-shot backfill of Frame.io comments into the local comment table, and its dry run. */
module Backfill {
  import opened Sequences
  import opened Grouping

  datatype Reply = Reply(id: string, text: string, authorName: string, authorAvatar: Option<string>, createdAt: string)

  datatype Comment = Comment(id: string, text: string, timestamp: Option<real>, duration: Option<real>, authorName: string,
                             authorAvatar: Option<string>, createdAt: string, completed: bool, replies: seq<Reply>)

  datatype Target = Target(projectId: string, assetId: string, assetVersionId: string, frameioFileId: string)

  /** A comment or reply to insert; replies name the Frame.io id of their parent. */
  datatype Entry = Entry(c: Comment, parentFrameioId: Option<string>)

  datatype Row = Row(commentId: nat, projectId: string, assetId: string, assetVersionId: string, parentCommentId: Option<nat>,
                     body: string, timestampSeconds: Option<real>, durationSeconds: Option<real>,
                     authorUserId: Option<string>,
                     authorExternalName: Option<string>, authorAvatarUrl: Option<string>, frameioFileId: string,
                     completed: bool, createdAt: string, updatedAt: string, threadRootId: nat, shareId: Option<string>,
                     visibility: Option<string>)

  /** The rows that carry a Frame.io id, by that id; the table keeps it unique. */
  datatype Table = Table(rows: map<string, Row>, nextId: nat)

  /** Per project: the LPOS user who posted a Frame.io comment, by comment id. */
  type Authors = map<string, string>

  datatype Fetched = Comments(comments: seq<Comment>) | Unreachable

  datatype Tally = Tally(fetched: nat, inserted: nat, skipped: nat, errors: nat)

  const ZERO := Tally(0, 0, 0, 0)

  function Add(a: Tally, b: Tally): Tally {
    Tally(a.fetched + b.fetched, a.inserted + b.inserted, a.skipped + b.skipped, a.errors + b.errors)
  }

  function ReplyAsComment(r: Reply): Comment {
    Comment(r.id, r.text, None, None, r.authorName, r.authorAvatar, r.createdAt, false, [])
  }

  function ReplyEntries(replies: seq<Reply>, parent: string): seq<Entry> {
    Map(replies, (r: Reply) => Entry(ReplyAsComment(r), Some(parent)))
  }

  /** Each comment followed by its replies. */
  function Flatten(comments: seq<Comment>): seq<Entry> {
    if comments == [] then []
    else
      var last := comments[|comments| - 1];
      Flatten(comments[..|comments| - 1]) + [Entry(last, None)] + ReplyEntries(last.replies, last.id)
  }

  function ParentRow(t: Table, e: Entry): Option<Row> {
    if e.parentFrameioId.Some? && e.parentFrameioId.value != "" && e.parentFrameioId.value in t.rows
    then Some(t.rows[e.parentFrameioId.value]) else None
  }

  /** A reply joins its parent's thread and share; anything else starts a thread of its own. */
  function NewRow(t: Table, target: Target, authors: Authors, e: Entry): Row {
    var author := if e.c.id in authors then Some(authors[e.c.id]) else None;
    var parent := ParentRow(t, e);
    Row(t.nextId, target.projectId, target.assetId, target.assetVersionId,
        if parent.Some? then Some(parent.value.commentId) else None, e.c.text, e.c.timestamp, e.c.duration,
        author, if author.Some? then None else Some(e.c.authorName), e.c.authorAvatar, target.frameioFileId,
        e.c.completed, e.c.createdAt, e.c.createdAt, if parent.Some? then parent.value.threadRootId else t.nextId,
        if parent.Some? then parent.value.shareId else None, None)
  }

  function Inserted(t: Table, target: Target, authors: Authors, e: Entry): Table {
    Table(t.rows[e.c.id := NewRow(t, target, authors, e)], t.nextId + 1)
  }

  /** Handling one entry: `fails` tells which inserts throw. */
  function Handle(t: Table, target: Target, authors: Authors, e: Entry, dry: bool, fails: string -> bool): (Table,
                  Tally) {
    if e.c.id in t.rows then (t, Tally(0, 0, 1, 0))
    else if dry then (t, Tally(0, 1, 0, 0))
    else if fails(e.c.id) then (t, Tally(0, 0, 0, 1))
    else (Inserted(t, target, authors, e), Tally(0, 1, 0, 0))
  }

  /** One unit of the whole run: an entry of a target. */
  datatype Work = Work(target: Target, authors: Authors, entry: Entry)

  function HandleAll(t: Table, work: seq<Work>, dry: bool, fails: string -> bool): (Table, Tally) {
    if work == [] then (t, ZERO)
    else
      var last := work[|work| - 1];
      var (before, tally) := HandleAll(t, work[..|work| - 1], dry, fails);
      var (after, one) := Handle(before, last.target, last.authors, last.entry, dry, fails);
      (after, Add(tally, one))
  }

  function AssetWork(target: Target, authors: Authors, entries: seq<Entry>): seq<Work> {
    Map(entries, (e: Entry) => Work(target, authors, e))
  }

  class MediaCommentStore {
    var rows: map<string, Row>
    var nextId: nat

    function State(): Table reads this { Table(rows, nextId) }

    /** The insert keeps an existing row; otherwise it adds one under a fresh local id. */
    method InsertMediaComment(target: Target, authors: Authors, e: Entry)
      modifies this
      ensures State() == if e.c.id in old(rows) then old(State()) else Inserted(old(State()), target, authors, e)
    {
      if e.c.id in rows { return; }
      var row := NewRow(State(), target, authors, e);
      rows := rows[e.c.id := row];
      nextId := nextId + 1;
    }
  }

  method FlattenThread(comments: seq<Comment>) returns (flat: seq<Entry>)
    ensures flat == Flatten(comments)
  {
    flat := [];
    for n := 0 to |comments|
      invariant flat == Flatten(comments[..n])
    {
      var c := comments[n];
      assert comments[..n + 1][..n] == comments[..n];
      flat := flat + [Entry(c, None)];
      ghost var base := flat;
      for k := 0 to |c.replies|
        invariant flat == base + ReplyEntries(c.replies[..k], c.id)
      {
        flat := flat + [Entry(ReplyAsComment(c.replies[k]), Some(c.id))];
        assert ReplyEntries(c.replies[..k + 1], c.id) ==
               ReplyEntries(c.replies[..k], c.id) + [Entry(ReplyAsComment(c.replies[k]), Some(c.id))];
      }
      assert c.replies[..|c.replies|] == c.replies;
    }
    assert comments[..|comments|] == comments;
  }

  /** What one asset contributes: a failed fetch counts one error and touches nothing. */
  function AssetResult(t: Table, target: Target, authors: Authors, got: Fetched, dry: bool,
                       fails: string -> bool): (Table, Tally) {
    if got.Unreachable? then (t, Tally(0, 0, 0, 1))
    else
      var (after, tally) := HandleAll(t, AssetWork(target, authors, Flatten(got.comments)), dry, fails);
      (after, tally.(fetched := |got.comments|))
  }

  lemma {:induction false} HandleAllGrows(t: Table, work: seq<Work>, n: nat, dry: bool, fails: string -> bool)
    requires n < |work|
    ensures
      var (before, tally) := HandleAll(t, work[..n], dry, fails);
      var (after, one) := Handle(before, work[n].target, work[n].authors, work[n].entry, dry, fails);
      HandleAll(t, work[..n + 1], dry, fails) == (after, Add(tally, one))
  {
    assert work[..n + 1][..n] == work[..n];
  }

  /** One entry: skip what is already there, count only in a dry run, otherwise insert. */
  method BackfillEntry(store: MediaCommentStore, target: Target, authors: Authors, e: Entry, dry: bool,
                       fails: string -> bool)
    returns (one: Tally)
    modifies store
    ensures (store.State(), one) == Handle(old(store.State()), target, authors, e, dry, fails)
  {
    if e.c.id in store.rows {
      return Tally(0, 0, 1, 0);
    }
    if dry {
      return Tally(0, 1, 0, 0);
    }
    if fails(e.c.id) {
      return Tally(0, 0, 0, 1);
    }
    store.InsertMediaComment(target, authors, e);
    one := Tally(0, 1, 0, 0);
  }

  method BackfillOneAsset(store: MediaCommentStore, target: Target, authors: Authors, got: Fetched, dry: bool,
                          fails: string -> bool)
    returns (r: Tally)
    modifies store
    ensures (store.State(), r) == AssetResult(old(store.State()), target, authors, got, dry, fails)
  {
    if got.Unreachable? {
      return Tally(0, 0, 0, 1);
    }
    var flat := FlattenThread(got.comments);
    ghost var work := AssetWork(target, authors, flat);
    r := ZERO;
    assert work[..0] == [];
    for n := 0 to |flat|
      invariant (store.State(), r) == HandleAll(old(store.State()), work[..n], dry, fails)
    {
      HandleAllGrows(old(store.State()), work, n, dry, fails);
      assert work[n] == Work(target, authors, flat[n]);
      hide HandleAll, Handle;
      var one := BackfillEntry(store, target, authors, flat[n], dry, fails);
      r := Add(r, one);
    }
    assert work[..|flat|] == work;
    r := r.(fetched := |got.comments|);
  }

  // ----- The whole run -----

  function ProjectOf(t: Target): string { t.projectId }

  function AuthorsOf(shims: map<string, Authors>, target: Target): Authors {
    if target.projectId in shims then shims[target.projectId] else map[]
  }

  function RunTargets(t: Table, targets: seq<Target>, fetch: string -> Fetched, shims: map<string, Authors>, dry: bool,
                      fails: string -> bool): (Table, Tally) {
    if targets == [] then (t, ZERO)
    else
      var last := targets[|targets| - 1];
      var (before, tally) := RunTargets(t, targets[..|targets| - 1], fetch, shims, dry, fails);
      var (after, one) := AssetResult(before, last, AuthorsOf(shims, last), fetch(last.frameioFileId), dry, fails);
      (after, Add(tally, one))
  }

  lemma {:induction false} RunTargetsGrows(t: Table, done: seq<Target>, target: Target, fetch: string -> Fetched,
                                           shims: map<string, Authors>, dry: bool, fails: string -> bool)
    ensures
      var (before, tally) := RunTargets(t, done, fetch, shims, dry, fails);
      var (after, one) := AssetResult(before, target, AuthorsOf(shims, target), fetch(target.frameioFileId), dry, fails);
      RunTargets(t, done + [target], fetch, shims, dry, fails) == (after, Add(tally, one))
  {
  }

  /** The versions of one project, with its author list loaded once. */
  method BackfillProject(store: MediaCommentStore, ghost start: Table, ghost done: seq<Target>, totals: Tally,
                         projectTargets: seq<Target>,
                         fetch: string -> Fetched, projectId: string, shims: map<string, Authors>, dry: bool, fails: string -> bool)
    returns (r: Tally, processed: nat)
    requires (store.State(), totals) == RunTargets(start, done, fetch, shims, dry, fails)
    requires forall t :: t in projectTargets ==> t.projectId == projectId
    modifies store
    ensures (store.State(), r) == RunTargets(start, done + projectTargets, fetch, shims, dry, fails)
    ensures processed == |projectTargets|
  {
    hide RunTargets, AssetResult;
    var authors := if projectId in shims then shims[projectId] else map[];
    r, processed := totals, 0;
    assert done + projectTargets[..0] == done;
    for k := 0 to |projectTargets|
      invariant processed == k
      invariant (store.State(), r) == RunTargets(start, done + projectTargets[..k], fetch, shims, dry, fails)
    {
      var target := projectTargets[k];
      RunTargetsGrows(start, done + projectTargets[..k], target, fetch, shims, dry, fails);
      assert done + projectTargets[..k + 1] == done + projectTargets[..k] + [target];
      var result := BackfillOneAsset(store, target, authors, fetch(target.frameioFileId), dry, fails);
      r := Add(r, result);
      processed := processed + 1;
    }
    assert projectTargets[..|projectTargets|] == projectTargets;
  }

  /** The targets in the order in which a run takes them. */
  function ByProject(targets: seq<Target>): seq<Target> {
    Regrouped(Keys(targets, ProjectOf), targets, ProjectOf)
  }

  /** Targets are grouped by project, so that each project's author list is loaded once; the totals
      are those of the regrouped list. */
  method RunBackfill(store: MediaCommentStore, targets: seq<Target>, fetch: string -> Fetched,
                     shims: map<string, Authors>, dry: bool,
               fails: string -> bool)
    returns (totals: Tally, assetsProcessed: nat)
    modifies store
    ensures (store.State(), totals) == RunTargets(old(store.State()), ByProject(targets), fetch, shims, dry, fails)
    ensures assetsProcessed == |targets|
  {
    var byProject, order := GroupTargets(targets);
    totals, assetsProcessed := ZERO, 0;
    ghost var start := store.State();
    for n := 0 to |order|
      invariant assetsProcessed == |Regrouped(order[..n], targets, ProjectOf)|
      invariant (store.State(), totals) == RunTargets(start, Regrouped(order[..n], targets, ProjectOf), fetch, shims, dry, fails)
    {
      var projectId := order[n];
      assert order[..n + 1][..n] == order[..n];
      assert Regrouped(order[..n + 1], targets, ProjectOf) ==
             Regrouped(order[..n], targets, ProjectOf) + Members(targets, ProjectOf, projectId);
      assert forall t :: t in Members(targets, ProjectOf, projectId) ==> ProjectOf(t) == projectId;
      hide RunTargets, Regrouped, Keys, Members;
      var processed;
      totals, processed := BackfillProject(store, start, Regrouped(order[..n], targets, ProjectOf), totals, byProject[projectId],
                                           fetch, projectId, shims, dry, fails);
      assetsProcessed := assetsProcessed + processed;
    }
    assert order[..|order|] == order;
    GroupingConserves(targets, ProjectOf);
    assert |multiset(Regrouped(order, targets, ProjectOf))| == |multiset(targets)|;
  }

  ghost predicate AreGroups(byProject: map<string, seq<Target>>, targets: seq<Target>) {
    && (forall id :: id in byProject <==> id in Keys(targets, ProjectOf))
    && (forall id :: id in byProject ==> byProject[id] == Members(targets, ProjectOf, id))
  }

  lemma {:induction false} GroupsGrow(byProject: map<string, seq<Target>>, past: seq<Target>, t: Target)
    requires AreGroups(byProject, past)
    ensures
      var arr := if t.projectId in byProject then byProject[t.projectId] else [];
      AreGroups(byProject[t.projectId := arr + [t]], past + [t])
  {
    hide Members, Keys;
    KeysGrow(past, ProjectOf, t);
    if t.projectId !in byProject {
      NoMembers(past, ProjectOf, t.projectId);
    }
    forall id ensures Members(past + [t], ProjectOf, id) ==
                      if t.projectId == id then Members(past, ProjectOf, id) + [t] else Members(past, ProjectOf, id) {
      MembersGrow(past, ProjectOf, t, id);
    }
  }

  method GroupTargets(targets: seq<Target>) returns (byProject: map<string, seq<Target>>, order: seq<string>)
    ensures order == Keys(targets, ProjectOf) && AreGroups(byProject, targets)
  {
    byProject, order := map[], [];
    for n := 0 to |targets|
      invariant order == Keys(targets[..n], ProjectOf) && AreGroups(byProject, targets[..n])
    {
      var t := targets[n];
      assert targets[..n + 1] == targets[..n] + [t];
      KeysGrow(targets[..n], ProjectOf, t);
      GroupsGrow(byProject, targets[..n], t);
      hide Keys, Members;
      var arr := if t.projectId in byProject then byProject[t.projectId] else [];
      if t.projectId !in byProject {
        order := order + [t.projectId];
      }
      byProject := byProject[t.projectId := arr + [t]];
    }
    assert targets[..|targets|] == targets;
  }
}

/** The bounded notification list and the observers that turn queue snapshots into notifications. */
module Notifications {
  import opened Sequences

  const MAX_NOTIFICATIONS := 50

  datatype Note = Note(id: string, tone: string, body: string, timestamp: int)

  datatype Event = Pushed(note: Note) | Dismissed(id: string)

  function Others(list: seq<Note>, id: string): (r: seq<Note>)
    ensures |r| <= |list|
  {
    Filter(list, (n: Note) => n.id != id)
  }

  function Cut(list: seq<Note>): seq<Note> {
    if |list| <= MAX_NOTIFICATIONS then list else list[..MAX_NOTIFICATIONS]
  }

  function Step(list: seq<Note>, e: Event): seq<Note> {
    match e
    case Pushed(note) => Cut([note] + Others(list, note.id))
    case Dismissed(id) => Others(list, id)
  }

  /** The same list without a bound: the latest push first, an id moves to the front when pushed again. */
  function IdealStep(list: seq<Note>, e: Event): seq<Note> {
    match e
    case Pushed(note) => [note] + Others(list, note.id)
    case Dismissed(id) => Others(list, id)
  }

  function Run(events: seq<Event>): seq<Note> {
    if events == [] then [] else Step(Run(events[..|events| - 1]), events[|events| - 1])
  }

  function Ideal(events: seq<Event>): seq<Note> {
    if events == [] then [] else IdealStep(Ideal(events[..|events| - 1]), events[|events| - 1])
  }

  datatype ToastInput = ToastInput(id: Option<string>, tone: string, body: string)

  class ToastProvider {
    var notifications: seq<Note>
    var sequence: nat

    /** `fresh` renders the running number into an id for inputs that bring none. */
    method Toast(input: ToastInput, freshId: nat -> string, now: int) returns (id: string)
      modifies this
      ensures id == if input.id.Some? then input.id.value else freshId(old(sequence))
      ensures notifications == Step(old(notifications), Pushed(Note(id, input.tone, input.body, now)))
      ensures sequence == old(sequence) + if input.id.Some? then 0 else 1
    {
      if input.id.Some? {
        id := input.id.value;
      } else {
        id := freshId(sequence);
        sequence := sequence + 1;
      }
      var record := Note(id, input.tone, input.body, now);
      var filtered := Others(notifications, id);
      notifications := Cut([record] + filtered);
    }

    method DismissToast(id: string)
      modifies this
      ensures notifications == Step(old(notifications), Dismissed(id)) && sequence == old(sequence)
    {
      notifications := Others(notifications, id);
    }
  }

  ghost predicate DistinctIds(list: seq<Note>) {
    forall i, j :: 0 <= i < j < |list| ==> list[i].id != list[j].id
  }

  lemma {:induction false} OthersDistinct(list: seq<Note>, id: string)
    requires DistinctIds(list)
    ensures DistinctIds(Others(list, id)) && forall n :: n in Others(list, id) ==> n.id != id
  {
    if list == [] {
    } else {
      OthersDistinct(list[1..], id);
      assert forall n :: n in list[1..] ==> n.id != list[0].id;
    }
  }

  /** Dropping an id from a prefix gives a prefix. */
  lemma {:induction false} OthersPrefix(list: seq<Note>, k: nat, id: string)
    requires k <= |list|
    ensures Others(list[..k], id) <= Others(list, id)
  {
    assert list == list[..k] + list[k..];
    var other := (n: Note) => n.id != id;
    FilterAppend(list[..k], list[k..], other);
    hide Filter;
    assert Others(list, id) == Filter(list, other) && Others(list[..k], id) == Filter(list[..k], other);
  }

  lemma {:induction false} StepPrefix(list: seq<Note>, ideal: seq<Note>, e: Event)
    requires list <= ideal && |list| <= MAX_NOTIFICATIONS && DistinctIds(ideal)
    ensures Step(list, e) <= IdealStep(ideal, e) && |Step(list, e)| <= MAX_NOTIFICATIONS
    ensures DistinctIds(IdealStep(ideal, e))
    ensures list == ideal && |IdealStep(ideal, e)| <= MAX_NOTIFICATIONS ==> Step(list, e) == IdealStep(ideal, e)
  {
    hide Others, DistinctIds;
    var id := if e.Pushed? then e.note.id else e.id;
    OthersDistinct(ideal, id);
    OthersPrefix(ideal, |list|, id);
    assert ideal[..|list|] == list;
    if e.Pushed? {
      PushDistinct(e.note, Others(ideal, id));
      CutPrefix(e.note, Others(list, id), Others(ideal, id));
    }
  }

  lemma {:induction false} PushDistinct(note: Note, others: seq<Note>)
    requires DistinctIds(others) && forall n :: n in others ==> n.id != note.id
    ensures DistinctIds([note] + others)
  {
  }

  lemma {:induction false} CutPrefix(note: Note, left: seq<Note>, others: seq<Note>)
    requires left <= others
    ensures Cut([note] + left) <= [note] + others && |Cut([note] + left)| <= MAX_NOTIFICATIONS
    ensures left == others && |[note] + others| <= MAX_NOTIFICATIONS ==> Cut([note] + left) == [note] + others
  {
    assert [note] + left <= [note] + others;
  }

  /** The unbounded list never exceeded the bound. */
  predicate NeverOver(events: seq<Event>) {
    |Ideal(events)| <= 50 && (events != [] ==> NeverOver(events[..|events| - 1]))
  }

  /** After any run the list is a prefix of the unbounded one, with distinct ids and at most 50 long;
      it is the whole of it as long as that never exceeded 50. */
  lemma {:induction false} BoundedIsPrefix(events: seq<Event>)
    ensures Run(events) <= Ideal(events) && |Run(events)| <= 50
    ensures DistinctIds(Run(events)) && DistinctIds(Ideal(events))
    ensures NeverOver(events) ==> Run(events) == Ideal(events)
  {
    if events == [] {
    } else {
      var front, e := events[..|events| - 1], events[|events| - 1];
      BoundedIsPrefix(front);
      StepPrefix(Run(front), Ideal(front), e);
      hide Step, IdealStep;
    }
  }

  /** With pushes alone it is exactly the first 50 of the unbounded list. */
  lemma {:induction false} PushesKeepTheLatest(events: seq<Event>)
    requires forall e :: e in events ==> e.Pushed?
    ensures Run(events) == if |Ideal(events)| <= 50 then Ideal(events) else Ideal(events)[..50]
  {
    if events == [] {
    } else {
      var front, e := events[..|events| - 1], events[|events| - 1];
      PushesKeepTheLatest(front);
      BoundedIsPrefix(front);
      CutPush(Ideal(front), e.note);
    }
  }

  lemma {:induction false} CutPush(ideal: seq<Note>, note: Note)
    requires DistinctIds(ideal)
    ensures Cut([note] + Others(Cut(ideal), note.id)) == Cut([note] + Others(ideal, note.id))
  {
    if |ideal| > MAX_NOTIFICATIONS {
      OthersPrefix(ideal, MAX_NOTIFICATIONS, note.id);
      AlmostAllKept(ideal[..MAX_NOTIFICATIONS], note.id);
      hide Others;
    }
  }

  lemma {:induction false} AlmostAllKept(list: seq<Note>, id: string)
    requires DistinctIds(list)
    ensures |Others(list, id)| >= |list| - 1
  {
    if list == [] {
    } else {
      if list[0].id == id {
        FilterAll(list[1..], (n: Note) => n.id != id);
      } else {
        AlmostAllKept(list[1..], id);
      }
    }
  }

  // ----- The unbounded list, told from the events -----

  predicate About(e: Event, id: string) {
    match e
    case Pushed(note) => note.id == id
    case Dismissed(other) => other == id
  }

  /** The event at `k` pushed a note, and nothing has happened to its id since. */
  ghost predicate Live(events: seq<Event>, k: nat) {
    k < |events| && events[k].Pushed? && forall j :: k < j < |events| ==> !About(events[j], events[k].note.id)
  }

  /** `at` lists the live pushes, latest first. */
  ghost predicate LiveFirst(events: seq<Event>, at: seq<nat>) {
    && (forall i, j :: 0 <= i < j < |at| ==> at[i] > at[j])
    && (forall k: nat :: k in at <==> Live(events, k))
  }

  ghost predicate NotesAt(list: seq<Note>, events: seq<Event>, at: seq<nat>) {
    && |list| == |at|
    && forall i :: 0 <= i < |at| ==> at[i] < |events| && events[at[i]] == Pushed(list[i])
  }

  lemma {:induction false} LiveMore(events: seq<Event>, e: Event, k: nat)
    ensures Live(events + [e], k) <==>
            (k == |events| && e.Pushed?) || (Live(events, k) && !About(e, events[k].note.id))
  {
    var all := events + [e];
    assert k < |events| ==> all[k] == events[k];
    if Live(events, k) && !About(e, events[k].note.id) {
      forall j | k < j < |all| ensures !About(all[j], all[k].note.id) {
        assert j < |events| ==> all[j] == events[j];
      }
    }
    if Live(all, k) && k < |events| {
      assert all[|events|] == e;
      forall j | k < j < |events| ensures !About(events[j], events[k].note.id) {
        assert all[j] == events[j];
      }
    }
  }

  ghost predicate LatestFirst(at: seq<nat>) {
    forall i, j :: 0 <= i < j < |at| ==> at[i] > at[j]
  }

  /** `left` are the positions of `at` whose note has another id. */
  ghost predicate LeftOf(left: seq<nat>, at: seq<nat>, events: seq<Event>, id: string) {
    forall k: nat :: k in left <==> k in at && k < |events| && events[k].Pushed? && events[k].note.id != id
  }

  lemma {:induction false} OthersHead(list: seq<Note>, id: string)
    requires list != []
    ensures Others(list, id) == (if list[0].id != id then [list[0]] else []) + Others(list[1..], id)
  {
  }

  lemma {:induction false} LatestMore(at: seq<nat>, rest: seq<nat>)
    requires at != [] && LatestFirst(at) && LatestFirst(rest) && forall k :: k in rest ==> k in at[1..]
    ensures LatestFirst([at[0]] + rest)
  {
    var all := [at[0]] + rest;
    forall i, j | 0 <= i < j < |all| ensures all[i] > all[j] {
      assert all[j] in at[1..];
      var k :| 0 <= k < |at[1..]| && at[1..][k] == all[j];
      assert at[k + 1] == all[j] && at[0] > at[k + 1];
    }
  }

  lemma {:induction false} LeftOfMore(at: seq<nat>, events: seq<Event>, id: string, rest: seq<nat>)
    requires at != [] && at[0] < |events| && events[at[0]].Pushed? && LeftOf(rest, at[1..], events, id)
    ensures LeftOf(if events[at[0]].note.id != id then [at[0]] + rest else rest, at, events, id)
  {
    assert at == [at[0]] + at[1..];
    var left := if events[at[0]].note.id != id then [at[0]] + rest else rest;
    forall k: nat ensures k in left <==> k in at && k < |events| && events[k].Pushed? && events[k].note.id != id {
      assert k in at <==> k == at[0] || k in at[1..];
      assert k in rest <==> k in at[1..] && k < |events| && events[k].Pushed? && events[k].note.id != id;
    }
  }

  lemma {:induction false} LeftMore(list: seq<Note>, events: seq<Event>, at: seq<nat>, id: string, rest: seq<nat>)
    requires list != [] && NotesAt(list, events, at) && LatestFirst(at)
    requires LatestFirst(rest) && LeftOf(rest, at[1..], events, id) && NotesAt(Others(list[1..], id), events, rest)
    ensures
      var left := if list[0].id != id then [at[0]] + rest else rest;
      LatestFirst(left) && LeftOf(left, at, events, id) && NotesAt(Others(list, id), events, left)
  {
    hide Others, LatestFirst, LeftOf, NotesAt;
    OthersHead(list, id);
    HeadAt(list, events, at);
    LeftAre(rest, at[1..], events, id);
    LatestMore(at, rest);
    LeftOfMore(at, events, id, rest);
    var others := Others(list[1..], id);
    NotesMore(others, events, rest, list[0], at[0]);
    assert [] + others == others;
  }

  lemma {:induction false} HeadAt(list: seq<Note>, events: seq<Event>, at: seq<nat>)
    requires list != [] && NotesAt(list, events, at)
    ensures at != [] && at[0] < |events| && events[at[0]] == Pushed(list[0])
  {
  }

  lemma {:induction false} LeftAre(left: seq<nat>, at: seq<nat>, events: seq<Event>, id: string)
    requires LeftOf(left, at, events, id)
    ensures forall k :: k in left ==> k in at
  {
  }

  lemma {:induction false} NotesMore(list: seq<Note>, events: seq<Event>, at: seq<nat>, note: Note, k: nat)
    requires NotesAt(list, events, at) && k < |events| && events[k] == Pushed(note)
    ensures NotesAt([note] + list, events, [k] + at)
  {
  }

  lemma {:induction false} RestAt(list: seq<Note>, events: seq<Event>, at: seq<nat>)
    requires list != [] && NotesAt(list, events, at) && LatestFirst(at)
    ensures NotesAt(list[1..], events, at[1..]) && LatestFirst(at[1..])
  {
  }

  /** The notes that are left when all with one id are taken out, by their positions in the run. */
  lemma {:induction false} OthersAt(list: seq<Note>, events: seq<Event>, at: seq<nat>, id: string) returns (left: seq<nat>)
    requires NotesAt(list, events, at) && LatestFirst(at)
    ensures NotesAt(Others(list, id), events, left) && LatestFirst(left)
    ensures LeftOf(left, at, events, id)
  {
    if list == [] {
      left := [];
    } else {
      hide Others, LatestFirst, LeftOf;
      RestAt(list, events, at);
      var rest := OthersAt(list[1..], events, at[1..], id);
      LeftMore(list, events, at, id, rest);
      left := if list[0].id != id then [at[0]] + rest else rest;
    }
  }

  lemma {:induction false} LiveLeft(front: seq<Event>, e: Event, before: seq<nat>, left: seq<nat>, k: nat)
    requires LiveFirst(front, before) && LeftOf(left, before, front, if e.Pushed? then e.note.id else e.id)
    ensures k in (if e.Pushed? then [|front|] + left else left) <==> Live(front + [e], k)
  {
    hide Live, About;
    LiveMore(front, e, k);
    LivePushed(front, k);
    AboutIs(e, front, k);
    assert k in before <==> Live(front, k);
    assert k in [|front|] + left <==> k == |front| || k in left;
  }

  lemma {:induction false} LeftBelow(front: seq<Event>, before: seq<nat>, left: seq<nat>, id: string)
    requires LatestFirst(left) && LeftOf(left, before, front, id)
    ensures LatestFirst([|front|] + left)
  {
    var all := [|front|] + left;
    forall i, j | 0 <= i < j < |all| ensures all[i] > all[j] {
      assert all[j] == left[j - 1] && left[j - 1] in left;
    }
  }

  lemma {:induction false} NotesLonger(list: seq<Note>, front: seq<Event>, at: seq<nat>, e: Event)
    requires NotesAt(list, front, at)
    ensures NotesAt(list, front + [e], at)
  {
  }

  lemma {:induction false} IdealMore(front: seq<Event>, e: Event, before: seq<nat>, left: seq<nat>)
    requires LiveFirst(front, before)
    requires var id := if e.Pushed? then e.note.id else e.id;
      LatestFirst(left) && LeftOf(left, before, front, id) && NotesAt(Others(Ideal(front), id), front, left)
    ensures
      var at, events := if e.Pushed? then [|front|] + left else left, front + [e];
      LiveFirst(events, at) && NotesAt(Ideal(events), events, at)
  {
    hide Live, About, LeftOf, LatestFirst;
    var at, events := if e.Pushed? then [|front|] + left else left, front + [e];
    LeftBelow(front, before, left, if e.Pushed? then e.note.id else e.id);
    OrderIs(at);
    forall k: nat ensures k in at <==> Live(events, k) {
      LiveLeft(front, e, before, left, k);
    }
    IdealNotes(front, e, left);
  }

  lemma {:induction false} OrderIs(at: seq<nat>)
    requires LatestFirst(at)
    ensures forall i, j :: 0 <= i < j < |at| ==> at[i] > at[j]
  {
  }

  lemma {:induction false} IdealNotes(front: seq<Event>, e: Event, left: seq<nat>)
    requires NotesAt(Others(Ideal(front), if e.Pushed? then e.note.id else e.id), front, left)
    ensures NotesAt(Ideal(front + [e]), front + [e], if e.Pushed? then [|front|] + left else left)
  {
    IdealAppend(front, e);
    hide Others, NotesAt, Ideal;
    var others := Others(Ideal(front), if e.Pushed? then e.note.id else e.id);
    NotesLonger(others, front, left, e);
    if e.Pushed? {
      NotesMore(others, front + [e], left, e.note, |front|);
    }
  }

  lemma {:induction false} IdealAppend(front: seq<Event>, e: Event)
    ensures Ideal(front + [e]) == IdealStep(Ideal(front), e)
  {
    assert (front + [e])[..|front|] == front;
  }

  lemma {:induction false} LivePushed(events: seq<Event>, k: nat)
    ensures Live(events, k) ==> k < |events| && events[k].Pushed?
  {
  }

  lemma {:induction false} AboutIs(e: Event, events: seq<Event>, k: nat)
    ensures
      k < |events| && events[k].Pushed? ==>
        (About(e, events[k].note.id) <==> events[k].note.id == if e.Pushed? then e.note.id else e.id)
  {
  }

  /** The unbounded list holds, latest first, exactly the notes pushed and neither pushed again nor
      dismissed since. */
  lemma {:induction false} IdealLists(events: seq<Event>) returns (at: seq<nat>)
    ensures LiveFirst(events, at) && NotesAt(Ideal(events), events, at)
  {
    if events == [] {
      at := [];
    } else {
      hide Live, Others, Ideal, LeftOf, NotesAt;
      var front, e := events[..|events| - 1], events[|events| - 1];
      SplitLast(events);
      var before := IdealLists(front);
      var left := OthersAt(Ideal(front), front, before, if e.Pushed? then e.note.id else e.id);
      IdealMore(front, e, before, left);
      at := if e.Pushed? then [|front|] + left else left;
    }
  }

  // ----- Queue observers -----

  datatype Job = Job(jobId: string, status: string, filename: string)

  /** The refs of one observer. */
  datatype Observer = Observer(seen: bool, statuses: map<string, string>)

  /** `new Map(jobs.map(...))`: the last entry of an id wins. */
  function StatusesOf(jobs: seq<Job>): map<string, string> {
    if jobs == [] then map[]
    else StatusesOf(jobs[..|jobs| - 1])[jobs[|jobs| - 1].jobId := jobs[|jobs| - 1].status]
  }

  predicate Terminal(status: string) { status == "done" || status == "failed" }

  /** A job is announced when it was in the previous snapshot with a different, non-empty status and
      is now done or failed. */
  predicate Announced(before: map<string, string>, job: Job) {
    job.jobId in before && before[job.jobId] != "" && before[job.jobId] != job.status && Terminal(job.status)
  }

  function ToastId(kind: string, job: Job): string { kind + ":" + job.jobId + ":" + job.status }

  function Announcements(kind: string, before: map<string, string>, jobs: seq<Job>): seq<string> {
    Map(Filter(jobs, (j: Job) => Announced(before, j)), (j: Job) => ToastId(kind, j))
  }

  class QueueObserver {
    var hasSeen: bool
    var statuses: map<string, string>

    /** One effect run: the first snapshot only sets the baseline. */
    method Observe(kind: string, jobs: seq<Job>) returns (pushed: seq<string>)
      modifies this
      ensures hasSeen && statuses == StatusesOf(jobs)
      ensures pushed == if old(hasSeen) then Announcements(kind, old(statuses), jobs) else []
    {
      pushed := [];
      var nextStatuses := StatusesOf(jobs);
      if !hasSeen {
        statuses := nextStatuses;
        hasSeen := true;
        return;
      }
      for k := 0 to |jobs|
        invariant hasSeen && statuses == old(statuses)
        invariant pushed == Announcements(kind, statuses, jobs[..k])
      {
        var job := jobs[k];
        AnnounceNext(kind, statuses, jobs[..k], job);
        hide Announcements;
        assert jobs[..k + 1] == jobs[..k] + [job];
        if job.jobId !in statuses || statuses[job.jobId] == "" || statuses[job.jobId] == job.status { continue; }
        var head := kind + ":" + job.jobId;
        assert (head + ":") + "done" == head + ":done" && (head + ":") + "failed" == head + ":failed";
        if job.status == "done" {
          pushed := pushed + [kind + ":" + job.jobId + ":done"];
        } else if job.status == "failed" {
          pushed := pushed + [kind + ":" + job.jobId + ":failed"];
        }
      }
      assert jobs[..|jobs|] == jobs;
      statuses := nextStatuses;
    }
  }

  lemma {:induction false} AnnounceNext(kind: string, before: map<string, string>, jobs: seq<Job>, job: Job)
    ensures Announcements(kind, before, jobs + [job]) ==
            Announcements(kind, before, jobs) + if Announced(before, job) then [ToastId(kind, job)] else []
  {
    var keep := (j: Job) => Announced(before, j);
    FilterAppend(jobs, [job], keep);
    FilterCons(job, [], keep);
  }

  function Watch(snapshots: seq<seq<Job>>, kind: string): (Observer, seq<string>) {
    if snapshots == [] then (Observer(false, map[]), [])
    else
      var last := snapshots[|snapshots| - 1];
      var (o, pushed) := Watch(snapshots[..|snapshots| - 1], kind);
      (Observer(true, StatusesOf(last)), pushed + if o.seen then Announcements(kind, o.statuses, last) else [])
  }

  /** Between two snapshots the job `id` turned from another, non-empty status to `status`. */
  predicate Turned(before: seq<Job>, after: seq<Job>, id: string, status: string) {
    && (exists j :: j in before && j.jobId == id && j.status != "" && j.status != status)
    && (exists j :: j in after && j.jobId == id && j.status == status)
  }

  /** The map of a snapshot has the status of every job in it, and no other. */
  lemma {:induction false} StatusesAre(jobs: seq<Job>, id: string, status: string)
    requires DistinctJobs(jobs)
    ensures id in StatusesOf(jobs) && StatusesOf(jobs)[id] == status <==>
            exists j :: j in jobs && j.jobId == id && j.status == status
  {
    if jobs == [] {
    } else {
      var front, last := jobs[..|jobs| - 1], jobs[|jobs| - 1];
      StatusesAre(front, id, status);
      assert last in jobs && forall j :: j in jobs <==> j in front || j == last;
      assert forall j :: j in front ==> j.jobId != last.jobId;
    }
  }

  lemma {:induction false} TurnedIsKnown(before: seq<Job>, after: seq<Job>, id: string, status: string)
    requires DistinctJobs(before)
    ensures
      var known := StatusesOf(before);
      Turned(before, after, id, status) <==>
        && id in known && known[id] != "" && known[id] != status
        && exists j :: j in after && j.jobId == id && j.status == status
  {
    var known := StatusesOf(before);
    hide DistinctJobs;
    if id in known {
      StatusesAre(before, id, known[id]);
    }
    if j :| j in before && j.jobId == id && j.status != "" && j.status != status {
      StatusesAre(before, id, j.status);
    }
  }

  /** How often that happened over a run of snapshots. */
  function Turns(snapshots: seq<seq<Job>>, id: string, status: string): nat {
    if |snapshots| < 2 then 0
    else
      var last := |snapshots| - 1;
      Turns(snapshots[..last], id, status) + if Turned(snapshots[last - 1], snapshots[last], id, status) then 1 else 0
  }

  ghost predicate DistinctJobs(jobs: seq<Job>) {
    forall i, j :: 0 <= i < j < |jobs| ==> jobs[i].jobId != jobs[j].jobId
  }

  /** A toast id names one job and one outcome, even when job ids contain colons. */
  lemma {:induction false} ToastIdNames(kind: string, a: Job, b: Job)
    requires Terminal(a.status) && Terminal(b.status)
    ensures ToastId(kind, a) == ToastId(kind, b) <==> a.jobId == b.jobId && a.status == b.status
  {
    var x, y := ToastId(kind, a), ToastId(kind, b);
    assert x[|x| - 1] == a.status[|a.status| - 1] && y[|y| - 1] == b.status[|b.status| - 1];
    if x == y {
      assert a.status == b.status && |a.jobId| == |b.jobId|;
      var from := |kind| + 1;
      assert a.jobId == x[from..from + |a.jobId|] && b.jobId == y[from..from + |b.jobId|];
    }
  }

  lemma {:induction false} AnnouncedOnce(kind: string, before: map<string, string>, jobs: seq<Job>, job: Job)
    requires DistinctJobs(jobs) && Terminal(job.status)
    ensures multiset(Announcements(kind, before, jobs))[ToastId(kind, job)] ==
            if Announced(before, job) && exists j :: j in jobs && j.jobId == job.jobId && j.status == job.status then 1 else 0
  {
    if jobs == [] {
    } else {
      var front, next := jobs[..|jobs| - 1], jobs[|jobs| - 1];
      AnnouncedOnce(kind, before, front, job);
      SplitLast(jobs);
      AnnounceNext(kind, before, front, next);
      hide Announcements, ToastId;
      if Terminal(next.status) {
        ToastIdNames(kind, next, job);
      }
      assert next.jobId == job.jobId ==> forall j :: j in front ==> j.jobId != job.jobId;
      assert next in jobs && forall j :: j in jobs <==> j in front || j == next;
    }
  }

  /** Over any run of snapshots a job's outcome is announced exactly as often as the job turned to it
      from another status between consecutive snapshots: never for the first snapshot, never twice for
      one turn, and never for a job that appears already finished. */
  lemma {:induction false} WatchAnnouncesTurns(snapshots: seq<seq<Job>>, kind: string, job: Job)
    requires job.status == "done" || job.status == "failed"
    requires forall jobs :: jobs in snapshots ==> DistinctJobs(jobs)
    ensures multiset(Watch(snapshots, kind).1)[kind + ":" + job.jobId + ":" + job.status] ==
            Turns(snapshots, job.jobId, job.status)
  {
    if snapshots == [] {
    } else {
      var last := |snapshots| - 1;
      var front := snapshots[..last];
      WatchAnnouncesTurns(front, kind, job);
      assert snapshots[last] in snapshots;
      if last > 0 {
        assert front[last - 1] == snapshots[last - 1];
        var before := StatusesOf(snapshots[last - 1]);
        assert Watch(front, kind).0 == Observer(true, before);
        AnnouncedOnce(kind, before, snapshots[last], job);
        TurnedIsKnown(snapshots[last - 1], snapshots[last], job.jobId, job.status);
        hide Announcements, ToastId, DistinctJobs;
      }
    }
  }

  /** `x` is the id under which the outcome of a job in one of the snapshots is announced. */
  ghost predicate IsOutcome(x: string, kind: string, snapshots: seq<seq<Job>>) {
    exists n, k :: 0 <= n < |snapshots| && 0 <= k < |snapshots[n]| &&
      var job := snapshots[n][k];
      (job.status == "done" || job.status == "failed") && x == kind + ":" + job.jobId + ":" + job.status
  }

  /** Nothing else is ever announced. */
  lemma {:induction false} OnlyOutcomes(snapshots: seq<seq<Job>>, kind: string, x: string)
    requires x in Watch(snapshots, kind).1
    ensures IsOutcome(x, kind, snapshots)
  {
    var last := |snapshots| - 1;
    var front := snapshots[..last];
    if x in Watch(front, kind).1 {
      OnlyOutcomes(front, kind, x);
      var n, k :| 0 <= n < |front| && 0 <= k < |front[n]| &&
                  var job := front[n][k];
                  (job.status == "done" || job.status == "failed") && x == kind + ":" + job.jobId + ":" + job.status;
      assert snapshots[n] == front[n];
    } else {
      AnnouncedJob(kind, Watch(front, kind).0.statuses, snapshots[last], x);
    }
  }

  lemma {:induction false} AnnouncedJob(kind: string, before: map<string, string>, jobs: seq<Job>, x: string)
    requires x in Announcements(kind, before, jobs)
    ensures exists k :: 0 <= k < |jobs| && Terminal(jobs[k].status) && x == ToastId(kind, jobs[k])
  {
    var kept := Filter(jobs, (j: Job) => Announced(before, j));
    var i :| 0 <= i < |kept| && ToastId(kind, kept[i]) == x;
    assert kept[i] in jobs;
  }
}

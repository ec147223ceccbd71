/** Every run of the slate: browsers that follow the broadcasts show the service's notes and tabs,
    switching projects loses nothing, and no note ever points at a tab that does not exist. */
module SlateReplica {
  import opened Sequences
  import opened SlateTabs
  import opened SlateNotes

  const NOTHING := Client(None, [], [])

  /** What a browser that has caught up shows. */
  function View(s: Server): Client { Client(s.current, s.notes, s.tabs) }

  /** Without a project there is nothing to edit; with one, its files hold what is in memory. */
  ghost predicate InStep(s: Server) {
    && (s.current.None? ==> s.notes == [] && s.tabs == [])
    && (s.current.Some? ==>
          && Stored(s.savedNotes, s.current.value) == s.notes
          && Stored(s.savedTabs, s.current.value) == s.tabs)
  }

  lemma {:induction false} HandleInStep(s: Server, projects: set<string>, c: Command)
    requires InStep(s)
    ensures InStep(Handle(s, projects, c).next)
  {
    hide Doomed, ClaimAll, ReleaseAll, Splice, Renamed, TabIndex, Numbered;
    if c.CreateTab? && s.tabs == [] && s.notes != [] && !AnyUnassigned(s.notes) {
      ClaimNone(s.notes, c.firstId);
    }
    if c.ReorderTabs? && s.current.None? {
      assert ReorderedTabs([], c.ids) == [] by { ReorderNothing(c.ids); }
    }
  }

  lemma {:induction false} ReorderNothing(ids: seq<string>)
    ensures ReorderedTabs([], ids) == []
  {
    PickNothing(ids);
  }

  lemma {:induction false} PickNothing(ids: seq<string>)
    ensures Picked([], ids) == ([], [])
  {
    if ids == [] {
    } else {
      PickNothing(ids[..|ids| - 1]);
    }
  }

  lemma {:induction false} ClaimNone(notes: seq<Note>, tab: string)
    requires !AnyUnassigned(notes)
    ensures ClaimAll(notes, tab) == notes
  {
  }

  /** An edit is only ever sent for a note that the receiver has. */
  predicate Fits(c: Client, m: Message) {
    m.NoteEdited? ==> 0 <= m.index < |c.notes|
  }

  lemma {:induction false} DeletesAgree(notes: seq<Note>, indices: seq<int>)
    ensures DropAll(notes, SetOf(Doomed(|notes|, indices))) == DropAll(notes, SetOf(indices))
    ensures Doomed(|notes|, indices) == [] ==> DropAll(notes, SetOf(indices)) == notes
  {
    DoomedSpec(|notes|, indices);
    DropAllSame(notes, SetOf(Doomed(|notes|, indices)), SetOf(indices));
    if Doomed(|notes|, indices) == [] {
      assert SetOf([]) == {};
      DropAllNone(notes);
    }
  }

  lemma {:induction false} ReceiveFew(c: Client, sent: seq<Message>)
    ensures |sent| == 0 ==> ReceiveAll(c, sent) == c
    ensures |sent| == 1 ==> ReceiveAll(c, sent) == Receive(c, sent[0])
    ensures |sent| == 2 ==> ReceiveAll(c, sent) == Receive(Receive(c, sent[0]), sent[1])
  {
    hide Receive;
    if |sent| == 1 {
      assert sent[1..] == [];
      assert ReceiveAll(c, sent) == ReceiveAll(Receive(c, sent[0]), []);
    } else if |sent| == 2 {
      var rest, first := sent[1..], Receive(c, sent[0]);
      assert rest[0] == sent[1] && rest[1..] == [];
      assert ReceiveAll(first, rest) == ReceiveAll(Receive(first, rest[0]), []);
    }
  }

  /** One command: receiving what it broadcasts, at most two messages, takes an up-to-date browser to
      the new state; edits are in range. Only commands on tabs send two, and then the first brings the
      new tabs and the second the new notes. */
  lemma {:induction false} HandleBroadcasts(s: Server, projects: set<string>, c: Command)
    ensures
      var o := Handle(s, projects, c);
      && |o.sent| <= 2 && ReceiveAll(View(s), o.sent) == View(o.next)
      && (o.sent != [] ==> Fits(View(s), o.sent[0]))
      && (|o.sent| == 2 ==>
            && o.sent[1].NotesReloaded? && o.next.current == s.current
            && Receive(View(s), o.sent[0]) == View(s).(tabs := o.next.tabs))
  {
    hide Doomed, DropAll, ClaimAll, ReleaseAll, TabsWithout, Splice, Renamed, ReorderedTabs, Numbered, TabIndex;
    var sent := Handle(s, projects, c).sent;
    ReceiveFew(View(s), sent);
    match c
    case DeleteNotes(indices) => DeletesAgree(s.notes, indices);
    case DeleteNote(index) => SpliceIsDropAll(s.notes, index);
    case _ =>
  }

  // ----- A browser that connects, lags, drops out and comes back -----

  /** `link` holds what was sent but not yet received; `past` every state the service showed. */
  datatype Wire = Wire(server: Server, client: Client, connected: bool, link: seq<Message>, ghost past: seq<Client>)

  datatype Event = Do(command: Command) | Deliver | Connect | Disconnect

  /** What a new connection is greeted with. */
  function Greeting(s: Server): Message {
    if s.current.Some? then ProjectLoaded(s.current.value, s.notes, s.tabs) else NoActiveProject
  }

  ghost function WireStep(w: Wire, projects: set<string>, e: Event): Wire {
    match e
    case Do(command) =>
      var o := Handle(w.server, projects, command);
      w.(server := o.next, link := if w.connected then w.link + o.sent else [], past := w.past + [View(o.next)])
    case Deliver =>
      if !w.connected || w.link == [] then w
      else w.(client := Receive(w.client, w.link[0]), link := w.link[1..])
    case Connect => w.(connected := true, link := [Greeting(w.server)])
    case Disconnect => w.(connected := false, link := [])
  }

  ghost function WireRun(start: Server, projects: set<string>, events: seq<Event>): Wire {
    if events == [] then Wire(start, NOTHING, false, [], [View(start)])
    else WireStep(WireRun(start, projects, events[..|events| - 1]), projects, events[|events| - 1])
  }

  /** The browser shows notes and tabs that the service had for that project, if not always at the same
      moment: the two messages of a tab command arrive one after the other. */
  ghost predicate ShowsPast(c: Client, past: seq<Client>) {
    && (exists v :: v in past && v.current == c.current && v.notes == c.notes)
    && (exists v :: v in past && v.current == c.current && v.tabs == c.tabs)
  }

  lemma {:induction false} ShowsPastMore(c: Client, past: seq<Client>, v: Client)
    requires ShowsPast(c, past)
    ensures ShowsPast(c, past + [v])
  {
    var u :| u in past && u.current == c.current && u.notes == c.notes;
    var w :| w in past && w.current == c.current && w.tabs == c.tabs;
    assert u in past + [v] && w in past + [v];
  }

  lemma {:induction false} ShowsOwn(c: Client, past: seq<Client>)
    requires c in past
    ensures ShowsPast(c, past)
  {
  }

  /** Delivering `link` to `c` passes only through such displays, with every edit in range, and ends at
      `target`. */
  ghost predicate Follows(c: Client, link: seq<Message>, past: seq<Client>, target: Client)
    decreases |link|
  {
    if link == [] then c == target
    else
      var next := Receive(c, link[0]);
      Fits(c, link[0]) && ShowsPast(next, past) && Follows(next, link[1..], past, target)
  }

  lemma {:induction false} FollowsMore(c: Client, link: seq<Message>, past: seq<Client>, target: Client, m: Message)
    requires Follows(c, link, past, target) && Fits(target, m) && ShowsPast(Receive(target, m), past)
    ensures Follows(c, link + [m], past, Receive(target, m))
    decreases |link|
  {
    hide ShowsPast;
    if link == [] {
      assert (link + [m])[1..] == [];
      assert Follows(Receive(c, m), [], past, Receive(target, m));
    } else {
      assert (link + [m])[1..] == link[1..] + [m];
      FollowsMore(Receive(c, link[0]), link[1..], past, target, m);
    }
  }

  lemma {:induction false} FollowsLonger(c: Client, link: seq<Message>, past: seq<Client>, target: Client, v: Client)
    requires Follows(c, link, past, target)
    ensures Follows(c, link, past + [v], target)
    decreases |link|
  {
    hide ShowsPast;
    if link == [] {
    } else {
      ShowsPastMore(Receive(c, link[0]), past, v);
      FollowsLonger(Receive(c, link[0]), link[1..], past, target, v);
    }
  }

  lemma {:induction false} FollowsArrives(c: Client, link: seq<Message>, past: seq<Client>, target: Client)
    requires Follows(c, link, past, target)
    ensures ReceiveAll(c, link) == target
    decreases |link|
  {
    if link == [] {
    } else {
      FollowsArrives(Receive(c, link[0]), link[1..], past, target);
    }
  }

  /** The messages of one command, appended to a link that leads to the state before it. */
  lemma {:induction false} FollowsCommand(c: Client, link: seq<Message>, past: seq<Client>, s: Server, projects: set<string>,
                                          command: Command)
    requires Follows(c, link, past, View(s)) && View(s) in past
    ensures
      var o := Handle(s, projects, command);
      Follows(c, link + o.sent, past + [View(o.next)], View(o.next))
  {
    hide Handle, Follows, ShowsPast;
    var o := Handle(s, projects, command);
    var more := past + [View(o.next)];
    HandleBroadcasts(s, projects, command);
    FollowsLonger(c, link, past, View(s), View(o.next));
    ShowsOwn(View(o.next), more);
    if o.sent == [] {
      assert link + o.sent == link;
    } else {
      var first := Receive(View(s), o.sent[0]);
      if |o.sent| == 1 {
        ReceiveFew(View(s), o.sent);
        assert o.sent == [o.sent[0]];
        FollowsMore(c, link, more, View(s), o.sent[0]);
      } else {
        ReceiveFew(View(s), o.sent);
        HalfWay(s, o.next, past);
        FollowsMore(c, link, more, View(s), o.sent[0]);
        FollowsMore(c, link + [o.sent[0]], more, first, o.sent[1]);
        assert link + [o.sent[0]] + [o.sent[1]] == link + o.sent;
      }
    }
  }

  lemma {:induction false} HalfWay(s: Server, next: Server, past: seq<Client>)
    requires View(s) in past && next.current == s.current
    ensures ShowsPast(View(s).(tabs := next.tabs), past + [View(next)])
  {
    var more := past + [View(next)];
    assert View(s) in more && View(next) in more;
  }

  ghost predicate WireInv(w: Wire) {
    && InStep(w.server) && View(w.server) in w.past
    && (w.client == NOTHING || ShowsPast(w.client, w.past))
    && (w.connected ==> Follows(w.client, w.link, w.past, View(w.server)))
  }

  lemma {:induction false} WireStepKeeps(w: Wire, projects: set<string>, e: Event)
    requires WireInv(w)
    ensures WireInv(WireStep(w, projects, e))
  {
    hide Handle, ShowsPast;
    match e
    case Do(command) =>
      var o := Handle(w.server, projects, command);
      HandleInStep(w.server, projects, command);
      hide InStep;
      if w.client != NOTHING {
        ShowsPastMore(w.client, w.past, View(o.next));
      }
      if w.connected {
        FollowsCommand(w.client, w.link, w.past, w.server, projects, command);
      }
    case Deliver =>
    case Connect =>
      var greeting := Greeting(w.server);
      assert Receive(w.client, greeting) == View(w.server);
      ShowsOwn(View(w.server), w.past);
      assert [greeting][1..] == [];
      assert Follows(View(w.server), [greeting][1..], w.past, View(w.server));
    case Disconnect =>
  }

  /** Over every interleaving of commands, deliveries, connections and disconnections: the browser
      shows notes and tabs that the service once had for the project shown (or nothing yet), and once
      its link has drained it shows the current ones. */
  lemma {:induction false} ReplicaInSync(start: Server, projects: set<string>, events: seq<Event>)
    requires InStep(start)
    ensures
      var w := WireRun(start, projects, events);
      && (w.client == NOTHING || ShowsPast(w.client, w.past))
      && (w.connected ==> ReceiveAll(w.client, w.link) == View(w.server))
      && (w.connected && w.link != [] ==> Fits(w.client, w.link[0]))
    ensures WireInv(WireRun(start, projects, events))
  {
    if events == [] {
    } else {
      ReplicaInSync(start, projects, events[..|events| - 1]);
      WireStepKeeps(WireRun(start, projects, events[..|events| - 1]), projects, events[|events| - 1]);
    }
    var w := WireRun(start, projects, events);
    hide WireRun, ShowsPast;
    if w.connected {
      FollowsArrives(w.client, w.link, w.past, View(w.server));
    }
  }

  // ----- Switching projects -----

  function ServerAfter(s: Server, projects: set<string>, commands: seq<Command>): Server {
    if commands == [] then s
    else Handle(ServerAfter(s, projects, commands[..|commands| - 1]), projects, commands[|commands| - 1]).next
  }

  lemma {:induction false} OtherFilesSame(s: Server, projects: set<string>, c: Command, p: string)
    requires s.current != Some(p)
    ensures
      var t := Handle(s, projects, c).next;
      && Stored(t.savedNotes, p) == Stored(s.savedNotes, p)
      && Stored(t.savedTabs, p) == Stored(s.savedTabs, p)
  {
    hide Doomed, DropAll, ClaimAll, ReleaseAll, TabsWithout, Splice, Renamed, ReorderedTabs, Numbered, TabIndex;
  }

  lemma {:induction false} StaysAway(s: Server, projects: set<string>, c: Command, projectId: string)
    requires s.current != Some(projectId) && c != LoadProject(projectId)
    ensures Handle(s, projects, c).next.current != Some(projectId)
  {
    hide Doomed, DropAll, ClaimAll, ReleaseAll, TabsWithout, Splice, Renamed, ReorderedTabs, Numbered, TabIndex;
  }

  lemma {:induction false} AwayKeepsFiles(s: Server, projects: set<string>, commands: seq<Command>, projectId: string)
    requires s.current != Some(projectId) && LoadProject(projectId) !in commands
    ensures
      var t := ServerAfter(s, projects, commands);
      && t.current != Some(projectId)
      && Stored(t.savedNotes, projectId) == Stored(s.savedNotes, projectId)
      && Stored(t.savedTabs, projectId) == Stored(s.savedTabs, projectId)
  {
    if commands == [] {
    } else {
      AwayKeepsFiles(s, projects, commands[..|commands| - 1], projectId);
      var before := ServerAfter(s, projects, commands[..|commands| - 1]);
      OtherFilesSame(before, projects, commands[|commands| - 1], projectId);
      StaysAway(before, projects, commands[|commands| - 1], projectId);
      hide Handle, Stored;
    }
  }

  /** Leaving a project, doing anything elsewhere and coming back brings back its notes and tabs. */
  lemma {:induction false} ComingBackRestores(s: Server, projects: set<string>, other: string, commands: seq<Command>)
    requires InStep(s) && s.current.Some? && s.current.value in projects
    requires other in projects && other != s.current.value
    requires LoadProject(s.current.value) !in commands
    ensures
      var away := Handle(s, projects, LoadProject(other)).next;
      var back := Handle(ServerAfter(away, projects, commands), projects, LoadProject(s.current.value)).next;
      back.current == s.current && back.notes == s.notes && back.tabs == s.tabs
  {
    AwayKeepsFiles(Handle(s, projects, LoadProject(other)).next, projects, commands, s.current.value);
  }

  // ----- Tabs -----

  /** Every note is unassigned or in a tab that exists. */
  ghost predicate Tabbed(notes: seq<Note>, tabs: seq<Tab>) {
    forall n :: n in notes ==> n.tabId.None? || HasTab(tabs, n.tabId.value)
  }

  ghost predicate NoDanglingTabs(s: Server) {
    && Tabbed(s.notes, s.tabs)
    && forall p :: Tabbed(Stored(s.savedNotes, p), Stored(s.savedTabs, p))
  }

  lemma {:induction false} DropAllMembers<T(!new)>(s: seq<T>, drop: set<int>)
    ensures forall x :: x in DropAll(s, drop) ==> x in s
  {
    if s == [] {
    } else {
      DropAllMembers(s[..|s| - 1], drop);
    }
  }

  /** The tabs named before are there after, but for a deleted one. */
  lemma {:induction false} TabsStay(s: Server, projects: set<string>, c: Command, id: string)
    requires InStep(s) && !c.LoadProject? && HasTab(s.tabs, id) && !(c.DeleteTab? && c.id == id)
    ensures HasTab(Handle(s, projects, c).next.tabs, id)
  {
    match c
    case CreateTab(name, firstId, newId, now) =>
      HasAppend(s.tabs, [Tab(newId, name, |s.tabs|, now)], id);
    case RenameTab(tab, name) => RenamedHas(s.tabs, tab, name, id);
    case ReorderTabs(ids) => ReorderedHas(s.tabs, ids, id);
    case DeleteTab(tab) =>
      TabsWithoutHas(s.tabs, tab, id);
      NumberedHas(TabsWithout(s.tabs, tab), 0, id);
    case _ =>
  }

  /** A note after a command was there before, or its tab was checked, created or released by it. */
  lemma {:induction false} NoteOrigin(s: Server, projects: set<string>, c: Command, n: Note)
    requires InStep(s) && Tabbed(s.notes, s.tabs) && !c.LoadProject? && n in Handle(s, projects, c).next.notes
    ensures
      || n.tabId.None?
      || (HasTab(s.tabs, n.tabId.value) && !(c.DeleteTab? && c.id == n.tabId.value))
      || HasTab(Handle(s, projects, c).next.tabs, n.tabId.value)
  {
    hide Doomed, DropAll, Splice, ReorderedTabs, Renamed, TabIndex, Numbered;
    match c
    case DeleteNotes(indices) => DropAllMembers(s.notes, SetOf(indices));
    case DeleteNote(index) =>
      SpliceIsDropAll(s.notes, index);
      DropAllMembers(s.notes, {index});
    case CreateTab(name, firstId, newId, now) =>
      var made := Handle(s, projects, c).next;
      if made.notes != s.notes {
        assert made.tabs[0] in made.tabs && made.tabs[0].id == firstId;
      }
    case DeleteTab(id) =>
      if |TabsWithout(s.tabs, id)| == |s.tabs| {
        NoSuchTab(s.tabs, id);
      }
    case _ =>
  }

  lemma {:induction false} NotesTabbed(s: Server, projects: set<string>, c: Command)
    requires InStep(s) && NoDanglingTabs(s)
    ensures Tabbed(Handle(s, projects, c).next.notes, Handle(s, projects, c).next.tabs)
  {
    if !c.LoadProject? {
      hide Handle, HasTab;
      var t := Handle(s, projects, c).next;
      forall n | n in t.notes ensures n.tabId.None? || HasTab(t.tabs, n.tabId.value) {
        NoteOrigin(s, projects, c, n);
        if n.tabId.Some? && HasTab(s.tabs, n.tabId.value) && !(c.DeleteTab? && c.id == n.tabId.value) {
          TabsStay(s, projects, c, n.tabId.value);
        }
      }
    }
  }

  lemma {:induction false} LeavingKeepsFiles(s: Server, projects: set<string>, c: Command)
    ensures
      var t := Handle(s, projects, c).next;
      || t.current == s.current
      || (t.savedNotes == s.savedNotes && t.savedTabs == s.savedTabs)
  {
  }

  /** No command, in memory or on disk, leaves a note pointing at a missing tab. */
  lemma {:induction false} HandleNoDangling(s: Server, projects: set<string>, c: Command)
    requires InStep(s) && NoDanglingTabs(s)
    ensures NoDanglingTabs(Handle(s, projects, c).next)
  {
    var t := Handle(s, projects, c).next;
    NotesTabbed(s, projects, c);
    HandleInStep(s, projects, c);
    LeavingKeepsFiles(s, projects, c);
    hide Handle;
    forall p ensures Tabbed(Stored(t.savedNotes, p), Stored(t.savedTabs, p)) {
      if s.current != Some(p) {
        OtherFilesSame(s, projects, c, p);
      }
    }
  }

  lemma {:induction false} RunNoDangling(s: Server, projects: set<string>, commands: seq<Command>)
    requires InStep(s) && NoDanglingTabs(s)
    ensures InStep(ServerAfter(s, projects, commands)) && NoDanglingTabs(ServerAfter(s, projects, commands))
  {
    if commands == [] {
    } else {
      RunNoDangling(s, projects, commands[..|commands| - 1]);
      var before := ServerAfter(s, projects, commands[..|commands| - 1]);
      HandleInStep(before, projects, commands[|commands| - 1]);
      HandleNoDangling(before, projects, commands[|commands| - 1]);
      hide Handle, InStep, NoDanglingTabs;
    }
  }

  function Content(n: Note): (string, string, string) { (n.timestamp, n.code, n.text) }

  /** No command on tabs ever destroys or reorders notes, and deleting a tab releases exactly the notes
      that were in it. */
  lemma {:induction false} TabsKeepNotes(s: Server, projects: set<string>, c: Command)
    requires c.CreateTab? || c.RenameTab? || c.ReorderTabs? || c.DeleteTab?
    requires InStep(s) && NoDanglingTabs(s)
    ensures
      var t := Handle(s, projects, c).next;
      && |t.notes| == |s.notes|
      && (forall i :: 0 <= i < |s.notes| ==> Content(t.notes[i]) == Content(s.notes[i]))
      && (c.DeleteTab? && c.id != "" ==>
            forall i :: 0 <= i < |s.notes| ==>
              t.notes[i].tabId == if s.notes[i].tabId == Some(c.id) then None else s.notes[i].tabId)
  {
    hide HasTab, Numbered, ReorderedTabs, Renamed;
    if c.DeleteTab? {
      if |TabsWithout(s.tabs, c.id)| == |s.tabs| {
        NoSuchTab(s.tabs, c.id);
        forall i | 0 <= i < |s.notes| ensures s.notes[i].tabId != Some(c.id) {
          assert s.notes[i] in s.notes;
        }
      }
    }
  }

  /** A browser between the two messages of a deletion does show notes in a tab that is no longer listed. */
  lemma {:induction false} HalfWayDangles(s: Server, projects: set<string>, n: Note)
    requires n in s.notes && n.tabId.Some? && n.tabId.value != "" && HasTab(s.tabs, n.tabId.value)
    ensures
      var o := Handle(s, projects, DeleteTab(n.tabId.value));
      && |o.sent| == 2
      && var half := Receive(View(s), o.sent[0]); n in half.notes && !Tabbed(half.notes, half.tabs)
  {
    var id := n.tabId.value;
    TabsWithoutHas(s.tabs, id, id);
    NumberedHas(TabsWithout(s.tabs, id), 0, id);
    hide HasTab, Numbered;
    if |TabsWithout(s.tabs, id)| == |s.tabs| {
      NoSuchTab(s.tabs, id);
    }
    var i :| 0 <= i < |s.notes| && s.notes[i] == n;
    assert ReleaseAll(s.notes, id)[i] != s.notes[i];
  }

  /** The command deletes a tab that has notes in it. */
  predicate DeletesUsedTab(s: Server, c: Command) {
    c.DeleteTab? && c.id != "" && exists n :: n in s.notes && n.tabId == Some(c.id)
  }

  ghost predicate TabbedThroughout(c: Client, sent: seq<Message>) {
    forall k :: 0 <= k <= |sent| ==> var shown := ReceiveAll(c, sent[..k]); Tabbed(shown.notes, shown.tabs)
  }

  /** A browser that follows one command never shows a note in a tab that is not listed, at any moment,
      if and only if the command does not delete a tab that has notes in it. */
  lemma {:induction false} OneFrameIff(s: Server, projects: set<string>, c: Command)
    requires InStep(s) && NoDanglingTabs(s)
    ensures TabbedThroughout(View(s), Handle(s, projects, c).sent) <==> !DeletesUsedTab(s, c)
  {
    hide Handle, Receive, ReceiveAll, HasTab, Tabbed;
    var o := Handle(s, projects, c);
    HandleBroadcasts(s, projects, c);
    if DeletesUsedTab(s, c) {
      var n :| n in s.notes && n.tabId == Some(c.id);
      UsedTabListed(s, n);
      HalfWayDangles(s, projects, n);
      ReceiveFew(View(s), o.sent[..1]);
      assert c == DeleteTab(n.tabId.value);
      assert !Tabbed(ReceiveAll(View(s), o.sent[..1]).notes, ReceiveAll(View(s), o.sent[..1]).tabs);
    } else {
      forall k | 0 <= k <= |o.sent|
        ensures var shown := ReceiveAll(View(s), o.sent[..k]); Tabbed(shown.notes, shown.tabs)
      {
        FrameTabbed(s, projects, c, k);
      }
    }
  }

  lemma {:induction false} UsedTabListed(s: Server, n: Note)
    requires NoDanglingTabs(s) && n in s.notes && n.tabId.Some?
    ensures HasTab(s.tabs, n.tabId.value)
  {
    hide HasTab;
  }

  lemma {:induction false} FrameTabbed(s: Server, projects: set<string>, c: Command, k: nat)
    requires InStep(s) && NoDanglingTabs(s) && !DeletesUsedTab(s, c) && k <= |Handle(s, projects, c).sent|
    ensures
      var shown := ReceiveAll(View(s), Handle(s, projects, c).sent[..k]);
      Tabbed(shown.notes, shown.tabs)
  {
    hide Handle, Receive, ReceiveAll, HasTab, Tabbed;
    var o := Handle(s, projects, c);
    HandleBroadcasts(s, projects, c);
    ReceiveFew(View(s), o.sent[..k]);
    if k == |o.sent| {
      assert o.sent[..k] == o.sent;
      HandleNoDangling(s, projects, c);
    } else if k == 1 {
      NotesKeepTabs(s, projects, c);
    }
  }

  /** With two messages on their way the notes are still the old ones, and each keeps its tab. */
  lemma {:induction false} NotesKeepTabs(s: Server, projects: set<string>, c: Command)
    requires InStep(s) && NoDanglingTabs(s) && !DeletesUsedTab(s, c) && |Handle(s, projects, c).sent| == 2
    ensures Tabbed(s.notes, Handle(s, projects, c).next.tabs)
  {
    var t := Handle(s, projects, c).next;
    TwoMessages(s, projects, c);
    hide Handle, HasTab;
    forall n | n in s.notes ensures n.tabId.None? || HasTab(t.tabs, n.tabId.value) {
      if n.tabId.Some? {
        TabsStay(s, projects, c, n.tabId.value);
      }
    }
  }

  lemma {:induction false} TwoMessages(s: Server, projects: set<string>, c: Command)
    requires |Handle(s, projects, c).sent| == 2
    ensures !c.LoadProject? && (c.DeleteTab? ==> c.id != "")
  {
  }
}

/** The slate's note list and its tabs: the service that owns them, and the handlers through which a
    browser follows it. */
module SlateNotes {
  import opened Sequences
  import opened SlateTabs
  import opened StableSort

  /** An unassigned note has no `tabId`. */
  datatype Note = Note(timestamp: string, code: string, text: string, tabId: Option<string>)

  datatype Message =
    | ProjectLoaded(projectId: string, loaded: seq<Note>, loadedTabs: seq<Tab>)
    | NoActiveProject
    | SlateTabs(tabs: seq<Tab>)
    | NotesReloaded(reloaded: seq<Note>)
    | NoteAdded(added: Note)
    | NoteEdited(index: int, edited: Note)
    | NoteDeleted(deleted: int)
    | NotesDeleted(indices: seq<int>)

  // ----- Index arithmetic on lists -----

  function SetOf(indices: seq<int>): set<int> { set i | i in indices }

  /** What `filter` keeps when it drops the elements at the positions in `drop`. */
  function DropAll<T>(s: seq<T>, drop: set<int>): seq<T> {
    if s == [] then []
    else
      var last := |s| - 1;
      DropAll(s[..last], drop) + if last in drop then [] else [s[last]]
  }

  /** `splice(i, 1)` behind its guard that there is an element at `i`. */
  function Splice<T>(s: seq<T>, i: int): seq<T> {
    if 0 <= i < |s| then s[..i] + s[i + 1..] else s
  }

  function SpliceAll<T>(s: seq<T>, indices: seq<int>): seq<T> {
    if indices == [] then s else SpliceAll(Splice(s, indices[0]), indices[1..])
  }

  ghost predicate Descending(indices: seq<int>) {
    forall i, j :: 0 <= i < j < |indices| ==> indices[i] > indices[j]
  }

  lemma {:induction false} DropAllSame<T>(s: seq<T>, p: set<int>, q: set<int>)
    requires forall i :: 0 <= i < |s| ==> (i in p <==> i in q)
    ensures DropAll(s, p) == DropAll(s, q)
  {
    if s == [] {
    } else {
      DropAllSame(s[..|s| - 1], p, q);
    }
  }

  lemma {:induction false} DropAllNone<T>(s: seq<T>)
    ensures DropAll(s, {}) == s
  {
    if s == [] {
    } else {
      DropAllNone(s[..|s| - 1]);
      SplitLast(s);
    }
  }

  lemma {:induction false} SpliceFront<T>(s: seq<T>, i: nat)
    requires i < |s| - 1
    ensures
      var shorter := Splice(s, i);
      && |shorter| == |s| - 1 && shorter[|shorter| - 1] == s[|s| - 1]
      && shorter[..|shorter| - 1] == Splice(s[..|s| - 1], i)
  {
  }

  lemma {:induction false} DropAllLast<T>(s: seq<T>, drop: set<int>)
    requires s != []
    ensures DropAll(s, drop) == DropAll(s[..|s| - 1], drop) + if |s| - 1 in drop then [] else [s[|s| - 1]]
  {
  }

  /** Dropping the highest position first leaves the lower ones where they were. */
  lemma {:induction false} DropAllHighest<T>(s: seq<T>, high: int, rest: set<int>)
    requires forall i :: i in rest ==> i < high
    ensures DropAll(s, {high} + rest) == DropAll(Splice(s, high), rest)
  {
    hide DropAll;
    var last := |s| - 1;
    if !(0 <= high < |s|) {
      DropAllSame(s, {high} + rest, rest);
    } else if high == last {
      assert Splice(s, high) == s[..last];
      DropAllSame(s[..last], {high} + rest, rest);
      DropAllLast(s, {high} + rest);
    } else {
      SpliceFront(s, high);
      var shorter := Splice(s, high);
      DropAllHighest(s[..last], high, rest);
      DropAllLast(s, {high} + rest);
      DropAllLast(shorter, rest);
      assert |shorter| - 1 !in rest && last !in {high} + rest;
    }
  }

  lemma {:induction false} SpliceAllIsDropAll<T>(s: seq<T>, indices: seq<int>)
    requires Descending(indices)
    ensures SpliceAll(s, indices) == DropAll(s, SetOf(indices))
    decreases |indices|
  {
    if indices == [] {
      DropAllNone(s);
      assert SetOf(indices) == {};
    } else {
      SpliceAllIsDropAll(Splice(s, indices[0]), indices[1..]);
      assert SetOf(indices) == {indices[0]} + SetOf(indices[1..]);
      assert forall i :: i in SetOf(indices[1..]) ==> i < indices[0];
      DropAllHighest(s, indices[0], SetOf(indices[1..]));
    }
  }

  predicate NotBelow(a: int, b: int) { a >= b }

  /** The positions a batch delete acts on, in the order in which it splices them out. */
  function Doomed(count: nat, indices: seq<int>): seq<int> {
    Sort(Dedupe(Filter(indices, (i: int) => 0 <= i < count)), NotBelow)
  }

  lemma {:induction false} DoomedSpec(count: nat, indices: seq<int>)
    ensures Descending(Doomed(count, indices))
    ensures forall i :: i in Doomed(count, indices) <==> i in indices && 0 <= i < count
  {
    var valid := Filter(indices, (i: int) => 0 <= i < count);
    var unique := Dedupe(valid);
    var sorted := Sort(unique, NotBelow);
    SortSorts(unique, NotBelow);
    SortMember(unique, NotBelow);
    SortMultiset(unique, NotBelow);
    DedupeDistinct(valid);
    forall i ensures multiset(sorted)[i] <= 1 {
      DistinctCount(unique, i);
    }
    CountDistinct(sorted);
    hide Sort, Dedupe, Filter;
    forall i, j | 0 <= i < j < |sorted| ensures sorted[i] > sorted[j] {
      assert NotBelow(sorted[i], sorted[j]) && sorted[i] != sorted[j];
    }
  }

  lemma {:induction false} SpliceNext<T>(s: seq<T>, indices: seq<int>)
    ensures SpliceAll(s, indices) == if indices == [] then s else SpliceAll(Splice(s, indices[0]), indices[1..])
  {
  }

  lemma {:induction false} SplicingDoomed<T>(s: seq<T>, indices: seq<int>)
    ensures SpliceAll(s, Doomed(|s|, indices)) == DropAll(s, SetOf(indices))
  {
    var doomed := Doomed(|s|, indices);
    DoomedSpec(|s|, indices);
    SpliceAllIsDropAll(s, doomed);
    DropAllSame(s, SetOf(doomed), SetOf(indices));
  }

  // ----- The service -----

  datatype Server = Server(current: Option<string>, notes: seq<Note>, tabs: seq<Tab>,
                           savedNotes: map<string, seq<Note>>, savedTabs: map<string, seq<Tab>>)

  datatype Command =
    | AddNote(timestamp: string, code: string, text: string, tabId: Option<string>)
    | EditNote(index: int, code: string, text: string)
    | DeleteNote(index: int)
    | DeleteNotes(indices: seq<int>)
    | AssignNoteToTab(index: int, tabId: Option<string>)
    | CreateTab(name: string, firstId: string, id: string, now: string)
    | RenameTab(id: string, name: string)
    | ReorderTabs(ids: seq<string>)
    | DeleteTab(id: string)
    | LoadProject(projectId: string)

  datatype Outcome = Outcome(next: Server, sent: seq<Message>)

  /** A project without a file has no entries. */
  function Stored<T>(files: map<string, seq<T>>, projectId: string): seq<T> {
    if projectId in files then files[projectId] else []
  }

  function NotesSaved(s: Server): Server {
    if s.current.None? then s else s.(savedNotes := s.savedNotes[s.current.value := s.notes])
  }

  function TabsSaved(s: Server): Server {
    if s.current.None? then s else s.(savedTabs := s.savedTabs[s.current.value := s.tabs])
  }

  /** A tab that does not exist counts as none. */
  function KnownTab(tabs: seq<Tab>, tabId: Option<string>): Option<string> {
    if tabId.Some? && tabId.value != "" && HasTab(tabs, tabId.value) then tabId else None
  }

  predicate Unassigned(n: Note) { n.tabId.None? || n.tabId.value == "" }

  function Claimed(n: Note, tab: string): Note { if Unassigned(n) then n.(tabId := Some(tab)) else n }

  function Released(n: Note, tab: string): Note { if n.tabId == Some(tab) then n.(tabId := None) else n }

  predicate AnyUnassigned(notes: seq<Note>) { exists n :: n in notes && Unassigned(n) }

  function ClaimAll(notes: seq<Note>, tab: string): seq<Note> { Map(notes, (n: Note) => Claimed(n, tab)) }

  function ReleaseAll(notes: seq<Note>, tab: string): seq<Note> { Map(notes, (n: Note) => Released(n, tab)) }

  function Edited(s: Server, index: int, note: Note): Outcome
    requires 0 <= index < |s.notes|
  {
    Outcome(NotesSaved(s.(notes := s.notes[index := note])), [NoteEdited(index, note)])
  }

  /** The first tab of a project that already has notes comes with another one, which takes all notes
      that are in none. */
  function TabCreated(s: Server, name: string, firstId: string, id: string, now: string): Outcome {
    if s.tabs == [] && s.notes != [] then
      var moved := ClaimAll(s.notes, firstId);
      var migrated := s.(notes := moved, tabs := [Tab(firstId, "Tab 1", 0, now), Tab(id, name, 1, now)]);
      Outcome(TabsSaved(if AnyUnassigned(s.notes) then NotesSaved(migrated) else migrated),
              [SlateTabs(migrated.tabs), NotesReloaded(moved)])
    else
      var tabs := s.tabs + [Tab(id, name, |s.tabs|, now)];
      Outcome(TabsSaved(s.(tabs := tabs)), [SlateTabs(tabs)])
  }

  function TabsChanged(s: Server, tabs: seq<Tab>): Outcome {
    Outcome(TabsSaved(s.(tabs := tabs)), [SlateTabs(tabs)])
  }

  function TabDeleted(s: Server, id: string): Outcome {
    var kept := TabsWithout(s.tabs, id);
    var freed := ReleaseAll(s.notes, id);
    if id == "" || |kept| == |s.tabs| then Outcome(s, [])
    else if freed == s.notes then TabsChanged(s, Numbered(kept, 0))
    else
      var tabs := Numbered(kept, 0);
      Outcome(NotesSaved(TabsSaved(s.(tabs := tabs, notes := freed))), [SlateTabs(tabs), NotesReloaded(freed)])
  }

  function Handle(s: Server, projects: set<string>, c: Command): Outcome {
    match c
    case AddNote(timestamp, code, text, tabId) =>
      if s.current.None? then Outcome(s, [])
      else
        var note := Note(timestamp, code, text, KnownTab(s.tabs, tabId));
        Outcome(NotesSaved(s.(notes := s.notes + [note])), [NoteAdded(note)])
    case EditNote(index, code, text) =>
      if 0 <= index < |s.notes| then Edited(s, index, s.notes[index].(code := code, text := text)) else Outcome(s, [])
    case DeleteNote(index) =>
      if 0 <= index < |s.notes| then Outcome(NotesSaved(s.(notes := Splice(s.notes, index))), [NoteDeleted(index)])
      else Outcome(s, [])
    case DeleteNotes(indices) =>
      var doomed := Doomed(|s.notes|, indices);
      if doomed == [] then Outcome(s, [])
      else Outcome(NotesSaved(s.(notes := DropAll(s.notes, SetOf(indices)))), [NotesDeleted(doomed)])
    case AssignNoteToTab(index, tabId) =>
      if 0 <= index < |s.notes| then Edited(s, index, s.notes[index].(tabId := KnownTab(s.tabs, tabId))) else Outcome(s, [])
    case CreateTab(name, firstId, id, now) =>
      if s.current.None? || name == "" then Outcome(s, []) else TabCreated(s, name, firstId, id, now)
    case RenameTab(id, name) =>
      if id == "" || name == "" || TabIndex(s.tabs, id) < 0 then Outcome(s, []) else TabsChanged(s, Renamed(s.tabs, id, name))
    case ReorderTabs(ids) => TabsChanged(s, ReorderedTabs(s.tabs, ids))
    case DeleteTab(id) => TabDeleted(s, id)
    case LoadProject(projectId) =>
      if projectId !in projects then Outcome(s, [])
      else
        var notes, tabs := Stored(s.savedNotes, projectId), Stored(s.savedTabs, projectId);
        Outcome(s.(current := Some(projectId), notes := notes, tabs := tabs), [ProjectLoaded(projectId, notes, tabs)])
  }

  class SlateService {
    const projects: set<string>
    var current: Option<string>
    var notes: seq<Note>
    var tabs: seq<Tab>
    var savedNotes: map<string, seq<Note>>
    var savedTabs: map<string, seq<Tab>>

    ghost function State(): Server
      reads this
    {
      Server(current, notes, tabs, savedNotes, savedTabs)
    }

    constructor (projects: set<string>, savedNotes: map<string, seq<Note>>, savedTabs: map<string, seq<Tab>>)
      ensures this.projects == projects && State() == Server(None, [], [], savedNotes, savedTabs)
    {
      this.projects := projects;
      current, notes, tabs := None, [], [];
      this.savedNotes, this.savedTabs := savedNotes, savedTabs;
    }

    method WriteNotes()
      modifies this
      ensures State() == NotesSaved(old(State()))
    {
      if current.Some? { savedNotes := savedNotes[current.value := notes]; }
    }

    method WriteTabs()
      modifies this
      ensures State() == TabsSaved(old(State()))
    {
      if current.Some? { savedTabs := savedTabs[current.value := tabs]; }
    }

    method OnAddNote(timestamp: string, code: string, text: string, tabId: Option<string>) returns (sent: seq<Message>)
      modifies this
      ensures Outcome(State(), sent) == Handle(old(State()), projects, AddNote(timestamp, code, text, tabId))
    {
      sent := [];
      if current.None? { return; }
      var note := Note(timestamp, code, text, KnownTab(tabs, tabId));
      notes := notes + [note];
      WriteNotes();
      sent := [NoteAdded(note)];
    }

    method OnEditNote(index: int, code: string, text: string) returns (sent: seq<Message>)
      modifies this
      ensures Outcome(State(), sent) == Handle(old(State()), projects, EditNote(index, code, text))
    {
      sent := [];
      if !(0 <= index < |notes|) { return; }
      var note := notes[index].(code := code);
      note := note.(text := text);
      notes := notes[index := note];
      WriteNotes();
      sent := [NoteEdited(index, notes[index])];
    }

    method OnDeleteNote(index: int) returns (sent: seq<Message>)
      modifies this
      ensures Outcome(State(), sent) == Handle(old(State()), projects, DeleteNote(index))
    {
      sent := [];
      if !(0 <= index < |notes|) { return; }
      notes := notes[..index] + notes[index + 1..];
      WriteNotes();
      sent := [NoteDeleted(index)];
    }

    /** The requested positions may repeat or be out of range; splicing them out from the highest down
        leaves exactly the notes at the other positions. */
    method OnDeleteNotes(indices: seq<int>) returns (sent: seq<Message>)
      modifies this
      ensures Outcome(State(), sent) == Handle(old(State()), projects, DeleteNotes(indices))
    {
      hide Doomed, DropAll, SpliceAll;
      sent := [];
      var doomed := Doomed(|notes|, indices);
      SplicingDoomed(notes, indices);
      assert doomed[0..] == doomed;
      for k := 0 to |doomed|
        invariant SpliceAll(notes, doomed[k..]) == SpliceAll(old(notes), doomed)
        invariant State() == old(State()).(notes := notes)
      {
        var i := doomed[k];
        assert doomed[k..][0] == i && doomed[k..][1..] == doomed[k + 1..];
        SpliceNext(notes, doomed[k..]);
        if 0 <= i < |notes| {
          notes := notes[..i] + notes[i + 1..];
        }
      }
      assert doomed[|doomed|..] == [];
      SpliceNext(notes, []);
      SpliceNext(old(notes), doomed);
      if |doomed| > 0 {
        WriteNotes();
        sent := [NotesDeleted(doomed)];
      }
    }

    method OnAssignNoteToTab(index: int, tabId: Option<string>) returns (sent: seq<Message>)
      modifies this
      ensures Outcome(State(), sent) == Handle(old(State()), projects, AssignNoteToTab(index, tabId))
    {
      sent := [];
      if !(0 <= index < |notes|) { return; }
      notes := notes[index := notes[index].(tabId := KnownTab(tabs, tabId))];
      WriteNotes();
      sent := [NoteEdited(index, notes[index])];
    }

    method OnCreateTab(name: string, firstId: string, id: string, now: string) returns (sent: seq<Message>)
      modifies this
      ensures Outcome(State(), sent) == Handle(old(State()), projects, CreateTab(name, firstId, id, now))
    {
      sent := [];
      if current.None? || name == "" { return; }
      var first := |tabs| == 0 && |notes| > 0;
      if first {
        tabs := tabs + [Tab(firstId, "Tab 1", 0, now)];
        var touched := false;
        for k := 0 to |notes|
          invariant |notes| == |old(notes)|
          invariant State() == old(State()).(notes := notes, tabs := [Tab(firstId, "Tab 1", 0, now)])
          invariant forall j :: 0 <= j < k ==> notes[j] == Claimed(old(notes)[j], firstId)
          invariant forall j :: k <= j < |notes| ==> notes[j] == old(notes)[j]
          invariant touched <==> AnyUnassigned(old(notes)[..k])
        {
          assert old(notes)[..k + 1] == old(notes)[..k] + [old(notes)[k]];
          if Unassigned(notes[k]) {
            notes := notes[k := notes[k].(tabId := Some(firstId))];
            touched := true;
          }
        }
        assert old(notes)[..|notes|] == old(notes);
        assert notes == ClaimAll(old(notes), firstId);
        if touched { WriteNotes(); }
      }
      var tab := Tab(id, name, |tabs|, now);
      assert [Tab(firstId, "Tab 1", 0, now)] + [tab] == [Tab(firstId, "Tab 1", 0, now), tab];
      tabs := tabs + [tab];
      WriteTabs();
      sent := [SlateTabs(tabs)];
      if first { sent := sent + [NotesReloaded(notes)]; }
    }

    method OnRenameTab(id: string, name: string) returns (sent: seq<Message>)
      modifies this
      ensures Outcome(State(), sent) == Handle(old(State()), projects, RenameTab(id, name))
    {
      sent := [];
      if id == "" || name == "" { return; }
      var i := TabIndex(tabs, id);
      if i < 0 { return; }
      tabs := tabs[i := tabs[i].(name := name)];
      WriteTabs();
      sent := [SlateTabs(tabs)];
    }

    method OnReorderTabs(ids: seq<string>) returns (sent: seq<Message>)
      modifies this
      ensures Outcome(State(), sent) == Handle(old(State()), projects, ReorderTabs(ids))
    {
      tabs := SlateTabs.ReorderTabs(tabs, ids);
      WriteTabs();
      sent := [Message.SlateTabs(tabs)];
    }

    method OnDeleteTab(id: string) returns (sent: seq<Message>)
      modifies this
      ensures Outcome(State(), sent) == Handle(old(State()), projects, DeleteTab(id))
    {
      sent := [];
      if id == "" { return; }
      var before := |tabs|;
      tabs := TabsWithout(tabs, id);
      if |tabs| == before {
        NoSuchTab(old(tabs), id);
        return;
      }
      var touched := false;
      for k := 0 to |notes|
        invariant |notes| == |old(notes)| && State() == old(State()).(notes := notes, tabs := TabsWithout(old(tabs), id))
        invariant forall j :: 0 <= j < k ==> notes[j] == Released(old(notes)[j], id)
        invariant forall j :: k <= j < |notes| ==> notes[j] == old(notes)[j]
        invariant touched == exists j :: 0 <= j < k && notes[j] != old(notes)[j]
      {
        if notes[k].tabId == Some(id) {
          notes := notes[k := notes[k].(tabId := None)];
          touched := true;
        }
      }
      assert notes == ReleaseAll(old(notes), id);
      assert touched <==> notes != old(notes);
      tabs := Numbered(tabs, 0);
      if current.Some? {
        WriteTabs();
        if touched { WriteNotes(); }
      }
      sent := [SlateTabs(tabs)];
      if touched { sent := sent + [NotesReloaded(notes)]; }
    }

    method OnLoadProject(projectId: string) returns (sent: seq<Message>)
      modifies this
      ensures Outcome(State(), sent) == Handle(old(State()), projects, LoadProject(projectId))
    {
      sent := [];
      if projectId !in projects { return; }
      notes := Stored(savedNotes, projectId);
      tabs := Stored(savedTabs, projectId);
      current := Some(projectId);
      sent := [ProjectLoaded(projectId, notes, tabs)];
    }
  }

  // ----- A browser following along -----

  datatype Client = Client(current: Option<string>, notes: seq<Note>, tabs: seq<Tab>)

  /** An edit outside the list cannot be expressed on a sequence and changes nothing here; the replica
      module shows that none is ever delivered. */
  function Receive(c: Client, m: Message): Client {
    match m
    case ProjectLoaded(projectId, loaded, loadedTabs) => Client(Some(projectId), loaded, loadedTabs)
    case NoActiveProject => Client(None, [], [])
    case SlateTabs(tabs) => c.(tabs := tabs)
    case NotesReloaded(reloaded) => c.(notes := reloaded)
    case NoteAdded(added) => c.(notes := c.notes + [added])
    case NoteEdited(index, edited) => if 0 <= index < |c.notes| then c.(notes := c.notes[index := edited]) else c
    case NoteDeleted(deleted) => c.(notes := DropAll(c.notes, {deleted}))
    case NotesDeleted(indices) => c.(notes := DropAll(c.notes, SetOf(indices)))
  }

  function ReceiveAll(c: Client, messages: seq<Message>): Client
    decreases |messages|
  {
    if messages == [] then c else ReceiveAll(Receive(c, messages[0]), messages[1..])
  }

  lemma {:induction false} SpliceIsDropAll<T>(s: seq<T>, i: int)
    ensures Splice(s, i) == DropAll(s, {i})
  {
    DropAllHighest(s, i, {});
    DropAllNone(Splice(s, i));
    assert {i} + {} == {i};
  }

  /** A batch delete with any list of positions, repeated or out of range, is the same as deleting its
      distinct positions one message at a time from the highest down. */
  lemma {:induction false} BatchIsDescendingDeletes(c: Client, indices: seq<int>, distinct: seq<int>)
    requires Descending(distinct) && SetOf(distinct) == SetOf(indices)
    ensures Receive(c, NotesDeleted(indices)) == ReceiveAll(c, Map(distinct, (i: int) => NoteDeleted(i)))
  {
    DeletesAreSplices(c, distinct);
    SpliceAllIsDropAll(c.notes, distinct);
  }

  lemma {:induction false} DeletesAreSplices(c: Client, indices: seq<int>)
    ensures ReceiveAll(c, Map(indices, (i: int) => NoteDeleted(i))) == c.(notes := SpliceAll(c.notes, indices))
    decreases |indices|
  {
    var deletes := Map(indices, (i: int) => NoteDeleted(i));
    if indices == [] {
    } else {
      SpliceIsDropAll(c.notes, indices[0]);
      DeletesAreSplices(c.(notes := Splice(c.notes, indices[0])), indices[1..]);
      assert deletes[1..] == Map(indices[1..], (i: int) => NoteDeleted(i));
    }
  }

  // ----- The log pane -----

  const LOG_LIMIT: nat := 200

  function Tail<T>(s: seq<T>, n: nat): seq<T> {
    if |s| <= n then s else s[|s| - n..]
  }

  class LogPane {
    var logs: seq<string>

    constructor ()
      ensures logs == []
    {
      logs := [];
    }

    /** Whatever was logged before, of which the pane shows the last lines. */
    method PushLog(line: string, ghost history: seq<string>)
      requires logs == Tail(history, LOG_LIMIT)
      modifies this
      ensures logs == Tail(history + [line], LOG_LIMIT)
    {
      logs := (if |logs| <= 199 then logs else logs[|logs| - 199..]) + [line];
    }
  }

  function LogAfter(lines: seq<string>): seq<string> {
    if lines == [] then [] else Tail(LogAfter(lines[..|lines| - 1]), 199) + [lines[|lines| - 1]]
  }

  lemma {:induction false} LogHoldsLastLines(lines: seq<string>)
    ensures LogAfter(lines) == Tail(lines, LOG_LIMIT)
  {
    if lines == [] {
    } else {
      var front, line := lines[..|lines| - 1], lines[|lines| - 1];
      LogHoldsLastLines(front);
      assert front + [line] == lines;
      if |front| > 199 {
        assert Tail(Tail(front, LOG_LIMIT), 199) == front[|front| - 199..];
      }
    }
  }
}

/** What each command does to the notes and tabs in memory, told field by field. */
module SlateCommands {
  import opened Sequences
  import opened SlateTabs
  import opened SlateNotes
  import opened SlateReplica

  /** All entries but the one at `i` are as before. */
  ghost predicate OnlyAt<T>(before: seq<T>, after: seq<T>, i: nat) {
    |after| == |before| && forall k :: 0 <= k < |before| && k != i ==> after[k] == before[k]
  }

  /** A tab that does not exist, and the empty id, count as no tab. */
  ghost predicate InAskedTab(tabId: Option<string>, asked: Option<string>, tabs: seq<Tab>) {
    if asked.Some? && asked.value != "" && (exists t :: t in tabs && t.id == asked.value) then tabId == asked else tabId == None
  }

  /** A new note comes last, with its four fields; an edit changes the code and the text of one note, an
      assignment its tab. Without a project, or out of range, nothing happens. */
  lemma {:induction false} NoteCommandsShow(s: Server, projects: set<string>, c: Command)
    requires c.AddNote? || c.EditNote? || c.AssignNoteToTab?
    ensures
      var o := Handle(s, projects, c);
      var t := o.next;
      && t.current == s.current && t.tabs == s.tabs
      && (c.AddNote? && s.current.Some? ==>
            && |t.notes| == |s.notes| + 1 && t.notes[..|s.notes|] == s.notes
            && var n := t.notes[|s.notes|];
               n.timestamp == c.timestamp && n.code == c.code && n.text == c.text && InAskedTab(n.tabId, c.tabId, s.tabs))
      && (c.EditNote? && 0 <= c.index < |s.notes| ==>
            && OnlyAt(s.notes, t.notes, c.index)
            && var was, now := s.notes[c.index], t.notes[c.index];
               now.code == c.code && now.text == c.text && now.timestamp == was.timestamp && now.tabId == was.tabId)
      && (c.AssignNoteToTab? && 0 <= c.index < |s.notes| ==>
            && OnlyAt(s.notes, t.notes, c.index)
            && Content(t.notes[c.index]) == Content(s.notes[c.index])
            && InAskedTab(t.notes[c.index].tabId, c.tabId, s.tabs))
      && ((if c.AddNote? then s.current.None? else !(0 <= c.index < |s.notes|)) ==> t == s && o.sent == [])
  {
  }

  /** `kept` lists in order the positions below `count` that are not dropped. */
  ghost predicate Kept(kept: seq<nat>, count: nat, drop: set<int>) {
    && (forall i, j :: 0 <= i < j < |kept| ==> kept[i] < kept[j])
    && (forall n: nat :: n in kept <==> n < count && n !in drop)
  }

  lemma {:induction false} KeptMore(kept: seq<nat>, count: nat, drop: set<int>)
    requires Kept(kept, count, drop)
    ensures Kept(if count in drop then kept else kept + [count], count + 1, drop)
  {
    forall i | 0 <= i < |kept| ensures kept[i] < count {
      assert kept[i] in kept;
    }
  }

  lemma {:induction false} DropAllPicksMore<T>(s: seq<T>, drop: set<int>, kept: seq<nat>)
    requires s != [] && Picks(s[..|s| - 1], kept, DropAll(s[..|s| - 1], drop))
    ensures Picks(s, if |s| - 1 in drop then kept else kept + [|s| - 1], DropAll(s, drop))
  {
    var front := DropAll(s[..|s| - 1], drop);
    DropAllLast(s, drop);
    PicksMore(s, kept, front);
    hide DropAll, Picks;
    assert front + [] == front;
  }

  lemma {:induction false} NothingKept<T>(s: seq<T>, drop: set<int>)
    requires s == []
    ensures Kept([], |s|, drop) && Picks(s, [], DropAll(s, drop))
  {
  }

  /** The positions that a deletion leaves. */
  lemma {:induction false} DropAllPositions<T>(s: seq<T>, drop: set<int>) returns (kept: seq<nat>)
    ensures Kept(kept, |s|, drop)
    ensures Picks(s, kept, DropAll(s, drop))
  {
    hide Kept, Picks, DropAll;
    if s == [] {
      kept := [];
      NothingKept(s, drop);
    } else {
      var front := DropAllPositions(s[..|s| - 1], drop);
      KeptMore(front, |s| - 1, drop);
      DropAllPicksMore(s, drop, front);
      kept := if |s| - 1 in drop then front else front + [|s| - 1];
    }
  }

  /** Deleting leaves exactly the notes at the positions that were not named, in their order. */
  lemma {:induction false} DeletionsKeep(s: Server, projects: set<string>, c: Command) returns (kept: seq<nat>)
    requires c.DeleteNote? || c.DeleteNotes?
    ensures forall i, j :: 0 <= i < j < |kept| ==> kept[i] < kept[j]
    ensures forall n: nat :: n in kept <==> n < |s.notes| && if c.DeleteNote? then n != c.index else n !in c.indices
    ensures
      var t := Handle(s, projects, c).next;
      && t.current == s.current && t.tabs == s.tabs && |t.notes| == |kept|
      && forall i :: 0 <= i < |kept| ==> kept[i] < |s.notes| && t.notes[i] == s.notes[kept[i]]
  {
    if c.DeleteNote? {
      hide DropAll;
      kept := DropAllPositions(s.notes, {c.index});
      SpliceIsDropAll(s.notes, c.index);
    } else {
      hide DropAll, Doomed;
      kept := DropAllPositions(s.notes, SetOf(c.indices));
      DeletesAgree(s.notes, c.indices);
    }
  }

  /** A new tab comes last, with its name, its position and its time; the first tab of a project that has
      notes comes behind another new one. A renaming changes the name of the first tab with that id. */
  lemma {:induction false} TabCommandsShow(s: Server, projects: set<string>, c: Command)
    requires c.CreateTab? || c.RenameTab?
    ensures
      var t := Handle(s, projects, c).next;
      && (c.CreateTab? && s.current.Some? && c.name != "" ==>
            if s.tabs == [] && s.notes != [] then
              t.tabs == [Tab(c.firstId, "Tab 1", 0, c.now), Tab(c.id, c.name, 1, c.now)]
              && |t.notes| == |s.notes|
              && forall i :: 0 <= i < |s.notes| ==>
                   t.notes[i] == if s.notes[i].tabId.Some? && s.notes[i].tabId.value != "" then s.notes[i]
                                 else s.notes[i].(tabId := Some(c.firstId))
            else t.tabs == s.tabs + [Tab(c.id, c.name, |s.tabs|, c.now)] && t.notes == s.notes)
      && (c.CreateTab? && (s.current.None? || c.name == "") ==> t == s)
      && (c.RenameTab? ==> t.notes == s.notes)
      && (c.RenameTab? && c.id != "" && c.name != "" ==>
            forall i: nat :: i < |s.tabs| && s.tabs[i].id == c.id && (forall k :: 0 <= k < i ==> s.tabs[k].id != c.id) ==>
              OnlyAt(s.tabs, t.tabs, i) && t.tabs[i] == s.tabs[i].(name := c.name))
      && (c.RenameTab? && (c.id == "" || c.name == "" || (forall tab :: tab in s.tabs ==> tab.id != c.id)) ==> t == s)
  {
    if c.RenameTab? {
      IndexHas(s.tabs, c.id);
    }
  }
}

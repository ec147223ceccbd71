/** The slate's tabs: each carries an id, a name and a position, and notes name them by id. */
module SlateTabs {
  import opened Sequences
  import opened KeyedLists

  datatype Tab = Tab(id: string, name: string, sortOrder: int, createdAt: string)

  function TabId(t: Tab): string { t.id }

  function TabIndex(tabs: seq<Tab>, id: string): (i: int)
    ensures -1 <= i < |tabs|
  {
    IndexOf(tabs, TabId, id)
  }

  predicate HasTab(tabs: seq<Tab>, id: string) { exists t :: t in tabs && t.id == id }

  lemma {:induction false} IndexHas(tabs: seq<Tab>, id: string)
    ensures TabIndex(tabs, id) >= 0 <==> HasTab(tabs, id)
  {
    hide IndexOf;
    var i := TabIndex(tabs, id);
    if i >= 0 {
      assert tabs[i] in tabs && TabId(tabs[i]) == id;
    }
  }

  function Renamed(tabs: seq<Tab>, id: string, name: string): seq<Tab> {
    var i := TabIndex(tabs, id);
    if i < 0 then tabs else tabs[i := tabs[i].(name := name)]
  }

  function TabsWithout(tabs: seq<Tab>, id: string): seq<Tab> { Without(tabs, TabId, id) }

  lemma {:induction false} NoSuchTab(tabs: seq<Tab>, id: string)
    requires |TabsWithout(tabs, id)| == |tabs|
    ensures TabsWithout(tabs, id) == tabs && !HasTab(tabs, id)
  {
    WithoutFull(tabs, TabId, id);
    assert forall t :: t in TabsWithout(tabs, id) ==> TabId(t) != id;
  }

  /** Positions `from`, `from + 1`, ... */
  function Numbered(tabs: seq<Tab>, from: nat): seq<Tab> {
    seq(|tabs|, i requires 0 <= i < |tabs| => tabs[i].(sortOrder := from + i))
  }

  // ----- Reordering -----

  /** `new Map(tabs.map(t => [t.id, t]))`: the last tab of an id wins, at the place of the first. */
  function ById(tabs: seq<Tab>): seq<Tab> {
    if tabs == [] then []
    else
      var front, t := ById(tabs[..|tabs| - 1]), tabs[|tabs| - 1];
      var i := TabIndex(front, t.id);
      if i >= 0 then front[i := t] else front + [t]
  }

  /** What the loop over the requested ids has left in the map and put into the new list. */
  function Picked(byId: seq<Tab>, ids: seq<string>): (seq<Tab>, seq<Tab>) {
    if ids == [] then (byId, [])
    else
      var last := |ids| - 1;
      var (left, next) := Picked(byId, ids[..last]);
      var i := TabIndex(left, ids[last]);
      if i < 0 then (left, next) else (left[..i] + left[i + 1..], next + [left[i].(sortOrder := last)])
  }

  function ReorderedTabs(tabs: seq<Tab>, ids: seq<string>): seq<Tab> {
    var (left, next) := Picked(ById(tabs), ids);
    next + Numbered(left, |next|)
  }

  method ReorderTabs(tabs: seq<Tab>, ids: seq<string>) returns (next: seq<Tab>)
    ensures next == ReorderedTabs(tabs, ids)
  {
    hide IndexOf;
    var byId: seq<Tab> := [];
    for k := 0 to |tabs|
      invariant byId == ById(tabs[..k])
    {
      assert tabs[..k + 1][..k] == tabs[..k];
      var i := TabIndex(byId, tabs[k].id);
      byId := if i >= 0 then byId[i := tabs[k]] else byId + [tabs[k]];
    }
    assert tabs[..|tabs|] == tabs;
    next := [];
    for k := 0 to |ids|
      invariant (byId, next) == Picked(ById(tabs), ids[..k])
    {
      assert ids[..k + 1][..k] == ids[..k];
      var i := TabIndex(byId, ids[k]);
      if i >= 0 {
        next := next + [byId[i].(sortOrder := k)];
        byId := byId[..i] + byId[i + 1..];
      }
    }
    assert ids[..|ids|] == ids;
    ghost var picked := next;
    for k := 0 to |byId|
      invariant next == picked + Numbered(byId[..k], |picked|)
    {
      next := next + [byId[k].(sortOrder := |next|)];
      assert Numbered(byId[..k + 1], |picked|) == Numbered(byId[..k], |picked|) + [byId[k].(sortOrder := |picked| + k)];
    }
    assert byId[..|byId|] == byId;
  }

  function TabIds(tabs: seq<Tab>): seq<string> { Map(tabs, TabId) }

  lemma {:induction false} ByIdSame(tabs: seq<Tab>)
    requires DistinctKeys(tabs, TabId)
    ensures ById(tabs) == tabs
  {
    if tabs == [] {
    } else {
      var last := |tabs| - 1;
      ByIdSame(tabs[..last]);
      SplitLast(tabs);
      LastIsNew(tabs);
    }
  }

  lemma {:induction false} LastIsNew(tabs: seq<Tab>)
    requires DistinctKeys(tabs, TabId) && tabs != []
    ensures TabIndex(tabs[..|tabs| - 1], tabs[|tabs| - 1].id) < 0
  {
    hide IndexOf;
    var last := |tabs| - 1;
    var i := TabIndex(tabs[..last], tabs[last].id);
    assert i >= 0 ==> TabId(tabs[i]) == TabId(tabs[last]);
  }

  /** The map keeps one tab of each id, at the place of the first with that id. */
  lemma {:induction false} ByIdIds(tabs: seq<Tab>)
    ensures TabIds(ById(tabs)) == Dedupe(TabIds(tabs))
  {
    if tabs == [] {
    } else {
      hide IndexOf, ById;
      ByIdIds(tabs[..|tabs| - 1]);
      ByIdMore(tabs);
    }
  }

  /** It keeps the last tab of each id. */
  lemma {:induction false} ByIdLast(tabs: seq<Tab>, k: nat)
    requires k < |tabs| && forall j :: k < j < |tabs| ==> tabs[j].id != tabs[k].id
    ensures tabs[k] in ById(tabs)
  {
    hide IndexOf, Put;
    var last := |tabs| - 1;
    var front := tabs[..last];
    if k == last {
      ByIdHolds(ById(front), tabs[last]);
    } else {
      assert front[k] == tabs[k];
      forall j | k < j < last ensures front[j].id != front[k].id {
        assert front[j] == tabs[j];
      }
      ByIdLast(front, k);
      ByIdKeeps(ById(front), tabs[last], tabs[k]);
    }
    ByIdPut(tabs);
  }

  lemma {:induction false} ByIdPut(tabs: seq<Tab>)
    requires tabs != []
    ensures ById(tabs) == Put(ById(tabs[..|tabs| - 1]), tabs[|tabs| - 1])
  {
    hide IndexOf;
  }

  lemma {:induction false} ByIdMore(tabs: seq<Tab>)
    requires tabs != [] && TabIds(ById(tabs[..|tabs| - 1])) == Dedupe(TabIds(tabs[..|tabs| - 1]))
    ensures TabIds(ById(tabs)) == Dedupe(TabIds(tabs))
  {
    hide IndexOf;
    var last := |tabs| - 1;
    var front, t := ById(tabs[..last]), tabs[last];
    assert TabIds(tabs)[..last] == TabIds(tabs[..last]);
    IndexHas(front, t.id);
    InTabIds(front, t.id);
    var i := TabIndex(front, t.id);
    if i >= 0 {
      assert TabIds(front[i := t]) == TabIds(front);
    } else {
      assert TabIds(front + [t]) == TabIds(front) + [t.id];
    }
  }

  function Put(front: seq<Tab>, t: Tab): seq<Tab> {
    var i := TabIndex(front, t.id);
    if i >= 0 then front[i := t] else front + [t]
  }

  lemma {:induction false} ByIdKeeps(front: seq<Tab>, t: Tab, u: Tab)
    requires u in front && u.id != t.id
    ensures u in Put(front, t)
  {
    hide IndexOf;
    var k :| 0 <= k < |front| && front[k] == u;
    assert TabId(u) == u.id && Put(front, t)[k] == u;
  }

  lemma {:induction false} ByIdHolds(front: seq<Tab>, t: Tab)
    ensures t in Put(front, t)
  {
    hide IndexOf;
    var i := TabIndex(front, t.id);
    assert Put(front, t)[if i >= 0 then i else |front|] == t;
  }

  /** The known ids of a request, each at its first mention. */
  function Requested(tabs: seq<Tab>, ids: seq<string>): seq<string> {
    Dedupe(Filter(ids, (id: string) => HasTab(tabs, id)))
  }

  lemma {:induction false} RequestedMore(tabs: seq<Tab>, ids: seq<string>, id: string)
    ensures Requested(tabs, ids + [id]) ==
            if HasTab(tabs, id) && id !in ids then Requested(tabs, ids) + [id] else Requested(tabs, ids)
  {
    var known := (x: string) => HasTab(tabs, x);
    FilterAppend(ids, [id], known);
    FilterCons(id, [], known);
    var before := Filter(ids, known);
    if HasTab(tabs, id) {
      assert (before + [id])[..|before|] == before;
    } else {
      assert before + [] == before;
    }
  }

  /** `tabs` without those whose id is listed. */
  function Unlisted(tabs: seq<Tab>, ids: seq<string>): seq<Tab> {
    Filter(tabs, (t: Tab) => t.id !in ids)
  }

  lemma {:induction false} UnlistedMore(tabs: seq<Tab>, ids: seq<string>, id: string)
    requires DistinctKeys(tabs, TabId)
    ensures
      var left := Unlisted(tabs, ids);
      var i := TabIndex(left, id);
      && (i >= 0 <==> HasTab(tabs, id) && id !in ids)
      && Unlisted(tabs, ids + [id]) == if i < 0 then left else left[..i] + left[i + 1..]
  {
    var left := Unlisted(tabs, ids);
    IndexHas(left, id);
    FilterDistinct(tabs, TabId, (t: Tab) => t.id !in ids);
    SpliceOut(left, TabId, id);
    WithoutFilter(tabs, TabId, id, (t: Tab) => t.id !in ids, (t: Tab) => t.id !in ids + [id]);
    assert forall t :: t in left <==> t in tabs && t.id !in ids;
  }

  /** Every tab of `s` is a tab of `tabs`, but for its position. */
  ghost predicate TabsOf(s: seq<Tab>, tabs: seq<Tab>) {
    forall t :: t in s ==> exists u :: u in tabs && u.(sortOrder := t.sortOrder) == t
  }

  lemma {:induction false} PickedSpec(tabs: seq<Tab>, ids: seq<string>)
    requires DistinctKeys(tabs, TabId)
    ensures Picked(tabs, ids).0 == Unlisted(tabs, ids)
    ensures TabIds(Picked(tabs, ids).1) == Requested(tabs, ids) && TabsOf(Picked(tabs, ids).1, tabs)
  {
    if ids == [] {
      FilterAll(tabs, (t: Tab) => t.id !in ids);
    } else {
      var last := |ids| - 1;
      PickedSpec(tabs, ids[..last]);
      SplitLast(ids);
      UnlistedMore(tabs, ids[..last], ids[last]);
      RequestedMore(tabs, ids[..last], ids[last]);
      var (left, next) := Picked(tabs, ids[..last]);
      var i := TabIndex(left, ids[last]);
      assert forall t :: t in left ==> t in tabs;
      hide Unlisted, Requested, IndexOf, DistinctKeys;
      if i >= 0 {
        assert left[i] in tabs;
        PickOne(tabs, next, left[i], last);
      }
    }
  }

  lemma {:induction false} PickOne(tabs: seq<Tab>, next: seq<Tab>, u: Tab, at: int)
    requires TabsOf(next, tabs) && u in tabs
    ensures TabsOf(next + [u.(sortOrder := at)], tabs)
    ensures TabIds(next + [u.(sortOrder := at)]) == TabIds(next) + [u.id]
  {
    var t := u.(sortOrder := at);
    assert u.(sortOrder := t.sortOrder) == t;
  }

  /** Whatever list of ids a client sends, repeated or unknown ones included, the known ids come first, in
      the requested order and each once, and all other tabs follow in their old order. */
  lemma {:induction false} ReorderOrder(tabs: seq<Tab>, ids: seq<string>)
    requires DistinctKeys(tabs, TabId)
    ensures TabIds(ReorderedTabs(tabs, ids)) == Requested(tabs, ids) + TabIds(Unlisted(tabs, ids))
    ensures TabsOf(ReorderedTabs(tabs, ids), tabs)
  {
    hide Picked, Requested, ById, DistinctKeys, Numbered, TabsOf, TabIds, Unlisted;
    ByIdSame(tabs);
    PickedSpec(tabs, ids);
    var (left, next) := Picked(tabs, ids);
    UnlistedOf(tabs, ids);
    JoinNumbered(next, left, tabs);
  }

  lemma {:induction false} UnlistedOf(tabs: seq<Tab>, ids: seq<string>)
    ensures forall t :: t in Unlisted(tabs, ids) ==> t in tabs
  {
  }

  lemma {:induction false} JoinNumbered(next: seq<Tab>, left: seq<Tab>, tabs: seq<Tab>)
    requires TabsOf(next, tabs) && forall t :: t in left ==> t in tabs
    ensures TabIds(next + Numbered(left, |next|)) == TabIds(next) + TabIds(left)
    ensures TabsOf(next + Numbered(left, |next|), tabs)
  {
    var rest := Numbered(left, |next|);
    forall t | t in rest ensures exists u :: u in tabs && u.(sortOrder := t.sortOrder) == t {
      var i :| 0 <= i < |rest| && rest[i] == t;
      assert left[i] in left && left[i].(sortOrder := t.sortOrder) == t;
    }
  }

  /** So no tab is dropped or duplicated. */
  lemma {:induction false} ReorderConserves(tabs: seq<Tab>, ids: seq<string>)
    requires DistinctKeys(tabs, TabId)
    ensures multiset(TabIds(ReorderedTabs(tabs, ids))) == multiset(TabIds(tabs))
  {
    ReorderOrder(tabs, ids);
    var first, rest := Requested(tabs, ids), TabIds(Unlisted(tabs, ids));
    DedupeDistinct(Filter(ids, (id: string) => HasTab(tabs, id)));
    FilterDistinct(tabs, TabId, (t: Tab) => t.id !in ids);
    IdsDistinct(tabs);
    IdsDistinct(Unlisted(tabs, ids));
    forall id ensures multiset(first + rest)[id] == multiset(TabIds(tabs))[id] {
      DistinctCount(first, id);
      DistinctCount(rest, id);
      DistinctCount(TabIds(tabs), id);
      InTabIds(tabs, id);
      InTabIds(Unlisted(tabs, ids), id);
      assert id in first <==> id in ids && HasTab(tabs, id);
      assert HasTab(Unlisted(tabs, ids), id) <==> id !in ids && HasTab(tabs, id);
    }
  }

  lemma {:induction false} InTabIds(tabs: seq<Tab>, id: string)
    ensures id in TabIds(tabs) <==> HasTab(tabs, id)
  {
    if id in TabIds(tabs) {
      var i :| 0 <= i < |tabs| && TabIds(tabs)[i] == id;
      assert tabs[i] in tabs;
    }
    if t :| t in tabs && t.id == id {
      var i :| 0 <= i < |tabs| && tabs[i] == t;
      assert TabIds(tabs)[i] == id;
    }
  }

  lemma {:induction false} IdsDistinct(tabs: seq<Tab>)
    requires DistinctKeys(tabs, TabId)
    ensures Distinct(TabIds(tabs))
  {
    forall i, j | 0 <= i < j < |tabs| ensures TabIds(tabs)[i] != TabIds(tabs)[j] {
      assert TabId(tabs[i]) != TabId(tabs[j]);
    }
  }

  // ----- The positions written into reordered tabs -----

  /** The request names an existing tab here for the first time. */
  predicate FirstMention(tabs: seq<Tab>, ids: seq<string>, j: nat)
    requires j < |ids|
  {
    HasTab(tabs, ids[j]) && ids[j] !in ids[..j]
  }

  /** No unknown or repeated id comes before the first mention of a tab. */
  ghost predicate Gapless(tabs: seq<Tab>, ids: seq<string>) {
    forall i: nat, j: nat :: i < j < |ids| && FirstMention(tabs, ids, j) ==> FirstMention(tabs, ids, i)
  }

  ghost predicate AllFirst(tabs: seq<Tab>, ids: seq<string>) {
    forall j: nat :: j < |ids| ==> FirstMention(tabs, ids, j)
  }

  /** Every tab carries its index as its position. */
  ghost predicate InPlace(tabs: seq<Tab>) {
    forall k :: 0 <= k < |tabs| ==> tabs[k].sortOrder == k
  }

  lemma {:induction false} FrontMention(tabs: seq<Tab>, ids: seq<string>, j: nat)
    requires j < |ids| - 1
    ensures FirstMention(tabs, ids[..|ids| - 1], j) <==> FirstMention(tabs, ids, j)
  {
    assert ids[..|ids| - 1][..j] == ids[..j];
  }

  /** One requested id: a first mention is appended with its place in the request, anything else is not. */
  lemma {:induction false} PickedStep(tabs: seq<Tab>, ids: seq<string>)
    requires DistinctKeys(tabs, TabId) && ids != []
    ensures
      var last := |ids| - 1;
      var before, after := Picked(tabs, ids[..last]).1, Picked(tabs, ids).1;
      if FirstMention(tabs, ids, last) then
        |after| == |before| + 1 && after[..|before|] == before && after[|before|].sortOrder == last
      else after == before
  {
    hide Unlisted, IndexOf, DistinctKeys, HasTab;
    var last := |ids| - 1;
    PickedSpec(tabs, ids[..last]);
    UnlistedMore(tabs, ids[..last], ids[last]);
  }

  lemma {:induction false} AllFirstMore(tabs: seq<Tab>, ids: seq<string>)
    requires ids != []
    ensures AllFirst(tabs, ids) <==> AllFirst(tabs, ids[..|ids| - 1]) && FirstMention(tabs, ids, |ids| - 1)
  {
    hide FirstMention;
    var last := |ids| - 1;
    forall j: nat | j < last ensures FirstMention(tabs, ids[..last], j) <==> FirstMention(tabs, ids, j) {
      FrontMention(tabs, ids, j);
    }
    if AllFirst(tabs, ids[..last]) && FirstMention(tabs, ids, last) {
      forall j: nat | j < |ids| ensures FirstMention(tabs, ids, j) {
        assert j < last ==> FirstMention(tabs, ids[..last], j);
      }
    }
  }

  lemma {:induction false} PickedLength(tabs: seq<Tab>, ids: seq<string>)
    requires DistinctKeys(tabs, TabId)
    ensures |Picked(tabs, ids).1| <= |ids|
    ensures |Picked(tabs, ids).1| == |ids| <==> AllFirst(tabs, ids)
  {
    if ids == [] {
      assert Picked(tabs, ids).1 == [];
    } else {
      hide Picked, FirstMention, DistinctKeys, AllFirst;
      PickedLength(tabs, ids[..|ids| - 1]);
      PickedStep(tabs, ids);
      AllFirstMore(tabs, ids);
    }
  }

  lemma {:induction false} GaplessMore(tabs: seq<Tab>, ids: seq<string>)
    requires ids != []
    ensures
      var last := |ids| - 1;
      Gapless(tabs, ids) <==>
        Gapless(tabs, ids[..last]) && (FirstMention(tabs, ids, last) ==> AllFirst(tabs, ids[..last]))
  {
    hide FirstMention;
    var last := |ids| - 1;
    forall j: nat | j < last ensures FirstMention(tabs, ids[..last], j) <==> FirstMention(tabs, ids, j) {
      FrontMention(tabs, ids, j);
    }
    if Gapless(tabs, ids) {
      forall i: nat, j: nat | i < j < last && FirstMention(tabs, ids[..last], j) ensures FirstMention(tabs, ids[..last], i) {
        assert FirstMention(tabs, ids, j) && FirstMention(tabs, ids, i);
      }
    } else if Gapless(tabs, ids[..last]) {
      var i: nat, j: nat :| i < j < |ids| && FirstMention(tabs, ids, j) && !FirstMention(tabs, ids, i);
      assert !FirstMention(tabs, ids[..last], i);
      assert j < last ==> FirstMention(tabs, ids[..last], j);
    }
  }

  lemma {:induction false} PickedInPlaceIff(tabs: seq<Tab>, ids: seq<string>)
    requires DistinctKeys(tabs, TabId)
    ensures InPlace(Picked(tabs, ids).1) <==> Gapless(tabs, ids)
  {
    if ids == [] {
      assert Picked(tabs, ids).1 == [];
    } else {
      hide Picked, FirstMention, DistinctKeys, Gapless, AllFirst;
      var last := |ids| - 1;
      PickedInPlaceIff(tabs, ids[..last]);
      PickedLength(tabs, ids[..last]);
      PickedStep(tabs, ids);
      GaplessMore(tabs, ids);
      var before, after := Picked(tabs, ids[..last]).1, Picked(tabs, ids).1;
      if FirstMention(tabs, ids, last) {
        assert forall k :: 0 <= k < |before| ==> after[k] == after[..|before|][k];
      }
    }
  }

  /** After a reordering every tab carries its index as its position if and only if no unknown or
      repeated id came before the first mention of a tab; otherwise positions repeat or are skipped. */
  lemma {:induction false} PositionsIff(tabs: seq<Tab>, ids: seq<string>)
    requires DistinctKeys(tabs, TabId)
    ensures InPlace(ReorderedTabs(tabs, ids)) <==> Gapless(tabs, ids)
  {
    hide Picked, Gapless, ById, DistinctKeys;
    ByIdSame(tabs);
    PickedInPlaceIff(tabs, ids);
    var (left, next) := Picked(tabs, ids);
    var r := ReorderedTabs(tabs, ids);
    assert r[..|next|] == next;
    if InPlace(r) {
      assert forall k :: 0 <= k < |next| ==> next[k] == r[k];
    }
  }

  lemma {:induction false} PickedMore(byId: seq<Tab>, ids: seq<string>, id: string)
    ensures
      var (left, next) := Picked(byId, ids);
      var i := TabIndex(left, id);
      Picked(byId, ids + [id]) ==
      if i < 0 then (left, next) else (left[..i] + left[i + 1..], next + [left[i].(sortOrder := |ids|)])
  {
    hide IndexOf;
    assert (ids + [id])[..|ids|] == ids;
  }

  lemma {:induction false} TwoTabs(a: Tab, b: Tab, unknown: string)
    requires a.id != b.id && unknown != a.id && unknown != b.id
    ensures DistinctKeys([a, b], TabId) && TabIndex([a, b], a.id) == 0 && TabIndex([a, b], unknown) < 0
  {
    assert TabId(a) == a.id && TabId(b) == b.id;
  }

  lemma {:induction false} PickUnknownThen(a: Tab, b: Tab, unknown: string)
    requires a.id != b.id && unknown != a.id && unknown != b.id
    ensures Picked([a, b], [unknown, a.id]) == ([b], [a.(sortOrder := 1)])
  {
    hide IndexOf, DistinctKeys;
    var tabs := [a, b];
    TwoTabs(a, b, unknown);
    PickedMore(tabs, [], unknown);
    PickedMore(tabs, [unknown], a.id);
    assert [] + [unknown] == [unknown] && [unknown] + [a.id] == [unknown, a.id];
    assert Picked(tabs, []) == (tabs, []) && Picked(tabs, [unknown]) == (tabs, []);
    assert tabs[..0] + tabs[1..] == [b] && [] + [tabs[0].(sortOrder := 1)] == [a.(sortOrder := 1)];
  }

  /** For instance an unknown id in front leaves two tabs with one position. */
  lemma {:induction false} UnknownIdRepeatsPosition(a: Tab, b: Tab, unknown: string)
    requires a.id != b.id && unknown != a.id && unknown != b.id
    ensures ReorderedTabs([a, b], [unknown, a.id]) == [a.(sortOrder := 1), b.(sortOrder := 1)]
  {
    hide Picked, ById, IndexOf, DistinctKeys, Numbered;
    TwoTabs(a, b, unknown);
    ByIdSame([a, b]);
    PickUnknownThen(a, b, unknown);
    NumberedOne(b, 1);
  }

  lemma {:induction false} NumberedOne(t: Tab, from: nat)
    ensures Numbered([t], from) == [t.(sortOrder := from)]
  {
  }

  // ----- Which ids exist -----

  lemma {:induction false} HasAppend(a: seq<Tab>, b: seq<Tab>, id: string)
    ensures HasTab(a + b, id) <==> HasTab(a, id) || HasTab(b, id)
  {
    assert forall t :: t in a + b <==> t in a || t in b;
  }

  lemma {:induction false} SameIdsHas(a: seq<Tab>, b: seq<Tab>, id: string)
    requires TabIds(a) == TabIds(b)
    ensures HasTab(a, id) <==> HasTab(b, id)
  {
    InTabIds(a, id);
    InTabIds(b, id);
  }

  lemma {:induction false} RenamedHas(tabs: seq<Tab>, tab: string, name: string, id: string)
    ensures HasTab(Renamed(tabs, tab, name), id) <==> HasTab(tabs, id)
  {
    hide IndexOf, HasTab;
    assert TabIds(Renamed(tabs, tab, name)) == TabIds(tabs);
    SameIdsHas(Renamed(tabs, tab, name), tabs, id);
  }

  lemma {:induction false} NumberedHas(tabs: seq<Tab>, from: nat, id: string)
    ensures HasTab(Numbered(tabs, from), id) <==> HasTab(tabs, id)
  {
    hide HasTab;
    assert TabIds(Numbered(tabs, from)) == TabIds(tabs);
    SameIdsHas(Numbered(tabs, from), tabs, id);
  }

  lemma {:induction false} TabsWithoutHas(tabs: seq<Tab>, tab: string, id: string)
    ensures HasTab(TabsWithout(tabs, tab), id) <==> HasTab(tabs, id) && id != tab
  {
    assert forall t :: t in TabsWithout(tabs, tab) <==> t in tabs && TabId(t) != tab;
  }

  lemma {:induction false} ByIdHas(tabs: seq<Tab>, id: string)
    ensures HasTab(ById(tabs), id) <==> HasTab(tabs, id)
  {
    if tabs == [] {
    } else {
      var front, t := tabs[..|tabs| - 1], tabs[|tabs| - 1];
      ByIdHas(front, id);
      SplitLast(tabs);
      HasAppend(front, [t], id);
      HasAppend(ById(front), [t], id);
      var i := TabIndex(ById(front), t.id);
      assert i >= 0 ==> TabId(ById(front)[i]) == t.id;
      hide IndexOf, HasTab;
      if i >= 0 {
        assert TabIds(ById(front)[i := t]) == TabIds(ById(front));
        SameIdsHas(ById(front)[i := t], ById(front), id);
        OneTabHas(t, id);
        IndexHas(ById(front), t.id);
      }
    }
  }

  lemma {:induction false} OneTabHas(t: Tab, id: string)
    ensures HasTab([t], id) <==> t.id == id
  {
    if t.id == id {
      assert t in [t];
    }
  }

  lemma {:induction false} PickHas(left: seq<Tab>, next: seq<Tab>, i: nat, at: int, id: string)
    requires i < |left|
    ensures HasTab(left[..i] + left[i + 1..], id) || HasTab(next + [left[i].(sortOrder := at)], id) <==>
            HasTab(left, id) || HasTab(next, id)
  {
    hide HasTab;
    var moved := left[i].(sortOrder := at);
    assert left == left[..i] + [left[i]] + left[i + 1..];
    HasAppend(left[..i] + [left[i]], left[i + 1..], id);
    HasAppend(left[..i], [left[i]], id);
    HasAppend(left[..i], left[i + 1..], id);
    HasAppend(next, [moved], id);
    OneTabHas(left[i], id);
    OneTabHas(moved, id);
  }

  lemma {:induction false} NoTabHas(id: string)
    ensures !HasTab([], id)
  {
  }

  lemma {:induction false} PickedHas(byId: seq<Tab>, ids: seq<string>, id: string)
    ensures HasTab(Picked(byId, ids).0, id) || HasTab(Picked(byId, ids).1, id) <==> HasTab(byId, id)
  {
    hide IndexOf, HasTab;
    if ids == [] {
      NoTabHas(id);
    } else {
      var last := |ids| - 1;
      PickedHas(byId, ids[..last], id);
      var (left, next) := Picked(byId, ids[..last]);
      var i := TabIndex(left, ids[last]);
      if i >= 0 {
        PickHas(left, next, i, last, id);
      }
    }
  }

  /** Reordering never makes a tab disappear, whatever ids were sent and whatever the list looked like. */
  lemma {:induction false} ReorderedHas(tabs: seq<Tab>, ids: seq<string>, id: string)
    ensures HasTab(ReorderedTabs(tabs, ids), id) <==> HasTab(tabs, id)
  {
    ByIdHas(tabs, id);
    PickedHas(ById(tabs), ids, id);
    var (left, next) := Picked(ById(tabs), ids);
    NumberedHas(left, |next|, id);
    HasAppend(next, Numbered(left, |next|), id);
    hide HasTab;
  }
}

/** The optimistic completed-toggle of a comment thread. The server's reads lag its writes, so the
    client masks fetched values with a guard per toggled comment until a read confirms the toggle. */
module CommentToggle {
  import opened Sequences

  datatype Comment = Comment(id: string, text: string, completed: bool, replies: seq<string>)

  /** What a PATCH that is still under way asked for. */
  datatype Patch = Patch(id: string, value: bool)

  /** What the hook holds: the comments on screen, the guarded toggles, and the toggles whose PATCH has
      not settled yet, numbered in the order in which they were made. */
  datatype Client = Client(comments: seq<Comment>, pending: map<string, bool>, inFlight: map<nat, Patch>, made: nat)

  /** Everything that can happen to a thread, in whatever order responses arrive. A PATCH that is not
      under way cannot settle. */
  datatype Event =
    | Fetched(data: seq<Comment>)
    | Toggled(id: string, value: bool)
    | Succeeded(patch: nat)
    | Failed(patch: nat)
    | TheaterToggled(id: string, value: bool)
    | Posted(comment: Comment)
    | Edited(id: string, text: string)
    | Replied(id: string, reply: string)
    | Deleted(id: string)
    | AssetChanged

  function SetCompleted(comments: seq<Comment>, id: string, value: bool): seq<Comment> {
    Map(comments, (c: Comment) => if c.id == id then c.(completed := value) else c)
  }

  /** The value shown for a fetched comment, and the guards left after looking at it. */
  function MaskOne(c: Comment, pending: map<string, bool>): (Comment, map<string, bool>) {
    if c.id !in pending then (c, pending)
    else if c.completed == pending[c.id] then (c, pending - {c.id})
    else (c.(completed := pending[c.id]), pending)
  }

  function MaskAll(data: seq<Comment>, pending: map<string, bool>): (seq<Comment>, map<string, bool>) {
    if data == [] then ([], pending)
    else
      var last := |data| - 1;
      var (shown, left) := MaskAll(data[..last], pending);
      var (c, rest) := MaskOne(data[last], left);
      (shown + [c], rest)
  }

  /** A successful PATCH changes nothing on screen and leaves the guard in place. */
  function Settled(s: Client, patch: nat, ok: bool): Client {
    if patch !in s.inFlight then s
    else
      var p, settled := s.inFlight[patch], s.(inFlight := s.inFlight - {patch});
      if ok then settled
      else settled.(comments := SetCompleted(s.comments, p.id, !p.value), pending := s.pending - {p.id})
  }

  function Step(s: Client, e: Event): Client {
    match e
    case Fetched(data) => var (shown, left) := MaskAll(data, s.pending); s.(comments := shown, pending := left)
    case Toggled(id, value) =>
      s.(comments := SetCompleted(s.comments, id, value), pending := s.pending[id := value],
         inFlight := s.inFlight[s.made := Patch(id, value)], made := s.made + 1)
    case Succeeded(patch) => Settled(s, patch, true)
    case Failed(patch) => Settled(s, patch, false)
    case TheaterToggled(id, value) => s.(comments := SetCompleted(s.comments, id, value), pending := s.pending[id := value])
    case Posted(c) => s.(comments := s.comments + [c])
    case Edited(id, text) => s.(comments := Map(s.comments, (c: Comment) => if c.id == id then c.(text := text) else c))
    case Replied(id, reply) =>
      s.(comments := Map(s.comments, (c: Comment) => if c.id == id then c.(replies := c.replies + [reply]) else c))
    case Deleted(id) => s.(comments := Filter(s.comments, (c: Comment) => c.id != id))
    case AssetChanged => s.(comments := [])
  }

  function Run(s: Client, events: seq<Event>): Client {
    if events == [] then s
    else Step(Run(s, events[..|events| - 1]), events[|events| - 1])
  }

  class CommentThread {
    var comments: seq<Comment>
    var pending: map<string, bool>
    var inFlight: map<nat, Patch>
    var made: nat

    function State(): Client reads this { Client(comments, pending, inFlight, made) }

    constructor ()
      ensures State() == Client([], map[], map[], 0)
    {
      comments, pending, inFlight, made := [], map[], map[], 0;
    }

    /** A successful read: mask or confirm each comment in turn. */
    method ApplyFetch(data: seq<Comment>)
      modifies this
      ensures State() == Step(old(State()), Fetched(data))
    {
      var shown := [];
      for k := 0 to |data|
        invariant comments == old(comments) && inFlight == old(inFlight) && made == old(made)
        invariant (shown, pending) == MaskAll(data[..k], old(pending))
      {
        var c := data[k];
        assert data[..k + 1][..k] == data[..k];
        if c.id !in pending {
          shown := shown + [c];
        } else {
          var want := pending[c.id];
          if c.completed == want {
            pending := pending - {c.id};
            shown := shown + [c];
          } else {
            shown := shown + [c.(completed := want)];
          }
        }
      }
      assert data[..|data|] == data;
      comments := shown;
    }

    /** The synchronous half of a toggle; its PATCH settles later. */
    method ToggleComplete(commentId: string, completed: bool) returns (patch: nat)
      modifies this
      ensures patch == old(made) && State() == Step(old(State()), Toggled(commentId, completed))
    {
      pending := pending[commentId := completed];
      comments := SetCompleted(comments, commentId, completed);
      patch := made;
      inFlight, made := inFlight[patch := Patch(commentId, completed)], made + 1;
    }

    /** The rest of a toggle, once its response is there. */
    method ToggleSettled(patch: nat, ok: bool)
      requires patch in inFlight
      modifies this
      ensures State() == Step(old(State()), if ok then Succeeded(patch) else Failed(patch))
    {
      var toggle := inFlight[patch];
      inFlight := inFlight - {patch};
      if !ok {
        pending := pending - {toggle.id};
        comments := SetCompleted(comments, toggle.id, !toggle.value);
      }
    }

    /** The theater reports every PATCH that returned, accepted or not. */
    method OnCommentCompleted(id: string, completed: bool)
      modifies this
      ensures State() == Step(old(State()), TheaterToggled(id, completed))
    {
      pending := pending[id := completed];
      comments := SetCompleted(comments, id, completed);
    }

    method ShowPosted(comment: Comment)
      modifies this
      ensures State() == Step(old(State()), Posted(comment))
    {
      comments := comments + [comment];
    }

    method ShowEdited(commentId: string, text: string)
      modifies this
      ensures State() == Step(old(State()), Edited(commentId, text))
    {
      comments := Map(comments, (c: Comment) => if c.id == commentId then c.(text := text) else c);
    }

    method ShowReply(parentId: string, reply: string)
      modifies this
      ensures State() == Step(old(State()), Replied(parentId, reply))
    {
      comments := Map(comments, (c: Comment) => if c.id == parentId then c.(replies := c.replies + [reply]) else c);
    }

    method DeleteComment(commentId: string)
      modifies this
      ensures State() == Step(old(State()), Deleted(commentId))
    {
      comments := Filter(comments, (c: Comment) => c.id != commentId);
    }

    method ChangeAsset()
      modifies this
      ensures State() == Step(old(State()), AssetChanged)
    {
      comments := [];
    }
  }

  // ----- The mask -----

  /** Every comment on screen that has a guard shows the guarded value. */
  ghost predicate Masked(s: Client) {
    forall c :: c in s.comments && c.id in s.pending ==> c.completed == s.pending[c.id]
  }

  ghost predicate Guards(s: Client, id: string, value: bool) {
    id in s.pending && s.pending[id] == value
  }

  ghost predicate DistinctIds(data: seq<Comment>) {
    forall i, j :: 0 <= i < j < |data| ==> data[i].id != data[j].id
  }

  ghost predicate Confirms(data: seq<Comment>, id: string, value: bool) {
    exists c :: c in data && c.id == id && c.completed == value
  }

  lemma {:induction false} ConfirmsMore(data: seq<Comment>, id: string, value: bool)
    requires data != []
    ensures
      var last := |data| - 1;
      Confirms(data, id, value) <==>
        Confirms(data[..last], id, value) || (data[last].id == id && data[last].completed == value)
  {
  }

  lemma {:induction false} MaskAllLast(data: seq<Comment>, pending: map<string, bool>)
    requires data != []
    ensures
      var last := |data| - 1;
      var (shown, left) := MaskAll(data[..last], pending);
      MaskAll(data, pending) == (shown + [MaskOne(data[last], left).0], MaskOne(data[last], left).1)
  {
  }

  lemma {:induction false} MaskAllSpec(data: seq<Comment>, pending: map<string, bool>)
    ensures
      var (shown, left) := MaskAll(data, pending);
      && |shown| == |data|
      && (forall i :: 0 <= i < |data| ==> shown[i].id == data[i].id)
      && (forall c :: c in shown && c.id in left ==> c.completed == left[c.id])
      && (forall id :: id in left <==> id in pending && !Confirms(data, id, pending[id]))
      && (forall id :: id in left ==> left[id] == pending[id])
  {
    if data == [] {
      assert MaskAll(data, pending) == ([], pending);
    } else {
      hide MaskAll, Confirms;
      var last := |data| - 1;
      MaskAllSpec(data[..last], pending);
      MaskAllLast(data, pending);
      var left, rest := MaskAll(data[..last], pending).1, MaskAll(data, pending).1;
      forall id ensures id in rest <==> id in pending && !Confirms(data, id, pending[id]) {
        if id in pending {
          ConfirmsMore(data, id, pending[id]);
        }
      }
    }
  }

  /** The late failure of a toggle of `id` that is still under way. */
  predicate Fails(s: Client, e: Event, id: string) {
    e.Failed? && e.patch in s.inFlight && s.inFlight[e.patch].id == id
  }

  /** A step drops the guard of `id` exactly when it reports a failed toggle of `id` or a read that
      agrees with the guarded value; it changes the guarded value only by toggling `id` again. */
  lemma {:induction false} GuardDroppedIff(s: Client, e: Event, id: string)
    requires id in s.pending
    ensures id !in Step(s, e).pending <==> Fails(s, e, id) || (e.Fetched? && Confirms(e.data, id, s.pending[id]))
    ensures id in Step(s, e).pending && Step(s, e).pending[id] != s.pending[id] ==>
            (e.Toggled? || e.TheaterToggled?) && e.id == id && e.value != s.pending[id]
  {
    if e.Fetched? {
      MaskAllSpec(e.data, s.pending);
    }
  }

  /** Every step keeps the mask; appending a posted comment keeps it exactly when the comment agrees
      with a guard its id may already have. */
  lemma {:induction false} StepMasksIff(s: Client, e: Event)
    requires Masked(s)
    ensures Masked(Step(s, e)) <==>
            (e.Posted? && e.comment.id in s.pending ==> e.comment.completed == s.pending[e.comment.id])
  {
    match e
    case Fetched(data) => MaskAllSpec(data, s.pending);
    case Posted(c) => assert c in Step(s, e).comments;
    case _ =>
  }

  /** No posted comment contradicts a guard at the moment it is appended. */
  ghost predicate PostsAgree(s: Client, events: seq<Event>) {
    forall k :: 0 <= k < |events| && events[k].Posted? ==>
      var c := events[k].comment;
      var before := Run(s, events[..k]);
      c.id in before.pending ==> c.completed == before.pending[c.id]
  }

  lemma {:induction false} PrefixMasked(s: Client, events: seq<Event>, k: nat)
    requires Masked(s) && PostsAgree(s, events) && k <= |events|
    ensures Masked(Run(s, events[..k]))
  {
    if k == 0 {
    } else {
      var j := k - 1;
      PrefixMasked(s, events, j);
      assert events[..k][..j] == events[..j];
      StepMasksIff(Run(s, events[..j]), events[j]);
    }
  }

  /** Over every run: at every point every guarded comment on screen shows its guarded value, if and
      only if no posted comment contradicted a guard when it was appended. */
  lemma {:induction false} RunMaskedIff(s: Client, events: seq<Event>)
    requires Masked(s)
    ensures (forall k :: 0 <= k <= |events| ==> Masked(Run(s, events[..k]))) <==> PostsAgree(s, events)
  {
    if PostsAgree(s, events) {
      forall k | 0 <= k <= |events| ensures Masked(Run(s, events[..k])) {
        PrefixMasked(s, events, k);
      }
    } else {
      var j :| 0 <= j < |events| && events[j].Posted? &&
               var c := events[j].comment;
               var before := Run(s, events[..j]);
               !(c.id in before.pending ==> c.completed == before.pending[c.id]);
      var k := j + 1;
      RunGrows(s, events, j);
      if Masked(Run(s, events[..j])) {
        StepMasksIff(Run(s, events[..j]), events[j]);
        assert !Masked(Run(s, events[..k]));
      }
    }
  }

  lemma {:induction false} MaskSingle(c: Comment, pending: map<string, bool>)
    requires c.id !in pending
    ensures MaskAll([c], pending) == ([c], pending)
  {
    assert [c][..0] == [] && MaskAll([], pending) == ([], pending) && [] + [c] == [c];
  }

  lemma {:induction false} RunTwo(s: Client, e: Event, f: Event)
    ensures Run(s, [e, f]) == Step(Step(s, e), f)
  {
    hide Step;
    assert [e, f][..1] == [e] && [e][..0] == [];
    assert Run(s, [e]) == Step(s, e);
  }

  lemma {:induction false} RunThree(s: Client, e: seq<Event>)
    requires |e| == 3
    ensures Run(s, e) == Step(Step(Step(s, e[0]), e[1]), e[2])
  {
    hide Step;
    assert e[..2][..1] == e[..1] && e[..1][..0] == [];
    assert Run(s, e[..1]) == Step(s, e[0]) && Run(s, e[..2]) == Step(Run(s, e[..1]), e[1]);
  }

  /** It does happen: a refresh delivers the new comment, the user completes it, and only then does the
      POST that created it answer. */
  lemma {:induction false} LatePostContradicts(id: string, text: string)
    ensures
      var c := Comment(id, text, false, []);
      var events := [Fetched([c]), Toggled(id, true), Posted(c)];
      !Masked(Run(Client([], map[], map[], 0), events))
  {
    var c := Comment(id, text, false, []);
    var s0 := Client([], map[], map[], 0);
    RunThree(s0, [Fetched([c]), Toggled(id, true), Posted(c)]);
    hide Run, MaskAll;
    MaskSingle(c, s0.pending);
    var toggled := Step(Step(s0, Fetched([c])), Toggled(id, true));
    assert id in toggled.pending && toggled.pending[id];
    assert c in Step(toggled, Posted(c)).comments;
  }

  // ----- Flicker -----

  predicate TogglesTo(e: Event, id: string, value: bool) {
    (e.Toggled? || e.TheaterToggled?) && e.id == id && e.value == value
  }

  /** The toggle of `id` to `value` is what the user sees, and a guard keeps it there. */
  ghost predicate Holds(s: Client, id: string, value: bool) {
    Guards(s, id, value) && forall c :: c in s.comments && c.id == id ==> c.completed == value
  }

  /** What can end that: the opposite toggle, a failure, a confirming read, or a contradicting post. */
  ghost predicate Ends(s: Client, e: Event, id: string, value: bool) {
    || TogglesTo(e, id, !value)
    || Fails(s, e, id)
    || (e.Fetched? && Confirms(e.data, id, value))
    || (e.Posted? && e.comment.id == id && e.comment.completed != value)
  }

  lemma {:induction false} StepHoldsIff(s: Client, e: Event, id: string, value: bool)
    requires Holds(s, id, value)
    ensures Holds(Step(s, e), id, value) <==> !Ends(s, e, id, value)
  {
    match e
    case Fetched(data) => MaskAllSpec(data, s.pending);
    case Posted(c) => assert c in Step(s, e).comments;
    case _ =>
  }

  /** Over any run a toggle stays guarded and on screen at every point exactly until one of those events:
      stale reads, edits, replies, deletes and toggles of other comments never make it flicker. */
  lemma {:induction false} HoldsThroughoutIff(s: Client, events: seq<Event>, id: string, value: bool)
    requires Holds(s, id, value)
    ensures (forall k :: 0 <= k <= |events| ==> Holds(Run(s, events[..k]), id, value)) <==>
            forall k :: 0 <= k < |events| ==> !Ends(Run(s, events[..k]), events[k], id, value)
  {
    hide Run, Ends, Holds;
    if forall k :: 0 <= k < |events| ==> !Ends(Run(s, events[..k]), events[k], id, value) {
      forall k | 0 <= k <= |events| ensures Holds(Run(s, events[..k]), id, value) {
        HoldsUpTo(s, events, id, value, k);
      }
    } else {
      var j :| 0 <= j < |events| && Ends(Run(s, events[..j]), events[j], id, value);
      var k := j + 1;
      RunGrows(s, events, j);
      if Holds(Run(s, events[..j]), id, value) {
        StepHoldsIff(Run(s, events[..j]), events[j], id, value);
        assert !Holds(Run(s, events[..k]), id, value);
      }
    }
  }

  lemma {:induction false} RunGrows(s: Client, events: seq<Event>, j: nat)
    requires j < |events|
    ensures Run(s, events[..j + 1]) == Step(Run(s, events[..j]), events[j])
  {
    assert events[..j + 1][..j] == events[..j];
  }

  lemma {:induction false} HoldsUpTo(s: Client, events: seq<Event>, id: string, value: bool, k: nat)
    requires Holds(s, id, value) && k <= |events|
    requires forall j :: 0 <= j < k ==> !Ends(Run(s, events[..j]), events[j], id, value)
    ensures Holds(Run(s, events[..k]), id, value)
  {
    if k == 0 {
    } else {
      var j := k - 1;
      HoldsUpTo(s, events, id, value, j);
      assert events[..k][..j] == events[..j];
      StepHoldsIff(Run(s, events[..j]), events[j], id, value);
    }
  }

  // ----- Overlapping toggles -----

  /** Numbers of toggles under way are numbers of toggles made. */
  ghost predicate Numbered(s: Client) {
    forall p :: p in s.inFlight ==> p < s.made
  }

  lemma {:induction false} RunNumbered(s: Client, events: seq<Event>)
    requires Numbered(s)
    ensures Numbered(Run(s, events))
  {
    if events == [] {
    } else {
      RunNumbered(s, events[..|events| - 1]);
    }
  }

  /** What the promise of no flicker is about: the toggle `patch` of `id` to `value` does not fail, the
      user does not toggle the comment again, no read has confirmed it yet, and no post contradicts it. */
  ghost predicate Undisturbed(e: Event, patch: nat, id: string, value: bool) {
    && e != Failed(patch)
    && !((e.Toggled? || e.TheaterToggled?) && e.id == id)
    && !(e.Fetched? && Confirms(e.data, id, value))
    && !(e.Posted? && e.comment.id == id && e.comment.completed != value)
  }

  ghost predicate AllUndisturbed(events: seq<Event>, patch: nat, id: string, value: bool) {
    forall e :: e in events ==> Undisturbed(e, patch, id, value)
  }

  ghost predicate ShowsOnly(s: Client, id: string, value: bool) {
    forall c :: c in s.comments && c.id == id ==> c.completed == value
  }

  ghost predicate NoneUnderWay(s: Client, id: string) {
    forall p :: p in s.inFlight ==> s.inFlight[p].id != id
  }

  /** Only the toggle `patch` of `id` can still be under way. */
  ghost predicate AloneUnderWay(s: Client, patch: nat, id: string) {
    forall p :: p in s.inFlight && s.inFlight[p].id == id ==> p == patch
  }

  lemma {:induction false} AloneHolds(s: Client, events: seq<Event>, patch: nat, id: string, value: bool)
    requires Holds(s, id, value) && AloneUnderWay(s, patch, id) && AllUndisturbed(events, patch, id, value)
    ensures Holds(Run(s, events), id, value) && AloneUnderWay(Run(s, events), patch, id)
  {
    if events == [] {
    } else {
      var front, e := events[..|events| - 1], events[|events| - 1];
      assert e in events && forall x :: x in front ==> x in events;
      AloneHolds(s, front, patch, id, value);
      assert Undisturbed(e, patch, id, value);
      StepHoldsIff(Run(s, front), e, id, value);
    }
  }

  /** Every successful toggle stays on screen, over every continuation up to its confirming read, if and
      only if no other toggle of the same comment was under way when it was made. */
  lemma {:induction false} NoFlickerIff(s: Client, id: string, value: bool)
    requires Numbered(s)
    ensures
      var after := Step(s, Toggled(id, value));
      (forall events :: AllUndisturbed(events, s.made, id, value) ==> ShowsOnly(Run(after, events), id, value)) <==>
      NoneUnderWay(s, id)
  {
    var after := Step(s, Toggled(id, value));
    if NoneUnderWay(s, id) {
      forall events | AllUndisturbed(events, s.made, id, value) ensures ShowsOnly(Run(after, events), id, value) {
        AloneHolds(after, events, s.made, id, value);
      }
    } else {
      var other :| other in s.inFlight && s.inFlight[other].id == id;
      OlderFailureFlickers(s, id, value, other);
    }
  }

  /** In particular after any history of a thread. */
  lemma {:induction false} NoFlickerAfterAnyRun(history: seq<Event>, id: string, value: bool)
    ensures
      var s := Run(Client([], map[], map[], 0), history);
      var after := Step(s, Toggled(id, value));
      (forall events :: AllUndisturbed(events, s.made, id, value) ==> ShowsOnly(Run(after, events), id, value)) <==>
      NoneUnderWay(s, id)
  {
    hide Run, Step, AllUndisturbed, ShowsOnly, NoneUnderWay;
    var empty := Client([], map[], map[], 0);
    RunNumbered(empty, history);
    NoFlickerIff(Run(empty, history), id, value);
  }

  /** The late failure of an older toggle drops the guard, and the next stale read shows. */
  lemma {:induction false} OlderFailureFlickers(s: Client, id: string, value: bool, other: nat)
    requires Numbered(s) && other in s.inFlight && s.inFlight[other].id == id
    ensures
      var stale := Fetched([Comment(id, "", !value, [])]);
      var events := [Failed(other), stale];
      && AllUndisturbed(events, s.made, id, value)
      && !ShowsOnly(Run(Step(s, Toggled(id, value)), events), id, value)
  {
    var after := Step(s, Toggled(id, value));
    var c := Comment(id, "", !value, []);
    var events := [Failed(other), Fetched([c])];
    RunTwo(after, Failed(other), Fetched([c]));
    hide Run, MaskAll;
    var dropped := Step(after, Failed(other));
    assert after.inFlight[other].id == id && id !in dropped.pending;
    MaskSingle(c, dropped.pending);
    assert c in Step(dropped, Fetched([c])).comments;
  }

  /** For instance, three quick toggles of one comment: the last succeeds, the first fails late, and the
      comment shows the value the user replaced, with no read involved. */
  lemma {:induction false} OverlapFlickers(id: string, text: string)
    ensures
      var c := Comment(id, text, false, []);
      var start := Client([c], map[], map[], 0);
      var end := Run(start, [Toggled(id, true), Toggled(id, false), Toggled(id, true), Succeeded(2), Failed(0)]);
      id !in end.pending && end.comments == [c]
  {
    var c := Comment(id, text, false, []);
    var s0 := Client([c], map[], map[], 0);
    var e := [Toggled(id, true), Toggled(id, false), Toggled(id, true), Succeeded(2), Failed(0)];
    assert e[..4][..3] == e[..3] && e[..3][..2] == e[..2] && e[..2][..1] == e[..1] && e[..1][..0] == [];
    assert Run(s0, []) == s0;
    var s1, s2, s3, s4 := Run(s0, e[..1]), Run(s0, e[..2]), Run(s0, e[..3]), Run(s0, e[..4]);
    assert s1 == Step(s0, e[0]) && s1.comments == [c.(completed := true)] && s1.made == 1;
    assert s2 == Step(s1, e[1]) && s2.comments == [c] && s2.made == 2;
    assert s3 == Step(s2, e[2]) && s3.comments == [c.(completed := true)];
    assert s4 == Step(s3, e[3]) && s4.comments == s3.comments && s4.inFlight[0] == Patch(id, true);
    assert Run(s0, e) == Step(s4, e[4]);
  }

  // ----- What one event changes -----

  /** The rows stay where they are, and those of other comments stay as they are. */
  ghost predicate OthersStay(before: seq<Comment>, after: seq<Comment>, id: string) {
    && |after| == |before|
    && forall i :: 0 <= i < |before| ==> after[i].id == before[i].id && (before[i].id != id ==> after[i] == before[i])
  }

  ghost predicate OtherGuardsStay(before: map<string, bool>, after: map<string, bool>, id: string) {
    forall other :: other != id ==>
      (other in after <==> other in before) && (other in before ==> after[other] == before[other])
  }

  /** A toggle, in the thread or in the theater, sets one comment's mark and guard and touches nothing else. */
  lemma {:induction false} ToggleShows(s: Client, e: Event)
    requires e.Toggled? || e.TheaterToggled?
    ensures
      var t := Step(s, e);
      && OthersStay(s.comments, t.comments, e.id) && OtherGuardsStay(s.pending, t.pending, e.id)
      && Guards(t, e.id, e.value)
      && (forall i :: 0 <= i < |s.comments| && s.comments[i].id == e.id ==>
            t.comments[i] == s.comments[i].(completed := e.value))
  {
  }

  /** A failure that is still awaited puts the opposite mark back and drops the guard; no other outcome of
      a PATCH changes the screen or a guard. */
  lemma {:induction false} SettlingShows(s: Client, patch: nat)
    ensures
      patch in s.inFlight ==>
        var p, t := s.inFlight[patch], Step(s, Failed(patch));
        && OthersStay(s.comments, t.comments, p.id) && OtherGuardsStay(s.pending, t.pending, p.id)
        && p.id !in t.pending && t.inFlight.Keys == s.inFlight.Keys - {patch}
        && (forall i :: 0 <= i < |s.comments| && s.comments[i].id == p.id ==>
              t.comments[i] == s.comments[i].(completed := !p.value))
    ensures patch !in s.inFlight ==> Step(s, Failed(patch)) == s
    ensures Step(s, Succeeded(patch)).comments == s.comments && Step(s, Succeeded(patch)).pending == s.pending
  {
  }

  /** An edit and a reply change one field of one comment; a posted comment comes last; another asset
      clears the screen. None of them changes a guard. */
  lemma {:induction false} ContentShows(s: Client, e: Event)
    requires e.Edited? || e.Replied? || e.Posted? || e.AssetChanged?
    ensures
      var t := Step(s, e);
      && t.pending == s.pending
      && (e.Posted? ==> t.comments == s.comments + [e.comment])
      && (e.AssetChanged? ==> t.comments == [])
      && (e.Edited? ==>
            && OthersStay(s.comments, t.comments, e.id)
            && forall i :: 0 <= i < |s.comments| && s.comments[i].id == e.id ==>
                 t.comments[i] == s.comments[i].(text := e.text))
      && (e.Replied? ==>
            && OthersStay(s.comments, t.comments, e.id)
            && forall i :: 0 <= i < |s.comments| && s.comments[i].id == e.id ==>
                 t.comments[i] == s.comments[i].(replies := s.comments[i].replies + [e.reply]))
  {
  }

  /** A deletion leaves exactly the rows of other comments, in their order, and every guard. */
  lemma {:induction false} DeletionLeaves(s: Client, id: string) returns (kept: seq<nat>)
    ensures forall i, j :: 0 <= i < j < |kept| ==> kept[i] < kept[j]
    ensures forall n: nat :: n in kept <==> n < |s.comments| && s.comments[n].id != id
    ensures
      var t := Step(s, Deleted(id));
      && t.pending == s.pending && |t.comments| == |kept|
      && forall i :: 0 <= i < |kept| ==> kept[i] < |s.comments| && t.comments[i] == s.comments[kept[i]]
  {
    kept := FilterPositions(s.comments, (c: Comment) => c.id != id);
  }

  /** A toggle that fails leaves the screen as it was if and only if the comment showed the opposite mark. */
  lemma {:induction false} RollbackRestoresIff(s: Client, id: string, value: bool)
    ensures
      var end := Step(Step(s, Toggled(id, value)), Failed(s.made));
      end.comments == s.comments <==> ShowsOnly(s, id, !value)
  {
    var mid := Step(s, Toggled(id, value));
    var end := Step(mid, Failed(s.made));
    ToggleShows(s, Toggled(id, value));
    SettlingShows(mid, s.made);
    assert mid.inFlight[s.made] == Patch(id, value);
    forall i | 0 <= i < |s.comments|
      ensures |end.comments| == |s.comments|
      ensures end.comments[i] == if s.comments[i].id == id then s.comments[i].(completed := !value) else s.comments[i]
    {
    }
    hide Step;
    if end.comments == s.comments {
      forall c | c in s.comments && c.id == id ensures c.completed == !value {
        var i :| 0 <= i < |s.comments| && s.comments[i] == c;
      }
    } else {
      var i :| 0 <= i < |s.comments| && end.comments[i] != s.comments[i];
      assert s.comments[i] in s.comments;
    }
  }

  /** For instance a comment that is set to the mark it has already, as by a second click before the screen
      has caught up: the failure shows a mark that it never had. */
  lemma {:induction false} RollbackInvents(s: Client, c: Comment)
    requires s.comments == [c]
    ensures Step(Step(s, Toggled(c.id, c.completed)), Failed(s.made)).comments == [c.(completed := !c.completed)]
  {
    var mid := Step(s, Toggled(c.id, c.completed));
    ToggleShows(s, Toggled(c.id, c.completed));
    SettlingShows(mid, s.made);
    assert mid.inFlight[s.made] == Patch(c.id, c.completed) && mid.comments == [c];
  }

  /** The event is about comments with an id in `ids`, and is no read and no change of asset. */
  ghost predicate Concerns(s: Client, e: Event, ids: set<string>) {
    match e
    case Fetched(_) => false
    case AssetChanged => false
    case Succeeded(_) => true
    case Failed(patch) => patch in s.inFlight ==> s.inFlight[patch].id in ids
    case Posted(c) => c.id in ids
    case Toggled(id, _) => id in ids
    case TheaterToggled(id, _) => id in ids
    case Edited(id, _) => id in ids
    case Replied(id, _) => id in ids
    case Deleted(id) => id in ids
  }

  /** The comments with no id in `ids`. */
  function Apart(comments: seq<Comment>, ids: set<string>): seq<Comment> {
    Filter(comments, (c: Comment) => c.id !in ids)
  }

  lemma {:induction false} ApartSame(before: seq<Comment>, after: seq<Comment>, ids: set<string>)
    requires |after| == |before|
    requires forall i :: 0 <= i < |before| ==> after[i].id == before[i].id && (before[i].id !in ids ==> after[i] == before[i])
    ensures Apart(after, ids) == Apart(before, ids)
  {
    if before == [] {
    } else {
      ApartSame(before[1..], after[1..], ids);
    }
  }

  lemma {:induction false} GuardsApart(before: map<string, bool>, after: map<string, bool>, id: string, ids: set<string>)
    requires OtherGuardsStay(before, after, id) && id in ids
    ensures after - ids == before - ids
  {
  }

  lemma {:induction false} RowsApart(before: seq<Comment>, after: seq<Comment>, id: string, ids: set<string>)
    requires OthersStay(before, after, id) && id in ids
    ensures Apart(after, ids) == Apart(before, ids)
  {
    ApartSame(before, after, ids);
  }

  lemma {:induction false} StepLeavesOthers(s: Client, e: Event, ids: set<string>)
    requires Concerns(s, e, ids)
    ensures Apart(Step(s, e).comments, ids) == Apart(s.comments, ids)
    ensures Step(s, e).pending - ids == s.pending - ids
  {
    hide Apart, OthersStay, OtherGuardsStay, SetCompleted, Settled;
    match e
    case Posted(c) => ApartPosted(s.comments, c, ids);
    case Deleted(id) => ApartDeleted(s.comments, id, ids);
    case Succeeded(patch) => SettlingShows(s, patch);
    case Failed(patch) =>
      SettlingShows(s, patch);
      if patch in s.inFlight {
        var id := s.inFlight[patch].id;
        RowsApart(s.comments, Step(s, e).comments, id, ids);
        GuardsApart(s.pending, Step(s, e).pending, id, ids);
      }
    case Toggled(id, value) =>
      ToggleShows(s, e);
      RowsApart(s.comments, Step(s, e).comments, id, ids);
      GuardsApart(s.pending, Step(s, e).pending, id, ids);
    case TheaterToggled(id, value) =>
      ToggleShows(s, e);
      RowsApart(s.comments, Step(s, e).comments, id, ids);
      GuardsApart(s.pending, Step(s, e).pending, id, ids);
    case Edited(id, text) =>
      ContentShows(s, e);
      RowsApart(s.comments, Step(s, e).comments, id, ids);
    case Replied(id, reply) =>
      ContentShows(s, e);
      RowsApart(s.comments, Step(s, e).comments, id, ids);
  }

  lemma {:induction false} ApartPosted(comments: seq<Comment>, c: Comment, ids: set<string>)
    requires c.id in ids
    ensures Apart(comments + [c], ids) == Apart(comments, ids)
  {
    FilterAppend(comments, [c], (x: Comment) => x.id !in ids);
    FilterCons(c, [], (x: Comment) => x.id !in ids);
  }

  lemma {:induction false} ApartDeleted(comments: seq<Comment>, id: string, ids: set<string>)
    requires id in ids
    ensures Apart(Filter(comments, (c: Comment) => c.id != id), ids) == Apart(comments, ids)
  {
    FilterTwice(comments, (c: Comment) => c.id != id, (c: Comment) => c.id !in ids, (c: Comment) => c.id !in ids);
  }

  /** Over every run between two reads: events about some comments leave all other comments on screen, in
      their order and as they are, and leave the guards of all others. */
  lemma {:induction false} RunLeavesOthers(s: Client, events: seq<Event>, ids: set<string>)
    requires forall k :: 0 <= k < |events| ==> Concerns(Run(s, events[..k]), events[k], ids)
    ensures Apart(Run(s, events).comments, ids) == Apart(s.comments, ids)
    ensures Run(s, events).pending - ids == s.pending - ids
  {
    if events == [] {
    } else {
      hide Step, Concerns, Apart;
      var last := |events| - 1;
      forall k | 0 <= k < last ensures Concerns(Run(s, events[..last][..k]), events[..last][k], ids) {
        assert events[..last][..k] == events[..k];
      }
      RunLeavesOthers(s, events[..last], ids);
      StepLeavesOthers(Run(s, events[..last]), events[last], ids);
    }
  }

  // ----- Reads -----

  lemma {:induction false} MaskAllAt(data: seq<Comment>, pending: map<string, bool>, i: nat)
    requires DistinctIds(data) && i < |data|
    ensures |MaskAll(data, pending).0| == |data|
    ensures MaskAll(data, pending).0[i] ==
            if data[i].id in pending then data[i].(completed := pending[data[i].id]) else data[i]
  {
    var last := |data| - 1;
    var front := data[..last];
    MaskAllSpec(front, pending);
    if i < last {
      MaskAllAt(front, pending, i);
    } else if data[last].id in pending {
      forall c | c in front ensures c.id != data[last].id {
      }
    }
  }

  /** After a fetch the display differs from the fetched data exactly at the ids still guarded. */
  lemma {:induction false} FetchDiffersWhereGuarded(s: Client, data: seq<Comment>, i: nat)
    requires DistinctIds(data) && i < |data|
    ensures
      var after := Step(s, Fetched(data));
      && |after.comments| == |data|
      && (after.comments[i] != data[i] <==> data[i].id in after.pending)
      && after.comments[i].(completed := data[i].completed) == data[i]
  {
    MaskAllAt(data, s.pending, i);
    MaskAllSpec(data, s.pending);
    if data[i].id in s.pending && Confirms(data, data[i].id, s.pending[data[i].id]) {
      var c :| c in data && c.id == data[i].id && c.completed == s.pending[data[i].id];
      var j :| 0 <= j < |data| && data[j] == c;
      assert !(i < j) && !(j < i);
    }
  }

  /** A read shows the server's values and leaves none of its comments guarded exactly when no guard
      contradicts it; this is how the client converges once every guarded write has propagated. */
  lemma {:induction false} FetchConvergesIff(s: Client, data: seq<Comment>)
    requires DistinctIds(data)
    ensures
      var after := Step(s, Fetched(data));
      var agree := forall c :: c in data && c.id in s.pending ==> s.pending[c.id] == c.completed;
      && (after.comments == data <==> agree)
      && ((forall c :: c in data ==> c.id !in after.pending) <==> agree)
  {
    var after := Step(s, Fetched(data));
    forall i | 0 <= i < |data|
      ensures |after.comments| == |data|
      ensures after.comments[i] != data[i] <==> data[i].id in s.pending && s.pending[data[i].id] != data[i].completed
      ensures after.comments[i] != data[i] <==> data[i].id in after.pending
    {
      FetchDiffersWhereGuarded(s, data, i);
      MaskAllAt(data, s.pending, i);
    }
    MaskAllSpec(data, s.pending);
    var agree := forall c :: c in data && c.id in s.pending ==> s.pending[c.id] == c.completed;
    if agree {
      assert after.comments == data;
    } else {
      var c :| c in data && c.id in s.pending && s.pending[c.id] != c.completed;
      var i :| 0 <= i < |data| && data[i] == c;
      assert after.comments[i] != data[i];
    }
  }

  // ----- Toggles in the theater -----

  function Reads(fetched: seq<seq<Comment>>): seq<Event> {
    Map(fetched, (data: seq<Comment>) => Fetched(data))
  }

  /** A guard can outlive its purpose: if the server refused a theater toggle, every later read shows
      the old value and the mask hides it after any number of reads. */
  lemma {:induction false} RefusedTheaterToggleSticks(s: Client, id: string, value: bool, fetched: seq<seq<Comment>>)
    requires forall data :: data in fetched ==> !Confirms(data, id, value)
    ensures Holds(Run(Step(s, TheaterToggled(id, value)), Reads(fetched)), id, value)
  {
    var start := Step(s, TheaterToggled(id, value));
    var events := Reads(fetched);
    forall j | 0 <= j < |events| ensures !Ends(Run(start, events[..j]), events[j], id, value) {
      assert events[j] == Fetched(fetched[j]) && fetched[j] in fetched;
    }
    HoldsUpTo(start, events, id, value, |events|);
    assert events[..|events|] == events;
  }

  lemma {:induction false} ReadsGrow(s: Client, fetched: seq<seq<Comment>>)
    requires fetched != []
    ensures
      var last := |fetched| - 1;
      Run(s, Reads(fetched)) == Step(Run(s, Reads(fetched[..last])), Fetched(fetched[last]))
  {
    var last := |fetched| - 1;
    assert Reads(fetched)[..last] == Reads(fetched[..last]);
  }

  /** Reads alone drop a guard as soon as one of them agrees, and it does not come back. */
  lemma {:induction false} ReadsRelease(s: Client, fetched: seq<seq<Comment>>, id: string, value: bool, k: nat)
    requires Guards(s, id, value) && k < |fetched| && Confirms(fetched[k], id, value)
    ensures id !in Run(s, Reads(fetched)).pending
  {
    hide Run, Confirms;
    var last := |fetched| - 1;
    var before := Run(s, Reads(fetched[..last]));
    ReadsGrow(s, fetched);
    MaskAllSpec(fetched[last], before.pending);
    if k < last {
      ReadsRelease(s, fetched[..last], id, value, k);
    } else {
      ReadsGuard(s, fetched[..last], id, value);
    }
  }

  lemma {:induction false} ReadsGuard(s: Client, fetched: seq<seq<Comment>>, id: string, value: bool)
    requires Guards(s, id, value)
    ensures id in Run(s, Reads(fetched)).pending ==> Run(s, Reads(fetched)).pending[id] == value
  {
    if fetched == [] {
      assert Run(s, Reads(fetched)) == s;
    } else {
      hide Run, Confirms;
      var last := |fetched| - 1;
      ReadsGuard(s, fetched[..last], id, value);
      ReadsGrow(s, fetched);
      MaskAllSpec(fetched[last], Run(s, Reads(fetched[..last])).pending);
    }
  }

  /** After a theater toggle and any reads, the comment shows what the last read brought if and only if
      some read, the last one included, agreed with the toggle. */
  lemma {:induction false} TheaterToggleYieldsIff(s: Client, fetched: seq<seq<Comment>>, i: nat, value: bool)
    requires fetched != [] && DistinctIds(fetched[|fetched| - 1]) && i < |fetched[|fetched| - 1]|
    ensures
      var data := fetched[|fetched| - 1];
      var end := Run(Step(s, TheaterToggled(data[i].id, value)), Reads(fetched));
      && |end.comments| == |data|
      && end.comments[i].(completed := data[i].completed) == data[i]
      && (end.comments[i] == data[i] <==> exists k :: 0 <= k < |fetched| && Confirms(fetched[k], data[i].id, value))
  {
    hide Run, Confirms, DistinctIds;
    var last := |fetched| - 1;
    var data, id := fetched[last], fetched[last][i].id;
    var start := Step(s, TheaterToggled(id, value));
    var before := Run(start, Reads(fetched[..last]));
    ReadsGrow(start, fetched);
    FetchDiffersWhereGuarded(before, data, i);
    if k :| 0 <= k < |fetched| && Confirms(fetched[k], id, value) {
      ReadsRelease(start, fetched, id, value, k);
    } else {
      RefusedTheaterToggleSticks(s, id, value, fetched);
    }
  }

  /** So while the server's data do not change, its value comes back on screen, after any number of
      reads, if and only if the server did carry the toggle out. */
  lemma {:induction false} TheaterToggleHonestIff(s: Client, data: seq<Comment>, i: nat, value: bool, n: nat)
    requires DistinctIds(data) && i < |data| && n > 0
    ensures
      var end := Run(Step(s, TheaterToggled(data[i].id, value)), seq(n, _ => Fetched(data)));
      |end.comments| == |data| && (end.comments[i].completed == data[i].completed <==> data[i].completed == value)
  {
    hide Run, Step;
    var fetched := seq(n, _ => data);
    assert Reads(fetched) == seq(n, _ => Fetched(data));
    TheaterToggleYieldsIff(s, fetched, i, value);
    ConfirmsAt(data, i, value);
    assert fetched[0] == data;
  }

  lemma {:induction false} ConfirmsAt(data: seq<Comment>, i: nat, value: bool)
    requires DistinctIds(data) && i < |data|
    ensures Confirms(data, data[i].id, value) <==> data[i].completed == value
  {
    if Confirms(data, data[i].id, value) {
      var c :| c in data && c.id == data[i].id && c.completed == value;
      var j :| 0 <= j < |data| && data[j] == c;
      assert !(i < j) && !(j < i);
    }
  }
}

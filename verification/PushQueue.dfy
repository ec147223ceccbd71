/** The push modal's resumable queue: assets are sent one by one, a name collision pauses the queue
    until the user decides, and the decision is sent along with everything that is still queued. */
module PushQueue {
  import opened Sequences
  import opened Text

  datatype Asset = Asset(assetId: string, filePath: Option<string>, originalFilename: string)

  datatype Extra = NoExtra | Overwrite | Rename(filenameOverride: string)

  datatype Request = Request(asset: Asset, remoteDir: string, extra: Extra)

  datatype Answer = Accepted | Collision(suggestedName: string) | Refused

  /** The server's answer may depend on everything it was sent, the current request being last. */
  type Server = seq<Request> -> Answer

  datatype Conflict = Conflict(asset: Asset, suggestedName: string, remaining: seq<Asset>, done: nat)

  /** The modal's state, the requests sent, the assets the server accepted and how many of them before
      the current attempt, and how often the parent was told of completion. */
  datatype Modal = Modal(pushing: bool, progress: int, failed: bool, conflict: Option<Conflict>,
                         requests: seq<Request>, accepted: seq<Asset>, earlier: nat, pushedCalls: nat)

  const START := Modal(false, 0, false, None, [], [], 0, 0)

  predicate HasFile(a: Asset) { a.filePath.Some? && a.filePath.value != "" }

  function Pushable(assets: seq<Asset>): seq<Asset> {
    Filter(assets, (a: Asset) => HasFile(a))
  }

  /** `total` is the number of pushable assets, so it is positive whenever one was accepted. */
  function Percent(done: nat, total: nat): int {
    if total == 0 then 0 else (done as real / total as real * 100.0 + 0.5).Floor
  }

  /** The loop over the queue from its position `k` on. All its requests go to `dir`. */
  function PushFrom(s: Modal, queue: seq<Asset>, k: nat, done: nat, total: nat, dir: string, extra: Extra, server: Server): Modal
    requires k <= |queue|
    decreases |queue| - k
  {
    if k == |queue| then s.(pushedCalls := s.pushedCalls + 1)
    else
      var a := queue[k];
      var sent := s.(requests := s.requests + [Request(a, dir, extra)]);
      match server(sent.requests)
      case Collision(name) =>
        sent.(conflict := Some(Conflict(a, name, queue[PositionOf(queue, a) + 1..], done)), pushing := false)
      case Refused => sent.(failed := true, pushing := false)
      case Accepted =>
        PushFrom(sent.(accepted := sent.accepted + [a], progress := Percent(done + 1, total)),
                 queue, k + 1, done + 1, total, dir, extra, server)
  }

  /** Where the push button works. Resolving a conflict does not ask. */
  predicate InFolder(currentPath: string) { currentPath != "" && currentPath != "/" }

  function Started(s: Modal): Modal {
    s.(failed := false, pushing := true, progress := 0, earlier := |s.accepted|)
  }

  function PushClicked(s: Modal, assets: seq<Asset>, currentPath: string, server: Server): Modal {
    if s.pushing || s.conflict.Some? || !InFolder(currentPath) then s
    else
      var queue := Pushable(assets);
      PushFrom(Started(s), queue, 0, 0, |queue|, currentPath, NoExtra, server)
  }

  datatype Choice = ChooseOverwrite | ChooseRename

  function ExtraOf(c: Conflict, choice: Choice): Extra {
    if choice.ChooseOverwrite? then Overwrite else Rename(c.suggestedName)
  }

  function Resumed(s: Modal): Modal {
    s.(pushing := true, failed := false, conflict := None)
  }

  /** The folder is the one open when the choice is made. */
  function Resolved(s: Modal, assets: seq<Asset>, choice: Choice, currentPath: string, server: Server): Modal {
    if s.conflict.None? then s
    else
      var c := s.conflict.value;
      PushFrom(Resumed(s), [c.asset] + c.remaining, 0, c.done, |Pushable(assets)|, currentPath, ExtraOf(c, choice), server)
  }

  /** `currentPath` is the folder open in the browser at that moment; it can be changed in between. */
  datatype Event = Push(currentPath: string) | Resolve(choice: Choice, currentPath: string)

  class PushModal {
    const assets: seq<Asset>
    var state: Modal

    constructor (assets: seq<Asset>)
      ensures this.assets == assets && state == START
    {
      this.assets := assets;
      state := START;
    }

    method PushAssets(queue: seq<Asset>, startDone: nat, total: nat, currentPath: string, extra: Extra, server: Server)
      modifies this
      ensures state == PushFrom(old(state), queue, 0, startDone, total, currentPath, extra, server)
    {
      var done := startDone;
      for k := 0 to |queue|
        invariant PushFrom(state, queue, k, done, total, currentPath, extra, server) ==
                  PushFrom(old(state), queue, 0, startDone, total, currentPath, extra, server)
      {
        var a := queue[k];
        state := state.(requests := state.requests + [Request(a, currentPath, extra)]);
        match server(state.requests) {
          case Collision(name) =>
            var remaining := queue[PositionOf(queue, a) + 1..];
            state := state.(conflict := Some(Conflict(a, name, remaining, done)), pushing := false);
            return;
          case Refused =>
            state := state.(failed := true, pushing := false);
            return;
          case Accepted =>
            done := done + 1;
            state := state.(accepted := state.accepted + [a], progress := Percent(done, total));
        }
      }
      state := state.(pushedCalls := state.pushedCalls + 1);
    }

    /** The button is disabled while pushing and while a conflict is open. */
    method HandlePush(currentPath: string, server: Server)
      modifies this
      ensures state == PushClicked(old(state), assets, currentPath, server)
    {
      if state.pushing || state.conflict.Some? || !InFolder(currentPath) { return; }
      state := state.(failed := false, conflict := None, pushing := true, progress := 0, earlier := |state.accepted|);
      var pushable := Pushable(assets);
      PushAssets(pushable, 0, |pushable|, currentPath, NoExtra, server);
    }

    method HandleResolveConflict(choice: Choice, currentPath: string, server: Server)
      modifies this
      ensures state == Resolved(old(state), assets, choice, currentPath, server)
    {
      if state.conflict.None? { return; }
      var c := state.conflict.value;
      state := state.(pushing := true, failed := false, conflict := None);
      var total := |Pushable(assets)|;
      var extra := if choice.ChooseOverwrite? then Overwrite else Rename(c.suggestedName);
      PushAssets([c.asset] + c.remaining, c.done, total, currentPath, extra, server);
    }
  }

  // ----- Runs -----

  /** The assets accepted in the current attempt. */
  function Current(s: Modal): seq<Asset>
    requires s.earlier <= |s.accepted|
  {
    s.accepted[s.earlier..]
  }

  /** Between events: an open conflict accounts for every pushable asset in the original order, and
      completion means that the current attempt accepted exactly the pushable assets. */
  ghost predicate Consistent(s: Modal, assets: seq<Asset>) {
    var all := Pushable(assets);
    && s.earlier <= |s.accepted| && Current(s) <= all
    && (s.conflict.Some? ==>
          var c := s.conflict.value;
          && !s.pushing && all == Current(s) + [c.asset] + c.remaining
          && c.done == |Current(s)| && c.done + 1 + |c.remaining| == |all|)
    && (s.pushing ==> s.pushedCalls > 0)
    && (s.pushedCalls > 0 ==> s.pushing && s.pushedCalls == 1 && Current(s) == all)
  }

  lemma {:induction false} IndexUnique(queue: seq<Asset>, k: nat)
    requires Distinct(queue) && k < |queue|
    ensures PositionOf(queue, queue[k]) == k
  {
  }

  lemma {:induction false} PushFromConsistent(s: Modal, assets: seq<Asset>, queue: seq<Asset>, k: nat, dir: string,
                                              extra: Extra, server: Server)
    requires Distinct(Pushable(assets)) && Distinct(queue) && k <= |queue|
    requires s.earlier <= |s.accepted| && Pushable(assets) == Current(s) + queue[k..]
    requires s.conflict.None? && s.pushing && s.pushedCalls == 0
    ensures Consistent(PushFrom(s, queue, k, |Current(s)|, |Pushable(assets)|, dir, extra, server), assets)
    ensures PushFrom(s, queue, k, |Current(s)|, |Pushable(assets)|, dir, extra, server).earlier == s.earlier
    decreases |queue| - k
  {
    hide Pushable, Distinct;
    if k == |queue| {
    } else {
      var a := queue[k];
      var sent := s.(requests := s.requests + [Request(a, dir, extra)]);
      IndexUnique(queue, k);
      assert queue[k..] == [a] + queue[k + 1..];
      assert Current(s) + [a] + queue[k + 1..] == Current(s) + queue[k..];
      if server(sent.requests).Accepted? {
        var next := sent.(accepted := sent.accepted + [a], progress := Percent(|Current(s)| + 1, |Pushable(assets)|));
        assert Current(next) == Current(s) + [a];
        PushFromConsistent(next, assets, queue, k + 1, dir, extra, server);
      }
    }
  }

  function Step(s: Modal, assets: seq<Asset>, e: Event, server: Server): Modal {
    match e
    case Push(currentPath) => PushClicked(s, assets, currentPath, server)
    case Resolve(choice, currentPath) => Resolved(s, assets, choice, currentPath, server)
  }

  lemma {:induction false} StepConsistent(s: Modal, assets: seq<Asset>, e: Event, server: Server)
    requires Distinct(Pushable(assets)) && Consistent(s, assets)
    ensures Consistent(Step(s, assets, e, server), assets)
  {
    var all := Pushable(assets);
    hide Pushable, PushFrom;
    if e.Push? && !s.pushing && s.conflict.None? && InFolder(e.currentPath) {
      var start := s.(failed := false, pushing := true, progress := 0, earlier := |s.accepted|);
      assert Current(start) == [] && all == Current(start) + all[0..];
      PushFromConsistent(start, assets, all, 0, e.currentPath, NoExtra, server);
    } else if e.Resolve? && s.conflict.Some? {
      var c := s.conflict.value;
      var queue := [c.asset] + c.remaining;
      assert Current(s) + [c.asset] + c.remaining == Current(s) + queue[0..];
      assert Distinct(queue) by {
        forall i, j | 0 <= i < j < |queue| ensures queue[i] != queue[j] {
          assert queue[i] == all[c.done + i] && queue[j] == all[c.done + j];
        }
      }
      PushFromConsistent(s.(pushing := true, failed := false, conflict := None), assets, queue, 0,
                         e.currentPath, ExtraOf(c, e.choice), server);
    }
  }

  function Run(s: Modal, assets: seq<Asset>, events: seq<Event>, server: Server): Modal {
    if events == [] then s
    else Step(Run(s, assets, events[..|events| - 1], server), assets, events[|events| - 1], server)
  }

  /** After any sequence of pushes, collisions, resolutions and failures: the assets accepted in the
      current attempt are a prefix of the pushable ones, an open conflict accounts for all the others,
      and completion is reported once, when the attempt has accepted them all. */
  lemma {:induction false} RunConsistent(assets: seq<Asset>, events: seq<Event>, server: Server)
    requires Distinct(Pushable(assets))
    ensures Consistent(Run(START, assets, events, server), assets)
  {
    hide Pushable, Distinct;
    if events == [] {
      assert Current(START) == [];
    } else {
      var front, e := events[..|events| - 1], events[|events| - 1];
      RunConsistent(assets, front, server);
      StepConsistent(Run(START, assets, front, server), assets, e, server);
      hide Consistent, Step;
    }
  }

  // ----- Exactly once -----

  ghost predicate AnyAccepted(requests: seq<Request>, server: Server) {
    exists j :: 0 < j <= |requests| && server(requests[..j]).Accepted?
  }

  /** Some request was refused after an earlier one had been accepted. */
  ghost predicate LateRefusal(requests: seq<Request>, server: Server) {
    exists j, k :: 0 < j < k <= |requests| && server(requests[..j]).Accepted? && server(requests[..k]).Refused?
  }

  lemma {:induction false} AnswersGrow(requests: seq<Request>, r: Request, server: Server)
    ensures
      var more := requests + [r];
      && (AnyAccepted(more, server) <==> AnyAccepted(requests, server) || server(more).Accepted?)
      && (LateRefusal(more, server) <==>
            LateRefusal(requests, server) || (AnyAccepted(requests, server) && server(more).Refused?))
  {
    var more := requests + [r];
    assert forall j :: 0 < j <= |requests| ==> more[..j] == requests[..j];
    assert more[..|more|] == more;
    if AnyAccepted(requests, server) {
      var j :| 0 < j <= |requests| && server(requests[..j]).Accepted?;
      assert server(more[..j]).Accepted?;
      if server(more).Refused? {
        var k := |more|;
        assert server(more[..k]).Refused? && j < k;
      }
    }
    if LateRefusal(requests, server) {
      var j, k :| 0 < j < k <= |requests| && server(requests[..j]).Accepted? && server(requests[..k]).Refused?;
      assert server(more[..j]).Accepted? && server(more[..k]).Refused?;
    }
  }

  /** While an attempt is going on: acceptances are recorded, and earlier attempts left some behind
      exactly when there was a late refusal. */
  ghost predicate Tracked(s: Modal, server: Server) {
    && s.earlier <= |s.accepted|
    && (AnyAccepted(s.requests, server) <==> s.accepted != [])
    && (LateRefusal(s.requests, server) <==>
          if s.pushing || s.conflict.Some? then s.earlier > 0 else s.accepted != [])
  }

  lemma {:induction false} PushFromTracked(s: Modal, queue: seq<Asset>, k: nat, done: nat, total: nat, dir: string,
                                           extra: Extra, server: Server)
    requires k <= |queue| && s.pushing && s.conflict.None? && Tracked(s, server)
    ensures Tracked(PushFrom(s, queue, k, done, total, dir, extra, server), server)
    decreases |queue| - k
  {
    hide AnyAccepted, LateRefusal;
    if k == |queue| {
    } else {
      var r := Request(queue[k], dir, extra);
      var sent := s.(requests := s.requests + [r]);
      AnswersGrow(s.requests, r, server);
      if server(sent.requests).Accepted? {
        PushFromTracked(sent.(accepted := sent.accepted + [queue[k]], progress := Percent(done + 1, total)),
                        queue, k + 1, done + 1, total, dir, extra, server);
      }
    }
  }

  lemma {:induction false} RunTracked(assets: seq<Asset>, events: seq<Event>, server: Server)
    ensures Tracked(Run(START, assets, events, server), server)
  {
    if events == [] {
    } else {
      var front, e := events[..|events| - 1], events[|events| - 1];
      var before := Run(START, assets, front, server);
      RunTracked(assets, front, server);
      hide PushFrom, Pushable, AnyAccepted, LateRefusal;
      if e.Push? && !before.pushing && before.conflict.None? && InFolder(e.currentPath) {
        var all := Pushable(assets);
        PushFromTracked(Started(before), all, 0, 0, |all|, e.currentPath, NoExtra, server);
      } else if e.Resolve? && before.conflict.Some? {
        var c := before.conflict.value;
        PushFromTracked(Resumed(before), [c.asset] + c.remaining, 0, c.done, |Pushable(assets)|, e.currentPath,
                        ExtraOf(c, e.choice), server);
      }
    }
  }

  /** When completion is reported, every pushable asset has been accepted exactly once over the whole run
      if and only if the server never refused a request after accepting one: after such a refusal the
      push starts over from the first asset. Collisions, however many, do no harm. */
  lemma {:induction false} ExactlyOnceIff(assets: seq<Asset>, events: seq<Event>, server: Server)
    requires Distinct(Pushable(assets)) && Run(START, assets, events, server).pushedCalls > 0
    ensures
      var s := Run(START, assets, events, server);
      multiset(s.accepted) == multiset(Pushable(assets)) <==> !LateRefusal(s.requests, server)
  {
    RunConsistent(assets, events, server);
    RunTracked(assets, events, server);
    var s := Run(START, assets, events, server);
    hide Pushable, Run, LateRefusal, AnyAccepted;
    assert s.accepted == s.accepted[..s.earlier] + Current(s);
    if multiset(s.accepted) == multiset(Pushable(assets)) {
      assert |multiset(s.accepted)| == |multiset(Pushable(assets))|;
    }
  }

  lemma {:induction false} PushOne(s: Modal, queue: seq<Asset>, k: nat, done: nat, total: nat, dir: string, extra: Extra,
                                   server: Server)
    requires k < |queue| && server(s.requests + [Request(queue[k], dir, extra)]).Accepted?
    ensures
      var next := s.(requests := s.requests + [Request(queue[k], dir, extra)], accepted := s.accepted + [queue[k]],
                     progress := Percent(done + 1, total));
      PushFrom(s, queue, k, done, total, dir, extra, server) ==
      PushFrom(next, queue, k + 1, done + 1, total, dir, extra, server)
  {
  }

  /** For instance: the first asset is accepted, the second refused; pushing again completes with the
      first asset accepted twice. */
  lemma {:induction false} AcceptedTwice(a: Asset, b: Asset, dir: string)
    requires HasFile(a) && HasFile(b) && InFolder(dir)
    ensures
      var server := (requests: seq<Request>) => if |requests| == 2 then Refused else Accepted;
      var s := Run(START, [a, b], [Push(dir), Push(dir)], server);
      s.pushedCalls == 1 && s.accepted == [a, a, b]
  {
    var server := (requests: seq<Request>) => if |requests| == 2 then Refused else Accepted;
    var all := [a, b];
    FilterAll(all, (x: Asset) => HasFile(x));
    assert Pushable(all) == all;
    var events := [Push(dir), Push(dir)];
    assert events[..1][..0] == [] && Run(START, all, [], server) == START;
    var first := Run(START, all, events[..1], server);
    assert first == PushFrom(Started(START), all, 0, 0, 2, dir, NoExtra, server);
    PushOne(Started(START), all, 0, 0, 2, dir, NoExtra, server);
    assert first.accepted == [a] && |first.requests| == 2 && !first.pushing && first.conflict.None? && first.pushedCalls == 0;
    var second := Run(START, all, events, server);
    assert second == PushFrom(Started(first), all, 0, 0, 2, dir, NoExtra, server);
    PushTwo(Started(first), all, dir, server);
  }

  lemma {:induction false} PushTwo(s: Modal, all: seq<Asset>, dir: string, server: Server)
    requires |all| == 2 && |s.requests| == 2
    requires forall requests :: |requests| > 2 ==> server(requests).Accepted?
    ensures
      var r := PushFrom(s, all, 0, 0, 2, dir, NoExtra, server);
      r.accepted == s.accepted + all && r.pushedCalls == s.pushedCalls + 1
  {
    PushOne(s, all, 0, 0, 2, dir, NoExtra, server);
    var next := s.(requests := s.requests + [Request(all[0], dir, NoExtra)], accepted := s.accepted + [all[0]],
                   progress := Percent(1, 2));
    PushOne(next, all, 1, 1, 2, dir, NoExtra, server);
    assert s.accepted + [all[0]] + [all[1]] == s.accepted + all;
  }

  // ----- Which folder -----

  /** The event makes the modal send something. */
  predicate Sends(s: Modal, assets: seq<Asset>, e: Event) {
    match e
    case Push(currentPath) => !s.pushing && s.conflict.None? && InFolder(currentPath) && Pushable(assets) != []
    case Resolve(_, _) => s.conflict.Some?
  }

  ghost predicate AllTo(requests: seq<Request>, dir: string) {
    forall r :: r in requests ==> r.remoteDir == dir
  }

  lemma {:induction false} PushFromFolder(s: Modal, queue: seq<Asset>, k: nat, done: nat, total: nat, dir: string,
                                          extra: Extra, server: Server)
    requires k <= |queue|
    ensures
      var r := PushFrom(s, queue, k, done, total, dir, extra, server);
      && s.requests <= r.requests && AllTo(r.requests[|s.requests|..], dir)
      && (k < |queue| <==> |r.requests| > |s.requests|)
    decreases |queue| - k
  {
    if k == |queue| {
    } else {
      var sent := s.(requests := s.requests + [Request(queue[k], dir, extra)]);
      if server(sent.requests).Accepted? {
        var next := sent.(accepted := sent.accepted + [queue[k]], progress := Percent(done + 1, total));
        PushFromFolder(next, queue, k + 1, done + 1, total, dir, extra, server);
        var r := PushFrom(next, queue, k + 1, done + 1, total, dir, extra, server);
        assert r.requests[|s.requests|..] == [Request(queue[k], dir, extra)] + r.requests[|sent.requests|..];
      } else {
        assert sent.requests[|s.requests|..] == [Request(queue[k], dir, extra)];
      }
    }
  }

  lemma {:induction false} StepFolder(s: Modal, assets: seq<Asset>, e: Event, server: Server)
    ensures
      var t := Step(s, assets, e, server);
      && s.requests <= t.requests && AllTo(t.requests[|s.requests|..], e.currentPath)
      && (Sends(s, assets, e) <==> |t.requests| > |s.requests|)
  {
    hide PushFrom, Pushable, AllTo;
    assert AllTo(s.requests[|s.requests|..], e.currentPath) by { AllToNone(s.requests, e.currentPath); }
    match e
    case Push(path) =>
      var all := Pushable(assets);
      PushFromFolder(Started(s), all, 0, 0, |all|, path, NoExtra, server);
    case Resolve(choice, path) =>
      if s.conflict.Some? {
        var c := s.conflict.value;
        PushFromFolder(Resumed(s), [c.asset] + c.remaining, 0, c.done, |Pushable(assets)|, path, ExtraOf(c, choice), server);
      }
  }

  lemma {:induction false} AllToNone(requests: seq<Request>, dir: string)
    ensures AllTo(requests[|requests|..], dir)
  {
  }

  lemma {:induction false} AllToSplit(a: seq<Request>, b: seq<Request>, dir: string, other: string)
    requires AllTo(b, other)
    ensures AllTo(a + b, dir) <==> AllTo(a, dir) && (b == [] || other == dir)
  {
    if AllTo(a + b, dir) {
      assert forall r :: r in a ==> r in a + b;
      if b != [] {
        assert b[0] in a + b && b[0] in b;
      }
    }
  }

  /** `dir` is the folder open at each click that sends something. */
  ghost predicate ClickedIn(s: Modal, assets: seq<Asset>, events: seq<Event>, server: Server, dir: string) {
    forall k :: 0 <= k < |events| && Sends(Run(s, assets, events[..k], server), assets, events[k]) ==>
      events[k].currentPath == dir
  }

  lemma {:induction false} ClickedInGrows(s: Modal, assets: seq<Asset>, front: seq<Event>, e: Event, server: Server, dir: string)
    ensures ClickedIn(s, assets, front + [e], server, dir) <==>
            ClickedIn(s, assets, front, server, dir) &&
            (Sends(Run(s, assets, front, server), assets, e) ==> e.currentPath == dir)
  {
    hide Sends, Run;
    var events := front + [e];
    assert events[..|front|] == front && events[|front|] == e;
    assert forall k :: 0 <= k < |front| ==> front[..k] == events[..k] && front[k] == events[k];
  }

  /** Over any stretch of a run every asset is sent to the folder `dir` if and only if `dir` is the folder
      open at each click that sends something. So all assets of one attempt land in the folder of its push
      exactly when the user has not browsed elsewhere at any of its resolutions. */
  lemma {:induction false} FolderIff(s: Modal, assets: seq<Asset>, events: seq<Event>, server: Server, dir: string)
    ensures s.requests <= Run(s, assets, events, server).requests
    ensures AllTo(Run(s, assets, events, server).requests[|s.requests|..], dir) <==> ClickedIn(s, assets, events, server, dir)
  {
    hide Step, Sends, AllTo, ClickedIn;
    if events == [] {
      AllToNone(s.requests, dir);
      NothingClicked(s, assets, server, dir);
    } else {
      var last := |events| - 1;
      var front, e := events[..last], events[last];
      var before, after := Run(s, assets, front, server), Run(s, assets, events, server);
      FolderIff(s, assets, front, server, dir);
      StepFolder(before, assets, e, server);
      ClickedInGrows(s, assets, front, e, server, dir);
      SplitLast(events);
      var old', new' := before.requests[|s.requests|..], after.requests[|before.requests|..];
      assert after.requests[|s.requests|..] == old' + new';
      AllToSplit(old', new', dir, e.currentPath);
    }
  }

  lemma {:induction false} NothingClicked(s: Modal, assets: seq<Asset>, server: Server, dir: string)
    ensures ClickedIn(s, assets, [], server, dir)
  {
  }

  // ----- The push route -----

  /** The remote side: which asset's file each folder and name hold. */
  type Files = map<(string, string), string>

  function LastDot(name: string): int {
    if name == "" then -1
    else if name[|name| - 1] == '.' then |name| - 1
    else LastDot(name[..|name| - 1])
  }

  lemma {:induction false} LastDotRange(name: string)
    ensures -1 <= LastDot(name) <= |name| && LastDot(name) != |name|
  {
    if name == "" {
    } else {
      LastDotRange(name[..|name| - 1]);
    }
  }

  function SuggestedName(filename: string): string {
    LastDotRange(filename);
    if LastDot(filename) < 0 then filename + "(1)"
    else filename[..LastDot(filename)] + "(1)" + filename[LastDot(filename)..]
  }

  lemma {:induction false} SuggestedRemains(filename: string)
    ensures SuggestedName(filename) != "" && Trim(SuggestedName(filename)) != ""
  {
    LastDotRange(filename);
    var name := SuggestedName(filename);
    var at := if LastDot(filename) < 0 then |filename| else LastDot(filename);
    assert name[at] == '(' && '(' in name;
    TrimKeeps(name, '(');
  }

  predicate SkipsCheck(extra: Extra) {
    extra.Overwrite? || (extra.Rename? && extra.filenameOverride != "")
  }

  function RemoteName(r: Request): string {
    if r.extra.Rename? && Trim(r.extra.filenameOverride) != "" then Trim(r.extra.filenameOverride)
    else r.asset.originalFilename
  }

  /** A collision is reported only to requests that acknowledge none. */
  function RouteAnswer(files: Files, r: Request): Answer {
    if Trim(r.remoteDir) == "" then Refused
    else if !SkipsCheck(r.extra) && (Trim(r.remoteDir), r.asset.originalFilename) in files
    then Collision(SuggestedName(r.asset.originalFilename))
    else Accepted
  }

  /** `refuses` tells which request meets a missing asset, a missing configuration or an upload of the
      same asset that is still running. */
  type Refusals = seq<Request> -> bool

  function FilesAfter(start: Files, requests: seq<Request>, refuses: Refusals): Files {
    if requests == [] then start
    else
      var before, r := FilesAfter(start, requests[..|requests| - 1], refuses), requests[|requests| - 1];
      if !refuses(requests) && RouteAnswer(before, r).Accepted? then before[(Trim(r.remoteDir), RemoteName(r)) := r.asset.assetId]
      else before
  }

  function Route(start: Files, refuses: Refusals): Server {
    (requests: seq<Request>) =>
      if requests == [] || refuses(requests) then Refused
      else RouteAnswer(FilesAfter(start, requests[..|requests| - 1], refuses), requests[|requests| - 1])
  }

  lemma {:induction false} RouteDecides(start: Files, refuses: Refusals, sent: seq<Request>, r: Request)
    requires SkipsCheck(r.extra)
    ensures Route(start, refuses)(sent + [r]) == if refuses(sent + [r]) || Trim(r.remoteDir) == "" then Refused else Accepted
  {
    var all := sent + [r];
    assert all[..|all| - 1] == sent;
    hide FilesAfter;
    assert Route(start, refuses)(all) ==
           if refuses(all) then Refused else RouteAnswer(FilesAfter(start, all[..|all| - 1], refuses), all[|all| - 1]);
  }

  function ToSend(queue: seq<Asset>, dir: string, extra: Extra): seq<Request> {
    Map(queue, (a: Asset) => Request(a, dir, extra))
  }

  lemma {:induction false} NothingToSend(dir: string, extra: Extra)
    ensures ToSend([], dir, extra) == []
  {
  }

  lemma {:induction false} SendOneMore(sent: seq<Request>, queue: seq<Asset>, k: nat, dir: string, extra: Extra)
    requires k < |queue|
    ensures sent + [Request(queue[k], dir, extra)] + ToSend(queue[k + 1..], dir, extra) == sent + ToSend(queue[k..], dir, extra)
  {
    var rest := queue[k..];
    assert rest[0] == queue[k] && rest[1..] == queue[k + 1..];
    assert ToSend(rest, dir, extra) == [Request(rest[0], dir, extra)] + ToSend(rest[1..], dir, extra);
  }

  /** None of the requests `all` after the first `n` is refused. */
  ghost predicate NoneRefused(all: seq<Request>, n: nat, dir: string, refuses: Refusals) {
    forall j :: n < j <= |all| ==> !refuses(all[..j]) && Trim(dir) != ""
  }

  /** A resumed queue goes out entirely under the user's decision: it never stops at another collision.
      It completes if and only if none of its requests is refused, and then it has sent them all. */
  lemma {:induction false} ResumedQueueCompletesIff(s: Modal, queue: seq<Asset>, k: nat, done: nat, total: nat, dir: string,
                                                    extra: Extra, start: Files, refuses: Refusals)
    requires SkipsCheck(extra) && k <= |queue| && s.pushing && s.conflict.None?
    ensures
      var r := PushFrom(s, queue, k, done, total, dir, extra, Route(start, refuses));
      var all := s.requests + ToSend(queue[k..], dir, extra);
      && r.conflict.None? && r.pushedCalls == (if r.pushing then s.pushedCalls + 1 else s.pushedCalls)
      && (r.pushing <==> NoneRefused(all, |s.requests|, dir, refuses))
      && (r.pushing ==> r.accepted == s.accepted + queue[k..] && r.requests == all)
    decreases |queue| - k
  {
    hide FilesAfter, Route, RouteAnswer, ToSend;
    if k == |queue| {
      NothingToSend(dir, extra);
      assert queue[k..] == [];
    } else {
      var q := Request(queue[k], dir, extra);
      var sent := s.(requests := s.requests + [q]);
      var all := s.requests + ToSend(queue[k..], dir, extra);
      RouteDecides(start, refuses, s.requests, q);
      SendOneMore(s.requests, queue, k, dir, extra);
      FirstRefused(all, s.requests, q, dir, refuses);
      hide NoneRefused;
      ResumedQueueCompletesIff(sent.(accepted := sent.accepted + [queue[k]], progress := Percent(done + 1, total)),
                               queue, k + 1, done + 1, total, dir, extra, start, refuses);
      assert s.accepted + queue[k..] == s.accepted + [queue[k]] + queue[k + 1..];
    }
  }

  lemma {:induction false} FirstRefused(all: seq<Request>, sent: seq<Request>, q: Request, dir: string, refuses: Refusals)
    requires sent + [q] <= all
    ensures NoneRefused(all, |sent|, dir, refuses) <==>
            !refuses(sent + [q]) && Trim(dir) != "" && NoneRefused(all, |sent| + 1, dir, refuses)
  {
    var j := |sent| + 1;
    assert all[..j] == sent + [q];
  }

  lemma {:induction false} FilesDecided(start: Files, sent: seq<Request>, q: Request, refuses: Refusals)
    requires SkipsCheck(q.extra) && !refuses(sent + [q]) && Trim(q.remoteDir) != ""
    ensures FilesAfter(start, sent + [q], refuses) ==
            FilesAfter(start, sent, refuses)[(Trim(q.remoteDir), RemoteName(q)) := q.asset.assetId]
  {
    var all := sent + [q];
    assert all[..|all| - 1] == sent;
  }

  lemma {:induction false} SendLast(sent: seq<Request>, queue: seq<Asset>, dir: string, extra: Extra)
    requires queue != []
    ensures sent + ToSend(queue, dir, extra) ==
            sent + ToSend(queue[..|queue| - 1], dir, extra) + [Request(queue[|queue| - 1], dir, extra)]
  {
  }

  lemma {:induction false} NoneRefusedBefore(front: seq<Request>, q: Request, n: nat, dir: string, refuses: Refusals)
    requires n <= |front| && NoneRefused(front + [q], n, dir, refuses)
    ensures NoneRefused(front, n, dir, refuses) && !refuses(front + [q]) && Trim(dir) != ""
  {
    var all := front + [q];
    assert all[..|all|] == all;
    forall j | n < j <= |front| ensures !refuses(front[..j]) {
      assert front[..j] == all[..j];
    }
  }

  /** Everything sent to one folder under one new name lands in one file: the last one sent. */
  lemma {:induction false} RenamedQueueFile(start: Files, requests: seq<Request>, queue: seq<Asset>, dir: string, name: string,
                                            refuses: Refusals)
    requires Trim(name) != "" && name != "" && queue != []
    requires NoneRefused(requests + ToSend(queue, dir, Rename(name)), |requests|, dir, refuses)
    ensures
      FilesAfter(start, requests + ToSend(queue, dir, Rename(name)), refuses) ==
      FilesAfter(start, requests, refuses)[(Trim(dir), Trim(name)) := queue[|queue| - 1].assetId]
    decreases |queue|
  {
    hide FilesAfter, NoneRefused, Trim, ToSend;
    var front, q := queue[..|queue| - 1], Request(queue[|queue| - 1], dir, Rename(name));
    var sent := requests + ToSend(front, dir, Rename(name));
    SendLast(requests, queue, dir, Rename(name));
    NoneRefusedBefore(sent, q, |requests|, dir, refuses);
    FilesDecided(start, sent, q, refuses);
    if front == [] {
      NothingToSend(dir, Rename(name));
      assert sent == requests;
    } else {
      RenamedQueueFile(start, requests, front, dir, name, refuses);
    }
  }

  /** Choosing "rename" at a collision is meant for one asset. When the push then completes, that asset's
      file is on the remote side exactly when nothing else was queued behind it: the new name goes with
      every request of the resumed queue, and each replaces the file before. */
  lemma {:induction false} RenameKeepsFileIff(s: Modal, assets: seq<Asset>, dir: string, start: Files, refuses: Refusals)
    requires s.conflict.Some?
    requires var c := s.conflict.value; c.suggestedName == SuggestedName(c.asset.originalFilename)
    requires var c := s.conflict.value;
      && c.asset.assetId !in FilesAfter(start, s.requests, refuses).Values
      && forall a :: a in c.remaining ==> a.assetId != c.asset.assetId
    ensures
      var c := s.conflict.value;
      var r := Resolved(s, assets, ChooseRename, dir, Route(start, refuses));
      r.pushing ==> (c.asset.assetId in FilesAfter(start, r.requests, refuses).Values <==> c.remaining == [])
  {
    var c := s.conflict.value;
    var queue := [c.asset] + c.remaining;
    var name := c.suggestedName;
    SuggestedRemains(c.asset.originalFilename);
    hide FilesAfter, PushFrom, SuggestedName, NoneRefused, Trim;
    ResumedQueueCompletesIff(Resumed(s), queue, 0, c.done, |Pushable(assets)|, dir, Rename(name), start, refuses);
    assert queue[0..] == queue;
    if Resolved(s, assets, ChooseRename, dir, Route(start, refuses)).pushing {
      RenamedQueueFile(start, s.requests, queue, dir, name, refuses);
      var before := FilesAfter(start, s.requests, refuses);
      var key := (Trim(dir), Trim(name));
      var after := before[key := queue[|queue| - 1].assetId];
      if c.remaining == [] {
        assert key in after && after[key] == c.asset.assetId;
      } else {
        assert queue[|queue| - 1] == c.remaining[|c.remaining| - 1];
        assert after.Values <= before.Values + {c.remaining[|c.remaining| - 1].assetId};
      }
    }
  }

  lemma {:induction false} RouteCollides(start: Files, refuses: Refusals, q: Request)
    requires !SkipsCheck(q.extra) && Trim(q.remoteDir) != "" && (Trim(q.remoteDir), q.asset.originalFilename) in start
    requires !refuses([q])
    ensures Route(start, refuses)([q]) == Collision(SuggestedName(q.asset.originalFilename))
    ensures FilesAfter(start, [q], refuses) == start
  {
    assert [q][..0] == [] && FilesAfter(start, [], refuses) == start;
  }

  lemma {:induction false} FirstCollides(a: Asset, b: Asset, dir: string, start: Files, refuses: Refusals)
    requires a != b && HasFile(a) && HasFile(b) && InFolder(dir) && Trim(dir) != ""
    requires (Trim(dir), a.originalFilename) in start && !refuses([Request(a, dir, NoExtra)])
    ensures
      var s := Run(START, [a, b], [Push(dir)], Route(start, refuses));
      && s.requests == [Request(a, dir, NoExtra)] && FilesAfter(start, s.requests, refuses) == start
      && s.conflict == Some(Conflict(a, SuggestedName(a.originalFilename), [b], 0)) && s.pushedCalls == 0
  {
    hide SuggestedName, Route, FilesAfter, Trim;
    var all, server, q := [a, b], Route(start, refuses), Request(a, dir, NoExtra);
    RouteCollides(start, refuses, q);
    FilterAll(all, (x: Asset) => HasFile(x));
    assert Pushable(all) == all;
    assert [Push(dir)][..0] == [] && Run(START, all, [], server) == START;
    assert Run(START, all, [Push(dir)], server) == PushFrom(Started(START), all, 0, 0, 2, dir, NoExtra, server);
    assert START.requests + [q] == [q] && all[1..] == [b];
  }

  /** For instance two assets, the first of which collides, while nothing is refused: after "rename" the
      push completes, the file of the first is nowhere, and everything went to the folder that was open at
      the resolution, be it the root. */
  lemma {:induction false} RenameLosesFile(a: Asset, b: Asset, dir: string, other: string, start: Files, refuses: Refusals)
    requires HasFile(a) && HasFile(b) && a.assetId != b.assetId && InFolder(dir) && Trim(dir) != "" && Trim(other) != ""
    requires (Trim(dir), a.originalFilename) in start && a.assetId !in start.Values
    requires forall requests :: !refuses(requests)
    ensures
      var s := Run(START, [a, b], [Push(dir), Resolve(ChooseRename, other)], Route(start, refuses));
      && s.pushedCalls == 1 && a.assetId !in FilesAfter(start, s.requests, refuses).Values
      && s.requests == [Request(a, dir, NoExtra)] +
                       ToSend([a, b], other, Rename(SuggestedName(a.originalFilename)))
  {
    hide SuggestedName, Route, FilesAfter, Trim, Pushable, PushFrom, ToSend;
    FirstCollides(a, b, dir, start, refuses);
    var all, server := [a, b], Route(start, refuses);
    var events := [Push(dir), Resolve(ChooseRename, other)];
    var first := Run(START, all, [Push(dir)], server);
    assert events[..1] == [Push(dir)];
    assert Run(START, all, events, server) == Resolved(first, all, ChooseRename, other, server);
    SuggestedRemains(a.originalFilename);
    var queue := [a] + [b];
    ResumedQueueCompletesIff(Resumed(first), queue, 0, 0, |Pushable(all)|, other, Rename(SuggestedName(a.originalFilename)),
                             start, refuses);
    assert queue[0..] == queue == all;
    RenameKeepsFileIff(first, all, other, start, refuses);
  }

  /** The root folder is a folder like any other to the route. */
  lemma {:induction false} RootIsAccepted(start: Files, refuses: Refusals, sent: seq<Request>, a: Asset, extra: Extra)
    requires SkipsCheck(extra) && !refuses(sent + [Request(a, "/", extra)])
    ensures Route(start, refuses)(sent + [Request(a, "/", extra)]) == Accepted
  {
    TrimKeeps("/", '/');
    RouteDecides(start, refuses, sent, Request(a, "/", extra));
  }
}

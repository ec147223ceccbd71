/** What the push modal sends at each click, what it shows, and where the files of an "overwrite" land. */
module PushReports {
  import opened Sequences
  import opened Text
  import opened PushQueue

  // ----- What is sent -----

  /** The assets to push are those with a local file, in their order. */
  lemma {:induction false} PushableAre(assets: seq<Asset>) returns (at: seq<nat>)
    ensures forall i, j :: 0 <= i < j < |at| ==> at[i] < at[j]
    ensures forall n: nat :: n in at <==> n < |assets| && assets[n].filePath.Some? && assets[n].filePath.value != ""
    ensures |Pushable(assets)| == |at|
    ensures forall i :: 0 <= i < |at| ==> at[i] < |assets| && Pushable(assets)[i] == assets[at[i]]
  {
    at := FilterPositions(assets, (a: Asset) => HasFile(a));
  }

  /** The requests `all` are those of before and one for each asset of `queue`, in order. */
  ghost predicate Sends(all: seq<Request>, before: seq<Request>, queue: seq<Asset>, dir: string, extra: Extra) {
    && |all| == |before| + |queue| && all[..|before|] == before
    && forall i :: 0 <= i < |queue| ==> all[|before| + i] == Request(queue[i], dir, extra)
  }

  lemma {:induction false} SendsMore(all: seq<Request>, before: seq<Request>, queue: seq<Asset>, k: nat, n: nat, dir: string,
                                     extra: Extra)
    requires k < n <= |queue| && Sends(all, before + [Request(queue[k], dir, extra)], queue[k + 1..n], dir, extra)
    ensures Sends(all, before, queue[k..n], dir, extra)
  {
    var first := before + [Request(queue[k], dir, extra)];
    assert all[..|first|][..|before|] == before && all[..|first|][|before|] == first[|before|];
    forall i | 0 <= i < n - k ensures all[|before| + i] == Request(queue[k..n][i], dir, extra) {
      assert i > 0 ==> all[|first| + (i - 1)] == Request(queue[k + 1..n][i - 1], dir, extra);
    }
  }

  lemma {:induction false} PushFromSends(s: Modal, queue: seq<Asset>, k: nat, done: nat, total: nat, dir: string, extra: Extra,
                                         server: Server) returns (n: nat)
    requires k <= |queue|
    ensures k <= n <= |queue| && (k < |queue| ==> k < n)
    ensures Sends(PushFrom(s, queue, k, done, total, dir, extra, server).requests, s.requests, queue[k..n], dir, extra)
    decreases |queue| - k
  {
    if k == |queue| {
      n := k;
    } else {
      hide Sends;
      var q := Request(queue[k], dir, extra);
      var sent := s.(requests := s.requests + [q]);
      if server(sent.requests).Accepted? {
        n := PushFromSends(sent.(accepted := sent.accepted + [queue[k]], progress := Percent(done + 1, total)),
                           queue, k + 1, done + 1, total, dir, extra, server);
      } else {
        n := k + 1;
        SendsNone(sent.requests, dir, extra);
        assert queue[k + 1..n] == [];
      }
      SendsMore(PushFrom(s, queue, k, done, total, dir, extra, server).requests, s.requests, queue, k, n, dir, extra);
    }
  }

  lemma {:induction false} SendsNone(before: seq<Request>, dir: string, extra: Extra)
    ensures Sends(before, before, [], dir, extra)
  {
  }

  /** A push sends pushable assets, in order from the first, to the open folder and with no decision; a
      resolution sends the colliding asset and those queued behind it, all with that decision. Clicks that
      are not possible send nothing. */
  lemma {:induction false} StepSends(s: Modal, assets: seq<Asset>, e: Event, server: Server) returns (n: nat)
    ensures
      var t := Step(s, assets, e, server);
      match e
      case Push(path) =>
        if s.pushing || s.conflict.Some? || path == "" || path == "/" then t == s
        else n <= |Pushable(assets)| && Sends(t.requests, s.requests, Pushable(assets)[..n], path, NoExtra)
      case Resolve(choice, path) =>
        match s.conflict
        case None => t == s
        case Some(c) =>
          var queue := [c.asset] + c.remaining;
          n <= |queue| &&
          match choice
          case ChooseOverwrite => Sends(t.requests, s.requests, queue[..n], path, Overwrite)
          case ChooseRename => Sends(t.requests, s.requests, queue[..n], path, Rename(c.suggestedName))
  {
    hide Pushable, PushFrom, Sends;
    n := 0;
    if e.Push? && !s.pushing && s.conflict.None? && InFolder(e.currentPath) {
      var queue := Pushable(assets);
      n := PushFromSends(Started(s), queue, 0, 0, |queue|, e.currentPath, NoExtra, server);
      assert queue[0..n] == queue[..n];
    } else if e.Resolve? && s.conflict.Some? {
      var c := s.conflict.value;
      var queue := [c.asset] + c.remaining;
      n := PushFromSends(Resumed(s), queue, 0, c.done, |Pushable(assets)|, e.currentPath, ExtraOf(c, e.choice), server);
      assert queue[0..n] == queue[..n];
    }
  }

  // ----- What is shown -----

  /** The modal shows what the server said last: an error after a refusal, the conflict after a collision. */
  ghost predicate Reports(s: Modal, server: Server) {
    if s.requests == [] then !s.failed && s.conflict.None?
    else
      var last := server(s.requests);
      && (s.failed <==> last.Refused?) && (s.conflict.Some? <==> last.Collision?)
      && (last.Collision? ==>
            && s.conflict.value.suggestedName == last.suggestedName
            && s.conflict.value.asset == s.requests[|s.requests| - 1].asset)
  }

  lemma {:induction false} PushFromReports(s: Modal, queue: seq<Asset>, k: nat, done: nat, total: nat, dir: string,
                                           extra: Extra, server: Server)
    requires k <= |queue| && !s.failed && s.conflict.None?
    requires k == |queue| ==> Reports(s, server)
    ensures Reports(PushFrom(s, queue, k, done, total, dir, extra, server), server)
    decreases |queue| - k
  {
    if k == |queue| {
    } else {
      var sent := s.(requests := s.requests + [Request(queue[k], dir, extra)]);
      if server(sent.requests).Accepted? {
        PushFromReports(sent.(accepted := sent.accepted + [queue[k]], progress := Percent(done + 1, total)),
                        queue, k + 1, done + 1, total, dir, extra, server);
      }
    }
  }

  /** Over every run and every server. */
  lemma {:induction false} RunReports(assets: seq<Asset>, events: seq<Event>, server: Server)
    ensures Reports(Run(START, assets, events, server), server)
    ensures Pushable(assets) == [] ==> Run(START, assets, events, server).requests == []
  {
    hide Pushable, PushFrom, Reports;
    if events == [] {
      NothingSaid(server);
    } else {
      var front, e := events[..|events| - 1], events[|events| - 1];
      var s := Run(START, assets, front, server);
      RunReports(assets, front, server);
      if e.Push? && !s.pushing && s.conflict.None? && InFolder(e.currentPath) {
        PushReports(s, Pushable(assets), e.currentPath, server);
      } else if e.Resolve? && s.conflict.Some? {
        var c := s.conflict.value;
        ConflictSaid(s, server);
        PushFromReports(Resumed(s), [c.asset] + c.remaining, 0, c.done, |Pushable(assets)|, e.currentPath,
                        ExtraOf(c, e.choice), server);
      }
    }
  }

  lemma {:induction false} NothingSaid(server: Server)
    ensures Reports(START, server)
  {
  }

  lemma {:induction false} ConflictSaid(s: Modal, server: Server)
    requires Reports(s, server)
    ensures s.conflict.Some? ==> s.requests != []
  {
  }

  lemma {:induction false} PushReports(s: Modal, queue: seq<Asset>, dir: string, server: Server)
    requires s.conflict.None? && (queue == [] ==> s.requests == [])
    ensures
      var r := PushFrom(Started(s), queue, 0, 0, |queue|, dir, NoExtra, server);
      Reports(r, server) && (queue == [] ==> r.requests == [])
  {
    PushFromReports(Started(s), queue, 0, 0, |queue|, dir, NoExtra, server);
  }

  /** The percentage is the integer nearest to the exact one, half rounded up; it is 100 when all is done. */
  lemma {:induction false} PercentRounds(done: nat, total: nat)
    requires done <= total && 0 < total
    ensures
      var p := Percent(done, total);
      && p as real - 0.5 <= 100.0 * (done as real / total as real) < p as real + 0.5
      && 0 <= p <= 100 && (done == total ==> p == 100)
  {
    Share(done as real, total as real);
  }

  lemma {:induction false} Share(a: real, b: real)
    requires 0.0 <= a <= b && b > 0.0
    ensures 0.0 <= a / b <= 1.0 && (a == b ==> a / b == 1.0)
  {
    var q := a / b;
    assert q * b == a;
    Multiple(q, b);
  }

  lemma {:induction false} Multiple(q: real, b: real)
    requires b > 0.0
    ensures (q < 0.0 ==> q * b < 0.0) && (q > 1.0 ==> q * b > b) && (q < 1.0 ==> q * b < b)
  {
  }

  lemma {:induction false} PushFromProgress(s: Modal, queue: seq<Asset>, k: nat, total: nat, dir: string, extra: Extra,
                                            server: Server)
    requires k <= |queue| && s.earlier <= |s.accepted| && s.progress == Percent(|Current(s)|, total)
    ensures
      var r := PushFrom(s, queue, k, |Current(s)|, total, dir, extra, server);
      r.earlier == s.earlier <= |r.accepted| && r.progress == Percent(|Current(r)|, total)
    decreases |queue| - k
  {
    hide Percent;
    if k == |queue| {
    } else {
      var sent := s.(requests := s.requests + [Request(queue[k], dir, extra)]);
      if server(sent.requests).Accepted? {
        var next := sent.(accepted := sent.accepted + [queue[k]], progress := Percent(|Current(s)| + 1, total));
        assert |Current(next)| == |Current(s)| + 1;
        PushFromProgress(next, queue, k + 1, total, dir, extra, server);
      }
    }
  }

  /** Over every run and every server the bar shows the share of the pushable assets that the current
      attempt has got accepted. */
  lemma {:induction false} RunProgress(assets: seq<Asset>, events: seq<Event>, server: Server)
    requires Distinct(Pushable(assets))
    ensures
      var s := Run(START, assets, events, server);
      s.earlier <= |s.accepted| && s.progress == Percent(|Current(s)|, |Pushable(assets)|)
  {
    hide Pushable, PushFrom, Distinct, Percent;
    NoPercent(|Pushable(assets)|);
    if events == [] {
      assert |Current(START)| == 0;
    } else {
      var front, e := events[..|events| - 1], events[|events| - 1];
      var s := Run(START, assets, front, server);
      RunProgress(assets, front, server);
      RunConsistent(assets, front, server);
      if e.Push? && !s.pushing && s.conflict.None? && InFolder(e.currentPath) {
        assert |Current(Started(s))| == 0;
        PushFromProgress(Started(s), Pushable(assets), 0, |Pushable(assets)|, e.currentPath, NoExtra, server);
      } else if e.Resolve? && s.conflict.Some? {
        var c := s.conflict.value;
        assert Current(Resumed(s)) == Current(s) && c.done == |Current(s)|;
        PushFromProgress(Resumed(s), [c.asset] + c.remaining, 0, |Pushable(assets)|, e.currentPath, ExtraOf(c, e.choice), server);
      }
    }
  }

  lemma {:induction false} NoPercent(total: nat)
    ensures Percent(0, total) == 0
  {
  }

  // ----- What the route does -----

  lemma {:induction false} LastDotIs(name: string)
    ensures LastDot(name) < |name| && forall k :: LastDot(name) < k < |name| && k >= 0 ==> name[k] != '.'
    ensures LastDot(name) >= 0 ==> name[LastDot(name)] == '.'
  {
    if name == "" {
    } else {
      LastDotIs(name[..|name| - 1]);
    }
  }

  /** The suggested name puts "(1)" before the extension, the part from the last dot on, if there is one. */
  lemma {:induction false} SuggestedNameIs(filename: string) returns (stem: string, extension: string)
    ensures filename == stem + extension && SuggestedName(filename) == stem + "(1)" + extension
    ensures if extension == "" then '.' !in filename else extension[0] == '.' && '.' !in extension[1..]
  {
    LastDotIs(filename);
    var at := if LastDot(filename) < 0 then |filename| else LastDot(filename);
    stem, extension := filename[..at], filename[at..];
    assert stem + "(1)" + "" == stem + "(1)";
  }

  /** A request is answered with a collision exactly when it carries no decision, its folder holds a file
      with the asset's own name, and nothing else is wrong with it. */
  lemma {:induction false} CollidesIff(start: Files, refuses: Refusals, sent: seq<Request>, r: Request)
    ensures
      var files := FilesAfter(start, sent, refuses);
      var wrong := refuses(sent + [r]) || Trim(r.remoteDir) == "";
      var decided := r.extra.Overwrite? || (r.extra.Rename? && r.extra.filenameOverride != "");
      var answer := Route(start, refuses)(sent + [r]);
      && (answer.Refused? <==> wrong)
      && (answer.Collision? <==> !wrong && !decided && (Trim(r.remoteDir), r.asset.originalFilename) in files)
      && (answer.Collision? ==> answer.suggestedName == SuggestedName(r.asset.originalFilename))
  {
    hide FilesAfter, Trim, SuggestedName;
    var all := sent + [r];
    assert all[..|all| - 1] == sent;
    assert Route(start, refuses)(all) ==
           if refuses(all) then Refused else RouteAnswer(FilesAfter(start, all[..|all| - 1], refuses), all[|all| - 1]);
  }

  /** An accepted request puts its asset's file into its folder, under the new name if it brings one and
      else under the asset's own; any other request changes no file. */
  lemma {:induction false} FilesGrow(start: Files, refuses: Refusals, sent: seq<Request>, r: Request)
    ensures
      var before, after := FilesAfter(start, sent, refuses), FilesAfter(start, sent + [r], refuses);
      var name := if r.extra.Rename? && Trim(r.extra.filenameOverride) != "" then Trim(r.extra.filenameOverride)
                  else r.asset.originalFilename;
      after == if Route(start, refuses)(sent + [r]).Accepted? then before[(Trim(r.remoteDir), name) := r.asset.assetId]
               else before
  {
    hide Trim, SuggestedName, RouteAnswer;
    var all := sent + [r];
    assert all[..|all| - 1] == sent;
    assert Route(start, refuses)(all) ==
           if refuses(all) then Refused else RouteAnswer(FilesAfter(start, all[..|all| - 1], refuses), all[|all| - 1]);
  }

  // ----- Overwriting -----

  /** Of the assets sent under their own names, the last with a name is the one found under it. */
  ghost predicate LastOfName(queue: seq<Asset>, k: nat)
    requires k < |queue|
  {
    forall j :: k < j < |queue| ==> queue[j].originalFilename != queue[k].originalFilename
  }

  ghost predicate Named(queue: seq<Asset>, name: string) {
    exists a :: a in queue && a.originalFilename == name
  }

  /** The folder holds the files of `queue` under their own names; all other files are as before. */
  ghost predicate Landed(before: Files, after: Files, queue: seq<Asset>, folder: string) {
    && (forall k: nat :: k < |queue| && LastOfName(queue, k) ==>
          (folder, queue[k].originalFilename) in after
          && after[(folder, queue[k].originalFilename)] == queue[k].assetId)
    && (forall key: (string, string) :: key.0 != folder || !Named(queue, key.1) ==>
          (key in after <==> key in before) && (key in before ==> after[key] == before[key]))
  }

  lemma {:induction false} LastOfFront(queue: seq<Asset>, a: Asset, k: nat)
    requires k < |queue| && LastOfName(queue + [a], k)
    ensures LastOfName(queue, k) && queue[k].originalFilename != a.originalFilename
  {
    var all := queue + [a];
    assert all[|queue|] == a && all[k] == queue[k];
    forall j | k < j < |queue| ensures queue[j].originalFilename != queue[k].originalFilename {
      assert all[j] == queue[j];
    }
  }

  lemma {:induction false} NamedMore(queue: seq<Asset>, a: Asset, name: string)
    ensures Named(queue + [a], name) <==> Named(queue, name) || a.originalFilename == name
  {
    if Named(queue, name) {
      var x :| x in queue && x.originalFilename == name;
      assert x in queue + [a];
    }
    assert a in queue + [a];
  }

  lemma {:induction false} LandedMore(before: Files, after: Files, queue: seq<Asset>, folder: string, a: Asset)
    requires Landed(before, after, queue, folder)
    ensures Landed(before, after[(folder, a.originalFilename) := a.assetId], queue + [a], folder)
  {
    hide LastOfName, Named;
    var all, end := queue + [a], after[(folder, a.originalFilename) := a.assetId];
    forall k: nat | k < |all| && LastOfName(all, k)
      ensures (folder, all[k].originalFilename) in end && end[(folder, all[k].originalFilename)] == all[k].assetId
    {
      if k < |queue| {
        LastOfFront(queue, a, k);
      }
    }
    forall key: (string, string) | key.0 != folder || !Named(all, key.1)
      ensures (key in end <==> key in before) && (key in before ==> end[key] == before[key])
    {
      NamedMore(queue, a, key.1);
    }
  }

  lemma {:induction false} OverwritesLand(start: Files, requests: seq<Request>, queue: seq<Asset>, dir: string, refuses: Refusals)
    requires NoneRefused(requests + ToSend(queue, dir, Overwrite), |requests|, dir, refuses)
    ensures Landed(FilesAfter(start, requests, refuses), FilesAfter(start, requests + ToSend(queue, dir, Overwrite), refuses),
                   queue, Trim(dir))
    decreases |queue|
  {
    hide FilesAfter, NoneRefused, Trim, ToSend, Landed;
    if queue == [] {
      NothingToSend(dir, Overwrite);
      assert requests + [] == requests;
      NothingLands(FilesAfter(start, requests, refuses), queue, Trim(dir));
    } else {
      var front, a := queue[..|queue| - 1], queue[|queue| - 1];
      var q, sent := Request(a, dir, Overwrite), requests + ToSend(front, dir, Overwrite);
      SendLast(requests, queue, dir, Overwrite);
      NoneRefusedBefore(sent, q, |requests|, dir, refuses);
      FilesDecided(start, sent, q, refuses);
      OverwritesLand(start, requests, front, dir, refuses);
      LandedMore(FilesAfter(start, requests, refuses), FilesAfter(start, sent, refuses), front, Trim(dir), a);
      SplitLast(queue);
    }
  }

  lemma {:induction false} NothingLands(files: Files, queue: seq<Asset>, folder: string)
    requires queue == []
    ensures Landed(files, files, queue, folder)
  {
  }

  /** When a push completes after "overwrite", the colliding asset and those queued behind it are found in
      the folder open at the resolution, each under its own filename, and no other file has changed. */
  lemma {:induction false} OverwriteKeepsNames(s: Modal, assets: seq<Asset>, dir: string, start: Files, refuses: Refusals)
    requires s.conflict.Some?
    ensures
      var c := s.conflict.value;
      var r := Resolved(s, assets, ChooseOverwrite, dir, Route(start, refuses));
      r.pushing ==>
        Landed(FilesAfter(start, s.requests, refuses), FilesAfter(start, r.requests, refuses), [c.asset] + c.remaining, Trim(dir))
  {
    hide FilesAfter, PushFrom, NoneRefused, Trim, Route, Landed, Pushable;
    var c := s.conflict.value;
    var queue := [c.asset] + c.remaining;
    ResumedQueueCompletesIff(Resumed(s), queue, 0, c.done, |Pushable(assets)|, dir, Overwrite, start, refuses);
    assert queue[0..] == queue;
    if Resolved(s, assets, ChooseOverwrite, dir, Route(start, refuses)).pushing {
      OverwritesLand(start, s.requests, queue, dir, refuses);
    }
  }
}

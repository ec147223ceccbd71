/** Which of several mounted players may play. While any theater player is mounted, compact players
    must stay silent, although play events are delivered asynchronously. */
module PlaybackArbitration {
  /** A video element: whether it plays, and how many of its play events are not delivered yet. */
  datatype Element = Element(playing: bool, due: nat)

  datatype Player = Player(theater: bool, video: nat)

  /** The module's counter and registry, the mounted players, and their elements.
      `nextVideo` names the next element the page creates. */
  datatype Page = Page(theaterMounted: int, compactVideos: set<nat>, players: map<nat, Player>,
                       elements: map<nat, Element>, nextVideo: nat)

  datatype Event =
    | Mounted(p: nat, theater: bool)
    | Unmounted(p: nat)
    | Rekeyed(p: nat)
    | PlayCalled(p: nat)
    | PauseCalled(p: nat)
    | PlayDelivered(p: nat)
    | MetadataLoaded(p: nat)
    | Reloaded(p: nat)

  predicate Suppressed(theaterMounted: int, theater: bool) {
    !theater && theaterMounted > 0
  }

  /** `play()` on a paused element starts it and queues one play event. */
  function Play(e: Element): Element {
    if e.playing then e else Element(true, e.due + 1)
  }

  function Pause(e: Element): Element {
    e.(playing := false)
  }

  function PauseAll(elements: map<nat, Element>, videos: set<nat>): map<nat, Element> {
    map v | v in elements :: if v in videos then Pause(elements[v]) else elements[v]
  }

  /** The effect of a player whose element is `video`, run after its commit. */
  function Register(s: Page, p: nat, theater: bool): Page {
    var video := s.nextVideo;
    var joined := s.(players := s.players[p := Player(theater, video)],
                     elements := s.elements[video := Element(false, 0)], nextVideo := video + 1);
    if theater then joined.(theaterMounted := s.theaterMounted + 1, elements := PauseAll(joined.elements, s.compactVideos))
    else joined.(compactVideos := s.compactVideos + {video})
  }

  /** The effect's cleanup; the element leaves the page with the player. */
  function Unregister(s: Page, p: nat): Page
    requires p in s.players
  {
    var player := s.players[p];
    var gone := s.(players := s.players - {p}, elements := s.elements - {player.video});
    if player.theater then gone.(theaterMounted := s.theaterMounted - 1)
    else gone.(compactVideos := s.compactVideos - {player.video})
  }

  function Update(s: Page, p: nat, e: Element): Page
    requires p in s.players
  {
    s.(elements := s.elements[s.players[p].video := e])
  }

  /** Every live player owns an element of the page, and no two share one. */
  ghost predicate Owned(s: Page) {
    && (forall p :: p in s.players ==> s.players[p].video in s.elements && s.players[p].video < s.nextVideo)
    && (forall p, q :: p in s.players && q in s.players && p != q ==> s.players[p].video != s.players[q].video)
  }

  /** The counter counts the live theater players and the registry lists the live compact videos. */
  ghost predicate Consistent(s: Page) {
    && Owned(s)
    && s.theaterMounted == |Theaters(s)|
    && s.compactVideos == CompactVideos(s)
  }

  ghost function Theaters(s: Page): set<nat> {
    set p | p in s.players && s.players[p].theater
  }

  ghost function CompactVideos(s: Page): set<nat> {
    set p | p in s.players && !s.players[p].theater :: s.players[p].video
  }

  function VideoOf(s: Page, p: nat): Element
    requires p in s.players && s.players[p].video in s.elements
  {
    s.elements[s.players[p].video]
  }

  /** Events addressed to absent players do not occur; a new player has a new name. */
  predicate Enabled(s: Page, e: Event) {
    if e.Mounted? then e.p !in s.players
    else e.p in s.players && s.players[e.p].video in s.elements && (e.PlayDelivered? ==> VideoOf(s, e.p).due > 0)
  }

  function Step(s: Page, e: Event): Page {
    if !Enabled(s, e) then s
    else match e
      case Mounted(p, theater) => Register(s, p, theater)
      case Unmounted(p) => Unregister(s, p)
      case Rekeyed(p) => Register(Unregister(s, p), p, s.players[p].theater)
      case PlayCalled(p) => Update(s, p, Play(VideoOf(s, p)))
      case PauseCalled(p) => Update(s, p, Pause(VideoOf(s, p)))
      case PlayDelivered(p) =>
        var e := VideoOf(s, p).(due := VideoOf(s, p).due - 1);
        Update(s, p, if Suppressed(s.theaterMounted, s.players[p].theater) then Pause(e) else e)
      case MetadataLoaded(p) =>
        Update(s, p, if Suppressed(s.theaterMounted, s.players[p].theater) then VideoOf(s, p) else Play(VideoOf(s, p)))
      case Reloaded(p) => Update(s, p, Element(false, 0))
  }

  function Run(s: Page, events: seq<Event>): Page {
    if events == [] then s
    else Step(Run(s, events[..|events| - 1]), events[|events| - 1])
  }

  const EMPTY_PAGE := Page(0, {}, map[], map[], 0)

  // ----- The imperative effects -----

  class Registry {
    var theaterMounted: int
    var compactVideos: set<nat>
    var players: map<nat, Player>
    var elements: map<nat, Element>
    var nextVideo: nat

    function State(): Page reads this {
      Page(theaterMounted, compactVideos, players, elements, nextVideo)
    }

    method PauseCompacts()
      modifies this`elements
      ensures elements == PauseAll(old(elements), compactVideos)
    {
      var rest := compactVideos;
      while rest != {}
        invariant rest <= compactVideos
        invariant elements == PauseAll(old(elements), compactVideos - rest)
        decreases rest
      {
        var c :| c in rest;
        if c in elements {
          elements := elements[c := Pause(elements[c])];
        }
        rest := rest - {c};
      }
      assert compactVideos - {} == compactVideos;
    }

    /** A player mounts: its element exists, then the effect runs. */
    method Mount(p: nat, theater: bool)
      requires p !in players
      modifies this
      ensures State() == Step(old(State()), Mounted(p, theater))
    {
      var v := nextVideo;
      players := players[p := Player(theater, v)];
      elements := elements[v := Element(false, 0)];
      nextVideo := v + 1;
      if theater {
        theaterMounted := theaterMounted + 1;
        PauseCompacts();
      } else {
        compactVideos := compactVideos + {v};
      }
    }

    method Unmount(p: nat)
      requires p in players && players[p].video in elements
      modifies this
      ensures State() == Step(old(State()), Unmounted(p))
    {
      var v := players[p].video;
      if players[p].theater {
        theaterMounted := theaterMounted - 1;
      } else {
        compactVideos := compactVideos - {v};
      }
      players := players - {p};
      elements := elements - {v};
    }

    /** The delivered play event: every path that starts playback ends up here. */
    method OnPlay(p: nat)
      requires p in players && players[p].video in elements && elements[players[p].video].due > 0
      modifies this
      ensures State() == Step(old(State()), PlayDelivered(p))
    {
      var v := players[p].video;
      elements := elements[v := elements[v].(due := elements[v].due - 1)];
      if Suppressed(theaterMounted, players[p].theater) {
        elements := elements[v := Pause(elements[v])];
      }
    }

    method OnLoadedMetadata(p: nat)
      requires p in players && players[p].video in elements
      modifies this
      ensures State() == Step(old(State()), MetadataLoaded(p))
    {
      var v := players[p].video;
      if !Suppressed(theaterMounted, players[p].theater) {
        elements := elements[v := Play(elements[v])];
      }
    }
  }

  // ----- Safety over whole runs -----

  lemma {:induction false} RegisteredSets(s: Page, p: nat, theater: bool)
    requires Consistent(s) && p !in s.players
    ensures
      var t := Register(s, p, theater);
      && Theaters(t) == (if theater then Theaters(s) + {p} else Theaters(s))
      && CompactVideos(t) == if theater then CompactVideos(s) else CompactVideos(s) + {s.nextVideo}
  {
    var t := Register(s, p, theater);
    assert t.players[p] == Player(theater, s.nextVideo);
    assert forall q :: q in s.players ==> t.players[q] == s.players[q];
    forall v | v in CompactVideos(s) ensures v in CompactVideos(t) {
      var q :| q in s.players && !s.players[q].theater && s.players[q].video == v;
      assert q in t.players && t.players[q].video == v;
    }
  }

  lemma {:induction false} RegisterConsistent(s: Page, p: nat, theater: bool)
    requires Consistent(s) && p !in s.players
    ensures Consistent(Register(s, p, theater))
  {
    RegisteredSets(s, p, theater);
    RegisterOwned(s, p, theater);
    assert p !in Theaters(s);
    hide Theaters, CompactVideos, Owned;
  }

  lemma {:induction false} RegisterOwned(s: Page, p: nat, theater: bool)
    requires Owned(s) && p !in s.players
    ensures Owned(Register(s, p, theater))
  {
  }

  lemma {:induction false} UnregisteredVideos(s: Page, p: nat)
    requires Owned(s) && p in s.players
    ensures CompactVideos(Unregister(s, p)) == CompactVideos(s) - {s.players[p].video}
    ensures s.players[p].theater ==> s.players[p].video !in CompactVideos(s)
  {
    var t := Unregister(s, p);
    forall v ensures v in CompactVideos(t) <==> v in CompactVideos(s) && v != s.players[p].video {
      if v in CompactVideos(s) && v != s.players[p].video {
        var q :| q in s.players && !s.players[q].theater && s.players[q].video == v;
        assert t.players[q] == s.players[q];
      }
      if v in CompactVideos(t) {
        var q :| q in t.players && !t.players[q].theater && t.players[q].video == v;
        assert t.players[q] == s.players[q];
      }
    }
  }

  lemma {:induction false} UnregisteredTheaters(s: Page, p: nat)
    requires p in s.players
    ensures Theaters(Unregister(s, p)) == Theaters(s) - {p} && (p in Theaters(s) <==> s.players[p].theater)
  {
  }

  lemma {:induction false} UnregisteredOwned(s: Page, p: nat)
    requires Owned(s) && p in s.players
    ensures Owned(Unregister(s, p))
  {
  }

  lemma {:induction false} UnregisterConsistent(s: Page, p: nat)
    requires Consistent(s) && p in s.players
    ensures Consistent(Unregister(s, p))
  {
    hide Theaters, CompactVideos, Owned;
    UnregisteredTheaters(s, p);
    UnregisteredVideos(s, p);
    UnregisteredOwned(s, p);
  }

  lemma {:induction false} StepConsistent(s: Page, e: Event)
    requires Consistent(s)
    ensures Consistent(Step(s, e))
  {
    if Enabled(s, e) {
      match e
      case Mounted(p, theater) => RegisterConsistent(s, p, theater);
      case Unmounted(p) => UnregisterConsistent(s, p);
      case Rekeyed(p) =>
        UnregisterConsistent(s, p);
        RegisterConsistent(Unregister(s, p), p, s.players[p].theater);
      case _ =>
        var t := Step(s, e);
        assert t.players == s.players;
        assert Theaters(t) == Theaters(s) && CompactVideos(t) == CompactVideos(s);
    }
  }

  /** While a theater player is mounted, every playing compact video has a play event on its way. */
  ghost predicate Arbitrated(s: Page)
    requires Consistent(s)
  {
    s.theaterMounted > 0 ==>
      forall p :: p in s.players && !s.players[p].theater && VideoOf(s, p).playing ==> VideoOf(s, p).due > 0
  }

  lemma {:induction false} RegisterArbitrated(s: Page, p: nat, theater: bool)
    requires Consistent(s) && Arbitrated(s) && p !in s.players
    ensures Consistent(Register(s, p, theater)) && Arbitrated(Register(s, p, theater))
  {
    RegisterConsistent(s, p, theater);
    hide Theaters;
    var t := Register(s, p, theater);
    forall q | t.theaterMounted > 0 && q in t.players && !t.players[q].theater && VideoOf(t, q).playing
      ensures VideoOf(t, q).due > 0
    {
      assert q != p;
      assert s.players[q].video in s.compactVideos;
    }
  }

  lemma {:induction false} UnregisterArbitrated(s: Page, p: nat)
    requires Consistent(s) && Arbitrated(s) && p in s.players
    ensures Consistent(Unregister(s, p)) && Arbitrated(Unregister(s, p))
  {
    UnregisterConsistent(s, p);
    hide Theaters, CompactVideos;
  }

  lemma {:induction false} StepArbitrated(s: Page, e: Event)
    requires Consistent(s) && Arbitrated(s)
    ensures Consistent(Step(s, e)) && Arbitrated(Step(s, e))
  {
    StepConsistent(s, e);
    hide Theaters, CompactVideos, Register, Unregister;
    if Enabled(s, e) {
      match e
      case Mounted(p, theater) => RegisterArbitrated(s, p, theater);
      case Unmounted(p) => UnregisterArbitrated(s, p);
      case Rekeyed(p) =>
        UnregisterArbitrated(s, p);
        LeftOut(s, p);
        RegisterArbitrated(Unregister(s, p), p, s.players[p].theater);
      case _ =>
    }
  }

  lemma {:induction false} LeftOut(s: Page, p: nat)
    requires p in s.players
    ensures p !in Unregister(s, p).players
  {
  }

  /** Over every run from the empty page: the counter is the number of live theater players, the
      registry is the set of live compact videos, and arbitration holds. */
  lemma {:induction false} RunArbitrated(events: seq<Event>)
    ensures Consistent(Run(EMPTY_PAGE, events)) && Arbitrated(Run(EMPTY_PAGE, events))
  {
    if events == [] {
      assert Theaters(EMPTY_PAGE) == {} && CompactVideos(EMPTY_PAGE) == {};
    } else {
      RunArbitrated(events[..|events| - 1]);
      StepArbitrated(Run(EMPTY_PAGE, events[..|events| - 1]), events[|events| - 1]);
    }
  }

  /** How often the player `p` has a play event delivered in `events`. */
  function Deliveries(events: seq<Event>, p: nat): nat {
    if events == [] then 0
    else
      var last := |events| - 1;
      Deliveries(events[..last], p) + if events[last] == PlayDelivered(p) then 1 else 0
  }

  lemma {:induction false} DrainStep(s: Page, e: Event, p: nat)
    requires Consistent(s) && p in s.players && e.PlayDelivered?
    ensures
      var t := Step(s, e);
      && t.players == s.players && t.theaterMounted == s.theaterMounted && p in t.players && t.players[p].video in t.elements
      && VideoOf(t, p).due == if e == PlayDelivered(p) && VideoOf(s, p).due > 0 then VideoOf(s, p).due - 1 else VideoOf(s, p).due
  {
  }

  lemma {:induction false} DrainRun(s: Page, events: seq<Event>, p: nat)
    requires Consistent(s) && Arbitrated(s) && p in s.players
    requires forall e :: e in events ==> e.PlayDelivered?
    ensures
      var t := Run(s, events);
      && Consistent(t) && Arbitrated(t) && t.players == s.players && t.theaterMounted == s.theaterMounted
      && VideoOf(t, p).due == if Deliveries(events, p) <= VideoOf(s, p).due then VideoOf(s, p).due - Deliveries(events, p) else 0
  {
    if events == [] {
    } else {
      var last := |events| - 1;
      DrainRun(s, events[..last], p);
      StepArbitrated(Run(s, events[..last]), events[last]);
      DrainStep(Run(s, events[..last]), events[last], p);
      hide Step, Arbitrated;
    }
  }

  /** Once the events queued for a compact player have been delivered it does not play while a
      theater player is mounted. */
  lemma {:induction false} DrainedCompactIsSilent(s: Page, events: seq<Event>, p: nat)
    requires Consistent(s) && Arbitrated(s) && p in s.players && !s.players[p].theater && s.theaterMounted > 0
    requires forall e :: e in events ==> e.PlayDelivered?
    requires Deliveries(events, p) >= VideoOf(s, p).due
    ensures
      var t := Run(s, events);
      p in t.players && t.players[p].video in t.elements && !VideoOf(t, p).playing
  {
    DrainRun(s, events, p);
  }

  /** A playing video stops in a step exactly when its own pause, reload, re-key or unmount asks for
      it, or it is compact and either a theater player registers or its play event arrives while one
      is mounted. Arbitration therefore never pauses a theater player. */
  lemma {:induction false} StopsIff(s: Page, e: Event, q: nat)
    requires Consistent(s) && Enabled(s, e) && q in s.players && VideoOf(s, q).playing
    ensures
      var t := Step(s, e);
      var stopped := !(q in t.players && t.players[q].video in t.elements && VideoOf(t, q).playing);
      var own := e.p == q && (e.PauseCalled? || e.Reloaded? || e.Rekeyed? || e.Unmounted?);
      var arbitration :=
        !s.players[q].theater &&
        ((e.Mounted? && e.theater) || (e.Rekeyed? && s.players[e.p].theater)
         || (e == PlayDelivered(q) && s.theaterMounted > 0));
      stopped <==> own || arbitration
  {
    var v := s.players[q].video;
    assert v in s.compactVideos <==> !s.players[q].theater by {
      if v in s.compactVideos {
        var p :| p in s.players && !s.players[p].theater && s.players[p].video == v;
        assert p == q;
      }
    }
  }

  /** A video that does not play starts in a step exactly when something calls `play()` on it or its
      metadata arrives while no theater player holds it back; its play event is then on its way. */
  lemma {:induction false} StartsIff(s: Page, e: Event, q: nat)
    requires Consistent(s) && Enabled(s, e) && q in s.players && !VideoOf(s, q).playing
    ensures
      var t := Step(s, e);
      var started := q in t.players && t.players[q].video in t.elements && VideoOf(t, q).playing;
      && (started <==> e == PlayCalled(q) || (e == MetadataLoaded(q) && (s.players[q].theater || s.theaterMounted == 0)))
      && (started ==> t.players == s.players && VideoOf(t, q).due == VideoOf(s, q).due + 1)
  {
    hide CompactVideos;
  }

  /** The play events on their way: a start queues one, a delivery takes one, a reload drops them all, and
      a new element has none. */
  lemma {:induction false} DueIs(s: Page, e: Event, q: nat)
    requires Consistent(s) && Enabled(s, e) && q in Step(s, e).players
    ensures
      var t := Step(s, e);
      && t.players[q].video in t.elements
      && if e.p == q && (e.Mounted? || e.Rekeyed? || e.Reloaded?) then !VideoOf(t, q).playing && VideoOf(t, q).due == 0
         else
           && q in s.players
           && (e == PlayDelivered(q) ==> VideoOf(s, q).due > 0)
           && VideoOf(t, q).due == VideoOf(s, q).due
                                   + (if !VideoOf(s, q).playing && VideoOf(t, q).playing then 1 else 0)
                                   - (if e == PlayDelivered(q) then 1 else 0)
  {
    hide Theaters, CompactVideos;
  }
}

/** The press-and-hold speed gesture on the right half of a video: a timer separates a tap from a
    hold, an interval escalates the speed while held, a downward drag locks it. */
module SpeedGesture {

  const SPEED_LEVELS: seq<real> := [1.0, 1.25, 1.5, 2.0]
  const SPEED_LOCK_PX := 25.0

  /** The refs (`holdArmed`, `interval`, `locked`, `level`, `gesture`, `startY`), the state that is
      rendered (`speed`, `lockedShown`, `holdingShown`) and the video element (`rate`, `paused`). */
  datatype Player = Player(holdArmed: bool, interval: bool, locked: bool, level: nat, gesture: bool, startY: real,
                           speed: real, lockedShown: bool, holdingShown: bool, rate: real, paused: bool)

  /** `PointerUp` is also a cancelled pointer. Timers fire only while armed; the badge that clears a
      lock is on screen only while a lock is shown above normal speed. */
  datatype Event =
    | PointerDown(onVideo: bool, rightHalf: bool, y: real)
    | PointerMove(y: real)
    | PointerUp
    | HoldElapsed
    | Tick
    | Click
    | ClearClicked

  function SetSpeed(s: Player, speed: real): Player {
    s.(speed := speed, rate := speed)
  }

  predicate Enabled(s: Player, e: Event) {
    match e
    case PointerDown(onVideo, rightHalf, _) => onVideo && rightHalf
    case HoldElapsed => s.holdArmed
    case Tick => s.interval
    case ClearClicked => s.lockedShown && s.speed > 1.0
    case _ => true
  }

  function Step(s: Player, e: Event): Player {
    if !Enabled(s, e) then s
    else match e
      case PointerDown(_, _, y) => s.(startY := y, holdArmed := true)
      case PointerMove(y) =>
        if s.interval && !s.locked && y - s.startY > SPEED_LOCK_PX
        then s.(locked := true, lockedShown := true, interval := false) else s
      case PointerUp =>
        if s.holdArmed then s.(holdArmed := false)
        else if !s.interval then s
        else
          var released := s.(interval := false, holdingShown := false);
          if s.locked then released else SetSpeed(released.(lockedShown := false), 1.0)
      case HoldElapsed =>
        SetSpeed(s.(holdArmed := false, locked := false, level := 1, gesture := true, holdingShown := true, interval := true),
                 SPEED_LEVELS[1])
      case Tick =>
        var level := if s.level + 1 < |SPEED_LEVELS| then s.level + 1 else |SPEED_LEVELS| - 1;
        SetSpeed(s.(level := level), SPEED_LEVELS[level])
      case Click =>
        if s.gesture then s.(gesture := false) else s.(paused := !s.paused)
      case ClearClicked =>
        SetSpeed(s.(lockedShown := false, holdingShown := false, locked := false), 1.0)
  }

  function Run(s: Player, events: seq<Event>): Player {
    if events == [] then s
    else Step(Run(s, events[..|events| - 1]), events[|events| - 1])
  }

  function Fresh(paused: bool): Player {
    Player(false, false, false, 0, false, 0.0, 1.0, false, false, 1.0, paused)
  }

  class GesturePlayer {
    var holdArmed: bool
    var interval: bool
    var locked: bool
    var level: nat
    var gesture: bool
    var startY: real
    var speed: real
    var lockedShown: bool
    var holdingShown: bool
    var rate: real
    var paused: bool

    function State(): Player reads this {
      Player(holdArmed, interval, locked, level, gesture, startY, speed, lockedShown, holdingShown, rate, paused)
    }

    constructor (paused: bool)
      ensures State() == Fresh(paused)
    {
      holdArmed, interval, locked, level, gesture, startY := false, false, false, 0, false, 0.0;
      speed, lockedShown, holdingShown, rate, this.paused := 1.0, false, false, 1.0, paused;
    }

    method BeginSpeedHold()
      requires holdArmed
      modifies this
      ensures State() == Step(old(State()), HoldElapsed)
    {
      holdArmed := false;
      locked := false;
      level := 1;
      gesture := true;
      speed := SPEED_LEVELS[1];
      holdingShown := true;
      rate := SPEED_LEVELS[1];
      interval := true;
    }

    method Escalate()
      requires interval
      modifies this
      ensures State() == Step(old(State()), Tick)
    {
      level := if level + 1 < |SPEED_LEVELS| - 1 then level + 1 else |SPEED_LEVELS| - 1;
      speed := SPEED_LEVELS[level];
      rate := SPEED_LEVELS[level];
    }

    method HandlePointerDown(onVideo: bool, rightHalf: bool, y: real)
      modifies this
      ensures State() == Step(old(State()), PointerDown(onVideo, rightHalf, y))
    {
      if !onVideo || !rightHalf { return; }
      startY := y;
      holdArmed := true;
    }

    method HandlePointerMove(y: real)
      modifies this
      ensures State() == Step(old(State()), PointerMove(y))
    {
      if !interval && !locked { return; }
      if !locked && y - startY > SPEED_LOCK_PX {
        locked := true;
        lockedShown := true;
        interval := false;
      }
    }

    method HandlePointerUp()
      modifies this
      ensures State() == Step(old(State()), PointerUp)
    {
      if holdArmed {
        holdArmed := false;
        return;
      }
      if !interval { return; }
      interval := false;
      holdingShown := false;
      if !locked {
        speed := 1.0;
        lockedShown := false;
        rate := 1.0;
      }
    }

    method HandleVideoClick()
      modifies this
      ensures State() == Step(old(State()), Click)
    {
      if gesture {
        gesture := false;
        return;
      }
      paused := !paused;
    }

    method ClearLockedSpeed()
      requires lockedShown && speed > 1.0
      modifies this
      ensures State() == Step(old(State()), ClearClicked)
    {
      speed := 1.0;
      lockedShown := false;
      holdingShown := false;
      locked := false;
      rate := 1.0;
    }
  }

  /** What every event keeps, in whatever order they arrive. */
  ghost predicate Inv(s: Player) {
    && s.rate == s.speed && (s.speed == 1.0 || s.speed == 1.25 || s.speed == 1.5 || s.speed == 2.0)
    && (s.interval ==> !s.locked && 1 <= s.level < |SPEED_LEVELS|)
    && (!s.interval && !s.locked ==> s.speed == 1.0)
  }

  lemma {:induction false} RunInv(paused: bool, events: seq<Event>)
    ensures Inv(Run(Fresh(paused), events))
  {
    if events == [] {
      assert SPEED_LEVELS[0] == 1.0;
    } else {
      RunInv(paused, events[..|events| - 1]);
      StepInv(Run(Fresh(paused), events[..|events| - 1]), events[|events| - 1]);
    }
  }

  lemma {:induction false} StepInv(s: Player, e: Event)
    requires Inv(s)
    ensures Inv(Step(s, e))
  {
  }

  function Ticks(events: seq<Event>): nat {
    if events == [] then 0
    else Ticks(events[..|events| - 1]) + if events[|events| - 1].Tick? then 1 else 0
  }

  /** After `k` ticks of a hold, during which the pointer stays within the lock distance, the video
      runs at level `min(1 + k, 3)`. */
  lemma {:induction false} HoldEscalates(s: Player, events: seq<Event>)
    requires s.holdArmed
    requires forall e :: e in events ==>
      e.Tick? || e.Click? || (e.PointerMove? && e.y - s.startY <= 25.0)
    ensures
      var t := Run(Step(s, HoldElapsed), events);
      var level := if 1 + Ticks(events) < 3 then 1 + Ticks(events) else 3;
      && t.interval && !t.locked && t.startY == s.startY && t.level == level
      && t.speed == (if Ticks(events) == 0 then 1.25 else if Ticks(events) == 1 then 1.5 else 2.0) && t.rate == t.speed
  {
    if events != [] {
      HoldEscalates(s, events[..|events| - 1]);
      HoldStep(Run(Step(s, HoldElapsed), events[..|events| - 1]), events[|events| - 1]);
      hide Step;
    } else {
      assert Run(Step(s, HoldElapsed), events) == Step(s, HoldElapsed);
    }
  }

  lemma {:induction false} HoldStep(s: Player, e: Event)
    requires s.interval && !s.locked && 1 <= s.level <= 3 && s.speed == SPEED_LEVELS[s.level] && s.rate == s.speed
    requires e.Tick? || e.Click? || (e.PointerMove? && e.y - s.startY <= 25.0)
    ensures
      var t := Step(s, e);
      && t.interval && !t.locked && t.startY == s.startY
      && t.level == (if e.Tick? && s.level < 3 then s.level + 1 else s.level)
      && t.speed == SPEED_LEVELS[t.level] && t.rate == t.speed
  {
  }

  /** A lock freezes the speed until it is cleared or the next hold begins. */
  lemma {:induction false} LockFreezes(s: Player, events: seq<Event>)
    requires Inv(s) && s.locked
    requires forall e :: e in events ==> !e.ClearClicked? && !e.HoldElapsed?
    ensures
      var t := Run(s, events);
      Inv(t) && t.locked && t.speed == s.speed && t.rate == s.rate
  {
    if events == [] {
    } else {
      LockFreezes(s, events[..|events| - 1]);
      LockStep(Run(s, events[..|events| - 1]), events[|events| - 1]);
      hide Step, Inv;
    }
  }

  lemma {:induction false} LockStep(s: Player, e: Event)
    requires Inv(s) && s.locked && !e.ClearClicked? && !e.HoldElapsed?
    ensures Inv(Step(s, e)) && Step(s, e).locked && Step(s, e).speed == s.speed && Step(s, e).rate == s.rate
  {
  }

  ghost predicate NoHold(events: seq<Event>) {
    forall e :: e in events ==> !e.HoldElapsed?
  }

  lemma {:induction false} ClearedStays(s: Player, events: seq<Event>)
    requires !s.interval && !s.locked && s.speed == 1.0 && NoHold(events)
    ensures var t := Run(s, events); !t.interval && !t.locked && t.speed == 1.0
  {
    if events == [] {
    } else {
      var front, e := events[..|events| - 1], events[|events| - 1];
      assert e in events && forall x :: x in front ==> x in events;
      ClearedStays(s, front);
    }
  }

  /** Clearing a lock lasts, over every sequence of events up to the next hold, exactly when no interval
      is running: the badge does not stop one. */
  lemma {:induction false} ClearLastsIff(s: Player)
    requires Inv(s) && Enabled(s, ClearClicked)
    ensures
      var cleared := Step(s, ClearClicked);
      && !cleared.locked && !cleared.lockedShown && !cleared.holdingShown && cleared.speed == 1.0 && cleared.rate == 1.0
      && cleared.interval == s.interval
      && ((forall events :: NoHold(events) ==> Run(cleared, events).speed == 1.0) <==> !s.interval)
  {
    var cleared := Step(s, ClearClicked);
    if s.interval {
      var tick := [Tick];
      assert tick[..0] == [] && Run(cleared, []) == cleared;
      assert NoHold(tick) && Run(cleared, tick) == Step(cleared, Tick);
      assert Run(cleared, tick).speed != 1.0;
    } else {
      forall events | NoHold(events) ensures Run(cleared, events).speed == 1.0 {
        ClearedStays(cleared, events);
      }
    }
  }

  lemma {:induction false} RunSix(s: Player, e: seq<Event>)
    requires |e| == 6
    ensures Run(s, e) == Step(Step(Step(Step(Step(Step(s, e[0]), e[1]), e[2]), e[3]), e[4]), e[5])
  {
    hide Step;
    assert e[..5][..4] == e[..4] && e[..4][..3] == e[..3] && e[..3][..2] == e[..2] && e[..2][..1] == e[..1] && e[..1][..0] == [];
    assert Run(s, e[..1]) == Step(s, e[0]) && Run(s, e[..2]) == Step(Run(s, e[..1]), e[1]);
    assert Run(s, e[..3]) == Step(Run(s, e[..2]), e[2]) && Run(s, e[..4]) == Step(Run(s, e[..3]), e[3]);
    assert Run(s, e[..5]) == Step(Run(s, e[..4]), e[4]) && Run(s, e) == Step(Run(s, e[..5]), e[5]);
  }

  /** An interval does run behind the badge: lock a hold, let go, and hold again. The new hold drops the
      lock but leaves the badge on screen, and pressing Enter on it during the hold clears nothing for
      long. (A pointer has to be released to click the badge, and that ends the hold.) */
  lemma {:induction false} ClearDuringHold(paused: bool, y: real)
    ensures
      var down := PointerDown(true, true, y);
      var s := Run(Fresh(paused), [down, HoldElapsed, PointerMove(y + 26.0), PointerUp, down, HoldElapsed]);
      s.interval && Enabled(s, ClearClicked) && Step(Step(s, ClearClicked), Tick).speed == 1.5
  {
    var down := PointerDown(true, true, y);
    RunSix(Fresh(paused), [down, HoldElapsed, PointerMove(y + 26.0), PointerUp, down, HoldElapsed]);
    hide Run;
    var held := Step(Step(Fresh(paused), down), HoldElapsed);
    assert held.interval && !held.locked && held.startY == y && !held.holdArmed;
    var dragged := Step(held, PointerMove(y + 26.0));
    assert !dragged.interval && dragged.lockedShown && !dragged.holdArmed;
    assert Step(dragged, PointerUp) == dragged;
  }

  /** And after that the hold can be locked at normal speed, with the badge hidden and nothing to clear it. */
  lemma {:induction false} LockedAtNormalSpeed(paused: bool, y: real)
    ensures
      var down := PointerDown(true, true, y);
      var held := Run(Fresh(paused), [down, HoldElapsed, PointerMove(y + 26.0), PointerUp, down, HoldElapsed]);
      var s := Step(Step(held, ClearClicked), PointerMove(y + 26.0));
      s.locked && s.lockedShown && s.speed == 1.0 && Step(s, ClearClicked) == s
  {
    var down := PointerDown(true, true, y);
    RunSix(Fresh(paused), [down, HoldElapsed, PointerMove(y + 26.0), PointerUp, down, HoldElapsed]);
    ClearDuringHold(paused, y);
    hide Run;
    var held := Step(Step(Fresh(paused), down), HoldElapsed);
    assert held.interval && !held.locked && held.startY == y && !held.holdArmed;
    var dragged := Step(held, PointerMove(y + 26.0));
    assert !dragged.interval && dragged.lockedShown && !dragged.holdArmed;
    assert Step(dragged, PointerUp) == dragged;
    var again := Step(Step(dragged, down), HoldElapsed);
    assert again.startY == y && again.interval && !again.locked;
  }

  /** A press on the right half released before the threshold leaves every speed setting alone; its
      click toggles playback exactly when no earlier hold still has its click to swallow. */
  lemma {:induction false} TapTogglesIff(s: Player, y: real)
    ensures
      var pressed := Step(s, PointerDown(true, true, y));
      var released := Step(pressed, PointerUp);
      var clicked := Step(released, Click);
      && released == s.(startY := y, holdArmed := false)
      && clicked.rate == s.rate && clicked.speed == s.speed && clicked.locked == s.locked
      && (clicked.paused != s.paused <==> !s.gesture)
      && !clicked.gesture
  {
  }

  ghost predicate HoldAt(s: Player, events: seq<Event>, k: nat) {
    && k < |events| && events[k].HoldElapsed? && Run(s, events[..k]).holdArmed
    && forall j :: k < j < |events| ==> !events[j].Click?
  }

  /** Some hold began after the last click on the video. */
  ghost predicate HoldSinceClick(s: Player, events: seq<Event>) {
    exists k: nat :: HoldAt(s, events, k)
  }

  lemma {:induction false} HoldAtEarlier(s: Player, events: seq<Event>, k: nat)
    requires events != [] && k < |events| - 1
    ensures HoldAt(s, events, k) <==> HoldAt(s, events[..|events| - 1], k) && !events[|events| - 1].Click?
  {
    var front := events[..|events| - 1];
    assert front[..k] == events[..k];
    if HoldAt(s, events, k) {
      assert forall j :: k < j < |front| ==> front[j] == events[j];
    }
  }

  lemma {:induction false} HoldSinceClickGrows(s: Player, events: seq<Event>)
    requires events != []
    ensures
      var front := events[..|events| - 1];
      var e := events[|events| - 1];
      HoldSinceClick(s, events) <==>
        (e.HoldElapsed? && Run(s, front).holdArmed) || (HoldSinceClick(s, front) && !e.Click?)
  {
    var last := |events| - 1;
    var front := events[..last];
    if e: nat :| HoldAt(s, front, e) {
      HoldAtEarlier(s, events, e);
    }
    if k: nat :| HoldAt(s, events, k) && k < last {
      HoldAtEarlier(s, events, k);
    }
    assert HoldAt(s, events, last) <==> events[last].HoldElapsed? && Run(s, front).holdArmed;
  }

  lemma {:induction false} GestureStep(s: Player, e: Event)
    ensures Step(s, e).gesture <==> (e.HoldElapsed? && s.holdArmed) || (s.gesture && !e.Click?)
  {
  }

  /** A click is still owed exactly when some hold began after the last click on the video. */
  lemma {:induction false} GestureOwedIff(paused: bool, events: seq<Event>)
    ensures Run(Fresh(paused), events).gesture <==> HoldSinceClick(Fresh(paused), events)
  {
    if events == [] {
    } else {
      GestureOwedIff(paused, events[..|events| - 1]);
      HoldSinceClickGrows(Fresh(paused), events);
      GestureStep(Run(Fresh(paused), events[..|events| - 1]), events[|events| - 1]);
      hide HoldSinceClick, Step;
    }
  }

  /** A cancelled hold is never followed by a click, so the next tap does nothing to playback. */
  lemma {:induction false} TapAfterCancelIsSwallowed(paused: bool, y: real)
    ensures
      var down := PointerDown(true, true, y);
      Run(Fresh(paused), [down, HoldElapsed, PointerUp, down, PointerUp, Click]).paused == paused
  {
    var down := PointerDown(true, true, y);
    RunSix(Fresh(paused), [down, HoldElapsed, PointerUp, down, PointerUp, Click]);
    hide Run;
    TapTogglesIff(Step(Step(Step(Fresh(paused), down), HoldElapsed), PointerUp), y);
  }

  // ----- Where a gesture begins, and how far it is dragged -----

  /** The number of clicks on the video. */
  function Clicks(events: seq<Event>): nat {
    if events == [] then 0
    else Clicks(events[..|events| - 1]) + if events[|events| - 1].Click? then 1 else 0
  }

  /** Nothing but a press on the right half of the video begins a gesture: over every other sequence of
      events the player stays fresh, but for every click, which plays or pauses. */
  lemma {:induction false} NoPressNoGesture(paused: bool, events: seq<Event>)
    requires forall e :: e in events ==> !RightPress(e)
    ensures Run(Fresh(paused), events) == Fresh(Flipped(paused, Clicks(events)))
  {
    if events == [] {
    } else {
      hide Step, Fresh, RightPress, Flipped;
      var front, e := events[..|events| - 1], events[|events| - 1];
      assert e in events && forall x :: x in front ==> x in events;
      NoPressNoGesture(paused, front);
      IdleStep(Flipped(paused, Clicks(front)), e);
      FlippedMore(paused, Clicks(front));
    }
  }

  /** `paused` after `n` toggles. */
  predicate Flipped(paused: bool, n: nat) {
    if n % 2 == 0 then paused else !paused
  }

  lemma {:induction false} FlippedMore(paused: bool, n: nat)
    ensures Flipped(paused, n + 1) == !Flipped(paused, n)
  {
  }

  predicate RightPress(e: Event) {
    e.PointerDown? && e.onVideo && e.rightHalf
  }

  lemma {:induction false} IdleStep(paused: bool, e: Event)
    requires !RightPress(e)
    ensures Step(Fresh(paused), e) == Fresh(if e.Click? then !paused else paused)
  {
  }

  /** A press arms the gesture exactly on the right half of the video, and remembers where it was. */
  lemma {:induction false} PressArmsIff(s: Player, onVideo: bool, rightHalf: bool, y: real)
    ensures
      var t := Step(s, PointerDown(onVideo, rightHalf, y));
      if onVideo && rightHalf then t == s.(holdArmed := true, startY := y) else t == s
  {
  }

  ghost predicate DraggedFar(events: seq<Event>, y: real) {
    exists e :: e in events && e.PointerMove? && e.y - y > 25.0
  }

  lemma {:induction false} DraggedMore(events: seq<Event>, y: real)
    requires events != []
    ensures
      var last := |events| - 1;
      DraggedFar(events, y) <==>
        DraggedFar(events[..last], y) || (events[last].PointerMove? && events[last].y - y > 25.0)
  {
  }

  /** A hold is locked exactly when the pointer was dragged more than 25 pixels below the press; the lock
      stops the interval and shows the badge. */
  lemma {:induction false} HoldLocksIff(s: Player, events: seq<Event>)
    requires s.holdArmed
    requires forall e :: e in events ==> e.Tick? || e.Click? || e.PointerMove?
    ensures
      var t := Run(Step(s, HoldElapsed), events);
      && t.startY == s.startY && t.holdingShown && !t.holdArmed
      && (t.locked <==> DraggedFar(events, s.startY)) && (t.interval <==> !t.locked)
      && (t.locked ==> t.lockedShown)
  {
    if events == [] {
      assert Run(Step(s, HoldElapsed), events) == Step(s, HoldElapsed);
    } else {
      hide DraggedFar, Step;
      var front, e := events[..|events| - 1], events[|events| - 1];
      assert e in events && forall x :: x in front ==> x in events;
      HoldLocksIff(s, front);
      DraggedMore(events, s.startY);
      DragStep(Run(Step(s, HoldElapsed), front), e);
    }
  }

  lemma {:induction false} DragStep(s: Player, e: Event)
    requires s.holdingShown && !s.holdArmed && (s.interval <==> !s.locked) && (s.locked ==> s.lockedShown)
    requires e.Tick? || e.Click? || e.PointerMove?
    ensures
      var t := Step(s, e);
      && t.startY == s.startY && t.holdingShown && !t.holdArmed
      && (t.locked <==> s.locked || (e.PointerMove? && e.y - s.startY > 25.0))
      && (t.interval <==> !t.locked) && (t.locked ==> t.lockedShown)
  {
  }

  /** Letting go of a hold ends it: without a lock the speed is 1 again and no badge is shown. */
  lemma {:induction false} ReleaseEndsHold(s: Player)
    requires Inv(s) && s.interval && !s.holdArmed
    ensures
      var t := Step(s, PointerUp);
      !t.interval && !t.locked && !t.holdingShown && !t.lockedShown && t.speed == 1.0 && t.rate == 1.0
  {
  }
}

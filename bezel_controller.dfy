/**
 * The bezel gesture recogniser of the Athena window manager
 * (athena::BezelController).
 *
 * The controller watches gesture events and recognises a two-finger swipe that
 * starts at the left or right edge of the screen.  Its state is `state_`,
 * `scroll_bezel_`, `scroll_target_` and whether a scroll delegate is set; the
 * delegate is told ScrollBegin, ScrollUpdate and ScrollEnd, which the model
 * records as a trace.  GetBezel and ShouldProcessGesture are pure
 * classifiers; SetStateReaction and GestureReaction say what SetState and
 * OnGestureEvent do, and the class BezelController carries them out step by
 * step on its fields.
 */
module BezelGestures {

  /** kBezelWidth: how far from a screen edge a touch still counts as on the bezel. */
  const BezelWidth: real := 20.0

  /** kScrollDeltaNone. */
  const ScrollDeltaNone: real := 0.0

  datatype Bezel = BezelNone | BezelLeft | BezelRight

  datatype State =
    | None
    | IgnoreCurrentScroll
    | BezelGestureStarted
    | BezelScrollingOneFinger
    | BezelScrollingTwoFingers

  /** ui::EventType: the four gesture kinds the controller looks at, and every other kind. */
  datatype EventType =
    | GestureBegin
    | GestureEnd
    | GestureScrollBegin
    | GestureScrollUpdate
    | OtherEventType(code: int)

  /** An event target, identified by its window. */
  type WindowId = nat

  /** `scroll_target_`: null, or the target the current gesture started on. */
  datatype TargetRef = NullTarget | TargetRef(window: WindowId)

  /**
   * A gesture event: its kind, its target, the x coordinate of its location,
   * its touch-point count, and `distance`, the signed distance of the location
   * from the bezel the current gesture started on (GetDistance, computed from
   * screen coordinates outside this model).
   */
  datatype GestureEvent = GestureEvent(kind: EventType, target: WindowId, x: real, touchPoints: int, distance: real)

  /** The calls the controller makes on its scroll delegate. */
  datatype DelegateCall =
    | ScrollBegin(bezel: Bezel, delta: real)
    | ScrollEnd
    | ScrollUpdate(delta: real)

  /** The controller's fields. */
  datatype Snapshot = Snapshot(state: State, scrollBezel: Bezel, scrollTarget: TargetRef, hasDelegate: bool)

  /**
   * What one call does: the fields afterwards, the delegate calls made, whether
   * the event was marked handled, and whether CHECK(scroll_target_) failed
   * (which aborts the process; the fields are then left as they were).
   */
  datatype Reaction = Reaction(after: Snapshot, calls: seq<DelegateCall>, handled: bool, checkFailed: bool)

  /** The controller as constructed: no gesture, no bezel, no target, no delegate. */
  const Initial: Snapshot := Snapshot(None, BezelNone, NullTarget, false)

  /** The states in which a bezel gesture is being followed. */
  predicate Tracking(s: State) {
    s == BezelGestureStarted || s == BezelScrollingOneFinger || s == BezelScrollingTwoFingers
  }

  /** ShouldProcessGesture: the four gesture kinds the controller reacts to. */
  function ShouldProcessGesture(kind: EventType): (processed: bool)
    ensures processed <==> !kind.OtherEventType?
  {
    kind == GestureScrollUpdate || kind == GestureScrollBegin || kind == GestureBegin || kind == GestureEnd
  }

  /**
   * GetBezel: which edge of a screen `screenWidth` wide the x coordinate is on.
   * The left edge wins when a narrow screen puts x within both.
   */
  function GetBezel(x: real, screenWidth: int): (bezel: Bezel)
    ensures bezel == BezelLeft <==> x < BezelWidth
    ensures bezel == BezelRight <==> BezelWidth <= x && x > screenWidth as real - BezelWidth
    ensures bezel == BezelNone <==> BezelWidth <= x <= screenWidth as real - BezelWidth
  {
    if x < BezelWidth then BezelLeft
    else if x > screenWidth as real - BezelWidth then BezelRight
    else BezelNone
  }

  function Unchanged(c: Snapshot): Reaction {
    Reaction(c, [], false, false)
  }

  /** SetState(state, scroll_delta). */
  function SetStateReaction(c: Snapshot, target: State, delta: real): Reaction {
    if !c.hasDelegate || target == c.state then Unchanged(c)
    else
      var calls :=
        if target == BezelScrollingTwoFingers then [ScrollBegin(c.scrollBezel, delta)]
        else if c.state == BezelScrollingTwoFingers then [ScrollEnd]
        else [];
      var after :=
        if target == None then c.(state := target, scrollBezel := BezelNone, scrollTarget := NullTarget)
        else c.(state := target);
      Reaction(after, calls, false, false)
  }

  /** OnGestureEvent. `canScroll` is what the delegate's CanScroll answers. */
  function GestureReaction(c: Snapshot, e: GestureEvent, screenWidth: int, canScroll: bool): Reaction {
    if !c.hasDelegate || !ShouldProcessGesture(e.kind) || (c.scrollTarget.TargetRef? && c.scrollTarget.window != e.target) then
      Unchanged(c)
    else
      var delta := if c.scrollBezel != BezelNone then e.distance else ScrollDeltaNone;
      match e.kind
      case GestureBegin =>
        if e.touchPoints > 2 then SetStateReaction(c, IgnoreCurrentScroll, ScrollDeltaNone)
        else
          var bezel := GetBezel(e.x, screenWidth);
          if c.state == None then
            var started := c.(scrollBezel := bezel, scrollTarget := TargetRef(e.target));
            if bezel != BezelLeft && bezel != BezelRight then SetStateReaction(started, IgnoreCurrentScroll, ScrollDeltaNone)
            else SetStateReaction(started, BezelGestureStarted, ScrollDeltaNone)
          else if c.state == BezelGestureStarted || c.state == BezelScrollingOneFinger then
            if bezel != c.scrollBezel then SetStateReaction(c, IgnoreCurrentScroll, ScrollDeltaNone)
            else if c.state == BezelScrollingOneFinger then SetStateReaction(c, BezelScrollingTwoFingers, ScrollDeltaNone)
            else Unchanged(c)
          else Unchanged(c)
      case GestureEnd =>
        if c.state == None then Unchanged(c)
        else if c.scrollTarget.NullTarget? then Unchanged(c).(checkFailed := true)
        else if e.touchPoints == 1 then SetStateReaction(c, None, ScrollDeltaNone)
        else SetStateReaction(c, IgnoreCurrentScroll, ScrollDeltaNone)
      case GestureScrollBegin =>
        if c.state != BezelGestureStarted then Unchanged(c)
        else if e.touchPoints == 1 then SetStateReaction(c, BezelScrollingOneFinger, delta)
        else SetStateReaction(c, BezelScrollingTwoFingers, delta).(handled := canScroll)
      case GestureScrollUpdate =>
        if c.state != BezelScrollingTwoFingers then Unchanged(c)
        else Reaction(c, [ScrollUpdate(delta)], canScroll, false)
      case OtherEventType(_) => Unchanged(c)
  }


  /** Where a trace of delegate calls stands: no scroll open, one open, or out of order. */
  datatype ScrollPhase = Closed | Open | Malformed

  /** One delegate call on top of a phase: scrolls begin when closed, update and end when open. */
  function Advance(phase: ScrollPhase, call: DelegateCall): ScrollPhase {
    match call
    case ScrollBegin(_, _) => if phase == Closed then Open else Malformed
    case ScrollUpdate(_) => if phase == Open then Open else Malformed
    case ScrollEnd => if phase == Open then Closed else Malformed
  }

  function Phase(calls: seq<DelegateCall>): ScrollPhase
    decreases |calls|
  {
    if calls == [] then Closed else Advance(Phase(calls[..|calls| - 1]), calls[|calls| - 1])
  }

  /** The phase a trace must be in while the controller is in `s`. */
  function PhaseOf(s: State): ScrollPhase {
    if s == BezelScrollingTwoFingers then Open else Closed
  }

  /**
   * What holds of the controller and the calls it has made: a scroll is open
   * with the delegate exactly in BEZEL_SCROLLING_TWO_FINGERS, and a followed
   * gesture has a left or right bezel and a target.
   */
  ghost predicate Coherent(c: Snapshot, calls: seq<DelegateCall>) {
    && Phase(calls) == PhaseOf(c.state)
    && (Tracking(c.state) ==> c.scrollBezel != BezelNone && c.scrollTarget.TargetRef?)
  }

  /** The ScrollBegin (true) and ScrollEnd (false) calls of a trace, in order. */
  function Markers(calls: seq<DelegateCall>): seq<bool>
    decreases |calls|
  {
    if calls == [] then []
    else
      var rest := Markers(calls[..|calls| - 1]);
      match calls[|calls| - 1]
      case ScrollBegin(_, _) => rest + [true]
      case ScrollEnd => rest + [false]
      case ScrollUpdate(_) => rest
  }

  /** Begin and end calls strictly alternate, starting with a begin. */
  ghost predicate StrictlyAlternating(calls: seq<DelegateCall>) {
    forall i :: 0 <= i < |Markers(calls)| ==> Markers(calls)[i] == (i % 2 == 0)
  }

  /** Every update comes while a scroll is open: after an odd number of begin and end calls. */
  ghost predicate UpdatesInsideScrolls(calls: seq<DelegateCall>) {
    forall i :: 0 <= i < |calls| && calls[i].ScrollUpdate? ==> |Markers(calls[..i])| % 2 == 1
  }

  lemma PhaseSnoc(calls: seq<DelegateCall>, call: DelegateCall)
    ensures Phase(calls + [call]) == Advance(Phase(calls), call)
    ensures Markers(calls + [call]) ==
      Markers(calls) + (if call.ScrollBegin? then [true] else if call.ScrollEnd? then [false] else [])
  {
  }

  /** SetState keeps a scroll open with the delegate exactly in BEZEL_SCROLLING_TWO_FINGERS. */
  lemma SetStateKeepsPhase(c: Snapshot, calls: seq<DelegateCall>, target: State, delta: real)
    requires Phase(calls) == PhaseOf(c.state)
    ensures Phase(calls + SetStateReaction(c, target, delta).calls) == PhaseOf(SetStateReaction(c, target, delta).after.state)
  {
    var r := SetStateReaction(c, target, delta);
    if r.calls == [] {
      assert calls + r.calls == calls;
    } else {
      PhaseSnoc(calls, r.calls[0]);
    }
  }

  /**
   * SetState: with no delegate or with the state it already has, nothing
   * happens.  Otherwise the state becomes `target`; the delegate is told
   * ScrollBegin (with the current bezel and the delta) exactly when
   * BEZEL_SCROLLING_TWO_FINGERS is entered, ScrollEnd exactly when it is left,
   * and nothing otherwise; entering NONE clears the bezel and the target, and
   * any other state keeps them.
   */
  lemma SetStateOutcome(c: Snapshot, target: State, delta: real)
    ensures !c.hasDelegate || target == c.state ==> SetStateReaction(c, target, delta) == Unchanged(c)
    ensures c.hasDelegate ==> SetStateReaction(c, target, delta).after.state == target
    ensures SetStateReaction(c, target, delta).after.hasDelegate == c.hasDelegate
    ensures SetStateReaction(c, target, delta).calls == [ScrollBegin(c.scrollBezel, delta)] <==>
      c.state != BezelScrollingTwoFingers && SetStateReaction(c, target, delta).after.state == BezelScrollingTwoFingers
    ensures SetStateReaction(c, target, delta).calls == [ScrollEnd] <==>
      c.state == BezelScrollingTwoFingers && SetStateReaction(c, target, delta).after.state != BezelScrollingTwoFingers
    ensures SetStateReaction(c, target, delta).calls == [] <==>
      (c.state == BezelScrollingTwoFingers <==> SetStateReaction(c, target, delta).after.state == BezelScrollingTwoFingers)
    ensures c.state != None && SetStateReaction(c, target, delta).after.state == None ==>
      SetStateReaction(c, target, delta).after.scrollBezel == BezelNone &&
      SetStateReaction(c, target, delta).after.scrollTarget == NullTarget
    ensures SetStateReaction(c, target, delta).after.state != None ==>
      SetStateReaction(c, target, delta).after.scrollBezel == c.scrollBezel &&
      SetStateReaction(c, target, delta).after.scrollTarget == c.scrollTarget
  {
  }

  /**
   * OnGestureEvent changes nothing and calls nothing when there is no
   * delegate, when the event is not one of the four gesture kinds, or when it
   * is aimed at another target than the gesture being followed.
   */
  lemma GestureIgnored(c: Snapshot, e: GestureEvent, screenWidth: int, canScroll: bool)
    requires !c.hasDelegate || !ShouldProcessGesture(e.kind) || (c.scrollTarget.TargetRef? && c.scrollTarget.window != e.target)
    ensures GestureReaction(c, e, screenWidth, canScroll) == Unchanged(c)
  {
  }

  /** The gesture is processed: a delegate is set, the kind is one of four and the target matches. */
  predicate Processed(c: Snapshot, e: GestureEvent) {
    c.hasDelegate && ShouldProcessGesture(e.kind) && (c.scrollTarget.TargetRef? ==> c.scrollTarget.window == e.target)
  }

  /**
   * ET_GESTURE_BEGIN: more than two touch points abandon the gesture.  From
   * NONE the bezel and target are recorded and the gesture is followed when
   * it starts on the left or right edge.  While following, a touch on another
   * bezel abandons it and a second finger on the same one turns a one-finger
   * scroll into a two-finger scroll.
   */
  lemma GestureBeginOutcome(c: Snapshot, e: GestureEvent, screenWidth: int, canScroll: bool)
    requires Processed(c, e) && e.kind == GestureBegin
    ensures var r := GestureReaction(c, e, screenWidth, canScroll);
      && !r.handled && !r.checkFailed
      && (e.touchPoints > 2 ==> r.after.state == IgnoreCurrentScroll)
      && (e.touchPoints <= 2 && c.state == None ==>
            && r.after.scrollBezel == GetBezel(e.x, screenWidth)
            && r.after.scrollTarget == TargetRef(e.target)
            && r.after.state == (if GetBezel(e.x, screenWidth) == BezelNone then IgnoreCurrentScroll else BezelGestureStarted)
            && r.calls == [])
      && (e.touchPoints <= 2 && (c.state == BezelGestureStarted || c.state == BezelScrollingOneFinger) ==>
            r.after.state ==
              if GetBezel(e.x, screenWidth) != c.scrollBezel then IgnoreCurrentScroll
              else if c.state == BezelScrollingOneFinger then BezelScrollingTwoFingers
              else BezelGestureStarted)
      && (e.touchPoints <= 2 && (c.state == IgnoreCurrentScroll || c.state == BezelScrollingTwoFingers) ==>
            r == Unchanged(c))
  {
  }

  /**
   * ET_GESTURE_END: nothing in NONE; otherwise a gesture without a recorded
   * target fails CHECK(scroll_target_), the last finger lifted returns to NONE,
   * and any other end abandons the gesture.
   */
  lemma GestureEndOutcome(c: Snapshot, e: GestureEvent, screenWidth: int, canScroll: bool)
    requires Processed(c, e) && e.kind == GestureEnd
    ensures var r := GestureReaction(c, e, screenWidth, canScroll);
      && !r.handled
      && (c.state == None ==> r == Unchanged(c))
      && (r.checkFailed <==> c.state != None && c.scrollTarget.NullTarget?)
      && (r.checkFailed ==> r.after == c && r.calls == [])
      && (c.state != None && !r.checkFailed ==>
            r.after.state == if e.touchPoints == 1 then None else IgnoreCurrentScroll)
      && (c.state != None && r.after.state == None ==> r.after.scrollBezel == BezelNone && r.after.scrollTarget == NullTarget)
  {
  }

  /**
   * ET_GESTURE_SCROLL_BEGIN acts only on a started bezel gesture: one touch
   * point starts a one-finger scroll, more start a two-finger scroll whose
   * ScrollBegin carries the distance from the bezel.  ET_GESTURE_SCROLL_UPDATE
   * forwards the distance to ScrollUpdate only during a two-finger scroll.
   * Either is marked handled only when it reaches the delegate and the
   * delegate can scroll.
   */
  lemma ScrollEventsOutcome(c: Snapshot, e: GestureEvent, screenWidth: int, canScroll: bool)
    requires Processed(c, e) && (e.kind == GestureScrollBegin || e.kind == GestureScrollUpdate)
    ensures var r := GestureReaction(c, e, screenWidth, canScroll);
      var delta := if c.scrollBezel != BezelNone then e.distance else ScrollDeltaNone;
      && !r.checkFailed
      && (e.kind == GestureScrollBegin && c.state != BezelGestureStarted ==> r == Unchanged(c))
      && (e.kind == GestureScrollBegin && c.state == BezelGestureStarted ==>
            && r.after.state == (if e.touchPoints == 1 then BezelScrollingOneFinger else BezelScrollingTwoFingers)
            && r.calls == (if e.touchPoints == 1 then [] else [ScrollBegin(c.scrollBezel, delta)])
            && r.handled == (e.touchPoints != 1 && canScroll))
      && (e.kind == GestureScrollUpdate && c.state != BezelScrollingTwoFingers ==> r == Unchanged(c))
      && (e.kind == GestureScrollUpdate && c.state == BezelScrollingTwoFingers ==>
            r == Reaction(c, [ScrollUpdate(delta)], canScroll, false))
  {
  }

  /**
   * Per event: ScrollBegin is called exactly when BEZEL_SCROLLING_TWO_FINGERS
   * is entered, ScrollEnd exactly when it is left, ScrollUpdate only while in
   * it, and never more than one call.
   */
  lemma GestureCallsAtTwoFingerBoundary(c: Snapshot, e: GestureEvent, screenWidth: int, canScroll: bool)
    ensures var r := GestureReaction(c, e, screenWidth, canScroll);
      && |r.calls| <= 1
      && ((|r.calls| == 1 && r.calls[0].ScrollBegin?) <==>
            c.state != BezelScrollingTwoFingers && r.after.state == BezelScrollingTwoFingers)
      && (r.calls == [ScrollEnd] <==>
            c.state == BezelScrollingTwoFingers && r.after.state != BezelScrollingTwoFingers)
      && (|r.calls| == 1 && r.calls[0].ScrollUpdate? ==>
            c.state == BezelScrollingTwoFingers && r.after.state == BezelScrollingTwoFingers)
  {
  }

  /** IGNORE_CURRENT_SCROLL is left only through an end with one touch point, to NONE. */
  lemma IgnoreLeftOnlyByOneFingerEnd(c: Snapshot, e: GestureEvent, screenWidth: int, canScroll: bool)
    requires c.state == IgnoreCurrentScroll
    requires GestureReaction(c, e, screenWidth, canScroll).after.state != IgnoreCurrentScroll
    ensures e.kind == GestureEnd && e.touchPoints == 1
    ensures GestureReaction(c, e, screenWidth, canScroll).after.state == None
  {
  }

  /** Every event keeps the controller and its trace coherent. */
  lemma GestureKeepsCoherent(c: Snapshot, calls: seq<DelegateCall>, e: GestureEvent, screenWidth: int, canScroll: bool)
    requires Coherent(c, calls)
    ensures Coherent(GestureReaction(c, e, screenWidth, canScroll).after, calls + GestureReaction(c, e, screenWidth, canScroll).calls)
  {
    var r := GestureReaction(c, e, screenWidth, canScroll);
    GestureCallsAtTwoFingerBoundary(c, e, screenWidth, canScroll);
    if r.calls == [] {
      assert calls + r.calls == calls;
    } else {
      PhaseSnoc(calls, r.calls[0]);
    }
    assert Phase(calls + r.calls) == PhaseOf(r.after.state);
    GestureKeepsTracking(c, e, screenWidth, canScroll);
  }

  /** A followed gesture always has a left or right bezel and a target. */
  lemma GestureKeepsTracking(c: Snapshot, e: GestureEvent, screenWidth: int, canScroll: bool)
    requires Tracking(c.state) ==> c.scrollBezel != BezelNone && c.scrollTarget.TargetRef?
    ensures var after := GestureReaction(c, e, screenWidth, canScroll).after;
      Tracking(after.state) ==> after.scrollBezel != BezelNone && after.scrollTarget.TargetRef?
  {
  }

  /** In a coherent controller every two-finger scroll starts from the left or the right edge. */
  lemma ScrollBeginNamesAnEdge(c: Snapshot, calls: seq<DelegateCall>, e: GestureEvent, screenWidth: int, canScroll: bool)
    requires Coherent(c, calls)
    requires |GestureReaction(c, e, screenWidth, canScroll).calls| == 1
    requires GestureReaction(c, e, screenWidth, canScroll).calls[0].ScrollBegin?
    ensures GestureReaction(c, e, screenWidth, canScroll).calls[0].bezel in {BezelLeft, BezelRight}
  {
  }

  /** What reaches the controller: a gesture event, or a change of delegate. */
  datatype Input =
    | Gesture(event: GestureEvent, screenWidth: int, canScroll: bool)
    | SetDelegate(present: bool)

  /** The fields and the trace after a sequence of inputs. */
  function Replay(c: Snapshot, calls: seq<DelegateCall>, inputs: seq<Input>): (Snapshot, seq<DelegateCall>)
    decreases |inputs|
  {
    if inputs == [] then (c, calls)
    else match inputs[0]
      case Gesture(e, w, canScroll) =>
        var r := GestureReaction(c, e, w, canScroll);
        Replay(r.after, calls + r.calls, inputs[1..])
      case SetDelegate(present) =>
        Replay(c.(hasDelegate := present), calls, inputs[1..])
  }

  /** Any sequence of inputs keeps the controller and its trace coherent. */
  lemma {:induction false} ReplayKeepsCoherent(c: Snapshot, calls: seq<DelegateCall>, inputs: seq<Input>)
    requires Coherent(c, calls)
    ensures Coherent(Replay(c, calls, inputs).0, Replay(c, calls, inputs).1)
    decreases |inputs|
  {
    if inputs != [] {
      match inputs[0]
      case Gesture(e, w, canScroll) =>
        var r := GestureReaction(c, e, w, canScroll);
        GestureKeepsCoherent(c, calls, e, w, canScroll);
        ReplayKeepsCoherent(r.after, calls + r.calls, inputs[1..]);
      case SetDelegate(present) =>
        ReplayKeepsCoherent(c.(hasDelegate := present), calls, inputs[1..]);
    }
  }

  /**
   * A trace is in order exactly when its begin and end calls strictly
   * alternate and its updates all come while a scroll is open; a scroll is
   * then open exactly after an odd number of begin and end calls.
   */
  lemma {:induction false} PhaseMeansAlternation(calls: seq<DelegateCall>)
    ensures Phase(calls) != Malformed <==> StrictlyAlternating(calls) && UpdatesInsideScrolls(calls)
    ensures Phase(calls) != Malformed ==> (Phase(calls) == Open <==> |Markers(calls)| % 2 == 1)
    decreases |calls|
  {
    if calls != [] {
      var init, last := calls[..|calls| - 1], calls[|calls| - 1];
      assert calls == init + [last];
      PhaseSnoc(init, last);
      PhaseMeansAlternation(init);
      var m := Markers(init);
      assert Markers(init)[..] == m;
      // The prefixes of `calls` before its last element are the prefixes of `init`.
      assert forall i :: 0 <= i < |init| ==> calls[..i] == init[..i];
      assert calls[..|init|] == init;
      if StrictlyAlternating(calls) && UpdatesInsideScrolls(calls) {
        assert Markers(calls)[..|m|] == m;
        assert StrictlyAlternating(init);
        assert UpdatesInsideScrolls(init);
      }
      if Phase(init) != Malformed {
        match last
        case ScrollBegin(_, _) =>
          assert Markers(calls) == m + [true];
          assert Markers(calls)[|m|] == true;
        case ScrollEnd =>
          assert Markers(calls) == m + [false];
          assert Markers(calls)[|m|] == false;
        case ScrollUpdate(_) =>
          assert Markers(calls) == m;
          assert calls[|init|].ScrollUpdate? && |Markers(calls[..|init|])| == |m|;
      }
    }
  }

  /**
   * Whatever the inputs, the calls a new controller makes on its delegates
   * alternate strictly between ScrollBegin and ScrollEnd, with every
   * ScrollUpdate inside a scroll, and a scroll is open exactly while the
   * controller is in BEZEL_SCROLLING_TWO_FINGERS.
   */
  lemma BeginAndEndAlternate(inputs: seq<Input>)
    ensures var (after, calls) := Replay(Initial, [], inputs);
      && StrictlyAlternating(calls) && UpdatesInsideScrolls(calls)
      && (after.state == BezelScrollingTwoFingers <==> |Markers(calls)| % 2 == 1)
  {
    ReplayKeepsCoherent(Initial, [], inputs);
    PhaseMeansAlternation(Replay(Initial, [], inputs).1);
  }

  /**
   * A gesture that begins with more than two touch points is abandoned without
   * recording a target, so its end fails CHECK(scroll_target_).
   */
  lemma CrowdedBeginThenEndFailsCheck(screenWidth: int)
    ensures
      var withDelegate := Initial.(hasDelegate := true);
      var begun := GestureReaction(withDelegate, GestureEvent(GestureBegin, 5, 100.0, 3, 0.0), screenWidth, false);
      && begun.after.state == IgnoreCurrentScroll && begun.after.scrollTarget == NullTarget
      && GestureReaction(begun.after, GestureEvent(GestureEnd, 5, 100.0, 1, 0.0), screenWidth, false).checkFailed
  {
  }

  class BezelController {
    var state: State
    var scrollBezel: Bezel
    var scrollTarget: TargetRef
    /** Whether `left_right_delegate_` is set. */
    var hasDelegate: bool
    /** Every call made on a delegate so far, in order. */
    var delegateCalls: seq<DelegateCall>

    function Fields(): Snapshot
      reads this
    {
      Snapshot(state, scrollBezel, scrollTarget, hasDelegate)
    }

    /** A scroll is open with the delegate exactly in BEZEL_SCROLLING_TWO_FINGERS. */
    ghost predicate InPhase()
      reads this
    {
      Phase(delegateCalls) == PhaseOf(state)
    }

    ghost predicate Valid()
      reads this
    {
      Coherent(Fields(), delegateCalls)
    }

    constructor ()
      ensures Fields() == Initial && delegateCalls == []
      ensures Valid()
    {
      state := None;
      scrollBezel := BezelNone;
      scrollTarget := NullTarget;
      hasDelegate := false;
      delegateCalls := [];
    }

    /** set_left_right_delegate: installs or clears the delegate. */
    method SetLeftRightDelegate(present: bool)
      requires Valid()
      modifies this
      ensures Valid()
      ensures Fields() == old(Fields()).(hasDelegate := present) && delegateCalls == old(delegateCalls)
    {
      hasDelegate := present;
    }

    /** SetState(state): SetState(state, kScrollDeltaNone). */
    method SetState(target: State)
      requires InPhase()
      modifies this
      ensures InPhase()
      ensures Fields() == SetStateReaction(old(Fields()), target, ScrollDeltaNone).after
      ensures delegateCalls == old(delegateCalls) + SetStateReaction(old(Fields()), target, ScrollDeltaNone).calls
    {
      SetStateWithDelta(target, ScrollDeltaNone);
    }

    /** SetState(state, scroll_delta). */
    method SetStateWithDelta(target: State, delta: real)
      requires InPhase()
      modifies this
      ensures InPhase()
      ensures Fields() == SetStateReaction(old(Fields()), target, delta).after
      ensures delegateCalls == old(delegateCalls) + SetStateReaction(old(Fields()), target, delta).calls
    {
      SetStateKeepsPhase(Fields(), delegateCalls, target, delta);
      if !hasDelegate || target == state {
        return;
      }
      if target == BezelScrollingTwoFingers {
        delegateCalls := delegateCalls + [ScrollBegin(scrollBezel, delta)];
      } else if state == BezelScrollingTwoFingers {
        delegateCalls := delegateCalls + [ScrollEnd];
      }
      state := target;
      if target == None {
        scrollBezel := BezelNone;
        scrollTarget := NullTarget;
      }
    }

    method OnGestureEvent(e: GestureEvent, screenWidth: int, canScroll: bool) returns (handled: bool, checkFailed: bool)
      requires Valid()
      modifies this
      ensures Valid()
      ensures Fields() == GestureReaction(old(Fields()), e, screenWidth, canScroll).after
      ensures delegateCalls == old(delegateCalls) + GestureReaction(old(Fields()), e, screenWidth, canScroll).calls
      ensures handled == GestureReaction(old(Fields()), e, screenWidth, canScroll).handled
      ensures checkFailed == GestureReaction(old(Fields()), e, screenWidth, canScroll).checkFailed
    {
      GestureKeepsCoherent(Fields(), delegateCalls, e, screenWidth, canScroll);
      handled, checkFailed := false, false;
      if !hasDelegate {
        return;
      }
      var kind := e.kind;
      if !ShouldProcessGesture(kind) {
        return;
      }
      if scrollTarget.TargetRef? && e.target != scrollTarget.window {
        return;
      }
      var scrollDelta := ScrollDeltaNone;
      if scrollBezel != BezelNone {
        scrollDelta := e.distance;
      }

      if kind == GestureBegin {
        if e.touchPoints > 2 {
          SetState(IgnoreCurrentScroll);
          return;
        }
        var eventBezel := GetBezel(e.x, screenWidth);
        if state == None {
          scrollBezel := eventBezel;
          scrollTarget := TargetRef(e.target);
          if eventBezel != BezelLeft && eventBezel != BezelRight {
            SetState(IgnoreCurrentScroll);
          } else {
            SetState(BezelGestureStarted);
          }
        } else if state == BezelGestureStarted || state == BezelScrollingOneFinger {
          if eventBezel != scrollBezel {
            SetState(IgnoreCurrentScroll);
            return;
          }
          if state == BezelScrollingOneFinger {
            SetState(BezelScrollingTwoFingers);
          }
        }
        // IGNORE_CURRENT_SCROLL and BEZEL_SCROLLING_TWO_FINGERS: nothing to do.
      } else if kind == GestureEnd {
        if state == None {
          return;
        }
        if scrollTarget.NullTarget? {
          checkFailed := true;
          return;
        }
        if e.touchPoints == 1 {
          SetState(None);
        } else {
          SetState(IgnoreCurrentScroll);
        }
      } else if kind == GestureScrollBegin {
        if state != BezelGestureStarted {
          return;
        }
        if e.touchPoints == 1 {
          SetStateWithDelta(BezelScrollingOneFinger, scrollDelta);
          return;
        }
        SetStateWithDelta(BezelScrollingTwoFingers, scrollDelta);
        handled := canScroll;
      } else if kind == GestureScrollUpdate {
        if state != BezelScrollingTwoFingers {
          return;
        }
        delegateCalls := delegateCalls + [ScrollUpdate(scrollDelta)];
        handled := canScroll;
      }
    }
  }
}

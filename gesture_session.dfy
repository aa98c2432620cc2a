/** The gesture controller as the object the component keeps across frames:
    the refs and state of components/GestureController.tsx as fields, and
    the frame loop's body as a method that updates them in place and
    returns the effects it had on the page. Each method is proved against
    the pure step of module Gesture. */
module GestureSession {
  import opened Wrappers
  import opened Gesture
  import opened GestureSteps
  import Smoothing

  class GestureController {
    var mode: Mode
    var scrollActive: bool
    var anchorY: real
    var clickPinching: bool
    var pinchStartTime: int
    const smoother: Smoothing.LowPassFilter
    var lastHovered: Option<ElementId>
    var lastVideoTime: real
    var handDetected: bool
    /** The frame loop has stopped: a click threw and the next animation
        frame was never requested. */
    var halted: bool

    /** The smoother is the one built with coefficient 0.15. */
    ghost predicate Valid() {
      smoother.alpha == SmoothingAlpha
    }

    /** The abstract value of the controller. */
    ghost function State(): GestureState
      reads this, smoother
    {
      GestureState(mode, scrollActive, anchorY, clickPinching, pinchStartTime,
                   smoother.x, smoother.y, lastHovered, lastVideoTime, handDetected, halted)
    }

    /** Mounting: pointer mode, no scroll, anchor at mid-height, no pinch,
        the smoother at the centre of the viewport, nothing hovered and no
        video frame seen yet. */
    constructor (vp: Viewport)
      ensures Valid() && fresh(smoother)
      ensures State() == Initial(vp)
      ensures Inv(State())
    {
      mode := Pointer;
      scrollActive := false;
      anchorY := 0.5;
      clickPinching := false;
      pinchStartTime := 0;
      smoother := new Smoothing.LowPassFilter(vp.width, vp.height, SmoothingAlpha);
      lastHovered := None;
      lastVideoTime := -1.0;
      handDetected := false;
      halted := false;
    }

    /** `simulateEvents(x, y)`: the hover events at (x, y) and the new
        last-hovered element. */
    method SimulateEvents(x: real, y: real, elementFromPoint: Point -> Option<ElementId>) returns (events: seq<Effect>)
      modifies this`lastHovered
      ensures (events, lastHovered) == Hover(old(lastHovered), elementFromPoint(Point(x, y)), Point(x, y))
    {
      var el := elementFromPoint(Point(x, y));
      events := [];
      if el.Some? {
        events := events + [Mouse(MouseMove, el.value, Some(Point(x, y)))];
      }
      ghost var move := events;
      if el != lastHovered {
        if lastHovered.Some? {
          events := events + [Mouse(MouseOut, lastHovered.value, None)];
          events := events + [Mouse(MouseLeave, lastHovered.value, None)];
        }
        ghost var moveLeave := events;
        if el.Some? {
          events := events + [Mouse(MouseOver, el.value, Some(Point(x, y)))];
          events := events + [Mouse(MouseEnter, el.value, Some(Point(x, y)))];
        }
        assert events == moveLeave + (if el.Some? then [Mouse(MouseOver, el.value, Some(Point(x, y))), Mouse(MouseEnter, el.value, Some(Point(x, y)))] else []);
        assert moveLeave == move + (if lastHovered.Some? then [Mouse(MouseOut, lastHovered.value, None), Mouse(MouseLeave, lastHovered.value, None)] else []);
        lastHovered := el;
      }
      assert events == Hover(old(lastHovered), el, Point(x, y)).0;
    }

    /** components/GestureController.tsx lines 242-303, pointer mode: map the index tip to the screen, smooth
        it, emit the hover events there, then press or release the click. */
    method PointerMode(landmarks: Landmarks, isPinching: bool, f: Frame) returns (log: seq<Effect>)
      requires Valid()
      modifies this, smoother
      ensures (State(), log) == PointerStep(old(State()), landmarks, isPinching, f)
    {
      var rawX := 1.0 - landmarks[IndexTip].x;
      var rawY := landmarks[IndexTip].y;
      var targetX := (rawX - 0.5) * Overscan * f.viewport.width + f.viewport.width / 2.0;
      var targetY := (rawY - 0.5) * Overscan * f.viewport.height + f.viewport.height / 2.0;
      var clampedX := Clamp(targetX, f.viewport.width);
      var clampedY := Clamp(targetY, f.viewport.height);
      ghost var s0 := State();
      ghost var pos := Smoothed(s0, MapToScreen(landmarks[IndexTip], f.viewport));
      var x, y := smoother.Update(clampedX, clampedY);
      assert Point(x, y) == pos;
      log := SimulateEvents(x, y, f.hit);
      ghost var s1 := s0.(smoothX := pos.x, smoothY := pos.y, lastHovered := f.hit(pos));
      assert State() == s1;
      ghost var hover := log;
      assert hover + [] == hover;
      if isPinching {
        if !clickPinching {
          clickPinching := true;
          pinchStartTime := f.now;
          mode := Click;
        }
      } else if clickPinching {
        clickPinching := false;
        mode := Pointer;
        var el := f.hit(Point(x, y));
        if el.Some? {
          if f.isHtml(el.value) {
            log := log + [ClickOn(el.value, Point(x, y))];
          } else {
            halted := true;
          }
        }
      }
      assert (State(), log) == (ClickStep(s1, isPinching, f.now, f.hit(pos), pos, f.isHtml).0,
                                hover + ClickStep(s1, isPinching, f.now, f.hit(pos), pos, f.isHtml).1);
    }

    /** components/GestureController.tsx lines 182-303, a frame with a hand in it: classify the pose, switch
        between scroll and pointer mode, then scroll or run pointer mode. */
    method ProcessHand(landmarks: Landmarks, f: Frame) returns (log: seq<Effect>)
      requires Valid()
      modifies this, smoother
      ensures (State(), log) == HandStep(old(State()), landmarks, f)
    {
      ghost var s1 := State();
      var middleCurled := IsFingerCurled(landmarks, MiddleTip, MiddlePip);
      var ringCurled := IsFingerCurled(landmarks, RingTip, RingPip);
      var pinkyCurled := IsFingerCurled(landmarks, PinkyTip, PinkyPip);
      var isFist := middleCurled && ringCurled && pinkyCurled;
      var isPinching := Dist2(landmarks[ThumbTip], landmarks[IndexTip]) < PinchThreshold * PinchThreshold;
      assert Classify(landmarks) == Gesture(isFist, isPinching);

      if isFist && !scrollActive {
        mode := Scroll;
        scrollActive := true;
        anchorY := landmarks[Wrist].y;
      } else if !isFist && scrollActive {
        mode := Pointer;
        scrollActive := false;
      }
      assert State() == SwitchMode(s1, isFist, landmarks[Wrist].y);

      log := [];
      if scrollActive {
        var diff := landmarks[Wrist].y - anchorY;
        if (if diff < 0.0 then -diff else diff) > ScrollDeadzone {
          log := [ScrollBy(diff * ScrollSpeed)];
        }
      } else {
        log := PointerMode(landmarks, isPinching, f);
      }
    }

    /** One run of `predictWebcam`: the new state and the effects are those
        of Step, so every property proved of Step holds of the controller. */
    method Tick(f: Frame) returns (log: seq<Effect>)
      requires Valid()
      modifies this, smoother
      ensures Valid()
      ensures (State(), log) == Step(old(State()), f)
      ensures Inv(old(State())) ==> Inv(State())
    {
      ghost var s0 := State();
      log := [];
      if halted || !f.ready || lastVideoTime == f.videoTime {
        return;
      }
      lastVideoTime := f.videoTime;
      if f.hand.None? {
        handDetected := false;
        return;
      }
      handDetected := true;
      log := ProcessHand(f.hand.value, f);
      if Inv(s0) {
        StepPreservesInv(s0, f);
      }
    }
  }
}

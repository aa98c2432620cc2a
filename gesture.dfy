/** The per-frame decision logic of components/GestureController.tsx, as
    pure functions: gesture classification from 21 hand landmarks, the mode
    state machine, the joystick scroll, the pointer mapping with smoothing,
    hover-event synthesis and click-on-release.

    Coordinates are reals. The source compares Euclidean distances, each the
    square root of a sum of squares; both comparisons are strict comparisons
    of non-negative numbers, so the model compares the squares instead (the
    lemmas CurlMatchesDistances and PinchMatchesDistance show the two agree).
    `document.elementFromPoint` is an oracle from a screen point to the
    element under it, if any; the window's inner size comes with each frame. */
module Gesture {
  import opened Wrappers
  import Smoothing

  datatype Point = Point(x: real, y: real)

  /** One detected hand: 21 normalised keypoints. */
  type Landmarks = s: seq<Point> | |s| == 21 witness seq(21, _ => Point(0.0, 0.0))

  const Wrist: nat := 0
  const ThumbTip: nat := 4
  const IndexPip: nat := 6
  const IndexTip: nat := 8
  const MiddlePip: nat := 10
  const MiddleTip: nat := 12
  const RingPip: nat := 14
  const RingTip: nat := 16
  const PinkyPip: nat := 18
  const PinkyTip: nat := 20

  /** Thumb tip to index tip below this distance is a pinch. */
  const PinchThreshold: real := 0.05
  /** Wrist movement within this distance of the anchor does not scroll. */
  const ScrollDeadzone: real := 0.05
  /** Pixels scrolled per frame per unit of wrist displacement. */
  const ScrollSpeed: real := 40.0
  /** Scale applied around the centre so that the screen edges are reachable. */
  const Overscan: real := 1.4
  /** The coefficient the controller's smoother is built with. */
  const SmoothingAlpha: real := 0.15

  type Extent = r: real | r >= 0.0

  /** `window.innerWidth` and `window.innerHeight`. */
  datatype Viewport = Viewport(width: Extent, height: Extent)

  type ElementId = nat

  datatype MouseKind = MouseMove | MouseOver | MouseEnter | MouseOut | MouseLeave

  /** The side effects one frame can have on the page. `client` is the
      event's position where the source passes one. */
  datatype Effect =
    | ScrollBy(dy: real)
    | Mouse(kind: MouseKind, target: ElementId, client: Option<Point>)
    | ClickOn(target: ElementId, at: Point)

  datatype Mode = Pointer | Scroll | Click

  /** Everything the controller keeps from one frame to the next. */
  datatype GestureState = GestureState(
    mode: Mode,
    scrollActive: bool,
    anchorY: real,
    clickPinching: bool,
    pinchStartTime: int,
    smoothX: real,
    smoothY: real,
    lastHovered: Option<ElementId>,
    lastVideoTime: real,
    handDetected: bool,
    halted: bool)

  /** One call of the frame loop: whether the video and canvas are ready,
      the video's current time, the wall clock, the viewport, the landmarks
      the vision model returns (if a hand is found), the page's
      element-under-point oracle, and which elements are HTML elements (the
      only ones with a `click()` method; SVG shapes such as the skills
      graph's nodes are not). */
  datatype Frame = Frame(
    ready: bool,
    videoTime: real,
    now: int,
    viewport: Viewport,
    hand: Option<Landmarks>,
    hit: Point -> Option<ElementId>,
    isHtml: ElementId -> bool)

  /** The state when the component mounts in a window of size `vp`. */
  function Initial(vp: Viewport): GestureState {
    GestureState(Pointer, false, 0.5, false, 0, vp.width / 2.0, vp.height / 2.0, None, -1.0, false, false)
  }

  // ---------------------------------------------------------------------
  // Classification

  function Dist2(p: Point, q: Point): (d: real)
    ensures d >= 0.0
  {
    (p.x - q.x) * (p.x - q.x) + (p.y - q.y) * (p.y - q.y)
  }

  /** Squaring keeps the order of non-negative numbers, in both directions. */
  lemma SquareOrder(a: real, b: real)
    requires a >= 0.0 && b >= 0.0
    ensures a < b <==> a * a < b * b
  {
    if a < b {
      var d := b - a;
      assert b * b == a * a + 2.0 * (a * d) + d * d;
      assert a * d >= 0.0;
      assert d * d > 0.0;
    } else {
      var d := a - b;
      assert a * a == b * b + 2.0 * (b * d) + d * d;
      assert b * d >= 0.0;
      assert d * d >= 0.0;
    }
  }

  /** A finger is curled when its tip is nearer the wrist than its PIP
      joint is. */
  predicate IsFingerCurled(lm: Landmarks, tipIdx: nat, pipIdx: nat, wristIdx: nat := Wrist)
    requires tipIdx < 21 && pipIdx < 21 && wristIdx < 21
  {
    Dist2(lm[tipIdx], lm[wristIdx]) < Dist2(lm[pipIdx], lm[wristIdx])
  }

  /** The squared comparison is the source's comparison of the distances
      themselves. */
  lemma CurlMatchesDistances(lm: Landmarks, tipIdx: nat, pipIdx: nat, tipToWrist: real, pipToWrist: real)
    requires tipIdx < 21 && pipIdx < 21
    requires tipToWrist >= 0.0 && tipToWrist * tipToWrist == Dist2(lm[tipIdx], lm[Wrist])
    requires pipToWrist >= 0.0 && pipToWrist * pipToWrist == Dist2(lm[pipIdx], lm[Wrist])
    ensures IsFingerCurled(lm, tipIdx, pipIdx) <==> tipToWrist < pipToWrist
  {
    SquareOrder(tipToWrist, pipToWrist);
  }

  datatype Gesture = Gesture(isFist: bool, isPinching: bool)

  /** A fist is middle, ring and pinky curled (the index finger's curl is
      computed by the source but never used); a pinch is thumb tip and index
      tip closer than PinchThreshold. */
  function Classify(lm: Landmarks): Gesture {
    var middleCurled := IsFingerCurled(lm, MiddleTip, MiddlePip);
    var ringCurled := IsFingerCurled(lm, RingTip, RingPip);
    var pinkyCurled := IsFingerCurled(lm, PinkyTip, PinkyPip);
    Gesture(middleCurled && ringCurled && pinkyCurled,
            Dist2(lm[ThumbTip], lm[IndexTip]) < PinchThreshold * PinchThreshold)
  }

  /** `isPinching` holds exactly when the thumb-to-index distance is strictly
      below 0.05. */
  lemma PinchMatchesDistance(lm: Landmarks, pinchDist: real)
    requires pinchDist >= 0.0 && pinchDist * pinchDist == Dist2(lm[ThumbTip], lm[IndexTip])
    ensures Classify(lm).isPinching <==> pinchDist < PinchThreshold
  {
    SquareOrder(pinchDist, PinchThreshold);
  }

  /** Moving the thumb and the index finger (keypoints 1 to 8) never changes
      whether the hand is a fist. */
  lemma FistIgnoresThumbAndIndex(lm: Landmarks, lm': Landmarks)
    requires forall i :: 0 <= i < 21 && (i == Wrist || i > IndexTip) ==> lm'[i] == lm[i]
    ensures Classify(lm').isFist == Classify(lm).isFist
  {
    assert lm'[Wrist] == lm[Wrist];
    assert lm'[MiddlePip] == lm[MiddlePip] && lm'[MiddleTip] == lm[MiddleTip];
    assert lm'[RingPip] == lm[RingPip] && lm'[RingTip] == lm[RingTip];
    assert lm'[PinkyPip] == lm[PinkyPip] && lm'[PinkyTip] == lm[PinkyTip];
  }

  /** A "gun" pose: the index finger stretched out, the other three curled. */
  function GunPose(): Landmarks {
    seq(21, i =>
      if i == IndexTip then Point(0.0, -0.4)
      else if i == MiddleTip || i == RingTip || i == PinkyTip then Point(0.0, -0.05)
      else if i == Wrist then Point(0.0, 0.0)
      else Point(0.0, -0.2))
  }

  /** The index finger is not curled in GunPose and the pose is still a fist:
      the index finger is not part of the fist test. */
  lemma GunPoseIsFist()
    ensures !IsFingerCurled(GunPose(), IndexTip, IndexPip)
    ensures Classify(GunPose()).isFist
  {
    var g := GunPose();
    assert g[Wrist] == Point(0.0, 0.0);
    assert g[IndexTip] == Point(0.0, -0.4) && g[IndexPip] == Point(0.0, -0.2);
    assert g[MiddleTip] == Point(0.0, -0.05) && g[MiddlePip] == Point(0.0, -0.2);
    assert g[RingTip] == Point(0.0, -0.05) && g[RingPip] == Point(0.0, -0.2);
    assert g[PinkyTip] == Point(0.0, -0.05) && g[PinkyPip] == Point(0.0, -0.2);
  }

  // ---------------------------------------------------------------------
  // Pointer mapping

  /** `Math.max(0, Math.min(hi, v))` */
  function Clamp(v: real, hi: real): real {
    var m := if hi < v then hi else v;
    if 0.0 < m then m else 0.0
  }

  /** Mirror the x axis, scale by Overscan around the centre, clamp to the
      viewport. */
  function MapToScreen(tip: Point, vp: Viewport): Point {
    var rawX := 1.0 - tip.x;
    var rawY := tip.y;
    var targetX := (rawX - 0.5) * Overscan * vp.width + vp.width / 2.0;
    var targetY := (rawY - 0.5) * Overscan * vp.height + vp.height / 2.0;
    Point(Clamp(targetX, vp.width), Clamp(targetY, vp.height))
  }

  /** The mapped point always lies inside the viewport, the middle of the
      camera image maps to the middle of the screen, and, because of the
      overscan, a fingertip within 1/7 of an image edge already reaches the
      screen edge (the left of the image is the right of the screen). */
  lemma MapToScreenProperties(tip: Point, vp: Viewport)
    ensures 0.0 <= MapToScreen(tip, vp).x <= vp.width
    ensures 0.0 <= MapToScreen(tip, vp).y <= vp.height
    ensures tip == Point(0.5, 0.5) ==> MapToScreen(tip, vp) == Point(vp.width / 2.0, vp.height / 2.0)
    ensures tip.x <= 1.0 / 7.0 ==> MapToScreen(tip, vp).x == vp.width
    ensures tip.x >= 6.0 / 7.0 ==> MapToScreen(tip, vp).x == 0.0
    ensures tip.y <= 1.0 / 7.0 ==> MapToScreen(tip, vp).y == 0.0
    ensures tip.y >= 6.0 / 7.0 ==> MapToScreen(tip, vp).y == vp.height
  {
    MappedAxis(1.0 - tip.x, vp.width);
    MappedAxis(tip.y, vp.height);
  }

  /** One axis of the mapping, from the (mirrored) camera coordinate `raw`:
      on the screen, the centre at the centre, and pinned to an edge within
      1/7 of the image edge. */
  lemma MappedAxis(raw: real, w: real)
    requires w >= 0.0
    ensures 0.0 <= Clamp((raw - 0.5) * Overscan * w + w / 2.0, w) <= w
    ensures raw == 0.5 ==> Clamp((raw - 0.5) * Overscan * w + w / 2.0, w) == w / 2.0
    ensures raw >= 6.0 / 7.0 ==> Clamp((raw - 0.5) * Overscan * w + w / 2.0, w) == w
    ensures raw <= 1.0 / 7.0 ==> Clamp((raw - 0.5) * Overscan * w + w / 2.0, w) == 0.0
  {
    var c := (raw - 0.5) * Overscan;
    var v := (raw - 0.5) * Overscan * w + w / 2.0;
    assert v == c * w + w / 2.0;
    assert 0.0 <= Clamp(v, w) <= w;
    if c >= 0.5 {
      assert c * w - 0.5 * w == (c - 0.5) * w;
      assert (c - 0.5) * w >= 0.0;
    }
    if c <= -0.5 {
      assert -0.5 * w - c * w == (-0.5 - c) * w;
      assert (-0.5 - c) * w >= 0.0;
    }
  }

  // ---------------------------------------------------------------------
  // Hover events

  /** `simulateEvents`: `mousemove` to the element under the point; when that
      element is not the last hovered one, `mouseout` and `mouseleave` to the
      old one and `mouseover` and `mouseenter` to the new one. Returns the
      events and the new last-hovered element. */
  function Hover(last: Option<ElementId>, el: Option<ElementId>, at: Point): (r: (seq<Effect>, Option<ElementId>))
    ensures r.1 == el
    // only mouse events, in the order move, out, leave, over, enter, each at most once
    ensures forall i :: 0 <= i < |r.0| ==> r.0[i].Mouse?
    ensures forall i, j :: 0 <= i < j < |r.0| ==> KindOrder(r.0[i].kind) < KindOrder(r.0[j].kind)
    // the move goes first, to the element under the point
    ensures el.Some? ==> |r.0| > 0 && r.0[0] == Mouse(MouseMove, el.value, Some(at))
    // out and leave only on a change of element, to the old element
    ensures forall i :: 0 <= i < |r.0| && r.0[i].kind in {MouseOut, MouseLeave} ==>
      el != last && last.Some? && r.0[i].target == last.value && r.0[i].client.None?
    // move, over and enter to the new element at the point; over and enter only on a change
    ensures forall i :: 0 <= i < |r.0| && r.0[i].kind in {MouseMove, MouseOver, MouseEnter} ==>
      el.Some? && r.0[i].target == el.value && r.0[i].client == Some(at)
      && (r.0[i].kind != MouseMove ==> el != last)
    // and every one of them is sent when it is due
    ensures el != last && last.Some? ==>
      Mouse(MouseOut, last.value, None) in r.0 && Mouse(MouseLeave, last.value, None) in r.0
    ensures el != last && el.Some? ==>
      Mouse(MouseOver, el.value, Some(at)) in r.0 && Mouse(MouseEnter, el.value, Some(at)) in r.0
  {
    var move := if el.Some? then [Mouse(MouseMove, el.value, Some(at))] else [];
    if el != last then
      var leave := if last.Some? then [Mouse(MouseOut, last.value, None), Mouse(MouseLeave, last.value, None)] else [];
      var enter := if el.Some? then [Mouse(MouseOver, el.value, Some(at)), Mouse(MouseEnter, el.value, Some(at))] else [];
      (move + leave + enter, el)
    else
      (move, last)
  }

  /** The order in which one frame's hover events are dispatched. */
  function KindOrder(k: MouseKind): nat {
    match k
    case MouseMove => 0
    case MouseOut => 1
    case MouseLeave => 2
    case MouseOver => 3
    case MouseEnter => 4
  }

  /** The set of elements the pointer is inside of according to the enter
      and leave events so far. */
  function Held(el: Option<ElementId>): set<ElementId> {
    if el.Some? then {el.value} else {}
  }

  /** Replays enter and leave events starting from the elements `entered`.
      None means some element got `mouseenter` while already entered, or
      `mouseleave` while not entered. */
  function Replay(entered: set<ElementId>, log: seq<Effect>): Option<set<ElementId>>
    decreases |log|
  {
    if log == [] then Some(entered)
    else
      var e := log[0];
      if e.Mouse? && e.kind == MouseEnter then
        if e.target in entered then None else Replay(entered + {e.target}, log[1..])
      else if e.Mouse? && e.kind == MouseLeave then
        if e.target !in entered then None else Replay(entered - {e.target}, log[1..])
      else Replay(entered, log[1..])
  }

  lemma {:induction false} ReplayConcat(entered: set<ElementId>, a: seq<Effect>, b: seq<Effect>)
    ensures Replay(entered, a + b) ==
      (match Replay(entered, a) case None => None case Some(mid) => Replay(mid, b))
    decreases |a|
  {
    if a == [] {
      assert a + b == b;
    } else {
      assert (a + b)[0] == a[0];
      assert (a + b)[1..] == a[1..] + b;
      var e := a[0];
      if e.Mouse? && e.kind == MouseEnter {
        if e.target !in entered {
          ReplayConcat(entered + {e.target}, a[1..], b);
        }
      } else if e.Mouse? && e.kind == MouseLeave {
        if e.target in entered {
          ReplayConcat(entered - {e.target}, a[1..], b);
        }
      } else {
        ReplayConcat(entered, a[1..], b);
      }
    }
  }

  /** The hover events of one frame take the pointer out of exactly the last
      hovered element and into exactly the new one: never an enter for an
      element already entered, never a leave for one not entered. */
  lemma HoverBalanced(last: Option<ElementId>, el: Option<ElementId>, at: Point)
    ensures Replay(Held(last), Hover(last, el, at).0) == Some(Held(el))
  {
    var move := if el.Some? then [Mouse(MouseMove, el.value, Some(at))] else [];
    assert Replay(Held(last), move) == Some(Held(last)) by {
      if el.Some? {
        assert move[1..] == [];
      }
    }
    if el != last {
      var leave := if last.Some? then [Mouse(MouseOut, last.value, None), Mouse(MouseLeave, last.value, None)] else [];
      var enter := if el.Some? then [Mouse(MouseOver, el.value, Some(at)), Mouse(MouseEnter, el.value, Some(at))] else [];
      assert Replay(Held(last), leave) == Some({}) by {
        if last.Some? {
          assert leave[1..][1..] == [];
          assert Held(last) - {last.value} == {};
          assert Replay(Held(last), leave[1..]) == Replay({}, leave[1..][1..]);
          assert Replay(Held(last), leave) == Replay(Held(last), leave[1..]);
        }
      }
      assert Replay({}, enter) == Some(Held(el)) by {
        if el.Some? {
          assert enter[1..][1..] == [];
          assert {} + {el.value} == Held(el);
          assert Replay({}, enter[1..]) == Replay(Held(el), enter[1..][1..]);
          assert Replay({}, enter) == Replay({}, enter[1..]);
        }
      }
      ReplayConcat(Held(last), move, leave);
      ReplayConcat(Held(last), move + leave, enter);
    }
  }

  // ---------------------------------------------------------------------
  // The per-frame step

  /** components/GestureController.tsx lines 205-213: a fist starting while not scrolling enters scroll mode
      with the wrist height as anchor; a fist ending while scrolling returns
      to pointer mode. */
  function SwitchMode(s: GestureState, isFist: bool, wristY: real): GestureState {
    if isFist && !s.scrollActive then s.(mode := Scroll, scrollActive := true, anchorY := wristY)
    else if !isFist && s.scrollActive then s.(mode := Pointer, scrollActive := false)
    else s
  }

  /** Joystick scroll: outside the deadzone, scroll by the displacement times
      ScrollSpeed. */
  function ScrollEffects(diff: real): seq<Effect> {
    var magnitude := if diff < 0.0 then -diff else diff;
    if magnitude > ScrollDeadzone then [ScrollBy(diff * ScrollSpeed)] else []
  }

  /** components/GestureController.tsx lines 271-302: a pinch starting
      enters click mode and fires nothing; a pinch ending returns to pointer
      mode and clicks the element under the pointer, if any. Calling
      `click()` on an element that is not an HTML element throws, which ends
      the frame loop: the state is then halted and nothing is clicked. */
  function ClickStep(s: GestureState, pinching: bool, now: int, el: Option<ElementId>, at: Point,
                     isHtml: ElementId -> bool): (GestureState, seq<Effect>) {
    if pinching then
      if !s.clickPinching then (s.(clickPinching := true, pinchStartTime := now, mode := Click), [])
      else (s, [])
    else if s.clickPinching then
      var released := s.(clickPinching := false, mode := Pointer);
      if el.Some? && !isHtml(el.value) then (released.(halted := true), [])
      else (released, if el.Some? then [ClickOn(el.value, at)] else [])
    else (s, [])
  }

  /** The position the smoother moves to when the fingertip maps to `target`. */
  function Smoothed(s: GestureState, target: Point): Point {
    Point(Smoothing.Ema(s.smoothX, target.x, SmoothingAlpha), Smoothing.Ema(s.smoothY, target.y, SmoothingAlpha))
  }

  /** components/GestureController.tsx lines 242-303: pointer mode. Map and smooth the index tip, emit hover
      events at the smoothed point, then run the click logic there. */
  function PointerStep(s: GestureState, lm: Landmarks, pinching: bool, f: Frame): (GestureState, seq<Effect>) {
    var pos := Smoothed(s, MapToScreen(lm[IndexTip], f.viewport));
    var hover := Hover(s.lastHovered, f.hit(pos), pos);
    var s1 := s.(smoothX := pos.x, smoothY := pos.y, lastHovered := hover.1);
    var click := ClickStep(s1, pinching, f.now, f.hit(pos), pos, f.isHtml);
    (click.0, hover.0 + click.1)
  }

  /** components/GestureController.tsx lines 182-303: a frame with a hand in it. */
  function HandStep(s: GestureState, lm: Landmarks, f: Frame): (GestureState, seq<Effect>) {
    var g := Classify(lm);
    var s1 := SwitchMode(s, g.isFist, lm[Wrist].y);
    if s1.scrollActive then (s1, ScrollEffects(lm[Wrist].y - s1.anchorY))
    else PointerStep(s1, lm, g.isPinching, f)
  }

  /** One call of the frame loop. Once the loop has halted, no further
      call is ever scheduled, so a step changes nothing. */
  function Step(s: GestureState, f: Frame): (GestureState, seq<Effect>) {
    if s.halted || !f.ready || f.videoTime == s.lastVideoTime then (s, [])
    else
      var s1 := s.(lastVideoTime := f.videoTime);
      match f.hand
      case None => (s1.(handDetected := false), [])
      case Some(lm) => HandStep(s1.(handDetected := true), lm, f)
  }

  /** The invariant the step keeps: scroll mode exactly while the scroll is
      active, and click mode only while a pinch is held. */
  predicate Inv(s: GestureState) {
    (s.scrollActive <==> s.mode == Scroll) && (s.mode == Click ==> s.clickPinching)
  }
}

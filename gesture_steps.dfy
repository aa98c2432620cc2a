/** What one frame step of the gesture controller does, case by case:
    skipped and hand-less frames, entering, holding and leaving the fist
    scroll, and pointer mode with its press-then-release click. */
module GestureSteps {
  import opened Wrappers
  import opened Gesture
  import Smoothing

  /** A frame the step processes with a hand in it. */
  predicate HandFrame(s: GestureState, f: Frame) {
    !s.halted && f.ready && f.videoTime != s.lastVideoTime && f.hand.Some?
  }

  /** The smoothed pointer position a pointer-mode frame moves to. */
  function PointerPos(s: GestureState, f: Frame): Point
    requires f.hand.Some?
  {
    Smoothed(s, MapToScreen(f.hand.value[IndexTip], f.viewport))
  }

  function ClickCount(log: seq<Effect>): nat {
    if log == [] then 0 else (if log[0].ClickOn? then 1 else 0) + ClickCount(log[1..])
  }

  lemma {:induction false} ClickCountConcat(a: seq<Effect>, b: seq<Effect>)
    ensures ClickCount(a + b) == ClickCount(a) + ClickCount(b)
    decreases |a|
  {
    if a == [] {
      assert a + b == b;
    } else {
      assert (a + b)[0] == a[0];
      assert (a + b)[1..] == a[1..] + b;
      ClickCountConcat(a[1..], b);
    }
  }

  /** No effect in `log` is a scroll or a click. */
  predicate NoScrollOrClick(log: seq<Effect>) {
    forall i :: 0 <= i < |log| ==> log[i].Mouse?
  }

  lemma HoverHasNoClick(last: Option<ElementId>, el: Option<ElementId>, at: Point)
    ensures NoScrollOrClick(Hover(last, el, at).0)
    ensures ClickCount(Hover(last, el, at).0) == 0
  {
    NoClicksCounted(Hover(last, el, at).0);
  }

  lemma {:induction false} NoClicksCounted(log: seq<Effect>)
    requires NoScrollOrClick(log)
    ensures ClickCount(log) == 0
    decreases |log|
  {
    if log != [] {
      assert log[0].Mouse?;
      assert forall i :: 0 <= i < |log[1..]| ==> log[1..][i] == log[i + 1];
      NoClicksCounted(log[1..]);
    }
  }

  /** A frame the video has not advanced past (or before the video is ready)
      runs no inference and changes nothing; neither does any call once the
      loop has halted. */
  lemma StepSkipsStaleFrame(s: GestureState, f: Frame)
    requires s.halted || !f.ready || f.videoTime == s.lastVideoTime
    ensures Step(s, f) == (s, [])
  {
  }

  /** A new frame without a hand only records the video time and clears
      `handDetected`; mode, scroll, click, smoother and hover state stay. */
  lemma StepWithoutHand(s: GestureState, f: Frame)
    requires !s.halted && f.ready && f.videoTime != s.lastVideoTime && f.hand.None?
    ensures Step(s, f) == (s.(lastVideoTime := f.videoTime, handDetected := false), [])
  {
  }

  /** A fist starting while not scrolling enters scroll mode anchored at the
      wrist height. The displacement is then zero, so nothing scrolls, and
      click, smoother and hover state are untouched. */
  lemma StepEntersScroll(s: GestureState, f: Frame)
    requires HandFrame(s, f) && Classify(f.hand.value).isFist && !s.scrollActive
    ensures Step(s, f).0 == s.(mode := Scroll, scrollActive := true, anchorY := f.hand.value[Wrist].y,
                               lastVideoTime := f.videoTime, handDetected := true)
    ensures Step(s, f).1 == []
  {
  }

  /** While the fist is held the anchor stays; the page scrolls by
      (wrist y - anchor) * 40 exactly when the displacement exceeds the
      deadzone, downward for a hand below the anchor; nothing else happens. */
  lemma StepWhileScrolling(s: GestureState, f: Frame)
    requires HandFrame(s, f) && Classify(f.hand.value).isFist && s.scrollActive
    ensures Step(s, f).0 == s.(lastVideoTime := f.videoTime, handDetected := true)
    ensures var diff := f.hand.value[Wrist].y - s.anchorY;
      && (Step(s, f).1 == [] <==> -ScrollDeadzone <= diff <= ScrollDeadzone)
      && (Step(s, f).1 != [] ==> Step(s, f).1 == [ScrollBy(diff * ScrollSpeed)])
      && (diff > ScrollDeadzone ==> Step(s, f).1 == [ScrollBy(diff * ScrollSpeed)] && diff * ScrollSpeed > 2.0)
      && (diff < -ScrollDeadzone ==> Step(s, f).1 == [ScrollBy(diff * ScrollSpeed)] && diff * ScrollSpeed < -2.0)
  {
  }

  /** Beyond the deadzone the scroll amount grows strictly with the
      displacement. */
  lemma ScrollGrowsWithDisplacement(d1: real, d2: real)
    requires ScrollDeadzone < d1 < d2 || d2 < d1 < -ScrollDeadzone
    ensures ScrollEffects(d1) == [ScrollBy(d1 * ScrollSpeed)]
    ensures ScrollEffects(d2) == [ScrollBy(d2 * ScrollSpeed)]
    ensures d1 > 0.0 ==> 0.0 < d1 * ScrollSpeed < d2 * ScrollSpeed
    ensures d1 < 0.0 ==> d2 * ScrollSpeed < d1 * ScrollSpeed < 0.0
  {
  }

  /** A frame without a fist runs pointer mode (also on the frame the fist
      ends, which leaves scroll mode first): the smoother moves toward the
      mapped fingertip, the hover events come first, `lastHovered` becomes
      the element under the smoothed point, and then
      - a pinch starting enters click mode and fires nothing,
      - a pinch ending returns to pointer mode and clicks the element under
        the pointer if it is an HTML element; over any other element (an
        SVG shape) the click throws, nothing is clicked and the loop halts,
      - otherwise the pinch state stays and nothing is clicked. */
  lemma StepPointerMode(s: GestureState, f: Frame)
    requires HandFrame(s, f) && !Classify(f.hand.value).isFist
    ensures var r := Step(s, f).0; var log := Step(s, f).1;
      var pos := PointerPos(s, f); var el := f.hit(pos);
      var hover := Hover(s.lastHovered, el, pos).0;
      var pinching := Classify(f.hand.value).isPinching;
      && !r.scrollActive && r.anchorY == s.anchorY
      && r.smoothX == pos.x && r.smoothY == pos.y && r.lastHovered == el
      && r.lastVideoTime == f.videoTime && r.handDetected
      && |hover| <= |log| && log[..|hover|] == hover
      && (pinching && !s.clickPinching ==>
            r.mode == Click && r.clickPinching && r.pinchStartTime == f.now && log == hover && !r.halted)
      && (!pinching && s.clickPinching ==>
            r.mode == Pointer && !r.clickPinching && r.pinchStartTime == s.pinchStartTime
            && r.halted == (el.Some? && !f.isHtml(el.value))
            && log == hover + (if el.Some? && f.isHtml(el.value) then [ClickOn(el.value, pos)] else []))
      && (pinching == s.clickPinching ==>
            r.clickPinching == s.clickPinching && r.pinchStartTime == s.pinchStartTime && log == hover
            && r.mode == (if s.scrollActive then Pointer else s.mode) && !r.halted)
  {
    var lm := f.hand.value;
    var g := Classify(lm);
    var s1 := s.(lastVideoTime := f.videoTime, handDetected := true);
    var s2 := SwitchMode(s1, g.isFist, lm[Wrist].y);
    assert s2 == s1.(mode := if s.scrollActive then Pointer else s.mode, scrollActive := false);
    assert Step(s, f) == PointerStep(s2, lm, g.isPinching, f);
    var pos := PointerPos(s, f);
    assert Smoothed(s2, MapToScreen(lm[IndexTip], f.viewport)) == pos;
    var el := f.hit(pos);
    var hover := Hover(s.lastHovered, el, pos);
    var s3 := s2.(smoothX := pos.x, smoothY := pos.y, lastHovered := hover.1);
    var click := ClickStep(s3, g.isPinching, f.now, el, pos, f.isHtml);
    assert Step(s, f) == (click.0, hover.0 + click.1);
    assert (hover.0 + click.1)[..|hover.0|] == hover.0;
  }

  /** The pointer moves toward the mapped fingertip without overshooting it,
      so a pointer that starts on the screen stays on the screen. */
  lemma StepPointerStaysOnScreen(s: GestureState, f: Frame)
    requires HandFrame(s, f) && !Classify(f.hand.value).isFist
    requires 0.0 <= s.smoothX <= f.viewport.width && 0.0 <= s.smoothY <= f.viewport.height
    ensures 0.0 <= Step(s, f).0.smoothX <= f.viewport.width
    ensures 0.0 <= Step(s, f).0.smoothY <= f.viewport.height
  {
    var target := MapToScreen(f.hand.value[IndexTip], f.viewport);
    MapToScreenProperties(f.hand.value[IndexTip], f.viewport);
    Smoothing.EmaBetween(s.smoothX, target.x, SmoothingAlpha);
    Smoothing.EmaBetween(s.smoothY, target.y, SmoothingAlpha);
    StepPointerMode(s, f);
  }

  /** The loop halts exactly on the release of a held pinch, outside a fist,
      over an element that is not an HTML element, and stays halted. */
  lemma StepHaltsOnlyOnNonHtmlRelease(s: GestureState, f: Frame)
    ensures Step(s, f).0.halted <==>
      s.halted || (HandFrame(s, f) && !Classify(f.hand.value).isFist && !Classify(f.hand.value).isPinching
                   && s.clickPinching && f.hit(PointerPos(s, f)).Some? && !f.isHtml(f.hit(PointerPos(s, f)).value))
  {
    if HandFrame(s, f) && !Classify(f.hand.value).isFist {
      StepPointerMode(s, f);
    }
  }

  /** While the scroll stays or becomes active, pinch and click state are
      untouched and nothing is clicked or hovered. */
  lemma StepScrollKeepsClickState(s: GestureState, f: Frame)
    requires Step(s, f).0.scrollActive
    ensures Step(s, f).0.clickPinching == s.clickPinching
    ensures Step(s, f).0.pinchStartTime == s.pinchStartTime
    ensures Step(s, f).0.lastHovered == s.lastHovered
    ensures Step(s, f).0.smoothX == s.smoothX && Step(s, f).0.smoothY == s.smoothY
    ensures forall i :: 0 <= i < |Step(s, f).1| ==> Step(s, f).1[i].ScrollBy?
  {
    if HandFrame(s, f) && !Classify(f.hand.value).isFist {
      StepPointerMode(s, f);
    }
  }

  /** A step clicks at most once, and only on the release of a held pinch. */
  lemma StepClicksOnlyOnRelease(s: GestureState, f: Frame)
    ensures ClickCount(Step(s, f).1) <= 1
    ensures ClickCount(Step(s, f).1) == 1 ==> s.clickPinching && !Step(s, f).0.clickPinching
  {
    var log := Step(s, f).1;
    if HandFrame(s, f) {
      var lm := f.hand.value;
      if Classify(lm).isFist {
        if s.scrollActive {
          StepWhileScrolling(s, f);
        } else {
          StepEntersScroll(s, f);
        }
        assert ClickCount(log) == 0 by {
          if log != [] {
            assert log[1..] == [];
          }
        }
      } else {
        StepPointerMode(s, f);
        var pos := PointerPos(s, f);
        var el := f.hit(pos);
        var hover := Hover(s.lastHovered, el, pos).0;
        HoverHasNoClick(s.lastHovered, el, pos);
        var tail := log[|hover|..];
        assert log == hover + tail;
        ClickCountConcat(hover, tail);
        assert tail == [] || (el.Some? && tail == [ClickOn(el.value, pos)]);
        if tail != [] {
          assert tail[1..] == [];
        }
      }
    }
  }

  /** The step keeps Inv: scroll mode exactly while scrolling, and click mode
      only while a pinch is held. */
  lemma StepPreservesInv(s: GestureState, f: Frame)
    requires Inv(s)
    ensures Inv(Step(s, f).0)
  {
    if HandFrame(s, f) && !Classify(f.hand.value).isFist {
      StepPointerMode(s, f);
    }
  }

  /** The quirk of the source, modelled as written: a fist made while a pinch
      is held leaves the pinch flag set (pinch handling runs only in pointer
      mode), so the frame that ends the fist without pinching leaves scroll
      mode and clicks in one go (or halts, over an element that is not an
      HTML element). */
  lemma StepClickAfterFist(s: GestureState, f: Frame)
    requires HandFrame(s, f) && s.scrollActive && s.clickPinching
    requires !Classify(f.hand.value).isFist && !Classify(f.hand.value).isPinching
    ensures Step(s, f).0.mode == Pointer && !Step(s, f).0.scrollActive && !Step(s, f).0.clickPinching
    ensures var el := f.hit(PointerPos(s, f));
      && ClickCount(Step(s, f).1) == (if el.Some? && f.isHtml(el.value) then 1 else 0)
      && Step(s, f).0.halted == (el.Some? && !f.isHtml(el.value))
  {
    StepPointerMode(s, f);
    var pos := PointerPos(s, f);
    var el := f.hit(pos);
    var hover := Hover(s.lastHovered, el, pos).0;
    HoverHasNoClick(s.lastHovered, el, pos);
    var tail := if el.Some? && f.isHtml(el.value) then [ClickOn(el.value, pos)] else [];
    ClickCountConcat(hover, tail);
    if tail != [] {
      assert tail[1..] == [];
    }
  }
}

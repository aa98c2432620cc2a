/** Properties of the gesture controller over a whole sequence of frames. */
module GestureRuns {
  import opened Wrappers
  import opened Gesture
  import opened GestureSteps

  /** The state after the frames `fs` and every effect they had, in order. */
  function Run(s: GestureState, fs: seq<Frame>): (GestureState, seq<Effect>)
    decreases |fs|
  {
    if fs == [] then (s, [])
    else
      var first := Step(s, fs[0]);
      var rest := Run(first.0, fs[1..]);
      (rest.0, first.1 + rest.1)
  }

  /** How many frames of the run start a pinch in pointer mode. */
  function PressCount(s: GestureState, fs: seq<Frame>): nat
    decreases |fs|
  {
    if fs == [] then 0
    else
      var next := Step(s, fs[0]).0;
      (if !s.clickPinching && next.clickPinching then 1 else 0) + PressCount(next, fs[1..])
  }

  lemma {:induction false} RunPreservesInv(s: GestureState, fs: seq<Frame>)
    requires Inv(s)
    ensures Inv(Run(s, fs).0)
    decreases |fs|
  {
    if fs != [] {
      StepPreservesInv(s, fs[0]);
      RunPreservesInv(Step(s, fs[0]).0, fs[1..]);
    }
  }

  /** Once a click has thrown, the frame loop is never scheduled again: every
      later frame leaves the state as it is and has no effect. */
  lemma {:induction false} RunAfterHalt(s: GestureState, fs: seq<Frame>)
    requires s.halted
    ensures Run(s, fs) == (s, [])
    decreases |fs|
  {
    if fs != [] {
      StepSkipsStaleFrame(s, fs[0]);
      RunAfterHalt(s, fs[1..]);
      var first := Step(s, fs[0]);
      assert first.0 == s && first.1 == [];
      var rest := Run(first.0, fs[1..]);
      assert rest == (s, []);
      assert Run(s, fs) == (rest.0, first.1 + rest.1);
      assert first.1 + rest.1 == [];
    }
  }

  /** Hovering is well bracketed over any run: replaying the enter and leave
      events never enters an element twice or leaves one not entered, and
      the pointer ends up inside exactly the last hovered element. */
  lemma {:induction false} RunHoverBalanced(s: GestureState, fs: seq<Frame>)
    ensures Replay(Held(s.lastHovered), Run(s, fs).1) == Some(Held(Run(s, fs).0.lastHovered))
    decreases |fs|
  {
    if fs != [] {
      var first := Step(s, fs[0]);
      StepHoverBalanced(s, fs[0]);
      RunHoverBalanced(first.0, fs[1..]);
      ReplayConcat(Held(s.lastHovered), first.1, Run(first.0, fs[1..]).1);
    }
  }

  /** From a freshly mounted controller, no element ever gets `mouseenter`
      twice without a `mouseleave` in between. */
  lemma InitialRunHoverBalanced(vp: Viewport, fs: seq<Frame>)
    ensures Replay({}, Run(Initial(vp), fs).1) == Some(Held(Run(Initial(vp), fs).0.lastHovered))
  {
    RunHoverBalanced(Initial(vp), fs);
  }

  lemma StepHoverBalanced(s: GestureState, f: Frame)
    ensures Replay(Held(s.lastHovered), Step(s, f).1) == Some(Held(Step(s, f).0.lastHovered))
  {
    var r := Step(s, f).0;
    var log := Step(s, f).1;
    if HandFrame(s, f) && !Classify(f.hand.value).isFist {
      StepPointerMode(s, f);
      var pos := PointerPos(s, f);
      var el := f.hit(pos);
      var hover := Hover(s.lastHovered, el, pos).0;
      HoverBalanced(s.lastHovered, el, pos);
      var tail := log[|hover|..];
      assert log == hover + tail;
      ReplayConcat(Held(s.lastHovered), hover, tail);
      assert tail == [] || (el.Some? && tail == [ClickOn(el.value, pos)]);
      if tail != [] {
        assert tail[1..] == [];
      }
    } else if HandFrame(s, f) {
      StepScrollKeepsClickState(s, f);
      assert log == [] || (|log| == 1 && log[0].ScrollBy?);
      if log != [] {
        assert log[1..] == [];
      }
    }
  }

  /** Clicks happen once per press-release cycle: over any run, the clicks
      are at most the presses plus one for a pinch already held at the
      start. */
  lemma {:induction false} RunClicksAtMostPresses(s: GestureState, fs: seq<Frame>)
    ensures ClickCount(Run(s, fs).1) + (if Run(s, fs).0.clickPinching then 1 else 0)
            <= PressCount(s, fs) + (if s.clickPinching then 1 else 0)
    decreases |fs|
  {
    if fs != [] {
      var first := Step(s, fs[0]);
      StepClicksOnlyOnRelease(s, fs[0]);
      RunClicksAtMostPresses(first.0, fs[1..]);
      ClickCountConcat(first.1, Run(first.0, fs[1..]).1);
    }
  }

  /** A frame in which a hand is seen pointing: no fist and no pinch. */
  predicate Pointing(f: Frame) {
    f.hand.Some? && !Classify(f.hand.value).isFist && !Classify(f.hand.value).isPinching
  }

  /** Pointing without a fist or a pinch, from pointer mode with no pinch
      held, stays in pointer mode and never scrolls or clicks, only moves
      the pointer and hovers. */
  lemma {:induction false} RunSteadyPointing(s: GestureState, fs: seq<Frame>)
    requires s.mode == Pointer && !s.scrollActive && !s.clickPinching
    requires forall i :: 0 <= i < |fs| ==> Pointing(fs[i])
    ensures Run(s, fs).0.mode == Pointer && !Run(s, fs).0.scrollActive && !Run(s, fs).0.clickPinching
    ensures NoScrollOrClick(Run(s, fs).1)
    decreases |fs|
  {
    if fs != [] {
      var f := fs[0];
      var first := Step(s, f);
      if HandFrame(s, f) {
        StepPointerMode(s, f);
        var pos := PointerPos(s, f);
        HoverHasNoClick(s.lastHovered, f.hit(pos), pos);
      }
      assert forall i :: 0 <= i < |fs[1..]| ==> Pointing(fs[1..][i]) by {
        forall i | 0 <= i < |fs[1..]| ensures Pointing(fs[1..][i]) {
          assert fs[1..][i] == fs[i + 1];
        }
      }
      RunSteadyPointing(first.0, fs[1..]);
      var rest := Run(first.0, fs[1..]).1;
      assert Run(s, fs).1 == first.1 + rest;
      forall i | 0 <= i < |first.1 + rest| ensures (first.1 + rest)[i].Mouse? {
        if i >= |first.1| {
          assert (first.1 + rest)[i] == rest[i - |first.1|];
        }
      }
    }
  }
}

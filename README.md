# Portfolio site core: gesture control, chat transcript, string obfuscation

This Dafny project models three pieces of logic from a personal portfolio
web application.

- **Webcam hand-gesture control** (`components/GestureController.tsx`).
  Each video frame yields 21 hand landmarks. The controller classifies them
  as a fist (three curled fingers) and/or a pinch (thumb tip near index
  tip). It then runs a three-mode state machine: `pointer`, `scroll` and
  `click`.
  - A fist drives a joystick scroll relative to an anchor height, with a
    deadzone.
  - Otherwise the index fingertip is mirrored, overscanned by 1.4 and
    clamped to the window, then smoothed by a low-pass filter.
  - At the smoothed point the controller synthesises `mousemove`,
    `mouseout`/`mouseleave` and `mouseover`/`mouseenter` events.
  - A click fires when a pinch is released.
- **Chat transcript** (`components/AIChat.tsx`). One send trims the input
  and appends the user's message and an empty model placeholder. It then
  overwrites the placeholder with the running concatenation of the streamed
  reply chunks, and appends an error entry if the stream fails.
- **String obfuscation** (`services/obfuscationUtils.ts`). Each UTF-16 code
  unit is shifted up by 3 and the string is reversed; the inverse undoes
  both.

## Modules

- `Wrappers` (wrappers.dfy): the `Option` datatype.
- `ObfuscationUtils` (obfuscation.dfy): code units in 0..65535. The
  functions `Obfuscate` and `Deobfuscate` come with both round-trip lemmas.
- `AIChat` (chat.dfy): the class `ChatWidget`, with fields `messages`,
  `input` and `isLoading`.
  - `HandleSend` is imperative. Its chunk loop, `StreamReply`, is proved
    against the specification functions `Concat` and `Streamed`.
  - The service's answer is a parameter of type `ChatStream`: the chunks
    it yields, plus an optional failure carrying an optional message.
- `Smoothing` (smoothing.dfy): the class `LowPassFilter`, with fields
  `x`, `y` and `alpha`. Its `Update` is proved against the one-axis step
  `Ema`. Lemmas state that a step never overshoots, that repeated steps
  approach the target monotonically, and that after n steps the gap is
  (1 - alpha)^n times the initial one.
- `Gesture` (gesture.dfy): the per-frame step as pure functions.
  - `Classify`, `MapToScreen`, `Hover`, `SwitchMode`, `ScrollEffects`,
    `ClickStep`, `PointerStep`, `HandStep` and `Step`.
  - The state record `GestureState` and the invariant `Inv`.
  - `Replay`: a reference semantics of enter and leave events, used to
    state that hovering is well bracketed.
- `GestureSteps` (gesture_steps.dfy): what one step does, case by case.
- `GestureRuns` (gesture_runs.dfy): properties over whole runs of frames.
- `GestureSession` (gesture_session.dfy): the class `GestureController`,
  whose fields are the component's refs. It has `Tick(frame)`, with
  helpers `ProcessHand`, `PointerMode` and `SimulateEvents`, which update
  the fields in place. `Tick` returns the effect log and is proved to
  equal `Gesture.Step` on the abstract state, so every lemma about `Step`
  holds of the object.

## Modelling decisions

- **Coordinates** are `real`. The source compares two Euclidean distances
  (curl test) and one distance against 0.05 (pinch test). Both are strict
  comparisons of non-negative numbers, so the model compares squared
  distances. `CurlMatchesDistances` and `PinchMatchesDistance` prove that
  this agrees with comparing the square roots.
- **A frame** (`Gesture.Frame`) carries everything the step reads from
  outside: whether video and canvas are ready, the video's current time,
  the wall clock (`Date.now()`), the window size, the detected landmarks
  (if any), `document.elementFromPoint` as an oracle from a point to
  an optional element identifier, and whether an element is an HTML
  element.
- **The effect log** is a sequence of `ScrollBy(dy)`, `Mouse(kind, target,
  client point)` and `ClickOn(target, point)`, in the order the source
  performs them.
- **The smoother** is built with centre coordinates taken from the window
  size, which the source reads from `window.innerWidth`/`innerHeight`.
- **A pinch held through a fist, modelled as written.** Pinch handling
  exists only in the pointer branch, so a pinch held while a fist is made
  stays recorded. The first non-pinching pointer-mode frame after the fist
  ends then clicks; this can be the very frame that leaves scroll mode.
  `StepClickAfterFist` states this.
- **Mirroring.** `rawX = 1 - x`, so landmark x = 0 maps to the viewport
  width and x = 1 to 0; see `Gesture.MapToScreenProperties`.
- **A click on a non-HTML element stops the loop.** The release handler
  calls `(el as HTMLElement).click()`. The cast checks nothing at run time,
  and SVG elements (such as the nodes of the skills graph) have no
  `click()`, so the call throws. The pinch is already released and the
  mode already `pointer`, but no ripple is drawn and the next
  `requestAnimationFrame` is never requested. The frame carries an oracle
  `isHtml` for the element kind; such a release sets `halted`, and every
  later step is a no-op (`GestureSteps.StepHaltsOnlyOnNonHtmlRelease`,
  `GestureRuns.RunAfterHalt`).
- **Chat error text.** The error message is `Option<string>`. An absent or
  empty message gives the default text, as JavaScript's `||` does.
- **Trim** removes the code points JavaScript's `String.prototype.trim`
  removes: the WhiteSpace and LineTerminator sets.

## Model

| member | source | states |
|---|---|---|
| ObfuscationUtils.FromCharCode | services/obfuscationUtils.ts:12 | always yields a code unit in 0..65535 congruent to its argument modulo 2^16, so it is the identity on arguments already in that range |
| ObfuscationUtils.Obfuscate | services/obfuscationUtils.ts:9-15 | keeps the length; position i holds the code unit at position n-1-i of the input plus 3, modulo 2^16 |
| ObfuscationUtils.Deobfuscate | services/obfuscationUtils.ts:17-23 | keeps the length; position i holds the code unit at position n-1-i of the input minus 3, modulo 2^16 |
| ObfuscationUtils.ShiftCancels | services/obfuscationUtils.ts:7-23 | shifting a code unit by k and then by -k gives it back, also across the wrap-around at 65535 |
| ObfuscationUtils.ShiftAllCancels | services/obfuscationUtils.ts:9-23 | mapping the shift by k and then by -k over a string gives the string back |
| ObfuscationUtils.DeobfuscateObfuscate | services/obfuscationUtils.ts:9-23 | deobfuscate(obfuscate(s)) == s for every string s |
| ObfuscationUtils.ObfuscateDeobfuscate | services/obfuscationUtils.ts:9-23 | obfuscate(deobfuscate(s)) == s for every string s |
| AIChat.Trim | components/AIChat.tsx:31-33 | the result is the part of the input after its leading whitespace, followed only by whitespace; it neither starts nor ends with whitespace; it is empty exactly when the input is all whitespace |
| AIChat.ConcatSnoc | components/AIChat.tsx:46 | adding a chunk to the running reply gives the concatenation of all chunks so far |
| AIChat.WithLastText | components/AIChat.tsx:47-54 | the per-chunk updater keeps the length and every entry but the last; the last keeps its role and error flag, and gets the new text exactly when its role is model |
| AIChat.Streamed | components/AIChat.tsx:43-55 | applying the per-chunk updates never changes the transcript's length |
| AIChat.StreamedShape | components/AIChat.tsx:43-55 | after k chunks the earlier entries are unchanged; the last entry's text is the concatenation of the k chunks when it is the model's; a user last entry, or no chunks, leaves the transcript unchanged |
| AIChat.ErrorEntry | components/AIChat.tsx:56-59 | the failure entry is the model's, flagged as an error, with text "Error: " followed by the error message, or by the default text when there is no message or it is empty |
| AIChat.ChatWidget.constructor | components/AIChat.tsx:8-12 | the transcript holds exactly the model's greeting; the input is empty; nothing is loading |
| AIChat.ChatWidget.SetInput | components/AIChat.tsx:133 | the text field's new value is stored in `input` |
| AIChat.ChatWidget.StreamReply | components/AIChat.tsx:43-55 | after the chunk loop the placeholder has become the model's entry holding the concatenation of all chunks; earlier entries are unchanged |
| AIChat.ChatWidget.HandleSend | components/AIChat.tsx:30-63 | with empty trimmed input, or a request in flight: nothing changes and no request is made. Otherwise: the request carries the transcript from before the send and the trimmed message; the input is cleared; loading is off; the transcript gains the user's message, the model's reply from all chunks, and the error entry exactly when the stream failed |
| Smoothing.EmaBetween | components/GestureController.tsx:21-25 | with 0 < alpha <= 1 a filter step lands between the old value and the target, shrinks the gap to the target by the factor 1 - alpha, and moves whenever it was not already at the target |
| Smoothing.IterateMonotone | components/GestureController.tsx:21-25 | fed a constant target, the filter stays between its start and the target and moves monotonically toward the target |
| Smoothing.IterateGap | components/GestureController.tsx:21-25 | fed a constant target, after n steps the distance to the target is (1 - alpha)^n times the starting distance |
| Smoothing.PowerShrinks | components/GestureController.tsx:21-25 | for a factor 1 - alpha in [0, 1] the powers stay in [0, 1] and never grow, so the gap of `IterateGap` never grows |
| Smoothing.LowPassFilter.constructor | components/GestureController.tsx:13-19 | a new filter stores its coefficient and sits at the centre of the window |
| Smoothing.LowPassFilter.Update | components/GestureController.tsx:21-25 | each coordinate takes one filter step toward its target, and the new position is returned |
| Gesture.Dist2 | components/GestureController.tsx:128-130 | the squared distance between two landmarks is non-negative |
| Gesture.SquareOrder | components/GestureController.tsx:128-137 | for non-negative a and b: a < b exactly when a*a < b*b |
| Gesture.CurlMatchesDistances | components/GestureController.tsx:132-137 | the squared curl test holds exactly when the tip-to-wrist distance is below the PIP-to-wrist distance |
| Gesture.PinchMatchesDistance | components/GestureController.tsx:198-201 | `isPinching` holds exactly when the thumb-tip to index-tip distance is strictly below 0.05 |
| Gesture.FistIgnoresThumbAndIndex | components/GestureController.tsx:190-195 | moving the thumb and index keypoints never changes whether the hand is a fist |
| Gesture.GunPoseIsFist | components/GestureController.tsx:190-195 | the particular pose `GunPose`, whose index finger is stretched and whose other three fingers are curled, is a fist |
| Gesture.MapToScreenProperties | components/GestureController.tsx:248-257 | the mapped point lies in [0, width] x [0, height]; (0.5, 0.5) maps to the exact centre; x <= 1/7 maps to the right edge and x >= 6/7 to the left edge (mirrored); y <= 1/7 maps to the top and y >= 6/7 to the bottom |
| Gesture.MappedAxis | components/GestureController.tsx:253-257 | one overscanned and clamped axis lies in [0, w], sends the middle to w/2, and pins to an edge within 1/7 of the image edge |
| Gesture.Hover | components/GestureController.tsx:139-163 | the new last-hovered element is the one under the point. Only mouse events, in the order move, out, leave, over, enter. `mousemove` goes first, to the element under the point, whenever there is one. `mouseout` and `mouseleave` go only to the old element and only when the element changed. `mouseover` and `mouseenter` go only to the new element and only on a change. Each due event is sent |
| Gesture.HoverBalanced | components/GestureController.tsx:152-162 | replaying one call's enter and leave events from "inside the last hovered element" never enters an element twice or leaves one not entered, and ends inside exactly the new element |
| GestureSteps.StepSkipsStaleFrame | components/GestureController.tsx:170-178 | a frame before the video is ready, a frame with the same video time as the last one, or any frame after the loop has halted, changes no state and has no effect |
| GestureSteps.StepWithoutHand | components/GestureController.tsx:320-324 | a new frame without a hand only records the video time and clears `handDetected` |
| GestureSteps.StepEntersScroll | components/GestureController.tsx:205-213 | a fist starting while not scrolling sets scroll mode and the wrist height as anchor; nothing scrolls on that frame; click, smoother and hover state are unchanged |
| GestureSteps.StepWhileScrolling | components/GestureController.tsx:217-231 | while the fist is held, the page scrolls by (wrist y - anchor) * 40 exactly when the displacement is outside the 0.05 deadzone, with the sign of the displacement; no state but the video time changes |
| GestureSteps.ScrollGrowsWithDisplacement | components/GestureController.tsx:223-230 | beyond the deadzone the scroll amount grows strictly with the displacement, in both directions |
| GestureSteps.StepPointerMode | components/GestureController.tsx:242-303 | a frame without a fist leaves scroll mode if it was active; it smooths toward the mapped fingertip and hovers there first. Then a starting pinch only sets click mode and the pinch time. A released pinch returns to pointer mode. It then clicks the element under the pointer when that is an HTML element; over any other element it clicks nothing and halts the loop. Otherwise nothing more happens |
| GestureSteps.StepPointerStaysOnScreen | components/GestureController.tsx:248-260 | a pointer that starts on the screen stays on the screen |
| GestureSteps.StepScrollKeepsClickState | components/GestureController.tsx:217-242 | on a step that leaves the scroll active, pinch, click, smoother and hover state are unchanged, and every effect is a scroll |
| GestureSteps.StepClicksOnlyOnRelease | components/GestureController.tsx:271-302 | a step clicks at most once, and only when a held pinch is released |
| GestureSteps.StepPreservesInv | components/GestureController.tsx:205-302 | scroll mode holds exactly while the scroll is active, and click mode only while a pinch is held, after every step |
| GestureSteps.StepHaltsOnlyOnNonHtmlRelease | components/GestureController.tsx:280-288 | a step leaves the loop halted exactly when it already was, or when it releases a held pinch in pointer mode over an element that is not an HTML element |
| GestureSteps.StepClickAfterFist | components/GestureController.tsx:205-303 | a pinch held through a fist is released on the frame that ends the fist without pinching. That frame ends in pointer mode with no pinch held. It clicks once if an HTML element is under the pointer, and halts the loop if a non-HTML element is |
| GestureRuns.RunPreservesInv | components/GestureController.tsx:166-331 | the mode invariant holds after any sequence of frames |
| GestureRuns.RunAfterHalt | components/GestureController.tsx:288-330 | once halted, any further frames change nothing and have no effect |
| GestureRuns.StepHoverBalanced | components/GestureController.tsx:139-303 | one frame's enter and leave events are well bracketed and end inside exactly the new last-hovered element |
| GestureRuns.RunHoverBalanced | components/GestureController.tsx:139-163 | over any run the enter and leave events are well bracketed and end inside exactly the last hovered element |
| GestureRuns.InitialRunHoverBalanced | components/GestureController.tsx:139-163 | from a freshly mounted controller no element ever gets `mouseenter` twice without `mouseleave` in between |
| GestureRuns.RunClicksAtMostPresses | components/GestureController.tsx:271-302 | over any run, clicks plus a pinch still held at the end are at most the presses plus a pinch held at the start: one click per press-release cycle |
| GestureRuns.RunSteadyPointing | components/GestureController.tsx:242-303 | pointing with no fist and no pinch, from pointer mode with no pinch held, stays in pointer mode and only moves and hovers: no scroll, no click |
| GestureSession.GestureController.constructor | components/GestureController.tsx:42-59 | on mount: pointer mode, no scroll, anchor 0.5, no pinch, the smoother at the window centre with coefficient 0.15, nothing hovered, video time -1 |
| GestureSession.GestureController.SimulateEvents | components/GestureController.tsx:139-163 | the dispatched events and the new last-hovered element are exactly those of `Hover` |
| GestureSession.GestureController.PointerMode | components/GestureController.tsx:242-303 | the in-place pointer branch leaves the state and effects of `PointerStep`, including the halt on a release over a non-HTML element |
| GestureSession.GestureController.ProcessHand | components/GestureController.tsx:182-303 | classification, mode switching and scroll or pointer branch leave the state and effects of `HandStep` |
| GestureSession.GestureController.Tick | components/GestureController.tsx:166-331 | one frame updates the fields to exactly the state `Step` gives, returns exactly its effects, and keeps the mode invariant; once halted it does nothing |

## Left out

- MediaPipe (`FilesetResolver`, `HandLandmarker`, `detectForVideo`) is a
  foreign vision model. The model takes its output, the landmarks, as part
  of each frame.
- The camera (`getUserMedia`), the `loadeddata` listener,
  `requestAnimationFrame` scheduling, the `isMounted` guard and the
  `gesture-mode` custom event are browser I/O. The frame loop is a
  sequence of `Tick` calls (`GestureRuns.Run` on the specification side).
- Canvas debug drawing, style writes to the cursor and anchor bar, and
  the click ripple with its 600 ms timer are rendering only. So is all
  JSX and React state display.
- `indexCurled`, `scrollState.speed` and `clickState.hasClicked` are
  computed or stored but never read, so they are not modelled.
- `pinchStartTime` is the frame's `now` field. The clock read itself is
  I/O, and the value is never read.
- Floating-point rounding: coordinates are exact reals, and
  `Math.sqrt`/`Math.pow` are replaced by the equivalent squared
  comparisons.
- Element identity is a natural number. Real DOM events bubble and may
  run page handlers; the model only records which events are dispatched
  to which element.
- Gesture.PointerStep: the source calls `document.elementFromPoint` again for the
  click, after the hover handlers have run. The model queries the same
  oracle at the same point once per frame, so it assumes the element
  under the pointer does not change within one frame.
- AIChat: transcript text is Dafny `string`, a sequence of Unicode scalar
  values. JavaScript strings are UTF-16 code units, so a lone surrogate
  in the input or in a chunk cannot be represented.
- AIChat.ChatWidget.HandleSend: the `for await` stream, React's batching
  of state updaters, `scrollIntoView` and the focus timer are left out.
  The send runs to completion against a given chunk sequence, and a
  failure happens after all the chunks it yields.
- AIChat.WithLastText: the source overwrites `lastMsg.text` on the entry
  object it shares with the previous state. The model replaces the entry
  by value, so it does not capture that aliasing.
- `handleKeyPress` (Enter calls `handleSend`) and the send button's
  `disabled` flag only trigger the modelled send, or mirror its guard.
- `services/geminiService.ts` is not part of this model. Its role mapping
  is the service's concern; the model only passes it the history and the
  message.
- The other components and files (`Ferrofluid`, `NanotechText`, `Skills`,
  `Preloader`, `CustomCursor`, `Navbar`, static content, `App`,
  `constants`, `types`) have no logic in this core.

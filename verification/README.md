# 3rd-eye focus and alert engine, in Dafny

The smart-glasses prototype reads camera frames, runs an object detector on
each, and talks to a visually-impaired wearer. This project models the
decisions the main loop makes on every frame:

- the **low-light channel**: a frame whose mean grey level is below 40 makes
  the device say "Low light detected.", at most once every 15 seconds
  (timer `last_dark_warning`);
- the **detection filter**: a detection is kept only if its confidence is
  above 0.55 and its label is one of the eight target objects;
- the **focus band**: a vertical band from `width // 2 - 130` to
  `width // 2 + 130`; a kept detection is in focus when the integer centre
  `(x1 + x2) // 2` of its box lies strictly inside it;
- the **proximity flag** `danger_close`: reset at the start of each frame,
  set by any in-focus box taller than 400 pixels, and never cleared within
  the frame;
- the **speech arbitration**, run for each in-focus box in detector order:
  while the danger flag is up the box is warned about ("Stop! {name} too
  close.") if the last utterance is more than 2 seconds old; otherwise its
  name is said if it differs from the object last announced or the last
  utterance is more than 3 seconds old. Both branches share the one timer
  `last_speak_time`; only the ordinary branch changes `current_object`.

Modules:

- `Detection` (detection.dfy): constants, the detection and box types, the
  filter, the centre and band test, the height test.
- `Arbiter` (arbiter.dfy): the rules of one frame as pure functions
  (`StartFrame` for the low-light channel, `Consider` for one detection,
  `ConsiderAll` for a frame's detections, `Frame` for the whole frame), and
  the lemmas about them.
- `Engine` (engine.dfy): class `AlertEngine` holding `lastSpeak`, `lastDark`
  and `currentObject` (initially 0, 0 and ""), with a ghost log `spoken` of
  every utterance handed to the speech engine. `ProcessFrame` runs the loop
  over the detections in place and is proved to leave exactly the state,
  danger flag and utterances that `Arbiter.Frame` describes, so every lemma
  in `Arbiter` and `Scenarios` applies to it.
- `Scenarios` (scenarios.dfy): concrete frames on a 640-pixel-wide camera.

Units: clock readings are whole milliseconds since the Unix epoch, the
origin of `time.time()` (cooldowns 2000, 3000 and 15000); since both timers
start at 0, the first dark frame and the first in-focus box of a session are
always past their cooldowns. Confidences are per-mille (kept when above 550),
pixel coordinates are integers, and the mean brightness is the integer part of
the frame's mean (exact for the test `mean < 40`). Python's `//` by 2 rounds
down; so does Dafny's `/` by a positive divisor, for negative sums too.

Consequences of the code as written:

- Arbitration runs per box, not per frame. A frame can speak several names
  (`Scenarios.SeveralUtterancesInOneFrame`), and danger does not win
  whatever the detector order: a tall box reported after a harmless one is
  silenced by the speech time the harmless one just wrote
  (`Scenarios.DangerDependsOnOrder`).
- Both branches share the one timer `last_speak_time`; a danger warning and
  an ordinary announcement hold each other back.
- The rectangle drawn at prototype.py:80 has a 50-pixel vertical margin;
  classification (prototype.py:109-112) uses the horizontal centre alone.

## Model

| member | source | states |
|---|---|---|
| `Detection.Filter` | prototype.py:101-105 | the filter's output holds only detections with confidence above 0.55 and a target label, and is no longer than its input |
| `Detection.FilterMembers` | prototype.py:101-105 | a detection survives the filter if and only if it is in the input, above the confidence threshold and a target label |
| `Detection.FilterIdempotent` | prototype.py:101-105 | filtering an already filtered sequence returns it unchanged |
| `Detection.Center` | prototype.py:109 | the centre is the floor of the mean of the horizontal edges: `2c <= x1 + x2 < 2c + 2` |
| `Detection.InFocusIff` | prototype.py:109-112 | a box is in focus if and only if `2 * left + 2 <= x1 + x2 < 2 * right` for the band's edges, both directions |
| `Detection.ZoneBounds` | prototype.py:76-77 | the band is 260 pixels wide and lies inside any frame at least 260 pixels wide |
| `Detection.EdgeIsPeripheral` | prototype.py:112 | a centre exactly on either edge of the band is not in focus |
| `Detection.DangerThreshold` | prototype.py:118-120 | a box 400 pixels tall is not too close; one 401 pixels tall is |
| `Arbiter.StartFrameSpec` | prototype.py:85-89 | "Low light detected." is spoken iff the mean is below 40 and the last warning is more than 15 s old; then only the warning time moves, to now; the danger flag starts false; speech time and announced label are untouched |
| `Arbiter.IgnoredDetection` | prototype.py:101-114 | a detection that fails the filter or lies outside the band, whatever its size, changes no state and speaks nothing |
| `Arbiter.DangerBranch` | prototype.py:133-136 | in the danger branch the warning naming this box is spoken iff the last utterance is more than 2 s old; on speaking only the speech time moves; the announced label and the warning time never change; the flag stays up |
| `Arbiter.FocusBranch` | prototype.py:137-141 | in the ordinary branch the name is spoken iff it differs from the announced label or the last utterance is more than 3 s old; then speech time becomes now and the label becomes the name; otherwise nothing changes |
| `Arbiter.ConsiderAllKeepsDark` | prototype.py:131-141 | the object channel never changes the low-light warning time and only appends to the utterances |
| `Arbiter.UtteranceBound` | prototype.py:114-141 | a frame's detections add at most one utterance per in-focus relevant detection |
| `Arbiter.QuietWithoutFocus` | prototype.py:114 | detections none of which is relevant and in focus leave the whole state, the announced label included, unchanged and speak nothing |
| `Arbiter.DangerSticky` | prototype.py:94-120 | once the danger flag is up it stays up for the rest of the frame, and the announced label no longer changes |
| `Arbiter.DangerFlagIff` | prototype.py:94-120 | the danger flag ends up set iff it was already set or some detection is relevant, in focus and taller than 400 pixels |
| `Arbiter.SilentUnderDanger` | prototype.py:132-136 | with the flag up and the last utterance at most 2 s old, the rest of the frame speaks nothing and changes nothing |
| `Arbiter.HazardEndsSpeech` | prototype.py:118-136 | at one clock reading, nothing is spoken in a frame after a hazardous box, whatever follows it |
| `Arbiter.FilterPreservesFrame` | prototype.py:101-105 | running the frame on the filtered detections gives the same result as on all of them |
| `Arbiter.ObjectChannelIndependent` | prototype.py:83-141 | the object channel's outcome (speech time, announced label, danger flag, its own utterances) does not depend on the low-light channel |
| `Engine.AlertEngine.constructor` | prototype.py:52-54 | the session starts with both timers at 0, no announced label and nothing spoken |
| `Engine.AlertEngine.Speak` | prototype.py:10-21 | handing text to the speech engine appends it to the log of utterances |
| `Engine.AlertEngine.ProcessFrame` | prototype.py:76-147 | the loop leaves the session, returns the danger flag and appends the utterances exactly as `Arbiter.Frame` describes; each timer either keeps its value or becomes now |
| `Scenarios.SeveralUtterancesInOneFrame` | prototype.py:131-141 | two harmless in-focus objects with different labels are both announced in one frame |
| `Scenarios.DangerDependsOnOrder` | prototype.py:118-141 | a harmless box first: its name is spoken and the tall box is silenced; the tall box first: only the warning is spoken; the flag is up both ways |
| `Scenarios.FocusCooldownScenario` | prototype.py:137-141 | a bottle announced at t is silent at t + 2.9 s and announced again at t + 3.1 s |
| `Scenarios.LabelChangeOverride` | prototype.py:137 | a cup after a bottle is announced 0.1 s later, inside the cooldown |
| `Scenarios.StaleLabelDebounces` | prototype.py:114-141 | a frame without the bottle keeps it as the announced label, so its return 2 s after the announcement is silent |
| `Scenarios.DarknessAndFocusTogether` | prototype.py:85-141 | a dark frame with an expired focus cooldown speaks the low-light warning and then the label |
| `Scenarios.DangerHeightScenario` | prototype.py:94-120 | a lone in-focus box 400 pixels tall leaves the frame's danger flag down; one 401 pixels tall raises it |
| `Scenarios.IgnoredScenarios` | prototype.py:101-112 | a huge box centred on the band's edge, a target at exactly 0.55 confidence and a non-target label are all silent |

## Left out

- Speech synthesis and its thread (prototype.py:10-21): `Speak` appends to a ghost log; the engine, its settings and its silently swallowed failures are foreign code and concurrency.
- The start-up announcement and five-second pause (prototype.py:26-29): I/O and timing.
- Loading and running the detector and looking up class names (prototype.py:36, 92, 102-103): foreign code. A frame's detections are an input sequence of (name, confidence, box), with all result batches flattened into one sequence in detector order.
- Camera capture, the frame size and the exit key (prototype.py:39-41, 59-63, 164-168): I/O. The width is an input.
- Grey conversion and the mean over the image (prototype.py:84-85): floating-point image numerics; the integer part of the mean is an input.
- Grid, brackets, box colours and captions, the console line printed for a focused object, clock, crosshair, red overlay and window (prototype.py:67-71, 80-81, 86, 121-129, 138, 146, 150-162): display only. The danger flag that drives the overlay is returned by `ProcessFrame`.
- Floating-point clock and confidences: clock readings are whole milliseconds and confidences whole per-mille, so a confidence strictly between 0.550 and 0.551 is dropped here but kept by the program, and cooldowns are compared at millisecond resolution.
- Engine.AlertEngine.ProcessFrame: the program reads the clock afresh for each in-focus box and for the low-light timestamp; the model uses one reading per frame, so it does not capture a frame whose processing itself spans a cooldown.
- The conversion of box coordinates from floats to integers (prototype.py:106): boxes are integer inputs.

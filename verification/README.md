# Exam proctoring: behaviour detection and alert debouncing

A Dafny model of the core of a browser-based exam proctor (`main.js`). For each video frame, a landmark estimator supplies an optional 33-point body pose and an optional left and right hand of 21 points each. Ten detector functions then test that frame against fixed geometric thresholds: pre-answering, head tilt, standing up, passing objects, suspicious objects, hands under the table, leaving the room, raising a hand, smartphone use, and writing after the exam. A per-behaviour debounce then turns these noisy per-frame results into rate-limited alerts.

The debounce rule works as follows:
- A frame on which a detector says no clears that behaviour's flag at once.
- A frame on which it says yes fires an alert only when the flag is clear and more than 2000 ms have passed since the behaviour last fired.
- Firing sets the flag and records the time.

The exam session consists of the start time, the end time and an "active" flag, which two keyboard commands assign. Two of the detectors read it, and every alert records it.

The model is made of these modules:
- `Wrappers` (`wrappers.dfy`): `Option` and `Result`.
- `Landmarks` (`landmarks.dfy`):
  - keypoints, poses and hands;
  - the per-frame `Results`;
  - the hand list that `onResults` builds (`Hands` as intended, `HandsAsWritten` as written; see Findings).
- `Behaviors` (`behaviors.dfy`): the ten behaviour kinds in block order, and the names they are logged under.
- `Session` (`session.dfy`):
  - the session snapshot `Phase` and the two commands as pure functions;
  - the `ExamSession` class, whose `StartExam` and `EndExam` methods assign the three session variables in place;
  - `examTime` and the `endExam` duration.
- `Detectors` (`detectors.dfy`):
  - the ten detector functions, on exact rational coordinates;
  - `Detect`, which dispatches on the kind;
  - `Candidates`, which gives all ten results for one frame.
- `Debounce` (`debounce.dfy`):
  - the debounce rule for one behaviour (`Advance`) and a series of frames (`Run`);
  - lemmas for cooldown, spacing between alerts, one alert per sustained run, and immediate fall.
- `Tracker` (`tracker.dfy`):
  - the `BehaviorTracker` class, whose fields are the two dictionaries `detectedBehaviors` and `lastDetectionTime`;
  - `Update`, one block of `onResults`;
  - `Step`, the ten blocks in order;
  - `OnResults`, one full frame, which returns the logged alerts;
  - lemmas that the ten trackers are independent and that the session gates the two session-dependent behaviours.

Points where the code behaves differently from what one might expect, and where the model follows the code:
- No detector consults a point's `visibility`. One might expect points with visibility at most 0.5 to count as unobserved, but the code never reads the field.
- Three single-hand tests always measure against the left shoulder (landmark 11), even for the second hand: suspicious objects, raising a hand and smartphone use. Passing objects checks both shoulders.
- `endExam` without a prior `startExam` logs `(now - null) / 1000`, which JavaScript evaluates as `now / 1000` rather than rejecting the call or reporting 0. The model keeps the code's value (`Session.EndDuration`).
- Both `!lastDetectionTime.x` (main.js:455) and `examStartTime ? … : 0` (main.js:301) test truthiness. A stored clock value of 0 therefore reads as "never fired" or "not started". The model keeps this, so the cooldown lemmas assume the recorded time is not 0, which holds for any real wall clock. `Debounce.ZeroTimeStartsNoCooldown` shows the difference: a firing at clock 0 starts no cooldown.

## Model

| member | source | states |
|---|---|---|
| `Landmarks.Hands` | main.js:440-445 | The intended hand list holds the left hand if present and then the right hand if present. Its length is the number of hands present. |
| `Landmarks.HandsAsWritten` | main.js:442-445 | The hand list as written fails exactly when a right hand is present. Otherwise it equals the intended list. |
| `Behaviors.AllKindsExact` | main.js:30-41 | Every behaviour kind appears in the block order, and appears exactly once, among ten. |
| `Behaviors.LogName` | main.js:458-557 | Each block logs its behaviour under a non-empty name without spaces. |
| `Behaviors.LogNamesDistinct` | main.js:453-561 | Distinct behaviours are logged under distinct names. |
| `Session.Apply` | main.js:585-605 | `startExam` sets the start time to now, sets active, and clears the end time. `endExam` sets the end time to now and clears active, leaving the start time as it was. Either way the result satisfies "active implies started and not ended". |
| `Session.StartTimeUnsetIffNeverStarted` | main.js:585-605 | After any series of commands, the start time is unset exactly when it was unset before and no `startExam` ran. Nothing ever clears it. |
| `Session.EndedIffLastCommandEnded` | main.js:585-605 | After at least one command, the exam is over (inactive with an end time) exactly when the last command was `endExam`. |
| `Session.ExamTime` | main.js:301 | The logged `examTime` is 0 when the start time is unset or is the clock value 0 (the source's truthiness test). Otherwise it is the elapsed milliseconds divided by 1000, and it is non-negative when the start is not in the future. |
| `Session.EndDuration` | main.js:602 | The logged duration is (end − start)/1000, with a missing start read as 0. This contract is the closed form itself. |
| `Session.ExamSession.constructor` | main.js:23-25 | Both times are unset and the exam is inactive. |
| `Session.ExamSession.StartExam` | main.js:585-594 | The new state is `Apply(old, Start(now))`: the start time is now, the exam is active, and the end time is cleared. |
| `Session.ExamSession.EndExam` | main.js:596-605 | The new state is `Apply(old, End(now))`: the end time is now, the exam is inactive, and the start time is unchanged. Returns the logged duration. |
| `Detectors.Abs` | main.js:207-208 | `Math.abs`: the result is non-negative and equals x or −x. |
| `Detectors.AnyHand` | main.js:205-211 | The `for…of` loop with early `return true` holds exactly when some hand passes the test. |
| `Detectors.DetectPreAnswering` | main.js:168-179 | True exactly when the exam is inactive, has never started, and some hand has index and middle fingertips above their knuckles. It can only be true before any start. |
| `Detectors.DetectHeadTilt` | main.js:181-188 | False without a pose. Otherwise true exactly when the absolute atan2 angle of the ear line, in degrees, exceeds 15. |
| `Detectors.DetectStandingUp` | main.js:190-199 | True exactly when a pose is present and the average hip y exceeds the average knee y by more than 0.1. The contract restates the threshold without halving; what all detectors share (absent landmarks give false) is stated in `Detectors.Detect`. |
| `Detectors.DetectPassingObjects` | main.js:201-212 | True exactly when a pose is present and some wrist is more than 0.3 sideways from either shoulder. |
| `Detectors.DetectSuspiciousObjects` | main.js:214-226 | True exactly when a pose is present and some hand meets all three conditions: its fingers are curled, its wrist is below the left shoulder, and its wrist is within 0.2 of that shoulder sideways. |
| `Detectors.DetectHandsUnderTable` | main.js:228-238 | True exactly when a pose is present and some wrist is more than 0.1 below the average hip. The contract restates the threshold without halving; the absence rule is stated in `Detectors.Detect`. |
| `Detectors.DetectLeavingRoom` | main.js:240-247 | False without a pose. Otherwise false exactly when the shoulders' midpoint is within [0.1, 0.9] and the nose is within [0.05, 0.95]. The contract is the threshold test in negated form; the absence rule is stated in `Detectors.Detect`. |
| `Detectors.DetectRaisingHand` | main.js:249-257 | True exactly when a pose is present and some wrist is more than 0.1 above the left shoulder. |
| `Detectors.DetectSmartphoneUsage` | main.js:259-278 | True exactly when a pose is present and some hand meets all five phone-holding conditions. It is only ever true with the head bowed (nose more than 0.1 below the left shoulder). |
| `Detectors.DetectWritingAfterExam` | main.js:280-291 | True exactly when the exam is inactive, has an end time, and some hand has index and middle fingertips extended. |
| `Detectors.Detect` | main.js:168-291 | Every pose detector is false without a pose, and every hand detector is false with no hands. Pre-answering and writing-after-exam are false while an exam is active. Pre-answering needs an unset start time, and writing-after-exam needs a set end time. |
| `Detectors.Candidates` | main.js:453-552 | The detector verdicts one frame hands to the ten blocks. While an exam is active, neither pre-answering nor writing-after-exam is a candidate. Pre-answering needs an unset start time and writing-after-exam a set end time. With no pose, only those two can be candidates. With no hands, only head tilt, standing up and leaving the room can be. |
| `Detectors.RaisedRightHandLostAsWritten` | main.js:445 | Take a frame whose only hand is a right hand raised above the shoulder. The intended hand list reports a raised hand, but the hand list as written throws. |
| `Debounce.Advance` | main.js:453-462 | A frame without the behaviour clears the flag, keeps the stored time and fires nothing. A frame fires exactly when the behaviour is detected, the flag is clear and the cooldown has elapsed. Firing leaves the flag set and the time now. A suppressed or sustained detection changes nothing. |
| `Debounce.CooldownSuppresses` | main.js:453-462 | Suppose the last firing was at t0 ≠ 0. Then no later frame up to t0 + 2000 fires, whatever the detector says, including across falling edges. The stored time stays t0, and a clear flag stays clear. |
| `Debounce.LastFireRecorded` | main.js:456-457 | After any series of frames, the stored time is the time of the last firing, or unchanged if none fired. |
| `Debounce.FirstFireAfterCooldown` | main.js:454-455 | The first firing of a series comes more than 2000 ms after the stored time, when that time is truthy. |
| `Debounce.ConsecutiveFiresSpaced` | main.js:454-457 | Each firing comes more than 2000 ms after the previous one, when that one is truthy. |
| `Debounce.FiresPositive` | main.js:450-457 | With a positive clock, every firing time is positive. |
| `Debounce.FiresPairwiseSpaced` | main.js:453-462 | With a positive clock, any two alerts for one behaviour are more than `detectionCooldown` = 2000 ms apart. |
| `Debounce.SustainedActiveStaysSilent` | main.js:454-455 | A set flag under continued detection stays set and logs nothing. |
| `Debounce.SustainedRunFiresOnce` | main.js:453-459 | A sustained detection fires at most once. Starting from a clear flag whose cooldown has elapsed, it fires exactly once, on its first frame, and leaves the flag set. |
| `Debounce.ActiveOnlyWhileDetected` | main.js:460-462 | After a series of frames, the flag is set only if the last frame detected the behaviour, so a falling edge always clears it. |
| `Debounce.ZeroTimeStartsNoCooldown` | main.js:455 | Fire at clock 0, lose the behaviour at 50, and see it again at 100. It fires again at 100, because the stored 0 reads as "never fired". |
| `Debounce.FlickerScenario` | main.js:453-462 | Take detections at 1000, 1100 and 1200, none at 1300, then detections at 2500 and 3100. Alerts fire at 1000 and 3100 only. |
| `Tracker.AlertFor` | main.js:294-302 | The alert carries the behaviour's log name, confidence 1.0 and `isExamActive`. Its `examTime` is `ExamTime`: 0 when the start time is unset or 0, otherwise the seconds elapsed since the start. |
| `Tracker.AlertNamesBehavior` | main.js:294-302 | Two alerts carry the same behaviour name only if they are about the same behaviour. |
| `Tracker.AlertTimesIndependent` | main.js:453-561 | Over any series of frames, the times at which the tracker logs behaviour k are exactly the firings of k's own debounce run on its own detector results. |
| `Tracker.LoggedAlertsSpaced` | main.js:453-561 | With a positive clock, any two alerts the tracker logs for one behaviour are more than 2000 ms apart. |
| `Tracker.FiredAmongExact` | main.js:453-561 | A behaviour is reported in a frame exactly when its own block fires, and no behaviour is reported twice. |
| `Tracker.StepKindsAt` | main.js:453-561 | Running blocks one after another moves each listed behaviour by its own rule from its own entry. Every other entry is left unchanged. |
| `Tracker.NextBlock` | main.js:453-561 | Each block sees its behaviour's entry as the frame began, and adds exactly its own update and its own alert. |
| `Tracker.StepKindsCoversAll` | main.js:453-561 | Running the ten blocks in order equals advancing every behaviour on its own detector result. |
| `Tracker.TrackersIndependent` | main.js:453-561 | Over any series of frames, a behaviour's entries equal those of a tracker that saw only its own detector's results. |
| `Tracker.ActiveExamSilencesGatedKinds` | main.js:168-291 | While an exam is active, no frame reports pre-answering or writing-after-exam. |
| `Tracker.NoPreAnsweringOnceStarted` | main.js:169 | Once any `startExam` has run, pre-answering is never reported again, whatever commands follow. |
| `Tracker.BehaviorTracker.constructor` | main.js:26-41 | Every behaviour starts with its flag clear and no recorded time. |
| `Tracker.BehaviorTracker.Update` | main.js:453-462 | One block: the returned flag and the new entry are those of `Advance`, and every other behaviour's entries are unchanged. |
| `Tracker.BehaviorTracker.Step` | main.js:453-561 | The ten blocks: every behaviour advances on its own detector result. The fired kinds come out in block order. |
| `Tracker.BehaviorTracker.OnResultsAsWritten` | main.js:436-564 | `onResults` as written. A frame with a right hand fails, logs nothing, and leaves every flag and time unchanged. Any other frame behaves exactly as `OnResults`. |
| `Tracker.BehaviorTracker.OnResults` | main.js:436-564 | One frame: the detectors run on the intended hand list and the session snapshot, the tracker steps, and one alert is returned per fired behaviour, in block order. |

## Left out

- Canvas drawing, overlays and the status banner, including the `setTimeout` reset (main.js:154-165, 305-308, 312-409, 437, 447-448, 563). These are display side effects.
- Connection and pairing (main.js:44-151, 620-680). This covers address discovery over the network, URL and QR display, the clipboard, the message listener and `localStorage` polling. All of it is I/O.
- Initialising the landmark estimator and wiring its callback (main.js:412-433, 567-582). This is a foreign library. Its frames enter the model as `Landmarks.Results`.
- The keyboard listener (main.js:608-617). The model exposes the two commands it calls as methods.
- `console.log` output and ISO time stamps (main.js:295-304, 589-593, 599-603). Only the alert's content (behaviour, confidence, active flag and elapsed time) and the `endExam` duration are modelled.
- `Date.now()` is a parameter `now`. `logBehavior` reads the clock a second time; the model uses the frame's reading for both.
- `Detectors.DetectHeadTilt`: `Math.atan2(y, x) * 180 / Math.PI` is a parameter of type `Atan2Degrees`, about which nothing is assumed. Only the comparison `> 15` is modelled.
- Coordinates and the logged times (`Session.ExamTime`, `Session.EndDuration`) are exact reals, not IEEE doubles, so rounding at the thresholds and in the divisions by 1000 is not modelled.
- Pose and hand sizes are fixed at 33 and 21 points by their types. This assumes the estimator only delivers whole landmark sets, so an out-of-range index (`undefined.y` in the source) cannot arise.

## Findings

| source | as written | input that shows it | evidently intended | confidence | as-written member | corrected member |
|---|---|---|---|---|---|---|
| main.js:445 | `handLandmarks.push(rightHandmarks)` names an undeclared variable, so `onResults` throws a ReferenceError before any detector or tracker update runs. | Any frame with a right hand, e.g. a pose plus only a right hand whose wrist is more than 0.1 above the left shoulder. | Push `rightHandLandmarks`, so that the hand list is the left hand and then the right hand. | high; not executed | `Landmarks.HandsAsWritten` and `Tracker.BehaviorTracker.OnResultsAsWritten`, with `Detectors.RaisedRightHandLostAsWritten` | `Landmarks.Hands` (used by `Detectors.Candidates` and `Tracker.BehaviorTracker.OnResults`) |

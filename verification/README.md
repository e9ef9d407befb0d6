# Online experiment tool — cue/response matcher and experiment state machines

This project models, in Dafny, the sequential core of an experiment tool. A participant watches a lecture and hears a
"ding" cue about once every 40 seconds. After each cue, the participant presses `F` (focused) or `N` (not focused). The
modelled parts are:

- **The cue/response matcher** (`ProbeRunner.run`). It is a pure tick function over the loop variables `clock_before`,
  `last_probe`, `added` and the accumulated output. The response queue is a FIFO `seq`. Time is in integer
  milliseconds: the source's 40/5/20/10-second constants are the `Timing` fields 40000/5000/20000/10000. Python's
  float `%` with a positive divisor floors, and so does Dafny's `%`, so the cue test is exact.
  - `ProbeReference` gives a closed-form description of the candidate the drain leaves and proves it equal to the fold.
  - `ProbeTrace` proves the loop invariant over any sequence of polls: cue spacing, at most one probe line per cue,
    response times inside the window, and no lost, duplicated or reordered responses.
- **The activity recorder's callbacks** (`ActivityRecorder`). They classify keys and log them and the mouse. Releasing a
  response key puts a `(time, answer)` item on the queue. `Pipeline` connects this to the matcher.
- **The video recorder's frame accounting** (`VideoRecorder`). It covers the resettable counter and the timestamp log,
  with the capture loop as a fold over read outcomes.
- **The experiment phase machine.** This is the `proceedFunction` decorator, the decorated steps and `proceed`. It
  includes the calibration click/dwell logic of `calibrate`.
- **`get_time`**, and the two "first free name" loops (the archive name and the output directory).

Behaviour of the code worth noting:

- The queue is drained only on ticks more than 10 s after the last cue, not on every tick (`ProbeRunner.TickDrain`).
- After two conflicting answers clear the candidate, a later in-window answer becomes a fresh candidate and is written.
  So `y, n, n` in one window records `n`. See `ProbeReference.FreshAfterConflict` and
  `ProbeScenarios.AnswerAfterConflictIsWritten`.
- The window closes strictly after 10 s. A tick exactly 10 s after the cue does nothing (`ProbeScenarios.NoDrainAtWindowEnd`).
- A failed camera read neither counts nor ends the capture loop (`Video.Step`). Only the stop signal ends it.
- The probe file is rewritten with the whole output only when a probe line is added. Cue lines after the last probe line
  therefore never reach the file. The `saved` field models this, and it is always a prefix of the output (`ProbeTrace.RunFromStart`).
- `lecture_instruction` is commented "Next: DEMO_VIDEO", but it sets `WAITING`, as modelled.
- `finishVideo` always raises. It calls `terminate` on `self.updater`, which is never set from `None`. Its body is
  modelled as failing with `UnsetAttribute` (`PhaseProperties.RunOutcome`). No code calls it, and `MAIN_VIDEO` is never
  entered.

## Model

| member | source | states |
|---|---|---|
| ProbeRunner.Tick | main.py:59-85 | the output only grows; the queue is either left alone or emptied, and emptied only more than a window after the last cue; `added` goes back to false only on a tick where a cue fires; the probe file is either untouched or rewritten with the whole output |
| ProbeRunner.TickCue | main.py:62-69 | a cue line is written exactly when `now % 40 < 5` and more than 20 s have passed since the last cue; firing sets the cue time to `now`, clears the candidate, resets `added`, appends one `now,sound` line and does not drain |
| ProbeRunner.TickDrain | main.py:71-85 | without a cue, the queue is drained exactly when more than 10 s have passed since the last cue, and the cue time is kept; at most one line is added, exactly when `added` was false and a candidate survives; that line is `cue,response time,probe,answer` of the candidate, after which `added` holds and the file holds the whole output; otherwise output, `added` and file are unchanged |
| ProbeRunner.Match | main.py:75-79 | one drained event: outside the window the candidate stays; inside, the candidate becomes none exactly when one exists with a different answer, and otherwise becomes the event |
| ProbeRunner.Drain | main.py:73-79 | the `while not queue.empty()` loop as a left fold of `Match` over the queue, front to back; stated by `DrainSnoc`, `DrainAppend`, `DrainResult` and `DrainIsExpected` |
| ProbeRunner.DrainAppend | main.py:73-74 | draining a queue front-then-back equals draining it whole: events are consumed in FIFO order |
| ProbeRunner.DrainSnoc | main.py:73-79 | one more queued event changes the candidate by the single-event matching rule applied to the previous result |
| ProbeRunner.DrainResult | main.py:75-79 | the candidate after a drain is the old one, none, or an in-window event of the queue |
| ProbeReference.DrainIsExpected | main.py:73-79 | the drain's result equals the closed form: with no in-window event the candidate stays; otherwise take the candidate, if any, followed by the in-window events, and the longest suffix of that in which neighbouring answers differ: when its length is even the result is none, when odd it is the last in-window event |
| ProbeReference.SameAnswerKeepsLatest | main.py:75-79 | when every in-window response has the candidate's answer, the drain keeps the latest in-window response |
| ProbeReference.SameAnswerWritesLatest | main.py:71-82 | at the tick that closes the window, if every in-window response carries the candidate's answer `a` (or there is no candidate) and one arrived, the probe line records `a` with the latest in-window response time, `added` is set and the queue is emptied |
| ProbeReference.ConflictClears | main.py:76-77 | an in-window response whose answer differs from the candidate's leaves no candidate |
| ProbeReference.FreshAfterConflict | main.py:78-79 | with no candidate, the next in-window response becomes the candidate |
| ProbeTrace.InitialWellFormed | main.py:52-57 | the loop's starting values satisfy the invariant (no output, `added` true) |
| ProbeTrace.TickPreserves | main.py:59-85 | every tick keeps the invariant: probe lines follow their cue with a response time in its window, cue lines are more than 20 s apart, the candidate is in the current window, and the saved file is a prefix of the output |
| ProbeTrace.RunPreserves | main.py:59-85 | the invariant holds after any sequence of polls with any arrivals |
| ProbeTrace.RunPolls | main.py:59-85 | the `while True` loop of `run` over a sequence of polls, each adding its arrivals to the queue before the tick; stated by `RunPreserves`, `RunConservesResponses` and `RunFromStart` |
| ProbeTrace.RunConservesResponses | main.py:72-74 | over any run, the responses consumed by drains followed by those still queued are exactly the enqueued responses in order |
| ProbeTrace.RunFromStart | main.py:62-82 | from the start of `run`: cue lines more than 20 s apart; each probe line directly follows the cue it names, with response time in `[cue, cue+10 s)`, so at most one per cue; the saved file is a prefix of the output |
| ProbeScenarios.ConflictingAnswersWriteNothing | main.py:62-82 | cue at 1000 s, "y" at 1003 s, "n" at 1004 s: the tick after the window adds no probe line |
| ProbeScenarios.RepeatedAnswerKeepsLatest | main.py:62-82 | cue at 2000 s, "n" at 2002 s and 2008 s: the probe line is `2000,2008,probe,n` |
| ProbeScenarios.AnswerAfterConflictIsWritten | main.py:75-82 | "y", "n", "n" in one window: the last "n" is written |
| ProbeScenarios.NoDrainAtWindowEnd | main.py:72 | a tick exactly 10 s after the cue leaves state and queue unchanged |
| CalibrationClicks.Click | main.py:871-886 | with skipping on, calibration ends with the point past the last one and no reset; otherwise a first click resets the frame counter and keeps the point with one click, a later click with fewer than 15 frames keeps the point and counts one more click, and one with at least 15 frames advances the point and resets the clicks; calibration ends exactly when the point reaches the number of points |
| CalibrationClicks.DwellingSession | main.py:876-883 | a participant who always dwells 15 frames is at point `n / 2` after `n` clicks |
| CalibrationClicks.DwellingEnds | main.py:876-886 | such a participant ends calibration over `p` points on click `2p` and not before |
| CalibrationClicks.Session | main.py:867-886 | a series of calibration clicks, skipping off: over any series the point never decreases and grows by at most one per click |
| Phases.After | main.py:676-955 | every decorated step's after-state lies strictly further along the experiment than its before-states |
| Phases.Run | main.py:96-104 | the `proceedFunction` wrapper: check the before-set, run the body, then set the after-state and call `proceed`; its outcomes are stated by `RunFailure` and `RunOutcome` |
| Phases.Proceed | main.py:646-674 | `proceed`'s dispatch from each phase to its step, nothing for `SET_PARAMETERS` with an empty id; stated by `ProceedSucceeds` and `ProceedIdle` |
| Phases.Body | main.py:676-960 | the step bodies' effect on the phase and calibration state: `calibrate` (867-890), `lecture_instruction` and `waiting_function` setting the phase (896-904), `finishVideo` raising (955-960), the rest without effect on the modelled state |
| PhaseProperties.RunFailure | main.py:96-104 | a decorated step raises exactly when invoked outside its before-set (error naming step and phase, before the body runs) or when it is `finishVideo`, whose body raises |
| PhaseProperties.RunOutcome | main.py:96-104 | a step started in its before-set succeeds unless it is `finishVideo`; a successful step never moves the phase back and ends at or beyond its after-state |
| PhaseProperties.ProceedSucceeds | main.py:646-674 | `proceed` never makes a decorated step raise and never moves the phase back |
| PhaseProperties.BodyOutcome | main.py:867-960 | the step bodies, including `calibrate` calling `end_calibrate`, succeed and never move the phase back; only `finishVideo`'s body raises |
| PhaseProperties.ProceedIdle | main.py:646-674 | `proceed` changes nothing exactly in the phases that wait for the participant (camera, calibration instruction, videos, finish, start, error, and parameters with an empty id) |
| PhaseProperties.AfterStateReached | main.py:99-103 | a step other than `finishVideo` with an after-state whose `proceed` is idle leaves exactly that after-state |
| PhaseProperties.EmptyUserIdWaits | main.py:656-658 | `proceed` in `SET_PARAMETERS` with an empty user id changes nothing |
| PhaseProperties.EndCalibrateToWaiting | main.py:892-899 | ending calibration passes through the lecture instruction and stops in `WAITING` |
| PhaseProperties.CalibrateClick | main.py:867-890 | a calibration click with skipping off: the first click on a point resets the frame counter; the point advances only after 15 frames; the phase becomes `WAITING` exactly when the last point is passed |
| PhaseProperties.OpeningToCamera | main.py:654-741 | a named participant's first `proceed` from the distraction screen reaches the camera screen |
| PhaseProperties.CameraButton | main.py:830-853 | the camera button leads to the calibration instruction; pressing it again is rejected by the phase check |
| PhaseProperties.SkippedCalibration | main.py:852-904 | with calibration skipped, starting calibration runs to `WAITING` with the point past the last one, and the next `proceed` reaches `FINISH` |
| Clock.GetTime | main.py:25-26 | `m*60 + s == t` with `0 <= s < 60`, likewise for the total |
| Clock.GetTimeUnique | main.py:25-26 | that split is the only one with seconds in `[0, 60)` |
| Naming.BeforeParen | main.py:224 | `split("(")[0]` is a prefix without `(`, the whole string when it has none |
| Naming.ArchiveBase | main.py:220-227 | the first archive name tried: `../../../output_user_<id>` on macOS, `./output_user_<id>` elsewhere; stated by `ArchiveCandidates` |
| Naming.ArchiveCandidate | main.py:220-231 | the name tried after `k` taken ones: the base, then the part before the first `(` with `(k)` appended; stated by `ArchiveCandidates`, `ArchiveCandidateNumber` and `NextArchiveCandidate` |
| Naming.ArchiveCandidateNumber | main.py:224 | the number between the parentheses of candidate `k` is all digits and reads back as `k` |
| Naming.ArchiveCandidates | main.py:218-232 | for a user id from `[A-Za-z0-9]+` (main.py:380) the base has no `(`, the candidates are `base`, `base(1)`, …, and the part before the first `(` of each is the base |
| Naming.ArchiveCandidateInjective | main.py:224 | distinct numbered candidates have distinct `.zip` names, so the loop ends |
| Naming.ArchiveName | main.py:218-232 | returns a candidate whose `.zip` does not exist, and every earlier candidate's `.zip` exists |
| Naming.OutputCandidate | main.py:968-974 | `output`, then `output` followed by `idx`: every candidate starts with `output`, only the first is `output` itself, and the suffix of candidate `k > 0` is digits reading back as `k - 1` |
| Naming.OutputCandidateInjective | main.py:967-975 | `output`, `output0`, `output1`, … are pairwise distinct |
| Naming.OutputDirectory | main.py:967-975 | returns and creates a candidate that did not exist, and every earlier candidate existed |
| Activity.AnswerOf | utils/recorder.py:168-176 | `f`, `F`, `ㄹ` stand for "y" and `n`, `N`, `ㅜ` for "n"; no other key stands for an answer |
| Activity.OnKeyPress | utils/recorder.py:158-164 | a press never queues; it logs one press line for the six response keys and changes nothing otherwise |
| Activity.OnKeyRelease | utils/recorder.py:166-178 | releasing a response key queues exactly one `(t, answer)` with the entry time `t`, plays one click and logs one release line; any other release changes nothing |
| Activity.OnInput | utils/recorder.py:149-156 | each pointer event appends exactly one mouse line, prefixed `mouse,move`, `mouse,click` or `mouse,scroll`, and touches nothing else |
| Activity.Replay | utils/recorder.py:149-178 | the recorder after a stream of callbacks: the queue and both logs only grow, and one click sound is played per queued response |
| Activity.ReplayQueue | utils/recorder.py:166-178 | over any event stream the queue grows by exactly the stream's response-key releases, in order |
| Activity.NoReleaseNoResponse | utils/recorder.py:158-164 | a stream with no key release queues nothing |
| Activity.ResponsesAnswer | utils/recorder.py:169-176 | if only focus keys are released, every queued answer is "y" |
| Pipeline.OneAnswerReleasesAnswerCue | main.py:72-82 | after a cue, if every released response key stands for one answer `a` and one release fell in the window, the first tick after the window writes one probe line with `a` and the latest in-window release, and empties the queue |
| Video.SetFrameCount | utils/recorder.py:58-60 | the counter becomes 0 and nothing else changes |
| Video.Step | utils/recorder.py:82-89 | a successful read adds one to the counter, one timestamp and one written frame; a failed read changes nothing |
| Video.Loop | utils/recorder.py:82-89 | the capture loop over a sequence of events: the timeline and written frames only grow, and by the same amount |
| Video.Stop | utils/recorder.py:90 | after the loop, exactly one `end` line is appended; the counter and written frames are unchanged |
| Video.LoopCounts | utils/recorder.py:82-89 | without a reset, the counter grows by the number of successful reads, whose stamps are logged in order |
| Video.CountAfterReset | utils/recorder.py:58-89 | after a reset and `N` successful reads with no further reset, the counter is `N` |
| Video.LoopLog | utils/recorder.py:82-89 | resets touch only the counter; the log and written frames follow the successful reads; the counter never exceeds the frames written |
| Video.Recording | utils/recorder.py:82-94 | a whole recording's timeline is the frame stamps in order followed by exactly one `end` line, with nothing after it |
| Decimal.ValueShow | main.py:224 | reading back the decimal rendering of `%d` gives the number |

## Left out

- Qt widgets, layouts, dialogs and `paintEvent`; VLC playback and volume: these are GUI and foreign libraries.
- Camera selection, the face-detection preview thread, OpenCV capture and writing, and dlib: these are devices and
  foreign calls. Only the counter and timeline accounting of the capture loop is kept, as a fold.
- The `multiprocessing.Event` handshakes of `execute`/`finish`, thread start/join, the shutdown order of `close` and the
  signal handlers: these are concurrency and OS signals. The queue is a plain `seq`. Items put on it while a drain runs
  are modelled as arriving before the next tick.
- `sound.play`: the cue's sound is represented by its log line, and the key click by the `sounds` counter.
- File I/O: log files are sequences of entries, the probe file is the `saved` field, and `shutil.make_archive` and the
  stdout/stderr redirection are not modelled.
- Float `%f` timestamps. Times are integer milliseconds, and probe and timeline lines are datatypes, not text.
- `initialize`'s DPI and millimetre arithmetic, the calibration point coordinates and `getScreenSize`: these are
  floating point and platform APIs. Only the number of points (17) is kept.
- The step bodies' UI effects. Also `set_camera`'s no-camera exit, and the guard of the camera button's wrapper (face
  found or camera skipped): the model invokes `camera_finished` directly.
- The main log written by `log`.
- `getFrameCount` is the `count` field. `calibrate` receives the counter's value as an input.
- Clock.GetTime: takes integers only, while the source would also accept floats.
- Video.Step: the counter is an unbounded integer. The source's counter is a shared 32-bit C `int`, which would wrap after
  2^31 successful reads (about 2.3 years of capture at 30 frames per second).
- Phases.PhaseError: `IllegalPhase` stands for both exceptions the decorator's phase check can raise. For a list-valued
  before-set (`start_video`) it is an `AssertionError`. For a single phase, `self._state in state_before` raises a
  `TypeError`, since an enum member is not a container.
- Activity.AnswerOf: compares key codes by character only, and ignores virtual-key codes and dead keys. `str(key)` of a
  character key is modelled as the quoted character. The keyboard library is not part of this model.

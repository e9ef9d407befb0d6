/** The callbacks of `ActivityRecorder`: every pointer event and the
    designated key events are logged, and releasing a response key puts a
    `(time, answer)` item on the matcher's queue. */
module Activity {
  import opened Wrappers
  import opened ProbeRunner
  import Decimal

  /** A key as the listener reports it: a `KeyCode` carrying a character, a
      `KeyCode` with only a virtual-key code, or a special `Key` (not a `KeyCode`). */
  datatype Key = CharKey(c: char) | VirtualKey(vk: int) | SpecialKey(name: string)

  /** The "focused" keys: `f`, `F` and the Hangul letter on the same key. */
  const FocusChars: set<char> := {'f', 'F', '\U{3139}'}

  /** The "not focused" keys: `n`, `N` and the Hangul letter on the same key. */
  const NotFocusChars: set<char> := {'n', 'N', '\U{315C}'}

  /** One `time,text` line of a log file. */
  datatype Entry = Entry(t: int, text: string)

  /** The two log files, the shared queue and the number of click sounds played. */
  datatype Recorder = Recorder(keyLog: seq<Entry>, mouseLog: seq<Entry>, queue: seq<Response>, sounds: nat)

  const Fresh: Recorder := Recorder([], [], [], 0)

  /** The answer a key stands for, if it is one of the six response keys. */
  function AnswerOf(key: Key): (a: Option<Label>)
    ensures a == Some(Focused) <==> key.CharKey? && key.c in FocusChars
    ensures a == Some(NotFocused) <==> key.CharKey? && key.c in NotFocusChars
  {
    if key.CharKey? && key.c in FocusChars then Some(Focused)
    else if key.CharKey? && key.c in NotFocusChars then Some(NotFocused)
    else None
  }

  /** `str(key)` of a character key code: the character's Python `repr`. */
  function KeyText(c: char): string {
    "'" + [c] + "'"
  }

  function KeyLine(t: int, action: string, c: char): Entry {
    Entry(t, "key," + action + "," + KeyText(c))
  }

  /** `onKeyPress`: a response key is logged, and nothing is queued. */
  function OnKeyPress(r: Recorder, key: Key, logTime: int): (r': Recorder)
    ensures r'.queue == r.queue && r'.mouseLog == r.mouseLog && r'.sounds == r.sounds
    ensures AnswerOf(key).Some? ==> r'.keyLog == r.keyLog + [KeyLine(logTime, "press", key.c)]
    ensures AnswerOf(key).None? ==> r' == r
  {
    if AnswerOf(key).Some? then r.(keyLog := r.keyLog + [KeyLine(logTime, "press", key.c)]) else r
  }

  /** `onKeyRelease`: the time `t` is read on entry; a response key puts
      exactly one `(t, answer)` on the queue, plays the click and is logged
      (the log line reads the clock again, at `logTime`). */
  function OnKeyRelease(r: Recorder, key: Key, t: int, logTime: int): (r': Recorder)
    ensures AnswerOf(key).Some? ==>
      && r'.queue == r.queue + [Response(t, AnswerOf(key).value)]
      && r'.keyLog == r.keyLog + [KeyLine(logTime, "release", key.c)]
      && r'.sounds == r.sounds + 1
      && r'.mouseLog == r.mouseLog
    ensures AnswerOf(key).None? ==> r' == r
  {
    match AnswerOf(key)
    case Some(a) =>
      r.(queue := r.queue + [Response(t, a)],
         sounds := r.sounds + 1,
         keyLog := r.keyLog + [KeyLine(logTime, "release", key.c)])
    case None => r
  }

  function MouseMoveText(x: int, y: int): (s: string)
    ensures "mouse,move," <= s
  {
    "mouse,move," + (Decimal.ShowInt(x) + "," + Decimal.ShowInt(y))
  }

  /** `%d` of a boolean. */
  function Flag(b: bool): string {
    if b then "1" else "0"
  }

  function MouseClickText(x: int, y: int, button: string, pressed: bool): (s: string)
    ensures "mouse,click," <= s
  {
    "mouse,click," + (button + "," + Flag(pressed) + "," + Decimal.ShowInt(x) + "," + Decimal.ShowInt(y))
  }

  function MouseScrollText(x: int, y: int, dx: int, dy: int): (s: string)
    ensures "mouse,scroll," <= s
  {
    "mouse,scroll," + (Decimal.ShowInt(x) + "," + Decimal.ShowInt(y) + "," + Decimal.ShowInt(dx) + "," + Decimal.ShowInt(dy))
  }

  /** A raw input event with the clock readings its callback makes. */
  datatype Input =
    | Press(key: Key, logTime: int)
    | Release(key: Key, t: int, logTime: int)
    | Move(x: int, y: int, logTime: int)
    | Click(x: int, y: int, button: string, pressed: bool, logTime: int)
    | Scroll(x: int, y: int, dx: int, dy: int, logTime: int)

  /** Dispatches an event to its callback. */
  function OnInput(r: Recorder, e: Input): (r': Recorder)
    ensures e.Move? || e.Click? || e.Scroll? ==>
      && r'.keyLog == r.keyLog && r'.queue == r.queue && r'.sounds == r.sounds
      && |r'.mouseLog| == |r.mouseLog| + 1 && r'.mouseLog[..|r.mouseLog|] == r.mouseLog
      && r'.mouseLog[|r.mouseLog|].t == e.logTime
    ensures e.Move? ==> "mouse,move," <= r'.mouseLog[|r.mouseLog|].text
    ensures e.Click? ==> "mouse,click," <= r'.mouseLog[|r.mouseLog|].text
    ensures e.Scroll? ==> "mouse,scroll," <= r'.mouseLog[|r.mouseLog|].text
  {
    match e
    case Press(key, logTime) => OnKeyPress(r, key, logTime)
    case Release(key, t, logTime) => OnKeyRelease(r, key, t, logTime)
    case Move(x, y, logTime) => r.(mouseLog := r.mouseLog + [Entry(logTime, MouseMoveText(x, y))])
    case Click(x, y, button, pressed, logTime) =>
      r.(mouseLog := r.mouseLog + [Entry(logTime, MouseClickText(x, y, button, pressed))])
    case Scroll(x, y, dx, dy, logTime) =>
      r.(mouseLog := r.mouseLog + [Entry(logTime, MouseScrollText(x, y, dx, dy))])
  }

  /** The recorder after a stream of events. */
  function Replay(r: Recorder, events: seq<Input>): (r': Recorder)
    ensures r.queue <= r'.queue && r.keyLog <= r'.keyLog && r.mouseLog <= r'.mouseLog
    ensures r'.sounds - r.sounds == |r'.queue| - |r.queue|
    decreases |events|
  {
    if events == [] then r else Replay(OnInput(r, events[0]), events[1..])
  }

  /** The responses a stream carries: the releases of response keys, in order. */
  function Responses(events: seq<Input>): (q: seq<Response>)
    ensures |q| <= |events|
    decreases |events|
  {
    if events == [] then []
    else
      var e := events[0];
      (if e.Release? && AnswerOf(e.key).Some? then [Response(e.t, AnswerOf(e.key).value)] else [])
      + Responses(events[1..])
  }

  /** Replaying a stream appends exactly its responses to the queue, in
      order: nothing else is ever queued. */
  lemma {:induction false} ReplayQueue(r: Recorder, events: seq<Input>)
    ensures Replay(r, events).queue == r.queue + Responses(events)
    decreases |events|
  {
    if events != [] {
      ReplayQueue(OnInput(r, events[0]), events[1..]);
      var e := events[0];
      if e.Release? && AnswerOf(e.key).Some? {
        assert OnInput(r, e).queue == r.queue + [Response(e.t, AnswerOf(e.key).value)];
      } else {
        assert OnInput(r, e).queue == r.queue;
      }
    }
  }

  /** A stream of key presses and pointer events queues nothing. */
  lemma NoReleaseNoResponse(r: Recorder, events: seq<Input>)
    requires forall i :: 0 <= i < |events| ==> !events[i].Release?
    ensures Replay(r, events).queue == r.queue
  {
    ReplayQueue(r, events);
    NoReleaseResponses(events);
  }

  lemma {:induction false} NoReleaseResponses(events: seq<Input>)
    requires forall i :: 0 <= i < |events| ==> !events[i].Release?
    ensures Responses(events) == []
    decreases |events|
  {
    if events != [] {
      NoReleaseResponses(events[1..]);
    }
  }

  /** When every released response key stands for the answer `a`, every
      queued answer is `a`. */
  lemma {:induction false} ResponsesAnswer(events: seq<Input>, a: Label)
    requires forall i :: 0 <= i < |events| && events[i].Release? && AnswerOf(events[i].key).Some? ==>
               AnswerOf(events[i].key) == Some(a)
    ensures forall i :: 0 <= i < |Responses(events)| ==> Responses(events)[i].answer == a
    decreases |events|
  {
    if events != [] {
      ResponsesAnswer(events[1..], a);
    }
  }
}

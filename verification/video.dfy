/** The frame accounting of `VideoRecorder`: the shared frame counter, the
    timestamp log written beside the video, and the frames written. */
module Video {

  /** A line of `video_timeline.txt`: a frame's capture time, or the final `time,end`. */
  datatype Stamp = Frame(t: int) | End(t: int)

  /** The counter, the timestamp log and the number of frames written to the video file. */
  datatype Capture = Capture(count: int, timeline: seq<Stamp>, written: nat)

  const Opened: Capture := Capture(0, [], 0)

  /** What happens between two checks of the loop condition: a camera read
      (`ret`, whether the frame is not `None`, and the clock reading), or the
      calibration step calling `setFrameCount`. */
  datatype Event = Read(ret: bool, hasFrame: bool, t: int) | Reset

  predicate Succeeds(e: Event) {
    e.Read? && e.ret && e.hasFrame
  }

  /** `setFrameCount`: the counter goes back to zero. */
  function SetFrameCount(c: Capture): (c': Capture)
    ensures c'.count == 0 && c'.timeline == c.timeline && c'.written == c.written
  {
    c.(count := 0)
  }

  /** One event of the capture loop. A failed read changes nothing and does
      not leave the loop. */
  function Step(c: Capture, e: Event): (c': Capture)
    ensures Succeeds(e) ==> c' == Capture(c.count + 1, c.timeline + [Frame(e.t)], c.written + 1)
    ensures e.Read? && !Succeeds(e) ==> c' == c
  {
    match e
    case Reset => SetFrameCount(c)
    case Read(ret, hasFrame, t) =>
      if ret && hasFrame then Capture(c.count + 1, c.timeline + [Frame(t)], c.written + 1) else c
  }

  function Loop(c: Capture, events: seq<Event>): (r: Capture)
    ensures c.timeline <= r.timeline && c.written <= r.written
    ensures |r.timeline| - |c.timeline| == r.written - c.written
    decreases |events|
  {
    if events == [] then c else Loop(Step(c, events[0]), events[1..])
  }

  /** After the loop: the `time,end` line. */
  function Stop(c: Capture, endTime: int): (r: Capture)
    ensures r.count == c.count && r.written == c.written
    ensures |r.timeline| == |c.timeline| + 1 && r.timeline[..|c.timeline|] == c.timeline
    ensures r.timeline[|c.timeline|] == End(endTime)
  {
    c.(timeline := c.timeline + [End(endTime)])
  }

  /** Number of successful reads in `events`. */
  function Successes(events: seq<Event>): (n: nat)
    ensures n <= |events|
    decreases |events|
  {
    if events == [] then 0 else (if Succeeds(events[0]) then 1 else 0) + Successes(events[1..])
  }

  /** The timestamps of the successful reads, in order. */
  function FrameTimes(events: seq<Event>): (s: seq<Stamp>)
    ensures |s| == Successes(events)
    ensures forall i :: 0 <= i < |s| ==> s[i].Frame?
    decreases |events|
  {
    if events == [] then []
    else (if Succeeds(events[0]) then [Frame(events[0].t)] else []) + FrameTimes(events[1..])
  }

  predicate NoReset(events: seq<Event>) {
    forall i :: 0 <= i < |events| ==> events[i].Read?
  }

  /** Without a reset, the counter grows by exactly the number of successful
      reads, one timestamp is logged and one frame written per success. */
  lemma {:induction false} LoopCounts(c: Capture, events: seq<Event>)
    requires NoReset(events)
    ensures Loop(c, events) == Capture(c.count + Successes(events), c.timeline + FrameTimes(events), c.written + Successes(events))
    decreases |events|
  {
    if events != [] {
      assert NoReset(events[1..]) by {
        forall i | 0 <= i < |events| - 1 ensures events[1..][i].Read? {
          assert events[1..][i] == events[i + 1];
        }
      }
      LoopCounts(Step(c, events[0]), events[1..]);
    }
  }

  /** After a reset and `N` successful reads with no further reset, the
      counter reads `N`. */
  lemma CountAfterReset(c: Capture, events: seq<Event>)
    requires NoReset(events)
    ensures Loop(c, [Reset] + events).count == Successes(events)
  {
    assert ([Reset] + events)[1..] == events;
    LoopCounts(SetFrameCount(c), events);
  }

  /** Resets only touch the counter: the log and the written frames always
      follow the successful reads, and the counter never exceeds the frames
      written. */
  lemma {:induction false} LoopLog(c: Capture, events: seq<Event>)
    requires 0 <= c.count <= c.written
    ensures var c' := Loop(c, events);
      && c'.timeline == c.timeline + FrameTimes(events)
      && c'.written == c.written + Successes(events)
      && 0 <= c'.count <= c'.written
    decreases |events|
  {
    if events != [] {
      LoopLog(Step(c, events[0]), events[1..]);
    }
  }

  /** A whole recording: the timeline holds one stamp per successful read,
      in order, then exactly one `end` line, and nothing after it. */
  lemma Recording(events: seq<Event>, endTime: int)
    ensures var c := Stop(Loop(Opened, events), endTime);
      && c.timeline == FrameTimes(events) + [End(endTime)]
      && (forall i :: 0 <= i < |c.timeline| - 1 ==> c.timeline[i].Frame?)
      && c.written == Successes(events)
  {
    LoopLog(Opened, events);
    var f := FrameTimes(events);
    assert Opened.timeline + f == f;
    var tl := f + [End(endTime)];
    assert forall i :: 0 <= i < |tl| - 1 ==> tl[i] == f[i];
  }
}

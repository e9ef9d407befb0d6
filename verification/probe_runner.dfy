/** The cue/response matcher of `ProbeRunner.run` as a pure tick function.

    Time is an integer number of milliseconds; the source's float seconds
    `40`, `5`, `20` and `10` are the fields of `SourceTiming`. */
module ProbeRunner {
  import opened Wrappers

  /** Cycle length, cue slot at the start of each cycle, refractory period
      between cues and response window after a cue. */
  datatype Durations = Durations(period: int, slot: int, refractory: int, window: int)

  type Timing = k: Durations | k.period > 0 && k.slot > 0 && k.refractory >= 0 && k.window > 0
    witness Durations(40000, 5000, 20000, 10000)

  const SourceTiming: Timing := Durations(40000, 5000, 20000, 10000)

  /** `'y'` (the participant was focused) and `'n'` (not focused). */
  datatype Label = Focused | NotFocused

  /** One `(time, label)` item of the response queue. */
  datatype Response = Response(t: int, answer: Label)

  /** A line of the probe log: `cueTime,sound` or `cueTime,responseTime,probe,label`. */
  datatype Line = CueLine(t: int) | ProbeLine(cue: int, resp: int, answer: Label)

  /** The loop variables of `run`; `saved` is what the probe file holds. */
  datatype State = State(clockBefore: int, lastProbe: Option<Response>, added: bool,
                         output: seq<Line>, saved: seq<Line>)

  /** The values the loop variables have when `run` starts. */
  const Initial: State := State(0, None, true, [], [])

  /** The state after one tick, and what is left in the queue. */
  datatype Step = Step(state: State, queue: seq<Response>)

  predicate CueDue(k: Timing, s: State, now: int) {
    now % k.period < k.slot && now - s.clockBefore > k.refractory
  }

  predicate InWindow(k: Timing, cue: int, e: Response) {
    0 <= e.t - cue < k.window
  }

  /** How one drained event changes the candidate response. */
  function Match(k: Timing, cue: int, cand: Option<Response>, e: Response): (r: Option<Response>)
    ensures !InWindow(k, cue, e) ==> r == cand
    ensures InWindow(k, cue, e) ==> (r == None <==> cand.Some? && cand.value.answer != e.answer)
    ensures InWindow(k, cue, e) && r.Some? ==> r == Some(e)
  {
    if !InWindow(k, cue, e) then cand
    else if cand.Some? && cand.value.answer != e.answer then None
    else Some(e)
  }

  /** The candidate after draining `events` front to back. */
  function Drain(k: Timing, cue: int, cand: Option<Response>, events: seq<Response>): Option<Response>
    decreases |events|
  {
    if events == [] then cand else Drain(k, cue, Match(k, cue, cand, events[0]), events[1..])
  }

  /** One iteration of the `while True` loop at clock reading `now`. */
  function Tick(k: Timing, s: State, now: int, queue: seq<Response>): (r: Step)
    ensures s.output <= r.state.output
    ensures r.queue == queue || r.queue == []
    ensures r.queue != queue ==> now - r.state.clockBefore > k.window
    ensures s.added && !r.state.added ==> CueDue(k, s, now)
    ensures r.state.saved == s.saved || r.state.saved == r.state.output
  {
    var s1 :=
      if CueDue(k, s, now)
      then s.(clockBefore := now, lastProbe := None, added := false, output := s.output + [CueLine(now)])
      else s;
    if now - s1.clockBefore > k.window then
      var cand := Drain(k, s1.clockBefore, s1.lastProbe, queue);
      if cand.Some? && !s1.added then
        var out := s1.output + [ProbeLine(s1.clockBefore, cand.value.t, cand.value.answer)];
        Step(s1.(lastProbe := cand, added := true, output := out, saved := out), [])
      else
        Step(s1.(lastProbe := cand), [])
    else
      Step(s1, queue)
  }

  /** A cue line is written on a tick exactly when the cue condition holds,
      and it resets the cue time, the candidate and `added`, leaving the queue alone. */
  lemma TickCue(k: Timing, s: State, now: int, queue: seq<Response>)
    ensures var r := Tick(k, s, now, queue);
      (|r.state.output| > |s.output| && r.state.output[|s.output|] == CueLine(now)) <==> CueDue(k, s, now)
    ensures CueDue(k, s, now) ==>
      Tick(k, s, now, queue) == Step(s.(clockBefore := now, lastProbe := None, added := false,
                                        output := s.output + [CueLine(now)]), queue)
  {
  }

  /** Without a cue, the queue is emptied exactly when more than a window has
      passed since the last cue, and at most one probe line is appended: the
      one for the surviving candidate, after which `added` holds and the
      probe file holds the whole output. */
  lemma TickDrain(k: Timing, s: State, now: int, queue: seq<Response>)
    requires !CueDue(k, s, now)
    ensures var r := Tick(k, s, now, queue);
      && r.state.clockBefore == s.clockBefore
      && (now - s.clockBefore > k.window ==> r.queue == [] && r.state.lastProbe == Drain(k, s.clockBefore, s.lastProbe, queue))
      && (now - s.clockBefore <= k.window ==> r == Step(s, queue))
      && |r.state.output| <= |s.output| + 1
      && (|r.state.output| == |s.output| + 1 <==>
            now - s.clockBefore > k.window && !s.added && r.state.lastProbe.Some?)
      && (|r.state.output| == |s.output| + 1 ==>
            && r.state.lastProbe.Some?
            && r.state.output == s.output + [ProbeLine(s.clockBefore, r.state.lastProbe.value.t, r.state.lastProbe.value.answer)]
            && r.state.added
            && r.state.saved == r.state.output)
      && (|r.state.output| == |s.output| ==> r.state.output == s.output && r.state.added == s.added && r.state.saved == s.saved)
  {
  }

  // ---------------------------------------------------------------------------
  // The drain as a left fold

  /** Draining `events` and then `e` is draining `e` after the rest. */
  lemma {:induction false} DrainSnoc(k: Timing, cue: int, cand: Option<Response>, events: seq<Response>, e: Response)
    ensures Drain(k, cue, cand, events + [e]) == Match(k, cue, Drain(k, cue, cand, events), e)
    decreases |events|
  {
    if events == [] {
      assert events + [e] == [e];
      assert [e][1..] == [];
    } else {
      assert (events + [e])[1..] == events[1..] + [e];
      DrainSnoc(k, cue, Match(k, cue, cand, events[0]), events[1..], e);
    }
  }

  /** Draining a queue in two parts, front part first, is draining it whole:
      events are consumed in FIFO order. */
  lemma {:induction false} DrainAppend(k: Timing, cue: int, cand: Option<Response>, front: seq<Response>, back: seq<Response>)
    ensures Drain(k, cue, cand, front + back) == Drain(k, cue, Drain(k, cue, cand, front), back)
    decreases |back|
  {
    if back == [] {
      assert front + back == front;
    } else {
      var init := back[..|back| - 1];
      var e := back[|back| - 1];
      assert back == init + [e];
      assert front + back == (front + init) + [e];
      DrainSnoc(k, cue, cand, front + init, e);
      DrainAppend(k, cue, cand, front, init);
      DrainSnoc(k, cue, Drain(k, cue, cand, front), init, e);
    }
  }

  /** The candidate after a drain is the old one, nothing, or an event of the
      queue inside the window. */
  lemma {:induction false} DrainResult(k: Timing, cue: int, cand: Option<Response>, events: seq<Response>)
    ensures var r := Drain(k, cue, cand, events);
      r == cand || r == None || (r.Some? && r.value in events && InWindow(k, cue, r.value))
    decreases |events|
  {
    if events != [] {
      var c1 := Match(k, cue, cand, events[0]);
      DrainResult(k, cue, c1, events[1..]);
    }
  }
}

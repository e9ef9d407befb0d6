/** What the matcher's log looks like after any sequence of ticks. */
module ProbeTrace {
  import opened Wrappers
  import opened ProbeRunner

  /** A probe line sits right after the cue it answers, with a response time
      inside that cue's window. */
  predicate ProbeFollowsCue(k: Timing, out: seq<Line>, i: int)
    requires 0 <= i < |out|
  {
    && out[i].ProbeLine?
    && 0 < i
    && out[i - 1].CueLine?
    && out[i].cue == out[i - 1].t
    && out[i - 1].t <= out[i].resp < out[i - 1].t + k.window
  }

  /** Every probe line answers the cue line just before it (so a cue gets at
      most one probe line), and any two cue lines are more than the refractory
      period apart. */
  predicate LinesWellFormed(k: Timing, out: seq<Line>) {
    && (forall i :: 0 <= i < |out| && out[i].ProbeLine? ==> ProbeFollowsCue(k, out, i))
    && (forall i, j :: 0 <= i < j < |out| && out[i].CueLine? && out[j].CueLine? ==> out[j].t - out[i].t > k.refractory)
  }

  /** The loop invariant of `run`. */
  predicate WellFormed(k: Timing, s: State) {
    && LinesWellFormed(k, s.output)
    && (forall i :: 0 <= i < |s.output| && s.output[i].CueLine? ==> s.output[i].t <= s.clockBefore)
    && (!s.added ==> |s.output| > 0 && s.output[|s.output| - 1] == CueLine(s.clockBefore))
    && (s.lastProbe.Some? ==> InWindow(k, s.clockBefore, s.lastProbe.value))
    && s.saved <= s.output
  }

  lemma InitialWellFormed(k: Timing)
    ensures WellFormed(k, Initial)
  {
  }

  lemma AppendCue(k: Timing, out: seq<Line>, cb: int, now: int)
    requires LinesWellFormed(k, out)
    requires forall i :: 0 <= i < |out| && out[i].CueLine? ==> out[i].t <= cb
    requires now - cb > k.refractory
    ensures LinesWellFormed(k, out + [CueLine(now)])
  {
  }

  lemma AppendProbe(k: Timing, out: seq<Line>, cb: int, e: Response)
    requires LinesWellFormed(k, out)
    requires |out| > 0 && out[|out| - 1] == CueLine(cb)
    requires InWindow(k, cb, e)
    ensures LinesWellFormed(k, out + [ProbeLine(cb, e.t, e.answer)])
  {
  }

  /** Firing a cue keeps the invariant. */
  lemma CuePreserves(k: Timing, s: State, now: int)
    requires WellFormed(k, s) && CueDue(k, s, now)
    ensures WellFormed(k, s.(clockBefore := now, lastProbe := None, added := false,
                             output := s.output + [CueLine(now)]))
  {
    AppendCue(k, s.output, s.clockBefore, now);
  }

  /** Draining the queue, and writing the probe line it may produce, keeps the invariant. */
  lemma DrainPreserves(k: Timing, s: State, queue: seq<Response>)
    requires WellFormed(k, s)
    ensures var cand := Drain(k, s.clockBefore, s.lastProbe, queue);
      && WellFormed(k, s.(lastProbe := cand))
      && (cand.Some? && !s.added ==>
            var out := s.output + [ProbeLine(s.clockBefore, cand.value.t, cand.value.answer)];
            WellFormed(k, s.(lastProbe := cand, added := true, output := out, saved := out)))
  {
    var cand := Drain(k, s.clockBefore, s.lastProbe, queue);
    DrainResult(k, s.clockBefore, s.lastProbe, queue);
    if cand.Some? && !s.added {
      AppendProbe(k, s.output, s.clockBefore, cand.value);
    }
  }

  /** Every tick keeps the invariant. */
  lemma TickPreserves(k: Timing, s: State, now: int, queue: seq<Response>)
    requires WellFormed(k, s)
    ensures WellFormed(k, Tick(k, s, now, queue).state)
  {
    var s1 :=
      if CueDue(k, s, now)
      then s.(clockBefore := now, lastProbe := None, added := false, output := s.output + [CueLine(now)])
      else s;
    if CueDue(k, s, now) {
      CuePreserves(k, s, now);
    }
    DrainPreserves(k, s1, queue);
  }

  /** One poll of the clock, after `arrivals` were put on the queue. */
  datatype Poll = Poll(now: int, arrivals: seq<Response>)

  /** The state after a run of polls, the queue left over and every event the
      drains took off the queue, in order. */
  datatype Run = Run(state: State, queue: seq<Response>, consumed: seq<Response>)

  function Arrivals(polls: seq<Poll>): seq<Response>
    decreases |polls|
  {
    if polls == [] then [] else polls[0].arrivals + Arrivals(polls[1..])
  }

  /** Runs the loop over `polls`, starting from state `s` and queue `queue`. */
  function RunPolls(k: Timing, s: State, queue: seq<Response>, polls: seq<Poll>): Run
    decreases |polls|
  {
    if polls == [] then Run(s, queue, [])
    else
      var q := queue + polls[0].arrivals;
      var r := Tick(k, s, polls[0].now, q);
      var rest := RunPolls(k, r.state, r.queue, polls[1..]);
      Run(rest.state, rest.queue, (if r.queue == q then [] else q) + rest.consumed)
  }

  /** No response is lost, duplicated or reordered: what the drains consumed
      followed by what is still queued is exactly what was enqueued. */
  lemma {:induction false} RunConservesResponses(k: Timing, s: State, queue: seq<Response>, polls: seq<Poll>)
    ensures var r := RunPolls(k, s, queue, polls);
      r.consumed + r.queue == queue + Arrivals(polls)
    decreases |polls|
  {
    if polls != [] {
      var q := queue + polls[0].arrivals;
      var r := Tick(k, s, polls[0].now, q);
      RunConservesResponses(k, r.state, r.queue, polls[1..]);
      var rest := RunPolls(k, r.state, r.queue, polls[1..]);
      assert queue + Arrivals(polls) == q + Arrivals(polls[1..]);
      if r.queue == q {
        assert [] + rest.consumed == rest.consumed;
      } else {
        assert r.queue == [];
        assert (q + rest.consumed) + rest.queue == q + (rest.consumed + rest.queue);
      }
    }
  }

  /** The invariant holds after any run of polls, so the properties below hold
      of every log the matcher can produce. */
  lemma {:induction false} RunPreserves(k: Timing, s: State, queue: seq<Response>, polls: seq<Poll>)
    requires WellFormed(k, s)
    ensures WellFormed(k, RunPolls(k, s, queue, polls).state)
    decreases |polls|
  {
    if polls != [] {
      var q := queue + polls[0].arrivals;
      TickPreserves(k, s, polls[0].now, q);
      var r := Tick(k, s, polls[0].now, q);
      RunPreserves(k, r.state, r.queue, polls[1..]);
    }
  }

  /** From the start of `run`: cue lines are more than the refractory period
      apart, each probe line directly follows the cue it answers with a
      response time inside that cue's window, the output only grows, and the
      probe file holds a prefix of it. */
  lemma RunFromStart(k: Timing, polls: seq<Poll>)
    ensures var out := RunPolls(k, Initial, [], polls).state.output;
      && (forall i, j :: 0 <= i < j < |out| && out[i].CueLine? && out[j].CueLine? ==> out[j].t - out[i].t > k.refractory)
      && (forall i :: 0 <= i < |out| && out[i].ProbeLine? ==>
            0 < i && out[i - 1] == CueLine(out[i].cue) && out[i].cue <= out[i].resp < out[i].cue + k.window)
      && RunPolls(k, Initial, [], polls).state.saved <= out
  {
    RunPreserves(k, Initial, [], polls);
    var out := RunPolls(k, Initial, [], polls).state.output;
    forall i | 0 <= i < |out| && out[i].ProbeLine?
      ensures 0 < i && out[i - 1] == CueLine(out[i].cue) && out[i].cue <= out[i].resp < out[i].cue + k.window
    {
      assert ProbeFollowsCue(k, out, i);
    }
  }
}

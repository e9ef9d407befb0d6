/** Activity capture feeding the matcher through the shared queue. */
module Pipeline {
  import opened Wrappers
  import opened ProbeRunner
  import opened ProbeReference
  import opened Activity

  /** After a cue at `s.clockBefore`, if every response key the participant
      released stands for the same answer `a` and at least one release fell
      inside the window, the first tick after the window closes writes one
      probe line with `a` and the latest in-window release. */
  lemma OneAnswerReleasesAnswerCue(k: Timing, s: State, events: seq<Input>, now: int, a: Label)
    requires s.lastProbe == None && !s.added
    requires !CueDue(k, s, now) && now - s.clockBefore > k.window
    requires forall i :: 0 <= i < |events| && events[i].Release? && AnswerOf(events[i].key).Some? ==>
               AnswerOf(events[i].key) == Some(a)
    requires exists i :: 0 <= i < |Responses(events)| && InWindow(k, s.clockBefore, Responses(events)[i])
    ensures var q := Replay(Fresh, events).queue;
      var w := InWindowEvents(k, s.clockBefore, q);
      && |w| > 0
      && Tick(k, s, now, q).state.output == s.output + [ProbeLine(s.clockBefore, w[|w| - 1].t, a)]
      && Tick(k, s, now, q).queue == []
  {
    var q := Replay(Fresh, events).queue;
    ReplayQueue(Fresh, events);
    assert q == Responses(events);
    ResponsesAnswer(events, a);
    SameAnswerWritesLatest(k, s, now, q, a);
  }
}

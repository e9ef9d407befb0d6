/** The worked scenarios of the matcher, on the source's timing (milliseconds). */
module ProbeScenarios {
  import opened Wrappers
  import opened ProbeRunner

  const k: Timing := SourceTiming

  /** The state right after the cue at `cue` fired from the initial state. */
  function AfterCue(cue: int): State {
    Tick(k, Initial, cue, []).state
  }

  /** Cue at 1000 s, "y" at 1003 s, "n" at 1004 s: no probe line when the window closes. */
  lemma ConflictingAnswersWriteNothing()
    ensures AfterCue(1000000) == State(1000000, None, false, [CueLine(1000000)], [])
    ensures Tick(k, AfterCue(1000000), 1010001,
                 [Response(1003000, Focused), Response(1004000, NotFocused)]).state.output
         == [CueLine(1000000)]
  {
  }

  /** Cue at 2000 s, "n" at 2002 s and again at 2008 s: the probe line carries the later one. */
  lemma RepeatedAnswerKeepsLatest()
    ensures Tick(k, AfterCue(2000000), 2010001,
                 [Response(2002000, NotFocused), Response(2008000, NotFocused)]).state.output
         == [CueLine(2000000), ProbeLine(2000000, 2008000, NotFocused)]
  {
  }

  /** A third in-window answer after a conflict becomes a fresh candidate and is written. */
  lemma AnswerAfterConflictIsWritten()
    ensures Tick(k, AfterCue(1000000), 1010001,
                 [Response(1003000, Focused), Response(1004000, NotFocused), Response(1006000, NotFocused)]).state.output
         == [CueLine(1000000), ProbeLine(1000000, 1006000, NotFocused)]
  {
  }

  /** At exactly ten seconds after the cue the window has not closed: the queue is left alone. */
  lemma NoDrainAtWindowEnd()
    ensures Tick(k, AfterCue(1000000), 1010000, [Response(1003000, Focused)])
         == Step(AfterCue(1000000), [Response(1003000, Focused)])
  {
  }
}

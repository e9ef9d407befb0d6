/** A closed-form description of the candidate the matcher's drain leaves,
    proved equal to the left fold `ProbeRunner.Drain`. */
module ProbeReference {
  import opened Wrappers
  import opened ProbeRunner

  /** The events of `events` inside the response window of the cue at `cue`, in queue order. */
  function InWindowEvents(k: Timing, cue: int, events: seq<Response>): (w: seq<Response>)
    ensures |w| <= |events|
    ensures forall i :: 0 <= i < |w| ==> InWindow(k, cue, w[i]) && w[i] in events
    decreases |events|
  {
    if events == [] then []
    else if InWindow(k, cue, events[0]) then [events[0]] + InWindowEvents(k, cue, events[1..])
    else InWindowEvents(k, cue, events[1..])
  }

  /** Length of the longest suffix of `s` in which neighbouring answers differ. */
  function AlternatingTail(s: seq<Response>): (n: nat)
    requires |s| > 0
    ensures 1 <= n <= |s|
    decreases |s|
  {
    if |s| == 1 then 1
    else if s[|s| - 2].answer != s[|s| - 1].answer then AlternatingTail(s[..|s| - 1]) + 1
    else 1
  }

  /** The earlier candidate, if any, followed by the in-window events. */
  function Seeded(cand: Option<Response>, w: seq<Response>): seq<Response> {
    (if cand.Some? then [cand.value] else []) + w
  }

  /** The candidate `cand` leaves after the in-window events `w`. With no
      such event the candidate stays. Otherwise take the candidate, if any,
      followed by `w`, and the longest suffix of that in which neighbouring
      answers differ: if that suffix has even length the contradicting
      presses cancel to nothing, and if odd the result is the last event of `w`. */
  function Closed(cand: Option<Response>, w: seq<Response>): Option<Response> {
    if w == [] then cand
    else if AlternatingTail(Seeded(cand, w)) % 2 == 0 then None
    else Some(w[|w| - 1])
  }

  /** The closed form applied to the events inside the window of the cue at `cue`. */
  function Expected(k: Timing, cue: int, cand: Option<Response>, events: seq<Response>): Option<Response> {
    Closed(cand, InWindowEvents(k, cue, events))
  }

  lemma {:induction false} InWindowSnoc(k: Timing, cue: int, events: seq<Response>, e: Response)
    ensures InWindowEvents(k, cue, events + [e])
         == InWindowEvents(k, cue, events) + (if InWindow(k, cue, e) then [e] else [])
    decreases |events|
  {
    if events == [] {
      assert events + [e] == [e];
      assert [e][1..] == [];
    } else {
      assert (events + [e])[1..] == events[1..] + [e];
      InWindowSnoc(k, cue, events[1..], e);
    }
  }

  lemma {:induction false} AlternatingTailSnoc(s: seq<Response>, e: Response)
    requires |s| > 0
    ensures AlternatingTail(s + [e])
         == if s[|s| - 1].answer != e.answer then AlternatingTail(s) + 1 else 1
  {
  }

  /** The closed form takes one more event the way `Match` does. */
  lemma {:induction false} ExpectedSnoc(k: Timing, cue: int, cand: Option<Response>, events: seq<Response>, e: Response)
    ensures Expected(k, cue, cand, events + [e]) == Match(k, cue, Expected(k, cue, cand, events), e)
  {
    InWindowSnoc(k, cue, events, e);
    var w := InWindowEvents(k, cue, events);
    if InWindow(k, cue, e) {
      assert InWindowEvents(k, cue, events + [e]) == w + [e];
      ClosedSnoc(k, cue, cand, w, e);
    } else {
      assert InWindowEvents(k, cue, events + [e]) == w;
    }
  }

  /** One more in-window event changes the closed form as `Match` does. */
  lemma ClosedSnoc(k: Timing, cue: int, cand: Option<Response>, w: seq<Response>, e: Response)
    requires InWindow(k, cue, e)
    ensures Closed(cand, w + [e]) == Match(k, cue, Closed(cand, w), e)
  {
    if w == [] {
      assert w + [e] == [e];
      ClosedFirst(k, cue, cand, e);
    } else {
      ClosedLater(k, cue, cand, w, e);
    }
  }

  lemma ClosedFirst(k: Timing, cue: int, cand: Option<Response>, e: Response)
    requires InWindow(k, cue, e)
    ensures Closed(cand, [e]) == Match(k, cue, cand, e)
  {
    if cand.Some? {
      assert Seeded(cand, [e]) == [cand.value, e];
      assert [cand.value, e][..1] == [cand.value];
    } else {
      assert Seeded(cand, [e]) == [e];
    }
  }

  lemma ClosedLater(k: Timing, cue: int, cand: Option<Response>, w: seq<Response>, e: Response)
    requires InWindow(k, cue, e) && w != []
    ensures Closed(cand, w + [e]) == Match(k, cue, Closed(cand, w), e)
  {
    var s := Seeded(cand, w);
    var last := w[|w| - 1];
    assert Seeded(cand, w + [e]) == s + [e];
    assert s[|s| - 1] == last;
    assert (w + [e])[|w + [e]| - 1] == e;
    AlternatingTailSnoc(s, e);
    if last.answer != e.answer {
      assert AlternatingTail(s + [e]) == AlternatingTail(s) + 1;
    } else {
      assert AlternatingTail(s + [e]) == 1;
    }
  }

  /** The fold and the closed form agree on every queue. */
  lemma {:induction false} DrainIsExpected(k: Timing, cue: int, cand: Option<Response>, events: seq<Response>)
    ensures Drain(k, cue, cand, events) == Expected(k, cue, cand, events)
    decreases |events|
  {
    if events == [] {
      assert InWindowEvents(k, cue, events) == [];
    } else {
      var front := events[..|events| - 1];
      var e := events[|events| - 1];
      assert events == front + [e];
      DrainSnoc(k, cue, cand, front, e);
      DrainIsExpected(k, cue, cand, front);
      ExpectedSnoc(k, cue, cand, front, e);
    }
  }

  /** When every in-window response carries the same answer as the
      candidate (or there is none), the drain keeps the latest of them. */
  lemma SameAnswerKeepsLatest(k: Timing, cue: int, cand: Option<Response>, events: seq<Response>, a: Label)
    requires cand.Some? ==> cand.value.answer == a
    requires forall i :: 0 <= i < |events| && InWindow(k, cue, events[i]) ==> events[i].answer == a
    requires exists i :: 0 <= i < |events| && InWindow(k, cue, events[i])
    ensures var w := InWindowEvents(k, cue, events);
      |w| > 0 && Drain(k, cue, cand, events) == Some(w[|w| - 1])
  {
    var w := InWindowEvents(k, cue, events);
    InWindowNonEmpty(k, cue, events);
    InWindowAnswers(k, cue, events, a);
    SameAnswerTail(cand, w, a);
    DrainIsExpected(k, cue, cand, events);
  }

  /** When the last two seeded responses agree, the alternating tail is just the last one. */
  lemma SameAnswerTail(cand: Option<Response>, w: seq<Response>, a: Label)
    requires |w| > 0 && w[|w| - 1].answer == a
    requires |w| > 1 ==> w[|w| - 2].answer == a
    requires |w| == 1 && cand.Some? ==> cand.value.answer == a
    ensures AlternatingTail(Seeded(cand, w)) == 1
  {
    var s := Seeded(cand, w);
    assert s[|s| - 1] == w[|w| - 1];
    if |s| > 1 {
      if |w| > 1 {
        assert s[|s| - 2] == w[|w| - 2];
      } else {
        assert s[|s| - 2] == cand.value;
      }
    }
  }

  /** At the tick that closes the window, when every in-window response
      carries the candidate's answer `a` (or there is no candidate) and at
      least one arrived, the probe line records `a` with the latest
      in-window response time, `added` is set and the queue is emptied. */
  lemma SameAnswerWritesLatest(k: Timing, s: State, now: int, queue: seq<Response>, a: Label)
    requires !s.added && (s.lastProbe.Some? ==> s.lastProbe.value.answer == a)
    requires !CueDue(k, s, now) && now - s.clockBefore > k.window
    requires forall i :: 0 <= i < |queue| && InWindow(k, s.clockBefore, queue[i]) ==> queue[i].answer == a
    requires exists i :: 0 <= i < |queue| && InWindow(k, s.clockBefore, queue[i])
    ensures var w := InWindowEvents(k, s.clockBefore, queue);
      var r := Tick(k, s, now, queue);
      && |w| > 0
      && r.state.output == s.output + [ProbeLine(s.clockBefore, w[|w| - 1].t, a)]
      && r.state.added
      && r.queue == []
  {
    SameAnswerKeepsLatest(k, s.clockBefore, s.lastProbe, queue, a);
    InWindowAnswers(k, s.clockBefore, queue, a);
  }

  /** The filter keeps only events that share an answer every in-window event has. */
  lemma {:induction false} InWindowAnswers(k: Timing, cue: int, events: seq<Response>, a: Label)
    requires forall i :: 0 <= i < |events| && InWindow(k, cue, events[i]) ==> events[i].answer == a
    ensures var w := InWindowEvents(k, cue, events);
      forall i :: 0 <= i < |w| ==> w[i].answer == a
    decreases |events|
  {
    if events != [] {
      assert forall i :: 0 <= i < |events[1..]| ==> events[1..][i] == events[i + 1];
      InWindowAnswers(k, cue, events[1..], a);
    }
  }

  lemma {:induction false} InWindowNonEmpty(k: Timing, cue: int, events: seq<Response>)
    requires exists i :: 0 <= i < |events| && InWindow(k, cue, events[i])
    ensures InWindowEvents(k, cue, events) != []
    decreases |events|
  {
    if !InWindow(k, cue, events[0]) {
      var i :| 0 <= i < |events| && InWindow(k, cue, events[i]);
      assert events[1..][i - 1] == events[i];
      InWindowNonEmpty(k, cue, events[1..]);
    }
  }

  /** An in-window response whose answer contradicts the candidate clears it. */
  lemma ConflictClears(k: Timing, cue: int, cand: Option<Response>, events: seq<Response>, x: Response)
    requires InWindow(k, cue, x)
    requires Drain(k, cue, cand, events).Some?
    requires Drain(k, cue, cand, events).value.answer != x.answer
    ensures Drain(k, cue, cand, events + [x]) == None
  {
    DrainSnoc(k, cue, cand, events, x);
  }

  /** With no candidate left, the next in-window response becomes a fresh one. */
  lemma FreshAfterConflict(k: Timing, cue: int, cand: Option<Response>, events: seq<Response>, x: Response)
    requires InWindow(k, cue, x)
    requires Drain(k, cue, cand, events) == None
    ensures Drain(k, cue, cand, events + [x]) == Some(x)
  {
    DrainSnoc(k, cue, cand, events, x);
  }
}

/** The click/dwell logic of `calibrate`: the participant clicks each target
    point, and the point advances only on a click made after the camera has
    delivered enough frames since the first click on that point. */
module CalibrationClicks {

  /** Frames that must have been captured since the first click on a point. */
  const DwellFrames: nat := 15

  /** Number of target points once the experiment is initialised. */
  const SourcePoints: nat := 17

  /** Index of the current target point and clicks made on it. */
  datatype Calib = Calib(pos: int, clicks: nat)

  const Start: Calib := Calib(0, 0)

  /** The new counters, whether the frame counter was reset, and whether
      calibration is over. */
  datatype Outcome = Outcome(calib: Calib, resetFrames: bool, ended: bool)

  /** One call of `calibrate`, with `frames` the frame counter's value. */
  function Click(c: Calib, frames: nat, skip: bool, points: nat): (r: Outcome)
    ensures r.ended <==> r.calib.pos >= points
    ensures skip ==> r.ended && !r.resetFrames && r.calib == Calib(points + 1, c.clicks)
    ensures !skip && c.clicks == 0 ==> r.resetFrames && r.calib == Calib(c.pos, 1)
    ensures !skip ==> c.pos <= r.calib.pos <= c.pos + 1
    ensures !skip ==> (r.calib.pos == c.pos + 1 <==> c.clicks != 0 && frames >= DwellFrames)
    ensures !skip && r.calib.pos == c.pos + 1 ==> r.calib.clicks == 0
    ensures !skip && c.clicks != 0 && frames < DwellFrames ==> r.calib == Calib(c.pos, c.clicks + 1)
    ensures r.resetFrames <==> !skip && c.clicks == 0
  {
    if skip then Outcome(c.(pos := points + 1), false, true)
    else
      var reset := c.clicks == 0;
      var c1 :=
        if c.clicks == 0 then c.(clicks := c.clicks + 1)
        else if frames < DwellFrames then c.(clicks := c.clicks + 1)
        else Calib(c.pos + 1, 0);
      Outcome(c1, reset, c1.pos >= points)
  }

  /** The counters after a series of clicks (skipping off), `frames[i]` being
      the counter's value at the i-th click. */
  function Session(c: Calib, frames: seq<nat>, points: nat): (r: Calib)
    ensures c.pos <= r.pos <= c.pos + |frames|
    decreases |frames|
  {
    if frames == [] then c
    else Click(Session(c, frames[..|frames| - 1], points), frames[|frames| - 1], false, points).calib
  }

  /** Clicks with at least `DwellFrames` frames each, from the start. */
  function Dwelling(n: nat): (fs: seq<nat>)
    ensures |fs| == n
    ensures forall i :: 0 <= i < n ==> fs[i] == DwellFrames
  {
    seq(n, _ => DwellFrames)
  }

  /** A participant who always dwells long enough advances one point every
      second click: after `n` clicks the point index is `n / 2`. */
  lemma {:induction false} DwellingSession(n: nat, points: nat)
    ensures Session(Start, Dwelling(n), points) == Calib(n / 2, n % 2)
  {
    if n > 0 {
      assert Dwelling(n)[..n - 1] == Dwelling(n - 1);
      DwellingSession(n - 1, points);
    }
  }

  /** So calibration over `points` targets ends on click `2 * points` and not before. */
  lemma DwellingEnds(n: nat, points: nat)
    requires n > 0
    ensures var before := Session(Start, Dwelling(n - 1), points);
      Click(before, DwellFrames, false, points).ended <==> n >= 2 * points
  {
    DwellingSession(n - 1, points);
  }
}

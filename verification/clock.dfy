/** `get_time`: splits a current and a total time in seconds into minutes
    and seconds with Python's floor `//` and `%` (which agree with Dafny's
    Euclidean operators for the positive divisor 60). */
module Clock {

  datatype Split = Split(minutes: int, seconds: int, totalMinutes: int, totalSeconds: int)

  function GetTime(now: int, total: int): (r: Split)
    ensures r.minutes * 60 + r.seconds == now && 0 <= r.seconds < 60
    ensures r.totalMinutes * 60 + r.totalSeconds == total && 0 <= r.totalSeconds < 60
  {
    Split(now / 60, now % 60, total / 60, total % 60)
  }

  /** The split is the only one with seconds in `[0, 60)`, so `get_time` loses nothing. */
  lemma GetTimeUnique(now: int, total: int, m: int, s: int)
    requires m * 60 + s == now && 0 <= s < 60
    ensures GetTime(now, total).minutes == m && GetTime(now, total).seconds == s
  {
  }
}

/**
 * The detection-interval gate shared by both classifiers: a persisted
 * timestamp of the last executed cycle, where a zero seconds field means
 * that no cycle has run yet.
 */
module Throttle {

  const UsecPerSec: int := 1000000
  /** DETECTION_INTERVAL_SEC: minimum spacing of two executed cycles. */
  const DetectionIntervalSec: int := 10
  const DetectionIntervalUsec: int := DetectionIntervalSec * UsecPerSec

  /** A wall-clock reading (struct timeval). */
  datatype Timeval = Timeval(sec: int, usec: int)

  const NeverRun: Timeval := Timeval(0, 0)

  /** Microseconds from `last` to `now`; negative when the clock went back. */
  function ElapsedUsec(last: Timeval, now: Timeval): int {
    (now.sec - last.sec) * UsecPerSec + (now.usec - last.usec)
  }

  /** Absolute time in microseconds, used to state properties of call sequences. */
  function Micros(t: Timeval): int {
    t.sec * UsecPerSec + t.usec
  }

  /**
   * The cycle is skipped exactly when a run is recorded and strictly less
   * than the interval, but strictly more than nothing, has elapsed since.
   */
  predicate Throttled(last: Timeval, now: Timeval): (r: bool)
    ensures r <==> last.sec != 0 && Micros(last) < Micros(now) < Micros(last) + DetectionIntervalUsec
  {
    var elapsedUsec := if last.sec != 0 then ElapsedUsec(last, now) else 0;
    0 < elapsedUsec < DetectionIntervalUsec
  }

  /** `s` is `t` with some elements left out, the others kept in order. */
  predicate IsSubsequence(s: seq<Timeval>, t: seq<Timeval>)
    decreases |t|
  {
    s == [] ||
    (t != [] && ((s[0] == t[0] && IsSubsequence(s[1..], t[1..])) || IsSubsequence(s, t[1..])))
  }

  /**
   * The times, among successive calls made at `times`, at which a cycle is
   * executed: a subsequence of `times` that keeps every call not throttled
   * by the run recorded before it.
   */
  function ExecutedTimes(last: Timeval, times: seq<Timeval>): (r: seq<Timeval>)
    ensures |r| <= |times| && IsSubsequence(r, times)
    ensures forall t :: t in r ==> t in times
    ensures times != [] && !Throttled(last, times[0]) ==> r != [] && r[0] == times[0]
    decreases |times|
  {
    if times == [] then []
    else if Throttled(last, times[0]) then ExecutedTimes(last, times[1..])
    else [times[0]] + ExecutedTimes(times[0], times[1..])
  }

  /** The recorded timestamp after calls made at `times`, starting from `last`. */
  function LastRun(last: Timeval, times: seq<Timeval>): Timeval
    decreases |times|
  {
    if times == [] then last
    else if Throttled(last, times[0]) then LastRun(last, times[1..])
    else LastRun(times[0], times[1..])
  }

  /**
   * One more call extends the executed times by that call exactly when the
   * run recorded so far does not throttle it, and records it then.
   */
  lemma {:induction false} ExecutedTimesSnoc(last: Timeval, times: seq<Timeval>, t: Timeval)
    ensures ExecutedTimes(last, times + [t]) ==
      ExecutedTimes(last, times) + (if Throttled(LastRun(last, times), t) then [] else [t])
    ensures LastRun(last, times + [t]) ==
      (if Throttled(LastRun(last, times), t) then LastRun(last, times) else t)
    decreases |times|
  {
    if times == [] {
      assert times + [t] == [t];
    } else {
      assert (times + [t])[1..] == times[1..] + [t];
      if Throttled(last, times[0]) {
        ExecutedTimesSnoc(last, times[1..], t);
      } else {
        ExecutedTimesSnoc(times[0], times[1..], t);
      }
    }
  }

  /**
   * The recorded timestamp after the calls is that of the last executed
   * cycle, or the one recorded before them when every call was skipped.
   */
  lemma {:induction false} LastRunIsLastExecuted(last: Timeval, times: seq<Timeval>)
    ensures ExecutedTimes(last, times) == [] ==> LastRun(last, times) == last
    ensures ExecutedTimes(last, times) != [] ==>
      LastRun(last, times) == ExecutedTimes(last, times)[|ExecutedTimes(last, times)| - 1]
    decreases |times|
  {
    if times != [] {
      if Throttled(last, times[0]) {
        LastRunIsLastExecuted(last, times[1..]);
      } else {
        LastRunIsLastExecuted(times[0], times[1..]);
      }
    }
  }

  predicate StrictlyIncreasing(times: seq<Timeval>) {
    forall i :: 0 < i < |times| ==> Micros(times[i - 1]) < Micros(times[i])
  }

  /** Every reading has a non-zero seconds field, so a recorded run is never mistaken for "never run". */
  predicate Stamped(times: seq<Timeval>) {
    forall i :: 0 <= i < |times| ==> times[i].sec != 0
  }

  /**
   * The first call, a call at the same instant as the recorded run or after
   * the clock went back, and a call at least one interval later all execute.
   */
  lemma UnthrottledCases(last: Timeval, now: Timeval)
    ensures last.sec == 0 ==> !Throttled(last, now)
    ensures Micros(now) <= Micros(last) ==> !Throttled(last, now)
    ensures Micros(now) - Micros(last) >= DetectionIntervalUsec ==> !Throttled(last, now)
  {
  }

  /** After a recorded run, every later executed cycle comes at least one interval after it. */
  lemma {:induction false} ExecutedAfterRecorded(last: Timeval, times: seq<Timeval>)
    requires last.sec != 0
    requires StrictlyIncreasing(times) && Stamped(times)
    requires times != [] ==> Micros(last) < Micros(times[0])
    ensures forall k :: 0 <= k < |ExecutedTimes(last, times)| ==>
      Micros(ExecutedTimes(last, times)[k]) >= Micros(last) + DetectionIntervalUsec
    decreases |times|
  {
    if times != [] {
      var rest := times[1..];
      assert StrictlyIncreasing(rest) && Stamped(rest);
      if Throttled(last, times[0]) {
        ExecutedAfterRecorded(last, rest);
      } else {
        ExecutedAfterRecorded(times[0], rest);
        var e := ExecutedTimes(times[0], rest);
        assert ExecutedTimes(last, times) == [times[0]] + e;
        forall k | 0 <= k < |ExecutedTimes(last, times)|
          ensures Micros(ExecutedTimes(last, times)[k]) >= Micros(last) + DetectionIntervalUsec
        {
          if k > 0 { assert ExecutedTimes(last, times)[k] == e[k - 1]; }
        }
      }
    }
  }

  /**
   * For calls at strictly increasing, stamped times, any two consecutive
   * executed cycles are at least the detection interval apart, and the first
   * call after start-up always executes.
   */
  lemma {:induction false} ExecutedSpacing(last: Timeval, times: seq<Timeval>)
    requires StrictlyIncreasing(times) && Stamped(times)
    requires last.sec != 0 && times != [] ==> Micros(last) < Micros(times[0])
    ensures last.sec == 0 && times != [] ==> ExecutedTimes(last, times)[0] == times[0]
    ensures forall k :: 0 < k < |ExecutedTimes(last, times)| ==>
      Micros(ExecutedTimes(last, times)[k]) - Micros(ExecutedTimes(last, times)[k - 1]) >= DetectionIntervalUsec
    decreases |times|
  {
    if times != [] {
      var rest := times[1..];
      assert StrictlyIncreasing(rest) && Stamped(rest);
      if Throttled(last, times[0]) {
        ExecutedSpacing(last, rest);
      } else {
        ExecutedSpacing(times[0], rest);
        ExecutedAfterRecorded(times[0], rest);
        var e := ExecutedTimes(times[0], rest);
        var all := ExecutedTimes(last, times);
        assert all == [times[0]] + e;
        forall k | 0 < k < |all|
          ensures Micros(all[k]) - Micros(all[k - 1]) >= DetectionIntervalUsec
        {
          assert all[k] == e[k - 1];
          if k > 1 { assert all[k - 1] == e[k - 2]; }
        }
      }
    }
  }

  /**
   * Calls at 100 s, 105 s and 111 s after a fresh start: the one at 105 s is
   * skipped. Calls at 100 s, again at 100 s, and at 99 s all execute, since
   * no time elapsed or the clock went back.
   */
  lemma ExecutedTimesExample()
    ensures ExecutedTimes(NeverRun, [Timeval(100, 0), Timeval(105, 0), Timeval(111, 0)])
      == [Timeval(100, 0), Timeval(111, 0)]
    ensures ExecutedTimes(NeverRun, [Timeval(100, 0), Timeval(100, 0), Timeval(99, 0)])
      == [Timeval(100, 0), Timeval(100, 0), Timeval(99, 0)]
  {
  }
}

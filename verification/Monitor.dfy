/** monitors.py, _MonitorThread._thread_proc: when samples are taken. */
module Monitor {
  import opened Clock

  // ---------------------------------------------------------------- specification

  /** Conversion to an integer, towards zero. */
  function Truncate(x: real): int {
    if x >= 0.0 then x.Floor else -((-x).Floor)
  }

  /** The number of the sample interval that a time falls into; interval_ms is not 0. */
  function SampleNumber(start: real, t: real, intervalMs: real): int
    requires intervalMs != 0.0
  {
    Truncate((t - start) * 1000.0 / intervalMs)
  }

  /** The (fractional) sample number if a sample were taken now. */
  function NewSample(start: real, t: real, meanMs: real, intervalMs: real): real
    requires intervalMs != 0.0
  {
    ((t - start) * 1000.0 + meanMs) / intervalMs
  }

  predicate TooEarly(start: real, t: real, meanMs: real, lastSample: int, intervalMs: real)
    requires intervalMs != 0.0
  {
    NewSample(start, t, meanMs, intervalMs) < (lastSample + 1) as real
  }

  /** The argument of time.sleep. */
  function SleepSeconds(start: real, t: real, meanMs: real, lastSample: int, intervalMs: real): real {
    start - t + (lastSample + 1) as real * intervalMs / 1000.0 - meanMs / 1000.0
  }

  function NewMean(meanMs: real, durationMs: real): real {
    (9.0 * meanMs + durationMs) / 10.0
  }

  lemma LessIffTimes(a: real, b: real, c: real)
    requires c > 0.0
    ensures a / c < b <==> a < b * c
  {
    assert a == (a / c) * c;
    if a / c < b {
      TimesKeepsLess(a / c, b, c);
    } else if a < b * c {
      TimesKeepsLess(b, a / c, c);
    }
  }

  lemma TimesKeepsLess(a: real, b: real, c: real)
    requires c > 0.0
    ensures a < b ==> a * c < b * c
    ensures a <= b ==> a * c <= b * c
  {
    assert (b - a) * c == b * c - a * c;
  }

  /** With a positive interval it is too early exactly when the computed sleep is positive. */
  lemma SleepIsPositiveIff(start: real, t: real, meanMs: real, lastSample: int, intervalMs: real)
    requires intervalMs > 0.0
    ensures TooEarly(start, t, meanMs, lastSample, intervalMs) <==>
            SleepSeconds(start, t, meanMs, lastSample, intervalMs) > 0.0
  {
    LessIffTimes((t - start) * 1000.0 + meanMs, (lastSample + 1) as real, intervalMs);
  }

  /** With a negative interval, which nothing refuses, every sleep would be a ValueError. */
  lemma NegativeIntervalNeverSleeps(start: real, t: real, meanMs: real, lastSample: int, intervalMs: real)
    requires intervalMs < 0.0 && TooEarly(start, t, meanMs, lastSample, intervalMs)
    ensures SleepSeconds(start, t, meanMs, lastSample, intervalMs) < 0.0
  {
    var a, b := (t - start) * 1000.0 + meanMs, (lastSample + 1) as real;
    assert a / intervalMs == (-a) / (-intervalMs);
    LessIffTimes(-a, b, -intervalMs);
    assert b * (-intervalMs) == -(b * intervalMs);
  }

  /** One full sleep is enough, and none shorter: from its end on it is not too early any more. */
  lemma OneSleepIsEnough(start: real, t: real, later: real, meanMs: real, lastSample: int, intervalMs: real)
    requires intervalMs > 0.0
    ensures !TooEarly(start, later, meanMs, lastSample, intervalMs) <==>
            later >= t + SleepSeconds(start, t, meanMs, lastSample, intervalMs)
  {
    SleepIsPositiveIff(start, later, meanMs, lastSample, intervalMs);
  }

  /** The number of a time is the whole part of the intervals since the start, also before the start. */
  lemma SampleNumberIff(start: real, t: real, intervalMs: real, n: int)
    requires intervalMs != 0.0
    ensures var intervals := (t - start) * 1000.0 / intervalMs;
            SampleNumber(start, t, intervalMs) == n <==>
            if intervals >= 0.0 then n as real <= intervals < (n + 1) as real
            else (n - 1) as real < intervals <= n as real
  {
    var x := (t - start) * 1000.0 / intervalMs;
    if x < 0.0 {
      var m := (-x).Floor;
      assert m as real <= -x < (m + 1) as real;
    }
  }

  lemma SampleNumberMonotone(start: real, t: real, later: real, intervalMs: real)
    requires intervalMs > 0.0 && start <= t <= later
    ensures 0 <= SampleNumber(start, t, intervalMs) <= SampleNumber(start, later, intervalMs)
  {
    var a, b := (t - start) * 1000.0, (later - start) * 1000.0;
    LessIffTimes(b, a / intervalMs, intervalMs);
    assert a / intervalMs * intervalMs == a;
    assert a / intervalMs <= b / intervalMs;
    LessIffTimes(a, 0.0, intervalMs);
  }

  /** A time has reached the start of sample interval n if and only if its number is at least n. */
  lemma ReachesIff(start: real, t: real, intervalMs: real, n: nat)
    requires intervalMs > 0.0 && start <= t
    ensures SampleNumber(start, t, intervalMs) >= n <==> (t - start) * 1000.0 >= n as real * intervalMs
  {
    var a := (t - start) * 1000.0;
    LessIffTimes(a, n as real, intervalMs);
    SampleNumberMonotone(start, t, t, intervalMs);
  }

  /**
    A sample that is not taken too early, and that takes at least as long as the mean so far,
    belongs to a later interval than the last one; a quicker sample may repeat the last number.
   */
  lemma SlowSampleAdvances(start: real, t: real, pre: real, post: real, meanMs: real, lastSample: nat, intervalMs: real)
    requires intervalMs > 0.0 && start <= t <= pre <= post && !TooEarly(start, t, meanMs, lastSample, intervalMs)
    requires (post - pre) * 1000.0 >= meanMs
    ensures SampleNumber(start, post, intervalMs) > lastSample
  {
    LessIffTimes((t - start) * 1000.0 + meanMs, (lastSample + 1) as real, intervalMs);
    ReachesIff(start, post, intervalMs, lastSample + 1);
  }

  // ---------------------------------------------------------------- the thread

  /** A sample: when the loop decided to take it, and the times around the read of the value. */
  datatype Sample = Sample(at: real, pre: real, post: real)
  {
    function DurationMs(): real { (post - pre) * 1000.0 }
  }

  class MonitorThread {
    const clock: SystemClock
    const intervalMs: real
    var startTime: real
    var lastSample: int
    var meanSampleMs: real
    /** All samples so far; their `post` times are the coordinates written to the measurement. */
    ghost var samples: seq<Sample>
    /** The last turn slept, and did so for the time it had computed. */
    ghost var rested: bool

    ghost predicate Valid()
      reads this, clock
    {
      && clock.steady && intervalMs > 0.0
      && IsRun(startTime, samples, intervalMs) && samples[|samples| - 1].post <= clock.now
      && lastSample == SampleNumber(startTime, samples[|samples| - 1].post, intervalMs)
      && meanSampleMs == MeanOf(samples)
      && (rested ==> !TooEarly(startTime, clock.now, meanSampleMs, lastSample, intervalMs))
    }

    constructor (clock: SystemClock, intervalMs: real)
      ensures this.clock == clock && this.intervalMs == intervalMs
    {
      this.clock := clock;
      this.intervalMs := intervalMs;
    }

    /** _take_sample; the read of the value takes any time. */
    method TakeSample(at: real) returns (sample: Sample)
      requires clock.steady && at <= clock.now
      modifies clock
      ensures sample.at == at <= sample.pre <= sample.post == clock.now
    {
      var pre := clock.Time();
      clock.Pass();
      var post := clock.Time();
      return Sample(at, pre, post);
    }

    method Begin()
      requires clock.steady && intervalMs > 0.0
      modifies this, clock
      ensures Valid() && |samples| == 1 && !rested
    {
      startTime := clock.Time();
      var sample := TakeSample(startTime);
      lastSample := SampleNumber(startTime, sample.post, intervalMs);
      meanSampleMs := sample.DurationMs();
      samples, rested := [sample], false;
      assert samples[..0] == [];
    }

    /** One turn of the loop: after a full sleep the next turn takes a sample. */
    method Turn()
      requires Valid()
      modifies this, clock
      ensures Valid() && startTime == old(startTime)
      ensures rested ==> samples == old(samples)
      ensures !rested ==> |samples| == |old(samples)| + 1 && samples[..|old(samples)|] == old(samples)
      ensures old(rested) ==> |samples| == |old(samples)| + 1
      ensures old(lastSample) <= lastSample
    {
      var currentTime := clock.Time();
      if old(rested) {
        LaterIsNotEarlier(startTime, old(clock.now), currentTime, meanSampleMs, lastSample, intervalMs);
      }
      if NewSample(startTime, currentTime, meanSampleMs, intervalMs) < (lastSample + 1) as real {
        var pause := SleepSeconds(startTime, currentTime, meanSampleMs, lastSample, intervalMs);
        SleepIsPositiveIff(startTime, currentTime, meanSampleMs, lastSample, intervalMs);
        clock.Sleep(pause);
        OneSleepIsEnough(startTime, currentTime, clock.now, meanSampleMs, lastSample, intervalMs);
        rested := true;
      } else {
        var sample := TakeSample(currentTime);
        OneMoreSample(startTime, samples, sample, intervalMs);
        lastSample := SampleNumber(startTime, sample.post, intervalMs);
        meanSampleMs := NewMean(meanSampleMs, sample.DurationMs());
        samples, rested := samples + [sample], false;
      }
    }

    /** n turns take at least n / 2 samples after the first. */
    method Run(n: nat)
      requires clock.steady && intervalMs > 0.0
      modifies this, clock
      ensures Valid() && 2 * (|samples| - 1) + (if rested then 1 else 0) >= n
    {
      Begin();
      for i := 0 to n
        invariant Valid() && 2 * (|samples| - 1) + (if rested then 1 else 0) >= i
      {
        Turn();
      }
    }
  }

  lemma LaterIsNotEarlier(start: real, t: real, later: real, meanMs: real, lastSample: int, intervalMs: real)
    requires intervalMs > 0.0 && t <= later && !TooEarly(start, t, meanMs, lastSample, intervalMs)
    ensures !TooEarly(start, later, meanMs, lastSample, intervalMs)
  {
    SleepIsPositiveIff(start, t, meanMs, lastSample, intervalMs);
    SleepIsPositiveIff(start, later, meanMs, lastSample, intervalMs);
  }

  // ---------------------------------------------------------------- all samples of a run

  /** The sliding average over all samples so far. */
  function MeanOf(samples: seq<Sample>): real
    requires samples != []
  {
    var n := |samples| - 1;
    if n == 0 then samples[0].DurationMs() else NewMean(MeanOf(samples[..n]), samples[n].DurationMs())
  }

  /** Samples that a thread can take: each one decided on after the last one, and not too early. */
  predicate IsRun(start: real, samples: seq<Sample>, intervalMs: real)
    requires intervalMs > 0.0
  {
    && samples != []
    && var n := |samples| - 1;
       var s := samples[n];
       && s.at <= s.pre <= s.post
       && if n == 0 then s.at == start
          else
            var last := samples[n - 1].post;
            && IsRun(start, samples[..n], intervalMs) && last <= s.at
            && !TooEarly(start, s.at, MeanOf(samples[..n]), SampleNumber(start, last, intervalMs), intervalMs)
  }

  /** Nine tenths of the difference are left after each sample. */
  function Shrunk(difference: real, n: nat): real {
    if n == 0 then difference else 0.9 * Shrunk(difference, n - 1)
  }

  /** While all samples take equally long, the mean comes closer to that by a tenth of the difference each time. */
  lemma {:induction false} MeanApproaches(samples: seq<Sample>, k: nat, durationMs: real)
    requires 0 < k <= |samples| && forall i :: k <= i < |samples| ==> samples[i].DurationMs() == durationMs
    ensures MeanOf(samples) - durationMs == Shrunk(MeanOf(samples[..k]) - durationMs, |samples| - k)
    ensures MeanOf(samples[..1]) == samples[0].DurationMs()
    decreases |samples|
  {
    if k < |samples| {
      var front := samples[..|samples| - 1];
      MeanApproaches(front, k, durationMs);
      assert front[..k] == samples[..k];
    } else {
      assert samples[..k] == samples;
    }
  }

  /** The mean stays within the bounds of the durations. */
  lemma {:induction false} MeanWithin(samples: seq<Sample>, low: real, high: real)
    requires samples != [] && forall i :: 0 <= i < |samples| ==> low <= samples[i].DurationMs() <= high
    ensures low <= MeanOf(samples) <= high
    decreases |samples|
  {
    if |samples| > 1 {
      MeanWithin(samples[..|samples| - 1], low, high);
    }
  }

  lemma {:induction false} PrefixIsRun(start: real, samples: seq<Sample>, intervalMs: real, k: nat)
    requires intervalMs > 0.0 && IsRun(start, samples, intervalMs) && 0 < k <= |samples|
    ensures IsRun(start, samples[..k], intervalMs)
    decreases |samples|
  {
    if k < |samples| {
      PrefixIsRun(start, samples[..|samples| - 1], intervalMs, k);
      assert samples[..|samples| - 1][..k] == samples[..k];
    } else {
      assert samples[..k] == samples;
    }
  }

  lemma OneMoreSample(start: real, samples: seq<Sample>, s: Sample, intervalMs: real)
    requires intervalMs > 0.0 && IsRun(start, samples, intervalMs)
    requires samples[|samples| - 1].post <= s.at <= s.pre <= s.post
    requires var number := SampleNumber(start, samples[|samples| - 1].post, intervalMs);
             !TooEarly(start, s.at, MeanOf(samples), number, intervalMs)
    ensures IsRun(start, samples + [s], intervalMs)
    ensures MeanOf(samples + [s]) == NewMean(MeanOf(samples), s.DurationMs())
    ensures SampleNumber(start, samples[|samples| - 1].post, intervalMs) <= SampleNumber(start, s.post, intervalMs)
  {
    assert (samples + [s])[..|samples|] == samples;
    RunIsLater(start, samples, intervalMs);
    SampleNumberMonotone(start, samples[|samples| - 1].post, s.post, intervalMs);
  }

  lemma {:induction false} RunIsLater(start: real, samples: seq<Sample>, intervalMs: real)
    requires intervalMs > 0.0 && IsRun(start, samples, intervalMs)
    ensures start <= samples[|samples| - 1].post
    decreases |samples|
  {
    if |samples| > 1 {
      RunIsLater(start, samples[..|samples| - 1], intervalMs);
    }
  }

  /** Over a run, sample numbers never decrease, and neither do the times written to the measurement. */
  lemma {:induction false} NumbersNeverDecrease(
      start: real, samples: seq<Sample>, intervalMs: real, i: nat, j: nat)
    requires intervalMs > 0.0 && IsRun(start, samples, intervalMs) && i <= j < |samples|
    ensures samples[i].post <= samples[j].post
    ensures SampleNumber(start, samples[i].post, intervalMs) <= SampleNumber(start, samples[j].post, intervalMs)
    decreases j
  {
    PrefixIsRun(start, samples, intervalMs, i + 1);
    RunIsLater(start, samples[..i + 1], intervalMs);
    if i < j {
      NumbersNeverDecrease(start, samples, intervalMs, i, j - 1);
      PrefixIsRun(start, samples, intervalMs, j + 1);
      assert samples[..j + 1][j - 1].post <= samples[..j + 1][j].at;
      SampleNumberMonotone(start, samples[i].post, samples[j].post, intervalMs);
    }
  }

  /** By how many samples the loop was late when it decided to take the next one. */
  function Lateness(start: real, last: real, next: Sample, meanMs: real, intervalMs: real): real
    requires intervalMs > 0.0
  {
    NewSample(start, next.at, meanMs, intervalMs) - (SampleNumber(start, last, intervalMs) + 1) as real
  }

  /**
    The next sample repeats the number after `last` iff, from the decision to its end, it took less
    than the mean, shortened by the lateness of the decision. So it does not if the read alone takes
    the mean.
   */
  predicate RepeatsWhenQuick(start: real, last: real, next: Sample, meanMs: real, intervalMs: real)
    requires intervalMs > 0.0
  {
    var number, newNumber := SampleNumber(start, last, intervalMs), SampleNumber(start, next.post, intervalMs);
    var late := Lateness(start, last, next, meanMs, intervalMs);
    && late >= 0.0 && number <= newNumber
    && (number == newNumber <==> (next.post - next.at) * 1000.0 < meanMs - late * intervalMs)
    && (next.DurationMs() >= meanMs ==> number < newNumber)
  }

  /** Exactly when the next sample of a run repeats the last sample number. */
  lemma NumberRepeatsIff(start: real, samples: seq<Sample>, intervalMs: real, i: nat)
    requires intervalMs > 0.0 && IsRun(start, samples, intervalMs) && i + 1 < |samples|
    ensures RepeatsWhenQuick(start, samples[i].post, samples[i + 1], MeanOf(samples[..i + 1]), intervalMs)
  {
    NextOfRun(start, samples, intervalMs, i);
    NextRepeatsIff(start, samples[i].post, samples[i + 1], MeanOf(samples[..i + 1]), intervalMs);
  }

  lemma LatenessInMs(start: real, last: real, next: Sample, meanMs: real, intervalMs: real)
    requires intervalMs > 0.0
    ensures Lateness(start, last, next, meanMs, intervalMs) * intervalMs ==
            (next.at - start) * 1000.0 + meanMs - (SampleNumber(start, last, intervalMs) + 1) as real * intervalMs
  {
    var a, m := (next.at - start) * 1000.0 + meanMs, (SampleNumber(start, last, intervalMs) + 1) as real;
    assert a / intervalMs * intervalMs == a;
    assert (a / intervalMs - m) * intervalMs == a / intervalMs * intervalMs - m * intervalMs;
  }

  lemma NextRepeatsIff(start: real, last: real, next: Sample, meanMs: real, intervalMs: real)
    requires intervalMs > 0.0 && start <= last <= next.at <= next.pre <= next.post
    requires !TooEarly(start, next.at, meanMs, SampleNumber(start, last, intervalMs), intervalMs)
    ensures RepeatsWhenQuick(start, last, next, meanMs, intervalMs)
  {
    var number := SampleNumber(start, last, intervalMs);
    SampleNumberMonotone(start, last, next.post, intervalMs);
    ReachesIff(start, next.post, intervalMs, number + 1);
    LatenessInMs(start, last, next, meanMs, intervalMs);
    if next.DurationMs() >= meanMs {
      SlowSampleAdvances(start, next.at, next.pre, next.post, meanMs, number, intervalMs);
    }
  }

  lemma NextOfRun(start: real, samples: seq<Sample>, intervalMs: real, i: nat)
    requires intervalMs > 0.0 && IsRun(start, samples, intervalMs) && i + 1 < |samples|
    ensures var last, next := samples[i].post, samples[i + 1];
            && start <= last <= next.at <= next.pre <= next.post
            && !TooEarly(start, next.at, MeanOf(samples[..i + 1]), SampleNumber(start, last, intervalMs), intervalMs)
  {
    var upTo := samples[..i + 2];
    PrefixIsRun(start, samples, intervalMs, i + 2);
    PrefixIsRun(start, samples, intervalMs, i + 1);
    assert upTo[..i + 1] == samples[..i + 1];
    RunIsLater(start, samples[..i + 1], intervalMs);
  }

  /** Two samples, every 10 ms: the first takes 5 ms, so that the second may be taken, in 1 ms, in the same interval. */
  const QUICK_SAMPLES: seq<Sample> := [Sample(0.0, 0.0, 0.005), Sample(0.006, 0.006, 0.007)]

  lemma QuickSampleRepeats()
    ensures IsRun(0.0, QUICK_SAMPLES, 10.0)
    ensures SampleNumber(0.0, QUICK_SAMPLES[0].post, 10.0) == SampleNumber(0.0, QUICK_SAMPLES[1].post, 10.0) == 0
  {
    var first := [Sample(0.0, 0.0, 0.005)];
    assert QUICK_SAMPLES[..1] == first;
    assert IsRun(0.0, first, 10.0) && MeanOf(first) == 5.0;
  }
}

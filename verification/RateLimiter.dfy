/** functions.py, call_at_most_every: a sliding window over a bounded history of calls. */
module RateLimiter {
  import opened Prelude
  import opened Clock

  // ---------------------------------------------------------------- specification

  function CountAfter(history: seq<real>, limit: real): (n: nat)
    ensures n <= |history|
  {
    if history == [] then 0
    else CountAfter(history[..|history| - 1], limit) + (if history[|history| - 1] > limit then 1 else 0)
  }

  /** Appending to a deque of limited length. */
  function Append(history: seq<real>, count: nat, t: real): seq<real> {
    var h := history + [t];
    if |h| <= count then h else h[|h| - count..]
  }

  /** The last entries of the log of all calls that a deque of this length still holds. */
  function LastOf(log: seq<real>, count: nat): seq<real> {
    if |log| <= count then log else log[|log| - count..]
  }

  ghost predicate Sorted(log: seq<real>) {
    forall i, j :: 0 <= i <= j < |log| ==> log[i] <= log[j]
  }

  /** Call i + count comes at least `seconds` after call i. */
  ghost predicate Spaced(log: seq<real>, count: nat, seconds: real) {
    forall i :: 0 <= i && i + count < |log| ==> log[i + count] >= log[i] + seconds
  }

  lemma AppendIsLastOf(log: seq<real>, count: nat, t: real)
    ensures Append(LastOf(log, count), count, t) == LastOf(log + [t], count)
  {
  }

  lemma {:induction false} AllAfter(history: seq<real>, limit: real)
    ensures CountAfter(history, limit) == |history| <==> forall i :: 0 <= i < |history| ==> history[i] > limit
    decreases |history|
  {
    if history != [] {
      AllAfter(history[..|history| - 1], limit);
    }
  }

  // ---------------------------------------------------------------- the wrapper

  /** The time when the window was looked at, and the argument of the sleep, if there was one. */
  datatype Call = Called(at: real, slept: Option<real>) | IndexError

  class RateLimited {
    const seconds: real
    const count: nat
    var callHistory: seq<real>
    /** The times of all calls so far. */
    ghost var log: seq<real>

    ghost predicate Valid()
      reads this
    {
      callHistory == LastOf(log, count)
    }

    /** What one caller with a steady clock can rely on. */
    ghost predicate Limited(now: real)
      reads this
    {
      Sorted(log) && Spaced(log, count, seconds) && (log != [] ==> log[|log| - 1] <= now)
    }

    constructor (seconds: real, count: nat)
      ensures this.seconds == seconds && this.count == count && Valid() && log == []
    {
      this.seconds := seconds;
      this.count := count;
      callHistory, log := [], [];
    }

    /** The number of calls in the window. */
    method WindowCount(currentTime: real) returns (n: nat)
      ensures n == CountAfter(callHistory, currentTime - seconds)
    {
      n := 0;
      for i := 0 to |callHistory|
        invariant n == CountAfter(callHistory[..i], currentTime - seconds)
      {
        assert callHistory[..i + 1][..i] == callHistory[..i];
        if callHistory[i] > currentTime - seconds { n := n + 1; }
      }
      assert callHistory[..|callHistory|] == callHistory;
    }

    /**
      One call of the decorated function; what the function itself does is not part of this model.
      Every sleep is a positive one, and with a count of 0 every call is an IndexError.
     */
    method CallFunction(clock: SystemClock) returns (r: Call)
      requires Valid()
      modifies this, clock
      ensures Valid() && (r == IndexError <==> count == 0)
      ensures log == if count == 0 then old(log) else old(log) + [clock.now]
      ensures r.Called? && r.slept.Some? ==> r.slept.value > 0.0
      ensures clock.steady && old(Limited(clock.now)) ==> Limited(clock.now)
      ensures r.Called? ==> SleepsIffNeeded(old(log), count, seconds, r.at, r.slept)
    {
      r := Wait(clock);
      if r.Called? {
        var t := clock.Time();
        AppendIsLastOf(log, count, t);
        if clock.steady && old(Limited(clock.now)) {
          StaysLimited(log, count, seconds, t);
        }
        callHistory := Append(callHistory, count, t);
        log := log + [t];
      }
    }

    /** The part before the call is recorded. */
    method Wait(clock: SystemClock) returns (r: Call)
      requires Valid()
      modifies clock
      ensures r == IndexError <==> count == 0
      ensures r.Called? && r.slept.Some? ==> r.slept.value > 0.0
      ensures r.Called? ==> SleepsIffNeeded(log, count, seconds, r.at, r.slept)
      ensures clock.steady ==> clock.now >= old(clock.now)
      ensures clock.steady && r.Called? && Sorted(log) && |log| >= count ==> clock.now >= log[|log| - count] + seconds
    {
      var currentTime := clock.Time();
      var windowCount := WindowCount(currentTime);
      FullWindow(log, count, currentTime - seconds);
      if windowCount >= count {
        if count == 0 { return IndexError; }
        assert windowCount - count == 0;
        var pause := callHistory[windowCount - count] - currentTime + seconds;
        clock.Sleep(pause);
        return Called(currentTime, Some(pause));
      }
      return Called(currentTime, None);
    }
  }

  /**
    A call does not sleep for nothing: it sleeps exactly when the last `count` calls are in the
    window, and then until the first of them leaves it.
   */
  ghost predicate SleepsIffNeeded(before: seq<real>, count: nat, seconds: real, at: real, slept: Option<real>) {
    && (slept.Some? <==> |before| >= count && forall i :: |before| - count <= i < |before| ==> before[i] > at - seconds)
    && (slept.Some? ==> 0 < count <= |before| && at + slept.value == before[|before| - count] + seconds)
  }

  lemma FullWindow(log: seq<real>, count: nat, limit: real)
    ensures CountAfter(LastOf(log, count), limit) >= count <==>
            |log| >= count && forall i :: |log| - count <= i < |log| ==> log[i] > limit
  {
    var h := LastOf(log, count);
    AllAfter(h, limit);
    if |log| >= count {
      assert forall i :: 0 <= i < count ==> h[i] == log[|log| - count + i];
      assert forall i :: |log| - count <= i < |log| ==> log[i] == h[i - (|log| - count)];
    }
  }

  lemma StaysLimited(log: seq<real>, count: nat, seconds: real, t: real)
    requires count > 0 && Sorted(log) && Spaced(log, count, seconds)
    requires log != [] ==> log[|log| - 1] <= t
    requires |log| >= count ==> t >= log[|log| - count] + seconds
    ensures Sorted(log + [t]) && Spaced(log + [t], count, seconds)
  {
  }

  // ---------------------------------------------------------------- windows

  /** How many calls fall into the window [from, to). */
  function InWindow(log: seq<real>, from: real, to: real): nat {
    if log == [] then 0
    else InWindow(log[..|log| - 1], from, to) + (if from <= log[|log| - 1] < to then 1 else 0)
  }

  /** In a sorted log the calls of a window are neighbours. */
  lemma {:induction false} WindowIsInterval(log: seq<real>, from: real, to: real) returns (lo: nat, hi: nat)
    requires Sorted(log)
    ensures lo <= hi <= |log| && InWindow(log, from, to) == hi - lo
    ensures forall i :: 0 <= i < |log| ==> (from <= log[i] < to <==> lo <= i < hi)
    decreases |log|
  {
    if log == [] {
      lo, hi := 0, 0;
    } else {
      var n := |log| - 1;
      lo, hi := WindowIsInterval(log[..n], from, to);
      if from <= log[n] < to {
        if lo == hi { lo := n; }
        assert lo < n ==> log[lo] <= log[n];
        hi := n + 1;
        forall i | lo <= i < hi ensures from <= log[i] < to {
          assert log[lo] <= log[i] <= log[n];
        }
      }
    }
  }

  /** The calls in the half-open window of a length. */
  function CallsFrom(log: seq<real>, from: real, length: real): nat {
    InWindow(log, from, from + length)
  }

  lemma SpacedAt(log: seq<real>, count: nat, seconds: real, i: nat)
    requires Spaced(log, count, seconds) && i + count < |log|
    ensures log[i + count] >= log[i] + seconds
  {
  }

  /**
    At most `count` calls fall into every half-open window of length `seconds` if and only if call
    i + count always comes at least `seconds` after call i.
   */
  lemma LimitIff(log: seq<real>, count: nat, seconds: real)
    requires Sorted(log)
    ensures Spaced(log, count, seconds) <==> forall from: real :: CallsFrom(log, from, seconds) <= count
  {
    if Spaced(log, count, seconds) {
      forall from: real ensures CallsFrom(log, from, seconds) <= count {
        var lo, hi := WindowIsInterval(log, from, from + seconds);
        if lo + count < hi {
          SpacedAt(log, count, seconds, lo);
          assert false;
        }
      }
    } else {
      var i :| 0 <= i && i + count < |log| && log[i + count] < log[i] + seconds;
      var from := log[i];
      var lo, hi := WindowIsInterval(log, from, from + seconds);
      assert from <= log[i + count] by { assert log[i] <= log[i + count]; }
      assert CallsFrom(log, from, seconds) > count;
    }
  }

  // ---------------------------------------------------------------- a whole run

  /** n calls by one caller with a steady clock. */
  method CallRepeatedly(f: RateLimited, clock: SystemClock, n: nat)
    requires f.Valid() && f.log == [] && f.count > 0 && clock.steady
    modifies f, clock
    ensures f.Valid() && |f.log| == n
    ensures forall from: real :: CallsFrom(f.log, from, f.seconds) <= f.count
  {
    for i := 0 to n
      invariant f.Valid() && |f.log| == i && f.Limited(clock.now)
    {
      var call := f.CallFunction(clock);
      clock.Pass();
    }
    LimitIff(f.log, f.count, f.seconds);
  }
}

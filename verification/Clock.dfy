/** The system clock and sleeping, over real numbers. */
module Clock {

  class SystemClock {
    /** A clock that is not steady may be set back between two readings, and even during a sleep. */
    const steady: bool
    var now: real

    constructor (steady: bool)
      ensures this.steady == steady
    {
      this.steady := steady;
      now := 0.0;
    }

    /** Some time passes. */
    method Pass()
      modifies this
      ensures steady ==> now >= old(now)
    {
      var elapsed: real := *;
      if !steady || elapsed > 0.0 { now := now + elapsed; }
    }

    method Time() returns (t: real)
      modifies this
      ensures t == now && (steady ==> now >= old(now))
    {
      Pass();
      t := now;
    }

    /** A negative argument would be a ValueError. */
    method Sleep(seconds: real)
      requires seconds >= 0.0
      modifies this
      ensures steady ==> now >= old(now) + seconds
    {
      now := now + seconds;
      Pass();
    }
  }
}

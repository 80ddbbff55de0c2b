/** The clock behind every `time.Now()`: each reading is at or after the one before it. */
module MonotoneClock {
  /** In nanoseconds. */
  const SECOND: nat := 1_000_000_000

  class Clock {
    var now: int  // nanoseconds

    constructor (start: int)
      ensures now == start
    {
      now := start;
    }

    /** Any amount of time may pass before a reading is taken. */
    method Now() returns (t: int)
      modifies this
      ensures old(now) <= now == t
    {
      var passed: int :| 0 <= passed;
      now := now + passed;
      t := now;
    }

    /** A timer fires no earlier than it was set for. */
    method Sleep(duration: int)
      modifies this
      ensures old(now) <= now && old(now) + duration <= now
    {
      var late: int :| 0 <= late;
      now := now + (if duration > 0 then duration else 0) + late;
    }
  }
}

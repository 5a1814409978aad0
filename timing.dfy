/** src/timing.c: starting, resetting and stopping a wall-clock
    measurement kept in a caller's `struct timespec`.

    clock_gettime(CLOCK_REALTIME, ...) is an oracle: each routine that reads
    the clock takes the reading as a parameter, Written(t) for a successful
    call and Failed(e) for one that returned -1 leaving errno at e. The
    `double` number of seconds timing_stop stores is modelled as a real,
    so its floating-point rounding is not modelled. */
module Timing {
  import opened CTypes

  const NS_PER_SEC: int := 1_000_000_000

  /** A time value: whole seconds and nanoseconds, as in `struct timespec`. */
  datatype Time = Time(sec: int, nsec: int)

  /** The caller's `struct timespec` object. */
  class Timespec {
    var tvSec: int
    var tvNsec: int

    constructor (sec: int, nsec: int)
      ensures tvSec == sec && tvNsec == nsec
    {
      tvSec, tvNsec := sec, nsec;
    }

    function Value(): Time
      reads this
    {
      Time(tvSec, tvNsec)
    }
  }

  /** The nanoseconds a time value denotes. */
  function TotalNanos(t: Time): int {
    t.sec * NS_PER_SEC + t.nsec
  }

  /** Nanoseconds in [0, NS_PER_SEC), as clock_gettime delivers them. */
  predicate Normalized(t: Time) {
    0 <= t.nsec < NS_PER_SEC
  }

  /** end - start as timing_stop computes it: fieldwise, borrowing one
      second when start's nanoseconds exceed end's. Whatever the inputs,
      the difference denotes the difference of the nanosecond totals. */
  function Elapsed(start: Time, end: Time): (r: Time)
    ensures TotalNanos(r) == TotalNanos(end) - TotalNanos(start)
  {
    if start.nsec > end.nsec then
      Time(end.sec - start.sec - 1, NS_PER_SEC + end.nsec - start.nsec)
    else
      Time(end.sec - start.sec, end.nsec - start.nsec)
  }

  /** For clock readings with end not before start the difference is itself
      a normalized, non-negative time value. */
  lemma ElapsedNormalized(start: Time, end: Time)
    requires Normalized(start) && Normalized(end)
    requires TotalNanos(start) <= TotalNanos(end)
    ensures Normalized(Elapsed(start, end)) && Elapsed(start, end).sec >= 0
  {
  }

  /** The difference is the unique normalized time value with that total:
      any other normalized value denoting end - start is equal to it. */
  lemma ElapsedUnique(start: Time, end: Time, d: Time)
    requires Normalized(start) && Normalized(end) && Normalized(d)
    requires TotalNanos(d) == TotalNanos(end) - TotalNanos(start)
    ensures d == Elapsed(start, end)
  {
  }

  /** A time value as a number of seconds: nanoseconds over NS_PER_SEC
      plus seconds, the conversion timing_stop applies. */
  function Seconds(t: Time): (r: real)
    ensures r == TotalNanos(t) as real / NS_PER_SEC as real
  {
    t.nsec as real / NS_PER_SEC as real + t.sec as real
  }

  /** The seconds timing_stop reports are the nanoseconds between the two
      clock readings, scaled to seconds. */
  lemma SecondsOfElapsed(start: Time, end: Time)
    ensures Seconds(Elapsed(start, end)) == (TotalNanos(end) - TotalNanos(start)) as real / NS_PER_SEC as real
  {
  }

  /** timing_start: NULL gives -1 with EINVAL; otherwise the clock reading
      is stored, or the clock's failure returned. */
  method TimingStart(start: Timespec?, clock: Result<Time>) returns (status: Status)
    modifies start
    ensures start == null ==> status == Err(EINVAL)
    ensures start != null && clock.Failed? ==> status == Err(clock.errno) && unchanged(start)
    ensures start != null && clock.Written? ==> status == Ok && start.Value() == clock.value
  {
    if start == null {
      return Err(EINVAL);
    }
    if clock.Failed? {
      return Err(clock.errno);
    }
    start.tvSec, start.tvNsec := clock.value.sec, clock.value.nsec;
    return Ok;
  }

  /** timing_reset: zeroes both fields; NULL gives -1 with EINVAL. */
  method TimingReset(start: Timespec?) returns (status: Status)
    modifies start
    ensures start == null ==> status == Err(EINVAL)
    ensures start != null ==> status == Ok && start.Value() == Time(0, 0) && TotalNanos(start.Value()) == 0
  {
    if start == null {
      return Err(EINVAL);
    }
    start.tvSec := 0;
    start.tvNsec := 0;
    return Ok;
  }

  /** timing_stop: with a NULL argument, -1 with EINVAL and nothing stored;
      when the clock fails, its failure and nothing stored; otherwise the
      seconds since *start are stored in *elapsed. */
  method TimingStop(elapsed: Ptr?<real>, start: Timespec?, clock: Result<Time>) returns (status: Status)
    modifies elapsed
    ensures elapsed == null || start == null ==>
      status == Err(EINVAL) && (elapsed != null ==> unchanged(elapsed))
    ensures elapsed != null && start != null && clock.Failed? ==>
      status == Err(clock.errno) && unchanged(elapsed)
    ensures elapsed != null && start != null && clock.Written? ==>
      && status == Ok
      && elapsed.target == Seconds(Elapsed(start.Value(), clock.value))
      && elapsed.target == (TotalNanos(clock.value) - TotalNanos(start.Value())) as real / NS_PER_SEC as real
  {
    if elapsed == null || start == null {
      return Err(EINVAL);
    }
    if clock.Failed? {
      return Err(clock.errno);
    }
    var end := clock.value;
    var result: Time;
    if start.tvNsec > end.nsec {
      result := Time(end.sec - start.tvSec - 1, NS_PER_SEC + end.nsec - start.tvNsec);
    } else {
      result := Time(end.sec - start.tvSec, end.nsec - start.tvNsec);
    }
    elapsed.target := result.nsec as real / NS_PER_SEC as real + result.sec as real;
    return Ok;
  }
}

/**
 * The contact endpoint's rate limiter: a fixed window per key (normally the caller's address),
 * kept in a process-wide in-memory table that is never evicted, only reset lazily per key.
 */
module RateLimit {

  /** One hour, in milliseconds. */
  const RateLimitWindow: int := 60 * 60 * 1000
  const MaxRequestsPerHour: int := 5

  /** The table entry for one key: submissions accepted in the window, and when it ends. */
  datatype Record = Record(count: int, resetTime: int)

  type Table = map<string, Record>

  /** The invariant the table keeps: every stored count lies in 1..MaxRequestsPerHour. */
  ghost predicate CountsInRange(m: Table) {
    forall k | k in m :: 1 <= m[k].count <= MaxRequestsPerHour
  }

  /**
   * One call of the limiter for `key` at time `now`: the new table and whether the call is
   * allowed. An absent key or an expired window (strictly past `resetTime`) starts a new window;
   * a full window refuses and leaves the table alone; otherwise the count goes up by one.
   */
  function RateStep(m: Table, key: string, now: int): (Table, bool) {
    if key !in m || now > m[key].resetTime then
      (m[key := Record(1, now + RateLimitWindow)], true)
    else if m[key].count >= MaxRequestsPerHour then
      (m, false)
    else
      (m[key := m[key].(count := m[key].count + 1)], true)
  }

  /** The decisions of successive calls for one key at the given times. */
  function Run(m: Table, key: string, times: seq<int>): (r: seq<bool>)
    ensures |r| == |times|
    decreases |times|
  {
    if times == [] then []
    else
      var step := RateStep(m, key, times[0]);
      [step.1] + Run(step.0, key, times[1..])
  }

  /** A call touches only the entry of its own key. */
  lemma OtherKeysUnchanged(m: Table, key: string, now: int, other: string)
    requires other != key
    ensures other in RateStep(m, key, now).0 <==> other in m
    ensures other in m ==> RateStep(m, key, now).0[other] == m[other]
  {
  }

  /** A call keeps every count in 1..5. */
  lemma StepKeepsCountsInRange(m: Table, key: string, now: int)
    requires CountsInRange(m)
    ensures CountsInRange(RateStep(m, key, now).0)
  {
  }

  /** A new window: an unknown key, or a time strictly after the window's end. */
  lemma NewWindow(m: Table, key: string, now: int)
    requires key !in m || now > m[key].resetTime
    ensures RateStep(m, key, now) == (m[key := Record(1, now + RateLimitWindow)], true)
  {
  }

  /** Inside the window (`now == resetTime` included) a full count refuses and changes nothing,
      and any other count is raised by exactly one. */
  lemma InsideWindow(m: Table, key: string, now: int)
    requires key in m && now <= m[key].resetTime
    ensures m[key].count >= MaxRequestsPerHour ==> RateStep(m, key, now) == (m, false)
    ensures m[key].count < MaxRequestsPerHour ==>
      RateStep(m, key, now).1 && key in RateStep(m, key, now).0 &&
      RateStep(m, key, now).0[key] == Record(m[key].count + 1, m[key].resetTime)
  {
  }

  /** With `c` already counted in a window ending at `reset`, call number `i` (from 0) of a
      series that stays in the window is allowed exactly when `c + i` is still below the cap. */
  lemma {:induction false} RunInsideWindow(m: Table, key: string, times: seq<int>, c: int, reset: int)
    requires key in m && m[key] == Record(c, reset)
    requires forall i | 0 <= i < |times| :: times[i] <= reset
    ensures forall i | 0 <= i < |times| :: Run(m, key, times)[i] == (c + i < MaxRequestsPerHour)
  {
    if times != [] {
      var step := RateStep(m, key, times[0]);
      var c' := if c >= MaxRequestsPerHour then c else c + 1;
      assert step.0[key] == Record(c', reset);
      RunInsideWindow(step.0, key, times[1..], c', reset);
      forall i | 0 <= i < |times|
        ensures Run(m, key, times)[i] == (c + i < MaxRequestsPerHour)
      {
        if i > 0 {
          assert Run(m, key, times)[i] == Run(step.0, key, times[1..])[i - 1];
        }
      }
    }
  }

  /** From an unknown key, every call within one hour of the first is allowed exactly when it is
      among the first five: calls 1 to 5 pass and call 6 is refused. */
  lemma {:induction false} FreshKeyBurst(m: Table, key: string, times: seq<int>)
    requires key !in m && times != []
    requires forall i | 0 <= i < |times| :: times[i] <= times[0] + RateLimitWindow
    ensures forall i | 0 <= i < |times| :: Run(m, key, times)[i] == (i < MaxRequestsPerHour)
  {
    var step := RateStep(m, key, times[0]);
    var reset := times[0] + RateLimitWindow;
    RunInsideWindow(step.0, key, times[1..], 1, reset);
    forall i | 0 <= i < |times| ensures Run(m, key, times)[i] == (i < MaxRequestsPerHour) {
      if i > 0 {
        assert Run(m, key, times)[i] == Run(step.0, key, times[1..])[i - 1];
      }
    }
  }

  /** The in-memory table behind `checkRateLimit`. */
  class RateLimiter {
    var records: Table

    ghost predicate Valid()
      reads this
    {
      CountsInRange(records)
    }

    constructor ()
      ensures Valid() && records == map[]
    {
      records := map[];
    }

    /** `checkRateLimit(key)` with the clock reading `now` passed in. */
    method CheckRateLimit(key: string, now: int) returns (allowed: bool)
      requires Valid()
      modifies this
      ensures Valid()
      ensures (records, allowed) == RateStep(old(records), key, now)
    {
      if key !in records || now > records[key].resetTime {
        records := records[key := Record(1, now + RateLimitWindow)];
        return true;
      }
      var record := records[key];
      if record.count >= MaxRequestsPerHour {
        return false;
      }
      records := records[key := record.(count := record.count + 1)];
      allowed := true;
    }
  }
}

/** SingleShotTimer.cpp: the older, stand-alone variant of the timer state
    holder. Unlike Timer it accepts any duration, and its remaining time is
    computed whether or not it runs. */
module SingleShotTimers {
  import opened Timers

  /** Members that read the clock take the raw clock reading and the
      manager's composed reading, and read the time through the timer's own
      `timeSource`. */
  class SingleShotTimer {
    var timeoutCallback: Option<Callback>
    var timeSource: TimeSource
    var running: bool
    var expired: bool
    /** Left uninitialised by the original constructor; the model takes its
        indeterminate starting value as a constructor argument. */
    var expireTime: int

    /** `m_expired` starts false and no member ever assigns it. */
    ghost predicate Valid()
      reads this
    {
      !expired
    }

    constructor (source: TimeSource, indeterminate: int)
      ensures Valid()
      ensures !running && timeoutCallback == None && timeSource == source
      ensures expireTime == indeterminate
    {
      timeoutCallback := None;
      timeSource := source;
      running := false;
      expired := false;
      expireTime := indeterminate;
    }

    method Stop()
      requires Valid()
      modifies this
      ensures Valid() && !running
      ensures expireTime == old(expireTime) && timeoutCallback == old(timeoutCallback)
      ensures timeSource == old(timeSource)
    {
      if running {
        running := false;
      }
    }

    method SetTimeoutCallback(callback: Option<Callback>)
      requires Valid()
      modifies this
      ensures Valid() && timeoutCallback == callback
      ensures running == old(running) && expireTime == old(expireTime)
      ensures timeSource == old(timeSource)
    {
      timeoutCallback := callback;
    }

    /** No zero-duration guard: any duration, negative ones included, arms
        the timer; only a running timer ignores the call. */
    method Start(durationMs: int, raw: int, managerNow: int)
      requires Valid()
      modifies this
      ensures Valid()
      ensures old(running) ==> unchanged(this)
      ensures !old(running) ==> running && expireTime == timeSource.Read(raw, managerNow) + durationMs
      ensures timeoutCallback == old(timeoutCallback) && timeSource == old(timeSource)
    {
      if running {
        return;
      }
      running := true;
      expireTime := timeSource.Read(raw, managerNow) + durationMs;
    }

    function Expired(): (r: bool)
      requires Valid()
      reads this
      ensures !r
    {
      expired
    }

    /** Not guarded by the running flag: a stopped timer still reports the
        distance to its last expiry instant. */
    function RemainingMilliseconds(raw: int, managerNow: int): (r: int)
      reads this
      ensures timeSource.Read(raw, managerNow) + r == expireTime
    {
      expireTime - timeSource.Read(raw, managerNow)
    }
  }

  /** Stopping keeps the remaining time computable and unchanged, in contrast
      with Timer, whose remaining time drops to zero once stopped. */
  method StopKeepsRemaining(t: SingleShotTimer, raw: int, managerNow: int) returns (before: int, after: int)
    requires t.Valid() && t.running
    modifies t
    ensures before == after == old(t.expireTime) - t.timeSource.Read(raw, managerNow)
    ensures !t.running
  {
    before := t.RemainingMilliseconds(raw, managerNow);
    t.Stop();
    after := t.RemainingMilliseconds(raw, managerNow);
  }

  /** A start of a stopped timer is always taken: right after it the
      remaining time is the requested duration, zero and negative durations
      included. */
  method StartThenRemaining(t: SingleShotTimer, d: int, raw: int, managerNow: int) returns (r: int)
    requires t.Valid() && !t.running
    modifies t
    ensures r == d && t.running
  {
    t.Start(d, raw, managerNow);
    r := t.RemainingMilliseconds(raw, managerNow);
  }
}

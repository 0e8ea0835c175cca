/** The per-timer state machine of Timer.cpp: its state as a value, the
    transitions `start` and `stop` as functions on that value, and the
    `Timer` class whose methods perform them in place. */
module Timers {

  datatype Option<T> = None | Some(value: T)

  /** Where a timer reads "now". While its manager lives, the timer asks the
      manager's composed clock; once the manager is destroyed, the timer reads
      the raw clock plus the offset the manager had at that moment. */
  datatype TimeSource = ManagerBound | Standalone(offset: int)
  {
    function Read(raw: int, managerNow: int): (r: int)
      ensures ManagerBound? ==> r == managerNow
      ensures Standalone? ==> r - raw == offset
    {
      match this
      case ManagerBound => managerNow
      case Standalone(offset) => raw + offset
    }
  }

  /** One call a timeout callback makes. Callback bodies are opaque code in
      the original; here they are the list of timer and manager calls they
      perform. Timers are addressed by the handle id the manager gave them. */
  datatype Effect =
    | StartOp(id: nat, duration: int)
    | StopOp(id: nat)
    | ReleaseOp(id: nat)     // the last owning handle to the timer is dropped
    | PollOp
    | FastForwardOp(delta: int)
    | PauseOp
    | ResumeOp

  type Callback = seq<Effect>

  /** The fields of a Timer. Durations and instants are milliseconds. */
  datatype TimerState = TimerState(
    running: bool,
    expired: bool,
    singleShot: bool,
    expireTime: int,
    duration: int,
    callback: Option<Callback>,
    source: TimeSource)

  /** A timer fresh from construction: stopped, zero instants. */
  function Fresh(singleShot: bool, source: TimeSource): (t: TimerState)
    ensures !t.running && !t.expired && t.callback == None
    ensures t.expireTime == 0 && t.duration == 0
    ensures t.singleShot == singleShot && t.source == source
  {
    TimerState(false, false, singleShot, 0, 0, None, source)
  }

  /** The parts of a timer that neither `start` nor `stop` touch. */
  predicate SameIdentity(a: TimerState, b: TimerState)
  {
    a.singleShot == b.singleShot && a.expired == b.expired &&
    a.callback == b.callback && a.source == b.source
  }

  /** `Timer::start` as the model uses it: a running timer or a non-positive
      duration leaves the timer alone; otherwise it runs for `d` from `now`,
      the instant its time source reports. (The original's guard only rejects
      a zero duration; see StartedAsWritten.) */
  function Started(t: TimerState, d: int, now: int): (r: TimerState)
    ensures t.running || d <= 0 ==> r == t
    ensures !t.running && d > 0 ==> r.running && r.duration == d && r.expireTime - now == d
    ensures SameIdentity(t, r)
    ensures r.running && !t.running ==> r.expireTime > now
  {
    if t.running || d <= 0 then t
    else t.(duration := d, running := true, expireTime := now + d)
  }

  /** `Timer::start` exactly as written: only a zero duration is rejected,
      so a negative duration arms the timer in the past. */
  function StartedAsWritten(t: TimerState, d: int, now: int): (r: TimerState)
    ensures t.running || d == 0 ==> r == t
    ensures !t.running && d != 0 ==> r.running && r.duration == d && r.expireTime - now == d
    ensures SameIdentity(t, r)
  {
    if t.running || d == 0 then t
    else t.(duration := d, running := true, expireTime := now + d)
  }

  /** `Timer::stop`: clears the running flag and nothing else. */
  function Stopped(t: TimerState): (r: TimerState)
    ensures !r.running
    ensures r.expireTime == t.expireTime && r.duration == t.duration
    ensures SameIdentity(t, r)
  {
    if t.running then t.(running := false) else t
  }

  /** `Timer::getRemainingMilliseconds`, given what the time source reads. */
  function RemainingOf(t: TimerState, now: int): (r: int)
    ensures !t.running ==> r == 0
    ensures t.running ==> now + r == t.expireTime
  {
    if t.running then t.expireTime - now else 0
  }

  /** `stop` is idempotent and undoes nothing but the running flag. */
  lemma StopIdempotent(t: TimerState)
    ensures Stopped(Stopped(t)) == Stopped(t)
    ensures Stopped(t) == t.(running := false)
  {
  }

  /** Right after a successful start the remaining time is the duration;
      a rejected start leaves the remaining time as it was. */
  lemma StartThenRemaining(t: TimerState, d: int, now: int)
    ensures !t.running && d > 0 ==> RemainingOf(Started(t, d, now), now) == d
    ensures t.running || d <= 0 ==> RemainingOf(Started(t, d, now), now) == RemainingOf(t, now)
  {
  }

  /** Stopping a freshly started timer gives back the stopped timer with the
      new duration and expiry recorded. */
  lemma StartStopKeepsSchedule(t: TimerState, d: int, now: int)
    requires !t.running && d > 0
    ensures Stopped(Started(t, d, now)) == t.(duration := d, expireTime := now + d)
  {
  }

  /** The Timer object of Timer.cpp. Members that read the clock take the
      raw clock reading and the manager's composed reading, and read the
      time through the timer's own `timeSource`. */
  class Timer {
    var timeoutCallback: Option<Callback>
    var timeSource: TimeSource
    var running: bool
    var expired: bool
    const isSingleShot: bool
    var expireTime: int
    var duration: int

    /** `m_expired` starts false and no member ever assigns it. */
    ghost predicate Valid()
      reads this
    {
      !expired
    }

    function State(): TimerState
      reads this
    {
      TimerState(running, expired, isSingleShot, expireTime, duration, timeoutCallback, timeSource)
    }

    constructor (source: TimeSource, singleShot: bool)
      ensures Valid() && State() == Fresh(singleShot, source)
    {
      timeoutCallback := None;
      timeSource := source;
      running := false;
      expired := false;
      isSingleShot := singleShot;
      expireTime := 0;
      duration := 0;
    }

    method Stop()
      requires Valid()
      modifies this
      ensures Valid() && State() == Stopped(old(State()))
    {
      if running {
        running := false;
      }
    }

    function IsRunning(): (r: bool)
      reads this
      ensures r <==> State().running
    {
      running
    }

    method SetTimeoutCallback(callback: Option<Callback>)
      requires Valid()
      modifies this
      ensures Valid() && State() == old(State()).(callback := callback)
    {
      timeoutCallback := callback;
    }

    method Start(d: int, raw: int, managerNow: int)
      requires Valid()
      modifies this
      ensures Valid() && State() == Started(old(State()), d, old(timeSource).Read(raw, managerNow))
    {
      var now := timeSource.Read(raw, managerNow);
      if running || d <= 0 {
        return;
      }
      duration := d;
      running := true;
      expireTime := now + d;
    }

    function Expired(): (r: bool)
      requires Valid()
      reads this
      ensures !r
    {
      expired
    }

    function RemainingMilliseconds(raw: int, managerNow: int): (r: int)
      reads this
      ensures r == RemainingOf(State(), timeSource.Read(raw, managerNow))
    {
      if running then expireTime - timeSource.Read(raw, managerNow) else 0
    }
  }
}

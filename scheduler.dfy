/** The dispatch engine of TimerManager::poll as functions on the registry:
    the scan that prunes dead entries and picks the earliest due timer, one
    dispatch, and the whole poll (`Run`) with its termination argument. */
module Scheduler {
  import opened Timers

  /** A registry entry: the handle id the manager gave the timer, whether a
      caller still owns the timer (the weak reference can still be locked),
      and the timer's state. */
  datatype Entry = Entry(id: nat, alive: bool, timer: TimerState)

  /** One dispatch: which timer fired, at which logical instant. The timer's
      callback, if it has one, is invoked at that instant. */
  datatype Firing = Firing(id: nat, at: int)

  /** The registry after a poll and the dispatches it made, in order. */
  datatype Outcome = Outcome(timers: seq<Entry>, trace: seq<Firing>)

  predicate Pending(e: Entry)
  {
    e.alive && e.timer.running
  }

  /** The scan's test: alive, running, and expired by the horizon. */
  predicate Due(e: Entry, horizon: int)
  {
    Pending(e) && e.timer.expireTime <= horizon
  }

  predicate IdsIncreasing(s: seq<Entry>)
  {
    forall i, j :: 0 <= i < j < |s| ==> s[i].id < s[j].id
  }

  // ---------------------------------------------------------------------
  // The scan: pruning and choosing

  /** The registry with dead entries erased, the rest kept in order. */
  function Live(s: seq<Entry>): (r: seq<Entry>)
    ensures |r| <= |s|
  {
    if s == [] then []
    else
      var n := |s| - 1;
      if s[n].alive then Live(s[..n]) + [s[n]] else Live(s[..n])
  }

  /** Pruning removes exactly the dead entries. */
  lemma {:induction false} LiveMembers(s: seq<Entry>)
    ensures forall e :: e in Live(s) <==> e in s && e.alive
    decreases |s|
  {
    if s != [] {
      var n := |s| - 1;
      assert s == s[..n] + [s[n]];
      LiveMembers(s[..n]);
    }
  }

  /** The earliest due entry, the first in registry order among equals: the
      linear scan keeps its candidate unless a later entry is strictly
      earlier. (What the choice satisfies is EarliestSpec.) */
  function Earliest(s: seq<Entry>, horizon: int): (r: Option<nat>)
    ensures r.Some? ==> r.value < |s|
  {
    if s == [] then None
    else
      var n := |s| - 1;
      var best := Earliest(s[..n], horizon);
      if Due(s[n], horizon) && (best.None? || s[best.value].timer.expireTime > s[n].timer.expireTime)
      then Some(n)
      else best
  }

  /** The scan's choice is due by the horizon; its expiry is minimal among
      the due entries, and strictly below that of every due entry before it;
      there is no choice exactly when nothing is due. */
  lemma {:induction false} EarliestSpec(s: seq<Entry>, horizon: int)
    ensures var r := Earliest(s, horizon);
      && (r.Some? ==> Due(s[r.value], horizon))
      && (r.Some? ==> forall j :: 0 <= j < |s| && Due(s[j], horizon) ==>
                        s[r.value].timer.expireTime <= s[j].timer.expireTime)
      && (r.Some? ==> forall j :: 0 <= j < r.value && Due(s[j], horizon) ==>
                        s[r.value].timer.expireTime < s[j].timer.expireTime)
      && (r.None? <==> forall j :: 0 <= j < |s| ==> !Due(s[j], horizon))
    decreases |s|
  {
    if s != [] {
      var n := |s| - 1;
      var p := s[..n];
      EarliestSpec(p, horizon);
      assert forall j :: 0 <= j < n ==> p[j] == s[j];
    }
  }

  // ---------------------------------------------------------------------
  // Effects of callbacks and of callers' handle operations

  /** Whether `op` is a call on the timer with handle `id`. */
  predicate Addresses(op: Effect, id: nat)
  {
    (op.StartOp? || op.StopOp? || op.ReleaseOp?) && op.id == id
  }

  /** A call on one timer: start and stop change its state as Timer.cpp
      does, release drops the last owning handle; the handle and the kind of
      timer never change. */
  function Touch(e: Entry, op: Effect, now: int): (r: Entry)
    ensures r.id == e.id && SameIdentity(e.timer, r.timer)
    ensures r.alive == (e.alive && !op.ReleaseOp?)
    ensures op.StartOp? ==> r.timer == Started(e.timer, op.duration, now)
    ensures op.StopOp? ==> r.timer == Stopped(e.timer)
    ensures !op.StartOp? && !op.StopOp? ==> r.timer == e.timer
  {
    match op
    case StartOp(_, d) => e.(timer := Started(e.timer, d, now))
    case StopOp(_) => e.(timer := Stopped(e.timer))
    case ReleaseOp(_) => e.(alive := false)
    case _ => e
  }

  /** One call, made when the timers' clock reads `now`. The manager calls
      (poll, fastForward, pause, resume) leave the registry alone: they are
      performed on the manager itself. */
  function ApplyEffect(s: seq<Entry>, op: Effect, now: int): (r: seq<Entry>)
    ensures |r| == |s|
    ensures forall j :: 0 <= j < |s| ==> r[j] == if Addresses(op, s[j].id) then Touch(s[j], op, now) else s[j]
  {
    seq(|s|, j requires 0 <= j < |s| => if Addresses(op, s[j].id) then Touch(s[j], op, now) else s[j])
  }

  /** How an entry can change while the clock is frozen at `t`: it keeps its
      id and kind, it never comes back to life, a positive duration stays
      positive, and if it is running afterwards it either kept its expiry
      from a run that was already on or was started strictly after `t`. */
  ghost predicate Evolves(b: Entry, a: Entry, t: int)
  {
    && a.id == b.id
    && a.timer.singleShot == b.timer.singleShot
    && (a.alive ==> b.alive)
    && (b.timer.duration > 0 ==> a.timer.duration > 0)
    && (a.timer.running ==>
          (b.timer.running && a.timer.expireTime == b.timer.expireTime) || a.timer.expireTime > t)
  }

  ghost predicate EvolvesAll(b: seq<Entry>, a: seq<Entry>, t: int)
  {
    |a| == |b| && forall j :: 0 <= j < |b| ==> Evolves(b[j], a[j], t)
  }

  /** The calls of a callback, in order. */
  function ApplyEffects(s: seq<Entry>, ops: seq<Effect>, now: int): (r: seq<Entry>)
    ensures |r| == |s|
    decreases |ops|
  {
    if ops == [] then s
    else ApplyEffects(ApplyEffect(s, ops[0], now), ops[1..], now)
  }

  /** While the clock is frozen at `now`, a callback's calls change every
      entry only as `Evolves` allows. */
  lemma {:induction false} ApplyEffectsEvolve(s: seq<Entry>, ops: seq<Effect>, now: int)
    ensures EvolvesAll(s, ApplyEffects(s, ops, now), now)
    decreases |ops|
  {
    if ops != [] {
      var s' := ApplyEffect(s, ops[0], now);
      var r := ApplyEffects(s', ops[1..], now);
      ApplyEffectsEvolve(s', ops[1..], now);
      forall j | 0 <= j < |s|
        ensures Evolves(s[j], r[j], now)
      {
        EvolvesTransitive(s[j], s'[j], r[j], now);
      }
    }
  }

  /** Replaces the callback of the timer with handle `id`. */
  function WithCallback(s: seq<Entry>, id: nat, callback: Option<Callback>): (r: seq<Entry>)
    ensures |r| == |s|
    ensures forall j :: 0 <= j < |s| && s[j].id == id ==> r[j].timer == s[j].timer.(callback := callback)
    ensures forall j :: 0 <= j < |s| && s[j].id != id ==> r[j] == s[j]
    ensures forall j :: 0 <= j < |s| ==> r[j].id == s[j].id && r[j].alive == s[j].alive
  {
    seq(|s|, j requires 0 <= j < |s| =>
      if s[j].id == id then s[j].(timer := s[j].timer.(callback := callback)) else s[j])
  }

  // ---------------------------------------------------------------------
  // One dispatch

  /** Dispatch of entry `i` at its expiry instant: stop it, run its callback
      with the clock frozen at that instant, and re-arm it with its duration
      unless it is single-shot. */
  function Dispatch(s: seq<Entry>, i: nat): (r: seq<Entry>)
    requires i < |s|
    ensures |r| == |s|
  {
    var at := s[i].timer.expireTime;
    var stopped := s[i := s[i].(timer := Stopped(s[i].timer))];
    var called := match s[i].timer.callback
      case None => stopped
      case Some(cb) => ApplyEffects(stopped, cb, at);
    var t := called[i].timer;
    if t.singleShot then called else called[i := called[i].(timer := Started(t, t.duration, at))]
  }

  /** Dispatch with the re-arm exactly as written (StartedAsWritten), for a
      timer without callback. */
  function DispatchAsWritten(s: seq<Entry>, i: nat): (r: seq<Entry>)
    requires i < |s| && s[i].timer.callback == None
    ensures |r| == |s| && forall j :: 0 <= j < |s| && j != i ==> r[j] == s[j]
    ensures r[i].timer.callback == None
  {
    var t := Stopped(s[i].timer);
    if t.singleShot then s[i := s[i].(timer := t)]
    else s[i := s[i].(timer := StartedAsWritten(t, t.duration, s[i].timer.expireTime))]
  }

  /** `n` successive dispatches of entry `i`, as written. */
  function DispatchedAsWritten(s: seq<Entry>, i: nat, n: nat): (r: seq<Entry>)
    requires i < |s| && s[i].timer.callback == None
    ensures |r| == |s| && r[i].timer.callback == None
    decreases n
  {
    if n == 0 then s else DispatchedAsWritten(DispatchAsWritten(s, i), i, n - 1)
  }

  /** With the original guard, a cyclic timer started with a negative
      duration is due again, one period EARLIER, after every dispatch: the
      poll loop never runs out of due timers, and its instants go backwards. */
  lemma {:induction false} NegativeDurationNeverSettles(s: seq<Entry>, i: nat, horizon: int, n: nat)
    requires i < |s| && s[i].timer.callback == None && Due(s[i], horizon)
    requires !s[i].timer.singleShot && s[i].timer.duration < 0
    ensures var r := DispatchedAsWritten(s, i, n);
      && Due(r[i], horizon) && r[i].timer.duration == s[i].timer.duration
      && r[i].timer.expireTime == s[i].timer.expireTime + n * s[i].timer.duration
    decreases n
  {
    if n > 0 {
      var d := DispatchAsWritten(s, i);
      assert d[i].timer.expireTime == s[i].timer.expireTime + s[i].timer.duration;
      NegativeDurationNeverSettles(d, i, horizon, n - 1);
    }
  }

  lemma {:induction false} EvolvesTransitive(x: Entry, y: Entry, z: Entry, t: int)
    requires Evolves(x, y, t) && Evolves(y, z, t)
    ensures Evolves(x, z, t)
  {
  }

  /** Every entry evolves, over a dispatch, from its state once the fired
      timer is stopped. */
  lemma DispatchEvolves(s: seq<Entry>, i: nat)
    requires i < |s|
    ensures EvolvesAll(s[i := s[i].(timer := Stopped(s[i].timer))], Dispatch(s, i), s[i].timer.expireTime)
  {
    var at := s[i].timer.expireTime;
    var stopped := s[i := s[i].(timer := Stopped(s[i].timer))];
    var called := match s[i].timer.callback
      case None => stopped
      case Some(cb) => ApplyEffects(stopped, cb, at);
    if s[i].timer.callback.Some? {
      ApplyEffectsEvolve(stopped, s[i].timer.callback.value, at);
    }
    assert EvolvesAll(stopped, called, at);
    var r := Dispatch(s, i);
    forall j | 0 <= j < |s|
      ensures Evolves(stopped[j], r[j], at)
    {
      assert Evolves(called[j], r[j], at);
      EvolvesTransitive(stopped[j], called[j], r[j], at);
    }
  }

  /** A cyclic timer that was armed with a positive duration is running
      again, strictly later, after its own dispatch, even when its callback
      stopped it. */
  lemma CyclicRearmed(s: seq<Entry>, i: nat)
    requires i < |s| && !s[i].timer.singleShot && s[i].timer.duration > 0
    ensures Dispatch(s, i)[i].timer.running
    ensures Dispatch(s, i)[i].timer.expireTime > s[i].timer.expireTime
  {
    DispatchEvolves(s, i);
  }

  /** Unless its own callback made a call on it, a cyclic timer is due
      again exactly one duration after the instant it fired at. */
  lemma CyclicRearmedAtNextPeriod(s: seq<Entry>, i: nat)
    requires i < |s| && !s[i].timer.singleShot && s[i].timer.duration > 0
    requires s[i].timer.callback.Some? ==> forall k :: 0 <= k < |s[i].timer.callback.value| ==>
                                            !Addresses(s[i].timer.callback.value[k], s[i].id)
    ensures Dispatch(s, i)[i].timer.running
    ensures Dispatch(s, i)[i].timer.expireTime == s[i].timer.expireTime + s[i].timer.duration
    ensures Dispatch(s, i)[i].timer.duration == s[i].timer.duration
  {
    var at := s[i].timer.expireTime;
    var stopped := s[i := s[i].(timer := Stopped(s[i].timer))];
    if s[i].timer.callback.Some? {
      UntouchedByEffects(stopped, s[i].timer.callback.value, at, i);
    }
  }

  /** A callback that restarts its own timer wins over the re-arm, whatever
      the timer's kind: the re-arm of a cyclic timer finds it running and
      leaves it alone, so the timer runs for the callback's duration from
      the instant it fired at. */
  lemma CallbackRestartKept(s: seq<Entry>, i: nat, d: int)
    requires i < |s| && s[i].timer.callback == Some([StartOp(s[i].id, d)]) && d > 0
    ensures Dispatch(s, i)[i].timer.running
    ensures Dispatch(s, i)[i].timer.duration == d
    ensures Dispatch(s, i)[i].timer.expireTime == s[i].timer.expireTime + d
  {
    var at := s[i].timer.expireTime;
    var stopped := s[i := s[i].(timer := Stopped(s[i].timer))];
    var cb := [StartOp(s[i].id, d)];
    assert ApplyEffects(stopped, cb, at) == ApplyEffects(ApplyEffect(stopped, cb[0], at), cb[1..], at);
    assert cb[1..] == [];
  }

  /** A single-shot timer is stopped after its dispatch unless its own
      callback restarted it. */
  lemma SingleShotStaysStopped(s: seq<Entry>, i: nat)
    requires i < |s| && s[i].timer.singleShot
    requires s[i].timer.callback.Some? ==> forall k :: 0 <= k < |s[i].timer.callback.value| ==>
                                            !Addresses(s[i].timer.callback.value[k], s[i].id)
    ensures !Dispatch(s, i)[i].timer.running
  {
    var at := s[i].timer.expireTime;
    var stopped := s[i := s[i].(timer := Stopped(s[i].timer))];
    if s[i].timer.callback.Some? {
      UntouchedByEffects(stopped, s[i].timer.callback.value, at, i);
    }
  }

  lemma {:induction false} UntouchedByEffects(s: seq<Entry>, ops: seq<Effect>, now: int, i: nat)
    requires i < |s|
    requires forall k :: 0 <= k < |ops| ==> !Addresses(ops[k], s[i].id)
    ensures ApplyEffects(s, ops, now)[i] == s[i]
    decreases |ops|
  {
    if ops != [] {
      var s' := ApplyEffect(s, ops[0], now);
      assert s'[i] == s[i];
      forall k | 0 <= k < |ops[1..]|
        ensures !Addresses(ops[1..][k], s'[i].id)
      {
        assert ops[1..][k] == ops[k + 1];
      }
      UntouchedByEffects(s', ops[1..], now, i);
    }
  }

  // ---------------------------------------------------------------------
  // The termination measure of poll

  /** Every pending timer is due no earlier than `t`. */
  ghost predicate Floor(s: seq<Entry>, t: int)
  {
    forall e :: e in s && Pending(e) ==> e.timer.expireTime >= t
  }

  predicate AtInstant(e: Entry, t: int)
  {
    Pending(e) && e.timer.expireTime == t
  }

  /** How many pending timers are due exactly at `t`. */
  function CountAt(s: seq<Entry>, t: int): nat
  {
    if s == [] then 0
    else CountAt(s[..|s| - 1], t) + (if AtInstant(s[|s| - 1], t) then 1 else 0)
  }

  /** A bound from which a poll's scan horizon is reachable: no later than
      the horizon and no later than any pending timer. */
  function LowerBound(s: seq<Entry>, horizon: int): (lo: int)
    ensures lo <= horizon && Floor(s, lo)
  {
    if s == [] then horizon
    else
      var n := |s| - 1;
      assert s == s[..n] + [s[n]];
      var rest := LowerBound(s[..n], horizon);
      if Pending(s[n]) && s[n].timer.expireTime < rest then s[n].timer.expireTime else rest
  }

  lemma {:induction false} CountMonotone(a: seq<Entry>, b: seq<Entry>, t: int)
    requires |a| == |b|
    requires forall j :: 0 <= j < |b| && AtInstant(b[j], t) ==> AtInstant(a[j], t)
    ensures CountAt(b, t) <= CountAt(a, t)
    decreases |a|
  {
    if a != [] {
      var n := |a| - 1;
      CountMonotone(a[..n], b[..n], t);
    }
  }

  lemma {:induction false} CountStrict(a: seq<Entry>, b: seq<Entry>, t: int, i: nat)
    requires |a| == |b| && i < |a|
    requires forall j :: 0 <= j < |b| && AtInstant(b[j], t) ==> AtInstant(a[j], t)
    requires AtInstant(a[i], t) && !AtInstant(b[i], t)
    ensures CountAt(b, t) < CountAt(a, t)
    decreases |a|
  {
    var n := |a| - 1;
    if i == n {
      CountMonotone(a[..n], b[..n], t);
    } else {
      CountStrict(a[..n], b[..n], t, i);
    }
  }

  /** Pruning dead entries does not change the count. */
  lemma {:induction false} CountLive(s: seq<Entry>, t: int)
    ensures CountAt(Live(s), t) == CountAt(s, t)
    decreases |s|
  {
    if s != [] {
      var n := |s| - 1;
      CountLive(s[..n], t);
      if s[n].alive {
        var p := Live(s[..n]) + [s[n]];
        assert p[..|p| - 1] == Live(s[..n]);
      }
    }
  }

  /** One dispatch of an earliest pending timer keeps every pending timer at
      or after its instant and strictly lowers the number due exactly then. */
  lemma DispatchProgress(s: seq<Entry>, i: nat)
    requires i < |s| && Pending(s[i])
    requires forall j :: 0 <= j < |s| && Pending(s[j]) ==> s[j].timer.expireTime >= s[i].timer.expireTime
    ensures Floor(Dispatch(s, i), s[i].timer.expireTime)
    ensures CountAt(Dispatch(s, i), s[i].timer.expireTime) < CountAt(s, s[i].timer.expireTime)
  {
    var at := s[i].timer.expireTime;
    var stopped := s[i := s[i].(timer := Stopped(s[i].timer))];
    var r := Dispatch(s, i);
    DispatchEvolves(s, i);
    forall e | e in r && Pending(e)
      ensures e.timer.expireTime >= at
    {
      var j :| 0 <= j < |r| && r[j] == e;
      assert Evolves(stopped[j], r[j], at);
    }
    forall j | 0 <= j < |r| && AtInstant(r[j], at)
      ensures AtInstant(s[j], at)
    {
      assert Evolves(stopped[j], r[j], at);
    }
    assert !AtInstant(r[i], at) by {
      assert Evolves(stopped[i], r[i], at);
    }
    CountStrict(s, r, at, i);
  }

  /** The scan's choice is due no later than any pending timer. */
  lemma EarliestIsFloor(s: seq<Entry>, horizon: int, i: nat)
    requires Earliest(s, horizon) == Some(i)
    ensures i < |s| && Pending(s[i]) && s[i].timer.expireTime <= horizon
    ensures forall j :: 0 <= j < |s| && Pending(s[j]) ==> s[j].timer.expireTime >= s[i].timer.expireTime
  {
    EarliestSpec(s, horizon);
  }

  // ---------------------------------------------------------------------
  // The whole poll

  /** The dispatch loop of `poll` with its horizon fixed: scan (pruning),
      dispatch the earliest due timer, repeat until nothing is due. `lo` is
      a ghost bound for termination: every pending timer is due at or after
      it, and it only grows. */
  function Run(s: seq<Entry>, horizon: int, lo: int): (o: Outcome)
    requires lo <= horizon && Floor(s, lo)
    ensures |o.timers| <= |s|
    ensures o.trace == [] <==> Earliest(Live(s), horizon) == None
    decreases horizon - lo, CountAt(s, lo)
  {
    var p := Live(s);
    match Earliest(p, horizon)
    case None => Outcome(p, [])
    case Some(i) =>
      var at := p[i].timer.expireTime;
      LiveMembers(s);
      EarliestIsFloor(p, horizon, i);
      DispatchProgress(p, i);
      CountLive(s, lo);
      var rest := Run(Dispatch(p, i), horizon, at);
      Outcome(rest.timers, [Firing(p[i].id, at)] + rest.trace)
  }

  /** A whole poll whose scan horizon is `horizon`. */
  function RunPoll(s: seq<Entry>, horizon: int): (o: Outcome)
    ensures |o.timers| <= |s|
    ensures o.trace == [] <==> Earliest(Live(s), horizon) == None
  {
    Run(s, horizon, LowerBound(s, horizon))
  }

  /** The last instant a poll dispatched at, which becomes the manager's
      poll timestamp; `previous` if nothing fired. */
  function LastStamp(trace: seq<Firing>, previous: int): int
  {
    if trace == [] then previous else trace[|trace| - 1].at
  }

  predicate Chronological(trace: seq<Firing>)
  {
    forall a, b :: 0 <= a < b < |trace| ==> trace[a].at <= trace[b].at
  }

  // ---------------------------------------------------------------------
  // Properties of a poll

  /** Callbacks fire in non-decreasing order of their instants, all within
      the scan horizon. */
  lemma {:induction false} RunChronological(s: seq<Entry>, horizon: int, lo: int)
    requires lo <= horizon && Floor(s, lo)
    ensures Chronological(Run(s, horizon, lo).trace)
    ensures Within(Run(s, horizon, lo).trace, lo, horizon)
    decreases horizon - lo, CountAt(s, lo)
  {
    var p := Live(s);
    match Earliest(p, horizon)
    case None =>
    case Some(i) =>
      var at := p[i].timer.expireTime;
      LiveMembers(s);
      EarliestIsFloor(p, horizon, i);
      DispatchProgress(p, i);
      CountLive(s, lo);
      RunChronological(Dispatch(p, i), horizon, at);
      ChronologicalCons(Firing(p[i].id, at), Run(Dispatch(p, i), horizon, at).trace, lo, horizon);
  }

  predicate Within(trace: seq<Firing>, lo: int, horizon: int)
  {
    forall k :: 0 <= k < |trace| ==> lo <= trace[k].at <= horizon
  }

  lemma ChronologicalCons(f: Firing, rest: seq<Firing>, lo: int, horizon: int)
    requires lo <= f.at && Chronological(rest) && Within(rest, f.at, horizon) && f.at <= horizon
    ensures Chronological([f] + rest) && Within([f] + rest, lo, horizon)
  {
    var tr := [f] + rest;
    forall a, b | 0 <= a < b < |tr|
      ensures tr[a].at <= tr[b].at
    {
      assert tr[b] == rest[b - 1];
      if a > 0 {
        assert tr[a] == rest[a - 1];
      }
    }
  }

  /** When a poll ends, no dead entry is left and no timer is due by the
      horizon. */
  lemma {:induction false} RunQuiescent(s: seq<Entry>, horizon: int, lo: int)
    requires lo <= horizon && Floor(s, lo)
    ensures forall j :: 0 <= j < |Run(s, horizon, lo).timers| ==>
              Run(s, horizon, lo).timers[j].alive && !Due(Run(s, horizon, lo).timers[j], horizon)
    decreases horizon - lo, CountAt(s, lo)
  {
    var p := Live(s);
    match Earliest(p, horizon)
    case None =>
      LiveMembers(s);
      EarliestSpec(p, horizon);
      forall j | 0 <= j < |p|
        ensures p[j].alive
      {
        assert p[j] in p;
      }
    case Some(i) =>
      var at := p[i].timer.expireTime;
      LiveMembers(s);
      EarliestIsFloor(p, horizon, i);
      DispatchProgress(p, i);
      CountLive(s, lo);
      RunQuiescent(Dispatch(p, i), horizon, at);
  }

  /** If nothing is due by the horizon, a poll only prunes. */
  lemma RunIdle(s: seq<Entry>, horizon: int, lo: int)
    requires lo <= horizon && Floor(s, lo)
    requires forall j :: 0 <= j < |s| ==> !Due(s[j], horizon)
    ensures Run(s, horizon, lo) == Outcome(Live(s), [])
  {
    LiveMembers(s);
    forall j | 0 <= j < |Live(s)|
      ensures !Due(Live(s)[j], horizon)
    {
      assert Live(s)[j] in s;
    }
    EarliestSpec(Live(s), horizon);
  }

  /** Pruning is idempotent, and creation appends at the end. */
  lemma {:induction false} LiveOfLive(s: seq<Entry>)
    ensures Live(Live(s)) == Live(s)
    decreases |s|
  {
    if s != [] {
      var n := |s| - 1;
      LiveOfLive(s[..n]);
      if s[n].alive {
        LiveAppend(Live(s[..n]), s[n]);
      }
    }
  }

  lemma LiveAppend(s: seq<Entry>, e: Entry)
    requires e.alive
    ensures Live(s + [e]) == Live(s) + [e]
  {
    assert (s + [e])[..|s|] == s;
  }

  /** Pruning keeps creation order. */
  lemma {:induction false} LiveKeepsOrder(s: seq<Entry>)
    requires IdsIncreasing(s)
    ensures IdsIncreasing(Live(s))
    decreases |s|
  {
    if s != [] {
      var n := |s| - 1;
      LiveKeepsOrder(s[..n]);
      if s[n].alive {
        LiveMembers(s[..n]);
        var p := Live(s[..n]);
        forall k | 0 <= k < |p|
          ensures p[k].id < s[n].id
        {
          assert p[k] in s[..n];
        }
      }
    }
  }

  /** One turn of the poll loop on a pruned registry whose scan chose `i`:
      the registry after the dispatch, once pruned, is again a valid start
      for the rest of the poll, with the measure lowered. */
  lemma RunStepMeasure(s: seq<Entry>, horizon: int, lo: int, i: nat)
    requires lo <= horizon && Floor(s, lo)
    requires Earliest(s, horizon) == Some(i)
    ensures var at := s[i].timer.expireTime;
      var d := Live(Dispatch(s, i));
      && lo <= at <= horizon && Floor(d, at) && Live(d) == d
      && (at > lo || CountAt(d, at) < CountAt(s, lo))
  {
    var at := s[i].timer.expireTime;
    var p := Dispatch(s, i);
    EarliestIsFloor(s, horizon, i);
    assert s[i] in s;
    DispatchProgress(s, i);
    CountLive(p, at);
    LiveMembers(p);
    LiveOfLive(p);
  }

  /** ... and the poll fires `i` at its expiry instant, then continues from
      there. */
  lemma RunStep(s: seq<Entry>, horizon: int, lo: int, i: nat)
    requires lo <= horizon && Floor(s, lo) && Live(s) == s
    requires Earliest(s, horizon) == Some(i)
    ensures var at := s[i].timer.expireTime;
      var d := Live(Dispatch(s, i));
      && lo <= at <= horizon && Floor(d, at) && Live(d) == d
      && (at > lo || CountAt(d, at) < CountAt(s, lo))
      && Run(s, horizon, lo) == Outcome(Run(d, horizon, at).timers, [Firing(s[i].id, at)] + Run(d, horizon, at).trace)
  {
    var at := s[i].timer.expireTime;
    RunStepMeasure(s, horizon, lo, i);
    EarliestIsFloor(s, horizon, i);
    DispatchProgress(s, i);
    RunOfLive(Dispatch(s, i), horizon, at);
  }

  /** What the poll loop keeps: the registry is pruned, the measure's bound
      holds, and the callbacks fired so far followed by a poll of the current
      registry give the whole poll `goal`. */
  ghost predicate PollInvariant(s: seq<Entry>, fired: seq<Firing>, horizon: int, lo: int, goal: Outcome)
  {
    && lo <= horizon && Floor(s, lo) && Live(s) == s
    && Run(s, horizon, lo).timers == goal.timers
    && fired + Run(s, horizon, lo).trace == goal.trace
  }

  lemma PollInvariantStep(s: seq<Entry>, fired: seq<Firing>, horizon: int, lo: int, goal: Outcome, i: nat,
                           d: seq<Entry>, fired': seq<Firing>, at: int)
    requires PollInvariant(s, fired, horizon, lo, goal)
    requires Earliest(s, horizon) == Some(i)
    requires at == s[i].timer.expireTime && d == Live(Dispatch(s, i))
    requires fired' == fired + [Firing(s[i].id, at)]
    ensures PollInvariant(d, fired', horizon, at, goal)
    ensures lo <= at <= horizon && (at > lo || CountAt(d, at) < CountAt(s, lo))
  {
    RunStep(s, horizon, lo, i);
    AppendAssociative(fired, [Firing(s[i].id, at)], Run(d, horizon, at).trace);
  }

  lemma AppendAssociative<T>(a: seq<T>, b: seq<T>, c: seq<T>)
    ensures (a + b) + c == a + (b + c)
  {
  }

  /** The invariant holds once the first scan has pruned the registry ... */
  lemma PollStarts(s: seq<Entry>, horizon: int)
    ensures PollInvariant(Live(s), [], horizon, LowerBound(s, horizon), RunPoll(s, horizon))
  {
    RunOfLive(s, horizon, LowerBound(s, horizon));
    LiveOfLive(s);
  }

  /** ... and when the scan finds nothing more, the poll has produced its
      outcome. */
  lemma PollEnds(s: seq<Entry>, fired: seq<Firing>, horizon: int, lo: int, goal: Outcome)
    requires PollInvariant(s, fired, horizon, lo, goal) && Earliest(s, horizon) == None
    ensures s == goal.timers && fired == goal.trace
  {
    RunStop(s, horizon, lo);
    assert fired + [] == fired;
  }

  /** The poll loop ends on a pruned registry where the scan finds nothing. */
  lemma RunStop(s: seq<Entry>, horizon: int, lo: int)
    requires lo <= horizon && Floor(s, lo) && Live(s) == s
    requires Earliest(s, horizon) == None
    ensures Run(s, horizon, lo) == Outcome(s, [])
  {
  }

  /** A poll's result depends on the registry only through its live part. */
  lemma RunOfLive(s: seq<Entry>, horizon: int, lo: int)
    requires lo <= horizon && Floor(s, lo)
    ensures Floor(Live(s), lo)
    ensures Run(Live(s), horizon, lo) == Run(s, horizon, lo)
  {
    LiveMembers(s);
    LiveOfLive(s);
  }
}

/** TimerManager.cpp: the object that creates timers, keeps a registry of
    them, composes the clock they read, and polls them. The raw clock is an
    argument `raw` of every operation that reads it. */
module Manager {
  import opened Timers
  import opened Clock
  import opened Scheduler

  /** A registry entry after teardown: a timer a caller still owns reads the
      stand-alone source from then on; dead entries are skipped. */
  function Rebound(e: Entry, source: TimeSource): (r: Entry)
    ensures r.id == e.id && r.alive == e.alive
    ensures e.alive ==> r.timer == e.timer.(source := source)
    ensures !e.alive ==> r == e
  {
    if e.alive then e.(timer := e.timer.(source := source)) else e
  }

  class TimerManager {
    /** The registry, in creation order. Each entry stands for one weak
        reference; `alive` is whether it can still be locked. */
    var timers: seq<Entry>
    /** The handle id the next created timer gets. */
    var nextId: nat
    var pollTimeStamp: int
    var fastForwardOffset: int
    var pausingTime: int
    var pausingOffset: int
    var paused: bool
    var isPolling: bool

    /** Handles are distinct and the registry lists them in creation order. */
    ghost predicate Valid()
      reads this
    {
      IdsIncreasing(timers) && forall j :: 0 <= j < |timers| ==> timers[j].id < nextId
    }

    function Time(): ClockState
      reads this
    {
      ClockState(isPolling, pollTimeStamp, paused, pausingTime, fastForwardOffset, pausingOffset)
    }

    /** The composed time source the manager hands to its timers. */
    function Now(raw: int): (r: int)
      reads this
      ensures isPolling ==> r == pollTimeStamp
      ensures !isPolling && paused ==> r == pausingTime + fastForwardOffset + pausingOffset
      ensures !isPolling && !paused ==> r - raw == fastForwardOffset + pausingOffset
    {
      ComposedNow(Time(), raw)
    }

    constructor ()
      ensures Valid() && Time() == Initial()
      ensures timers == [] && nextId == 0
    {
      timers := [];
      nextId := 0;
      pollTimeStamp := 0;
      fastForwardOffset := 0;
      pausingTime := 0;
      pausingOffset := 0;
      paused := false;
      isPolling := false;
    }

    method CreateSingleShotTimer() returns (id: nat)
      requires Valid()
      modifies this
      ensures Valid() && Time() == old(Time())
      ensures id == old(nextId) && nextId == id + 1
      ensures timers == old(timers) + [Entry(id, true, Fresh(true, ManagerBound))]
    {
      id := nextId;
      timers := timers + [Entry(id, true, Fresh(true, ManagerBound))];
      nextId := nextId + 1;
    }

    method CreateTickTimer() returns (id: nat)
      requires Valid()
      modifies this
      ensures Valid() && Time() == old(Time())
      ensures id == old(nextId) && nextId == id + 1
      ensures timers == old(timers) + [Entry(id, true, Fresh(false, ManagerBound))]
    {
      id := nextId;
      timers := timers + [Entry(id, true, Fresh(false, ManagerBound))];
      nextId := nextId + 1;
    }

    // -------------------------------------------------------------------
    // What a caller does through a timer handle. The timer reads the
    // manager's composed clock.

    method StartTimer(id: nat, duration: int, raw: int)
      requires Valid()
      modifies this
      ensures Valid() && Time() == old(Time()) && nextId == old(nextId)
      ensures timers == ApplyEffect(old(timers), StartOp(id, duration), old(Now(raw)))
    {
      timers := ApplyEffect(timers, StartOp(id, duration), Now(raw));
    }

    method StopTimer(id: nat)
      requires Valid()
      modifies this
      ensures Valid() && Time() == old(Time()) && nextId == old(nextId)
      ensures forall now :: timers == ApplyEffect(old(timers), StopOp(id), now)
    {
      timers := ApplyEffect(timers, StopOp(id), 0);
    }

    /** The caller drops its last owning handle. */
    method ReleaseHandle(id: nat)
      requires Valid()
      modifies this
      ensures Valid() && Time() == old(Time()) && nextId == old(nextId)
      ensures forall now :: timers == ApplyEffect(old(timers), ReleaseOp(id), now)
    {
      timers := ApplyEffect(timers, ReleaseOp(id), 0);
    }

    method SetTimeoutCallback(id: nat, callback: Option<Callback>)
      requires Valid()
      modifies this
      ensures Valid() && Time() == old(Time()) && nextId == old(nextId)
      ensures timers == WithCallback(old(timers), id, callback)
    {
      timers := WithCallback(timers, id, callback);
    }

    // -------------------------------------------------------------------
    // Time control

    method FastForward(delta: int, raw: int) returns (fired: seq<Firing>)
      requires Valid()
      modifies this
      decreases if isPolling then 0 else 6
      ensures Valid() && nextId == old(nextId)
      ensures old(isPolling) ==> timers == old(timers) && Time() == old(Time()) && fired == []
      ensures !old(isPolling) ==>
        var c := WithFastForward(old(Time()), delta);
        var o := RunPoll(old(timers), ComposedNow(c, raw));
        && timers == o.timers && fired == o.trace
        && Time() == c.(pollTimeStamp := LastStamp(o.trace, c.pollTimeStamp))
    {
      if isPolling {
        return [];
      }
      ghost var c := WithFastForward(Time(), delta);
      fastForwardOffset := fastForwardOffset + delta;
      assert Time() == c;
      ghost var horizon := Now(raw);
      ghost var registry := timers;
      fired := Poll(raw);
      assert timers == RunPoll(registry, horizon).timers && fired == RunPoll(registry, horizon).trace;
    }

    method Pause(raw: int)
      requires Valid()
      modifies this
      ensures Valid() && timers == old(timers) && nextId == old(nextId)
      ensures Time() == Paused(old(Time()), raw)
    {
      if isPolling {
        return;
      }
      if !paused {
        pausingTime := raw;
        paused := true;
      }
    }

    /** Resumes with the accumulating offset (see Findings). */
    method Resume(raw: int)
      requires Valid()
      modifies this
      ensures Valid() && timers == old(timers) && nextId == old(nextId)
      ensures Time() == Resumed(old(Time()), raw)
    {
      if isPolling {
        return;
      }
      if paused {
        paused := false;
        pausingOffset := pausingOffset + (pausingTime - raw);
      }
    }

    // -------------------------------------------------------------------
    // Polling

    /** One scan of the registry (`getNextExpiredTimer`): dead entries are
        erased in place and the earliest due timer is returned, the first in
        registry order among equals. */
    method NextExpiredTimer(horizon: int) returns (r: Option<nat>)
      modifies this`timers
      ensures timers == Live(old(timers))
      ensures r == Earliest(timers, horizon)
      ensures old(Valid()) ==> Valid()
    {
      ghost var o, wasValid := timers, Valid();
      var list := timers;
      r := None;
      var i := 0;
      ghost var k := 0;
      while i < |list|
        invariant 0 <= i <= |list| && 0 <= k <= |o|
        invariant list[..i] == Live(o[..k]) && list[i..] == o[k..]
        invariant r == Earliest(list[..i], horizon)
        decreases |list| - i
      {
        if list[i].alive {
          ScanKeeps(o, k, list, i);
          EarliestSnoc(list[..i], list[i], horizon);
          if list[i].timer.running && horizon >= list[i].timer.expireTime {
            if r.None? || list[r.value].timer.expireTime > list[i].timer.expireTime {
              r := Some(i);
            }
          }
          i := i + 1;
        } else {
          ScanErases(o, k, list, i);
          list := list[..i] + list[i + 1..];
        }
        k := k + 1;
      }
      ScanDone(o, k, list, i);
      if wasValid {
        LiveKeepsValid(o, nextId);
      }
      timers := list;
    }

    /** `poll`: the horizon is sampled once; while a timer is due by it, the
        earliest is dispatched with the clock frozen at its expiry instant.
        A call made while a poll runs (from a callback) does nothing. */
    method Poll(raw: int) returns (fired: seq<Firing>)
      requires Valid()
      modifies this
      decreases if isPolling then 0 else 5
      ensures Valid() && nextId == old(nextId)
      ensures old(isPolling) ==> timers == old(timers) && Time() == old(Time()) && fired == []
      ensures !old(isPolling) ==>
        var o := RunPoll(old(timers), old(Now(raw)));
        && timers == o.timers && fired == o.trace
        && Time() == old(Time()).(pollTimeStamp := LastStamp(o.trace, old(pollTimeStamp)))
    {
      if isPolling {
        return [];
      }
      var horizon := Now(raw);
      isPolling := true;
      ghost var t0 := Time();
      ghost var lo := LowerBound(timers, horizon);
      ghost var goal := RunPoll(timers, horizon);
      PollStarts(timers, horizon);
      fired := [];
      var next := NextExpiredTimer(horizon);
      while next.Some?
        invariant Valid() && nextId == old(nextId) && isPolling
        invariant Time() == t0.(pollTimeStamp := LastStamp(fired, old(pollTimeStamp)))
        invariant PollInvariant(timers, fired, horizon, lo, goal)
        invariant next == Earliest(timers, horizon)
        decreases horizon - lo, CountAt(timers, lo)
      {
        next, fired, lo := PollRound(next.value, raw, horizon, fired, lo, goal, t0, old(pollTimeStamp));
      }
      PollEnds(timers, fired, horizon, lo, goal);
      isPolling := false;
    }

    /** One round of the poll loop: dispatch the earliest due timer, record
        the firing, then scan again; the state left keeps the loop's
        invariant, with the clock stamped at the firing. */
    method PollRound(i: nat, raw: int, horizon: int, fired: seq<Firing>, ghost lo: int, ghost goal: Outcome,
                     ghost t0: ClockState, ghost stamp0: int)
      returns (next: Option<nat>, fired': seq<Firing>, ghost lo': int)
      requires Valid() && isPolling && Time() == t0.(pollTimeStamp := LastStamp(fired, stamp0))
      requires PollInvariant(timers, fired, horizon, lo, goal) && Earliest(timers, horizon) == Some(i)
      modifies this
      decreases 4
      ensures Valid() && isPolling && nextId == old(nextId)
      ensures lo' == old(timers)[i].timer.expireTime && fired' == fired + [Firing(old(timers)[i].id, lo')]
      ensures Time() == t0.(pollTimeStamp := LastStamp(fired', stamp0))
      ensures timers == Live(Dispatch(old(timers), i))
      ensures PollInvariant(timers, fired', horizon, lo', goal)
      ensures next == Earliest(timers, horizon)
      ensures lo <= lo' && (lo' > lo || CountAt(timers, lo') < CountAt(old(timers), lo))
    {
      ghost var before := timers;
      var id, at := timers[i].id, timers[i].timer.expireTime;
      DispatchStep(i, raw);
      fired' := fired + [Firing(id, at)];
      lo' := at;
      next := NextExpiredTimer(horizon);
      PollInvariantStep(before, fired, horizon, lo, goal, i, timers, fired', at);
    }

    /** One dispatch inside a poll: stamp the logical time, stop the timer,
        perform its callback's calls, re-arm it unless single-shot. */
    method DispatchStep(i: nat, raw: int)
      requires Valid() && isPolling && i < |timers|
      modifies this
      decreases 3
      ensures Valid() && isPolling && nextId == old(nextId)
      ensures Time() == old(Time()).(pollTimeStamp := old(timers)[i].timer.expireTime)
      ensures timers == Dispatch(old(timers), i)
    {
      var at := timers[i].timer.expireTime;
      pollTimeStamp := at;
      timers := timers[i := timers[i].(timer := Stopped(timers[i].timer))];
      var callback := timers[i].timer.callback;
      if callback.Some? {
        RunCallback(callback.value, raw);
      }
      var t := timers[i].timer;
      if !t.singleShot {
        timers := timers[i := timers[i].(timer := Started(t, t.duration, Now(raw)))];
      }
    }

    /** The calls a callback makes, in order, with the clock frozen at the
        dispatch instant. */
    method RunCallback(cb: Callback, raw: int)
      requires Valid() && isPolling
      modifies this
      decreases 2
      ensures Valid() && isPolling && nextId == old(nextId) && Time() == old(Time())
      ensures timers == ApplyEffects(old(timers), cb, old(pollTimeStamp))
    {
      ghost var start := timers;
      var k := 0;
      while k < |cb|
        invariant 0 <= k <= |cb|
        invariant Valid() && isPolling && nextId == old(nextId) && Time() == old(Time())
        invariant ApplyEffects(timers, cb[k..], pollTimeStamp) == ApplyEffects(start, cb, pollTimeStamp)
      {
        var op := cb[k];
        ghost var was := timers;
        if op.PollOp? || op.FastForwardOp? || op.PauseOp? || op.ResumeOp? {
          NestedManagerCall(op, raw);
          ApplyManagerOp(was, op, pollTimeStamp);
        } else {
          timers := ApplyEffect(timers, op, Now(raw));
          ApplyEffectKeepsIds(was, op, pollTimeStamp);
        }
        assert cb[k..][1..] == cb[k + 1..];
        k := k + 1;
      }
    }

    /** A call on the manager made from a callback: each of them returns at
        once, because a poll is running. */
    method NestedManagerCall(op: Effect, raw: int)
      requires Valid() && isPolling
      requires op.PollOp? || op.FastForwardOp? || op.PauseOp? || op.ResumeOp?
      modifies this
      decreases 1
      ensures Valid() && isPolling && nextId == old(nextId)
      ensures timers == old(timers) && Time() == old(Time())
    {
      match op {
        case PollOp =>
          var ignored := Poll(raw);
        case FastForwardOp(delta) =>
          var ignored := FastForward(delta, raw);
        case PauseOp =>
          Pause(raw);
        case ResumeOp =>
          Resume(raw);
      }
    }

    // -------------------------------------------------------------------
    // Teardown

    /** The destructor: every timer a caller still owns is rebound to the raw
        clock plus the composed clock's current lead over it. */
    method Destroy(raw: int)
      modifies this
      ensures Time() == old(Time()) && nextId == old(nextId)
      ensures |timers| == |old(timers)|
      ensures forall j :: 0 <= j < |timers| ==> timers[j] == Rebound(old(timers)[j], TeardownSource(old(Time()), raw))
      ensures forall j, m :: 0 <= j < |timers| && timers[j].alive ==>
                timers[j].timer.source.Read(raw, m) == old(Now(raw))
    {
      var source := Standalone(Now(raw) - raw);
      var i := 0;
      while i < |timers|
        invariant 0 <= i <= |timers| == |old(timers)|
        invariant Time() == old(Time()) && nextId == old(nextId)
        invariant forall j :: 0 <= j < i ==> timers[j] == Rebound(old(timers)[j], source)
        invariant forall j :: i <= j < |timers| ==> timers[j] == old(timers)[j]
      {
        if timers[i].alive {
          timers := timers[i := timers[i].(timer := timers[i].timer.(source := source))];
        }
        i := i + 1;
      }
    }
  }

  /** One step of the scan over a live entry: it joins the kept prefix. */
  lemma ScanKeeps(o: seq<Entry>, k: nat, t: seq<Entry>, i: nat)
    requires k <= |o| && i < |t|
    requires t[..i] == Live(o[..k]) && t[i..] == o[k..] && t[i].alive
    ensures k < |o| && t[..i + 1] == Live(o[..k + 1]) && t[i + 1..] == o[k + 1..]
    ensures t[..i + 1] == t[..i] + [t[i]]
  {
    assert t[i..][0] == o[k..][0];
    LiveSnoc(o[..k], t[i]);
    assert o[..k + 1] == o[..k] + [t[i]];
    assert t[i + 1..] == t[i..][1..];
    assert o[k + 1..] == o[k..][1..];
  }

  /** One step of the scan over a dead entry: it is erased. */
  lemma ScanErases(o: seq<Entry>, k: nat, t: seq<Entry>, i: nat)
    requires k <= |o| && i < |t|
    requires t[..i] == Live(o[..k]) && t[i..] == o[k..] && !t[i].alive
    ensures k < |o|
    ensures var e := t[..i] + t[i + 1..];
      i <= |e| && e[..i] == Live(o[..k + 1]) && e[i..] == o[k + 1..]
  {
    assert t[i..][0] == o[k..][0];
    LiveSnoc(o[..k], t[i]);
    assert o[..k + 1] == o[..k] + [t[i]];
    var e := t[..i] + t[i + 1..];
    assert e[..i] == t[..i];
    assert e[i..] == t[i + 1..] == t[i..][1..];
    assert o[k + 1..] == o[k..][1..];
  }

  lemma ScanDone(o: seq<Entry>, k: nat, t: seq<Entry>, i: nat)
    requires k <= |o| && i == |t|
    requires t[..i] == Live(o[..k]) && t[i..] == o[k..]
    ensures t == Live(o) && t[..i] == t
  {
    assert t[..i] == t;
    assert o[..k] == o;
  }

  lemma LiveSnoc(s: seq<Entry>, e: Entry)
    ensures Live(s + [e]) == if e.alive then Live(s) + [e] else Live(s)
  {
    assert (s + [e])[..|s|] == s;
  }

  lemma EarliestSnoc(s: seq<Entry>, e: Entry, horizon: int)
    ensures Earliest(s + [e], horizon) ==
      var best := Earliest(s, horizon);
      if Due(e, horizon) && (best.None? || s[best.value].timer.expireTime > e.timer.expireTime)
      then Some(|s|) else best
  {
    assert (s + [e])[..|s|] == s;
  }

  lemma ApplyEffectKeepsIds(s: seq<Entry>, op: Effect, now: int)
    requires IdsIncreasing(s)
    ensures IdsIncreasing(ApplyEffect(s, op, now))
    ensures forall j :: 0 <= j < |s| ==> ApplyEffect(s, op, now)[j].id == s[j].id
  {
    var r := ApplyEffect(s, op, now);
    forall j | 0 <= j < |s|
      ensures r[j].id == s[j].id
    {
      if Addresses(op, s[j].id) {
        match op
        case StartOp(_, d) =>
        case StopOp(_) =>
        case ReleaseOp(_) =>
      }
    }
  }

  /** A call on the manager itself leaves the registry as it is. */
  lemma ApplyManagerOp(s: seq<Entry>, op: Effect, now: int)
    requires op.PollOp? || op.FastForwardOp? || op.PauseOp? || op.ResumeOp?
    ensures ApplyEffect(s, op, now) == s
  {
  }

  /** Handles stay distinct, ordered and below `bound` through pruning. */
  lemma LiveKeepsValid(s: seq<Entry>, bound: nat)
    requires IdsIncreasing(s) && forall j :: 0 <= j < |s| ==> s[j].id < bound
    ensures IdsIncreasing(Live(s)) && forall j :: 0 <= j < |Live(s)| ==> Live(s)[j].id < bound
  {
    LiveKeepsOrder(s);
    LiveMembers(s);
    forall j | 0 <= j < |Live(s)|
      ensures Live(s)[j].id < bound
    {
      assert Live(s)[j] in s;
    }
  }
}

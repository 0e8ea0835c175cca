/** The behaviour the repository's own tests expect (TimerTest.cpp), stated
    on the model: a timer fires exactly when its expiry is reached, and
    several timers fire in the order of their expiry instants, a timer
    restarted by its own callback included. */
module Scenarios {
  import opened Timers
  import opened Clock
  import opened Scheduler
  import opened Manager

  /** A stopped single-shot timer with callback `cb`, as a registry entry. */
  function Idle(id: nat, cb: Option<Callback>): Entry
  {
    Entry(id, true, Fresh(true, ManagerBound).(callback := cb))
  }

  /** The same timer running until `expireTime` for `duration`. */
  function Armed(id: nat, cb: Option<Callback>, duration: int, expireTime: int): Entry
  {
    Entry(id, true, Fresh(true, ManagerBound).(callback := cb, running := true,
                                                duration := duration, expireTime := expireTime))
  }

  /** One single-shot timer armed for 1000 ms at time 0: a poll by 999 does
      nothing, a poll at 1000 fires it once and leaves it stopped. */
  lemma SimpleExpire()
    ensures RunPoll([Armed(0, Some([]), 1000, 1000)], 0) == Outcome([Armed(0, Some([]), 1000, 1000)], [])
    ensures RunPoll([Armed(0, Some([]), 1000, 1000)], 999) == Outcome([Armed(0, Some([]), 1000, 1000)], [])
    ensures RunPoll([Armed(0, Some([]), 1000, 1000)], 1000) == Outcome([Idle(0, Some([])).(timer := Idle(0, Some([])).timer.(duration := 1000, expireTime := 1000))], [Firing(0, 1000)])
  {
    var s := [Armed(0, Some([]), 1000, 1000)];
    LiveAppend([], s[0]);
    RunIdle(s, 0, LowerBound(s, 0));
    RunIdle(s, 999, LowerBound(s, 999));
    assert Earliest(s, 1000) == Some(0);
    RunStep(s, 1000, LowerBound(s, 1000), 0);
    var d := Live(Dispatch(s, 0));
    assert Dispatch(s, 0) == [s[0].(timer := Stopped(s[0].timer))];
    LiveAppend([], Dispatch(s, 0)[0]);
    RunStop(d, 1000, 1000);
  }

  /** The registry of the ordering tests once set up: timer 0 armed for
      1100 ms, timer 1 armed for 500 ms with a callback restarting it for
      500 ms, timer 2 never started. */
  function OrderSetup(): seq<Entry>
  {
    [Armed(0, Some([]), 1100, 1100), Armed(1, Some([StartOp(1, 500)]), 500, 500), Idle(2, None)]
  }

  /** The registry after each dispatch of that poll. */
  function OrderAfterFirst(): seq<Entry>
  {
    [OrderSetup()[0], Armed(1, Some([StartOp(1, 500)]), 500, 1000), Idle(2, None)]
  }

  function OrderAfterSecond(): seq<Entry>
  {
    [OrderSetup()[0], Armed(1, Some([StartOp(1, 500)]), 500, 1500), Idle(2, None)]
  }

  function OrderAfterThird(): seq<Entry>
  {
    [OrderSetup()[0].(timer := OrderSetup()[0].timer.(running := false)),
     Armed(1, Some([StartOp(1, 500)]), 500, 1500), Idle(2, None)]
  }

  /** None of the three entries is pruned. */
  lemma LiveOfOne(a: Entry)
    requires a.alive
    ensures Live([a]) == [a]
  {
    LiveAppend([], a);
    assert [a] == [] + [a];
  }

  lemma LiveOfTwo(a: Entry, b: Entry)
    requires a.alive && b.alive
    ensures Live([a, b]) == [a, b]
  {
    LiveOfOne(a);
    LiveAppend([a], b);
    assert [a, b] == [a] + [b];
  }

  lemma LiveOfThree(a: Entry, b: Entry, c: Entry)
    requires a.alive && b.alive && c.alive
    ensures Live([a, b, c]) == [a, b, c]
  {
    LiveOfTwo(a, b);
    LiveAppend([a, b], c);
    assert [a, b, c] == [a, b] + [c];
  }

  /** The scan over one, two and three entries, one entry at a time. */
  lemma EarliestOfOne(a: Entry, h: int)
    ensures Earliest([a], h) == if Due(a, h) then Some(0) else None
  {
    EarliestSnoc([], a, h);
    assert [a] == [] + [a];
  }

  lemma EarliestOfTwo(a: Entry, b: Entry, h: int)
    ensures var e := Earliest([a], h);
      Earliest([a, b], h) == if Due(b, h) && (e.None? || a.timer.expireTime > b.timer.expireTime) then Some(1) else e
  {
    EarliestSnoc([a], b, h);
    assert [a, b] == [a] + [b];
  }

  lemma EarliestOfThree(a: Entry, b: Entry, c: Entry, h: int)
    ensures var e := Earliest([a, b], h);
      Earliest([a, b, c], h) == if Due(c, h) && (e.None? || [a, b][e.value].timer.expireTime > c.timer.expireTime) then Some(2) else e
  {
    EarliestSnoc([a, b], c, h);
    assert [a, b, c] == [a, b] + [c];
  }

  /** One turn of a poll, once the scan's choice and the registry after
      the dispatch are known. */
  lemma KnownStep(s: seq<Entry>, d: seq<Entry>, h: int, lo: int, i: nat)
    requires lo <= h && Floor(s, lo) && Live(s) == s && Earliest(s, h) == Some(i)
    requires i < |s| && Dispatch(s, i) == d && Live(d) == d
    ensures s[i].timer.expireTime <= h && Floor(d, s[i].timer.expireTime)
    ensures Run(s, h, lo) == Outcome(Run(d, h, s[i].timer.expireTime).timers,
                                     [Firing(s[i].id, s[i].timer.expireTime)] + Run(d, h, s[i].timer.expireTime).trace)
  {
    RunStep(s, h, lo, i);
  }

  /** The three dispatches of the ordering tests. */
  lemma OrderDispatches(s0: seq<Entry>, s1: seq<Entry>, s2: seq<Entry>, s3: seq<Entry>)
    requires s0 == OrderSetup() && s1 == OrderAfterFirst() && s2 == OrderAfterSecond() && s3 == OrderAfterThird()
    ensures Dispatch(s0, 1) == s1 && Dispatch(s1, 1) == s2 && Dispatch(s2, 0) == s3
  {
  }

  /** First dispatch: timer 1 at 500; its callback restarts it until 1000.
      (The registries are parameters so that the solver does not evaluate
      the poll on them ahead of the proof.) */
  lemma OrderFirstDispatch(s: seq<Entry>, d: seq<Entry>, h: int, lo: int)
    requires s == OrderSetup() && d == OrderAfterFirst() && h == 1100
    requires lo <= h && Floor(s, lo) && lo <= 500
    ensures Floor(d, 500)
    ensures Run(s, h, lo) == Outcome(Run(d, h, 500).timers, [Firing(1, 500)] + Run(d, h, 500).trace)
  {
    LiveOfThree(s[0], s[1], s[2]);
    EarliestOfOne(s[0], h);
    EarliestOfTwo(s[0], s[1], h);
    EarliestOfThree(s[0], s[1], s[2], h);
    OrderDispatches(s, d, OrderAfterSecond(), OrderAfterThird());
    LiveOfThree(d[0], d[1], d[2]);
    KnownStep(s, d, h, lo, 1);
  }

  /** Second dispatch: timer 1 again at 1000, restarted until 1500. */
  lemma OrderSecondDispatch(s: seq<Entry>, d: seq<Entry>, h: int)
    requires s == OrderAfterFirst() && d == OrderAfterSecond() && h == 1100
    ensures Floor(s, 500) && Floor(d, 1000)
    ensures Run(s, h, 500) == Outcome(Run(d, h, 1000).timers, [Firing(1, 1000)] + Run(d, h, 1000).trace)
  {
    LiveOfThree(s[0], s[1], s[2]);
    assert Floor(s, 500);
    EarliestOfOne(s[0], h);
    EarliestOfTwo(s[0], s[1], h);
    EarliestOfThree(s[0], s[1], s[2], h);
    OrderDispatches(OrderSetup(), s, d, OrderAfterThird());
    LiveOfThree(d[0], d[1], d[2]);
    KnownStep(s, d, h, 500, 1);
  }

  /** Third dispatch: timer 0 at 1100 ... */
  lemma OrderThirdDispatch(s: seq<Entry>, d: seq<Entry>, h: int)
    requires s == OrderAfterSecond() && d == OrderAfterThird() && h == 1100
    ensures Floor(s, 1000) && Floor(d, 1100)
    ensures Run(s, h, 1000) == Outcome(Run(d, h, 1100).timers, [Firing(0, 1100)] + Run(d, h, 1100).trace)
  {
    LiveOfThree(s[0], s[1], s[2]);
    assert Floor(s, 1000);
    EarliestOfOne(s[0], h);
    EarliestOfTwo(s[0], s[1], h);
    EarliestOfThree(s[0], s[1], s[2], h);
    OrderDispatches(OrderSetup(), OrderAfterFirst(), s, d);
    LiveOfThree(d[0], d[1], d[2]);
    KnownStep(s, d, h, 1000, 0);
  }

  /** ... after which nothing is due by 1100. */
  lemma OrderSettles(d: seq<Entry>, h: int)
    requires d == OrderAfterThird() && h == 1100 && Floor(d, 1100)
    ensures Run(d, h, 1100) == Outcome(d, [])
  {
    LiveOfThree(d[0], d[1], d[2]);
    EarliestOfOne(d[0], h);
    EarliestOfTwo(d[0], d[1], h);
    EarliestOfThree(d[0], d[1], d[2], h);
    RunStop(d, h, 1100);
  }

  /** From the second dispatch on, the poll fires timer 0 at 1100 only. */
  lemma OrderAfterSecondDispatch(s2: seq<Entry>, s3: seq<Entry>, h: int)
    requires s2 == OrderAfterSecond() && s3 == OrderAfterThird() && h == 1100
    ensures Floor(s2, 1000)
    ensures Run(s2, h, 1000) == Outcome(s3, [Firing(0, 1100)])
  {
    OrderThirdDispatch(s2, s3, h);
    OrderSettles(s3, h);
    AppendEmpty([Firing(0, 1100)]);
  }

  /** From the first dispatch on, the poll fires timer 1 at 1000 and timer 0
      at 1100. */
  lemma OrderAfterFirstDispatch(s1: seq<Entry>, s2: seq<Entry>, s3: seq<Entry>, h: int)
    requires s1 == OrderAfterFirst() && s2 == OrderAfterSecond() && s3 == OrderAfterThird() && h == 1100
    ensures Floor(s1, 500)
    ensures Run(s1, h, 500).timers == s3
    ensures Run(s1, h, 500).trace == [Firing(1, 1000), Firing(0, 1100)]
  {
    OrderSecondDispatch(s1, s2, h);
    OrderAfterSecondDispatch(s2, s3, h);
    AppendSingletons(Firing(1, 1000), Firing(0, 1100));
  }

  lemma OrderLowerBound(s: seq<Entry>, h: int)
    requires s == OrderSetup() && h == 1100
    ensures LowerBound(s, h) <= 500
  {
    assert s[1] in s && Pending(s[1]);
  }

  /** A poll reaching 1100 fires timer 1 at 500, again at 1000 after its
      callback restarted it, then timer 0 at 1100; timer 1 is left running
      until 1500. */
  lemma ExpireInRightOrder(s: seq<Entry>, h: int)
    requires s == OrderSetup() && h == 1100
    ensures RunPoll(s, h) == Outcome(OrderAfterThird(), [Firing(1, 500), Firing(1, 1000), Firing(0, 1100)])
  {
    var s1, s3 := OrderAfterFirst(), OrderAfterThird();
    var lo := LowerBound(s, h);
    OrderLowerBound(s, h);
    OrderFirstDispatch(s, s1, h, lo);
    OrderAfterFirstDispatch(s1, OrderAfterSecond(), s3, h);
    PrependToPair(Firing(1, 500), Firing(1, 1000), Firing(0, 1100));
  }

  lemma AppendEmpty<T>(a: seq<T>)
    ensures a + [] == a
  {
  }

  lemma AppendSingletons<T>(a: T, b: T)
    ensures [a] + [b] == [a, b]
  {
  }

  lemma PrependToPair<T>(a: T, b: T, c: T)
    ensures [a] + [b, c] == [a, b, c]
  {
  }

  /** simpleExpireTest: polls at raw times 0, 999 and 1000 of a timer
      started for 1000 ms at 0; only the last one fires it. */
  method SimpleExpireTest() returns (first: seq<Firing>, second: seq<Firing>, third: seq<Firing>)
    ensures first == [] && second == [] && third == [Firing(0, 1000)]
  {
    var m := new TimerManager();
    var t := m.CreateSingleShotTimer();
    m.SetTimeoutCallback(t, Some([]));
    m.StartTimer(t, 1000, 0);
    assert m.timers == [Armed(0, Some([]), 1000, 1000)];
    SimpleExpire();
    first := m.Poll(0);
    second := m.Poll(999);
    third := m.Poll(1000);
  }

  /** Sets up the three timers of the ordering tests at raw time 0. */
  method SetUpOrder() returns (m: TimerManager)
    ensures fresh(m) && m.Valid() && m.Time() == Initial() && m.timers == OrderSetup()
  {
    m := new TimerManager();
    var t1 := m.CreateSingleShotTimer();
    m.SetTimeoutCallback(t1, Some([]));
    var t2 := m.CreateSingleShotTimer();
    m.SetTimeoutCallback(t2, Some([StartOp(t2, 500)]));
    var t3 := m.CreateSingleShotTimer();
    m.StartTimer(t1, 1100, 0);
    m.StartTimer(t2, 500, 0);
  }

  /** MultipleTimersExpireInRightOrderTest: one poll at raw time 1100. */
  method MultipleTimersExpireInRightOrderTest() returns (fired: seq<Firing>, remaining: int)
    ensures fired == [Firing(1, 500), Firing(1, 1000), Firing(0, 1100)]
    ensures remaining == 400
  {
    var m := SetUpOrder();
    ExpireInRightOrder(m.timers, 1100);
    fired := m.Poll(1100);
    remaining := RemainingOf(m.timers[1].timer, m.Now(1100));
  }

  /** MultipleTimersExpireInRightOrderFastForwardTest: the raw clock stays at
      0 and the manager is fast-forwarded by 1100 ms instead. */
  method MultipleTimersExpireInRightOrderFastForwardTest() returns (fired: seq<Firing>, remaining: int)
    ensures fired == [Firing(1, 500), Firing(1, 1000), Firing(0, 1100)]
    ensures remaining == 400
  {
    var m := SetUpOrder();
    ExpireInRightOrder(m.timers, 1100);
    fired := m.FastForward(1100, 0);
    remaining := RemainingOf(m.timers[1].timer, m.Now(0));
  }
}

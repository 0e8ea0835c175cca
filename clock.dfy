/** The time bookkeeping of TimerManager.cpp: the composed "now" every timer
    of a manager reads, and how fastForward, pause, resume and teardown move
    the offsets behind it. The raw clock is an input (`raw`), never sampled
    here. */
module Clock {
  import opened Timers

  /** The clock-related fields of a TimerManager. */
  datatype ClockState = ClockState(
    isPolling: bool,
    pollTimeStamp: int,
    paused: bool,
    pausingTime: int,
    fastForwardOffset: int,
    pausingOffset: int)

  function Initial(): (c: ClockState)
    ensures !c.isPolling && !c.paused
    ensures c.pollTimeStamp == c.pausingTime == c.fastForwardOffset == c.pausingOffset == 0
  {
    ClockState(false, 0, false, 0, 0, 0)
  }

  /** The manager's composed time source: the dispatch instant while a poll
      runs, otherwise the raw time (or the frozen pausing time) shifted by
      both offsets. */
  function ComposedNow(c: ClockState, raw: int): (r: int)
    ensures c.isPolling ==> r == c.pollTimeStamp
    ensures !c.isPolling && !c.paused ==> r - raw == c.fastForwardOffset + c.pausingOffset
    ensures !c.isPolling && c.paused ==> r == c.pausingTime + c.fastForwardOffset + c.pausingOffset
  {
    if c.isPolling then c.pollTimeStamp
    else (if c.paused then c.pausingTime else raw) + c.fastForwardOffset + c.pausingOffset
  }

  /** The offset bookkeeping of `fastForward` (the poll it then runs is in
      the manager). */
  function WithFastForward(c: ClockState, delta: int): (r: ClockState)
    ensures c.isPolling ==> r == c
    ensures !c.isPolling ==> r.fastForwardOffset - c.fastForwardOffset == delta
    ensures !c.isPolling ==> r.(fastForwardOffset := c.fastForwardOffset) == c
  {
    if c.isPolling then c else c.(fastForwardOffset := c.fastForwardOffset + delta)
  }

  /** `pause`: freezes the raw time once; a second pause changes nothing. */
  function Paused(c: ClockState, raw: int): (r: ClockState)
    ensures c.isPolling || c.paused ==> r == c
    ensures !c.isPolling && !c.paused ==> r.paused && r.pausingTime == raw
    ensures !c.isPolling && !c.paused ==> r.(paused := false, pausingTime := c.pausingTime) == c
  {
    if c.isPolling || c.paused then c else c.(pausingTime := raw, paused := true)
  }

  /** `resume` as the model uses it: the pause length is ADDED to the
      pausing offset, so earlier pauses stay accounted for. */
  function Resumed(c: ClockState, raw: int): (r: ClockState)
    ensures c.isPolling || !c.paused ==> r == c
    ensures !c.isPolling && c.paused ==> !r.paused
    ensures !c.isPolling && c.paused ==> r.pausingOffset - c.pausingOffset == c.pausingTime - raw
    ensures !c.isPolling && c.paused ==> r.(paused := true, pausingOffset := c.pausingOffset) == c
  {
    if c.isPolling || !c.paused then c
    else c.(paused := false, pausingOffset := c.pausingOffset + (c.pausingTime - raw))
  }

  /** `resume` exactly as written: the pausing offset is ASSIGNED the last
      pause's length, forgetting earlier pauses. */
  function ResumedAsWritten(c: ClockState, raw: int): (r: ClockState)
    ensures c.isPolling || !c.paused ==> r == c
    ensures !c.isPolling && c.paused ==> !r.paused && r.pausingOffset == c.pausingTime - raw
    ensures !c.isPolling && c.paused ==> ComposedNow(r, raw) == c.pausingTime + c.fastForwardOffset
    ensures !c.isPolling && c.paused ==> r.(paused := true, pausingOffset := c.pausingOffset) == c
  {
    if c.isPolling || !c.paused then c
    else c.(paused := false, pausingOffset := c.pausingTime - raw)
  }

  /** The stand-alone time source the destructor hands to surviving timers:
      the raw clock plus the composed clock's lead over it at that moment. */
  function TeardownSource(c: ClockState, raw: int): (s: TimeSource)
    ensures s.Standalone?
    ensures forall m :: s.Read(raw, m) == ComposedNow(c, raw)
  {
    Standalone(ComposedNow(c, raw) - raw)
  }

  /** While paused (and not polling), the raw clock does not move "now". */
  lemma NowFrozenWhilePaused(c: ClockState, raw1: int, raw2: int)
    requires c.paused && !c.isPolling
    ensures ComposedNow(c, raw1) == ComposedNow(c, raw2)
  {
  }

  /** Pausing does not make "now" jump. */
  lemma PauseIsContinuous(c: ClockState, raw: int)
    requires !c.isPolling
    ensures ComposedNow(Paused(c, raw), raw) == ComposedNow(c, raw)
  {
  }

  /** Resuming does not make "now" jump, however many pauses came before. */
  lemma ResumeIsContinuous(c: ClockState, raw: int)
    requires !c.isPolling
    ensures ComposedNow(Resumed(c, raw), raw) == ComposedNow(c, raw)
  {
  }

  /** A pause from raw time p to raw time q delays "now" by exactly q - p for
      every later raw time. */
  lemma PauseResumeDelaysByPauseLength(c: ClockState, p: int, q: int, later: int)
    requires !c.isPolling && !c.paused
    ensures ComposedNow(Resumed(Paused(c, p), q), later) == ComposedNow(c, later) - (q - p)
  {
  }

  /** The resume as written is continuous only when no earlier pause left an
      offset: with two pause/resume cycles the second resume jumps forward by
      the length of the first pause (pause at 0, resume at 100, pause at 200,
      resume at 300: "now" goes from 100 to 200 at the last resume). */
  lemma ResumeAsWrittenJumps()
    ensures
      var c1 := ResumedAsWritten(Paused(Initial(), 0), 100);
      var c2 := Paused(c1, 200);
      var c3 := ResumedAsWritten(c2, 300);
      ComposedNow(c2, 300) == 100 && ComposedNow(c3, 300) == 200
  {
  }

  /** ... and for the same calls the accumulating resume stays continuous. */
  lemma ResumeTwiceIsContinuous()
    ensures
      var c1 := Resumed(Paused(Initial(), 0), 100);
      var c2 := Paused(c1, 200);
      var c3 := Resumed(c2, 300);
      ComposedNow(c2, 300) == 100 && ComposedNow(c3, 300) == 100
  {
  }

  /** After teardown, a surviving timer's clock keeps the manager's reading
      at that instant and then advances with the raw clock. */
  lemma TeardownKeepsNow(c: ClockState, raw: int, later: int, m: int)
    ensures TeardownSource(c, raw).Read(raw, m) == ComposedNow(c, raw)
    ensures TeardownSource(c, raw).Read(later, m) == ComposedNow(c, raw) + (later - raw)
  {
  }
}

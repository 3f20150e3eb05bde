/**
 * The visibility flags the signal handler sets and one pass of main's
 * sampling loop: decide whether to sample, refresh the "now" snapshot slot,
 * render or blank, then swap the slots and move the "before" timestamp.
 * The clock, the sleep, the retrieval routines and the display are
 * parameters and results here; signals arrive between steps, never during one.
 */
module Sampling {
  import opened Common
  import opened TimeVal
  import Monitors

  /** Linux signal numbers. */
  const SIGHUP := 1
  const SIGUSR1 := 10
  const SIGUSR2 := 12

  /** The globals `visibility` and `visibility_changed`. */
  datatype Flags = Flags(visibility: int, changed: int)

  /** signal_handler: USR1 hides, USR2 shows, HUP toggles; each marks a change; other signals do nothing. */
  function OnSignal(f: Flags, signum: int): Flags
  {
    if signum == SIGUSR1 then Flags(0, 1)
    else if signum == SIGUSR2 then Flags(1, 1)
    else if signum == SIGHUP then Flags(1 - f.visibility, 1)
    else f
  }

  predicate Boolean(f: Flags)
  {
    (f.visibility == 0 || f.visibility == 1) && (f.changed == 0 || f.changed == 1)
  }

  /** Both flags stay 0 or 1, and a handled signal always marks a change. */
  lemma OnSignalKeepsBoolean(f: Flags, signum: int)
    requires Boolean(f)
    ensures OnSignal(f, SIGUSR1) == Flags(0, 1) && OnSignal(f, SIGUSR2) == Flags(1, 1)
    ensures OnSignal(f, SIGHUP) == Flags(1 - f.visibility, 1)
    ensures Boolean(OnSignal(f, signum))
    ensures signum in {SIGHUP, SIGUSR1, SIGUSR2} ==> OnSignal(f, signum).changed == 1
    ensures signum !in {SIGHUP, SIGUSR1, SIGUSR2} ==> OnSignal(f, signum) == f
  {
  }

  /** Two hang-ups restore the visibility. */
  lemma HangupTwice(f: Flags)
    ensures OnSignal(OnSignal(f, SIGHUP), SIGHUP) == Flags(f.visibility, 1)
  {
  }

  /** Hiding and showing do not depend on the state they start from. */
  lemma HideShowIdempotent(f: Flags, g: Flags)
    ensures OnSignal(f, SIGUSR1) == OnSignal(g, SIGUSR1) == OnSignal(OnSignal(f, SIGUSR1), SIGUSR1)
    ensures OnSignal(f, SIGUSR2) == OnSignal(g, SIGUSR2) == OnSignal(OnSignal(f, SIGUSR2), SIGUSR2)
  {
  }

  /** The payload of a snapshot buffer: struct io_stats or struct cpu_stats. */
  datatype Snapshot =
    | IoSnapshot(inbound: real, outbound: real)
    | CpuSnapshot(user: real, nice: real, kernel: real, idle: real)

  /** One buffer obtained from a monitor's allocator. */
  class Slot {
    var stats: Snapshot

    constructor (initial: Snapshot)
      ensures stats == initial
    {
      stats := initial;
    }
  }

  function Payload(s: Slot?): Option<Snapshot>
    reads s
  {
    if s == null then None else Some(s.stats)
  }

  /** What a step shows: nothing new, the monitor's render call with its arguments, or an empty line. */
  datatype Shown =
    | NoUpdate
    | Rendered(renderer: Monitors.Renderer, tNow: Timeval, tBefore: Timeval,
               now: Option<Snapshot>, before: Option<Snapshot>)
    | Blank

  /** main's state across loop passes. */
  class Sampler {
    const monitor: Monitors.Monitor
    const interval: int
    var visibility: int
    var visibilityChanged: int
    var statsNow: Slot?
    var statsBefore: Slot?
    var tBefore: Timeval

    ghost predicate Valid()
      reads this
    {
      && Boolean(Flags(visibility, visibilityChanged))
      && Monitors.RetrievesIntoAllocated(monitor)
      && (statsNow != null <==> monitor.allocator.Some?)
      && (statsBefore != null <==> monitor.allocator.Some?)
      && (statsNow != null ==> statsNow != statsBefore)
    }

    /**
     * The start of main: the flags' initial values, two buffers when the
     * monitor allocates, one retrieval into the "before" buffer when it
     * retrieves, and t_before set to the start time.
     */
    constructor (monitor: Monitors.Monitor, interval: int, tStart: Timeval, initial: Snapshot,
                 retrieve: Snapshot -> Snapshot)
      requires Monitors.RetrievesIntoAllocated(monitor)
      ensures Valid()
      ensures this.monitor == monitor && this.interval == interval && tBefore == tStart
      ensures visibility == 1 && visibilityChanged == 0
      ensures statsNow != null ==> fresh(statsNow) && fresh(statsBefore) && statsNow.stats == initial
      ensures statsBefore != null ==>
        statsBefore.stats == if monitor.retriever.Some? then retrieve(initial) else initial
    {
      this.monitor := monitor;
      this.interval := interval;
      visibility, visibilityChanged := 1, 0;
      tBefore := tStart;
      if monitor.allocator.Some? {
        statsNow := new Slot(initial);
        statsBefore := new Slot(initial);
      } else {
        statsNow, statsBefore := null, null;
      }
      new;
      if monitor.retriever.Some? {
        statsBefore.stats := retrieve(statsBefore.stats);
      }
    }

    /** signal_handler, as one step between loop passes. */
    method HandleSignal(signum: int)
      requires Valid()
      modifies this`visibility, this`visibilityChanged
      ensures Valid()
      ensures Flags(visibility, visibilityChanged) == OnSignal(old(Flags(visibility, visibilityChanged)), signum)
    {
      if signum == SIGUSR1 {
        visibility, visibilityChanged := 0, 1;
      } else if signum == SIGUSR2 {
        visibility, visibilityChanged := 1, 1;
      } else if signum == SIGHUP {
        visibility, visibilityChanged := 1 - visibility, 1;
      }
    }

    /** The loop goes back to sleep: fewer whole seconds than the interval have passed and visibility has not changed. */
    predicate Waiting(tNow: Timeval)
      reads this
    {
      Subtract(tNow, tBefore).result.sec < interval && visibilityChanged == 0
    }

    /**
     * One pass of main's loop after the sleep, at time tNow.  `retrieve` is
     * what the monitor's retrieval routine makes of the "now" buffer's old
     * contents (a failed read stores whatever the routine's unset locals
     * hold; `retrieve` may return any snapshot).
     */
    method Step(tNow: Timeval, retrieve: Snapshot -> Snapshot) returns (shown: Shown)
      requires Valid()
      modifies this, statsNow
      ensures Valid()
      ensures visibility == old(visibility)
      ensures old(Waiting(tNow)) ==>
        && shown == NoUpdate && visibilityChanged == old(visibilityChanged)
        && statsNow == old(statsNow) && statsBefore == old(statsBefore) && tBefore == old(tBefore)
        && Payload(statsNow) == old(Payload(statsNow))
      ensures !old(Waiting(tNow)) ==>
        && visibilityChanged == 0 && tBefore == tNow
        && statsNow == old(statsBefore) && statsBefore == old(statsNow)
        && Payload(statsNow) == old(Payload(statsBefore))
        && Payload(statsBefore) ==
             (if monitor.retriever.Some? then Some(retrieve(old(statsNow.stats)))
              else old(Payload(statsNow)))
        && shown ==
             if old(visibility) == 0 then Blank
             else if monitor.renderer.None? then NoUpdate
             else Rendered(monitor.renderer.value, tNow, old(tBefore), Payload(statsBefore), Payload(statsNow))
    {
      var elapsed := Subtract(tNow, tBefore).result;
      if elapsed.sec < interval && visibilityChanged == 0 {
        return NoUpdate;
      }
      visibilityChanged := 0;
      if monitor.retriever.Some? {
        statsNow.stats := retrieve(statsNow.stats);
      }
      if visibility != 0 {
        if monitor.renderer.Some? {
          shown := Rendered(monitor.renderer.value, tNow, tBefore, Payload(statsNow), Payload(statsBefore));
        } else {
          shown := NoUpdate;
        }
      } else {
        shown := Blank;
      }
      statsNow, statsBefore := statsBefore, statsNow;
      tBefore := tNow;
    }
  }

  /** A hide signal followed by a sampling pass blanks the display, whatever the time. */
  method HideThenStep(s: Sampler, tNow: Timeval, retrieve: Snapshot -> Snapshot) returns (shown: Shown)
    requires s.Valid()
    modifies s, s.statsNow
    ensures s.Valid() && shown == Blank && s.visibility == 0 && s.visibilityChanged == 0
  {
    s.HandleSignal(SIGUSR1);
    shown := s.Step(tNow, retrieve);
  }

  /** Two sampling passes that both sample return each buffer to its role, each refreshed once in turn. */
  method TwoSamples(s: Sampler, t1: Timeval, t2: Timeval, retrieve: Snapshot -> Snapshot)
    requires s.Valid() && !s.Waiting(t1) && Subtract(t2, t1).result.sec >= s.interval
    modifies s, s.statsNow, s.statsBefore
    ensures s.Valid() && s.statsNow == old(s.statsNow) && s.statsBefore == old(s.statsBefore)
    ensures s.tBefore == t2
  {
    var shown := s.Step(t1, retrieve);
    shown := s.Step(t2, retrieve);
  }
}

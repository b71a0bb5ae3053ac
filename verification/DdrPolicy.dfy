/** What the controller decides: which request goes next, when it wakes up, in which order the
    overflow queue empties; and that its runs are runs of the timing model. */
module DdrPolicy {
  import opened DdrClock
  import opened DdrController
  import opened DdrControllerProof
  import Q = FrFcfs
  import T = DdrTiming
  import X = DdrExact

  // ----------------------------------------------------- a refinement of the timing model

  /** One more step of the timing model. */
  ghost predicate Follows(c: Config, s: State, steps: seq<T.Step>, e: State) {
    T.Run(c.timing, c.closedPage, T.Traced(s.dram, s.log), steps, T.Traced(e.dram, e.log))
  }

  lemma NoTiming(c: Config, s: State, e: State)
    requires e.dram == s.dram && e.log == s.log
    ensures Follows(c, s, [], e)
  {
  }

  lemma OneTiming(c: Config, s: State, step: T.Step, e: State)
    requires T.Enabled(c.timing, s.dram, step)
    requires T.Next(c.timing, c.closedPage, T.Traced(s.dram, s.log), step) == T.Traced(e.dram, e.log)
    ensures Follows(c, s, [step], e)
  {
    hide T.Enabled, T.Next;
    assert T.Run(c.timing, c.closedPage, T.Traced(e.dram, e.log), [], T.Traced(e.dram, e.log));
    assert [step][1..] == [];
  }

  lemma ServeFollows(c: Config, s: State, writes: bool, i: nat, cycle: nat) returns (steps: seq<T.Step>)
    requires Indexed(c, s)
    requires var side := if writes then s.wr else s.rd;
             && i < |side.queue| && IsHead(side, side.queue[i])
             && MinCmdCycle(c.timing, s.dram, side, side.queue[i]) <= cycle
    ensures Follows(c, s, steps, ServeAt(c, s, writes, i, cycle))
  {
    hide T.Issue, T.Commands, T.FindMinCmdCycle, T.WellFormed, Follows, Remove;
    var side := if writes then s.wr else s.rd;
    var step := T.Serve(AccessOf(side, side.queue[i]), cycle);
    steps := [step];
    OneTiming(c, s, step, ServeAt(c, s, writes, i, cycle));
  }

  lemma TryScheduleFollows(c: Config, s: State, cycle: nat) returns (steps: seq<T.Step>)
    requires Indexed(c, s)
    ensures Follows(c, s, steps, TrySchedule(c, s, cycle).1)
  {
    hide Follows, Search, ServeAt, MinCmdCycle, IsHead, T.WellFormed, Shaped;
    var side := if PickWrites(c, s) then s.wr else s.rd;
    if !Idling(s) && cycle >= s.dram.minRespCycle - c.timing.tCL &&
       Search(c.timing, s.dram, side, cycle, 0, Never).Found? {
      SearchFound(c.timing, s.dram, side, cycle, 0, Never);
      steps := ServeFollows(c, s, PickWrites(c, s), Search(c.timing, s.dram, side, cycle, 0, Never).index, cycle);
    } else {
      steps := [];
      NoTiming(c, s, TrySchedule(c, s, cycle).1);
    }
  }

  /** Follows looks at the devices only. */
  lemma SameDevices(c: Config, s: State, steps: seq<T.Step>, u: State, e: State)
    requires Follows(c, s, steps, u) && e.dram == u.dram && e.log == u.log
    ensures Follows(c, s, steps, e)
  {
  }

  lemma RefillDevices(c: Config, s: State, min: Cycle, cycle: nat)
    requires Indexed(c, s)
    ensures var e := Refill(c, s, min, cycle).1; e.dram == s.dram && e.log == s.log
  {
    hide T.WellFormed, Shaped, LoweredCycle, Add;
  }

  lemma FireFollows(c: Config, s: State, i: nat) returns (steps: seq<T.Step>)
    requires Indexed(c, s) && i < |s.events|
    ensures Follows(c, s, steps, Fire(c, s, i))
  {
    hide Follows, TrySchedule, Refill, T.WellFormed, Shaped, SysToMem, MatchingMemToSys;
    if s.events[i].state == Queued {
      var cycle := SysToMem(c.clock, s.events[i].sysCycle);
      var (min0, u) := TrySchedule(c, s, cycle);
      steps := TryScheduleFollows(c, s, cycle);
      RefillDevices(c, u, min0, cycle);
      SameDevices(c, s, steps, u, Fire(c, s, i));
    } else {
      steps := [];
      NoTiming(c, s, Fire(c, s, i));
    }
  }

  lemma EnqueueDevices(c: Config, s: State, r: Request, now: nat)
    requires Indexed(c, s) && r.bank < |s.dram.banks|
    ensures var e := Enqueue(c, s, r, now); e.dram == s.dram && e.log == s.log
  {
    hide T.WellFormed, Shaped, ArrivalCycle, Add, SysToMem, MatchingMemToSys;
  }

  lemma RefreshFollows(c: Config, s: State, now: nat) returns (steps: seq<T.Step>)
    requires Indexed(c, s)
    ensures Follows(c, s, steps, RefreshAll(c, s, now))
  {
    hide Follows, T.RefreshStart, SysToMem, Shaped, T.Refresh;
    var step := T.DoRefresh(SysToMem(c.clock, now));
    steps := [step];
    OneTiming(c, s, step, RefreshAll(c, s, now));
  }

  lemma StepFollows(c: Config, s: State, step: Step) returns (steps: seq<T.Step>)
    requires Enabled(c, s, step)
    ensures Follows(c, s, steps, Next(c, s, step))
  {
    hide Follows, Enqueue, Fire, RefreshAll, Indexed;
    match step {
      case Arrive(r, now) =>
        steps := [];
        EnqueueDevices(c, s, r, now);
        NoTiming(c, s, Next(c, s, step));
      case FireEvent(i) => steps := FireFollows(c, s, i);
      case Refreshing(now) => steps := RefreshFollows(c, s, now);
    }
  }

  lemma {:induction false} TimingAppend(t: T.Timing, closed: bool, x: T.Traced, a: seq<T.Step>, m: T.Traced,
                                        b: seq<T.Step>, y: T.Traced)
    requires T.Run(t, closed, x, a, m) && T.Run(t, closed, m, b, y)
    ensures T.Run(t, closed, x, a + b, y)
    decreases |a|
  {
    hide T.Enabled, T.Next;
    if a == [] {
      assert a + b == b;
    } else {
      TimingAppend(t, closed, T.Next(t, closed, x, a[0]), a[1..], m, b, y);
      assert (a + b)[0] == a[0] && (a + b)[1..] == a[1..] + b;
    }
  }

  /** Every run of the controller is, for the devices, a run of the timing model. */
  lemma {:induction false} RunFollows(c: Config, s: State, steps: seq<Step>, e: State) returns (ts: seq<T.Step>)
    requires Run(c, s, steps, e)
    ensures Follows(c, s, ts, e)
    decreases |steps|
  {
    hide Enabled, Next, T.Run;
    if steps == [] {
      ts := [];
      NoTiming(c, s, e);
    } else {
      var m := Next(c, s, steps[0]);
      var head := StepFollows(c, s, steps[0]);
      var tail := RunFollows(c, m, steps[1..], e);
      ts := head + tail;
      TimingAppend(c.timing, c.closedPage, T.Traced(s.dram, s.log), head, T.Traced(m.dram, m.log), tail,
                   T.Traced(e.dram, e.log));
    }
  }

  /** In every controller run the state of the devices allows a command iff the rules allow it
      after all commands sent so far. */
  lemma ControllerExact(c: Config, s: State, steps: seq<Step>, e: State, cmd: T.Command)
    requires Initial(c, s) && Run(c, s, steps, e)
    ensures T.WellFormed(e.dram)
    ensures T.Allowed(c.timing, e.dram, cmd) <==>
            && X.LegalNext(c.timing, e.log, cmd) && X.AfterStart(c.timing, e.log, cmd, s.dram.lastCmdWasWrite)
            && X.Addressed(c.timing, e.dram, cmd)
  {
    hide Run, T.Run, T.Allowed, X.LegalNext, X.AfterStart, X.Addressed;
    var ts := RunFollows(c, s, steps, e);
    X.StateIsHistory(c.timing, c.closedPage, s.dram, ts, T.Traced(e.dram, e.log), cmd);
  }

  // ------------------------------------------------------------------- reads and writes

  /** Writes go first if no read waits, if the write queue is more than three quarters full, or
      if it is more than a quarter full and the last access was a write. */
  lemma PickExact(c: Config, s: State)
    ensures PickWrites(c, s) <==>
            || s.rd.queue == [] || 4 * |s.wr.queue| > 3 * c.queueDepth
            || (s.dram.lastCmdWasWrite && 4 * |s.wr.queue| > c.queueDepth)
  {
  }

  /** The write queue has filled up, or is being emptied. */
  predicate Draining(c: Config, s: State) {
    4 * |s.wr.queue| > 3 * c.queueDepth || (s.dram.lastCmdWasWrite && 4 * |s.wr.queue| > c.queueDepth)
  }

  /** The write queue is more than a quarter full throughout the run. */
  ghost predicate AboveQuarter(c: Config, s: State, steps: seq<Step>)
    decreases |steps|
  {
    4 * |s.wr.queue| > c.queueDepth &&
    (steps != [] && Enabled(c, s, steps[0]) ==> AboveQuarter(c, Next(c, s, steps[0]), steps[1..]))
  }

  /** e has served what s had, and after that only writes; the write queue holds writes. */
  predicate OnlyWrites(s: State, e: State) {
    && |e.done| >= |s.done| && e.done[..|s.done|] == s.done
    && forall i :: |s.done| <= i < |e.done| ==> e.done[i].writes
  }

  predicate HoldsWrites(s: State) {
    forall i :: 0 <= i < |s.wr.queue| ==> s.wr.queue[i].req.write
  }

  lemma ServeWrite(c: Config, s: State, i: nat, cycle: nat)
    requires Indexed(c, s) && HoldsWrites(s) && i < |s.wr.queue| && IsHead(s.wr, s.wr.queue[i])
    ensures var e := ServeAt(c, s, true, i, cycle);
            OnlyWrites(s, e) && HoldsWrites(e) && e.dram.lastCmdWasWrite
  {
    hide T.WellFormed, T.Commands, Shaped, IsHead;
  }

  lemma TryScheduleDrains(c: Config, s: State, cycle: nat)
    requires Indexed(c, s) && HoldsWrites(s) && Draining(c, s)
    ensures var e := TrySchedule(c, s, cycle).1;
            && OnlyWrites(s, e) && HoldsWrites(e)
            && (e == s || e.dram.lastCmdWasWrite)
  {
    hide Search, ServeAt, T.WellFormed, Shaped, IsHead, MinCmdCycle;
    PickExact(c, s);
    if !Idling(s) && cycle >= s.dram.minRespCycle - c.timing.tCL &&
       Search(c.timing, s.dram, s.wr, cycle, 0, Never).Found? {
      SearchFound(c.timing, s.dram, s.wr, cycle, 0, Never);
      ServeWrite(c, s, Search(c.timing, s.dram, s.wr, cycle, 0, Never).index, cycle);
    }
  }

  lemma EnterWrites(c: Config, s: State, r: Request, cycle: nat)
    requires Indexed(c, s) && r.bank < |s.dram.banks| && HoldsWrites(s)
    ensures var e := Enter(c, s, r, cycle);
            && HoldsWrites(e) && e.done == s.done && e.dram == s.dram && |e.wr.queue| >= |s.wr.queue|
  {
    hide T.WellFormed, Shaped, Q.Queued;
  }

  lemma RefillWrites(c: Config, s: State, min: Cycle, cycle: nat)
    requires Indexed(c, s) && HoldsWrites(s)
    ensures var e := Refill(c, s, min, cycle).1;
            && HoldsWrites(e) && e.done == s.done && e.dram == s.dram && |e.wr.queue| >= |s.wr.queue|
  {
    hide T.WellFormed, Shaped, Enter, LoweredCycle;
    if !Full(c, s) && s.overflow != [] {
      EnterWrites(c, s.(overflow := s.overflow[1..]), s.overflow[0], cycle);
    }
  }

  lemma FireDrains(c: Config, s: State, i: nat)
    requires Indexed(c, s) && i < |s.events| && HoldsWrites(s) && Draining(c, s)
    ensures var e := Fire(c, s, i);
            && OnlyWrites(s, e) && HoldsWrites(e)
            && (4 * |e.wr.queue| > c.queueDepth ==> Draining(c, e))
  {
    hide TrySchedule, Refill, T.WellFormed, Shaped, SysToMem, MatchingMemToSys;
    if s.events[i].state == Queued {
      var cycle := SysToMem(c.clock, s.events[i].sysCycle);
      var (min0, u) := TrySchedule(c, s, cycle);
      TryScheduleDrains(c, s, cycle);
      RefillWrites(c, u, min0, cycle);
    }
  }

  lemma EnqueueDrains(c: Config, s: State, r: Request, now: nat)
    requires Indexed(c, s) && r.bank < |s.dram.banks| && HoldsWrites(s)
    ensures var e := Enqueue(c, s, r, now);
            && HoldsWrites(e) && e.done == s.done && e.dram == s.dram && |e.wr.queue| >= |s.wr.queue|
  {
    hide T.WellFormed, Shaped, Enter, ArrivalCycle, SysToMem, MatchingMemToSys;
    if !Full(c, s) {
      EnterWrites(c, s.(accepted := s.accepted + multiset{r}), r, SysToMem(c.clock, now));
    }
  }

  lemma DrainStep(c: Config, s: State, step: Step)
    requires Enabled(c, s, step) && HoldsWrites(s) && Draining(c, s)
    ensures var e := Next(c, s, step);
            && OnlyWrites(s, e) && HoldsWrites(e)
            && (4 * |e.wr.queue| > c.queueDepth ==> Draining(c, e))
  {
    hide Enqueue, Fire, Indexed, SysToMem;
    match step {
      case Arrive(r, now) => EnqueueDrains(c, s, r, now);
      case FireEvent(i) => FireDrains(c, s, i);
      case Refreshing(now) =>
    }
  }

  /** Once the write queue is more than three quarters full, only writes are served until it is
      down to a quarter, whatever arrives meanwhile. */
  lemma {:induction false} WritesDrain(c: Config, s: State, steps: seq<Step>, e: State)
    requires Run(c, s, steps, e) && HoldsWrites(s) && Draining(c, s) && AboveQuarter(c, s, steps)
    ensures OnlyWrites(s, e)
    decreases |steps|
  {
    hide Enabled, Next, Draining, HoldsWrites;
    if steps != [] {
      var m := Next(c, s, steps[0]);
      DrainStep(c, s, steps[0]);
      WritesDrain(c, m, steps[1..], e);
      assert forall i :: |s.done| <= i < |m.done| ==> e.done[i] == e.done[..|m.done|][i];
    }
  }

  /** In every run the write queue holds writes only. */
  lemma {:induction false} WriteQueueOfWrites(c: Config, s: State, steps: seq<Step>, e: State)
    requires Run(c, s, steps, e) && HoldsWrites(s)
    ensures HoldsWrites(e)
    decreases |steps|
  {
    hide Enabled, Next, HoldsWrites;
    if steps != [] {
      StepHoldsWrites(c, s, steps[0]);
      WriteQueueOfWrites(c, Next(c, s, steps[0]), steps[1..], e);
    }
  }

  lemma StepHoldsWrites(c: Config, s: State, step: Step)
    requires Enabled(c, s, step) && HoldsWrites(s)
    ensures HoldsWrites(Next(c, s, step))
  {
    hide Enqueue, Tick, Indexed, SysToMem;
    match step {
      case Arrive(r, now) => EnqueueDrains(c, s, r, now);
      case FireEvent(i) =>
        if s.events[i].state == Queued {
          TickHoldsWrites(c, s, s.events[i].sysCycle);
        }
      case Refreshing(now) =>
    }
  }

  lemma TickHoldsWrites(c: Config, s: State, now: nat)
    requires Indexed(c, s) && HoldsWrites(s)
    ensures HoldsWrites(Tick(c, s, now).1)
  {
    hide TrySchedule, Refill, T.WellFormed, Shaped, SysToMem, MatchingMemToSys;
    var cycle := SysToMem(c.clock, now);
    TryScheduleHoldsWrites(c, s, cycle);
    var (min0, u) := TrySchedule(c, s, cycle);
    RefillWrites(c, u, min0, cycle);
  }

  lemma TryScheduleHoldsWrites(c: Config, s: State, cycle: nat)
    requires Indexed(c, s) && HoldsWrites(s)
    ensures HoldsWrites(TrySchedule(c, s, cycle).1)
  {
    hide Search, T.Issue, T.Commands, T.WellFormed, Shaped, IsHead, MinCmdCycle;
    var side := if PickWrites(c, s) then s.wr else s.rd;
    if !Idling(s) && cycle >= s.dram.minRespCycle - c.timing.tCL &&
       Search(c.timing, s.dram, side, cycle, 0, Never).Found? {
      SearchFound(c.timing, s.dram, side, cycle, 0, Never);
    }
  }

  // --------------------------------------------------------------- what each call decides

  /** When a request that is first in its bank is ready, by what it asks for. */
  function ReadyOf(t: T.Timing, d: T.Dram, s: Side, e: Entry): nat
    requires T.WellFormed(d) && |s.lists| == |d.banks| && e.req.bank < |s.lists| && s.lists[e.req.bank] != []
  {
    var l := s.lists[e.req.bank];
    T.FindMinCmdCycle(t, d, T.Access(e.req.bank, e.req.row, e.req.write, e.arrivalCycle, l[0].rowHitSeq,
                                     |l| >= 2 && l[1].rowHitSeq > 0))
  }

  function Sooner(a: Cycle, b: Cycle): Cycle {
    if Earlier(b, a) then b else a
  }

  /** A request that comes when either queue is full goes behind the overflow queue, and nothing
      else changes.  Otherwise it goes behind its queue, the writes' one if writes are deferred,
      and if it is first in its bank the controller wakes up no later than it can be served. */
  lemma EnqueueExact(c: Config, s: State, r: Request, now: nat)
    requires Indexed(c, s) && r.bank < |s.dram.banks|
    ensures var e, cycle := Enqueue(c, s, r, now), SysToMem(c.clock, now);
            var entry := Entry(r, s.nextId, cycle);
            if |s.rd.queue| >= c.queueDepth || |s.wr.queue| >= c.queueDepth
            then e == s.(overflow := s.overflow + [r], accepted := s.accepted + multiset{r})
            else
              && e.overflow == s.overflow && e.nextId == s.nextId + 1 && Shaped(e.rd, |s.dram.banks|)
              && Shaped(e.wr, |s.dram.banks|)
              && (if c.deferredWrites && r.write then e.rd == s.rd && e.wr.queue == s.wr.queue + [entry]
                  else e.wr == s.wr && e.rd.queue == s.rd.queue + [entry])
              && var side := if c.deferredWrites && r.write then e.wr else e.rd;
                 e.nextSchedCycle ==
                   if !IsHead(side, entry) then s.nextSchedCycle
                   else Sooner(s.nextSchedCycle,
                               At(T.Max(T.Max(cycle, s.dram.minRespCycle - c.timing.tCL - c.timing.tBL),
                                        ReadyOf(c.timing, s.dram, side, entry))))
  {
    hide T.WellFormed, T.FindMinCmdCycle, Q.Queued, SysToMem, MatchingMemToSys;
  }

  /** One request leaves the overflow queue, the first, iff both queues have room; if it is first
      in its bank the next tick is no later than the bus could be used. */
  lemma RefillExact(c: Config, s: State, min: Cycle, cycle: nat)
    requires Indexed(c, s)
    ensures var (m, e) := Refill(c, s, min, cycle);
            if s.overflow == [] || |s.rd.queue| >= c.queueDepth || |s.wr.queue| >= c.queueDepth then e == s && m == min
            else
              var r := s.overflow[0];
              var entry := Entry(r, s.nextId, cycle);
              && e.overflow == s.overflow[1..] && e.nextId == s.nextId + 1
              && Shaped(e.rd, |s.dram.banks|) && Shaped(e.wr, |s.dram.banks|) && r.bank < |s.dram.banks|
              && (if c.deferredWrites && r.write then e.rd == s.rd && e.wr.queue == s.wr.queue + [entry]
                  else e.wr == s.wr && e.rd.queue == s.rd.queue + [entry])
              && var side := if c.deferredWrites && r.write then e.wr else e.rd;
                 var ready := T.Max(cycle, s.dram.minRespCycle - c.timing.tCL - c.timing.tBL);
                 m == if IsHead(side, entry) then Sooner(min, At(ready)) else min
  {
    hide T.WellFormed, T.FindMinCmdCycle, Q.Queued;
  }

  /** A request of the side that is first in its bank, and when it is ready. */
  predicate HeadAt(d: T.Dram, s: Side, i: nat)
    requires Shaped(s, |d.banks|)
  {
    i < |s.queue| && IsHead(s, s.queue[i])
  }

  function ReadyAt(t: T.Timing, d: T.Dram, s: Side, i: nat): nat
    requires T.WellFormed(d) && Shaped(s, |d.banks|) && HeadAt(d, s, i)
  {
    ReadyOf(t, d, s, s.queue[i])
  }

  /** The first request in arrival order that is first in its bank and ready. */
  ghost predicate FirstReady(t: T.Timing, d: T.Dram, s: Side, cur: nat, k: nat)
    requires T.WellFormed(d) && Shaped(s, |d.banks|)
  {
    && HeadAt(d, s, k) && ReadyAt(t, d, s, k) <= cur
    && forall j: nat :: j < k && HeadAt(d, s, j) ==> ReadyAt(t, d, s, j) > cur
  }

  /** The first cycle in which one will be. */
  ghost predicate FirstCycle(t: T.Timing, d: T.Dram, s: Side, cur: nat, m: nat)
    requires T.WellFormed(d) && Shaped(s, |d.banks|)
  {
    && m > cur && (exists k: nat :: HeadAt(d, s, k) && ReadyAt(t, d, s, k) == m)
    && forall j: nat :: HeadAt(d, s, j) ==> ReadyAt(t, d, s, j) >= m
  }

  lemma {:induction false} SearchFinds(t: T.Timing, d: T.Dram, s: Side, cur: nat, i: nat, min: Cycle, k: nat)
    requires T.WellFormed(d) && Shaped(s, |d.banks|) && i <= k && FirstReady(t, d, s, cur, k)
    ensures Search(t, d, s, cur, i, min) == Found(k)
    decreases k - i
  {
    hide T.WellFormed, T.FindMinCmdCycle;
    if i < k {
      var next := if HeadAt(d, s, i) && Earlier(At(ReadyAt(t, d, s, i)), min) then At(ReadyAt(t, d, s, i)) else min;
      SearchFinds(t, d, s, cur, i + 1, next, k);
    }
  }

  lemma {:induction false} SearchWaits(t: T.Timing, d: T.Dram, s: Side, cur: nat, i: nat, min: Cycle)
    requires T.WellFormed(d) && Shaped(s, |d.banks|) && i <= |s.queue|
    requires forall j: nat :: HeadAt(d, s, j) ==> ReadyAt(t, d, s, j) > cur
    ensures Search(t, d, s, cur, i, min).NotReady?
    ensures var m := Search(t, d, s, cur, i, min).min;
            m == min || (m.At? && exists k: nat :: HeadAt(d, s, k) && ReadyAt(t, d, s, k) == m.cycle)
    decreases |s.queue| - i
  {
    hide T.WellFormed, T.FindMinCmdCycle;
    if i < |s.queue| {
      var next := if HeadAt(d, s, i) && Earlier(At(ReadyAt(t, d, s, i)), min) then At(ReadyAt(t, d, s, i)) else min;
      SearchWaits(t, d, s, cur, i + 1, next);
    }
  }

  function SideToServe(c: Config, s: State): Side {
    if PickWrites(c, s) then s.wr else s.rd
  }

  /** Nothing is served before the bus is free. */
  lemma WaitsForBus(c: Config, s: State, cycle: nat)
    requires Indexed(c, s) && !Idling(s) && cycle + c.timing.tCL < s.dram.minRespCycle
    ensures TrySchedule(c, s, cycle) == (At(s.dram.minRespCycle - c.timing.tCL), s)
  {
    hide Search;
  }

  /** Then the first ready request is, and the next tick comes when the bus is free again. */
  lemma ServesFirstReady(c: Config, s: State, cycle: nat, k: nat)
    requires Indexed(c, s) && !Idling(s) && cycle + c.timing.tCL >= s.dram.minRespCycle
    requires FirstReady(c.timing, s.dram, SideToServe(c, s), cycle, k)
    ensures var e := ServeAt(c, s, PickWrites(c, s), k, cycle);
            && TrySchedule(c, s, cycle).1 == e
            && TrySchedule(c, s, cycle).0 == if e.rd.queue == [] && e.wr.queue == [] then Never
                                             else At(e.dram.minRespCycle - c.timing.tCL)
  {
    hide Search, ServeAt, T.FindMinCmdCycle, T.WellFormed;
    SearchFinds(c.timing, s.dram, SideToServe(c, s), cycle, 0, Never, k);
  }

  /** If none is ready, the next tick comes in the first cycle in which one will be. */
  lemma WaitsForReady(c: Config, s: State, cycle: nat)
    requires Stored(c, s) && !Idling(s) && cycle + c.timing.tCL >= s.dram.minRespCycle
    requires Indexed(c, s)
    requires forall k: nat :: !FirstReady(c.timing, s.dram, SideToServe(c, s), cycle, k)
    ensures var (m, e) := TrySchedule(c, s, cycle);
            e == s && m.At? && FirstCycle(c.timing, s.dram, SideToServe(c, s), cycle, m.cycle)
  {
    hide Stored, Search, ServeAt, T.FindMinCmdCycle, T.WellFormed;
    StoredFacts(c, s);
    var side := SideToServe(c, s);
    NoneReady(c.timing, s.dram, side, cycle, |side.queue|);
    SearchWaits(c.timing, s.dram, side, cycle, 0, Never);
    SearchNotReady(c.timing, s.dram, side, cycle, 0, Never);
    var h := HeadExists(side);
    assert HeadAt(s.dram, side, h);
  }

  lemma {:induction false} NoneReady(t: T.Timing, d: T.Dram, s: Side, cur: nat, n: nat)
    requires T.WellFormed(d) && Shaped(s, |d.banks|) && forall k: nat :: !FirstReady(t, d, s, cur, k)
    ensures forall j: nat :: j < n && HeadAt(d, s, j) ==> ReadyAt(t, d, s, j) > cur
  {
    hide T.FindMinCmdCycle, T.WellFormed;
    if n > 0 {
      NoneReady(t, d, s, cur, n - 1);
      assert !FirstReady(t, d, s, cur, n - 1);
    }
  }

  /** Serving a request opens its row; it stays open unless pages are closed and no row hit of
      the same bank follows.  The bank remembers the number of the hit. */
  lemma ServeExact(c: Config, s: State, writes: bool, i: nat, cycle: nat)
    requires Indexed(c, s)
    requires var side := if writes then s.wr else s.rd; i < |side.queue| && IsHead(side, side.queue[i])
    ensures var side, e := (if writes then s.wr else s.rd), ServeAt(c, s, writes, i, cycle);
            var x := side.queue[i];
            var l, k, left := side.lists[x.req.bank], e.dram.banks[x.req.bank], if writes then e.wr else e.rd;
            && (k.open <==> !c.closedPage || (|l| >= 2 && l[1].rowHitSeq > 0))
            && k.openRow == x.req.row && k.curRowHits == l[0].rowHitSeq && e.dram.lastCmdWasWrite == x.req.write
            && e.done == s.done + [Service(x, writes)]
            && left.queue == side.queue[..i] + side.queue[i + 1..] && left.lists[x.req.bank] == l[1..]
            && (forall b :: 0 <= b < |side.lists| && b != x.req.bank ==> left.lists[b] == side.lists[b])
            && (if writes then e.rd == s.rd else e.wr == s.wr)
  {
    hide T.WellFormed, T.Commands, T.CmdCycle;
  }

  // ------------------------------------------------------------------ the overflow queue

  /** The entry has been queued, and perhaps served since. */
  predicate Entered(s: State, x: Entry) {
    x in s.rd.queue || x in s.wr.queue || Service(x, false) in s.done || Service(x, true) in s.done
  }

  ghost predicate KeepsEntered(s: State, e: State) {
    s.nextId <= e.nextId && forall x: Entry :: Entered(s, x) ==> Entered(e, x)
  }

  function RequestsOf(xs: seq<Entry>): (r: seq<Request>)
    ensures |r| == |xs| && forall i :: 0 <= i < |xs| ==> r[i] == xs[i].req
  {
    seq(|xs|, i requires 0 <= i < |xs| => xs[i].req)
  }

  /** Numbered in order, from lo up to hi, and all queued by now. */
  ghost predicate Moved(e: State, xs: seq<Entry>, lo: nat, hi: nat) {
    && (forall i :: 0 <= i < |xs| ==> lo <= xs[i].id < hi && Entered(e, xs[i]))
    && forall i, j :: 0 <= i < j < |xs| ==> xs[i].id < xs[j].id
  }

  lemma ServeEntered(c: Config, s: State, writes: bool, i: nat, cycle: nat)
    requires Indexed(c, s)
    requires var side := if writes then s.wr else s.rd; i < |side.queue| && IsHead(side, side.queue[i])
    ensures var e := ServeAt(c, s, writes, i, cycle); KeepsEntered(s, e) && e.overflow == s.overflow
  {
    hide T.Issue, T.Commands, T.WellFormed, Shaped;
    var e := ServeAt(c, s, writes, i, cycle);
    var q := (if writes then s.wr else s.rd).queue;
    forall x: Entry | Entered(s, x)
      ensures Entered(e, x)
    {
      assert Service(q[i], writes) in e.done;
      StillQueued(q, i, x);
    }
  }

  lemma StillQueued(q: seq<Entry>, i: nat, x: Entry)
    requires i < |q|
    ensures x in q ==> x == q[i] || x in q[..i] + q[i + 1..]
  {
    if x in q && x != q[i] {
      var k :| 0 <= k < |q| && q[k] == x;
      assert (q[..i] + q[i + 1..])[if k < i then k else k - 1] == x;
    }
  }

  lemma TryScheduleEntered(c: Config, s: State, cycle: nat)
    requires Indexed(c, s)
    ensures var e := TrySchedule(c, s, cycle).1; KeepsEntered(s, e) && e.overflow == s.overflow
  {
    hide Search, ServeAt, MinCmdCycle, IsHead, T.WellFormed, Shaped;
    var side := if PickWrites(c, s) then s.wr else s.rd;
    if !Idling(s) && cycle >= s.dram.minRespCycle - c.timing.tCL &&
       Search(c.timing, s.dram, side, cycle, 0, Never).Found? {
      SearchFound(c.timing, s.dram, side, cycle, 0, Never);
      ServeEntered(c, s, PickWrites(c, s), Search(c.timing, s.dram, side, cycle, 0, Never).index, cycle);
    }
  }

  lemma EnterEntered(c: Config, s: State, r: Request, cycle: nat)
    requires Indexed(c, s) && r.bank < |s.dram.banks|
    ensures var e := Enter(c, s, r, cycle);
            && KeepsEntered(s, e) && Entered(e, Entry(r, s.nextId, cycle)) && e.overflow == s.overflow
            && e.nextId == s.nextId + 1
  {
    hide T.WellFormed, Shaped, Q.Queued;
  }

  lemma RefillMoves(c: Config, s: State, min: Cycle, cycle: nat) returns (xs: seq<Entry>)
    requires Indexed(c, s)
    ensures var e := Refill(c, s, min, cycle).1;
            KeepsEntered(s, e) && Moved(e, xs, s.nextId, e.nextId) && s.overflow == RequestsOf(xs) + e.overflow
  {
    hide T.WellFormed, Shaped, Enter, LoweredCycle, Entered;
    xs := [];
    if !Full(c, s) && s.overflow != [] {
      EnterEntered(c, s.(overflow := s.overflow[1..]), s.overflow[0], cycle);
      xs := [Entry(s.overflow[0], s.nextId, cycle)];
      SameEntered(s, s.(overflow := s.overflow[1..]));
      assert s.overflow == [s.overflow[0]] + s.overflow[1..];
    }
  }

  lemma SameEntered(s: State, e: State)
    requires e.rd == s.rd && e.wr == s.wr && e.done == s.done
    ensures forall x: Entry :: Entered(s, x) <==> Entered(e, x)
  {
  }

  lemma FireMoves(c: Config, s: State, i: nat) returns (xs: seq<Entry>)
    requires Indexed(c, s) && i < |s.events|
    ensures var e := Fire(c, s, i);
            KeepsEntered(s, e) && Moved(e, xs, s.nextId, e.nextId) && s.overflow == RequestsOf(xs) + e.overflow
  {
    hide TrySchedule, Refill, T.WellFormed, Shaped, SysToMem, MatchingMemToSys, Entered;
    xs := [];
    var e := Fire(c, s, i);
    if s.events[i].state == Queued {
      var cycle := SysToMem(c.clock, s.events[i].sysCycle);
      var (min0, u) := TrySchedule(c, s, cycle);
      TryScheduleEntered(c, s, cycle);
      xs := RefillMoves(c, u, min0, cycle);
      SameEntered(Refill(c, u, min0, cycle).1, e);
    } else {
      SameEntered(s, e);
    }
  }

  /** The requests that overflow in a step. */
  function OverflowedBy(c: Config, s: State, step: Step): seq<Request> {
    if step.Arrive? && Full(c, s) then [step.req] else []
  }

  lemma EnqueueMoves(c: Config, s: State, r: Request, now: nat)
    requires Indexed(c, s) && r.bank < |s.dram.banks|
    ensures var e := Enqueue(c, s, r, now);
            KeepsEntered(s, e) && e.overflow == s.overflow + if Full(c, s) then [r] else []
  {
    hide T.WellFormed, Shaped, Enter, ArrivalCycle, SysToMem, MatchingMemToSys, Entered;
    var a, e := s.(accepted := s.accepted + multiset{r}), Enqueue(c, s, r, now);
    SameEntered(s, a);
    if !Full(c, s) {
      EnterEntered(c, a, r, SysToMem(c.clock, now));
      SameEntered(Enter(c, a, r, SysToMem(c.clock, now)), e);
    } else {
      SameEntered(s, e);
    }
  }

  lemma StepMoves(c: Config, s: State, step: Step) returns (xs: seq<Entry>)
    requires Enabled(c, s, step)
    ensures var e := Next(c, s, step);
            && KeepsEntered(s, e) && Moved(e, xs, s.nextId, e.nextId)
            && s.overflow + OverflowedBy(c, s, step) == RequestsOf(xs) + e.overflow
  {
    hide Enqueue, Fire, Indexed, SysToMem, Entered;
    xs := [];
    match step {
      case Arrive(r, now) => EnqueueMoves(c, s, r, now);
      case FireEvent(i) => xs := FireMoves(c, s, i);
      case Refreshing(now) => SameEntered(s, Next(c, s, step));
    }
  }

  ghost function Overflowed(c: Config, s: State, steps: seq<Step>): (r: seq<Request>)
    decreases |steps|
  {
    if steps == [] || !Enabled(c, s, steps[0]) then []
    else OverflowedBy(c, s, steps[0]) + Overflowed(c, Next(c, s, steps[0]), steps[1..])
  }

  /** In every run requests leave the overflow queue in the order in which they came to it: those
      that were or came in it are those that were queued, numbered in that order, followed by
      those that are in it. */
  lemma {:induction false} OverflowInOrder(c: Config, s: State, steps: seq<Step>, e: State) returns (xs: seq<Entry>)
    requires Run(c, s, steps, e)
    ensures s.overflow + Overflowed(c, s, steps) == RequestsOf(xs) + e.overflow
    ensures Moved(e, xs, s.nextId, e.nextId) && KeepsEntered(s, e)
    decreases |steps|
  {
    hide Enabled, Next, Entered, RequestsOf, OverflowedBy;
    if steps == [] {
      xs := [];
    } else {
      var m := Next(c, s, steps[0]);
      var head := StepMoves(c, s, steps[0]);
      var tail := OverflowInOrder(c, m, steps[1..], e);
      xs := head + tail;
      JoinMoves(s, m, e, head, tail);
      var o, w := OverflowedBy(c, s, steps[0]), Overflowed(c, m, steps[1..]);
      assert s.overflow + (o + w) == (s.overflow + o) + w;
      assert RequestsOf(head) + m.overflow + w == RequestsOf(head) + (m.overflow + w);
      assert RequestsOf(head) + (RequestsOf(tail) + e.overflow) == RequestsOf(head) + RequestsOf(tail) + e.overflow;
    }
  }

  lemma JoinMoves(s: State, m: State, e: State, head: seq<Entry>, tail: seq<Entry>)
    requires Moved(m, head, s.nextId, m.nextId) && Moved(e, tail, m.nextId, e.nextId)
    requires KeepsEntered(s, m) && KeepsEntered(m, e)
    ensures Moved(e, head + tail, s.nextId, e.nextId) && KeepsEntered(s, e)
    ensures RequestsOf(head + tail) == RequestsOf(head) + RequestsOf(tail)
  {
    hide Entered;
  }

  /** A failed assertion is never forgotten by a later step. */
  lemma FailuresStay(c: Config, s: State, step: Step)
    requires Enabled(c, s, step) && s.bad
    ensures Next(c, s, step).bad
  {
    hide TrySchedule, Enter, ArrivalCycle, Refill, T.WellFormed, Shaped;
    match step
    case Arrive(r, now) =>
      EnterFails(c, s.(accepted := s.accepted + multiset{r}), r, SysToMem(c.clock, now));
    case FireEvent(i) =>
      TickFails(c, s, s.events[i].sysCycle);
    case Refreshing(now) =>
  }

  lemma EnterFails(c: Config, s: State, r: Request, cycle: nat)
    requires Indexed(c, s) && r.bank < |s.dram.banks| && s.bad
    ensures Enter(c, s, r, cycle).bad
  {
  }

  lemma TickFails(c: Config, s: State, now: nat)
    requires Indexed(c, s) && s.bad
    ensures Tick(c, s, now).1.bad
  {
    hide Search, Enter, LoweredCycle;
    var cycle := SysToMem(c.clock, now);
    var (min, u) := TrySchedule(c, s, cycle);
    assert u.bad;
    if !Full(c, u) && u.overflow != [] {
      EnterFails(c, u.(overflow := u.overflow[1..]), u.overflow[0], cycle);
    }
  }
}

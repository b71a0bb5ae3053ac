/** Without new requests and refreshes the controller serves everything that waits. */
module DdrDrain {
  import opened Counting
  import opened DdrClock
  import opened DdrController
  import opened DdrControllerProof
  import T = DdrTiming

  /** A request in the overflow queue has still to be moved. */
  function Load(s: State): nat {
    |s.rd.queue| + |s.wr.queue| + 2 * |s.overflow|
  }

  /** The search of a tick in the given cycle. */
  function SearchAt(c: Config, s: State, cycle: nat): Found
    requires Indexed(c, s)
  {
    Search(c.timing, s.dram, if PickWrites(c, s) then s.wr else s.rd, cycle, 0, Never)
  }

  /** How many ticks the next one may be away from serving: the bus may still be busy, and then
      no request may be ready. */
  function Stage(c: Config, s: State): nat
    requires Indexed(c, s)
  {
    if s.nextSchedCycle.Never? then 0
    else if s.nextSchedCycle.cycle < s.dram.minRespCycle - c.timing.tCL then 2
    else if SearchAt(c, s, s.nextSchedCycle.cycle).NotReady? then 1
    else 0
  }

  function Work(c: Config, s: State): nat
    requires Indexed(c, s)
  {
    3 * Load(s) + Stage(c, s)
  }

  // ---------------------------------------------------------------------- one tick

  /** If nothing is ready, something will be in the cycle that the search returns. */
  lemma {:induction false} SearchAgain(t: T.Timing, d: T.Dram, s: Side, cur: nat, i: nat, min: Cycle, m: nat)
    requires T.WellFormed(d) && Shaped(s, |d.banks|) && i <= |s.queue|
    requires Search(t, d, s, cur, i, min) == NotReady(At(m)) && min != At(m)
    ensures forall other: Cycle :: Search(t, d, s, m, i, other).Found?
    decreases |s.queue| - i
  {
    hide T.WellFormed, T.FindMinCmdCycle, Shaped;
    if i < |s.queue| {
      var x := s.queue[i];
      ShapedAt(s, |d.banks|, i);
      var next := if IsHead(s, x) && Earlier(At(MinCmdCycle(t, d, s, x)), min) then At(MinCmdCycle(t, d, s, x))
                  else min;
      if next != At(m) {
        SearchAgain(t, d, s, cur, i + 1, next, m);
      }
    }
  }

  lemma ShapedAt(s: Side, banks: nat, i: nat)
    requires Shaped(s, banks) && i < |s.queue|
    ensures |s.lists| == banks && s.queue[i].req.bank < banks
  {
  }

  lemma TryScheduleWork(c: Config, s: State, cycle: nat)
    requires Stored(c, s) && !Idling(s) && s.nextSchedCycle == At(cycle)
    ensures var r := TrySchedule(c, s, cycle);
            || Load(r.1) < Load(s)
            || (r.1 == s && Indexed(c, s.(nextSchedCycle := r.0)) && Stage(c, s.(nextSchedCycle := r.0)) < Stage(c, s))
  {
    hide Stored, Search, ServeAt, T.WellFormed, Shaped;
    StoredFacts(c, s);
    var free := s.dram.minRespCycle - c.timing.tCL;
    var side := if PickWrites(c, s) then s.wr else s.rd;
    if cycle >= free {
      var f := Search(c.timing, s.dram, side, cycle, 0, Never);
      if f.Found? {
        SearchFound(c.timing, s.dram, side, cycle, 0, Never);
        ServeLoad(c, s, PickWrites(c, s), f.index, cycle);
      } else {
        TryScheduleOk(c, s, cycle);
        SearchAgain(c.timing, s.dram, side, cycle, 0, Never, f.min.cycle);
      }
    }
  }

  lemma ServeLoad(c: Config, s: State, writes: bool, i: nat, cycle: nat)
    requires Indexed(c, s)
    requires var side := if writes then s.wr else s.rd; i < |side.queue| && IsHead(side, side.queue[i])
    ensures Load(ServeAt(c, s, writes, i, cycle)) == Load(s) - 1
  {
    hide T.Issue, T.Commands, T.WellFormed, Shaped;
  }

  lemma RefillLoad(c: Config, s: State, min: Cycle, cycle: nat)
    requires Indexed(c, s)
    ensures var r := Refill(c, s, min, cycle);
            Load(r.1) < Load(s) || (r.1 == s && r.0 == min)
  {
    hide T.WellFormed, Shaped, LoweredCycle;
  }

  lemma TickWork(c: Config, s: State, now: nat)
    requires Stored(c, s) && !Idling(s) && s.nextSchedCycle == At(SysToMem(c.clock, now))
    ensures Indexed(c, s) && Work(c, Tick(c, s, now).1) < Work(c, s)
  {
    hide Stored, TrySchedule, Refill, Load, SearchAt, SysToMem, MatchingMemToSys;
    StoredFacts(c, s);
    var cycle := SysToMem(c.clock, now);
    var (min0, u) := TrySchedule(c, s, cycle);
    TryScheduleWork(c, s, cycle);
    RefillLoad(c, u, min0, cycle);
    var (min, v) := Refill(c, u, min0, cycle);
    var w := Tick(c, s, now).1;
    SameLoad(v, w);
    if v == s {
      SameStage(c, s.(nextSchedCycle := min0), w);
    }
  }

  lemma SameLoad(s: State, e: State)
    requires e.rd == s.rd && e.wr == s.wr && e.overflow == s.overflow
    ensures Load(e) == Load(s)
  {
  }

  /** The stage depends on the queues, the banks and the bus, and on the expected cycle. */
  lemma SameStage(c: Config, s: State, e: State)
    requires Indexed(c, s) && Indexed(c, e)
    requires e.rd == s.rd && e.wr == s.wr && e.dram == s.dram && e.nextSchedCycle == s.nextSchedCycle
    ensures Stage(c, e) == Stage(c, s)
  {
  }

  // ----------------------------------------------------------------- firing events

  /** 1 for each event that has been annulled and will only be recycled. */
  function Marks(events: seq<Event>): (m: seq<nat>)
    ensures |m| == |events|
  {
    seq(|events|, i requires 0 <= i < |events| => if events[i].state == Annulled then 1 else 0)
  }

  function Pending(events: seq<Event>): nat {
    Sum(Marks(events), |events|)
  }

  /** What firings can still do. */
  function Total(c: Config, s: State): nat
    requires Indexed(c, s)
  {
    Work(c, s) + Pending(s.events)
  }

  lemma MarkChanges(events: seq<Event>, i: nat, e: Event)
    requires i < |events| && e.state != Annulled
    ensures Pending(events[i := e]) == Pending(events) - if events[i].state == Annulled then 1 else 0
  {
    var m := Marks(events);
    assert Marks(events[i := e]) == m[i := 0];
    SumUpdate(m, |m|, i, 0);
  }

  lemma LiveFiringWork(c: Config, s: State, i: nat)
    requires Inv(c, s) && i < |s.events| && s.events[i].state == Queued
    ensures Indexed(c, s) && Indexed(c, Fire(c, s, i)) && Total(c, Fire(c, s, i)) < Total(c, s)
    ensures Fire(c, s, i).accepted == s.accepted
  {
    hide Stored, Tick, Load, Stage, Idling, SysToMem, Held, Pending;
    StoredFacts(c, s);
    FireLive(c, s, i);
    var now := s.events[i].sysCycle;
    TickOk(c, s, now);
    TickWork(c, s, now);
    var u, e := Tick(c, s, now).1, Fire(c, s, i);
    StoredFacts(c, e);
    SameLoad(u, e);
    SameStage(c, u, e);
    MarkChanges(s.events, i, e.events[i]);
  }

  lemma AnnulledFiringWork(c: Config, s: State, i: nat)
    requires Inv(c, s) && i < |s.events| && s.events[i].state == Annulled
    ensures Indexed(c, s) && Indexed(c, Fire(c, s, i)) && Total(c, Fire(c, s, i)) < Total(c, s)
    ensures Fire(c, s, i).accepted == s.accepted
  {
    hide Stored, Load, Stage, Idling, SysToMem, Held, Pending;
    StoredFacts(c, s);
    FireAnnulled(c, s, i);
    var e := Fire(c, s, i);
    StoredFacts(c, e);
    SameLoad(s, e);
    SameStage(c, s, e);
    MarkChanges(s.events, i, e.events[i]);
  }

  lemma FiringWork(c: Config, s: State, step: Step)
    requires Inv(c, s) && Enabled(c, s, step) && step.FireEvent?
    ensures var e := Next(c, s, step);
            Inv(c, e) && Indexed(c, s) && Indexed(c, e) && Total(c, e) < Total(c, s) && e.accepted == s.accepted
  {
    hide Inv, Fire, Total;
    StepInv(c, s, step);
    var i := step.index;
    if s.events[i].state == Queued {
      LiveFiringWork(c, s, i);
    } else {
      AnnulledFiringWork(c, s, i);
    }
  }

  predicate AllFirings(steps: seq<Step>) {
    forall i :: 0 <= i < |steps| ==> steps[i].FireEvent?
  }

  predicate AllServed(s: State) {
    s.rd.queue == [] && s.wr.queue == [] && s.overflow == []
  }

  /** No run of firings is longer than what there is to do. */
  lemma {:induction false} FiringsEnd(c: Config, s: State, steps: seq<Step>, e: State)
    requires Inv(c, s) && Run(c, s, steps, e) && AllFirings(steps)
    ensures Indexed(c, s) && |steps| <= Total(c, s) && e.accepted == s.accepted
    decreases |steps|
  {
    hide Inv, Enabled, Next, Total;
    InvIndexed(c, s);
    if steps != [] {
      FiringWork(c, s, steps[0]);
      FiringsEnd(c, Next(c, s, steps[0]), steps[1..], e);
    }
  }

  lemma InvIndexed(c: Config, s: State)
    requires Inv(c, s)
    ensures Indexed(c, s)
  {
  }

  /** While a request waits, the event that will see to it can fire. */
  lemma LiveCanFire(c: Config, s: State) returns (step: Step)
    requires Inv(c, s) && !AllServed(s)
    ensures step.FireEvent? && Enabled(c, s, step)
  {
    hide Stored, Held, SysToMem;
    StoredFacts(c, s);
    step := FireEvent(s.live.index);
  }

  lemma {:induction false} Drain(c: Config, s: State) returns (steps: seq<Step>, e: State)
    requires Inv(c, s) && Indexed(c, s)
    ensures Run(c, s, steps, e) && AllFirings(steps) && AllServed(e)
    decreases Total(c, s)
  {
    hide Inv, Indexed, Enabled, Next, Total, AllServed;
    if AllServed(s) {
      steps, e := [], s;
    } else {
      var step := LiveCanFire(c, s);
      FiringWork(c, s, step);
      var rest;
      rest, e := Drain(c, Next(c, s, step));
      steps := [step] + rest;
      assert steps[1..] == rest;
    }
  }

  /** From every reachable state, firing events without arrivals or refreshes serves every
      request that was accepted; and no run of firings is longer than what there was to do, so
      whatever fires first, everything is served in the end. */
  lemma RequestsServed(c: Config, s0: State, before: seq<Step>, s: State) returns (steps: seq<Step>, e: State)
    requires Initial(c, s0) && Run(c, s0, before, s)
    ensures Run(c, s, steps, e) && AllFirings(steps) && AllServed(e) && multiset(Served(e.done)) == s.accepted
    ensures Indexed(c, s) && forall other: seq<Step>, f: State :: Run(c, s, other, f) && AllFirings(other) ==>
              |other| <= Total(c, s) && (AllServed(f) || exists step: Step :: step.FireEvent? && Enabled(c, f, step))
  {
    hide Inv, Run, Enabled, Total, AllServed, AllFirings, Initial;
    InitialInv(c, s0);
    RunInv(c, s0, before, s);
    InvIndexed(c, s);
    steps, e := Drain(c, s);
    RunInv(c, s, steps, e);
    FiringsEnd(c, s, steps, e);
    ServedAll(c, e);
    forall other: seq<Step>, f: State | Run(c, s, other, f) && AllFirings(other)
      ensures |other| <= Total(c, s) && (AllServed(f) || exists step: Step :: step.FireEvent? && Enabled(c, f, step))
    {
      FiringsEnd(c, s, other, f);
      RunInv(c, s, other, f);
      if !AllServed(f) {
        var step := LiveCanFire(c, f);
      }
    }
  }

  lemma ServedAll(c: Config, s: State)
    requires Inv(c, s) && AllServed(s)
    ensures multiset(Served(s.done)) == s.accepted
  {
    hide Stored, EventsOk, WakeOk, Served;
    assert Requests([]) == [];
  }
}

/** Bounded bypass in the whole controller: what happens to a waiting request while the
    controller runs. */
module DdrBypass {
  import opened DdrController
  import opened DdrControllerProof
  import opened DdrClock
  import T = DdrTiming
  import Q = FrFcfs

  /** How many requests of a bank the reads or the writes have served. */
  function Pops(done: seq<Service>, writes: bool, bank: nat): (n: nat) {
    if done == [] then 0
    else
      var d := done[|done| - 1];
      Pops(done[..|done| - 1], writes, bank) + if d.writes == writes && d.entry.req.bank == bank then 1 else 0
  }

  ghost predicate IsDone(done: seq<Service>, id: nat) {
    exists i :: 0 <= i < |done| && done[i].entry.id == id
  }

  function SideIn(s: State, writes: bool): Side {
    if writes then s.wr else s.rd
  }

  /** The request waits in the list, and its potential and the services so far stay within k. */
  ghost predicate WaitsAt(l: seq<Q.Request>, x: nat, id: nat, pops: nat, k: nat, limit: nat) {
    x < |l| && l[x].arrival == id && Q.Capped(l, limit) && Q.Potential(l, x, limit) + pops <= k
  }

  ghost predicate Tracked(s: State, writes: bool, bank: nat, id: nat, k: nat, limit: nat) {
    && bank < |SideIn(s, writes).lists|
    && (IsDone(s.done, id) ||
        exists x: nat :: WaitsAt(SideIn(s, writes).lists[bank], x, id, Pops(s.done, writes, bank), k, limit))
  }

  lemma PopsExtend(done: seq<Service>, d: Service, writes: bool, bank: nat)
    ensures Pops(done + [d], writes, bank)
         == Pops(done, writes, bank) + if d.writes == writes && d.entry.req.bank == bank then 1 else 0
  {
    assert (done + [d])[..|done|] == done;
  }

  lemma DoneExtend(done: seq<Service>, d: Service, id: nat)
    ensures IsDone(done + [d], id) <==> IsDone(done, id) || d.entry.id == id
  {
    var t := done + [d];
    assert t[|done|] == d;
    if IsDone(done, id) {
      var i :| 0 <= i < |done| && done[i].entry.id == id;
      assert t[i] == done[i];
    }
  }

  lemma Unaffected(s: State, e: State, writes: bool, bank: nat, id: nat, k: nat, limit: nat)
    requires Tracked(s, writes, bank, id, k, limit) && e.rd == s.rd && e.wr == s.wr && e.done == s.done
    ensures Tracked(e, writes, bank, id, k, limit)
  {
    hide WaitsAt, IsDone, Pops;
  }

  /** Queueing leaves the potential of a waiting request as it is. */
  lemma EnterTracked(c: Config, s: State, r: Request, cycle: nat, writes: bool, bank: nat, id: nat, k: nat)
    requires Indexed(c, s) && r.bank < |s.dram.banks| && Tracked(s, writes, bank, id, k, c.rowHitLimit)
    ensures Tracked(Enter(c, s, r, cycle), writes, bank, id, k, c.rowHitLimit)
  {
    hide Pops, IsDone, Q.Queued, Q.Potential, Q.Capped, Q.Moved;
    var e, limit := Enter(c, s, r, cycle), c.rowHitLimit;
    if !IsDone(s.done, id) {
      var l := SideIn(s, writes).lists[bank];
      var x: nat :| WaitsAt(l, x, id, Pops(s.done, writes, bank), k, limit);
      var l1 := SideIn(e, writes).lists[bank];
      if InWrites(c, r) == writes && r.bank == bank {
        Q.QueueKeepsPotential(l, Buffer(s.dram, bank), s.nextId, r.row, limit, x);
        assert WaitsAt(l1, Q.Moved(l, Buffer(s.dram, bank), r.row, limit, x), id, Pops(e.done, writes, bank), k, limit);
      } else {
        assert WaitsAt(l1, x, id, Pops(e.done, writes, bank), k, limit);
      }
    }
  }

  /** Serving from the list lowers the potential by at least one. */
  lemma ServeTracked(c: Config, s: State, w: bool, i: nat, cycle: nat, writes: bool, bank: nat, id: nat, k: nat)
    requires Indexed(c, s) && Tracked(s, writes, bank, id, k, c.rowHitLimit)
    requires i < |SideIn(s, w).queue| && IsHead(SideIn(s, w), SideIn(s, w).queue[i])
    ensures Tracked(ServeAt(c, s, w, i, cycle), writes, bank, id, k, c.rowHitLimit)
  {
    hide Pops, IsDone, Q.Potential, Q.Capped, T.Issue, T.Commands, T.WellFormed;
    var e, limit := ServeAt(c, s, w, i, cycle), c.rowHitLimit;
    var d := Service(SideIn(s, w).queue[i], w);
    PopsExtend(s.done, d, writes, bank);
    DoneExtend(s.done, d, id);
    if !IsDone(s.done, id) && d.entry.id != id {
      var l := SideIn(s, writes).lists[bank];
      var x: nat :| WaitsAt(l, x, id, Pops(s.done, writes, bank), k, limit);
      var l1 := SideIn(e, writes).lists[bank];
      if w == writes && d.entry.req.bank == bank {
        assert l[0].arrival == d.entry.id;
        Q.PopPotential(l, x, limit);
        assert WaitsAt(l1, x - 1, id, Pops(e.done, writes, bank), k, limit);
      } else {
        assert WaitsAt(l1, x, id, Pops(e.done, writes, bank), k, limit);
      }
    }
  }

  lemma TryScheduleTracked(c: Config, s: State, cycle: nat, writes: bool, bank: nat, id: nat, k: nat)
    requires Indexed(c, s) && Tracked(s, writes, bank, id, k, c.rowHitLimit)
    ensures Tracked(TrySchedule(c, s, cycle).1, writes, bank, id, k, c.rowHitLimit)
  {
    hide Tracked, ServeAt, Search, MinCmdCycle, T.WellFormed;
    var w := PickWrites(c, s);
    var side := SideIn(s, w);
    if !Idling(s) && cycle >= s.dram.minRespCycle - c.timing.tCL {
      var f := Search(c.timing, s.dram, side, cycle, 0, Never);
      if f.Found? {
        SearchFound(c.timing, s.dram, side, cycle, 0, Never);
        ServeTracked(c, s, w, f.index, cycle, writes, bank, id, k);
      }
    }
  }

  lemma RefillTracked(c: Config, s: State, min: Cycle, cycle: nat, writes: bool, bank: nat, id: nat, k: nat)
    requires Indexed(c, s) && Tracked(s, writes, bank, id, k, c.rowHitLimit)
    ensures Tracked(Refill(c, s, min, cycle).1, writes, bank, id, k, c.rowHitLimit)
  {
    hide Tracked, Enter, T.WellFormed, Shaped;
    if !Full(c, s) && s.overflow != [] {
      var u := s.(overflow := s.overflow[1..]);
      Unaffected(s, u, writes, bank, id, k, c.rowHitLimit);
      EnterTracked(c, u, s.overflow[0], cycle, writes, bank, id, k);
    }
  }

  lemma TickTracked(c: Config, s: State, now: nat, writes: bool, bank: nat, id: nat, k: nat)
    requires Indexed(c, s) && Tracked(s, writes, bank, id, k, c.rowHitLimit)
    ensures Tracked(Tick(c, s, now).1, writes, bank, id, k, c.rowHitLimit)
  {
    hide Tracked, TrySchedule, Refill, SysToMem, MatchingMemToSys, T.WellFormed, Shaped;
    var cycle := SysToMem(c.clock, now);
    TryScheduleTracked(c, s, cycle, writes, bank, id, k);
    var (min0, u) := TrySchedule(c, s, cycle);
    RefillTracked(c, u, min0, cycle, writes, bank, id, k);
    Unaffected(Refill(c, u, min0, cycle).1, Tick(c, s, now).1, writes, bank, id, k, c.rowHitLimit);
  }

  lemma FireTracked(c: Config, s: State, i: nat, writes: bool, bank: nat, id: nat, k: nat)
    requires Indexed(c, s) && i < |s.events| && Tracked(s, writes, bank, id, k, c.rowHitLimit)
    ensures Tracked(Fire(c, s, i), writes, bank, id, k, c.rowHitLimit)
  {
    hide Tracked, Tick, T.WellFormed, Shaped;
    if s.events[i].state == Queued {
      TickTracked(c, s, s.events[i].sysCycle, writes, bank, id, k);
      Unaffected(Tick(c, s, s.events[i].sysCycle).1, Fire(c, s, i), writes, bank, id, k, c.rowHitLimit);
    } else {
      Unaffected(s, Fire(c, s, i), writes, bank, id, k, c.rowHitLimit);
    }
  }

  lemma EnqueueTracked(c: Config, s: State, r: Request, now: nat, writes: bool, bank: nat, id: nat, k: nat)
    requires Indexed(c, s) && r.bank < |s.dram.banks| && Tracked(s, writes, bank, id, k, c.rowHitLimit)
    ensures Tracked(Enqueue(c, s, r, now), writes, bank, id, k, c.rowHitLimit)
  {
    hide Tracked, Enter, SysToMem, MatchingMemToSys, T.WellFormed, Shaped, ArrivalCycle;
    var a := s.(accepted := s.accepted + multiset{r});
    Unaffected(s, a, writes, bank, id, k, c.rowHitLimit);
    if Full(c, s) {
      Unaffected(s, Enqueue(c, s, r, now), writes, bank, id, k, c.rowHitLimit);
    } else {
      EnterTracked(c, a, r, SysToMem(c.clock, now), writes, bank, id, k);
      Unaffected(Enter(c, a, r, SysToMem(c.clock, now)), Enqueue(c, s, r, now), writes, bank, id, k, c.rowHitLimit);
    }
  }

  lemma StepTracked(c: Config, s: State, step: Step, writes: bool, bank: nat, id: nat, k: nat)
    requires Enabled(c, s, step) && Tracked(s, writes, bank, id, k, c.rowHitLimit)
    ensures Tracked(Next(c, s, step), writes, bank, id, k, c.rowHitLimit)
  {
    hide Tracked, Enqueue, Fire, Indexed;
    match step {
      case Arrive(r, now) => EnqueueTracked(c, s, r, now, writes, bank, id, k);
      case FireEvent(i) => FireTracked(c, s, i, writes, bank, id, k);
      case Refreshing(now) => Unaffected(s, RefreshAll(c, s, now), writes, bank, id, k, c.rowHitLimit);
    }
  }

  lemma {:induction false} RunTracked(c: Config, s: State, steps: seq<Step>, e: State,
                                      writes: bool, bank: nat, id: nat, k: nat)
    requires Run(c, s, steps, e) && Tracked(s, writes, bank, id, k, c.rowHitLimit)
    ensures Tracked(e, writes, bank, id, k, c.rowHitLimit)
    decreases |steps|
  {
    hide Tracked, Enabled, Next;
    if steps != [] {
      StepTracked(c, s, steps[0], writes, bank, id, k);
      RunTracked(c, Next(c, s, steps[0]), steps[1..], e, writes, bank, id, k);
    }
  }

  /** In every run of the controller, a request that waits in a bank list has been served once
      that list has served more requests than its potential, whatever arrives meanwhile. */
  lemma ControllerBypass(c: Config, s0: State, before: seq<Step>, s: State, after: seq<Step>, e: State,
                         writes: bool, bank: nat, x: nat)
    requires Initial(c, s0) && Run(c, s0, before, s) && Run(c, s, after, e)
    requires bank < |SideIn(s, writes).lists| && x < |SideIn(s, writes).lists[bank]|
    ensures var l := SideIn(s, writes).lists[bank];
            && Q.Capped(l, c.rowHitLimit)
            && (Pops(e.done, writes, bank) - Pops(s.done, writes, bank) > Q.Potential(l, x, c.rowHitLimit) ==>
                  IsDone(e.done, l[x].arrival))
  {
    hide Run, Pops, IsDone, Initial, Stored, Q.HitChains, Q.RowFifo, Q.Potential;
    InitialInv(c, s0);
    RunInv(c, s0, before, s);
    StoredShape(c, s);
    StoredLists(c, s, bank);
    var l := SideIn(s, writes).lists[bank];
    var k := Q.Potential(l, x, c.rowHitLimit) + Pops(s.done, writes, bank);
    assert WaitsAt(l, x, l[x].arrival, Pops(s.done, writes, bank), k, c.rowHitLimit);
    RunTracked(c, s, after, e, writes, bank, l[x].arrival, k);
  }

  lemma StoredShape(c: Config, s: State)
    requires Stored(c, s)
    ensures |s.rd.lists| == |s.wr.lists|
  {
  }
}

/** The DDR controller as an object whose operations update it in place. */
module DdrObject {
  import opened DdrClock
  import opened DdrController
  import T = DdrTiming
  import A = ActWindow
  import Q = FrFcfs
  import P = DdrControllerProof

  lemma IndexedFacts(c: Config, s: State)
    requires Indexed(c, s)
    ensures T.WellFormed(s.dram) && s.dram.minRespCycle >= c.timing.tCL
    ensures forall side :: side in [s.rd, s.wr] ==>
              Shaped(side, |side.lists|) && |side.lists| == |s.dram.banks| &&
              forall i :: 0 <= i < |side.queue| ==> side.queue[i].req.bank < |side.lists|
  {
  }

  lemma IndexedEvents(c: Config, s: State)
    requires Indexed(c, s)
    ensures ValidClock(c.clock) && (s.live.Live? ==> s.live.index < |s.events|)
    ensures forall i :: 0 <= i < |s.free| ==> s.free[i] < |s.events|
  {
  }

  /** The events after the live one, if any, has been annulled. */
  function WithoutLive(s: State): (events: seq<Event>)
    requires s.live.Live? ==> s.live.index < |s.events|
    ensures |events| == |s.events|
  {
    if s.live.Live? then s.events[s.live.index := s.events[s.live.index].(state := Annulled)] else s.events
  }

  lemma RescheduledState(c: Config, s: State, cycle: nat, now: nat, ok: bool, i: nat, e: State)
    requires Indexed(c, s) && cycle >= 1
    requires ok == (s.live.Live? ==> s.events[s.live.index].state == Queued)
    requires var events := if s.free != [] then WithoutLive(s) else WithoutLive(s) + [Event(Idle, 0)];
             && i == (if s.free != [] then s.free[0] else |s.events|)
             && e.bad == (s.bad || !ok || events[i].state != Idle)
             && e.events == events[i := Event(Queued, T.Max(MatchingMemToSys(c.clock, cycle), now))]
    requires e == s.(events := e.events, free := if s.free != [] then s.free[1..] else [], live := Live(i),
                     nextSchedCycle := At(cycle), bad := e.bad)
    ensures e == Reschedule(c, s, cycle, now)
  {
    hide T.WellFormed, Shaped, MatchingMemToSys;
  }

  lemma EnteredState(c: Config, s: State, r: Request, cycle: nat, e: State)
    requires Indexed(c, s) && r.bank < |s.dram.banks|
    requires var side := if c.deferredWrites && r.write then s.wr else s.rd;
             var added := Add(side, s.dram, Entry(r, s.nextId, cycle), c.rowHitLimit);
             && e.rd == (if c.deferredWrites && r.write then s.rd else added)
             && e.wr == (if c.deferredWrites && r.write then added else s.wr)
             && e.bad == (s.bad || |side.queue| >= c.queueDepth)
    requires e == s.(rd := e.rd, wr := e.wr, nextId := s.nextId + 1, bad := e.bad)
    ensures e == Enter(c, s, r, cycle)
  {
    hide T.WellFormed, Add, Shaped;
  }

  lemma ServedState(c: Config, s: State, writes: bool, i: nat, cycle: nat, a: T.Access, e: State)
    requires Indexed(c, s)
    requires var side := if writes then s.wr else s.rd;
             && i < |side.queue| && IsHead(side, side.queue[i]) && a == AccessOf(side, side.queue[i])
             && e.done == s.done + [Service(side.queue[i], writes)]
             && e.rd == (if writes then s.rd else Remove(side, i)) && e.wr == (if writes then Remove(side, i) else s.wr)
    requires e.dram == T.Issue(c.timing, c.closedPage, s.dram, a, cycle)
    requires e.log == s.log + T.Commands(c.timing, c.closedPage, s.dram, a, cycle)
    requires e == s.(dram := e.dram, log := e.log, done := e.done, rd := e.rd, wr := e.wr)
    ensures e == ServeAt(c, s, writes, i, cycle)
  {
    hide T.Issue, T.Commands, T.WellFormed, AccessOf, IsHead, Remove;
  }

  /** A bank whose row has been opened for a request. */
  function RowOpened(t: T.Timing, d: T.Dram, r: T.Access): T.Bank
    requires T.WellFormed(d) && r.bank < |d.banks|
  {
    var bank := d.banks[r.bank];
    bank.(open := true, openRow := r.row, lastActCycle := T.ActCycle(t, d, r),
          minPreCycle := if bank.open then T.PreCycle(d, r) + t.tRAS else bank.minPreCycle)
  }

  /** A bank after a column access. */
  function Accessed(t: T.Timing, closedPage: bool, bank: T.Bank, r: T.Access, cmd: nat): T.Bank {
    bank.(open := bank.open && !(closedPage && !r.hitFollows), lastCmdCycle := cmd, curRowHits := r.rowHitSeq,
          minPreCycle := T.Max(bank.minPreCycle, T.Max(bank.lastActCycle + t.tRAS, T.Recovered(t, cmd, r.write))))
  }

  /** Opening the row, unless it is open, and the column access make up an issue. */
  lemma IssuedState(t: T.Timing, closedPage: bool, d: T.Dram, r: T.Access, cur: nat, e: T.Dram)
    requires T.WellFormed(d) && r.bank < |d.banks| && d.minRespCycle >= t.tCL
    requires var bank := if T.RowHit(d, r) then d.banks[r.bank] else RowOpened(t, d, r);
             e.banks == d.banks[r.bank := Accessed(t, closedPage, bank, r, T.CmdCycle(t, d, r, cur))]
    requires var rank := d.banks[r.bank].rank;
             e.windows == if T.RowHit(d, r) then d.windows
                          else d.windows[rank := A.Added(d.windows[rank], T.ActCycle(t, d, r))]
    requires e.minRespCycle == T.CmdCycle(t, d, r, cur) + t.tCL + t.tBL && e.lastCmdWasWrite == r.write
    ensures e == T.Issue(t, closedPage, d, r, cur)
  {
    hide A.Added, T.ActCycle, T.CmdCycle, T.PreCycle;
  }

  /** Banks are numbered rank by rank. */
  function Slot(rank: nat, bank: nat, banksPerRank: nat): nat {
    rank * banksPerRank + bank
  }

  function RankOf(slot: int, banksPerRank: nat): nat
  {
    if slot >= 0 && banksPerRank > 0 then slot / banksPerRank else 0
  }

  lemma Scaled(a: nat, b: nat, n: nat)
    requires a <= b
    ensures a * n <= b * n
  {
    assert b * n == a * n + (b - a) * n;
  }

  lemma SlotRank(ranks: nat, rank: nat, bank: nat, banksPerRank: nat)
    requires rank < ranks && bank < banksPerRank
    ensures Slot(rank, bank, banksPerRank) < ranks * banksPerRank
    ensures RankOf(Slot(rank, bank, banksPerRank), banksPerRank) == rank
  {
    Scaled(rank + 1, ranks, banksPerRank);
    assert (rank + 1) * banksPerRank == Slot(rank, 0, banksPerRank) + banksPerRank;
    DivUnique(Slot(rank, bank, banksPerRank), banksPerRank, rank);
  }

  lemma SlotBelow(ranks: nat, slot: nat, banksPerRank: nat)
    requires slot < ranks * banksPerRank
    ensures RankOf(slot, banksPerRank) < ranks
  {
    var q := slot / banksPerRank;
    assert slot == q * banksPerRank + slot % banksPerRank;
    if q >= ranks {
      Scaled(ranks, q, banksPerRank);
      assert false;
    }
  }

  lemma Slots(ranks: nat, banksPerRank: nat)
    requires ranks >= 1 && banksPerRank >= 1
    ensures ranks * banksPerRank >= 1
    ensures forall i :: 0 <= i < ranks * banksPerRank ==> RankOf(i, banksPerRank) < ranks
    ensures forall r, b :: 0 <= r < ranks && 0 <= b < banksPerRank ==>
              Slot(r, b, banksPerRank) < ranks * banksPerRank && RankOf(Slot(r, b, banksPerRank), banksPerRank) == r
  {
    hide RankOf, Slot;
    SlotRank(ranks, 0, 0, banksPerRank);
    forall i: nat | i < ranks * banksPerRank ensures RankOf(i, banksPerRank) < ranks {
      SlotBelow(ranks, i, banksPerRank);
    }
    forall r: nat, b: nat | r < ranks && b < banksPerRank
      ensures Slot(r, b, banksPerRank) < ranks * banksPerRank && RankOf(Slot(r, b, banksPerRank), banksPerRank) == r
    {
      SlotRank(ranks, r, b, banksPerRank);
    }
  }

  /** An idle window for each rank. */
  method NewWindows(ranks: nat) returns (ws: seq<A.ActivationWindow>, ghost cells: set<object>)
    ensures |ws| == ranks && fresh(cells)
    ensures forall k :: 0 <= k < ranks ==>
              ws[k] in cells && ws[k].buf in cells && ws[k].Valid() && ws[k].Window() == T.IDLE_WINDOW
    ensures forall j, k :: 0 <= j < k < ranks ==> ws[j] != ws[k] && ws[j].buf != ws[k].buf
  {
    ws, cells := [], {};
    while |ws| < ranks
      invariant |ws| <= ranks && fresh(cells)
      invariant forall k :: 0 <= k < |ws| ==>
                  ws[k] in cells && ws[k].buf in cells && ws[k].Valid() && ws[k].Window() == T.IDLE_WINDOW
      invariant forall j, k :: 0 <= j < k < |ws| ==> ws[j] != ws[k] && ws[j].buf != ws[k].buf
    {
      var w := new A.ActivationWindow(4);
      ws := ws + [w];
      cells := cells + {w, w.buf};
    }
  }

  class DdrMemory {
    const c: Config
    const banks: array<T.Bank>
    const rankActWindows: seq<A.ActivationWindow>
    var minRespCycle: nat
    var lastCmdWasWrite: bool
    var rd: Side
    var wr: Side
    var overflow: seq<Request>
    var nextId: nat
    var events: seq<Event>
    var free: seq<nat>
    var live: Live
    var nextSchedCycle: Cycle
    var bad: bool
    ghost const cells: set<object>
    ghost var windows: seq<seq<nat>>
    ghost var log: T.Log
    ghost var done: seq<Service>
    ghost var accepted: multiset<Request>

    ghost function Dram(): (d: T.Dram)
      reads `windows, `minRespCycle, `lastCmdWasWrite, banks
      ensures d.banks == banks[..] && d.windows == windows
      ensures d.minRespCycle == minRespCycle && d.lastCmdWasWrite == lastCmdWasWrite
    {
      T.Dram(banks[..], windows, minRespCycle, lastCmdWasWrite)
    }

    ghost function Abs(): State
      reads this, banks
    {
      State(Dram(), rd, wr, overflow, nextId, events, free, live, nextSchedCycle, bad, log, done, accepted)
    }

    /** The window of each rank is an object of its own, with the contents in windows. */
    ghost predicate WindowsOk()
      reads `windows, cells
    {
      && this !in cells && banks !in cells && |rankActWindows| == |windows|
      && (forall k :: 0 <= k < |windows| ==> WindowOk(rankActWindows[k], windows[k]))
      && forall j, k :: 0 <= j < k < |windows| ==>
           rankActWindows[j] != rankActWindows[k] && rankActWindows[j].buf != rankActWindows[k].buf
    }

    ghost predicate WindowOk(w: A.ActivationWindow, contents: seq<nat>)
      reads cells
    {
      w in cells && w.buf in cells && w.Valid() && w.Window() == contents
    }

    ghost predicate Valid()
      reads this, banks, cells
    {
      Indexed(c, Abs()) && WindowsOk()
    }

    // ---------------------------------------------------------- construction

    constructor (c: Config, ranks: nat, banksPerRank: nat)
      requires ValidConfig(c) && ranks >= 1 && banksPerRank >= 1
      ensures Valid() && P.Initial(c, Abs()) && this.c == c
      ensures banks.Length == ranks * banksPerRank && |windows| == ranks
      ensures forall r, b :: 0 <= r < ranks && 0 <= b < banksPerRank ==>
                Slot(r, b, banksPerRank) < banks.Length && banks[Slot(r, b, banksPerRank)].rank == r
      ensures fresh(banks) && fresh(cells)
    {
      hide Indexed;
      this.c := c;
      var ws, objs := NewWindows(ranks);
      this.cells := objs;
      this.rankActWindows := ws;
      this.windows := seq(ranks, _ => T.IDLE_WINDOW);
      var bs := new T.Bank[ranks * banksPerRank](
        i => T.Bank(RankOf(i, banksPerRank), false, 0, 0, 0, 0, 0));
      this.banks := bs;
      this.minRespCycle := c.timing.tCL + c.timing.tBL + 1;
      this.rd := Side([], seq(ranks * banksPerRank, _ => []));
      this.wr := Side([], seq(ranks * banksPerRank, _ => []));
      this.overflow, this.nextId, this.events, this.free := [], 0, [], [];
      this.live, this.nextSchedCycle, this.bad := NoEvent, Never, false;
      this.log, this.done, this.accepted := [], [], multiset{};
      new;
      Slots(ranks, banksPerRank);
      P.InitialIndexed(c, Abs());
    }

    // --------------------------------------------------------------- refresh

    method MinRefreshCycle(cycle: nat) returns (start: nat)
      ensures start == T.RefreshStart(banks[..], cycle)
    {
      start := cycle;
      var b := 0;
      while b < banks.Length
        invariant b <= banks.Length && start == T.RefreshStart(banks[..b], cycle)
      {
        assert banks[..b + 1][..b] == banks[..b];
        start := T.Max(start, T.Max(banks[b].minPreCycle, banks[b].lastCmdCycle));
        b := b + 1;
      }
      assert banks[..b] == banks[..];
    }

    method CloseAll(minPre: nat)
      modifies banks
      ensures banks[..] == seq(banks.Length, b requires 0 <= b < banks.Length => T.Closed(old(banks[..])[b], minPre))
    {
      var b := 0;
      while b < banks.Length
        invariant b <= banks.Length
        invariant forall k :: 0 <= k < b ==> banks[k] == T.Closed(old(banks[..])[k], minPre)
        invariant forall k :: b <= k < banks.Length ==> banks[k] == old(banks[..])[k]
      {
        banks[b] := banks[b].(minPreCycle := minPre, open := false);
        b := b + 1;
      }
    }

    method Refresh(now: nat)
      requires Valid()
      modifies banks, `log
      ensures Abs() == RefreshAll(c, old(Abs()), now)
    {
      hide T.RefreshStart, SysToMem, Shaped;
      var start := MinRefreshCycle(SysToMem(c.clock, now));
      CloseAll(start + c.timing.tRFC - c.timing.tRP);
      log := log + [T.Ref(start, start + c.timing.tRFC)];
    }

    // ---------------------------------------------------------------- issuing

    method MinActCycle(rank: nat) returns (minAct: nat)
      requires WindowsOk() && rank < |windows| && |windows[rank]| == 4
      ensures minAct == windows[rank][0]
    {
      assert WindowOk(rankActWindows[rank], windows[rank]);
      minAct := rankActWindows[rank].MinActCycle();
    }

    method AddActivation(rank: nat, act: nat)
      requires WindowsOk() && rank < |windows| && |windows[rank]| == 4 && windows[rank][0] <= act
      modifies `windows, cells
      ensures WindowsOk() && windows == old(windows)[rank := A.Added(old(windows)[rank], act)]
    {
      hide A.Added;
      assert WindowOk(rankActWindows[rank], windows[rank]);
      rankActWindows[rank].AddActivation(act);
      windows := windows[rank := A.Added(windows[rank], act)];
    }

    /** Precharge, if need be, and activate the row of a request that is not a row hit. */
    method OpenRow(r: T.Access) returns (act: nat)
      requires T.WellFormed(Dram()) && WindowsOk() && r.bank < banks.Length && !T.RowHit(Dram(), r)
      modifies banks, `windows, cells
      ensures WindowsOk() && act == T.ActCycle(c.timing, old(Dram()), r)
      ensures windows == old(windows)[old(banks[r.bank]).rank := A.Added(old(windows)[old(banks[r.bank]).rank], act)]
      ensures banks[..] == old(banks[..])[r.bank := RowOpened(c.timing, old(Dram()), r)]
    {
      hide A.Added;
      var t, b, bank := c.timing, r.bank, banks[r.bank];
      var pre := if !bank.open then bank.minPreCycle else T.Max(r.arrivalCycle, bank.minPreCycle);
      act := T.Max(r.arrivalCycle, T.Max(pre + t.tRP, bank.lastActCycle + t.tRRD));
      var minAct := MinActCycle(bank.rank);
      act := T.Max(act, minAct + t.tFAW);
      banks[b] := bank.(open := true, openRow := r.row, lastActCycle := act,
                        minPreCycle := if bank.open then pre + t.tRAS else bank.minPreCycle);
      AddActivation(bank.rank, act);
    }

    /** The column access: the bus is taken and the bank may be closed. */
    method AccessColumn(r: T.Access, cmd: nat)
      requires r.bank < banks.Length
      modifies banks, `minRespCycle, `lastCmdWasWrite
      ensures minRespCycle == cmd + c.timing.tCL + c.timing.tBL && lastCmdWasWrite == r.write
      ensures banks[..] == old(banks[..])[r.bank := Accessed(c.timing, c.closedPage, old(banks[r.bank]), r, cmd)]
    {
      var t, b := c.timing, r.bank;
      minRespCycle := cmd + t.tCL + t.tBL;
      lastCmdWasWrite := r.write;
      var bank := banks[b];
      if c.closedPage && !r.hitFollows {
        bank := bank.(open := false);
      }
      bank := bank.(minPreCycle := T.Max(bank.minPreCycle,
                                         T.Max(bank.lastActCycle + t.tRAS,
                                               if r.write then minRespCycle + t.tWR else cmd + t.tRTP)));
      banks[b] := bank.(lastCmdCycle := cmd, curRowHits := r.rowHitSeq);
    }

    /** The bank and bus updates of trySchedule. */
    method IssueRequest(r: T.Access, cycle: nat)
      requires T.WellFormed(Dram()) && WindowsOk() && r.bank < banks.Length && minRespCycle >= c.timing.tCL
      modifies banks, `windows, cells, `minRespCycle, `lastCmdWasWrite
      ensures WindowsOk() && Dram() == T.Issue(c.timing, c.closedPage, old(Dram()), r, cycle)
    {
      hide A.Added, T.ActCycle, T.PreCycle, T.WellFormed, T.Issue, RowOpened, Accessed;
      var t, b := c.timing, r.bank;
      var minCmd := T.Max(cycle, minRespCycle - t.tCL);
      if lastCmdWasWrite && !r.write {
        minCmd := T.Max(minCmd, minRespCycle + t.tWTR);
      }
      if !(r.row == banks[b].openRow && banks[b].open) {
        var act := OpenRow(r);
        minCmd := T.Max(minCmd, act + t.tRCD);
      }
      var cmd := T.Max(minCmd, minRespCycle - t.tCL);
      AccessColumn(r, cmd);
      IssuedState(t, c.closedPage, old(Dram()), r, cycle, Dram());
    }

    /** The search for the first ready request. */
    method FindReady(writes: bool, cycle: nat) returns (f: Found)
      requires Valid()
      ensures f == Search(c.timing, Dram(), if writes then wr else rd, cycle, 0, Never)
    {
      var side := if writes then wr else rd;
      var min: Cycle := Never;
      var i := 0;
      while i < |side.queue|
        invariant i <= |side.queue|
        invariant Search(c.timing, Dram(), side, cycle, 0, Never) == Search(c.timing, Dram(), side, cycle, i, min)
      {
        if IsHead(side, side.queue[i]) {
          var m := EarliestCmd(AccessOf(side, side.queue[i]));
          if m <= cycle {
            return Found(i);
          }
          min := if Earlier(At(m), min) then At(m) else min;
        }
        i := i + 1;
      }
      f := NotReady(min);
    }

    /** findMinCmdCycle. */
    method EarliestCmd(r: T.Access) returns (m: nat)
      requires T.WellFormed(Dram()) && WindowsOk() && r.bank < banks.Length
      ensures m == T.FindMinCmdCycle(c.timing, Dram(), r)
    {
      var t, bank := c.timing, banks[r.bank];
      m := T.Max(r.arrivalCycle, bank.lastCmdCycle + 1);
      if !(r.row == bank.openRow && bank.open) {
        var pre := if !bank.open then bank.minPreCycle else T.Max(r.arrivalCycle, bank.minPreCycle);
        var act := T.Max(r.arrivalCycle, T.Max(pre + t.tRP, bank.lastActCycle + t.tRRD));
        var minAct := MinActCycle(bank.rank);
        act := T.Max(act, minAct + t.tFAW);
        m := act + t.tRCD;
      }
    }

    /** Take a request that is first in its bank off its queue and list. */
    method Dequeue(writes: bool, i: nat)
      requires var side := if writes then wr else rd;
               Shaped(side, |side.lists|) && i < |side.queue| && IsHead(side, side.queue[i])
      modifies `rd, `wr, `done
      ensures rd == if writes then old(rd) else Remove(old(rd), i)
      ensures wr == if writes then Remove(old(wr), i) else old(wr)
      ensures done == old(done) + [Service((if writes then old(wr) else old(rd)).queue[i], writes)]
    {
      var side := if writes then wr else rd;
      var b := side.queue[i].req.bank;
      done := done + [Service(side.queue[i], writes)];
      side := Side(side.queue[..i] + side.queue[i + 1..], side.lists[b := side.lists[b][1..]]);
      if writes {
        wr := side;
      } else {
        rd := side;
      }
    }

    method Serve(writes: bool, i: nat, cycle: nat)
      requires Valid()
      requires var side := if writes then wr else rd; i < |side.queue| && IsHead(side, side.queue[i])
      modifies banks, `windows, cells, `minRespCycle, `lastCmdWasWrite, `rd, `wr, `log, `done
      ensures WindowsOk() && Abs() == ServeAt(c, old(Abs()), writes, i, cycle)
    {
      hide T.Issue, T.Commands, T.WellFormed, AccessOf, IsHead, Remove, Shaped, Indexed, ServeAt;
      ghost var s := Abs();
      IndexedFacts(c, s);
      var side := if writes then wr else rd;
      var a := AccessOf(side, side.queue[i]);
      IssueRequest(a, cycle);
      log := log + T.Commands(c.timing, c.closedPage, s.dram, a, cycle);
      Dequeue(writes, i);
      ServedState(c, s, writes, i, cycle, a, Abs());
    }

    method DoTrySchedule(cycle: nat) returns (min: Cycle)
      requires Valid()
      modifies banks, `windows, cells, `minRespCycle, `lastCmdWasWrite, `rd, `wr, `log, `done
      ensures WindowsOk() && (min, Abs()) == TrySchedule(c, old(Abs()), cycle)
    {
      hide Search, ServeAt, Shaped, T.WellFormed;
      if rd.queue == [] && wr.queue == [] {
        return Never;
      }
      if cycle + c.timing.tCL < minRespCycle {
        return At(minRespCycle - c.timing.tCL);
      }
      var prioWrites := |wr.queue| > 3 * c.queueDepth / 4 || (lastCmdWasWrite && |wr.queue| > c.queueDepth / 4);
      var writes := rd.queue == [] || prioWrites;
      assert (if writes then wr else rd).queue != [];
      var f := FindReady(writes, cycle);
      match f {
        case NotReady(m) =>
          min := m;
        case Found(i) =>
          SearchFound(c.timing, Dram(), if writes then wr else rd, cycle, 0, Never);
          Serve(writes, i, cycle);
          min := if rd.queue == [] && wr.queue == [] then Never else At(minRespCycle - c.timing.tCL);
      }
    }

    // ----------------------------------------------------- entering and scheduling

    /** Put an entry at the end of the queue and in the list of its bank. */
    method Allocate(side: Side, entry: Entry) returns (r: Side)
      requires Shaped(side, banks.Length) && entry.req.bank < banks.Length
      ensures r == Add(side, Dram(), entry, c.rowHitLimit)
    {
      hide Q.Queued;
      var b := entry.req.bank;
      var bank := banks[b];
      var list := Q.Queue(side.lists[b], Q.RowBuffer(bank.open, bank.openRow, bank.curRowHits),
                          entry.id, entry.req.row, c.rowHitLimit);
      r := Side(side.queue + [entry], side.lists[b := list]);
    }

    method DoEnter(r: Request, cycle: nat)
      requires Valid() && r.bank < banks.Length
      modifies `rd, `wr, `nextId, `bad
      ensures Abs() == Enter(c, old(Abs()), r, cycle)
    {
      hide Add, Indexed, WindowsOk, Enter, Dram;
      IndexedFacts(c, Abs());
      ghost var s := Abs();
      var entry := Entry(r, nextId, cycle);
      if c.deferredWrites && r.write {
        bad := bad || |wr.queue| >= c.queueDepth;
        wr := Allocate(wr, entry);
      } else {
        bad := bad || |rd.queue| >= c.queueDepth;
        rd := Allocate(rd, entry);
      }
      nextId := nextId + 1;
      EnteredState(c, s, r, cycle, Abs());
    }

    /** When a request that has just entered wants a tick. */
    method FirstCycle(r: Request, cycle: nat) returns (min: Cycle)
      requires Valid() && nextId > 0 && r.bank < banks.Length
      ensures min == ArrivalCycle(c, Abs(), r, cycle)
    {
      hide T.WellFormed, T.FindMinCmdCycle;
      var entry := Entry(r, nextId - 1, cycle);
      var side := if c.deferredWrites && r.write then wr else rd;
      min := Never;
      if IsHead(side, entry) {
        var bus := T.Max(cycle, minRespCycle - c.timing.tCL - c.timing.tBL);
        if Earlier(At(bus), nextSchedCycle) {
          var m := EarliestCmd(AccessOf(side, entry));
          bus := T.Max(bus, m);
        }
        min := At(bus);
      }
    }

    method Lower(r: Request, cycle: nat, min0: Cycle) returns (min: Cycle)
      requires Valid() && nextId > 0 && r.bank < banks.Length
      ensures min == LoweredCycle(c, Abs(), r, cycle, min0)
    {
      hide T.WellFormed, T.FindMinCmdCycle;
      var entry := Entry(r, nextId - 1, cycle);
      var side := if c.deferredWrites && r.write then wr else rd;
      min := min0;
      if IsHead(side, entry) {
        var bus := T.Max(cycle, minRespCycle - c.timing.tCL - c.timing.tBL);
        if Earlier(At(bus), min) {
          var m := EarliestCmd(AccessOf(side, entry));
          min := At(T.Max(bus, m));
        }
        if Earlier(At(bus), min) {
          min := At(bus);
        }
      }
    }

    method DoRefill(min0: Cycle, cycle: nat) returns (min: Cycle)
      requires Valid()
      modifies `overflow, `rd, `wr, `nextId, `bad
      ensures (min, Abs()) == Refill(c, old(Abs()), min0, cycle)
    {
      hide Enter, T.WellFormed, Shaped, LoweredCycle;
      min := min0;
      if |rd.queue| < c.queueDepth && |wr.queue| < c.queueDepth && overflow != [] {
        var r := overflow[0];
        overflow := overflow[1..];
        DoEnter(r, cycle);
        min := Lower(r, cycle, min0);
      }
    }

    /** tick. */
    method DoTick(now: nat) returns (at: nat)
      requires Valid()
      modifies banks, `windows, cells, `minRespCycle, `lastCmdWasWrite, `rd, `wr, `overflow, `nextId, `live,
               `nextSchedCycle, `bad, `log, `done
      ensures WindowsOk() && (at, Abs()) == Tick(c, old(Abs()), now)
    {
      hide TrySchedule, Refill, SysToMem, MatchingMemToSys, T.WellFormed, Shaped;
      var cycle := SysToMem(c.clock, now);
      var due := nextSchedCycle == At(cycle);
      var min0 := DoTrySchedule(cycle);
      var min := DoRefill(min0, cycle);
      bad := bad || !due || Earlier(min0, At(cycle));
      nextSchedCycle := min;
      if min.Never? {
        live := NoEvent;
        at := 0;
      } else {
        at := T.Max(if min.cycle >= 1 then MatchingMemToSys(c.clock, min.cycle) else 0, now);
      }
    }

    method DoRecycle(i: nat)
      requires i < |events|
      modifies `events, `free, `bad
      ensures Abs() == Recycle(old(Abs()), i)
    {
      bad := bad || live == Live(i) || i in free;
      events := events[i := events[i].(state := Idle)];
      free := [i] + free;
    }

    /** SchedEvent::simulate. */
    method Simulate(i: nat)
      requires Valid() && i < |events|
      modifies this, banks, cells
      ensures WindowsOk() && Abs() == Fire(c, old(Abs()), i)
    {
      hide Tick, T.WellFormed, Shaped;
      if events[i].state == Queued {
        var at := DoTick(events[i].sysCycle);
        if at != 0 {
          events := events[i := Event(Queued, at)];
        } else {
          DoRecycle(i);
        }
      } else {
        bad := bad || events[i].state != Annulled;
        DoRecycle(i);
      }
    }

    /** Annul the live event, if there is one. */
    method Annul() returns (ok: bool)
      requires live.Live? ==> live.index < |events|
      modifies `events
      ensures events == WithoutLive(old(Abs()))
      ensures ok == (live.Live? ==> old(events)[live.index].state == Queued)
    {
      ok := true;
      if live.Live? {
        ok := events[live.index].state == Queued;
        events := events[live.index := events[live.index].(state := Annulled)];
      }
    }

    /** An event from the free list, or else a new one. */
    method TakeEvent() returns (i: nat)
      modifies `events, `free
      ensures old(free) != [] ==> i == old(free)[0] && free == old(free)[1..] && events == old(events)
      ensures old(free) == [] ==> i == |old(events)| && free == [] && events == old(events) + [Event(Idle, 0)]
    {
      if free != [] {
        i := free[0];
        free := free[1..];
      } else {
        i := |events|;
        events := events + [Event(Idle, 0)];
      }
    }

    method DoReschedule(cycle: nat, now: nat)
      requires Valid() && cycle >= 1
      modifies `events, `free, `live, `nextSchedCycle, `bad
      ensures Abs() == Reschedule(c, old(Abs()), cycle, now)
    {
      hide Indexed, Reschedule, MatchingMemToSys, WindowsOk, Dram;
      IndexedEvents(c, Abs());
      ghost var s := Abs();
      var ok := Annul();
      var i := TakeEvent();
      var at := T.Max(MatchingMemToSys(c.clock, cycle), now);
      bad, live, nextSchedCycle := bad || !ok || events[i].state != Idle, Live(i), At(cycle);
      events := events[i := Event(Queued, at)];
      RescheduledState(c, s, cycle, now, ok, i, Abs());
    }

    /** enqueue. */
    method DoEnqueue(r: Request, now: nat)
      requires Valid() && r.bank < banks.Length
      modifies `accepted, `overflow, `rd, `wr, `nextId, `events, `free, `live, `nextSchedCycle, `bad
      ensures Abs() == Enqueue(c, old(Abs()), r, now)
    {
      hide Enter, Reschedule, SysToMem, T.WellFormed, Shaped, ArrivalCycle;
      var cycle := SysToMem(c.clock, now);
      accepted := accepted + multiset{r};
      if |rd.queue| >= c.queueDepth || |wr.queue| >= c.queueDepth {
        overflow := overflow + [r];
      } else {
        DoEnter(r, cycle);
        var min := FirstCycle(r, cycle);
        if Earlier(min, nextSchedCycle) {
          DoReschedule(min.cycle, now);
        }
      }
    }
  }
}

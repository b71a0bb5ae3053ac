/** The event-driven DDR controller: request queues, per-bank lists, the overflow queue, and
    the scheduling event that wakes the controller up.

    A step of a run is the arrival of a request, the firing of any queued event, or a
    refresh.  Events may fire in any order.  The commands sent, the requests served and the
    requests accepted so far are recorded in log, done and accepted. */
module DdrController {
  import opened DdrClock
  import T = DdrTiming
  import Q = FrFcfs

  datatype Config = Config(clock: Clock, timing: T.Timing, queueDepth: nat, rowHitLimit: nat,
                           deferredWrites: bool, closedPage: bool)

  predicate ValidConfig(c: Config) {
    ValidClock(c.clock) && T.ValidTiming(c.timing) && c.queueDepth >= 1
  }

  datatype Request = Request(tag: nat, bank: nat, row: nat, write: bool)

  /** A queued request; id numbers requests in the order of queueing. */
  datatype Entry = Entry(req: Request, id: nat, arrivalCycle: nat)

  /** The reads or the writes: in arrival order, and per bank in service order. */
  datatype Side = Side(queue: seq<Entry>, lists: seq<seq<Q.Request>>)

  /** A memory cycle; Never is the source's largest 64-bit value. */
  datatype Cycle = At(cycle: nat) | Never

  predicate Earlier(a: Cycle, b: Cycle) {
    a.At? && (b.Never? || a.cycle < b.cycle)
  }

  datatype EventState = Idle | Queued | Annulled
  datatype Event = Event(state: EventState, sysCycle: nat)

  /** A request that has been served, from the writes or from the reads. */
  datatype Service = Service(entry: Entry, writes: bool)

  /** The event that will call tick, if any. */
  datatype Live = NoEvent | Live(index: nat)

  datatype State = State(dram: T.Dram, rd: Side, wr: Side, overflow: seq<Request>, nextId: nat,
                         events: seq<Event>, free: seq<nat>, live: Live, nextSchedCycle: Cycle, bad: bool,
                         log: T.Log, done: seq<Service>, accepted: multiset<Request>)

  // ---------------------------------------------------------------- one side

  predicate Shaped(s: Side, banks: nat) {
    |s.lists| == banks && forall i :: 0 <= i < |s.queue| ==> s.queue[i].req.bank < banks
  }

  function Buffer(d: T.Dram, bank: nat): Q.RowBuffer
    requires bank < |d.banks|
  {
    Q.RowBuffer(d.banks[bank].open, d.banks[bank].openRow, d.banks[bank].curRowHits)
  }

  /** Allocate a queue entry and put it in the list of its bank. */
  function Add(s: Side, d: T.Dram, e: Entry, limit: nat): (r: Side)
    requires Shaped(s, |d.banks|) && e.req.bank < |d.banks|
    ensures Shaped(r, |d.banks|)
  {
    var b := e.req.bank;
    Side(s.queue + [e], s.lists[b := Q.Queued(s.lists[b], Buffer(d, b), e.id, e.req.row, limit)])
  }

  /** First in its bank. */
  predicate IsHead(s: Side, e: Entry)
    requires e.req.bank < |s.lists|
  {
    var l := s.lists[e.req.bank];
    l != [] && l[0].arrival == e.id
  }

  function AccessOf(s: Side, e: Entry): (a: T.Access)
    requires e.req.bank < |s.lists| && IsHead(s, e)
    ensures a.bank == e.req.bank
  {
    var l := s.lists[e.req.bank];
    T.Access(e.req.bank, e.req.row, e.req.write, e.arrivalCycle, l[0].rowHitSeq,
             |l| > 1 && l[1].rowHitSeq != 0)
  }

  function MinCmdCycle(t: T.Timing, d: T.Dram, s: Side, e: Entry): nat
    requires T.WellFormed(d) && |s.lists| == |d.banks| && e.req.bank < |s.lists| && IsHead(s, e)
  {
    T.FindMinCmdCycle(t, d, AccessOf(s, e))
  }

  /** Dequeue a request that is first in its bank. */
  function Remove(s: Side, i: nat): (r: Side)
    requires i < |s.queue| && Shaped(s, |s.lists|) && IsHead(s, s.queue[i])
    ensures Shaped(r, |s.lists|)
  {
    var b := s.queue[i].req.bank;
    Side(s.queue[..i] + s.queue[i + 1..], s.lists[b := s.lists[b][1..]])
  }

  datatype Found = Found(index: nat) | NotReady(min: Cycle)

  /** The scheduler's search, from the i-th entry on: the first request that is first in its
      bank and ready, or else the first cycle at which one will be. */
  function Search(t: T.Timing, d: T.Dram, s: Side, cur: nat, i: nat, min: Cycle): (f: Found)
    requires T.WellFormed(d) && Shaped(s, |d.banks|) && i <= |s.queue|
    decreases |s.queue| - i
  {
    if i == |s.queue| then NotReady(min)
    else if IsHead(s, s.queue[i]) then
      var m := MinCmdCycle(t, d, s, s.queue[i]);
      if m <= cur then Found(i)
      else Search(t, d, s, cur, i + 1, if Earlier(At(m), min) then At(m) else min)
    else Search(t, d, s, cur, i + 1, min)
  }

  // ------------------------------------------------------------ the controller

  /** Everything is within bounds, so that every operation is defined. */
  predicate Indexed(c: Config, s: State) {
    && ValidConfig(c) && T.WellFormed(s.dram) && s.dram.minRespCycle >= c.timing.tCL + c.timing.tBL
    && Shaped(s.rd, |s.dram.banks|) && Shaped(s.wr, |s.dram.banks|)
    && (forall i :: 0 <= i < |s.overflow| ==> s.overflow[i].bank < |s.dram.banks|)
    && (s.live.Live? ==> s.live.index < |s.events|)
    && (forall i :: 0 <= i < |s.free| ==> s.free[i] < |s.events|)
  }

  predicate InWrites(c: Config, r: Request) { c.deferredWrites && r.write }

  predicate Full(c: Config, s: State) {
    |s.rd.queue| >= c.queueDepth || |s.wr.queue| >= c.queueDepth
  }

  predicate Idling(s: State) { s.rd.queue == [] && s.wr.queue == [] }

  function SideOf(c: Config, s: State, r: Request): Side {
    if InWrites(c, r) then s.wr else s.rd
  }

  /** alloc and DDRMemory::queue. */
  function Enter(c: Config, s: State, r: Request, cycle: nat): (e: State)
    requires Indexed(c, s) && r.bank < |s.dram.banks|
    ensures Indexed(c, e)
    ensures e.events == s.events && e.free == s.free && e.live == s.live && e.nextId == s.nextId + 1
  {
    var entry := Entry(r, s.nextId, cycle);
    var side := Add(SideOf(c, s, r), s.dram, entry, c.rowHitLimit);
    var u := s.(nextId := s.nextId + 1, bad := s.bad || |SideOf(c, s, r).queue| >= c.queueDepth);
    if InWrites(c, r) then u.(wr := side) else u.(rd := side)
  }

  function Newest(c: Config, s: State, r: Request, cycle: nat): Entry
    requires s.nextId > 0
  {
    Entry(r, s.nextId - 1, cycle)
  }

  /** The earliest cycle at which the bus could be used. */
  function BusCycle(c: Config, s: State, cycle: nat): nat
    requires s.dram.minRespCycle >= c.timing.tCL + c.timing.tBL
  {
    T.Max(cycle, s.dram.minRespCycle - c.timing.tCL - c.timing.tBL)
  }

  /** Annul the live event and queue a new one. */
  function Reschedule(c: Config, s: State, cycle: nat, now: nat): (e: State)
    requires Indexed(c, s) && cycle >= 1
    ensures Indexed(c, e)
  {
    var events0 := if s.live.Live? then s.events[s.live.index := s.events[s.live.index].(state := Annulled)]
                   else s.events;
    var bad0 := s.live.Live? && s.events[s.live.index].state != Queued;
    var i, free, events1 := if s.free != [] then s.free[0] else |events0|,
                            if s.free != [] then s.free[1..] else [],
                            if s.free != [] then events0 else events0 + [Event(Idle, 0)];
    var at := T.Max(MatchingMemToSys(c.clock, cycle), now);
    s.(events := events1[i := Event(Queued, at)], free := free, live := Live(i), nextSchedCycle := At(cycle),
       bad := s.bad || bad0 || events1[i].state != Idle)
  }

  /** The cycle in which a request that has just entered wants a tick: never, if it is not
      first in its bank. */
  function ArrivalCycle(c: Config, s: State, r: Request, cycle: nat): (min: Cycle)
    requires Indexed(c, s) && s.nextId > 0 && r.bank < |s.dram.banks|
    ensures min.At? ==> min.cycle >= cycle
  {
    var entry, side := Newest(c, s, r, cycle), SideOf(c, s, r);
    if !IsHead(side, entry) then Never
    else
      var bus := BusCycle(c, s, cycle);
      if Earlier(At(bus), s.nextSchedCycle) then At(T.Max(bus, MinCmdCycle(c.timing, s.dram, side, entry))) else At(bus)
  }

  /** The same for a request that comes from the overflow queue during a tick. */
  function LoweredCycle(c: Config, s: State, r: Request, cycle: nat, min: Cycle): (m: Cycle)
    requires Indexed(c, s) && s.nextId > 0 && r.bank < |s.dram.banks|
    ensures Earlier(m, At(cycle)) ==> Earlier(min, At(cycle))
    ensures m.Never? ==> min.Never?
  {
    var entry, side := Newest(c, s, r, cycle), SideOf(c, s, r);
    if !IsHead(side, entry) then min
    else
      var bus := BusCycle(c, s, cycle);
      var min1 := if Earlier(At(bus), min) then At(T.Max(bus, MinCmdCycle(c.timing, s.dram, side, entry))) else min;
      if Earlier(At(bus), min1) then At(bus) else min1
  }

  /** DDRMemory::enqueue. */
  function Enqueue(c: Config, s: State, r: Request, now: nat): (e: State)
    requires Indexed(c, s) && r.bank < |s.dram.banks|
    ensures Indexed(c, e)
  {
    var cycle := SysToMem(c.clock, now);
    var a := s.(accepted := s.accepted + multiset{r});
    if Full(c, s) then a.(overflow := s.overflow + [r])
    else
      var u := Enter(c, a, r, cycle);
      var min := ArrivalCycle(c, u, r, cycle);
      if Earlier(min, u.nextSchedCycle) then Reschedule(c, u, min.cycle, now) else u
  }

  /** Writes go first if reads are absent or the write queue is getting full. */
  predicate PickWrites(c: Config, s: State) {
    || s.rd.queue == []
    || |s.wr.queue| > 3 * c.queueDepth / 4
    || (s.dram.lastCmdWasWrite && |s.wr.queue| > c.queueDepth / 4)
  }

  /** Issue the i-th request of the side and dequeue it. */
  function ServeAt(c: Config, s: State, writes: bool, i: nat, cycle: nat): (e: State)
    requires Indexed(c, s)
    requires var side := if writes then s.wr else s.rd; i < |side.queue| && IsHead(side, side.queue[i])
    ensures Indexed(c, e)
    ensures e.events == s.events && e.free == s.free && e.live == s.live
  {
    var side := if writes then s.wr else s.rd;
    var a := AccessOf(side, side.queue[i]);
    var d := T.Issue(c.timing, c.closedPage, s.dram, a, cycle);
    var u := s.(dram := d, log := s.log + T.Commands(c.timing, c.closedPage, s.dram, a, cycle),
                done := s.done + [Service(side.queue[i], writes)]);
    if writes then u.(wr := Remove(side, i)) else u.(rd := Remove(side, i))
  }

  /** DDRMemory::trySchedule. */
  function TrySchedule(c: Config, s: State, cycle: nat): (r: (Cycle, State))
    requires Indexed(c, s)
    ensures Indexed(c, r.1)
    ensures r.1.events == s.events && r.1.free == s.free && r.1.live == s.live
  {
    var free := s.dram.minRespCycle - c.timing.tCL;
    if Idling(s) then (Never, s)
    else if cycle < free then (At(free), s)
    else
      var writes := PickWrites(c, s);
      var side := if writes then s.wr else s.rd;
      match Search(c.timing, s.dram, side, cycle, 0, Never)
      case NotReady(min) => (min, s)
      case Found(i) =>
        SearchFound(c.timing, s.dram, side, cycle, 0, Never);
        var e := ServeAt(c, s, writes, i, cycle);
        (if Idling(e) then Never else At(e.dram.minRespCycle - c.timing.tCL), e)
  }

  /** Move one request out of the overflow queue if there is room; the cycle for the next
      tick may come down. */
  function Refill(c: Config, s: State, min: Cycle, cycle: nat): (r: (Cycle, State))
    requires Indexed(c, s)
    ensures Indexed(c, r.1)
    ensures r.1.events == s.events && r.1.free == s.free && r.1.live == s.live
  {
    if Full(c, s) || s.overflow == [] then (min, s)
    else
      var r := s.overflow[0];
      var u := Enter(c, s.(overflow := s.overflow[1..]), r, cycle);
      (LoweredCycle(c, u, r, cycle, min), u)
  }

  /** DDRMemory::tick; 0 stands for no further event. */
  function Tick(c: Config, s: State, now: nat): (r: (nat, State))
    requires Indexed(c, s)
    ensures Indexed(c, r.1)
    ensures r.1.events == s.events && r.1.free == s.free
  {
    var cycle := SysToMem(c.clock, now);
    var (min0, u) := TrySchedule(c, s, cycle);
    var (min, v) := Refill(c, u, min0, cycle);
    var w := v.(nextSchedCycle := min,
                bad := v.bad || s.nextSchedCycle != At(cycle) || Earlier(min0, At(cycle)));
    if min.Never? then (0, w.(live := NoEvent))
    else (T.Max(if min.cycle >= 1 then MatchingMemToSys(c.clock, min.cycle) else 0, now), w)
  }

  function Recycle(s: State, i: nat): (e: State)
    requires i < |s.events|
  {
    s.(events := s.events[i := s.events[i].(state := Idle)], free := [i] + s.free,
       bad := s.bad || s.live == Live(i) || i in s.free)
  }

  /** SchedEvent::simulate. */
  function Fire(c: Config, s: State, i: nat): (e: State)
    requires Indexed(c, s) && i < |s.events|
  {
    if s.events[i].state == Queued then
      var (at, u) := Tick(c, s, s.events[i].sysCycle);
      if at != 0 then u.(events := u.events[i := Event(Queued, at)]) else Recycle(u, i)
    else Recycle(s, i).(bad := s.bad || s.live == Live(i) || i in s.free || s.events[i].state != Annulled)
  }

  /** DDRMemory::refresh. */
  function RefreshAll(c: Config, s: State, now: nat): (e: State)
    requires Indexed(c, s)
    ensures Indexed(c, e)
  {
    var cycle := SysToMem(c.clock, now);
    var start := T.RefreshStart(s.dram.banks, cycle);
    s.(dram := T.Refresh(c.timing, s.dram, cycle), log := s.log + [T.Ref(start, start + c.timing.tRFC)])
  }

  // ------------------------------------------------------------------ the search

  /** A request that the search returns is first in its bank and ready, and no request before
      it in arrival order is. */
  lemma {:induction false} SearchFound(t: T.Timing, d: T.Dram, s: Side, cur: nat, i: nat, min: Cycle)
    requires T.WellFormed(d) && Shaped(s, |d.banks|) && i <= |s.queue|
    requires Search(t, d, s, cur, i, min).Found?
    ensures var k := Search(t, d, s, cur, i, min).index;
            && i <= k < |s.queue| && IsHead(s, s.queue[k]) && MinCmdCycle(t, d, s, s.queue[k]) <= cur
            && forall j :: i <= j < k && IsHead(s, s.queue[j]) ==> MinCmdCycle(t, d, s, s.queue[j]) > cur
    decreases |s.queue| - i
  {
    hide T.WellFormed, T.FindMinCmdCycle;
    if IsHead(s, s.queue[i]) {
      var m := MinCmdCycle(t, d, s, s.queue[i]);
      if m > cur {
        SearchFound(t, d, s, cur, i + 1, if Earlier(At(m), min) then At(m) else min);
      }
    } else {
      SearchFound(t, d, s, cur, i + 1, min);
    }
  }
}

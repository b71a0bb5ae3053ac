/** What every operation of the DDR controller keeps. */
module DdrControllerProof {
  import opened DdrClock
  import opened DdrController
  import T = DdrTiming
  import Q = FrFcfs

  // ------------------------------------------------------- queues and bank lists

  ghost predicate InList(l: seq<Q.Request>, id: nat) {
    exists k :: 0 <= k < |l| && l[k].arrival == id
  }

  ghost predicate InQueue(q: seq<Entry>, bank: nat, id: nat) {
    exists i :: 0 <= i < |q| && q[i].req.bank == bank && q[i].id == id
  }

  predicate DistinctIds(q: seq<Entry>) {
    forall i, j :: 0 <= i < j < |q| ==> q[i].id != q[j].id
  }

  predicate DistinctArrivals(l: seq<Q.Request>) {
    forall i, j :: 0 <= i < j < |l| ==> l[i].arrival != l[j].arrival
  }

  /** The list of a bank: numbered below next, and in first-ready order. */
  predicate ListOk(l: seq<Q.Request>, next: nat, limit: nat) {
    && DistinctArrivals(l) && (forall k :: 0 <= k < |l| ==> l[k].arrival < next)
    && Q.Capped(l, limit) && Q.HitChains(l) && Q.RowFifo(l) && Q.Batched(l, limit)
  }

  /** The queue and the lists hold the same requests. */
  ghost predicate Linked(s: Side) {
    && (forall i :: 0 <= i < |s.queue| ==>
          s.queue[i].req.bank < |s.lists| && InList(s.lists[s.queue[i].req.bank], s.queue[i].id))
    && (forall b, k :: 0 <= b < |s.lists| && 0 <= k < |s.lists[b]| ==> InQueue(s.queue, b, s.lists[b][k].arrival))
  }

  ghost predicate SideOk(s: Side, banks: nat, next: nat, limit: nat, depth: nat) {
    && Shaped(s, banks) && |s.queue| <= depth && DistinctIds(s.queue) && Linked(s)
    && (forall i :: 0 <= i < |s.queue| ==> s.queue[i].id < next)
    && (forall b :: 0 <= b < |s.lists| ==> ListOk(s.lists[b], next, limit))
  }

  lemma QueuedListOk(l: seq<Q.Request>, b: Q.RowBuffer, next: nat, row: nat, limit: nat)
    requires ListOk(l, next, limit)
    ensures ListOk(Q.Queued(l, b, next, row, limit), next + 1, limit)
  {
    hide Q.Capped, Q.HitChains, Q.RowFifo, Q.Batched, DistinctArrivals, Q.Place, Q.InsertAt;
    Q.QueuedBatched(l, b, next, row, limit);
    Q.QueuedCapped(l, b, next, row, limit);
    Q.QueuedChains(l, b, next, row, limit);
    var p, q := Q.Place(l, b, row, limit), Q.Queued(l, b, next, row, limit);
    assert [] + l == l && [] + q == q;
    Q.QueuedFifo([], l, b, next, row, limit);
    InsertDistinct(l, p.0, Q.Request(next, row, p.1));
  }

  lemma InsertDistinct(l: seq<Q.Request>, p: nat, r: Q.Request)
    requires p <= |l| && DistinctArrivals(l) && forall k :: 0 <= k < |l| ==> l[k].arrival < r.arrival
    ensures DistinctArrivals(Q.InsertAt(l, p, r))
    ensures forall k :: 0 <= k <= |l| ==> Q.InsertAt(l, p, r)[k].arrival < r.arrival + 1
  {
    var s := Q.InsertAt(l, p, r);
    forall k | 0 <= k < |s| && k != p
      ensures s[k] == l[if k < p then k else k - 1]
    {
    }
  }

  lemma QueuedHolds(l: seq<Q.Request>, b: Q.RowBuffer, id: nat, row: nat, limit: nat, x: nat)
    ensures InList(Q.Queued(l, b, id, row, limit), x) <==> InList(l, x) || x == id
  {
    var p, s := Q.Place(l, b, row, limit).0, Q.Queued(l, b, id, row, limit);
    if InList(l, x) {
      var k :| 0 <= k < |l| && l[k].arrival == x;
      assert s[if k < p then k else k + 1].arrival == x;
    }
    if InList(s, x) && x != id {
      var k :| 0 <= k < |s| && s[k].arrival == x;
      assert l[if k < p then k else k - 1].arrival == x;
    }
    assert s[p].arrival == id;
  }

  lemma QueueHolds(q: seq<Entry>, e: Entry, bank: nat, id: nat)
    ensures InQueue(q + [e], bank, id) <==> InQueue(q, bank, id) || (bank == e.req.bank && id == e.id)
  {
    var s := q + [e];
    if InQueue(q, bank, id) {
      var i :| 0 <= i < |q| && q[i].req.bank == bank && q[i].id == id;
      assert s[i] == q[i];
    }
    assert s[|q|] == e;
  }

  /** Linked, list by list. */
  lemma LinkedIff(s: Side)
    requires Shaped(s, |s.lists|)
    ensures Linked(s) <==>
            forall b, id: nat :: 0 <= b < |s.lists| ==> (InList(s.lists[b], id) <==> InQueue(s.queue, b, id))
  {
    if forall b, id: nat :: 0 <= b < |s.lists| ==> (InList(s.lists[b], id) <==> InQueue(s.queue, b, id)) {
      forall i | 0 <= i < |s.queue|
        ensures InList(s.lists[s.queue[i].req.bank], s.queue[i].id)
      {
        assert InQueue(s.queue, s.queue[i].req.bank, s.queue[i].id);
      }
      forall b, k | 0 <= b < |s.lists| && 0 <= k < |s.lists[b]|
        ensures InQueue(s.queue, b, s.lists[b][k].arrival)
      {
        assert InList(s.lists[b], s.lists[b][k].arrival);
      }
    }
  }

  /** Adding a request keeps queue and lists linked. */
  lemma AddLinked(s: Side, d: T.Dram, e: Entry, limit: nat)
    requires Shaped(s, |d.banks|) && e.req.bank < |d.banks| && Linked(s)
    ensures Linked(Add(s, d, e, limit))
  {
    hide Linked, InList, InQueue, Q.Queued;
    var a, c := Add(s, d, e, limit), e.req.bank;
    LinkedIff(s);
    forall b, id: nat | 0 <= b < |a.lists|
      ensures InList(a.lists[b], id) <==> InQueue(a.queue, b, id)
    {
      QueueHolds(s.queue, e, b, id);
      QueuedHolds(s.lists[c], Buffer(d, c), e.id, e.req.row, limit, id);
    }
    LinkedIff(a);
  }

  lemma AddOk(s: Side, d: T.Dram, e: Entry, limit: nat, depth: nat)
    requires SideOk(s, |d.banks|, e.id, limit, depth) && |s.queue| < depth && e.req.bank < |d.banks|
    ensures SideOk(Add(s, d, e, limit), |d.banks|, e.id + 1, limit, depth)
  {
    hide Linked, ListOk, Q.Queued;
    AddLinked(s, d, e, limit);
    QueuedListOk(s.lists[e.req.bank], Buffer(d, e.req.bank), e.id, e.req.row, limit);
    forall b | 0 <= b < |s.lists|
      ensures ListOk(s.lists[b], e.id + 1, limit)
    {
      ListOkLater(s.lists[b], e.id, limit);
    }
  }

  lemma ListOkLater(l: seq<Q.Request>, next: nat, limit: nat)
    requires ListOk(l, next, limit)
    ensures ListOk(l, next + 1, limit)
  {
  }

  lemma SideOkLater(s: Side, banks: nat, next: nat, limit: nat, depth: nat)
    requires SideOk(s, banks, next, limit, depth)
    ensures SideOk(s, banks, next + 1, limit, depth)
  {
    hide ListOk, Linked;
    forall b | 0 <= b < |s.lists|
      ensures ListOk(s.lists[b], next + 1, limit)
    {
      ListOkLater(s.lists[b], next, limit);
    }
  }

  /** A bank list can only be empty together with the bank's share of the queue: a request
      entering an empty queue is first in its bank. */
  lemma AddHead(s: Side, d: T.Dram, e: Entry, limit: nat)
    requires Shaped(s, |d.banks|) && e.req.bank < |d.banks| && Linked(s) && s.queue == []
    ensures IsHead(Add(s, d, e, limit), e)
  {
    var b := e.req.bank;
    assert s.lists[b] != [] ==> InQueue(s.queue, b, s.lists[b][0].arrival);
  }

  lemma TailHolds(l: seq<Q.Request>, id: nat)
    requires l != [] && DistinctArrivals(l)
    ensures InList(l[1..], id) <==> InList(l, id) && id != l[0].arrival
  {
    var s := l[1..];
    if InList(s, id) {
      var k :| 0 <= k < |s| && s[k].arrival == id;
      assert l[k + 1].arrival == id;
    }
    if InList(l, id) && id != l[0].arrival {
      var k :| 0 <= k < |l| && l[k].arrival == id;
      assert s[k - 1].arrival == id;
    }
  }

  function Without(q: seq<Entry>, i: nat): (r: seq<Entry>)
    requires i < |q|
    ensures |r| == |q| - 1 && forall j :: 0 <= j < |r| ==> r[j] == q[if j < i then j else j + 1]
  {
    q[..i] + q[i + 1..]
  }

  lemma WithoutHolds(q: seq<Entry>, i: nat, bank: nat, id: nat)
    requires i < |q| && DistinctIds(q)
    ensures InQueue(Without(q, i), bank, id) <==> InQueue(q, bank, id) && id != q[i].id
  {
    var r := Without(q, i);
    if InQueue(r, bank, id) {
      var j :| 0 <= j < |r| && r[j].req.bank == bank && r[j].id == id;
      assert r[j] == q[if j < i then j else j + 1];
    }
    if InQueue(q, bank, id) && id != q[i].id {
      var j :| 0 <= j < |q| && q[j].req.bank == bank && q[j].id == id;
      assert r[if j < i then j else j - 1] == q[j];
    }
  }

  lemma RemoveLinked(s: Side, i: nat)
    requires Shaped(s, |s.lists|) && Linked(s) && DistinctIds(s.queue) && i < |s.queue| && IsHead(s, s.queue[i])
    requires forall b :: 0 <= b < |s.lists| ==> DistinctArrivals(s.lists[b])
    ensures Linked(Remove(s, i))
  {
    hide Linked, InList, InQueue, DistinctIds, DistinctArrivals;
    var r, c := Remove(s, i), s.queue[i].req.bank;
    LinkedIff(s);
    assert r.queue == Without(s.queue, i);
    InOneBank(s, i);
    forall b, id: nat | 0 <= b < |r.lists|
      ensures InList(r.lists[b], id) <==> InQueue(r.queue, b, id)
    {
      WithoutHolds(s.queue, i, b, id);
      TailHolds(s.lists[c], id);
    }
    LinkedIff(r);
  }

  /** A request is in the queue for its own bank only. */
  lemma InOneBank(s: Side, i: nat)
    requires DistinctIds(s.queue) && i < |s.queue|
    ensures forall b: nat :: InQueue(s.queue, b, s.queue[i].id) ==> b == s.queue[i].req.bank
  {
  }

  lemma RemoveOk(s: Side, i: nat, banks: nat, next: nat, limit: nat, depth: nat)
    requires SideOk(s, banks, next, limit, depth) && i < |s.queue| && IsHead(s, s.queue[i])
    ensures SideOk(Remove(s, i), banks, next, limit, depth)
  {
    hide Linked, ListOk, DistinctArrivals;
    var c := s.queue[i].req.bank;
    assert Remove(s, i).queue == Without(s.queue, i);
    forall b | 0 <= b < |s.lists|
      ensures DistinctArrivals(s.lists[b])
    {
      ListDistinct(s.lists[b], next, limit);
    }
    RemoveLinked(s, i);
    TailOk(s.lists[c], next, limit);
  }

  lemma ListDistinct(l: seq<Q.Request>, next: nat, limit: nat)
    requires ListOk(l, next, limit)
    ensures DistinctArrivals(l)
  {
  }

  lemma TailOk(l: seq<Q.Request>, next: nat, limit: nat)
    requires ListOk(l, next, limit) && l != []
    ensures ListOk(l[1..], next, limit)
  {
  }

  /** Some request of a non-empty queue is first in its bank. */
  lemma HeadExists(s: Side) returns (i: nat)
    requires Shaped(s, |s.lists|) && Linked(s) && s.queue != []
    ensures i < |s.queue| && IsHead(s, s.queue[i])
  {
    var b := s.queue[0].req.bank;
    assert InList(s.lists[b], s.queue[0].id);
    assert InQueue(s.queue, b, s.lists[b][0].arrival);
    i :| 0 <= i < |s.queue| && s.queue[i].req.bank == b && s.queue[i].id == s.lists[b][0].arrival;
  }

  /** If nothing is ready, the search gives the first cycle at which something will be. */
  lemma {:induction false} SearchNotReady(t: T.Timing, d: T.Dram, s: Side, cur: nat, i: nat, min: Cycle)
    requires T.WellFormed(d) && Shaped(s, |d.banks|) && i <= |s.queue|
    requires Search(t, d, s, cur, i, min).NotReady?
    ensures var m := Search(t, d, s, cur, i, min).min;
            && (m == min || (m.At? && m.cycle > cur)) && !Earlier(min, m)
            && forall j :: i <= j < |s.queue| && IsHead(s, s.queue[j]) ==>
                 m.At? && m.cycle <= MinCmdCycle(t, d, s, s.queue[j])
    decreases |s.queue| - i
  {
    hide T.WellFormed, T.FindMinCmdCycle;
    if i < |s.queue| {
      if IsHead(s, s.queue[i]) {
        var m := MinCmdCycle(t, d, s, s.queue[i]);
        SearchNotReady(t, d, s, cur, i + 1, if Earlier(At(m), min) then At(m) else min);
      } else {
        SearchNotReady(t, d, s, cur, i + 1, min);
      }
    }
  }

  // ------------------------------------------------------------- the stored requests

  /** Devices, queues and lists are in order. */
  ghost predicate Stored(c: Config, s: State) {
    && Indexed(c, s) && !s.bad
    && T.Good(c.timing, s.dram, s.log) && T.Settled(c.timing, s.dram)
    && SideOk(s.rd, |s.dram.banks|, s.nextId, c.rowHitLimit, c.queueDepth)
    && SideOk(s.wr, |s.dram.banks|, s.nextId, c.rowHitLimit, c.queueDepth)
  }

  function Requests(q: seq<Entry>): (r: seq<Request>)
    ensures |r| == |q| && forall i :: 0 <= i < |q| ==> r[i] == q[i].req
  {
    seq(|q|, i requires 0 <= i < |q| => q[i].req)
  }

  function Served(done: seq<Service>): (r: seq<Request>)
    ensures |r| == |done| && forall i :: 0 <= i < |done| ==> r[i] == done[i].entry.req
  {
    seq(|done|, i requires 0 <= i < |done| => done[i].entry.req)
  }

  /** Every request that has been served or is waiting. */
  function Held(s: State): (m: multiset<Request>) {
    multiset(Served(s.done)) + multiset(Requests(s.rd.queue)) + multiset(Requests(s.wr.queue)) + multiset(s.overflow)
  }

  lemma EnterStored(c: Config, s: State, r: Request, cycle: nat)
    requires Stored(c, s) && !Full(c, s) && r.bank < |s.dram.banks|
    ensures Stored(c, Enter(c, s, r, cycle)) && !Idling(Enter(c, s, r, cycle))
  {
    hide SideOk, T.Good, T.Settled, Add;
    SideFacts(c, s);
    var entry := Entry(r, s.nextId, cycle);
    AddOk(SideOf(c, s, r), s.dram, entry, c.rowHitLimit, c.queueDepth);
    SideOkLater(s.rd, |s.dram.banks|, s.nextId, c.rowHitLimit, c.queueDepth);
    SideOkLater(s.wr, |s.dram.banks|, s.nextId, c.rowHitLimit, c.queueDepth);
    AddGrows(SideOf(c, s, r), s.dram, entry, c.rowHitLimit);
  }

  lemma AddGrows(s: Side, d: T.Dram, e: Entry, limit: nat)
    requires Shaped(s, |d.banks|) && e.req.bank < |d.banks|
    ensures Add(s, d, e, limit).queue == s.queue + [e]
  {
  }

  lemma SideFacts(c: Config, s: State)
    requires Stored(c, s)
    ensures Linked(s.rd) && Linked(s.wr) && |s.rd.queue| <= c.queueDepth && |s.wr.queue| <= c.queueDepth
  {
  }

  lemma EnterHeld(c: Config, s: State, r: Request, cycle: nat)
    requires Indexed(c, s) && r.bank < |s.dram.banks|
    ensures Held(Enter(c, s, r, cycle)) == Held(s) + multiset{r}
  {
    hide Indexed, Q.Queued;
    var entry := Entry(r, s.nextId, cycle);
    var q := SideOf(c, s, r).queue;
    assert Requests(q + [entry]) == Requests(q) + [r];
  }

  /** A request that is not first in its bank finds others waiting. */
  lemma EnterHead(c: Config, s: State, r: Request, cycle: nat)
    requires Stored(c, s) && r.bank < |s.dram.banks|
    ensures var e := Enter(c, s, r, cycle);
            Idling(s) ==> IsHead(SideOf(c, e, r), Newest(c, e, r, cycle))
  {
    hide SideOk, T.Good, T.Settled, Add, Linked, IsHead;
    SideFacts(c, s);
    if Idling(s) {
      AddHead(SideOf(c, s, r), s.dram, Entry(r, s.nextId, cycle), c.rowHitLimit);
    }
  }

  lemma ServeStored(c: Config, s: State, writes: bool, i: nat, cycle: nat)
    requires Stored(c, s)
    requires var side := if writes then s.wr else s.rd;
             && i < |side.queue| && IsHead(side, side.queue[i])
             && MinCmdCycle(c.timing, s.dram, side, side.queue[i]) <= cycle
    ensures Stored(c, ServeAt(c, s, writes, i, cycle))
    ensures ServeAt(c, s, writes, i, cycle).dram.minRespCycle >= c.timing.tCL + cycle
  {
    hide SideOk, T.Good, T.Settled, Remove, T.Commands, T.FindMinCmdCycle;
    var side := if writes then s.wr else s.rd;
    var a := AccessOf(side, side.queue[i]);
    T.IssueGood(c.timing, c.closedPage, s.dram, s.log, a, cycle);
    T.IssueSettled(c.timing, c.closedPage, s.dram, a, cycle);
    RemoveOk(side, i, |s.dram.banks|, s.nextId, c.rowHitLimit, c.queueDepth);
  }

  /** The response of a served request does not lie before the tick that serves it. */
  lemma ServedInTime(c: Config, s: State, writes: bool, i: nat, now: nat)
    requires Stored(c, s)
    requires var side := if writes then s.wr else s.rd;
             && i < |side.queue| && IsHead(side, side.queue[i])
             && MinCmdCycle(c.timing, s.dram, side, side.queue[i]) <= SysToMem(c.clock, now)
    ensures MemToSys(c.clock, ServeAt(c, s, writes, i, SysToMem(c.clock, now)).dram.minRespCycle) >= now
  {
    hide Stored, SideOk, SysToMem, MemToSys, MinCmdCycle, ServeAt;
    StoredFacts(c, s);
    var cycle := SysToMem(c.clock, now);
    ServeStored(c, s, writes, i, cycle);
    ResponseNotPast(c.clock, now, ServeAt(c, s, writes, i, cycle).dram.minRespCycle);
  }

  lemma ServeHeld(c: Config, s: State, writes: bool, i: nat, cycle: nat)
    requires Indexed(c, s)
    requires var side := if writes then s.wr else s.rd; i < |side.queue| && IsHead(side, side.queue[i])
    ensures Held(ServeAt(c, s, writes, i, cycle)) == Held(s)
  {
    hide Indexed, IsHead, T.Issue, T.Commands;
    var q := (if writes then s.wr else s.rd).queue;
    RequestsWithout(q, i);
    assert Served(s.done + [Service(q[i], writes)]) == Served(s.done) + [q[i].req];
  }

  lemma RequestsWithout(q: seq<Entry>, i: nat)
    requires i < |q|
    ensures multiset(Requests(q)) == multiset(Requests(q[..i] + q[i + 1..])) + multiset{q[i].req}
  {
    assert Requests(q) == Requests(q[..i]) + [q[i].req] + Requests(q[i + 1..]);
    assert Requests(q[..i] + q[i + 1..]) == Requests(q[..i]) + Requests(q[i + 1..]);
  }

  /** What a scheduling decision promises about the cycle it returns. */
  predicate Sound(s: State, min: Cycle, cycle: nat) {
    (min.Never? <==> Idling(s)) && !Earlier(min, At(cycle))
  }

  lemma TryScheduleOk(c: Config, s: State, cycle: nat)
    requires Stored(c, s)
    ensures var r := TrySchedule(c, s, cycle);
            && Stored(c, r.1) && Held(r.1) == Held(s) && Sound(r.1, r.0, cycle)
            && r.1.overflow == s.overflow && r.1.accepted == s.accepted
  {
    hide Stored, Held, Search, ServeAt, MinCmdCycle;
    StoredFacts(c, s);
    var writes := PickWrites(c, s);
    var side := if writes then s.wr else s.rd;
    if !Idling(s) && cycle >= s.dram.minRespCycle - c.timing.tCL {
      var f := Search(c.timing, s.dram, side, cycle, 0, Never);
      if f.Found? {
        SearchFound(c.timing, s.dram, side, cycle, 0, Never);
        ServeStored(c, s, writes, f.index, cycle);
        ServeHeld(c, s, writes, f.index, cycle);
        ServeFrame(c, s, writes, f.index, cycle);
      } else {
        SearchNotReady(c.timing, s.dram, side, cycle, 0, Never);
        var h := HeadExists(side);
      }
    }
  }

  lemma StoredFacts(c: Config, s: State)
    requires Stored(c, s)
    ensures Indexed(c, s) && !s.bad && Linked(s.rd) && Linked(s.wr)
  {
  }

  lemma ServeFrame(c: Config, s: State, writes: bool, i: nat, cycle: nat)
    requires Indexed(c, s)
    requires var side := if writes then s.wr else s.rd; i < |side.queue| && IsHead(side, side.queue[i])
    ensures var e := ServeAt(c, s, writes, i, cycle); e.overflow == s.overflow && e.accepted == s.accepted
  {
  }

  lemma RefillOk(c: Config, s: State, min: Cycle, cycle: nat)
    requires Stored(c, s) && Sound(s, min, cycle)
    ensures var r := Refill(c, s, min, cycle);
            && Stored(c, r.1) && Held(r.1) == Held(s) && Sound(r.1, r.0, cycle)
            && (r.1.overflow != [] ==> !Idling(r.1)) && r.1.accepted == s.accepted
  {
    hide Stored, Held, Enter, MinCmdCycle, IsHead;
    StoredFacts(c, s);
    if !Full(c, s) && s.overflow != [] {
      var u, r := s.(overflow := s.overflow[1..]), s.overflow[0];
      PopOverflow(c, s);
      EnterStored(c, u, r, cycle);
      EnterHeld(c, u, r, cycle);
      EnterHead(c, u, r, cycle);
      EnterFrame(c, u, r, cycle);
    }
  }

  lemma EnterFrame(c: Config, s: State, r: Request, cycle: nat)
    requires Indexed(c, s) && r.bank < |s.dram.banks|
    ensures var e := Enter(c, s, r, cycle);
            && e.overflow == s.overflow && e.accepted == s.accepted && e.nextSchedCycle == s.nextSchedCycle
            && e.dram == s.dram && e.nextId == s.nextId + 1
  {
  }

  lemma PopOverflow(c: Config, s: State)
    requires Stored(c, s) && s.overflow != []
    ensures var u := s.(overflow := s.overflow[1..]);
            Stored(c, u) && Held(s) == Held(u) + multiset{s.overflow[0]}
  {
    assert s.overflow == [s.overflow[0]] + s.overflow[1..];
  }

  // ---------------------------------------------------------------------- events

  ghost predicate EventsOk(s: State) {
    && (s.live.Live? ==> s.live.index < |s.events| && s.events[s.live.index].state == Queued)
    && (forall i :: 0 <= i < |s.events| && s.events[i].state == Queued ==> s.live == Live(i))
    && (forall i :: 0 <= i < |s.events| ==> (s.events[i].state == Idle <==> i in s.free))
    && (forall k :: 0 <= k < |s.free| ==> s.free[k] < |s.events|)
    && (forall j, k :: 0 <= j < k < |s.free| ==> s.free[j] != s.free[k])
  }

  /** There is a live event exactly when a request waits, and it will fire in the cycle the
      controller expects. */
  ghost predicate WakeOk(c: Config, s: State)
    requires ValidClock(c.clock)
  {
    && (s.live.Live? <==> !Idling(s)) && (s.live.Live? <==> s.nextSchedCycle.At?)
    && (s.live.Live? ==> s.live.index < |s.events| &&
                         SysToMem(c.clock, s.events[s.live.index].sysCycle) == s.nextSchedCycle.cycle)
    && (s.overflow != [] ==> !Idling(s))
  }

  ghost predicate Inv(c: Config, s: State) {
    Stored(c, s) && EventsOk(s) && WakeOk(c, s) && Held(s) == s.accepted
  }

  /** A new event replaces the live one. */
  lemma RescheduleOk(c: Config, s: State, cycle: nat, now: nat)
    requires ValidClock(c.clock) && Indexed(c, s) && EventsOk(s) && !s.bad && SysToMem(c.clock, now) <= cycle
    ensures var e := Reschedule(c, s, cycle, now);
            && EventsOk(e) && !e.bad && e.live.Live? && e.nextSchedCycle == At(cycle) && e.live.index < |e.events|
            && SysToMem(c.clock, e.events[e.live.index].sysCycle) == cycle
            && e == s.(events := e.events, free := e.free, live := e.live, nextSchedCycle := e.nextSchedCycle)
  {
    hide SysToMem, MatchingMemToSys, Indexed;
    QueuedCycleConverts(c.clock, cycle, now);
    var e := Reschedule(c, s, cycle, now);
    assert forall i :: 0 <= i < |s.events| && s.live != Live(i) && e.live != Live(i) ==> e.events[i] == s.events[i];
  }

  lemma EnqueueOk(c: Config, s: State, r: Request, now: nat)
    requires Inv(c, s) && r.bank < |s.dram.banks|
    ensures Inv(c, Enqueue(c, s, r, now))
  {
    hide Stored, Held, Enter, MinCmdCycle, IsHead, EventsOk, Reschedule, SysToMem;
    StoredFacts(c, s);
    var cycle := SysToMem(c.clock, now);
    var a := s.(accepted := s.accepted + multiset{r});
    Accept(c, s, r);
    if !Full(c, s) {
      EnterStored(c, a, r, cycle);
      EnterHeld(c, a, r, cycle);
      EnterHead(c, a, r, cycle);
      EnterFrame(c, a, r, cycle);
      var u := Enter(c, a, r, cycle);
      EnterEvents(c, a, r, cycle);
      StoredFacts(c, u);
      var min := ArrivalCycle(c, u, r, cycle);
      if Earlier(min, u.nextSchedCycle) {
        RescheduleOk(c, u, min.cycle, now);
        SameStored(c, u, Reschedule(c, u, min.cycle, now));
      }
    }
  }

  /** Accepting a request into the overflow queue. */
  lemma Accept(c: Config, s: State, r: Request)
    requires Stored(c, s) && EventsOk(s) && r.bank < |s.dram.banks|
    ensures var a := s.(accepted := s.accepted + multiset{r});
            && Stored(c, a) && EventsOk(a) && Held(a) == Held(s)
            && var o := a.(overflow := s.overflow + [r]);
               Stored(c, o) && EventsOk(o) && Held(o) == Held(s) + multiset{r}
  {
    hide SideOk, T.Good, T.Settled;
  }

  lemma EnterEvents(c: Config, s: State, r: Request, cycle: nat)
    requires Indexed(c, s) && EventsOk(s) && r.bank < |s.dram.banks|
    ensures EventsOk(Enter(c, s, r, cycle))
  {
    hide Enter;
  }

  /** Stored and Held do not depend on the events. */
  lemma SameStored(c: Config, s: State, e: State)
    requires Stored(c, s) && Indexed(c, e) && !e.bad
    requires e == s.(events := e.events, free := e.free, live := e.live, nextSchedCycle := e.nextSchedCycle,
                     bad := e.bad)
    ensures Stored(c, e) && Held(e) == Held(s)
  {
    hide SideOk, T.Good, T.Settled, Indexed;
  }

  lemma TickOk(c: Config, s: State, now: nat)
    requires Inv(c, s) && s.live.Live? && SysToMem(c.clock, now) == s.nextSchedCycle.cycle
    ensures var r := Tick(c, s, now);
            && Stored(c, r.1) && Held(r.1) == s.accepted == r.1.accepted
            && (r.0 == 0 <==> Idling(r.1)) && (r.0 == 0 <==> r.1.nextSchedCycle.Never?)
            && (r.1.overflow != [] ==> !Idling(r.1))
            && (r.0 != 0 ==> SysToMem(c.clock, r.0) == r.1.nextSchedCycle.cycle)
            && r.1.live == if r.0 == 0 then NoEvent else s.live
  {
    hide Stored, Held, TrySchedule, Refill, Idling, EventsOk, SysToMem, MatchingMemToSys;
    StoredFacts(c, s);
    var cycle := SysToMem(c.clock, now);
    var (min0, u) := TrySchedule(c, s, cycle);
    TryScheduleOk(c, s, cycle);
    var (min, v) := Refill(c, u, min0, cycle);
    RefillOk(c, u, min0, cycle);
    StoredFacts(c, v);
    SameStored(c, v, Tick(c, s, now).1);
    SameIdling(v, Tick(c, s, now).1);
    if min.At? {
      QueuedCycleConverts(c.clock, min.cycle, now);
    }
  }

  /** The live event fires. */
  lemma FireLive(c: Config, s: State, i: nat)
    requires Inv(c, s) && i < |s.events| && s.events[i].state == Queued
    ensures Inv(c, Fire(c, s, i))
  {
    hide Stored, Held, Tick, Idling, SysToMem, MatchingMemToSys;
    StoredFacts(c, s);
    TickOk(c, s, s.events[i].sysCycle);
    var (at, u) := Tick(c, s, s.events[i].sysCycle);
    StoredFacts(c, u);
    SameStored(c, u, Fire(c, s, i));
    SameIdling(u, Fire(c, s, i));
  }

  lemma SameIdling(s: State, e: State)
    requires e.rd == s.rd && e.wr == s.wr
    ensures Idling(e) <==> Idling(s)
  {
  }

  /** An annulled event fires: it only goes back to the free list. */
  lemma FireAnnulled(c: Config, s: State, i: nat)
    requires Inv(c, s) && i < |s.events| && s.events[i].state == Annulled
    ensures Inv(c, Fire(c, s, i))
    ensures var e := Fire(c, s, i);
            e == s.(events := e.events, free := [i] + s.free)
  {
    hide Stored, Held, Idling, SysToMem, MatchingMemToSys;
    StoredFacts(c, s);
    SameStored(c, s, Fire(c, s, i));
    SameIdling(s, Fire(c, s, i));
  }

  lemma RefreshOk(c: Config, s: State, now: nat)
    requires Inv(c, s)
    ensures Inv(c, RefreshAll(c, s, now))
  {
    hide SideOk, T.Good, T.Settled, SysToMem;
    T.RefreshGood(c.timing, s.dram, s.log, SysToMem(c.clock, now));
  }

  // -------------------------------------------------------------------- all runs

  datatype Step = Arrive(req: Request, now: nat) | FireEvent(index: nat) | Refreshing(now: nat)

  /** A request for an existing bank arrives, an event that has been queued fires, or a
      refresh begins. */
  predicate Enabled(c: Config, s: State, step: Step) {
    && Indexed(c, s)
    && match step
       case Arrive(r, _) => r.bank < |s.dram.banks|
       case FireEvent(i) => i < |s.events| && s.events[i].state != Idle
       case Refreshing(_) => true
  }

  function Next(c: Config, s: State, step: Step): (e: State)
    requires Enabled(c, s, step)
  {
    match step
    case Arrive(r, now) => Enqueue(c, s, r, now)
    case FireEvent(i) => Fire(c, s, i)
    case Refreshing(now) => RefreshAll(c, s, now)
  }

  ghost predicate Run(c: Config, s: State, steps: seq<Step>, e: State)
    decreases |steps|
  {
    if steps == [] then e == s
    else Enabled(c, s, steps[0]) && Run(c, Next(c, s, steps[0]), steps[1..], e)
  }

  predicate Initial(c: Config, s: State) {
    && ValidConfig(c) && T.Initial(c.timing, s.dram) && s.log == []
    && s.rd == s.wr && s.rd.queue == [] && |s.rd.lists| == |s.dram.banks|
    && (forall b :: 0 <= b < |s.rd.lists| ==> s.rd.lists[b] == [])
    && s.overflow == [] && s.events == [] && s.free == [] && s.live == NoEvent && s.nextSchedCycle == Never
    && !s.bad && s.done == [] && s.accepted == multiset{}
  }

  lemma InitialIndexed(c: Config, s: State)
    requires Initial(c, s)
    ensures Indexed(c, s)
  {
  }

  lemma InitialInv(c: Config, s: State)
    requires Initial(c, s)
    ensures Inv(c, s)
  {
    T.InitialGood(c.timing, s.dram);
    assert Requests([]) == [] && Served([]) == [];
  }

  lemma StepInv(c: Config, s: State, step: Step)
    requires Inv(c, s) && Enabled(c, s, step)
    ensures Inv(c, Next(c, s, step))
  {
    hide Inv, Enqueue, Fire, RefreshAll;
    match step {
      case Arrive(r, now) => EnqueueOk(c, s, r, now);
      case FireEvent(i) =>
        if s.events[i].state == Queued { FireLive(c, s, i); } else { FireAnnulled(c, s, i); }
      case Refreshing(now) => RefreshOk(c, s, now);
    }
  }

  lemma {:induction false} RunInv(c: Config, s: State, steps: seq<Step>, e: State)
    requires Inv(c, s) && Run(c, s, steps, e)
    ensures Inv(c, e)
    decreases |steps|
  {
    hide Inv, Enabled, Next;
    if steps != [] {
      StepInv(c, s, steps[0]);
      RunInv(c, Next(c, s, steps[0]), steps[1..], e);
    }
  }

  /** In every run, if a request is waiting in any of the queues there is exactly one live
      event, and its system cycle converts to the memory cycle the controller expects; if no
      request is waiting there is none.  No assertion of the source fails. */
  lemma NoLostWakeup(c: Config, s: State, steps: seq<Step>, e: State)
    requires Initial(c, s) && Run(c, s, steps, e)
    ensures !e.bad
    ensures e.rd.queue != [] || e.wr.queue != [] || e.overflow != [] <==>
            exists i :: 0 <= i < |e.events| && e.events[i].state == Queued
    ensures forall i, j :: 0 <= i < j < |e.events| ==> e.events[i].state != Queued || e.events[j].state != Queued
    ensures forall i :: 0 <= i < |e.events| && e.events[i].state == Queued ==>
              e.nextSchedCycle == At(SysToMem(c.clock, e.events[i].sysCycle))
  {
    hide Stored, Held;
    InitialInv(c, s);
    RunInv(c, s, steps, e);
    StoredFacts(c, e);
  }

  /** No request is lost or served twice. */
  lemma RequestsConserved(c: Config, s: State, steps: seq<Step>, e: State)
    requires Initial(c, s) && Run(c, s, steps, e)
    ensures e.accepted == multiset(Served(e.done)) + multiset(Requests(e.rd.queue))
                          + multiset(Requests(e.wr.queue)) + multiset(e.overflow)
  {
    InitialInv(c, s);
    RunInv(c, s, steps, e);
  }

  /** The commands sent in any run obey the row and timing rules. */
  lemma ControllerTiming(c: Config, s: State, steps: seq<Step>, e: State)
    requires Initial(c, s) && Run(c, s, steps, e)
    ensures T.Legal(c.timing, e.log)
  {
    InitialInv(c, s);
    RunInv(c, s, steps, e);
  }

  /** Four activations per window in any run, rank by rank. */
  lemma ControllerActivations(c: Config, s: State, steps: seq<Step>, e: State, rank: nat)
    requires Initial(c, s) && Run(c, s, steps, e) && rank < |e.dram.windows|
    ensures T.FourActivates(c.timing, e.log, rank, e.dram.windows[rank])
  {
    hide T.Good, T.FourActivates;
    InitialInv(c, s);
    RunInv(c, s, steps, e);
    T.GoodActivates(c.timing, e.dram, e.log, rank);
  }

  /** The lists of every bank are in the order for which bypassing is bounded. */
  lemma ControllerLists(c: Config, s: State, steps: seq<Step>, e: State, bank: nat)
    requires Initial(c, s) && Run(c, s, steps, e) && bank < |e.rd.lists| && bank < |e.wr.lists|
    ensures forall l :: l in [e.rd.lists[bank], e.wr.lists[bank]] ==>
              Q.Capped(l, c.rowHitLimit) && Q.HitChains(l) && Q.RowFifo(l) && Q.Batched(l, c.rowHitLimit)
  {
    hide Stored, EventsOk, Held, Q.Capped, Q.HitChains, Q.RowFifo, Q.Batched;
    InitialInv(c, s);
    RunInv(c, s, steps, e);
    StoredLists(c, e, bank);
  }

  lemma StoredLists(c: Config, s: State, bank: nat)
    requires Stored(c, s) && bank < |s.rd.lists| && bank < |s.wr.lists|
    ensures ListOk(s.rd.lists[bank], s.nextId, c.rowHitLimit) && ListOk(s.wr.lists[bank], s.nextId, c.rowHitLimit)
  {
    hide ListOk, T.Good, T.Settled, Indexed, Linked;
  }
}

/** Bank and bus timing of the DDR controller.

    The controller computes the cycles of the commands it would send to the devices.  Here
    they are written to a log, in the order in which they are decided, and the log is
    compared with the rules of section 4 of JESD79-3. */
module DdrTiming {
  import opened ActWindow

  /** In memory cycles. */
  datatype Timing = Timing(tBL: nat, tCL: nat, tRCD: nat, tRTP: nat, tRP: nat, tRRD: nat, tRAS: nat,
                           tFAW: nat, tWTR: nat, tWR: nat, tRFC: nat)

  predicate ValidTiming(t: Timing) {
    t.tBL >= 1 && t.tRFC >= t.tRP
  }

  /** minPreCycle: if closed, the cycle of the last precharge; if open, the earliest one. */
  datatype Bank = Bank(rank: nat, open: bool, openRow: nat, minPreCycle: nat, lastActCycle: nat,
                       lastCmdCycle: nat, curRowHits: nat)

  /** minRespCycle: the first cycle at which the data bus is free. */
  datatype Dram = Dram(banks: seq<Bank>, windows: seq<seq<nat>>, minRespCycle: nat, lastCmdWasWrite: bool)

  /** A request at the head of its bank's list.  hitFollows: its successor is numbered as a
      row hit. */
  datatype Access = Access(bank: nat, row: nat, write: bool, arrivalCycle: nat, rowHitSeq: nat, hitFollows: bool)

  function Max(a: nat, b: nat): nat { if a >= b then a else b }

  // ------------------------------------------------------------ the controller

  function RowHit(d: Dram, r: Access): bool
    requires r.bank < |d.banks|
  {
    d.banks[r.bank].open && r.row == d.banks[r.bank].openRow
  }

  predicate WellFormed(d: Dram) {
    && |d.banks| >= 1
    && (forall b :: 0 <= b < |d.banks| ==> d.banks[b].rank < |d.windows|)
    && (forall k :: 0 <= k < |d.windows| ==> |d.windows[k]| == 4)
  }

  function PreCycle(d: Dram, r: Access): nat
    requires r.bank < |d.banks|
  {
    var bank := d.banks[r.bank];
    if !bank.open then bank.minPreCycle else Max(r.arrivalCycle, bank.minPreCycle)
  }

  function ActCycle(t: Timing, d: Dram, r: Access): (c: nat)
    requires WellFormed(d) && r.bank < |d.banks|
  {
    var bank := d.banks[r.bank];
    Max(Max(r.arrivalCycle, Max(PreCycle(d, r) + t.tRP, bank.lastActCycle + t.tRRD)),
        d.windows[bank.rank][0] + t.tFAW)
  }

  /** DDRMemory::findMinCmdCycle. */
  function FindMinCmdCycle(t: Timing, d: Dram, r: Access): (c: nat)
    requires WellFormed(d) && r.bank < |d.banks|
  {
    if RowHit(d, r) then Max(r.arrivalCycle, d.banks[r.bank].lastCmdCycle + 1)
    else ActCycle(t, d, r) + t.tRCD
  }

  /** The cycle of the column access. */
  function CmdCycle(t: Timing, d: Dram, r: Access, cur: nat): (c: nat)
    requires WellFormed(d) && r.bank < |d.banks| && d.minRespCycle >= t.tCL
  {
    var free := d.minRespCycle - t.tCL;
    var c0 := Max(cur, free);
    var c1 := if d.lastCmdWasWrite && !r.write then Max(c0, d.minRespCycle + t.tWTR) else c0;
    var c2 := if RowHit(d, r) then c1 else Max(c1, ActCycle(t, d, r) + t.tRCD);
    Max(c2, free)
  }

  /** The part of trySchedule that issues a request. */
  function Issue(t: Timing, closedPage: bool, d: Dram, r: Access, cur: nat): (e: Dram)
    requires WellFormed(d) && r.bank < |d.banks| && d.minRespCycle >= t.tCL
  {
    var bank := d.banks[r.bank];
    var cmd := CmdCycle(t, d, r, cur);
    var resp := cmd + t.tCL + t.tBL;
    var hit := RowHit(d, r);
    var act := if hit then bank.lastActCycle else ActCycle(t, d, r);
    var minPre := if !hit && bank.open then PreCycle(d, r) + t.tRAS else bank.minPreCycle;
    var open := !(closedPage && !r.hitFollows);
    var newBank := Bank(bank.rank, open, r.row,
                        Max(minPre, Max(act + t.tRAS, if r.write then resp + t.tWR else cmd + t.tRTP)),
                        act, cmd, r.rowHitSeq);
    Dram(d.banks[r.bank := newBank],
         if hit then d.windows else d.windows[bank.rank := Added(d.windows[bank.rank], act)],
         resp, r.write)
  }

  /** The first cycle at which every bank can be precharged. */
  function RefreshStart(banks: seq<Bank>, cycle: nat): (s: nat)
    ensures s >= cycle
    ensures forall b :: 0 <= b < |banks| ==> s >= banks[b].minPreCycle && s >= banks[b].lastCmdCycle
    decreases |banks|
  {
    if banks == [] then cycle
    else
      var n := |banks| - 1;
      assert forall b :: 0 <= b < n ==> banks[..n][b] == banks[b];
      Max(RefreshStart(banks[..n], cycle), Max(banks[n].minPreCycle, banks[n].lastCmdCycle))
  }

  function Closed(bank: Bank, minPre: nat): Bank {
    bank.(minPreCycle := minPre, open := false)
  }

  /** DDRMemory::refresh. */
  function Refresh(t: Timing, d: Dram, cycle: nat): (e: Dram)
    requires t.tRFC >= t.tRP
  {
    var minPre := RefreshStart(d.banks, cycle) + t.tRFC - t.tRP;
    d.(banks := seq(|d.banks|, b requires 0 <= b < |d.banks| => Closed(d.banks[b], minPre)))
  }

  // ------------------------------------------------------------- the command log

  datatype Command =
    | Act(bank: nat, cycle: nat, row: nat, rank: nat)
    | Pre(bank: nat, cycle: nat)
    | Cas(bank: nat, cycle: nat, row: nat, write: bool, rowHitSeq: nat)
    | Ref(cycle: nat, done: nat)        // precharges all banks first

  type Log = seq<Command>

  datatype Row = NoRow | OpenRow(row: nat)

  /** The row that a bank has open after a log. */
  function RowAfter(log: Log, bank: nat): (r: Row) {
    if log == [] then NoRow
    else
      var c := log[|log| - 1];
      if c.Act? && c.bank == bank then OpenRow(c.row)
      else if c.Ref? || (c.Pre? && c.bank == bank) then NoRow
      else RowAfter(log[..|log| - 1], bank)
  }

  /** Rows are opened when closed, closed when open, and accessed when open. */
  predicate RowRule(log: Log, c: Command) {
    match c
    case Act(b, _, _, _) => RowAfter(log, b) == NoRow
    case Pre(b, _) => RowAfter(log, b) != NoRow
    case Cas(b, _, row, _, _) => RowAfter(log, b) == OpenRow(row)
    case Ref(_, _) => true
  }

  function BurstEnd(t: Timing, cas: nat): nat { cas + t.tCL + t.tBL }

  /** Earliest precharge after a column access. */
  function Recovered(t: Timing, cas: nat, write: bool): nat {
    if write then BurstEnd(t, cas) + t.tWR else cas + t.tRTP
  }

  /** The distance that a command must keep from an earlier one. */
  predicate Spacing(t: Timing, a: Command, c: Command) {
    match a
    case Act(b, x, _, _) =>
      (match c
       case Act(b', y, _, _) => b == b' ==> y >= x + t.tRRD && y >= x + t.tRAS + t.tRP
       case Pre(b', y) => b == b' ==> y >= x + t.tRAS
       case Cas(b', y, _, _, _) => b == b' ==> y >= x + t.tRCD
       case Ref(y, _) => y >= x + t.tRAS)
    case Pre(b, x) =>
      (match c
       case Act(b', y, _, _) => b == b' ==> y >= x + t.tRP
       case Pre(b', y) => b == b' ==> y >= x + t.tRP + t.tRAS
       case Cas(b', y, _, _, _) => b == b' ==> y >= x + t.tRP + t.tRCD
       case Ref(y, _) => y >= x)
    case Cas(b, x, _, w, _) =>
      (match c
       case Act(b', y, _, _) => b == b' ==> y >= Recovered(t, x, w) + t.tRP
       case Pre(b', y) => b == b' ==> y >= Recovered(t, x, w)
       case Cas(b', y, _, w', _) => y >= x + t.tBL && (w && !w' ==> y >= BurstEnd(t, x) + t.tWTR)
       case Ref(y, _) => y >= Recovered(t, x, w))
    case Ref(x, done) =>
      (match c
       case Act(b', y, _, _) => y >= done
       case Pre(b', y) => y >= done + t.tRAS
       case Cas(b', y, _, _, _) => y >= done + t.tRCD
       case Ref(y, _) => y + t.tRP >= done)
  }

  ghost predicate Legal(t: Timing, log: Log) {
    && (forall j :: 0 <= j < |log| ==> RowRule(log[..j], log[j]))
    && (forall i, j :: 0 <= i < j < |log| ==> Spacing(t, log[i], log[j]))
  }

  lemma LegalExtend(t: Timing, log: Log, c: Command)
    requires Legal(t, log) && RowRule(log, c) && forall i :: 0 <= i < |log| ==> Spacing(t, log[i], c)
    ensures Legal(t, log + [c])
  {
    hide RowRule, Spacing;
    var s := log + [c];
    forall j | 0 <= j < |s|
      ensures RowRule(s[..j], s[j])
    {
      assert s[..j] == log[..j];
      assert j == |log| ==> log[..j] == log;
    }
  }

  // ------------------------------------------------- one command at a time

  /** The state after a command: what the controller's bookkeeping amounts to. */
  function Apply(t: Timing, d: Dram, c: Command): (e: Dram)
    requires WellFormed(d) && t.tRFC >= t.tRP
    requires !c.Ref? ==> c.bank < |d.banks|
    requires c.Ref? ==> c.done >= t.tRP
  {
    match c
    case Act(b, x, row, _) =>
      var bank := d.banks[b];
      d.(banks := d.banks[b := bank.(open := true, openRow := row, lastActCycle := x, minPreCycle := x + t.tRAS)],
         windows := d.windows[bank.rank := Added(d.windows[bank.rank], x)])
    case Pre(b, x) => d.(banks := d.banks[b := Closed(d.banks[b], x)])
    case Cas(b, x, _, w, hits) =>
      var bank := d.banks[b];
      d.(banks := d.banks[b := bank.(lastCmdCycle := x, curRowHits := hits,
                                     minPreCycle := Max(bank.minPreCycle, Recovered(t, x, w)))],
         minRespCycle := BurstEnd(t, x), lastCmdWasWrite := w)
    case Ref(_, done) =>
      d.(banks := seq(|d.banks|, b requires 0 <= b < |d.banks| => Closed(d.banks[b], done - t.tRP)))
  }

  /** What the state allows. */
  predicate Allowed(t: Timing, d: Dram, c: Command)
    requires WellFormed(d)
  {
    match c
    case Act(b, x, _, k) =>
      && b < |d.banks| && !d.banks[b].open
      && x >= d.banks[b].minPreCycle + t.tRP && x >= d.banks[b].lastActCycle + t.tRRD
      && k == d.banks[b].rank && x >= d.windows[k][0] + t.tFAW
    case Pre(b, x) => b < |d.banks| && d.banks[b].open && x >= d.banks[b].minPreCycle
    case Cas(b, x, row, w, _) =>
      && b < |d.banks| && d.banks[b].open && d.banks[b].openRow == row
      && x >= d.banks[b].lastActCycle + t.tRCD && x + t.tCL >= d.minRespCycle
      && (d.lastCmdWasWrite && !w ==> x >= d.minRespCycle + t.tWTR)
    case Ref(x, done) =>
      done == x + t.tRFC && forall b :: 0 <= b < |d.banks| ==> x >= d.banks[b].minPreCycle
  }

  /** What the state remembers of a command that has been sent. */
  predicate Remembered(t: Timing, d: Dram, c: Command) {
    match c
    case Act(b, x, _, _) =>
      b < |d.banks| && x <= d.banks[b].lastActCycle && x + t.tRAS <= d.banks[b].minPreCycle
    case Pre(b, x) =>
      && b < |d.banks| && x <= d.banks[b].minPreCycle
      && (d.banks[b].open ==> x + t.tRP <= d.banks[b].lastActCycle)
    case Cas(b, x, _, w, _) =>
      && b < |d.banks| && Recovered(t, x, w) <= d.banks[b].minPreCycle
      && BurstEnd(t, x) <= d.minRespCycle
      && (w && !d.lastCmdWasWrite ==> BurstEnd(t, x) + t.tWTR + t.tCL <= d.minRespCycle)
    case Ref(x, done) =>
      forall b :: 0 <= b < |d.banks| ==>
        done <= d.banks[b].minPreCycle + t.tRP && (d.banks[b].open ==> done <= d.banks[b].lastActCycle)
  }

  ghost predicate BanksOk(t: Timing, d: Dram, log: Log) {
    forall b :: 0 <= b < |d.banks| ==>
      && RowAfter(log, b) == (if d.banks[b].open then OpenRow(d.banks[b].openRow) else NoRow)
      && (d.banks[b].open ==> d.banks[b].lastActCycle + t.tRAS <= d.banks[b].minPreCycle)
  }

  ghost predicate AllRemembered(t: Timing, d: Dram, log: Log) {
    forall i :: 0 <= i < |log| ==> Remembered(t, d, log[i])
  }

  ghost predicate Inv(t: Timing, d: Dram, log: Log) {
    ValidTiming(t) && WellFormed(d) && AllRemembered(t, d, log) && BanksOk(t, d, log) && Legal(t, log)
  }

  /** A command that the state allows keeps its distance from everything remembered. */
  lemma AllowedSpacing(t: Timing, d: Dram, a: Command, c: Command)
    requires WellFormed(d) && Allowed(t, d, c) && Remembered(t, d, a)
    requires !c.Ref? && d.banks[c.bank].open ==>
               d.banks[c.bank].lastActCycle + t.tRAS <= d.banks[c.bank].minPreCycle
    ensures Spacing(t, a, c)
  {
    assert a.Ref? && c.Ref? ==> a.done <= d.banks[0].minPreCycle + t.tRP;
  }

  /** Nothing is forgotten. */
  lemma ApplyRemembers(t: Timing, d: Dram, a: Command, c: Command)
    requires ValidTiming(t) && WellFormed(d) && Allowed(t, d, c) && Remembered(t, d, a)
    ensures Remembered(t, Apply(t, d, c), a)
  {
  }

  lemma ApplyRemembersNew(t: Timing, d: Dram, c: Command)
    requires ValidTiming(t) && WellFormed(d) && Allowed(t, d, c)
    ensures Remembered(t, Apply(t, d, c), c) && WellFormed(Apply(t, d, c))
  {
  }

  lemma ApplyBanks(t: Timing, d: Dram, log: Log, c: Command)
    requires ValidTiming(t) && WellFormed(d) && Allowed(t, d, c) && BanksOk(t, d, log)
    ensures BanksOk(t, Apply(t, d, c), log + [c])
  {
    assert (log + [c])[..|log|] == log;
  }

  lemma ApplyOk(t: Timing, d: Dram, log: Log, c: Command)
    requires Inv(t, d, log) && Allowed(t, d, c)
    ensures Inv(t, Apply(t, d, c), log + [c])
  {
    hide Legal, Remembered, Spacing, Apply;
    forall i | 0 <= i < |log|
      ensures Spacing(t, log[i], c) && Remembered(t, Apply(t, d, c), log[i])
    {
      AllowedSpacing(t, d, log[i], c);
      ApplyRemembers(t, d, log[i], c);
    }
    ApplyRemembersNew(t, d, c);
    ApplyBanks(t, d, log, c);
    LegalExtend(t, log, c);
  }

  // ------------------------------------------------------ activation windows

  const IDLE_WINDOW: seq<nat> := [0, 0, 0, 0]

  /** The activations of a rank, in the order in which they were decided. */
  function RankActs(log: Log, rank: nat): (s: seq<nat>) {
    if log == [] then []
    else
      var c, s := log[|log| - 1], RankActs(log[..|log| - 1], rank);
      if c.Act? && c.rank == rank then s + [c.cycle] else s
  }

  ghost predicate WindowsOk(t: Timing, d: Dram, log: Log) {
    forall k :: 0 <= k < |d.windows| ==> WindowRun(IDLE_WINDOW, t.tFAW, RankActs(log, k), d.windows[k])
  }

  lemma ApplyWindows(t: Timing, d: Dram, log: Log, c: Command)
    requires ValidTiming(t) && WellFormed(d) && Allowed(t, d, c) && WindowsOk(t, d, log)
    ensures WindowsOk(t, Apply(t, d, c), log + [c])
  {
    hide WindowRun, Added;
    assert (log + [c])[..|log|] == log;
    if c.Act? {
      WindowRunExtend(IDLE_WINDOW, t.tFAW, RankActs(log, c.rank), d.windows[c.rank], c.cycle);
    }
  }

  // ---------------------------------------------------- issuing is a legal burst of commands

  /** Between two operations of the controller: an open row has been accessed since its
      activation, and the bus reservation covers every access. */
  predicate Settled(t: Timing, d: Dram) {
    && d.minRespCycle >= t.tCL + t.tBL
    && forall b :: 0 <= b < |d.banks| ==>
         && (d.banks[b].open ==> d.banks[b].lastActCycle + t.tRCD <= d.banks[b].lastCmdCycle)
         && (d.banks[b].lastCmdCycle > 0 ==> BurstEnd(t, d.banks[b].lastCmdCycle) <= d.minRespCycle)
  }

  ghost predicate Good(t: Timing, d: Dram, log: Log) {
    Inv(t, d, log) && WindowsOk(t, d, log)
  }

  lemma ApplyGood(t: Timing, d: Dram, log: Log, c: Command)
    requires Good(t, d, log) && Allowed(t, d, c)
    ensures Good(t, Apply(t, d, c), log + [c])
  {
    hide Allowed, Apply, WindowsOk, BanksOk, AllRemembered;
    ApplyOk(t, d, log, c);
    ApplyWindows(t, d, log, c);
  }

  /** The commands that open the row of a request. */
  function Opening(t: Timing, d: Dram, r: Access): (s: Log)
    requires WellFormed(d) && r.bank < |d.banks|
  {
    if RowHit(d, r) then []
    else
      var act := Act(r.bank, ActCycle(t, d, r), r.row, d.banks[r.bank].rank);
      if d.banks[r.bank].open then [Pre(r.bank, PreCycle(d, r)), act] else [act]
  }

  function Opened(t: Timing, d: Dram, r: Access): (e: Dram)
    requires WellFormed(d) && r.bank < |d.banks|
  {
    if RowHit(d, r) then d
    else
      var bank, act := d.banks[r.bank], ActCycle(t, d, r);
      d.(banks := d.banks[r.bank := bank.(open := true, openRow := r.row, lastActCycle := act,
                                          minPreCycle := act + t.tRAS)],
         windows := d.windows[bank.rank := Added(d.windows[bank.rank], act)])
  }

  lemma OpenedGood(t: Timing, d: Dram, log: Log, r: Access)
    requires Good(t, d, log) && r.bank < |d.banks|
    ensures Good(t, Opened(t, d, r), log + Opening(t, d, r))
  {
    hide Good, Added, Inv;
    GoodFacts(t, d, log);
    if RowHit(d, r) {
      assert log + Opening(t, d, r) == log;
    } else {
      var act := Act(r.bank, ActCycle(t, d, r), r.row, d.banks[r.bank].rank);
      if d.banks[r.bank].open {
        var pre := Pre(r.bank, PreCycle(d, r));
        ApplyGood(t, d, log, pre);
        GoodFacts(t, Apply(t, d, pre), log + [pre]);
        ApplyGood(t, Apply(t, d, pre), log + [pre], act);
        assert log + [pre] + [act] == log + [pre, act];
        assert Apply(t, Apply(t, d, pre), act) == Opened(t, d, r);
      } else {
        ApplyGood(t, d, log, act);
        assert Apply(t, d, act) == Opened(t, d, r);
      }
    }
  }

  lemma GoodFacts(t: Timing, d: Dram, log: Log)
    requires Good(t, d, log)
    ensures ValidTiming(t) && WellFormed(d)
    ensures forall b :: 0 <= b < |d.banks| && d.banks[b].open ==>
              d.banks[b].lastActCycle + t.tRAS <= d.banks[b].minPreCycle
  {
  }

  function Column(t: Timing, d: Dram, r: Access, cur: nat): (c: Command)
    requires WellFormed(d) && r.bank < |d.banks| && d.minRespCycle >= t.tCL
  {
    Cas(r.bank, CmdCycle(t, d, r, cur), r.row, r.write, r.rowHitSeq)
  }

  /** Everything that serving a request sends to the devices. */
  function Commands(t: Timing, closedPage: bool, d: Dram, r: Access, cur: nat): (s: Log)
    requires WellFormed(d) && r.bank < |d.banks| && d.minRespCycle >= t.tCL
  {
    Opening(t, d, r) + [Column(t, d, r, cur)] +
    if closedPage && !r.hitFollows then [Pre(r.bank, Issue(t, closedPage, d, r, cur).banks[r.bank].minPreCycle)]
    else []
  }

  /** The column access of a ready request is allowed once its row is open. */
  lemma ColumnAllowed(t: Timing, d: Dram, r: Access, cur: nat)
    requires ValidTiming(t) && WellFormed(d) && r.bank < |d.banks| && Settled(t, d)
    requires FindMinCmdCycle(t, d, r) <= cur
    ensures WellFormed(Opened(t, d, r)) && Allowed(t, Opened(t, d, r), Column(t, d, r, cur))
  {
    hide Added;
  }

  /** The state that trySchedule computes is the one its commands lead to. */
  lemma IssueIsCommands(t: Timing, closedPage: bool, d: Dram, r: Access, cur: nat)
    requires ValidTiming(t) && WellFormed(d) && r.bank < |d.banks| && Settled(t, d)
    requires d.banks[r.bank].open ==> d.banks[r.bank].lastActCycle + t.tRAS <= d.banks[r.bank].minPreCycle
    ensures WellFormed(Opened(t, d, r))
    ensures var e := Apply(t, Opened(t, d, r), Column(t, d, r, cur));
            var f := Issue(t, closedPage, d, r, cur);
            && e.banks[r.bank].open && f.banks[r.bank].minPreCycle == e.banks[r.bank].minPreCycle
            && f == if closedPage && !r.hitFollows
                    then e.(banks := e.banks[r.bank := Closed(e.banks[r.bank], e.banks[r.bank].minPreCycle)])
                    else e
  {
    hide Added;
    var o, bank := Opened(t, d, r), d.banks[r.bank];
    var e := Apply(t, o, Column(t, d, r, cur));
    var f := Issue(t, closedPage, d, r, cur);
    assert o.banks[r.bank].lastActCycle + t.tRAS <= o.banks[r.bank].minPreCycle;
    assert !RowHit(d, r) ==> ActCycle(t, d, r) >= PreCycle(d, r) >= bank.minPreCycle;
    assert e.banks[r.bank].minPreCycle == f.banks[r.bank].minPreCycle;
    assert e.windows == f.windows;
    assert f.banks[r.bank := Closed(f.banks[r.bank], 0)] == e.banks[r.bank := Closed(e.banks[r.bank], 0)];
  }

  lemma IssueSettled(t: Timing, closedPage: bool, d: Dram, r: Access, cur: nat)
    requires ValidTiming(t) && WellFormed(d) && r.bank < |d.banks| && Settled(t, d)
    requires FindMinCmdCycle(t, d, r) <= cur
    ensures Settled(t, Issue(t, closedPage, d, r, cur))
    ensures d.banks[r.bank].lastCmdCycle < CmdCycle(t, d, r, cur)
  {
    hide Added;
  }

  lemma IssueGood(t: Timing, closedPage: bool, d: Dram, log: Log, r: Access, cur: nat)
    requires Good(t, d, log) && Settled(t, d) && r.bank < |d.banks|
    requires FindMinCmdCycle(t, d, r) <= cur
    ensures Good(t, Issue(t, closedPage, d, r, cur), log + Commands(t, closedPage, d, r, cur))
  {
    hide Good, Inv, Added, Issue, Opened, Opening, CmdCycle, FindMinCmdCycle;
    GoodFacts(t, d, log);
    OpenedGood(t, d, log, r);
    ColumnAllowed(t, d, r, cur);
    IssueIsCommands(t, closedPage, d, r, cur);
    var o, l, col := Opened(t, d, r), log + Opening(t, d, r), Column(t, d, r, cur);
    ApplyGood(t, o, l, col);
    var e := Apply(t, o, col);
    if closedPage && !r.hitFollows {
      var pre := Pre(r.bank, Issue(t, closedPage, d, r, cur).banks[r.bank].minPreCycle);
      GoodFacts(t, e, l + [col]);
      ApplyGood(t, e, l + [col], pre);
      assert l + [col] + [pre] == log + Commands(t, closedPage, d, r, cur);
    } else {
      assert l + [col] == log + Commands(t, closedPage, d, r, cur);
    }
  }

  lemma RefreshGood(t: Timing, d: Dram, log: Log, cycle: nat)
    requires Good(t, d, log) && Settled(t, d)
    ensures var s := RefreshStart(d.banks, cycle);
            Good(t, Refresh(t, d, cycle), log + [Ref(s, s + t.tRFC)]) && Settled(t, Refresh(t, d, cycle))
  {
    hide Good, Inv;
    GoodFacts(t, d, log);
    var s := RefreshStart(d.banks, cycle);
    ApplyGood(t, d, log, Ref(s, s + t.tRFC));
    assert Apply(t, d, Ref(s, s + t.tRFC)) == Refresh(t, d, cycle);
  }

  // -------------------------------------------------------------------- all runs

  datatype Step = Serve(access: Access, cycle: nat) | DoRefresh(cycle: nat)

  datatype Traced = Traced(dram: Dram, log: Log)

  /** Any request that is ready may be served; a refresh may come at any time. */
  predicate Enabled(t: Timing, d: Dram, s: Step) {
    && WellFormed(d) && t.tCL <= d.minRespCycle && t.tRP <= t.tRFC
    && (s.Serve? ==> s.access.bank < |d.banks| && FindMinCmdCycle(t, d, s.access) <= s.cycle)
  }

  function Next(t: Timing, closedPage: bool, x: Traced, s: Step): (y: Traced)
    requires Enabled(t, x.dram, s)
  {
    match s
    case Serve(r, cur) =>
      Traced(Issue(t, closedPage, x.dram, r, cur), x.log + Commands(t, closedPage, x.dram, r, cur))
    case DoRefresh(cycle) =>
      var start := RefreshStart(x.dram.banks, cycle);
      Traced(Refresh(t, x.dram, cycle), x.log + [Ref(start, start + t.tRFC)])
  }

  ghost predicate Run(t: Timing, closedPage: bool, x: Traced, steps: seq<Step>, y: Traced)
    decreases |steps|
  {
    if steps == [] then y == x
    else Enabled(t, x.dram, steps[0]) && Run(t, closedPage, Next(t, closedPage, x, steps[0]), steps[1..], y)
  }

  /** The controller after construction. */
  predicate Initial(t: Timing, d: Dram) {
    && WellFormed(d) && d.minRespCycle == t.tCL + t.tBL + 1
    && (forall b :: 0 <= b < |d.banks| ==> d.banks[b] == Bank(d.banks[b].rank, false, 0, 0, 0, 0, 0))
    && (forall k :: 0 <= k < |d.windows| ==> d.windows[k] == IDLE_WINDOW)
  }

  lemma InitialGood(t: Timing, d: Dram)
    requires ValidTiming(t) && Initial(t, d)
    ensures Good(t, d, []) && Settled(t, d)
  {
  }

  lemma {:induction false} RunGood(t: Timing, closedPage: bool, x: Traced, steps: seq<Step>, y: Traced)
    requires Good(t, x.dram, x.log) && Settled(t, x.dram) && Run(t, closedPage, x, steps, y)
    ensures Good(t, y.dram, y.log) && Settled(t, y.dram)
    decreases |steps|
  {
    hide Good, Settled, Issue, Refresh, Commands, FindMinCmdCycle, WellFormed;
    if steps != [] {
      match steps[0] {
        case Serve(r, cur) =>
          IssueGood(t, closedPage, x.dram, x.log, r, cur);
          GoodFacts(t, x.dram, x.log);
          IssueSettled(t, closedPage, x.dram, r, cur);
        case DoRefresh(cycle) =>
          RefreshGood(t, x.dram, x.log, cycle);
      }
      RunGood(t, closedPage, Next(t, closedPage, x, steps[0]), steps[1..], y);
    }
  }

  /** In every run, whichever ready requests are served and whenever refreshes come, the
      commands obey the row and timing rules. */
  lemma TimingOfEveryRun(t: Timing, closedPage: bool, d: Dram, steps: seq<Step>, y: Traced)
    requires ValidTiming(t) && Initial(t, d) && Run(t, closedPage, Traced(d, []), steps, y)
    ensures Legal(t, y.log)
  {
    InitialGood(t, d);
    RunGood(t, closedPage, Traced(d, []), steps, y);
  }

  /** Data bursts never overlap on the channel. */
  lemma BurstsDisjoint(t: Timing, log: Log, i: nat, j: nat)
    requires Legal(t, log) && i < |log| && j < |log| && i != j && log[i].Cas? && log[j].Cas?
    ensures var x, y := log[i].cycle + t.tCL, log[j].cycle + t.tCL;
            x + t.tBL <= y || y + t.tBL <= x
  {
    assert i < j ==> Spacing(t, log[i], log[j]);
    assert j < i ==> Spacing(t, log[j], log[i]);
  }

  /** There are at most four activations of the rank in any tFAW cycles; with the idle window
      before them, any five in time order span tFAW; and the window is what recording the
      activations one by one gives.  If none of them is older than the window's
      second-oldest entry, the window holds the latest four. */
  ghost predicate FourActivates(t: Timing, log: Log, rank: nat, window: seq<nat>) {
    var acts := RankActs(log, rank);
    var f := History(IDLE_WINDOW, acts);
    && WindowRun(IDLE_WINDOW, t.tFAW, acts, window)
    && (forall x: nat :: Within(acts, x, t.tFAW) <= 4)
    && Sorted(f) && Spaced(f, 4, t.tFAW) && multiset(f) == multiset(IDLE_WINDOW) + multiset(acts)
    && (InTime(IDLE_WINDOW, acts) ==> |f| >= 4 && window == Last(f, 4))
  }

  /** At most four activations of a rank in any tFAW cycles. */
  lemma AtMostFour(t: Timing, d: Dram, log: Log, rank: nat, x: nat)
    requires Good(t, d, log) && rank < |d.windows|
    ensures Within(RankActs(log, rank), x, t.tFAW) <= 4
  {
    hide WindowRun, Added, Inv, History, Count, Bounded;
    var acts := RankActs(log, rank);
    SpacingIsBound(IDLE_WINDOW, 4, t.tFAW);
    RunBounded(IDLE_WINDOW, IDLE_WINDOW, t.tFAW, acts, d.windows[rank]);
    BoundedCount(History(IDLE_WINDOW, acts), d.windows[rank], t.tFAW, x);
    CountMultiset(History(IDLE_WINDOW, acts), IDLE_WINDOW + acts, x, x + t.tFAW);
    CountConcat(IDLE_WINDOW, acts, x, x + t.tFAW);
  }

  lemma GoodActivates(t: Timing, d: Dram, log: Log, rank: nat)
    requires Good(t, d, log) && rank < |d.windows|
    ensures FourActivates(t, log, rank, d.windows[rank])
  {
    hide WindowRun, InTime, Added, Inv, History, Count;
    FourActivateWindow(IDLE_WINDOW, IDLE_WINDOW, t.tFAW, RankActs(log, rank), d.windows[rank]);
    forall x: nat
      ensures Within(RankActs(log, rank), x, t.tFAW) <= 4
    {
      AtMostFour(t, d, log, rank, x);
    }
  }

  /** In every run, for every rank. */
  lemma FourActivatesPerWindow(t: Timing, closedPage: bool, d: Dram, steps: seq<Step>, y: Traced, rank: nat)
    requires ValidTiming(t) && Initial(t, d) && Run(t, closedPage, Traced(d, []), steps, y)
    requires rank < |y.dram.windows|
    ensures FourActivates(t, y.log, rank, y.dram.windows[rank])
  {
    hide Good, FourActivates;
    InitialGood(t, d);
    RunGood(t, closedPage, Traced(d, []), steps, y);
    GoodActivates(t, y.dram, y.log, rank);
  }
}

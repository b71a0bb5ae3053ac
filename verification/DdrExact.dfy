/** The DDR controller is not only safe but exact: its few counters say precisely what the whole
    command history allows, and every command goes out in the first cycle that is allowed. */
module DdrExact {
  import A = ActWindow
  import opened DdrTiming

  // ----------------------------------------------------- an exact summary of the history

  datatype LastColumn = NoColumn | LastColumn(cycle: nat, hits: nat)

  /** The last column access of a bank. */
  function LastCas(log: Log, bank: nat): (c: LastColumn) {
    if log == [] then NoColumn
    else
      var c := log[|log| - 1];
      if c.Cas? && c.bank == bank then LastColumn(c.cycle, c.rowHitSeq) else LastCas(log[..|log| - 1], bank)
  }

  predicate IsColumn(c: Command) { c.Cas? }

  ghost predicate NoCas(log: Log) {
    forall c :: c in log ==> !IsColumn(c)
  }

  /** A command that forbids the bank to be precharged before m. */
  predicate HoldsRow(t: Timing, a: Command, b: nat, m: nat) {
    || (a.Act? && a.bank == b && a.cycle + t.tRAS == m)
    || (a.Cas? && a.bank == b && Recovered(t, a.cycle, a.write) == m)
  }

  /** A command that closed the bank, as if by a precharge in cycle m. */
  predicate ClosesRow(t: Timing, a: Command, b: nat, m: nat) {
    (a.Pre? && a.bank == b && a.cycle == m) || (a.Ref? && a.done == m + t.tRP)
  }

  predicate IsAct(a: Command, b: nat, x: nat) {
    a.Act? && a.bank == b && a.cycle == x
  }

  /** Every cycle that is kept for a bank comes from some command, or from the start. */
  ghost predicate BankExact(t: Timing, d: Dram, log: Log, b: nat)
    requires b < |d.banks|
  {
    var k := d.banks[b];
    && (if k.open then exists a :: a in log && HoldsRow(t, a, b, k.minPreCycle)
        else k.minPreCycle == 0 || exists a :: a in log && ClosesRow(t, a, b, k.minPreCycle))
    && ((!k.open && k.lastActCycle == 0) || exists a :: a in log && IsAct(a, b, k.lastActCycle))
    && LastColumnIs(LastCas(log, b), k)
  }

  predicate LastColumnIs(c: LastColumn, k: Bank) {
    match c
    case NoColumn => k.lastCmdCycle == 0 && k.curRowHits == 0
    case LastColumn(x, hits) => k.lastCmdCycle == x && k.curRowHits == hits
  }

  predicate FreesBus(t: Timing, a: Command, d: Dram) {
    a.Cas? && BurstEnd(t, a.cycle) == d.minRespCycle && a.write == d.lastCmdWasWrite
  }

  /** w0: what lastCmdWasWrite was at the start. */
  ghost predicate BusExact(t: Timing, d: Dram, log: Log, w0: bool) {
    || (NoCas(log) && d.minRespCycle == t.tCL + t.tBL + 1 && d.lastCmdWasWrite == w0)
    || (exists a :: a in log && FreesBus(t, a, d))
  }

  ghost predicate Exact(t: Timing, d: Dram, log: Log, w0: bool) {
    BusExact(t, d, log, w0) && forall b :: 0 <= b < |d.banks| ==> BankExact(t, d, log, b)
  }

  lemma Extended(log: Log, c: Command)
    ensures c in log + [c] && forall a :: a in log ==> a in log + [c]
    ensures (log + [c])[..|log|] == log && (log + [c])[|log|] == c
  {
  }

  lemma ApplyBankExact(t: Timing, d: Dram, log: Log, c: Command, b: nat)
    requires ValidTiming(t) && WellFormed(d) && Allowed(t, d, c) && b < |d.banks| && BankExact(t, d, log, b)
    ensures BankExact(t, Apply(t, d, c), log + [c], b)
  {
    Extended(log, c);
    var k, e := d.banks[b], Apply(t, d, c);
    match c {
      case Act(x, y, _, _) =>
        if x == b {
          assert HoldsRow(t, c, b, e.banks[b].minPreCycle) && IsAct(c, b, y);
        }
      case Pre(x, y) =>
        if x == b {
          assert ClosesRow(t, c, b, y);
        }
      case Cas(x, y, _, w, _) =>
        if x == b && Recovered(t, y, w) >= k.minPreCycle {
          assert HoldsRow(t, c, b, e.banks[b].minPreCycle);
        }
      case Ref(_, done) =>
        assert ClosesRow(t, c, b, e.banks[b].minPreCycle);
    }
  }

  lemma ApplyBusExact(t: Timing, d: Dram, log: Log, c: Command, w0: bool)
    requires ValidTiming(t) && WellFormed(d) && Allowed(t, d, c) && BusExact(t, d, log, w0)
    ensures BusExact(t, Apply(t, d, c), log + [c], w0)
  {
    Extended(log, c);
    var e := Apply(t, d, c);
    if c.Cas? {
      assert FreesBus(t, c, e);
    } else if !NoCas(log) || d.minRespCycle != t.tCL + t.tBL + 1 || d.lastCmdWasWrite != w0 {
      var a :| a in log && FreesBus(t, a, d);
      assert FreesBus(t, a, e);
    } else {
      assert NoCas(log + [c]);
    }
  }

  lemma ApplyExact(t: Timing, d: Dram, log: Log, c: Command, w0: bool)
    requires ValidTiming(t) && WellFormed(d) && Allowed(t, d, c) && Exact(t, d, log, w0)
    ensures Exact(t, Apply(t, d, c), log + [c], w0)
  {
    hide BankExact, BusExact;
    ApplyBusExact(t, d, log, c, w0);
    forall b | 0 <= b < |d.banks|
      ensures BankExact(t, Apply(t, d, c), log + [c], b)
    {
      ApplyBankExact(t, d, log, c, b);
    }
  }

  /** What the rules allow next after a history. */
  ghost predicate LegalNext(t: Timing, log: Log, c: Command) {
    RowRule(log, c) && forall a :: a in log ==> Spacing(t, a, c)
  }

  /** The controller starts as if every bank had just been precharged and the bus used. */
  ghost predicate AfterStart(t: Timing, log: Log, c: Command, w0: bool) {
    && (c.Act? ==> c.cycle >= t.tRP && c.cycle >= t.tRRD)
    && (c.Cas? && NoCas(log) ==> c.cycle > t.tBL && (w0 && !c.write ==> c.cycle > t.tCL + t.tBL + t.tWTR))
  }

  /** The device exists, the four-activate window is kept, and a refresh takes tRFC. */
  predicate Addressed(t: Timing, d: Dram, c: Command)
    requires WellFormed(d)
  {
    && (!c.Ref? ==> c.bank < |d.banks|) && (c.Ref? ==> c.done == c.cycle + t.tRFC)
    && (c.Act? ==> c.rank == d.banks[c.bank].rank && c.cycle >= d.windows[c.rank][0] + t.tFAW)
  }

  /** Whatever the history allows, the state allows. */
  lemma LegalAllowed(t: Timing, d: Dram, log: Log, c: Command, w0: bool)
    requires WellFormed(d) && BanksOk(t, d, log) && Exact(t, d, log, w0)
    requires LegalNext(t, log, c) && AfterStart(t, log, c, w0) && Addressed(t, d, c)
    ensures Allowed(t, d, c)
  {
    match c {
      case Act(b, x, _, _) => LegalAct(t, d, log, c);
      case Pre(b, x) => LegalPre(t, d, log, c);
      case Cas(b, x, _, _, _) => LegalCas(t, d, log, c, w0);
      case Ref(x, _) =>
        forall b | 0 <= b < |d.banks|
          ensures x >= d.banks[b].minPreCycle
        {
          LegalRef(t, d, log, c, b);
        }
    }
  }

  lemma LegalAct(t: Timing, d: Dram, log: Log, c: Command)
    requires WellFormed(d) && BanksOk(t, d, log) && c.Act? && Addressed(t, d, c) && BankExact(t, d, log, c.bank)
    requires LegalNext(t, log, c) && c.cycle >= t.tRP && c.cycle >= t.tRRD
    ensures Allowed(t, d, c)
  {
    hide LastCas;
    var k := d.banks[c.bank];
    if k.minPreCycle != 0 {
      var a :| a in log && ClosesRow(t, a, c.bank, k.minPreCycle);
      assert Spacing(t, a, c);
    }
    if k.lastActCycle != 0 {
      var a :| a in log && IsAct(a, c.bank, k.lastActCycle);
      assert Spacing(t, a, c);
    }
  }

  lemma LegalPre(t: Timing, d: Dram, log: Log, c: Command)
    requires WellFormed(d) && BanksOk(t, d, log) && c.Pre? && Addressed(t, d, c) && BankExact(t, d, log, c.bank)
    requires LegalNext(t, log, c)
    ensures Allowed(t, d, c)
  {
    hide LastCas;
    var a :| a in log && HoldsRow(t, a, c.bank, d.banks[c.bank].minPreCycle);
    assert Spacing(t, a, c);
  }

  lemma LegalCas(t: Timing, d: Dram, log: Log, c: Command, w0: bool)
    requires WellFormed(d) && BanksOk(t, d, log) && c.Cas? && Addressed(t, d, c) && BankExact(t, d, log, c.bank)
    requires BusExact(t, d, log, w0) && LegalNext(t, log, c) && AfterStart(t, log, c, w0)
    ensures Allowed(t, d, c)
  {
    hide LastCas;
    var a :| a in log && IsAct(a, c.bank, d.banks[c.bank].lastActCycle);
    assert Spacing(t, a, c);
    if !NoCas(log) || d.minRespCycle != t.tCL + t.tBL + 1 || d.lastCmdWasWrite != w0 {
      var f :| f in log && FreesBus(t, f, d);
      assert Spacing(t, f, c);
    }
  }

  lemma LegalRef(t: Timing, d: Dram, log: Log, c: Command, b: nat)
    requires WellFormed(d) && c.Ref? && b < |d.banks| && BankExact(t, d, log, b) && LegalNext(t, log, c)
    ensures c.cycle >= d.banks[b].minPreCycle
  {
    hide LastCas;
    var k := d.banks[b];
    if k.open {
      var a :| a in log && HoldsRow(t, a, b, k.minPreCycle);
      assert Spacing(t, a, c);
    } else if k.minPreCycle != 0 {
      var a :| a in log && ClosesRow(t, a, b, k.minPreCycle);
      assert Spacing(t, a, c);
    }
  }

  /** Whatever the state allows, the history allows. */
  lemma AllowedLegal(t: Timing, d: Dram, log: Log, c: Command, w0: bool)
    requires Inv(t, d, log) && Exact(t, d, log, w0) && Allowed(t, d, c)
    ensures LegalNext(t, log, c) && AfterStart(t, log, c, w0) && Addressed(t, d, c)
  {
    hide Legal, Spacing, Remembered, BankExact;
    forall a | a in log
      ensures Spacing(t, a, c)
    {
      var i :| 0 <= i < |log| && log[i] == a;
      AllowedSpacing(t, d, log[i], c);
    }
  }

  // ------------------------------------------------------------------ commands in a row

  /** Each command is allowed when it comes, and e is the state after the last. */
  ghost predicate Sent(t: Timing, d: Dram, cmds: Log, e: Dram)
    decreases |cmds|
  {
    ValidTiming(t) && WellFormed(d) &&
    if cmds == [] then e == d
    else Allowed(t, d, cmds[0]) && Sent(t, Apply(t, d, cmds[0]), cmds[1..], e)
  }

  lemma {:induction false} SentExact(t: Timing, d: Dram, log: Log, cmds: Log, e: Dram, w0: bool)
    requires Sent(t, d, cmds, e) && Exact(t, d, log, w0)
    ensures Exact(t, e, log + cmds, w0)
    decreases |cmds|
  {
    hide Exact, Apply, Allowed, WellFormed;
    if cmds == [] {
      assert log + cmds == log;
    } else {
      Applicable(t, d, cmds[0]);
      ApplyExact(t, d, log, cmds[0], w0);
      SentExact(t, Apply(t, d, cmds[0]), log + [cmds[0]], cmds[1..], e, w0);
      assert log + [cmds[0]] + cmds[1..] == log + cmds;
    }
  }

  lemma Applicable(t: Timing, d: Dram, c: Command)
    requires ValidTiming(t) && WellFormed(d) && Allowed(t, d, c)
    ensures t.tRFC >= t.tRP && (!c.Ref? ==> c.bank < |d.banks|) && (c.Ref? ==> c.done >= t.tRP)
  {
  }

  lemma {:induction false} SentAppend(t: Timing, d: Dram, a: Log, m: Dram, b: Log, e: Dram)
    requires Sent(t, d, a, m) && Sent(t, m, b, e)
    ensures Sent(t, d, a + b, e)
    decreases |a|
  {
    hide Apply, Allowed, WellFormed;
    if a == [] {
      assert a + b == b;
    } else {
      Applicable(t, d, a[0]);
      SentAppend(t, Apply(t, d, a[0]), a[1..], m, b, e);
      assert (a + b)[0] == a[0] && (a + b)[1..] == a[1..] + b;
    }
  }

  lemma SentOne(t: Timing, d: Dram, c: Command)
    requires ValidTiming(t) && WellFormed(d) && Allowed(t, d, c)
    ensures Sent(t, d, [c], Apply(t, d, c))
  {
    ApplyRemembersNew(t, d, c);
    assert Sent(t, Apply(t, d, c), [], Apply(t, d, c));
    assert [c][1..] == [];
  }

  /** Opening a row sends allowed commands. */
  lemma OpeningSent(t: Timing, d: Dram, r: Access)
    requires ValidTiming(t) && WellFormed(d) && r.bank < |d.banks|
    ensures Sent(t, d, Opening(t, d, r), Opened(t, d, r))
  {
    hide A.Added, Sent;
    if RowHit(d, r) {
      NothingSent(t, d);
    } else {
      var act := Act(r.bank, ActCycle(t, d, r), r.row, d.banks[r.bank].rank);
      if d.banks[r.bank].open {
        var pre := Pre(r.bank, PreCycle(d, r));
        var m := Apply(t, d, pre);
        SentOne(t, d, pre);
        SentOne(t, m, act);
        SentAppend(t, d, [pre], m, [act], Apply(t, m, act));
        assert [pre] + [act] == Opening(t, d, r);
        assert Apply(t, m, act) == Opened(t, d, r);
      } else {
        SentOne(t, d, act);
        assert Apply(t, d, act) == Opened(t, d, r);
      }
    }
  }

  lemma NothingSent(t: Timing, d: Dram)
    requires ValidTiming(t) && WellFormed(d)
    ensures Sent(t, d, [], d)
  {
  }

  /** And so does serving a request; the state that is computed is the one they lead to. */
  lemma CommandsSent(t: Timing, closedPage: bool, d: Dram, log: Log, r: Access, cur: nat)
    requires Good(t, d, log) && Settled(t, d) && r.bank < |d.banks| && FindMinCmdCycle(t, d, r) <= cur
    ensures WellFormed(d) && Sent(t, d, Commands(t, closedPage, d, r, cur), Issue(t, closedPage, d, r, cur))
  {
    hide Sent, Good, Issue, Opened, Opening, CmdCycle, FindMinCmdCycle, A.Added;
    GoodFacts(t, d, log);
    OpeningSent(t, d, r);
    ColumnAllowed(t, d, r, cur);
    IssueIsCommands(t, closedPage, d, r, cur);
    var o, col := Opened(t, d, r), Column(t, d, r, cur);
    var e := Apply(t, o, col);
    SentOne(t, o, col);
    SentAppend(t, d, Opening(t, d, r), o, [col], e);
    var head := Opening(t, d, r) + [col];
    if closedPage && !r.hitFollows {
      var pre := Pre(r.bank, Issue(t, closedPage, d, r, cur).banks[r.bank].minPreCycle);
      ApplyRemembersNew(t, o, col);
      SentOne(t, e, pre);
      SentAppend(t, d, head, e, [pre], Apply(t, e, pre));
      assert head + [pre] == Commands(t, closedPage, d, r, cur);
    } else {
      assert head == Commands(t, closedPage, d, r, cur);
    }
  }

  lemma RefreshSent(t: Timing, d: Dram, log: Log, cycle: nat)
    requires Good(t, d, log)
    ensures var s := RefreshStart(d.banks, cycle);
            t.tRFC >= t.tRP && Sent(t, d, [Ref(s, s + t.tRFC)], Refresh(t, d, cycle))
  {
    hide Sent, Good;
    GoodFacts(t, d, log);
    var s := RefreshStart(d.banks, cycle);
    SentOne(t, d, Ref(s, s + t.tRFC));
    assert Apply(t, d, Ref(s, s + t.tRFC)) == Refresh(t, d, cycle);
  }

  lemma InitialExact(t: Timing, d: Dram)
    requires ValidTiming(t) && Initial(t, d)
    ensures Exact(t, d, [], d.lastCmdWasWrite)
  {
  }

  lemma {:induction false} RunExact(t: Timing, closedPage: bool, x: Traced, steps: seq<Step>, y: Traced, w0: bool)
    requires Good(t, x.dram, x.log) && Settled(t, x.dram) && Exact(t, x.dram, x.log, w0)
    requires Run(t, closedPage, x, steps, y)
    ensures Exact(t, y.dram, y.log, w0)
    decreases |steps|
  {
    hide Good, Settled, Issue, Refresh, Commands, FindMinCmdCycle, WellFormed, Exact, Sent;
    if steps != [] {
      var m := Next(t, closedPage, x, steps[0]);
      match steps[0] {
        case Serve(r, cur) =>
          IssueGood(t, closedPage, x.dram, x.log, r, cur);
          GoodFacts(t, x.dram, x.log);
          IssueSettled(t, closedPage, x.dram, r, cur);
          CommandsSent(t, closedPage, x.dram, x.log, r, cur);
          SentExact(t, x.dram, x.log, Commands(t, closedPage, x.dram, r, cur), m.dram, w0);
        case DoRefresh(cycle) =>
          RefreshGood(t, x.dram, x.log, cycle);
          RefreshSent(t, x.dram, x.log, cycle);
          var s := RefreshStart(x.dram.banks, cycle);
          SentExact(t, x.dram, x.log, [Ref(s, s + t.tRFC)], m.dram, w0);
      }
      RunExact(t, closedPage, m, steps[1..], y, w0);
    }
  }

  /** In every run the state of the controller allows a command iff the rules allow it after
      the whole history of commands: nothing is forgotten, and nothing is held back longer
      than the rules demand. */
  lemma StateIsHistory(t: Timing, closedPage: bool, d: Dram, steps: seq<Step>, y: Traced, c: Command)
    requires ValidTiming(t) && Initial(t, d) && Run(t, closedPage, Traced(d, []), steps, y)
    ensures WellFormed(y.dram)
    ensures Allowed(t, y.dram, c) <==>
            LegalNext(t, y.log, c) && AfterStart(t, y.log, c, d.lastCmdWasWrite) && Addressed(t, y.dram, c)
    ensures forall b :: 0 <= b < |y.dram.banks| ==> LastColumnIs(LastCas(y.log, b), y.dram.banks[b])
  {
    hide Run, Settled, LegalNext, AfterStart, Addressed, Allowed, LastCas;
    InitialGood(t, d);
    InitialExact(t, d);
    RunGood(t, closedPage, Traced(d, []), steps, y);
    RunExact(t, closedPage, Traced(d, []), steps, y, d.lastCmdWasWrite);
    GoodFacts(t, y.dram, y.log);
    if Allowed(t, y.dram, c) {
      AllowedLegal(t, y.dram, y.log, c, d.lastCmdWasWrite);
    }
    if LegalNext(t, y.log, c) && AfterStart(t, y.log, c, d.lastCmdWasWrite) && Addressed(t, y.dram, c) {
      LegalAllowed(t, y.dram, y.log, c, d.lastCmdWasWrite);
    }
    forall b | 0 <= b < |y.dram.banks|
      ensures LastColumnIs(LastCas(y.log, b), y.dram.banks[b])
    {
      assert BankExact(t, y.dram, y.log, b);
    }
  }

  // --------------------------------------------------------------- as early as possible

  /** Precharges and activations of the bank of r, none before it arrived. */
  predicate ForRequest(r: Access, cmds: Log) {
    forall i :: 0 <= i < |cmds| ==>
      (cmds[i].Pre? || cmds[i].Act?) && cmds[i].bank == r.bank && cmds[i].cycle >= r.arrivalCycle
  }

  lemma {:induction false} ActivationsGrow(t: Timing, d: Dram, r: Access, cmds: Log, e: Dram)
    requires Sent(t, d, cmds, e) && ForRequest(r, cmds) && r.bank < |d.banks|
    ensures |e.banks| == |d.banks| && e.banks[r.bank].lastActCycle >= d.banks[r.bank].lastActCycle
    decreases |cmds|
  {
    hide A.Added;
    if cmds != [] {
      ActivationsGrow(t, Apply(t, d, cmds[0]), r, cmds[1..], e);
    }
  }

  /** However a closed bank is opened, the first activation is not before actCycle. */
  lemma ClosedOpensLate(t: Timing, d: Dram, r: Access, cmds: Log, e: Dram)
    requires Sent(t, d, cmds, e) && ForRequest(r, cmds) && r.bank < |d.banks| && !d.banks[r.bank].open
    requires r.bank < |e.banks| && e.banks[r.bank].open
    ensures e.banks[r.bank].lastActCycle >= ActCycle(t, d, r)
  {
    hide A.Added;
    ActivationsGrow(t, Apply(t, d, cmds[0]), r, cmds[1..], e);
  }

  lemma OpensLate(t: Timing, d: Dram, r: Access, cmds: Log, e: Dram)
    requires Sent(t, d, cmds, e) && ForRequest(r, cmds) && r.bank < |d.banks| && !RowHit(d, r)
    requires r.bank < |e.banks| && RowHit(e, r)
    ensures e.banks[r.bank].lastActCycle >= ActCycle(t, d, r)
  {
    hide A.Added;
    if d.banks[r.bank].open {
      var m := Apply(t, d, cmds[0]);
      ClosedOpensLate(t, m, r, cmds[1..], e);
    } else {
      ClosedOpensLate(t, d, r, cmds, e);
    }
  }

  /** Some allowed way to open the row of r lets it be accessed in cycle x. */
  ghost predicate CanAccess(t: Timing, d: Dram, r: Access, x: nat) {
    exists cmds: Log, e: Dram :: Sent(t, d, cmds, e) && ForRequest(r, cmds) && OpenFor(t, e, r, x)
  }

  predicate OpenFor(t: Timing, e: Dram, r: Access, x: nat) {
    r.bank < |e.banks| && RowHit(e, r) && x >= e.banks[r.bank].lastActCycle + t.tRCD
  }

  /** findMinCmdCycle is the first cycle: for a row hit the first one after the arrival and the
      bank's last column access, and otherwise the first in which any way of opening the row
      allows the access. */
  lemma MinCmdExact(t: Timing, d: Dram, r: Access, x: nat)
    requires ValidTiming(t) && WellFormed(d) && r.bank < |d.banks|
    ensures FindMinCmdCycle(t, d, r) <= x <==>
            if d.banks[r.bank].open && d.banks[r.bank].openRow == r.row
            then r.arrivalCycle <= x && d.banks[r.bank].lastCmdCycle < x
            else CanAccess(t, d, r, x)
  {
    hide Sent, A.Added, OpenFor;
    if !RowHit(d, r) {
      if FindMinCmdCycle(t, d, r) <= x {
        OpeningSent(t, d, r);
        OpeningFor(t, d, r, x);
      }
      if CanAccess(t, d, r, x) {
        var cmds: Log, e: Dram :| Sent(t, d, cmds, e) && ForRequest(r, cmds) && OpenFor(t, e, r, x);
        OpensLateFor(t, d, r, cmds, e, x);
      }
    }
  }

  lemma OpeningFor(t: Timing, d: Dram, r: Access, x: nat)
    requires WellFormed(d) && r.bank < |d.banks| && !RowHit(d, r) && ActCycle(t, d, r) + t.tRCD <= x
    ensures ForRequest(r, Opening(t, d, r)) && OpenFor(t, Opened(t, d, r), r, x)
  {
    hide A.Added;
  }

  lemma OpensLateFor(t: Timing, d: Dram, r: Access, cmds: Log, e: Dram, x: nat)
    requires Sent(t, d, cmds, e) && ForRequest(r, cmds) && r.bank < |d.banks| && !RowHit(d, r) && OpenFor(t, e, r, x)
    ensures WellFormed(d) && x >= ActCycle(t, d, r) + t.tRCD
  {
    hide Sent;
    SentFacts(t, d, cmds, e);
    OpensLate(t, d, r, cmds, e);
  }

  lemma SentFacts(t: Timing, d: Dram, cmds: Log, e: Dram)
    requires Sent(t, d, cmds, e)
    ensures ValidTiming(t) && WellFormed(d)
  {
  }

  /** The column command of a ready request goes out in the first cycle, from now on, that the
      bank, the bus and the turnaround from a write allow. */
  lemma CommandEarliest(t: Timing, d: Dram, r: Access, cur: nat, x: nat)
    requires ValidTiming(t) && WellFormed(d) && r.bank < |d.banks| && Settled(t, d)
    requires FindMinCmdCycle(t, d, r) <= cur
    ensures WellFormed(Opened(t, d, r))
    ensures CmdCycle(t, d, r, cur) <= x <==>
            cur <= x && Allowed(t, Opened(t, d, r), Cas(r.bank, x, r.row, r.write, r.rowHitSeq))
  {
    hide A.Added;
  }

  /** A refresh starts in the first cycle in which no bank has to be kept open or has its last
      column access ahead. */
  lemma {:induction false} RefreshEarliest(banks: seq<Bank>, cycle: nat, x: nat)
    ensures RefreshStart(banks, cycle) <= x <==>
            cycle <= x && forall b :: 0 <= b < |banks| ==> banks[b].minPreCycle <= x && banks[b].lastCmdCycle <= x
    decreases |banks|
  {
    if banks != [] {
      var n := |banks| - 1;
      RefreshEarliest(banks[..n], cycle, x);
      assert forall b :: 0 <= b < n ==> banks[..n][b] == banks[b];
    }
  }
}

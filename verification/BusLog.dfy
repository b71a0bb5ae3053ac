/** The data-bus log of the detailed memory model: a bounded, sorted list of the bursts on a
    channel, in which each new burst looks for a free slot. */
module BusLog {
  import opened Insertion

  /** [start, end) */
  datatype Burst = Burst(start: nat, end: nat)

  /** tTrans: length of a burst; tRTRS: gap between bursts; depth: accessLogDepth. */
  datatype Bus = Bus(tTrans: nat, tRTRS: nat, depth: nat)

  predicate ValidBus(p: Bus) {
    p.tTrans >= 1 && p.depth >= 1
  }

  /** The loop of CalcInterIssueCycle, from the i-th log entry on. */
  function FindSlot(p: Bus, log: seq<Burst>, i: nat, tStart: nat): (t: nat)
    requires i <= |log|
    ensures t >= tStart
    decreases |log| - i
  {
    if i == |log| then tStart
    else
      var tEnd := tStart + p.tTrans + p.tRTRS;
      var busStart, busEnd := log[i].start, log[i].end + p.tRTRS;
      if (busStart < tEnd <= busEnd) || (busStart <= tStart < busEnd) then
        FindSlot(p, log, i + 1, busEnd)
      else if busStart > tEnd then tStart
      else FindSlot(p, log, i + 1, tStart)
  }

  /** Pairs compare by start, then by end. */
  predicate Less(a: Burst, b: Burst) {
    a.start < b.start || (a.start == b.start && a.end < b.end)
  }

  /** Sorting a sorted log to which b has been appended is an insertion. */
  lemma InsertSorts(log: seq<Burst>, b: Burst)
    requires InOrder(log, Less)
    ensures InOrder(Insert(log, b, Less), Less)
    ensures multiset(Insert(log, b, Less)) == multiset(log) + multiset{b}
  {
    hide Insert, InOrder;
    var k := InsertInOrder(log, b, Less);
    InsertMultiset(log, b, Less);
  }

  /** UpdateDataBusCycle. */
  function Record(p: Bus, log: seq<Burst>, b: Burst): (r: seq<Burst>)
    requires p.depth >= 1
  {
    var l := Insert(log, b, Less);
    if |l| > p.depth then [Burst(0, l[1].end)] + l[2..] else l
  }

  /** The bus part of LatencySimulate with power-down penalty pd: the burst of a column command
      that may issue from cycle from on, wait cycles before its data. */
  function NextBurst(p: Bus, log: seq<Burst>, from: nat, wait: nat, pd: nat): (b: Burst) {
    var t := FindSlot(p, log, 0, from + wait) + pd;
    Burst(t, t + p.tTrans)
  }

  // --------------------------------------------------------------- free slots

  predicate Apart(p: Bus, a: Burst, b: Burst) {
    a.end + p.tRTRS <= b.start || b.end + p.tRTRS <= a.start
  }

  /** Bursts in time order, none shorter than a transfer, with the gap between them. */
  predicate LogOk(p: Bus, log: seq<Burst>) {
    && (forall i :: 0 <= i < |log| ==> log[i].start + p.tTrans <= log[i].end)
    && (forall i, j :: 0 <= i < j < |log| ==> log[i].end + p.tRTRS <= log[j].start)
  }

  /** Once the slot ends before an entry, the search stops at the next one. */
  lemma SlotBefore(p: Bus, log: seq<Burst>, i: nat, tStart: nat)
    requires ValidBus(p) && LogOk(p, log) && 0 < i <= |log| && tStart + p.tTrans + p.tRTRS <= log[i - 1].start
    ensures FindSlot(p, log, i, tStart) == tStart
    ensures forall j :: i <= j < |log| ==> tStart + p.tTrans + p.tRTRS <= log[j].start
  {
  }

  /** The search leaves every entry it passes behind, or stops in front of it. */
  lemma {:induction false} SlotIsFree(p: Bus, log: seq<Burst>, i: nat, tStart: nat)
    requires ValidBus(p) && LogOk(p, log) && i <= |log|
    requires forall j :: 0 <= j < i ==> log[j].end + p.tRTRS <= tStart
    ensures var t := FindSlot(p, log, i, tStart);
            forall j :: 0 <= j < |log| ==> Apart(p, log[j], Burst(t, t + p.tTrans))
    decreases |log| - i
  {
    hide Apart, LogOk;
    if i == |log| {
      BehindApart(p, log, i, tStart);
    } else {
      var tEnd := tStart + p.tTrans + p.tRTRS;
      var busStart, busEnd := log[i].start, log[i].end + p.tRTRS;
      EndsGrow(p, log, i);
      if (busStart < tEnd <= busEnd) || (busStart <= tStart < busEnd) {
        SlotIsFree(p, log, i + 1, busEnd);
      } else if tEnd <= busStart {
        SlotBefore(p, log, i + 1, tStart);
        BehindApart(p, log, i, tStart);
        AheadApart(p, log, i, tStart);
      } else {
        SlotIsFree(p, log, i + 1, tStart);
      }
    }
  }

  /** And it returns the first free slot: every earlier one, from tStart on, is too close to an
      entry of the log. */
  lemma {:induction false} SlotIsFirst(p: Bus, log: seq<Burst>, i: nat, tStart: nat, t: nat) returns (j: nat)
    requires ValidBus(p) && LogOk(p, log) && i <= |log| && tStart <= t < FindSlot(p, log, i, tStart)
    ensures i <= j < |log| && !Apart(p, log[j], Burst(t, t + p.tTrans))
    decreases |log| - i
  {
    var tEnd := tStart + p.tTrans + p.tRTRS;
    var busStart, busEnd := log[i].start, log[i].end + p.tRTRS;
    if (busStart < tEnd <= busEnd) || (busStart <= tStart < busEnd) {
      if t < busEnd {
        j := i;
      } else {
        j := SlotIsFirst(p, log, i + 1, busEnd, t);
      }
    } else {
      j := SlotIsFirst(p, log, i + 1, tStart, t);
    }
  }

  /** Exactly that slot: free, and none before it is. */
  lemma SlotExact(p: Bus, log: seq<Burst>, from: nat, t: nat)
    requires ValidBus(p) && LogOk(p, log)
    ensures t == FindSlot(p, log, 0, from) <==>
            from <= t && !TooClose(p, log, t) && forall u: nat :: from <= u < t ==> TooClose(p, log, u)
  {
    hide LogOk, Apart, FindSlot;
    var s := FindSlot(p, log, 0, from);
    SlotIsFree(p, log, 0, from);
    assert !TooClose(p, log, s);
    forall u: nat | from <= u < s
      ensures TooClose(p, log, u)
    {
      var j := SlotIsFirst(p, log, 0, from, u);
    }
  }

  ghost predicate TooClose(p: Bus, log: seq<Burst>, t: nat) {
    exists j :: 0 <= j < |log| && !Apart(p, log[j], Burst(t, t + p.tTrans))
  }

  lemma EndsGrow(p: Bus, log: seq<Burst>, i: nat)
    requires LogOk(p, log) && i < |log|
    ensures log[i].start + p.tTrans <= log[i].end
    ensures forall j :: 0 <= j <= i ==> log[j].end <= log[i].end
  {
  }

  lemma BehindApart(p: Bus, log: seq<Burst>, i: nat, t: nat)
    requires i <= |log| && forall j :: 0 <= j < i ==> log[j].end + p.tRTRS <= t
    ensures forall j :: 0 <= j < i ==> Apart(p, log[j], Burst(t, t + p.tTrans))
  {
  }

  lemma AheadApart(p: Bus, log: seq<Burst>, i: nat, t: nat)
    requires LogOk(p, log) && i < |log| && t + p.tTrans + p.tRTRS <= log[i].start
    ensures forall j :: i <= j < |log| ==> Apart(p, log[j], Burst(t, t + p.tTrans))
  {
  }

  /** Comparing the pairs tells on which side of an entry a burst lies. */
  lemma LessIsBefore(p: Bus, a: Burst, b: Burst)
    requires p.tTrans >= 1 && a.start + p.tTrans <= a.end && b.start + p.tTrans <= b.end && Apart(p, a, b)
    ensures if Less(b, a) then b.end + p.tRTRS <= a.start else a.end + p.tRTRS <= b.start
  {
  }

  /** A burst clear of the log goes where it belongs. */
  lemma InsertShape(p: Bus, log: seq<Burst>, b: Burst) returns (k: nat)
    requires ValidBus(p) && LogOk(p, log) && b.end == b.start + p.tTrans
    requires forall j :: 0 <= j < |log| ==> Apart(p, log[j], b)
    ensures k <= |log| && Insert(log, b, Less) == log[..k] + [b] + log[k..]
    ensures forall j :: 0 <= j < k ==> log[j].end + p.tRTRS <= b.start
    ensures forall j :: k <= j < |log| ==> b.end + p.tRTRS <= log[j].start
  {
    hide Less, Apart, Insert;
    k := InsertSplit(log, b, Less);
    if k > 0 {
      LessIsBefore(p, log[k - 1], b);
    }
    if k < |log| {
      LessIsBefore(p, log[k], b);
    }
  }

  /** All depth entries are kept; only when there are more, the oldest is dropped and the next
      one stretched back over it. */
  lemma RecordExact(p: Bus, log: seq<Burst>, b: Burst)
    requires p.depth >= 1 && InOrder(log, Less)
    ensures var r, l := Record(p, log, b), Insert(log, b, Less);
            && InOrder(l, Less) && multiset(l) == multiset(log) + multiset{b}
            && (|log| < p.depth ==> r == l)
            && (|log| >= p.depth ==>
                  && |r| == |log| && r[0] == Burst(0, l[1].end)
                  && forall i :: 1 <= i < |r| ==> r[i] == l[i + 1])
  {
    hide Insert, InOrder, Less;
    InsertSorts(log, b);
  }

  // ---------------------------------------------------------------- the history

  /** A burst lies within an entry of the log: its own, or the first one stretched to zero. */
  ghost predicate Covered(log: seq<Burst>, b: Burst) {
    exists i :: 0 <= i < |log| && log[i].start <= b.start && b.end <= log[i].end
  }

  ghost predicate AllApart(p: Bus, h: seq<Burst>) {
    forall i, j :: 0 <= i < j < |h| ==> Apart(p, h[i], h[j])
  }

  ghost predicate AllCovered(log: seq<Burst>, h: seq<Burst>) {
    forall i :: 0 <= i < |h| ==> Covered(log, h[i])
  }

  ghost predicate Inv(p: Bus, log: seq<Burst>, h: seq<Burst>) {
    ValidBus(p) && LogOk(p, log) && AllCovered(log, h) && AllApart(p, h)
  }

  lemma RecordLogOk(p: Bus, log: seq<Burst>, b: Burst, k: nat)
    requires ValidBus(p) && LogOk(p, log) && b.end == b.start + p.tTrans && k <= |log|
    requires Insert(log, b, Less) == log[..k] + [b] + log[k..]
    requires forall j :: 0 <= j < k ==> log[j].end + p.tRTRS <= b.start
    requires forall j :: k <= j < |log| ==> b.end + p.tRTRS <= log[j].start
    ensures LogOk(p, Insert(log, b, Less)) && LogOk(p, Record(p, log, b))
  {
    hide Insert;
    var l := Insert(log, b, Less);
    forall i | 0 <= i < |l|
      ensures l[i] == if i < k then log[i] else if i == k then b else log[i - 1]
    {
    }
    TrimLogOk(p, l);
  }

  lemma TrimLogOk(p: Bus, l: seq<Burst>)
    requires ValidBus(p) && LogOk(p, l)
    ensures |l| > 1 ==> LogOk(p, [Burst(0, l[1].end)] + l[2..])
  {
    if |l| > 1 {
      var r := [Burst(0, l[1].end)] + l[2..];
      assert forall i :: 0 < i < |r| ==> r[i] == l[i + 1];
    }
  }

  lemma InsertCovers(log: seq<Burst>, b: Burst, k: nat, x: Burst)
    requires k <= |log| && Insert(log, b, Less) == log[..k] + [b] + log[k..] && (Covered(log, x) || x == b)
    ensures Covered(Insert(log, b, Less), x)
  {
    hide Insert;
    var l := Insert(log, b, Less);
    assert l[k] == b;
    if x != b {
      var i :| 0 <= i < |log| && log[i].start <= x.start && x.end <= log[i].end;
      assert l[if i < k then i else i + 1] == log[i];
    }
  }

  /** Dropping the first entry and stretching the next one forgets nothing. */
  lemma TrimCovers(p: Bus, l: seq<Burst>, x: Burst)
    requires LogOk(p, l) && |l| > 1 && Covered(l, x)
    ensures Covered([Burst(0, l[1].end)] + l[2..], x)
  {
    var r := [Burst(0, l[1].end)] + l[2..];
    var i :| 0 <= i < |l| && l[i].start <= x.start && x.end <= l[i].end;
    if i < 2 {
      assert r[0].start <= x.start && x.end <= r[0].end;
    } else {
      assert r[i - 1] == l[i];
    }
  }

  lemma RecordCovers(p: Bus, log: seq<Burst>, b: Burst, k: nat, x: Burst)
    requires ValidBus(p) && LogOk(p, Insert(log, b, Less))
    requires k <= |log| && Insert(log, b, Less) == log[..k] + [b] + log[k..]
    requires Covered(log, x) || x == b
    ensures Covered(Record(p, log, b), x)
  {
    hide Insert, LogOk, Covered;
    InsertCovers(log, b, k, x);
    if |log| + 1 > p.depth {
      TrimCovers(p, Insert(log, b, Less), x);
    }
  }

  /** A new burst is clear of every burst ever issued, remembered or not. */
  lemma ClearOfHistory(p: Bus, log: seq<Burst>, h: seq<Burst>, b: Burst)
    requires AllCovered(log, h) && forall j :: 0 <= j < |log| ==> Apart(p, log[j], b)
    ensures forall i :: 0 <= i < |h| ==> Apart(p, h[i], b)
  {
    forall i | 0 <= i < |h|
      ensures Apart(p, h[i], b)
    {
      assert Covered(log, h[i]);
    }
  }

  /** Recording a burst that is clear of the log. */
  lemma RecordInv(p: Bus, log: seq<Burst>, h: seq<Burst>, b: Burst)
    requires Inv(p, log, h) && b.end == b.start + p.tTrans && forall j :: 0 <= j < |log| ==> Apart(p, log[j], b)
    ensures Inv(p, Record(p, log, b), h + [b])
  {
    hide Insert, Record, Covered, Apart, LogOk;
    var k := InsertShape(p, log, b);
    RecordLogOk(p, log, b, k);
    ClearOfHistory(p, log, h, b);
    forall i | 0 <= i < |h + [b]|
      ensures Covered(Record(p, log, b), (h + [b])[i])
    {
      RecordCovers(p, log, b, k, (h + [b])[i]);
    }
  }

  lemma StepInv(p: Bus, log: seq<Burst>, h: seq<Burst>, from: nat, wait: nat)
    requires Inv(p, log, h)
    ensures var b := NextBurst(p, log, from, wait, 0);
            Inv(p, Record(p, log, b), h + [b])
  {
    hide Record, Apart, LogOk, FindSlot;
    SlotIsFree(p, log, 0, from + wait);
    RecordInv(p, log, h, NextBurst(p, log, from, wait, 0));
  }

  // -------------------------------------------------------------------- all runs

  /** A column command that may issue from cycle from on, with its data latency. */
  datatype Command = Command(from: nat, wait: nat)

  /** The bursts of a sequence of commands, in the order of the commands. */
  function Run(p: Bus, log: seq<Burst>, cmds: seq<Command>): (bursts: seq<Burst>)
    requires p.depth >= 1
    ensures |bursts| == |cmds|
    ensures forall i :: 0 <= i < |cmds| ==>
              bursts[i].start >= cmds[i].from + cmds[i].wait && bursts[i].end == bursts[i].start + p.tTrans
    decreases |cmds|
  {
    if cmds == [] then []
    else
      var b := NextBurst(p, log, cmds[0].from, cmds[0].wait, 0);
      [b] + Run(p, Record(p, log, b), cmds[1..])
  }

  lemma {:induction false} RunApart(p: Bus, log: seq<Burst>, h: seq<Burst>, cmds: seq<Command>)
    requires Inv(p, log, h)
    ensures AllApart(p, h + Run(p, log, cmds))
    decreases |cmds|
  {
    hide LogOk, AllCovered, AllApart, Record, NextBurst;
    if cmds == [] {
      assert h + Run(p, log, cmds) == h;
    } else {
      var b := NextBurst(p, log, cmds[0].from, cmds[0].wait, 0);
      StepInv(p, log, h, cmds[0].from, cmds[0].wait);
      RunApart(p, Record(p, log, b), h + [b], cmds[1..]);
      assert h + [b] + Run(p, Record(p, log, b), cmds[1..]) == h + Run(p, log, cmds);
    }
  }

  /** With power-down off, all bursts ever issued on a channel are pairwise disjoint with the
      gap between them, however few the log remembers and in whatever order the commands come. */
  lemma BurstsNeverCollide(p: Bus, cmds: seq<Command>)
    requires ValidBus(p)
    ensures AllApart(p, Run(p, [], cmds))
  {
    hide Run, AllApart, Inv;
    IdleInv(p, 1);
    assert [] + Run(p, [], cmds) == Run(p, [], cmds);
    RunApart(p, [], [], cmds);
  }

  // ------------------------------------------------------------------ power-down

  lemma UnshiftedApart(p: Bus, c1: Command, c2: Command)
    requires ValidBus(p)
    ensures SecondApart(p, c1, c2, 0)
  {
    hide FindSlot, Record;
    FirstAlone(p, c1);
    var a := NextBurst(p, [], c1.from, c1.wait, 0);
    SlotIsFree(p, [a], 0, c2.from + c2.wait);
    assert Apart(p, [a][0], NextBurst(p, [a], c2.from, c2.wait, 0));
  }

  lemma ShiftCollides(p: Bus, pd: nat)
    requires ValidBus(p) && pd >= 1
    ensures var slot := p.tTrans + p.tRTRS;
            !SecondApart(p, Command(if pd >= slot then pd else slot, 0), Command(0, 0), pd)
  {
    hide Record;
    var slot := p.tTrans + p.tRTRS;
    var c1 := Command(if pd >= slot then pd else slot, 0);
    FirstAlone(p, c1);
    var a := NextBurst(p, [], c1.from, c1.wait, 0);
    assert FindSlot(p, [a], 1, 0) == 0;
    assert FindSlot(p, [a], 0, 0) == 0;
  }

  /** A penalty moves a burst after its slot has been chosen: two commands stay clear of each
      other for certain exactly when there is none. */
  lemma ShiftExact(p: Bus, pd: nat)
    requires ValidBus(p)
    ensures (forall c1: Command, c2: Command :: SecondApart(p, c1, c2, pd)) <==> pd == 0
  {
    hide SecondApart;
    if pd == 0 {
      forall c1: Command, c2: Command
        ensures SecondApart(p, c1, c2, pd)
      {
        UnshiftedApart(p, c1, c2);
      }
    } else {
      ShiftCollides(p, pd);
    }
  }

  ghost predicate SecondApart(p: Bus, c1: Command, c2: Command, pd: nat)
    requires p.depth >= 1
  {
    var a := NextBurst(p, [], c1.from, c1.wait, 0);
    Apart(p, a, NextBurst(p, Record(p, [], a), c2.from, c2.wait, pd))
  }

  lemma FirstAlone(p: Bus, c: Command)
    requires ValidBus(p)
    ensures var a := NextBurst(p, [], c.from, c.wait, 0);
            a == Burst(c.from + c.wait, c.from + c.wait + p.tTrans) && Record(p, [], a) == [a]
  {
  }

  /** powerDownCycle 0 switches power-down off; tXP is the cost of leaving it. */
  datatype Power = Power(powerDownCycle: nat, tXP: nat)

  /** GetPowerDownPenalty: the rank has been idle for longer than powerDownCycle. */
  function Penalty(w: Power, lastAccess: nat, arrival: nat): (pd: nat) {
    if w.powerDownCycle != 0 && arrival > lastAccess + w.powerDownCycle then w.tXP else 0
  }

  /** An access: the bank constraints allow its column command from cycle from on. */
  datatype Access = Access(rank: nat, arrival: nat, from: nat, wait: nat)

  predicate Legal(ranks: nat, a: Access) {
    a.rank < ranks && a.arrival <= a.from
  }

  /** The log, and the last access cycle of each rank. */
  datatype State = State(log: seq<Burst>, last: seq<nat>)

  function AccessBurst(p: Bus, w: Power, s: State, a: Access): (b: Burst)
    requires a.rank < |s.last|
  {
    NextBurst(p, s.log, a.from, a.wait, Penalty(w, s.last[a.rank], a.arrival))
  }

  function AfterAccess(p: Bus, w: Power, s: State, a: Access): (t: State)
    requires p.depth >= 1 && a.rank < |s.last|
    ensures |t.last| == |s.last|
  {
    var b := AccessBurst(p, w, s, a);
    State(Record(p, s.log, b), s.last[a.rank := if b.end >= s.last[a.rank] then b.end else s.last[a.rank]])
  }

  ghost predicate AllLegal(ranks: nat, accs: seq<Access>) {
    forall i :: 0 <= i < |accs| ==> Legal(ranks, accs[i])
  }

  /** The bursts of a sequence of accesses, in the order of the accesses. */
  ghost function Bursts(p: Bus, w: Power, s: State, accs: seq<Access>): (bursts: seq<Burst>)
    requires p.depth >= 1 && AllLegal(|s.last|, accs)
    decreases |accs|
  {
    if accs == [] then []
    else [AccessBurst(p, w, s, accs[0])] + Bursts(p, w, AfterAccess(p, w, s, accs[0]), accs[1..])
  }

  function Idle(ranks: nat): (s: State)
    ensures |s.last| == ranks && s.log == []
  {
    State([], seq(ranks, _ => 0))
  }

  /** Power-down cannot shift a burst onto another one. */
  predicate Harmless(w: Power, ranks: nat) {
    w.tXP == 0 || w.powerDownCycle == 0 || ranks == 1
  }

  /** With a single rank, no remembered burst ends after its last access. */
  ghost predicate Recent(s: State) {
    |s.last| == 1 ==> forall i :: 0 <= i < |s.log| ==> s.log[i].end <= s.last[0]
  }

  lemma RecordEnds(p: Bus, log: seq<Burst>, b: Burst, m: nat)
    requires p.depth >= 1 && b.end <= m && forall i :: 0 <= i < |log| ==> log[i].end <= m
    ensures forall i :: 0 <= i < |Record(p, log, b)| ==> Record(p, log, b)[i].end <= m
  {
    hide Insert;
    var k := InsertSplit(log, b, Less);
    var l, r := Insert(log, b, Less), Record(p, log, b);
    assert forall i :: 0 <= i < |l| ==> l[i].end <= m;
    if |l| > p.depth {
      assert forall i :: 0 < i < |r| ==> r[i] == l[i + 1];
    }
  }

  /** The penalised burst comes after everything on the bus, so shifting it is harmless. */
  lemma ShiftedClear(p: Bus, w: Power, s: State, a: Access, j: nat)
    requires ValidBus(p) && LogOk(p, s.log) && Recent(s) && Legal(|s.last|, a) && Harmless(w, |s.last|) && j < |s.log|
    ensures Apart(p, s.log[j], AccessBurst(p, w, s, a))
  {
    hide FindSlot;
    SlotIsFree(p, s.log, 0, a.from + a.wait);
    var t := FindSlot(p, s.log, 0, a.from + a.wait);
    assert Apart(p, s.log[j], Burst(t, t + p.tTrans));
  }

  lemma AccessInv(p: Bus, w: Power, s: State, h: seq<Burst>, a: Access)
    requires Inv(p, s.log, h) && Recent(s) && Legal(|s.last|, a) && Harmless(w, |s.last|)
    ensures Inv(p, AfterAccess(p, w, s, a).log, h + [AccessBurst(p, w, s, a)]) && Recent(AfterAccess(p, w, s, a))
  {
    hide LogOk, Apart, Record, Penalty, AllCovered, AllApart, Harmless;
    var b, t := AccessBurst(p, w, s, a), AfterAccess(p, w, s, a);
    forall j | 0 <= j < |s.log|
      ensures Apart(p, s.log[j], b)
    {
      ShiftedClear(p, w, s, a, j);
    }
    RecordInv(p, s.log, h, b);
    if |s.last| == 1 {
      RecordEnds(p, s.log, b, t.last[0]);
    }
  }

  lemma {:induction false} HarmlessApart(p: Bus, w: Power, s: State, h: seq<Burst>, accs: seq<Access>)
    requires Inv(p, s.log, h) && Recent(s) && AllLegal(|s.last|, accs) && Harmless(w, |s.last|)
    ensures AllApart(p, h + Bursts(p, w, s, accs))
    decreases |accs|
  {
    hide Inv, AllApart, Recent, Harmless, AccessBurst, AfterAccess;
    InvBus(p, s.log, h);
    if accs == [] {
      assert h + Bursts(p, w, s, accs) == h;
      InvApart(p, s.log, h);
    } else {
      assert Legal(|s.last|, accs[0]);
      var b, t := AccessBurst(p, w, s, accs[0]), AfterAccess(p, w, s, accs[0]);
      AccessInv(p, w, s, h, accs[0]);
      HarmlessApart(p, w, t, h + [b], accs[1..]);
      assert h + [b] + Bursts(p, w, t, accs[1..]) == h + Bursts(p, w, s, accs);
    }
  }

  lemma InvApart(p: Bus, log: seq<Burst>, h: seq<Burst>)
    requires Inv(p, log, h)
    ensures AllApart(p, h)
  {
  }

  lemma InvBus(p: Bus, log: seq<Burst>, h: seq<Burst>)
    requires Inv(p, log, h)
    ensures ValidBus(p)
  {
  }

  /** The first accesses of two idle ranks, in the same cycle, late enough for both to be powered
      down.  The bank of the first is busy a little longer: the second is put before it and
      then shifted onto it. */
  function Pair(p: Bus, w: Power, setup: nat, wait: nat, at: nat): (accs: seq<Access>) {
    var slot := p.tTrans + p.tRTRS;
    var busy := if slot > w.tXP then slot - w.tXP else 0;
    [Access(0, at, at + setup + busy, wait), Access(1, at, at + setup, wait)]
  }

  /** Arrivals never go back, as behind a scheduler queue. */
  ghost predicate InArrivalOrder(accs: seq<Access>) {
    forall i, j :: 0 <= i < j < |accs| ==> accs[i].arrival <= accs[j].arrival
  }

  lemma PairBursts(p: Bus, w: Power, setup: nat, wait: nat, at: nat, ranks: nat)
    requires ValidBus(p) && ranks >= 2 && w.tXP >= 1 && 1 <= w.powerDownCycle < at
    ensures var accs := Pair(p, w, setup, wait, at);
            var b1, b2 := accs[0].from + wait + w.tXP, accs[1].from + wait + w.tXP;
            && AllLegal(ranks, accs)
            && Bursts(p, w, Idle(ranks), accs) == [Burst(b1, b1 + p.tTrans), Burst(b2, b2 + p.tTrans)]
  {
    hide AccessBurst, AfterAccess;
    var accs := Pair(p, w, setup, wait, at);
    PairAccesses(p, w, setup, wait, at, ranks);
    var t := AfterAccess(p, w, Idle(ranks), accs[0]);
    assert accs[1..] == [accs[1]] && accs[1..][1..] == [];
    assert Bursts(p, w, AfterAccess(p, w, t, accs[1]), []) == [];
    assert Bursts(p, w, t, [accs[1]]) == [AccessBurst(p, w, t, accs[1])];
  }

  lemma PairAccesses(p: Bus, w: Power, setup: nat, wait: nat, at: nat, ranks: nat)
    requires ValidBus(p) && ranks >= 2 && w.tXP >= 1 && 1 <= w.powerDownCycle < at
    ensures var accs, s := Pair(p, w, setup, wait, at), Idle(ranks);
            var b1, b2 := accs[0].from + wait + w.tXP, accs[1].from + wait + w.tXP;
            && AccessBurst(p, w, s, accs[0]) == Burst(b1, b1 + p.tTrans)
            && AccessBurst(p, w, AfterAccess(p, w, s, accs[0]), accs[1]) == Burst(b2, b2 + p.tTrans)
  {
    var accs, s := Pair(p, w, setup, wait, at), Idle(ranks);
    var b := AccessBurst(p, w, s, accs[0]);
    assert b.start == accs[0].from + wait + w.tXP && Record(p, [], b) == [b];
    var t := AfterAccess(p, w, s, accs[0]);
    assert t.log == [b] && t.last[1] == 0;
    assert FindSlot(p, [b], 1, accs[1].from + wait) == accs[1].from + wait;
    assert FindSlot(p, [b], 0, accs[1].from + wait) == accs[1].from + wait;
  }

  lemma PowerDownCollides(p: Bus, w: Power, setup: nat, wait: nat, at: nat, ranks: nat)
    requires ValidBus(p) && ranks >= 2 && w.tXP >= 1 && 1 <= w.powerDownCycle < at
    ensures var accs := Pair(p, w, setup, wait, at);
            AllLegal(ranks, accs) && InArrivalOrder(accs) && !AllApart(p, Bursts(p, w, Idle(ranks), accs))
  {
    hide Bursts;
    PairBursts(p, w, setup, wait, at, ranks);
    var accs := Pair(p, w, setup, wait, at);
    var bs := Bursts(p, w, Idle(ranks), accs);
    assert !Apart(p, bs[0], bs[1]);
  }

  /** Exactly when bursts can never collide, for every bus and power configuration: leaving
      power-down is free, power-down is off, or there is only one rank.  It makes no difference
      whether accesses arrive in order. */
  lemma PowerDownExact(p: Bus, w: Power, ranks: nat)
    requires ValidBus(p) && ranks >= 1
    ensures (forall accs: seq<Access> :: AllLegal(ranks, accs) ==> AllApart(p, Bursts(p, w, Idle(ranks), accs)))
       <==> w.tXP == 0 || w.powerDownCycle == 0 || ranks == 1
    ensures (forall accs: seq<Access> :: AllLegal(ranks, accs) && InArrivalOrder(accs) ==>
               AllApart(p, Bursts(p, w, Idle(ranks), accs)))
       <==> w.tXP == 0 || w.powerDownCycle == 0 || ranks == 1
  {
    hide AllApart, Bursts, AllLegal, InArrivalOrder;
    if Harmless(w, ranks) {
      forall accs: seq<Access> | AllLegal(ranks, accs)
        ensures AllApart(p, Bursts(p, w, Idle(ranks), accs))
      {
        IdleInv(p, ranks);
        HarmlessApart(p, w, Idle(ranks), [], accs);
        assert [] + Bursts(p, w, Idle(ranks), accs) == Bursts(p, w, Idle(ranks), accs);
      }
    } else {
      PowerDownCollides(p, w, 0, 0, w.powerDownCycle + 1, ranks);
    }
  }

  lemma IdleInv(p: Bus, ranks: nat)
    requires ValidBus(p)
    ensures Inv(p, Idle(ranks).log, []) && Recent(Idle(ranks))
  {
  }

  // ------------------------------------------------------------------ the object

  class Channel {
    const p: Bus
    const power: Power
    var accessLog: seq<Burst>
    var lastAccess: seq<nat>       // per rank

    constructor (bus: Bus, w: Power, ranks: nat)
      ensures p == bus && power == w && Abs() == Idle(ranks)
    {
      p, power := bus, w;
      accessLog, lastAccess := [], seq(ranks, _ => 0);
    }

    ghost function Abs(): (s: State)
      reads this
    {
      State(accessLog, lastAccess)
    }

    method GetPowerDownPenalty(rank: nat, arrival: nat) returns (penalty: nat)
      requires rank < |lastAccess|
      ensures penalty == Penalty(power, lastAccess[rank], arrival)
      ensures penalty == if 0 < power.powerDownCycle < arrival - lastAccess[rank] then power.tXP else 0
    {
      penalty := 0;
      if power.powerDownCycle != 0 {
        if arrival > lastAccess[rank] + power.powerDownCycle {
          penalty := power.tXP;
        }
      }
    }

    method CalcInterIssueCycle(from: nat, wait: nat) returns (issue: nat)
      ensures issue + wait == FindSlot(p, accessLog, 0, from + wait)
      ensures ValidBus(p) && LogOk(p, accessLog) ==>
                && issue >= from && !TooClose(p, accessLog, issue + wait)
                && forall u: nat :: from + wait <= u < issue + wait ==> TooClose(p, accessLog, u)
    {
      var tSlot := p.tTrans + p.tRTRS;
      var tStart := from + wait;
      var tEnd := tStart + tSlot;
      var i := 0;
      while i < |accessLog|
        invariant i <= |accessLog| && tEnd == tStart + tSlot && tStart >= from + wait
        invariant FindSlot(p, accessLog, 0, from + wait) == FindSlot(p, accessLog, i, tStart)
      {
        var busStart := accessLog[i].start;
        var busEnd := accessLog[i].end + p.tRTRS;
        if (busStart < tEnd <= busEnd) || (busStart <= tStart < busEnd) {
          tStart := busEnd;
          tEnd := tStart + tSlot;
        } else if busStart > tEnd {
          break;
        }
        i := i + 1;
      }
      issue := tStart - wait;
      if ValidBus(p) && LogOk(p, accessLog) {
        SlotExact(p, accessLog, from + wait, issue + wait);
      }
    }

    /** Sort in the new burst, from the back. */
    method SortIn(b: Burst)
      modifies `accessLog
      ensures accessLog == Insert(old(accessLog), b, Less)
    {
      var k := |accessLog|;
      assert accessLog[..k] == accessLog;
      while k > 0 && Less(b, accessLog[k - 1])
        invariant 0 <= k <= |accessLog| && accessLog == old(accessLog)
        invariant Insert(accessLog, b, Less) == Insert(accessLog[..k], b, Less) + accessLog[k..]
      {
        assert accessLog[..k][..k - 1] == accessLog[..k - 1];
        k := k - 1;
      }
      accessLog := accessLog[..k] + [b] + accessLog[k..];
    }

    method UpdateDataBusCycle(start: nat, end: nat)
      requires p.depth >= 1
      modifies `accessLog
      ensures accessLog == Record(p, old(accessLog), Burst(start, end))
    {
      hide Insert;
      SortIn(Burst(start, end));
      if |accessLog| > p.depth {
        accessLog := accessLog[1..];
        accessLog := accessLog[0 := Burst(0, accessLog[0].end)];
      }
    }

    /** The bus part of LatencySimulate. */
    method IssueBurst(from: nat, wait: nat, pd: nat) returns (b: Burst)
      requires p.depth >= 1
      modifies `accessLog
      ensures b == NextBurst(p, old(accessLog), from, wait, pd) && accessLog == Record(p, old(accessLog), b)
    {
      hide Record, FindSlot;
      var issue := CalcInterIssueCycle(from, wait);
      var busEnd := issue + wait + pd + p.tTrans;
      b := Burst(busEnd - p.tTrans, busEnd);
      UpdateDataBusCycle(busEnd - p.tTrans, busEnd);
    }

    /** What LatencySimulate does to the bus and the rank. */
    method SimulateAccess(a: Access) returns (b: Burst)
      requires p.depth >= 1 && Legal(|lastAccess|, a)
      modifies this
      ensures b == AccessBurst(p, power, old(Abs()), a) && Abs() == AfterAccess(p, power, old(Abs()), a)
    {
      hide NextBurst, Penalty, Record;
      var pd := GetPowerDownPenalty(a.rank, a.arrival);
      b := IssueBurst(a.from, a.wait, pd);
      if b.end > lastAccess[a.rank] {
        lastAccess := lastAccess[a.rank := b.end];
      }
    }
  }
}

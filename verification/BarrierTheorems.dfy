/** The barrier over whole runs. */
module BarrierTheorems {
  import opened Barrier
  import opened BarrierProof

  datatype Op =
    | JoinOp(t: nat, rnd: nat -> nat)
    | LeaveOp(t: nat, rnd: nat -> nat)
    | SyncOp(t: nat, rnd: nat -> nat)

  ghost function Apply(b: Bar, op: Op): (r: Bar)
    requires Sized(b) && op.t < |b.st|
    ensures Sized(r)
  {
    match op
    case JoinOp(t, rnd) => Join(b, t, rnd)
    case LeaveOp(t, rnd) => Leave(b, t, rnd)
    case SyncOp(t, rnd) => Sync(b, t, rnd)
  }

  /** The states that the source asserts of its callers. */
  predicate Accepted(b: Bar, op: Op) {
    op.t < |b.st| &&
    match op
    case JoinOp(t, _) => b.st[t] == OFFLINE || b.st[t] == LEFT
    case LeaveOp(t, _) => b.st[t] == RUNNING || b.st[t] == WAITING
    case SyncOp(t, _) => b.st[t] == RUNNING
  }

  /** Of a thread that left, lastIdx must do no harm when it joins again; SafetyExact shows that
      nothing less will do, and WokenRejoins when it is so by itself. */
  ghost predicate Legal(b: Bar, op: Op)
    requires Sized(b)
  {
    Accepted(b, op) && (op.JoinOp? ==> CanJoin(b, op.t))
  }

  ghost predicate Run(b: Bar, ops: seq<Op>, r: Bar)
    decreases |ops|
  {
    if ops == [] then r == b
    else Sized(b) && Legal(b, ops[0]) && Run(Apply(b, ops[0]), ops[1..], r)
  }

  ghost predicate Init(b: Bar) {
    && Sized(b) && b.parallel > 0 && b.run == [] && b.cur == 0 && b.running == 0 && b.left == 0
    && b.woken == {} && !b.bad
    && (forall t: nat :: t < |b.st| ==> b.st[t] == OFFLINE)
  }

  lemma InitSafe(b: Bar)
    requires Init(b)
    ensures Safe(b) && Progress(b)
  {
    assert In(b.st, RUNNING) == {} && In(b.st, LEFT) == {} && In(b.st, WAITING) == {};
  }

  lemma OpOk(b: Bar, op: Op)
    requires Safe(b) && Progress(b) && b.parallel > 0 && Sized(b) && Legal(b, op)
    ensures Safe(Apply(b, op)) && Progress(Apply(b, op)) && Apply(b, op).parallel == b.parallel
  {
    match op
    case JoinOp(t, rnd) => JoinOk(b, t, rnd);
    case LeaveOp(t, rnd) => LeaveOk(b, t, rnd);
    case SyncOp(t, rnd) => SyncOk(b, t, rnd);
  }

  lemma {:induction false} RunSafe(b: Bar, ops: seq<Op>, r: Bar)
    requires Safe(b) && Progress(b) && b.parallel > 0 && Run(b, ops, r)
    ensures Safe(r) && Progress(r) && r.parallel == b.parallel
    decreases |ops|
  {
    if ops != [] {
      OpOk(b, ops[0]);
      RunSafe(Apply(b, ops[0]), ops[1..], r);
    }
  }

  /** Safety of every run: the run list is exactly the threads not OFFLINE, without
      duplicates; the counters are the true counts and parallelism is respected; a waiting
      thread can be woken; and no assertion failed, no wake-up race happened, and no phase
      ended before every thread had left or synced in it. */
  lemma BarrierSafety(b: Bar, ops: seq<Op>, r: Bar)
    requires Init(b) && Run(b, ops, r)
    ensures Sized(r) && !r.bad
    ensures forall i, j :: 0 <= i < j < |r.run| ==> r.run[i] != r.run[j]
    ensures forall t: nat :: t < |r.st| ==> (t in r.run <==> r.st[t] != OFFLINE)
    ensures r.running == |In(r.st, RUNNING)| <= b.parallel && r.left == |In(r.st, LEFT)|
    ensures |r.run| - r.running - r.left == |In(r.st, WAITING)|
    ensures forall t: nat :: t < |r.st| && r.st[t] == WAITING ==> r.futex[t] == 1
  {
    InitSafe(b);
    RunSafe(b, ops, r);
    WaitingCount(r);
  }

  lemma WaitingCount(b: Bar)
    requires ListOk(b)
    ensures |b.run| == |In(b.st, RUNNING)| + |In(b.st, LEFT)| + |In(b.st, WAITING)|
  {
    DistinctCard(b.run);
    var r, l, w := In(b.st, RUNNING), In(b.st, LEFT), In(b.st, WAITING);
    RunListStates(b);
    hide ListOk;
    DisjointCard(r, l);
    DisjointCard(r + l, w);
  }

  lemma RunListStates(b: Bar)
    requires ListOk(b)
    ensures Elems(b.run) == In(b.st, RUNNING) + In(b.st, LEFT) + In(b.st, WAITING)
  {
  }

  lemma DisjointCard(a: set<nat>, b: set<nat>)
    requires a !! b
    ensures |a + b| == |a| + |b|
  {
  }

  /** Progress of every run: somebody runs or nobody waits, and either parallelism is
      saturated or this phase has nobody left to wake. */
  lemma BarrierProgress(b: Bar, ops: seq<Op>, r: Bar)
    requires Init(b) && Run(b, ops, r)
    ensures In(r.st, RUNNING) != {} || In(r.st, WAITING) == {}
    ensures |In(r.st, RUNNING)| == b.parallel || r.cur == |r.run|
  {
    InitSafe(b);
    RunSafe(b, ops, r);
  }

  /** In every run a join leaves the phase alone, and a thread that rejoins in the phase in
      which it was passed finds itself at lastIdx. */
  lemma JoinKeepsPhase(b: Bar, ops: seq<Op>, r: Bar, t: nat, rnd: nat -> nat)
    requires Init(b) && Run(b, ops, r) && Sized(r) && Legal(r, JoinOp(t, rnd))
    ensures Join(r, t, rnd).phase == r.phase
    ensures r.st[t] == LEFT && r.cur > r.lastIdx[t] ==> r.lastIdx[t] < |r.run| && r.run[r.lastIdx[t]] == t
  {
    InitSafe(b);
    RunSafe(b, ops, r);
    JoinOk(r, t, rnd);
  }

  // ------------------------------------------------- why the proviso on a rejoin

  /** Without the proviso the assertion in join can fail: thread 1 leaves before it was ever
      woken and joins again, while its lastIdx still points at thread 0. */
  lemma NeverWokenLeaveBreaksRejoin(rnd: nat -> nat)
    ensures var b := Bar(1, [OFFLINE, OFFLINE], [0, 0], [0, 0], [], 0, 0, 0, 0, {}, {}, false);
            Init(b) && Join(Leave(Join(Join(b, 0, rnd), 1, rnd), 1, rnd), 1, rnd).bad
  {
    var b := Bar(1, [OFFLINE, OFFLINE], [0, 0], [0, 0], [], 0, 0, 0, 0, {}, {}, false);
    assert Init(b);
    var b1 := Join(b, 0, rnd);
    var c1 := JoinList(b, 0);
    assert c1.run == [0] && c1.st == [WAITING, OFFLINE];
    CheckRunListIdle(WakeOne(c1));
    assert CheckRunList(c1) == WakeOne(c1);
    CheckRunListIdle(WakeOne(c1));
    assert b1 == Bar(1, [RUNNING, OFFLINE], [0, 0], [0, 0], [0], 1, 1, 0, 0, {}, {0}, false);
    var b2 := Join(b1, 1, rnd);
    var c2 := JoinList(b1, 1);
    assert c2.run == [0, 1];
    CheckRunListIdle(c2);
    assert b2 == Bar(1, [RUNNING, WAITING], [0, 1], [0, 0], [0, 1], 1, 1, 0, 0, {}, {0}, false);
    var b3 := Leave(b2, 1, rnd);
    var c4 := JoinList(b3, 1);
    assert c4.bad;
    TryWakeNextKeepsBad(c4, rnd);
  }

  lemma {:induction false} CheckRunListKeepsBad(b: Bar)
    requires Sized(b) && b.bad
    ensures CheckRunList(b).bad
    decreases |b.run| - b.cur
  {
    if b.running < b.parallel && b.cur < |b.run| {
      CheckRunListKeepsBad(WakeOne(b));
    }
  }

  lemma {:induction false} CleanupKeepsBad(b: Bar, idx: nat)
    requires Sized(b) && b.bad
    ensures Cleanup(b, idx).bad
    decreases |b.run| - idx
  {
    hide DropLeft, Sized;
    CleanupStep(b, idx);
    if idx < |b.run| {
      if b.st[b.run[idx]] == LEFT {
        DropKeepsBad(b, idx);
        CleanupKeepsBad(DropLeft(b, idx), idx);
      } else {
        CleanupKeepsBad(b, idx + 1);
      }
    }
  }

  lemma DropKeepsBad(b: Bar, idx: nat)
    requires Sized(b) && b.bad && idx < |b.run|
    ensures DropLeft(b, idx).bad
  {
  }

  lemma {:induction false} ShuffleKeepsBad(b: Bar, i: nat, rnd: nat -> nat)
    requires Sized(b) && b.bad && i < |b.run|
    ensures Shuffle(b, i, rnd).bad
    decreases i
  {
    if i > 0 {
      ShuffleKeepsBad(SwapRun(b, i, rnd(i) % (i + 1)), i - 1, rnd);
    }
  }

  lemma NewPhaseKeepsBad(b: Bar, clean: bool, rnd: nat -> nat)
    requires Sized(b) && b.bad
    ensures NewPhase(b, clean, rnd).bad
  {
    hide Cleanup, Shuffle;
    CleanupKeepsBad(b.(bad := b.bad || |b.run| == 0), 0);
    var c := if clean then CleanupPass(b) else b;
    if c.parallel < |c.run| {
      ShuffleKeepsBad(c, |c.run| - 1, rnd);
    }
  }

  /** A failed assertion is never forgotten. */
  lemma TryWakeNextKeepsBad(b: Bar, rnd: nat -> nat)
    requires Sized(b) && b.bad
    ensures TryWakeNext(b, rnd).bad
  {
    CheckRunListKeepsBad(b);
    EndPhaseKeepsBad(CheckRunList(b), rnd);
    CheckRunListKeepsBad(CheckEndPhase(CheckRunList(b), rnd));
  }

  lemma EndPhaseKeepsBad(b: Bar, rnd: nat -> nat)
    requires Sized(b) && (b.bad || (PhaseOver(b) && !AllArrived(b)))
    ensures CheckEndPhase(b, rnd).bad
  {
    hide NewPhase;
    if PhaseOver(b) {
      NewPhaseKeepsBad(b.(bad := b.bad || !AllArrived(b), synced := {}, cur := 0, phase := b.phase + 1),
                       b.phase % 32 == 0, rnd);
    }
  }

  /** Thread t waits where the scan has passed and has not synced in this phase. */
  ghost predicate Stranded(b: Bar, t: nat, q: nat) {
    ListOk(b) && q < b.cur && b.run[q] == t && b.st[t] == WAITING && t !in b.synced
  }

  lemma {:induction false} CheckRunListStrands(b: Bar, t: nat, q: nat)
    requires Stranded(b, t, q)
    ensures Stranded(CheckRunList(b), t, q)
    decreases |b.run| - b.cur
  {
    hide ListOk;
    ListBounds(b);
    if b.running < b.parallel && b.cur < |b.run| {
      WakeList(b);
      OtherWoken(b, t, q);
      CheckRunListStrands(WakeOne(b), t, q);
    }
  }

  lemma OtherWoken(b: Bar, t: nat, q: nat)
    requires Stranded(b, t, q) && b.cur < |b.run|
    ensures var r := WakeOne(b); r.st[t] == WAITING && t !in r.synced
  {
  }

  /** It is not woken in this phase, and if the phase ends it ends too early. */
  lemma StrandedUnsafe(b: Bar, t: nat, q: nat, rnd: nat -> nat)
    requires Stranded(b, t, q)
    ensures !Safe(TryWakeNext(b, rnd))
  {
    hide CheckRunList, CheckEndPhase, AllArrived;
    CheckRunListStrands(b, t, q);
    var b1 := CheckRunList(b);
    if PhaseOver(b1) {
      assert !AllArrived(b1) by { StrandedNotArrived(b1, t, q); }
      EndPhaseKeepsBad(b1, rnd);
      CheckRunListKeepsBad(CheckEndPhase(b1, rnd));
    } else {
      SamePhase(b1, rnd);
      CheckRunListStrands(b1, t, q);
      StrandedNotPassed(CheckRunList(b1), t, q);
    }
  }

  lemma StrandedNotArrived(b: Bar, t: nat, q: nat)
    requires Stranded(b, t, q)
    ensures !AllArrived(b)
  {
  }

  lemma StrandedNotPassed(b: Bar, t: nat, q: nat)
    requires Stranded(b, t, q)
    ensures !Safe(b)
  {
  }

  lemma SamePhase(b: Bar, rnd: nat -> nat)
    requires Sized(b) && !PhaseOver(b)
    ensures CheckEndPhase(b, rnd) == b
  {
  }

  /** Exactly when a rejoin is sound, in any state with a consistent run list: lastIdx is the
      thread's position, or both lie at or after the scan position.  Otherwise either the
      assertion in join fails or the thread waits where the scan has already passed. */
  lemma RejoinExact(b: Bar, t: nat, q: nat)
    requires ListOk(b) && PassedOk(b) && !b.bad && t < |b.st| && b.st[t] == LEFT
    requires q < |b.run| && b.run[q] == t
    ensures (!JoinList(b, t).bad && JoinList(b, t).cur <= |b.run| && PassedOk(JoinList(b, t)))
              <==> (b.lastIdx[t] == q || (q >= b.cur && b.lastIdx[t] >= b.cur))
  {
    var r, last := JoinList(b, t), b.lastIdx[t];
    if last == q || (q >= b.cur && last >= b.cur) {
      JoinPassed(b, t, q);
    } else if last >= b.cur && q < b.cur {
      assert r.st[r.run[q]] == WAITING && t !in r.synced;
    }
  }

  /** So for a safe barrier: a join keeps it safe iff the thread is OFFLINE, or has left and its
      lastIdx does no harm. */
  lemma JoinExact(b: Bar, t: nat, rnd: nat -> nat)
    requires Safe(b) && b.parallel > 0 && t < |b.st| && (b.st[t] == OFFLINE || b.st[t] == LEFT)
    ensures Safe(Join(b, t, rnd)) <==> CanJoin(b, t)
  {
    hide TryWakeNext, IndexOk, CountOk, FutexOk;
    if CanJoin(b, t) {
      JoinOk(b, t, rnd);
    } else {
      assert t in b.run;
      var q :| 0 <= q < |b.run| && b.run[q] == t;
      UnsoundRejoin(b, t, q);
      if JoinList(b, t).bad {
        TryWakeNextKeepsBad(JoinList(b, t), rnd);
      } else {
        StrandedUnsafe(JoinList(b, t), t, q, rnd);
      }
    }
  }

  lemma UnsoundRejoin(b: Bar, t: nat, q: nat)
    requires ListOk(b) && t < |b.st| && b.st[t] == LEFT && q < |b.run| && b.run[q] == t
    requires b.lastIdx[t] != q && (q < b.cur || b.lastIdx[t] < b.cur)
    ensures JoinList(b, t).bad || Stranded(JoinList(b, t), t, q)
  {
    var r := JoinList(b, t);
    if b.lastIdx[t] >= b.cur {
      forall u: nat | u < |r.st|
        ensures r.st[u] != OFFLINE <==> u in r.run
      {
        assert b.st[u] != OFFLINE <==> u in b.run;
      }
    }
  }

  // ----------------------------------------------------------------- all calls

  ghost predicate AllAccepted(b: Bar, ops: seq<Op>)
    requires Sized(b)
    decreases |ops|
  {
    ops != [] ==> Accepted(b, ops[0]) && AllAccepted(Apply(b, ops[0]), ops[1..])
  }

  ghost predicate AlwaysSafe(b: Bar, ops: seq<Op>)
    requires Sized(b) && AllAccepted(b, ops)
    decreases |ops|
  {
    Safe(b) && (ops != [] ==> AlwaysSafe(Apply(b, ops[0]), ops[1..]))
  }

  ghost predicate AllCanJoin(b: Bar, ops: seq<Op>)
    requires Sized(b) && AllAccepted(b, ops)
    decreases |ops|
  {
    ops != [] ==> (ops[0].JoinOp? ==> CanJoin(b, ops[0].t)) && AllCanJoin(Apply(b, ops[0]), ops[1..])
  }

  /** For every sequence of calls that the source accepts: the barrier is safe throughout iff
      every thread that joins is OFFLINE, or has left and its lastIdx does no harm. */
  lemma SafetyExact(b: Bar, ops: seq<Op>)
    requires Init(b) && AllAccepted(b, ops)
    ensures AlwaysSafe(b, ops) <==> AllCanJoin(b, ops)
  {
    InitSafe(b);
    SafeFrom(b, ops);
  }

  lemma {:induction false} SafeFrom(b: Bar, ops: seq<Op>)
    requires Safe(b) && Progress(b) && b.parallel > 0 && Sized(b) && AllAccepted(b, ops)
    ensures AlwaysSafe(b, ops) <==> AllCanJoin(b, ops)
    decreases |ops|
  {
    hide Safe, Progress, Apply, CanJoin, Sized;
    if ops != [] {
      CallExact(b, ops[0]);
      if Safe(Apply(b, ops[0])) {
        SafeFrom(Apply(b, ops[0]), ops[1..]);
      }
    }
  }

  lemma CallExact(b: Bar, op: Op)
    requires Safe(b) && Progress(b) && b.parallel > 0 && Sized(b) && Accepted(b, op)
    ensures Safe(Apply(b, op)) <==> (op.JoinOp? ==> CanJoin(b, op.t))
    ensures Safe(Apply(b, op)) ==> Progress(Apply(b, op)) && Apply(b, op).parallel == b.parallel
  {
    hide Safe, Progress, CanJoin, Join, Leave, Sync;
    if op.JoinOp? {
      JoinExact(b, op.t, op.rnd);
    }
    if Legal(b, op) {
      OpOk(b, op);
    }
  }
}

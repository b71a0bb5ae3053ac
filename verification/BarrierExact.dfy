/** Exactly which threads an operation of the barrier wakes, when a phase ends, what the end of a
    phase does to the threads that left, and that the shuffle can produce every order of the run
    list in exactly one way. */
module BarrierExact {
  import opened Counting
  import opened Barrier
  import opened BarrierProof
  import opened BarrierTheorems

  // ------------------------------------------------------------------ waking

  /** The waiting threads between the scan position and position q. */
  function Met(b: Bar, q: nat): set<nat>
    requires Sized(b) && b.cur <= q <= |b.run|
  {
    set t | t in b.run[b.cur..q] && b.st[t] == WAITING
  }

  /** The scan wakes the waiting threads that it meets and changes no other state; it goes on to
      the end of the list or until parallelism is saturated, and no further. */
  ghost predicate Scanned(b: Bar, r: Bar)
    requires Sized(b)
  {
    && b.cur <= r.cur <= |b.run| && r.run == b.run && |r.st| == |b.st|
    && (forall t: nat :: t < |b.st| ==> r.st[t] == if t in Met(b, r.cur) then RUNNING else b.st[t])
    && r.running == b.running + |Met(b, r.cur)|
    && (r.running == b.parallel || r.cur == |b.run|)
    && (forall q :: b.cur <= q < r.cur ==> b.running + |Met(b, q)| < b.parallel)
  }

  /** One step of the scan adds the thread it looks at, if that thread waits. */
  lemma MetFrom(b: Bar, q: nat)
    requires ListOk(b) && b.cur < q <= |b.run|
    ensures var x := b.run[b.cur];
            && x !in Met(WakeOne(b), q)
            && Met(b, q) == if b.st[x] == WAITING then Met(WakeOne(b), q) + {x} else Met(WakeOne(b), q)
  {
    var x, w := b.run[b.cur], WakeOne(b);
    var rest := b.run[b.cur + 1..q];
    assert b.run[b.cur..q] == [x] + rest && w.run[w.cur..q] == rest;
    assert x !in rest;
  }

  lemma WakeKeepsList(b: Bar)
    requires ListOk(b) && b.cur < |b.run|
    ensures ListOk(WakeOne(b))
  {
    assert b.run[b.cur] in b.run;
  }

  lemma {:induction false} CheckRunListExact(b: Bar)
    requires ListOk(b) && 0 <= b.running <= b.parallel
    ensures Scanned(b, CheckRunList(b))
    decreases |b.run| - b.cur
  {
    assert Met(b, b.cur) == {};
    if b.running < b.parallel && b.cur < |b.run| {
      WakeKeepsList(b);
      CheckRunListExact(WakeOne(b));
      ScanStep(b, CheckRunList(b));
    }
  }

  lemma ScanStep(b: Bar, r: Bar)
    requires ListOk(b) && 0 <= b.running < b.parallel && b.cur < |b.run| && Scanned(WakeOne(b), r)
    ensures Scanned(b, r)
  {
    hide Met;
    var w := WakeOne(b);
    forall q | b.cur <= q <= r.cur
      ensures |Met(b, q)| == if q == b.cur then 0 else |Met(w, q)| + w.running - b.running
    {
      MetSize(b, q);
    }
    MetFrom(b, r.cur);
  }

  lemma MetSize(b: Bar, q: nat)
    requires ListOk(b) && b.cur < |b.run| && b.cur <= q <= |b.run|
    ensures |Met(b, q)| == if q == b.cur then 0 else |Met(WakeOne(b), q)| + WakeOne(b).running - b.running
  {
    if q == b.cur {
      assert Met(b, q) == {};
    } else {
      MetFrom(b, q);
    }
  }

  // ------------------------------------------------------- who has been passed

  /** The scan has passed every running thread. */
  ghost predicate AheadOk(b: Bar)
    requires Sized(b)
  {
    forall i :: b.cur <= i < |b.run| ==> b.st[b.run[i]] != RUNNING
  }

  lemma {:induction false} CheckRunListAhead(b: Bar)
    requires ListOk(b) && AheadOk(b)
    ensures AheadOk(CheckRunList(b))
    decreases |b.run| - b.cur
  {
    if b.running < b.parallel && b.cur < |b.run| {
      WakeKeepsList(b);
      CheckRunListAhead(WakeOne(b));
    }
  }

  lemma TryWakeNextAhead(b: Bar, rnd: nat -> nat)
    requires Safe(b) && AheadOk(b)
    ensures AheadOk(TryWakeNext(b, rnd))
  {
    hide NewPhase;
    CheckRunListSafe(b);
    CheckRunListAhead(b);
    var c := CheckRunList(b);
    EndPhaseSafe(c, rnd);
    var d := CheckEndPhase(c, rnd);
    if PhaseOver(c) {
      assert In(d.st, RUNNING) == {};
      assert forall i :: 0 <= i < |d.run| ==> d.run[i] !in In(d.st, RUNNING);
    }
    CheckRunListAhead(d);
  }

  /** What the operation does itself, before it wakes anybody. */
  ghost function Moved(b: Bar, op: Op): (c: Bar)
    requires Sized(b) && op.t < |b.st|
    ensures Sized(c)
  {
    match op
    case JoinOp(t, _) => JoinList(b, t)
    case LeaveOp(t, _) => b.(st := b.st[t := LEFT], left := b.left + 1, running := b.running - 1)
    case SyncOp(t, _) => b.(futex := b.futex[t := 1], st := b.st[t := WAITING], running := b.running - 1,
                            synced := b.synced + {t})
  }

  /** A waiting thread that leaves is the one operation that wakes nobody. */
  predicate Wakes(b: Bar, op: Op)
    requires op.t < |b.st|
  {
    op.JoinOp? || b.st[op.t] == RUNNING
  }

  lemma MovedSafe(b: Bar, op: Op)
    requires Safe(b) && Progress(b) && b.parallel > 0 && Legal(b, op) && Wakes(b, op) && AheadOk(b)
    ensures var c := Moved(b, op);
            && Safe(c) && AheadOk(c) && c.parallel == b.parallel && c.phase == b.phase
            && Apply(b, op) == TryWakeNext(c, op.rnd)
  {
    hide TryWakeNext, Safe, AheadOk, JoinList;
    SafeFacts(b);
    match op
    case JoinOp(t, rnd) =>
      JoinListSafe(b, t);
      JoinAhead(b, t);
    case LeaveOp(t, rnd) =>
      RunningLeaves(b, t);
      StopAhead(b, Moved(b, op), t);
    case SyncOp(t, rnd) =>
      RunningSyncs(b, t);
      StopAhead(b, Moved(b, op), t);
  }

  lemma RunningSyncs(b: Bar, t: nat)
    requires Safe(b) && t < |b.st| && b.st[t] == RUNNING
    ensures Safe(b.(futex := b.futex[t := 1], st := b.st[t := WAITING], running := b.running - 1,
                    synced := b.synced + {t}))
  {
    CountSet(b.st, t, WAITING, RUNNING);
    CountSet(b.st, t, WAITING, LEFT);
    assert t in b.run;
  }

  lemma StopAhead(b: Bar, c: Bar, t: nat)
    requires Sized(b) && Sized(c) && AheadOk(b) && t < |b.st|
    requires c.run == b.run && c.cur == b.cur && |c.st| == |b.st| && c.st == b.st[t := c.st[t]] && c.st[t] != RUNNING
    ensures AheadOk(c)
  {
  }

  lemma JoinAhead(b: Bar, t: nat)
    requires Safe(b) && CanJoin(b, t) && AheadOk(b)
    ensures AheadOk(JoinList(b, t)) && JoinList(b, t).parallel == b.parallel && JoinList(b, t).phase == b.phase
  {
    hide CountOk, FutexOk, PassedOk, IndexOk;
    var c := JoinList(b, t);
    forall i | c.cur <= i < |c.run|
      ensures c.st[c.run[i]] != RUNNING
    {
      if i < |b.run| && c.run[i] != t {
        assert i >= b.cur;
      }
    }
  }

  lemma OpAhead(b: Bar, op: Op)
    requires Safe(b) && Progress(b) && b.parallel > 0 && Legal(b, op) && AheadOk(b)
    ensures AheadOk(Apply(b, op))
  {
    hide Safe, TryWakeNext, Moved;
    SafeFacts(b);
    if Wakes(b, op) {
      MovedSafe(b, op);
      TryWakeNextAhead(Moved(b, op), op.rnd);
    }
  }

  lemma {:induction false} RunAhead(b: Bar, ops: seq<Op>, r: Bar)
    requires Safe(b) && Progress(b) && b.parallel > 0 && AheadOk(b) && Run(b, ops, r)
    ensures Sized(r) && AheadOk(r)
    decreases |ops|
  {
    hide Safe, Progress, AheadOk, CanJoin;
    SafeFacts(b);
    if ops != [] {
      OpOk(b, ops[0]);
      OpAhead(b, ops[0]);
      RunAhead(Apply(b, ops[0]), ops[1..], r);
    }
  }

  // ----------------------------------------------------------- ends of phases

  /** The last running thread syncs or leaves, nobody is left to wake in this phase, and somebody
      waits for the next. */
  ghost predicate Ends(b: Bar, op: Op)
    requires Sized(b) && op.t < |b.st|
  {
    && !op.JoinOp? && In(b.st, RUNNING) == {op.t}
    && (forall i :: b.cur <= i < |b.run| ==> b.st[b.run[i]] != WAITING)
    && (op.SyncOp? || In(b.st, WAITING) != {})
  }

  /** Nobody runs, nobody can be woken in this phase, and somebody waits. */
  ghost predicate Exhausted(c: Bar)
    requires Sized(c)
  {
    && In(c.st, RUNNING) == {} && In(c.st, WAITING) != {}
    && forall i :: c.cur <= i < |c.run| ==> c.st[c.run[i]] != WAITING
  }

  lemma OverExact(c: Bar)
    requires Safe(c) && c.parallel > 0
    ensures PhaseOver(CheckRunList(c)) <==> Exhausted(c)
    ensures Exhausted(c) ==> CheckRunList(c) == c.(cur := |c.run|)
  {
    hide IndexOk, FutexOk, PassedOk;
    CheckRunListStops(c);
    WaitingCount(c);
    var d := CheckRunList(c);
    assert c.running == 0 <==> In(c.st, RUNNING) == {};
    assert |In(c.st, WAITING)| == 0 <==> In(c.st, WAITING) == {};
    if Exhausted(c) {
      NobodyToWake(c);
    }
  }

  lemma {:induction false} NobodyToWake(c: Bar)
    requires Sized(c) && c.cur <= |c.run| && c.running < c.parallel
    requires forall i :: c.cur <= i < |c.run| ==> c.st[c.run[i]] != WAITING
    ensures CheckRunList(c) == c.(cur := |c.run|)
    decreases |c.run| - c.cur
  {
    if c.cur < |c.run| {
      NobodyToWake(WakeOne(c));
    }
  }

  lemma EndsExact(b: Bar, op: Op)
    requires Safe(b) && Progress(b) && b.parallel > 0 && Legal(b, op) && Wakes(b, op) && AheadOk(b)
    ensures Exhausted(Moved(b, op)) <==> Ends(b, op)
  {
    hide IndexOk, FutexOk, PassedOk, CountOk, RejoinOk;
    var c, t := Moved(b, op), op.t;
    match op
    case JoinOp(_, rnd) =>
      JoinListSafe(b, t);
    case LeaveOp(_, rnd) =>
      assert c.st == b.st[t := LEFT];
      assert In(b.st, RUNNING) == In(c.st, RUNNING) + {t} && t !in In(c.st, RUNNING);
      assert In(b.st, WAITING) == In(c.st, WAITING);
    case SyncOp(_, rnd) =>
      assert c.st == b.st[t := WAITING];
      assert In(b.st, RUNNING) == In(c.st, RUNNING) + {t} && t !in In(c.st, RUNNING);
      assert t in In(c.st, WAITING);
  }

  lemma CleanedStates(b: Bar)
    requires Safe(b) && b.cur == 0 && |b.run| > 0
    ensures var r := CleanupPass(b);
            && r.parallel == b.parallel
            && forall t: nat :: t < |b.st| ==> r.st[t] == if b.st[t] == LEFT then OFFLINE else b.st[t]
  {
    hide IndexOk, FutexOk, PassedOk, ListOk;
    SafeFacts(b);
    CleanupOk(b, 0);
    var r := CleanupPass(b);
    forall t: nat | t < |b.st|
      ensures r.st[t] == if b.st[t] == LEFT then OFFLINE else b.st[t]
    {
      assert t in In(b.st, RUNNING) <==> t in In(r.st, RUNNING);
      assert t in In(b.st, WAITING) <==> t in In(r.st, WAITING);
      assert t !in In(r.st, LEFT);
    }
  }

  /** Prepare the next phase: the threads that left go OFFLINE iff this is a cleanup phase, and
      the order of the list changes only by cleanup or when not all its threads can run at once. */
  lemma NewPhaseExact(b: Bar, clean: bool, rnd: nat -> nat)
    requires Safe(b) && b.cur == 0 && |b.run| > 0
    ensures var r := NewPhase(b, clean, rnd);
            && (forall t: nat :: t < |b.st| ==> r.st[t] == if clean && b.st[t] == LEFT then OFFLINE else b.st[t])
            && (!clean && |b.run| <= b.parallel ==> r.run == b.run)
  {
    hide Shuffle, CleanupPass, Safe;
    SafeFacts(b);
    var b2 := if clean then CleanupPass(b) else b;
    if clean {
      CleanupPassSafe(b);
      CleanedStates(b);
    }
    if b2.parallel < |b2.run| {
      ShuffleKeepsSafe(b2, |b2.run| - 1, rnd);
    }
  }

  /** Every operation: when the phase ends, what becomes of the threads that left, and who runs
      afterwards.  Within a phase the scan goes on from where it stood; a new phase starts with as
      many of the waiting threads as may run. */
  lemma OpExact(b: Bar, op: Op)
    requires Safe(b) && Progress(b) && b.parallel > 0 && Legal(b, op) && Wakes(b, op) && AheadOk(b)
    ensures var c, r := Moved(b, op), Apply(b, op);
            if Ends(b, op) then
              && r.phase == b.phase + 1
              && |In(r.st, RUNNING)| == (if |In(c.st, WAITING)| < b.parallel then |In(c.st, WAITING)| else b.parallel)
              && In(r.st, RUNNING) + In(r.st, WAITING) == In(c.st, WAITING)
              && In(r.st, LEFT) == (if b.phase % 32 == 0 then {} else In(c.st, LEFT))
            else r.phase == b.phase && Scanned(c, r)
  {
    hide Safe, AheadOk, Progress, CanJoin, CheckEndPhase, Moved, Scanned, In;
    SafeFacts(b);
    MovedSafe(b, op);
    EndsExact(b, op);
    var c := Moved(b, op);
    OverExact(c);
    TryWakeNextOk(c, op.rnd);
    if Ends(b, op) {
      NextPhaseExact(c, op.rnd);
    } else {
      SamePhaseExact(c, op.rnd);
    }
  }

  lemma SamePhaseExact(c: Bar, rnd: nat -> nat)
    requires Safe(c) && !PhaseOver(CheckRunList(c))
    ensures var r := TryWakeNext(c, rnd); Scanned(c, r) && r.phase == c.phase
  {
    hide IndexOk, FutexOk, PassedOk, Scanned, In, CheckEndPhase;
    CheckRunListExact(c);
    CheckRunListStops(c);
    SamePhase(CheckRunList(c), rnd);
    CheckRunListIdle(CheckRunList(c));
  }

  lemma NextPhaseExact(c: Bar, rnd: nat -> nat)
    requires Safe(c) && c.parallel > 0 && Exhausted(c)
    ensures var r := TryWakeNext(c, rnd);
            && |In(r.st, RUNNING)| == (if |In(c.st, WAITING)| < c.parallel then |In(c.st, WAITING)| else c.parallel)
            && In(r.st, RUNNING) + In(r.st, WAITING) == In(c.st, WAITING)
            && In(r.st, LEFT) == (if c.phase % 32 == 0 then {} else In(c.st, LEFT))
  {
    hide Safe, Exhausted, CheckEndPhase, Scanned, In;
    OverExact(c);
    CheckRunListSafe(c);
    var d := CheckRunList(c);
    SafeFacts(c);
    SafeFacts(d);
    EndPhaseSafe(d, rnd);
    var n := CheckEndPhase(d, rnd);
    SafeFacts(n);
    EndStates(d, rnd);
    SafeList(n);
    CheckRunListExact(n);
    FreshScan(n, CheckRunList(n));
  }

  lemma SafeList(b: Bar)
    requires Safe(b)
    ensures ListOk(b) && b.running == |In(b.st, RUNNING)|
  {
  }

  /** The end of a phase changes the states of the threads that left, and of no others. */
  lemma EndStates(d: Bar, rnd: nat -> nat)
    requires Safe(d) && PhaseOver(d)
    ensures var n := CheckEndPhase(d, rnd);
            && In(n.st, RUNNING) == In(d.st, RUNNING) == {} && In(n.st, WAITING) == In(d.st, WAITING)
            && In(n.st, LEFT) == (if d.phase % 32 == 0 then {} else In(d.st, LEFT))
  {
    hide NewPhase, IndexOk, FutexOk, PassedOk, ListOk;
    PhaseEndsComplete(d);
    RewindSafe(d);
    SafeFacts(d);
    var e := d.(synced := {}, cur := 0, phase := d.phase + 1);
    NewPhaseExact(e, d.phase % 32 == 0, rnd);
    assert CheckEndPhase(d, rnd) == NewPhase(e, d.phase % 32 == 0, rnd);
  }

  /** A scan from the start with nobody running wakes as many waiting threads as may run. */
  lemma FreshScan(n: Bar, r: Bar)
    requires ListOk(n) && n.cur == 0 && n.running == 0 && In(n.st, RUNNING) == {} && Scanned(n, r)
    ensures |In(r.st, RUNNING)| == (if |In(n.st, WAITING)| < n.parallel then |In(n.st, WAITING)| else n.parallel)
    ensures In(r.st, RUNNING) + In(r.st, WAITING) == In(n.st, WAITING)
    ensures In(r.st, LEFT) == In(n.st, LEFT)
  {
    hide Scanned, In, Met;
    FreshSets(n, r);
    FreshSize(n, r);
  }

  lemma FreshSets(n: Bar, r: Bar)
    requires ListOk(n) && n.cur == 0 && In(n.st, RUNNING) == {} && Scanned(n, r)
    ensures In(r.st, RUNNING) == Met(n, r.cur)
    ensures In(r.st, RUNNING) + In(r.st, WAITING) == In(n.st, WAITING)
    ensures In(r.st, LEFT) == In(n.st, LEFT)
  {
    forall t: nat | t < |n.st|
      ensures t !in In(n.st, RUNNING) && n.st[t] != RUNNING
    {
    }
  }

  lemma FreshSize(n: Bar, r: Bar)
    requires ListOk(n) && n.cur == 0 && n.running == 0 && Scanned(n, r)
    ensures |Met(n, r.cur)| == if |In(n.st, WAITING)| < n.parallel then |In(n.st, WAITING)| else n.parallel
  {
    ScanBound(n, r);
    MetWaiting(n, r.cur);
  }

  lemma MetWaiting(n: Bar, q: nat)
    requires ListOk(n) && n.cur == 0 && q <= |n.run|
    ensures |Met(n, q)| <= |In(n.st, WAITING)|
    ensures q == |n.run| ==> Met(n, q) == In(n.st, WAITING)
  {
    assert Met(n, q) <= In(n.st, WAITING);
    SubsetSize(Met(n, q), In(n.st, WAITING));
    assert n.run[n.cur..|n.run|] == n.run;
  }

  lemma ScanBound(n: Bar, r: Bar)
    requires ListOk(n) && n.running == 0 && Scanned(n, r)
    ensures |Met(n, r.cur)| <= n.parallel
  {
    if r.cur > n.cur {
      var q := r.cur - 1;
      var x := n.run[q];
      assert n.run[n.cur..r.cur] == n.run[n.cur..q] + [x];
      assert Met(n, r.cur) <= Met(n, q) + {x};
      SubsetSize(Met(n, r.cur), Met(n, q) + {x});
    }
  }

  /** The same for every operation of every run, waiting threads that leave included. */
  lemma PhasesOfEveryRun(b: Bar, ops: seq<Op>, r: Bar, op: Op)
    requires Init(b) && Run(b, ops, r) && Sized(r) && Legal(r, op)
    ensures var e := Apply(r, op);
            && e.phase == (if Ends(r, op) then r.phase + 1 else r.phase)
            && (Ends(r, op) ==> In(e.st, LEFT) == if r.phase % 32 == 0 then {} else In(Moved(r, op).st, LEFT))
            && (!Wakes(r, op) ==> e.st == r.st[op.t := LEFT] && e.run == r.run)
            && (Wakes(r, op) && !Ends(r, op) ==> Scanned(Moved(r, op), e))
  {
    hide Safe, Progress, CanJoin, Scanned, TryWakeNext, In, Moved;
    InitSafe(b);
    InitParallel(b);
    RunSafe(b, ops, r);
    RunAhead(b, ops, r);
    if Wakes(r, op) {
      OpExact(r, op);
    } else {
      StillRunning(r, op);
    }
  }

  lemma InitParallel(b: Bar)
    requires Init(b)
    ensures b.parallel > 0 && AheadOk(b)
  {
  }

  lemma StillRunning(r: Bar, op: Op)
    requires Sized(r) && Legal(r, op) && !Wakes(r, op)
    ensures !Ends(r, op)
  {
    assert op.t !in In(r.st, RUNNING);
  }

  /** An operation of a thread in any state that it does not accept fails its assertion, and a
      failure is never forgotten. */
  lemma MisuseFails(b: Bar, op: Op)
    requires Sized(b) && op.t < |b.st| && (b.bad || !Accepted(b, op))
    ensures Apply(b, op).bad
  {
    hide TryWakeNext;
    match op
    case JoinOp(t, rnd) =>
      TryWakeNextKeepsBad(JoinList(b, t), rnd);
    case LeaveOp(t, rnd) =>
      if b.st[t] == RUNNING {
        TryWakeNextKeepsBad(Moved(b, op), rnd);
      }
    case SyncOp(t, rnd) =>
      TryWakeNextKeepsBad(Moved(b, op).(bad := b.bad || b.st[t] != RUNNING), rnd);
  }

  // ------------------------------------------------------------- the shuffle

  function Exchanged(s: seq<nat>, i: nat, j: nat): (r: seq<nat>)
    requires i < |s| && j < |s|
    ensures |r| == |s|
  {
    s[i := s[j]][j := s[i]]
  }

  /** The position drawn for i. */
  function Choice(rnd: nat -> nat, i: nat): (j: nat)
    ensures j <= i
  {
    rnd(i) % (i + 1)
  }

  /** The run list after the shuffle. */
  function Shuffled(s: seq<nat>, i: nat, rnd: nat -> nat): (r: seq<nat>)
    requires i < |s|
    ensures |r| == |s|
    decreases i
  {
    if i == 0 then s else Shuffled(Exchanged(s, i, Choice(rnd, i)), i - 1, rnd)
  }

  lemma {:induction false} ShuffleList(b: Bar, i: nat, rnd: nat -> nat)
    requires Sized(b) && i < |b.run|
    ensures Shuffle(b, i, rnd).run == Shuffled(b.run, i, rnd)
    decreases i
  {
    if i > 0 {
      ShuffleList(SwapRun(b, i, Choice(rnd, i)), i - 1, rnd);
    }
  }

  /** Positions above i are final. */
  lemma {:induction false} ShuffledAbove(s: seq<nat>, i: nat, rnd: nat -> nat)
    requires i < |s|
    ensures Shuffled(s, i, rnd)[i + 1..] == s[i + 1..]
    decreases i
  {
    if i > 0 {
      var e := Exchanged(s, i, Choice(rnd, i));
      ShuffledAbove(e, i - 1, rnd);
      var r := Shuffled(s, i, rnd);
      forall k | i < k < |s|
        ensures r[k] == s[k]
      {
        assert r[i..][k - i] == e[i..][k - i];
      }
    }
  }

  lemma {:induction false} ShuffledSame(s: seq<nat>, i: nat, f: nat -> nat, g: nat -> nat)
    requires i < |s| && forall k :: 1 <= k <= i ==> f(k) == g(k)
    ensures Shuffled(s, i, f) == Shuffled(s, i, g)
    decreases i
  {
    if i > 0 {
      ShuffledSame(Exchanged(s, i, Choice(f, i)), i - 1, f, g);
    }
  }

  lemma ExchangedParts(s: seq<nat>, i: nat, j: nat)
    requires j <= i < |s|
    ensures var e := Exchanged(s, i, j);
            && e[i] == s[j] && e[i + 1..] == s[i + 1..]
            && multiset(e[..i]) + multiset{s[j]} == multiset(s[..i + 1])
  {
    var e := Exchanged(s, i, j);
    assert s[..i + 1] == s[..i] + [s[i]];
    if j < i {
      assert e[..i] == s[..i][j := s[i]];
    } else {
      assert e[..i] == s[..i];
    }
  }

  lemma Cancel(a: multiset<nat>, b: multiset<nat>, x: nat)
    requires a + multiset{x} == b + multiset{x}
    ensures a == b
  {
    assert a == a + multiset{x} - multiset{x};
    assert b == b + multiset{x} - multiset{x};
  }

  /** The thread that is to end at position i can be drawn for it, and the rest remains. */
  lemma Draw(s: seq<nat>, i: nat, p: seq<nat>) returns (j: nat)
    requires i < |s| == |p| && p[i + 1..] == s[i + 1..] && multiset(p[..i + 1]) == multiset(s[..i + 1])
    ensures j <= i
    ensures var e := Exchanged(s, i, j);
            e[i] == p[i] && e[i + 1..] == p[i + 1..] && multiset(e[..i]) == multiset(p[..i])
  {
    assert p[..i + 1] == p[..i] + [p[i]];
    assert p[i] in multiset(s[..i + 1]);
    var k :| 0 <= k < i + 1 && s[..i + 1][k] == p[i];
    j := k;
    hide Exchanged;
    ExchangedParts(s, i, j);
    Cancel(multiset(Exchanged(s, i, j)[..i]), multiset(p[..i]), p[i]);
  }

  /** Every order of the first i + 1 threads can come out. */
  lemma {:induction false} ShuffledOnto(s: seq<nat>, i: nat, p: seq<nat>) returns (rnd: nat -> nat)
    requires i < |s| == |p| && p[i + 1..] == s[i + 1..] && multiset(p[..i + 1]) == multiset(s[..i + 1])
    ensures Shuffled(s, i, rnd) == p
    decreases i
  {
    hide Exchanged;
    var j := Draw(s, i, p);
    if i == 0 {
      rnd := k => 0;
      OneLeft(s, p);
    } else {
      TailFrom(Exchanged(s, i, j), i, p);
      var rest := ShuffledOnto(Exchanged(s, i, j), i - 1, p);
      rnd := Prepend(s, i, j, rest);
    }
  }

  lemma OneLeft(s: seq<nat>, p: seq<nat>)
    requires |s| == |p| > 0 && s[1..] == p[1..] && multiset(s[..1]) == multiset(p[..1])
    ensures s == p
  {
    assert s[..1] == [s[0]] && p[..1] == [p[0]];
    assert p[0] in multiset(s[..1]);
    assert s == [s[0]] + s[1..] && p == [p[0]] + p[1..];
  }

  lemma TailFrom(e: seq<nat>, i: nat, p: seq<nat>)
    requires i < |e| == |p| && e[i] == p[i] && e[i + 1..] == p[i + 1..]
    ensures e[i..] == p[i..]
  {
    assert e[i..] == [e[i]] + e[i + 1..] && p[i..] == [p[i]] + p[i + 1..];
  }

  /** Draw j for position i, and the rest as before. */
  lemma Prepend(s: seq<nat>, i: nat, j: nat, rest: nat -> nat) returns (rnd: nat -> nat)
    requires 0 < i < |s| && j <= i
    ensures Shuffled(s, i, rnd) == Shuffled(Exchanged(s, i, j), i - 1, rest)
  {
    hide Exchanged, Choice;
    rnd := k => if k == i then j else rest(k);
    ShuffledSame(Exchanged(s, i, j), i - 1, rnd, rest);
    Chosen(rnd, i, j);
  }

  lemma Chosen(rnd: nat -> nat, i: nat, j: nat)
    requires rnd(i) == j <= i
    ensures Choice(rnd, i) == j
  {
  }

  /** And it comes out for one sequence of choices only, so equally likely choices make every
      order equally likely. */
  lemma {:induction false} ShuffledOnce(s: seq<nat>, i: nat, f: nat -> nat, g: nat -> nat)
    requires i < |s| && (forall a, b :: 0 <= a < b < |s| ==> s[a] != s[b])
    requires Shuffled(s, i, f) == Shuffled(s, i, g)
    ensures forall k :: 1 <= k <= i ==> Choice(f, k) == Choice(g, k)
    decreases i
  {
    hide Choice, Exchanged;
    if i > 0 {
      ShuffledAt(s, i, f);
      ShuffledAt(s, i, g);
      ExchangedDistinct(s, i, Choice(f, i));
      ShuffledOnce(Exchanged(s, i, Choice(f, i)), i - 1, f, g);
    }
  }

  /** The thread drawn for position i ends there. */
  lemma ShuffledAt(s: seq<nat>, i: nat, rnd: nat -> nat)
    requires 0 < i < |s|
    ensures Shuffled(s, i, rnd)[i] == s[Choice(rnd, i)]
  {
    hide Choice;
    var e := Exchanged(s, i, Choice(rnd, i));
    ShuffledAbove(e, i - 1, rnd);
    assert Shuffled(e, i - 1, rnd)[i..][0] == e[i..][0];
  }

  lemma ExchangedDistinct(s: seq<nat>, i: nat, j: nat)
    requires i < |s| && j < |s| && (forall a, b :: 0 <= a < b < |s| ==> s[a] != s[b])
    ensures var e := Exchanged(s, i, j); forall a, b :: 0 <= a < b < |e| ==> e[a] != e[b]
  {
  }

  predicate Produces(b: Bar, rnd: nat -> nat, p: seq<nat>)
    requires Sized(b) && |b.run| > 0
  {
    Shuffle(b, |b.run| - 1, rnd).run == p
  }

  /** The shuffle at the end of a phase, for a barrier without duplicates in its list: every order
      of the run list comes out, and only one sequence of choices leads to it. */
  lemma ShuffleExact(b: Bar, p: seq<nat>) returns (rnd: nat -> nat)
    requires ListOk(b) && |b.run| > 0 && multiset(p) == multiset(b.run)
    ensures Produces(b, rnd, p)
    ensures forall other: nat -> nat :: Produces(b, other, p) ==>
              forall k :: 1 <= k < |b.run| ==> Choice(other, k) == Choice(rnd, k)
  {
    var i := |b.run| - 1;
    assert |p| == |multiset(p)| == |multiset(b.run)| == |b.run|;
    assert p[..i + 1] == p && b.run[..i + 1] == b.run;
    rnd := ShuffledOnto(b.run, i, p);
    ShuffleList(b, i, rnd);
    forall other: nat -> nat | Produces(b, other, p)
      ensures forall k :: 1 <= k < |b.run| ==> Choice(other, k) == Choice(rnd, k)
    {
      ShuffleList(b, i, other);
      ShuffledOnce(b.run, i, other, rnd);
    }
  }

  ghost predicate Distinct(s: seq<nat>) {
    forall a, b :: 0 <= a < b < |s| ==> s[a] != s[b]
  }

  lemma {:induction false} OnceEach(s: seq<nat>, x: nat)
    requires Distinct(s)
    ensures multiset(s)[x] == if x in s then 1 else 0
  {
    if s != [] {
      var n := |s| - 1;
      assert s == s[..n] + [s[n]];
      OnceEach(s[..n], x);
    }
  }

  lemma SameMultiset(p: seq<nat>, q: seq<nat>)
    requires Distinct(p) && Distinct(q) && forall x: nat :: x in p <==> x in q
    ensures multiset(p) == multiset(q)
  {
    forall x: nat
      ensures multiset(p)[x] == multiset(q)[x]
    {
      OnceEach(p, x);
      OnceEach(q, x);
    }
  }

  /** When not all threads can run at once, the next phase may run them in any order: every list
      of the threads that stay comes out for some generator. */
  lemma AnyOrder(b: Bar, clean: bool, p: seq<nat>) returns (rnd: nat -> nat)
    requires Safe(b) && b.cur == 0 && |b.run| > 0 && |p| > b.parallel && Distinct(p)
    requires forall t: nat :: t in p <==>
               t < |b.st| && b.st[t] != OFFLINE && !(clean && b.st[t] == LEFT)
    ensures NewPhase(b, clean, rnd).run == p
  {
    hide Shuffle, CleanupPass, Safe, Produces;
    SafeFacts(b);
    var b2 := if clean then CleanupPass(b) else b;
    if clean {
      CleanupPassSafe(b);
    }
    SafeList(b2);
    StayList(b, clean, b2, p);
    SameMultiset(p, b2.run);
    assert |p| == |multiset(p)| == |multiset(b2.run)| == |b2.run|;
    rnd := ShuffleExact(b2, p);
    ProducesShuffle(b2, rnd, p);
  }

  lemma ProducesShuffle(b: Bar, rnd: nat -> nat, p: seq<nat>)
    requires Sized(b) && |b.run| > 0 && Produces(b, rnd, p)
    ensures Shuffle(b, |b.run| - 1, rnd).run == p
  {
  }

  lemma StayList(b: Bar, clean: bool, b2: Bar, p: seq<nat>)
    requires Safe(b) && b.cur == 0 && |b.run| > 0 && Safe(b2) && b2 == if clean then CleanupPass(b) else b
    requires forall t: nat :: t in p <==>
               t < |b.st| && b.st[t] != OFFLINE && !(clean && b.st[t] == LEFT)
    ensures Distinct(b2.run) && forall t: nat :: t in b2.run <==> t in p
    ensures b2.parallel == b.parallel
  {
    hide IndexOk, FutexOk, PassedOk, CountOk;
    if clean {
      CleanedStates(b);
    }
    forall t: nat
      ensures t in b2.run <==> t in p
    {
      if t < |b2.st| {
        assert b2.st[t] != OFFLINE <==> t in b2.run;
      }
    }
  }
}

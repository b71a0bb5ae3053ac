/** Safety and progress of the barrier over every run. */
module BarrierProof {
  import opened Barrier
  import opened Counting

  // --------------------------------------------------------------- invariant

  function In(st: seq<ThreadState>, x: ThreadState): set<nat> {
    set t: nat | t < |st| && st[t] == x
  }

  /** The run list holds exactly the threads that are not OFFLINE, each once. */
  ghost predicate ListOk(b: Bar) {
    && Sized(b) && b.cur <= |b.run|
    && (forall i, j :: 0 <= i < j < |b.run| ==> b.run[i] != b.run[j])
    && (forall t: nat :: t < |b.st| ==> (b.st[t] != OFFLINE <==> t in b.run))
  }

  /** The counters are the true counts, and parallelism is bounded. */
  ghost predicate CountOk(b: Bar) {
    b.running == |In(b.st, RUNNING)| <= b.parallel && b.left == |In(b.st, LEFT)|
  }

  /** lastIdx is the true position of every thread woken since it was OFFLINE, and only
      such threads are RUNNING. */
  ghost predicate IndexOk(b: Bar)
    requires Sized(b)
  {
    && (forall t: nat :: t in b.woken ==>
          t < |b.st| && b.lastIdx[t] < |b.run| && b.run[b.lastIdx[t]] == t)
    && (forall t: nat :: t < |b.st| && b.st[t] == RUNNING ==> t in b.woken)
  }

  ghost predicate FutexOk(b: Bar)
    requires Sized(b)
  {
    forall t: nat :: t < |b.st| && b.st[t] == WAITING ==> b.futex[t] == 1
  }

  /** A waiting thread that the scan has passed has synced in this phase. */
  ghost predicate PassedOk(b: Bar)
    requires Sized(b) && b.cur <= |b.run|
  {
    forall i :: 0 <= i < b.cur && b.st[b.run[i]] == WAITING ==> b.run[i] in b.synced
  }

  /** lastIdx does no harm in a rejoin: it is the thread's position, or both lie at or after
      the scan position. */
  ghost predicate RejoinOk(b: Bar, t: nat)
    requires Sized(b) && t < |b.st|
  {
    exists q :: 0 <= q < |b.run| && b.run[q] == t && (b.lastIdx[t] == q || (q >= b.cur && b.lastIdx[t] >= b.cur))
  }

  ghost predicate CanJoin(b: Bar, t: nat)
    requires Sized(b)
  {
    t < |b.st| && (b.st[t] == OFFLINE || (b.st[t] == LEFT && RejoinOk(b, t)))
  }

  ghost predicate Safe(b: Bar) {
    ListOk(b) && CountOk(b) && IndexOk(b) && FutexOk(b) && PassedOk(b) && !b.bad
  }

  /** Nobody waits in vain, and no slot is left unused in this phase. */
  ghost predicate Progress(b: Bar) {
    && (b.running > 0 || In(b.st, WAITING) == {})
    && (b.running == b.parallel || b.cur == |b.run|)
  }

  // ---------------------------------------------------------------- counting

  lemma CountSet(st: seq<ThreadState>, t: nat, x: ThreadState, y: ThreadState)
    requires t < |st|
    ensures |In(st[t := x], y)| == |In(st, y)| + (if x == y then 1 else 0) - (if st[t] == y then 1 else 0)
  {
    hide In;
    InMember(st, t, y);
    if x == y {
      InGains(st, t, y);
      WithSize(In(st, y), t);
    } else {
      InLoses(st, t, x, y);
      WithoutSize(In(st, y), t);
    }
  }

  lemma InMember(st: seq<ThreadState>, t: nat, y: ThreadState)
    requires t < |st|
    ensures t in In(st, y) <==> st[t] == y
  {
  }

  lemma InGains(st: seq<ThreadState>, t: nat, y: ThreadState)
    requires t < |st|
    ensures In(st[t := y], y) == In(st, y) + {t}
  {
  }

  lemma InLoses(st: seq<ThreadState>, t: nat, x: ThreadState, y: ThreadState)
    requires t < |st| && x != y
    ensures In(st[t := x], y) == In(st, y) - {t}
  {
  }

  lemma WithSize(s: set<nat>, t: nat)
    ensures |s + {t}| == |s| + if t in s then 0 else 1
  {
    if t in s {
      assert s + {t} == s;
    }
  }

  lemma WithoutSize(s: set<nat>, t: nat)
    ensures |s - {t}| == |s| - if t in s then 1 else 0
  {
    if t !in s {
      assert s - {t} == s;
    }
  }

  function Elems(s: seq<nat>): set<nat> {
    set x | x in s
  }

  lemma {:induction false} DistinctCard(s: seq<nat>)
    requires forall i, j :: 0 <= i < j < |s| ==> s[i] != s[j]
    ensures |Elems(s)| == |s|
  {
    if s == [] {
      assert Elems(s) == {};
    } else {
      DistinctCard(s[1..]);
      assert Elems(s) == Elems(s[1..]) + {s[0]};
    }
  }

  // ------------------------------------------------------------- checkRunList

  lemma WakeOneSafe(b: Bar)
    requires Safe(b) && b.cur < |b.run| && b.running < b.parallel
    ensures Safe(WakeOne(b))
  {
    assert Sized(b);
    hide ListOk, CountOk, IndexOk, FutexOk, PassedOk;
    WakeList(b);
    WakeCount(b);
    WakeIndex(b);
    WakePassed(b);
  }

  lemma WakeList(b: Bar)
    requires ListOk(b) && b.cur < |b.run|
    ensures ListOk(WakeOne(b))
  {
    assert b.run[b.cur] in b.run;
  }

  lemma WakeCount(b: Bar)
    requires Sized(b) && CountOk(b) && b.cur < |b.run| && b.running < b.parallel
    ensures CountOk(WakeOne(b))
  {
    var w := b.run[b.cur];
    if b.st[w] == WAITING {
      CountSet(b.st, w, RUNNING, RUNNING);
      CountSet(b.st, w, RUNNING, LEFT);
    }
  }

  lemma WakeIndex(b: Bar)
    requires Sized(b) && IndexOk(b) && FutexOk(b) && !b.bad && b.cur < |b.run|
    ensures IndexOk(WakeOne(b)) && FutexOk(WakeOne(b)) && !WakeOne(b).bad
  {
  }

  lemma WakePassed(b: Bar)
    requires ListOk(b) && PassedOk(b) && b.cur < |b.run|
    ensures PassedOk(WakeOne(b))
  {
    var r, w := WakeOne(b), b.run[b.cur];
    forall i | 0 <= i < r.cur && r.st[r.run[i]] == WAITING
      ensures r.run[i] in r.synced
    {
      assert i < b.cur;
    }
  }

  lemma {:induction false} CheckRunListSafe(b: Bar)
    requires Safe(b)
    ensures Safe(CheckRunList(b))
    decreases |b.run| - b.cur
  {
    if b.running < b.parallel && b.cur < |b.run| {
      assert Sized(b);
      hide Safe;
      WakeOneSafe(b);
      CheckRunListSafe(WakeOne(b));
    }
  }

  /** The scan stops with parallelism saturated or the list exhausted; if it leaves nobody
      running, it met no waiting thread. */
  lemma {:induction false} CheckRunListStops(b: Bar)
    requires Sized(b) && 0 <= b.running <= b.parallel && b.cur <= |b.run|
    ensures var r := CheckRunList(b);
            && r.phase == b.phase && r.parallel == b.parallel && r.left == b.left && b.cur <= r.cur <= |b.run|
            && b.running <= r.running <= b.parallel
            && (r.running == r.parallel || r.cur == |r.run|)
            && (r.running == 0 ==> r.st == b.st && forall i :: b.cur <= i < r.cur ==> b.st[b.run[i]] != WAITING)
    decreases |b.run| - b.cur
  {
    if b.running < b.parallel && b.cur < |b.run| {
      CheckRunListStops(WakeOne(b));
    }
  }

  /** A saturated or exhausted list is left as it is. */
  lemma CheckRunListIdle(b: Bar)
    requires Sized(b) && (b.running >= b.parallel || b.cur >= |b.run|)
    ensures CheckRunList(b) == b
  {
  }

  // ------------------------------------------------------------ checkEndPhase

  lemma SwapRunSafe(b: Bar, i: nat, j: nat)
    requires ListOk(b) && IndexOk(b) && i < |b.run| && j < |b.run|
    ensures ListOk(SwapRun(b, i, j)) && IndexOk(SwapRun(b, i, j))
  {
    var r := SwapRun(b, i, j);
    forall t: nat | t < |b.st|
      ensures t in b.run <==> t in r.run
    {
      if t in b.run {
        var k :| 0 <= k < |b.run| && b.run[k] == t;
        assert r.run[if k == i then j else if k == j then i else k] == t;
      }
    }
  }

  lemma {:induction false} ShuffleSafe(b: Bar, i: nat, rnd: nat -> nat)
    requires ListOk(b) && IndexOk(b) && i < |b.run|
    ensures var r := Shuffle(b, i, rnd);
            && ListOk(r) && IndexOk(r)
            && r.parallel == b.parallel && r.st == b.st && r.futex == b.futex && r.cur == b.cur
            && r.running == b.running && r.left == b.left && r.phase == b.phase && r.bad == b.bad
    decreases i
  {
    if i > 0 {
      assert Sized(b);
      var j := rnd(i) % (i + 1);
      SwapRunSafe(b, i, j);
      hide ListOk, IndexOk;
      ShuffleSafe(SwapRun(b, i, j), i - 1, rnd);
    }
  }

  lemma ShuffleKeepsSafe(b: Bar, i: nat, rnd: nat -> nat)
    requires Safe(b) && b.cur == 0 && i < |b.run|
    ensures var r := Shuffle(b, i, rnd);
            && Safe(r) && r.cur == 0 && r.running == b.running && r.parallel == b.parallel
            && r.phase == b.phase && r.st == b.st
  {
    ShuffleSafe(b, i, rnd);
  }

  lemma DropLeftOk(b: Bar, idx: nat)
    requires ListOk(b) && IndexOk(b) && FutexOk(b) && b.cur == 0
    requires idx < |b.run| && b.st[b.run[idx]] == LEFT
    ensures var r := DropLeft(b, idx);
            && ListOk(r) && IndexOk(r) && FutexOk(r)
            && |In(r.st, LEFT)| == |In(b.st, LEFT)| - 1
            && In(r.st, RUNNING) == In(b.st, RUNNING) && In(r.st, WAITING) == In(b.st, WAITING)
  {
    assert Sized(b);
    hide ListOk, IndexOk, FutexOk;
    DropLeftList(b, idx);
    DropLeftIndex(b, idx);
    CountSet(b.st, b.run[idx], OFFLINE, LEFT);
  }

  lemma DropLeftList(b: Bar, idx: nat)
    requires ListOk(b) && b.cur == 0 && idx < |b.run|
    ensures ListOk(DropLeft(b, idx))
  {
    var r := DropLeft(b, idx);
    var w, n := b.run[idx], |b.run| - 1;
    forall t: nat | t < |b.st|
      ensures r.st[t] != OFFLINE <==> t in r.run
    {
      if t == w {
        assert t !in r.run;
      } else if t in b.run {
        var k :| 0 <= k < |b.run| && b.run[k] == t;
        assert r.run[if k == n then idx else k] == t;
      } else {
        assert t !in r.run;
      }
    }
  }

  lemma DropLeftIndex(b: Bar, idx: nat)
    requires ListOk(b) && IndexOk(b) && FutexOk(b) && idx < |b.run| && b.st[b.run[idx]] == LEFT
    ensures IndexOk(DropLeft(b, idx)) && FutexOk(DropLeft(b, idx))
  {
  }

  lemma CleanupStep(b: Bar, idx: nat)
    requires Sized(b)
    ensures idx >= |b.run| ==> Cleanup(b, idx) == b
    ensures idx < |b.run| ==> b.run[idx] < |b.st|
    ensures idx < |b.run| ==>
              Cleanup(b, idx) == if b.st[b.run[idx]] == LEFT then Cleanup(DropLeft(b, idx), idx)
                                 else Cleanup(b, idx + 1)
  {
  }

  /** The cleanup pass removes exactly the threads that left. */
  lemma {:induction false} CleanupOk(b: Bar, idx: nat)
    requires ListOk(b) && IndexOk(b) && FutexOk(b) && b.cur == 0 && idx <= |b.run|
    requires forall i :: 0 <= i < idx ==> b.st[b.run[i]] != LEFT
    ensures var r := Cleanup(b, idx);
            && ListOk(r) && IndexOk(r) && FutexOk(r)
            && |b.run| - |r.run| == |In(b.st, LEFT)|
            && In(r.st, LEFT) == {}
            && In(r.st, RUNNING) == In(b.st, RUNNING) && In(r.st, WAITING) == In(b.st, WAITING)
            && r == b.(st := r.st, run := r.run, lastIdx := r.lastIdx, woken := r.woken)
    decreases |b.run| - idx
  {
    hide DropLeft, ListOk, IndexOk, FutexOk, In, Cleanup;
    ListBounds(b);
    CleanupStep(b, idx);
    if idx < |b.run| {
      if b.st[b.run[idx]] == LEFT {
        DropLeftOk(b, idx);
        DropLeftFrame(b, idx);
        CleanupOk(DropLeft(b, idx), idx);
      } else {
        CleanupOk(b, idx + 1);
      }
    } else {
      NoneLeft(b);
    }
  }

  lemma DropLeftFrame(b: Bar, idx: nat)
    requires ListOk(b) && idx < |b.run| && forall i :: 0 <= i < idx ==> b.st[b.run[i]] != LEFT
    ensures var r := DropLeft(b, idx);
            && r == b.(st := r.st, run := r.run, lastIdx := r.lastIdx, woken := r.woken)
            && forall i :: 0 <= i < idx ==> r.st[r.run[i]] != LEFT
  {
  }

  lemma NoneLeft(b: Bar)
    requires ListOk(b) && forall i :: 0 <= i < |b.run| ==> b.st[b.run[i]] != LEFT
    ensures In(b.st, LEFT) == {}
  {
    forall t: nat | t < |b.st|
      ensures b.st[t] != LEFT
    {
    }
  }

  lemma LeftInList(b: Bar)
    requires ListOk(b) && CountOk(b)
    ensures In(b.st, LEFT) <= Elems(b.run)
    ensures b.left <= |b.run|
    ensures b.left == |b.run| ==> In(b.st, WAITING) == {}
  {
    DistinctCard(b.run);
    SubsetSize(In(b.st, LEFT), Elems(b.run));
    WaitingInList(b);
    assert In(b.st, WAITING) !! In(b.st, LEFT);
  }

  lemma WaitingInList(b: Bar)
    requires ListOk(b)
    ensures In(b.st, WAITING) <= Elems(b.run)
  {
  }

  /** When the callback fires, every thread of the barrier is LEFT or has synced. */
  lemma PhaseEndsComplete(b: Bar)
    requires Safe(b) && PhaseOver(b)
    ensures AllArrived(b) && |b.run| > 0
  {
    LeftInList(b);
    assert In(b.st, RUNNING) == {};
    forall i | 0 <= i < |b.run|
      ensures b.st[b.run[i]] == LEFT || b.run[i] in b.synced
    {
      assert b.run[i] in b.run;
      assert b.run[i] !in In(b.st, RUNNING);
    }
  }

  lemma CleanupPassSafe(b: Bar)
    requires Safe(b) && b.cur == 0 && |b.run| > 0
    ensures var r := CleanupPass(b);
            && Safe(r) && r.cur == 0 && r.running == b.running && r.parallel == b.parallel
            && r.phase == b.phase && In(r.st, WAITING) == In(b.st, WAITING)
  {
    CleanupOk(b, 0);
  }

  lemma EndPhaseSafe(b: Bar, rnd: nat -> nat)
    requires Safe(b)
    ensures var r := CheckEndPhase(b, rnd);
            && Safe(r) && r.parallel == b.parallel && r.running == b.running
            && In(r.st, WAITING) == In(b.st, WAITING)
            && (if PhaseOver(b) then r.cur == 0 && r.phase == b.phase + 1 else r == b)
  {
    hide Safe, NewPhase, AllArrived, In;
    SafeFacts(b);
    RewindSafe(b);
    if PhaseOver(b) {
      PhaseEndsComplete(b);
      var b1 := b.(bad := b.bad || !AllArrived(b), synced := {}, cur := 0, phase := b.phase + 1);
      assert b1 == b.(synced := {}, cur := 0, phase := b.phase + 1);
      NewPhaseSafe(b1, b.phase % 32 == 0, rnd);
    }
  }

  lemma NewPhaseSafe(b: Bar, clean: bool, rnd: nat -> nat)
    requires Safe(b) && b.cur == 0 && |b.run| > 0
    ensures var r := NewPhase(b, clean, rnd);
            && Safe(r) && r.cur == 0 && r.running == b.running && r.parallel == b.parallel
            && r.phase == b.phase && In(r.st, WAITING) == In(b.st, WAITING)
  {
    hide Safe, CleanupPass, Shuffle, In;
    SafeFacts(b);
    if clean {
      CleanupPassSafe(b);
    }
    var b2 := if clean then CleanupPass(b) else b;
    if b2.parallel < |b2.run| {
      ShuffleKeepsSafe(b2, |b2.run| - 1, rnd);
    }
  }

  lemma SafeFacts(b: Bar)
    requires Safe(b)
    ensures Sized(b) && !b.bad && 0 <= b.running <= b.parallel && b.cur <= |b.run|
  {
  }

  lemma RewindSafe(b: Bar)
    requires Safe(b)
    ensures Safe(b.(synced := {}, cur := 0, phase := b.phase + 1))
  {
  }

  lemma TryWakeNextOk(b: Bar, rnd: nat -> nat)
    requires Safe(b) && b.parallel > 0
    ensures var r := TryWakeNext(b, rnd);
            && Safe(r) && Progress(r) && r.parallel == b.parallel && b.phase <= r.phase <= b.phase + 1
            && (r.phase == b.phase + 1 <==> PhaseOver(CheckRunList(b)))
  {
    assert ListOk(b) && CountOk(b);
    CheckRunListSafe(b);
    CheckRunListStops(b);
    var b1 := CheckRunList(b);
    EndPhaseSafe(b1, rnd);
    var b2 := CheckEndPhase(b1, rnd);
    CheckRunListSafe(b2);
    CheckRunListStops(b2);
    if PhaseOver(b1) {
      NobodyWaits(b2);
    } else if b1.running == 0 {
      LeftInList(b1);
    }
  }

  /** A scan of the whole list that wakes nobody met no waiting thread. */
  lemma NobodyWaits(b: Bar)
    requires Safe(b) && b.cur == 0 && b.parallel > 0
    ensures var r := CheckRunList(b);
            r.running == 0 ==> In(r.st, WAITING) == {}
  {
    var r := CheckRunList(b);
    CheckRunListStops(b);
    WaitingInList(b);
    if r.running == 0 {
      assert forall t :: t in Elems(b.run) ==> b.st[t] != WAITING;
    }
  }

  // ------------------------------------------------------- join, leave, sync

  /** Joining puts the thread at or after the scan position; a thread that already ran in
      this phase finds itself at lastIdx and is rescheduled. */
  lemma JoinListSafe(b: Bar, t: nat)
    requires Safe(b) && CanJoin(b, t)
    ensures Safe(JoinList(b, t))
    ensures var r := JoinList(b, t);
            && r.parallel == b.parallel && r.phase == b.phase && r.running == b.running
            && exists i :: r.cur <= i < |r.run| && r.run[i] == t && r.st[t] == WAITING
  {
    if b.st[t] == OFFLINE {
      JoinOffline(b, t);
    } else {
      JoinLeft(b, t);
    }
  }

  lemma JoinCounts(b: Bar, t: nat)
    requires Safe(b) && t < |b.st| && (b.st[t] == OFFLINE || b.st[t] == LEFT)
    ensures CountOk(JoinList(b, t))
  {
    CountSet(b.st, t, WAITING, RUNNING);
    CountSet(b.st, t, WAITING, LEFT);
  }

  lemma JoinOffline(b: Bar, t: nat)
    requires Safe(b) && t < |b.st| && b.st[t] == OFFLINE
    ensures Safe(JoinList(b, t))
    ensures var r := JoinList(b, t);
            && r.parallel == b.parallel && r.phase == b.phase && r.running == b.running
            && exists i :: r.cur <= i < |r.run| && r.run[i] == t && r.st[t] == WAITING
  {
    var r := JoinList(b, t);
    JoinCounts(b, t);
    assert t !in b.run;
    assert r.run[|b.run|] == t;
    forall u: nat | u < |b.st|
      ensures r.st[u] != OFFLINE <==> u in r.run
    {
      assert u in b.run || u == t <==> u in r.run;
    }
  }

  lemma JoinLeft(b: Bar, t: nat)
    requires Safe(b) && t < |b.st| && b.st[t] == LEFT && RejoinOk(b, t)
    ensures Safe(JoinList(b, t))
    ensures var r := JoinList(b, t);
            && r.parallel == b.parallel && r.phase == b.phase && r.running == b.running
            && exists i :: r.cur <= i < |r.run| && r.run[i] == t && r.st[t] == WAITING
  {
    hide CountOk, FutexOk, PassedOk, ListOk, IndexOk;
    ListBounds(b);
    JoinCounts(b, t);
    JoinFutex(b, t);
    var q :| 0 <= q < |b.run| && b.run[q] == t && (b.lastIdx[t] == q || (q >= b.cur && b.lastIdx[t] >= b.cur));
    JoinPassed(b, t, q);
    var i := JoinLeftAt(b, t, q);
  }

  /** A thread that was woken since it was OFFLINE can always rejoin. */
  lemma WokenRejoins(b: Bar, t: nat)
    requires Sized(b) && IndexOk(b) && t in b.woken
    ensures RejoinOk(b, t)
  {
  }

  lemma ListBounds(b: Bar)
    requires ListOk(b)
    ensures Sized(b) && b.cur <= |b.run|
  {
  }

  lemma SwapMoves(b: Bar, i: nat, j: nat)
    requires Sized(b) && i < |b.run| && j < |b.run|
    ensures var r := SwapRun(b, i, j); r == b.(run := r.run, lastIdx := r.lastIdx) && r.run[j] == b.run[i]
  {
  }

  /** Where a LEFT thread ends up when it joins again. */
  lemma JoinLeftAt(b: Bar, t: nat, q: nat) returns (i: nat)
    requires ListOk(b) && IndexOk(b) && t < |b.st| && b.st[t] == LEFT && q < |b.run| && b.run[q] == t
    requires b.lastIdx[t] == q || (q >= b.cur && b.lastIdx[t] >= b.cur)
    ensures var r := JoinList(b, t);
            && ListOk(r) && IndexOk(r) && r.bad == b.bad
            && r.cur <= i < |r.run| && r.run[i] == t
  {
    hide ListOk, IndexOk, SwapRun;
    ListBounds(b);
    var r, last := JoinList(b, t), b.lastIdx[t];
    if b.cur > last {
      i := b.cur - 1;
      SwapRunSafe(b, last, b.cur - 1);
      SwapMoves(b, last, b.cur - 1);
      JoinLeftList(SwapRun(b, last, b.cur - 1), r, t);
    } else {
      i := q;
      JoinLeftList(b, r, t);
    }
  }

  lemma JoinFutex(b: Bar, t: nat)
    requires Sized(b) && FutexOk(b) && t < |b.st|
    ensures FutexOk(JoinList(b, t))
  {
  }

  lemma JoinLeftList(c: Bar, r: Bar, t: nat)
    requires ListOk(c) && IndexOk(c) && t < |c.st| && c.st[t] == LEFT
    requires r == c.(st := c.st[t := WAITING], futex := r.futex, synced := r.synced, cur := r.cur, left := r.left)
    requires Sized(r) && r.cur <= |r.run|
    ensures ListOk(r) && IndexOk(r)
  {
    forall u: nat | u < |r.st|
      ensures r.st[u] != OFFLINE <==> u in r.run
    {
      assert c.st[u] != OFFLINE <==> u in c.run;
    }
  }

  lemma JoinPassed(b: Bar, t: nat, q: nat)
    requires ListOk(b) && PassedOk(b) && t < |b.st| && b.st[t] == LEFT && q < |b.run| && b.run[q] == t
    requires b.lastIdx[t] == q || (q >= b.cur && b.lastIdx[t] >= b.cur)
    ensures PassedOk(JoinList(b, t))
  {
    var r, last := JoinList(b, t), b.lastIdx[t];
    forall i | 0 <= i < r.cur && r.st[r.run[i]] == WAITING
      ensures r.run[i] in r.synced
    {
      assert r.run[i] == b.run[if i == last && last < b.cur then b.cur - 1 else i];
      assert r.run[i] != t;
    }
  }

  /** A join never ends a phase. */
  lemma JoinOk(b: Bar, t: nat, rnd: nat -> nat)
    requires Safe(b) && b.parallel > 0 && CanJoin(b, t)
    ensures var r := Join(b, t, rnd);
            Safe(r) && Progress(r) && r.parallel == b.parallel && r.phase == b.phase
  {
    JoinListSafe(b, t);
    var c := JoinList(b, t);
    TryWakeNextOk(c, rnd);
    assert ListOk(c) && CountOk(c);
    CheckRunListStops(c);
    var i :| c.cur <= i < |c.run| && c.run[i] == t && c.st[t] == WAITING;
    assert !PhaseOver(CheckRunList(c));
  }

  lemma LeaveOk(b: Bar, t: nat, rnd: nat -> nat)
    requires Safe(b) && Progress(b) && b.parallel > 0 && t < |b.st|
    requires b.st[t] == RUNNING || b.st[t] == WAITING
    ensures var r := Leave(b, t, rnd);
            Safe(r) && Progress(r) && r.parallel == b.parallel
  {
    hide Safe, Progress, TryWakeNext;
    if b.st[t] == RUNNING {
      RunningLeaves(b, t);
      TryWakeNextOk(b.(st := b.st[t := LEFT], left := b.left + 1, running := b.running - 1), rnd);
    } else {
      WaitingLeaves(b, t);
    }
  }

  lemma RunningLeaves(b: Bar, t: nat)
    requires Safe(b) && t < |b.st| && b.st[t] == RUNNING
    ensures Safe(b.(st := b.st[t := LEFT], left := b.left + 1, running := b.running - 1))
  {
    CountSet(b.st, t, LEFT, RUNNING);
    CountSet(b.st, t, LEFT, LEFT);
    assert t in b.run;
  }

  lemma WaitingLeaves(b: Bar, t: nat)
    requires Safe(b) && Progress(b) && t < |b.st| && b.st[t] == WAITING
    ensures var c := b.(st := b.st[t := LEFT], left := b.left + 1); Safe(c) && Progress(c)
  {
    CountSet(b.st, t, LEFT, RUNNING);
    CountSet(b.st, t, LEFT, LEFT);
    assert t in b.run && t in In(b.st, WAITING);
  }

  lemma SyncOk(b: Bar, t: nat, rnd: nat -> nat)
    requires Safe(b) && b.parallel > 0 && t < |b.st| && b.st[t] == RUNNING
    ensures var r := Sync(b, t, rnd);
            Safe(r) && Progress(r) && r.parallel == b.parallel
  {
    CountSet(b.st, t, WAITING, RUNNING);
    CountSet(b.st, t, WAITING, LEFT);
    assert t in b.run;
    var c := b.(futex := b.futex[t := 1], st := b.st[t := WAITING], running := b.running - 1,
                synced := b.synced + {t});
    assert Safe(c);
    TryWakeNextOk(c, rnd);
  }
}

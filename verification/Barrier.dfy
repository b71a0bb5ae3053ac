/** A barrier with join-leave semantics and bounded parallelism.

    Each operation runs under the scheduler lock and is one atomic step.  The random
    generator of the shuffle is an arbitrary function argument.  `synced` and `woken` only
    record history: the threads that have reached the barrier in this phase, and the
    threads woken since they were last OFFLINE.  A failing assertion, a wake-up race, or a
    phase that ends before every thread left or synced sets `bad`. */
module Barrier {

  datatype ThreadState = OFFLINE | WAITING | RUNNING | LEFT

  datatype Bar = Bar(
    parallel: nat,
    st: seq<ThreadState>,
    futex: seq<nat>,
    lastIdx: seq<nat>,
    run: seq<nat>,
    cur: nat,
    running: int,
    left: int,
    phase: nat,
    synced: set<nat>,
    woken: set<nat>,
    bad: bool)

  predicate Sized(b: Bar) {
    |b.futex| == |b.st| && |b.lastIdx| == |b.st| && (forall i :: 0 <= i < |b.run| ==> b.run[i] < |b.st|)
  }

  // -------------------------------------------------------------- operations

  /** One iteration of checkRunList: look at the next thread of the run list. */
  function WakeOne(b: Bar): (r: Bar)
    requires Sized(b) && b.cur < |b.run|
    ensures Sized(r) && |r.st| == |b.st| && r.run == b.run && r.cur == b.cur + 1
  {
    var idx := b.cur;
    var w := b.run[idx];
    if b.st[w] == WAITING then
      b.(cur := idx + 1,
         st := b.st[w := RUNNING],
         lastIdx := b.lastIdx[w := idx],
         futex := b.futex[w := 0],
         running := b.running + 1,
         synced := b.synced - {w},
         woken := b.woken + {w},
         bad := b.bad || b.futex[w] != 1)
    else b.(cur := idx + 1)
  }

  function CheckRunList(b: Bar): (r: Bar)
    requires Sized(b)
    ensures Sized(r) && |r.st| == |b.st| && r.run == b.run
    decreases |b.run| - b.cur
  {
    if b.running < b.parallel && b.cur < |b.run| then CheckRunList(WakeOne(b)) else b
  }

  /** One removal of the cleanup pass: the thread at idx goes OFFLINE and the last thread of
      the list takes its place. */
  function DropLeft(b: Bar, idx: nat): (r: Bar)
    requires Sized(b) && idx < |b.run|
    ensures Sized(r) && |r.st| == |b.st| && |r.run| == |b.run| - 1
  {
    var w := b.run[idx];
    var s := b.run[|b.run| - 1];
    b.(st := b.st[w := OFFLINE],
       run := b.run[idx := s][..|b.run| - 1],
       lastIdx := b.lastIdx[s := idx],
       woken := b.woken - {w})
  }

  function Cleanup(b: Bar, idx: nat): (r: Bar)
    requires Sized(b)
    ensures Sized(r) && |r.st| == |b.st|
    decreases |b.run| - idx
  {
    if idx < |b.run| then
      if b.st[b.run[idx]] == LEFT then Cleanup(DropLeft(b, idx), idx) else Cleanup(b, idx + 1)
    else b
  }

  function SwapRun(b: Bar, i: nat, j: nat): (r: Bar)
    requires Sized(b) && i < |b.run| && j < |b.run|
    ensures Sized(r) && |r.st| == |b.st| && |r.run| == |b.run|
  {
    var it, jt := b.run[i], b.run[j];
    b.(run := b.run[i := jt][j := it], lastIdx := b.lastIdx[it := j][jt := i])
  }

  /** Fisher-Yates shuffle of run[..i+1]. */
  function Shuffle(b: Bar, i: nat, rnd: nat -> nat): (r: Bar)
    requires Sized(b) && i < |b.run|
    ensures Sized(r) && |r.st| == |b.st| && |r.run| == |b.run|
    decreases i
  {
    if i == 0 then b else Shuffle(SwapRun(b, i, rnd(i) % (i + 1)), i - 1, rnd)
  }

  /** Every thread of the barrier has left or has synced in this phase. */
  predicate AllArrived(b: Bar)
    requires Sized(b)
  {
    forall i :: 0 <= i < |b.run| ==> b.st[b.run[i]] == LEFT || b.run[i] in b.synced
  }

  predicate PhaseOver(b: Bar) {
    b.cur == |b.run| && b.running == 0 && b.left != |b.run|
  }

  function CheckEndPhase(b: Bar, rnd: nat -> nat): (r: Bar)
    requires Sized(b)
    ensures Sized(r) && |r.st| == |b.st|
  {
    if !PhaseOver(b) then b
    else
      var b1 := b.(bad := b.bad || !AllArrived(b), synced := {}, cur := 0, phase := b.phase + 1);
      NewPhase(b1, b.phase % 32 == 0, rnd)
  }

  /** Prepare the rewound run list: one phase in 32 drop the threads that left, and shuffle
      if not all threads can run at once. */
  function NewPhase(b: Bar, clean: bool, rnd: nat -> nat): (r: Bar)
    requires Sized(b)
    ensures Sized(r) && |r.st| == |b.st|
  {
    var b2 := if clean then CleanupPass(b) else b;
    if b2.parallel < |b2.run| then Shuffle(b2, |b2.run| - 1, rnd) else b2
  }

  function CleanupPass(b: Bar): (r: Bar)
    requires Sized(b)
    ensures Sized(r) && |r.st| == |b.st|
  {
    var c := Cleanup(b.(bad := b.bad || |b.run| == 0), 0);
    c.(left := 0, bad := c.bad || |b.run| - |c.run| != b.left)
  }

  function TryWakeNext(b: Bar, rnd: nat -> nat): (r: Bar)
    requires Sized(b)
    ensures Sized(r) && |r.st| == |b.st|
  {
    CheckRunList(CheckEndPhase(CheckRunList(b), rnd))
  }

  /** join puts the thread on the run list; one that already ran in this phase swaps places
      with the last thread looked at, so that it is looked at next. */
  function JoinPlace(b: Bar, t: nat): (r: Bar)
    requires Sized(b) && t < |b.st|
    ensures Sized(r) && |r.st| == |b.st|
  {
    if b.st[t] == OFFLINE then b.(run := b.run + [t])
    else
      var last := b.lastIdx[t];
      if b.cur > last then
        if b.cur <= |b.run| then
          var c := SwapRun(b, last, b.cur - 1);
          c.(left := b.left - 1, cur := b.cur - 1, bad := b.bad || b.run[last] != t)
        else b.(left := b.left - 1, bad := true)
      else b.(left := b.left - 1)
  }

  /** The part of join before tryWakeNext. */
  function JoinList(b: Bar, t: nat): (r: Bar)
    requires Sized(b) && t < |b.st|
    ensures Sized(r) && |r.st| == |b.st|
  {
    var c := JoinPlace(b, t);
    c.(st := c.st[t := WAITING],
       futex := c.futex[t := 1],
       synced := c.synced - {t},
       bad := c.bad || !(b.st[t] == LEFT || b.st[t] == OFFLINE))
  }

  function Join(b: Bar, t: nat, rnd: nat -> nat): (r: Bar)
    requires Sized(b) && t < |b.st|
    ensures Sized(r) && |r.st| == |b.st|
  {
    TryWakeNext(JoinList(b, t), rnd)
  }

  function Leave(b: Bar, t: nat, rnd: nat -> nat): (r: Bar)
    requires Sized(b) && t < |b.st|
    ensures Sized(r) && |r.st| == |b.st|
  {
    if b.st[t] == RUNNING then
      TryWakeNext(b.(st := b.st[t := LEFT], left := b.left + 1, running := b.running - 1), rnd)
    else
      b.(st := b.st[t := LEFT], left := b.left + 1, bad := b.bad || b.st[t] != WAITING)
  }

  function Sync(b: Bar, t: nat, rnd: nat -> nat): (r: Bar)
    requires Sized(b) && t < |b.st|
    ensures Sized(r) && |r.st| == |b.st|
  {
    TryWakeNext(b.(futex := b.futex[t := 1],
                   st := b.st[t := WAITING],
                   running := b.running - 1,
                   synced := b.synced + {t},
                   bad := b.bad || b.st[t] != RUNNING), rnd)
  }
}

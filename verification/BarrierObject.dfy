/** The barrier object with its arrays updated in place, proved against the functions that the
    barrier theorems are about. */
module BarrierObject {
  import opened Barrier
  import opened BarrierProof
  import opened Counting

  class SyncBarrier {
    const parallelThreads: nat
    const state: array<ThreadState>
    const futexWord: array<nat>
    const lastIdx: array<nat>
    const runList: array<nat>
    var runListSize: nat
    var curThreadIdx: nat
    var runningThreads: int
    var leftThreads: int
    var phaseCount: nat
    ghost var synced: set<nat>
    ghost var woken: set<nat>
    ghost var failed: bool        // what the model calls bad

    ghost predicate Shape()
      reads this
    {
      && state.Length == futexWord.Length == lastIdx.Length == runList.Length
      && futexWord != lastIdx && futexWord != runList && lastIdx != runList
      && runListSize <= runList.Length
    }

    ghost predicate Valid()
      reads this, state, futexWord, lastIdx, runList
    {
      Shape() && Sized(Abs())
    }

    /** The barrier seen with a run list of n entries. */
    ghost function View(n: nat): (b: Bar)
      reads this, state, futexWord, lastIdx, runList
      requires Shape() && n <= runList.Length
    {
      Bar(parallelThreads, state[..], futexWord[..], lastIdx[..], runList[..n], curThreadIdx,
          runningThreads, leftThreads, phaseCount, synced, woken, failed)
    }

    ghost function Abs(): (b: Bar)
      reads this, state, futexWord, lastIdx, runList
      requires Shape()
    {
      View(runListSize)
    }

    constructor (maxThreads: nat, parallel: nat)
      ensures Valid() && parallelThreads == parallel && state.Length == maxThreads
      ensures runListSize == 0 && curThreadIdx == 0 && runningThreads == 0 && leftThreads == 0 && !failed
      ensures synced == {} && woken == {} && phaseCount == 0
      ensures forall t :: 0 <= t < maxThreads ==> state[t] == OFFLINE && futexWord[t] == 0
      ensures fresh(state) && fresh(futexWord) && fresh(lastIdx) && fresh(runList)
    {
      parallelThreads := parallel;
      state := new ThreadState[maxThreads](_ => OFFLINE);
      futexWord := new nat[maxThreads](_ => 0);
      lastIdx := new nat[maxThreads](_ => 0);
      runList := new nat[maxThreads](_ => 0);
      runListSize, curThreadIdx, runningThreads, leftThreads, phaseCount := 0, 0, 0, 0, 0;
      synced, woken, failed := {}, {}, false;
    }

    /** One iteration of checkRunList. */
    method WakeNext()
      requires Valid() && curThreadIdx < runListSize
      modifies this, state, futexWord, lastIdx
      ensures Valid() && Abs() == WakeOne(old(Abs())) && runListSize == old(runListSize)
    {
      ghost var b := Abs();
      var idx := curThreadIdx;
      curThreadIdx := curThreadIdx + 1;
      var wtid := runList[idx];
      assert b.run[idx] == wtid;
      if state[wtid] == WAITING {
        state[wtid] := RUNNING;
        lastIdx[wtid] := idx;
        failed := failed || futexWord[wtid] != 1;
        futexWord[wtid] := 0;
        runningThreads := runningThreads + 1;
        synced, woken := synced - {wtid}, woken + {wtid};
      }
    }

    method DoCheckRunList()
      requires Valid()
      modifies this, state, futexWord, lastIdx
      ensures Valid() && Abs() == CheckRunList(old(Abs()))
    {
      hide Sized, WakeOne;
      while runningThreads < parallelThreads && curThreadIdx < runListSize
        invariant Valid()
        invariant CheckRunList(Abs()) == CheckRunList(old(Abs()))
        decreases runListSize - curThreadIdx
      {
        WakeNext();
      }
    }

    /** One removal of the cleanup pass; the last entry of the list becomes garbage. */
    method DropAt(idx: nat, newSize: nat)
      requires Shape() && idx < newSize <= runListSize && Sized(View(newSize))
      modifies state, lastIdx, runList, this`woken
      ensures Shape() && View(newSize - 1) == DropLeft(old(View(newSize)), idx)
    {
      ghost var b := View(newSize);
      var wtid := runList[idx];
      var stid := runList[newSize - 1];
      assert b.run[idx] == wtid && b.run[newSize - 1] == stid;
      state[wtid] := OFFLINE;
      runList[idx] := stid;
      lastIdx[stid] := idx;
      woken := woken - {wtid};
      assert View(newSize - 1).run == DropLeft(b, idx).run;
    }

    /** The loop that takes the threads that left off the list. */
    method CleanList() returns (newSize: nat)
      requires Valid()
      modifies state, lastIdx, runList, this`woken
      ensures Shape() && newSize <= runListSize && View(newSize) == Cleanup(old(Abs()), 0)
    {
      hide DropLeft, Sized, Cleanup;
      ghost var b := Abs();
      var idx: nat := 0;
      newSize := runListSize;
      while idx < newSize
        invariant Shape() && newSize <= runListSize && Sized(View(newSize))
        invariant Cleanup(View(newSize), idx) == Cleanup(b, 0)
        decreases newSize - idx
      {
        CleanupStep(View(newSize), idx);
        assert View(newSize).run[idx] == runList[idx];
        if state[runList[idx]] == LEFT {
          DropAt(idx, newSize);
          newSize := newSize - 1;
        } else {
          idx := idx + 1;
        }
      }
      CleanupStep(View(newSize), idx);
    }

    /** The pass that takes the threads that left off the list. */
    method DoCleanup()
      requires Valid()
      modifies this, state, lastIdx, runList
      ensures Valid() && Abs() == CleanupPass(old(Abs()))
    {
      hide Cleanup;
      failed := failed || runListSize == 0;
      var newSize := CleanList();
      failed := failed || runListSize - newSize != leftThreads;
      leftThreads := 0;
      runListSize := newSize;
    }

    /** Exchange two entries of the run list and record where the threads went. */
    method SwapAt(i: nat, j: nat)
      requires Valid() && i < runListSize && j < runListSize
      modifies lastIdx, runList
      ensures Valid() && Abs() == SwapRun(old(Abs()), i, j)
    {
      ghost var b := Abs();
      var itid, jtid := runList[i], runList[j];
      assert b.run[i] == itid && b.run[j] == jtid;
      runList[i] := jtid;
      runList[j] := itid;
      lastIdx[itid] := j;
      lastIdx[jtid] := i;
      assert Abs().run == SwapRun(b, i, j).run;
    }

    method DoShuffle(rnd: nat -> nat)
      requires Valid() && runListSize > 0
      modifies lastIdx, runList
      ensures Valid() && Abs() == Shuffle(old(Abs()), runListSize - 1, rnd)
    {
      hide Sized, SwapRun, Shuffle;
      var i: nat := runListSize - 1;
      while i > 0
        invariant Valid() && i < runListSize
        invariant Shuffle(Abs(), i, rnd) == Shuffle(old(Abs()), runListSize - 1, rnd)
      {
        ShuffleStep(Abs(), i, rnd);
        SwapAt(i, rnd(i) % (i + 1));
        i := i - 1;
      }
      ShuffleStep(Abs(), 0, rnd);
    }

    method DoNewPhase(clean: bool, rnd: nat -> nat)
      requires Valid()
      modifies this, state, lastIdx, runList
      ensures Valid() && Abs() == NewPhase(old(Abs()), clean, rnd)
    {
      hide Sized, CleanupPass, Shuffle;
      if clean {
        DoCleanup();
      }
      if parallelThreads < runListSize {
        DoShuffle(rnd);
      }
    }

    method DoCheckEndPhase(rnd: nat -> nat)
      requires Valid()
      modifies this, state, lastIdx, runList
      ensures Valid() && Abs() == CheckEndPhase(old(Abs()), rnd)
    {
      hide NewPhase;
      if curThreadIdx == runListSize && runningThreads == 0 {
        if leftThreads == runListSize {
          return;
        }
        ghost var b := Abs();
        failed := failed || !AllArrived(b);
        synced := {};
        curThreadIdx := 0;
        phaseCount := phaseCount + 1;
        DoNewPhase((phaseCount - 1) % 32 == 0, rnd);
      }
    }

    method DoTryWakeNext(rnd: nat -> nat)
      requires Valid()
      modifies this, state, futexWord, lastIdx, runList
      ensures Valid() && Abs() == TryWakeNext(old(Abs()), rnd)
    {
      hide Sized, CheckRunList, CheckEndPhase;
      DoCheckRunList();
      DoCheckEndPhase(rnd);
      DoCheckRunList();
    }

    method Place(tid: nat)
      requires Valid() && ListOk(Abs()) && tid < state.Length
      requires state[tid] == OFFLINE || state[tid] == LEFT
      modifies this, lastIdx, runList
      ensures Valid() && Abs() == JoinPlace(old(Abs()), tid)
    {
      hide SwapRun;
      ghost var b := Abs();
      if state[tid] == OFFLINE {
        RoomInList(b, tid);
        runList[runListSize] := tid;
        runListSize := runListSize + 1;
        assert Abs().run == b.run + [tid];
      } else {
        Replace(tid);
      }
    }

    /** A thread that left is still on the list; if it ran in this phase it changes places with
        the last thread looked at. */
    method Replace(tid: nat)
      requires Valid() && curThreadIdx <= runListSize && tid < state.Length && state[tid] != OFFLINE
      modifies this, lastIdx, runList
      ensures Valid() && Abs() == JoinPlace(old(Abs()), tid)
    {
      hide SwapRun;
      ghost var b := Abs();
      leftThreads := leftThreads - 1;
      var last := lastIdx[tid];
      if curThreadIdx > last {
        curThreadIdx := curThreadIdx - 1;
        failed := failed || runList[last] != tid;
        SwapFrame(b, b, last, curThreadIdx);
        SwapFrame(b, Abs(), last, curThreadIdx);
        SwapAt(last, curThreadIdx);
      }
    }

    /** join up to tryWakeNext. */
    method DoJoinList(tid: nat)
      requires Valid() && ListOk(Abs()) && tid < state.Length
      requires state[tid] == OFFLINE || state[tid] == LEFT
      modifies this, state, futexWord, lastIdx, runList
      ensures Valid() && Abs() == JoinList(old(Abs()), tid)
    {
      hide JoinPlace;
      Place(tid);
      state[tid] := WAITING;
      futexWord[tid] := 1;
      synced := synced - {tid};
    }

    /** Called with the scheduler lock held; the wait on the futex is not modelled. */
    method DoJoin(tid: nat, rnd: nat -> nat)
      requires Valid() && Safe(Abs()) && parallelThreads > 0 && tid < state.Length
      requires state[tid] == OFFLINE || state[tid] == LEFT
      modifies this, state, futexWord, lastIdx, runList
      ensures Valid() && Abs() == Join(old(Abs()), tid, rnd)
      ensures CanJoin(old(Abs()), tid) ==> Safe(Abs()) && Progress(Abs()) && phaseCount == old(phaseCount)
    {
      hide ListOk, IndexOk, CountOk, FutexOk, PassedOk, Progress, TryWakeNext, JoinList, CanJoin;
      ghost var b := Abs();
      if CanJoin(b, tid) {
        JoinOk(b, tid, rnd);
      }
      DoJoinList(tid);
      DoTryWakeNext(rnd);
    }

    method DoLeave(tid: nat, rnd: nat -> nat)
      requires Valid() && Safe(Abs()) && Progress(Abs()) && parallelThreads > 0 && tid < state.Length
      requires state[tid] == RUNNING || state[tid] == WAITING
      modifies this, state, futexWord, lastIdx, runList
      ensures Valid() && Abs() == Leave(old(Abs()), tid, rnd)
      ensures Safe(Abs()) && Progress(Abs())
    {
      hide Safe, Progress, TryWakeNext;
      ghost var b := Abs();
      LeaveOk(b, tid, rnd);
      if state[tid] == RUNNING {
        state[tid] := LEFT;
        leftThreads := leftThreads + 1;
        runningThreads := runningThreads - 1;
        DoTryWakeNext(rnd);
      } else {
        state[tid] := LEFT;
        leftThreads := leftThreads + 1;
      }
    }

    method DoSync(tid: nat, rnd: nat -> nat)
      requires Valid() && Safe(Abs()) && parallelThreads > 0 && tid < state.Length && state[tid] == RUNNING
      modifies this, state, futexWord, lastIdx, runList
      ensures Valid() && Abs() == Sync(old(Abs()), tid, rnd)
      ensures Safe(Abs()) && Progress(Abs())
    {
      hide Safe, Progress, TryWakeNext;
      ghost var b := Abs();
      SyncOk(b, tid, rnd);
      futexWord[tid] := 1;
      state[tid] := WAITING;
      runningThreads := runningThreads - 1;
      synced := synced + {tid};
      DoTryWakeNext(rnd);
    }
  }

  lemma ShuffleStep(b: Bar, i: nat, rnd: nat -> nat)
    requires Sized(b) && i < |b.run|
    ensures Shuffle(b, 0, rnd) == b
    ensures i > 0 ==> Shuffle(b, i, rnd) == Shuffle(SwapRun(b, i, rnd(i) % (i + 1)), i - 1, rnd)
  {
  }

  /** The run list never overflows its array. */
  lemma RoomInList(b: Bar, t: nat)
    requires ListOk(b) && t < |b.st| && b.st[t] == OFFLINE
    ensures |b.run| < |b.st|
  {
    DistinctCard(b.run);
    UpToCard(|b.st|);
    assert Elems(b.run) <= UpTo(|b.st|) - {t};
    SubsetSize(Elems(b.run), UpTo(|b.st|) - {t});
  }

  lemma SwapFrame(b: Bar, c: Bar, i: nat, j: nat)
    requires Sized(b) && Sized(c) && b.run == c.run && b.lastIdx == c.lastIdx && i < |b.run| && j < |b.run|
    ensures SwapRun(c, i, j) == c.(run := SwapRun(b, i, j).run, lastIdx := SwapRun(b, i, j).lastIdx)
  {
  }

  function UpTo(n: nat): (s: set<nat>)
    ensures forall u: nat :: u in s <==> u < n
  {
    if n == 0 then {} else UpTo(n - 1) + {n - 1}
  }

  lemma {:induction false} UpToCard(n: nat)
    ensures |UpTo(n)| == n
  {
    if n > 0 {
      UpToCard(n - 1);
    }
  }
}

/** When adaptive events fire on time and in bounds, from what is known when they are inserted. */
module EventTiming {
  import opened EventQueue
  import opened EventQueueProof

  // ------------------------------------------------------------------- counters

  lemma Monotone(get: Counters, id: nat, maxRate: nat, p: nat, q: nat)
    requires RateOk(get, id, maxRate) && p <= q
    ensures get(id, p) <= get(id, q)
  {
    Growth(get, id, maxRate, p, q - p);
    assert p + (q - p) == q;
  }

  lemma {:induction false} FindReached(get: Counters, w: Watch, hi: nat) returns (r: nat)
    requires w.first <= hi && get(w.id, hi) >= w.target
    ensures r <= hi && Reached(get, w, r)
    decreases hi - w.first
  {
    if get(w.id, w.first) >= w.target {
      r := w.first;
    } else {
      r := FindReached(get, w.(first := w.first + 1), hi);
    }
  }

  lemma SameReached(get: Counters, id: nat, p0: nat, d: nat, target: nat, maxRate: nat, r: nat)
    requires RateOk(get, id, maxRate) && d >= 1 && (d == 1 || get(id, p0 + d - 1) < target)
    ensures Reached(get, Watch(id, p0 + d, target, maxRate), r) <==> Reached(get, Watch(id, p0 + 1, target, maxRate), r)
  {
    hide RateOk;
    BelowUntil(get, id, p0, d, target, maxRate);
  }

  lemma BelowUntil(get: Counters, id: nat, p0: nat, d: nat, target: nat, maxRate: nat)
    requires RateOk(get, id, maxRate) && d >= 1 && (d == 1 || get(id, p0 + d - 1) < target)
    ensures forall q: nat :: p0 < q < p0 + d ==> get(id, q) < target
  {
    hide RateOk;
    forall q: nat | p0 < q < p0 + d
      ensures get(id, q) < target
    {
      Monotone(get, id, maxRate, q, p0 + d - 1);
    }
  }

  // ------------------------------------------------------------ exactly when, over all runs

  predicate Insertable(step: Step) {
    && step.InsertAdaptive? && step.startDelay >= -1 && step.start <= step.target && step.maxRate >= 1
    && DelayOf(step) >= 1
  }

  /** A run in which step is taken in state s, with the counter at c, and ends in t. */
  ghost predicate Insertion(get: Counters, before: seq<Step>, s: State, step: Step, after: seq<Step>, t: State,
                            c: nat)
  {
    && Run(get, EMPTY, before, s) && Enabled(s, step) && Run(get, Next(get, s, step), after, t)
    && step.InsertAdaptive? && RateOk(get, step.id, step.maxRate) && get(step.id, s.phase) == c
  }

  /** The counter cannot pass the target before the first check. */
  predicate Timely(step: Step, c: nat)
    requires Insertable(step)
  {
    Farthest(c, DelayOf(step), step.maxRate) <= step.target
  }

  /** It cannot even reach the target after the insertion and before the first check. */
  predicate Early(step: Step, c: nat)
    requires Insertable(step)
  {
    DelayOf(step) == 1 || Farthest(c, DelayOf(step), step.maxRate) < step.target
  }

  predicate FiredAt(t: State, id: nat, r: nat) {
    Fire(id, r, true) in t.fired || Fire(id, r, false) in t.fired
  }

  /** The event has fired in the first phase after p0 in which the target was reached. */
  ghost predicate FiresOnTime(get: Counters, p0: nat, step: Step, t: State)
    requires step.InsertAdaptive?
  {
    forall r: nat :: FiredAt(t, step.id, r) <==>
      r <= t.phase && Reached(get, Watch(step.id, p0 + 1, step.target, step.maxRate), r)
  }

  /** The event has not failed its assertion. */
  ghost predicate FiresInBounds(step: Step, t: State)
    requires step.InsertAdaptive?
  {
    forall r: nat :: Fire(step.id, r, false) !in t.fired
  }

  /** A counter that is at c up to phase 0 and then grows as fast as it may. */
  function Fastest(c: nat, maxRate: nat): Counters {
    (id: nat, q: nat) => c + q * maxRate
  }

  lemma FastestOk(c: nat, maxRate: nat, id: nat, d: nat)
    requires d >= 1
    ensures var get := Fastest(c, maxRate);
            && RateOk(get, id, maxRate) && get(id, 0) == c
            && get(id, d - 1) == Farthest(c, d, maxRate) && get(id, d) == Farthest(c, d, maxRate) + maxRate
  {
    forall p: nat
      ensures c + p * maxRate <= c + (p + 1) * maxRate <= c + p * maxRate + maxRate
    {
      assert (p + 1) * maxRate == p * maxRate + maxRate;
    }
    assert (d - 1) * maxRate + maxRate == d * maxRate;
  }

  /** Nothing but ticks. */
  lemma {:induction false} Ticks(get: Counters, s: State, n: nat) returns (steps: seq<Step>, t: State)
    requires Ready(s, s.phase + 1)
    ensures Run(get, s, steps, t) && t.phase == s.phase + n
    decreases n
  {
    hide Ready, Tick;
    if n == 0 {
      steps, t := [], s;
    } else {
      ReadyRates(s, s.phase + 1);
      SamePhase(s);
      TickReady(get, s.(phase := s.phase + 1));
      var m := Next(get, s, Advance);
      var rest;
      rest, t := Ticks(get, m, n - 1);
      steps := [Advance] + rest;
      assert steps[1..] == rest;
    }
  }

  /** The event inserted first of all, with the fastest counter, and followed to its first check. */
  lemma FastestRun(step: Step, c: nat) returns (after: seq<Step>, t: State)
    requires Insertable(step)
    ensures Insertion(Fastest(c, step.maxRate), [], EMPTY, step, after, t, c) && t.phase == DelayOf(step)
  {
    hide Ready, Run, RateOk, Tick, Next, Farthest;
    var get, d := Fastest(c, step.maxRate), DelayOf(step);
    FastestOk(c, step.maxRate, step.id, d);
    EmptyReady();
    assert Enabled(EMPTY, step);
    StepReady(get, EMPTY, step);
    InsertPhase(get, EMPTY, step);
    after, t := Ticks(get, Next(get, EMPTY, step), d);
    EmptyRun(get, EMPTY);
  }

  lemma EmptyRun(get: Counters, s: State)
    ensures Run(get, s, [], s)
  {
  }

  lemma InsertPhase(get: Counters, s: State, step: Step)
    requires Enabled(s, step) && !step.Advance?
    ensures Next(get, s, step).phase == s.phase
  {
  }

  /** For every adaptive event and every value of its counter at the insertion: it never fails
      its assertion, in any run and with any counter that keeps to its rate, iff the counter
      cannot pass the target before the first check. */
  lemma BoundsExact(step: Step, c: nat)
    requires Insertable(step)
    ensures (forall get: Counters, before: seq<Step>, s: State, after: seq<Step>, t: State ::
               Insertion(get, before, s, step, after, t, c) ==> FiresInBounds(step, t))
       <==> Timely(step, c)
  {
    hide Insertion, Farthest, FiresInBounds;
    if Timely(step, c) {
      forall get: Counters, before: seq<Step>, s: State, after: seq<Step>, t: State
        | Insertion(get, before, s, step, after, t, c)
        ensures FiresInBounds(step, t)
      {
        TimelyInBounds(get, before, s, step, after, t, c);
      }
    } else {
      var after, t := FastestRun(step, c);
      FastestOvershoots(step, c, after, t);
    }
  }

  lemma TimelyInBounds(get: Counters, before: seq<Step>, s: State, step: Step, after: seq<Step>, t: State, c: nat)
    requires Insertable(step) && Timely(step, c) && Insertion(get, before, s, step, after, t, c)
    ensures FiresInBounds(step, t)
  {
    hide Run, Reached, RateOk, RatesOk, FiredOnce, Next, Farthest;
    AdaptiveFires(get, before, s, step, after, t);
  }

  lemma FastestOvershoots(step: Step, c: nat, after: seq<Step>, t: State)
    requires Insertable(step) && !Timely(step, c) && t.phase == DelayOf(step)
    requires Insertion(Fastest(c, step.maxRate), [], EMPTY, step, after, t, c)
    ensures !FiresInBounds(step, t)
  {
    hide Run, RateOk, RatesOk, FiredOnce, Next, Fastest, Farthest;
    var get, d := Fastest(c, step.maxRate), DelayOf(step);
    FastestOk(c, step.maxRate, step.id, d);
    AdaptiveFires(get, [], EMPTY, step, after, t);
    assert Reached(get, WatchOf(EMPTY, step), d);
    assert Fire(step.id, d, false) in t.fired;
  }

  /** And it always fires in the first phase after the insertion in which the target is
      reached iff it is checked in the next phase or the counter cannot reach the target
      before the first check. */
  lemma OnTimeExact(step: Step, c: nat)
    requires Insertable(step)
    ensures (forall get: Counters, before: seq<Step>, s: State, after: seq<Step>, t: State ::
               Insertion(get, before, s, step, after, t, c) ==> FiresOnTime(get, s.phase, step, t))
       <==> Early(step, c)
  {
    hide Insertion, Farthest, FiresOnTime;
    if Early(step, c) {
      forall get: Counters, before: seq<Step>, s: State, after: seq<Step>, t: State
        | Insertion(get, before, s, step, after, t, c)
        ensures FiresOnTime(get, s.phase, step, t)
      {
        EarlyOnTime(get, before, s, step, after, t, c);
      }
    } else {
      var after, t := FastestRun(step, c);
      FastestIsLate(step, c, after, t);
    }
  }

  lemma EarlyOnTime(get: Counters, before: seq<Step>, s: State, step: Step, after: seq<Step>, t: State, c: nat)
    requires Insertable(step) && Early(step, c) && Insertion(get, before, s, step, after, t, c)
    ensures FiresOnTime(get, s.phase, step, t)
  {
    hide Run, Reached, RateOk, RatesOk, FiredOnce, Next, Farthest, FirstInBounds;
    AdaptiveFires(get, before, s, step, after, t);
    FarthestBound(get, step.id, step.maxRate, s.phase, DelayOf(step));
    forall r: nat
      ensures FiredAt(t, step.id, r) <==>
                r <= t.phase && Reached(get, Watch(step.id, s.phase + 1, step.target, step.maxRate), r)
    {
      SameReached(get, step.id, s.phase, DelayOf(step), step.target, step.maxRate, r);
    }
  }

  lemma FastestIsLate(step: Step, c: nat, after: seq<Step>, t: State)
    requires Insertable(step) && !Early(step, c) && t.phase == DelayOf(step)
    requires Insertion(Fastest(c, step.maxRate), [], EMPTY, step, after, t, c)
    ensures !FiresOnTime(Fastest(c, step.maxRate), 0, step, t)
  {
    hide Run, RateOk, RatesOk, FiredOnce, Next, Fastest, Farthest, FirstInBounds;
    var get, d := Fastest(c, step.maxRate), DelayOf(step);
    FastestOk(c, step.maxRate, step.id, d);
    AdaptiveFires(get, [], EMPTY, step, after, t);
    var r := FindReached(get, Watch(step.id, 1, step.target, step.maxRate), d - 1);
    assert !FiredAt(t, step.id, r);
  }

  /** The period that the constructor chooses is both. */
  lemma DefaultInTime(step: Step, c: nat)
    requires Insertable(step) && step.startDelay == -1 && c <= step.start
    ensures Timely(step, c) && Early(step, c)
  {
    hide Period;
    var n := Period(step.target, step.start, step.maxRate);
    PeriodBound(step.target, step.start, step.maxRate);
    assert n * step.maxRate == (n - 1) * step.maxRate + step.maxRate;
  }

  /** With a start value that is not below the counter and no start delay of its own, an
      adaptive event is always on time and in bounds. */
  lemma AdaptiveFiresOnTime(get: Counters, before: seq<Step>, s: State, step: Step, after: seq<Step>, t: State)
    requires Run(get, EMPTY, before, s) && step.InsertAdaptive? && Enabled(s, step)
    requires Run(get, Next(get, s, step), after, t) && RateOk(get, step.id, step.maxRate)
    requires step.startDelay == -1 && get(step.id, s.phase) <= step.start
    ensures var w := Watch(step.id, s.phase + 1, step.target, step.maxRate);
            forall r: nat, ok: bool :: Fire(step.id, r, ok) in t.fired <==> r <= t.phase && Reached(get, w, r) && ok
    ensures FiredOnce(t.fired)
  {
    hide Run, Reached, RateOk, RatesOk, FiredOnce, Tick;
    var c, d := get(step.id, s.phase), DelayOf(step);
    DefaultInTime(step, c);
    AdaptiveFires(get, before, s, step, after, t);
    FarthestBound(get, step.id, step.maxRate, s.phase, d);
    forall r: nat, ok: bool
      ensures Fire(step.id, r, ok) in t.fired <==>
                r <= t.phase && Reached(get, Watch(step.id, s.phase + 1, step.target, step.maxRate), r) && ok
    {
      SameReached(get, step.id, s.phase, d, step.target, step.maxRate, r);
    }
  }

  // ------------------------------------------------------------------- few checks

  /** Successive checks of an event whose target has not been reached. */
  ghost predicate Checks(get: Counters, id: nat, target: nat, maxRate: nat, at: seq<nat>) {
    && maxRate >= 1 && at != []
    && (forall i :: 0 <= i < |at| ==> get(id, at[i]) < target)
    && forall i :: 0 <= i < |at| - 1 ==> at[i + 1] == at[i] + Period(target, get(id, at[i]), maxRate)
  }

  /** Checks are rare while the target is far: as long as it is k * maxRate away, any two are at
      least k phases apart. */
  lemma {:induction false} ChecksAreSparse(get: Counters, id: nat, target: nat, maxRate: nat, at: seq<nat>, k: nat)
    requires RateOk(get, id, maxRate) && Checks(get, id, target, maxRate, at)
    requires get(id, at[|at| - 1]) + k * maxRate <= target
    ensures at[0] + (|at| - 1) * k <= at[|at| - 1]
    decreases |at|
  {
    hide RateOk, Period;
    var n := |at| - 1;
    if n > 0 {
      var p := at[..n];
      PeriodCovers(target, get(id, at[n - 1]), maxRate, 0);
      Monotone(get, id, maxRate, at[n - 1], at[n]);
      PeriodCovers(target, get(id, at[n - 1]), maxRate, k);
      ChecksAreSparse(get, id, target, maxRate, p, k);
      OneMore(n - 1, k);
    }
  }

  lemma Spread(a: nat, b: nat, m: nat)
    ensures (a + b) * m == a * m + b * m
  {
  }

  lemma OneMore(n: nat, k: nat)
    ensures (n + 1) * k == n * k + k
  {
  }

  lemma PeriodCovers(target: nat, cur: nat, maxRate: nat, k: nat)
    requires cur + k * maxRate <= target && maxRate >= 1
    ensures Period(target, cur, maxRate) >= k
  {
    hide Period;
    var n := Period(target, cur, maxRate);
    LongestPeriod(target, cur, maxRate);
    if k > n {
      MulMonotone(n + 1, k, maxRate);
      assert false;
    }
  }

  /** A counter that grows at its full rate fires the event at the third check at the latest. */
  lemma FastestFewChecks(c: nat, id: nat, target: nat, maxRate: nat, p: nat, at: seq<nat>)
    requires Checks(Fastest(c, maxRate), id, target, maxRate, at) && at[0] == p
    ensures |at| <= 2
  {
    hide Period;
    if |at| >= 3 {
      var get := Fastest(c, maxRate);
      var n, m := Period(target, get(id, p), maxRate), Period(target, get(id, at[1]), maxRate);
      LongestPeriod(target, get(id, p), maxRate);
      MulMonotone(p + n + 1, at[2], maxRate);
      Spread(p, n + 1, maxRate);
      assert false;
    }
  }

  // --------------------------------------------------------------------- overshooting

  /** The counter of a queued adaptive event will be in bounds when it is checked. */
  ghost predicate ItemBounded(get: Counters, it: Item) {
    it.event.kind.Adaptive? ==>
      && RateOk(get, it.event.id, it.event.kind.maxRate)
      && get(it.event.id, it.phase) <= it.event.kind.target + it.event.kind.maxRate
  }

  ghost predicate AllBounded(get: Counters, s: State) {
    (forall it :: it in s.items ==> ItemBounded(get, it)) && forall f :: f in s.fired ==> f.inBounds
  }

  lemma TurnBounded(get: Counters, s: State)
    requires Ready(s, s.phase) && s.items != [] && RatesOk(s.items) && s.items[0].phase <= s.phase && AllBounded(get, s)
    ensures AllBounded(get, Turn(get, s))
  {
    hide Ready, InsertItem, RateOk;
    HeadFacts(s);
    var ev, t := s.items[0].event, Turn(get, s);
    var (e, fires, ok) := Callback(get, ev, s.phase);
    assert ItemBounded(get, s.items[0]);
    if e.period != 0 {
      var it := Item(s.phase + e.period, e);
      if ev.kind.Adaptive? {
        NextCheck(get, ev.id, ev.kind.maxRate, ev.kind.target, get(ev.id, s.phase), s.phase);
      }
      forall x | x in t.items
        ensures ItemBounded(get, x)
      {
        InsertMember(s.items[1..], it, x);
      }
    }
  }

  lemma {:induction false} TickBounded(get: Counters, s: State)
    requires Ready(s, s.phase) && RatesOk(s.items) && AllBounded(get, s)
    ensures AllBounded(get, Tick(get, s))
    decreases Due(s.items, s.phase)
  {
    hide Due, Ready, AllBounded, RatesOk;
    if s.items != [] && s.items[0].phase <= s.phase {
      TurnDue(get, s);
      TurnReady(get, s);
      TurnBounded(get, s);
      TickBounded(get, Turn(get, s));
    }
  }

  /** Counters keep to their rates, and no adaptive event is inserted with a delay in which its
      counter might pass the target. */
  ghost predicate Careful(get: Counters, s: State, steps: seq<Step>)
    decreases |steps|
  {
    steps != [] && Enabled(s, steps[0]) ==>
      && (steps[0].InsertAdaptive? ==>
            RateOk(get, steps[0].id, steps[0].maxRate) && Timely(steps[0], get(steps[0].id, s.phase)))
      && Careful(get, Next(get, s, steps[0]), steps[1..])
  }

  lemma StepBounded(get: Counters, s: State, step: Step)
    requires Ready(s, s.phase + 1) && Enabled(s, step) && AllBounded(get, s)
    requires step.InsertAdaptive? ==> RateOk(get, step.id, step.maxRate) && Timely(step, get(step.id, s.phase))
    ensures AllBounded(get, Next(get, s, step))
  {
    hide Ready, RatesOk, Tick, InsertItem, RateOk, Farthest;
    if step.InsertAdaptive? {
      FarthestBound(get, step.id, step.maxRate, s.phase, DelayOf(step));
    }
    if step.Advance? {
      SamePhase(s);
      TickBounded(get, s.(phase := s.phase + 1));
    } else {
      var e := NewEvent(step);
      var it := Item(s.phase + Delay(e, step.startDelay), e);
      forall x | x in Next(get, s, step).items
        ensures ItemBounded(get, x)
      {
        InsertMember(s.items, it, x);
      }
    }
  }

  lemma {:induction false} RunBounded(get: Counters, s: State, steps: seq<Step>, t: State)
    requires Ready(s, s.phase + 1) && Run(get, s, steps, t) && Careful(get, s, steps) && AllBounded(get, s)
    ensures AllBounded(get, t)
    decreases |steps|
  {
    hide Ready, Next, AllBounded, RateOk, RatesOk, Farthest;
    if steps != [] {
      StepReady(get, s, steps[0]);
      StepBounded(get, s, steps[0]);
      RunBounded(get, Next(get, s, steps[0]), steps[1..], t);
    }
  }

  /** In every such run no event finds its counter more than maxRate past the target. */
  lemma NeverOvershoots(get: Counters, steps: seq<Step>, t: State)
    requires Run(get, EMPTY, steps, t) && Careful(get, EMPTY, steps)
    ensures forall f :: f in t.fired ==> f.inBounds
  {
    hide Ready, Run, Careful;
    EmptyReady();
    RunBounded(get, EMPTY, steps, t);
  }

  // ------------------------------------------------------------------- plain events

  function Slot(first: nat, period: nat, k: nat): nat {
    first + k * period
  }

  /** The event is queued for one of its phases, first, first + period, ..., and that is the
      next one. */
  ghost predicate NextDue(s: State, id: nat, period: nat, first: nat) {
    exists k: nat :: Item(Slot(first, period, k), Event(id, period, Plain)) in s.items &&
      (k == 0 || Slot(first, period, k - 1) <= s.phase)
  }

  lemma NextSlot(first: nat, period: nat, k: nat)
    ensures Slot(first, period, k + 1) == Slot(first, period, k) + period
  {
  }

  lemma TurnKeepsDue(get: Counters, s: State, id: nat, period: nat, first: nat)
    requires Ready(s, s.phase) && s.items != [] && RatesOk(s.items) && s.items[0].phase <= s.phase
    requires period >= 1 && NextDue(s, id, period, first)
    ensures NextDue(Turn(get, s), id, period, first)
  {
    hide Ready, InsertItem, Slot;
    HeadFacts(s);
    var k: nat :| Item(Slot(first, period, k), Event(id, period, Plain)) in s.items &&
                  (k == 0 || Slot(first, period, k - 1) <= s.phase);
    var it, rest, t := Item(Slot(first, period, k), Event(id, period, Plain)), s.items[1..], Turn(get, s);
    var (e, fires, ok) := Callback(get, s.items[0].event, s.phase);
    if it == s.items[0] {
      NextSlot(first, period, k);
      InsertMember(rest, Item(s.phase + period, e), Item(s.phase + period, e));
      assert Item(Slot(first, period, k + 1), Event(id, period, Plain)) in t.items;
    } else {
      assert it in rest;
      if e.period != 0 {
        InsertMember(rest, Item(s.phase + e.period, e), it);
      }
      assert it in t.items;
    }
  }

  lemma {:induction false} TickKeepsDue(get: Counters, s: State, id: nat, period: nat, first: nat)
    requires Ready(s, s.phase) && RatesOk(s.items) && period >= 1 && NextDue(s, id, period, first)
    ensures NextDue(Tick(get, s), id, period, first)
    decreases Due(s.items, s.phase)
  {
    hide Due, Ready, NextDue, RatesOk;
    if s.items != [] && s.items[0].phase <= s.phase {
      TurnDue(get, s);
      TurnReady(get, s);
      TurnKeepsDue(get, s, id, period, first);
      TickKeepsDue(get, Turn(get, s), id, period, first);
    }
  }

  lemma StepKeepsDue(get: Counters, s: State, step: Step, id: nat, period: nat, first: nat)
    requires Ready(s, s.phase + 1) && Enabled(s, step) && period >= 1 && NextDue(s, id, period, first)
    ensures NextDue(Next(get, s, step), id, period, first)
  {
    hide Ready, RatesOk, Tick, InsertItem, Slot;
    var k: nat :| Item(Slot(first, period, k), Event(id, period, Plain)) in s.items &&
                  (k == 0 || Slot(first, period, k - 1) <= s.phase);
    var it := Item(Slot(first, period, k), Event(id, period, Plain));
    if step.Advance? {
      SamePhase(s);
      assert NextDue(s.(phase := s.phase + 1), id, period, first);
      TickKeepsDue(get, s.(phase := s.phase + 1), id, period, first);
    } else {
      var e := NewEvent(step);
      InsertMember(s.items, Item(s.phase + Delay(e, step.startDelay), e), it);
    }
  }

  lemma {:induction false} RunKeepsDue(get: Counters, s: State, steps: seq<Step>, t: State, id: nat, period: nat,
                                       first: nat)
    requires Ready(s, s.phase + 1) && Run(get, s, steps, t) && period >= 1 && NextDue(s, id, period, first)
    ensures NextDue(t, id, period, first)
    decreases |steps|
  {
    hide Ready, Enabled, Next, NextDue;
    if steps != [] {
      StepReady(get, s, steps[0]);
      StepKeepsDue(get, s, steps[0], id, period, first);
      RunKeepsDue(get, Next(get, s, steps[0]), steps[1..], t, id, period, first);
    }
  }

  /** A periodic event, inserted in any reachable state, is queued for its next phase in every
      later one: it is called back in first, first + period, first + 2 * period and so on. */
  lemma PlainRecurs(get: Counters, before: seq<Step>, s: State, step: Step, after: seq<Step>, t: State)
    requires Run(get, EMPTY, before, s) && step.InsertPlain? && Enabled(s, step) && step.period >= 1
    requires Run(get, Next(get, s, step), after, t)
    ensures NextDue(t, step.id, step.period, s.phase + DelayOf(step))
  {
    hide Ready, Run, InsertItem, RatesOk;
    EmptyReady();
    RunReady(get, EMPTY, before, s);
    StepReady(get, s, step);
    var first, e := s.phase + DelayOf(step), NewEvent(step);
    InsertMember(s.items, Item(first, e), Item(first, e));
    assert Slot(first, step.period, 0) == first;
    assert Item(Slot(first, step.period, 0), Event(step.id, step.period, Plain)) in Next(get, s, step).items;
    RunKeepsDue(get, Next(get, s, step), after, t, step.id, step.period, first);
  }
}

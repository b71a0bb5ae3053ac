/** What the event queue keeps in every run, and when adaptive events fire. */
module EventQueueProof {
  import opened EventQueue
  import opened Insertion

  // ------------------------------------------------------------------- counters

  /** The counter never falls and grows by at most maxRate a phase. */
  ghost predicate RateOk(get: Counters, id: nat, maxRate: nat) {
    forall p: nat :: get(id, p) <= get(id, p + 1) <= get(id, p) + maxRate
  }

  lemma {:induction false} Growth(get: Counters, id: nat, maxRate: nat, p: nat, k: nat)
    requires RateOk(get, id, maxRate)
    ensures get(id, p) <= get(id, p + k) <= get(id, p) + k * maxRate
  {
    if k > 0 {
      Growth(get, id, maxRate, p, k - 1);
      assert get(id, p + k) == get(id, (p + k - 1) + 1);
      assert k * maxRate == (k - 1) * maxRate + maxRate;
    }
  }

  /** How far a counter at c may have come in the phase before a check d phases later. */
  function Farthest(c: nat, d: nat, maxRate: nat): nat
    requires d >= 1
  {
    c + (d - 1) * maxRate
  }

  lemma FarthestBound(get: Counters, id: nat, maxRate: nat, p: nat, d: nat)
    requires RateOk(get, id, maxRate) && d >= 1
    ensures get(id, p + d - 1) <= Farthest(get(id, p), d, maxRate)
    ensures get(id, p + d) <= Farthest(get(id, p), d, maxRate) + maxRate
  {
    Growth(get, id, maxRate, p, d - 1);
    assert get(id, p + (d - 1)) == get(id, p + d - 1);
    assert get(id, (p + d - 1) + 1) == get(id, p + d);
  }

  lemma PeriodBound(target: nat, cur: nat, maxRate: nat)
    requires cur <= target && maxRate >= 1
    ensures var n := Period(target, cur, maxRate);
            n == 1 || n * maxRate <= target - cur
  {
  }

  /** The period is the longest after which even the fastest counter is not past the target,
      but at least one phase. */
  lemma PeriodExact(target: nat, cur: nat, maxRate: nat, n: nat)
    requires cur <= target && maxRate >= 1
    ensures n == Period(target, cur, maxRate) <==>
            n >= 1 && (n == 1 || cur + n * maxRate <= target) && target < cur + (n + 1) * maxRate
  {
    var m := Period(target, cur, maxRate);
    PeriodBound(target, cur, maxRate);
    LongestPeriod(target, cur, maxRate);
    if n >= 1 && (n == 1 || cur + n * maxRate <= target) && target < cur + (n + 1) * maxRate {
      if n < m {
        MulMonotone(n + 1, m, maxRate);
        assert false;
      } else if m < n {
        MulMonotone(m + 1, n, maxRate);
        assert false;
      }
    }
  }

  lemma LongestPeriod(target: nat, cur: nat, maxRate: nat)
    requires cur <= target && maxRate >= 1
    ensures target < cur + (Period(target, cur, maxRate) + 1) * maxRate
  {
    var q := (target - cur) / maxRate;
    assert target - cur < q * maxRate + maxRate;
    assert (q + 1) * maxRate == q * maxRate + maxRate;
    MulMonotone(q + 1, Period(target, cur, maxRate) + 1, maxRate);
  }

  lemma MulMonotone(a: nat, b: nat, m: nat)
    requires a <= b
    ensures a * m <= b * m
  {
  }

  /** The next check comes in time: before it the counter is below the target, and then it has
      passed the target by at most maxRate. */
  lemma NextCheck(get: Counters, id: nat, maxRate: nat, target: nat, cur: nat, p: nat)
    requires RateOk(get, id, maxRate) && maxRate >= 1 && get(id, p) <= cur <= target
    ensures var n := Period(target, cur, maxRate);
            && get(id, p + n) <= target + maxRate
            && forall r: nat :: p < r < p + n ==> get(id, r) < target
  {
    var n := Period(target, cur, maxRate);
    PeriodBound(target, cur, maxRate);
    Growth(get, id, maxRate, p, n);
    forall r: nat | p < r < p + n
      ensures get(id, r) < target
    {
      Growth(get, id, maxRate, p, r - p);
      MulMonotone(r - p + 1, n, maxRate);
      assert (r - p + 1) * maxRate == (r - p) * maxRate + maxRate;
      assert get(id, p + (r - p)) == get(id, r);
    }
  }

  /** After a callback that does not fire, the event comes back after exactly that period; one
      that fires never does. */
  lemma CallbackExact(get: Counters, e: Event, phase: nat)
    requires e.kind.Adaptive? ==> e.kind.maxRate >= 1
    ensures var (r, fires, ok) := Callback(get, e, phase);
            if e.kind.Plain? then r == e && !fires && ok
            else
              var cur, target, rate := get(e.id, phase), e.kind.target, e.kind.maxRate;
              && (fires <==> cur >= target) && r == e.(period := r.period)
              && (if fires then r.period == 0 && (ok <==> cur <= target + rate)
                  else && ok && r.period >= 1 && (r.period == 1 || cur + r.period * rate <= target)
                       && target < cur + (r.period + 1) * rate)
  {
    hide Period;
    if e.kind.Adaptive? && get(e.id, phase) < e.kind.target {
      PeriodExact(e.kind.target, get(e.id, phase), e.kind.maxRate,
                  Period(e.kind.target, get(e.id, phase), e.kind.maxRate));
    }
  }

  // ------------------------------------------------------------------ invariants

  predicate Sorted(items: seq<Item>) {
    forall i, j :: 0 <= i < j < |items| ==> items[i].phase <= items[j].phase
  }

  predicate Distinct(items: seq<Item>) {
    forall i, j :: 0 <= i < j < |items| ==> items[i].event.id != items[j].event.id
  }

  predicate FiredOnce(fired: seq<Fire>) {
    forall i, j :: 0 <= i < j < |fired| ==> fired[i].id != fired[j].id
  }

  /** Nothing is due before phase from; no event that has fired is still queued. */
  ghost predicate Ready(s: State, from: nat) {
    && !s.late && Sorted(s.items) && Distinct(s.items) && FiredOnce(s.fired) && RatesOk(s.items)
    && (forall i :: 0 <= i < |s.items| ==> s.items[i].phase >= from && s.items[i].event.id in s.used)
    && (forall f :: f in s.fired ==> f.id in s.used && forall i :: 0 <= i < |s.items| ==> s.items[i].event.id != f.id)
  }

  lemma ReadyRates(s: State, from: nat)
    requires Ready(s, from)
    ensures RatesOk(s.items) && !s.late
  {
  }

  lemma InsertMember(items: seq<Item>, it: Item, x: Item)
    ensures x in InsertItem(items, it) <==> x in items || x == it
  {
    hide Insert;
    var k := InsertSplit(items, it, Sooner);
    assert items == items[..k] + items[k..];
  }

  lemma SortedIsOrder(items: seq<Item>)
    ensures Sorted(items) <==> InOrder(items, Sooner)
    ensures IsOrder(Sooner)
  {
  }

  lemma InsertKeepsSorted(items: seq<Item>, it: Item)
    requires Sorted(items)
    ensures Sorted(InsertItem(items, it))
  {
    hide Insert, InOrder, IsOrder, Sorted;
    SortedIsOrder(items);
    var k := InsertInOrder(items, it, Sooner);
    SortedIsOrder(InsertItem(items, it));
  }

  lemma InsertKeepsDistinct(items: seq<Item>, it: Item)
    requires Distinct(items) && forall i :: 0 <= i < |items| ==> items[i].event.id != it.event.id
    ensures Distinct(InsertItem(items, it))
  {
    hide Insert;
    var k := InsertSplit(items, it, Sooner);
    var r := InsertItem(items, it);
    forall i, j | 0 <= i < j < |r|
      ensures r[i].event.id != r[j].event.id
    {
      SplitAt(items, k, it, i);
      SplitAt(items, k, it, j);
    }
  }

  predicate RateOf(it: Item) {
    it.event.kind.Adaptive? ==> it.event.kind.maxRate >= 1
  }

  /** Adding an item with a new id. */
  lemma InsertReady(s: State, it: Item, from: nat)
    requires Ready(s, from) && it.phase >= from && RateOf(it)
    requires forall i :: 0 <= i < |s.items| ==> s.items[i].event.id != it.event.id
    requires forall f :: f in s.fired ==> f.id != it.event.id
    ensures Ready(s.(items := InsertItem(s.items, it), used := s.used + {it.event.id}), from)
  {
    hide InsertItem, Sorted, Distinct, FiredOnce;
    InsertKeepsSorted(s.items, it);
    InsertKeepsDistinct(s.items, it);
    var r := InsertItem(s.items, it);
    forall i | 0 <= i < |r|
      ensures r[i] in s.items || r[i] == it
    {
      InsertMember(s.items, it, r[i]);
    }
  }

  /** Taking the first item off. */
  lemma RestReady(s: State, from: nat)
    requires Ready(s, from) && s.items != []
    ensures Ready(s.(items := s.items[1..]), from)
    ensures forall i :: 0 <= i < |s.items[1..]| ==> s.items[1..][i].event.id != s.items[0].event.id
  {
    var t := s.items[1..];
    assert forall i :: 0 <= i < |t| ==> t[i] == s.items[i + 1];
  }

  lemma FireReady(s: State, f: Fire, from: nat)
    requires Ready(s, from) && f.id in s.used && (forall g :: g in s.fired ==> g.id != f.id)
    requires forall i :: 0 <= i < |s.items| ==> s.items[i].event.id != f.id
    ensures Ready(s.(fired := s.fired + [f]), from)
  {
    hide Sorted, Distinct;
  }

  lemma HeadFacts(s: State)
    requires Ready(s, s.phase) && s.items != []
    ensures RateOf(s.items[0]) && s.items[0].event.id in s.used && s.items[0].phase >= s.phase
    ensures forall f :: f in s.fired ==> f.id != s.items[0].event.id
  {
  }

  lemma TurnReady(get: Counters, s: State)
    requires Ready(s, s.phase) && s.items != [] && RatesOk(s.items) && s.items[0].phase <= s.phase
    ensures Ready(Turn(get, s), s.phase)
  {
    hide Ready, InsertItem;
    HeadFacts(s);
    RestReady(s, s.phase);
    var ev := s.items[0].event;
    var (e, fires, ok) := Callback(get, ev, s.phase);
    var r := s.(items := s.items[1..]);
    if fires {
      FireReady(r, Fire(e.id, s.phase, ok), s.phase);
    } else if e.period != 0 {
      assert s.used + {e.id} == s.used;
      InsertReady(r, Item(s.phase + e.period, e), s.phase);
    }
  }

  lemma {:induction false} TickReady(get: Counters, s: State)
    requires Ready(s, s.phase) && RatesOk(s.items)
    ensures Ready(Tick(get, s), s.phase + 1)
    ensures Tick(get, s).phase == s.phase && Tick(get, s).used == s.used
    decreases Due(s.items, s.phase)
  {
    hide Due, InsertItem;
    if s.items != [] && s.items[0].phase <= s.phase {
      TurnDue(get, s);
      TurnReady(get, s);
      TickReady(get, Turn(get, s));
    }
  }

  // -------------------------------------------------------------------- all runs

  /** An insertion, with -1 or a start delay, or the next phase with its tick. */
  datatype Step =
    | InsertPlain(id: nat, period: nat, startDelay: int)
    | InsertAdaptive(id: nat, start: nat, target: nat, maxRate: nat, startDelay: int)
    | Advance

  function NewEvent(step: Step): (e: Event)
    requires !step.Advance?
    requires step.InsertAdaptive? ==> step.start <= step.target && step.maxRate >= 1
  {
    match step
    case InsertPlain(id, period, _) => Event(id, period, Plain)
    case InsertAdaptive(id, start, target, maxRate, _) =>
      Event(id, Period(target, start, maxRate), Adaptive(target, maxRate))
  }

  function DelayOf(step: Step): (d: nat)
    requires !step.Advance? && step.startDelay >= -1
    requires step.InsertAdaptive? ==> step.start <= step.target && step.maxRate >= 1
  {
    Delay(NewEvent(step), step.startDelay)
  }

  /** Events are new objects and are not inserted for the current phase; the start value of an
      adaptive one is not past its target, as its constructor asserts. */
  predicate Enabled(s: State, step: Step) {
    && RatesOk(s.items)
    && (!step.Advance? ==> step.id !in s.used && step.startDelay >= -1)
    && (step.InsertAdaptive? ==> step.start <= step.target && step.maxRate >= 1)
    && (!step.Advance? ==> DelayOf(step) >= 1)
  }

  function Next(get: Counters, s: State, step: Step): (t: State)
    requires Enabled(s, step)
  {
    if step.Advance? then Tick(get, s.(phase := s.phase + 1)) else InsertEvent(s, NewEvent(step), step.startDelay)
  }

  /** An id that has not been used belongs to no item and to no event that fired. */
  lemma NewId(s: State, id: nat, from: nat)
    requires Ready(s, from) && id !in s.used
    ensures forall i :: 0 <= i < |s.items| ==> s.items[i].event.id != id
    ensures forall f :: f in s.fired ==> f.id != id
  {
  }

  lemma StepReady(get: Counters, s: State, step: Step)
    requires Ready(s, s.phase + 1) && Enabled(s, step)
    ensures Ready(Next(get, s, step), Next(get, s, step).phase + 1)
    ensures s.used <= Next(get, s, step).used
  {
    hide InsertItem, Ready, RatesOk, Tick, Period;
    if step.Advance? {
      SamePhase(s);
      TickReady(get, s.(phase := s.phase + 1));
    } else {
      var e := NewEvent(step);
      NewId(s, step.id, s.phase + 1);
      InsertReady(s, Item(s.phase + Delay(e, step.startDelay), e), s.phase + 1);
    }
  }

  lemma SamePhase(s: State)
    requires Ready(s, s.phase + 1)
    ensures Ready(s.(phase := s.phase + 1), s.phase + 1)
  {
  }

  ghost predicate Run(get: Counters, s: State, steps: seq<Step>, t: State)
    decreases |steps|
  {
    if steps == [] then t == s
    else Enabled(s, steps[0]) && Run(get, Next(get, s, steps[0]), steps[1..], t)
  }

  lemma {:induction false} RunReady(get: Counters, s: State, steps: seq<Step>, t: State)
    requires Ready(s, s.phase + 1) && Run(get, s, steps, t)
    ensures Ready(t, t.phase + 1) && s.used <= t.used
    decreases |steps|
  {
    hide Ready, Enabled, Next;
    if steps != [] {
      StepReady(get, s, steps[0]);
      RunReady(get, Next(get, s, steps[0]), steps[1..], t);
    }
  }

  const EMPTY := State(0, [], [], {}, false)

  lemma EmptyReady()
    ensures Ready(EMPTY, EMPTY.phase + 1)
  {
  }

  /** In every run with a tick in every phase and delays of at least one, whatever the counters
      do, no event is found after its phase. */
  lemma NeverLate(get: Counters, steps: seq<Step>, t: State)
    requires Run(get, EMPTY, steps, t)
    ensures !t.late
  {
    hide Ready;
    EmptyReady();
    RunReady(get, EMPTY, steps, t);
    ReadyRates(t, t.phase + 1);
  }

  // ---------------------------------------------------------- when adaptive events fire

  /** An adaptive event that is checked for the first time in phase first. */
  datatype Watch = Watch(id: nat, first: nat, target: nat, maxRate: nat)

  /** r is the first phase, not before w.first, in which the counter has reached the target. */
  ghost predicate Reached(get: Counters, w: Watch, r: nat) {
    w.first <= r && get(w.id, r) >= w.target && forall q: nat :: w.first <= q < r ==> get(w.id, q) < w.target
  }

  /** The counter is not more than maxRate past the target at the first check. */
  predicate FirstInBounds(get: Counters, w: Watch) {
    get(w.id, w.first) <= w.target + w.maxRate
  }

  /** Still queued, for a phase before which the target has not been reached. */
  ghost predicate Waiting(get: Counters, s: State, w: Watch, it: Item) {
    && it in s.items && it.event.id == w.id && it.event.kind == Adaptive(w.target, w.maxRate) && it.phase >= w.first
    && (forall q: nat :: w.first <= q < it.phase ==> get(w.id, q) < w.target)
    && (it.phase > w.first ==> get(w.id, it.phase) <= w.target + w.maxRate)
  }

  ghost predicate Pending(get: Counters, s: State, w: Watch) {
    (exists it :: Waiting(get, s, w, it)) && forall f :: f in s.fired ==> f.id != w.id
  }

  ghost predicate Done(get: Counters, s: State, w: Watch) {
    exists r: nat :: Fire(w.id, r, FirstInBounds(get, w)) in s.fired && r <= s.phase && Reached(get, w, r)
  }

  /** The first item of a tick is the watched one. */
  lemma TurnWatched(get: Counters, s: State, w: Watch)
    requires Ready(s, s.phase) && s.items != [] && RatesOk(s.items) && s.items[0].phase <= s.phase
    requires RateOk(get, w.id, w.maxRate) && Waiting(get, s, w, s.items[0]) && forall f :: f in s.fired ==> f.id != w.id
    ensures Pending(get, Turn(get, s), w) || Done(get, Turn(get, s), w)
  {
    hide Ready, InsertItem, RateOk;
    HeadFacts(s);
    var ev, cur, t := s.items[0].event, get(w.id, s.phase), Turn(get, s);
    if cur >= w.target {
      assert s.phase == w.first || cur <= w.target + w.maxRate;
      assert s.phase > w.first ==> get(w.id, w.first) < w.target;
      assert t.fired[|s.fired|] == Fire(w.id, s.phase, FirstInBounds(get, w));
      assert Reached(get, w, s.phase);
    } else {
      NextCheck(get, w.id, w.maxRate, w.target, cur, s.phase);
      var it := Item(s.phase + Period(w.target, cur, w.maxRate), ev.(period := Period(w.target, cur, w.maxRate)));
      InsertMember(s.items[1..], it, it);
      assert Waiting(get, t, w, it);
    }
  }

  /** The first item is another one: nothing changes for the watched event. */
  lemma TurnOther(get: Counters, s: State, w: Watch, it: Item)
    requires Ready(s, s.phase) && s.items != [] && RatesOk(s.items)
    requires Waiting(get, s, w, it) && it != s.items[0] && forall f :: f in s.fired ==> f.id != w.id
    ensures Pending(get, Turn(get, s), w)
  {
    hide InsertItem, Sorted, FiredOnce;
    var (e, fires, ok) := Callback(get, s.items[0].event, s.phase);
    var rest, t := s.items[1..], Turn(get, s);
    assert it in rest;
    if e.period != 0 {
      InsertMember(rest, Item(s.phase + e.period, e), it);
    }
    assert Waiting(get, t, w, it);
    assert e.id == s.items[0].event.id != w.id;
  }

  lemma TurnTracks(get: Counters, s: State, w: Watch)
    requires Ready(s, s.phase) && s.items != [] && RatesOk(s.items) && s.items[0].phase <= s.phase
    requires RateOk(get, w.id, w.maxRate) && (Pending(get, s, w) || Done(get, s, w))
    ensures Pending(get, Turn(get, s), w) || Done(get, Turn(get, s), w)
  {
    hide Ready, Waiting, Reached, Callback, RateOk;
    if Done(get, s, w) {
      TurnKeeps(get, s);
    } else {
      var it :| Waiting(get, s, w, it);
      if it == s.items[0] {
        TurnWatched(get, s, w);
      } else {
        TurnOther(get, s, w, it);
      }
    }
  }

  lemma TurnKeeps(get: Counters, s: State)
    requires s.items != [] && RatesOk(s.items)
    ensures Turn(get, s).phase == s.phase && forall f :: f in s.fired ==> f in Turn(get, s).fired
  {
  }

  lemma {:induction false} TickTracks(get: Counters, s: State, w: Watch)
    requires Ready(s, s.phase) && RatesOk(s.items)
    requires RateOk(get, w.id, w.maxRate) && (Pending(get, s, w) || Done(get, s, w))
    ensures Pending(get, Tick(get, s), w) || Done(get, Tick(get, s), w)
    decreases Due(s.items, s.phase)
  {
    hide Due, Ready, Pending, Done, RatesOk, RateOk;
    if s.items != [] && s.items[0].phase <= s.phase {
      TurnDue(get, s);
      TurnReady(get, s);
      TurnTracks(get, s, w);
      TickTracks(get, Turn(get, s), w);
    }
  }

  lemma StepTracks(get: Counters, s: State, step: Step, w: Watch)
    requires Ready(s, s.phase + 1) && Enabled(s, step)
    requires RateOk(get, w.id, w.maxRate) && (Pending(get, s, w) || Done(get, s, w))
    ensures Pending(get, Next(get, s, step), w) || Done(get, Next(get, s, step), w)
  {
    hide Ready, RatesOk, Tick, InsertItem, Reached, RateOk;
    if step.Advance? {
      SamePhase(s);
      LaterPhase(get, s, w);
      TickTracks(get, s.(phase := s.phase + 1), w);
    } else if Pending(get, s, w) {
      var it :| Waiting(get, s, w, it);
      var e := NewEvent(step);
      InsertMember(s.items, Item(s.phase + Delay(e, step.startDelay), e), it);
      assert Waiting(get, Next(get, s, step), w, it);
    } else {
      assert Next(get, s, step).fired == s.fired;
    }
  }

  lemma LaterPhase(get: Counters, s: State, w: Watch)
    requires Pending(get, s, w) || Done(get, s, w)
    ensures var t := s.(phase := s.phase + 1); Pending(get, t, w) || Done(get, t, w)
  {
    hide Reached;
    var t := s.(phase := s.phase + 1);
    if Pending(get, s, w) {
      var it :| Waiting(get, s, w, it);
      assert Waiting(get, t, w, it);
    }
  }

  function WatchOf(s: State, step: Step): (w: Watch)
    requires step.InsertAdaptive? && Enabled(s, step)
  {
    Watch(step.id, s.phase + DelayOf(step), step.target, step.maxRate)
  }

  /** A new adaptive event is pending. */
  lemma InsertTracks(get: Counters, s: State, step: Step)
    requires Ready(s, s.phase + 1) && Enabled(s, step) && step.InsertAdaptive?
    ensures Pending(get, Next(get, s, step), WatchOf(s, step))
  {
    hide Ready, RatesOk, InsertItem;
    var e, t := NewEvent(step), Next(get, s, step);
    var it := Item(s.phase + Delay(e, step.startDelay), e);
    InsertMember(s.items, it, it);
    NewId(s, step.id, s.phase + 1);
    assert Waiting(get, t, WatchOf(s, step), it);
  }

  lemma {:induction false} RunTracks(get: Counters, s: State, steps: seq<Step>, t: State, w: Watch)
    requires Ready(s, s.phase + 1) && Run(get, s, steps, t)
    requires RateOk(get, w.id, w.maxRate) && (Pending(get, s, w) || Done(get, s, w))
    ensures Pending(get, t, w) || Done(get, t, w)
    decreases |steps|
  {
    hide Ready, Pending, Done, Enabled, Next, RateOk;
    if steps != [] {
      StepReady(get, s, steps[0]);
      StepTracks(get, s, steps[0], w);
      RunTracks(get, Next(get, s, steps[0]), steps[1..], t, w);
    }
  }

  /** An adaptive event that is inserted in any reachable state, with any start value and any
      delay, has fired in any later state exactly if its counter has reached the target at or
      after the first check; then exactly once, in the first such phase, and within bounds
      exactly if the first check was, which it is if the counter was low enough when the event
      was inserted. */
  lemma AdaptiveFires(get: Counters, before: seq<Step>, s: State, step: Step, after: seq<Step>, t: State)
    requires Run(get, EMPTY, before, s) && step.InsertAdaptive? && Enabled(s, step)
    requires Run(get, Next(get, s, step), after, t) && RateOk(get, step.id, step.maxRate)
    ensures var w := WatchOf(s, step);
            forall r: nat, ok: bool :: Fire(step.id, r, ok) in t.fired <==>
              r <= t.phase && Reached(get, w, r) && ok == FirstInBounds(get, w)
    ensures FiredOnce(t.fired)
    ensures Farthest(get(step.id, s.phase), DelayOf(step), step.maxRate) <= step.target ==>
              FirstInBounds(get, WatchOf(s, step))
  {
    hide Next, Run, FiredOnce, Ready, Reached, RateOk, RatesOk, Farthest, Period;
    FarthestBound(get, step.id, step.maxRate, s.phase, DelayOf(step));
    EmptyReady();
    RunReady(get, EMPTY, before, s);
    StepReady(get, s, step);
    InsertTracks(get, s, step);
    RunReady(get, Next(get, s, step), after, t);
    RunTracks(get, Next(get, s, step), after, t, WatchOf(s, step));
    FiredExactly(get, t, WatchOf(s, step));
  }

  lemma ReachedOnce(get: Counters, w: Watch, q: nat, r: nat)
    requires Reached(get, w, q) && Reached(get, w, r)
    ensures q == r
  {
  }

  lemma FiredExactly(get: Counters, t: State, w: Watch)
    requires Ready(t, t.phase + 1) && (Pending(get, t, w) || Done(get, t, w))
    ensures forall r: nat, ok: bool :: Fire(w.id, r, ok) in t.fired <==>
              r <= t.phase && Reached(get, w, r) && ok == FirstInBounds(get, w)
    ensures FiredOnce(t.fired)
  {
    hide Sorted, Distinct;
    if Pending(get, t, w) {
      var it :| Waiting(get, t, w, it);
      assert it.phase > t.phase;
    } else {
      DoneExactly(get, t, w);
    }
  }

  lemma DoneExactly(get: Counters, t: State, w: Watch)
    requires FiredOnce(t.fired) && Done(get, t, w)
    ensures forall r: nat, ok: bool :: Fire(w.id, r, ok) in t.fired <==>
              r <= t.phase && Reached(get, w, r) && ok == FirstInBounds(get, w)
  {
    hide Reached, FirstInBounds;
    var r: nat :| Fire(w.id, r, FirstInBounds(get, w)) in t.fired && r <= t.phase && Reached(get, w, r);
    var j :| 0 <= j < |t.fired| && t.fired[j] == Fire(w.id, r, FirstInBounds(get, w));
    forall q: nat, ok: bool | Fire(w.id, q, ok) in t.fired
      ensures q == r && ok == FirstInBounds(get, w)
    {
      var i :| 0 <= i < |t.fired| && t.fired[i] == Fire(w.id, q, ok);
      assert i == j;
    }
    forall q: nat | Reached(get, w, q)
      ensures q == r
    {
      ReachedOnce(get, w, q, r);
    }
  }

  // ------------------------------------------------------------------ late insertion

  /** The panic of the next tick is exactly an insertion for the current phase, after its tick
      has run. */
  lemma DelayMatters(get: Counters, s: State, e: Event, startDelay: int)
    requires Ready(s, s.phase + 1) && e.id !in s.used && startDelay >= -1 && RateOf(Item(0, e))
    ensures var t := InsertEvent(s, e, startDelay);
            RatesOk(t.items) && (Tick(get, t.(phase := s.phase + 1)).late <==> Delay(e, startDelay) == 0)
  {
    hide InsertItem, Ready, Tick;
    var t := InsertEvent(s, e, startDelay);
    var it := Item(s.phase + Delay(e, startDelay), e);
    ReadyRates(s, s.phase + 1);
    InsertRates(s.items, it);
    if Delay(e, startDelay) >= 1 {
      NewId(s, e.id, s.phase + 1);
      InsertReady(s, it, s.phase + 1);
      SamePhase(t);
      TickReady(get, t.(phase := s.phase + 1));
      ReadyRates(Tick(get, t.(phase := s.phase + 1)), s.phase + 2);
    } else {
      LateFirst(s, it);
      StaysLate(get, t.(phase := s.phase + 1));
    }
  }

  lemma InsertRates(items: seq<Item>, it: Item)
    requires RatesOk(items) && RateOf(it)
    ensures RatesOk(InsertItem(items, it))
  {
    hide Insert;
    var k := InsertSplit(items, it, Sooner);
  }

  lemma LateFirst(s: State, it: Item)
    requires Ready(s, s.phase + 1) && it.phase == s.phase
    ensures InsertItem(s.items, it)[0] == it
  {
    hide Insert;
    var k := InsertSplit(s.items, it, Sooner);
  }

  /** A late first item makes tick panic, and a failed run stays failed. */
  lemma {:induction false} StaysLate(get: Counters, s: State)
    requires RatesOk(s.items) && (s.late || (s.items != [] && s.items[0].phase < s.phase))
    ensures Tick(get, s).late
    decreases Due(s.items, s.phase)
  {
    if s.items != [] && s.items[0].phase <= s.phase {
      TurnDue(get, s);
      StaysLate(get, Turn(get, s));
    }
  }
}

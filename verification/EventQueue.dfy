/** The phase event queue and the adaptive event, which fires in the first phase in which a
    counter has reached its target.

    get(id, p) is the counter of event id in phase p. */
module EventQueue {
  import opened Insertion

  datatype Kind = Plain | Adaptive(target: nat, maxRate: nat)

  /** period 0: the queue disposes of the event after its callback. */
  datatype Event = Event(id: nat, period: nat, kind: Kind)

  datatype Item = Item(phase: nat, event: Event)

  /** An adaptive event that has fired; inBounds: the counter was at most maxRate past the
      target, as the event asserts. */
  datatype Fire = Fire(id: nat, phase: nat, inBounds: bool)

  /** used: all ids ever inserted; late: an event was found after its phase, the panic of tick. */
  datatype State = State(phase: nat, items: seq<Item>, fired: seq<Fire>, used: set<nat>, late: bool)

  type Counters = (nat, nat) -> nat

  // -------------------------------------------------------------------- the source

  /** The period that AdaptiveEvent chooses when its counter is at cur. */
  function Period(target: nat, cur: nat, maxRate: nat): (n: nat)
    requires cur <= target && maxRate >= 1
    ensures n >= 1
  {
    var n := (target - cur) / maxRate;
    if n == 0 then 1 else n
  }

  /** The event after its callback in the given phase, whether it fired, and whether the
      counter was in bounds. */
  function Callback(get: Counters, e: Event, phase: nat): (r: (Event, bool, bool))
    requires e.kind.Adaptive? ==> e.kind.maxRate >= 1
  {
    match e.kind
    case Plain => (e, false, true)
    case Adaptive(target, maxRate) =>
      var cur := get(e.id, phase);
      if cur >= target then (e.(period := 0), true, cur - target <= maxRate)
      else (e.(period := Period(target, cur, maxRate)), false, true)
  }

  predicate Sooner(a: Item, b: Item) { a.phase < b.phase }

  /** Multimap insertion: behind all items for the same phase. */
  function InsertItem(items: seq<Item>, it: Item): (r: seq<Item>)
    ensures |r| == |items| + 1
  {
    Insert(items, it, Sooner)
  }

  predicate RatesOk(items: seq<Item>) {
    forall i :: 0 <= i < |items| && items[i].event.kind.Adaptive? ==> items[i].event.kind.maxRate >= 1
  }

  /** One turn of the loop of tick. */
  function Turn(get: Counters, s: State): (t: State)
    requires s.items != [] && RatesOk(s.items)
  {
    var it := s.items[0];
    var (e, fires, ok) := Callback(get, it.event, s.phase);
    s.(items := if e.period != 0 then InsertItem(s.items[1..], Item(s.phase + e.period, e)) else s.items[1..],
       fired := if fires then s.fired + [Fire(e.id, s.phase, ok)] else s.fired,
       late := s.late || it.phase != s.phase)
  }

  /** How many items are due. */
  function Due(items: seq<Item>, phase: nat): (n: nat)
    ensures n <= |items|
  {
    if items == [] then 0
    else (if items[|items| - 1].phase <= phase then 1 else 0) + Due(items[..|items| - 1], phase)
  }

  /** EventQueue::tick. */
  function Tick(get: Counters, s: State): (t: State)
    requires RatesOk(s.items)
    decreases Due(s.items, s.phase)
  {
    if s.items != [] && s.items[0].phase <= s.phase then
      TurnDue(get, s);
      Tick(get, Turn(get, s))
    else s
  }

  /** Without a start delay the event's period is the delay. */
  function Delay(e: Event, startDelay: int): (d: nat)
    requires startDelay >= -1
  {
    if startDelay == -1 then e.period else startDelay
  }

  /** EventQueue::insert. */
  function InsertEvent(s: State, e: Event, startDelay: int): (t: State)
    requires startDelay >= -1
  {
    s.(items := InsertItem(s.items, Item(s.phase + Delay(e, startDelay), e)), used := s.used + {e.id})
  }

  // ------------------------------------------------------------------ termination

  lemma {:induction false} DueInsert(items: seq<Item>, it: Item, phase: nat)
    requires it.phase > phase
    ensures Due(InsertItem(items, it), phase) == Due(items, phase)
  {
    if items == [] || !Sooner(it, items[|items| - 1]) {
      assert (items + [it])[..|items|] == items;
    } else {
      var t, last := items[..|items| - 1], items[|items| - 1];
      DueInsert(t, it, phase);
      assert (InsertItem(t, it) + [last])[..|items|] == InsertItem(t, it);
    }
  }

  lemma {:induction false} DueTail(items: seq<Item>, phase: nat)
    requires items != []
    ensures Due(items, phase) == Due(items[1..], phase) + if items[0].phase <= phase then 1 else 0
  {
    if |items| > 1 {
      var t := items[..|items| - 1];
      DueTail(t, phase);
      assert items[1..][..|items| - 2] == t[1..];
    }
  }

  /** Each turn takes one item off those that are due: tick terminates. */
  lemma TurnDue(get: Counters, s: State)
    requires s.items != [] && RatesOk(s.items) && s.items[0].phase <= s.phase
    ensures RatesOk(Turn(get, s).items)
    ensures Due(Turn(get, s).items, s.phase) == Due(s.items, s.phase) - 1
  {
    hide Due, Insert;
    var (e, fires, ok) := Callback(get, s.items[0].event, s.phase);
    DueTail(s.items, s.phase);
    if e.period != 0 {
      DueInsert(s.items[1..], Item(s.phase + e.period, e), s.phase);
      var k := InsertSplit(s.items[1..], Item(s.phase + e.period, e), Sooner);
    }
  }

  // ------------------------------------------------------------------- the object

  class Queue {
    var phase: nat
    var items: seq<Item>
    var fired: seq<Fire>
    var late: bool
    ghost var used: set<nat>

    constructor ()
      ensures Abs() == State(0, [], [], {}, false)
    {
      phase, items, fired, late, used := 0, [], [], false, {};
    }

    ghost function Abs(): (s: State)
      reads this
    {
      State(phase, items, fired, used, late)
    }

    /** Behind all items for the same phase, found from the back. */
    method Put(it: Item)
      modifies `items
      ensures items == InsertItem(old(items), it)
    {
      var k := |items|;
      assert items[..k] == items;
      while k > 0 && items[k - 1].phase > it.phase
        invariant 0 <= k <= |items| && items == old(items)
        invariant Insert(items, it, Sooner) == Insert(items[..k], it, Sooner) + items[k..]
      {
        assert items[..k][..k - 1] == items[..k - 1];
        k := k - 1;
      }
      items := items[..k] + [it] + items[k..];
    }

    method DoInsert(e: Event, startDelay: int)
      requires startDelay >= -1
      modifies this
      ensures Abs() == InsertEvent(old(Abs()), e, startDelay)
    {
      hide InsertItem;
      Put(Item(if startDelay == -1 then phase + e.period else phase + startDelay, e));
      used := used + {e.id};
    }

    /** AdaptiveEvent::callback, and an empty callback for other events. */
    method RunCallback(get: Counters, e: Event) returns (after: Event)
      requires e.kind.Adaptive? ==> e.kind.maxRate >= 1
      modifies `fired
      ensures var r := Callback(get, e, phase);
              after == r.0 && fired == if r.1 then old(fired) + [Fire(e.id, phase, r.2)] else old(fired)
    {
      after := e;
      if e.kind.Adaptive? {
        var cur := get(e.id, phase);
        if cur >= e.kind.target {
          fired := fired + [Fire(e.id, phase, cur - e.kind.target <= e.kind.maxRate)];
          after := e.(period := 0);
        } else {
          var period := (e.kind.target - cur) / e.kind.maxRate;
          if period == 0 {
            period := 1;
          }
          after := e.(period := period);
        }
      }
    }

    method OneTurn(get: Counters)
      requires items != [] && RatesOk(items)
      modifies `items, `fired, `late
      ensures Abs() == Turn(get, old(Abs()))
    {
      hide InsertItem;
      var it := items[0];
      late := late || it.phase != phase;
      items := items[1..];
      var e := RunCallback(get, it.event);
      if e.period != 0 {
        Put(Item(phase + e.period, e));
      }
    }

    method DoTick(get: Counters)
      requires RatesOk(items)
      modifies `items, `fired, `late
      ensures Abs() == Tick(get, old(Abs()))
    {
      hide Turn, Due;
      while items != [] && items[0].phase <= phase
        invariant RatesOk(items) && Tick(get, Abs()) == Tick(get, old(Abs()))
        decreases Due(items, phase)
      {
        TurnDue(get, Abs());
        OneTurn(get);
      }
    }
  }
}

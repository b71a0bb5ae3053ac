/** Conversions between system and memory cycles of the DDR controller.

    Cycle counts are unbounded here; the source multiplies 64-bit cycles by frequencies in
    kHz and accepts overflow after some trillion cycles. */
module DdrClock {

  datatype Clock = Clock(sysFreq: nat, memFreq: nat)

  /** The constructor panics unless memFreq < sysFreq / 2. */
  predicate ValidClock(k: Clock) {
    1 <= k.memFreq < k.sysFreq / 2
  }

  function SysToMem(k: Clock, sysCycle: nat): (memCycle: nat)
    requires ValidClock(k)
    ensures memCycle >= 1
  {
    sysCycle * k.memFreq / k.sysFreq + 1
  }

  function MemToSys(k: Clock, memCycle: nat): nat
    requires ValidClock(k)
  {
    (memCycle + 1) * k.sysFreq / k.memFreq
  }

  function MatchingMemToSys(k: Clock, memCycle: nat): nat
    requires ValidClock(k) && memCycle >= 1
  {
    (2 * memCycle - 1) * k.sysFreq / k.memFreq / 2
  }

  lemma DivBounds(x: nat, d: nat)
    requires d > 0
    ensures d * (x / d) <= x < d * (x / d) + d
  {
  }

  lemma SmallMultiple(e: int, d: int)
    requires -d < e * d < d
    ensures e == 0
  {
  }

  lemma DivUnique(x: nat, d: nat, q: nat)
    requires d > 0 && q * d <= x < q * d + d
    ensures x / d == q
  {
    DivBounds(x, d);
    var r := x / d;
    assert (r - q) * d == d * r - q * d;
    SmallMultiple(r - q, d);
  }

  /** Halving a quotient brings the product back within one memory cycle. */
  lemma HalfBounds(n: nat, m: nat) returns (x: nat)
    requires m > 0
    ensures x == n / m / 2 && 2 * (x * m) <= n < 2 * (x * m) + 2 * m
  {
    var a := n / m;
    x := a / 2;
    DivBounds(n, m);
    var y := a % 2;
    assert a == 2 * x + y;
    assert m * a == 2 * (x * m) + m * y;
    assert m * y <= m;
  }

  /** The inequality the source says can be proved: converting a memory cycle to its
      matching system cycle and back is the identity. */
  lemma MatchingRoundTrip(k: Clock, memCycle: nat)
    requires ValidClock(k) && memCycle >= 1
    ensures SysToMem(k, MatchingMemToSys(k, memCycle)) == memCycle
    ensures MatchingMemToSys(k, memCycle) >= 1
  {
    RoundTrip(k.sysFreq, k.memFreq, memCycle);
  }

  function Times(a: nat, b: nat): nat { a * b }

  function Div(a: nat, d: nat): nat
    requires d > 0
  {
    a / d
  }

  lemma RoundTrip(s: nat, m: nat, c: nat)
    requires c >= 1 && m >= 1 && 2 * m < s
    ensures var x := Div(Div(Times(2 * c - 1, s), m), 2);
            Div(Times(x, m), s) == c - 1 && x >= 1
  {
    hide Times, Div;
    var n := Times(2 * c - 1, s);
    var x := Div(Div(n, m), 2);
    TimesHalf(n, m);
    OddMultiple(c, s);
    Between(n, Times(c - 1, s), Times(x, m), s, m);
    TimesUnique(Times(x, m), s, c - 1);
    Positive(x, m);
  }

  lemma TimesHalf(n: nat, m: nat)
    requires m > 0
    ensures var xm := Times(Div(Div(n, m), 2), m); 2 * xm <= n < 2 * xm + 2 * m
  {
    var x := HalfBounds(n, m);
  }

  lemma TimesUnique(y: nat, d: nat, q: nat)
    requires d > 0 && Times(q, d) <= y < Times(q, d) + d
    ensures Div(y, d) == q
  {
    DivUnique(y, d, q);
  }

  lemma Positive(x: nat, m: nat)
    requires Times(x, m) > 0
    ensures x >= 1
  {
  }

  lemma OddMultiple(c: nat, s: nat)
    requires c >= 1
    ensures Times(2 * c - 1, s) == 2 * Times(c - 1, s) + s
  {
  }

  lemma Between(n: int, p: int, xm: int, s: int, m: int)
    requires n == 2 * p + s && 2 * xm <= n < 2 * xm + 2 * m && 2 * m < s
    ensures p < xm < p + s
  {
  }

  /** The conversions without division: memory cycle m covers the system cycles in which the
      memory's clock has ticked m - 1 times, a response is available when it has ticked m + 1
      times, and the matching cycle is the one in the middle. */
  lemma SysToMemExact(k: Clock, sysCycle: nat, m: nat)
    requires ValidClock(k)
    ensures m == SysToMem(k, sysCycle) <==>
            m >= 1 && Times(m - 1, k.sysFreq) <= Times(sysCycle, k.memFreq) < Times(m - 1, k.sysFreq) + k.sysFreq
  {
    QuotientExact(sysCycle * k.memFreq, k.sysFreq, m - 1);
  }

  lemma MemToSysExact(k: Clock, memCycle: nat, x: nat)
    requires ValidClock(k)
    ensures x == MemToSys(k, memCycle) <==>
            Times(x, k.memFreq) <= Times(memCycle + 1, k.sysFreq) < Times(x, k.memFreq) + k.memFreq
  {
    QuotientExact((memCycle + 1) * k.sysFreq, k.memFreq, x);
  }

  lemma MatchingExact(k: Clock, memCycle: nat, x: nat)
    requires ValidClock(k) && memCycle >= 1
    ensures x == MatchingMemToSys(k, memCycle) <==>
            2 * Times(x, k.memFreq) <= Times(2 * memCycle - 1, k.sysFreq) < 2 * Times(x, k.memFreq) + 2 * k.memFreq
  {
    hide Times;
    var n := Times(2 * memCycle - 1, k.sysFreq);
    var y := MatchingMemToSys(k, memCycle);
    MatchingHalf(k, memCycle);
    if 2 * Times(x, k.memFreq) <= n < 2 * Times(x, k.memFreq) + 2 * k.memFreq {
      Closest(x, y, k.memFreq, n);
    }
  }

  lemma MatchingHalf(k: Clock, memCycle: nat)
    requires ValidClock(k) && memCycle >= 1
    ensures var n, ym := Times(2 * memCycle - 1, k.sysFreq), Times(MatchingMemToSys(k, memCycle), k.memFreq);
            2 * ym <= n < 2 * ym + 2 * k.memFreq
  {
    TimesHalf((2 * memCycle - 1) * k.sysFreq, k.memFreq);
  }

  lemma Closest(x: nat, y: nat, m: nat, n: nat)
    requires m > 0 && 2 * Times(x, m) <= n < 2 * Times(x, m) + 2 * m && 2 * Times(y, m) <= n < 2 * Times(y, m) + 2 * m
    ensures x == y
  {
    assert (x - y) * m == x * m - y * m;
    SmallMultiple(x - y, m);
  }

  lemma QuotientExact(n: nat, d: nat, q: int)
    requires d > 0
    ensures q == n / d <==> q >= 0 && q * d <= n < q * d + d
  {
    DivBounds(n, d);
    if q >= 0 && q * d <= n < q * d + d {
      DivUnique(n, d, q);
    }
  }

  lemma SysToMemMonotone(k: Clock, a: nat, b: nat)
    requires ValidClock(k) && a <= b
    ensures SysToMem(k, a) <= SysToMem(k, b)
  {
    assert a * k.memFreq <= b * k.memFreq;
    DivMonotone(a * k.memFreq, b * k.memFreq, k.sysFreq);
  }

  lemma DivMonotone(x: nat, y: nat, d: nat)
    requires d > 0 && x <= y
    ensures x / d <= y / d
  {
    DivBounds(x, d);
    DivBounds(y, d);
    var e := x / d - y / d;
    assert e * d == d * (x / d) - d * (y / d);
    assert e * d < d;
  }

  /** An event for memory cycle m is queued at the matching system cycle or now, whichever is
      later; either way it fires in memory cycle m. */
  lemma QueuedCycleConverts(k: Clock, m: nat, now: nat)
    requires ValidClock(k) && 1 <= m && SysToMem(k, now) <= m
    ensures var c := MatchingMemToSys(k, m);
            var at := if c > now then c else now;
            SysToMem(k, at) == m && at >= 1
  {
    MatchingRoundTrip(k, m);
    var c := MatchingMemToSys(k, m);
    if c <= now {
      SysToMemMonotone(k, c, now);
    }
  }

  /** A response in the current memory cycle or later is not in the past of the cores. */
  lemma ResponseNotPast(k: Clock, now: nat, m: nat)
    requires ValidClock(k) && SysToMem(k, now) <= m
    ensures MemToSys(k, m) >= now
  {
    var x: nat, y: nat := now * k.memFreq, (m + 1) * k.sysFreq;
    DivBounds(x, k.sysFreq);
    Scale(x / k.sysFreq + 1, m + 1, k.sysFreq);
    assert x <= y;
    DivMonotone(x, y, k.memFreq);
    DivUnique(x, k.memFreq, now);
  }

  lemma Scale(a: nat, b: nat, c: nat)
    requires a <= b
    ensures a * c <= b * c
  {
  }
}

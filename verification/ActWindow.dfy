/** The activation window of a rank: a circular buffer of the latest activation cycles, kept
    in time order although activations may be recorded out of order.

    A window is written as the sequence from its oldest to its newest entry. */
module ActWindow {
  import opened Insertion

  predicate Earlier(a: nat, b: nat) { a < b }

  predicate Sorted(s: seq<nat>) {
    forall i, j :: 0 <= i < j < |s| ==> s[i] <= s[j]
  }

  /** Insert into a sorted sequence, after all entries that are not larger. */
  function InsertSorted(s: seq<nat>, x: nat): (r: seq<nat>)
    ensures |r| == |s| + 1
  {
    Insert(s, x, Earlier)
  }

  function Before(n: nat, j: nat): (r: nat)
    requires j < n
    ensures r < n
  {
    if j == 0 then n - 1 else j - 1
  }

  /** Where the free slot is after k moves, counted from the oldest. */
  function Hole(n: nat, k: nat): (r: nat)
    requires k <= n && 1 <= n
    ensures r < n
  {
    if k == 0 || k == n then 0 else n - k
  }

  /** The buffer, oldest slot first, after the k newest entries have moved up one slot.  The
      n-th move finds the newest entry again, in the slot where the first move put it. */
  function Shifted(w: seq<nat>, k: nat): (r: seq<nat>)
    requires 1 <= |w| && k <= |w|
    ensures |r| == |w|
  {
    seq(|w|, s requires 0 <= s < |w| =>
      if k == 0 then w[s]
      else if s == 0 || (s == 1 && k == |w|) then w[|w| - 1]
      else if s <= |w| - k then w[s]
      else w[s - 1])
  }

  /** The entry that the next move takes. */
  function Taken(w: seq<nat>, k: nat): (r: nat)
    requires k < |w|
  {
    if k > 0 && k == |w| - 1 then w[k] else w[|w| - 1 - k]
  }

  /** How many entries are moved in all, from the k-th on. */
  function Moves(w: seq<nat>, act: nat, k: nat): (r: nat)
    requires k <= |w|
    ensures k <= r <= |w|
    decreases |w| - k
  {
    if k == |w| || Taken(w, k) <= act then k else Moves(w, act, k + 1)
  }

  /** What addActivation leaves in a window, in order or not. */
  function Added(w: seq<nat>, act: nat): (r: seq<nat>)
    requires |w| >= 1
    ensures |r| == |w|
  {
    var k := Moves(w, act, 0);
    var t := Shifted(w, k)[Hole(|w|, k) := act];
    t[1..] + [t[0]]
  }

  lemma SortedIsOrder(s: seq<nat>)
    ensures Sorted(s) <==> InOrder(s, Earlier)
    ensures IsOrder(Earlier)
  {
  }

  lemma InsertShape(s: seq<nat>, x: nat) returns (k: nat)
    requires Sorted(s)
    ensures k <= |s| && InsertSorted(s, x) == s[..k] + [x] + s[k..]
    ensures forall i :: 0 <= i < k ==> s[i] <= x
    ensures forall i :: k <= i < |s| ==> s[i] > x
  {
    hide Insert, Sorted, InOrder, IsOrder;
    SortedIsOrder(s);
    k := InsertInOrder(s, x, Earlier);
  }

  lemma InsertSortedOk(s: seq<nat>, x: nat)
    requires Sorted(s)
    ensures Sorted(InsertSorted(s, x)) && multiset(InsertSorted(s, x)) == multiset(s) + multiset{x}
  {
    hide Insert, Sorted, InOrder, IsOrder;
    SortedIsOrder(s);
    var k := InsertInOrder(s, x, Earlier);
    SortedIsOrder(InsertSorted(s, x));
    InsertMultiset(s, x, Earlier);
  }

  /** The number of moves stops at the first entry that is not newer. */
  lemma {:induction false} MovesAre(w: seq<nat>, act: nat, j: nat, k: nat)
    requires k <= j <= |w|
    requires forall i :: k <= i < j ==> Taken(w, i) > act
    requires j == |w| || Taken(w, j) <= act
    ensures Moves(w, act, k) == j
    decreases j - k
  {
    if k < j {
      MovesAre(w, act, j, k + 1);
    }
  }

  /** What is left after k moves: the oldest entry is gone and act has come, behind the k
      entries that moved.  If all moved, the newest entry has become the oldest. */
  lemma AddedShape(w: seq<nat>, act: nat)
    requires |w| >= 1
    ensures var n, k := |w|, Moves(w, act, 0);
            Added(w, act) == if k == n && n >= 2 then [w[n - 1]] + w[1..n - 1] + [act]
                             else if k == n then [act]
                             else w[1..n - k] + [act] + w[n - k..]
  {
    hide Moves, Shifted, Hole;
    var n, k := |w|, Moves(w, act, 0);
    if k == n && n >= 2 {
      AllMoved(w, act);
    } else if k == n {
      OnlyMoved(w, act);
    } else {
      SomeMoved(w, act, k);
    }
  }

  lemma AllMoved(w: seq<nat>, act: nat)
    requires |w| >= 2
    ensures var n := |w|; var t := Shifted(w, n)[Hole(n, n) := act];
            t[1..] + [t[0]] == [w[n - 1]] + w[1..n - 1] + [act]
  {
  }

  lemma OnlyMoved(w: seq<nat>, act: nat)
    requires |w| == 1
    ensures var t := Shifted(w, 1)[Hole(1, 1) := act]; t[1..] + [t[0]] == [act]
  {
  }

  lemma SomeMoved(w: seq<nat>, act: nat, k: nat)
    requires k < |w|
    ensures var n := |w|; var t := Shifted(w, k)[Hole(n, k) := act];
            t[1..] + [t[0]] == w[1..n - k] + [act] + w[n - k..]
  {
    if k == 0 {
      assert w[|w|..] == [];
    }
  }

  /** So the window always holds its entries without the oldest, and act. */
  lemma AddedHolds(w: seq<nat>, act: nat)
    requires |w| >= 1
    ensures multiset(Added(w, act)) + multiset{w[0]} == multiset(w) + multiset{act}
  {
    hide Added, Moves;
    AddedShape(w, act);
    var n, k := |w|, Moves(w, act, 0);
    if k == n && n >= 2 {
      AllHeld(w, act, Added(w, act));
    } else if k == n {
      assert w == [w[0]];
    } else {
      SomeHeld(w, act, k, Added(w, act));
    }
  }

  lemma AllHeld(w: seq<nat>, act: nat, r: seq<nat>)
    requires |w| >= 2 && r == [w[|w| - 1]] + w[1..|w| - 1] + [act]
    ensures multiset(r) + multiset{w[0]} == multiset(w) + multiset{act}
  {
    var n := |w|;
    Rotated(w[0], w[1..n - 1], w[n - 1], act);
    assert w == [w[0]] + w[1..n - 1] + [w[n - 1]];
  }

  lemma SomeHeld(w: seq<nat>, act: nat, k: nat, r: seq<nat>)
    requires k < |w| && r == w[1..|w| - k] + [act] + w[|w| - k..]
    ensures multiset(r) + multiset{w[0]} == multiset(w) + multiset{act}
  {
    var n := |w|;
    Exchanged(w[0], w[1..n - k], w[n - k..], act);
    assert w == [w[0]] + w[1..n - k] + w[n - k..];
  }

  lemma Rotated(x: nat, a: seq<nat>, z: nat, act: nat)
    ensures multiset([z] + a + [act]) + multiset{x} == multiset([x] + a + [z]) + multiset{act}
  {
    assert multiset([x] + a + [z]) == multiset{x} + multiset(a) + multiset{z};
  }

  lemma Exchanged(x: nat, a: seq<nat>, b: seq<nat>, act: nat)
    ensures multiset(a + [act] + b) + multiset{x} == multiset([x] + a + b) + multiset{act}
  {
    assert multiset(a + [act] + b) == multiset(a) + multiset{act} + multiset(b);
    assert multiset([x] + a + b) == multiset{x} + multiset(a) + multiset(b);
  }

  /** In an ordered window an activation that is not older than the second-oldest entry
      replaces the oldest one and goes where it belongs. */
  lemma AddedIsInsert(w: seq<nat>, act: nat)
    requires |w| >= 2 && Sorted(w) && w[1] <= act
    ensures Added(w, act) == InsertSorted(w[1..], act)
  {
    hide Added, InsertSorted, Sorted, Moves;
    TailSorted(w, 1);
    var j := InsertShape(w[1..], act);
    MovesInTime(w, act, j);
    AddedShape(w, act);
    TailSlices(w, j);
  }

  lemma TailSlices(w: seq<nat>, j: nat)
    requires j < |w|
    ensures w[1..][..j] == w[1..j + 1] && w[1..][j..] == w[j + 1..]
  {
  }

  lemma MovesInTime(w: seq<nat>, act: nat, j: nat)
    requires |w| >= 2 && w[1] <= act && j < |w|
    requires (forall i :: 0 <= i < j ==> w[1..][i] <= act) && (forall i :: j <= i < |w| - 1 ==> w[1..][i] > act)
    ensures Moves(w, act, 0) == |w| - 1 - j && j >= 1
  {
    hide Moves;
    assert w[1..][0] == w[1];
    assert forall i :: 1 <= i < |w| ==> w[i] == w[1..][i - 1];
    MovesAre(w, act, |w| - 1 - j, 0);
  }

  lemma TailSorted(s: seq<nat>, i: nat)
    requires i <= |s| && Sorted(s)
    ensures Sorted(s[i..])
  {
  }

  /** One between the two oldest entries goes round the whole buffer: the loop comes back to
      the slot it overwrote first, and the newest entry becomes the oldest. */
  lemma AddedLate(w: seq<nat>, act: nat)
    requires |w| >= 2 && Sorted(w) && w[0] <= act < w[1]
    ensures Added(w, act) == [w[|w| - 1]] + w[1..|w| - 1] + [act]
  {
    MovesAre(w, act, |w|, 0);
    AddedShape(w, act);
  }

  /** The window stays in time order iff the new activation is not older than the second-oldest
      entry. */
  lemma SortedIff(w: seq<nat>, act: nat)
    requires |w| >= 2 && Sorted(w) && w[0] <= act
    ensures Sorted(Added(w, act)) <==> act >= w[1]
  {
    if act >= w[1] {
      AddedIsInsert(w, act);
      InsertSortedOk(w[1..], act);
    } else {
      AddedLate(w, act);
      var r := Added(w, act);
      assert r[0] == w[|w| - 1] && r[|r| - 1] == act;
    }
  }

  // -------------------------------------------------- the four-activate window

  /** The newest n entries. */
  function Last(s: seq<nat>, n: nat): (r: seq<nat>)
    requires n <= |s|
  {
    s[|s| - n..]
  }

  /** Any n + 1 activations in time order span at least t. */
  ghost predicate Spaced(h: seq<nat>, n: nat, t: nat) {
    forall i :: 0 <= i < |h| - n ==> h[i + n] >= h[i] + t
  }

  /** The place of x is the same in a sorted sequence and in its tail, if it falls there. */
  lemma SplitUnique(h: seq<nat>, off: nat, x: nat, k: nat, j: nat)
    requires off < |h| && h[off] <= x && k <= |h| && j <= |h| - off
    requires (forall i :: 0 <= i < k ==> h[i] <= x) && (forall i :: k <= i < |h| ==> h[i] > x)
    requires (forall i :: 0 <= i < j ==> h[off..][i] <= x) && (forall i :: j <= i < |h| - off ==> h[off..][i] > x)
    ensures k == j + off
  {
    assert off < k;
    if k < |h| {
      assert h[off..][k - off] == h[k];
    }
    if j + off < |h| {
      assert h[off..][j] == h[j + off];
    }
  }

  lemma SliceOfInsert(h: seq<nat>, off: nat, k: nat, x: nat)
    requires off <= k <= |h|
    ensures (h[..k] + [x] + h[k..])[off..] == h[off..][..k - off] + [x] + h[off..][k - off..]
  {
  }

  /** The window follows the history: it holds its newest entries. */
  lemma WindowFollowsHistory(h: seq<nat>, n: nat, act: nat)
    requires 2 <= n <= |h| && Sorted(h) && act >= Last(h, n)[1]
    ensures Added(Last(h, n), act) == Last(InsertSorted(h, act), n)
  {
    hide Sorted, InsertSorted, Added;
    var w, off := Last(h, n), |h| - n + 1;
    TailSorted(h, off);
    TailSorted(h, off - 1);
    AddedIsInsert(w, act);
    var k := InsertShape(h, act);
    assert h[off..] == w[1..];
    var j := InsertShape(w[1..], act);
    SplitUnique(h, off, act, k, j);
    SliceOfInsert(h, off, k, act);
  }

  /** Activations recorded one after another, each t or more after the entry the window shows
      as its oldest. */
  ghost predicate WindowRun(w: seq<nat>, t: nat, acts: seq<nat>, r: seq<nat>)
    requires |w| >= 1
    decreases |acts|
  {
    if acts == [] then r == w
    else acts[0] >= w[0] + t && WindowRun(Added(w, acts[0]), t, acts[1..], r)
  }

  /** For every tFAW of at least a cycle, an idle window loses its order: three activations of
      busy banks come first, and the fourth, allowed right after tFAW, falls before them. */
  lemma LateActivationBreaksOrder(t: nat)
    requires t >= 1
    ensures var r := [t + 3, t + 1, t + 2, t];
            WindowRun([0, 0, 0, 0], t, [t + 1, t + 2, t + 3, t], r) && !Sorted(r)
  {
    hide Added;
    InTimeAdded(0, 0, 0, 0, t + 1);
    InTimeAdded(0, 0, 0, t + 1, t + 2);
    InTimeAdded(0, 0, t + 1, t + 2, t + 3);
    AddedLate([0, t + 1, t + 2, t + 3], t);
    var r := [t + 3, t + 1, t + 2, t];
    assert Added([0, t + 1, t + 2, t + 3], t) == r;
    assert r[0] > r[3];
    var acts: seq<nat> := [t + 1, t + 2, t + 3, t];
    assert acts[1..] == [t + 2, t + 3, t] && acts[1..][1..] == [t + 3, t] && acts[1..][1..][1..] == [t];
    assert WindowRun([0, t + 1, t + 2, t + 3], t, [t], r);
    assert WindowRun([0, 0, t + 1, t + 2], t, [t + 3, t], r);
    assert WindowRun([0, 0, 0, t + 1], t, [t + 2, t + 3, t], r);
  }

  /** An activation newer than all entries goes behind them. */
  lemma InTimeAdded(a: nat, b: nat, c: nat, d: nat, act: nat)
    requires a <= b <= c <= d <= act
    ensures Added([a, b, c, d], act) == [b, c, d, act]
  {
    assert Moves([a, b, c, d], act, 0) == 0;
    AddedShape([a, b, c, d], act);
  }

  /** No activation is older than the second-oldest entry of the window. */
  ghost predicate InTime(w: seq<nat>, acts: seq<nat>)
    requires |w| >= 2
    decreases |acts|
  {
    acts == [] || (acts[0] >= w[1] && InTime(Added(w, acts[0]), acts[1..]))
  }

  lemma {:induction false} WindowRunExtend(w: seq<nat>, t: nat, acts: seq<nat>, r: seq<nat>, act: nat)
    requires |w| >= 1 && WindowRun(w, t, acts, r)
    ensures |r| == |w|
    ensures act >= r[0] + t ==> WindowRun(w, t, acts + [act], Added(r, act))
    decreases |acts|
  {
    hide Added;
    if acts == [] {
      assert (acts + [act])[1..] == [];
    } else {
      WindowRunExtend(Added(w, acts[0]), t, acts[1..], r, act);
      assert (acts + [act])[1..] == acts[1..] + [act];
    }
  }

  function History(h: seq<nat>, acts: seq<nat>): (r: seq<nat>)
    decreases |acts|
  {
    if acts == [] then h else History(InsertSorted(h, acts[0]), acts[1..])
  }

  // ------------------------------------------- activations in any stretch of time

  /** How many entries lie in [lo, hi). */
  function Count(s: seq<nat>, lo: nat, hi: nat): (n: nat)
    ensures n <= |s|
  {
    if s == [] then 0 else (if lo <= s[0] < hi then 1 else 0) + Count(s[1..], lo, hi)
  }

  /** How many entries lie in the t cycles from x on. */
  function Within(s: seq<nat>, x: nat, t: nat): (n: nat) {
    Count(s, x, x + t)
  }

  lemma {:induction false} CountConcat(a: seq<nat>, b: seq<nat>, lo: nat, hi: nat)
    ensures Count(a + b, lo, hi) == Count(a, lo, hi) + Count(b, lo, hi)
  {
    if a == [] {
      assert a + b == b;
    } else {
      assert (a + b)[1..] == a[1..] + b;
      CountConcat(a[1..], b, lo, hi);
    }
  }

  lemma {:induction false} CountNone(s: seq<nat>, lo: nat, hi: nat)
    requires forall i :: 0 <= i < |s| ==> !(lo <= s[i] < hi)
    ensures Count(s, lo, hi) == 0
  {
    if s != [] {
      CountNone(s[1..], lo, hi);
    }
  }

  lemma {:induction false} CountAll(s: seq<nat>, lo: nat, hi: nat)
    requires forall i :: 0 <= i < |s| ==> lo <= s[i] < hi
    ensures Count(s, lo, hi) == |s|
  {
    if s != [] {
      CountAll(s[1..], lo, hi);
    }
  }

  /** Entries below x and entries in [x, hi) are different ones. */
  lemma {:induction false} CountDisjoint(s: seq<nat>, x: nat, hi: nat)
    ensures Count(s, x, hi) + Count(s, 0, x) <= |s|
  {
    if s != [] {
      CountDisjoint(s[1..], x, hi);
    }
  }

  lemma {:induction false} CountRemove(s: seq<nat>, i: nat, lo: nat, hi: nat)
    requires i < |s|
    ensures Count(s, lo, hi) == Count(s[..i] + s[i + 1..], lo, hi) + Count([s[i]], lo, hi)
  {
    assert s == s[..i] + ([s[i]] + s[i + 1..]);
    CountConcat(s[..i], [s[i]] + s[i + 1..], lo, hi);
    CountConcat([s[i]], s[i + 1..], lo, hi);
    CountConcat(s[..i], s[i + 1..], lo, hi);
  }

  lemma WithoutOne(s: seq<nat>, i: nat)
    requires i < |s|
    ensures multiset(s[..i] + s[i + 1..]) == multiset(s) - multiset{s[i]}
  {
    assert s == s[..i] + [s[i]] + s[i + 1..];
  }

  /** Counting does not depend on the order. */
  lemma {:induction false} CountMultiset(a: seq<nat>, b: seq<nat>, lo: nat, hi: nat)
    requires multiset(a) == multiset(b)
    ensures Count(a, lo, hi) == Count(b, lo, hi)
    decreases |a|
  {
    if a == [] {
      assert |multiset(b)| == 0;
    } else {
      assert a[0] in multiset(b);
      var i :| 0 <= i < |b| && b[i] == a[0];
      assert a == [a[0]] + a[1..];
      WithoutOne(b, i);
      assert multiset(a[1..]) == multiset(a) - multiset{a[0]};
      CountMultiset(a[1..], b[..i] + b[i + 1..], lo, hi);
      CountRemove(b, i, lo, hi);
      assert [a[0]][1..] == [];
    }
  }

  /** In any t cycles there are at most n activations, and as many fewer as the window has
      older entries to retire first. */
  ghost predicate Bounded(h: seq<nat>, w: seq<nat>, t: nat) {
    forall x: nat :: Count(h, x, x + t) + Count(w, 0, x) <= |w|
  }

  lemma BoundedCount(h: seq<nat>, w: seq<nat>, t: nat, x: nat)
    requires Bounded(h, w, t)
    ensures Count(h, x, x + t) <= |w|
  {
    assert Count(h, x, x + t) + Count(w, 0, x) <= |w|;
  }

  lemma CountAdded(w: seq<nat>, act: nat, lo: nat, hi: nat)
    requires |w| >= 1
    ensures Count(Added(w, act), lo, hi) + Count([w[0]], lo, hi) == Count(w, lo, hi) + Count([act], lo, hi)
  {
    hide Added, Count;
    AddedHolds(w, act);
    CountMultiset(Added(w, act) + [w[0]], w + [act], lo, hi);
    CountConcat(Added(w, act), [w[0]], lo, hi);
    CountConcat(w, [act], lo, hi);
  }

  lemma CountOne(x: nat, lo: nat, hi: nat)
    ensures Count([x], lo, hi) == if lo <= x < hi then 1 else 0
  {
    assert [x][1..] == [];
  }

  /** An activation t or more after the entry it retires keeps the bound, in whatever order
      the window is. */
  lemma BoundKept(h: seq<nat>, w: seq<nat>, t: nat, act: nat)
    requires |w| >= 1 && Bounded(h, w, t) && act >= w[0] + t
    ensures Bounded(InsertSorted(h, act), Added(w, act), t)
  {
    hide Added, Count, InsertSorted;
    var g, v := InsertSorted(h, act), Added(w, act);
    forall x: nat
      ensures Count(g, x, x + t) + Count(v, 0, x) <= |v|
    {
      CountInserted(h, act, x, x + t);
      CountAdded(w, act, 0, x);
      CountOne(act, x, x + t);
      CountOne(act, 0, x);
      CountOne(w[0], 0, x);
    }
  }

  lemma CountInserted(h: seq<nat>, act: nat, lo: nat, hi: nat)
    ensures Count(InsertSorted(h, act), lo, hi) == Count(h, lo, hi) + Count([act], lo, hi)
  {
    hide Insert, Count;
    InsertMultiset(h, act, Earlier);
    CountMultiset(InsertSorted(h, act), h + [act], lo, hi);
    CountConcat(h, [act], lo, hi);
  }

  /** The bound is the spacing. */
  lemma BoundIsSpacing(h: seq<nat>, w: seq<nat>, t: nat)
    requires Sorted(h) && Bounded(h, w, t)
    ensures Spaced(h, |w|, t)
  {
    hide Count;
    var n := |w|;
    forall i | 0 <= i < |h| - n
      ensures h[i + n] >= h[i] + t
    {
      assert Count(h, h[i], h[i] + t) + Count(w, 0, h[i]) <= n;
      if h[i + n] < h[i] + t {
        var m := h[i..i + n + 1];
        CountAll(m, h[i], h[i] + t);
        CountMiddle(h, i, i + n + 1, h[i], h[i] + t);
      }
    }
  }

  lemma CountMiddle(s: seq<nat>, i: nat, j: nat, lo: nat, hi: nat)
    requires i <= j <= |s|
    ensures Count(s, lo, hi) == Count(s[..i], lo, hi) + Count(s[i..j], lo, hi) + Count(s[j..], lo, hi)
  {
    hide Count;
    assert s == s[..i] + s[i..j] + s[j..];
    CountConcat(s[..i] + s[i..j], s[j..], lo, hi);
    CountConcat(s[..i], s[i..j], lo, hi);
  }

  /** A spaced history has at most n entries in any t cycles. */
  lemma SpacedCount(h: seq<nat>, n: nat, t: nat, x: nat, i: nat)
    requires Sorted(h) && Spaced(h, n, t) && i <= |h|
    requires (forall j :: 0 <= j < i ==> h[j] < x) && (i < |h| ==> h[i] >= x)
    ensures Count(h, x, x + t) <= n
  {
    hide Count;
    var j := if i + n <= |h| then i + n else |h|;
    CountMiddle(h, i, j, x, x + t);
    CountNone(h[..i], x, x + t);
    if i + n < |h| {
      assert h[i + n] >= h[i] + t;
    }
    CountNone(h[j..], x, x + t);
  }

  lemma {:induction false} FirstFrom(h: seq<nat>, x: nat) returns (i: nat)
    ensures i <= |h| && (forall j :: 0 <= j < i ==> h[j] < x) && (i < |h| ==> h[i] >= x)
  {
    if h == [] || h[0] >= x {
      i := 0;
    } else {
      i := FirstFrom(h[1..], x);
      i := i + 1;
    }
  }

  /** And the bound holds of a spaced history with its newest entries as the window. */
  lemma SpacingIsBound(h: seq<nat>, n: nat, t: nat)
    requires n <= |h| && Sorted(h) && Spaced(h, n, t)
    ensures Bounded(h, Last(h, n), t)
  {
    hide Count, Spaced;
    var w, m := Last(h, n), |h| - n;
    forall x: nat
      ensures Count(h, x, x + t) + Count(w, 0, x) <= |w|
    {
      if m > 0 && h[m - 1] >= x {
        var i := FirstFrom(h, x);
        SpacedCount(h, n, t, x, i);
        CountNone(w, 0, x);
      } else {
        CountMiddle(h, m, |h|, x, x + t);
        CountNone(h[..m], x, x + t);
        CountNone([], x, x + t);
        assert h[m..|h|] == w && h[|h|..] == [];
        CountDisjoint(w, x, x + t);
      }
    }
  }

  /** If the new activation keeps its distance from the oldest entry of the window, the whole
      history keeps its spacing, wherever in time the activation falls. */
  lemma SpacingKept(h: seq<nat>, n: nat, t: nat, act: nat)
    requires 1 <= n <= |h| && Sorted(h) && Spaced(h, n, t) && act >= Last(h, n)[0] + t
    ensures Spaced(InsertSorted(h, act), n, t)
  {
    hide Spaced, Sorted, Bounded, InsertSorted, Added;
    SpacingIsBound(h, n, t);
    BoundKept(h, Last(h, n), t, act);
    InsertSortedOk(h, act);
    BoundIsSpacing(InsertSorted(h, act), Added(Last(h, n), act), t);
  }

  lemma {:induction false} RunBounded(w: seq<nat>, h: seq<nat>, t: nat, acts: seq<nat>, r: seq<nat>)
    requires |w| >= 1 && WindowRun(w, t, acts, r) && Bounded(h, w, t) && Sorted(h)
    ensures var f := History(h, acts);
            |r| == |w| && Bounded(f, r, t) && Sorted(f) && multiset(f) == multiset(h) + multiset(acts)
    decreases |acts|
  {
    hide Bounded, InsertSorted, Sorted, Added;
    if acts != [] {
      InsertSortedOk(h, acts[0]);
      BoundKept(h, w, t, acts[0]);
      RunBounded(Added(w, acts[0]), InsertSorted(h, acts[0]), t, acts[1..], r);
      assert acts == [acts[0]] + acts[1..];
    }
  }

  lemma {:induction false} RunInTime(w: seq<nat>, h: seq<nat>, t: nat, acts: seq<nat>, r: seq<nat>)
    requires 2 <= |w| <= |h| && w == Last(h, |w|) && Sorted(h) && WindowRun(w, t, acts, r) && InTime(w, acts)
    ensures var f := History(h, acts);
            |w| <= |f| && r == Last(f, |w|) && Sorted(r)
    decreases |acts|
  {
    hide InsertSorted, Sorted, Added;
    if acts == [] {
      TailSorted(h, |h| - |w|);
    } else {
      InsertSortedOk(h, acts[0]);
      WindowFollowsHistory(h, |w|, acts[0]);
      RunInTime(Added(w, acts[0]), InsertSorted(h, acts[0]), t, acts[1..], r);
    }
  }

  /** In every run any n + 1 activations in time order span at least t, although they may be
      recorded out of order and although the window itself may lose its order.  If no
      activation is older than the second-oldest entry, the window is sorted and holds the
      newest activations. */
  lemma FourActivateWindow(w: seq<nat>, h: seq<nat>, t: nat, acts: seq<nat>, r: seq<nat>)
    requires 2 <= |w| <= |h| && w == Last(h, |w|) && Sorted(h) && Spaced(h, |w|, t)
    requires WindowRun(w, t, acts, r)
    ensures var f := History(h, acts);
            && |r| == |w| && Sorted(f) && Spaced(f, |w|, t) && multiset(f) == multiset(h) + multiset(acts)
            && (InTime(w, acts) ==> |w| <= |f| && r == Last(f, |w|) && Sorted(r))
  {
    hide Spaced, Sorted, Bounded, WindowRun, InTime, History;
    SpacingIsBound(h, |w|, t);
    RunBounded(w, h, t, acts, r);
    BoundIsSpacing(History(h, acts), r, t);
    if InTime(w, acts) {
      RunInTime(w, h, t, acts, r);
    }
  }

  // ------------------------------------------------------------ the ring buffer

  class ActivationWindow {
    const buf: array<nat>
    var idx: nat

    ghost predicate Valid()
      reads this
    {
      buf.Length >= 1 && idx < buf.Length
    }

    /** Slot of the entry k places newer than the oldest. */
    ghost function At(k: nat): (p: nat)
      reads this
      requires Valid() && k < buf.Length
      ensures p < buf.Length
    {
      if idx + k < buf.Length then idx + k else idx + k - buf.Length
    }

    /** Oldest to newest. */
    ghost function Window(): (w: seq<nat>)
      reads this, buf
      requires Valid()
      ensures |w| == buf.Length && forall k :: 0 <= k < |w| ==> w[k] == buf[At(k)]
    {
      buf[idx..] + buf[..idx]
    }

    constructor (size: nat)
      requires size >= 1
      ensures Valid() && buf.Length == size && fresh(buf)
      ensures forall k :: 0 <= k < size ==> Window()[k] == 0
    {
      buf := new nat[size](_ => 0);
      idx := 0;
    }

    function Inc(i: nat): nat {
      if i < buf.Length - 1 then i + 1 else 0
    }

    function Dec(i: nat): (r: nat)
      requires buf.Length >= 1
    {
      if i > 0 then i - 1 else buf.Length - 1
    }

    method MinActCycle() returns (c: nat)
      requires Valid()
      ensures c == Window()[0]
    {
      c := buf[idx];
    }

    /** Write the slot j places after the oldest. */
    method Put(slot: nat, ghost j: nat, v: nat)
      requires Valid() && j < buf.Length && slot == At(j)
      modifies buf
      ensures Window() == old(Window())[j := v]
    {
      buf[slot] := v;
    }

    /** The oldest slot becomes the newest. */
    method Advance()
      requires Valid()
      modifies this
      ensures Valid() && Window() == old(Window())[1..] + [old(Window())[0]]
    {
      idx := Inc(idx);
    }

    /** The loop of addActivation: newer entries move up, from the oldest slot on, until act
        fits below the free one. */
    method MakeRoom(act: nat) returns (cur: nat, ghost k: nat)
      requires Valid()
      modifies buf
      ensures Valid() && k == Moves(old(Window()), act, 0) && cur == At(Hole(buf.Length, k))
      ensures Window() == Shifted(old(Window()), k)
    {
      hide Shifted, Hole, Before, At, Taken;
      ghost var w, n := Window(), buf.Length;
      cur, k := idx, 0;
      StartAt();
      DecAt(0, cur);
      ShiftedBefore(w, 0);
      while buf[Dec(cur)] > act
        invariant k < n && cur == At(Hole(n, k)) && Window() == Shifted(w, k)
        invariant buf[Dec(cur)] == Taken(w, k)
        invariant Moves(w, act, 0) == Moves(w, act, k)
        decreases n - k
      {
        DecAt(Hole(n, k), cur);
        HoleMoves(w, k);
        Put(cur, Hole(n, k), buf[Dec(cur)]);
        cur, k := Dec(cur), k + 1;
        if cur == idx {
          return;
        }
        DecAt(Hole(n, k), cur);
        ShiftedBefore(w, k);
      }
    }

    /** ActWindow::addActivation.  The slot of the oldest entry becomes the newest. */
    method AddActivation(act: nat)
      requires Valid() && Window()[0] <= act
      modifies this, buf
      ensures Valid() && Window() == Added(old(Window()), act)
    {
      hide Shifted, Hole, Moves, At;
      var cur, k := MakeRoom(act);
      Put(cur, Hole(buf.Length, k), act);
      Advance();
    }

    lemma StartAt()
      requires Valid()
      ensures Hole(buf.Length, 0) == 0 && At(0) == idx && Shifted(Window(), 0) == Window()
    {
    }

    /** dec walks one slot towards the older entries, from the oldest to the newest. */
    lemma DecAt(j: nat, slot: nat)
      requires Valid() && j < buf.Length && slot == At(j)
      ensures Dec(slot) == At(Before(buf.Length, j))
      ensures Before(buf.Length, j) == 0 <==> Dec(slot) == idx
    {
    }
  }

  lemma ShiftedBefore(w: seq<nat>, k: nat)
    requires 1 <= |w| && k < |w|
    ensures Shifted(w, k)[Before(|w|, Hole(|w|, k))] == Taken(w, k)
  {
  }

  lemma HoleMoves(w: seq<nat>, k: nat)
    requires 1 <= |w| && k < |w|
    ensures Before(|w|, Hole(|w|, k)) == Hole(|w|, k + 1)
    ensures Hole(|w|, k + 1) == 0 <==> k + 1 == |w|
    ensures var h := Hole(|w|, k);
            Shifted(w, k)[h := Shifted(w, k)[Before(|w|, h)]] == Shifted(w, k + 1)
  {
  }
}

/** Insertion into an ordered sequence, from the back and behind equal elements: what the
    activation window, the sorted bus log and the multimap of the event queue have in common. */
module Insertion {

  function Insert<T>(s: seq<T>, x: T, less: (T, T) -> bool): (r: seq<T>)
    ensures |r| == |s| + 1
  {
    if s == [] || !less(x, s[|s| - 1]) then s + [x]
    else Insert(s[..|s| - 1], x, less) + [s[|s| - 1]]
  }

  lemma Unsplit<T>(s: seq<T>, k: nat, x: T)
    requires k < |s|
    ensures var t := s[..|s| - 1];
            t[..k] + [x] + t[k..] + [s[|s| - 1]] == s[..k] + [x] + s[k..]
  {
  }

  /** Where the new element goes. */
  lemma {:induction false} InsertSplit<T>(s: seq<T>, x: T, less: (T, T) -> bool) returns (k: nat)
    ensures k <= |s| && Insert(s, x, less) == s[..k] + [x] + s[k..]
    ensures k > 0 ==> !less(x, s[k - 1])
    ensures forall j :: k <= j < |s| ==> less(x, s[j])
  {
    k := |s|;
    if s != [] && less(x, s[|s| - 1]) {
      k := InsertSplit(s[..|s| - 1], x, less);
      Unsplit(s, k, x);
    } else {
      assert s[..k] + [x] + s[k..] == s + [x];
    }
  }

  lemma SplitAt<T>(s: seq<T>, k: nat, x: T, i: nat)
    requires k <= |s| && i <= |s|
    ensures (s[..k] + [x] + s[k..])[i] == if i < k then s[i] else if i == k then x else s[i - 1]
  {
  }

  lemma InsertMultiset<T>(s: seq<T>, x: T, less: (T, T) -> bool)
    ensures multiset(Insert(s, x, less)) == multiset(s) + multiset{x}
  {
    hide Insert;
    var k := InsertSplit(s, x, less);
    assert s == s[..k] + s[k..];
  }

  ghost predicate InOrder<T>(s: seq<T>, less: (T, T) -> bool) {
    forall i, j :: 0 <= i < j < |s| ==> !less(s[j], s[i])
  }

  /** less is a strict weak order, as far as sorting needs it. */
  ghost predicate IsOrder<T(!new)>(less: (T, T) -> bool) {
    && (forall a, b, c :: !less(b, a) && !less(c, b) ==> !less(c, a))
    && (forall a, b :: less(a, b) ==> !less(b, a))
  }

  lemma BeforeAll<T(!new)>(s: seq<T>, x: T, less: (T, T) -> bool, k: nat)
    requires IsOrder(less) && InOrder(s, less) && 0 < k <= |s| && !less(x, s[k - 1])
    ensures forall j :: 0 <= j < k ==> !less(x, s[j])
  {
  }

  lemma SplitInOrder<T>(s: seq<T>, x: T, less: (T, T) -> bool, k: nat)
    requires InOrder(s, less) && k <= |s|
    requires (forall j :: 0 <= j < k ==> !less(x, s[j])) && (forall j :: k <= j < |s| ==> !less(s[j], x))
    ensures InOrder(s[..k] + [x] + s[k..], less)
  {
    var r := s[..k] + [x] + s[k..];
    forall i, j | 0 <= i < j < |r|
      ensures !less(r[j], r[i])
    {
      SplitAt(s, k, x, i);
      SplitAt(s, k, x, j);
    }
  }

  /** Insertion keeps the order: it is what sorting the extended sequence gives. */
  lemma InsertInOrder<T(!new)>(s: seq<T>, x: T, less: (T, T) -> bool) returns (k: nat)
    requires IsOrder(less) && InOrder(s, less)
    ensures InOrder(Insert(s, x, less), less)
    ensures k <= |s| && Insert(s, x, less) == s[..k] + [x] + s[k..]
    ensures forall j :: 0 <= j < k ==> !less(x, s[j])
    ensures forall j :: k <= j < |s| ==> less(x, s[j])
  {
    hide Insert, InOrder;
    k := InsertSplit(s, x, less);
    if k > 0 {
      BeforeAll(s, x, less, k);
    }
    SplitInOrder(s, x, less, k);
  }
}

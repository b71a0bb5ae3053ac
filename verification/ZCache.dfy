/** The zcache array: tags indexed by line id, a lookup table from physical positions to line
    ids, a breadth-first walk for replacement candidates, and relocations along the walk.

    Address 0 marks an invalid line, as in the source. */
module ZCache {

  /** numSets is a power of two in the source, so `hash & setMask` is `hash % numSets`. */
  datatype Config = Config(numSets: nat, ways: nat, cands: nat, hash: (nat, nat) -> nat)

  predicate ValidConfig(c: Config) {
    c.numSets >= 1 && c.ways >= 2 && c.cands >= c.ways
  }

  /** The first position of way w. */
  function Base(c: Config, w: nat): nat {
    w * c.numSets
  }

  function NumLines(c: Config): nat {
    Base(c, c.ways)
  }

  lemma {:induction false} BaseBelow(c: Config, w: nat, v: nat)
    requires w < v
    ensures Base(c, w) + c.numSets <= Base(c, v)
  {
    assert Base(c, v) == Base(c, v - 1) + c.numSets;
    if w < v - 1 {
      BaseBelow(c, w, v - 1);
    }
  }

  function SetOf(c: Config, w: nat, a: nat): (r: nat)
    requires c.numSets >= 1
    ensures r < c.numSets
  {
    c.hash(w, a) % c.numSets
  }

  /** Position of address a in way w. */
  function Pos(c: Config, w: nat, a: nat): (p: nat)
    requires ValidConfig(c) && w < c.ways
    ensures p < NumLines(c)
  {
    BaseBelow(c, w, c.ways);
    Base(c, w) + SetOf(c, w, a)
  }

  lemma PosDistinct(c: Config, w: nat, v: nat, a: nat, b: nat)
    requires ValidConfig(c) && w < v < c.ways
    ensures Pos(c, w, a) < Pos(c, v, b)
  {
    hide Base, SetOf;
    BaseBelow(c, w, v);
  }

  datatype ZState = ZState(tags: seq<nat>, lookup: seq<nat>)

  predicate IsPerm(s: seq<nat>) {
    && (forall i :: 0 <= i < |s| ==> s[i] < |s|)
    && (forall i, j :: 0 <= i < j < |s| ==> s[i] != s[j])
    && (forall v :: 0 <= v < |s| ==> v in s)
  }

  /** The line sits at one of the positions its address hashes to. */
  ghost predicate Placed(c: Config, a: nat, p: nat)
    requires ValidConfig(c)
  {
    exists w: nat :: w < c.ways && p == Pos(c, w, a)
  }

  predicate UniqueTags(tags: seq<nat>) {
    forall i, j :: 0 <= i < j < |tags| && tags[i] != 0 ==> tags[i] != tags[j]
  }

  /** The invariant of the array. */
  ghost predicate ZInv(c: Config, z: ZState) {
    && ValidConfig(c) && |z.tags| == NumLines(c) && |z.lookup| == NumLines(c)
    && IsPerm(z.lookup) && UniqueTags(z.tags)
    && (forall p :: 0 <= p < |z.lookup| && z.tags[z.lookup[p]] != 0 ==> Placed(c, z.tags[z.lookup[p]], p))
  }

  /** What the array represents: a map from the valid addresses to their line ids. */
  function Contents(tags: seq<nat>): map<nat, nat>
    requires UniqueTags(tags)
  {
    map i | 0 <= i < |tags| && tags[i] != 0 :: tags[i] := i
  }

  // ------------------------------------------------------------------- lookup

  /** ZArray::lookup from way w on; -1 when the address is not found. */
  function LookupFrom(c: Config, z: ZState, a: nat, w: nat): (id: int)
    requires ValidConfig(c) && |z.tags| == |z.lookup| == NumLines(c) && IsPerm(z.lookup) && w <= c.ways
    decreases c.ways - w
  {
    if w == c.ways then -1
    else
      var id := z.lookup[Pos(c, w, a)];
      if z.tags[id] == a then id else LookupFrom(c, z, a, w + 1)
  }

  /** Lookup agrees with the map: it finds an address iff the map holds it, at the same line. */
  lemma LookupIsMap(c: Config, z: ZState, a: nat)
    requires ZInv(c, z) && a != 0
    ensures var id := LookupFrom(c, z, a, 0);
            if a in Contents(z.tags) then id == Contents(z.tags)[a] else id == -1
  {
    if i :| 0 <= i < |z.tags| && z.tags[i] == a {
      assert i in z.lookup;
      var p :| 0 <= p < |z.lookup| && z.lookup[p] == i;
      assert Placed(c, a, p);
      var w: nat :| w < c.ways && p == Pos(c, w, a);
      LookupFinds(c, z, a, i, w, 0);
    } else {
      LookupMisses(c, z, a, 0);
    }
  }

  lemma {:induction false} LookupFinds(c: Config, z: ZState, a: nat, i: nat, w: nat, v: nat)
    requires ZInv(c, z) && a != 0 && i < |z.tags| && z.tags[i] == a
    requires v <= w < c.ways && z.lookup[Pos(c, w, a)] == i
    ensures LookupFrom(c, z, a, v) == i
    decreases w - v
  {
    if v < w && z.tags[z.lookup[Pos(c, v, a)]] != a {
      LookupFinds(c, z, a, i, w, v + 1);
    }
  }

  lemma {:induction false} LookupMisses(c: Config, z: ZState, a: nat, v: nat)
    requires ZInv(c, z) && v <= c.ways && a !in z.tags
    ensures LookupFrom(c, z, a, v) == -1
    decreases c.ways - v
  {
    if v < c.ways {
      LookupMisses(c, z, a, v + 1);
    }
  }

  // ----------------------------------------------------------------- the walk

  /** One entry of the candidate buffer; parent -1 marks a seed. */
  datatype Cand = Cand(pos: nat, id: nat, parent: int)

  /** cs is a candidate buffer of the walk for address a after the candidates before `fringe`
      have been expanded and, of candidate `fringe`, the ways before `w`. */
  ghost predicate Walk(c: Config, z: ZState, a: nat, cs: seq<Cand>, fringe: nat, w: nat)
    requires ValidConfig(c) && |z.tags| == |z.lookup| == NumLines(c) && IsPerm(z.lookup)
  {
    && |cs| >= c.ways && fringe < |cs| && w <= c.ways
    && (forall i :: 0 <= i < |cs| ==> cs[i].pos < NumLines(c) && cs[i].id == z.lookup[cs[i].pos])
    && (forall i :: 0 <= i < c.ways ==> cs[i].parent == -1 && cs[i].pos == Pos(c, i, a))
    && (forall i :: c.ways <= i < |cs| ==> ChildOk(c, z, cs, i))
    && (forall i :: c.ways <= i < |cs| ==> cs[i].parent <= fringe)
    && (forall i, j :: 0 <= i < j < |cs| ==> cs[i].parent <= cs[j].parent)
    && (forall f: nat, v: nat :: f < fringe && v < c.ways ==> Expanded(c, z, cs, f, v))
    && (forall v: nat :: v < w ==> Expanded(c, z, cs, fringe, v))
  }

  /** Candidate i is another line at a position that its parent's address also hashes to. */
  ghost predicate ChildOk(c: Config, z: ZState, cs: seq<Cand>, i: int)
    requires ValidConfig(c) && |z.tags| == NumLines(c)
    requires 0 <= i < |cs|
  {
    var f := cs[i].parent;
    && 0 <= f && f + c.ways <= i
    && cs[f].id < |z.tags| && z.tags[cs[f].id] != 0
    && cs[i].id != cs[f].id
    && Placed(c, z.tags[cs[f].id], cs[i].pos)
  }

  /** Way v of candidate f's address is covered: it is f's own line or a child of f. */
  ghost predicate Expanded(c: Config, z: ZState, cs: seq<Cand>, f: nat, v: nat)
    requires ValidConfig(c) && |z.tags| == |z.lookup| == NumLines(c) && f < |cs| && v < c.ways
  {
    && cs[f].id < |z.tags|
    && var q := Pos(c, v, z.tags[cs[f].id]);
       z.lookup[q] == cs[f].id || exists i :: 0 <= i < |cs| && cs[i].pos == q && cs[i].parent == f
  }

  /** No earlier candidate names the same line. */
  predicate First(cs: seq<Cand>, i: nat)
    requires i < |cs|
  {
    forall j :: 0 <= j < i ==> cs[j].id != cs[i].id
  }

  /** If a candidate is the first to name its line, so is its parent: an earlier duplicate of
      the parent would already have produced the same child. */
  lemma ParentFirst(c: Config, z: ZState, a: nat, cs: seq<Cand>, fringe: nat, w: nat, x: nat)
    requires ValidConfig(c) && |z.tags| == |z.lookup| == NumLines(c) && IsPerm(z.lookup)
    requires Walk(c, z, a, cs, fringe, w) && c.ways <= x < |cs| && First(cs, x)
    ensures 0 <= cs[x].parent && First(cs, cs[x].parent)
  {
    assert ChildOk(c, z, cs, x);
    var f := cs[x].parent;
    var addr := z.tags[cs[f].id];
    var v: nat :| v < c.ways && cs[x].pos == Pos(c, v, addr);
    forall b: nat | b < f
      ensures cs[b].id != cs[f].id
    {
      assert Expanded(c, z, cs, b, v);
    }
  }

  /** The candidates from i up to its root. */
  function Chain(cs: seq<Cand>, i: int): (r: seq<int>)
    requires forall k :: 0 <= k < |cs| ==> cs[k].parent < k
    requires i < |cs|
    ensures forall k :: 0 <= k < |r| ==> 0 <= r[k] <= i
    decreases i
  {
    if i < 0 then [] else [i] + Chain(cs, cs[i].parent)
  }

  ghost predicate ParentsBelow(cs: seq<Cand>) {
    forall k :: 0 <= k < |cs| ==> -1 <= cs[k].parent < k
  }

  lemma WalkParents(c: Config, z: ZState, a: nat, cs: seq<Cand>, fringe: nat, w: nat)
    requires ValidConfig(c) && |z.tags| == |z.lookup| == NumLines(c) && IsPerm(z.lookup)
    requires Walk(c, z, a, cs, fringe, w)
    ensures ParentsBelow(cs)
  {
    forall k | 0 <= k < |cs|
      ensures -1 <= cs[k].parent < k
    {
      if k >= c.ways {
        assert ChildOk(c, z, cs, k);
      }
    }
  }

  /** The chain of a first occurrence consists of first occurrences of ever smaller index, each
      the parent of the one before, and ends in a seed. */
  lemma {:induction false} ChainFirst(c: Config, z: ZState, a: nat, cs: seq<Cand>, fringe: nat, w: nat, x: nat)
    requires ValidConfig(c) && |z.tags| == |z.lookup| == NumLines(c) && IsPerm(z.lookup)
    requires Walk(c, z, a, cs, fringe, w) && ParentsBelow(cs) && x < |cs| && First(cs, x)
    ensures var r := Chain(cs, x);
            && |r| >= 1 && r[0] == x && 0 <= r[|r| - 1] < c.ways
            && (forall k :: 0 <= k < |r| ==> First(cs, r[k]))
            && (forall k :: 0 <= k < |r| - 1 ==> r[k] >= c.ways && r[k + 1] == cs[r[k]].parent)
            && (forall j, k :: 0 <= j < k < |r| ==> r[k] < r[j])
  {
    hide Walk, IsPerm, First;
    if x < c.ways {
      SeedParent(c, z, a, cs, fringe, w, x);
      assert Chain(cs, x) == [x] + Chain(cs, -1);
    } else {
      ParentFirst(c, z, a, cs, fringe, w, x);
      ChainFirst(c, z, a, cs, fringe, w, cs[x].parent);
    }
  }

  lemma SeedParent(c: Config, z: ZState, a: nat, cs: seq<Cand>, fringe: nat, w: nat, x: nat)
    requires ValidConfig(c) && |z.tags| == |z.lookup| == NumLines(c) && IsPerm(z.lookup)
    requires Walk(c, z, a, cs, fringe, w) && x < c.ways
    ensures cs[x].parent == -1
  {
  }

  lemma ParentFarBelow(c: Config, z: ZState, a: nat, cs: seq<Cand>, fringe: nat, w: nat, x: nat)
    requires ValidConfig(c) && |z.tags| == |z.lookup| == NumLines(c) && IsPerm(z.lookup)
    requires Walk(c, z, a, cs, fringe, w) && c.ways <= x < |cs|
    ensures 0 <= cs[x].parent <= x - c.ways
  {
    hide IsPerm, Base, Expanded, Placed;
    assert ChildOk(c, z, cs, x);
  }

  /** A chain fits in the swap array: every step up skips at least `ways` candidates. */
  lemma {:induction false} ChainLength(c: Config, z: ZState, a: nat, cs: seq<Cand>, fringe: nat, w: nat, x: nat)
    requires ValidConfig(c) && |z.tags| == |z.lookup| == NumLines(c) && IsPerm(z.lookup)
    requires Walk(c, z, a, cs, fringe, w) && ParentsBelow(cs) && x < |cs|
    ensures c.ways * |Chain(cs, x)| <= x + c.ways
  {
    hide Walk, IsPerm, Base;
    if x < c.ways {
      SeedParent(c, z, a, cs, fringe, w, x);
      assert Chain(cs, x) == [x] + Chain(cs, -1);
    } else {
      ParentFarBelow(c, z, a, cs, fringe, w, x);
      var f := cs[x].parent;
      ChainLength(c, z, a, cs, fringe, w, f);
      var n := |Chain(cs, f)|;
      assert c.ways * (n + 1) == c.ways * n + c.ways;
    }
  }

  lemma SwapArrayFits(ways: nat, cands: nat, x: nat, n: nat)
    requires ways >= 1 && x < cands && ways * n <= x + ways
    ensures n <= cands / ways + 1
  {
    var q := cands / ways;
    BelowNext(cands, ways);
    if n > q + 1 {
      MultipleGrows(ways, q + 2, n);
      NextMultiple(ways, q + 1);
      assert false;
    }
  }

  lemma BelowNext(y: nat, d: nat)
    requires d >= 1
    ensures y < d * (y / d + 1)
  {
    NextMultiple(d, y / d);
  }

  lemma NextMultiple(d: nat, q: nat)
    ensures d * (q + 1) == d * q + d
  {
  }

  lemma {:induction false} MultipleGrows(d: nat, a: nat, b: nat)
    requires a <= b
    ensures d * a <= d * b
  {
    if a < b {
      MultipleGrows(d, a, b - 1);
      NextMultiple(d, b - 1);
    }
  }

  // ------------------------------------------------------------ the relocation

  function SwapOf(cs: seq<Cand>, chain: seq<int>): (s: seq<nat>)
    requires forall k :: 0 <= k < |chain| ==> 0 <= chain[k] < |cs|
    ensures |s| == |chain|
  {
    seq(|chain|, k requires 0 <= k < |chain| => cs[chain[k]].pos)
  }

  /** What postinsert relies on: distinct positions, each of which may hold the line now at the
      next one, and the last of which may hold the new address. */
  ghost predicate GoodSwap(c: Config, z: ZState, a: nat, swap: seq<nat>)
    requires ValidConfig(c) && |z.tags| == |z.lookup| == NumLines(c) && IsPerm(z.lookup)
  {
    && |swap| >= 1
    && (forall k :: 0 <= k < |swap| ==> swap[k] < NumLines(c))
    && (forall j, k :: 0 <= j < k < |swap| ==> swap[j] != swap[k])
    && (forall k :: 0 <= k < |swap| - 1 ==> Placed(c, z.tags[z.lookup[swap[k + 1]]], swap[k]))
    && Placed(c, a, swap[|swap| - 1])
  }

  /** The chain from the minimum-index candidate never repeats a position, even when the walk
      revisited lines. */
  lemma ChainIsGoodSwap(c: Config, z: ZState, a: nat, cs: seq<Cand>, fringe: nat, w: nat, x: nat)
    requires ZInv(c, z) && Walk(c, z, a, cs, fringe, w) && ParentsBelow(cs) && x < |cs| && First(cs, x)
    ensures var swap := SwapOf(cs, Chain(cs, x));
            GoodSwap(c, z, a, swap) && z.lookup[swap[0]] == cs[x].id
  {
    var r := Chain(cs, x);
    var swap := SwapOf(cs, r);
    ChainFirst(c, z, a, cs, fringe, w, x);
    forall j, k | 0 <= j < k < |swap|
      ensures swap[j] != swap[k]
    {
      assert First(cs, r[j]) && r[k] < r[j];
    }
    forall k | 0 <= k < |swap| - 1
      ensures Placed(c, z.tags[z.lookup[swap[k + 1]]], swap[k])
    {
      assert ChildOk(c, z, cs, r[k]);
    }
    assert swap[|swap| - 1] == Pos(c, r[|r| - 1], a);
  }

  /** The copy loop of postinsert from entry i on. */
  function ShiftFrom(lookup: seq<nat>, swap: seq<nat>, i: nat): (r: seq<nat>)
    requires forall k :: 0 <= k < |swap| ==> swap[k] < |lookup|
    ensures |r| == |lookup|
    decreases |swap| - i
  {
    if i + 1 < |swap| then ShiftFrom(lookup[swap[i] := lookup[swap[i + 1]]], swap, i + 1) else lookup
  }

  function Rotate(lookup: seq<nat>, swap: seq<nat>, cand: nat): (r: seq<nat>)
    requires |swap| >= 1 && forall k :: 0 <= k < |swap| ==> swap[k] < |lookup|
    ensures |r| == |lookup|
  {
    ShiftFrom(lookup, swap, 0)[swap[|swap| - 1] := cand]
  }

  lemma {:induction false} ShiftAt(lookup: seq<nat>, swap: seq<nat>, i: nat)
    requires forall k :: 0 <= k < |swap| ==> swap[k] < |lookup|
    requires forall j, k :: 0 <= j < k < |swap| ==> swap[j] != swap[k]
    ensures var r := ShiftFrom(lookup, swap, i);
            && (forall k :: i <= k < |swap| - 1 ==> r[swap[k]] == lookup[swap[k + 1]])
            && (forall p :: 0 <= p < |lookup| && (forall k :: i <= k < |swap| - 1 ==> swap[k] != p) ==>
                  r[p] == lookup[p])
    decreases |swap| - i
  {
    if i + 1 < |swap| {
      ShiftAt(lookup[swap[i] := lookup[swap[i + 1]]], swap, i + 1);
    }
  }

  /** Where position p's line comes from in a rotation. */
  ghost function Source(swap: seq<nat>, p: nat): (q: nat)
    requires |swap| >= 1
    ensures q == p || q in swap
  {
    if k :| 0 <= k < |swap| && swap[k] == p then
      if k + 1 < |swap| then swap[k + 1] else swap[0]
    else p
  }

  /** postinsert's copy loop is a pure rotation of the lines along the chain. */
  lemma RotateIsSource(lookup: seq<nat>, swap: seq<nat>)
    requires |swap| >= 1 && forall k :: 0 <= k < |swap| ==> swap[k] < |lookup|
    requires forall j, k :: 0 <= j < k < |swap| ==> swap[j] != swap[k]
    ensures var r := Rotate(lookup, swap, lookup[swap[0]]);
            forall p :: 0 <= p < |lookup| ==> r[p] == lookup[Source(swap, p)]
  {
    ShiftAt(lookup, swap, 0);
  }

  /** Where the line at position q goes in a rotation. */
  ghost function Dest(swap: seq<nat>, q: nat): (p: nat)
    requires |swap| >= 1
    ensures p == q || p in swap
  {
    if k :| 0 <= k < |swap| && swap[k] == q then
      if k == 0 then swap[|swap| - 1] else swap[k - 1]
    else q
  }

  lemma SourceDest(swap: seq<nat>, q: nat)
    requires |swap| >= 1 && forall j, k :: 0 <= j < k < |swap| ==> swap[j] != swap[k]
    ensures Source(swap, Dest(swap, q)) == q && Dest(swap, Source(swap, q)) == q
  {
  }

  /** A rotation of a permutation is a permutation. */
  lemma RotatePerm(lookup: seq<nat>, swap: seq<nat>)
    requires IsPerm(lookup)
    requires |swap| >= 1 && forall k :: 0 <= k < |swap| ==> swap[k] < |lookup|
    requires forall j, k :: 0 <= j < k < |swap| ==> swap[j] != swap[k]
    ensures IsPerm(Rotate(lookup, swap, lookup[swap[0]]))
  {
    var r := Rotate(lookup, swap, lookup[swap[0]]);
    RotateIsSource(lookup, swap);
    forall i, j | 0 <= i < j < |r|
      ensures r[i] != r[j]
    {
      SourceDest(swap, i);
      SourceDest(swap, j);
      assert Source(swap, i) != Source(swap, j);
    }
    forall v | 0 <= v < |r|
      ensures v in r
    {
      assert v in lookup;
      var q :| 0 <= q < |lookup| && lookup[q] == v;
      SourceDest(swap, q);
      assert r[Dest(swap, q)] == v;
    }
  }

  /** postinsert: relocate along the chain and write the new tag. */
  function Insert(z: ZState, a: nat, swap: seq<nat>): (r: ZState)
    requires |swap| >= 1 && |z.tags| == |z.lookup| && IsPerm(z.lookup)
    requires forall k :: 0 <= k < |swap| ==> swap[k] < |z.lookup|
  {
    var cand := z.lookup[swap[0]];
    ZState(z.tags[cand := a], Rotate(z.lookup, swap, cand))
  }

  /** Inserting keeps the array's invariant. */
  lemma InsertKeepsInv(c: Config, z: ZState, a: nat, swap: seq<nat>)
    requires ZInv(c, z) && a != 0 && a !in z.tags && GoodSwap(c, z, a, swap)
    ensures ZInv(c, Insert(z, a, swap))
  {
    var r := Insert(z, a, swap);
    var cand := z.lookup[swap[0]];
    RotatePerm(z.lookup, swap);
    RotateIsSource(z.lookup, swap);
    forall p | 0 <= p < |r.lookup| && r.tags[r.lookup[p]] != 0
      ensures Placed(c, r.tags[r.lookup[p]], p)
    {
      InsertPlaced(c, z, a, swap, p);
    }
  }

  lemma InsertPlaced(c: Config, z: ZState, a: nat, swap: seq<nat>, p: nat)
    requires ZInv(c, z) && GoodSwap(c, z, a, swap)
    requires p < |z.lookup|
    requires var r := Insert(z, a, swap); r.lookup[p] == z.lookup[Source(swap, p)] && r.tags[r.lookup[p]] != 0
    ensures var r := Insert(z, a, swap); Placed(c, r.tags[r.lookup[p]], p)
  {
    var r := Insert(z, a, swap);
    if k :| 0 <= k < |swap| && swap[k] == p {
      if k + 1 < |swap| {
        assert Source(swap, p) == swap[k + 1];
        assert r.tags[r.lookup[p]] == z.tags[z.lookup[swap[k + 1]]];
      } else {
        assert Source(swap, p) == swap[0];
      }
    } else {
      assert Source(swap, p) == p;
      assert r.tags[r.lookup[p]] == z.tags[z.lookup[p]];
    }
  }

  /** The insertion is a plain map update: only the reported victim goes, only the new address
      comes, and every other line keeps its id although it may have been relocated. */
  lemma InsertIsMapUpdate(c: Config, z: ZState, a: nat, swap: seq<nat>)
    requires ZInv(c, z) && a != 0 && a !in z.tags && GoodSwap(c, z, a, swap)
    ensures ZInv(c, Insert(z, a, swap))
    ensures var cand := z.lookup[swap[0]];
            Contents(Insert(z, a, swap).tags) == (Contents(z.tags) - {z.tags[cand]})[a := cand]
  {
    InsertKeepsInv(c, z, a, swap);
    var cand := z.lookup[swap[0]];
    var m, m' := Contents(z.tags), Contents(Insert(z, a, swap).tags);
    forall b | b in m' || b in (m - {z.tags[cand]})[a := cand]
      ensures b in m' && b in (m - {z.tags[cand]})[a := cand]
      ensures m'[b] == (m - {z.tags[cand]})[a := cand][b]
    {
      if b == a {
        assert Insert(z, a, swap).tags[cand] == a;
      } else if b in m {
        assert Insert(z, a, swap).tags[m[b]] == if m[b] == cand then a else b;
      }
    }
  }

  // ----------------------------------------------------------------- all runs

  /** One miss: the address, the walk's buffer, how far it was expanded, and the index of the
      victim the replacement policy chose, the first that names its line. */
  datatype Miss = Miss(addr: nat, cs: seq<Cand>, fringe: nat, w: nat, best: nat)

  /** What preinsert has found. */
  ghost predicate WalkedMiss(c: Config, z: ZState, m: Miss) {
    && ZInv(c, z) && Walk(c, z, m.addr, m.cs, m.fringe, m.w) && ParentsBelow(m.cs)
    && m.best < |m.cs| && First(m.cs, m.best)
  }

  ghost predicate LegalMiss(c: Config, z: ZState, m: Miss) {
    WalkedMiss(c, z, m) && m.addr != 0 && LookupFrom(c, z, m.addr, 0) == -1
  }

  /** How many candidates the replacement policy is shown. */
  function Ranked(c: Config, cs: seq<Cand>): (n: nat) {
    if |cs| > c.cands then c.cands else |cs|
  }

  ghost function AfterMiss(c: Config, z: ZState, m: Miss): (r: ZState)
    requires LegalMiss(c, z, m)
  {
    ChainIsGoodSwap(c, z, m.addr, m.cs, m.fringe, m.w, m.best);
    Insert(z, m.addr, SwapOf(m.cs, Chain(m.cs, m.best)))
  }

  ghost predicate ZRun(c: Config, z: ZState, ms: seq<Miss>, r: ZState)
    decreases |ms|
  {
    if ms == [] then r == z
    else LegalMiss(c, z, ms[0]) && ZRun(c, AfterMiss(c, z, ms[0]), ms[1..], r)
  }

  /** The same run on a plain map. */
  ghost function PlainRun(c: Config, z: ZState, ms: seq<Miss>, r: ZState, m: map<nat, nat>): map<nat, nat>
    requires ZRun(c, z, ms, r)
    decreases |ms|
  {
    if ms == [] then m
    else
      var x := ms[0];
      var id := x.cs[x.best].id;
      PlainRun(c, AfterMiss(c, z, x), ms[1..], r, (m - {z.tags[id]})[x.addr := id])
  }

  lemma InContents(tags: seq<nat>, a: nat)
    requires UniqueTags(tags) && a != 0
    ensures a in tags <==> a in Contents(tags)
  {
  }

  lemma MissIsMapUpdate(c: Config, z: ZState, m: Miss)
    requires LegalMiss(c, z, m)
    ensures ZInv(c, AfterMiss(c, z, m))
    ensures var id := m.cs[m.best].id;
            && id < |z.tags|
            && Contents(AfterMiss(c, z, m).tags) == (Contents(z.tags) - {z.tags[id]})[m.addr := id]
  {
    ChainIsGoodSwap(c, z, m.addr, m.cs, m.fringe, m.w, m.best);
    LookupIsMap(c, z, m.addr);
    InContents(z.tags, m.addr);
    InsertIsMapUpdate(c, z, m.addr, SwapOf(m.cs, Chain(m.cs, m.best)));
  }

  /** After any sequence of misses, whatever walks and victims, the lookup table is a
      permutation, every line sits at one of its own positions, and lookup answers like a
      plain map from which only the reported victims were removed. */
  lemma {:induction false} ZArrayRefinesMap(c: Config, z: ZState, ms: seq<Miss>, r: ZState)
    requires ZInv(c, z) && ZRun(c, z, ms, r)
    ensures ZInv(c, r) && Contents(r.tags) == PlainRun(c, z, ms, r, Contents(z.tags))
    ensures forall a :: a != 0 ==>
              LookupFrom(c, r, a, 0) == if a in Contents(r.tags) then Contents(r.tags)[a] else -1
    decreases |ms|
  {
    if ms == [] {
      forall a | a != 0
        ensures LookupFrom(c, r, a, 0) == if a in Contents(r.tags) then Contents(r.tags)[a] else -1
      {
        LookupIsMap(c, r, a);
      }
    } else {
      MissIsMapUpdate(c, z, ms[0]);
      ZArrayRefinesMap(c, AfterMiss(c, z, ms[0]), ms[1..], r);
    }
  }
}

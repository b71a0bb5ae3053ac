/** The zcache array as an object with its tables updated in place. */
module ZArrayObject {
  import opened ZCache

  // ------------------------------------------------------ steps of the walk

  /** Handling way w of the candidate at the fringe: its own line is skipped, any other line
      becomes a candidate. */
  function Visit(c: Config, z: ZState, cs: seq<Cand>, fringe: nat, w: nat): (r: seq<Cand>)
    requires ValidConfig(c) && |z.tags| == |z.lookup| == NumLines(c)
    requires fringe < |cs| && cs[fringe].id < |z.tags| && w < c.ways
  {
    var q := Pos(c, w, z.tags[cs[fringe].id]);
    if z.lookup[q] != cs[fringe].id then cs + [Cand(q, z.lookup[q], fringe)] else cs
  }

  lemma VisitKeepsWalk(c: Config, z: ZState, a: nat, cs: seq<Cand>, fringe: nat, w: nat)
    requires ZInv(c, z) && Walk(c, z, a, cs, fringe, w) && w < c.ways
    requires |cs| >= fringe + c.ways && z.tags[cs[fringe].id] != 0
    ensures Walk(c, z, a, Visit(c, z, cs, fringe, w), fringe, w + 1)
  {
    hide ZInv;
    ZFacts(c, z);
    VisitChildren(c, z, a, cs, fringe, w);
    VisitExpanded(c, z, a, cs, fringe, w);
  }

  lemma WalkIds(c: Config, z: ZState, a: nat, cs: seq<Cand>, fringe: nat, w: nat)
    requires ZInv(c, z) && Walk(c, z, a, cs, fringe, w)
    ensures ValidConfig(c) && |z.tags| == |z.lookup| == NumLines(c) && IsPerm(z.lookup)
    ensures forall q :: 0 <= q < |z.lookup| ==> z.lookup[q] < |z.tags|
    ensures forall i :: 0 <= i < |cs| ==> cs[i].id < |z.tags|
  {
  }

  lemma ZFacts(c: Config, z: ZState)
    requires ZInv(c, z)
    ensures ValidConfig(c) && |z.tags| == |z.lookup| == NumLines(c) && IsPerm(z.lookup)
  {
  }

  lemma VisitChildren(c: Config, z: ZState, a: nat, cs: seq<Cand>, fringe: nat, w: nat)
    requires ZInv(c, z) && Walk(c, z, a, cs, fringe, w) && w < c.ways
    requires |cs| >= fringe + c.ways && z.tags[cs[fringe].id] != 0
    ensures var cs' := Visit(c, z, cs, fringe, w);
            forall i :: c.ways <= i < |cs'| ==> ChildOk(c, z, cs', i)
  {
    var cs' := Visit(c, z, cs, fringe, w);
    forall i | c.ways <= i < |cs'|
      ensures ChildOk(c, z, cs', i)
    {
      if i < |cs| {
        assert ChildOk(c, z, cs, i);
      }
    }
  }

  lemma VisitExpanded(c: Config, z: ZState, a: nat, cs: seq<Cand>, fringe: nat, w: nat)
    requires ZInv(c, z) && Walk(c, z, a, cs, fringe, w) && w < c.ways
    ensures var cs' := Visit(c, z, cs, fringe, w);
            && (forall f: nat, v: nat :: f < fringe && v < c.ways ==> Expanded(c, z, cs', f, v))
            && (forall v: nat :: v < w + 1 ==> Expanded(c, z, cs', fringe, v))
  {
    var cs' := Visit(c, z, cs, fringe, w);
    forall f: nat, v: nat | v < c.ways && (f < fringe || (f == fringe && v < w + 1))
      ensures Expanded(c, z, cs', f, v)
    {
      if f < fringe || v < w {
        assert Expanded(c, z, cs, f, v);
        ExpandedMonotone(c, z, cs, cs', f, v);
      } else {
        var q := Pos(c, w, z.tags[cs[fringe].id]);
        assert z.lookup[q] != cs[fringe].id ==> cs'[|cs|].pos == q && cs'[|cs|].parent == fringe;
      }
    }
  }

  lemma ExpandedMonotone(c: Config, z: ZState, cs: seq<Cand>, cs': seq<Cand>, f: nat, v: nat)
    requires ValidConfig(c) && |z.tags| == |z.lookup| == NumLines(c) && f < |cs| && v < c.ways
    requires |cs| <= |cs'| && cs'[..|cs|] == cs && Expanded(c, z, cs, f, v)
    ensures Expanded(c, z, cs', f, v)
  {
    assert cs'[f] == cs[f];
    var q := Pos(c, v, z.tags[cs[f].id]);
    if z.lookup[q] != cs[f].id {
      var i :| 0 <= i < |cs| && cs[i].pos == q && cs[i].parent == f;
      assert cs'[i] == cs[i];
    }
  }

  lemma NextFringe(c: Config, z: ZState, a: nat, cs: seq<Cand>, fringe: nat)
    requires ZInv(c, z) && Walk(c, z, a, cs, fringe, c.ways) && fringe + 1 < |cs|
    ensures Walk(c, z, a, cs, fringe + 1, 0)
  {
    forall f: nat, v: nat | f < fringe + 1 && v < c.ways
      ensures Expanded(c, z, cs, f, v)
    {
    }
  }

  /** A line has one position, so at most one way of its address leads back to it. */
  lemma OwnOnce(c: Config, z: ZState, id: nat, v: nat, w: nat, addr: nat)
    requires ZInv(c, z) && v < w < c.ways
    requires z.lookup[Pos(c, v, addr)] == id
    ensures z.lookup[Pos(c, w, addr)] != id
  {
    PosDistinct(c, v, w, addr, addr);
  }

  /** Some candidate is an invalid line. */
  ghost predicate HasFree(tags: seq<nat>, cs: seq<Cand>) {
    exists i :: 0 <= i < |cs| && cs[i].id < |tags| && tags[cs[i].id] == 0
  }

  /** The last expansion was needed: the candidates before it were fewer than cands and all valid. */
  ghost predicate NoneTooMany(c: Config, tags: seq<nat>, cs: seq<Cand>, fringe: nat) {
    forall i :: 0 <= i < |cs| && cs[i].parent < fringe - 1 ==>
      i + 1 < c.cands && cs[i].id < |tags| && tags[cs[i].id] != 0
  }

  lemma StillNeeded(c: Config, tags: seq<nat>, cs: seq<Cand>, cs': seq<Cand>, fringe: nat)
    requires |cs| < c.cands && |cs| <= |cs'| && cs'[..|cs|] == cs && !HasFree(tags, cs)
    requires forall i :: 0 <= i < |cs| ==> cs[i].id < |tags|
    requires forall i :: |cs| <= i < |cs'| ==> cs'[i].parent == fringe
    ensures NoneTooMany(c, tags, cs', fringe + 1)
  {
    forall i | 0 <= i < |cs'| && cs'[i].parent < fringe
      ensures i + 1 < c.cands && cs'[i].id < |tags| && tags[cs'[i].id] != 0
    {
      assert cs'[..|cs|][i] == cs[i];
      NoneFree(tags, cs, i);
    }
  }

  lemma NothingFree(tags: seq<nat>)
    ensures !HasFree(tags, [])
  {
  }

  lemma NoneFree(tags: seq<nat>, cs: seq<Cand>, i: nat)
    requires !HasFree(tags, cs) && i < |cs| && cs[i].id < |tags|
    ensures tags[cs[i].id] != 0
  {
  }

  lemma HasFreeExtend(tags: seq<nat>, cs: seq<Cand>, x: Cand)
    requires x.id < |tags|
    ensures HasFree(tags, cs + [x]) <==> HasFree(tags, cs) || tags[x.id] == 0
  {
    var r := cs + [x];
    assert r[|cs|] == x;
    if HasFree(tags, cs) {
      var i :| 0 <= i < |cs| && cs[i].id < |tags| && tags[cs[i].id] == 0;
      assert r[i] == cs[i];
    }
  }

  class ZArray {
    const cfg: Config
    const tagArray: array<nat>      // line id to address
    const lookupArray: array<nat>   // physical position to line id
    const swapArray: array<nat>     // positions that postinsert rotates
    var swapArrayLen: nat

    ghost predicate Shape()
      reads this
    {
      && ValidConfig(cfg)
      && tagArray.Length == lookupArray.Length == NumLines(cfg)
      && swapArray.Length == cfg.cands / cfg.ways + 2
      && tagArray != lookupArray && tagArray != swapArray && lookupArray != swapArray
      && swapArrayLen <= swapArray.Length
    }

    ghost function Abs(): (z: ZState)
      reads this, tagArray, lookupArray
    {
      ZState(tagArray[..], lookupArray[..])
    }

    ghost predicate Valid()
      reads this, tagArray, lookupArray
    {
      Shape() && ZInv(cfg, Abs())
    }

    constructor (c: Config)
      requires ValidConfig(c)
      ensures Valid() && cfg == c && Contents(tagArray[..]) == map[]
      ensures fresh(tagArray) && fresh(lookupArray) && fresh(swapArray)
    {
      cfg := c;
      tagArray := new nat[NumLines(c)](_ => 0);
      lookupArray := new nat[NumLines(c)](i => i);
      swapArray := new nat[c.cands / c.ways + 2](_ => 0);
      swapArrayLen := 0;
      new;
      forall v | 0 <= v < |lookupArray[..]|
        ensures v in lookupArray[..]
      {
        assert lookupArray[..][v] == v;
      }
    }

    method Lookup(lineAddr: nat) returns (id: int)
      requires Valid() && lineAddr != 0
      ensures id == if lineAddr in Contents(tagArray[..]) then Contents(tagArray[..])[lineAddr] else -1
    {
      ghost var z := Abs();
      LookupIsMap(cfg, z, lineAddr);
      var w := 0;
      while w < cfg.ways
        invariant w <= cfg.ways
        invariant LookupFrom(cfg, z, lineAddr, w) == LookupFrom(cfg, z, lineAddr, 0)
      {
        id := lookupArray[Pos(cfg, w, lineAddr)];
        if tagArray[id] == lineAddr {
          return;
        }
        w := w + 1;
      }
      id := -1;
    }

    /** One way of the candidate at the fringe: its own line is skipped. */
    method VisitWay(buf: array<Cand>, ghost lineAddr: nat, m: nat, fringe: nat, w: nat, valid: bool)
        returns (n: nat, allValid: bool)
      requires Valid() && w < cfg.ways && fringe + cfg.ways <= m < buf.Length
      requires Walk(cfg, Abs(), lineAddr, buf[..m], fringe, w) && tagArray[buf[fringe].id] != 0
      requires valid == !HasFree(tagArray[..], buf[..m])
      modifies buf
      ensures n == if lookupArray[Pos(cfg, w, tagArray[old(buf[fringe].id)])] != old(buf[fringe].id) then m + 1 else m
      ensures buf[..m] == old(buf[..m]) && buf[m].parent == fringe
      ensures Walk(cfg, Abs(), lineAddr, buf[..n], fringe, w + 1)
      ensures allValid == !HasFree(tagArray[..], buf[..n])
    {
      hide ZInv, Walk, IsPerm, HasFree;
      ghost var z, cs := Abs(), buf[..m];
      WalkIds(cfg, z, lineAddr, cs, fringe, w);
      assert cs[fringe] == buf[fringe];
      VisitKeepsWalk(cfg, z, lineAddr, cs, fringe, w);
      var fringeId := buf[fringe].id;
      var pos := Pos(cfg, w, tagArray[fringeId]);
      var lineId := lookupArray[pos];
      buf[m] := Cand(pos, lineId, fringe);
      allValid := valid && tagArray[lineId] != 0;
      n := if lineId != fringeId then m + 1 else m;
      assert buf[..m] == cs && buf[..m + 1] == cs + [Cand(pos, lineId, fringe)];
      HasFreeExtend(z.tags, cs, Cand(pos, lineId, fringe));
      assert buf[..n] == Visit(cfg, z, cs, fringe, w);
    }

    /** The candidates that expanding the fringe adds, written into the buffer. */
    method ExpandFringe(buf: array<Cand>, lineAddr: nat, n: nat, fringe: nat, valid: bool)
      returns (m: nat, allValid: bool)
      requires Valid() && fringe + cfg.ways <= n < cfg.cands && buf.Length == cfg.cands + cfg.ways
      requires Walk(cfg, Abs(), lineAddr, buf[..n], fringe, 0)
      requires valid && !HasFree(tagArray[..], buf[..n])
      modifies buf
      ensures fringe + 1 + cfg.ways <= m <= n + cfg.ways && m > n
      ensures buf[..n] == old(buf[..n]) && forall i :: n <= i < m ==> buf[i].parent == fringe
      ensures Walk(cfg, Abs(), lineAddr, buf[..m], fringe + 1, 0)
      ensures allValid == !HasFree(tagArray[..], buf[..m])
    {
      hide ZInv, Walk, IsPerm, HasFree;
      ghost var z := Abs();
      WalkIds(cfg, z, lineAddr, buf[..n], fringe, 0);
      assert buf[..n][fringe] == buf[fringe];
      NoneFree(z.tags, buf[..n], fringe);
      ghost var start := buf[..n];
      ghost var fringeId, own := buf[fringe].id, -1;
      m, allValid := n, valid;
      var w := 0;
      while w < cfg.ways
        invariant w <= cfg.ways && n <= m <= n + w
        invariant Walk(cfg, z, lineAddr, buf[..m], fringe, w)
        invariant buf[fringe].id == fringeId && buf[..n] == start
        invariant forall i :: n <= i < m ==> buf[i].parent == fringe
        invariant if own == -1 then m == n + w
                  else 0 <= own < w && z.lookup[Pos(cfg, own, z.tags[fringeId])] == fringeId && m == n + w - 1
        invariant allValid == !HasFree(tagArray[..], buf[..m])
      {
        ghost var before, prefix := m, buf[..m];
        m, allValid := VisitWay(buf, lineAddr, m, fringe, w, allValid);
        assert buf[..n] == prefix[..n] && buf[fringe] == prefix[fringe];
        assert forall i :: n <= i < before ==> buf[i] == prefix[i];
        if m == before {
          if own != -1 {
            OwnOnce(cfg, z, fringeId, own, w, z.tags[fringeId]);
          }
          own := w;
        }
        w := w + 1;
      }
      NextFringe(cfg, z, lineAddr, buf[..m], fringe);
    }

    /** The seeds of the walk: the positions of the incoming address. */
    method Seeds(buf: array<Cand>, lineAddr: nat) returns (allValid: bool)
      requires Valid() && buf.Length == cfg.cands + cfg.ways
      modifies buf
      ensures Walk(cfg, Abs(), lineAddr, buf[..cfg.ways], 0, 0)
      ensures allValid == !HasFree(tagArray[..], buf[..cfg.ways])
    {
      hide HasFree;
      ghost var z := Abs();
      allValid := true;
      assert !HasFree(z.tags, []) by { NothingFree(z.tags); }
      assert buf[..0] == [];
      var w := 0;
      while w < cfg.ways
        invariant w <= cfg.ways
        invariant forall i :: 0 <= i < w ==> buf[i].pos == Pos(cfg, i, lineAddr) && buf[i].parent == -1
        invariant forall i :: 0 <= i < w ==> buf[i].id == z.lookup[buf[i].pos]
        invariant allValid == !HasFree(tagArray[..], buf[..w])
      {
        var pos := Pos(cfg, w, lineAddr);
        HasFreeExtend(z.tags, buf[..w], Cand(pos, lookupArray[pos], -1));
        buf[w] := Cand(pos, lookupArray[pos], -1);
        assert buf[..w + 1] == buf[..w] + [Cand(pos, lookupArray[pos], -1)];
        allValid := allValid && tagArray[lookupArray[pos]] != 0;
        w := w + 1;
      }
    }

    /** The candidate walk: seeds, then breadth-first expansion until there are enough
        candidates or an invalid line turned up. */
    method FindCandidates(lineAddr: nat) returns (buf: array<Cand>, n: nat, ghost fringe: nat)
      requires Valid()
      ensures fresh(buf) && cfg.ways <= n <= buf.Length
      ensures Walk(cfg, Abs(), lineAddr, buf[..n], fringe, 0)
      ensures n >= cfg.cands || HasFree(tagArray[..], buf[..n])
      ensures NoneTooMany(cfg, tagArray[..], buf[..n], fringe)
    {
      hide Expanded, ChildOk, Placed, HasFree;
      buf := new Cand[cfg.cands + cfg.ways](_ => Cand(0, 0, -1));
      var allValid := Seeds(buf, lineAddr);
      n := cfg.ways;
      var fringeStart := 0;
      while n < cfg.cands && allValid
        invariant fringeStart + cfg.ways <= n < cfg.cands + cfg.ways
        invariant Walk(cfg, Abs(), lineAddr, buf[..n], fringeStart, 0)
        invariant allValid == !HasFree(tagArray[..], buf[..n])
        invariant NoneTooMany(cfg, tagArray[..], buf[..n], fringeStart)
        decreases cfg.cands + cfg.ways - n
      {
        ghost var cs := buf[..n];
        WalkIds(cfg, Abs(), lineAddr, cs, fringeStart, 0);
        n, allValid := ExpandFringe(buf, lineAddr, n, fringeStart, allValid);
        assert buf[..n][..|cs|] == cs;
        StillNeeded(cfg, tagArray[..], cs, buf[..n], fringeStart);
        fringeStart := fringeStart + 1;
      }
      fringe := fringeStart;
    }

    /** ZArray::preinsert.  `rank` is the replacement policy's choice among the candidates; m
        is the walk and the first candidate that names the chosen line. */
    method Preinsert(lineAddr: nat, rank: nat) returns (best: nat, wbLineAddr: nat, ghost m: Miss)
      requires Valid()
      modifies this`swapArrayLen, swapArray
      ensures Valid() && Abs() == old(Abs())
      ensures best < tagArray.Length && wbLineAddr == tagArray[best]
      ensures m.addr == lineAddr && WalkedMiss(cfg, Abs(), m)
      ensures |m.cs| >= cfg.cands || HasFree(tagArray[..], m.cs)
      ensures NoneTooMany(cfg, tagArray[..], m.cs, m.fringe)
      ensures best == m.cs[m.best].id == m.cs[rank % Ranked(cfg, m.cs)].id
      ensures swapArray[..swapArrayLen] == SwapOf(m.cs, Chain(m.cs, m.best))
      ensures 1 <= swapArrayLen && GoodSwap(cfg, Abs(), lineAddr, swapArray[..swapArrayLen])
      ensures lookupArray[swapArray[0]] == best
    {
      hide HasFree, Walk, NoneTooMany;
      ghost var z := Abs();
      var buf, n, fringe := FindCandidates(lineAddr);
      ghost var cs := buf[..n];
      WalkIds(cfg, z, lineAddr, cs, fringe, 0);
      WalkParents(cfg, z, lineAddr, cs, fringe, 0);
      var numCandidates := if n > cfg.cands then cfg.cands else n;
      var minIdx := FirstNaming(buf, n, rank % numCandidates);
      best := buf[minIdx].id;
      ChainLength(cfg, z, lineAddr, cs, fringe, 0, minIdx);
      SwapArrayFits(cfg.ways, cfg.cands, minIdx, |Chain(cs, minIdx)|);
      ChainIsGoodSwap(cfg, z, lineAddr, cs, fringe, 0, minIdx);
      FillSwapArray(buf, n, minIdx);
      wbLineAddr := tagArray[best];
      m := Miss(lineAddr, cs, fringe, 0, minIdx);
    }

    /** The minimum index that names the same line as the i-th candidate. */
    method FirstNaming(buf: array<Cand>, n: nat, i: nat) returns (minIdx: nat)
      requires i < n <= buf.Length
      ensures minIdx <= i && buf[minIdx].id == buf[i].id && First(buf[..n], minIdx)
    {
      minIdx := 0;
      while buf[minIdx].id != buf[i].id
        invariant minIdx <= i
        invariant forall j :: 0 <= j < minIdx ==> buf[j].id != buf[i].id
        decreases i - minIdx
      {
        minIdx := minIdx + 1;
      }
    }

    /** Record the positions from the victim up to its seed. */
    method FillSwapArray(buf: array<Cand>, n: nat, minIdx: nat)
      requires Shape() && minIdx < n <= buf.Length && ParentsBelow(buf[..n])
      requires |Chain(buf[..n], minIdx)| <= swapArray.Length
      modifies this`swapArrayLen, swapArray
      ensures Shape() && swapArray[..swapArrayLen] == SwapOf(buf[..n], Chain(buf[..n], minIdx))
    {
      ghost var cs := buf[..n];
      ghost var chain := Chain(cs, minIdx);
      var idx: int, swapIdx: nat := minIdx, 0;
      while idx >= 0
        invariant -1 <= idx < n && swapIdx + |Chain(cs, idx)| == |chain|
        invariant chain[swapIdx..] == Chain(cs, idx)
        invariant forall k :: 0 <= k < swapIdx ==> swapArray[k] == cs[chain[k]].pos
        decreases idx
      {
        assert chain[swapIdx..][0] == idx;
        assert chain[swapIdx..][1..] == chain[swapIdx + 1..];
        swapArray[swapIdx] := buf[idx].pos;
        swapIdx := swapIdx + 1;
        idx := buf[idx].parent;
      }
      swapArrayLen := swapIdx;
      assert swapArray[..swapArrayLen] == SwapOf(cs, chain);
    }

    /** ZArray::postinsert */
    method Postinsert(lineAddr: nat, candidate: nat)
      requires Valid() && lineAddr != 0 && lineAddr !in tagArray[..]
      requires 1 <= swapArrayLen && GoodSwap(cfg, Abs(), lineAddr, swapArray[..swapArrayLen])
      requires lookupArray[swapArray[0]] == candidate
      modifies tagArray, lookupArray
      ensures Valid()
      ensures Contents(tagArray[..]) ==
              (old(Contents(tagArray[..])) - {old(tagArray[..])[candidate]})[lineAddr := candidate]
      ensures Abs() == Insert(old(Abs()), lineAddr, swapArray[..swapArrayLen])
    {
      ghost var z, swap := Abs(), swapArray[..swapArrayLen];
      InsertIsMapUpdate(cfg, z, lineAddr, swap);
      var i := 0;
      while i < swapArrayLen - 1
        invariant 0 <= i <= swapArrayLen - 1
        invariant lookupArray.Length == |z.lookup| && tagArray[..] == z.tags
        invariant ShiftFrom(lookupArray[..], swap, i) == ShiftFrom(z.lookup, swap, 0)
      {
        lookupArray[swapArray[i]] := lookupArray[swapArray[i + 1]];
        i := i + 1;
      }
      lookupArray[swapArray[swapArrayLen - 1]] := candidate;
      tagArray[candidate] := lineAddr;
    }
  }
}

/** Exactly which geometries of directory and children can make the directory overflow. */
module DirectoryCapacity {
  import opened Counting
  import opened Mesi
  import opened Directory
  import opened DirectorySystem
  import opened DirectoryProof

  /** Line x in a frame of child c. */
  datatype Copy = Copy(c: nat, x: nat)

  /** The lines that ps puts in set s of child c. */
  ghost function Held(g: Config, ps: seq<Copy>, c: nat, s: nat): (h: set<nat>)
    ensures forall y: nat :: y in h <==> Copy(c, y) in ps && g.childSet(c, y) == s
    decreases |ps|
  {
    if ps == [] then {}
    else
      var p := ps[|ps| - 1];
      Held(g, ps[..|ps| - 1], c, s) + if p.c == c && g.childSet(c, p.x) == s then {p.x} else {}
  }

  /** Different lines of one directory set, in frames that the children have. */
  ghost predicate Fitting(g: Config, ps: seq<Copy>)
    requires ValidConfig(g)
  {
    && (forall i :: 0 <= i < |ps| ==> ps[i].c < Children(g))
    && (forall i, j :: 0 <= i < j < |ps| ==> ps[i].x != ps[j].x && DirSet(g, ps[i].x) == DirSet(g, ps[j].x))
    && forall c: nat, s: nat :: c < Children(g) ==> |Held(g, ps, c, s)| <= g.childAssoc[c]
  }

  /** The children can hold more lines of one directory set than the set has ways. */
  ghost predicate Packing(g: Config, ps: seq<Copy>) {
    ValidConfig(g) && Fitting(g, ps) && |ps| == g.ways + 1
  }

  // ----------------------------------------------------------- an overflow needs a packing

  /** A child that holds the line of a used way. */
  lemma Holder(g: Config, d: Dir, k: nat) returns (c: nat)
    requires Inv(g, d) && k < |d.tags| && d.tags[k] >= 0
    ensures c < Children(g) && (d.tags[k] as nat) in d.child[c]
  {
    assert WayOk(d, k);
    c :| c in d.entries[k].sharers;
    assert LineAt(d, k, d.tags[k]).st[c] != I;
  }

  /** A holder for each of the first n ways of a full set. */
  lemma {:induction false} Holders(g: Config, d: Dir, lo: nat, n: nat) returns (ps: seq<Copy>)
    requires Inv(g, d) && lo + n <= |d.tags| && forall k :: lo <= k < lo + n ==> d.tags[k] >= 0
    ensures |ps| == n
    ensures forall i :: 0 <= i < n ==> ps[i].x == d.tags[lo + i] && ps[i].c < Children(g) && ps[i].x in d.child[ps[i].c]
  {
    hide Inv;
    InvFits(g, d);
    if n == 0 {
      ps := [];
    } else {
      ps := Holders(g, d, lo, n - 1);
      var c := Holder(g, d, lo + n - 1);
      ps := ps + [Copy(c, d.tags[lo + n - 1])];
    }
  }

  lemma InvFits(g: Config, d: Dir)
    requires Inv(g, d)
    ensures Fits(g, d) && TagsOk(g, d.tags) && FramesOk(g, d.child)
  {
  }

  lemma HeldInFrames(g: Config, d: Dir, ps: seq<Copy>, c: nat, s: nat)
    requires Fits(g, d) && FramesOk(g, d.child) && c < Children(g)
    requires forall i :: 0 <= i < |ps| ==> ps[i].c < Children(g) && ps[i].x in d.child[ps[i].c]
    ensures |Held(g, ps, c, s)| <= g.childAssoc[c]
  {
    var f := Frames(g, d.child[c], c, s);
    forall y | y in Held(g, ps, c, s)
      ensures y in f
    {
      assert Copy(c, y) in ps;
    }
    SubsetSize(Held(g, ps, c, s), f);
  }

  /** A set without a free way, and a line that wants one, make a packing. */
  lemma FullSetPacks(g: Config, d: Dir, x: nat, r: nat) returns (ps: seq<Copy>)
    requires Inv(g, d) && r < Children(g) && x in d.child[r]
    requires Lookup(g, d, x) == -1 && FreeWay(g, d, x) == -1
    ensures Packing(g, ps)
  {
    hide Inv, FramesOk, Held, First;
    InvFits(g, d);
    var lo := First(g, x);
    ps := Holders(g, d, lo, g.ways);
    ps := ps + [Copy(r, x)];
    forall i, j | 0 <= i < j < |ps|
      ensures ps[i].x != ps[j].x
    {
    }
    forall i | 0 <= i < |ps|
      ensures DirSet(g, ps[i].x) == DirSet(g, x)
    {
      if i < g.ways {
        InSameSet(g, ps[i].x, x, lo + i);
      }
    }
    forall c: nat, s: nat | c < Children(g)
      ensures |Held(g, ps, c, s)| <= g.childAssoc[c]
    {
      HeldInFrames(g, d, ps, c, s);
    }
  }

  lemma InSameSet(g: Config, x: nat, y: nat, k: nat)
    requires ValidConfig(g) && InSet(g, x, k) && InSet(g, y, k)
    ensures DirSet(g, x) == DirSet(g, y)
  {
    SameSet(DirSet(g, x), DirSet(g, y), g.ways, k);
  }

  lemma {:induction false} FullRunPacks(g: Config, d: Dir, steps: seq<Step>, e: Dir) returns (ps: seq<Copy>)
    requires Inv(g, d) && !d.full && Run(g, d, steps, e) && e.full
    ensures Packing(g, ps)
    decreases |steps|
  {
    hide Inv, Packing, Serve, Lookup, FreeWay;
    var m := Next(g, d, steps[0]);
    StepOk(g, d, steps[0]);
    if m.full {
      var c := steps[0].c;
      ServeOk(g, d, c);
      ps := FullSetPacks(g, d, d.pend[c].value.addr, c);
    } else {
      ps := FullRunPacks(g, m, steps[1..], e);
    }
  }

  // ------------------------------------------------------------- a packing overflows it

  /** The children hold exactly the first n copies, and nothing is on its way. */
  ghost predicate Holding(g: Config, d: Dir, ps: seq<Copy>, n: nat)
    requires n <= |ps|
  {
    && Fits(g, d) && !d.full && (forall c :: 0 <= c < |d.pend| ==> d.pend[c] == None)
    && (forall c: nat, y: nat :: c < |d.child| && y in d.child[c] ==> Copy(c, y) in ps[..n])
    && forall i :: 0 <= i < n ==> ps[i].c < |d.child| && StateIn(d.child[ps[i].c], ps[i].x) != I
  }

  /** How a child fetches a line that it does not have. */
  function Fetch(p: Copy): (steps: seq<Step>) {
    [Allocate(p.c, p.x, None), SendGet(p.c, p.x, GETS, false), Serving(p.c)]
  }

  /** The next copy still has a frame. */
  lemma FrameLeft(g: Config, d: Dir, ps: seq<Copy>, n: nat)
    requires ValidConfig(g) && Fitting(g, ps) && n < |ps| && Holding(g, d, ps, n)
    ensures var p := ps[n];
            p.x !in d.child[p.c] && |Frames(g, d.child[p.c], p.c, g.childSet(p.c, p.x))| < g.childAssoc[p.c]
  {
    hide Held, Frames;
    var p := ps[n];
    var s := g.childSet(p.c, p.x);
    var f, h := Frames(g, d.child[p.c], p.c, s), Held(g, ps, p.c, s);
    NotYetHeld(g, d, ps, n);
    FramesInHeld(g, d, ps, n, p.c, s);
    assert p in ps;
    SubsetSize(f + {p.x}, h);
  }

  lemma NotYetHeld(g: Config, d: Dir, ps: seq<Copy>, n: nat)
    requires ValidConfig(g) && Fitting(g, ps) && n < |ps| && Holding(g, d, ps, n)
    ensures ps[n].x !in d.child[ps[n].c]
    ensures forall s: nat :: ps[n].x !in Frames(g, d.child[ps[n].c], ps[n].c, s)
  {
    hide Held;
  }

  lemma FramesInHeld(g: Config, d: Dir, ps: seq<Copy>, n: nat, c: nat, s: nat)
    requires n <= |ps| && Holding(g, d, ps, n) && c < Children(g)
    ensures Frames(g, d.child[c], c, s) <= Held(g, ps, c, s)
  {
    hide Held;
    forall y | y in Frames(g, d.child[c], c, s)
      ensures y in Held(g, ps, c, s)
    {
      assert Copy(c, y) in ps[..n];
    }
  }

  /** Serving a read that found its sender without a copy: the directory overflows, or the
      sender gets one and no other line is touched. */
  lemma ReadServed(g: Config, d: Dir, c: nat, x: nat)
    requires Fits(g, d) && c < Children(g) && d.pend[c] == Some(Req(GETS, x, I, false)) && !d.full
    requires x in d.child[c] && d.child[c][x] == I
    ensures var e := Serve(g, d, c);
            e.full || (&& !e.full && Fits(g, e) && e.pend == d.pend[c := None]
                       && (forall b :: 0 <= b < |d.child| ==> e.child[b].Keys == d.child[b].Keys)
                       && (forall b, y: nat :: 0 <= b < |d.child| && y != x ==>
                             StateIn(e.child[b], y) == StateIn(d.child[b], y))
                       && StateIn(e.child[c], x) != I)
  {
    hide Lookup, FreeWay, InvalidateAll;
    var k := Lookup(g, d, x);
    var f := FreeWay(g, d, x);
    var d0 := d.(pend := d.pend[c := None]);
    if k != -1 {
      ReadWritten(d0, k, x, c);
    } else if f != -1 {
      ReadWritten(d0.(tags := d0.tags[f := x]), f, x, c);
    }
  }

  lemma ReadWritten(d: Dir, k: nat, x: nat, c: nat)
    requires k < |d.entries| == |d.tags| && c < |d.child| && x in d.child[c]
    ensures var e := ServeGet(d, k, x, c, GETS, false);
            && e.full == d.full && |e.entries| == |d.entries| && e.tags == d.tags && e.pend == d.pend
            && |e.child| == |d.child|
            && (forall b :: 0 <= b < |d.child| ==> e.child[b].Keys == d.child[b].Keys)
            && (forall b, y: nat :: 0 <= b < |d.child| && y != x ==> StateIn(e.child[b], y) == StateIn(d.child[b], y))
            && StateIn(e.child[c], x) != I
  {
    hide InvalidateAll;
  }

  /** One more line: the directory overflows, or the children hold one more copy. */
  lemma FetchOne(g: Config, d: Dir, ps: seq<Copy>, n: nat) returns (e: Dir)
    requires Inv(g, d) && Fitting(g, ps) && n < |ps| && Holding(g, d, ps, n)
    ensures Run(g, d, Fetch(ps[n]), e) && Inv(g, e)
    ensures e.full || Holding(g, e, ps, n + 1)
  {
    hide Inv, Serve, Fitting;
    var p := ps[n];
    CopyChild(g, ps, n);
    FrameLeft(g, d, ps, n);
    var s := Fetch(p);
    var d1 := Next(g, d, s[0]);
    StepOk(g, d, s[0]);
    var d2 := Next(g, d1, s[1]);
    StepOk(g, d1, s[1]);
    e := Next(g, d2, s[2]);
    StepOk(g, d2, s[2]);
    ReadServed(g, d2, p.c, p.x);
    RunThree(g, d, s, e);
    if !e.full {
      StillHolding(g, d, ps, n, e);
    }
  }

  lemma CopyChild(g: Config, ps: seq<Copy>, n: nat)
    requires ValidConfig(g) && Fitting(g, ps) && n < |ps|
    ensures ps[n].c < Children(g) && forall i :: 0 <= i < n ==> ps[i].x != ps[n].x
  {
  }

  lemma RunThree(g: Config, d: Dir, s: seq<Step>, e: Dir)
    requires |s| == 3 && Enabled(g, d, s[0]) && Enabled(g, Next(g, d, s[0]), s[1])
    requires var d1 := Next(g, d, s[0]); var d2 := Next(g, d1, s[1]); Enabled(g, d2, s[2]) && e == Next(g, d2, s[2])
    ensures Run(g, d, s, e)
  {
    hide Enabled, Next;
    assert s[1..][1..] == [s[2]] && s[1..][0] == s[1];
    assert s[1..][1..][1..] == [];
    var d2 := Next(g, Next(g, d, s[0]), s[1]);
    assert Run(g, e, [], e);
    assert Run(g, d2, [s[2]], e);
    assert Run(g, Next(g, d, s[0]), s[1..], e);
  }

  /** d was holding n copies; e has the next one too and nothing else has changed. */
  lemma StillHolding(g: Config, d: Dir, ps: seq<Copy>, n: nat, e: Dir)
    requires n < |ps| && Holding(g, d, ps, n) && Fits(g, e) && !e.full && ps[n].c < Children(g)
    requires forall i :: 0 <= i < n ==> ps[i].x != ps[n].x
    requires forall c :: 0 <= c < |e.pend| ==> e.pend[c] == None
    requires forall b: nat, y: nat :: b < |d.child| && y in e.child[b] ==> y in d.child[b] || Copy(b, y) == ps[n]
    requires forall b: nat, y: nat :: b < |d.child| && y != ps[n].x ==> StateIn(e.child[b], y) == StateIn(d.child[b], y)
    requires StateIn(e.child[ps[n].c], ps[n].x) != I
    ensures Holding(g, e, ps, n + 1)
  {
    forall c: nat, y: nat | c < |e.child| && y in e.child[c]
      ensures Copy(c, y) in ps[..n + 1]
    {
      if y in d.child[c] {
        var i :| 0 <= i < n && ps[..n][i] == Copy(c, y);
        assert ps[..n + 1][i] == Copy(c, y);
      } else {
        assert ps[..n + 1][n] == Copy(c, y);
      }
    }
  }

  /** More lines of one set than ways cannot all have a tag. */
  lemma TooManyTags(g: Config, d: Dir, ps: seq<Copy>)
    requires Inv(g, d) && Packing(g, ps)
    ensures !Holding(g, d, ps, |ps|)
  {
    hide Held, FramesOk, PendOk, WayOk, Covered;
    var t := TagSet(d.tags, First(g, ps[0].x), g.ways);
    if Holding(g, d, ps, |ps|) {
      forall i | 0 <= i < |ps|
        ensures ps[i].x in t
      {
        HeldIsTagged(g, d, ps[i].c, ps[i].x, ps[0].x);
      }
      ManyDistinct(ps, |ps|, t);
      TagSetBound(d.tags, First(g, ps[0].x), g.ways);
      assert false;
    }
  }

  lemma HeldIsTagged(g: Config, d: Dir, c: nat, x: nat, y: nat)
    requires Inv(g, d) && c < |d.child| && StateIn(d.child[c], x) != I && DirSet(g, x) == DirSet(g, y)
    ensures x in TagSet(d.tags, First(g, y), g.ways)
  {
    hide FramesOk, PendOk, WayOk, Covered;
    TaggedIffHeld(g, d, x);
    var k :| 0 <= k < |d.tags| && d.tags[k] == x;
    InTagSet(d.tags, First(g, y), g.ways, k);
  }

  lemma {:induction false} InTagSet(tags: seq<int>, lo: nat, n: nat, k: nat)
    requires lo <= k < lo + n <= |tags|
    ensures tags[k] in TagSet(tags, lo, n)
  {
    if k < lo + n - 1 {
      InTagSet(tags, lo, n - 1, k);
    }
  }

  lemma {:induction false} TagSetBound(tags: seq<int>, lo: nat, n: nat)
    requires lo + n <= |tags|
    ensures |TagSet(tags, lo, n)| <= n
  {
    if n > 0 {
      TagSetBound(tags, lo, n - 1);
    }
  }

  lemma {:induction false} ManyDistinct(ps: seq<Copy>, n: nat, t: set<int>)
    requires n <= |ps| && (forall i, j :: 0 <= i < j < |ps| ==> ps[i].x != ps[j].x)
    requires forall i :: 0 <= i < n ==> ps[i].x in t
    ensures n <= |t|
  {
    if n > 0 {
      ManyDistinct(ps, n - 1, t - {ps[n - 1].x});
    }
  }

  /** Fetching the copies of a packing one by one overflows the directory. */
  lemma {:induction false} PackingOverflows(g: Config, d: Dir, ps: seq<Copy>, n: nat) returns (steps: seq<Step>, e: Dir)
    requires Inv(g, d) && Packing(g, ps) && n <= |ps| && Holding(g, d, ps, n)
    ensures Run(g, d, steps, e) && e.full
    decreases |ps| - n
  {
    hide Inv, Run, Holding, Fitting;
    if n == |ps| {
      TooManyTags(g, d, ps);
      assert false;
    }
    var m := FetchOne(g, d, ps, n);
    if m.full {
      steps, e := Fetch(ps[n]), m;
    } else {
      var rest;
      rest, e := PackingOverflows(g, m, ps, n + 1);
      RunAppend(g, d, Fetch(ps[n]), m, rest, e);
      steps := Fetch(ps[n]) + rest;
    }
  }

  lemma {:induction false} RunAppend(g: Config, d: Dir, a: seq<Step>, m: Dir, b: seq<Step>, e: Dir)
    requires Run(g, d, a, m) && Run(g, m, b, e)
    ensures Run(g, d, a + b, e)
    decreases |a|
  {
    hide Enabled, Next;
    if a == [] {
      assert a + b == b;
    } else {
      RunAppend(g, Next(g, d, a[0]), a[1..], m, b, e);
      assert (a + b)[0] == a[0] && (a + b)[1..] == a[1..] + b;
    }
  }

  /** For every geometry, hash and indexing of the children: some run overflows the directory
      iff the children can hold more lines of one directory set than it has ways. */
  lemma OverflowExact(g: Config, d: Dir)
    requires Initial(g, d)
    ensures (exists steps: seq<Step>, e: Dir :: Run(g, d, steps, e) && e.full)
       <==> (exists ps: seq<Copy> :: Packing(g, ps))
  {
    hide Run, Packing, Inv;
    InitialInv(g, d);
    if steps: seq<Step>, e: Dir :| Run(g, d, steps, e) && e.full {
      var ps := FullRunPacks(g, d, steps, e);
    }
    if ps: seq<Copy> :| Packing(g, ps) {
      assert Holding(g, d, ps, 0);
      var steps, e := PackingOverflows(g, d, ps, 0);
    }
  }

  // ---------------------------------------------------------------- counting frames

  /** How many copies are in child c. */
  ghost function CopiesIn(ps: seq<Copy>, c: nat): (n: nat)
    decreases |ps|
  {
    if ps == [] then 0 else CopiesIn(ps[..|ps| - 1], c) + if ps[|ps| - 1].c == c then 1 else 0
  }

  lemma {:induction false} HeldBound(g: Config, ps: seq<Copy>, c: nat, s: nat)
    ensures |Held(g, ps, c, s)| <= CopiesIn(ps, c)
    decreases |ps|
  {
    if ps != [] {
      HeldBound(g, ps[..|ps| - 1], c, s);
    }
  }

  /** Give the next lines to child c, up to m of them. */
  lemma {:induction false} Assign(ps: seq<Copy>, lines: seq<nat>, c: nat, m: nat) returns (r: seq<Copy>)
    requires |ps| <= |lines| && forall i :: 0 <= i < |ps| ==> ps[i].x == lines[i] && ps[i].c < c
    ensures |ps| <= |r| <= |lines| && (|r| == |lines| || |r| == |ps| + m)
    ensures forall i :: 0 <= i < |r| ==> r[i].x == lines[i] && r[i].c <= c
    ensures CopiesIn(r, c) <= CopiesIn(ps, c) + m
    ensures forall b: nat :: b != c ==> CopiesIn(r, b) == CopiesIn(ps, b)
  {
    if m == 0 || |ps| == |lines| {
      r := ps;
    } else {
      var q := Assign(ps, lines, c, m - 1);
      if |q| == |lines| {
        r := q;
      } else {
        r := q + [Copy(c, lines[|q|])];
        assert r[..|r| - 1] == q;
      }
    }
  }

  lemma {:induction false} NoneIn(ps: seq<Copy>, c: nat)
    requires forall i :: 0 <= i < |ps| ==> ps[i].c < c
    ensures CopiesIn(ps, c) == 0
    decreases |ps|
  {
    if ps != [] {
      NoneIn(ps[..|ps| - 1], c);
    }
  }

  /** As many lines as the first k children have ways together can be spread over them. */
  lemma {:induction false} Spread(assoc: seq<nat>, lines: seq<nat>, k: nat) returns (ps: seq<Copy>)
    requires k <= |assoc|
    ensures |ps| <= |lines| && (|ps| == |lines| || |ps| == Sum(assoc, k))
    ensures forall i :: 0 <= i < |ps| ==> ps[i].x == lines[i] && ps[i].c < k
    ensures forall c: nat :: c < k ==> CopiesIn(ps, c) <= assoc[c]
  {
    if k == 0 {
      ps := [];
    } else {
      var q := Spread(assoc, lines, k - 1);
      NoneIn(q, k - 1);
      ps := Assign(q, lines, k - 1, assoc[k - 1]);
    }
  }

  lemma SpreadPacks(g: Config, lines: seq<nat>) returns (ps: seq<Copy>)
    requires ValidConfig(g) && |lines| == g.ways + 1 && g.ways < Sum(g.childAssoc, Children(g))
    requires forall i, j :: 0 <= i < j < |lines| ==> lines[i] != lines[j] && DirSet(g, lines[i]) == DirSet(g, lines[j])
    ensures Packing(g, ps)
  {
    hide Held, CopiesIn, DirSet;
    ps := Spread(g.childAssoc, lines, Children(g));
    forall c: nat, s: nat | c < Children(g)
      ensures |Held(g, ps, c, s)| <= g.childAssoc[c]
    {
      HeldBound(g, ps, c, s);
    }
  }

  /** If lines that share a directory set share a set in every child, and some directory set
      has more lines than ways, the directory can overflow iff it has fewer ways than the
      children have together. */
  lemma AmpleExact(g: Config, d: Dir, lines: seq<nat>)
    requires Initial(g, d) && |lines| == g.ways + 1
    requires forall i, j :: 0 <= i < j < |lines| ==> lines[i] != lines[j] && DirSet(g, lines[i]) == DirSet(g, lines[j])
    requires forall c: nat, x: nat, y: nat :: DirSet(g, x) == DirSet(g, y) ==> g.childSet(c, x) == g.childSet(c, y)
    ensures (exists steps: seq<Step>, e: Dir :: Run(g, d, steps, e) && e.full)
       <==> g.ways < Sum(g.childAssoc, Children(g))
  {
    hide Run, Packing, DirSet;
    if g.ways < Sum(g.childAssoc, Children(g)) {
      var ps := SpreadPacks(g, lines);
      OverflowExact(g, d);
    } else {
      forall steps: seq<Step>, e: Dir | Run(g, d, steps, e)
        ensures !e.full
      {
        DirectoryNeverOverflows(g, d, steps, e);
      }
    }
  }
}

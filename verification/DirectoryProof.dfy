/** Exactness and capacity of the coherence directory, over all runs. */
module DirectoryProof {
  import opened Counting
  import opened Mesi
  import opened Directory
  import opened DirectorySystem

  // ------------------------------------------------------------- writing a line back

  lemma ColumnWrite(child: seq<map<nat, MesiState>>, x: nat, st: seq<MesiState>, y: nat)
    requires |st| == |child| && forall c :: 0 <= c < |child| && st[c] != I ==> x in child[c]
    ensures Column(WriteColumn(child, x, st), y) == if y == x then st else Column(child, y)
  {
  }

  lemma WriteKeys(g: Config, child: seq<map<nat, MesiState>>, x: nat, st: seq<MesiState>, c: nat)
    requires |st| == |child| && c < |child|
    ensures WriteColumn(child, x, st)[c].Keys == child[c].Keys
    ensures forall s: nat :: Frames(g, WriteColumn(child, x, st)[c], c, s) == Frames(g, child[c], c, s)
  {
    var m, n := child[c], WriteColumn(child, x, st)[c];
    forall s: nat
      ensures Frames(g, n, c, s) == Frames(g, m, c, s)
    {
      assert forall y :: y in n <==> y in m;
    }
  }

  /** A new state of line x: only lines and entries of x change, nobody but c gains rights. */
  ghost predicate Writes(d: Dir, k: nat, x: nat, c: nat, l: Line) {
    && k < |d.tags| == |d.entries| && d.tags[k] == x && c < |d.child| && x in d.child[c]
    && |l.st| == |d.child| == |d.pend|
    && Exact(l) && forall b :: 0 <= b < |d.child| && b != c ==> Weakened(StateIn(d.child[b], x), l.st[b])
  }

  lemma WritesColumn(d: Dir, k: nat, x: nat, c: nat, l: Line, y: nat)
    requires Writes(d, k, x, c, l)
    ensures Column(WriteLine(d, k, x, l).child, y) == if y == x then l.st else Column(d.child, y)
  {
    hide Exact;
    forall b | 0 <= b < |d.child| && l.st[b] != I
      ensures x in d.child[b]
    {
    }
    ColumnWrite(d.child, x, l.st, y);
  }

  lemma WriteWays(g: Config, d: Dir, k: nat, x: nat, c: nat, l: Line)
    requires Fits(g, d) && TagsOk(g, d.tags) && Writes(d, k, x, c, l)
    requires forall j :: 0 <= j < |d.tags| && j != k ==> WayOk(d, j)
    ensures var e := WriteLine(d, k, x, l);
            && (forall j :: 0 <= j < |d.tags| && j != k ==> WayOk(e, j))
            && (l.entry.sharers != {} ==> WayOk(e, k))
  {
    hide Exact;
    var e := WriteLine(d, k, x, l);
    forall j | 0 <= j < |d.tags| && j != k
      ensures WayOk(e, j)
    {
      assert WayOk(d, j);
      if d.tags[j] >= 0 {
        assert d.tags[j] != x;
        WritesColumn(d, k, x, c, l, d.tags[j]);
      }
    }
    WritesColumn(d, k, x, c, l, x);
    ExactBad(l);
  }

  lemma ExactBad(l: Line)
    requires Exact(l)
    ensures !l.bad && l == Line(l.st, l.entry, false)
  {
  }

  lemma WriteCovered(d: Dir, k: nat, x: nat, c: nat, l: Line)
    requires Writes(d, k, x, c, l) && Covered(d)
    ensures Covered(WriteLine(d, k, x, l))
  {
    hide Exact;
    var e := WriteLine(d, k, x, l);
    forall b, y | 0 <= b < |e.child| && y in e.child[b] && e.child[b][y] != I
      ensures y in e.tags
    {
      WritesColumn(d, k, x, c, l, y);
      if y != x {
        assert StateIn(e.child[b], y) == Column(e.child, y)[b] == StateIn(d.child[b], y);
      }
    }
  }

  lemma WriteFrames(g: Config, d: Dir, k: nat, x: nat, l: Line)
    requires k < |d.entries| && |l.st| == |d.child| == Children(g) && FramesOk(g, d.child)
    ensures FramesOk(g, WriteLine(d, k, x, l).child)
  {
    forall c: nat, s: nat | c < Children(g)
      ensures |Frames(g, WriteLine(d, k, x, l).child[c], c, s)| <= g.childAssoc[c]
    {
      WriteKeys(g, d.child, x, l.st, c);
    }
  }

  lemma WeakenedRace(r: Req, a: MesiState, b: MesiState)
    requires RaceOk(r.typ, r.init, a) && Weakened(a, b)
    ensures RaceOk(r.typ, r.init, b)
  {
  }

  lemma WritePend(d: Dir, k: nat, x: nat, c: nat, l: Line)
    requires Writes(d, k, x, c, l) && d.pend[c].None?
    requires forall b :: 0 <= b < |d.child| ==> PendOk(d.child[b], d.pend[b])
    ensures var e := WriteLine(d, k, x, l);
            forall b :: 0 <= b < |d.child| ==> PendOk(e.child[b], e.pend[b])
  {
    hide Exact;
    var e := WriteLine(d, k, x, l);
    forall b | 0 <= b < |d.child|
      ensures PendOk(e.child[b], e.pend[b])
    {
      assert PendOk(d.child[b], d.pend[b]);
      if d.pend[b].Some? && d.pend[b].value.addr == x {
        WeakenedRace(d.pend[b].value, d.child[b][x], e.child[b][x]);
      }
    }
  }

  /** Everything the invariant says, except about the way of line x. */
  ghost predicate Almost(g: Config, d: Dir, k: nat) {
    && Fits(g, d) && !d.bad && TagsOk(g, d.tags) && Covered(d) && FramesOk(g, d.child)
    && (forall j :: 0 <= j < |d.tags| && j != k ==> WayOk(d, j))
    && (forall c :: 0 <= c < |d.child| ==> PendOk(d.child[c], d.pend[c]))
  }

  lemma WriteLineOk(g: Config, d: Dir, k: nat, x: nat, c: nat, l: Line)
    requires Almost(g, d, k) && Writes(d, k, x, c, l) && d.pend[c].None?
    ensures Almost(g, WriteLine(d, k, x, l), k)
    ensures l.entry.sharers != {} ==> Inv(g, WriteLine(d, k, x, l))
  {
    hide Exact, WayOk, TagsOk, Covered, FramesOk, PendOk;
    WriteWays(g, d, k, x, c, l);
    WriteCovered(d, k, x, c, l);
    WriteFrames(g, d, k, x, l);
    WritePend(d, k, x, c, l);
    ExactBad(l);
  }

  // -------------------------------------------------------------------- serving

  lemma GetOk(g: Config, d: Dir, k: nat, x: nat, c: nat, t: AccessType, noExcl: bool)
    requires Almost(g, d, k) && k < |d.tags| && d.tags[k] == x && c < Children(g) && x in d.child[c] && d.pend[c].None?
    requires Exact(LineAt(d, k, x))
    requires if t == GETX then !HasExcl(d.child[c][x]) else d.child[c][x] == I
    ensures Inv(g, ServeGet(d, k, x, c, t, noExcl))
  {
    hide Exact, GetX, GetS, Almost, Inv;
    AlmostSized(g, d, k);
    var l := LineAt(d, k, x);
    assert forall b :: 0 <= b < |d.child| ==> l.st[b] == StateIn(d.child[b], x);
    if t == GETX {
      GetXExact(l, c);
      WriteLineOk(g, d, k, x, c, GetX(l, c));
    } else {
      GetSExact(l, c, noExcl);
      WriteLineOk(g, d, k, x, c, GetS(l, c, noExcl));
    }
  }

  lemma AlmostSized(g: Config, d: Dir, k: nat)
    requires Almost(g, d, k)
    ensures Fits(g, d) && TagsOk(g, d.tags)
  {
  }

  lemma PutWrites(d: Dir, k: nat, x: nat, c: nat, t: AccessType)
    requires k < |d.tags| == |d.entries| && d.tags[k] == x && c < |d.child| == |d.pend| && x in d.child[c]
    requires Exact(LineAt(d, k, x)) && d.child[c][x] != I && (t == PUTX ==> HasExcl(d.child[c][x]))
    ensures var p := Put(LineAt(d, k, x), c, t);
            Writes(d, k, x, c, p) && Exact(p) && (p.entry.IsEmpty() ==> p.entry == CLEAR)
  {
    hide Exact, Put;
    var l := LineAt(d, k, x);
    assert forall b :: 0 <= b < |d.child| ==> l.st[b] == StateIn(d.child[b], x);
    PutExact(l, c, t);
  }

  lemma PutOk(g: Config, d: Dir, k: nat, x: nat, c: nat, t: AccessType)
    requires Almost(g, d, k) && k < |d.tags| && d.tags[k] == x && c < Children(g) && x in d.child[c] && d.pend[c].None?
    requires Exact(LineAt(d, k, x)) && d.child[c][x] != I && (t == PUTX ==> HasExcl(d.child[c][x]))
    ensures Inv(g, ServePut(d, k, x, c, t))
  {
    hide Exact, Put, Almost, Inv, Writes;
    AlmostSized(g, d, k);
    PutWrites(d, k, x, c, t);
    var p := Put(LineAt(d, k, x), c, t);
    WriteLineOk(g, d, k, x, c, p);
    EmptyEntry(p);
    if p.entry.IsEmpty() {
      WritesColumn(d, k, x, c, p, x);
      DropTag(g, WriteLine(d, k, x, p), k, x);
    }
  }

  lemma EmptyEntry(l: Line)
    requires Exact(l)
    ensures l.entry.IsEmpty() <==> l.entry.sharers == {}
    ensures l.entry.IsEmpty() ==> forall c :: 0 <= c < |l.st| ==> l.st[c] == I
  {
  }

  /** The tag of a line that nobody holds can go. */
  lemma DropTag(g: Config, d: Dir, k: nat, x: nat)
    requires Almost(g, d, k) && k < |d.tags| && d.tags[k] == x && d.entries[k] == CLEAR
    requires forall c :: 0 <= c < |d.child| ==> Column(d.child, x)[c] == I
    ensures Inv(g, d.(tags := d.tags[k := -1]))
  {
    hide Exact, FramesOk, PendOk, InSet;
    var e := d.(tags := d.tags[k := -1]);
    forall c, y | 0 <= c < |e.child| && y in e.child[c] && e.child[c][y] != I
      ensures y in e.tags
    {
      assert Column(d.child, x)[c] == I;
      assert y != x;
      assert y in d.tags;
      var j :| 0 <= j < |d.tags| && d.tags[j] == y;
      assert e.tags[j] == y;
    }
    forall j | 0 <= j < |e.tags|
      ensures WayOk(e, j)
    {
      assert j != k ==> WayOk(d, j);
    }
  }

  /** A line without a tag is held by nobody, so a fresh way describes it exactly. */
  lemma TakeWay(g: Config, d: Dir, f: nat, x: nat)
    requires Inv(g, d) && Lookup(g, d, x) == -1 && f < |d.tags| && InSet(g, x, f) && d.tags[f] == -1
    ensures var e := d.(tags := d.tags[f := x]);
            Almost(g, e, f) && Exact(LineAt(e, f, x))
  {
    hide FramesOk, PendOk, Exact;
    var e := d.(tags := d.tags[f := x]);
    assert x !in d.tags;
    assert TagsOk(g, e.tags);
    forall c, y | 0 <= c < |e.child| && y in e.child[c] && e.child[c][y] != I
      ensures y in e.tags
    {
      assert y in d.tags;
      var j :| 0 <= j < |d.tags| && d.tags[j] == y;
      assert e.tags[j] == y;
    }
    forall j | 0 <= j < |e.tags| && j != f
      ensures WayOk(e, j)
    {
      assert WayOk(d, j);
    }
    assert WayOk(d, f);
    NobodyHolds(d, x);
    ClearExact(LineAt(e, f, x));
  }

  lemma NobodyHolds(d: Dir, x: nat)
    requires Covered(d) && x !in d.tags
    ensures forall c :: 0 <= c < |d.child| ==> Column(d.child, x)[c] == I
  {
  }

  lemma ClearExact(l: Line)
    requires l.entry == CLEAR && !l.bad && forall c :: 0 <= c < |l.st| ==> l.st[c] == I
    ensures Exact(l)
  {
  }

  /** The race check is complete: its assertions hold, and what is left is legal. */
  lemma RaceComplete(r: Req, now: MesiState)
    requires RaceOk(r.typ, r.init, now)
    ensures var race := CheckForMESIRace(r.typ, now, r.init);
            && race.ok && IsPut(race.typ) == IsPut(r.typ)
            && (!race.skip ==>
                  if IsPut(race.typ) then now != I && (race.typ == PUTX ==> now == M)
                  else if race.typ == GETX then !HasExcl(now) else now == I)
  {
  }

  lemma ServeOk(g: Config, d: Dir, c: nat)
    requires Inv(g, d) && c < Children(g) && d.pend[c].Some?
    ensures Inv(g, Serve(g, d, c))
    ensures var x := d.pend[c].value.addr;
            Serve(g, d, c).full && !d.full ==>
              x in d.child[c] && d.child[c][x] == I && Lookup(g, d, x) == -1 && FreeWay(g, d, x) == -1
  {
    hide Exact, Inv, Almost, ServePut, ServeGet, Lookup, FreeWay, CheckForMESIRace;
    InvFacts(g, d, c);
    var r := d.pend[c].value;
    var x, now := r.addr, d.child[c][r.addr];
    RaceComplete(r, now);
    var race := CheckForMESIRace(r.typ, now, r.init);
    var d0 := d.(pend := d.pend[c := None]);
    Received(g, d, c);
    if !race.skip {
      var k := Lookup(g, d, x);
      if k != -1 {
        Tagged(g, d0, k);
        if IsPut(race.typ) {
          PutOk(g, d0, k, x, c, race.typ);
          PutFull(d0, k, x, c, race.typ);
        } else {
          GetOk(g, d0, k, x, c, race.typ, r.noExcl);
          GetFull(d0, k, x, c, race.typ, r.noExcl);
        }
      } else {
        NotHeld(g, d, x, c);
        var f := FreeWay(g, d, x);
        if f != -1 {
          SameLookup(g, d, d0, x);
          TakeWay(g, d0, f, x);
          GetOk(g, d0.(tags := d0.tags[f := x]), f, x, c, race.typ, r.noExcl);
          GetFull(d0.(tags := d0.tags[f := x]), f, x, c, race.typ, r.noExcl);
        } else {
          StopOk(g, d);
        }
      }
    }
  }

  /** The state of a child after an access of type t.  mine: it is the requester; alone: nobody
      had a copy. */
  function After(t: AccessType, noExcl: bool, alone: bool, mine: bool, before: MesiState): MesiState {
    match t
    case GETX => if mine then M else I
    case GETS => if mine then (if alone && !noExcl then E else S) else if HasExcl(before) then S else before
    case PUTS => if mine then I else before
    case PUTX => if mine then I else before
  }

  ghost predicate Unheld(d: Dir, x: nat) {
    forall b :: 0 <= b < |d.child| ==> StateIn(d.child[b], x) == I
  }

  /** What an access that is not skipped does to the children: to line x as After says, and
      nothing to other lines. */
  ghost predicate Effect(d: Dir, e: Dir, x: nat, c: nat, t: AccessType, noExcl: bool) {
    |e.child| == |d.child| && forall b, y: nat :: 0 <= b < |d.child| ==>
      StateIn(e.child[b], y) ==
        if y == x then After(t, noExcl, Unheld(d, x), b == c, StateIn(d.child[b], x)) else StateIn(d.child[b], y)
  }

  lemma WrittenStates(d: Dir, k: nat, x: nat, c: nat, l: Line, b: int, y: nat)
    requires Writes(d, k, x, c, l) && 0 <= b < |d.child|
    ensures StateIn(WriteLine(d, k, x, l).child[b], y) == if y == x then l.st[b] else StateIn(d.child[b], y)
  {
    hide Exact, Writes;
    WritesSized(d, k, x, c, l);
    WritesColumn(d, k, x, c, l, y);
    var e := WriteLine(d, k, x, l);
    assert Column(e.child, y)[b] == StateIn(e.child[b], y);
    assert y != x ==> Column(d.child, y)[b] == StateIn(d.child[b], y);
  }

  lemma WritesSized(d: Dir, k: nat, x: nat, c: nat, l: Line)
    requires Writes(d, k, x, c, l)
    ensures k < |d.entries| && |l.st| == |d.child|
  {
  }

  lemma GetEffect(d: Dir, k: nat, x: nat, c: nat, t: AccessType, noExcl: bool)
    requires k < |d.tags| == |d.entries| && d.tags[k] == x && c < |d.child| == |d.pend| && x in d.child[c]
    requires Exact(LineAt(d, k, x)) && (t == GETS || t == GETX)
    requires if t == GETX then !HasExcl(d.child[c][x]) else d.child[c][x] == I
    ensures Effect(d, ServeGet(d, k, x, c, t, noExcl), x, c, t, noExcl)
  {
    hide Exact, GetX, GetS, WriteLine, Writes, Column;
    var l := LineAt(d, k, x);
    assert forall b :: 0 <= b < |d.child| ==> l.st[b] == StateIn(d.child[b], x) by { ColumnStates(d.child, x); }
    var m := if t == GETX then GetX(l, c) else GetS(l, c, noExcl);
    if t == GETX {
      GetXExact(l, c);
    } else {
      GetSExact(l, c, noExcl);
    }
    GetWrites(d, k, x, c, m);
    WriteLineSized(d, k, x, m);
    forall b, y: nat | 0 <= b < |d.child|
      ensures StateIn(WriteLine(d, k, x, m).child[b], y) ==
              if y == x then After(t, noExcl, Unheld(d, x), b == c, StateIn(d.child[b], x)) else StateIn(d.child[b], y)
    {
      WrittenStates(d, k, x, c, m, b, y);
    }
  }

  lemma ColumnStates(child: seq<map<nat, MesiState>>, x: nat)
    ensures forall b :: 0 <= b < |child| ==> Column(child, x)[b] == StateIn(child[b], x)
  {
  }

  lemma WriteLineSized(d: Dir, k: nat, x: nat, l: Line)
    requires k < |d.entries| && |l.st| == |d.child|
    ensures |WriteLine(d, k, x, l).child| == |d.child|
  {
  }

  lemma GetWrites(d: Dir, k: nat, x: nat, c: nat, l: Line)
    requires k < |d.tags| == |d.entries| && d.tags[k] == x && c < |d.child| == |d.pend| && x in d.child[c]
    requires |l.st| == |d.child| && Exact(l)
    requires forall b :: 0 <= b < |d.child| && b != c ==> Weakened(StateIn(d.child[b], x), l.st[b])
    ensures Writes(d, k, x, c, l)
  {
  }

  lemma PutEffect(d: Dir, k: nat, x: nat, c: nat, t: AccessType)
    requires k < |d.tags| == |d.entries| && d.tags[k] == x && c < |d.child| == |d.pend| && x in d.child[c]
    requires Exact(LineAt(d, k, x)) && d.child[c][x] != I && IsPut(t) && (t == PUTX ==> HasExcl(d.child[c][x]))
    ensures Effect(d, ServePut(d, k, x, c, t), x, c, t, false)
  {
    hide Exact, Put, WriteLine, Writes, Column;
    var l := LineAt(d, k, x);
    ColumnStates(d.child, x);
    PutExact(l, c, t);
    PutWrites(d, k, x, c, t);
    var p := Put(l, c, t);
    WriteLineSized(d, k, x, p);
    forall b, y: nat | 0 <= b < |d.child|
      ensures StateIn(WriteLine(d, k, x, p).child[b], y) ==
              if y == x then After(t, false, Unheld(d, x), b == c, StateIn(d.child[b], x)) else StateIn(d.child[b], y)
    {
      WrittenStates(d, k, x, c, p, b, y);
    }
  }

  /** Serving a request: skipped PUTs change nothing, a line without a free way stops the
      simulation, and otherwise the children end up exactly as After says. */
  lemma ServeExact(g: Config, d: Dir, c: nat)
    requires Inv(g, d) && c < Children(g) && d.pend[c].Some? && !d.full
    ensures Fits(g, d)
    ensures var e, r := Serve(g, d, c), d.pend[c].value;
            var now := StateIn(d.child[c], r.addr);
            if IsPut(r.typ) && now == I then e == d.(pend := d.pend[c := None])
            else if e.full then e == d.(full := true)
            else e.pend == d.pend[c := None] &&
                 Effect(d, e, r.addr, c, if !IsPut(r.typ) then r.typ else if now == M then PUTX else PUTS,
                        r.noExcl && !IsPut(r.typ))
  {
    hide Exact, Inv, Almost, ServePut, ServeGet, Lookup, FreeWay, Effect;
    InvFacts(g, d, c);
    var r := d.pend[c].value;
    var x, now := r.addr, d.child[c][r.addr];
    var race := CheckForMESIRace(r.typ, now, r.init);
    var d0 := d.(pend := d.pend[c := None]);
    Received(g, d, c);
    if !race.skip {
      var k := Lookup(g, d, x);
      if k != -1 {
        Tagged(g, d0, k);
        if IsPut(race.typ) {
          PutEffect(d0, k, x, c, race.typ);
          PutFull(d0, k, x, c, race.typ);
          SameEffect(d, d0, Serve(g, d, c), x, c, race.typ, false);
        } else {
          GetEffect(d0, k, x, c, race.typ, r.noExcl);
          GetFull(d0, k, x, c, race.typ, r.noExcl);
          SameEffect(d, d0, Serve(g, d, c), x, c, race.typ, r.noExcl);
        }
      } else {
        NotHeld(g, d, x, c);
        var f := FreeWay(g, d, x);
        if f != -1 {
          SameLookup(g, d, d0, x);
          TakeWay(g, d0, f, x);
          var d1 := d0.(tags := d0.tags[f := x]);
          GetEffect(d1, f, x, c, race.typ, r.noExcl);
          GetFull(d1, f, x, c, race.typ, r.noExcl);
          SameEffect(d, d1, Serve(g, d, c), x, c, race.typ, r.noExcl);
        }
      }
    }
  }

  lemma SameEffect(d: Dir, d0: Dir, e: Dir, x: nat, c: nat, t: AccessType, noExcl: bool)
    requires Effect(d0, e, x, c, t, noExcl) && d0.child == d.child
    ensures Effect(d, e, x, c, t, noExcl)
  {
  }

  /** A failed assertion is never forgotten by a later step. */
  lemma FailuresStay(g: Config, d: Dir, step: Step)
    requires Enabled(g, d, step)
    ensures d.bad ==> Next(g, d, step).bad
  {
    hide Lookup, FreeWay, GetS, GetX, Put;
  }

  lemma InvFacts(g: Config, d: Dir, c: nat)
    requires Inv(g, d) && c < Children(g) && d.pend[c].Some?
    ensures Fits(g, d) && !d.bad && d.pend[c].value.addr in d.child[c]
    ensures RaceOk(d.pend[c].value.typ, d.pend[c].value.init, d.child[c][d.pend[c].value.addr])
  {
    assert PendOk(d.child[c], d.pend[c]);
  }

  lemma Received(g: Config, d: Dir, c: nat)
    requires Inv(g, d) && c < Children(g)
    ensures Inv(g, d.(pend := d.pend[c := None]))
  {
    hide FramesOk, TagsOk, Exact;
    var e := d.(pend := d.pend[c := None]);
    forall k | 0 <= k < |e.tags| ensures WayOk(e, k) { assert WayOk(d, k); }
  }

  lemma Tagged(g: Config, d: Dir, k: nat)
    requires Inv(g, d) && k < |d.tags| && d.tags[k] >= 0
    ensures Almost(g, d, k) && Exact(LineAt(d, k, d.tags[k]))
  {
    hide Exact;
    assert WayOk(d, k);
  }

  lemma NotHeld(g: Config, d: Dir, x: nat, c: nat)
    requires Inv(g, d) && Lookup(g, d, x) == -1 && c < Children(g) && x in d.child[c]
    ensures d.child[c][x] == I
  {
    hide WayOk, FramesOk, PendOk;
    assert x !in d.tags;
  }

  lemma SameLookup(g: Config, d: Dir, e: Dir, x: nat)
    requires Fits(g, d) && Fits(g, e) && d.tags == e.tags
    ensures Lookup(g, d, x) == Lookup(g, e, x) && FreeWay(g, d, x) == FreeWay(g, e, x)
  {
  }

  lemma StopOk(g: Config, d: Dir)
    requires Inv(g, d)
    ensures Inv(g, d.(full := true))
  {
    hide FramesOk, TagsOk, Exact, PendOk;
    var e := d.(full := true);
    forall k | 0 <= k < |e.tags| ensures WayOk(e, k) { assert WayOk(d, k); }
  }

  lemma PutFull(d: Dir, k: nat, x: nat, c: nat, t: AccessType)
    requires k < |d.entries| == |d.tags| && c < |d.child|
    ensures var e := ServePut(d, k, x, c, t); e.full == d.full && e.pend == d.pend
  {
  }

  lemma GetFull(d: Dir, k: nat, x: nat, c: nat, t: AccessType, noExcl: bool)
    requires k < |d.entries| == |d.tags| && c < |d.child|
    ensures var e := ServeGet(d, k, x, c, t, noExcl); e.full == d.full && e.pend == d.pend
  {
  }

  // ------------------------------------------------------------ steps of the children

  /** Allocating a frame changes no state: a line that is not allocated counts as invalid. */
  lemma AllocateColumns(d: Dir, c: nat, m: map<nat, MesiState>, y: nat)
    requires c < |d.child| && forall x :: StateIn(m, x) == StateIn(d.child[c], x)
    ensures Column(d.child[c := m], y) == Column(d.child, y)
  {
  }

  lemma SameColumns(g: Config, d: Dir, e: Dir)
    requires Inv(g, d) && Fits(g, e) && e == d.(child := e.child)
    requires forall y :: Column(e.child, y) == Column(d.child, y)
    requires FramesOk(g, e.child) && forall c :: 0 <= c < |e.child| ==> PendOk(e.child[c], e.pend[c])
    ensures Inv(g, e)
  {
    hide Exact, FramesOk, PendOk, TagsOk;
    forall c, x | 0 <= c < |e.child| && x in e.child[c] && e.child[c][x] != I
      ensures x in e.tags
    {
      assert Column(e.child, x)[c] == Column(d.child, x)[c];
    }
    forall k | 0 <= k < |e.tags|
      ensures WayOk(e, k)
    {
      assert WayOk(d, k);
    }
  }

  lemma AllocateFrame(g: Config, m: map<nat, MesiState>, c: nat, x: nat, v: Option<nat>, s: nat)
    requires x !in m && (v.Some? ==> v.value in m && g.childSet(c, v.value) == g.childSet(c, x))
    ensures var n := Set(if v.Some? then m - {v.value} else m, x, I);
            var f := Frames(g, m, c, s);
            |Frames(g, n, c, s)| == |f| + (if s == g.childSet(c, x) && v.None? then 1 else 0)
  {
    var n := Set(if v.Some? then m - {v.value} else m, x, I);
    var f := Frames(g, m, c, s);
    if s == g.childSet(c, x) {
      var kept := if v.Some? then f - {v.value} else f;
      assert Frames(g, n, c, s) == kept + {x};
      ReplaceCard(f, v, x);
    } else {
      assert Frames(g, n, c, s) == f;
    }
  }

  lemma ReplaceCard(f: set<nat>, v: Option<nat>, x: nat)
    requires x !in f && (v.Some? ==> v.value in f)
    ensures |(if v.Some? then f - {v.value} else f) + {x}| == |f| + (if v.None? then 1 else 0)
  {
  }

  lemma AllocateFrames(g: Config, d: Dir, step: Step)
    requires FitsFrames(g, d) && step.Allocate? && Enabled(g, d, step)
    ensures FramesOk(g, Next(g, d, step).child)
  {
    hide Frames, Set;
    forall b: nat, s: nat | b < Children(g)
      ensures |Frames(g, Next(g, d, step).child[b], b, s)| <= g.childAssoc[b]
    {
      if b == step.c {
        AllocateFrame(g, d.child[b], b, step.x, step.victim, s);
      }
    }
  }

  ghost predicate FitsFrames(g: Config, d: Dir) {
    Fits(g, d) && FramesOk(g, d.child)
  }

  lemma AllocateOk(g: Config, d: Dir, step: Step)
    requires Inv(g, d) && step.Allocate? && Enabled(g, d, step)
    ensures Inv(g, Next(g, d, step))
  {
    hide FramesOk, WayOk, Covered, TagsOk, Frames, Column;
    var e := Next(g, d, step);
    AllocateFrames(g, d, step);
    forall y
      ensures Column(e.child, y) == Column(d.child, y)
    {
      AllocateColumns(d, step.c, e.child[step.c], y);
    }
    SameColumns(g, d, e);
  }

  lemma UpgradeOk(g: Config, d: Dir, step: Step)
    requires Inv(g, d) && step.Upgrade? && Enabled(g, d, step)
    ensures Inv(g, Next(g, d, step))
  {
    hide Exact, FramesOk, TagsOk, Covered;
    var c, x, e := step.c, step.x, Next(g, d, step);
    UpgradeRest(g, d, step);
    forall k | 0 <= k < |e.tags|
      ensures WayOk(e, k)
    {
      assert WayOk(d, k);
      if d.tags[k] == x {
        var l := LineAt(d, k, x);
        SilentExact(l, c);
        assert LineAt(e, k, x) == l.(st := l.st[c := M]);
      } else if d.tags[k] >= 0 {
        assert Column(e.child, d.tags[k]) == Column(d.child, d.tags[k]);
      }
    }
  }

  lemma UpgradeRest(g: Config, d: Dir, step: Step)
    requires FitsFrames(g, d) && Covered(d) && step.Upgrade? && Enabled(g, d, step)
    ensures var e := Next(g, d, step); FramesOk(g, e.child) && Covered(e)
  {
    var c, x, e := step.c, step.x, Next(g, d, step);
    forall b: nat, s: nat | b < Children(g)
      ensures |Frames(g, e.child[b], b, s)| <= g.childAssoc[b]
    {
      assert Frames(g, e.child[b], b, s) == Frames(g, d.child[b], b, s);
    }
    assert x in d.tags;
  }

  lemma SendOk(g: Config, d: Dir, step: Step)
    requires Inv(g, d) && (step.SendGet? || step.SendPut?) && Enabled(g, d, step)
    ensures Inv(g, Next(g, d, step))
  {
    hide Exact, FramesOk, TagsOk;
    var e := Next(g, d, step);
    forall k | 0 <= k < |e.tags| ensures WayOk(e, k) { assert WayOk(d, k); }
  }

  lemma StepOk(g: Config, d: Dir, step: Step)
    requires Inv(g, d) && Enabled(g, d, step)
    ensures Inv(g, Next(g, d, step))
  {
    hide Inv, Serve;
    match step {
      case Allocate(_, _, _) => AllocateOk(g, d, step);
      case Upgrade(_, _) => UpgradeOk(g, d, step);
      case SendGet(_, _, _, _) => SendOk(g, d, step);
      case SendPut(_, _) => SendOk(g, d, step);
      case Serving(c) => ServeOk(g, d, c);
    }
  }

  lemma InitialInv(g: Config, d: Dir)
    requires Initial(g, d)
    ensures Inv(g, d)
  {
    forall c: nat, s: nat | c < Children(g)
      ensures |Frames(g, d.child[c], c, s)| <= g.childAssoc[c]
    {
      assert Frames(g, d.child[c], c, s) == {};
    }
  }

  lemma {:induction false} RunInv(g: Config, d: Dir, steps: seq<Step>, e: Dir)
    requires Inv(g, d) && Run(g, d, steps, e)
    ensures Inv(g, e)
    decreases |steps|
  {
    hide Inv, Next, Enabled;
    if steps != [] {
      StepOk(g, d, steps[0]);
      RunInv(g, Next(g, d, steps[0]), steps[1..], e);
    }
  }

  // ----------------------------------------------------------------------- capacity

  /** The directory has at least as many ways as the children together, and lines that share
      a directory set share a set in every child. */
  ghost predicate Ample(g: Config)
    requires ValidConfig(g)
  {
    && g.ways >= Sum(g.childAssoc, Children(g))
    && forall c: nat, x: nat, y: nat :: DirSet(g, x) == DirSet(g, y) ==> g.childSet(c, x) == g.childSet(c, y)
  }

  /** The lines other than x in the frames of the first k children that compete with x. */
  ghost function Rivals(g: Config, child: seq<map<nat, MesiState>>, x: nat, k: nat): (s: set<int>)
    requires k <= |child|
  {
    if k == 0 then {} else Rivals(g, child, x, k - 1) + (Frames(g, child[k - 1], k - 1, g.childSet(k - 1, x)) - {x})
  }

  /** The child that asks for x has already allocated a frame for it. */
  lemma {:induction false} RivalsSize(g: Config, child: seq<map<nat, MesiState>>, x: nat, r: nat, k: nat)
    requires |child| == Children(g) && FramesOk(g, child) && r < Children(g) && x in child[r] && k <= Children(g)
    ensures |Rivals(g, child, x, k)| + (if r < k then 1 else 0) <= Sum(g.childAssoc, k)
  {
    hide FramesOk, Frames, Rivals;
    if k > 0 {
      RivalsSize(g, child, x, r, k - 1);
      RivalsGrow(g, child, x, k - 1);
    } else {
      NoRivals(g, child, x);
    }
  }

  lemma NoRivals(g: Config, child: seq<map<nat, MesiState>>, x: nat)
    ensures |Rivals(g, child, x, 0)| == 0
  {
  }

  /** A child adds no more rivals than it has frames, and one fewer if it holds x. */
  lemma RivalsGrow(g: Config, child: seq<map<nat, MesiState>>, x: nat, c: nat)
    requires |child| == Children(g) && FramesOk(g, child) && c < Children(g)
    ensures |Rivals(g, child, x, c + 1)| + (if x in child[c] then 1 else 0)
         <= |Rivals(g, child, x, c)| + g.childAssoc[c]
  {
    var f: set<int> := Frames(g, child[c], c, g.childSet(c, x));
    assert |Frames(g, child[c], c, g.childSet(c, x))| <= g.childAssoc[c];
    WithoutCard(f, x);
    UnionCard(Rivals(g, child, x, c), f - {x});
  }

  lemma WithoutCard(f: set<int>, x: int)
    ensures |f - {x}| + (if x in f then 1 else 0) == |f|
  {
    if x !in f {
      assert f - {x} == f;
    }
  }

  lemma UnionCard(a: set<int>, b: set<int>)
    ensures |a + b| <= |a| + |b|
  {
  }

  lemma {:induction false} InRivals(g: Config, child: seq<map<nat, MesiState>>, x: nat, c: nat, y: nat, k: nat)
    requires c < k <= |child| && y in child[c] && y != x && g.childSet(c, y) == g.childSet(c, x)
    ensures y in Rivals(g, child, x, k)
  {
    if c < k - 1 {
      InRivals(g, child, x, c, y, k - 1);
    }
  }

  function TagSet(tags: seq<int>, lo: nat, n: nat): (s: set<int>)
    requires lo + n <= |tags|
  {
    if n == 0 then {} else TagSet(tags, lo, n - 1) + {tags[lo + n - 1]}
  }

  lemma {:induction false} WayOfTag(tags: seq<int>, lo: nat, n: nat, y: int) returns (k: nat)
    requires lo + n <= |tags| && y in TagSet(tags, lo, n)
    ensures lo <= k < lo + n && tags[k] == y
  {
    if y == tags[lo + n - 1] {
      k := lo + n - 1;
    } else {
      k := WayOfTag(tags, lo, n - 1, y);
    }
  }

  lemma {:induction false} TagSetSize(tags: seq<int>, lo: nat, n: nat)
    requires lo + n <= |tags| && forall i, j :: lo <= i < j < lo + n ==> tags[i] != tags[j]
    ensures |TagSet(tags, lo, n)| == n
  {
    if n > 0 {
      TagSetSize(tags, lo, n - 1);
      if tags[lo + n - 1] in TagSet(tags, lo, n - 1) {
        var k := WayOfTag(tags, lo, n - 1, tags[lo + n - 1]);
      }
    }
  }

  lemma SameSet(s: nat, t: nat, w: nat, k: int)
    requires s * w <= k < s * w + w && t * w <= k < t * w + w
    ensures s == t
  {
    if s < t {
      SetsApart(s, t, w);
    } else if t < s {
      SetsApart(t, s, w);
    }
  }

  lemma SetsApart(s: nat, t: nat, w: nat)
    requires s < t
    ensures s * w + w <= t * w
  {
    assert (s + 1) * w <= t * w;
  }

  /** A tag in the set of x is a line that some child has in a frame competing with x. */
  lemma TagIsRival(g: Config, d: Dir, x: nat, k: nat)
    requires Inv(g, d) && Ample(g) && InSet(g, x, k) && k < |d.tags| && d.tags[k] >= 0 && d.tags[k] != x
    ensures d.tags[k] in Rivals(g, d.child, x, Children(g))
  {
    hide FramesOk, PendOk, Covered;
    var y: nat := d.tags[k];
    assert WayOk(d, k);
    var c :| c in d.entries[k].sharers;
    assert LineAt(d, k, y).st[c] != I;
    SameSet(DirSet(g, x), DirSet(g, y), g.ways, k);
    InRivals(g, d.child, x, c, y, Children(g));
  }

  /** Capacity: if the directory is ample, preinsert finds a free way for every line without a
      tag that a child has made room for. */
  lemma FreeWayExists(g: Config, d: Dir, x: nat, r: nat)
    requires Inv(g, d) && Ample(g) && r < Children(g) && x in d.child[r] && Lookup(g, d, x) == -1
    ensures FreeWay(g, d, x) != -1
  {
    hide WayOk, PendOk, Covered, FramesOk;
    if FreeWay(g, d, x) == -1 {
      var lo, t := First(g, x), TagSet(d.tags, First(g, x), g.ways);
      var rivals := Rivals(g, d.child, x, Children(g));
      forall y | y in t
        ensures y in rivals
      {
        var k := WayOfTag(d.tags, lo, g.ways, y);
        TagIsRival(g, d, x, k);
      }
      TagSetSize(d.tags, lo, g.ways);
      SubsetSize(t, rivals);
      RivalsSize(g, d.child, x, r, Children(g));
      assert false;
    }
  }

  lemma {:induction false} NeverFull(g: Config, d: Dir, steps: seq<Step>, e: Dir)
    requires Inv(g, d) && Ample(g) && !d.full && Run(g, d, steps, e)
    ensures !e.full
    decreases |steps|
  {
    hide Inv, Ample, Serve, Lookup, FreeWay;
    if steps != [] {
      StepOk(g, d, steps[0]);
      if steps[0].Serving? {
        var c := steps[0].c;
        ServeOk(g, d, c);
        if Serve(g, d, c).full {
          FreeWayExists(g, d, d.pend[c].value.addr, c);
        }
      }
      NeverFull(g, Next(g, d, steps[0]), steps[1..], e);
    }
  }

  // ----------------------------------------------------------------------- theorems

  /** In every run no assertion of the protocol fails, the tags are exactly the lines that
      some child holds, and the sharers of an entry are exactly the children that hold its
      line. */
  lemma DirectoryExact(g: Config, d: Dir, steps: seq<Step>, e: Dir)
    requires Initial(g, d) && Run(g, d, steps, e)
    ensures !e.bad && Fits(g, e)
    ensures forall x: nat :: x in e.tags <==> exists c :: 0 <= c < |e.child| && StateIn(e.child[c], x) != I
    ensures forall k, c :: 0 <= k < |e.tags| && e.tags[k] >= 0 ==>
              (c in e.entries[k].sharers <==> 0 <= c < |e.child| && StateIn(e.child[c], e.tags[k]) != I)
    ensures forall k :: 0 <= k < |e.tags| ==> e.entries[k].numSharers == |e.entries[k].sharers|
  {
    InitialInv(g, d);
    RunInv(g, d, steps, e);
    forall x: nat
      ensures x in e.tags <==> exists c :: 0 <= c < |e.child| && StateIn(e.child[c], x) != I
    {
      TaggedIffHeld(g, e, x);
    }
    forall k | 0 <= k < |e.tags|
      ensures e.entries[k].numSharers == |e.entries[k].sharers|
      ensures forall c :: e.tags[k] >= 0 ==>
                (c in e.entries[k].sharers <==> 0 <= c < |e.child| && StateIn(e.child[c], e.tags[k]) != I)
    {
      SharersExact(g, e, k);
    }
  }

  lemma TaggedIffHeld(g: Config, d: Dir, x: nat)
    requires Inv(g, d)
    ensures x in d.tags <==> exists c :: 0 <= c < |d.child| && StateIn(d.child[c], x) != I
  {
    if x in d.tags {
      var k :| 0 <= k < |d.tags| && d.tags[k] == x;
      assert WayOk(d, k);
      var c :| c in d.entries[k].sharers;
      assert LineAt(d, k, x).st[c] != I;
    }
  }

  lemma SharersExact(g: Config, d: Dir, k: nat)
    requires Inv(g, d) && k < |d.tags|
    ensures d.entries[k].numSharers == |d.entries[k].sharers|
    ensures forall c :: d.tags[k] >= 0 ==>
              (c in d.entries[k].sharers <==> 0 <= c < |d.child| && StateIn(d.child[c], d.tags[k]) != I)
  {
    assert WayOk(d, k);
    if d.tags[k] >= 0 {
      var l := LineAt(d, k, d.tags[k]);
      assert forall c :: 0 <= c < |d.child| ==> l.st[c] == StateIn(d.child[c], d.tags[k]);
    }
  }

  /** In every run a child with write permission is the only one with a copy. */
  lemma DirectorySingleWriter(g: Config, d: Dir, steps: seq<Step>, e: Dir, x: nat, b: nat, c: nat)
    requires Initial(g, d) && Run(g, d, steps, e) && b < |e.child| && c < |e.child| && b != c
    requires HasExcl(StateIn(e.child[b], x))
    ensures StateIn(e.child[c], x) == I
  {
    InitialInv(g, d);
    RunInv(g, d, steps, e);
    assert x in e.tags;
    var k :| 0 <= k < |e.tags| && e.tags[k] == x;
    assert WayOk(e, k);
    SingleOwner(LineAt(e, k, x), b, c);
  }

  /** With an ample directory preinsert never fails. */
  lemma DirectoryNeverOverflows(g: Config, d: Dir, steps: seq<Step>, e: Dir)
    requires Initial(g, d) && Ample(g) && Run(g, d, steps, e)
    ensures !e.full
  {
    InitialInv(g, d);
    NeverFull(g, d, steps, e);
  }
}

/** The coherence directory: a set-associative tag array with one sharer entry per way, over
    children that hold lines in MESI states.

    Write-back data lines only.  The directory keeps no state of its own for a line, so
    granting exclusivity depends on the sharers alone. */
module Directory {
  import opened Counting
  import opened Mesi

  /** The states of one line in the children, and its directory entry.  bad: an assertion of
      the source has failed. */
  datatype Line = Line(st: seq<MesiState>, entry: Entry, bad: bool)

  // ------------------------------------------------------------- the top controller

  /** Child c receives an invalidation or a downgrade. */
  function InvalidateOne(l: Line, ty: InvType, c: nat): (r: Line)
    requires c < |l.st|
    ensures |r.st| == |l.st|
  {
    var m := l.st[c];
    var ok := m != I && (ty == INVX ==> HasExcl(m));
    Line(l.st[c := if ty == INVX then S else I],
         if ty == INV then l.entry.(sharers := l.entry.sharers - {c}) else l.entry, l.bad || !ok)
  }

  /** The loop of CDMESITopCC::sendInvalidates from child c on, and how many it sends. */
  function InvalidateFrom(l: Line, ty: InvType, c: nat): (r: (Line, nat))
    requires c <= |l.st|
    ensures |r.0.st| == |l.st|
    decreases |l.st| - c
  {
    if c == |l.st| then (l, 0)
    else if c in l.entry.sharers then
      var (m, sent) := InvalidateFrom(InvalidateOne(l, ty, c), ty, c + 1);
      (m, sent + 1)
    else InvalidateFrom(l, ty, c + 1)
  }

  function InvalidateAll(l: Line, ty: InvType): (r: Line)
    ensures |r.st| == |l.st|
  {
    if (ty == INVX && !l.entry.IsExclusive()) || l.entry.IsEmpty() then l
    else
      var (m, sent) := InvalidateFrom(l, ty, 0);
      var e := m.entry;
      var ok := sent == e.numSharers && (ty == INVX ==> e.exclusive && e.numSharers == 1);
      m.(entry := if ty == INV then e.(numSharers := 0) else e.(exclusive := false), bad := m.bad || !ok)
  }

  /** CDMESITopCC::processAccess, GETS. */
  function GetS(l: Line, c: nat, noExcl: bool): (r: Line)
    requires c < |l.st|
    ensures |r.st| == |l.st|
  {
    var e := l.entry;
    if e.IsEmpty() && !noExcl then Line(l.st[c := E], Entry(1, e.sharers + {c}, true), l.bad)
    else
      var l0 := l.(bad := l.bad || c in e.sharers);
      var l1 := if e.IsExclusive() then InvalidateAll(l0, INVX) else l0;
      var e1 := l1.entry;
      Line(l1.st[c := S], Entry(e1.numSharers + 1, e1.sharers + {c}, false), l1.bad || e1.IsExclusive())
  }

  /** CDMESITopCC::processAccess, GETX. */
  function GetX(l: Line, c: nat): (r: Line)
    requires c < |l.st|
    ensures |r.st| == |l.st|
  {
    var e := l.entry;
    var l0 := if c in e.sharers
              then l.(entry := e.(sharers := e.sharers - {c}, numSharers := e.numSharers - 1),
                      bad := l.bad || e.IsExclusive())
              else l;
    var l1 := InvalidateAll(l0, INV);
    var e1 := l1.entry;
    Line(l1.st[c := M], Entry(e1.numSharers + 1, e1.sharers + {c}, true), l1.bad || e1.numSharers + 1 != 1)
  }

  /** CDMESITopCC::processWriteBack; an entry that becomes empty is cleared. */
  function Put(l: Line, c: nat, t: AccessType): (r: Line)
    requires c < |l.st|
    ensures |r.st| == |l.st|
  {
    var e := l.entry;
    var ok := c in e.sharers && (t == PUTX ==> e.IsExclusive());
    var e1 := e.(sharers := e.sharers - {c}, numSharers := e.numSharers - 1);
    Line(l.st[c := I], if e1.IsEmpty() then CLEAR else e1, l.bad || !ok)
  }

  lemma {:induction false} LoopKeepsFailure(l: Line, ty: InvType, c: nat)
    requires c <= |l.st| && l.bad
    ensures InvalidateFrom(l, ty, c).0.bad
    decreases |l.st| - c
  {
    if c < |l.st| {
      LoopKeepsFailure(if c in l.entry.sharers then InvalidateOne(l, ty, c) else l, ty, c + 1);
    }
  }

  /** A failed assertion is never forgotten, by no access. */
  lemma FailureStays(l: Line, c: nat, t: AccessType, noExcl: bool)
    requires c < |l.st| && l.bad
    ensures GetS(l, c, noExcl).bad && GetX(l, c).bad && Put(l, c, t).bad
  {
    hide InvalidateFrom;
    var e := l.entry;
    LoopKeepsFailure(l, INVX, 0);
    LoopKeepsFailure(l, INV, 0);
    LoopKeepsFailure(l.(entry := e.(sharers := e.sharers - {c}, numSharers := e.numSharers - 1)), INV, 0);
    assert l.(bad := true) == l;
  }

  // ------------------------------------------------------------------ one line

  /** The entry describes the children exactly: one exclusive owner, or sharers only. */
  ghost predicate Exact(l: Line) {
    && !l.bad
    && (forall c :: c in l.entry.sharers <==> 0 <= c < |l.st| && l.st[c] != I)
    && l.entry.numSharers == |l.entry.sharers|
    && (if l.entry.exclusive
        then |l.entry.sharers| <= 1 && forall c :: c in l.entry.sharers ==> HasExcl(l.st[c])
        else forall c :: c in l.entry.sharers ==> l.st[c] == S)
  }

  lemma {:induction false} InvLoop(l: Line, c: nat)
    requires c <= |l.st| && !l.bad && forall x :: x in l.entry.sharers ==> c <= x < |l.st| && l.st[x] != I
    ensures var r := InvalidateFrom(l, INV, c);
            && !r.0.bad && r.1 == |l.entry.sharers| && r.0.entry == l.entry.(sharers := {})
            && forall x :: 0 <= x < |l.st| ==> r.0.st[x] == if x in l.entry.sharers then I else l.st[x]
    decreases |l.st| - c
  {
    if c < |l.st| {
      if c in l.entry.sharers {
        InvLoop(InvalidateOne(l, INV, c), c + 1);
      } else {
        InvLoop(l, c + 1);
      }
    } else {
      assert l.entry.sharers == {};
    }
  }

  lemma {:induction false} NoSharersLeft(l: Line, ty: InvType, c: nat)
    requires c <= |l.st| && forall x :: x in l.entry.sharers ==> x < c
    ensures InvalidateFrom(l, ty, c) == (l, 0)
    decreases |l.st| - c
  {
    if c < |l.st| {
      NoSharersLeft(l, ty, c + 1);
    }
  }

  lemma {:induction false} DowngradeLoop(l: Line, o: nat, c: nat)
    requires c <= o < |l.st| && !l.bad && l.entry.sharers == {o} && HasExcl(l.st[o])
    ensures InvalidateFrom(l, INVX, c) == (l.(st := l.st[o := S]), 1)
    decreases o - c
  {
    if c < o {
      DowngradeLoop(l, o, c + 1);
    } else {
      NoSharersLeft(InvalidateOne(l, INVX, o), INVX, o + 1);
    }
  }

  lemma AddOwner(l: Line, c: nat)
    requires Exact(l) && c < |l.st| && l.entry.IsEmpty()
    ensures l.entry.sharers == {} && Exact(Line(l.st[c := E], Entry(1, l.entry.sharers + {c}, true), l.bad))
  {
    assert l.entry.sharers == {};
    assert l.entry.sharers + {c} == {c};
  }

  lemma AddSharer(l: Line, c: nat)
    requires Exact(l) && c < |l.st| && l.st[c] == I && !l.entry.IsExclusive()
    ensures Exact(Line(l.st[c := S], Entry(l.entry.numSharers + 1, l.entry.sharers + {c}, false), l.bad))
  {
    assert |l.entry.sharers + {c}| == |l.entry.sharers| + 1;
  }

  /** The owner keeps a copy that it may only read. */
  lemma DowngradeOwner(l: Line)
    requires Exact(l) && l.entry.IsExclusive()
    ensures var r := InvalidateAll(l, INVX);
            && Exact(r) && r.entry == l.entry.(exclusive := false)
            && forall x :: 0 <= x < |l.st| ==> r.st[x] == if HasExcl(l.st[x]) then S else l.st[x]
  {
    hide InvalidateFrom;
    var e := l.entry;
    var o :| o in e.sharers;
    assert e.sharers == {o} by {
      assert |e.sharers - {o}| == 0;
    }
    DowngradeLoop(l, o, 0);
  }

  /** A read: the reader gets a copy, exclusive exactly if it may be and nobody else has one; an
      owner is downgraded, everybody else is as before. */
  lemma GetSExact(l: Line, c: nat, noExcl: bool)
    requires Exact(l) && c < |l.st| && l.st[c] == I
    ensures var r := GetS(l, c, noExcl);
            && Exact(r) && r.entry.sharers == l.entry.sharers + {c}
            && r.st[c] == (if !noExcl && (forall x :: 0 <= x < |l.st| ==> l.st[x] == I) then E else S)
            && forall x :: 0 <= x < |l.st| && x != c ==>
                 r.st[x] == if HasExcl(l.st[x]) then S else l.st[x]
  {
    hide InvalidateAll, Exact;
    ExactFacts(l);
    EmptyIffUnheld(l);
    if l.entry.IsEmpty() && !noExcl {
      AddOwner(l, c);
    } else if l.entry.IsExclusive() {
      DowngradeOwner(l);
      AddSharer(InvalidateAll(l, INVX), c);
    } else {
      AddSharer(l, c);
    }
  }

  lemma EmptyIffUnheld(l: Line)
    requires Exact(l)
    ensures l.entry.IsEmpty() <==> forall x :: 0 <= x < |l.st| ==> l.st[x] == I
  {
    if l.entry.IsEmpty() {
      assert l.entry.sharers == {};
    } else {
      var x :| x in l.entry.sharers;
      assert l.st[x] != I;
    }
  }

  lemma ExactFacts(l: Line)
    requires Exact(l)
    ensures !l.bad && l.entry.numSharers == |l.entry.sharers|
    ensures forall c :: c in l.entry.sharers <==> 0 <= c < |l.st| && l.st[c] != I
    ensures !l.entry.IsExclusive() ==> forall c :: 0 <= c < |l.st| ==> !HasExcl(l.st[c])
  {
    if !l.entry.IsExclusive() && l.entry.exclusive {
      assert l.entry.sharers == {};
    }
  }

  /** The entry that a writer leaves to be invalidated. */
  function WithoutWriter(l: Line, c: nat): (r: Line) {
    var e := l.entry;
    if c in e.sharers then l.(entry := e.(sharers := e.sharers - {c}, numSharers := e.numSharers - 1)) else l
  }

  lemma DropRequester(l: Line, c: nat)
    requires Exact(l) && c < |l.st| && !HasExcl(l.st[c])
    ensures var r := WithoutWriter(l, c);
            && (c in l.entry.sharers ==> !l.entry.IsExclusive())
            && r.st == l.st && !r.bad && r.entry.sharers == l.entry.sharers - {c}
            && r.entry.numSharers == |r.entry.sharers|
            && forall x :: x in r.entry.sharers ==> 0 <= x < |l.st| && l.st[x] != I
  {
  }

  lemma InvalidateSharers(l: Line)
    requires !l.bad && l.entry.numSharers == |l.entry.sharers|
    requires forall x :: x in l.entry.sharers ==> 0 <= x < |l.st| && l.st[x] != I
    ensures var r := InvalidateAll(l, INV);
            && !r.bad && r.entry.sharers == {} && r.entry.numSharers == 0
            && forall x :: 0 <= x < |l.st| ==> r.st[x] == if x in l.entry.sharers then I else l.st[x]
  {
    hide InvalidateFrom;
    if l.entry.numSharers == 0 {
      assert l.entry.sharers == {};
    } else {
      InvLoop(l, 0);
    }
  }

  lemma AloneExact(st: seq<MesiState>, c: nat)
    requires c < |st| && forall x :: 0 <= x < |st| && x != c ==> st[x] == I
    ensures Exact(Line(st[c := M], Entry(1, {c}, true), false))
  {
  }

  /** A write: the writer ends up alone. */
  lemma GetXExact(l: Line, c: nat)
    requires Exact(l) && c < |l.st| && !HasExcl(l.st[c])
    ensures var r := GetX(l, c);
            && Exact(r) && r.st[c] == M && r.entry.sharers == {c}
            && forall x :: 0 <= x < |l.st| && x != c ==> r.st[x] == I
  {
    hide InvalidateAll, Exact;
    ExactFacts(l);
    DropRequester(l, c);
    var l0 := WithoutWriter(l, c);
    InvalidateSharers(l0);
    var l1 := InvalidateAll(l0, INV);
    assert {} + {c} == {c};
    AloneExact(l1.st, c);
  }

  /** An eviction: the child lets go, everybody else is as before. */
  lemma PutExact(l: Line, c: nat, t: AccessType)
    requires Exact(l) && c < |l.st| && l.st[c] != I && (t == PUTX ==> HasExcl(l.st[c]))
    ensures var r := Put(l, c, t);
            && Exact(r) && r.st == l.st[c := I] && r.entry.sharers == l.entry.sharers - {c}
            && (r.entry.sharers == {} ==> r.entry == CLEAR)
  {
    var e := l.entry;
    assert |e.sharers - {c}| == |e.sharers| - 1;
    assert c in e.sharers && |e.sharers| >= 1;
  }

  /** A write hit on an exclusive copy. */
  lemma SilentExact(l: Line, c: nat)
    requires Exact(l) && c < |l.st| && HasExcl(l.st[c])
    ensures Exact(l.(st := l.st[c := M]))
  {
  }

  /** Single writer or many readers. */
  lemma SingleOwner(l: Line, c: nat, x: nat)
    requires Exact(l) && c < |l.st| && x < |l.st| && c != x && HasExcl(l.st[c])
    ensures l.st[x] == I
  {
    if l.st[x] != I {
      assert {c, x} <= l.entry.sharers && |{c, x}| == 2;
      SubsetSize({c, x}, l.entry.sharers);
    }
  }
}

/** What an invalidation or downgrade does to a whole subtree of caches. */
module MesiInvalidation {
  import opened Mesi

  // ------------------------------------------------------- the local invariant

  /** Every sharer bit belongs to a child with a copy, the count is right, and the
      copies are one exclusive copy or only shared ones. */
  ghost predicate SharersOk(par: seq<nat>, h: Hier, p: nat)
    requires Sized(par, h) && p < |par|
  {
    var e := h.dir[p];
    && e.numSharers == |e.sharers| && (e.exclusive ==> e.numSharers <= 1)
    && (forall c: nat :: c in e.sharers ==>
          IsChild(par, c, p) && (if e.IsExclusive() then HasExcl(h.st[c]) else h.st[c] == S))
  }

  /** The directory of p is exact, and p itself may hand out what its children hold. */
  ghost predicate DirOk(par: seq<nat>, h: Hier, p: nat)
    requires Sized(par, h) && p < |par|
  {
    && SharersOk(par, h, p)
    && (forall c: nat :: IsChild(par, c, p) && h.st[c] != I ==> c in h.dir[p].sharers)
    && (h.dir[p].IsExclusive() ==> HasExcl(h.st[p]))
    && (h.dir[p].sharers != {} ==> h.st[p] != I)
  }

  /** A copy that is not the latest version is covered by an exclusive child
      that is dirty or itself covered. */
  ghost predicate FreshOk(par: seq<nat>, h: Hier, latest: nat, u: nat)
    requires Sized(par, h) && u < |par|
  {
    h.st[u] != I && h.ver[u] != latest ==>
      && h.dir[u].IsExclusive()
      && (forall c: nat :: c in h.dir[u].sharers ==> c < |par| && (h.st[c] == M || h.ver[c] != latest))
  }

  ghost predicate Local(par: seq<nat>, h: Hier, latest: nat, u: nat)
    requires Sized(par, h) && u < |par|
  {
    DirOk(par, h, u) && FreshOk(par, h, latest, u)
  }

  ghost predicate LocalBelow(par: seq<nat>, h: Hier, latest: nat, v: nat)
    requires Tree(par) && Sized(par, h)
  {
    forall u: nat :: Desc(par, u, v) ==> Local(par, h, latest, u)
  }

  // ------------------------------------------------------------- tree lemmas

  lemma {:induction false} DescLe(par: seq<nat>, u: nat, v: nat)
    requires Tree(par) && Desc(par, u, v)
    ensures v <= u
  {
    if u != v {
      DescLe(par, par[u], v);
    }
  }

  lemma {:induction false} DescTrans(par: seq<nat>, u: nat, v: nat, w: nat)
    requires Tree(par) && Desc(par, u, v) && Desc(par, v, w)
    ensures Desc(par, u, w)
  {
    if u != v {
      DescTrans(par, par[u], v, w);
    }
  }

  /** The ancestors of a node form a chain. */
  lemma {:induction false} DescChain(par: seq<nat>, u: nat, v: nat, w: nat)
    requires Tree(par) && Desc(par, u, v) && Desc(par, u, w)
    ensures Desc(par, v, w) || Desc(par, w, v)
  {
    if u != v && u != w {
      DescChain(par, par[u], v, w);
    }
  }

  lemma SiblingsDisjoint(par: seq<nat>, p: nat, x: nat, y: nat)
    requires Tree(par) && IsChild(par, x, p) && IsChild(par, y, p) && x != y
    ensures forall u: nat :: Desc(par, u, x) ==> !Desc(par, u, y)
  {
    forall u: nat | Desc(par, u, x)
      ensures !Desc(par, u, y)
    {
      if Desc(par, u, y) {
        DescChain(par, u, x, y);
        if Desc(par, x, y) {
          DescLe(par, p, y);
        } else {
          DescLe(par, p, x);
        }
      }
    }
  }

  lemma BelowChild(par: seq<nat>, p: nat, c: nat)
    requires Tree(par) && IsChild(par, c, p)
    ensures forall u: nat :: Desc(par, u, c) ==> Desc(par, u, p) && u != p
  {
    assert p < |par|;
    forall u: nat | Desc(par, u, c)
      ensures Desc(par, u, p) && u != p
    {
      assert Desc(par, c, p);
      DescTrans(par, u, c, p);
      DescLe(par, u, c);
    }
  }

  /** Every proper descendant lies below some child. */
  lemma {:induction false} DescViaChild(par: seq<nat>, u: nat, p: nat) returns (c: nat)
    requires Tree(par) && Desc(par, u, p) && u != p
    ensures IsChild(par, c, p) && Desc(par, u, c)
  {
    if par[u] == p {
      c := u;
    } else {
      c := DescViaChild(par, par[u], p);
    }
  }

  // ------------------------------------------------------------------ framing

  ghost predicate SameAt(h: Hier, k: Hier, u: nat)
    requires u < |h.st| == |h.dir| == |h.ver| && u < |k.st| == |k.dir| == |k.ver|
  {
    h.st[u] == k.st[u] && h.dir[u] == k.dir[u] && h.ver[u] == k.ver[u]
  }

  /** Local only looks at a node and its children. */
  lemma LocalFrame(par: seq<nat>, h: Hier, k: Hier, latest: nat, u: nat)
    requires Tree(par) && Sized(par, h) && Sized(par, k) && u < |par|
    requires Local(par, h, latest, u) && SameAt(h, k, u)
    requires forall c: nat :: IsChild(par, c, u) ==> k.st[c] == h.st[c] && k.ver[c] == h.ver[c]
    ensures Local(par, k, latest, u)
  {
  }

  /** If nothing in v's subtree changed, its invariants still hold. */
  lemma LocalBelowFrame(par: seq<nat>, h: Hier, k: Hier, latest: nat, v: nat)
    requires Tree(par) && Sized(par, h) && Sized(par, k) && v < |par|
    requires LocalBelow(par, h, latest, v)
    requires forall u: nat :: Desc(par, u, v) ==> SameAt(h, k, u)
    ensures LocalBelow(par, k, latest, v)
  {
    forall u: nat | Desc(par, u, v)
      ensures Local(par, k, latest, u)
    {
      forall c: nat | IsChild(par, c, u)
        ensures SameAt(h, k, c)
      {
        assert Desc(par, c, v);
      }
      LocalFrame(par, h, k, latest, u);
    }
  }

  // ----------------------------------------------- effect of an invalidation

  function Target(ty: InvType): MesiState {
    if ty == INVX then S else I
  }

  ghost predicate CanInval(m: MesiState, ty: InvType) {
    m != I && (ty == INVX ==> HasExcl(m))
  }

  /** Effect of MESICC::processInv on node v. */
  ghost predicate InvalidatedAt(par: seq<nat>, h: Hier, v: nat, ty: InvType, latest: nat, k: Hier, wb: bool)
    requires Tree(par) && Sized(par, h) && v < |par|
  {
    && Sized(par, k) && k.bad == h.bad
    && (forall u: nat :: u < |par| && !Desc(par, u, v) ==> SameAt(h, k, u))
    && (forall u: nat :: u < |par| ==> Weakened(h.st[u], k.st[u]))
    && (forall u: nat :: u < |par| ==> k.ver[u] == h.ver[u] || k.ver[u] == latest)
    && LocalBelow(par, k, latest, v)
    && k.st[v] == Target(ty)
    && k.ver[v] == latest
    && (if wb then HasExcl(h.st[v]) else h.st[v] != M && h.ver[v] == latest)
  }

  /** The sharers that a send loop standing at child c still has to visit. */
  function Remaining(h: Hier, p: nat, c: nat): set<nat>
    requires p < |h.dir|
  {
    set x | x in h.dir[p].sharers && x >= c
  }

  /** The node is outside every subtree that the loop will visit. */
  ghost predicate Untouched(par: seq<nat>, sh: set<nat>, p: nat, u: nat)
    requires Tree(par)
  {
    u != p && forall x :: x in sh ==> !Desc(par, u, x)
  }

  /** What the send loop of p needs of the sharers it will visit. */
  ghost predicate LoopReady(par: seq<nat>, h: Hier, p: nat, ty: InvType, c: nat, latest: nat)
    requires Tree(par) && Sized(par, h) && p < c <= |par|
  {
    forall x :: x in Remaining(h, p, c) ==>
      IsChild(par, x, p) && CanInval(h.st[x], ty) && LocalBelow(par, h, latest, x)
  }

  /** Effect of the send loop at p from child c on. */
  ghost predicate SentFrom(par: seq<nat>, h: Hier, p: nat, ty: InvType, c: nat, latest: nat,
                     k: Hier, wb: bool, sent: nat)
    requires Tree(par) && Sized(par, h) && p < c <= |par|
  {
    var sh := Remaining(h, p, c);
    && Sized(par, k) && k.bad == h.bad && sent == |sh|
    && (forall u: nat :: u < |par| && Untouched(par, sh, p, u) ==> SameAt(h, k, u))
    && (forall u: nat :: u < |par| ==> Weakened(h.st[u], k.st[u]))
    && (forall u: nat :: u < |par| ==> k.ver[u] == h.ver[u] || k.ver[u] == latest)
    && (forall x :: x in sh ==> x < |par| && k.st[x] == Target(ty) && LocalBelow(par, k, latest, x))
    && (forall x :: x in sh ==> x < |par| && k.ver[x] == latest)
    && k.st[p] == h.st[p]
    && k.dir[p] == h.dir[p].(sharers := if ty == INV then h.dir[p].sharers - sh else h.dir[p].sharers)
    && k.ver[p] == (if wb then latest else h.ver[p])
    && (!wb ==> forall x :: x in sh ==> x < |par| && h.st[x] != M && h.ver[x] == latest)
    && (wb ==> exists x :: x in sh && x < |par| && HasExcl(h.st[x]))
  }

  /** Effect of MESITopCC::sendInvalidates at p. */
  ghost predicate SentAll(par: seq<nat>, h: Hier, p: nat, ty: InvType, latest: nat, k: Hier, wb: bool)
    requires Tree(par) && Sized(par, h) && p < |par|
  {
    var e := h.dir[p];
    && Sized(par, k) && k.bad == h.bad
    && (forall u: nat :: u < |par| && Untouched(par, e.sharers, p, u) ==> SameAt(h, k, u))
    && (forall u: nat :: u < |par| ==> Weakened(h.st[u], k.st[u]))
    && (forall u: nat :: u < |par| ==> k.ver[u] == h.ver[u] || k.ver[u] == latest)
    && (forall x :: x in e.sharers ==>
          x < |par| && k.st[x] == Target(ty) && k.ver[x] == latest && LocalBelow(par, k, latest, x))
    && k.st[p] == h.st[p]
    && (if ty == INV then k.dir[p].sharers == {} && k.dir[p].numSharers == 0
        else k.dir[p].sharers == e.sharers && k.dir[p].numSharers == e.numSharers
             && !k.dir[p].IsExclusive() && (k.dir[p].exclusive ==> e.exclusive))
    && k.ver[p] == (if wb then latest else h.ver[p])
    && (!wb ==> forall x :: x in e.sharers ==> x < |par| && h.st[x] != M && h.ver[x] == latest)
    && (wb ==> e.IsExclusive())
  }

  /** Invalidating or downgrading node v leaves its whole subtree coherent,
      touches nothing else, brings the latest data to v, and reports a writeback
      unless v already had clean, latest data. */
  lemma {:induction false} InvalidateOk(par: seq<nat>, h: Hier, v: nat, ty: InvType, latest: nat)
    requires Tree(par) && Sized(par, h) && v < |par|
    requires LocalBelow(par, h, latest, v) && CanInval(h.st[v], ty)
    ensures var (k, wb) := Invalidate(par, h, v, ty);
            InvalidatedAt(par, h, v, ty, latest, k, wb)
    decreases |par| - v, 2, 0
  {
    assert Local(par, h, latest, v);
    ReadySharers(par, h, v, latest);
    SendInvalidatesOk(par, h, v, ty, latest);
    var (k, wb1) := SendInvalidates(par, h, v, ty);
    var (k', wb2) := BottomInval(k, v, ty);
    assert (k', wb1 || wb2) == Invalidate(par, h, v, ty);
    OutsideUntouched(par, h, v);
    InvalidateLocal(par, h, v, ty, latest, k, wb1, k');
  }

  /** A coherent subtree gives what the send loop of its root needs. */
  lemma ReadySharers(par: seq<nat>, h: Hier, p: nat, latest: nat)
    requires Tree(par) && Sized(par, h) && p < |par|
    requires LocalBelow(par, h, latest, p)
    ensures SharersOk(par, h, p)
    ensures forall x :: x in h.dir[p].sharers ==> LocalBelow(par, h, latest, x)
  {
    assert Desc(par, p, p) && Local(par, h, latest, p);
    forall x | x in h.dir[p].sharers
      ensures LocalBelow(par, h, latest, x)
    {
      BelowChild(par, p, x);
    }
  }

  lemma OutsideUntouched(par: seq<nat>, h: Hier, p: nat)
    requires Tree(par) && Sized(par, h) && p < |par| && SharersOk(par, h, p)
    ensures forall u: nat :: u < |par| && !Desc(par, u, p) ==> Untouched(par, h.dir[p].sharers, p, u)
  {
    forall u: nat | u < |par| && !Desc(par, u, p)
      ensures Untouched(par, h.dir[p].sharers, p, u)
    {
      forall x | x in h.dir[p].sharers
        ensures !Desc(par, u, x)
      {
        BelowChild(par, p, x);
      }
    }
  }

  /** A child that was not a sharer keeps its whole subtree. */
  lemma OtherChildUntouched(par: seq<nat>, h: Hier, p: nat, c: nat)
    requires Tree(par) && Sized(par, h) && p < |par| && SharersOk(par, h, p)
    requires IsChild(par, c, p) && c !in h.dir[p].sharers
    ensures forall u: nat :: Desc(par, u, c) ==> Untouched(par, h.dir[p].sharers, p, u)
  {
    BelowChild(par, p, c);
    forall u: nat | Desc(par, u, c)
      ensures Untouched(par, h.dir[p].sharers, p, u)
    {
      forall x | x in h.dir[p].sharers
        ensures !Desc(par, u, x)
      {
        SiblingsDisjoint(par, p, c, x);
      }
    }
  }

  /** After sendInvalidates every subtree below p is coherent again. */
  lemma ChildrenLocal(par: seq<nat>, h: Hier, p: nat, ty: InvType, latest: nat, k: Hier, wb: bool)
    requires Tree(par) && Sized(par, h) && p < |par| && SharersOk(par, h, p)
    requires forall c: nat :: IsChild(par, c, p) ==> LocalBelow(par, h, latest, c)
    requires SentAll(par, h, p, ty, latest, k, wb)
    ensures forall c: nat :: IsChild(par, c, p) ==> LocalBelow(par, k, latest, c)
    ensures forall c: nat :: IsChild(par, c, p) && c !in h.dir[p].sharers ==> SameAt(h, k, c)
  {
    forall c: nat | IsChild(par, c, p)
      ensures LocalBelow(par, k, latest, c)
      ensures c !in h.dir[p].sharers ==> SameAt(h, k, c)
    {
      if c !in h.dir[p].sharers {
        OtherChildUntouched(par, h, p, c);
        assert Desc(par, c, c);
        LocalBelowFrame(par, h, k, latest, c);
      }
    }
  }

  lemma InvalidateLocal(par: seq<nat>, h: Hier, v: nat, ty: InvType, latest: nat, k: Hier, wb: bool, k': Hier)
    requires Tree(par) && Sized(par, h) && v < |par|
    requires LocalBelow(par, h, latest, v) && CanInval(h.st[v], ty)
    requires SentAll(par, h, v, ty, latest, k, wb)
    requires k' == k.(st := k.st[v := Target(ty)])
    ensures LocalBelow(par, k', latest, v)
    ensures k.ver[v] == latest
    ensures !wb ==> h.ver[v] == latest
  {
    assert Desc(par, v, v) && Local(par, h, latest, v);
    if h.ver[v] != latest {
      assert |h.dir[v].sharers| == 1;
      var x :| x in h.dir[v].sharers;
      assert wb;
    }
    forall c: nat | IsChild(par, c, v)
      ensures LocalBelow(par, h, latest, c)
    {
      BelowChild(par, v, c);
    }
    ChildrenLocal(par, h, v, ty, latest, k, wb);
    forall u: nat | Desc(par, u, v)
      ensures Local(par, k', latest, u)
    {
      if u == v {
        AfterSendDir(par, h, v, ty, latest, k, wb, k');
      } else {
        var c := DescViaChild(par, u, v);
        DescLe(par, u, c);
        LocalFrame(par, k, k', latest, u);
      }
    }
  }

  lemma AfterSendDir(par: seq<nat>, h: Hier, v: nat, ty: InvType, latest: nat, k: Hier, wb: bool, k': Hier)
    requires Tree(par) && Sized(par, h) && v < |par|
    requires Local(par, h, latest, v) && CanInval(h.st[v], ty)
    requires SentAll(par, h, v, ty, latest, k, wb)
    requires forall c: nat :: IsChild(par, c, v) && c !in h.dir[v].sharers ==> SameAt(h, k, c)
    requires k.ver[v] == latest
    requires k' == k.(st := k.st[v := Target(ty)])
    ensures Local(par, k', latest, v)
  {
  }

  lemma {:induction false} SendInvalidatesOk(par: seq<nat>, h: Hier, p: nat, ty: InvType, latest: nat)
    requires Tree(par) && Sized(par, h) && p < |par|
    requires SharersOk(par, h, p)
    requires forall x :: x in h.dir[p].sharers ==> LocalBelow(par, h, latest, x)
    ensures var (k, wb) := SendInvalidates(par, h, p, ty);
            SentAll(par, h, p, ty, latest, k, wb)
    decreases |par| - p, 1, 0
  {
    hide SentAll, SentFrom, LoopReady, LocalBelow, SharersOk;
    var e := h.dir[p];
    if (ty == INVX && !e.IsExclusive()) || e.IsEmpty() {
      NothingSent(par, h, p, ty, latest);
    } else {
      AllRemain(par, h, p, ty, latest);
      SendFromOk(par, h, p, ty, p + 1, latest);
      var (k, wb, sent) := SendFrom(par, h, p, ty, p + 1);
      SendDoneOk(par, h, p, ty, latest, k, wb, sent);
    }
  }

  lemma SharersLocal(par: seq<nat>, h: Hier, p: nat, latest: nat)
    requires Tree(par) && Sized(par, h) && p < |par| && SharersOk(par, h, p)
    requires forall x :: x in h.dir[p].sharers ==> LocalBelow(par, h, latest, x)
    ensures forall x :: x in h.dir[p].sharers ==> Local(par, h, latest, x)
  {
    forall x | x in h.dir[p].sharers
      ensures Local(par, h, latest, x)
    {
      assert Desc(par, x, x);
    }
  }

  /** A downgrade of sharers that are not exclusive, or nobody to send to. */
  lemma NothingSent(par: seq<nat>, h: Hier, p: nat, ty: InvType, latest: nat)
    requires Tree(par) && Sized(par, h) && p < |par| && SharersOk(par, h, p)
    requires forall x :: x in h.dir[p].sharers ==> LocalBelow(par, h, latest, x)
    requires (ty == INVX && !h.dir[p].IsExclusive()) || h.dir[p].IsEmpty()
    ensures SentAll(par, h, p, ty, latest, h, false)
  {
    hide LocalBelow;
    SharersLocal(par, h, p, latest);
    assert h.dir[p].IsEmpty() ==> h.dir[p].sharers == {};
  }

  lemma AllRemain(par: seq<nat>, h: Hier, p: nat, ty: InvType, latest: nat)
    requires Tree(par) && Sized(par, h) && p < |par| && SharersOk(par, h, p)
    requires forall x :: x in h.dir[p].sharers ==> LocalBelow(par, h, latest, x)
    requires ty == INVX ==> h.dir[p].IsExclusive()
    ensures Remaining(h, p, p + 1) == h.dir[p].sharers && LoopReady(par, h, p, ty, p + 1, latest)
  {
    hide LocalBelow;
    SharersLocal(par, h, p, latest);
  }

  lemma SendDoneOk(par: seq<nat>, h: Hier, p: nat, ty: InvType, latest: nat, k: Hier, wb: bool, sent: nat)
    requires Tree(par) && Sized(par, h) && p < |par|
    requires SharersOk(par, h, p) && (ty == INVX ==> h.dir[p].IsExclusive())
    requires Remaining(h, p, p + 1) == h.dir[p].sharers
    requires SentFrom(par, h, p, ty, p + 1, latest, k, wb, sent)
    ensures SentAll(par, h, p, ty, latest, SendDone(k, p, ty, sent), wb)
  {
    var k' := SendDone(k, p, ty, sent);
    forall x | x in h.dir[p].sharers
      ensures LocalBelow(par, k', latest, x)
    {
      BelowChild(par, p, x);
      LocalBelowFrame(par, k, k', latest, x);
    }
  }

  /** Effect of one iteration of the send loop. */
  ghost predicate SentOne(par: seq<nat>, h: Hier, p: nat, ty: InvType, c: nat, latest: nat, k: Hier, wb: bool)
    requires Tree(par) && Sized(par, h) && p < c < |par|
  {
    && Sized(par, k) && k.bad == h.bad
    && (forall u: nat :: u < |par| && u != p && !Desc(par, u, c) ==> SameAt(h, k, u))
    && (forall u: nat :: u < |par| ==> Weakened(h.st[u], k.st[u]))
    && (forall u: nat :: u < |par| ==> k.ver[u] == h.ver[u] || k.ver[u] == latest)
    && k.st[c] == Target(ty) && k.ver[c] == latest && LocalBelow(par, k, latest, c)
    && k.st[p] == h.st[p]
    && k.dir[p] == h.dir[p].(sharers := if ty == INV then h.dir[p].sharers - {c} else h.dir[p].sharers)
    && k.ver[p] == (if wb then latest else h.ver[p])
    && (if wb then HasExcl(h.st[c]) else h.st[c] != M && h.ver[c] == latest)
  }

  lemma {:induction false} SendOneOk(par: seq<nat>, h: Hier, p: nat, ty: InvType, c: nat, latest: nat)
    requires Tree(par) && Sized(par, h) && IsChild(par, c, p)
    requires CanInval(h.st[c], ty) && LocalBelow(par, h, latest, c)
    ensures var (k, wb) := SendOne(par, h, p, ty, c);
            SentOne(par, h, p, ty, c, latest, k, wb)
    decreases |par| - p, 0, |par| - c, 0
  {
    InvalidateOk(par, h, c, ty, latest);
    var (k1, wb) := Invalidate(par, h, c, ty);
    var (k, wb') := SendOne(par, h, p, ty, c);
    BelowChild(par, p, c);
    assert !Desc(par, p, c);
    LocalBelowFrame(par, k1, k, latest, c);
  }

  lemma {:induction false} SendFromOk(par: seq<nat>, h: Hier, p: nat, ty: InvType, c: nat, latest: nat)
    requires Tree(par) && Sized(par, h) && p < c <= |par|
    requires LoopReady(par, h, p, ty, c, latest)
    ensures var (k, wb, sent) := SendFrom(par, h, p, ty, c);
            SentFrom(par, h, p, ty, c, latest, k, wb, sent)
    decreases |par| - p, 0, |par| - c
  {
    hide SentFrom, LoopReady, SentOne;
    if c == |par| {
      NothingToSend(par, h, p, ty, latest);
    } else if par[c] == p && c in h.dir[p].sharers {
      ReadyAt(par, h, p, ty, c, latest);
      SendOneOk(par, h, p, ty, c, latest);
      var (h1, wb1) := SendOne(par, h, p, ty, c);
      StillReady(par, h, p, ty, c, latest, h1, wb1);
      SendFromOk(par, h1, p, ty, c + 1, latest);
      var (k, wb2, sent) := SendFrom(par, h1, p, ty, c + 1);
      ComposeSends(par, h, p, ty, c, latest, h1, wb1, k, wb2, sent);
    } else {
      SkipChild(par, h, p, ty, c, latest);
      SendFromOk(par, h, p, ty, c + 1, latest);
      var (k, wb, sent) := SendFrom(par, h, p, ty, c + 1);
      SkippedChild(par, h, p, ty, c, latest, k, wb, sent);
    }
  }

  lemma NothingToSend(par: seq<nat>, h: Hier, p: nat, ty: InvType, latest: nat)
    requires Tree(par) && Sized(par, h) && p < |par|
    requires LoopReady(par, h, p, ty, |par|, latest)
    ensures SentFrom(par, h, p, ty, |par|, latest, h, false, 0)
  {
    forall x | x in Remaining(h, p, |par|)
      ensures IsChild(par, x, p)
    {
    }
    assert Remaining(h, p, |par|) == {};
  }

  lemma ReadyAt(par: seq<nat>, h: Hier, p: nat, ty: InvType, c: nat, latest: nat)
    requires Tree(par) && Sized(par, h) && p < c < |par|
    requires LoopReady(par, h, p, ty, c, latest) && c in h.dir[p].sharers
    ensures CanInval(h.st[c], ty) && LocalBelow(par, h, latest, c)
  {
    assert c in Remaining(h, p, c);
  }

  lemma SkipChild(par: seq<nat>, h: Hier, p: nat, ty: InvType, c: nat, latest: nat)
    requires Tree(par) && Sized(par, h) && p < c < |par|
    requires LoopReady(par, h, p, ty, c, latest)
    requires !(par[c] == p && c in h.dir[p].sharers)
    ensures LoopReady(par, h, p, ty, c + 1, latest)
    ensures Remaining(h, p, c) == Remaining(h, p, c + 1)
  {
    assert Remaining(h, p, c) == Remaining(h, p, c + 1) by {
      assert c in Remaining(h, p, c) ==> IsChild(par, c, p);
    }
  }

  lemma SkippedChild(par: seq<nat>, h: Hier, p: nat, ty: InvType, c: nat, latest: nat, k: Hier, wb: bool, sent: nat)
    requires Tree(par) && Sized(par, h) && p < c < |par|
    requires Remaining(h, p, c) == Remaining(h, p, c + 1)
    requires SentFrom(par, h, p, ty, c + 1, latest, k, wb, sent)
    ensures SentFrom(par, h, p, ty, c, latest, k, wb, sent)
  {
  }

  lemma StillReady(par: seq<nat>, h: Hier, p: nat, ty: InvType, c: nat, latest: nat, h1: Hier, wb1: bool)
    requires Tree(par) && Sized(par, h) && IsChild(par, c, p) && c in h.dir[p].sharers
    requires LoopReady(par, h, p, ty, c, latest)
    requires SentOne(par, h, p, ty, c, latest, h1, wb1)
    ensures LoopReady(par, h1, p, ty, c + 1, latest)
    ensures Remaining(h, p, c) == Remaining(h1, p, c + 1) + {c}
    ensures c !in Remaining(h1, p, c + 1)
  {
    forall x | x in Remaining(h1, p, c + 1)
      ensures IsChild(par, x, p) && CanInval(h1.st[x], ty) && LocalBelow(par, h1, latest, x)
    {
      assert x in Remaining(h, p, c);
      BelowChild(par, p, x);
      SiblingsDisjoint(par, p, x, c);
      assert Desc(par, x, x);
      LocalBelowFrame(par, h, h1, latest, x);
    }
  }

  lemma ComposeSends(par: seq<nat>, h: Hier, p: nat, ty: InvType, c: nat, latest: nat,
                     h1: Hier, wb1: bool, k: Hier, wb2: bool, sent: nat)
    requires Tree(par) && Sized(par, h) && IsChild(par, c, p) && c in h.dir[p].sharers
    requires LoopReady(par, h, p, ty, c, latest)
    requires SentOne(par, h, p, ty, c, latest, h1, wb1)
    requires LoopReady(par, h1, p, ty, c + 1, latest)
    requires Remaining(h, p, c) == Remaining(h1, p, c + 1) + {c}
    requires c !in Remaining(h1, p, c + 1)
    requires SentFrom(par, h1, p, ty, c + 1, latest, k, wb2, sent)
    ensures SentFrom(par, h, p, ty, c, latest, k, wb1 || wb2, sent + 1)
  {
    hide LocalBelow, Desc, Untouched, LoopReady, Weakened, Remaining;
    ComposeStates(par, h, p, ty, c, latest, h1, wb1, k, wb2, sent);
    ComposeChild(par, h, p, ty, c, latest, h1, wb1, k, wb2, sent);
    ComposeFrame(par, h, p, ty, c, latest, h1, wb1, k, wb2, sent);
    SiblingsSame(par, h, p, ty, c, latest, h1, wb1);
    ComposeData(par, h, p, ty, c, latest, h1, wb1, k, wb2, sent);
    ComposeEntry(par, h, p, ty, c, latest, h1, wb1, k, wb2, sent);
  }

  lemma ComposeEntry(par: seq<nat>, h: Hier, p: nat, ty: InvType, c: nat, latest: nat,
                     h1: Hier, wb1: bool, k: Hier, wb2: bool, sent: nat)
    requires Tree(par) && Sized(par, h) && IsChild(par, c, p)
    requires SentOne(par, h, p, ty, c, latest, h1, wb1)
    requires Remaining(h, p, c) == Remaining(h1, p, c + 1) + {c} && c !in Remaining(h1, p, c + 1)
    requires SentFrom(par, h1, p, ty, c + 1, latest, k, wb2, sent)
    ensures var sh := Remaining(h, p, c);
            && sent + 1 == |sh| && Sized(par, k)
            && k.dir[p] == h.dir[p].(sharers := if ty == INV then h.dir[p].sharers - sh else h.dir[p].sharers)
  {
    hide LocalBelow, Desc, Untouched, Weakened, Remaining;
    var sh, sh1 := Remaining(h, p, c), Remaining(h1, p, c + 1);
    assert h.dir[p].sharers - {c} - sh1 == h.dir[p].sharers - sh;
    assert |sh| == |sh1| + 1;
  }

  lemma ComposeStates(par: seq<nat>, h: Hier, p: nat, ty: InvType, c: nat, latest: nat,
                      h1: Hier, wb1: bool, k: Hier, wb2: bool, sent: nat)
    requires Tree(par) && Sized(par, h) && IsChild(par, c, p)
    requires SentOne(par, h, p, ty, c, latest, h1, wb1)
    requires SentFrom(par, h1, p, ty, c + 1, latest, k, wb2, sent)
    ensures Sized(par, k)
    ensures forall u: nat :: u < |par| ==> Weakened(h.st[u], k.st[u])
    ensures forall u: nat :: u < |par| ==> k.ver[u] == h.ver[u] || k.ver[u] == latest
  {
    hide LocalBelow, Desc, Untouched;
  }

  /** Data was taken from a child if it was in either part. */
  lemma ComposeData(par: seq<nat>, h: Hier, p: nat, ty: InvType, c: nat, latest: nat,
                    h1: Hier, wb1: bool, k: Hier, wb2: bool, sent: nat)
    requires Tree(par) && Sized(par, h) && IsChild(par, c, p)
    requires SentOne(par, h, p, ty, c, latest, h1, wb1)
    requires Remaining(h, p, c) == Remaining(h1, p, c + 1) + {c}
    requires SentFrom(par, h1, p, ty, c + 1, latest, k, wb2, sent)
    requires forall x :: x in Remaining(h1, p, c + 1) ==> x < |par| && SameAt(h, h1, x)
    ensures var sh := Remaining(h, p, c);
            && (!wb1 && !wb2 ==> forall x :: x in sh ==> x < |par| && h.st[x] != M && h.ver[x] == latest)
            && (wb1 || wb2 ==> exists x :: x in sh && x < |par| && HasExcl(h.st[x]))
  {
    hide LocalBelow, Desc, Untouched, Remaining;
    var sh, sh1 := Remaining(h, p, c), Remaining(h1, p, c + 1);
    assert c in sh;
    if wb2 {
      var x :| x in sh1 && x < |par| && HasExcl(h1.st[x]);
      assert x in sh && SameAt(h, h1, x);
    }
    forall x | x in sh && !wb1 && !wb2
      ensures x < |par| && h.st[x] != M && h.ver[x] == latest
    {
      assert x != c ==> SameAt(h, h1, x);
    }
  }

  /** One iteration leaves the other sharers alone. */
  lemma SiblingsSame(par: seq<nat>, h: Hier, p: nat, ty: InvType, c: nat, latest: nat, h1: Hier, wb1: bool)
    requires Tree(par) && Sized(par, h) && IsChild(par, c, p)
    requires SentOne(par, h, p, ty, c, latest, h1, wb1)
    requires LoopReady(par, h1, p, ty, c + 1, latest) && c !in Remaining(h1, p, c + 1)
    ensures forall x :: x in Remaining(h1, p, c + 1) ==> x < |par| && SameAt(h, h1, x)
  {
    hide LocalBelow, Desc;
    forall x | x in Remaining(h1, p, c + 1)
      ensures x < |par| && SameAt(h, h1, x)
    {
      SiblingsDisjoint(par, p, x, c);
      DescSelf(par, x);
    }
  }

  lemma ComposeFrame(par: seq<nat>, h: Hier, p: nat, ty: InvType, c: nat, latest: nat,
                     h1: Hier, wb1: bool, k: Hier, wb2: bool, sent: nat)
    requires Tree(par) && Sized(par, h) && IsChild(par, c, p)
    requires SentOne(par, h, p, ty, c, latest, h1, wb1)
    requires Remaining(h, p, c) == Remaining(h1, p, c + 1) + {c}
    requires SentFrom(par, h1, p, ty, c + 1, latest, k, wb2, sent)
    ensures Sized(par, k)
    ensures forall u: nat :: u < |par| && Untouched(par, Remaining(h, p, c), p, u) ==> SameAt(h, k, u)
  {
    hide LocalBelow, Desc;
    var sh, sh1 := Remaining(h, p, c), Remaining(h1, p, c + 1);
    forall u: nat | u < |par| && Untouched(par, sh, p, u)
      ensures SameAt(h, k, u)
    {
      assert Untouched(par, sh1, p, u) && !Desc(par, u, c);
    }
  }

  lemma DescSelf(par: seq<nat>, x: nat)
    requires Tree(par) && x < |par|
    ensures Desc(par, x, x)
  {
  }

  /** The rest of the loop leaves the subtree of child c alone. */
  lemma ComposeChild(par: seq<nat>, h: Hier, p: nat, ty: InvType, c: nat, latest: nat,
                     h1: Hier, wb1: bool, k: Hier, wb2: bool, sent: nat)
    requires Tree(par) && Sized(par, h) && IsChild(par, c, p)
    requires SentOne(par, h, p, ty, c, latest, h1, wb1)
    requires LoopReady(par, h1, p, ty, c + 1, latest) && c !in Remaining(h1, p, c + 1)
    requires SentFrom(par, h1, p, ty, c + 1, latest, k, wb2, sent)
    ensures SameAt(h1, k, c) && LocalBelow(par, k, latest, c)
  {
    hide LocalBelow;
    var sh1 := Remaining(h1, p, c + 1);
    forall u: nat | Desc(par, u, c)
      ensures SameAt(h1, k, u)
    {
      UntouchedByRest(par, sh1, p, c, u);
    }
    LocalBelowFrame(par, h1, k, latest, c);
    DescSelf(par, c);
  }

  lemma UntouchedByRest(par: seq<nat>, sh: set<nat>, p: nat, c: nat, u: nat)
    requires Tree(par) && IsChild(par, c, p) && c !in sh && Desc(par, u, c)
    requires forall x :: x in sh ==> IsChild(par, x, p)
    ensures Untouched(par, sh, p, u)
  {
    BelowChild(par, p, c);
    forall x | x in sh
      ensures !Desc(par, u, x)
    {
      SiblingsDisjoint(par, p, c, x);
    }
  }
}

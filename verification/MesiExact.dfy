/** The exact state of every cache after every step: who loses its copy, who is downgraded, who
    becomes dirty and who is given the line exclusively. */
module MesiExact {
  import opened Mesi
  import opened MesiInvalidation
  import opened MesiAccess
  import opened MesiProtocol
  import opened MesiTheorems
  import opened MesiProgress

  /** What an invalidation or downgrade makes of a copy. */
  function Lowered(ty: InvType, m: MesiState): MesiState {
    if ty == INV then I else if HasExcl(m) then S else m
  }

  /** Some cache at or below v is dirty. */
  ghost predicate Dirty(par: seq<nat>, h: Hier, v: nat)
    requires Tree(par) && Sized(par, h)
  {
    exists u: nat :: Desc(par, u, v) && h.st[u] == M
  }

  /** Some cache strictly below v is dirty. */
  ghost predicate DirtyUnder(par: seq<nat>, h: Hier, v: nat)
    requires Tree(par) && Sized(par, h)
  {
    exists u: nat :: Desc(par, u, v) && u != v && h.st[u] == M
  }

  ghost predicate LoweredBelow(par: seq<nat>, h: Hier, k: Hier, v: nat, ty: InvType)
    requires Tree(par) && Sized(par, h) && Sized(par, k)
  {
    forall u: nat :: Desc(par, u, v) ==> k.st[u] == Lowered(ty, h.st[u])
  }

  /** In a coherent subtree the root has a copy if anybody has, and an exclusive one likewise. */
  lemma {:induction false} BelowWeaker(par: seq<nat>, h: Hier, latest: nat, v: nat, u: nat)
    requires Tree(par) && Sized(par, h) && v < |par| && LocalBelow(par, h, latest, v) && Desc(par, u, v)
    ensures h.st[u] != I ==> h.st[v] != I
    ensures HasExcl(h.st[u]) ==> HasExcl(h.st[v])
  {
    if u != v {
      assert Local(par, h, latest, par[u]) && IsChild(par, u, par[u]);
      BelowWeaker(par, h, latest, v, par[u]);
    }
  }

  /** A subtree without exclusive copies is clean, and a downgrade would change nothing there. */
  lemma NothingToLower(par: seq<nat>, h: Hier, latest: nat, v: nat)
    requires Tree(par) && Sized(par, h) && v < |par| && LocalBelow(par, h, latest, v) && !HasExcl(h.st[v])
    ensures !Dirty(par, h, v) && LoweredBelow(par, h, h, v, INVX)
    ensures h.st[v] == I ==> forall u: nat :: Desc(par, u, v) ==> h.st[u] == I
  {
    forall u: nat | Desc(par, u, v)
      ensures !HasExcl(h.st[u]) && (h.st[v] == I ==> h.st[u] == I)
    {
      BelowWeaker(par, h, latest, v, u);
    }
  }

  // ----------------------------------------------------------- invalidations

  /** Sending to the caches in sh reported a writeback iff one of them, or a cache below, was
      dirty, and lowered every copy there. */
  ghost predicate SentTo(par: seq<nat>, h: Hier, ty: InvType, sh: set<nat>, k: Hier, wb: bool)
    requires Tree(par) && Sized(par, h) && Sized(par, k)
  {
    && (wb <==> exists x :: x in sh && Dirty(par, h, x))
    && (forall x :: x in sh ==> LoweredBelow(par, h, k, x, ty))
  }

  /** An invalidation reports a writeback iff some cache it reaches is dirty, and lowers every
      copy below. */
  lemma {:induction false} InvalidateExact(par: seq<nat>, h: Hier, v: nat, ty: InvType, latest: nat)
    requires Tree(par) && Sized(par, h) && v < |par|
    requires LocalBelow(par, h, latest, v) && CanInval(h.st[v], ty)
    ensures var (k, wb) := Invalidate(par, h, v, ty);
            (wb <==> Dirty(par, h, v)) && LoweredBelow(par, h, k, v, ty)
    decreases |par| - v, 2, 0
  {
    hide LocalBelow, SharersOk, SentAll, SentTo, LoweredBelow;
    ReadySharers(par, h, v, latest);
    SendInvalidatesOk(par, h, v, ty, latest);
    SendExact(par, h, v, ty, latest);
    var (k, wb) := SendInvalidates(par, h, v, ty);
    SentBelow(par, h, v, ty, latest, k, wb);
    OwnLowered(par, h, v, ty, k, wb);
  }

  lemma OwnLowered(par: seq<nat>, h: Hier, v: nat, ty: InvType, k: Hier, wb: bool)
    requires Tree(par) && Sized(par, h) && Sized(par, k) && v < |par| && CanInval(h.st[v], ty)
    requires k.st[v] == h.st[v] && (wb <==> DirtyUnder(par, h, v))
    requires forall u: nat :: Desc(par, u, v) && u != v ==> k.st[u] == Lowered(ty, h.st[u])
    ensures LoweredBelow(par, h, BottomInval(k, v, ty).0, v, ty)
    ensures wb || BottomInval(k, v, ty).1 <==> Dirty(par, h, v)
  {
    assert Desc(par, v, v);
  }

  /** What was sent to the sharers of p is what there was to send below p. */
  lemma SentBelow(par: seq<nat>, h: Hier, p: nat, ty: InvType, latest: nat, k: Hier, wb: bool)
    requires Tree(par) && Sized(par, h) && Sized(par, k) && p < |par| && LocalBelow(par, h, latest, p)
    requires SentAll(par, h, p, ty, latest, k, wb) && SentTo(par, h, ty, h.dir[p].sharers, k, wb)
    ensures k.st[p] == h.st[p] && (wb <==> DirtyUnder(par, h, p))
    ensures forall u: nat :: Desc(par, u, p) && u != p ==> k.st[u] == Lowered(ty, h.st[u])
  {
    hide SentAll, SentTo;
    assert Desc(par, p, p) && Local(par, h, latest, p);
    SentState(par, h, p, ty, latest, k, wb);
    SentDirty(par, h, ty, h.dir[p].sharers, k, wb);
    forall u: nat | Desc(par, u, p) && u != p
      ensures k.st[u] == Lowered(ty, h.st[u]) && (h.st[u] == M ==> wb)
    {
      var x := DescViaChild(par, u, p);
      BelowChild(par, p, x);
      if x in h.dir[p].sharers {
        SentLowers(par, h, ty, h.dir[p].sharers, k, wb, x, u);
      } else {
        NothingToLower(par, h, latest, x);
        OtherChildUntouched(par, h, p, x);
        SentSame(par, h, p, ty, latest, k, wb, u);
      }
    }
    if wb {
      var x :| x in h.dir[p].sharers && Dirty(par, h, x);
      var u: nat :| Desc(par, u, x) && h.st[u] == M;
      BelowChild(par, p, x);
    }
  }

  lemma SentState(par: seq<nat>, h: Hier, p: nat, ty: InvType, latest: nat, k: Hier, wb: bool)
    requires Tree(par) && Sized(par, h) && p < |par| && SentAll(par, h, p, ty, latest, k, wb)
    ensures Sized(par, k) && k.st[p] == h.st[p]
  {
  }

  lemma SentSame(par: seq<nat>, h: Hier, p: nat, ty: InvType, latest: nat, k: Hier, wb: bool, u: nat)
    requires Tree(par) && Sized(par, h) && Sized(par, k) && p < |par| && SentAll(par, h, p, ty, latest, k, wb)
    requires u < |par| && Untouched(par, h.dir[p].sharers, p, u)
    ensures SameAt(h, k, u)
  {
  }

  lemma SentDirty(par: seq<nat>, h: Hier, ty: InvType, sh: set<nat>, k: Hier, wb: bool)
    requires Tree(par) && Sized(par, h) && Sized(par, k) && SentTo(par, h, ty, sh, k, wb)
    ensures wb <==> exists x :: x in sh && Dirty(par, h, x)
  {
  }

  lemma SentLowers(par: seq<nat>, h: Hier, ty: InvType, sh: set<nat>, k: Hier, wb: bool, x: nat, u: nat)
    requires Tree(par) && Sized(par, h) && Sized(par, k) && SentTo(par, h, ty, sh, k, wb)
    requires x in sh && Desc(par, u, x)
    ensures k.st[u] == Lowered(ty, h.st[u]) && (h.st[u] == M ==> wb)
  {
    assert h.st[u] == M ==> Dirty(par, h, x);
  }

  lemma {:induction false} SendExact(par: seq<nat>, h: Hier, p: nat, ty: InvType, latest: nat)
    requires Tree(par) && Sized(par, h) && p < |par| && SharersOk(par, h, p)
    requires forall x :: x in h.dir[p].sharers ==> LocalBelow(par, h, latest, x)
    ensures var (k, wb) := SendInvalidates(par, h, p, ty);
            SentTo(par, h, ty, h.dir[p].sharers, k, wb)
    decreases |par| - p, 1, 0
  {
    hide SentTo, LoopReady, LocalBelow, SharersOk;
    var e := h.dir[p];
    if (ty == INVX && !e.IsExclusive()) || e.IsEmpty() {
      NothingSentExact(par, h, p, ty, latest);
    } else {
      AllRemain(par, h, p, ty, latest);
      SendFromExact(par, h, p, ty, p + 1, latest);
      var (k, wb, sent) := SendFrom(par, h, p, ty, p + 1);
      DoneExact(par, h, p, ty, k, wb, sent);
    }
  }

  lemma NothingSentExact(par: seq<nat>, h: Hier, p: nat, ty: InvType, latest: nat)
    requires Tree(par) && Sized(par, h) && p < |par| && SharersOk(par, h, p)
    requires forall x :: x in h.dir[p].sharers ==> LocalBelow(par, h, latest, x)
    requires (ty == INVX && !h.dir[p].IsExclusive()) || h.dir[p].IsEmpty()
    ensures SentTo(par, h, ty, h.dir[p].sharers, h, false)
  {
    hide LocalBelow;
    assert h.dir[p].IsEmpty() ==> h.dir[p].sharers == {};
    forall x | x in h.dir[p].sharers
      ensures !Dirty(par, h, x) && LoweredBelow(par, h, h, x, ty)
    {
      NothingToLower(par, h, latest, x);
    }
  }

  lemma DoneExact(par: seq<nat>, h: Hier, p: nat, ty: InvType, k: Hier, wb: bool, sent: nat)
    requires Tree(par) && Sized(par, h) && Sized(par, k) && p < |par|
    requires SentTo(par, h, ty, h.dir[p].sharers, k, wb)
    ensures SentTo(par, h, ty, h.dir[p].sharers, SendDone(k, p, ty, sent), wb)
  {
    hide Dirty;
    var k' := SendDone(k, p, ty, sent);
    forall x | x in h.dir[p].sharers
      ensures LoweredBelow(par, h, k', x, ty)
    {
      assert LoweredBelow(par, h, k, x, ty);
    }
  }

  lemma {:induction false} SendOneExact(par: seq<nat>, h: Hier, p: nat, ty: InvType, c: nat, latest: nat)
    requires Tree(par) && Sized(par, h) && IsChild(par, c, p)
    requires CanInval(h.st[c], ty) && LocalBelow(par, h, latest, c)
    ensures var (k, wb) := SendOne(par, h, p, ty, c);
            (wb <==> Dirty(par, h, c)) && LoweredBelow(par, h, k, c, ty)
    decreases |par| - p, 0, |par| - c, 0
  {
    InvalidateExact(par, h, c, ty, latest);
  }

  lemma {:induction false} SendFromExact(par: seq<nat>, h: Hier, p: nat, ty: InvType, c: nat, latest: nat)
    requires Tree(par) && Sized(par, h) && p < c <= |par|
    requires LoopReady(par, h, p, ty, c, latest)
    ensures var (k, wb, sent) := SendFrom(par, h, p, ty, c);
            SentTo(par, h, ty, Remaining(h, p, c), k, wb)
    decreases |par| - p, 0, |par| - c
  {
    hide SentFrom, LoopReady, SentOne, SentTo, LoweredBelow, Dirty;
    if c == |par| {
      NobodyRemains(par, h, p, ty, latest);
    } else if par[c] == p && c in h.dir[p].sharers {
      ReadyAt(par, h, p, ty, c, latest);
      SendOneOk(par, h, p, ty, c, latest);
      SendOneExact(par, h, p, ty, c, latest);
      var (h1, wb1) := SendOne(par, h, p, ty, c);
      StillReady(par, h, p, ty, c, latest, h1, wb1);
      SendFromOk(par, h1, p, ty, c + 1, latest);
      SendFromExact(par, h1, p, ty, c + 1, latest);
      var (k, wb2, sent) := SendFrom(par, h1, p, ty, c + 1);
      ComposeExact(par, h, p, ty, c, latest, h1, wb1, k, wb2, sent);
    } else {
      SkipChild(par, h, p, ty, c, latest);
      SendFromExact(par, h, p, ty, c + 1, latest);
    }
  }

  lemma NobodyRemains(par: seq<nat>, h: Hier, p: nat, ty: InvType, latest: nat)
    requires Tree(par) && Sized(par, h) && p < |par|
    requires LoopReady(par, h, p, ty, |par|, latest)
    ensures SentTo(par, h, ty, Remaining(h, p, |par|), h, false)
  {
    forall x | x in Remaining(h, p, |par|)
      ensures IsChild(par, x, p)
    {
    }
    assert Remaining(h, p, |par|) == {};
  }

  lemma ComposeExact(par: seq<nat>, h: Hier, p: nat, ty: InvType, c: nat, latest: nat,
                     h1: Hier, wb1: bool, k: Hier, wb2: bool, sent: nat)
    requires Tree(par) && Sized(par, h) && Sized(par, h1) && Sized(par, k) && IsChild(par, c, p)
    requires SentOne(par, h, p, ty, c, latest, h1, wb1)
    requires LoopReady(par, h1, p, ty, c + 1, latest)
    requires Remaining(h, p, c) == Remaining(h1, p, c + 1) + {c} && c !in Remaining(h1, p, c + 1)
    requires SentFrom(par, h1, p, ty, c + 1, latest, k, wb2, sent)
    requires (wb1 <==> Dirty(par, h, c)) && LoweredBelow(par, h, h1, c, ty)
    requires SentTo(par, h1, ty, Remaining(h1, p, c + 1), k, wb2)
    ensures SentTo(par, h, ty, Remaining(h, p, c), k, wb1 || wb2)
  {
    hide SentOne, SentFrom, LoopReady, Remaining, LoweredBelow, Dirty, Desc;
    var sh1 := Remaining(h1, p, c + 1);
    forall x | x in sh1
      ensures Dirty(par, h, x) == Dirty(par, h1, x) && LoweredBelow(par, h, k, x, ty)
    {
      assert LoweredBelow(par, h1, k, x, ty);
      RemainingChild(par, h1, p, ty, c + 1, latest, x);
      SiblingExact(par, h, p, ty, c, latest, h1, wb1, k, x);
    }
    FirstChildExact(par, h, p, ty, c, latest, h1, wb1, k, wb2, sent);
  }

  lemma RemainingChild(par: seq<nat>, h: Hier, p: nat, ty: InvType, c: nat, latest: nat, x: nat)
    requires Tree(par) && Sized(par, h) && p < c <= |par|
    requires LoopReady(par, h, p, ty, c, latest) && x in Remaining(h, p, c)
    ensures IsChild(par, x, p)
  {
  }

  /** The subtree of another child is as it was before child c was visited. */
  lemma SiblingExact(par: seq<nat>, h: Hier, p: nat, ty: InvType, c: nat, latest: nat, h1: Hier, wb1: bool,
                     k: Hier, x: nat)
    requires Tree(par) && Sized(par, h) && Sized(par, h1) && Sized(par, k) && IsChild(par, c, p)
    requires SentOne(par, h, p, ty, c, latest, h1, wb1)
    requires IsChild(par, x, p) && x != c && LoweredBelow(par, h1, k, x, ty)
    ensures Dirty(par, h, x) == Dirty(par, h1, x) && LoweredBelow(par, h, k, x, ty)
  {
    forall u: nat | Desc(par, u, x)
      ensures h1.st[u] == h.st[u]
    {
      BelowChild(par, p, x);
      SiblingsDisjoint(par, p, x, c);
      assert SameAt(h, h1, u);
    }
  }

  /** The rest of the loop leaves what was done below child c. */
  lemma FirstChildExact(par: seq<nat>, h: Hier, p: nat, ty: InvType, c: nat, latest: nat,
                        h1: Hier, wb1: bool, k: Hier, wb2: bool, sent: nat)
    requires Tree(par) && Sized(par, h) && Sized(par, h1) && Sized(par, k) && IsChild(par, c, p)
    requires LoopReady(par, h1, p, ty, c + 1, latest) && c !in Remaining(h1, p, c + 1)
    requires SentFrom(par, h1, p, ty, c + 1, latest, k, wb2, sent) && LoweredBelow(par, h, h1, c, ty)
    ensures LoweredBelow(par, h, k, c, ty)
  {
    forall u: nat | Desc(par, u, c)
      ensures k.st[u] == h1.st[u]
    {
      UntouchedByRest(par, Remaining(h1, p, c + 1), p, c, u);
      assert SameAt(h1, k, u);
    }
  }

  // ---------------------------------------------------------------- accesses

  /** The state of cache u after a GETS or GETX of child c is served at p.  The requester of a
      GETS is given the line exclusively iff it does not decline, p may hand it out
      exclusively, and no child of p has a copy. */
  ghost function AfterGet(par: seq<nat>, h: Hier, p: nat, c: nat, t: AccessType, noExcl: bool, u: nat): MesiState
    requires Tree(par) && Sized(par, h) && IsChild(par, c, p) && u < |par|
  {
    if u == c then
      if t == GETX then M
      else if !noExcl && HasExcl(h.st[p]) && NoCopyBelow(par, h, p) then E
      else S
    else if u == p then if DirtyUnder(par, h, p) then M else h.st[p]
    else if Desc(par, u, p) && !Desc(par, u, c) then Lowered(if t == GETX then INV else INVX, h.st[u])
    else h.st[u]
  }

  ghost predicate GetDone(par: seq<nat>, h: Hier, p: nat, c: nat, t: AccessType, noExcl: bool, k: Hier)
    requires Tree(par) && Sized(par, h) && IsChild(par, c, p)
  {
    Sized(par, k) && forall u: nat :: u < |par| ==> k.st[u] == AfterGet(par, h, p, c, t, noExcl, u)
  }

  /** A GETS served at p in a coherent hierarchy. */
  lemma GetSExact(par: seq<nat>, h: Hier, p: nat, c: nat, noExcl: bool, latest: nat)
    requires Tree(par) && Sized(par, h) && IsChild(par, c, p)
    requires AllLocal(par, h, latest) && h.st[p] != I && h.st[c] == I
    ensures GetDone(par, h, p, c, GETS, noExcl, TopGetS(par, h, p, c, noExcl))
  {
    hide AllLocal, LocalBelow, TopGetS, GetDone;
    LocalOf(par, h, latest, p);
    ChildrenBelow(par, h, p, latest);
    NothingToLower(par, h, latest, c);
    if h.dir[p].IsExclusive() {
      GetSExactOwner(par, h, p, c, noExcl, latest);
    } else {
      GetSExactParent(par, h, p, c, noExcl, latest);
    }
  }

  lemma GetSExactParent(par: seq<nat>, h: Hier, p: nat, c: nat, noExcl: bool, latest: nat)
    requires Tree(par) && Sized(par, h) && IsChild(par, c, p) && Local(par, h, latest, p) && h.st[p] != I
    requires forall x: nat :: IsChild(par, x, p) ==> LocalBelow(par, h, latest, x)
    requires !h.dir[p].IsExclusive()
    ensures GetDone(par, h, p, c, GETS, noExcl, TopGetS(par, h, p, c, noExcl))
  {
    hide LocalBelow;
    NoSharers(par, h, p, latest);
    forall u: nat | Desc(par, u, p) && u != p
      ensures !HasExcl(h.st[u])
    {
      var x := DescViaChild(par, u, p);
      BelowWeaker(par, h, latest, x, u);
    }
  }

  lemma GetSExactOwner(par: seq<nat>, h: Hier, p: nat, c: nat, noExcl: bool, latest: nat)
    requires Tree(par) && Sized(par, h) && IsChild(par, c, p) && AllLocal(par, h, latest) && h.st[p] != I
    requires h.dir[p].IsExclusive() && h.st[c] == I && forall u: nat :: Desc(par, u, c) ==> h.st[u] == I
    ensures GetDone(par, h, p, c, GETS, noExcl, TopGetS(par, h, p, c, noExcl))
  {
    hide AllLocal, LocalBelow, SendInvalidates, SentAll, SentTo;
    LocalOf(par, h, latest, p);
    ChildrenBelow(par, h, p, latest);
    SendAtExact(par, h, p, INVX, latest);
    var (k, wb) := SendInvalidates(par, h, p, INVX);
    NoSharers(par, h, p, latest);
    assert h.(bad := h.bad || c in h.dir[p].sharers) == h;
  }

  lemma SendAtExact(par: seq<nat>, h: Hier, p: nat, ty: InvType, latest: nat)
    requires Tree(par) && Sized(par, h) && p < |par| && h.st[p] != I && AllLocal(par, h, latest)
    ensures var (k, wb) := SendInvalidates(par, h, p, ty);
            && (wb <==> DirtyUnder(par, h, p))
            && (forall u: nat :: u < |par| ==>
                  k.st[u] == if Desc(par, u, p) && u != p then Lowered(ty, h.st[u]) else h.st[u])
  {
    hide AllLocal, SentAll, SentTo, LocalBelow, SendInvalidates, Lowered;
    LocalOf(par, h, latest, p);
    ChildrenBelow(par, h, p, latest);
    ReadySharers(par, h, p, latest);
    SendInvalidatesOk(par, h, p, ty, latest);
    SendExact(par, h, p, ty, latest);
    var (k, wb) := SendInvalidates(par, h, p, ty);
    SentBelow(par, h, p, ty, latest, k, wb);
    SendOutside(par, h, p, ty, latest, k, wb);
    forall u: nat | u < |par| && !Desc(par, u, p)
      ensures k.st[u] == h.st[u]
    {
      assert SameAt(h, k, u);
    }
  }

  /** A GETX served at p in a coherent hierarchy. */
  lemma GetXExact(par: seq<nat>, h: Hier, p: nat, c: nat, noExcl: bool, latest: nat)
    requires Tree(par) && Sized(par, h) && IsChild(par, c, p)
    requires AllLocal(par, h, latest) && HasExcl(h.st[p]) && !HasExcl(h.st[c])
    ensures GetDone(par, h, p, c, GETX, noExcl, TopGetX(par, h, p, c))
  {
    hide AllLocal, LocalBelow, SendInvalidates, SentAll, SentTo, SharersOk, DropUpgrader;
    Dropped(par, h, p, c, latest);
    var h0 := DropUpgrader(h, p, c);
    SendInvalidatesOk(par, h0, p, INV, latest);
    SendExact(par, h0, p, INV, latest);
    var (k, wb) := SendInvalidates(par, h0, p, INV);
    SentState(par, h0, p, INV, latest, k, wb);
    SendOutside(par, h0, p, INV, latest, k, wb);
    SentOthers(par, h, p, c, latest, h0, k, wb);
    assert h.(bad := h.bad || !HasExcl(h.st[p])) == h;
    forall u: nat | u < |par| && !Desc(par, u, p)
      ensures k.st[u] == h.st[u]
    {
      assert SameAt(h0, k, u);
    }
  }

  /** Taking the upgrading requester out of the sharers leaves a list one can send to. */
  lemma Dropped(par: seq<nat>, h: Hier, p: nat, c: nat, latest: nat)
    requires Tree(par) && Sized(par, h) && IsChild(par, c, p)
    requires AllLocal(par, h, latest) && !HasExcl(h.st[c])
    ensures var h0 := DropUpgrader(h, p, c);
            && Sized(par, h0) && h0.st == h.st && h0.dir[p].sharers == h.dir[p].sharers - {c}
            && SharersOk(par, h0, p) && SharersOk(par, h, p)
            && (forall x :: x in h0.dir[p].sharers ==> LocalBelow(par, h0, latest, x))
            && (forall x: nat :: IsChild(par, x, p) ==> LocalBelow(par, h, latest, x))
  {
    hide LocalBelow;
    LocalOf(par, h, latest, p);
    ChildrenBelow(par, h, p, latest);
    var h0 := DropUpgrader(h, p, c);
    forall x: nat | IsChild(par, x, p)
      ensures LocalBelow(par, h0, latest, x)
    {
      BelowChild(par, p, x);
      LocalBelowFrame(par, h, h0, latest, x);
    }
  }

  /** After the invalidations of a GETX nobody below p has a copy but c and the caches below it,
      which are as they were. */
  lemma SentOthers(par: seq<nat>, h: Hier, p: nat, c: nat, latest: nat, h0: Hier, k: Hier, wb: bool)
    requires Tree(par) && Sized(par, h) && Sized(par, h0) && Sized(par, k) && IsChild(par, c, p)
    requires AllLocal(par, h, latest) && !HasExcl(h.st[c])
    requires h0.st == h.st && h0.dir[p].sharers == h.dir[p].sharers - {c} && SharersOk(par, h0, p)
    requires forall x: nat :: IsChild(par, x, p) ==> LocalBelow(par, h, latest, x)
    requires SentAll(par, h0, p, INV, latest, k, wb) && SentTo(par, h0, INV, h0.dir[p].sharers, k, wb)
    ensures wb <==> DirtyUnder(par, h, p)
    ensures forall u: nat :: Desc(par, u, p) && u != p ==> k.st[u] == if Desc(par, u, c) then h.st[u] else I
  {
    hide AllLocal, LocalBelow, SentAll, SentTo, Untouched;
    LocalOf(par, h, latest, p);
    NothingToLower(par, h, latest, c);
    OtherChildUntouched(par, h0, p, c);
    SentDirty(par, h0, INV, h0.dir[p].sharers, k, wb);
    forall u: nat | Desc(par, u, p) && u != p
      ensures k.st[u] == (if Desc(par, u, c) then h.st[u] else I) && (h.st[u] == M ==> wb)
    {
      if Desc(par, u, c) {
        SentSame(par, h0, p, INV, latest, k, wb, u);
      } else {
        var x := DescViaChild(par, u, p);
        OtherSent(par, h, p, x, latest, h0, k, wb, u);
      }
    }
    if wb {
      var x :| x in h0.dir[p].sharers && Dirty(par, h0, x);
      var u: nat :| Desc(par, u, x) && h0.st[u] == M;
      BelowChild(par, p, x);
    }
  }

  lemma OtherSent(par: seq<nat>, h: Hier, p: nat, x: nat, latest: nat, h0: Hier, k: Hier, wb: bool, u: nat)
    requires Tree(par) && Sized(par, h) && Sized(par, h0) && Sized(par, k) && IsChild(par, x, p)
    requires Local(par, h, latest, p) && LocalBelow(par, h, latest, x) && Desc(par, u, x)
    requires h0.st == h.st && (x in h.dir[p].sharers ==> x in h0.dir[p].sharers) && SharersOk(par, h0, p)
    requires SentAll(par, h0, p, INV, latest, k, wb) && SentTo(par, h0, INV, h0.dir[p].sharers, k, wb)
    ensures k.st[u] == I && (h.st[u] == M ==> wb)
  {
    hide LocalBelow, SentAll, SentTo, Untouched;
    if x in h0.dir[p].sharers {
      SentLowers(par, h0, INV, h0.dir[p].sharers, k, wb, x, u);
    } else {
      NothingToLower(par, h, latest, x);
      OtherChildUntouched(par, h0, p, x);
      SentSame(par, h0, p, INV, latest, k, wb, u);
    }
  }

  // ------------------------------------------------------------------- steps

  /** A GETX makes the copy of the cache that serves it dirty first. */
  function Readied(h: Hier, p: nat, t: AccessType): (r: Hier)
    requires p < |h.st|
    ensures |r.st| == |h.st| && r.dir == h.dir && r.ver == h.ver
  {
    if t == GETX then h.(st := h.st[p := M]) else h
  }

  /** The state of cache u after a step. */
  ghost function StateAfter(par: seq<nat>, s: Sys, step: Step, u: nat): MesiState
    requires Tree(par) && WellSized(par, s) && Enabled(par, s, step) && u < |par|
  {
    var st := s.h.st;
    match step
    case Write(t) => if u == t then M else st[u]
    case IssueGet(_, _, _) => st[u]
    case IssuePut(v) =>
      if u == v then if Dirty(par, s.h, v) then M else st[v]
      else if Desc(par, u, v) then I
      else st[u]
    case Serve(c) =>
      var p, req := par[c], s.pend[c].value;
      if IsPut(req.typ) then
        if u == c then I else if u == p && st[c] == M then M else st[u]
      else if NeedsParent(st[p], req.typ) then st[u]
      else AfterGet(par, Readied(s.h, p, req.typ), p, c, req.typ, req.noExcl, u)
    case ServeRoot =>
      if u != 0 then st[u]
      else (match s.pend[0].value.typ
            case PUTS => I
            case PUTX => I
            case GETS => if s.pend[0].value.noExcl then S else E
            case GETX => M)
    case Unwind =>
      var (p, c) := s.grant.value;
      AfterGet(par, s.h, p, c, s.pend[c].value.typ, s.pend[c].value.noExcl, u)
  }

  lemma FinishExact(par: seq<nat>, s: Sys, p: nat, c: nat)
    requires Tree(par) && WellSized(par, s) && IsChild(par, c, p)
    requires AllLocal(par, s.h, s.latest) && AllPend(par, s)
    requires s.pend[c].Some? && !IsPut(s.pend[c].value.typ)
    requires if s.pend[c].value.typ == GETX then s.h.st[p] == M else s.h.st[p] != I
    ensures var req := s.pend[c].value;
            GetDone(par, s.h, p, c, req.typ, req.noExcl, Finish(par, s, p, c, req).h)
  {
    hide AllLocal, AfterGet, TopGetX, TopGetS;
    var req := s.pend[c].value;
    assert PendOk(par, s, c);
    if req.typ == GETX {
      GetXExact(par, s.h, p, c, req.noExcl, s.latest);
    } else {
      GetSExact(par, s.h, p, c, req.noExcl, s.latest);
    }
  }

  lemma ServeExact(par: seq<nat>, s: Sys, c: nat)
    requires Tree(par) && Inv(par, s) && Enabled(par, s, Serve(c))
    ensures forall u: nat :: u < |par| ==> DoServe(par, s, c).h.st[u] == StateAfter(par, s, Serve(c), u)
  {
    hide AllLocal, AfterGet, TopGetX, TopGetS, Finish;
    var p := par[c];
    var req := s.pend[c].value;
    assert PendOk(par, s, c);
    RaceCheckComplete(req.typ, req.init, s.h.st[c]);
    if !IsPut(req.typ) && !NeedsParent(s.h.st[p], req.typ) {
      if req.typ == GETX {
        SilentUpgradeOk(par, s.h, p, s.latest);
        PendAfterUpgrade(par, s, p);
      }
      FinishExact(par, s.(h := Readied(s.h, p, req.typ)), p, c);
    }
  }

  lemma EvictExact(par: seq<nat>, s: Sys, v: nat)
    requires Tree(par) && Inv(par, s) && Enabled(par, s, IssuePut(v))
    ensures var r := DoEvict(par, s, v);
            && (forall u: nat :: u < |par| ==> r.h.st[u] == StateAfter(par, s, IssuePut(v), u))
            && r.pend == s.pend[v := Some(Req(if Dirty(par, s.h, v) then PUTX else PUTS, r.h.st[v], false, None))]
  {
    hide AllLocal, SendInvalidates;
    SendAtExact(par, s.h, v, INV, s.latest);
    assert Desc(par, v, v);
  }

  /** Every step leaves every cache in exactly the state that StateAfter gives. */
  lemma StepExact(par: seq<nat>, s: Sys, step: Step)
    requires Tree(par) && Inv(par, s) && Enabled(par, s, step)
    ensures forall u: nat :: u < |par| ==> Next(par, s, step).h.st[u] == StateAfter(par, s, step, u)
  {
    hide AllLocal, AfterGet, TopAccess, DoServe, DoEvict, Finish, Dirty;
    match step
    case Write(t) =>
    case IssueGet(t, typ, noExcl) =>
    case IssuePut(v) => EvictExact(par, s, v);
    case Serve(c) => ServeExact(par, s, c);
    case ServeRoot =>
    case Unwind => FinishExact(par, s, s.grant.value.0, s.grant.value.1);
  }

  lemma EveryStepExact(par: seq<nat>, s0: Sys, before: seq<Step>, s: Sys, step: Step)
    requires Tree(par) && Init(par, s0) && Run(par, s0, before, s) && WellSized(par, s) && Enabled(par, s, step)
    ensures forall u: nat :: u < |par| ==> Next(par, s, step).h.st[u] == StateAfter(par, s, step, u)
  {
    hide Inv, Next, StateAfter, Run;
    InitInv(par, s0);
    RunInv(par, s0, before, s);
    StepExact(par, s, step);
  }

  // ---------------------------------------------------------------- failures

  lemma {:induction false} InvalidateFails(par: seq<nat>, h: Hier, v: nat, ty: InvType)
    requires Tree(par) && Sized(par, h) && v < |par| && h.bad
    ensures Invalidate(par, h, v, ty).0.bad
    decreases |par| - v, 2, 0
  {
    SendFails(par, h, v, ty);
  }

  lemma {:induction false} SendFails(par: seq<nat>, h: Hier, p: nat, ty: InvType)
    requires Tree(par) && Sized(par, h) && p < |par| && h.bad
    ensures SendInvalidates(par, h, p, ty).0.bad
    decreases |par| - p, 1, 0
  {
    SendFromFails(par, h, p, ty, p + 1);
  }

  lemma {:induction false} SendFromFails(par: seq<nat>, h: Hier, p: nat, ty: InvType, c: nat)
    requires Tree(par) && Sized(par, h) && p < c <= |par| && h.bad
    ensures SendFrom(par, h, p, ty, c).0.bad
    decreases |par| - p, 0, |par| - c
  {
    if c < |par| {
      if par[c] == p && c in h.dir[p].sharers {
        InvalidateFails(par, h, c, ty);
        SendFromFails(par, SendOne(par, h, p, ty, c).0, p, ty, c + 1);
      } else {
        SendFromFails(par, h, p, ty, c + 1);
      }
    }
  }

  lemma AccessFails(par: seq<nat>, h: Hier, p: nat, c: nat, t: AccessType, noExcl: bool)
    requires Tree(par) && Sized(par, h) && IsChild(par, c, p) && h.bad
    ensures TopAccess(par, h, p, c, t, noExcl).bad
  {
    hide SendInvalidates;
    SendFails(par, h, p, INVX);
    SendFails(par, DropUpgrader(h, p, c), p, INV);
    assert h.(bad := true) == h;
  }

  /** A failed assertion is never forgotten, so a clear flag speaks for the whole run. */
  lemma FailuresStay(par: seq<nat>, s: Sys, step: Step)
    requires Tree(par) && WellSized(par, s) && Enabled(par, s, step) && s.h.bad
    ensures Next(par, s, step).h.bad
  {
    hide TopAccess, SendInvalidates, CheckForMESIRace;
    match step
    case Write(t) =>
    case IssueGet(t, typ, noExcl) =>
    case IssuePut(v) => SendFails(par, s.h, v, INV);
    case Serve(c) => ServeFails(par, s, c);
    case ServeRoot =>
    case Unwind =>
      var (p, c) := s.grant.value;
      AccessFails(par, s.h, p, c, s.pend[c].value.typ, s.pend[c].value.noExcl);
  }

  lemma ServeFails(par: seq<nat>, s: Sys, c: nat)
    requires Tree(par) && WellSized(par, s) && 0 < c < |par| && s.pend[c].Some? && s.h.bad
    ensures DoServe(par, s, c).h.bad
  {
    hide TopAccess, CheckForMESIRace;
    var p, req := par[c], s.pend[c].value;
    var race := CheckForMESIRace(req.typ, s.h.st[c], req.init);
    var h := s.h.(bad := s.h.bad || !race.ok);
    AccessFails(par, BottomAccess(h, p, race.typ), p, c, race.typ, false);
    AccessFails(par, BottomAccess(h, p, race.typ), p, c, req.typ, req.noExcl);
  }

  // -------------------------------------------------------------- lone loads

  /** Only loads on the way from memory to cache t are in flight, and only caches on that way have
      a copy. */
  ghost predicate Lone(par: seq<nat>, s: Sys, t: nat, noExcl: bool)
    requires Tree(par)
  {
    && WellSized(par, s) && t < |par|
    && (forall u: nat :: u < |par| && s.h.st[u] != I ==> Desc(par, t, u))
    && (forall v: nat :: v < |par| && s.pend[v].Some? ==>
          Desc(par, t, v) && s.pend[v].value.typ == GETS && s.pend[v].value.noExcl == noExcl)
    && (s.h.st[t] == I <==> s.pend[t].Some?)
  }

  /** No cache is restricted to a shared copy. */
  ghost predicate AllExclusive(st: seq<MesiState>) {
    forall u :: 0 <= u < |st| && st[u] != I ==> HasExcl(st[u])
  }

  function LoadState(exclusive: bool): MesiState {
    if exclusive then E else S
  }

  /** Cache c is given the line and nothing else changes. */
  ghost predicate OneFill(st: seq<MesiState>, c: nat, m: MesiState, st': seq<MesiState>) {
    c < |st| && st[c] == I && st' == st[c := m]
  }

  /** Every copy lies on the way from memory to p, when c below p has none. */
  lemma CopiesAbove(par: seq<nat>, s: Sys, t: nat, noExcl: bool, p: nat, c: nat, u: nat)
    requires Tree(par) && Lone(par, s, t, noExcl) && AllLocal(par, s.h, s.latest)
    requires IsChild(par, c, p) && Desc(par, t, c) && s.h.st[c] == I && u < |par| && s.h.st[u] != I
    ensures Desc(par, p, u)
  {
    DescChain(par, t, u, c);
    if Desc(par, u, c) {
      BelowWeaker(par, s.h, s.latest, c, u);
    }
  }

  /** A lone load served at p fills c, exclusively unless declined or somebody has a shared copy. */
  lemma LoneGet(par: seq<nat>, s: Sys, t: nat, noExcl: bool, p: nat, c: nat, k: Hier)
    requires Tree(par) && Lone(par, s, t, noExcl) && AllLocal(par, s.h, s.latest)
    requires IsChild(par, c, p) && Desc(par, t, c) && s.h.st[c] == I && s.h.st[p] != I
    requires GetDone(par, s.h, p, c, GETS, noExcl, k)
    ensures OneFill(s.h.st, c, LoadState(!noExcl && AllExclusive(s.h.st)), k.st)
  {
    hide AllLocal;
    forall u: nat | u < |par| && s.h.st[u] != I
      ensures Desc(par, p, u) && u <= p && (HasExcl(s.h.st[p]) ==> HasExcl(s.h.st[u]))
    {
      CopiesAbove(par, s, t, noExcl, p, c, u);
      DescLe(par, p, u);
      if HasExcl(s.h.st[p]) {
        OwnersAbove(par, s.h, s.latest, p, u);
      }
    }
    forall u: nat | Desc(par, u, p)
      ensures p <= u
    {
      DescLe(par, u, p);
    }
    assert NoCopyBelow(par, s.h, p) && !DirtyUnder(par, s.h, p);
    forall u | 0 <= u < |par| && u != c
      ensures k.st[u] == s.h.st[u]
    {
      assert k.st[u] == AfterGet(par, s.h, p, c, GETS, noExcl, u);
    }
  }

  /** A service of a lone load fills one cache, or passes the request on and fills none. */
  lemma LoneStep(par: seq<nat>, s: Sys, t: nat, noExcl: bool, step: Step) returns (c: nat)
    requires Tree(par) && Inv(par, s) && Lone(par, s, t, noExcl) && Enabled(par, s, step) && IsService(step)
    ensures var r, m := Next(par, s, step), LoadState(!noExcl && AllExclusive(s.h.st));
            && Lone(par, r, t, noExcl)
            && (r.h.st == s.h.st || OneFill(s.h.st, c, m, r.h.st))
  {
    hide Inv, Lone, AllExclusive, Finish, TopAccess;
    LoneFacts(par, s, t, noExcl);
    c := if step.Serve? then step.child else if step.ServeRoot? then 0 else s.grant.value.1;
    LonePend(par, s, t, noExcl, c);
    if step.ServeRoot? {
      RootUnheld(par, s);
      LoneFilled(par, s, DoServeRoot(s), t, noExcl, 0, LoadState(!noExcl));
    } else if step.Serve? && s.h.st[par[c]] == I {
      LoneAsk(par, s, t, noExcl, c, Next(par, s, step));
    } else {
      LoneFinish(par, s, t, noExcl, c);
      assert s.h.(bad := s.h.bad || false) == s.h;
      assert Next(par, s, step) == Finish(par, s, par[c], c, s.pend[c].value);
    }
  }

  lemma LoneFacts(par: seq<nat>, s: Sys, t: nat, noExcl: bool)
    requires Tree(par) && Inv(par, s) && Lone(par, s, t, noExcl)
    ensures WellSized(par, s) && !s.h.bad
    ensures forall v: nat :: v < |par| && s.pend[v].Some? ==>
              s.pend[v].value.typ == GETS && s.pend[v].value.noExcl == noExcl
    ensures s.grant.Some? ==> s.h.st[s.grant.value.0] != I
  {
    hide AllLocal, AllPend;
  }

  lemma LoneFilled(par: seq<nat>, s: Sys, r: Sys, t: nat, noExcl: bool, c: nat, m: MesiState)
    requires Tree(par) && Lone(par, s, t, noExcl) && Desc(par, t, c) && c < |par| && m != I
    requires WellSized(par, r) && r.pend == s.pend[c := None] && OneFill(s.h.st, c, m, r.h.st)
    ensures Lone(par, r, t, noExcl)
  {
  }

  lemma LoneAsk(par: seq<nat>, s: Sys, t: nat, noExcl: bool, c: nat, r: Sys)
    requires Tree(par) && Lone(par, s, t, noExcl) && 0 < c < |par| && Desc(par, t, par[c])
    requires s.pend[par[c]].None? && s.h.st[par[c]] == I && r.h.st == s.h.st && WellSized(par, r)
    requires r.pend == s.pend[par[c] := Some(Req(GETS, I, noExcl, Some(c)))]
    ensures Lone(par, r, t, noExcl)
  {
  }

  lemma LoneFinish(par: seq<nat>, s: Sys, t: nat, noExcl: bool, c: nat)
    requires Tree(par) && Inv(par, s) && Lone(par, s, t, noExcl) && 0 < c < |par|
    requires s.pend[c].Some? && s.h.st[par[c]] != I && s.h.st[c] == I && Desc(par, t, c)
    ensures var r := Finish(par, s, par[c], c, s.pend[c].value);
            && Lone(par, r, t, noExcl)
            && OneFill(s.h.st, c, LoadState(!noExcl && AllExclusive(s.h.st)), r.h.st)
  {
    hide AllLocal, AllExclusive, TopAccess, GetDone, OneFill;
    var p := par[c];
    FinishExact(par, s, p, c);
    var r := Finish(par, s, p, c, s.pend[c].value);
    LoneGet(par, s, t, noExcl, p, c, r.h);
    LoneFilled(par, s, r, t, noExcl, c, LoadState(!noExcl && AllExclusive(s.h.st)));
  }

  lemma LonePend(par: seq<nat>, s: Sys, t: nat, noExcl: bool, c: nat)
    requires Tree(par) && Inv(par, s) && Lone(par, s, t, noExcl) && c < |par| && s.pend[c].Some?
    ensures s.h.st[c] == I && s.pend[c].value.init == I && Desc(par, t, c) && (c > 0 ==> Desc(par, t, par[c]))
  {
    assert PendOk(par, s, c);
    if c > 0 {
      DescTrans(par, t, c, par[c]);
    }
  }

  /** When the last-level cache has no copy nobody has one. */
  lemma RootUnheld(par: seq<nat>, s: Sys)
    requires Tree(par) && Inv(par, s) && s.h.st[0] == I
    ensures (forall u: nat :: u < |par| ==> s.h.st[u] == I) && AllExclusive(s.h.st)
  {
    forall u: nat | u < |par|
      ensures s.h.st[u] == I
    {
      DescRoot(par, u);
      BelowWeaker(par, s.h, s.latest, 0, u);
    }
  }

  /** Once t has its copy nothing is in flight any more. */
  lemma LoneDone(par: seq<nat>, s: Sys, t: nat, noExcl: bool)
    requires Tree(par) && Inv(par, s) && Lone(par, s, t, noExcl) && s.h.st[t] != I
    ensures Quiet(s)
  {
    forall v | 0 <= v < |s.pend|
      ensures s.pend[v].None?
    {
      if s.pend[v].Some? {
        LonePend(par, s, t, noExcl, v);
        BelowWeaker(par, s.h, s.latest, v, t);
      }
    }
  }

  lemma QuietStays(par: seq<nat>, s: Sys, steps: seq<Step>, e: Sys)
    requires Tree(par) && WellSized(par, s) && Quiet(s) && Run(par, s, steps, e) && AllServices(steps)
    ensures e == s
  {
    if steps != [] {
      NoServiceQuiet(par, s, steps[0]);
    }
  }

  lemma NoServiceQuiet(par: seq<nat>, s: Sys, step: Step)
    requires Tree(par) && WellSized(par, s) && Quiet(s) && Enabled(par, s, step)
    ensures !IsService(step)
  {
  }

  lemma {:induction false} LoneRun(par: seq<nat>, s: Sys, t: nat, noExcl: bool, steps: seq<Step>, e: Sys)
    requires Tree(par) && Inv(par, s) && Lone(par, s, t, noExcl) && s.h.st[t] == I
    requires Run(par, s, steps, e) && AllServices(steps) && Quiet(e)
    ensures |e.h.st| == |par| && e.h.st[t] == LoadState(!noExcl && AllExclusive(s.h.st))
    decreases |steps|
  {
    hide Inv, Next, Enabled;
    if steps != [] {
      assert IsService(steps[0]);
      var c := LoneStep(par, s, t, noExcl, steps[0]);
      var r := Next(par, s, steps[0]);
      StepOk(par, s, steps[0]);
      if r.h.st[t] != I {
        LoneDone(par, r, t, noExcl);
        QuietStays(par, r, steps[1..], e);
      } else {
        FillKeeps(s.h.st, c, noExcl, r.h.st);
        LoneRun(par, r, t, noExcl, steps[1..], e);
      }
    }
  }

  lemma FillKeeps(st: seq<MesiState>, c: nat, noExcl: bool, st': seq<MesiState>)
    requires st' == st || OneFill(st, c, LoadState(!noExcl && AllExclusive(st)), st')
    ensures !noExcl ==> (AllExclusive(st) <==> AllExclusive(st'))
  {
    if !noExcl && !AllExclusive(st) {
      var u :| 0 <= u < |st| && st[u] != I && !HasExcl(st[u]);
      assert st'[u] == st[u];
    }
  }

  /** A load that is alone, at any depth: while no cache off the way from memory to t has a copy,
      a load of t is served, and however it is served it ends with t in E if the load did not
      decline exclusivity and no cache above has only a shared copy, and in S otherwise. */
  lemma LoneLoad(par: seq<nat>, s0: Sys, before: seq<Step>, s: Sys, t: nat) returns (steps: seq<Step>, e: Sys)
    requires Tree(par) && Init(par, s0) && Run(par, s0, before, s) && WellSized(par, s) && t < |par|
    requires s.pend[t].Some? && s.pend[t].value.typ == GETS
    requires forall v :: 0 <= v < |par| && v != t ==> s.pend[v].None?
    requires forall u: nat :: u < |par| && s.h.st[u] != I ==> Desc(par, t, u)
    ensures Run(par, s, steps, e) && AllServices(steps) && Quiet(e)
    ensures forall other: seq<Step>, f: Sys :: Run(par, s, other, f) && AllServices(other) && Quiet(f) ==>
              |f.h.st| == |par| && f.h.st[t] == LoadState(!s.pend[t].value.noExcl && AllExclusive(s.h.st))
  {
    hide Inv, Quiet, Run;
    InitInv(par, s0);
    RunInv(par, s0, before, s);
    LoneStart(par, s, t);
    steps, e := RequestsDrain(par, s0, before, s);
    forall other: seq<Step>, f: Sys | Run(par, s, other, f) && AllServices(other) && Quiet(f)
      ensures |f.h.st| == |par| && f.h.st[t] == LoadState(!s.pend[t].value.noExcl && AllExclusive(s.h.st))
    {
      LoneRun(par, s, t, s.pend[t].value.noExcl, other, f);
    }
  }

  lemma LoneStart(par: seq<nat>, s: Sys, t: nat)
    requires Tree(par) && Inv(par, s) && t < |par| && s.pend[t].Some? && s.pend[t].value.typ == GETS
    requires forall v :: 0 <= v < |par| && v != t ==> s.pend[v].None?
    requires forall u: nat :: u < |par| && s.h.st[u] != I ==> Desc(par, t, u)
    ensures Lone(par, s, t, s.pend[t].value.noExcl) && s.h.st[t] == I
  {
    assert PendOk(par, s, t) && Desc(par, t, t);
  }
}

/** What serving one access at a cache does to the whole hierarchy. */
module MesiAccess {
  import opened Mesi
  import opened MesiInvalidation

  ghost predicate AllLocal(par: seq<nat>, h: Hier, latest: nat)
    requires Tree(par) && Sized(par, h)
  {
    forall u: nat :: u < |par| ==> Local(par, h, latest, u)
  }

  /** As seen from above, p kept its state and data, or its exclusive copy became dirty. */
  ghost predicate Kept(h: Hier, k: Hier, p: nat)
    requires p < |h.st| == |h.ver| && p < |k.st| == |k.ver|
  {
    (k.st[p] == h.st[p] && k.ver[p] == h.ver[p]) || (HasExcl(h.st[p]) && k.st[p] == M)
  }

  ghost predicate SameOutside(par: seq<nat>, h: Hier, k: Hier, p: nat)
    requires Tree(par) && Sized(par, h) && Sized(par, k)
  {
    forall u: nat :: u < |par| && !Desc(par, u, p) ==> SameAt(h, k, u)
  }

  /** Nodes outside p's subtree stay coherent when p looks the same from above. */
  lemma OutsideLocal(par: seq<nat>, h: Hier, k: Hier, p: nat, latest: nat)
    requires Tree(par) && Sized(par, h) && Sized(par, k) && p < |par|
    requires AllLocal(par, h, latest) && SameOutside(par, h, k, p) && Kept(h, k, p)
    ensures forall u: nat :: u < |par| && !Desc(par, u, p) ==> Local(par, k, latest, u)
  {
    forall u: nat | u < |par| && !Desc(par, u, p)
      ensures Local(par, k, latest, u)
    {
      assert Local(par, h, latest, u);
      forall c: nat | IsChild(par, c, u) && c != p
        ensures SameAt(h, k, c)
      {
        assert !Desc(par, c, p);
      }
      OutsideLocalAt(par, h, k, p, latest, u);
    }
  }

  lemma OutsideLocalAt(par: seq<nat>, h: Hier, k: Hier, p: nat, latest: nat, u: nat)
    requires Tree(par) && Sized(par, h) && Sized(par, k) && p < |par| && u < |par|
    requires Local(par, h, latest, u) && SameAt(h, k, u) && Kept(h, k, p)
    requires forall c: nat :: IsChild(par, c, u) && c != p ==> SameAt(h, k, c)
    ensures Local(par, k, latest, u)
  {
  }

  /** The hierarchy is coherent if it is outside p, at p, and below each child of p. */
  lemma AssembleLocal(par: seq<nat>, k: Hier, p: nat, latest: nat)
    requires Tree(par) && Sized(par, k) && p < |par|
    requires forall u: nat :: u < |par| && !Desc(par, u, p) ==> Local(par, k, latest, u)
    requires Local(par, k, latest, p)
    requires forall c: nat :: IsChild(par, c, p) ==> LocalBelow(par, k, latest, c)
    ensures AllLocal(par, k, latest)
  {
    forall u: nat | u < |par|
      ensures Local(par, k, latest, u)
    {
      if Desc(par, u, p) && u != p {
        var c := DescViaChild(par, u, p);
      }
    }
  }

  lemma ChildrenBelow(par: seq<nat>, h: Hier, p: nat, latest: nat)
    requires Tree(par) && Sized(par, h) && p < |par| && AllLocal(par, h, latest)
    ensures forall c: nat :: IsChild(par, c, p) ==> LocalBelow(par, h, latest, c)
    ensures LocalBelow(par, h, latest, p)
  {
  }

  // ------------------------------------------------------ sendInvalidates at p

  /** sendInvalidates at p in a coherent hierarchy leaves it coherent, with the
      latest data at p; a writeback means p had exclusive permission. */
  lemma SendAtOk(par: seq<nat>, h: Hier, p: nat, ty: InvType, latest: nat)
    requires Tree(par) && Sized(par, h) && p < |par| && h.st[p] != I
    requires AllLocal(par, h, latest)
    ensures var (k, wb) := SendInvalidates(par, h, p, ty);
            && SentAll(par, h, p, ty, latest, k, wb)
            && SameOutside(par, h, k, p)
            && k.ver[p] == latest && (!wb ==> h.ver[p] == latest) && (wb ==> HasExcl(h.st[p]))
            && Local(par, k, latest, p)
            && (forall c: nat :: IsChild(par, c, p) ==> LocalBelow(par, k, latest, c))
            && (forall c: nat :: IsChild(par, c, p) && c !in h.dir[p].sharers ==> SameAt(h, k, c))
  {
    hide SentAll;
    assert Local(par, h, latest, p);
    ChildrenBelow(par, h, p, latest);
    SendInvalidatesOk(par, h, p, ty, latest);
    var (k, wb) := SendInvalidates(par, h, p, ty);
    SentSized(par, h, p, ty, latest, k, wb);
    ChildrenLocal(par, h, p, ty, latest, k, wb);
    SendOutside(par, h, p, ty, latest, k, wb);
    SendAtNode(par, h, p, ty, latest, k, wb);
  }

  lemma SentSized(par: seq<nat>, h: Hier, p: nat, ty: InvType, latest: nat, k: Hier, wb: bool)
    requires Tree(par) && Sized(par, h) && p < |par|
    requires SentAll(par, h, p, ty, latest, k, wb)
    ensures Sized(par, k)
  {
  }

  lemma SendOutside(par: seq<nat>, h: Hier, p: nat, ty: InvType, latest: nat, k: Hier, wb: bool)
    requires Tree(par) && Sized(par, h) && Sized(par, k) && p < |par| && SharersOk(par, h, p)
    requires SentAll(par, h, p, ty, latest, k, wb)
    ensures SameOutside(par, h, k, p)
  {
    OutsideUntouched(par, h, p);
  }

  lemma SendAtNode(par: seq<nat>, h: Hier, p: nat, ty: InvType, latest: nat, k: Hier, wb: bool)
    requires Tree(par) && Sized(par, h) && p < |par| && h.st[p] != I
    requires Local(par, h, latest, p)
    requires SentAll(par, h, p, ty, latest, k, wb)
    requires forall c: nat :: IsChild(par, c, p) && c !in h.dir[p].sharers ==> SameAt(h, k, c)
    ensures k.ver[p] == latest && (!wb ==> h.ver[p] == latest) && (wb ==> HasExcl(h.st[p]))
    ensures Local(par, k, latest, p)
  {
    if h.ver[p] != latest {
      assert |h.dir[p].sharers| == 1;
      var x :| x in h.dir[p].sharers;
      assert wb;
    }
  }

  // --------------------------------------------------------- accesses served

  /** Effect of a GETS or GETX of child c served at p. */
  ghost predicate Granted(par: seq<nat>, h: Hier, p: nat, c: nat, t: AccessType, latest: nat, k: Hier)
    requires Tree(par) && Sized(par, h) && IsChild(par, c, p)
  {
    && Sized(par, k) && k.bad == h.bad
    && AllLocal(par, k, latest)
    && Kept(h, k, p) && SameOutside(par, h, k, p)
    && (if t == GETX then k.st[c] == M else k.st[c] == S || k.st[c] == E)
    && (forall u: nat :: u < |par| && u != p && u != c ==> Weakened(h.st[u], k.st[u]))
    && (forall u: nat :: u < |par| ==> k.ver[u] == h.ver[u] || k.ver[u] == latest)
  }

  /** The fill together with the writeback recorded in p's bottom controller. */
  function Give(h: Hier, p: nat, c: nat, m: MesiState, e: Entry, wb: bool): (r: Hier)
    requires p < |h.dir| && c < |h.st| == |h.ver| == |h.dir|
  {
    var k := Fill(h, p, c, m, e);
    if wb then k.(st := k.st[p := M]) else k
  }

  /** p may hand its latest data to child c in state m and record entry e. */
  ghost predicate MayGive(par: seq<nat>, h: Hier, p: nat, c: nat, m: MesiState, e: Entry, wb: bool, latest: nat)
    requires Tree(par) && Sized(par, h) && IsChild(par, c, p)
  {
    && (HasExcl(h.st[p]) || (h.st[p] == S && !e.IsExclusive()))
    && (wb ==> HasExcl(h.st[p]))
    && h.ver[p] == latest && !HasExcl(h.st[c])
    && (forall x: nat :: x in e.sharers <==> IsChild(par, x, p) && (x == c || h.st[x] != I))
    && e.numSharers == |e.sharers| && (e.exclusive ==> e.numSharers <= 1)
    && (if e.IsExclusive() then HasExcl(m) else m == S)
    && (forall x: nat :: x in e.sharers && x != c ==> !e.IsExclusive() && h.st[x] == S)
  }

  lemma GiveOk(par: seq<nat>, h: Hier, p: nat, c: nat, m: MesiState, e: Entry, wb: bool, latest: nat)
    requires Tree(par) && Sized(par, h) && IsChild(par, c, p)
    requires forall x: nat :: IsChild(par, x, p) ==> LocalBelow(par, h, latest, x)
    requires MayGive(par, h, p, c, m, e, wb, latest)
    ensures var k := Give(h, p, c, m, e, wb);
            && Local(par, k, latest, p)
            && (forall x: nat :: IsChild(par, x, p) ==> LocalBelow(par, k, latest, x))
  {
    var k := Give(h, p, c, m, e, wb);
    forall x: nat | IsChild(par, x, p)
      ensures LocalBelow(par, k, latest, x)
    {
      FillBelow(par, h, p, c, latest, k, x);
    }
  }

  lemma FillBelow(par: seq<nat>, h: Hier, p: nat, c: nat, latest: nat, k: Hier, x: nat)
    requires Tree(par) && Sized(par, h) && Sized(par, k) && IsChild(par, c, p) && IsChild(par, x, p)
    requires LocalBelow(par, h, latest, x)
    requires !HasExcl(h.st[c]) && k.st[c] != I && k.dir[c] == h.dir[c] && k.ver[c] == latest
    requires forall u: nat :: u < |par| && u != p && u != c ==> SameAt(h, k, u)
    ensures LocalBelow(par, k, latest, x)
  {
    BelowChild(par, p, x);
    forall u: nat | Desc(par, u, x)
      ensures Local(par, k, latest, u)
    {
      assert Local(par, h, latest, u);
      forall y: nat | IsChild(par, y, u)
        ensures SameAt(h, k, y)
      {
        assert Desc(par, y, x) && y != c;
      }
      if u == c {
      } else {
        LocalFrame(par, h, k, latest, u);
      }
    }
  }

  /** From p's children being coherent in h1 to the whole hierarchy after the fill. */
  lemma GrantedGlobal(par: seq<nat>, h: Hier, p: nat, c: nat, t: AccessType, latest: nat,
                      h1: Hier, m: MesiState, e: Entry, wb: bool)
    requires Tree(par) && Sized(par, h) && Sized(par, h1) && IsChild(par, c, p)
    requires AllLocal(par, h, latest) && SameOutside(par, h, h1, p)
    requires forall u: nat :: u < |par| ==> Weakened(h.st[u], h1.st[u])
    requires forall u: nat :: u < |par| ==> h1.ver[u] == h.ver[u] || h1.ver[u] == latest
    requires h1.bad == h.bad && h1.st[p] == h.st[p] && (!wb ==> h1.ver[p] == h.ver[p])
    requires if t == GETX then m == M else m == S || m == E
    requires forall x: nat :: IsChild(par, x, p) ==> LocalBelow(par, h1, latest, x)
    requires MayGive(par, h1, p, c, m, e, wb, latest)
    ensures Granted(par, h, p, c, t, latest, Give(h1, p, c, m, e, wb))
  {
    var k := Give(h1, p, c, m, e, wb);
    GiveOk(par, h1, p, c, m, e, wb, latest);
    GiveOutside(par, h, p, c, h1, k);
    OutsideLocal(par, h, k, p, latest);
    AssembleLocal(par, k, p, latest);
  }

  lemma GiveOutside(par: seq<nat>, h: Hier, p: nat, c: nat, h1: Hier, k: Hier)
    requires Tree(par) && Sized(par, h) && Sized(par, h1) && Sized(par, k) && IsChild(par, c, p)
    requires SameOutside(par, h, h1, p)
    requires forall u: nat :: u < |par| && u != p && u != c ==> SameAt(h1, k, u)
    ensures SameOutside(par, h, k, p)
  {
    assert Desc(par, c, p);
    forall u: nat | u < |par| && !Desc(par, u, p)
      ensures SameAt(h, k, u)
    {
      assert SameAt(h, h1, u) && SameAt(h1, k, u);
    }
  }

  /** A GETS served at p leaves the whole hierarchy coherent, and its requester in E if exclusivity
      was not declined, p has it and no child of p has a copy, in S otherwise. */
  lemma TopGetSOk(par: seq<nat>, h: Hier, p: nat, c: nat, noExcl: bool, latest: nat)
    requires Tree(par) && Sized(par, h) && IsChild(par, c, p)
    requires AllLocal(par, h, latest) && h.st[p] != I && h.st[c] == I
    ensures Granted(par, h, p, c, GETS, latest, TopGetS(par, h, p, c, noExcl))
    ensures TopGetS(par, h, p, c, noExcl).st[c] ==
              if !noExcl && HasExcl(h.st[p]) && NoCopyBelow(par, h, p) then E else S
  {
    hide Granted, LocalBelow, AllLocal, TopGetS;
    LocalOf(par, h, latest, p);
    GivenState(par, h, p, c, noExcl, latest);
    if h.dir[p].IsExclusive() {
      GetSFromOwner(par, h, p, c, noExcl, latest);
    } else {
      GetSFromParent(par, h, p, c, noExcl, latest);
    }
  }

  /** No child owns the line, so p's own data is handed out, exclusively if nobody shares it. */
  lemma GetSFromParent(par: seq<nat>, h: Hier, p: nat, c: nat, noExcl: bool, latest: nat)
    requires Tree(par) && Sized(par, h) && IsChild(par, c, p)
    requires AllLocal(par, h, latest) && h.st[p] != I && h.st[c] == I
    requires !h.dir[p].IsExclusive()
    ensures Granted(par, h, p, c, GETS, latest, TopGetS(par, h, p, c, noExcl))
  {
    hide Granted, LocalBelow, AllLocal;
    LocalOf(par, h, latest, p);
    ChildrenBelow(par, h, p, latest);
    var e := h.dir[p];
    assert e.IsEmpty() ==> e.sharers == {};
    var first := e.IsEmpty() && HasExcl(h.st[p]) && !noExcl;
    var m := if first then E else S;
    var e' := if first then Entry(1, e.sharers + {c}, true) else Entry(e.numSharers + 1, e.sharers + {c}, false);
    GrantedGlobal(par, h, p, c, GETS, latest, h, m, e', false);
  }

  /** The exclusive owner is downgraded and its data taken before c gets a shared copy. */
  lemma GetSFromOwner(par: seq<nat>, h: Hier, p: nat, c: nat, noExcl: bool, latest: nat)
    requires Tree(par) && Sized(par, h) && IsChild(par, c, p)
    requires AllLocal(par, h, latest) && h.st[p] != I && h.st[c] == I
    requires h.dir[p].IsExclusive() && c !in h.dir[p].sharers
    ensures Granted(par, h, p, c, GETS, latest, TopGetS(par, h, p, c, noExcl))
  {
    hide Granted, LocalBelow, AllLocal, SendInvalidates, SentAll, MayGive, TopGetS, Give;
    SendAtOk(par, h, p, INVX, latest);
    var (h1, wb) := SendInvalidates(par, h, p, INVX);
    var e1 := h1.dir[p];
    OwnerDowngraded(par, h, p, c, latest, h1, wb);
    OwnerGives(par, h, p, c, noExcl, h1, wb);
    GrantedGlobal(par, h, p, c, GETS, latest, h1, S, Entry(e1.numSharers + 1, e1.sharers + {c}, false), wb);
  }

  lemma OwnerGives(par: seq<nat>, h: Hier, p: nat, c: nat, noExcl: bool, h1: Hier, wb: bool)
    requires Tree(par) && Sized(par, h) && IsChild(par, c, p)
    requires h.dir[p].IsExclusive() && c !in h.dir[p].sharers && SendInvalidates(par, h, p, INVX) == (h1, wb)
    requires h1.st[p] == h.st[p] && !h1.dir[p].IsExclusive() && (wb ==> HasExcl(h.st[p]))
    ensures var e1 := h1.dir[p];
            TopGetS(par, h, p, c, noExcl) == Give(h1, p, c, S, Entry(e1.numSharers + 1, e1.sharers + {c}, false), wb)
  {
    hide SendInvalidates;
    assert h.(bad := h.bad || c in h.dir[p].sharers) == h;
  }

  lemma GivenState(par: seq<nat>, h: Hier, p: nat, c: nat, noExcl: bool, latest: nat)
    requires Tree(par) && Sized(par, h) && IsChild(par, c, p) && Local(par, h, latest, p)
    ensures TopGetS(par, h, p, c, noExcl).st[c] ==
              if !noExcl && HasExcl(h.st[p]) && NoCopyBelow(par, h, p) then E else S
  {
    hide SendInvalidates;
    NoSharers(par, h, p, latest);
  }

  lemma NoSharers(par: seq<nat>, h: Hier, p: nat, latest: nat)
    requires Tree(par) && Sized(par, h) && p < |par| && Local(par, h, latest, p)
    ensures h.dir[p].IsEmpty() <==> NoCopyBelow(par, h, p)
  {
    assert h.dir[p].IsEmpty() <==> h.dir[p].sharers == {};
  }

  /** After the downgrade p may hand out a shared copy. */
  lemma OwnerDowngraded(par: seq<nat>, h: Hier, p: nat, c: nat, latest: nat, h1: Hier, wb: bool)
    requires Tree(par) && Sized(par, h) && IsChild(par, c, p) && AllLocal(par, h, latest)
    requires h.st[p] != I && h.st[c] == I && h.dir[p].IsExclusive() && c !in h.dir[p].sharers
    requires SentAll(par, h, p, INVX, latest, h1, wb)
    requires Local(par, h1, latest, p) && h1.ver[p] == latest && SameAt(h, h1, c) && (wb ==> HasExcl(h.st[p]))
    ensures Sized(par, h1) && h1.bad == h.bad && h1.st[p] == h.st[p] && !h1.dir[p].IsExclusive()
    ensures (forall u: nat :: u < |par| ==> Weakened(h.st[u], h1.st[u]))
    ensures forall u: nat :: u < |par| ==> h1.ver[u] == h.ver[u] || h1.ver[u] == latest
    ensures !wb ==> h1.ver[p] == h.ver[p]
    ensures var e1 := h1.dir[p];
            MayGive(par, h1, p, c, S, Entry(e1.numSharers + 1, e1.sharers + {c}, false), wb, latest)
  {
    hide LocalBelow;
    assert Local(par, h, latest, p);
  }

  /** A GETX served at p leaves the whole hierarchy coherent: every other copy is
      gone and the requester holds the only one, with the latest data. */
  lemma TopGetXOk(par: seq<nat>, h: Hier, p: nat, c: nat, latest: nat)
    requires Tree(par) && Sized(par, h) && IsChild(par, c, p)
    requires AllLocal(par, h, latest) && HasExcl(h.st[p]) && !HasExcl(h.st[c])
    ensures Granted(par, h, p, c, GETX, latest, TopGetX(par, h, p, c))
  {
    hide Granted, AllLocal, ReadyToOwn, SendInvalidates, TopGetX, Give;
    var (h1, wb) := SendInvalidates(par, DropUpgrader(h, p, c), p, INV);
    if c in h.dir[p].sharers {
      UpgradeOk(par, h, p, c, latest);
    } else {
      NewOwnerOk(par, h, p, c, latest);
    }
    OwnGranted(par, h, p, c, latest, h1, wb);
    TopGetXGives(par, h, p, c, latest, h1, wb);
  }

  /** With all other copies gone the requester may own the line. */
  lemma OwnGranted(par: seq<nat>, h: Hier, p: nat, c: nat, latest: nat, h1: Hier, wb: bool)
    requires Tree(par) && Sized(par, h) && IsChild(par, c, p)
    requires AllLocal(par, h, latest) && HasExcl(h.st[p]) && !HasExcl(h.st[c])
    requires ReadyToOwn(par, h, p, c, latest, h1, wb)
    ensures Granted(par, h, p, c, GETX, latest, Give(h1, p, c, M, Entry(1, {c}, true), wb))
  {
    hide Granted, LocalBelow, AllLocal;
    GrantedGlobal(par, h, p, c, GETX, latest, h1, M, Entry(1, {c}, true), wb);
  }

  lemma TopGetXGives(par: seq<nat>, h: Hier, p: nat, c: nat, latest: nat, h1: Hier, wb: bool)
    requires Tree(par) && Sized(par, h) && IsChild(par, c, p) && HasExcl(h.st[p])
    requires SendInvalidates(par, DropUpgrader(h, p, c), p, INV) == (h1, wb)
    requires ReadyToOwn(par, h, p, c, latest, h1, wb)
    ensures TopGetX(par, h, p, c) == Give(h1, p, c, M, Entry(1, {c}, true), wb)
  {
    hide LocalBelow, SendInvalidates, SameOutside, DropUpgrader;
    assert h.(bad := h.bad || !HasExcl(h.st[p])) == h;
    assert h1.dir[p].sharers + {c} == {c};
  }

  lemma NewOwnerOk(par: seq<nat>, h: Hier, p: nat, c: nat, latest: nat)
    requires Tree(par) && Sized(par, h) && IsChild(par, c, p)
    requires AllLocal(par, h, latest) && HasExcl(h.st[p]) && c !in h.dir[p].sharers
    ensures var (h1, wb) := SendInvalidates(par, DropUpgrader(h, p, c), p, INV);
            ReadyToOwn(par, h, p, c, latest, h1, wb)
  {
    hide LocalBelow, AllLocal, SentAll, ReadyToOwn;
    LocalOf(par, h, latest, p);
    SendAtOk(par, h, p, INV, latest);
    var (h1, wb) := SendInvalidates(par, h, p, INV);
    OthersGone(par, h, p, c, latest, h, h1, wb);
  }

  lemma LocalOf(par: seq<nat>, h: Hier, latest: nat, u: nat)
    requires Tree(par) && Sized(par, h) && u < |par| && AllLocal(par, h, latest)
    ensures Local(par, h, latest, u)
  {
  }

  /** What GETX needs after its invalidations: no other child has a copy. */
  ghost predicate ReadyToOwn(par: seq<nat>, h: Hier, p: nat, c: nat, latest: nat, h1: Hier, wb: bool)
    requires Tree(par) && Sized(par, h) && IsChild(par, c, p)
  {
    && Sized(par, h1) && SameOutside(par, h, h1, p)
    && (forall u: nat :: u < |par| ==> Weakened(h.st[u], h1.st[u]))
    && (forall u: nat :: u < |par| ==> h1.ver[u] == h.ver[u] || h1.ver[u] == latest)
    && h1.bad == h.bad && h1.st[p] == h.st[p] && (!wb ==> h1.ver[p] == h.ver[p])
    && (forall x: nat :: IsChild(par, x, p) ==> LocalBelow(par, h1, latest, x))
    && (forall x: nat :: IsChild(par, x, p) && x != c ==> h1.st[x] == I)
    && h1.dir[p].sharers == {} && h1.dir[p].numSharers == 0
    && h1.ver[p] == latest && h1.st[c] == h.st[c]
  }

  lemma OthersGone(par: seq<nat>, h: Hier, p: nat, c: nat, latest: nat, h0: Hier, h1: Hier, wb: bool)
    requires Tree(par) && Sized(par, h) && Sized(par, h0) && IsChild(par, c, p)
    requires Local(par, h, latest, p) && h0 == h.(dir := h0.dir)
    requires forall u: nat :: u < |par| && u != p ==> h0.dir[u] == h.dir[u]
    requires h0.dir[p].sharers == h.dir[p].sharers - {c}
    requires SentAll(par, h0, p, INV, latest, h1, wb)
    requires SameOutside(par, h0, h1, p) && h1.ver[p] == latest
    requires forall x: nat :: IsChild(par, x, p) ==> LocalBelow(par, h1, latest, x)
    requires forall x: nat :: IsChild(par, x, p) && x !in h0.dir[p].sharers ==> SameAt(h0, h1, x)
    ensures ReadyToOwn(par, h, p, c, latest, h1, wb)
  {
    hide LocalBelow;
    forall u: nat | u < |par| && !Desc(par, u, p)
      ensures SameAt(h, h1, u)
    {
      assert SameAt(h0, h1, u);
    }
    forall x: nat | IsChild(par, x, p) && x != c
      ensures h1.st[x] == I
    {
      if x !in h0.dir[p].sharers {
        assert SameAt(h0, h1, x);
      }
    }
    assert SameAt(h0, h1, c);
  }

  /** Upgrade miss: the requester is a sharer, so all copies are shared and clean. */
  lemma UpgradeOk(par: seq<nat>, h: Hier, p: nat, c: nat, latest: nat)
    requires Tree(par) && Sized(par, h) && IsChild(par, c, p)
    requires AllLocal(par, h, latest) && HasExcl(h.st[p]) && !HasExcl(h.st[c]) && c in h.dir[p].sharers
    ensures var h0 := DropUpgrader(h, p, c);
            var (h1, wb) := SendInvalidates(par, h0, p, INV);
            ReadyToOwn(par, h, p, c, latest, h1, wb)
  {
    hide LocalBelow, SentAll;
    LocalOf(par, h, latest, p);
    ChildrenBelow(par, h, p, latest);
    var h0 := DropUpgrader(h, p, c);
    forall x: nat | IsChild(par, x, p)
      ensures LocalBelow(par, h0, latest, x)
    {
      BelowChild(par, p, x);
      LocalBelowFrame(par, h, h0, latest, x);
    }
    assert SharersOk(par, h0, p);
    SendInvalidatesOk(par, h0, p, INV, latest);
    var (h1, wb) := SendInvalidates(par, h0, p, INV);
    SentSized(par, h0, p, INV, latest, h1, wb);
    ChildrenLocal(par, h0, p, INV, latest, h1, wb);
    SendOutside(par, h0, p, INV, latest, h1, wb);
    UpgradeVersion(par, h0, p, latest, h1, wb);
    OthersGone(par, h, p, c, latest, h0, h1, wb);
  }

  lemma UpgradeVersion(par: seq<nat>, h: Hier, p: nat, latest: nat, k: Hier, wb: bool)
    requires Tree(par) && Sized(par, h) && p < |par|
    requires SentAll(par, h, p, INV, latest, k, wb) && h.ver[p] == latest
    ensures k.ver[p] == latest
  {
  }

  /** No child of v has a copy. */
  ghost predicate NoCopyBelow(par: seq<nat>, h: Hier, v: nat)
    requires Tree(par) && Sized(par, h)
  {
    forall c: nat :: IsChild(par, c, v) ==> h.st[c] == I
  }

  /** Effect of a PUTS or PUTX of child c served at p. */
  ghost predicate PutDone(par: seq<nat>, h: Hier, p: nat, c: nat, latest: nat, k: Hier)
    requires Tree(par) && Sized(par, h) && IsChild(par, c, p)
  {
    && Sized(par, k) && k.bad == h.bad
    && AllLocal(par, k, latest)
    && Kept(h, k, p) && SameOutside(par, h, k, p)
    && k.st[c] == I
    && (forall u: nat :: u < |par| && u != p && u != c ==> h.st[u] == k.st[u])
    && (forall u: nat :: u < |par| ==> k.ver[u] == h.ver[u] || k.ver[u] == latest)
  }

  /** A writeback that is still valid at serve time is absorbed by the parent. */
  lemma PutOk(par: seq<nat>, h: Hier, p: nat, c: nat, t: AccessType, latest: nat)
    requires Tree(par) && Sized(par, h) && IsChild(par, c, p)
    requires AllLocal(par, h, latest) && IsPut(t) && h.st[c] != I && (h.st[c] == M <==> t == PUTX)
    requires NoCopyBelow(par, h, c)
    ensures PutDone(par, h, p, c, latest, TopAccess(par, BottomAccess(h, p, t), p, c, t, false))
  {
    hide AllLocal, LocalBelow;
    var k := TopAccess(par, BottomAccess(h, p, t), p, c, t, false);
    LocalOf(par, h, latest, p);
    LocalOf(par, h, latest, c);
    ChildrenBelow(par, h, p, latest);
    assert h.dir[c].sharers == {};
    assert c in h.dir[p].sharers;
    assert h.ver[c] == latest;
    PutBelow(par, h, p, c, latest, k);
    PutAtNode(par, h, p, c, t, latest, k);
    assert Desc(par, c, p);
    OutsideLocal(par, h, k, p, latest);
    AssembleLocal(par, k, p, latest);
  }

  lemma PutAtNode(par: seq<nat>, h: Hier, p: nat, c: nat, t: AccessType, latest: nat, k: Hier)
    requires Tree(par) && Sized(par, h) && IsChild(par, c, p)
    requires Local(par, h, latest, p) && c in h.dir[p].sharers && h.ver[c] == latest
    requires IsPut(t) && h.st[c] != I && (h.st[c] == M <==> t == PUTX)
    requires k == TopAccess(par, BottomAccess(h, p, t), p, c, t, false)
    ensures Local(par, k, latest, p) && k.bad == h.bad && Kept(h, k, p)
  {
    assert HasExcl(h.st[c]) ==> h.dir[p].IsExclusive();
    assert h.dir[p].IsExclusive() ==> h.dir[p].sharers == {c} by {
      if h.dir[p].IsExclusive() {
        assert |h.dir[p].sharers - {c}| == 0;
      }
    }
  }

  lemma PutBelow(par: seq<nat>, h: Hier, p: nat, c: nat, latest: nat, k: Hier)
    requires Tree(par) && Sized(par, h) && Sized(par, k) && IsChild(par, c, p)
    requires forall x: nat :: IsChild(par, x, p) ==> LocalBelow(par, h, latest, x)
    requires NoCopyBelow(par, h, c) && h.dir[c].sharers == {} && k.st[c] == I && k.dir[c] == h.dir[c]
    requires forall u: nat :: u < |par| && u != p && u != c ==> SameAt(h, k, u)
    ensures forall x: nat :: IsChild(par, x, p) ==> LocalBelow(par, k, latest, x)
  {
    forall x: nat | IsChild(par, x, p)
      ensures LocalBelow(par, k, latest, x)
    {
      BelowChild(par, p, x);
      forall u: nat | Desc(par, u, x)
        ensures Local(par, k, latest, u)
      {
        assert Local(par, h, latest, u);
        forall y: nat | IsChild(par, y, u)
          ensures SameAt(h, k, y)
        {
          assert Desc(par, y, x) && y != c;
        }
        if u != c {
          LocalFrame(par, h, k, latest, u);
        }
      }
    }
  }

  /** An exclusive copy may become dirty silently without breaking coherence. */
  lemma SilentUpgradeOk(par: seq<nat>, h: Hier, p: nat, latest: nat)
    requires Tree(par) && Sized(par, h) && p < |par|
    requires AllLocal(par, h, latest) && HasExcl(h.st[p])
    ensures AllLocal(par, h.(st := h.st[p := M]), latest)
  {
    var k := h.(st := h.st[p := M]);
    assert Desc(par, p, p);
    OutsideLocal(par, h, k, p, latest);
    forall u: nat | u < |par| && Desc(par, u, p)
      ensures Local(par, k, latest, u)
    {
      assert Local(par, h, latest, u);
      forall y: nat | IsChild(par, y, u)
        ensures SameAt(h, k, y)
      {
        DescLe(par, u, p);
      }
      if u != p {
        LocalFrame(par, h, k, latest, u);
      }
    }
  }
}

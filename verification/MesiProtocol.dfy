/** The coherence protocol as a state machine over a tree of caches, for one line.

    A cache issues a request to its parent by taking a snapshot of its own state and
    dropping its lock; until the parent serves it, invalidations from above may change
    that state.  Serving is atomic because the parent holds both its locks, and a
    parent that lacks permission becomes a requester itself.  When the topmost request of
    such a chain is granted, every level is relocked before the one above is
    unlocked, so the chain unwinds with nothing in between (`grant`). */
module MesiProtocol {
  import opened Mesi
  import opened MesiInvalidation
  import opened MesiAccess

  /** A request in flight: type, snapshot of the requester's state, NOEXCL flag, and
      for an inner cache the child it asks for. */
  datatype Req = Req(typ: AccessType, init: MesiState, noExcl: bool, via: Option<nat>)

  /** Caches, memory's version, last version written, requests in flight, unwinding point. */
  datatype Sys = Sys(h: Hier, mver: nat, latest: nat, pend: seq<Option<Req>>, grant: Option<(nat, nat)>)

  datatype Step =
    | Write(core: nat)                                // store hit in a terminal cache
    | IssueGet(term: nat, typ: AccessType, noExcl: bool)  // load or store miss in a terminal cache
    | IssuePut(node: nat)                             // eviction from any cache
    | Serve(child: nat)                               // parent serves a request in flight
    | ServeRoot                                       // memory serves the last-level cache
    | Unwind                                          // a granted parent finishes its child's access

  // ------------------------------------------------------------------- steps

  predicate WellSized(par: seq<nat>, s: Sys) {
    Sized(par, s.h) && |s.pend| == |par|
  }

  ghost predicate IsTerminal(par: seq<nat>, v: nat) {
    v < |par| && forall c: nat :: !IsChild(par, c, v)
  }

  /** Which steps the locks allow. */
  ghost predicate Enabled(par: seq<nat>, s: Sys, step: Step)
    requires Tree(par) && WellSized(par, s)
  {
    match step
    case Write(t) => s.grant.None? && IsTerminal(par, t) && s.pend[t].None? && HasExcl(s.h.st[t])
    case IssueGet(t, typ, _) =>
      s.grant.None? && IsTerminal(par, t) && s.pend[t].None? && NeedsParent(s.h.st[t], typ)
    case IssuePut(v) => s.grant.None? && v < |par| && s.pend[v].None? && s.h.st[v] != I
    case Serve(c) => s.grant.None? && 0 < c < |par| && s.pend[c].Some? && s.pend[par[c]].None?
    case ServeRoot => s.grant.None? && s.pend[0].Some?
    case Unwind =>
      s.grant.Some? && IsChild(par, s.grant.value.1, s.grant.value.0) && s.pend[s.grant.value.1].Some?
  }

  ghost function Next(par: seq<nat>, s: Sys, step: Step): (r: Sys)
    requires Tree(par) && WellSized(par, s) && Enabled(par, s, step)
    ensures WellSized(par, r)
  {
    match step
    case Write(t) => DoWrite(s, t)
    case IssueGet(t, typ, noExcl) =>
      s.(pend := s.pend[t := Some(Req(typ, s.h.st[t], noExcl, None))])
    case IssuePut(v) => DoEvict(par, s, v)
    case Serve(c) => DoServe(par, s, c)
    case ServeRoot => DoServeRoot(s)
    case Unwind => Finish(par, s, s.grant.value.0, s.grant.value.1, s.pend[s.grant.value.1].value)
  }

  /** A store hit: silent E to M transition, and a new version of the line. */
  function DoWrite(s: Sys, t: nat): (r: Sys)
    requires t < |s.h.st| == |s.h.ver|
  {
    s.(latest := s.latest + 1,
       h := s.h.(st := s.h.st[t := M], ver := s.h.ver[t := s.latest + 1]))
  }

  /** MESICC::processEviction: invalidate the children, then put the line to the parent. */
  function DoEvict(par: seq<nat>, s: Sys, v: nat): (r: Sys)
    requires Tree(par) && WellSized(par, s) && v < |par|
    ensures WellSized(par, r)
  {
    var (h1, wb) := SendInvalidates(par, s.h, v, INV);
    var h2 := if wb then WritebackOnAccess(h1, v) else h1;
    var t := if h2.st[v] == M then PUTX else PUTS;
    s.(h := h2, pend := s.pend[v := Some(Req(t, h2.st[v], false, None))])
  }

  /** Cache::access at the parent: race check, then bottom and top controller. */
  function DoServe(par: seq<nat>, s: Sys, c: nat): (r: Sys)
    requires Tree(par) && WellSized(par, s) && 0 < c < |par| && s.pend[c].Some?
    ensures WellSized(par, r)
  {
    var p := par[c];
    var req := s.pend[c].value;
    var race := CheckForMESIRace(req.typ, s.h.st[c], req.init);
    var h := s.h.(bad := s.h.bad || !race.ok);
    if race.skip then EndPut(s.(h := h), c)
    else if IsPut(race.typ) then
      EndPut(s.(h := TopAccess(par, BottomAccess(h, p, race.typ), p, c, race.typ, false)), c)
    else if NeedsParent(h.st[p], race.typ) then
      s.(h := h, pend := s.pend[p := Some(Req(race.typ, h.st[p], req.noExcl, Some(c)))])
    else Finish(par, s.(h := BottomAccess(h, p, race.typ)), p, c, req)
  }

  /** The evicting cache checks that it has lost the line. */
  function EndPut(s: Sys, c: nat): (r: Sys)
    requires c < |s.h.st| && c < |s.pend|
  {
    s.(h := s.h.(bad := s.h.bad || s.h.st[c] != I), pend := s.pend[c := None])
  }

  /** Top controller of p for its child's GET; the child then holds the line and, if it is
      an inner cache, goes on to finish the access of its own child. */
  function Finish(par: seq<nat>, s: Sys, p: nat, c: nat, req: Req): (r: Sys)
    requires Tree(par) && WellSized(par, s) && IsChild(par, c, p)
    ensures WellSized(par, r)
  {
    var k := TopAccess(par, s.h, p, c, req.typ, req.noExcl);
    Resume(s.(h := k), c, req)
  }

  /** The requester v has been given the line: its state must suffice, and the unwinding
      continues at the child it asked for. */
  function Resume(s: Sys, v: nat, req: Req): (r: Sys)
    requires v < |s.h.st| && v < |s.pend|
    ensures |r.pend| == |s.pend|
  {
    var ok := if req.typ == GETX then s.h.st[v] == M else s.h.st[v] == S || s.h.st[v] == E;
    s.(h := s.h.(bad := s.h.bad || !ok),
       pend := s.pend[v := None],
       grant := if req.via.Some? then Some((v, req.via.value)) else None)
  }

  /** DDRMemory::access */
  function DoServeRoot(s: Sys): (r: Sys)
    requires 0 < |s.h.st| == |s.h.ver| && 0 < |s.pend| && s.pend[0].Some?
    ensures |r.pend| == |s.pend| && |r.h.st| == |s.h.st| && r.h.dir == s.h.dir && |r.h.ver| == |s.h.ver|
  {
    var req := s.pend[0].value;
    match req.typ
    case PUTS => EndPut(s.(h := s.h.(st := s.h.st[0 := I])), 0)
    case PUTX => EndPut(s.(h := s.h.(st := s.h.st[0 := I]), mver := s.h.ver[0]), 0)
    case GETS =>
      Resume(s.(h := s.h.(st := s.h.st[0 := if req.noExcl then S else E], ver := s.h.ver[0 := s.mver])), 0, req)
    case GETX => Resume(s.(h := s.h.(st := s.h.st[0 := M], ver := s.h.ver[0 := s.mver])), 0, req)
  }

  // --------------------------------------------------------------- invariant

  ghost predicate PendOk(par: seq<nat>, s: Sys, v: nat)
    requires Tree(par) && WellSized(par, s) && v < |par|
  {
    s.pend[v].Some? ==>
      var req := s.pend[v].value;
      && RaceOk(req.typ, req.init, s.h.st[v])
      && (v == 0 ==> s.h.st[0] == req.init)
      && (IsPut(req.typ) ==> req.via.None? && NoCopyBelow(par, s.h, v))
      && (req.via.Some? ==> WaitsFor(par, s, v, req.via.value, req.typ))
  }

  /** p is asking, or has just asked, for the line on behalf of child c. */
  ghost predicate WaitsFor(par: seq<nat>, s: Sys, p: nat, c: nat, t: AccessType)
    requires Tree(par) && WellSized(par, s)
  {
    IsChild(par, c, p) && s.pend[c].Some? && s.pend[c].value.typ == t
  }

  ghost predicate GrantOk(par: seq<nat>, s: Sys)
    requires Tree(par) && WellSized(par, s)
  {
    s.grant.Some? ==>
      var (p, c) := s.grant.value;
      && IsChild(par, c, p) && s.pend[p].None? && s.pend[c].Some?
      && !IsPut(s.pend[c].value.typ)
      && (if s.pend[c].value.typ == GETX then s.h.st[p] == M else s.h.st[p] != I)
  }

  /** Memory is the latest, or the last-level cache covers for it. */
  predicate MemOk(s: Sys)
    requires 0 < |s.h.st| == |s.h.ver|
  {
    s.mver != s.latest ==> HasExcl(s.h.st[0]) && (s.h.st[0] == M || s.h.ver[0] != s.latest)
  }

  ghost predicate Versions(par: seq<nat>, s: Sys)
    requires Tree(par) && WellSized(par, s)
  {
    s.mver <= s.latest && forall u: nat :: u < |par| ==> s.h.ver[u] <= s.latest
  }

  ghost predicate AllPend(par: seq<nat>, s: Sys)
    requires Tree(par) && WellSized(par, s)
  {
    forall v: nat :: v < |par| ==> PendOk(par, s, v)
  }

  ghost predicate Inv(par: seq<nat>, s: Sys)
    requires Tree(par)
  {
    && WellSized(par, s)
    && !s.h.bad
    && AllLocal(par, s.h, s.latest)
    && Versions(par, s) && MemOk(s)
    && AllPend(par, s) && GrantOk(par, s)
  }

  // ------------------------------------------------------ the race check

  /** In every situation the invariant allows, CheckForMESIRace passes its asserts, the
      panic on GETS is unreachable, and what it lets through is legal. */
  lemma RaceCheckComplete(t: AccessType, init: MesiState, now: MesiState)
    requires RaceOk(t, init, now)
    ensures var r := CheckForMESIRace(t, now, init);
            && r.ok
            && (now != init <==> r.skip || (IsPut(t) && init != S && now == S) || (t == GETX && init == S && now == I))
            && (r.skip <==> IsPut(t) && now == I)
            && (!r.skip && IsPut(t) ==> IsPut(r.typ) && now != I && (now == M <==> r.typ == PUTX))
            && (!IsPut(t) ==> r.typ == t && !HasExcl(now) && (t == GETS ==> now == I))
  {
  }

  /** And in every situation, foreseen or not: the check fails iff the state changed in a way that
      a GET of this kind or a PUT cannot explain; a PUT whose line is gone is skipped, one that
      lost its exclusivity becomes a PUTS, and nothing else is changed. */
  lemma RaceCheckExact(t: AccessType, init: MesiState, now: MesiState)
    ensures var r := CheckForMESIRace(t, now, init);
            && (r.ok <==> now == init || (IsPut(t) && !HasExcl(now)) || (t == GETX && init == S && now == I))
            && (r.skip <==> now != init && now == I && IsPut(t))
            && r.typ == if t == PUTX && now != init && now != I then PUTS else t
  {
  }

  // ------------------------------------------------------------ preservation

  ghost predicate Init(par: seq<nat>, s: Sys)
    requires Tree(par)
  {
    && WellSized(par, s) && !s.h.bad
    && (forall u: nat :: u < |par| ==>
          s.h.st[u] == I && s.h.dir[u] == CLEAR && s.h.ver[u] <= s.latest && s.pend[u].None?)
    && s.mver == s.latest && s.grant.None?
  }

  lemma InitInv(par: seq<nat>, s: Sys)
    requires Tree(par) && Init(par, s)
    ensures Inv(par, s)
  {
  }

  /** No state got stronger except at p, which nobody is waiting on, and at c. */
  ghost predicate OnlyWeaker(par: seq<nat>, s: Sys, h: Hier, p: nat, c: nat)
    requires Tree(par) && WellSized(par, s) && Sized(par, h) && IsChild(par, c, p)
  {
    && (forall u: nat :: u < |par| && u != p && u != c ==> Weakened(s.h.st[u], h.st[u]))
    && (s.h.st[p] == I ==> h.st[p] == I)
    && (p != 0 ==> h.st[0] == s.h.st[0])
  }

  /** Requests of other caches stay legal while p serves c. */
  lemma PendAfterServe(par: seq<nat>, s: Sys, s': Sys, p: nat, c: nat)
    requires Tree(par) && WellSized(par, s) && WellSized(par, s') && IsChild(par, c, p)
    requires AllPend(par, s) && s.pend[p].None?
    requires s'.pend == s.pend[c := None]
    requires OnlyWeaker(par, s, s'.h, p, c)
    ensures AllPend(par, s')
  {
    forall u: nat | u < |par|
      ensures PendOk(par, s', u)
    {
      assert PendOk(par, s, u);
      if u != p && u != c && s.pend[u].Some? {
        forall x: nat | IsChild(par, x, u) && s.h.st[x] == I
          ensures s'.h.st[x] == I
        {
          assert x != c;
        }
      }
    }
  }

  lemma OnlyWeakerFromGrant(par: seq<nat>, s: Sys, h: Hier, p: nat, c: nat, t: AccessType)
    requires Tree(par) && WellSized(par, s) && IsChild(par, c, p)
    requires Granted(par, s.h, p, c, t, s.latest, h)
    ensures Sized(par, h) && OnlyWeaker(par, s, h, p, c)
  {
    hide AllLocal;
    if p != 0 {
      NotBelow(par, p);
      assert SameAt(s.h, h, 0);
    }
  }

  lemma NotBelow(par: seq<nat>, p: nat)
    requires Tree(par) && 0 < p < |par|
    ensures !Desc(par, 0, p)
  {
  }

  lemma KeptMem(s: Sys, h: Hier, p: nat)
    requires 0 < |s.h.st| == |s.h.ver| && |h.st| == |h.ver| == |s.h.st| && p < |h.st|
    requires MemOk(s) && Kept(s.h, h, p) && (p != 0 ==> h.st[0] == s.h.st[0] && h.ver[0] == s.h.ver[0])
    ensures MemOk(s.(h := h))
  {
  }

  /** A parent with sufficient permission finishes its child's access. */
  lemma FinishOk(par: seq<nat>, s: Sys, p: nat, c: nat)
    requires Tree(par) && WellSized(par, s) && IsChild(par, c, p)
    requires !s.h.bad && AllLocal(par, s.h, s.latest) && Versions(par, s) && MemOk(s) && AllPend(par, s)
    requires s.pend[p].None? && s.pend[c].Some? && !IsPut(s.pend[c].value.typ)
    requires if s.pend[c].value.typ == GETX then s.h.st[p] == M else s.h.st[p] != I
    ensures Inv(par, Finish(par, s, p, c, s.pend[c].value))
  {
    hide AllLocal, Granted, OnlyWeaker;
    var req := s.pend[c].value;
    assert PendOk(par, s, c);
    if req.typ == GETX {
      TopGetXOk(par, s.h, p, c, s.latest);
    } else {
      TopGetSOk(par, s.h, p, c, req.noExcl, s.latest);
    }
    var k := TopAccess(par, s.h, p, c, req.typ, req.noExcl);
    OnlyWeakerFromGrant(par, s, k, p, c, req.typ);
    GrantedFacts(par, s, p, c, req.typ, k);
    var s' := Finish(par, s, p, c, req);
    assert s'.h == k;
    PendAfterServe(par, s, s', p, c);
    if req.via.Some? {
      assert WaitsFor(par, s, c, req.via.value, req.typ);
    }
  }

  lemma GrantedFacts(par: seq<nat>, s: Sys, p: nat, c: nat, t: AccessType, k: Hier)
    requires Tree(par) && WellSized(par, s) && IsChild(par, c, p)
    requires Granted(par, s.h, p, c, t, s.latest, k)
    requires Versions(par, s) && MemOk(s)
    ensures Sized(par, k) && k.bad == s.h.bad && AllLocal(par, k, s.latest)
    ensures if t == GETX then k.st[c] == M else k.st[c] == S || k.st[c] == E
    ensures Versions(par, s.(h := k)) && MemOk(s.(h := k))
  {
    if p != 0 {
      NotBelow(par, p);
      assert SameAt(s.h, k, 0);
    }
    KeptMem(s, k, p);
  }

  /** Changing only the exclusive state of an idle cache disturbs no request in flight. */
  lemma PendAfterUpgrade(par: seq<nat>, s: Sys, p: nat)
    requires Tree(par) && WellSized(par, s) && p < |par|
    requires AllPend(par, s) && s.pend[p].None? && s.h.st[p] != I
    ensures AllPend(par, s.(h := s.h.(st := s.h.st[p := M])))
  {
    var s' := s.(h := s.h.(st := s.h.st[p := M]));
    forall u: nat | u < |par|
      ensures PendOk(par, s', u)
    {
      assert PendOk(par, s, u);
    }
  }

  lemma ServeOk(par: seq<nat>, s: Sys, c: nat)
    requires Tree(par) && Inv(par, s) && Enabled(par, s, Serve(c))
    ensures Inv(par, DoServe(par, s, c))
  {
    hide AllLocal;
    var p := par[c];
    var req := s.pend[c].value;
    assert PendOk(par, s, c);
    RaceCheckComplete(req.typ, req.init, s.h.st[c]);
    var race := CheckForMESIRace(req.typ, s.h.st[c], req.init);
    if race.skip {
      PendAfterServe(par, s, DoServe(par, s, c), p, c);
    } else if IsPut(race.typ) {
      ServePut(par, s, c, race.typ);
    } else if NeedsParent(s.h.st[p], race.typ) {
      ServeAsk(par, s, c);
    } else if race.typ == GETX {
      SilentUpgradeOk(par, s.h, p, s.latest);
      PendAfterUpgrade(par, s, p);
      var s1 := s.(h := s.h.(st := s.h.st[p := M]));
      KeptMem(s, s1.h, p);
      FinishOk(par, s1, p, c);
    } else {
      FinishOk(par, s, p, c);
    }
  }

  lemma ServePut(par: seq<nat>, s: Sys, c: nat, t: AccessType)
    requires Tree(par) && Inv(par, s) && Enabled(par, s, Serve(c))
    requires IsPut(t) && s.h.st[c] != I && (s.h.st[c] == M <==> t == PUTX) && NoCopyBelow(par, s.h, c)
    ensures var h := TopAccess(par, BottomAccess(s.h, par[c], t), par[c], c, t, false);
            Inv(par, EndPut(s.(h := h), c))
  {
    hide AllLocal;
    var p := par[c];
    PutOk(par, s.h, p, c, t, s.latest);
    var k := TopAccess(par, BottomAccess(s.h, p, t), p, c, t, false);
    if p != 0 {
      NotBelow(par, p);
      assert SameAt(s.h, k, 0);
    }
    KeptMem(s, k, p);
    PendAfterServe(par, s, EndPut(s.(h := k), c), p, c);
  }

  /** A parent without permission becomes a requester itself. */
  lemma ServeAsk(par: seq<nat>, s: Sys, c: nat)
    requires Tree(par) && Inv(par, s) && Enabled(par, s, Serve(c))
    requires !IsPut(s.pend[c].value.typ) && NeedsParent(s.h.st[par[c]], s.pend[c].value.typ)
    ensures var req := s.pend[c].value;
            var p := par[c];
            Inv(par, s.(pend := s.pend[p := Some(Req(req.typ, s.h.st[p], req.noExcl, Some(c)))]))
  {
    hide AllLocal;
    var p, req := par[c], s.pend[c].value;
    var s' := s.(pend := s.pend[p := Some(Req(req.typ, s.h.st[p], req.noExcl, Some(c)))]);
    forall u: nat | u < |par|
      ensures PendOk(par, s', u)
    {
      assert PendOk(par, s, u);
    }
  }

  lemma IssueGetOk(par: seq<nat>, s: Sys, t: nat, typ: AccessType, noExcl: bool)
    requires Tree(par) && Inv(par, s) && Enabled(par, s, IssueGet(t, typ, noExcl))
    ensures Inv(par, Next(par, s, IssueGet(t, typ, noExcl)))
  {
    hide AllLocal;
    var s' := Next(par, s, IssueGet(t, typ, noExcl));
    forall u: nat | u < |par|
      ensures PendOk(par, s', u)
    {
      assert PendOk(par, s, u);
    }
  }

  /** Memory hands out the latest data, because the last-level cache asks only when it
      holds no exclusive copy, and takes back the latest data. */
  lemma ServeRootOk(par: seq<nat>, s: Sys)
    requires Tree(par) && Inv(par, s) && Enabled(par, s, ServeRoot)
    ensures Inv(par, DoServeRoot(s))
  {
    hide AllPend;
    var s' := DoServeRoot(s);
    var req := s.pend[0].value;
    RootPend(par, s);
    assert Local(par, s.h, s.latest, 0);
    RootLocal(par, s, s'.h);
    if req.via.Some? {
      assert WaitsFor(par, s, 0, req.via.value, req.typ);
    }
  }

  lemma RootPend(par: seq<nat>, s: Sys)
    requires Tree(par) && Inv(par, s) && Enabled(par, s, ServeRoot)
    ensures PendOk(par, s, 0) && WellSized(par, DoServeRoot(s)) && AllPend(par, DoServeRoot(s))
  {
    hide AllLocal, Versions, MemOk;
    var s' := DoServeRoot(s);
    assert PendOk(par, s, 0);
    forall u: nat | u < |par|
      ensures PendOk(par, s', u)
    {
      assert PendOk(par, s, u);
    }
  }

  lemma RootLocal(par: seq<nat>, s: Sys, k: Hier)
    requires Tree(par) && WellSized(par, s) && Sized(par, k)
    requires AllLocal(par, s.h, s.latest)
    requires k.dir == s.h.dir && k.st == s.h.st[0 := k.st[0]] && k.ver == s.h.ver[0 := k.ver[0]]
    requires k.st[0] == I ==> NoCopyBelow(par, s.h, 0)
    requires k.st[0] != I ==> k.ver[0] == s.latest && !HasExcl(s.h.st[0])
    ensures AllLocal(par, k, s.latest)
  {
    forall u: nat | u < |par|
      ensures Local(par, k, s.latest, u)
    {
      assert Local(par, s.h, s.latest, u);
      if u != 0 {
        LocalFrame(par, s.h, k, s.latest, u);
      }
    }
  }

  /** An eviction leaves no copy below the evicting cache and loses no data. */
  lemma EvictOk(par: seq<nat>, s: Sys, v: nat)
    requires Tree(par) && Inv(par, s) && Enabled(par, s, IssuePut(v))
    ensures Inv(par, DoEvict(par, s, v))
  {
    hide AllLocal, SentAll;
    SendAtOk(par, s.h, v, INV, s.latest);
    var (h1, wb) := SendInvalidates(par, s.h, v, INV);
    var h2 := if wb then h1.(st := h1.st[v := M]) else h1;
    EvictFacts(par, s, v, h1, wb, h2);
    EvictLocal(par, s, v, h1, wb, h2);
    var s' := DoEvict(par, s, v);
    assert s'.h == h2;
    forall u: nat | u < |par|
      ensures PendOk(par, s', u)
    {
      assert PendOk(par, s, u);
    }
  }

  lemma EvictFacts(par: seq<nat>, s: Sys, v: nat, h1: Hier, wb: bool, h2: Hier)
    requires Tree(par) && Inv(par, s) && v < |par| && s.h.st[v] != I
    requires SentAll(par, s.h, v, INV, s.latest, h1, wb) && SameOutside(par, s.h, h1, v)
    requires forall c: nat :: IsChild(par, c, v) && c !in s.h.dir[v].sharers ==> SameAt(s.h, h1, c)
    requires h1.ver[v] == s.latest && (!wb ==> s.h.ver[v] == s.latest) && (wb ==> HasExcl(s.h.st[v]))
    requires h2 == if wb then h1.(st := h1.st[v := M]) else h1
    ensures Sized(par, h2) && h2.bad == s.h.bad && Kept(s.h, h2, v) && NoCopyBelow(par, h2, v) && h2.st[v] != I
    ensures forall u: nat :: u < |par| && u != v ==> Weakened(s.h.st[u], h2.st[u])
    ensures Versions(par, s.(h := h2)) && MemOk(s.(h := h2))
    ensures v != 0 ==> SameAt(s.h, h2, 0)
    ensures Sized(par, h1) && h1.st[v] == s.h.st[v]
  {
    assert Local(par, s.h, s.latest, v);
    forall c: nat | IsChild(par, c, v)
      ensures h2.st[c] == I
    {
      if c !in s.h.dir[v].sharers {
        assert SameAt(s.h, h1, c);
      }
    }
    if v != 0 {
      NotBelow(par, v);
      assert SameAt(s.h, h1, 0);
    }
    KeptMem(s, h2, v);
  }

  lemma EvictLocal(par: seq<nat>, s: Sys, v: nat, h1: Hier, wb: bool, h2: Hier)
    requires Tree(par) && Inv(par, s) && v < |par| && Sized(par, h1)
    requires SameOutside(par, s.h, h1, v) && (wb ==> HasExcl(h1.st[v]))
    requires h2 == if wb then h1.(st := h1.st[v := M]) else h1
    requires Kept(s.h, h2, v) && Local(par, h1, s.latest, v)
    requires forall c: nat :: IsChild(par, c, v) ==> LocalBelow(par, h1, s.latest, c)
    ensures AllLocal(par, h2, s.latest)
  {
    forall c: nat | IsChild(par, c, v)
      ensures LocalBelow(par, h2, s.latest, c)
    {
      BelowChild(par, v, c);
      LocalBelowFrame(par, h1, h2, s.latest, c);
    }
    assert SameOutside(par, s.h, h2, v) by {
      forall u: nat | u < |par| && !Desc(par, u, v)
        ensures SameAt(s.h, h2, u)
      {
        assert SameAt(s.h, h1, u);
      }
    }
    OutsideLocal(par, s.h, h2, v, s.latest);
    AssembleLocal(par, h2, v, s.latest);
  }
}

/** Safety of the coherence protocol over every run. */
module MesiTheorems {
  import opened Mesi
  import opened MesiInvalidation
  import opened MesiAccess
  import opened MesiProtocol

  // ------------------------------------------------------ one writer at a time

  lemma {:induction false} DescRoot(par: seq<nat>, u: nat)
    requires Tree(par) && u < |par|
    ensures Desc(par, u, 0)
  {
    if u != 0 {
      DescRoot(par, par[u]);
    }
  }

  /** Every cache above an exclusive copy has exclusive permission too. */
  lemma {:induction false} OwnersAbove(par: seq<nat>, h: Hier, latest: nat, c: nat, a: nat)
    requires Tree(par) && Sized(par, h) && AllLocal(par, h, latest)
    requires a < |par| && Desc(par, c, a) && HasExcl(h.st[c])
    ensures HasExcl(h.st[a])
  {
    if c != a {
      assert Local(par, h, latest, par[c]);
      assert IsChild(par, c, par[c]);
      OwnersAbove(par, h, latest, par[c], a);
    }
  }

  /** The only child of a with a copy is the one on the way to an owner below a. */
  lemma OnlySharer(par: seq<nat>, h: Hier, latest: nat, a: nat, x: nat)
    requires Tree(par) && Sized(par, h) && AllLocal(par, h, latest)
    requires IsChild(par, x, a) && HasExcl(h.st[x])
    ensures h.dir[a].IsExclusive() && h.dir[a].sharers == {x}
  {
    assert Local(par, h, latest, a);
    assert x in h.dir[a].sharers;
    assert |h.dir[a].sharers - {x}| == 0;
  }

  /** While c is exclusive, every copy in the hierarchy lies above or below c. */
  lemma {:induction false} CopiesOnOwnPath(par: seq<nat>, h: Hier, latest: nat, c: nat, u: nat)
    requires Tree(par) && Sized(par, h) && AllLocal(par, h, latest)
    requires c < |par| && HasExcl(h.st[c]) && u < |par| && h.st[u] != I
    ensures Desc(par, u, c) || Desc(par, c, u)
  {
    if u == 0 {
      DescRoot(par, c);
    } else {
      var q := par[u];
      assert Local(par, h, latest, q) && IsChild(par, u, q);
      CopiesOnOwnPath(par, h, latest, c, q);
      if !Desc(par, q, c) {
        var x := DescViaChild(par, c, q);
        OwnersAbove(par, h, latest, c, x);
        OnlySharer(par, h, latest, q, x);
      }
    }
  }

  lemma {:induction false} BelowTerminal(par: seq<nat>, u: nat, t: nat)
    requires Tree(par) && IsTerminal(par, t) && Desc(par, u, t)
    ensures u == t
  {
    if u != t {
      var c := DescViaChild(par, u, t);
    }
  }

  // -------------------------------------------------------------- store hits

  lemma WriteOk(par: seq<nat>, s: Sys, t: nat)
    requires Tree(par) && Inv(par, s) && Enabled(par, s, Write(t))
    ensures Inv(par, DoWrite(s, t))
  {
    var s' := DoWrite(s, t);
    SilentUpgradeOk(par, s.h, t, s.latest);
    forall u: nat | u < |par|
      ensures Local(par, s'.h, s'.latest, u)
    {
      WriteLocal(par, s, t, u);
    }
    WriteMem(par, s, t);
    PendAfterUpgrade(par, s, t);
    forall u: nat | u < |par|
      ensures PendOk(par, s', u)
    {
      assert PendOk(par, s.(h := s.h.(st := s.h.st[t := M])), u);
    }
  }

  /** The new version makes stale exactly the copies above the writer, which it covers. */
  lemma WriteLocal(par: seq<nat>, s: Sys, t: nat, u: nat)
    requires Tree(par) && Inv(par, s) && Enabled(par, s, Write(t)) && u < |par|
    requires AllLocal(par, s.h.(st := s.h.st[t := M]), s.latest)
    ensures Local(par, DoWrite(s, t).h, s.latest + 1, u)
  {
    var h, k := s.h.(st := s.h.st[t := M]), DoWrite(s, t).h;
    assert Local(par, h, s.latest, u) && DirOk(par, h, u);
    assert DirOk(par, k, u);
    if u != t && s.h.st[u] != I {
      CopiesOnOwnPath(par, s.h, s.latest, t, u);
      if Desc(par, u, t) {
        BelowTerminal(par, u, t);
      }
      var x := DescViaChild(par, t, u);
      OwnersAbove(par, s.h, s.latest, t, x);
      OnlySharer(par, s.h, s.latest, u, x);
    }
  }

  lemma WriteMem(par: seq<nat>, s: Sys, t: nat)
    requires Tree(par) && Inv(par, s) && Enabled(par, s, Write(t))
    ensures MemOk(DoWrite(s, t))
  {
    DescRoot(par, t);
    OwnersAbove(par, s.h, s.latest, t, 0);
  }

  // ---------------------------------------------------------------- all runs

  lemma StepOk(par: seq<nat>, s: Sys, step: Step)
    requires Tree(par) && Inv(par, s) && Enabled(par, s, step)
    ensures Inv(par, Next(par, s, step))
  {
    hide Inv;
    match step
    case Write(t) => WriteOk(par, s, t);
    case IssueGet(t, typ, noExcl) => IssueGetOk(par, s, t, typ, noExcl);
    case IssuePut(v) => EvictOk(par, s, v);
    case Serve(c) => ServeOk(par, s, c);
    case ServeRoot => ServeRootOk(par, s);
    case Unwind => UnwindOk(par, s);
  }

  lemma UnwindOk(par: seq<nat>, s: Sys)
    requires Tree(par) && Inv(par, s) && Enabled(par, s, Unwind)
    ensures Inv(par, Next(par, s, Unwind))
  {
    hide AllLocal;
    FinishOk(par, s, s.grant.value.0, s.grant.value.1);
  }

  /** s' is reached from s by some sequence of enabled steps. */
  ghost predicate Run(par: seq<nat>, s: Sys, steps: seq<Step>, s': Sys)
    requires Tree(par)
    decreases |steps|
  {
    if steps == [] then s' == s
    else
      && WellSized(par, s) && Enabled(par, s, steps[0])
      && Run(par, Next(par, s, steps[0]), steps[1..], s')
  }

  lemma {:induction false} RunInv(par: seq<nat>, s: Sys, steps: seq<Step>, s': Sys)
    requires Tree(par) && Inv(par, s) && Run(par, s, steps, s')
    ensures Inv(par, s')
    decreases |steps|
  {
    hide Inv;
    if steps != [] {
      StepOk(par, s, steps[0]);
      RunInv(par, Next(par, s, steps[0]), steps[1..], s');
    }
  }

  /** Directory exactness at every cache, in every reachable state: a sharer bit is set
      iff that child has a copy, the count is the number of bits, an exclusive entry means
      one child in E or M under a parent in E or M, otherwise all sharers are in S;
      inclusion holds; and no assertion or panic of the controllers was reached. */
  lemma CoherenceOfEveryRun(par: seq<nat>, s: Sys, steps: seq<Step>, s': Sys)
    requires Tree(par) && Init(par, s) && Run(par, s, steps, s')
    ensures WellSized(par, s') && !s'.h.bad
    ensures forall p: nat, c: nat :: IsChild(par, c, p) ==>
              && (c in s'.h.dir[p].sharers <==> s'.h.st[c] != I)
              && (s'.h.st[c] != I ==> s'.h.st[p] != I)
              && (HasExcl(s'.h.st[c]) ==> HasExcl(s'.h.st[p]) && s'.h.dir[p].sharers == {c})
              && (s'.h.st[c] == S ==> !s'.h.dir[p].IsExclusive())
    ensures forall p: nat :: p < |par| ==> s'.h.dir[p].numSharers == |s'.h.dir[p].sharers|
  {
    InitInv(par, s);
    RunInv(par, s, steps, s');
    forall p: nat, c: nat | IsChild(par, c, p)
      ensures && (c in s'.h.dir[p].sharers <==> s'.h.st[c] != I)
              && (s'.h.st[c] != I ==> s'.h.st[p] != I)
              && (HasExcl(s'.h.st[c]) ==> HasExcl(s'.h.st[p]) && s'.h.dir[p].sharers == {c})
              && (s'.h.st[c] == S ==> !s'.h.dir[p].IsExclusive())
    {
      assert Local(par, s'.h, s'.latest, p);
      if HasExcl(s'.h.st[c]) {
        OnlySharer(par, s'.h, s'.latest, p, c);
      }
    }
    forall p: nat | p < |par|
      ensures s'.h.dir[p].numSharers == |s'.h.dir[p].sharers|
    {
      assert Local(par, s'.h, s'.latest, p);
    }
  }

  /** Single writer or many readers, at any distance in the tree: when a terminal cache can
      write, no other terminal cache has a copy. */
  lemma SingleWriter(par: seq<nat>, s: Sys, steps: seq<Step>, s': Sys, t: nat, u: nat)
    requires Tree(par) && Init(par, s) && Run(par, s, steps, s')
    requires IsTerminal(par, t) && IsTerminal(par, u) && t != u && |s'.h.st| == |par|
    requires HasExcl(s'.h.st[t])
    ensures s'.h.st[u] == I
  {
    InitInv(par, s);
    RunInv(par, s, steps, s');
    if s'.h.st[u] != I {
      CopiesOnOwnPath(par, s'.h, s'.latest, t, u);
      if Desc(par, u, t) {
        BelowTerminal(par, u, t);
      } else {
        BelowTerminal(par, t, u);
      }
    }
  }

  /** Every copy a core can read is the last version written, across all races. */
  lemma ReadsSeeLastWrite(par: seq<nat>, s: Sys, steps: seq<Step>, s': Sys, t: nat)
    requires Tree(par) && Init(par, s) && Run(par, s, steps, s')
    requires IsTerminal(par, t) && WellSized(par, s') && s'.h.st[t] != I
    ensures s'.h.ver[t] == s'.latest
  {
    InitInv(par, s);
    RunInv(par, s, steps, s');
    assert Local(par, s'.h, s'.latest, t);
    assert s'.h.dir[t].sharers == {};
  }

  /** A stale copy has a dirty copy below it. */
  lemma {:induction false} DirtyBelow(par: seq<nat>, h: Hier, latest: nat, v: nat) returns (d: nat)
    requires Tree(par) && Sized(par, h) && AllLocal(par, h, latest)
    requires v < |par| && h.st[v] != I && h.ver[v] != latest
    ensures Desc(par, d, v) && h.st[d] == M
    decreases |par| - v
  {
    assert Local(par, h, latest, v);
    assert |h.dir[v].sharers| == 1;
    var c :| c in h.dir[v].sharers;
    assert IsChild(par, c, v) && Desc(par, c, v);
    if h.st[c] == M {
      d := c;
    } else {
      d := DirtyBelow(par, h, latest, c);
      DescTrans(par, d, c, v);
    }
  }

  /** Dirtiness is conserved: if memory is stale, some cache holds the line in M. */
  lemma DirtinessConserved(par: seq<nat>, s: Sys, steps: seq<Step>, s': Sys) returns (d: nat)
    requires Tree(par) && Init(par, s) && Run(par, s, steps, s')
    requires s'.mver != s'.latest
    ensures d < |par| && |s'.h.st| == |par| && s'.h.st[d] == M
  {
    InitInv(par, s);
    RunInv(par, s, steps, s');
    if s'.h.st[0] == M {
      d := 0;
    } else {
      d := DirtyBelow(par, s'.h, s'.latest, 0);
    }
  }

  /** The race check is complete: in every reachable state a request in flight finds its
      requester in one of the foreseen states, so the check passes its asserts, never
      reaches its panic, skips exactly the PUTs whose line is gone, and hands on only
      requests that are legal for both controllers. */
  lemma RacesForeseen(par: seq<nat>, s: Sys, steps: seq<Step>, s': Sys, c: nat)
    requires Tree(par) && Init(par, s) && Run(par, s, steps, s')
    requires WellSized(par, s') && 0 < c < |par| && s'.pend[c].Some?
    ensures var req := s'.pend[c].value;
            var now := s'.h.st[c];
            var r := CheckForMESIRace(req.typ, now, req.init);
            && r.ok
            && (now != req.init ==>
                  (IsPut(req.typ) && (now == I || now == S)) || (req.typ == GETX && req.init == S && now == I))
            && (r.skip <==> IsPut(req.typ) && now == I)
            && (!r.skip && IsPut(req.typ) ==>
                  && (r.typ == PUTX <==> now == M) && s'.h.st[par[c]] != I && c in s'.h.dir[par[c]].sharers
                  && (r.typ == PUTX ==> HasExcl(s'.h.st[par[c]]) && s'.h.dir[par[c]].IsExclusive()))
            && (!IsPut(req.typ) ==> r.typ == req.typ && !HasExcl(now))
            && (req.typ == GETS ==> c !in s'.h.dir[par[c]].sharers)
            && (req.typ == GETX && c in s'.h.dir[par[c]].sharers ==> !s'.h.dir[par[c]].IsExclusive())
  {
    InitInv(par, s);
    RunInv(par, s, steps, s');
    var req := s'.pend[c].value;
    assert PendOk(par, s', c);
    RaceCheckComplete(req.typ, req.init, s'.h.st[c]);
    assert Local(par, s'.h, s'.latest, par[c]) && IsChild(par, c, par[c]);
  }
}

/** Progress of the coherence protocol: whenever a request is in flight some request can be
    served, and serving, in any order, comes to an end with no request left. */
module MesiProgress {
  import opened Counting
  import opened Mesi
  import opened MesiProtocol
  import opened MesiTheorems

  predicate IsService(step: Step) {
    step.Serve? || step.ServeRoot? || step.Unwind?
  }

  /** No request is in flight and no access is being completed. */
  predicate Quiet(s: Sys) {
    s.grant.None? && forall v :: 0 <= v < |s.pend| ==> s.pend[v].None?
  }

  // ------------------------------------------------------------ something is enabled

  /** The pending cache nearest to memory is not blocked by its parent. */
  lemma {:induction false} TopmostPending(s: Sys, n: nat) returns (v: nat)
    requires n < |s.pend| && s.pend[n].Some?
    ensures v <= n && s.pend[v].Some? && forall u :: 0 <= u < v ==> s.pend[u].None?
  {
    if u :| 0 <= u < n && s.pend[u].Some? {
      v := TopmostPending(s, u);
    } else {
      v := n;
    }
  }

  lemma SomeServiceEnabled(par: seq<nat>, s: Sys) returns (step: Step)
    requires Tree(par) && Inv(par, s) && !Quiet(s)
    ensures IsService(step) && Enabled(par, s, step)
  {
    GrantFacts(par, s);
    if s.grant.Some? {
      step := Unwind;
    } else {
      var n :| 0 <= n < |s.pend| && s.pend[n].Some?;
      var v := TopmostPending(s, n);
      step := if v == 0 then ServeRoot else Serve(v);
    }
  }

  lemma GrantFacts(par: seq<nat>, s: Sys)
    requires Tree(par) && Inv(par, s)
    ensures WellSized(par, s)
    ensures s.grant.Some? ==> IsChild(par, s.grant.value.1, s.grant.value.0) && s.pend[s.grant.value.1].Some?
  {
  }

  // ------------------------------------------------------------------- the measure

  /** The parent is asking, or has just been given the line, on behalf of v. */
  predicate Asked(par: seq<nat>, s: Sys, v: nat)
    requires v < |par| == |s.pend| && Tree(par)
  {
    v > 0 && ((s.pend[par[v]].Some? && s.pend[par[v]].value.via == Some(v)) || s.grant == Some((par[v], v)))
  }

  /** A request that may still make its parent ask counts for all caches above it. */
  function Weight(par: seq<nat>, s: Sys, v: nat): nat
    requires v < |par| == |s.pend| && Tree(par)
  {
    if s.pend[v].None? then 0 else if Asked(par, s, v) then 1 else 2 * v + 1
  }

  function Weights(par: seq<nat>, s: Sys): (w: seq<nat>)
    requires |par| == |s.pend| && Tree(par)
    ensures |w| == |par|
  {
    seq(|par|, v requires 0 <= v < |par| => Weight(par, s, v))
  }

  ghost function Work(par: seq<nat>, s: Sys): (n: nat)
    requires |par| == |s.pend| && Tree(par)
  {
    Sum(Weights(par, s), |par|)
  }

  // ------------------------------------------------------------ each service step

  /** A request of c has ended; if it was made for a child, that child is next. */
  ghost predicate Cleared(par: seq<nat>, s: Sys, r: Sys, c: nat)
    requires |par| == |s.pend| && Tree(par)
  {
    && c < |par| && s.pend[c].Some? && r.pend == s.pend[c := None]
    && r.grant == (match s.pend[c].value.via case Some(d) => Some((c, d)) case None => None)
    && (s.grant.None? || (c > 0 && s.grant == Some((par[c], c))))
  }

  /** The parent p has become a requester for c. */
  ghost predicate Asks(par: seq<nat>, s: Sys, r: Sys, c: nat)
    requires |par| == |s.pend| && Tree(par)
  {
    && 0 < c < |par| && s.pend[c].Some? && s.pend[par[c]].None? && s.grant.None? && r.grant.None?
    && exists q: Req :: q.via == Some(c) && r.pend == s.pend[par[c] := Some(q)]
  }

  /** Whoever asks for a child has that child waiting. */
  ghost predicate ViasOk(par: seq<nat>, s: Sys)
    requires |par| == |s.pend| && Tree(par)
  {
    forall v: nat :: v < |par| && s.pend[v].Some? && s.pend[v].value.via.Some? ==>
      IsChild(par, s.pend[v].value.via.value, v) && s.pend[s.pend[v].value.via.value].Some?
  }

  lemma InvVias(par: seq<nat>, s: Sys)
    requires Tree(par) && Inv(par, s)
    ensures WellSized(par, s) && ViasOk(par, s)
  {
    forall v: nat | v < |par| && s.pend[v].Some? && s.pend[v].value.via.Some?
      ensures IsChild(par, s.pend[v].value.via.value, v) && s.pend[s.pend[v].value.via.value].Some?
    {
      assert PendOk(par, s, v);
    }
  }

  lemma ClearedWork(par: seq<nat>, s: Sys, r: Sys, c: nat)
    requires |par| == |s.pend| && Tree(par) && ViasOk(par, s) && Cleared(par, s, r, c)
    ensures Work(par, r) < Work(par, s)
  {
    forall v | 0 <= v < |par|
      ensures Weight(par, r, v) == if v == c then 0 else Weight(par, s, v)
    {
    }
    assert Weights(par, r) == Weights(par, s)[c := 0];
    SumUpdate(Weights(par, s), |par|, c, 0);
  }

  lemma AsksWork(par: seq<nat>, s: Sys, r: Sys, c: nat)
    requires |par| == |s.pend| && Tree(par) && ViasOk(par, s) && Asks(par, s, r, c)
    ensures Work(par, r) < Work(par, s)
  {
    var p, w := par[c], Weights(par, s);
    var w1: seq<nat> := w[c := 1];
    forall v | 0 <= v < |par|
      ensures Weight(par, r, v) == if v == c then 1 else if v == p then 2 * p + 1 else Weight(par, s, v)
    {
    }
    assert Weights(par, r) == w1[p := 2 * p + 1];
    SumUpdate(w, |par|, c, 1);
    SumUpdate(w1, |par|, p, 2 * p + 1);
  }

  /** A service step ends a request or passes it on to the parent. */
  lemma ServiceEffect(par: seq<nat>, s: Sys, step: Step) returns (c: nat)
    requires Tree(par) && Inv(par, s) && Enabled(par, s, step) && IsService(step)
    ensures |Next(par, s, step).pend| == |par| == |s.pend|
    ensures Cleared(par, s, Next(par, s, step), c) || Asks(par, s, Next(par, s, step), c)
  {
    hide TopAccess, BottomAccess, Inv, PendOk, CheckForMESIRace;
    InvVias(par, s);
    c := if step.Serve? then step.child else if step.ServeRoot? then 0 else s.grant.value.1;
    PutsAlone(par, s, c);
    RaceKeepsPut(s.pend[c].value.typ, s.h.st[c], s.pend[c].value.init);
    if step.Serve? && !Cleared(par, s, Next(par, s, step), c) {
      ServeAsks(par, s, c);
    }
  }

  lemma PutsAlone(par: seq<nat>, s: Sys, v: nat)
    requires Tree(par) && Inv(par, s) && v < |par| && s.pend[v].Some?
    ensures IsPut(s.pend[v].value.typ) ==> s.pend[v].value.via.None?
  {
    assert PendOk(par, s, v);
  }

  lemma RaceKeepsPut(t: AccessType, now: MesiState, init: MesiState)
    ensures var r := CheckForMESIRace(t, now, init);
            (r.skip ==> IsPut(t)) && (IsPut(r.typ) <==> IsPut(t))
  {
  }

  lemma ServeAsks(par: seq<nat>, s: Sys, c: nat)
    requires Tree(par) && WellSized(par, s) && Enabled(par, s, Serve(c))
    requires IsPut(s.pend[c].value.typ) ==> s.pend[c].value.via.None?
    requires !Cleared(par, s, DoServe(par, s, c), c)
    ensures Asks(par, s, DoServe(par, s, c), c)
  {
    hide TopAccess, BottomAccess, CheckForMESIRace;
    RaceKeepsPut(s.pend[c].value.typ, s.h.st[c], s.pend[c].value.init);
    var race := CheckForMESIRace(s.pend[c].value.typ, s.h.st[c], s.pend[c].value.init);
    var q := Req(race.typ, s.h.st[par[c]], s.pend[c].value.noExcl, Some(c));
    assert DoServe(par, s, c).pend == s.pend[par[c] := Some(q)];
  }

  lemma ServiceWork(par: seq<nat>, s: Sys, step: Step)
    requires Tree(par) && Inv(par, s) && Enabled(par, s, step) && IsService(step)
    ensures |Next(par, s, step).pend| == |par| == |s.pend|
    ensures Work(par, Next(par, s, step)) < Work(par, s)
  {
    hide Inv, Next, Enabled, Work, Asks, Cleared;
    InvVias(par, s);
    var c := ServiceEffect(par, s, step);
    if Cleared(par, s, Next(par, s, step), c) {
      ClearedWork(par, s, Next(par, s, step), c);
    } else {
      AsksWork(par, s, Next(par, s, step), c);
    }
  }

  // ------------------------------------------------------------------------ theorems

  ghost predicate AllServices(steps: seq<Step>) {
    forall i :: 0 <= i < |steps| ==> IsService(steps[i])
  }

  /** Services alone cannot go on forever: there are at most as many as there is work. */
  lemma {:induction false} ServicesEnd(par: seq<nat>, s: Sys, steps: seq<Step>, e: Sys)
    requires Tree(par) && Inv(par, s) && Run(par, s, steps, e) && AllServices(steps)
    ensures |par| == |s.pend| == |e.pend| && |steps| + Work(par, e) <= Work(par, s)
    decreases |steps|
  {
    hide Inv, Next, Enabled, Work;
    InvVias(par, s);
    if steps != [] {
      assert IsService(steps[0]);
      ServiceWork(par, s, steps[0]);
      StepOk(par, s, steps[0]);
      ServicesEnd(par, Next(par, s, steps[0]), steps[1..], e);
    }
  }

  lemma {:induction false} Drain(par: seq<nat>, s: Sys) returns (steps: seq<Step>, e: Sys)
    requires Tree(par) && Inv(par, s) && |par| == |s.pend|
    ensures Run(par, s, steps, e) && AllServices(steps) && Quiet(e)
    decreases Work(par, s)
  {
    hide Inv, Next, Enabled, Work, Quiet;
    InvVias(par, s);
    if Quiet(s) {
      steps, e := [], s;
    } else {
      var step := SomeServiceEnabled(par, s);
      ServiceWork(par, s, step);
      StepOk(par, s, step);
      var rest, d := Drain(par, Next(par, s, step));
      steps, e := [step] + rest, d;
      assert steps[1..] == rest;
    }
  }

  /** In every reachable state with a request in flight some service is enabled. */
  lemma NeverStuck(par: seq<nat>, s0: Sys, before: seq<Step>, s: Sys) returns (step: Step)
    requires Tree(par) && Init(par, s0) && Run(par, s0, before, s) && !Quiet(s)
    ensures WellSized(par, s) && IsService(step) && Enabled(par, s, step)
  {
    hide Inv, Quiet;
    InitInv(par, s0);
    RunInv(par, s0, before, s);
    InvVias(par, s);
    step := SomeServiceEnabled(par, s);
  }

  /** From every reachable state a finite run of services clears all requests; and no run of
      services is longer than the work that was there, so any order of serving gets there. */
  lemma RequestsDrain(par: seq<nat>, s0: Sys, before: seq<Step>, s: Sys) returns (steps: seq<Step>, e: Sys)
    requires Tree(par) && Init(par, s0) && Run(par, s0, before, s)
    ensures Run(par, s, steps, e) && AllServices(steps) && Quiet(e)
    ensures |par| == |s.pend| && forall other: seq<Step>, f: Sys :: Run(par, s, other, f) && AllServices(other) ==>
              |other| <= Work(par, s)
  {
    hide Inv, Quiet, Work, Run;
    InitInv(par, s0);
    RunInv(par, s0, before, s);
    InvVias(par, s);
    steps, e := Drain(par, s);
    forall other: seq<Step>, f: Sys | Run(par, s, other, f) && AllServices(other)
      ensures |other| <= Work(par, s)
    {
      ServicesEnd(par, s, other, f);
    }
  }
}

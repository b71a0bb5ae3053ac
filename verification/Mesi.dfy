/** The MESI controllers of one cache line over a tree of caches.

    Nodes are numbered so that a parent has a smaller number than its children;
    node 0 is the last-level cache and memory sits above it.  A node without
    children is a terminal cache.  Every function mirrors one method of the
    top or bottom controller; an assertion or panic of the source that would
    fail sets the `bad` flag.

    The simulator carries no data, so `ver` is the version of the line that each
    cache would hold: it moves exactly where the protocol reports a writeback,
    a PUTX or a fill. */
module Mesi {

  datatype MesiState = I | S | E | M

  datatype AccessType = GETS | GETX | PUTS | PUTX

  datatype InvType = INV | INVX

  datatype Option<T> = None | Some(value: T)

  predicate HasExcl(m: MesiState) {
    m == E || m == M
  }

  predicate IsPut(t: AccessType) {
    t == PUTS || t == PUTX
  }

  /** Directory entry of a top controller. */
  datatype Entry = Entry(numSharers: int, sharers: set<nat>, exclusive: bool) {
    predicate IsEmpty() {
      numSharers == 0
    }

    predicate IsExclusive() {
      numSharers == 1 && exclusive
    }
  }

  const CLEAR := Entry(0, {}, false)

  /** Per-node protocol state of the line: bottom state, top entry, data version. */
  datatype Hier = Hier(st: seq<MesiState>, dir: seq<Entry>, ver: seq<nat>, bad: bool)

  // ---------------------------------------------------------------- the tree

  predicate Tree(par: seq<nat>) {
    |par| >= 1 && forall v :: 1 <= v < |par| ==> par[v] < v
  }

  predicate IsChild(par: seq<nat>, c: nat, p: nat) {
    1 <= c < |par| && par[c] == p
  }

  /** u lies in the subtree rooted at v. */
  predicate Desc(par: seq<nat>, u: nat, v: nat)
    requires Tree(par)
  {
    u < |par| && (u == v || (u > 0 && Desc(par, par[u], v)))
  }

  predicate Sized(par: seq<nat>, h: Hier) {
    |h.st| == |par| && |h.dir| == |par| && |h.ver| == |par|
  }

  // ------------------------------------------------- invalidations, downwards

  /** MESIBottomCC::processInval */
  function BottomInval(h: Hier, v: nat, ty: InvType): (Hier, bool)
    requires v < |h.st|
  {
    var m := h.st[v];
    var ok := m != I && (ty == INVX ==> HasExcl(m));
    (h.(st := h.st[v := if ty == INVX then S else I], bad := h.bad || !ok), m == M)
  }

  /** MESICC::processInv (MESITerminalCC::processInv when v has no children). */
  function Invalidate(par: seq<nat>, h: Hier, v: nat, ty: InvType): (r: (Hier, bool))
    requires Tree(par) && Sized(par, h) && v < |par|
    ensures Sized(par, r.0)
    decreases |par| - v, 2, 0
  {
    var (h1, wb1) := SendInvalidates(par, h, v, ty);
    var (h2, wb2) := BottomInval(h1, v, ty);
    (h2, wb1 || wb2)
  }

  /** MESITopCC::sendInvalidates */
  function SendInvalidates(par: seq<nat>, h: Hier, p: nat, ty: InvType): (r: (Hier, bool))
    requires Tree(par) && Sized(par, h) && p < |par|
    ensures Sized(par, r.0)
    decreases |par| - p, 1, 0
  {
    var e := h.dir[p];
    if ty == INVX && !e.IsExclusive() then (h, false)
    else if e.IsEmpty() then (h, false)
    else
      var (h1, wb, sent) := SendFrom(par, h, p, ty, p + 1);
      (SendDone(h1, p, ty, sent), wb)
  }

  /** The part of sendInvalidates after its loop. */
  function SendDone(h: Hier, p: nat, ty: InvType, sent: nat): (r: Hier)
    requires p < |h.dir|
  {
    var e := h.dir[p];
    var ok := sent == e.numSharers && (ty == INVX ==> e.exclusive && e.numSharers == 1);
    h.(dir := h.dir[p := if ty == INV then e.(numSharers := 0) else e.(exclusive := false)],
       bad := h.bad || !ok)
  }

  /** The loop of sendInvalidates over children c, c+1, ...: new state,
      writeback flag, number of invalidates sent. */
  function SendFrom(par: seq<nat>, h: Hier, p: nat, ty: InvType, c: nat): (r: (Hier, bool, nat))
    requires Tree(par) && Sized(par, h) && p < c <= |par|
    ensures Sized(par, r.0)
    decreases |par| - p, 0, |par| - c
  {
    if c == |par| then (h, false, 0)
    else if par[c] == p && c in h.dir[p].sharers then
      var (h1, wb1) := SendOne(par, h, p, ty, c);
      var (h2, wb2, sent) := SendFrom(par, h1, p, ty, c + 1);
      (h2, wb1 || wb2, sent + 1)
    else SendFrom(par, h, p, ty, c + 1)
  }

  /** One iteration: invalidate child c, take its data if it wrote back, and on
      INV drop its sharer bit. */
  function SendOne(par: seq<nat>, h: Hier, p: nat, ty: InvType, c: nat): (r: (Hier, bool))
    requires Tree(par) && Sized(par, h) && p < c < |par|
    ensures Sized(par, r.0)
    decreases |par| - p, 0, |par| - c, 0
  {
    var (h1, wb) := Invalidate(par, h, c, ty);
    var h2 := if wb then h1.(ver := h1.ver[p := h1.ver[c]]) else h1;
    var e := h2.dir[p];
    (if ty == INV then h2.(dir := h2.dir[p := e.(sharers := e.sharers - {c})]) else h2, wb)
  }

  // ------------------------------------------------------- accesses, upwards

  /** The access cannot be satisfied here: MESIBottomCC::processAccess asks its parent. */
  predicate NeedsParent(m: MesiState, t: AccessType) {
    (t == GETS && m == I) || (t == GETX && (m == I || m == S))
  }

  /** MESIBottomCC::processAccess when no request to the parent is needed. */
  function BottomAccess(h: Hier, p: nat, t: AccessType): (r: Hier)
    requires p < |h.st|
  {
    match t
    case PUTS => h.(bad := h.bad || h.st[p] == I)
    case PUTX => h.(st := h.st[p := M], bad := h.bad || !HasExcl(h.st[p]))
    case GETS => h
    case GETX => h.(st := h.st[p := M], bad := h.bad || NeedsParent(h.st[p], GETX))
  }

  /** MESIBottomCC::processWritebackOnAccess */
  function WritebackOnAccess(h: Hier, p: nat): (r: Hier)
    requires p < |h.st|
  {
    h.(st := h.st[p := M], bad := h.bad || !HasExcl(h.st[p]))
  }

  /** MESITopCC::processAccess at p for child c, and the writeback that
      MESICC::processAccess then records in its bottom controller. */
  function TopAccess(par: seq<nat>, h: Hier, p: nat, c: nat, t: AccessType, noExcl: bool): (r: Hier)
    requires Tree(par) && Sized(par, h) && IsChild(par, c, p)
    ensures Sized(par, r)
  {
    match t
    case PUTS => TopPut(h, p, c, t)
    case PUTX => TopPut(h, p, c, t)
    case GETS => TopGetS(par, h, p, c, noExcl)
    case GETX => TopGetX(par, h, p, c)
  }

  function TopPut(h: Hier, p: nat, c: nat, t: AccessType): (r: Hier)
    requires p < |h.dir| && c < |h.st| == |h.ver| == |h.dir|
  {
    var e := h.dir[p];
    var ok := c in e.sharers && (t == PUTX ==> e.IsExclusive());
    h.(dir := h.dir[p := e.(sharers := e.sharers - {c}, numSharers := e.numSharers - 1)],
       st := h.st[c := I],
       ver := if t == PUTX then h.ver[p := h.ver[c]] else h.ver,
       bad := h.bad || !ok)
  }

  /** Hands child c a copy of p's data in state m. */
  function Fill(h: Hier, p: nat, c: nat, m: MesiState, e: Entry): (r: Hier)
    requires p < |h.dir| && c < |h.st| == |h.ver| == |h.dir|
  {
    h.(dir := h.dir[p := e], st := h.st[c := m], ver := h.ver[c := h.ver[p]])
  }

  function TopGetS(par: seq<nat>, h: Hier, p: nat, c: nat, noExcl: bool): (r: Hier)
    requires Tree(par) && Sized(par, h) && IsChild(par, c, p)
    ensures Sized(par, r)
  {
    var e := h.dir[p];
    if e.IsEmpty() && HasExcl(h.st[p]) && !noExcl then
      Fill(h, p, c, E, Entry(1, e.sharers + {c}, true))
    else
      var h0 := h.(bad := h.bad || c in e.sharers);
      var (h1, wb) := if e.IsExclusive() then SendInvalidates(par, h0, p, INVX) else (h0, false);
      var e1 := h1.dir[p];
      var h2 := Fill(h1, p, c, S, Entry(e1.numSharers + 1, e1.sharers + {c}, false));
      var h3 := h2.(bad := h2.bad || e1.IsExclusive());
      if wb then WritebackOnAccess(h3, p) else h3
  }

  function TopGetX(par: seq<nat>, h: Hier, p: nat, c: nat): (r: Hier)
    requires Tree(par) && Sized(par, h) && IsChild(par, c, p)
    ensures Sized(par, r)
  {
    var h0 := DropUpgrader(h.(bad := h.bad || !HasExcl(h.st[p])), p, c);
    var (h1, wb) := SendInvalidates(par, h0, p, INV);
    var e1 := h1.dir[p];
    var h2 := Fill(h1, p, c, M, Entry(e1.numSharers + 1, e1.sharers + {c}, true));
    var h3 := h2.(bad := h2.bad || e1.numSharers + 1 != 1);
    if wb then WritebackOnAccess(h3, p) else h3
  }

  /** On an upgrade miss the requester is taken out of the sharer list first. */
  function DropUpgrader(h: Hier, p: nat, c: nat): (r: Hier)
    requires p < |h.dir|
  {
    var e := h.dir[p];
    if c in e.sharers then
      h.(dir := h.dir[p := e.(sharers := e.sharers - {c}, numSharers := e.numSharers - 1)],
         bad := h.bad || e.IsExclusive())
    else h
  }

  /** Result of CheckForMESIRace: skip the access, the possibly changed type, no assert failed. */
  datatype Race = Race(skip: bool, typ: AccessType, ok: bool)

  function CheckForMESIRace(t: AccessType, now: MesiState, init: MesiState): (r: Race) {
    if now == init then Race(false, t, true)
    else if IsPut(t) then
      if now == I then Race(true, t, true)
      else Race(false, PUTS, now == S)
    else if t == GETX then Race(false, t, init == S && now == I)
    else Race(false, t, false)
  }

  /** How an invalidation may move a state: lost, downgraded, or untouched. */
  predicate Weakened(before: MesiState, after: MesiState) {
    after == before || after == I || (HasExcl(before) && after == S)
  }

  /** The states in which a requester may find itself when its request is served. */
  predicate RaceOk(t: AccessType, init: MesiState, now: MesiState) {
    match t
    case GETS => init == I && now == I
    case GETX => (init == I && now == I) || (init == S && (now == S || now == I))
    case PUTS => (init == S || init == E) && (now == init || now == S || now == I)
    case PUTX => init == M && (now == M || now == S || now == I)
  }
}

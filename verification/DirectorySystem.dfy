/** The whole directory with its children: tags, entries, the lines allocated in each child,
    and the requests on their way to the directory. */
module DirectorySystem {
  import opened Mesi
  import opened Directory

  /** numSets is a power of two in the source, so masking the hash is a remainder.
      childSet(c, x) is the set of child c that line x belongs to. */
  datatype Config = Config(numSets: nat, ways: nat, hash: nat -> nat,
                           childAssoc: seq<nat>, childSet: (nat, nat) -> nat)

  predicate ValidConfig(g: Config) {
    g.numSets >= 1 && g.ways >= 1
  }

  function Children(g: Config): nat { |g.childAssoc| }

  function NumLines(g: Config): nat { g.numSets * g.ways }

  function DirSet(g: Config, x: nat): (s: nat)
    requires ValidConfig(g)
    ensures s < g.numSets
  {
    g.hash(x) % g.numSets
  }

  /** First way of the set of line x. */
  function First(g: Config, x: nat): (k: nat)
    requires ValidConfig(g)
    ensures k + g.ways <= NumLines(g)
  {
    assert (DirSet(g, x) + 1) * g.ways <= g.numSets * g.ways;
    DirSet(g, x) * g.ways
  }

  predicate InSet(g: Config, x: nat, k: int)
    requires ValidConfig(g)
  {
    First(g, x) <= k < First(g, x) + g.ways
  }

  /** init: the child's state when it sent the request. */
  datatype Req = Req(typ: AccessType, addr: nat, init: MesiState, noExcl: bool)

  /** child[c]: the lines allocated in child c, with their states.  Tag -1 is a free way.
      full: preinsert found no free way and the simulation stopped. */
  datatype Dir = Dir(tags: seq<int>, entries: seq<Entry>, child: seq<map<nat, MesiState>>,
                     pend: seq<Option<Req>>, full: bool, bad: bool)

  predicate Fits(g: Config, d: Dir) {
    && ValidConfig(g) && |d.tags| == |d.entries| == NumLines(g)
    && |d.child| == |d.pend| == Children(g)
  }

  function StateIn(m: map<nat, MesiState>, x: nat): MesiState {
    if x in m then m[x] else I
  }

  function Set(m: map<nat, MesiState>, x: nat, s: MesiState): map<nat, MesiState> {
    m[x := s]
  }

  /** The states of line x in all children. */
  function Column(child: seq<map<nat, MesiState>>, x: nat): (st: seq<MesiState>)
    ensures |st| == |child|
  {
    seq(|child|, c requires 0 <= c < |child| => StateIn(child[c], x))
  }

  function WriteColumn(child: seq<map<nat, MesiState>>, x: nat, st: seq<MesiState>): (r: seq<map<nat, MesiState>>)
    requires |st| == |child|
    ensures |r| == |child|
  {
    seq(|child|, c requires 0 <= c < |child| => if x in child[c] then child[c][x := st[c]] else child[c])
  }

  /** The loops of lookup and preinsert: the first way from k on with the given tag. */
  function Find(tags: seq<int>, tag: int, k: nat, end: nat): (r: int)
    requires k <= end <= |tags|
    ensures r == -1 || (k <= r < end && tags[r] == tag)
    ensures forall i :: k <= i < (if r == -1 then end else r) ==> tags[i] != tag
    decreases end - k
  {
    if k == end then -1 else if tags[k] == tag then k else Find(tags, tag, k + 1, end)
  }

  function Lookup(g: Config, d: Dir, x: nat): (r: int)
    requires Fits(g, d)
    ensures r == -1 || (InSet(g, x, r) && d.tags[r] == x)
    ensures r == -1 ==> forall k :: InSet(g, x, k) ==> d.tags[k] != x
  {
    Find(d.tags, x, First(g, x), First(g, x) + g.ways)
  }

  /** preinsert; -1 stands for its failing assertion. */
  function FreeWay(g: Config, d: Dir, x: nat): (r: int)
    requires Fits(g, d)
    ensures r == -1 || (InSet(g, x, r) && d.tags[r] == -1)
    ensures r == -1 ==> forall k :: InSet(g, x, k) ==> d.tags[k] != -1
  {
    Find(d.tags, -1, First(g, x), First(g, x) + g.ways)
  }

  function LineAt(d: Dir, k: nat, x: nat): (l: Line)
    requires k < |d.entries|
    ensures |l.st| == |d.child|
  {
    Line(Column(d.child, x), d.entries[k], false)
  }

  function WriteLine(d: Dir, k: nat, x: nat, l: Line): (e: Dir)
    requires k < |d.entries| && |l.st| == |d.child|
  {
    d.(entries := d.entries[k := l.entry], child := WriteColumn(d.child, x, l.st), bad := d.bad || l.bad)
  }

  /** A write-back that the directory knows about; the tag goes when the entry is empty. */
  function ServePut(d: Dir, k: nat, x: nat, c: nat, t: AccessType): (e: Dir)
    requires k < |d.entries| == |d.tags| && c < |d.child|
  {
    var l := Put(LineAt(d, k, x), c, t);
    var e := WriteLine(d, k, x, l);
    if l.entry.IsEmpty() then e.(tags := e.tags[k := -1]) else e
  }

  function ServeGet(d: Dir, k: nat, x: nat, c: nat, t: AccessType, noExcl: bool): (e: Dir)
    requires k < |d.entries| == |d.tags| && c < |d.child|
  {
    WriteLine(d, k, x, if t == GETX then GetX(LineAt(d, k, x), c) else GetS(LineAt(d, k, x), c, noExcl))
  }

  /** startAccess and CoherenceDirectory::access for the request that child c has sent. */
  function Serve(g: Config, d: Dir, c: nat): (e: Dir)
    requires Fits(g, d) && c < Children(g) && d.pend[c].Some?
  {
    var r := d.pend[c].value;
    var race := CheckForMESIRace(r.typ, StateIn(d.child[c], r.addr), r.init);
    var d0 := d.(pend := d.pend[c := None], bad := d.bad || !race.ok);
    if race.skip then d0
    else
      var k := Lookup(g, d, r.addr);
      if IsPut(race.typ) then
        if k == -1 then d0.(bad := true)         // forwarded as if it were an instruction line
        else ServePut(d0, k, r.addr, c, race.typ)
      else if k != -1 then ServeGet(d0, k, r.addr, c, race.typ, r.noExcl)
      else
        var f := FreeWay(g, d, r.addr);
        if f == -1 then d.(full := true)
        else ServeGet(d0.(tags := d0.tags[f := r.addr]), f, r.addr, c, race.typ, r.noExcl)
  }

  // ------------------------------------------------------------------ the children

  datatype Step =
    | Allocate(c: nat, x: nat, victim: Option<nat>)   // the frame of an invalid line, or a free one
    | Upgrade(c: nat, x: nat)                         // write hit on an exclusive copy
    | SendGet(c: nat, x: nat, typ: AccessType, noExcl: bool)
    | SendPut(c: nat, x: nat)
    | Serving(c: nat)

  function Frames(g: Config, m: map<nat, MesiState>, c: nat, s: nat): (f: set<nat>) {
    set x | x in m && g.childSet(c, x) == s
  }

  predicate Enabled(g: Config, d: Dir, step: Step) {
    && Fits(g, d) && step.c < Children(g) && !d.full
    && (!step.Serving? ==> d.pend[step.c].None?)
    && var m := d.child[step.c];
       match step
       case Allocate(c, x, v) =>
         && x !in m
         && (match v
             case Some(y) => y in m && m[y] == I && g.childSet(c, y) == g.childSet(c, x)
             case None => |Frames(g, m, c, g.childSet(c, x))| < g.childAssoc[c])
       case Upgrade(c, x) => x in m && HasExcl(m[x])
       case SendGet(c, x, t, _) => x in m && NeedsParent(m[x], t)
       case SendPut(c, x) => x in m && m[x] != I
       case Serving(c) => d.pend[c].Some?
  }

  function Next(g: Config, d: Dir, step: Step): (e: Dir)
    requires Enabled(g, d, step)
  {
    var m := d.child[step.c];
    match step
    case Allocate(c, x, v) =>
      var m0 := if v.Some? then m - {v.value} else m;
      d.(child := d.child[c := Set(m0, x, I)])
    case Upgrade(c, x) => d.(child := d.child[c := Set(m, x, M)])
    case SendGet(c, x, t, noExcl) => d.(pend := d.pend[c := Some(Req(t, x, m[x], noExcl))])
    case SendPut(c, x) => d.(pend := d.pend[c := Some(Req(if m[x] == M then PUTX else PUTS, x, m[x], false))])
    case Serving(c) => Serve(g, d, c)
  }

  ghost predicate Run(g: Config, d: Dir, steps: seq<Step>, e: Dir)
    decreases |steps|
  {
    if steps == [] then e == d
    else Enabled(g, d, steps[0]) && Run(g, Next(g, d, steps[0]), steps[1..], e)
  }

  predicate Initial(g: Config, d: Dir) {
    && Fits(g, d) && !d.full && !d.bad
    && (forall k :: 0 <= k < |d.tags| ==> d.tags[k] == -1 && d.entries[k] == CLEAR)
    && (forall c :: 0 <= c < |d.child| ==> d.child[c] == map[] && d.pend[c] == None)
  }

  // -------------------------------------------------------------------- invariants

  predicate TagsOk(g: Config, tags: seq<int>)
    requires ValidConfig(g)
  {
    && (forall k :: 0 <= k < |tags| ==> tags[k] >= -1 && (tags[k] >= 0 ==> InSet(g, tags[k], k)))
    && (forall i, j :: 0 <= i < j < |tags| && tags[i] >= 0 ==> tags[i] != tags[j])
  }

  /** A free way has a clear entry, a used one describes its line exactly and is not empty. */
  ghost predicate WayOk(d: Dir, k: nat)
    requires k < |d.tags| == |d.entries|
  {
    if d.tags[k] < 0 then d.entries[k] == CLEAR
    else Exact(LineAt(d, k, d.tags[k])) && d.entries[k].sharers != {}
  }

  /** A line that a child holds has a tag. */
  ghost predicate Covered(d: Dir) {
    forall c, x :: 0 <= c < |d.child| && x in d.child[c] && d.child[c][x] != I ==> x in d.tags
  }

  ghost predicate FramesOk(g: Config, child: seq<map<nat, MesiState>>)
    requires |child| == Children(g)
  {
    forall c: nat, s: nat :: c < Children(g) ==> |Frames(g, child[c], c, s)| <= g.childAssoc[c]
  }

  predicate PendOk(m: map<nat, MesiState>, p: Option<Req>) {
    p.Some? ==> p.value.addr in m && RaceOk(p.value.typ, p.value.init, m[p.value.addr])
  }

  ghost predicate Inv(g: Config, d: Dir) {
    && Fits(g, d) && !d.bad && TagsOk(g, d.tags) && Covered(d) && FramesOk(g, d.child)
    && (forall k :: 0 <= k < |d.tags| ==> WayOk(d, k))
    && (forall c :: 0 <= c < |d.child| ==> PendOk(d.child[c], d.pend[c]))
  }
}

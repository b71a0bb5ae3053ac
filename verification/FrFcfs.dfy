/** The per-bank request list of the DDR controller: first-ready, first-come-first-served
    order with a cap on row hits.

    A request is queued behind the last request for the same row as long as that row's run of
    hits is below the limit, and at the end of the list otherwise. */
module FrFcfs {

  /** arrival numbers the requests of a bank in the order they are queued. */
  datatype Request = Request(arrival: nat, row: nat, rowHitSeq: nat)

  /** The row-buffer state of a bank, as far as queueing looks at it. */
  datatype RowBuffer = RowBuffer(open: bool, openRow: nat, curRowHits: nat)

  /** The last request for a row, or -1. */
  function LastOf(q: seq<Request>, row: nat): (i: int)
    ensures -1 <= i < |q|
    ensures i >= 0 ==> q[i].row == row
    ensures forall j :: i < j < |q| ==> q[j].row != row
  {
    if q == [] then -1
    else if q[|q| - 1].row == row then |q| - 1
    else LastOf(q[..|q| - 1], row)
  }

  function InsertAt(q: seq<Request>, i: nat, r: Request): (s: seq<Request>)
    requires i <= |q|
    ensures |s| == |q| + 1 && s[i] == r
    ensures forall j :: 0 <= j < i ==> s[j] == q[j]
    ensures forall j :: i < j < |s| ==> s[j] == q[j - 1]
  {
    q[..i] + [r] + q[i..]
  }

  /** DDRMemory::queue: the place of a new request and its row-hit number. */
  function Place(q: seq<Request>, b: RowBuffer, row: nat, limit: nat): (p: (nat, nat))
    ensures p.0 <= |q|
  {
    var m := LastOf(q, row);
    if m >= 0 then
      if q[m].rowHitSeq < limit then (m + 1, q[m].rowHitSeq + 1) else (|q|, 0)
    else if b.open && row == b.openRow && b.curRowHits < limit && q == [] then (0, b.curRowHits + 1)
    else (|q|, 0)
  }

  function Queued(q: seq<Request>, b: RowBuffer, arrival: nat, row: nat, limit: nat): (s: seq<Request>) {
    var p := Place(q, b, row, limit);
    InsertAt(q, p.0, Request(arrival, row, p.1))
  }

  // ---------------------------------------------------------------- invariants

  predicate Capped(q: seq<Request>, limit: nat) {
    forall i :: 0 <= i < |q| ==> q[i].rowHitSeq <= limit
  }

  /** A request numbered as a hit directly follows its predecessor in the run of hits. */
  predicate HitChains(q: seq<Request>) {
    forall i :: 0 < i < |q| && q[i].rowHitSeq > 0 ==>
      q[i - 1].row == q[i].row && q[i].rowHitSeq == q[i - 1].rowHitSeq + 1
  }

  /** Requests for the same row are in arrival order. */
  predicate RowFifo(s: seq<Request>) {
    forall i, j :: 0 <= i < j < |s| && s[i].row == s[j].row ==> s[i].arrival < s[j].arrival
  }

  /** Rows are served in batches: after a request of a row that is below the limit the next one
      of that row is its hit, and after one at the limit a new batch begins. */
  predicate Batched(q: seq<Request>, limit: nat) {
    forall i, j :: 0 <= i < j < |q| && q[i].row == q[j].row && NoneBetween(q, i, j) ==>
      q[j].rowHitSeq == if q[i].rowHitSeq < limit then q[i].rowHitSeq + 1 else 0
  }

  predicate NoneBetween(q: seq<Request>, i: int, j: int)
    requires 0 <= i < j < |q|
  {
    forall k :: i < k < j ==> q[k].row != q[i].row
  }

  /** So with hits behind their predecessors, no other row comes in between. */
  lemma BatchIsTogether(q: seq<Request>, limit: nat, i: nat, j: nat)
    requires Batched(q, limit) && HitChains(q) && i < j < |q| && q[i].row == q[j].row && NoneBetween(q, i, j)
    requires q[i].rowHitSeq < limit
    ensures j == i + 1
  {
    assert q[j].rowHitSeq > 0;
    assert q[j - 1].row == q[j].row;
  }

  /** A row that is waiting: behind its last request, as its hit, or at the end. */
  lemma QueuedBehindRow(q: seq<Request>, b: RowBuffer, arrival: nat, row: nat, limit: nat, m: nat)
    requires m < |q| && q[m].row == row && forall j :: m < j < |q| ==> q[j].row != row
    ensures Queued(q, b, arrival, row, limit) ==
            if q[m].rowHitSeq < limit then q[..m + 1] + [Request(arrival, row, q[m].rowHitSeq + 1)] + q[m + 1..]
            else q + [Request(arrival, row, 0)]
  {
    assert LastOf(q, row) == m;
  }

  /** A row that is not: at the end, as a hit of the open row only if nobody else waits and the
      row has hits left. */
  lemma QueuedNewRow(q: seq<Request>, b: RowBuffer, arrival: nat, row: nat, limit: nat)
    requires forall j :: 0 <= j < |q| ==> q[j].row != row
    ensures Queued(q, b, arrival, row, limit) ==
            q + [Request(arrival, row, if q == [] && b.open && b.openRow == row && b.curRowHits < limit
                                       then b.curRowHits + 1 else 0)]
  {
    assert LastOf(q, row) == -1;
  }

  lemma QueuedBatched(q: seq<Request>, b: RowBuffer, arrival: nat, row: nat, limit: nat)
    requires Batched(q, limit)
    ensures Batched(Queued(q, b, arrival, row, limit), limit)
  {
    hide InsertAt, Batched;
    var p, m := Place(q, b, row, limit), LastOf(q, row);
    InsertBatched(q, p.0, Request(arrival, row, p.1), limit);
  }

  lemma InsertBatched(q: seq<Request>, p: nat, r: Request, limit: nat)
    requires Batched(q, limit) && p <= |q| && forall j :: p <= j < |q| ==> q[j].row != r.row
    requires var m := LastOf(q, r.row);
             m >= 0 ==> r.rowHitSeq == if q[m].rowHitSeq < limit then q[m].rowHitSeq + 1 else 0
    ensures Batched(InsertAt(q, p, r), limit)
  {
    hide InsertAt, LastOf;
    var s := InsertAt(q, p, r);
    forall i, j | 0 <= i < j < |s| && s[i].row == s[j].row && NoneBetween(s, i, j)
      ensures s[j].rowHitSeq == if s[i].rowHitSeq < limit then s[i].rowHitSeq + 1 else 0
    {
      if j == p {
        BeforeInserted(q, p, r, i);
      } else {
        AroundInserted(q, p, r, i, j);
      }
    }
  }

  lemma BeforeInserted(q: seq<Request>, p: nat, r: Request, i: nat)
    requires i < p <= |q| && q[i].row == r.row && NoneBetween(InsertAt(q, p, r), i, p)
    requires forall j :: p <= j < |q| ==> q[j].row != r.row
    ensures LastOf(q, r.row) == i
  {
    hide InsertAt;
    var m := LastOf(q, r.row);
    assert i <= m < p && InsertAt(q, p, r)[m] == q[m];
  }

  lemma AroundInserted(q: seq<Request>, p: nat, r: Request, i: nat, j: nat)
    requires p <= |q| && i < j <= |q| && j != p && forall k :: p <= k < |q| ==> q[k].row != r.row
    requires var s := InsertAt(q, p, r); s[i].row == s[j].row && NoneBetween(s, i, j)
    ensures var s := InsertAt(q, p, r);
            var i', j' := if i < p then i else i - 1, if j < p then j else j - 1;
            i != p && 0 <= i' < j' < |q| && s[i] == q[i'] && s[j] == q[j'] && NoneBetween(q, i', j')
  {
    hide InsertAt;
    var s := InsertAt(q, p, r);
    assert s[j] == q[if j < p then j else j - 1];
    var i', j' := if i < p then i else i - 1, if j < p then j else j - 1;
    forall k | i' < k < j'
      ensures q[k].row != q[i'].row
    {
      assert s[if k < p then k else k + 1] == q[k];
    }
  }

  lemma QueuedCapped(q: seq<Request>, b: RowBuffer, arrival: nat, row: nat, limit: nat)
    requires Capped(q, limit)
    ensures Capped(Queued(q, b, arrival, row, limit), limit)
  {
    var p := Place(q, b, row, limit);
    var s := Queued(q, b, arrival, row, limit);
    assert s[p.0].rowHitSeq <= limit;
    assert forall j :: 0 <= j < p.0 ==> s[j] == q[j];
  }

  lemma QueuedChains(q: seq<Request>, b: RowBuffer, arrival: nat, row: nat, limit: nat)
    requires HitChains(q)
    ensures HitChains(Queued(q, b, arrival, row, limit))
  {
    var p := Place(q, b, row, limit);
    var s := Queued(q, b, arrival, row, limit);
    forall i | 0 < i < |s| && s[i].rowHitSeq > 0
      ensures s[i - 1].row == s[i].row && s[i].rowHitSeq == s[i - 1].rowHitSeq + 1
    {
      if i < p.0 {
        assert s[i - 1] == q[i - 1];
      } else if i > p.0 {
        assert s[i] == q[i - 1];
        assert i > p.0 + 1 ==> s[i - 1] == q[i - 2];
      }
    }
  }

  /** A request that is newer than all others and comes after all those for its row. */
  lemma InsertFifo(u: seq<Request>, at: nat, r: Request)
    requires RowFifo(u) && at <= |u| && forall i :: 0 <= i < |u| ==> u[i].arrival < r.arrival
    requires forall i :: at <= i < |u| ==> u[i].row != r.row
    ensures RowFifo(InsertAt(u, at, r))
  {
    var t := InsertAt(u, at, r);
    forall i, j | 0 <= i < j < |t| && t[i].row == t[j].row
      ensures t[i].arrival < t[j].arrival
    {
      if i != at && j != at {
        var i', j' := if i < at then i else i - 1, if j < at then j else j - 1;
        assert t[i] == u[i'] && t[j] == u[j'];
      }
    }
  }

  /** The log of served requests followed by the list: the new request comes after all earlier
      ones for its row. */
  lemma InsertBehind(served: seq<Request>, q: seq<Request>, p: nat, r: Request)
    requires p <= |q|
    ensures served + InsertAt(q, p, r) == InsertAt(served + q, |served| + p, r)
  {
    var s := served + q;
    assert s[..|served| + p] == served + q[..p];
    assert s[|served| + p..] == q[p..];
  }

  lemma QueuedFifo(served: seq<Request>, q: seq<Request>, b: RowBuffer, arrival: nat, row: nat, limit: nat)
    requires RowFifo(served + q) && forall i :: 0 <= i < |served + q| ==> (served + q)[i].arrival < arrival
    ensures RowFifo(served + Queued(q, b, arrival, row, limit))
  {
    hide RowFifo, InsertAt;
    var p := Place(q, b, row, limit);
    var r := Request(arrival, row, p.1);
    InsertBehind(served, q, p.0, r);
    InsertFifo(served + q, |served| + p.0, r);
  }

  // ------------------------------------------------------------- bounded bypass

  ghost predicate LastOfRow(q: seq<Request>, i: nat)
    requires i < |q|
  {
    forall j :: i < j < |q| ==> q[j].row != q[i].row
  }

  /** How many more requests may still bypass the position right behind the i-th request
      because of it: the rest of its row's hits, if no later request carries them on. */
  ghost function Slack(q: seq<Request>, i: nat, limit: nat): (n: nat)
    requires i < |q| && Capped(q, limit)
    ensures n <= limit
  {
    if LastOfRow(q, i) then limit - q[i].rowHitSeq else 0
  }

  /** The requests ahead of position p, plus the hits that rows ending ahead of it can add. */
  ghost function Potential(q: seq<Request>, p: nat, limit: nat): (n: nat)
    requires p <= |q| && Capped(q, limit)
  {
    if p == 0 then 0 else Potential(q, p - 1, limit) + 1 + Slack(q, p - 1, limit)
  }

  lemma {:induction false} PotentialBound(q: seq<Request>, p: nat, limit: nat)
    requires p <= |q| && Capped(q, limit)
    ensures p <= Potential(q, p, limit) <= p * (limit + 1)
  {
    if p > 0 {
      PotentialBound(q, p - 1, limit);
      assert p * (limit + 1) == (p - 1) * (limit + 1) + (limit + 1);
    }
  }

  /** Two lists with the same slack up to p have the same potential there. */
  lemma {:induction false} SameSlack(q: seq<Request>, s: seq<Request>, p: nat, limit: nat)
    requires p <= |q| && p <= |s| && Capped(q, limit) && Capped(s, limit)
    requires forall i: nat :: i < p ==> Slack(q, i, limit) == Slack(s, i, limit)
    ensures Potential(q, p, limit) == Potential(s, p, limit)
  {
    if p > 0 {
      SameSlack(q, s, p - 1, limit);
    }
  }

  /** A request inserted right behind the last one of its row, as its next hit. */
  lemma FollowerSlack(q: seq<Request>, m: nat, r: Request, limit: nat, i: nat)
    requires m < |q| && LastOfRow(q, m) && r.row == q[m].row && r.rowHitSeq == q[m].rowHitSeq + 1 <= limit
    requires Capped(q, limit) && Capped(InsertAt(q, m + 1, r), limit) && i < |q|
    ensures var s := InsertAt(q, m + 1, r);
            && (i < m ==> Slack(s, i, limit) == Slack(q, i, limit))
            && Slack(s, m, limit) == 0
            && Slack(s, m + 1, limit) == Slack(q, m, limit) - 1
            && (i > m ==> Slack(s, i + 1, limit) == Slack(q, i, limit))
  {
    var s := InsertAt(q, m + 1, r);
    assert s[m + 1].row == s[m].row;
    if i < m {
      assert q[m].row == q[i].row ==> !LastOfRow(q, i) && !LastOfRow(s, i);
      assert forall j :: m < j < |q| ==> s[j + 1] == q[j];
    } else {
      assert forall j :: m < j < |q| ==> s[j + 1] == q[j];
    }
  }

  lemma {:induction false} FollowerPotential(q: seq<Request>, m: nat, r: Request, limit: nat, p: nat)
    requires m < |q| && LastOfRow(q, m) && r.row == q[m].row && r.rowHitSeq == q[m].rowHitSeq + 1 <= limit
    requires Capped(q, limit) && Capped(InsertAt(q, m + 1, r), limit) && p <= |q|
    ensures Potential(InsertAt(q, m + 1, r), if p <= m then p else p + 1, limit) == Potential(q, p, limit)
  {
    hide Slack, LastOfRow, InsertAt, Capped;
    if p > 0 {
      FollowerPotential(q, m, r, limit, p - 1);
      FollowerSlack(q, m, r, limit, p - 1);
    }
  }

  /** A request put at the end, when its row has no hits left to give. */
  lemma BackSlack(q: seq<Request>, r: Request, limit: nat, p: nat)
    requires p <= |q| && Capped(q, limit) && Capped(q + [r], limit)
    requires LastOf(q, r.row) >= 0 ==> q[LastOf(q, r.row)].rowHitSeq >= limit
    ensures Potential(q + [r], p, limit) == Potential(q, p, limit)
  {
    var s := q + [r];
    forall i: nat | i < p
      ensures Slack(q, i, limit) == Slack(s, i, limit)
    {
      assert s[i] == q[i];
      if q[i].row == r.row {
        assert s[|q|].row == s[i].row && i <= LastOf(q, r.row);
        assert LastOfRow(q, i) ==> i == LastOf(q, r.row);
      } else {
        assert forall j :: i < j < |q| ==> s[j] == q[j];
      }
    }
    SameSlack(q, s, p, limit);
  }

  /** Where the request at position x is after a new one has been queued. */
  function Moved(q: seq<Request>, b: RowBuffer, row: nat, limit: nat, x: nat): (y: nat) {
    if Place(q, b, row, limit).0 <= x then x + 1 else x
  }

  /** Queueing leaves the potential of every waiting request as it is. */
  lemma QueueKeepsPotential(q: seq<Request>, b: RowBuffer, arrival: nat, row: nat, limit: nat, x: nat)
    requires x < |q| && Capped(q, limit)
    ensures var s, y := Queued(q, b, arrival, row, limit), Moved(q, b, row, limit, x);
            && Capped(s, limit) && y < |s| && s[y] == q[x]
            && Potential(s, y, limit) == Potential(q, x, limit)
  {
    QueuedCapped(q, b, arrival, row, limit);
    var m, p := LastOf(q, row), Place(q, b, row, limit);
    var r := Request(arrival, row, p.1);
    if m >= 0 && q[m].rowHitSeq < limit {
      FollowerPotential(q, m, r, limit, x);
    } else {
      assert Queued(q, b, arrival, row, limit) == q + [r];
      BackSlack(q, r, limit, x);
    }
  }

  /** Serving the head takes at least one off the potential of every other request. */
  lemma {:induction false} PopPotential(q: seq<Request>, x: nat, limit: nat)
    requires 0 < x <= |q| && Capped(q, limit)
    ensures Capped(q[1..], limit)
    ensures Potential(q[1..], x - 1, limit) + 1 + Slack(q, 0, limit) == Potential(q, x, limit)
  {
    if x > 1 {
      PopPotential(q, x - 1, limit);
      var t := q[1..];
      assert forall j :: 0 <= j < |t| ==> t[j] == q[j + 1];
      assert LastOfRow(q, x - 1) ==> LastOfRow(t, x - 2);
      assert LastOfRow(t, x - 2) ==> LastOfRow(q, x - 1) by {
        assert forall j :: x - 1 < j < |q| ==> q[j] == t[j - 1];
      }
    }
  }

  // ------------------------------------------------------------------- all runs

  /** A request arrives, finding the bank's row buffer in any state, or the head is served. */
  datatype Op = Arrive(buffer: RowBuffer, row: nat) | Serve

  /** The list, the log of served requests, and the number of the next arrival. */
  datatype BankQueue = BankQueue(list: seq<Request>, served: seq<Request>, next: nat)

  function Do(s: BankQueue, op: Op, limit: nat): (t: BankQueue) {
    match op
    case Arrive(b, row) => s.(list := Queued(s.list, b, s.next, row, limit), next := s.next + 1)
    case Serve =>
      if s.list == [] then s else s.(list := s.list[1..], served := s.served + [s.list[0]])
  }

  function Run(s: BankQueue, ops: seq<Op>, limit: nat): (t: BankQueue)
    decreases |ops|
  {
    if ops == [] then s else Run(Do(s, ops[0], limit), ops[1..], limit)
  }

  function Serves(ops: seq<Op>): (n: nat) {
    if ops == [] then 0 else (if ops[0].Serve? then 1 else 0) + Serves(ops[1..])
  }

  ghost predicate Valid(s: BankQueue, limit: nat) {
    && Capped(s.list, limit) && HitChains(s.list) && RowFifo(s.served + s.list)
    && forall i :: 0 <= i < |s.served + s.list| ==> (s.served + s.list)[i].arrival < s.next
  }

  lemma ArriveValid(s: BankQueue, b: RowBuffer, row: nat, limit: nat)
    requires Valid(s, limit)
    ensures Valid(Do(s, Arrive(b, row), limit), limit)
  {
    QueuedCapped(s.list, b, s.next, row, limit);
    QueuedChains(s.list, b, s.next, row, limit);
    QueuedFifo(s.served, s.list, b, s.next, row, limit);
    var p := Place(s.list, b, row, limit).0;
    var t := Do(s, Arrive(b, row), limit);
    var u, v := s.served + s.list, t.served + t.list;
    forall i | 0 <= i < |v|
      ensures v[i].arrival < t.next
    {
      assert i < |s.served| + p ==> v[i] == u[i];
      assert i > |s.served| + p ==> v[i] == u[i - 1];
    }
  }

  lemma ServeValid(s: BankQueue, limit: nat)
    requires Valid(s, limit)
    ensures Valid(Do(s, Serve, limit), limit)
  {
    if s.list != [] {
      assert s.served + [s.list[0]] + s.list[1..] == s.served + s.list;
    }
  }

  /** In every run: hit numbers stay within the limit, hits directly follow one another, and
      the requests of a row are served and waiting in the order in which they arrived. */
  lemma {:induction false} RunValid(s: BankQueue, ops: seq<Op>, limit: nat)
    requires Valid(s, limit)
    ensures Valid(Run(s, ops, limit), limit)
    decreases |ops|
  {
    hide Valid, Queued;
    if ops != [] {
      match ops[0] {
        case Arrive(b, row) => ArriveValid(s, b, row, limit);
        case Serve => ServeValid(s, limit);
      }
      RunValid(Do(s, ops[0], limit), ops[1..], limit);
    }
  }

  ghost predicate IsServed(s: BankQueue, r: Request) {
    r in s.served
  }

  lemma {:induction false} ServedStays(s: BankQueue, ops: seq<Op>, limit: nat, r: Request)
    requires IsServed(s, r)
    ensures IsServed(Run(s, ops, limit), r)
    decreases |ops|
  {
    if ops != [] {
      ServedStays(Do(s, ops[0], limit), ops[1..], limit, r);
    }
  }

  /** Bounded bypass: whatever arrives meanwhile, a waiting request has been served once the
      bank has served more requests than its potential. */
  lemma {:induction false} BoundedBypass(s: BankQueue, x: nat, ops: seq<Op>, limit: nat)
    requires x < |s.list| && Capped(s.list, limit) && Serves(ops) > Potential(s.list, x, limit)
    ensures IsServed(Run(s, ops, limit), s.list[x])
    decreases |ops|
  {
    hide Capped, Queued, Moved;
    var t := Do(s, ops[0], limit);
    match ops[0] {
      case Arrive(b, row) =>
        QueueKeepsPotential(s.list, b, s.next, row, limit, x);
        BoundedBypass(t, Moved(s.list, b, row, limit, x), ops[1..], limit);
      case Serve =>
        if x == 0 {
          assert t.served[|s.served|] == s.list[0];
          ServedStays(t, ops[1..], limit, s.list[0]);
        } else {
          PopPotential(s.list, x, limit);
          BoundedBypass(t, x - 1, ops[1..], limit);
        }
    }
  }

  /** So a request with x others ahead waits for at most x * (limit + 1) of them. */
  lemma BypassBound(s: BankQueue, x: nat, ops: seq<Op>, limit: nat)
    requires x < |s.list| && Capped(s.list, limit) && Serves(ops) > x * (limit + 1)
    ensures IsServed(Run(s, ops, limit), s.list[x])
  {
    PotentialBound(s.list, x, limit);
    BoundedBypass(s, x, ops, limit);
  }

  // ----------------------------------------------------------------- the methods

  /** The search from the back that queue starts with. */
  method FindLast(list: seq<Request>, row: nat) returns (m: int)
    ensures m == LastOf(list, row)
  {
    m := |list| - 1;
    while m >= 0 && list[m].row != row
      invariant -1 <= m < |list|
      invariant LastOf(list, row) == LastOf(list[..m + 1], row)
    {
      assert list[..m + 1][..m] == list[..m];
      m := m - 1;
    }
    if m >= 0 {
      assert list[..m + 1][m].row == row;
    }
  }

  /** DDRMemory::queue on the list of one bank. */
  method Queue(list: seq<Request>, b: RowBuffer, arrival: nat, row: nat, limit: nat) returns (r: seq<Request>)
    ensures r == Queued(list, b, arrival, row, limit)
  {
    var m := FindLast(list, row);
    if m >= 0 {
      if list[m].rowHitSeq < limit {
        r := list[..m + 1] + [Request(arrival, row, list[m].rowHitSeq + 1)] + list[m + 1..];
      } else {
        r := list + [Request(arrival, row, 0)];
      }
    } else if b.open && row == b.openRow && b.curRowHits < limit && list == [] {
      r := [Request(arrival, row, b.curRowHits + 1)] + list;
    } else {
      r := list + [Request(arrival, row, 0)];
    }
  }
}

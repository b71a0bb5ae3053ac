/** The directory's tag array and top controller as objects updated in place. */
module DirectoryObject {
  import opened Mesi
  import opened Directory
  import D = DirectorySystem

  /** CDSetAssocArray. */
  class TagArray {
    const g: D.Config
    const tags: array<int>

    ghost predicate Valid()
      reads this
    {
      D.ValidConfig(g) && tags.Length == D.NumLines(g)
    }

    constructor (config: D.Config)
      requires D.ValidConfig(config)
      ensures Valid() && g == config && fresh(tags) && forall k :: 0 <= k < tags.Length ==> tags[k] == -1
    {
      g := config;
      tags := new int[config.numSets * config.ways](_ => -1);
    }

    /** The way that holds line x, or -1. */
    method Lookup(x: nat) returns (id: int)
      requires Valid()
      ensures id == D.Find(tags[..], x, D.First(g, x), D.First(g, x) + g.ways)
    {
      ghost var end := D.First(g, x) + g.ways;
      var set_ := g.hash(x) % g.numSets;
      var first := set_ * g.ways;
      id := first;
      while id < first + g.ways
        invariant first <= id <= first + g.ways == end
        invariant D.Find(tags[..], x, first, end) == D.Find(tags[..], x, id, end)
      {
        if tags[id] == x {
          return;
        }
        id := id + 1;
      }
      id := -1;
    }

    /** A free way for line x; the source asserts that there is one. */
    method Preinsert(x: nat) returns (candidate: int)
      requires Valid()
      ensures candidate == D.Find(tags[..], -1, D.First(g, x), D.First(g, x) + g.ways)
    {
      ghost var end := D.First(g, x) + g.ways;
      var set_ := g.hash(x) % g.numSets;
      var first := set_ * g.ways;
      var id := first;
      while id < first + g.ways
        invariant first <= id <= first + g.ways == end
        invariant D.Find(tags[..], -1, first, end) == D.Find(tags[..], -1, id, end)
      {
        if tags[id] == -1 {
          return id;
        }
        id := id + 1;
      }
      candidate := -1;
    }

    method Postinsert(x: nat, candidate: nat)
      requires Valid() && candidate < tags.Length
      modifies tags
      ensures tags[..] == old(tags[..])[candidate := x]
    {
      tags[candidate] := x;
    }

    method Clear(id: nat)
      requires Valid() && id < tags.Length
      modifies tags
      ensures tags[..] == old(tags[..])[id := -1]
    {
      tags[id] := -1;
    }
  }

  /** CDMESITopCC for one line, with the states of the line in the children. */
  class TopController {
    const states: array<MesiState>
    var numSharers: int
    var sharers: set<nat>
    var exclusive: bool
    var failed: bool

    constructor (children: nat)
      ensures fresh(states) && states.Length == children
      ensures Abs() == Line(seq(children, _ => I), CLEAR, false)
    {
      states := new MesiState[children](_ => I);
      numSharers, sharers, exclusive, failed := 0, {}, false, false;
    }

    ghost function Abs(): (l: Line)
      reads this, states
    {
      Line(states[..], Entry(numSharers, sharers, exclusive), failed)
    }

    method Check(ok: bool)
      modifies `failed
      ensures failed == (old(failed) || !ok)
    {
      failed := failed || !ok;
    }

    /** The child's reaction, and dropping its sharer bit on INV. */
    method InvalidateChild(ty: InvType, c: nat)
      requires c < states.Length
      modifies states, `sharers, `failed
      ensures Abs() == InvalidateOne(old(Abs()), ty, c)
    {
      Check(states[c] != I && (ty == INVX ==> HasExcl(states[c])));
      states[c] := if ty == INVX then S else I;
      if ty == INV {
        sharers := sharers - {c};
      }
    }

    /** The loop of sendInvalidates. */
    method SendAll(ty: InvType) returns (sent: nat)
      modifies states, `sharers, `failed
      ensures (Abs(), sent) == InvalidateFrom(old(Abs()), ty, 0)
    {
      hide InvalidateOne;
      sent := 0;
      var c := 0;
      while c < states.Length
        invariant c <= states.Length && numSharers == old(numSharers) && exclusive == old(exclusive)
        invariant var r := InvalidateFrom(Abs(), ty, c); InvalidateFrom(old(Abs()), ty, 0) == (r.0, r.1 + sent)
      {
        if c in sharers {
          InvalidateChild(ty, c);
          sent := sent + 1;
        }
        c := c + 1;
      }
    }

    method DoSendInvalidates(ty: InvType)
      modifies this, states
      ensures Abs() == InvalidateAll(old(Abs()), ty)
    {
      hide InvalidateFrom;
      if ty == INVX && !(numSharers == 1 && exclusive) {
        return;
      }
      if numSharers != 0 {
        var sent := SendAll(ty);
        Check(sent == numSharers && (ty == INVX ==> exclusive && numSharers == 1));
        if ty == INV {
          numSharers := 0;
        } else {
          exclusive := false;
        }
      }
    }

    method ProcessGetS(c: nat, noExcl: bool)
      requires c < states.Length
      modifies this, states
      ensures Abs() == GetS(old(Abs()), c, noExcl)
    {
      hide InvalidateAll;
      if numSharers == 0 && !noExcl {
        exclusive, sharers, numSharers := true, sharers + {c}, 1;
        states[c] := E;
      } else {
        Check(c !in sharers);
        if numSharers == 1 && exclusive {
          DoSendInvalidates(INVX);
        }
        Check(!(numSharers == 1 && exclusive));
        sharers, numSharers, exclusive := sharers + {c}, numSharers + 1, false;
        states[c] := S;
      }
    }

    method ProcessGetX(c: nat)
      requires c < states.Length
      modifies this, states
      ensures Abs() == GetX(old(Abs()), c)
    {
      hide InvalidateAll;
      if c in sharers {
        Check(!(numSharers == 1 && exclusive));
        sharers, numSharers := sharers - {c}, numSharers - 1;
      }
      DoSendInvalidates(INV);
      sharers, numSharers, exclusive := sharers + {c}, numSharers + 1, true;
      Check(numSharers == 1);
      states[c] := M;
    }

    /** processWriteBack; evict tells the directory to free the way. */
    method ProcessWriteBack(c: nat, t: AccessType) returns (evict: bool)
      requires c < states.Length
      modifies this, states
      ensures Abs() == Put(old(Abs()), c, t) && evict == Abs().entry.IsEmpty()
    {
      if t == PUTX {
        Check(numSharers == 1 && exclusive);
      }
      Check(c in sharers);
      sharers, numSharers := sharers - {c}, numSharers - 1;
      states[c] := I;
      evict := numSharers == 0;
      if evict {
        exclusive, numSharers, sharers := false, 0, {};
      }
    }
  }
}

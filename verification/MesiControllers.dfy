/** The controllers as an object whose methods update the states and entries of all caches,
    each proved against the function that the protocol theorems are about. */
module MesiControllers {
  import opened Mesi

  class CacheTree {
    const par: seq<nat>
    var states: seq<MesiState>    // bottom controllers' state of the line
    var entries: seq<Entry>       // top controllers' directory entries
    var versions: seq<nat>
    var failed: bool              // some assertion of the controllers failed

    ghost predicate Valid()
      reads this
    {
      Tree(par) && Sized(par, Abs())
    }

    ghost function Abs(): (h: Hier)
      reads this
    {
      Hier(states, entries, versions, failed)
    }

    constructor (parents: seq<nat>)
      requires Tree(parents)
      ensures Valid() && par == parents && !failed
      ensures forall v :: 0 <= v < |par| ==> states[v] == I && entries[v] == CLEAR && versions[v] == 0
    {
      par := parents;
      states := seq(|parents|, _ => I);
      entries := seq(|parents|, _ => CLEAR);
      versions := seq(|parents|, _ => 0);
      failed := false;
    }

    method Check(ok: bool)
      modifies this`failed
      ensures failed == (old(failed) || !ok)
    {
      if !ok {
        failed := true;
      }
    }

    /** MESIBottomCC::processInval */
    method BottomProcessInval(v: nat, ty: InvType) returns (reqWriteback: bool)
      requires Valid() && v < |par|
      modifies this
      ensures Valid() && (Abs(), reqWriteback) == BottomInval(old(Abs()), v, ty)
    {
      reqWriteback := states[v] == M;
      match ty
      case INVX =>
        Check(HasExcl(states[v]));
        states := states[v := S];
      case INV =>
        Check(states[v] != I);
        states := states[v := I];
    }

    /** MESICC::processInv */
    method ProcessInv(v: nat, ty: InvType) returns (reqWriteback: bool)
      requires Valid() && v < |par|
      modifies this
      ensures Valid() && (Abs(), reqWriteback) == Invalidate(par, old(Abs()), v, ty)
      decreases |par| - v, 1
    {
      var fromChildren := SendInvs(v, ty);
      var own := BottomProcessInval(v, ty);
      reqWriteback := fromChildren || own;
    }

    /** MESITopCC::sendInvalidates */
    method SendInvs(p: nat, ty: InvType) returns (reqWriteback: bool)
      requires Valid() && p < |par|
      modifies this
      ensures Valid() && (Abs(), reqWriteback) == SendInvalidates(par, old(Abs()), p, ty)
      decreases |par| - p, 0
    {
      reqWriteback := false;
      if ty == INVX && !entries[p].IsExclusive() {
        return;
      }
      if !entries[p].IsEmpty() {
        ghost var h0 := Abs();
        var sentInvs := 0;
        for c := p + 1 to |par|
          invariant Valid()
          invariant var (h, wb, sent) := SendFrom(par, Abs(), p, ty, c);
                    SendFrom(par, h0, p, ty, p + 1) == (h, reqWriteback || wb, sentInvs + sent)
        {
          if par[c] == p && c in entries[p].sharers {
            var wb := ProcessInv(c, ty);
            if wb {
              versions := versions[p := versions[c]];
              reqWriteback := true;
            }
            if ty == INV {
              entries := entries[p := entries[p].(sharers := entries[p].sharers - {c})];
            }
            sentInvs := sentInvs + 1;
          }
        }
        Check(sentInvs == entries[p].numSharers);
        if ty == INV {
          entries := entries[p := entries[p].(numSharers := 0)];
        } else {
          Check(entries[p].exclusive);
          Check(entries[p].numSharers == 1);
          entries := entries[p := entries[p].(exclusive := false)];
        }
      }
    }

    /** MESITopCC::processAccess at p for child c, then processWritebackOnAccess if a
        writeback was induced. */
    method TopProcessAccess(p: nat, c: nat, typ: AccessType, noExcl: bool)
      requires Valid() && IsChild(par, c, p)
      modifies this
      ensures Valid() && Abs() == TopAccess(par, old(Abs()), p, c, typ, noExcl)
    {
      hide TopGetS, TopGetX;
      match typ {
        case PUTX => ProcessPut(p, c, typ);
        case PUTS => ProcessPut(p, c, typ);
        case GETS => ProcessGetS(p, c, noExcl);
        case GETX => ProcessGetX(p, c);
      }
    }

    method ProcessPut(p: nat, c: nat, typ: AccessType)
      requires Valid() && IsChild(par, c, p) && IsPut(typ)
      modifies this
      ensures Valid() && Abs() == TopPut(old(Abs()), p, c, typ)
    {
      if typ == PUTX {
        Check(entries[p].IsExclusive());
        versions := versions[p := versions[c]];
      }
      RemoveSharer(p, c);
    }

    method ProcessGetS(p: nat, c: nat, noExcl: bool)
      requires Valid() && IsChild(par, c, p)
      modifies this
      ensures Valid() && Abs() == TopGetS(par, old(Abs()), p, c, noExcl)
      ensures states[c] == if !noExcl && HasExcl(old(states[p])) && old(entries[p]).IsEmpty() then E else S
    {
      hide SendInvalidates;
      if entries[p].IsEmpty() && HasExcl(states[p]) && !noExcl {
        GiveCopy(p, c, E, Entry(1, entries[p].sharers + {c}, true));
      } else {
        Check(c !in entries[p].sharers);
        var inducedWriteback := false;
        if entries[p].IsExclusive() {
          inducedWriteback := SendInvs(p, INVX);
        }
        Check(!entries[p].IsExclusive());
        GiveCopy(p, c, S, Entry(entries[p].numSharers + 1, entries[p].sharers + {c}, false));
        RecordWriteback(p, inducedWriteback);
      }
    }

    method ProcessGetX(p: nat, c: nat)
      requires Valid() && IsChild(par, c, p)
      modifies this
      ensures Valid() && Abs() == TopGetX(par, old(Abs()), p, c)
    {
      hide SendInvalidates;
      Check(HasExcl(states[p]));
      if c in entries[p].sharers {
        Check(!entries[p].IsExclusive());
        entries := entries[p := entries[p].(sharers := entries[p].sharers - {c},
                                            numSharers := entries[p].numSharers - 1)];
      }
      var inducedWriteback := SendInvs(p, INV);
      GiveCopy(p, c, M, Entry(entries[p].numSharers + 1, entries[p].sharers + {c}, true));
      Check(entries[p].numSharers == 1);
      RecordWriteback(p, inducedWriteback);
    }

    /** MESIBottomCC::processWritebackOnAccess, if a child wrote back. */
    method RecordWriteback(p: nat, inducedWriteback: bool)
      requires Valid() && p < |par|
      modifies this
      ensures Valid() && Abs() == if inducedWriteback then WritebackOnAccess(old(Abs()), p) else old(Abs())
    {
      if inducedWriteback {
        Check(HasExcl(states[p]));
        states := states[p := M];
      }
    }

    /** CheckForMESIRace; the request type may change. */
    method CheckRace(typ: AccessType, c: nat, init: MesiState) returns (skip: bool, newTyp: AccessType)
      requires Valid() && c < |par|
      modifies this`failed
      ensures var race := CheckForMESIRace(typ, states[c], init);
              && skip == race.skip && newTyp == race.typ && failed == (old(failed) || !race.ok)
    {
      skip, newTyp := false, typ;
      if states[c] != init {
        if typ == PUTS || typ == PUTX {
          if states[c] == I {
            skip := true;
          } else {
            Check(states[c] == S);
            newTyp := PUTS;
          }
        } else if typ == GETX {
          Check(init == S && states[c] == I);
        } else {
          Check(false);
        }
      }
    }

    /** MESIBottomCC::processAccess when the parent is not needed. */
    method BottomProcessAccess(p: nat, typ: AccessType)
      requires Valid() && p < |par|
      modifies this
      ensures Valid() && Abs() == BottomAccess(old(Abs()), p, typ)
    {
      match typ {
        case PUTS => Check(states[p] != I);
        case PUTX =>
          Check(HasExcl(states[p]));
          states := states[p := M];
        case GETS =>
        case GETX =>
          Check(states[p] == E || states[p] == M);
          states := states[p := M];
      }
    }

    /** MESICC::startAccess and processAccess for child c, up to the point where the parent
        must be asked (asks). */
    method ServeChild(c: nat, typ: AccessType, init: MesiState, noExcl: bool) returns (asks: bool)
      requires Valid() && 0 < c < |par|
      modifies this
      ensures Valid()
      ensures var race, p := CheckForMESIRace(typ, old(states[c]), init), par[c];
              var h := old(Abs()).(bad := old(failed) || !race.ok);
              && asks == (!race.skip && NeedsParent(h.st[p], race.typ))
              && Abs() == if race.skip || asks then h
                          else TopAccess(par, BottomAccess(h, p, race.typ), p, c, race.typ, noExcl)
    {
      hide TopAccess, BottomAccess, CheckForMESIRace;
      var p := par[c];
      var skip, t := CheckRace(typ, c, init);
      asks := !skip && NeedsParent(states[p], t);
      if !skip && !asks {
        BottomProcessAccess(p, t);
        TopProcessAccess(p, c, t, noExcl);
      }
    }

    /** MESICC::processEviction up to the request it sends: the children are invalidated, and
        a writeback by one of them makes the line dirty here. */
    method StartEviction(v: nat) returns (typ: AccessType)
      requires Valid() && v < |par|
      modifies this
      ensures Valid()
      ensures var (h, wb) := SendInvalidates(par, old(Abs()), v, INV);
              && Abs() == (if wb then WritebackOnAccess(h, v) else h)
              && typ == (if Abs().st[v] == M then PUTX else PUTS)
    {
      hide SendInvalidates;
      var wb := SendInvs(v, INV);
      RecordWriteback(v, wb);
      typ := if states[v] == M then PUTX else PUTS;
    }

    method RemoveSharer(p: nat, c: nat)
      requires Valid() && IsChild(par, c, p)
      modifies this
      ensures Valid() && versions == old(versions)
      ensures states == old(states)[c := I]
      ensures var e := old(entries[p]);
              entries == old(entries)[p := e.(sharers := e.sharers - {c}, numSharers := e.numSharers - 1)]
      ensures failed == (old(failed) || c !in old(entries[p]).sharers)
    {
      Check(c in entries[p].sharers);
      entries := entries[p := entries[p].(sharers := entries[p].sharers - {c},
                                          numSharers := entries[p].numSharers - 1)];
      states := states[c := I];
    }

    method GiveCopy(p: nat, c: nat, m: MesiState, e: Entry)
      requires Valid() && IsChild(par, c, p)
      modifies this
      ensures Valid() && Abs() == Fill(old(Abs()), p, c, m, e)
    {
      entries := entries[p := e];
      states := states[c := m];
      versions := versions[c := versions[p]];
    }
  }
}

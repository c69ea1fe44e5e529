/**
 The controllers as the program runs them: methods that update the state of the caches in place.

 `MESIBottomCC` keeps a MESI state per line and `MESITopCC` a directory entry per line; the array
 `node` holds, per cache, what both say about the one line address at hand.  Each method is proved to
 compute the corresponding step of the protocol.
 */
module CoherenceControllers {
  import opened CacheTree
  import opened Collections
  import P = CoherenceProtocol
  import opened CoherenceProtocol

  class Hierarchy {
    const par: Tree
    const node: array<Node>
    var ok: bool
    ghost var latest: nat

    ghost predicate Valid()
    {
      node.Length == |par|
    }

    ghost function View(): Line
      reads this, node
    {
      Line(node[..], latest, ok)
    }

    constructor (par: Tree)
      ensures Valid() && this.par == par && View() == Initial(par) && fresh(node)
    {
      this.par := par;
      var none := Entry(0, {}, false);
      node := new Node[|par|](n => if n == 0 then Node(M, true, none, 0, None) else Node(I, false, none, 0, None));
      ok := true;
      latest := 0;
      new;
      assert node[..] == Initial(par).node;
    }

    /** `Cache::invalidate`: children first, then the cache's own state. */
    method Invalidate(c: nat, ty: Inval) returns (wb: bool, data: nat)
      requires Valid() && c < |par|
      modifies node, `ok
      ensures Valid() && Down(View(), wb, data) == P.Invalidate(par, old(View()), c, ty)
      decreases |par| - c, 2
    {
      wb, data := false, 0;
      if node[c].tag {
        wb, data := SendInvalidates(c, ty);
        if !wb { data := node[c].ver; }
        if node[c].st != I {
          var dirty := node[c].st == M;
          if ty == INVX {
            ok := ok && (node[c].st == E || dirty);
            node[c] := node[c].(st := S, ver := data);
          } else {
            node[c] := node[c].(st := I);
          }
          wb := wb || dirty;
        }
      }
    }

    /** `MESITopCC::sendInvalidates`: one pass over the children the entry lists. */
    method SendInvalidates(p: nat, ty: Inval) returns (wb: bool, data: nat)
      requires Valid() && p < |par|
      modifies node, `ok
      ensures Valid() && Down(View(), wb, data) == P.SendInvalidates(par, old(View()), p, ty)
      decreases |par| - p, 1
    {
      wb, data := false, 0;
      if ty == INVX && !node[p].dir.IsExclusive() {
        return;
      }
      if !node[p].dir.IsEmpty() {
        var sent := 0;
        for c := 0 to |par|
          invariant Valid()
          invariant Sweep(Down(View(), wb, data), sent) == SweepChildren(par, old(View()), p, ty, c)
        {
          if c > 0 && par[c] == p && c in node[p].dir.sharers && node[c].tag {
            var w, d := Invalidate(c, ty);
            if w { wb, data := true, d; }
            if ty == INV { node[p] := node[p].(dir := node[p].dir.(sharers := node[p].dir.sharers - {c})); }
            sent := sent + 1;
          }
        }
        ok := ok && sent == node[p].dir.num;
        if ty == INV {
          node[p] := node[p].(dir := node[p].dir.(num := 0));
        } else {
          ok := ok && node[p].dir.excl && node[p].dir.num == 1;
          node[p] := node[p].(dir := node[p].dir.(excl := false));
        }
      }
    }

    /** `processWritebackOnAccess`, or the start of `processEviction`. */
    method WritebackFromBelow(p: nat, wb: bool, data: nat)
      requires Valid() && p < |par|
      modifies node, `ok
      ensures Valid() && View() == Absorb(Down(old(View()), wb, data), p)
    {
      if wb {
        ok := ok && node[p].st.Exclusive();
        node[p] := node[p].(st := M, ver := data);
      }
    }

    method StartGetX(c: nat)
      requires Valid() && 0 < c < |par|
      modifies node, `ok
      ensures Valid() && View() == Claim(par, old(View()), c)
    {
      var p := par[c];
      ghost var s := View();
      if node[p].st == E { node[p] := node[p].(st := M); }
      ok := ok && node[p].st.Exclusive();
      var e := node[p].dir;
      if c in e.sharers {
        ok := ok && !e.IsExclusive();
        node[p] := node[p].(dir := Entry(e.num - 1, e.sharers - {c}, e.excl));
      }
      assert node[..] == s.node[p := node[p]];
    }

    /** `MESICC::processAccess` once the parent has exclusive permission: a GETX of `c`. */
    method ProcessGetX(c: nat)
      requires Valid() && 0 < c < |par|
      modifies node, `ok
      ensures Valid() && View() == GrantExclusive(par, old(View()), c)
    {
      var p := par[c];
      StartGetX(c);
      var wb, data := SendInvalidates(p, INV);
      WritebackFromBelow(p, wb, data);
      AddOwner(p, c);
    }

    method AddOwner(p: nat, c: nat)
      requires Valid() && p < |par| && c < |par|
      modifies node, `ok
      ensures Valid() && View() == HandOver(old(View()), p, c)
    {
      var e, ver := node[p].dir, node[p].ver;
      node[p] := node[p].(dir := Entry(e.num + 1, e.sharers + {c}, true));
      ok := ok && node[p].dir.num == 1;
      node[c] := node[c].(st := M, ver := ver, req := None);
    }

    method AddSharer(p: nat, c: nat)
      requires Valid() && p < |par| && c < |par|
      modifies node, `ok
      ensures Valid() && View() == Share(old(View()), p, c)
    {
      var e, ver := node[p].dir, node[p].ver;
      ok := ok && !e.IsExclusive();
      node[p] := node[p].(dir := Entry(e.num + 1, e.sharers + {c}, false));
      node[c] := node[c].(st := S, ver := ver, req := None);
    }

    /** `MESICC::processAccess` once the parent has the line: a GETS of `c`. */
    method ProcessGetS(c: nat)
      requires Valid() && 0 < c < |par| && node[c].req.Some?
      modifies node, `ok
      ensures Valid() && View() == GrantShared(par, old(View()), c)
    {
      var p := par[c];
      if node[p].dir.IsEmpty() && node[p].st.Exclusive() && !node[c].req.value.noExcl {
        node[p] := node[p].(dir := Entry(1, node[p].dir.sharers + {c}, true));
        node[c] := node[c].(st := E, ver := node[p].ver, req := None);
      } else {
        var unlisted := c !in node[p].dir.sharers;
        var wb, data := false, 0;
        if node[p].dir.IsExclusive() { wb, data := SendInvalidates(p, INVX); }
        WritebackFromBelow(p, wb, data);
        ok := ok && unlisted;
        AddSharer(p, c);
      }
    }

    /** `MESICC::processAccess` for a PUTS or PUTX of `c` that was not skipped. */
    method ProcessPut(c: nat, op: Access)
      requires Valid() && 0 < c < |par|
      modifies node, `ok
      ensures Valid() && View() == AcceptPut(par, old(View()), c, op)
    {
      var p := par[c];
      ghost var s := View();
      ok := ok && node[p].tag && node[p].st != I;
      if op == PUTX {
        ok := ok && node[p].st.Exclusive() && node[p].dir.IsExclusive();
        var st := if node[p].st == E then M else node[p].st;
        node[p] := node[p].(st := st, ver := node[c].ver);
      }
      ok := ok && c in node[p].dir.sharers;
      var e := node[p].dir;
      node[p] := node[p].(dir := Entry(e.num - 1, e.sharers - {c}, e.excl));
      assert node[..] == s.node[p := node[p]];
      node[c] := node[c].(st := I);
    }

    /** A PUT of `c` at its parent: the race check, the access, and `c`'s own last check. */
    method Writeback(c: nat)
      requires Valid() && 0 < c < |par| && node[c].req.Some?
      modifies node, `ok
      ensures Valid() && View() == Apply(par, old(View()), Put(c))
    {
      var race := CheckRace(node[c].req.value.op, node[c].st, node[c].req.value.initial);
      if race == Fail {
        ok := false;
        return;
      }
      if race != Skip { ProcessPut(c, race.op); }
      ok := ok && node[c].st == I;
      node[c] := node[c].(tag := false, req := None);
    }

    /** `MESICC::processEviction` up to the point where the PUT leaves for the parent. */
    method ProcessEviction(c: nat)
      requires Valid() && 0 < c < |par|
      modifies node, `ok
      ensures Valid() && View() == Apply(par, old(View()), Evict(c))
    {
      var wb, data := SendInvalidates(c, INV);
      WritebackFromBelow(c, wb, data);
      match node[c].st {
        case I => node[c] := node[c].(tag := false);
        case M => node[c] := node[c].(req := Some(Request(PUTX, M, false, false, PUTX)));
        case st => node[c] := node[c].(req := Some(Request(PUTS, st, false, false, PUTS)));
      }
    }
  }
}

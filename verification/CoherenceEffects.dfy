/**
 What a step does to every cache of the hierarchy: which copies it gives, takes and leaves alone,
 and that the request which is answered is the request that was made.
 */
module CoherenceEffects {
  import opened CacheTree
  import opened Collections
  import opened CoherenceProtocol
  import opened CoherenceSafety
  import opened CoherenceWave

  ghost predicate DirtyBelow(par: Tree, s: Line, p: nat) {
    exists n: nat :: Below(par, p, n) && n < |s.node| && s.node[n].st == M
  }

  // ------------------------------------------------------------------ granting

  /** The copy of cache `n`, other than the requester `c`, after `c` was given a copy to write: every
      copy below the parent that is not the requester's own is taken away. */
  ghost function AfterGetX(par: Tree, s: Line, c: nat, n: nat): Mesi
    requires 0 < c < |par| == |s.node| && n < |par|
  {
    if n == par[c] then M
    else if Below(par, par[c], n) && !Under(par, c, n) then I
    else s.node[n].st
  }

  lemma OffPathInvalid(par: Tree, s: Line, h: nat, p: nat, k: nat, n: nat)
    requires InvBut(par, s, h, p) && IsChild(par, k, p) && s.node[k].st == I && Under(par, k, n)
    ensures n < |par| && s.node[n].st == I
  {
    ChildSubtree(par, s, h, p, k);
    InvalidBelow(par, s, k, h, n);
    UnderOrder(par, k, n);
  }

  lemma TakenAway(par: Tree, s: Line, h: nat, c: nat, ks: set<nat>, t: Line, n: nat)
    requires 0 < c < |par| && InvBut(par, s, h, par[c]) && c !in ks && n < |par| && n != par[c]
    requires forall k: nat :: IsChild(par, k, par[c]) && k !in ks && k != c ==> s.node[k].st == I
    requires SweptBelow(par, s, par[c], ks, INV, t)
    ensures t.node[n].st == if Below(par, par[c], n) && !Under(par, c, n) then I else s.node[n].st
    ensures t.node[n].req == s.node[n].req
  {
    if Below(par, par[c], n) {
      var k := Toward(par, par[c], n);
      if Under(par, c, n) {
        TowardUnique(par, par[c], c, n);
      } else if k !in ks {
        OffPathInvalid(par, s, h, par[c], k, n);
      }
    }
  }

  lemma GetXChanges(par: Tree, s: Line, h: nat, c: nat, n: nat)
    requires InvAt(par, s, h) && Enabled(par, s, Grant(c)) && s.node[c].req.value.op == GETX && n < |par|
    ensures var x := GrantExclusive(par, s, c).node[n];
      n != c ==> x.st == AfterGetX(par, s, c, n) && x.req == s.node[n].req
  {
    var st, e, s1, t := GrantXIs(par, s, h, c);
    if n != par[c] && n != c {
      UpgradeInv(par, s, h, par[c], st, e, s1);
      TakenAway(par, s1, h, c, e.sharers, t, n);
    }
  }

  /** The same after `c` was given a copy to read: exclusive copies below the parent lose their
      permission to write, nobody loses the line, and the parent takes over what was modified. */
  ghost function AfterGetS(par: Tree, s: Line, c: nat, n: nat): Mesi
    requires 0 < c < |par| == |s.node| && n < |par|
  {
    if n == par[c] then (if DirtyBelow(par, s, n) then M else s.node[n].st)
    else if Below(par, par[c], n) && s.node[n].st.Exclusive() then S
    else s.node[n].st
  }

  /** The write-back flag that reaches `p` says whether a modified copy lies below it. */
  lemma FlagIsDirty(par: Tree, s: Line, h: nat, p: nat, ty: Inval, d: Down)
    requires InvAt(par, s, h) && p < |par| && SendDone(par, s, p, ty, d)
    ensures d.wb <==> DirtyBelow(par, s, p)
  {
    SubtreeFromInv(par, s, h, |par|, p);
    DirtyThroughSharers(par, s, p, h);
    assert DirOk(par, s, p);
    if d.wb {
      var ks := if ty == INVX && !s.node[p].dir.IsExclusive() then {} else s.node[p].dir.sharers;
      var k :| k in ks && DirtyUnder(par, s, k);
      var n: nat :| Under(par, k, n) && n < |s.node| && s.node[n].st == M;
      TowardUnique(par, p, k, n);
    }
  }

  lemma Downgraded(par: Tree, s: Line, h: nat, p: nat, ks: set<nat>, t: Line, n: nat)
    requires InvAt(par, s, h) && p < |par| && n < |par| && n != p
    requires ks == if s.node[p].dir.IsExclusive() then s.node[p].dir.sharers else {}
    requires SweptBelow(par, s, p, ks, INVX, t)
    ensures t.node[n].st == if Below(par, p, n) && s.node[n].st.Exclusive() then S else s.node[n].st
    ensures t.node[n].req == s.node[n].req
  {
    if Below(par, p, n) {
      var k := Toward(par, p, n);
      assert DirOk(par, s, p);
      if k !in ks && s.node[n].st.Exclusive() { ValidAbove(par, s, h, k, n); }
    }
  }

  /** Where the directory is empty nobody below has the line. */
  lemma EmptyBelow(par: Tree, s: Line, h: nat, p: nat, n: nat)
    requires InvAt(par, s, h) && p < |par| && s.node[p].dir.IsEmpty() && Below(par, p, n)
    ensures n < |par| && s.node[n].st == I
  {
    var k := Toward(par, p, n);
    assert DirOk(par, s, p);
    SubtreeFromInv(par, s, h, |par|, k);
    InvalidBelow(par, s, k, h, n);
    UnderOrder(par, k, n);
  }

  lemma GetEChanges(par: Tree, s: Line, h: nat, c: nat, n: nat)
    requires InvAt(par, s, h) && 0 < c < |par| && n < |par| && n != c && s.node[par[c]].dir.IsEmpty()
    ensures AfterGetS(par, s, c, n) == s.node[n].st
  {
    if Below(par, par[c], n) { EmptyBelow(par, s, h, par[c], n); }
    if n == par[c] && DirtyBelow(par, s, n) {
      var m: nat :| Below(par, n, m) && m < |s.node| && s.node[m].st == M;
      EmptyBelow(par, s, h, n, m);
    }
  }

  lemma SharedChanges(par: Tree, s: Line, h: nat, c: nat, d: Down, t: Line, n: nat)
    requires InvAt(par, s, h) && 0 < c < |par| && n < |par| && n != c
    requires SendDone(par, s, par[c], INVX, d) && t == Absorb(d, par[c])
    requires var ks := if s.node[par[c]].dir.IsExclusive() then s.node[par[c]].dir.sharers else {};
      SweptBelow(par, s, par[c], ks, INVX, t)
    ensures t.node[n].st == AfterGetS(par, s, c, n) && t.node[n].req == s.node[n].req
  {
    var p := par[c];
    var ks := if s.node[p].dir.IsExclusive() then s.node[p].dir.sharers else {};
    if n == p { FlagIsDirty(par, s, h, p, INVX, d); } else { Downgraded(par, s, h, p, ks, t, n); }
  }

  lemma GetSChanges(par: Tree, s: Line, h: nat, c: nat, n: nat)
    requires InvAt(par, s, h) && Enabled(par, s, Grant(c)) && s.node[c].req.value.op == GETS && n < |par|
    ensures var x := GrantShared(par, s, c).node[n];
      n != c ==> x.st == AfterGetS(par, s, c, n) && x.req == s.node[n].req
  {
    var p := par[c];
    if n != c {
      if s.node[p].dir.IsEmpty() && s.node[p].st.Exclusive() && !s.node[c].req.value.noExcl {
        GetEChanges(par, s, h, c, n);
      } else {
        var d, t := SharedGrant(par, s, h, c);
        SharedChanges(par, s, h, c, d, t, n);
      }
    }
  }

  /** What a grant does to every other cache of the hierarchy. */
  lemma GrantChanges(par: Tree, s: Line, c: nat, n: nat)
    requires Reachable(par, s) && Enabled(par, s, Grant(c)) && n < |par| && n != c
    ensures var x := Apply(par, s, Grant(c)).node[n];
      && x.st == (if s.node[c].req.value.op == GETX then AfterGetX(par, s, c, n) else AfterGetS(par, s, c, n))
      && x.req == s.node[n].req
  {
    ReachableOk(par, s);
    var h: nat :| InvAt(par, s, h);
    assert ReqOk(s.node[c]);
    if s.node[c].req.value.op == GETX { GetXChanges(par, s, h, c, n); } else { GetSChanges(par, s, h, c, n); }
  }

  // ------------------------------------------------------------------ giving up the line

  /** An eviction takes the line from every cache below and from nobody else; the cache itself gives it
      up at once, or keeps what is modified until its parent has taken it. */
  lemma EvictChanges(par: Tree, s: Line, c: nat, n: nat)
    requires Reachable(par, s) && Enabled(par, s, Evict(c)) && n < |par|
    ensures var x := Apply(par, s, Evict(c)).node[n];
      && x.st == (if Below(par, c, n) then I else if n == c && DirtyBelow(par, s, c) then M else s.node[n].st)
      && (n != c ==> x.req == s.node[n].req)
      && (n == c && x.st == I ==> x.req == None && !x.tag)
      && (n == c && x.st != I ==> x.tag && x.req.Some? && x.req.value.op == if x.st == M then PUTX else PUTS)
  {
    ReachableOk(par, s);
    var h: nat :| InvAt(par, s, h);
    var d, t, home := EvictCollects(par, s, h, c);
    FlagIsDirty(par, s, h, c, INV, d);
    if n != c { SweptAway(par, s, h, c, t, n); }
  }

  lemma SweptAway(par: Tree, s: Line, h: nat, c: nat, t: Line, n: nat)
    requires InvAt(par, s, h) && c < |par| && n < |par| && n != c
    requires SweptBelow(par, s, c, s.node[c].dir.sharers, INV, t)
    ensures t.node[n].st == if Below(par, c, n) then I else s.node[n].st
    ensures t.node[n].req == s.node[n].req
  {
    if Below(par, c, n) {
      var k := Toward(par, c, n);
      assert DirOk(par, s, c);
      if k !in s.node[c].dir.sharers {
        SubtreeFromInv(par, s, h, |par|, k);
        InvalidBelow(par, s, k, h, n);
      }
    }
  }

  /** Handling a PUT takes the line from its sender; the parent takes over what is modified, with the
      latest version; nobody else is touched. */
  lemma PutChanges(par: Tree, s: Line, c: nat, n: nat)
    requires Reachable(par, s) && Enabled(par, s, Put(c)) && n < |par|
    ensures var x := Apply(par, s, Put(c)).node[n];
      if n == c then x.st == I && !x.tag && x.req == None
      else if n == par[c] && s.node[c].st == M then x.st == M && x.ver == s.latest && x.req == s.node[n].req
      else x == s.node[n].(dir := x.dir) && (n != par[c] ==> x == s.node[n])
  {
    ReachableOk(par, s);
    var h: nat :| InvAt(par, s, h);
    PutFits(par, s, h, c);
  }
}

/**
 The invariant of the protocol, kept by every step under every interleaving.
 */
module CoherenceSafety {
  import opened CacheTree
  import opened Collections
  import opened CoherenceProtocol
  import opened CoherenceWave

  /** What the requester's state may have become while its request was on the way. */
  ghost predicate ReqOk(x: Node) {
    x.req.Some? ==>
      var r := x.req.value;
      && x.tag
      && match r.op
        case GETS => r.asked == GETS && r.initial == I && x.st == I
        case GETX => r.asked == GETX && (r.initial == I || r.initial == S) && (x.st == r.initial || x.st == I)
        case PUTS => (r.initial == S || r.initial == E) && (x.st == r.initial || x.st == S || x.st == I)
                     && x.dir.sharers == {} && !r.started
        case PUTX => r.initial == M && (x.st == M || x.st == S || x.st == I) && x.dir.sharers == {} && !r.started
  }

  ghost predicate MemoryOk(x: Node) {
    x.st == M && x.tag && x.req == None
  }

  /** Everything but the directory entry of `p`; `h` is a modified copy with the latest version. */
  ghost predicate InvBut(par: Tree, s: Line, h: nat, p: nat) {
    && |s.node| == |par| && s.ok
    && MemoryOk(s.node[0])
    && h < |par| && s.node[h].st == M
    && (forall n: nat {:trigger DirOk(par, s, n)} :: n < |par| && n != p ==> DirOk(par, s, n))
    && (forall n: nat {:trigger CopyOk(par, s, n, h)} :: n < |par| ==> CopyOk(par, s, n, h))
    && (forall n: nat {:trigger ReqOk(s.node[n])} :: n < |par| ==> ReqOk(s.node[n]))
  }

  ghost predicate InvAt(par: Tree, s: Line, h: nat) {
    InvBut(par, s, h, |par|)
  }

  ghost predicate Inv(par: Tree, s: Line) {
    exists h: nat :: InvAt(par, s, h)
  }

  // ------------------------------------------------------------------ frames

  function Rank(st: Mesi): nat {
    match st case I => 0 case S => 1 case E => 2 case M => 2
  }

  /** A directory entry stays exact when nobody it speaks of changes permission. */
  lemma DirFrame(par: Tree, s: Line, t: Line, n: nat)
    requires n < |par| == |s.node| == |t.node| && DirOk(par, s, n)
    requires t.node[n].dir == s.node[n].dir && Rank(t.node[n].st) >= Rank(s.node[n].st)
    requires forall c: nat :: IsChild(par, c, n) ==> Rank(t.node[c].st) == Rank(s.node[c].st)
    ensures DirOk(par, t, n)
  {
  }

  /** Steps that only touch requests, or tags of invalid lines. */
  lemma RequestFrame(par: Tree, s: Line, t: Line, h: nat)
    requires InvAt(par, s, h) && |t.node| == |par| && t.ok && t.latest == s.latest && MemoryOk(t.node[0])
    requires forall n: nat :: n < |par| ==>
      && t.node[n].st == s.node[n].st && t.node[n].dir == s.node[n].dir && t.node[n].ver == s.node[n].ver
      && (t.node[n].tag || s.node[n].st == I || t.node[n].tag == s.node[n].tag) && ReqOk(t.node[n])
    ensures InvAt(par, t, h)
  {
    forall n: nat | n < |par|
      ensures DirOk(par, t, n) && CopyOk(par, t, n, h)
    {
      DirFrame(par, s, t, n);
      assert CopyOk(par, s, n, h);
    }
  }

  lemma SubtreeFromInv(par: Tree, s: Line, h: nat, p: nat, c: nat)
    requires InvBut(par, s, h, p) && c < |par| && (p < |par| ==> !Under(par, c, p))
    ensures SubtreeOk(par, s, c, h)
  {
    forall n: nat | Under(par, c, n)
      ensures n < |par| && n != p
    {
      UnderOrder(par, c, n);
    }
  }

  lemma ChildSubtree(par: Tree, s: Line, h: nat, p: nat, c: nat)
    requires InvBut(par, s, h, p) && IsChild(par, c, p)
    ensures SubtreeOk(par, s, c, h)
  {
    if Under(par, c, p) { UnderOrder(par, c, p); }
    SubtreeFromInv(par, s, h, p, c);
  }

  // ------------------------------------------------------------------ exclusive means alone

  lemma {:induction false} ValidAbove(par: Tree, s: Line, h: nat, a: nat, n: nat)
    requires InvAt(par, s, h) && a < |par| && Under(par, a, n)
    ensures s.node[n].st != I ==> s.node[a].st != I
    ensures s.node[n].st.Exclusive() ==> s.node[a].st.Exclusive()
    decreases n
  {
    if a != n {
      UnderOrder(par, a, n);
      assert IsChild(par, n, par[n]) && DirOk(par, s, par[n]);
      ValidAbove(par, s, h, a, par[n]);
    }
  }

  /** A valid copy elsewhere than on the path through an exclusive copy cannot exist. */
  lemma {:induction false} ExclusiveAlone(par: Tree, s: Line, h: nat, c: nat, n: nat)
    requires InvAt(par, s, h) && c < |par| && n < |par|
    requires s.node[c].st.Exclusive() && s.node[n].st != I
    ensures Under(par, c, n) || Under(par, n, c)
    decreases c
  {
    if c == 0 {
      AllUnderMemory(par, n);
    } else {
      var q := par[c];
      assert IsChild(par, c, q) && DirOk(par, s, q);
      ExclusiveAlone(par, s, h, q, n);
      if Below(par, q, n) {
        var k := Toward(par, q, n);
        ValidAbove(par, s, h, k, n);
        assert {c} <= s.node[q].dir.sharers && |s.node[q].dir.sharers| == |{c}|;
        SameSize({c}, s.node[q].dir.sharers);
      }
    }
  }

  lemma SameSize(a: set<nat>, b: set<nat>)
    requires a <= b && |a| == |b|
    ensures a == b
  {
    assert b == a + (b - a) && |b| == |a| + |b - a|;
  }

  // ------------------------------------------------------------------ waves inside a step

  /** Where the latest data lives after the children `ks` of `p` were invalidated or downgraded. */
  ghost function Home(par: Tree, p: nat, ks: set<nat>, h: nat): nat {
    if Below(par, p, h) && Toward(par, p, h) in ks then p else h
  }

  ghost predicate Swept(par: Tree, p: nat, ks: set<nat>, n: nat) {
    Below(par, p, n) && Toward(par, p, n) in ks
  }

  lemma SweptChildren(par: Tree, p: nat, ks: set<nat>, n: nat, x: nat)
    requires p < |par| && IsChild(par, x, n) && n != p
    ensures Swept(par, p, ks, x) <==> Swept(par, p, ks, n)
  {
    if Under(par, p, n) { UnderOrder(par, p, n); }
  }

  lemma WaveDir(par: Tree, s: Line, h: nat, p: nat, ks: set<nat>, ty: Inval, t: Line, n: nat)
    requires p < |par| && InvBut(par, s, h, p) && SweptBelow(par, s, p, ks, ty, t)
    requires n < |par| && n != p && Rank(t.node[p].st) == Rank(s.node[p].st)
    requires forall k :: k in ks ==> IsChild(par, k, p)
    ensures DirOk(par, t, n)
  {
    forall x: nat | IsChild(par, x, n)
      ensures Swept(par, p, ks, x) <==> Swept(par, p, ks, n)
      ensures x != p ==> t.node[x] == if Swept(par, p, ks, x) then Touch(ty, s.latest, s.node[x]) else s.node[x]
    {
      SweptChildren(par, p, ks, n, x);
    }
    assert DirOk(par, s, n);
    if Swept(par, p, ks, n) {
      UnderOrder(par, p, n);
      assert !IsChild(par, p, n);
    } else {
      DirFrame(par, s, t, n);
    }
  }

  lemma WaveCopy(par: Tree, s: Line, h: nat, p: nat, ks: set<nat>, ty: Inval, t: Line, n: nat)
    requires p < |par| && InvBut(par, s, h, p) && SweptBelow(par, s, p, ks, ty, t)
    requires n < |par| && n != p
    requires forall k :: k in ks ==> IsChild(par, k, p)
    ensures CopyOk(par, t, n, Home(par, p, ks, h)) && ReqOk(t.node[n])
  {
    assert CopyOk(par, s, n, h) && ReqOk(s.node[n]);
    if Swept(par, p, ks, n) {
      if ty == INVX && s.node[n].st == S && Below(par, n, h) {
        var k := Toward(par, p, n);
        ChildSubtree(par, s, h, p, k);
        SubtreeOfChild(par, s, k, n, h);
        SharedBelow(par, s, n, h, h);
      }
    } else if Swept(par, p, ks, h) && Below(par, n, h) {
      UnderComparable(par, n, p, h);
      if Below(par, p, n) {
        TowardUnique(par, p, Toward(par, p, n), n);
        UnderTransitive(par, Toward(par, p, n), n, h);
        TowardUnique(par, p, Toward(par, p, n), h);
      }
    }
  }

  // ------------------------------------------------------------------ sending invalidations at p

  /** `p` after its children `ks` gave up their data: all good but for the entry itself. */
  ghost predicate Collected(par: Tree, s: Line, h: nat, p: nat, ks: set<nat>, ty: Inval, t: Line) {
    && p < |par| && |s.node| == |t.node| == |par|
    && SweptBelow(par, s, p, ks, ty, t)
    && InvBut(par, t, Home(par, p, ks, h), p)
    && (s.node[p].st != I ==> t.node[p].ver == s.latest)
    && Rank(t.node[p].st) == Rank(s.node[p].st)
    && t.node[p].dir == TouchEntry(ty, s.node[p].dir)
    && t.node[p].req == s.node[p].req && t.node[p].tag == s.node[p].tag
    && (s.node[p].st == M ==> t.node[p].st == M)
  }

  /** What `sendInvalidates` at `p` may be called with. */
  ghost predicate MayCollect(par: Tree, s: Line, h: nat, p: nat, ks: set<nat>, ty: Inval) {
    && p < |par| && InvBut(par, s, h, p)
    && ks == (if ty == INVX && !s.node[p].dir.IsExclusive() then {} else s.node[p].dir.sharers)
    && (forall k :: k in ks ==> IsChild(par, k, p) && s.node[k].st != I)
    && (forall k :: k in ks && s.node[k].st.Exclusive() ==> s.node[p].st.Exclusive())
    && (Below(par, p, h) ==> Toward(par, p, h) in ks)
    && s.node[p].req == None
  }

  lemma CollectFlag(par: Tree, s: Line, h: nat, p: nat, ks: set<nat>, ty: Inval, d: Down)
    requires MayCollect(par, s, h, p, ks, ty) && SendDone(par, s, p, ty, d)
    ensures d.wb ==> s.node[p].st.Exclusive()
    ensures Below(par, p, h) ==> d.wb
    ensures s.node[p].st != I && !d.wb ==> s.node[p].ver == s.latest
  {
    if d.wb {
      var k :| k in ks && DirtyUnder(par, s, k);
      var n: nat :| Under(par, k, n) && n < |s.node| && s.node[n].st == M;
      ChildSubtree(par, s, h, p, k);
      if !s.node[k].st.Exclusive() { SharedBelow(par, s, k, h, n); }
    }
    if Below(par, p, h) { assert DirtyUnder(par, s, Toward(par, p, h)); }
    assert CopyOk(par, s, p, h);
  }

  lemma CollectOthers(par: Tree, s: Line, h: nat, p: nat, ks: set<nat>, ty: Inval, t: Line)
    requires MayCollect(par, s, h, p, ks, ty) && SweptBelow(par, s, p, ks, ty, t)
    requires Rank(t.node[p].st) == Rank(s.node[p].st)
    ensures forall n: nat :: n < |par| && n != p ==>
      DirOk(par, t, n) && CopyOk(par, t, n, Home(par, p, ks, h)) && ReqOk(t.node[n])
  {
    forall n: nat | n < |par| && n != p
      ensures DirOk(par, t, n) && CopyOk(par, t, n, Home(par, p, ks, h)) && ReqOk(t.node[n])
    {
      WaveDir(par, s, h, p, ks, ty, t, n);
      WaveCopy(par, s, h, p, ks, ty, t, n);
    }
  }

  lemma CollectData(par: Tree, s: Line, h: nat, p: nat, ks: set<nat>, ty: Inval, d: Down, t: Line)
    requires MayCollect(par, s, h, p, ks, ty) && SendDone(par, s, p, ty, d)
    requires t == Absorb(d, p)
    ensures Collected(par, s, h, p, ks, ty, t)
  {
    CollectOwn(par, s, h, p, ks, ty, d, t);
    CollectOthers(par, s, h, p, ks, ty, t);
  }

  lemma CollectOwn(par: Tree, s: Line, h: nat, p: nat, ks: set<nat>, ty: Inval, d: Down, t: Line)
    requires MayCollect(par, s, h, p, ks, ty) && SendDone(par, s, p, ty, d)
    requires t == Absorb(d, p)
    ensures |t.node| == |par| && t.ok && t.latest == s.latest && SweptBelow(par, s, p, ks, ty, t)
    ensures CopyOk(par, t, p, Home(par, p, ks, h)) && (s.node[p].st != I ==> t.node[p].ver == s.latest)
    ensures Rank(t.node[p].st) == Rank(s.node[p].st) && (s.node[p].st == M ==> t.node[p].st == M)
    ensures t.node[p].dir == TouchEntry(ty, s.node[p].dir)
    ensures t.node[p].req == s.node[p].req && t.node[p].tag == s.node[p].tag
    ensures ReqOk(t.node[p]) && MemoryOk(t.node[0])
    ensures var home := Home(par, p, ks, h); home < |par| && t.node[home].st == M
  {
    CollectFlag(par, s, h, p, ks, ty, d);
    assert CopyOk(par, s, p, h);
  }

  // ------------------------------------------------------------------ answering a GET

  /** A child of `p` gets the line, `p`'s entry says so, and nobody else changes. */
  lemma Install(par: Tree, t: Line, h: nat, c: nat, entry: Entry, st: Mesi, u: Line)
    requires 0 < c < |par| && InvBut(par, t, h, par[c])
    requires t.node[par[c]].st != I && t.node[par[c]].req == None && t.node[par[c]].ver == t.latest
    requires !t.node[c].st.Exclusive() && st != I && Rank(st) >= Rank(t.node[c].st) && t.node[c].tag
    requires u == t.At(par[c], t.node[par[c]].(dir := entry))
                  .At(c, t.node[c].(st := st, ver := t.latest, req := None))
    requires DirOk(par, u, par[c])
    ensures InvAt(par, u, h)
  {
    var p := par[c];
    forall n: nat | n < |par| && n != p
      ensures DirOk(par, u, n)
    {
      DirFrame(par, t, u, n);
    }
    forall n: nat | n < |par|
      ensures CopyOk(par, u, n, h) && ReqOk(u.node[n])
    {
      assert CopyOk(par, t, n, h) && ReqOk(t.node[n]);
    }
  }

  /** The way down to the latest data goes through a listed, exclusive child. */
  lemma HomeListed(par: Tree, s: Line, h: nat, p: nat)
    requires InvAt(par, s, h) && p < |par|
    ensures Below(par, p, h) ==> s.node[p].dir.IsExclusive() && Toward(par, p, h) in s.node[p].dir.sharers
    ensures !Below(par, p, h) && s.node[p].st != I ==> s.node[p].ver == s.latest
  {
    SubtreeFromInv(par, s, h, |par|, p);
    DirtyThroughSharers(par, s, p, h);
    assert CopyOk(par, s, p, h);
  }

  lemma GrantEKeeps(par: Tree, s: Line, h: nat, c: nat)
    requires InvAt(par, s, h) && Enabled(par, s, Grant(c)) && s.node[c].req.value.op == GETS
    requires s.node[par[c]].dir.IsEmpty() && s.node[par[c]].st.Exclusive() && !s.node[c].req.value.noExcl
    ensures InvAt(par, Apply(par, s, Grant(c)), h)
  {
    var p := par[c];
    assert DirOk(par, s, p) && ReqOk(s.node[c]);
    HomeListed(par, s, h, p);
    Install(par, s, h, c, Entry(1, {c}, true), E, Apply(par, s, Grant(c)));
  }

  lemma CollectForShared(par: Tree, s: Line, h: nat, p: nat) returns (d: Down, t: Line)
    requires InvAt(par, s, h) && p < |par| && s.node[p].req == None
    ensures d == SendInvalidates(par, s, p, INVX) && SendDone(par, s, p, INVX, d) && t == Absorb(d, p)
    ensures var ks := if s.node[p].dir.IsExclusive() then s.node[p].dir.sharers else {};
      Collected(par, s, h, p, ks, INVX, t)
  {
    var ks := if s.node[p].dir.IsExclusive() then s.node[p].dir.sharers else {};
    assert DirOk(par, s, p);
    HomeListed(par, s, h, p);
    forall k | k in ks
      ensures SubtreeOk(par, s, k, h)
    {
      SubtreeFromInv(par, s, h, |par|, k);
    }
    SendInvalidatesSweeps(par, s, p, INVX, h);
    d := SendInvalidates(par, s, p, INVX);
    t := Absorb(d, p);
    CollectData(par, s, h, p, ks, INVX, d, t);
  }

  /** The shared grant, once the data has been collected in `t`. */
  lemma GrantSIs(par: Tree, s: Line, c: nat, t: Line)
    requires 0 < c < |par| == |s.node| && s.node[c].req.Some? && c !in s.node[par[c]].dir.sharers
    requires !(s.node[par[c]].dir.IsEmpty() && s.node[par[c]].st.Exclusive() && !s.node[c].req.value.noExcl)
    requires t == Absorb(SendInvalidates(par, s, par[c], INVX), par[c])
    ensures GrantShared(par, s, c) == Share(t, par[c], c)
  {
    assert t.Check(true) == t;
  }

  lemma ShareIs(t: Line, p: nat, c: nat)
    requires p < |t.node| && c < |t.node| && p != c && !t.node[p].dir.IsExclusive() && t.node[p].ver == t.latest
    ensures var e := t.node[p].dir;
      Share(t, p, c) == t.At(p, t.node[p].(dir := Entry(e.num + 1, e.sharers + {c}, false)))
                         .At(c, t.node[c].(st := S, ver := t.latest, req := None))
  {
  }

  /** A grant that is not exclusive, as a change of the collected state. */
  lemma SharedGrant(par: Tree, s: Line, h: nat, c: nat) returns (d: Down, t: Line)
    requires InvAt(par, s, h) && Enabled(par, s, Grant(c)) && s.node[c].req.value.op == GETS
    requires !(s.node[par[c]].dir.IsEmpty() && s.node[par[c]].st.Exclusive() && !s.node[c].req.value.noExcl)
    ensures SendDone(par, s, par[c], INVX, d) && t == Absorb(d, par[c])
    ensures var ks := if s.node[par[c]].dir.IsExclusive() then s.node[par[c]].dir.sharers else {};
      Collected(par, s, h, par[c], ks, INVX, t)
    ensures var e := t.node[par[c]].dir;
      GrantShared(par, s, c) == t.At(par[c], t.node[par[c]].(dir := Entry(e.num + 1, e.sharers + {c}, false)))
                                 .At(c, t.node[c].(st := S, ver := t.latest, req := None))
  {
    d, t := CollectForShared(par, s, h, par[c]);
    assert DirOk(par, s, par[c]) && ReqOk(s.node[c]);
    GrantSIs(par, s, c, t);
    ShareIs(t, par[c], c);
  }

  lemma GrantSKeeps(par: Tree, s: Line, h: nat, c: nat)
    requires InvAt(par, s, h) && Enabled(par, s, Grant(c)) && s.node[c].req.value.op == GETS
    requires !(s.node[par[c]].dir.IsEmpty() && s.node[par[c]].st.Exclusive() && !s.node[c].req.value.noExcl)
    ensures Inv(par, Apply(par, s, Grant(c)))
  {
    var d, t := SharedGrant(par, s, h, c);
    assert ReqOk(s.node[c]);
    FinishShared(par, s, h, c, t, GrantShared(par, s, c));
  }

  lemma FinishShared(par: Tree, s: Line, h: nat, c: nat, t: Line, u: Line)
    requires InvAt(par, s, h) && Started(s, c) && 0 < c < |par| && s.node[c].req.value.op == GETS
    requires s.node[par[c]].req == None && s.node[par[c]].st != I
    requires var ks := if s.node[par[c]].dir.IsExclusive() then s.node[par[c]].dir.sharers else {};
      Collected(par, s, h, par[c], ks, INVX, t)
    requires var e := t.node[par[c]].dir;
      u == t.At(par[c], t.node[par[c]].(dir := Entry(e.num + 1, e.sharers + {c}, false)))
            .At(c, t.node[c].(st := S, ver := t.latest, req := None))
    ensures Inv(par, u)
  {
    var p := par[c];
    var ks := if s.node[p].dir.IsExclusive() then s.node[p].dir.sharers else {};
    assert DirOk(par, s, p) && ReqOk(s.node[c]);
    SharedDir(par, s, h, c, t, u);
    SweptChild(par, s, p, ks, INVX, t);
    Install(par, t, Home(par, p, ks, h), c, Entry(t.node[p].dir.num + 1, t.node[p].dir.sharers + {c}, false), S, u);
  }

  lemma SharedDir(par: Tree, s: Line, h: nat, c: nat, t: Line, u: Line)
    requires 0 < c < |par| == |s.node| && DirOk(par, s, par[c]) && s.node[c].st == I && s.node[par[c]].st != I
    requires var ks := if s.node[par[c]].dir.IsExclusive() then s.node[par[c]].dir.sharers else {};
      Collected(par, s, h, par[c], ks, INVX, t)
    requires var e := t.node[par[c]].dir;
      u == t.At(par[c], t.node[par[c]].(dir := Entry(e.num + 1, e.sharers + {c}, false)))
            .At(c, t.node[c].(st := S, ver := t.latest, req := None))
    ensures DirOk(par, u, par[c])
  {
    var p := par[c];
    var ks := if s.node[p].dir.IsExclusive() then s.node[p].dir.sharers else {};
    SharedEntry(par, s, t, ks, c, Entry(t.node[p].dir.num + 1, t.node[p].dir.sharers + {c}, false), u);
  }

  lemma SweptChild(par: Tree, s: Line, p: nat, ks: set<nat>, ty: Inval, t: Line)
    requires p < |par| && SweptBelow(par, s, p, ks, ty, t)
    ensures forall k: nat :: IsChild(par, k, p) ==>
      t.node[k] == if k in ks then Touch(ty, s.latest, s.node[k]) else s.node[k]
  {
    forall k: nat | IsChild(par, k, p)
      ensures t.node[k] == if k in ks then Touch(ty, s.latest, s.node[k]) else s.node[k]
    {
      assert Under(par, k, k);
      TowardUnique(par, p, k, k);
    }
  }

  lemma SharedChild(par: Tree, s: Line, c: nat, ks: set<nat>, k: nat, st: Mesi)
    requires 0 < c < |par| == |s.node| && DirOk(par, s, par[c]) && s.node[c].st == I
    requires IsChild(par, k, par[c]) && k != c
    requires ks == if s.node[par[c]].dir.IsExclusive() then s.node[par[c]].dir.sharers else {}
    requires st == if k in ks then Touch(INVX, s.latest, s.node[k]).st else s.node[k].st
    ensures !st.Exclusive() && (st != I <==> k in s.node[par[c]].dir.sharers)
  {
  }

  lemma SharedEntry(par: Tree, s: Line, t: Line, ks: set<nat>, c: nat, entry: Entry, u: Line)
    requires 0 < c < |par| == |s.node| && DirOk(par, s, par[c]) && s.node[c].st == I
    requires SweptBelow(par, s, par[c], ks, INVX, t)
    requires ks == if s.node[par[c]].dir.IsExclusive() then s.node[par[c]].dir.sharers else {}
    requires t.node[par[c]].st != I
    requires var e := s.node[par[c]].dir; entry == Entry(e.num + 1, e.sharers + {c}, false)
    requires |u.node| == |par| && u.node[par[c]] == t.node[par[c]].(dir := entry) && u.node[c].st == S
    requires forall k: nat :: k < |par| && k != c && k != par[c] ==> u.node[k] == t.node[k]
    ensures DirOk(par, u, par[c])
  {
    var p := par[c];
    SweptChild(par, s, p, ks, INVX, t);
    forall k: nat | IsChild(par, k, p)
      ensures !u.node[k].st.Exclusive() && (u.node[k].st != I <==> k in entry.sharers)
    {
      if k != c { SharedChild(par, s, c, ks, k, u.node[k].st); }
    }
  }

  /** Invalidating all listed children of `p`. */
  lemma CollectAll(par: Tree, s: Line, h: nat, p: nat) returns (d: Down, t: Line)
    requires p < |par| == |s.node| && MayCollect(par, s, h, p, s.node[p].dir.sharers, INV)
    requires s.node[p].dir.num == |s.node[p].dir.sharers|
    ensures d == SendInvalidates(par, s, p, INV) && SendDone(par, s, p, INV, d) && t == Absorb(d, p)
    ensures Collected(par, s, h, p, s.node[p].dir.sharers, INV, t)
  {
    forall k | k in s.node[p].dir.sharers
      ensures SubtreeOk(par, s, k, h)
    {
      ChildSubtree(par, s, h, p, k);
    }
    SendInvalidatesSweeps(par, s, p, INV, h);
    d := SendInvalidates(par, s, p, INV);
    t := Absorb(d, p);
    CollectData(par, s, h, p, s.node[p].dir.sharers, INV, d, t);
  }

  ghost predicate UpgradeEntry(was: Entry, c: nat, e: Entry) {
    e == if c in was.sharers then Entry(was.num - 1, was.sharers - {c}, was.excl) else was
  }

  /** A cache waiting for a GETX lists itself, if at all, among plain sharers. */
  lemma UpgradeIsShared(par: Tree, s: Line, h: nat, c: nat, e: Entry)
    requires InvAt(par, s, h) && Enabled(par, s, Grant(c)) && s.node[c].req.value.op == GETX
    requires UpgradeEntry(s.node[par[c]].dir, c, e)
    ensures c in s.node[par[c]].dir.sharers ==> !s.node[par[c]].dir.IsExclusive()
    ensures c !in e.sharers && e.num == |e.sharers|
    ensures Below(par, par[c], h) ==> Toward(par, par[c], h) in e.sharers
  {
    assert DirOk(par, s, par[c]) && ReqOk(s.node[c]);
    HomeListed(par, s, h, par[c]);
  }

  lemma UpgradeSharers(par: Tree, s: Line, p: nat, c: nat, e: Entry)
    requires p < |par| == |s.node| && DirOk(par, s, p) && UpgradeEntry(s.node[p].dir, c, e)
    ensures forall k :: k in e.sharers ==> IsChild(par, k, p) && s.node[k].st != I
    ensures forall k: nat :: IsChild(par, k, p) && k !in e.sharers && k != c ==> s.node[k].st == I
  {
  }

  lemma UpgradeInv(par: Tree, s: Line, h: nat, p: nat, st: Mesi, e: Entry, s1: Line)
    requires InvAt(par, s, h) && p < |par| && s.node[p].req == None && Rank(st) == Rank(s.node[p].st)
    requires s.node[p].st == M ==> st == M
    requires s1 == s.At(p, s.node[p].(st := st, dir := e))
    ensures InvBut(par, s1, h, p)
  {
    forall n: nat | n < |par|
      ensures (n != p ==> DirOk(par, s1, n)) && CopyOk(par, s1, n, h) && ReqOk(s1.node[n])
    {
      assert CopyOk(par, s, n, h) && ReqOk(s.node[n]) && DirOk(par, s, n);
      if n != p { DirFrame(par, s, s1, n); }
    }
  }

  /** What the invalidation before an exclusive grant starts from. */
  lemma UpgradeReady(par: Tree, s: Line, h: nat, c: nat, st: Mesi, e: Entry, s1: Line)
    requires InvAt(par, s, h) && Enabled(par, s, Grant(c)) && s.node[c].req.value.op == GETX
    requires st == if s.node[par[c]].st == E then M else s.node[par[c]].st
    requires UpgradeEntry(s.node[par[c]].dir, c, e) && s1 == s.At(par[c], s.node[par[c]].(st := st, dir := e))
    ensures InvBut(par, s1, h, par[c]) && c !in e.sharers && e.num == |e.sharers|
    ensures forall k :: k in e.sharers ==> IsChild(par, k, par[c]) && s1.node[k].st != I
    ensures forall k: nat :: IsChild(par, k, par[c]) && k !in e.sharers && k != c ==> s1.node[k].st == I
    ensures Below(par, par[c], h) ==> Toward(par, par[c], h) in e.sharers
    ensures c in s.node[par[c]].dir.sharers ==> !s.node[par[c]].dir.IsExclusive()
  {
    UpgradeIsShared(par, s, h, c, e);
    assert DirOk(par, s, par[c]);
    UpgradeSharers(par, s, par[c], c, e);
    UpgradeInv(par, s, h, par[c], st, e, s1);
  }

  lemma PrepareUpgrade(par: Tree, s: Line, h: nat, c: nat, st: Mesi, e: Entry, s1: Line) returns (t: Line)
    requires InvAt(par, s, h) && Enabled(par, s, Grant(c)) && s.node[c].req.value.op == GETX
    requires st == if s.node[par[c]].st == E then M else s.node[par[c]].st
    requires UpgradeEntry(s.node[par[c]].dir, c, e) && s1 == s.At(par[c], s.node[par[c]].(st := st, dir := e))
    ensures t == Absorb(SendInvalidates(par, s1, par[c], INV), par[c])
    ensures Collected(par, s1, h, par[c], e.sharers, INV, t)
    ensures c in s.node[par[c]].dir.sharers ==> !s.node[par[c]].dir.IsExclusive()
    ensures forall k: nat :: IsChild(par, k, par[c]) && k !in e.sharers && k != c ==> s1.node[k].st == I
    ensures c !in e.sharers && st.Exclusive()
  {
    UpgradeReady(par, s, h, c, st, e, s1);
    t := CollectUpgrade(par, s1, h, par[c], e);
  }

  lemma CollectUpgrade(par: Tree, s1: Line, h: nat, p: nat, e: Entry) returns (t: Line)
    requires p < |par| && InvBut(par, s1, h, p) && s1.node[p].dir == e && e.num == |e.sharers|
    requires forall k :: k in e.sharers ==> IsChild(par, k, p) && s1.node[k].st != I
    requires Below(par, p, h) ==> Toward(par, p, h) in e.sharers
    requires s1.node[p].st.Exclusive() && s1.node[p].req == None
    ensures t == Absorb(SendInvalidates(par, s1, p, INV), p) && Collected(par, s1, h, p, e.sharers, INV, t)
  {
    var d;
    d, t := CollectAll(par, s1, h, p);
  }

  lemma ExclusiveEntry(par: Tree, s: Line, t: Line, ks: set<nat>, c: nat, u: Line)
    requires 0 < c < |par| == |s.node| && SweptBelow(par, s, par[c], ks, INV, t)
    requires forall k: nat :: IsChild(par, k, par[c]) && k !in ks && k != c ==> s.node[k].st == I
    requires t.node[par[c]].st.Exclusive()
    requires |u.node| == |par| && u.node[par[c]] == t.node[par[c]].(dir := Entry(1, {c}, true)) && u.node[c].st == M
    requires forall k: nat :: k < |par| && k != c && k != par[c] ==> u.node[k] == t.node[k]
    ensures DirOk(par, u, par[c])
  {
    SweptChild(par, s, par[c], ks, INV, t);
    assert forall k: nat :: IsChild(par, k, par[c]) && k != c ==> u.node[k].st == I;
  }

  lemma ClaimIs(par: Tree, s: Line, c: nat, st: Mesi, e: Entry)
    requires 0 < c < |par| == |s.node| && st.Exclusive()
    requires st == if s.node[par[c]].st == E then M else s.node[par[c]].st
    requires UpgradeEntry(s.node[par[c]].dir, c, e)
    requires c in s.node[par[c]].dir.sharers ==> !s.node[par[c]].dir.IsExclusive()
    ensures Claim(par, s, c) == s.At(par[c], s.node[par[c]].(st := st, dir := e))
  {
  }

  lemma HandOverIs(t: Line, p: nat, c: nat)
    requires p < |t.node| && c < |t.node| && p != c && t.node[p].ver == t.latest
    requires t.node[p].dir.num == 0 && t.node[p].dir.sharers == {}
    ensures HandOver(t, p, c) == t.At(p, t.node[p].(dir := Entry(1, {c}, true)))
                                  .At(c, t.node[c].(st := M, ver := t.latest, req := None))
  {
    assert {} + {c} == {c};
  }

  /** The exclusive grant, once the data has been collected in `t`. */
  lemma GrantXIs(par: Tree, s: Line, h: nat, c: nat) returns (st: Mesi, e: Entry, s1: Line, t: Line)
    requires InvAt(par, s, h) && Enabled(par, s, Grant(c)) && s.node[c].req.value.op == GETX
    ensures s1 == s.At(par[c], s.node[par[c]].(st := st, dir := e)) && st == M && c !in e.sharers
    ensures Collected(par, s1, h, par[c], e.sharers, INV, t)
    ensures forall k: nat :: IsChild(par, k, par[c]) && k !in e.sharers && k != c ==> s1.node[k].st == I
    ensures GrantExclusive(par, s, c) == t.At(par[c], t.node[par[c]].(dir := Entry(1, {c}, true)))
                                          .At(c, t.node[c].(st := M, ver := t.latest, req := None))
  {
    var p := par[c];
    var x := s.node[p];
    st := if x.st == E then M else x.st;
    e := if c in x.dir.sharers then Entry(x.dir.num - 1, x.dir.sharers - {c}, x.dir.excl) else x.dir;
    s1 := s.At(p, x.(st := st, dir := e));
    t := PrepareUpgrade(par, s, h, c, st, e, s1);
    ClaimIs(par, s, c, st, e);
    HandOverIs(t, p, c);
  }

  lemma GrantXKeeps(par: Tree, s: Line, h: nat, c: nat)
    requires InvAt(par, s, h) && Enabled(par, s, Grant(c)) && s.node[c].req.value.op == GETX
    ensures Inv(par, GrantExclusive(par, s, c))
  {
    var st, e, s1, t := GrantXIs(par, s, h, c);
    assert ReqOk(s.node[c]);
    FinishUpgrade(par, s1, h, c, e, t, GrantExclusive(par, s, c));
  }

  lemma FinishUpgrade(par: Tree, s1: Line, h: nat, c: nat, e: Entry, t: Line, u: Line)
    requires 0 < c < |par| && Collected(par, s1, h, par[c], e.sharers, INV, t) && c !in e.sharers
    requires forall k: nat :: IsChild(par, k, par[c]) && k !in e.sharers && k != c ==> s1.node[k].st == I
    requires s1.node[par[c]].st.Exclusive() && s1.node[par[c]].req == None
    requires s1.node[c].tag && !s1.node[c].st.Exclusive()
    requires u == t.At(par[c], t.node[par[c]].(dir := Entry(1, {c}, true)))
                  .At(c, t.node[c].(st := M, ver := t.latest, req := None))
    ensures InvAt(par, u, Home(par, par[c], e.sharers, h))
  {
    var p := par[c];
    SweptChild(par, s1, p, e.sharers, INV, t);
    ExclusiveEntry(par, s1, t, e.sharers, c, u);
    Install(par, t, Home(par, p, e.sharers, h), c, Entry(1, {c}, true), M, u);
  }

  // ------------------------------------------------------------------ giving up the line

  lemma EvictCollects(par: Tree, s: Line, h: nat, c: nat) returns (d: Down, t: Line, home: nat)
    requires InvAt(par, s, h) && c < |par| && s.node[c].req == None
    ensures d == SendInvalidates(par, s, c, INV) && SendDone(par, s, c, INV, d) && t == Absorb(d, c)
    ensures InvAt(par, t, home)
    ensures t.node[c].dir.sharers == {} && t.node[c].req == None && t.node[c].tag == s.node[c].tag
  {
    assert DirOk(par, s, c);
    HomeListed(par, s, h, c);
    d, t := CollectAll(par, s, h, c);
    home := Home(par, c, s.node[c].dir.sharers, h);
    EmptiedDir(par, s, h, c, t);
  }

  lemma EmptiedDir(par: Tree, s: Line, h: nat, c: nat, t: Line)
    requires c < |par| && |s.node| == |par| && DirOk(par, s, c)
    requires Collected(par, s, h, c, s.node[c].dir.sharers, INV, t)
    ensures DirOk(par, t, c)
  {
    SweptChild(par, s, c, s.node[c].dir.sharers, INV, t);
  }

  lemma GiveUpKeeps(par: Tree, t: Line, home: nat, c: nat)
    requires InvAt(par, t, home) && 0 < c < |par|
    requires t.node[c].dir.sharers == {} && t.node[c].req == None && t.node[c].tag
    ensures InvAt(par, GiveUp(t, c), home)
  {
    RequestFrame(par, t, GiveUp(t, c), home);
  }

  lemma EvictKeeps(par: Tree, s: Line, h: nat, c: nat)
    requires InvAt(par, s, h) && Enabled(par, s, Evict(c))
    ensures Inv(par, Apply(par, s, Evict(c)))
  {
    var d, t, home := EvictCollects(par, s, h, c);
    GiveUpKeeps(par, t, home, c);
  }

  /** A PUT that was not overtaken by an INV finds the requester listed, exclusively if it is dirty. */
  lemma PutFits(par: Tree, s: Line, h: nat, c: nat)
    requires InvAt(par, s, h) && Enabled(par, s, Put(c))
    ensures var x := s.node[c];
      match CheckRace(x.req.value.op, x.st, x.req.value.initial)
      case Fail => false
      case Skip => x.st == I
      case Proceed(op) =>
        && x.st != I && (op == PUTX <==> x.st == M) && op.IsPut() && x.ver == s.latest
        && (AcceptPut(par, s, c, op).ok && s.node[par[c]].st != I)
  {
    assert ReqOk(s.node[c]) && CopyOk(par, s, par[c], h) && DirOk(par, s, par[c]) && IsChild(par, c, par[c]);
    HomeListed(par, s, h, c);
  }

  lemma PutDir(par: Tree, s: Line, h: nat, c: nat, op: Access, n: nat)
    requires InvAt(par, s, h) && 0 < c < |par| && n < |par| && op.IsPut()
    requires s.node[c].st != I && s.node[c].dir.sharers == {}
    requires AcceptPut(par, s, c, op).ok
    ensures DirOk(par, AcceptPut(par, s, c, op), n)
  {
    var u := AcceptPut(par, s, c, op);
    assert DirOk(par, s, n);
    if n != par[c] {
      if n != c { DirFrame(par, s, u, n); }
    } else {
      PutDirParent(par, s, c, op, u);
    }
  }

  lemma PutDirParent(par: Tree, s: Line, c: nat, op: Access, u: Line)
    requires 0 < c < |par| == |s.node| && DirOk(par, s, par[c]) && s.node[c].st != I
    requires u == AcceptPut(par, s, c, op) && u.ok
    ensures DirOk(par, u, par[c])
  {
    assert IsChild(par, c, par[c]);
    var e := s.node[par[c]].dir;
    if k :| k in e.sharers && k != c { assert {k, c} <= e.sharers; Subset({k, c}, e.sharers); }
  }

  lemma Subset(a: set<nat>, b: set<nat>)
    requires a <= b
    ensures |a| <= |b|
  {
    assert b == a + (b - a) && |b| == |a| + |b - a|;
  }

  lemma PutKeeps(par: Tree, s: Line, h: nat, c: nat)
    requires InvAt(par, s, h) && Enabled(par, s, Put(c))
    ensures Inv(par, Apply(par, s, Put(c)))
  {
    var x := s.node[c];
    assert ReqOk(x);
    PutFits(par, s, h, c);
    match CheckRace(x.req.value.op, x.st, x.req.value.initial)
    case Skip => RequestFrame(par, s, Apply(par, s, Put(c)), h);
    case Proceed(op) => PutAccepted(par, s, h, c, op);
  }

  lemma PutAccepted(par: Tree, s: Line, h: nat, c: nat, op: Access)
    requires InvAt(par, s, h) && 0 < c < |par| && op.IsPut() && (op == PUTX <==> s.node[c].st == M)
    requires s.node[c].st != I && s.node[c].dir.sharers == {} && s.node[c].ver == s.latest
    requires AcceptPut(par, s, c, op).ok && s.node[par[c]].st != I && s.node[par[c]].req == None
    ensures Inv(par, Finish(AcceptPut(par, s, c, op), c))
  {
    var t := AcceptPut(par, s, c, op);
    var u := Finish(t, c);
    var home := if h == c then par[c] else h;
    forall n: nat | n < |par|
      ensures DirOk(par, u, n) && CopyOk(par, u, n, home) && ReqOk(u.node[n])
    {
      PutDir(par, s, h, c, op, n);
      DirFrame(par, t, u, n);
      assert CopyOk(par, s, n, h) && ReqOk(s.node[n]);
    }
    assert InvAt(par, u, home);
  }

  // ------------------------------------------------------------------ the other steps

  lemma StoreKeeps(par: Tree, s: Line, h: nat, c: nat)
    requires InvAt(par, s, h) && Enabled(par, s, Store(c))
    ensures InvAt(par, Apply(par, s, Store(c)), c)
  {
    var u := Apply(par, s, Store(c));
    assert CopyOk(par, s, c, h);
    forall n: nat | n < |par|
      ensures DirOk(par, u, n) && CopyOk(par, u, n, c) && ReqOk(u.node[n])
    {
      assert DirOk(par, s, n) && CopyOk(par, s, n, h) && ReqOk(s.node[n]);
      DirFrame(par, s, u, n);
      if s.node[n].st != I && n != c {
        ExclusiveAlone(par, s, h, c, n);
        if Under(par, c, n) { LeafIsLast(par, c, n); }
      }
    }
  }

  lemma RequestKeeps(par: Tree, s: Line, h: nat, step: Step)
    requires InvAt(par, s, h) && Enabled(par, s, step) && (step.Miss? || step.Begin? || step.Fetch?)
    ensures InvAt(par, Apply(par, s, step), h)
  {
    assert ReqOk(s.node[step.c]) && ReqOk(s.node[par[step.c]]);
    RequestFrame(par, s, Apply(par, s, step), h);
  }

  /** Every step keeps the invariant. */
  lemma StepKeeps(par: Tree, s: Line, step: Step)
    requires Inv(par, s) && Enabled(par, s, step)
    ensures Inv(par, Apply(par, s, step))
  {
    var h: nat :| InvAt(par, s, h);
    match step
    case Store(c) => StoreKeeps(par, s, h, c);
    case Evict(c) => EvictKeeps(par, s, h, c);
    case Put(c) => PutKeeps(par, s, h, c);
    case Grant(c) =>
      assert ReqOk(s.node[c]);
      if s.node[c].req.value.op == GETX {
        GrantXKeeps(par, s, h, c);
      } else if s.node[par[c]].dir.IsEmpty() && s.node[par[c]].st.Exclusive() && !s.node[c].req.value.noExcl {
        GrantEKeeps(par, s, h, c);
      } else {
        GrantSKeeps(par, s, h, c);
      }
    case _ => RequestKeeps(par, s, h, step);
  }

  lemma {:induction false} RunKeeps(par: Tree, s: Line, steps: seq<Step>, t: Line)
    requires Inv(par, s) && Run(par, s, steps, t)
    ensures Inv(par, t)
    decreases |steps|
  {
    if steps != [] {
      StepKeeps(par, s, steps[0]);
      RunKeeps(par, Apply(par, s, steps[0]), steps[1..], t);
    }
  }

  lemma InitialOk(par: Tree)
    ensures Inv(par, Initial(par))
  {
    assert InvAt(par, Initial(par), 0);
  }

  /** The invariant holds in every reachable state of every hierarchy. */
  lemma ReachableOk(par: Tree, s: Line)
    requires Reachable(par, s)
    ensures Inv(par, s)
  {
    var steps :| Run(par, Initial(par), steps, s);
    InitialOk(par);
    RunKeeps(par, Initial(par), steps, s);
  }
}

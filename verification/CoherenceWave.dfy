/**
 What an invalidation or downgrade does to a whole subtree.

 The code visits only the children its directory entry lists, child by child and level by level.
 Where the directory is exact, the result is the simple one: every cache below is invalidated (or
 loses exclusivity), nothing else changes, the write-back flag is raised iff a modified copy was
 there, and the data it carries is the latest version.
 */
module CoherenceWave {
  import opened CacheTree
  import opened CoherenceProtocol

  // ------------------------------------------------------------------ the invariants of one cache

  /** The directory entry of `n` describes the states of its children exactly. */
  ghost predicate DirOk(par: Tree, s: Line, n: nat)
    requires n < |par| == |s.node|
  {
    var e := s.node[n].dir;
    && e.num == |e.sharers|
    && (e.num > 1 ==> !e.excl)
    && (e.sharers != {} ==> s.node[n].st != I)
    && (forall c :: c in e.sharers ==> IsChild(par, c, n) && s.node[c].st != I)
    && (forall c: nat :: IsChild(par, c, n) && s.node[c].st != I ==> c in e.sharers)
    && (forall c :: c in e.sharers ==> (s.node[c].st.Exclusive() <==> e.IsExclusive()))
    && (e.IsExclusive() ==> s.node[n].st.Exclusive())
  }

  /** A valid copy is tagged, and is up to date unless a modified copy `h` lies below it. */
  ghost predicate CopyOk(par: Tree, s: Line, n: nat, h: nat)
    requires n < |par| == |s.node|
  {
    s.node[n].st != I ==> s.node[n].tag && (s.node[n].ver == s.latest || Below(par, n, h))
  }

  ghost predicate SubtreeOk(par: Tree, s: Line, r: nat, h: nat) {
    && |s.node| == |par|
    && (Under(par, r, h) ==> s.node[h].st == M)
    && (forall n: nat {:trigger DirOk(par, s, n)} :: Under(par, r, n) ==> DirOk(par, s, n))
    && (forall n: nat {:trigger CopyOk(par, s, n, h)} :: Under(par, r, n) ==> CopyOk(par, s, n, h))
  }

  // ------------------------------------------------------------------ the simple description

  function TouchEntry(ty: Inval, e: Entry): Entry {
    if ty == INV then Entry(0, {}, e.excl) else e.(excl := e.excl && e.num != 1)
  }

  function Touch(ty: Inval, latest: nat, x: Node): Node {
    x.(dir := TouchEntry(ty, x.dir),
       st := if ty == INV then I else if x.st.Exclusive() then S else x.st,
       ver := if ty == INVX && x.st.Exclusive() then latest else x.ver)
  }

  /** `t` is `s` with every cache under `c` touched. */
  ghost predicate Touched(par: Tree, s: Line, c: nat, ty: Inval, t: Line)
    requires c < |par|
  {
    && |s.node| == |t.node| == |par| && t.latest == s.latest && t.ok == s.ok
    && forall n :: 0 <= n < |par| ==>
      t.node[n] == if Under(par, c, n) then Touch(ty, s.latest, s.node[n]) else s.node[n]
  }

  /** `t` is `s` with every cache touched that lies under one of the children `ks` of `p`. */
  ghost predicate SweptBelow(par: Tree, s: Line, p: nat, ks: set<nat>, ty: Inval, t: Line)
    requires p < |par|
  {
    && |s.node| == |t.node| == |par| && t.latest == s.latest && t.ok == s.ok
    && forall n :: 0 <= n < |par| && n != p ==>
      t.node[n] == if Below(par, p, n) && Toward(par, p, n) in ks then Touch(ty, s.latest, s.node[n]) else s.node[n]
  }

  ghost predicate DirtyUnder(par: Tree, s: Line, c: nat) {
    exists n: nat :: Under(par, c, n) && n < |s.node| && s.node[n].st == M
  }

  // ------------------------------------------------------------------ facts about subtrees

  lemma SubtreeOfChild(par: Tree, s: Line, r: nat, c: nat, h: nat)
    requires SubtreeOk(par, s, r, h) && Under(par, r, c)
    ensures SubtreeOk(par, s, c, h)
  {
    forall n: nat | Under(par, c, n)
      ensures Under(par, r, n)
    {
      UnderTransitive(par, r, c, n);
    }
  }

  /** A subtree is as good as before when only caches outside it have changed. */
  lemma SubtreeFrame(par: Tree, s: Line, t: Line, c: nat, h: nat)
    requires SubtreeOk(par, s, c, h) && |t.node| == |par| && t.latest == s.latest
    requires forall n: nat :: Under(par, c, n) ==> t.node[n] == s.node[n]
    ensures SubtreeOk(par, t, c, h)
  {
    forall n: nat | Under(par, c, n)
      ensures DirOk(par, t, n) && CopyOk(par, t, n, h)
    {
      assert CopyOk(par, s, n, h);
      forall x: nat | IsChild(par, x, n)
        ensures t.node[x] == s.node[x]
      {
        assert Under(par, n, x);
        UnderTransitive(par, c, n, x);
      }
      assert DirOk(par, s, n);
    }
  }

  /** Below an invalid cache everything is invalid. */
  lemma {:induction false} InvalidBelow(par: Tree, s: Line, c: nat, h: nat, n: nat)
    requires c < |par| && SubtreeOk(par, s, c, h) && Under(par, c, n) && s.node[c].st == I
    ensures s.node[n].st == I && s.node[n].dir.sharers == {} && s.node[n].dir.num == 0
    decreases n
  {
    assert DirOk(par, s, n);
    if n != c {
      InvalidBelow(par, s, c, h, par[n]);
      assert IsChild(par, n, par[n]) && DirOk(par, s, par[n]);
    }
  }

  /** Below a cache without exclusive permission there is none. */
  lemma {:induction false} SharedBelow(par: Tree, s: Line, c: nat, h: nat, n: nat)
    requires c < |par| && SubtreeOk(par, s, c, h) && Under(par, c, n) && !s.node[c].st.Exclusive()
    ensures !s.node[n].st.Exclusive() && !s.node[n].dir.IsExclusive()
    decreases n
  {
    assert DirOk(par, s, n);
    if n != c {
      SharedBelow(par, s, c, h, par[n]);
      assert DirOk(par, s, par[n]);
      assert IsChild(par, n, par[n]);
    }
  }

  /** Caches reached through a child that is not listed have nothing to lose. */
  lemma TouchIdle(par: Tree, s: Line, c: nat, h: nat, ty: Inval, n: nat)
    requires c < |par| && SubtreeOk(par, s, c, h) && Under(par, c, n)
    requires if ty == INV then s.node[c].st == I else !s.node[c].st.Exclusive()
    ensures Touch(ty, s.latest, s.node[n]) == s.node[n]
  {
    if ty == INV { InvalidBelow(par, s, c, h, n); } else { SharedBelow(par, s, c, h, n); }
  }

  // ------------------------------------------------------------------ the loop over the children

  ghost function NumberedBelow(ks: set<nat>, k: nat): set<nat> {
    set c | c in ks && c < k
  }

  ghost predicate SweepPre(par: Tree, s: Line, p: nat, ty: Inval, h: nat)
    requires p < |par| == |s.node|
  {
    forall c :: c in s.node[p].dir.sharers ==>
      && IsChild(par, c, p) && SubtreeOk(par, s, c, h)
      && (if ty == INV then s.node[c].st != I else s.node[c].st.Exclusive())
  }

  ghost predicate SweptSome(par: Tree, s: Line, p: nat, ty: Inval, k: nat, w: Sweep)
    requires p < |par| == |s.node|
  {
    var e := s.node[p].dir;
    var done := NumberedBelow(e.sharers, k);
    && SweptBelow(par, s, p, done, ty, w.down.line)
    && w.down.line.node[p] == s.node[p].(dir := e.(sharers := if ty == INV then e.sharers - done else e.sharers))
    && w.sent == |done|
    && (w.down.wb <==> exists c :: c in done && DirtyUnder(par, s, c))
    && (w.down.wb ==> w.down.data == s.latest)
  }

  ghost predicate InvalidateDone(par: Tree, s: Line, c: nat, ty: Inval, d: Down)
    requires c < |par|
  {
    Touched(par, s, c, ty, d.line) && (d.wb <==> DirtyUnder(par, s, c)) && (d.wb ==> d.data == s.latest)
  }

  /** The subtrees of children not swept yet are still as they were. */
  lemma NotSweptYet(par: Tree, s: Line, p: nat, ks: set<nat>, ty: Inval, t: Line, c: nat)
    requires IsChild(par, c, p) && SweptBelow(par, s, p, ks, ty, t) && c !in ks
    ensures forall n: nat :: Under(par, c, n) ==> t.node[n] == s.node[n]
    ensures DirtyUnder(par, t, c) <==> DirtyUnder(par, s, c)
  {
    forall n: nat | Under(par, c, n)
      ensures t.node[n] == s.node[n]
    {
      TowardUnique(par, p, c, n);
      UnderOrder(par, c, n);
    }
  }

  lemma SweepNodes(par: Tree, s: Line, p: nat, ks: set<nat>, ty: Inval, mid: Line, c: nat, t: Line)
    requires IsChild(par, c, p) && SweptBelow(par, s, p, ks, ty, mid) && c !in ks
    requires Touched(par, mid, c, ty, t)
    ensures SweptBelow(par, s, p, ks + {c}, ty, t) && t.node[p] == mid.node[p]
  {
    NotSweptYet(par, s, p, ks, ty, mid, c);
    forall n: nat | n < |par|
      ensures Under(par, c, n) <==> Below(par, p, n) && Toward(par, p, n) == c
    {
      if Under(par, c, n) { TowardUnique(par, p, c, n); }
    }
  }

  lemma SweepStep(par: Tree, s: Line, p: nat, ty: Inval, c: nat, w: Sweep)
    requires IsChild(par, c, p) && |par| == |s.node| && SweptSome(par, s, p, ty, c, w)
    requires c in s.node[p].dir.sharers && s.node[c].tag
    requires InvalidateDone(par, w.down.line, c, ty, Invalidate(par, w.down.line, c, ty))
    ensures SweptSome(par, s, p, ty, c + 1, SweepOne(par, w, p, ty, c))
  {
    var e := s.node[p].dir;
    var done := NumberedBelow(e.sharers, c);
    var d := Invalidate(par, w.down.line, c, ty);
    SweepGrows(e.sharers, c);
    NotSweptYet(par, s, p, done, ty, w.down.line, c);
    assert Under(par, c, c);
    SweepNodes(par, s, p, done, ty, w.down.line, c, d.line);
  }

  lemma SweepGrows(ks: set<nat>, c: nat)
    requires c in ks
    ensures c !in NumberedBelow(ks, c) && NumberedBelow(ks, c + 1) == NumberedBelow(ks, c) + {c}
    ensures (ks - NumberedBelow(ks, c)) - {c} == ks - NumberedBelow(ks, c + 1)
  {
  }

  lemma SweepSkip(par: Tree, s: Line, p: nat, ty: Inval, c: nat, w: Sweep)
    requires p < |par| == |s.node| && c < |par| && SweptSome(par, s, p, ty, c, w)
    requires c !in s.node[p].dir.sharers
    ensures SweptSome(par, s, p, ty, c + 1, w)
  {
    assert NumberedBelow(s.node[p].dir.sharers, c + 1) == NumberedBelow(s.node[p].dir.sharers, c);
  }

  lemma SweepNone(par: Tree, s: Line, p: nat, ty: Inval, k: nat) returns (w: Sweep)
    requires p < |par| == |s.node| && k == 0
    ensures w == SweepChildren(par, s, p, ty, k) && SweptSome(par, s, p, ty, k, w)
  {
    w := Sweep(Down(s, false, 0), 0);
    var e := s.node[p].dir;
    assert NumberedBelow(e.sharers, 0) == {} && e.sharers - {} == e.sharers;
    assert s.node[p] == s.node[p].(dir := e.(sharers := e.sharers));
  }

  lemma SweepUnfold(par: Tree, s: Line, p: nat, ty: Inval, k: nat, w: Sweep)
    requires p < |par| == |s.node| && 0 < k <= |par| && w == SweepChildren(par, s, p, ty, k - 1)
    ensures SweepChildren(par, s, p, ty, k) == SweepOne(par, w, p, ty, k - 1)
  {
  }

  lemma {:induction false} SweepAll(par: Tree, s: Line, p: nat, ty: Inval, h: nat, k: nat) returns (w: Sweep)
    requires p < |par| == |s.node| && k <= |par| && SweepPre(par, s, p, ty, h)
    ensures w == SweepChildren(par, s, p, ty, k) && SweptSome(par, s, p, ty, k, w)
    decreases |par| - p, 0, k, 1
  {
    if k == 0 {
      w := SweepNone(par, s, p, ty, k);
    } else {
      var v := SweepAll(par, s, p, ty, h, k - 1);
      w := SweepOn(par, s, p, ty, h, k, v);
    }
  }

  lemma {:induction false} SweepOn(par: Tree, s: Line, p: nat, ty: Inval, h: nat, k: nat, v: Sweep) returns (w: Sweep)
    requires p < |par| == |s.node| && 0 < k <= |par| && SweepPre(par, s, p, ty, h)
    requires v == SweepChildren(par, s, p, ty, k - 1) && SweptSome(par, s, p, ty, k - 1, v)
    ensures w == SweepChildren(par, s, p, ty, k) && SweptSome(par, s, p, ty, k, w)
    decreases |par| - p, 0, k, 0
  {
    w := SweepNext(par, s, p, ty, h, k, v);
    SweepUnfold(par, s, p, ty, k, v);
  }

  lemma {:induction false} SweepNext(par: Tree, s: Line, p: nat, ty: Inval, h: nat, k: nat, v: Sweep) returns (w: Sweep)
    requires p < |par| == |s.node| && 0 < k <= |par| && SweepPre(par, s, p, ty, h)
    requires SweptSome(par, s, p, ty, k - 1, v)
    ensures w == SweepOne(par, v, p, ty, k - 1) && SweptSome(par, s, p, ty, k, w)
    decreases |par| - p, 0, k - 1, 0
  {
    var c := k - 1;
    w := SweepOne(par, v, p, ty, c);
    if c in s.node[p].dir.sharers {
      assert Under(par, c, c) && CopyOk(par, s, c, h);
      NotSweptYet(par, s, p, NumberedBelow(s.node[p].dir.sharers, c), ty, v.down.line, c);
      SubtreeFrame(par, s, v.down.line, c, h);
      InvalidateTouches(par, v.down.line, c, ty, h);
      SweepStep(par, s, p, ty, c, v);
    } else {
      SweepSkip(par, s, p, ty, c, v);
    }
  }

  // ------------------------------------------------------------------ the main results

  /** What `sendInvalidates` at `p` leaves behind. */
  ghost predicate SendDone(par: Tree, s: Line, p: nat, ty: Inval, d: Down)
    requires p < |par| == |s.node|
  {
    var ks := if ty == INVX && !s.node[p].dir.IsExclusive() then {} else s.node[p].dir.sharers;
    && SweptBelow(par, s, p, ks, ty, d.line)
    && d.line.node[p] == s.node[p].(dir := TouchEntry(ty, s.node[p].dir))
    && (d.wb <==> exists c :: c in ks && DirtyUnder(par, s, c))
    && (d.wb ==> d.data == s.latest)
  }

  /** The sharers' subtrees are touched, the directory forgets them, and no assertion fires. */
  lemma {:induction false} SendInvalidatesSweeps(par: Tree, s: Line, p: nat, ty: Inval, h: nat)
    requires p < |par| == |s.node|
    requires s.node[p].dir.num == |s.node[p].dir.sharers|
    requires ty == INV || s.node[p].dir.IsExclusive() ==> SweepPre(par, s, p, ty, h)
    ensures SendDone(par, s, p, ty, SendInvalidates(par, s, p, ty))
    decreases |par| - p, 1, 0
  {
    var e := s.node[p].dir;
    if (ty == INVX && !e.IsExclusive()) || e.IsEmpty() {
    } else {
      var w := SweepAll(par, s, p, ty, h, |par|);
      assert NumberedBelow(e.sharers, |par|) == e.sharers;
    }
  }

  lemma SubtreesOfChildren(par: Tree, s: Line, c: nat, h: nat)
    requires c < |par| && SubtreeOk(par, s, c, h)
    ensures forall k: nat :: IsChild(par, k, c) ==> SubtreeOk(par, s, k, h)
  {
    forall k: nat | IsChild(par, k, c)
      ensures SubtreeOk(par, s, k, h)
    {
      assert Under(par, c, k);
      SubtreeOfChild(par, s, c, k, h);
    }
  }

  /** After `sendInvalidates` every cache strictly below is touched, listed child or not. */
  lemma AllBelowTouched(par: Tree, s: Line, c: nat, ty: Inval, h: nat, d: Down)
    requires c < |par| && SubtreeOk(par, s, c, h) && SendDone(par, s, c, ty, d)
    ensures forall n: nat :: Below(par, c, n) ==> d.line.node[n] == Touch(ty, s.latest, s.node[n])
    ensures forall n: nat :: n < |par| && !Under(par, c, n) ==> d.line.node[n] == s.node[n]
  {
    assert Under(par, c, c);
    assert DirOk(par, s, c);
    SubtreesOfChildren(par, s, c, h);
    var e := s.node[c].dir;
    forall n: nat | Below(par, c, n)
      ensures d.line.node[n] == Touch(ty, s.latest, s.node[n])
    {
      var k := Toward(par, c, n);
      UnderOrder(par, c, n);
      if k !in e.sharers || (ty == INVX && !e.IsExclusive()) { TouchIdle(par, s, k, h, ty, n); }
    }
  }

  /** The flag raised at `c` says whether a modified copy lies strictly below. */
  lemma FlagBelow(par: Tree, s: Line, c: nat, ty: Inval, h: nat, d: Down)
    requires c < |par| && SubtreeOk(par, s, c, h) && SendDone(par, s, c, ty, d)
    ensures d.wb || s.node[c].st == M <==> DirtyUnder(par, s, c)
    ensures !d.wb && s.node[c].st != I ==> s.node[c].ver == s.latest
  {
    assert Under(par, c, c);
    assert DirOk(par, s, c) && CopyOk(par, s, c, h);
    DirtyThroughSharers(par, s, c, h);
    if DirtyUnder(par, s, c) {
      var n: nat :| Under(par, c, n) && n < |s.node| && s.node[n].st == M;
      if n != c { assert Below(par, c, n); }
    }
  }

  /** The cache's own part, once its children are done. */
  lemma OwnTouched(par: Tree, s: Line, c: nat, ty: Inval, h: nat, d: Down)
    requires c < |par| && SubtreeOk(par, s, c, h) && SendDone(par, s, c, ty, d)
    requires if ty == INV then s.node[c].st != I else s.node[c].st.Exclusive()
    ensures InvalidateDone(par, s, c, ty, ProcessInval(d, c, ty))
  {
    assert Under(par, c, c);
    assert DirOk(par, s, c) && CopyOk(par, s, c, h);
    AllBelowTouched(par, s, c, ty, h, d);
    FlagBelow(par, s, c, ty, h, d);
  }

  /** One call of `invalidate` touches the whole subtree. */
  lemma {:induction false} InvalidateTouches(par: Tree, s: Line, c: nat, ty: Inval, h: nat)
    requires c < |par| && SubtreeOk(par, s, c, h)
    requires if ty == INV then s.node[c].st != I else s.node[c].st.Exclusive()
    ensures InvalidateDone(par, s, c, ty, Invalidate(par, s, c, ty))
    decreases |par| - c, 2, 0
  {
    assert Under(par, c, c);
    assert DirOk(par, s, c) && CopyOk(par, s, c, h);
    SubtreesOfChildren(par, s, c, h);
    SendInvalidatesSweeps(par, s, c, ty, h);
    OwnTouched(par, s, c, ty, h, SendInvalidates(par, s, c, ty));
  }

  /** A modified copy below `c` is found through a listed, exclusive child. */
  lemma DirtyThroughSharers(par: Tree, s: Line, c: nat, h: nat)
    requires c < |par| && SubtreeOk(par, s, c, h)
    ensures forall n: nat :: Below(par, c, n) && s.node[n].st == M ==>
      s.node[c].dir.IsExclusive() && Toward(par, c, n) in s.node[c].dir.sharers
      && DirtyUnder(par, s, Toward(par, c, n))
    ensures forall k: nat, n: nat ::
      IsChild(par, k, c) && Under(par, k, n) && n < |s.node| && s.node[n].st == M ==> Below(par, c, n)
  {
    forall n: nat | Below(par, c, n) && s.node[n].st == M
      ensures s.node[c].dir.IsExclusive() && Toward(par, c, n) in s.node[c].dir.sharers
              && DirtyUnder(par, s, Toward(par, c, n))
    {
      var k := Toward(par, c, n);
      assert Under(par, c, c) && Under(par, c, k);
      SubtreeOfChild(par, s, c, k, h);
      if !s.node[k].st.Exclusive() { SharedBelow(par, s, k, h, n); }
      assert DirOk(par, s, c);
    }
    forall k: nat, n: nat | IsChild(par, k, c) && Under(par, k, n) && n < |s.node| && s.node[n].st == M
      ensures Below(par, c, n)
    {
      TowardUnique(par, c, k, n);
    }
  }
}

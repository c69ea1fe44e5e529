/**
 What the protocol guarantees in every reachable state of every hierarchy, for any number of
 caches at any depth and any interleaving of requests, evictions and invalidations.
 */
module CoherenceTheorems {
  import opened CacheTree
  import opened Collections
  import opened CoherenceProtocol
  import opened CoherenceWave
  import opened CoherenceSafety

  /** No assertion or panic of the controllers has fired. */
  lemma NoAssertionFails(par: Tree, s: Line, step: Step)
    requires Reachable(par, s) && Enabled(par, s, step)
    ensures s.ok && Apply(par, s, step).ok
  {
    ReachableOk(par, s);
    StepKeeps(par, s, step);
  }

  /** The directory lists exactly the valid children and knows when the only one is exclusive. */
  lemma DirectoryExact(par: Tree, s: Line, p: nat)
    requires Reachable(par, s) && p < |par|
    ensures |s.node| == |par|
    ensures var e := s.node[p].dir;
      && (forall c: nat :: IsChild(par, c, p) ==> (c in e.sharers <==> s.node[c].st != I))
      && (forall c :: c in e.sharers ==> IsChild(par, c, p))
      && e.num == |e.sharers|
      && (e.IsExclusive() <==> exists c: nat :: IsChild(par, c, p) && s.node[c].st.Exclusive())
  {
    ReachableOk(par, s);
    assert DirOk(par, s, p);
    var e := s.node[p].dir;
    if e.IsExclusive() {
      assert e.sharers != {};
      var c :| c in e.sharers;
      assert IsChild(par, c, p) && s.node[c].st.Exclusive();
    }
  }

  /** An exclusive copy excludes every valid copy off its own path: two leaves never both hold the
      line when one of them may write it. */
  lemma SingleWriter(par: Tree, s: Line, c: nat, n: nat)
    requires Reachable(par, s) && c < |par| && n < |par|
    ensures |s.node| == |par|
    ensures s.node[c].st.Exclusive() && s.node[n].st != I ==> Under(par, c, n) || Under(par, n, c)
    ensures IsLeaf(par, c) && IsLeaf(par, n) && c != n && s.node[c].st.Exclusive() ==> s.node[n].st == I
  {
    ReachableOk(par, s);
    var h: nat :| InvAt(par, s, h);
    if s.node[c].st.Exclusive() && s.node[n].st != I {
      ExclusiveAlone(par, s, h, c, n);
      if IsLeaf(par, c) && IsLeaf(par, n) {
        if Under(par, c, n) { LeafIsLast(par, c, n); } else { LeafIsLast(par, n, c); }
      }
    }
  }

  /** Every cache above a valid copy holds the line, tagged and valid; above an exclusive copy, exclusively. */
  lemma Inclusion(par: Tree, s: Line, a: nat, n: nat)
    requires Reachable(par, s) && a < |par| && Under(par, a, n)
    ensures |s.node| == |par| && n < |par|
    ensures s.node[n].st != I ==> s.node[a].st != I && s.node[a].tag
    ensures s.node[n].st.Exclusive() ==> s.node[a].st.Exclusive()
  {
    ReachableOk(par, s);
    var h: nat :| InvAt(par, s, h);
    UnderOrder(par, a, n);
    ValidAbove(par, s, h, a, n);
    assert CopyOk(par, s, a, h);
  }

  /** A core that hits reads the value of the last store. */
  lemma ReadsLatest(par: Tree, s: Line, c: nat)
    requires Reachable(par, s) && IsLeaf(par, c)
    ensures |s.node| == |par|
    ensures s.node[c].st != I ==> s.node[c].ver == s.latest
  {
    ReachableOk(par, s);
    var h: nat :| InvAt(par, s, h);
    assert CopyOk(par, s, c, h);
    if Below(par, c, h) { LeafIsLast(par, c, h); }
  }

  /** No store is lost: memory is current, or a modified copy with the latest version is reachable
      from memory through exclusive caches only. */
  lemma NoLostStore(par: Tree, s: Line)
    requires Reachable(par, s)
    ensures |s.node| == |par|
    ensures s.node[0].ver == s.latest ||
      exists n: nat :: 0 < n < |par| && s.node[n].st == M && s.node[n].ver == s.latest
        && forall a: nat :: a < |par| && Under(par, a, n) ==> s.node[a].st.Exclusive()
  {
    ReachableOk(par, s);
    var h: nat :| InvAt(par, s, h);
    assert CopyOk(par, s, h, h) && CopyOk(par, s, 0, h);
    forall a: nat | a < |par| && Under(par, a, h)
      ensures s.node[a].st.Exclusive()
    {
      ValidAbove(par, s, h, a, h);
    }
  }

  /** No cache below `p` has the line. */
  ghost predicate NoChildValid(par: Tree, s: Line, p: nat) {
    forall k: nat :: IsChild(par, k, p) && k < |s.node| ==> s.node[k].st == I
  }

  /** A GET delivers the latest version and the permission it asked for, raced or not: a copy to write, or
      a copy to read, which is exclusive iff nobody else below the parent has the line and both the
      parent's state and the request allow it. */
  lemma GetDelivers(par: Tree, s: Line, c: nat)
    requires Reachable(par, s) && Enabled(par, s, Grant(c))
    ensures var x := Apply(par, s, Grant(c)).node[c];
      && x.ver == s.latest && x.req == None
      && x.st == (if s.node[c].req.value.op == GETX then M
                  else if NoChildValid(par, s, par[c]) && s.node[par[c]].st.Exclusive() && !s.node[c].req.value.noExcl
                  then E else S)
  {
    ReachableOk(par, s);
    var h: nat :| InvAt(par, s, h);
    assert ReqOk(s.node[c]);
    if s.node[c].req.value.op == GETX { GetXDelivers(par, s, h, c); } else { GetSDelivers(par, s, h, c); }
  }

  lemma GetXDelivers(par: Tree, s: Line, h: nat, c: nat)
    requires InvAt(par, s, h) && Enabled(par, s, Grant(c)) && s.node[c].req.value.op == GETX
    ensures var x := GrantExclusive(par, s, c).node[c]; x.ver == s.latest && x.req == None && x.st == M
  {
    var st, e, s1, t := GrantXIs(par, s, h, c);
  }

  lemma GetSDelivers(par: Tree, s: Line, h: nat, c: nat)
    requires InvAt(par, s, h) && Enabled(par, s, Grant(c)) && s.node[c].req.value.op == GETS
    ensures var x := GrantShared(par, s, c).node[c];
      && x.ver == s.latest && x.req == None
      && x.st == if NoChildValid(par, s, par[c]) && s.node[par[c]].st.Exclusive() && !s.node[c].req.value.noExcl
                 then E else S
  {
    var p := par[c];
    EmptyMeansNone(par, s, h, p);
    if s.node[p].dir.IsEmpty() && s.node[p].st.Exclusive() && !s.node[c].req.value.noExcl {
      HomeListed(par, s, h, p);
    } else {
      var d, t := SharedGrant(par, s, h, c);
    }
  }

  lemma EmptyMeansNone(par: Tree, s: Line, h: nat, p: nat)
    requires InvAt(par, s, h) && p < |par|
    ensures s.node[p].dir.IsEmpty() <==> NoChildValid(par, s, p)
  {
    assert DirOk(par, s, p);
    if !s.node[p].dir.IsEmpty() {
      assert s.node[p].dir.sharers != {};
      var k :| k in s.node[p].dir.sharers;
    }
  }

  /** Requests overtaken by invalidations: no assertion of the race check fires, a GET is never
      skipped, and a PUT ends with the requester invalid and its tag free. */
  lemma RacesResolved(par: Tree, s: Line, c: nat)
    requires Reachable(par, s)
    ensures Enabled(par, s, Begin(c)) ==>
      var x := s.node[c]; CheckRace(x.req.value.op, x.st, x.req.value.initial) == Proceed(x.req.value.op)
    ensures Enabled(par, s, Put(c)) ==>
      var x := Apply(par, s, Put(c)).node[c]; x.st == I && !x.tag && x.req == None
  {
    ReachableOk(par, s);
    var h: nat :| InvAt(par, s, h);
    if Enabled(par, s, Begin(c)) { assert ReqOk(s.node[c]); }
    if Enabled(par, s, Put(c)) { PutFits(par, s, h, c); }
  }

  /** Cache `n` holds its locks: it serves a child and waits for nobody above. */
  ghost predicate Holding(par: Tree, s: Line, n: nat) {
    n < |par| == |s.node| && s.node[n].req == None && exists x: nat :: IsChild(par, x, n) && Started(s, x)
  }

  /** No cache below `p` holds a lock that an invalidation from `p` would have to wait for. */
  ghost predicate FreeBelow(par: Tree, s: Line, p: nat) {
    forall n: nat :: Below(par, p, n) ==> !Holding(par, s, n)
  }

  ghost predicate Progress(step: Step) { step.Begin? || step.Fetch? || step.Grant? || step.Put? }

  lemma DeepestHolding(par: Tree, s: Line, n: nat) returns (m: nat)
    requires Holding(par, s, n)
    ensures Holding(par, s, m) && FreeBelow(par, s, m)
  {
    m := n;
    for k := n + 1 to |par|
      invariant n <= m < k && Holding(par, s, m) && forall j: nat :: m < j < k ==> !Holding(par, s, j)
    {
      if Holding(par, s, k) { m := k; }
    }
    forall j: nat | Below(par, m, j)
      ensures !Holding(par, s, j)
    {
      UnderOrder(par, m, j);
    }
  }

  /** A cache that holds its locks with none held below it can go on: it grants, or asks its parent. */
  lemma HolderGoesOn(par: Tree, s: Line, m: nat) returns (step: Step)
    requires Reachable(par, s) && Holding(par, s, m)
    ensures Enabled(par, s, step) && Progress(step) && par[step.c] == m
  {
    ReachableOk(par, s);
    var h: nat :| InvAt(par, s, h);
    step := HolderStep(par, s, h, m);
  }

  lemma HolderStep(par: Tree, s: Line, h: nat, m: nat) returns (step: Step)
    requires InvAt(par, s, h) && Holding(par, s, m)
    ensures Enabled(par, s, step) && Progress(step) && par[step.c] == m
  {
    var x: nat :| IsChild(par, x, m) && Started(s, x);
    assert ReqOk(s.node[x]);
    step := if Enough(s.node[x].req.value.op, s.node[m].st) then Grant(x) else Fetch(x);
  }

  /** With no lock held at all, some pending request finds its parent free. */
  lemma {:induction false} FreeGoesOn(par: Tree, s: Line, c: nat) returns (step: Step)
    requires Reachable(par, s) && c < |par| == |s.node| && s.node[c].req.Some? && forall n: nat :: !Holding(par, s, n)
    ensures Enabled(par, s, step) && Progress(step)
    decreases c
  {
    ReachableOk(par, s);
    var p := par[c];
    assert ReqOk(s.node[c]);
    if s.node[p].req.Some? {
      step := FreeGoesOn(par, s, p);
    } else {
      assert !Holding(par, s, p);
      assert IsChild(par, c, p) && Idle(par, s, p);
      step := if s.node[c].req.value.op.IsPut() then Put(c) else Begin(c);
    }
  }

  /** The line cannot deadlock: while a request is pending, some request can make progress at a cache
      below which no lock is held, so that its invalidations need not wait. */
  lemma NeverStuck(par: Tree, s: Line, c: nat)
    requires Reachable(par, s) && c < |par| == |s.node| && s.node[c].req.Some?
    ensures exists step: Step :: Enabled(par, s, step) && Progress(step) && FreeBelow(par, s, par[step.c])
  {
    if n: nat :| Holding(par, s, n) {
      var m := DeepestHolding(par, s, n);
      var step := HolderGoesOn(par, s, m);
      assert FreeBelow(par, s, par[step.c]);
    } else {
      var step := FreeGoesOn(par, s, c);
      assert FreeBelow(par, s, par[step.c]);
    }
  }

  /** The memory controller's own answers: with a single last-level cache below, memory needs no
      directory and its switch over the request type gives what the directory rules give. */
  lemma MemoryAnswers(par: Tree, s: Line, c: nat)
    requires Reachable(par, s) && IsChild(par, c, 0) && forall x: nat :: IsChild(par, x, 0) ==> x == c
    ensures Enabled(par, s, Grant(c)) ==>
      var r := s.node[c].req.value;
      Apply(par, s, Grant(c)).node[c].st == if r.op == GETX then M else if r.noExcl then S else E
    ensures Enabled(par, s, Put(c)) ==> Apply(par, s, Put(c)).node[c].st == I
  {
    ReachableOk(par, s);
    assert ReqOk(s.node[c]) && DirOk(par, s, 0);
    RacesResolved(par, s, c);
    if Enabled(par, s, Grant(c)) {
      GetDelivers(par, s, c);
      assert s.node[c].req.value.op == GETS ==> s.node[0].dir.sharers == {};
    }
  }
}

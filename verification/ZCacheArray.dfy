/**
 The ZCache tag array: a line may sit at one hash position per way, and an insertion moves a chain
 of lines to other positions of theirs to make room.

 `lookupArray` maps a physical position to a line id and `lineAddr` a line id to its address; an
 insertion only permutes `lookupArray`.  Hash functions are arbitrary; masking with `numSets - 1`
 for a power of two is the remainder modulo `numSets`.
 */
module ZCacheArray {
  import opened Arithmetic

  /** The geometry of an array: `Pos(w, a)` is the position of address `a` in way `w`. */
  datatype Shape = Shape(ways: nat, numLines: nat, cands: nat, Pos: (nat, nat) -> nat) {

    ghost predicate Valid() {
      && ways > 1 && cands >= ways
      && (forall w, a :: 0 <= w < ways && 0 <= a ==> Pos(w, a) < numLines)
      && (forall v, w, a :: 0 <= v < w < ways && 0 <= a ==> Pos(v, a) != Pos(w, a))
    }

    /** Address `a` may be stored at position `p`. */
    ghost predicate Fits(a: nat, p: nat) {
      exists w :: 0 <= w < ways && p == Pos(w, a)
    }
  }

  /** Ways that occupy the positions from `w * numSets` on and are indexed by their own hash functions. */
  lemma HashedShapeValid(z: Shape, numSets: nat, hash: (nat, nat) -> nat)
    requires z.ways > 1 && numSets > 0 && z.cands >= z.ways && z.numLines == z.ways * numSets
    requires forall w, a :: 0 <= w < z.ways && 0 <= a ==> z.Pos(w, a) == w * numSets + hash(w, a) % numSets
    ensures z.Valid()
  {
    forall w, a | 0 <= w < z.ways && 0 <= a
      ensures z.Pos(w, a) < z.numLines
    {
      MulMonotone(w + 1, z.ways, numSets);
    }
    forall v, w, a | 0 <= v < w < z.ways && 0 <= a
      ensures z.Pos(v, a) != z.Pos(w, a)
    {
      MulMonotone(v + 1, w, numSets);
    }
  }

  // ------------------------------------------------------------------ contents

  /** The tags: what each line holds, and where it sits (`slot` inverts `lk`). */
  datatype Tags = Tags(lk: seq<nat>, slot: seq<nat>, addr: seq<nat>)

  ghost predicate Permutes(t: Tags, n: nat) {
    && |t.lk| == |t.slot| == |t.addr| == n
    && (forall p :: 0 <= p < n ==> t.lk[p] < n && t.slot[t.lk[p]] == p)
    && (forall i :: 0 <= i < n ==> t.slot[i] < n && t.lk[t.slot[i]] == i)
  }

  /** A permutation; every line at a position of its own address; no address twice. */
  ghost predicate TagsOk(z: Shape, t: Tags) {
    && z.Valid()
    && Permutes(t, z.numLines)
    && (forall i :: 0 <= i < z.numLines && t.addr[i] != 0 ==> z.Fits(t.addr[i], t.slot[i]))
    && (forall i, j :: 0 <= i < j < z.numLines && t.addr[i] == t.addr[j] ==> t.addr[i] == 0)
  }

  lemma StoredIsFound(z: Shape, t: Tags, i: nat)
    requires TagsOk(z, t) && i < z.numLines && t.addr[i] != 0
    ensures exists w :: 0 <= w < z.ways && t.lk[z.Pos(w, t.addr[i])] == i
  {
    assert z.Fits(t.addr[i], t.slot[i]);
    assert t.lk[t.slot[i]] == i;
  }

  /** An address that is at none of its positions is nowhere. */
  lemma Absent(z: Shape, t: Tags, a: nat)
    requires TagsOk(z, t) && a != 0 && forall w :: 0 <= w < z.ways ==> t.addr[t.lk[z.Pos(w, a)]] != a
    ensures forall i :: 0 <= i < z.numLines ==> t.addr[i] != a
  {
    if i: nat :| i < z.numLines && t.addr[i] == a {
      StoredIsFound(z, t, i);
      assert false;
    }
  }

  // ------------------------------------------------------------------ the walk

  datatype Cand = Cand(pos: nat, lineId: nat, parent: int)

  /** The candidate's line holds an address. */
  ghost predicate Held(t: Tags, c: Cand) {
    c.lineId < |t.addr| && t.addr[c.lineId] != 0
  }

  ghost predicate AllHeld(t: Tags, cs: seq<Cand>) {
    forall j :: 0 <= j < |cs| ==> Held(t, cs[j])
  }

  lemma AllHeldGrows(t: Tags, cs: seq<Cand>, c: Cand)
    ensures AllHeld(t, cs + [c]) <==> AllHeld(t, cs) && Held(t, c)
  {
    assert (cs + [c])[|cs|] == c;
    assert forall j :: 0 <= j < |cs| ==> (cs + [c])[j] == cs[j];
  }

  /** Line `i` sits where its address belongs in way `w`. */
  ghost predicate Occupies(z: Shape, t: Tags, i: nat, w: nat)
    requires TagsOk(z, t) && i < z.numLines && w < z.ways
  {
    t.lk[z.Pos(w, t.addr[i])] == i
  }

  /** Candidate `j` reached from the seeds or from an earlier candidate. */
  ghost predicate CandOk(z: Shape, t: Tags, a: nat, cs: seq<Cand>, j: nat)
    requires TagsOk(z, t) && j < |cs|
  {
    var c := cs[j];
    && c.pos < z.numLines && c.lineId == t.lk[c.pos]
    && if j < z.ways then c.parent == -1 && c.pos == z.Pos(j, a)
       else
         && 0 <= c.parent <= j - z.ways
         && cs[c.parent].lineId < z.numLines
         && c.lineId != cs[c.parent].lineId
         && t.addr[cs[c.parent].lineId] != 0
         && z.Fits(t.addr[cs[c.parent].lineId], c.pos)
  }

  /** Candidate `f` has been expanded in way `w`: its other position there is a candidate, too. */
  ghost predicate Expanded(z: Shape, t: Tags, cs: seq<Cand>, f: nat, w: nat)
    requires TagsOk(z, t) && f < |cs| && w < z.ways
  {
    cs[f].lineId < z.numLines &&
    var pos := z.Pos(w, t.addr[cs[f].lineId]);
    t.lk[pos] == cs[f].lineId || exists j :: z.ways <= j < |cs| && cs[j].pos == pos && cs[j].parent == f
  }

  /** The breadth-first walk with the first `fringe` candidates expanded. */
  ghost predicate WalkOk(z: Shape, t: Tags, a: nat, cs: seq<Cand>, fringe: nat) {
    && TagsOk(z, t)
    && z.ways + fringe <= |cs|
    && (forall j :: 0 <= j < |cs| ==> CandOk(z, t, a, cs, j))
    && (forall j :: z.ways <= j < |cs| ==> cs[j].parent <= fringe)
    && (forall i, j :: z.ways <= i < j < |cs| ==> cs[i].parent <= cs[j].parent)
    && (forall f, w :: 0 <= f < fringe && 0 <= w < z.ways ==> Expanded(z, t, cs, f, w))
  }

  /** As `WalkOk`, in the middle of expanding candidate `fringe`: its first `w` ways are done. */
  ghost predicate WalkPart(z: Shape, t: Tags, a: nat, cs: seq<Cand>, fringe: nat, w: nat) {
    && WalkOk(z, t, a, cs, fringe)
    && w <= z.ways && fringe < |cs|
    && forall v :: 0 <= v < w ==> Expanded(z, t, cs, fringe, v)
  }

  /** The walk stays a walk when the position of the fringe line in way `w` is added. */
  lemma AddCandidate(z: Shape, t: Tags, a: nat, cs: seq<Cand>, fringe: nat, w: nat, c: Cand)
    requires WalkPart(z, t, a, cs, fringe, w) && w < z.ways
    requires cs[fringe].lineId < z.numLines && t.addr[cs[fringe].lineId] != 0
    requires var pos := z.Pos(w, t.addr[cs[fringe].lineId]);
      c == Cand(pos, t.lk[pos], fringe) && c.lineId != cs[fringe].lineId
    ensures WalkPart(z, t, a, cs + [c], fringe, w + 1)
  {
    var next := cs + [c];
    forall j: nat | j < |next|
      ensures CandOk(z, t, a, next, j)
    {
      if j < |cs| { assert CandOk(z, t, a, cs, j); } else { assert z.Fits(t.addr[cs[fringe].lineId], c.pos); }
    }
    forall f, v | 0 <= f <= fringe && 0 <= v < z.ways && (f < fringe || v < w)
      ensures Expanded(z, t, next, f, v)
    {
      assert Expanded(z, t, cs, f, v);
      if t.lk[z.Pos(v, t.addr[cs[f].lineId])] != cs[f].lineId {
        var j :| z.ways <= j < |cs| && cs[j].pos == z.Pos(v, t.addr[cs[f].lineId]) && cs[j].parent == f;
        assert next[j] == cs[j];
      }
    }
    assert next[|cs|] == c;
    assert Expanded(z, t, next, fringe, w);
  }

  /** Candidate `j` is the position of its parent's line in way `v`. */
  ghost predicate InWay(z: Shape, t: Tags, cs: seq<Cand>, j: nat, v: nat)
    requires TagsOk(z, t) && j < |cs|
  {
    && 0 <= cs[j].parent < |cs| && cs[cs[j].parent].lineId < z.numLines
    && v < z.ways && cs[j].pos == z.Pos(v, t.addr[cs[cs[j].parent].lineId])
  }

  ghost predicate InOrder(z: Shape, t: Tags, cs: seq<Cand>, i: nat, j: nat)
    requires TagsOk(z, t) && i < |cs| && j < |cs|
  {
    exists v: nat, w: nat :: v < w && InWay(z, t, cs, i, v) && InWay(z, t, cs, j, w)
  }

  ghost predicate BeforeWay(z: Shape, t: Tags, cs: seq<Cand>, j: nat, w: nat)
    requires TagsOk(z, t) && j < |cs|
  {
    exists v: nat :: v < w && InWay(z, t, cs, j, v)
  }

  /** The candidates from `n` on are what the first `w` ways of candidate `f` have given, way by way. */
  ghost predicate Kids(z: Shape, t: Tags, cs: seq<Cand>, n: nat, f: nat, w: nat)
    requires TagsOk(z, t)
  {
    && n <= |cs|
    && (forall j: nat :: n <= j < |cs| ==> cs[j].parent == f && BeforeWay(z, t, cs, j, w))
    && (forall i: nat, j: nat :: n <= i < j < |cs| ==> InOrder(z, t, cs, i, j))
  }

  lemma WaysFrame(z: Shape, t: Tags, cs: seq<Cand>, next: seq<Cand>, j: nat, v: nat)
    requires TagsOk(z, t) && j < |cs| && cs <= next && InWay(z, t, cs, j, v)
    ensures InWay(z, t, next, j, v)
  {
    assert next[j] == cs[j] && next[cs[j].parent] == cs[cs[j].parent];
  }

  lemma OrderFrame(z: Shape, t: Tags, cs: seq<Cand>, next: seq<Cand>, i: nat, j: nat)
    requires TagsOk(z, t) && i < |cs| && j < |cs| && cs <= next && InOrder(z, t, cs, i, j)
    ensures InOrder(z, t, next, i, j)
  {
    var v: nat, w: nat :| v < w && InWay(z, t, cs, i, v) && InWay(z, t, cs, j, w);
    WaysFrame(z, t, cs, next, i, v);
    WaysFrame(z, t, cs, next, j, w);
  }

  lemma KidSkipped(z: Shape, t: Tags, cs: seq<Cand>, n: nat, f: nat, w: nat, w': nat)
    requires TagsOk(z, t) && Kids(z, t, cs, n, f, w) && w <= w'
    ensures Kids(z, t, cs, n, f, w')
  {
    forall j: nat | n <= j < |cs|
      ensures BeforeWay(z, t, cs, j, w')
    {
      assert BeforeWay(z, t, cs, j, w);
      var v: nat :| v < w && InWay(z, t, cs, j, v);
    }
  }

  lemma KidAdded(z: Shape, t: Tags, cs: seq<Cand>, n: nat, f: nat, w: nat, c: Cand, w': nat)
    requires TagsOk(z, t) && Kids(z, t, cs, n, f, w) && f < |cs| && w < z.ways && w' == w + 1
    requires cs[f].lineId < z.numLines && c.parent == f && c.pos == z.Pos(w, t.addr[cs[f].lineId])
    ensures Kids(z, t, cs + [c], n, f, w')
  {
    var next, m := cs + [c], |cs|;
    assert InWay(z, t, next, m, w);
    forall j: nat | n <= j < m
      ensures BeforeWay(z, t, next, j, w') && InOrder(z, t, next, j, m)
    {
      assert BeforeWay(z, t, cs, j, w);
      var v: nat :| v < w && InWay(z, t, cs, j, v);
      WaysFrame(z, t, cs, next, j, v);
    }
    forall i: nat, j: nat | n <= i < j < |next|
      ensures InOrder(z, t, next, i, j)
    {
      if j < m { OrderFrame(z, t, cs, next, i, j); }
    }
  }

  /** Candidate `k` begins an expansion. */
  ghost predicate Begins(z: Shape, cs: seq<Cand>, k: nat) {
    z.ways <= k < |cs| && forall i: nat :: z.ways <= i < k ==> cs[i].parent != cs[k].parent
  }

  /** The walk so far: whole expansions of the candidates below `f`, each with its candidates in the order
      of the ways, and each begun only while candidates were wanted and no free line had been met. */
  ghost predicate Whole(z: Shape, t: Tags, cs: seq<Cand>, f: nat)
    requires TagsOk(z, t)
  {
    && (forall j: nat :: z.ways <= j < |cs| ==> cs[j].parent < f)
    && (forall i: nat, j: nat :: z.ways <= i < j < |cs| && cs[i].parent == cs[j].parent ==> InOrder(z, t, cs, i, j))
    && (forall k: nat {:trigger Begins(z, cs, k)} :: Begins(z, cs, k) ==> k < z.cands && AllHeld(t, cs[..k]))
  }

  lemma WholeGrows(z: Shape, t: Tags, cs: seq<Cand>, f: nat, next: seq<Cand>)
    requires TagsOk(z, t) && Whole(z, t, cs, f) && z.ways <= |cs| && cs <= next && Kids(z, t, next, |cs|, f, z.ways)
    requires |cs| < z.cands && AllHeld(t, cs)
    ensures Whole(z, t, next, f + 1)
  {
    assert forall j: nat :: j < |cs| ==> next[j] == cs[j];
    forall i: nat, j: nat | z.ways <= i < j < |next| && next[i].parent == next[j].parent
      ensures InOrder(z, t, next, i, j)
    {
      if j < |cs| { OrderFrame(z, t, cs, next, i, j); }
    }
    forall k: nat | Begins(z, next, k)
      ensures k < z.cands && AllHeld(t, next[..k])
    {
      if k < |cs| {
        assert Begins(z, cs, k) && next[..k] == cs[..k];
      } else {
        assert BeforeWay(z, t, next, |cs|, z.ways) && BeforeWay(z, t, next, k, z.ways);
        assert k == |cs| && next[..k] == cs;
      }
    }
  }

  /** What a finished walk is: it went on while candidates were wanted and all lines met were held, and
      not further. */
  ghost predicate WalkDone(z: Shape, t: Tags, walk: seq<Cand>, fringe: nat)
    requires TagsOk(z, t)
  {
    Whole(z, t, walk, fringe) && (|walk| < z.cands ==> !AllHeld(t, walk))
  }

  /** So a free line among the seeds ends the walk there. */
  lemma FreeSeedEnds(z: Shape, t: Tags, a: nat, walk: seq<Cand>, fringe: nat)
    requires WalkOk(z, t, a, walk, fringe) && WalkDone(z, t, walk, fringe)
    requires z.cands == z.ways || !AllHeld(t, walk[..z.ways])
    ensures |walk| == z.ways
  {
    if |walk| > z.ways {
      assert Begins(z, walk, z.ways);
      assert false;
    }
  }

  /** A line sits in only one of its ways, so expanding it adds candidates in all others. */
  lemma OneWayOnly(z: Shape, t: Tags, i: nat, w: nat)
    requires TagsOk(z, t) && i < z.numLines && w < z.ways && Occupies(z, t, i, w)
    ensures forall v: nat :: v < z.ways && v != w ==> !Occupies(z, t, i, v)
  {
    var a := t.addr[i];
    forall v: nat | v < z.ways && v != w
      ensures !Occupies(z, t, i, v)
    {
      assert z.Pos(v, a) != z.Pos(w, a);
    }
  }

  /** The way the fringe line itself occupies adds nothing. */
  lemma SkipWay(z: Shape, t: Tags, a: nat, cs: seq<Cand>, fringe: nat, w: nat)
    requires WalkPart(z, t, a, cs, fringe, w) && w < z.ways && Held(t, cs[fringe])
    requires Occupies(z, t, cs[fringe].lineId, w)
    ensures WalkPart(z, t, a, cs, fringe, w + 1)
  {
    assert Expanded(z, t, cs, fringe, w);
  }

  lemma SeedsAreWalk(z: Shape, t: Tags, a: nat, cs: seq<Cand>)
    requires TagsOk(z, t) && |cs| == z.ways
    requires forall w :: 0 <= w < z.ways ==> cs[w] == Cand(z.Pos(w, a), t.lk[z.Pos(w, a)], -1)
    ensures WalkOk(z, t, a, cs, 0)
  {
  }

  ghost predicate First(cs: seq<Cand>, j: nat) {
    j < |cs| && forall i :: 0 <= i < j ==> cs[i].lineId != cs[j].lineId
  }

  /** An earlier candidate with the line of `j`'s parent has produced `j`'s position before. */
  lemma EarlierTwin(z: Shape, t: Tags, a: nat, cs: seq<Cand>, fringe: nat, j: nat, g: nat) returns (i: nat)
    requires WalkOk(z, t, a, cs, fringe) && z.ways <= j < |cs|
    requires g < cs[j].parent && cs[g].lineId == cs[cs[j].parent].lineId
    ensures i < j && cs[i].lineId == cs[j].lineId
  {
    var f := cs[j].parent;
    assert CandOk(z, t, a, cs, j);
    var w: nat :| w < z.ways && cs[j].pos == z.Pos(w, t.addr[cs[f].lineId]);
    assert Expanded(z, t, cs, g, w);
    i :| z.ways <= i < |cs| && cs[i].pos == cs[j].pos && cs[i].parent == g;
    assert CandOk(z, t, a, cs, i);
  }

  /** The parent of a first occurrence is a first occurrence, even when the walk runs in a loop. */
  lemma ParentFirst(z: Shape, t: Tags, a: nat, cs: seq<Cand>, fringe: nat, j: nat)
    requires WalkOk(z, t, a, cs, fringe) && First(cs, j) && z.ways <= j
    ensures cs[j].parent >= 0 && First(cs, cs[j].parent)
  {
    assert CandOk(z, t, a, cs, j);
    if g: nat :| g < cs[j].parent && cs[g].lineId == cs[cs[j].parent].lineId {
      var i := EarlierTwin(z, t, a, cs, fringe, j, g);
      assert false;
    }
  }

  // ------------------------------------------------------------------ the path of moves

  /** The line at `path[i + 1]` may move to `path[i]`. */
  ghost predicate MayMove(z: Shape, t: Tags, path: seq<nat>, i: nat)
    requires TagsOk(z, t)
  {
    && i + 1 < |path| && path[i + 1] < z.numLines
    && var a := t.addr[t.lk[path[i + 1]]];
    a != 0 && z.Fits(a, path[i])
  }

  ghost predicate ChainOk(z: Shape, t: Tags, path: seq<nat>) {
    && TagsOk(z, t)
    && (forall i :: 0 <= i < |path| ==> path[i] < z.numLines)
    && (forall i, j :: 0 <= i < j < |path| ==> path[i] != path[j])
    && (forall i: nat :: i < |path| - 1 ==> MayMove(z, t, path, i))
  }

  /** Distinct positions from the victim's up to one where the new address may go. */
  ghost predicate PathOk(z: Shape, t: Tags, a: nat, path: seq<nat>) {
    ChainOk(z, t, path) && |path| > 0 && z.Fits(a, path[|path| - 1])
  }

  /** The part of the path collected so far; candidate `idx` comes next. */
  ghost predicate PathTo(z: Shape, t: Tags, a: nat, cs: seq<Cand>, path: seq<nat>, idx: int) {
    && ChainOk(z, t, path)
    && -1 <= idx < |cs|
    && if idx < 0 then PathOk(z, t, a, path)
       else
         && First(cs, idx)
         && (forall i, k :: 0 <= i < |path| && 0 <= k <= idx ==> t.lk[path[i]] != cs[k].lineId)
         && cs[idx].lineId < z.numLines
         && (|path| > 0 ==> t.addr[cs[idx].lineId] != 0 && z.Fits(t.addr[cs[idx].lineId], path[|path| - 1]))
  }

  /** How many candidates a path from `idx` to the seeds may pass. */
  ghost function Depth(ways: nat, idx: int): nat
    requires ways > 0
    decreases idx + ways
  {
    if idx < 0 then 0 else 1 + Depth(ways, idx - ways)
  }

  lemma {:induction false} DepthMonotone(ways: nat, i: int, j: int)
    requires ways > 0 && i <= j
    ensures Depth(ways, i) <= Depth(ways, j)
    decreases j + ways
  {
    if i >= 0 { DepthMonotone(ways, i - ways, j - ways); }
  }

  lemma DepthShrinks(ways: nat, idx: nat, parent: int)
    requires ways > 0 && (parent == -1 || 0 <= parent <= idx - ways)
    ensures Depth(ways, parent) < Depth(ways, idx)
  {
    if parent >= 0 { DepthMonotone(ways, parent, idx - ways); }
  }

  lemma {:induction false} DepthIsQuotient(ways: nat, idx: nat)
    requires ways > 0
    ensures Depth(ways, idx) == idx / ways + 1
    decreases idx
  {
    if idx >= ways {
      DepthIsQuotient(ways, idx - ways);
      var q := (idx - ways) / ways;
      assert idx - ways == q * ways + (idx - ways) % ways;
      DivUnique(idx, ways, q + 1);
    } else {
      DivUnique(idx, ways, 0);
    }
  }

  lemma PathStep(z: Shape, t: Tags, a: nat, cs: seq<Cand>, fringe: nat, path: seq<nat>, idx: nat)
    requires WalkOk(z, t, a, cs, fringe) && PathTo(z, t, a, cs, path, idx)
    ensures PathTo(z, t, a, cs, path + [cs[idx].pos], cs[idx].parent)
    ensures -1 <= cs[idx].parent < idx && Depth(z.ways, cs[idx].parent) < Depth(z.ways, idx)
  {
    assert CandOk(z, t, a, cs, idx);
    DepthShrinks(z.ways, idx, cs[idx].parent);
    var pos := cs[idx].pos;
    var next := path + [pos];
    forall i: nat | i < |next| - 1
      ensures MayMove(z, t, next, i)
    {
      if i < |path| - 1 { assert MayMove(z, t, path, i); }
    }
    if idx >= z.ways {
      ParentFirst(z, t, a, cs, fringe, idx);
      assert CandOk(z, t, a, cs, cs[idx].parent);
    }
  }

  /** The positions of candidate `idx` and of its parents up to a seed. */
  ghost function Lineage(cs: seq<Cand>, idx: int): seq<nat>
    requires idx < |cs|
    decreases idx + 1
  {
    if idx < 0 then []
    else [cs[idx].pos] + (if cs[idx].parent < idx then Lineage(cs, cs[idx].parent) else [])
  }

  /** `path` and what is still to come make up `whole`. */
  ghost predicate Follows(cs: seq<Cand>, path: seq<nat>, idx: int, whole: seq<nat>) {
    idx < |cs| && path + Lineage(cs, idx) == whole
  }

  lemma FollowOn(cs: seq<Cand>, path: seq<nat>, idx: nat, whole: seq<nat>)
    requires Follows(cs, path, idx, whole) && cs[idx].parent < idx
    ensures Follows(cs, path + [cs[idx].pos], cs[idx].parent, whole)
  {
    assert path + Lineage(cs, idx) == path + [cs[idx].pos] + Lineage(cs, cs[idx].parent);
  }

  lemma FollowStarts(cs: seq<Cand>, idx: int)
    requires idx < |cs|
    ensures Follows(cs, [], idx, Lineage(cs, idx))
  {
    assert [] + Lineage(cs, idx) == Lineage(cs, idx);
  }

  lemma FollowEnds(cs: seq<Cand>, path: seq<nat>, idx: int, whole: seq<nat>)
    requires Follows(cs, path, idx, whole) && idx < 0
    ensures path == whole
  {
  }

  /** The path leads from the first occurrence of `candidate` among the ranked candidates to its seed. */
  ghost predicate PathFrom(cs: seq<Cand>, n: nat, candidate: nat, path: seq<nat>) {
    exists k: nat :: First(Ranked(cs, n), k) && cs[k].lineId == candidate && path == Lineage(cs, k)
  }

  lemma PathStart(z: Shape, t: Tags, a: nat, cs: seq<Cand>, fringe: nat, m: nat, idx: nat)
    requires WalkOk(z, t, a, cs, fringe) && m <= |cs| && First(cs[..m], idx)
    ensures PathTo(z, t, a, cs, [], idx)
    ensures cs[idx].lineId < z.numLines && cs[idx].pos < z.numLines && cs[idx].lineId == t.lk[cs[idx].pos]
  {
    assert CandOk(z, t, a, cs, idx);
    assert forall i :: 0 <= i <= idx ==> cs[..m][i] == cs[i];
  }

  // ------------------------------------------------------------------ the array itself

  datatype LookupResult = Hit(lineId: nat) | Miss | Panic

  /** The lines a replacement policy chooses among, and its choice. */
  type Policy = seq<nat> -> nat

  ghost predicate Chooses(policy: Policy) {
    forall ids: seq<nat> :: ids != [] ==> policy(ids) in ids
  }

  function LineIds(cs: seq<Cand>): (ids: seq<nat>)
    ensures |ids| == |cs| && forall i :: 0 <= i < |cs| ==> ids[i] == cs[i].lineId
  {
    seq(|cs|, i requires 0 <= i < |cs| => cs[i].lineId)
  }

  /** The candidates that are ranked: the walk may have gone a little further. */
  function Ranked(cs: seq<Cand>, n: nat): seq<Cand> {
    if |cs| > n then cs[..n] else cs
  }

  class ZArray {
    const z: Shape
    const lineAddr: array<nat>
    const lookupArray: array<nat>
    const swapArray: array<nat>
    var swapArrayLen: nat
    ghost var slot: seq<nat>

    ghost function View(): Tags
      reads this, lineAddr, lookupArray
    {
      Tags(lookupArray[..], slot, lineAddr[..])
    }

    ghost predicate Valid()
      reads this, lineAddr, lookupArray
    {
      && TagsOk(z, View())
      && lineAddr != lookupArray && lineAddr != swapArray && lookupArray != swapArray
      && swapArray.Length == Depth(z.ways, z.cands) + 1
    }

    constructor (z: Shape)
      requires z.Valid()
      ensures Valid() && this.z == z && fresh(lineAddr) && fresh(lookupArray) && fresh(swapArray)
      ensures forall i :: 0 <= i < z.numLines ==> lineAddr[i] == 0
      ensures swapArray.Length == z.cands / z.ways + 2
    {
      DepthIsQuotient(z.ways, z.cands);
      this.z := z;
      var n := z.numLines;
      lineAddr := new nat[n](i => 0);
      lookupArray := new nat[n](i => i);
      swapArray := new nat[z.cands / z.ways + 2](i => 0);
      swapArrayLen := 0;
      slot := seq(n, i => i);
    }

    /** Finds a line iff some line holds the address. */
    method Lookup(a: nat) returns (r: LookupResult)
      requires Valid()
      ensures r.Panic? <==> a == 0
      ensures r.Hit? ==> r.lineId < z.numLines && lineAddr[r.lineId] == a
      ensures r.Miss? ==> forall i :: 0 <= i < z.numLines ==> lineAddr[i] != a
    {
      if a == 0 { return Panic; }
      for w := 0 to z.ways
        invariant forall v :: 0 <= v < w ==> lineAddr[lookupArray[z.Pos(v, a)]] != a
      {
        var lineId := lookupArray[z.Pos(w, a)];
        if lineAddr[lineId] == a { return Hit(lineId); }
      }
      Absent(z, View(), a);
      return Miss;
    }

    /** The seeds of the walk: where the new address may go. */
    method Seed(a: nat, cs: array<Cand>) returns (allValid: bool)
      requires Valid() && cs.Length >= z.ways
      modifies cs
      ensures WalkOk(z, View(), a, cs[..z.ways], 0)
      ensures allValid <==> AllHeld(View(), cs[..z.ways])
    {
      allValid := true;
      for w := 0 to z.ways
        invariant forall v :: 0 <= v < w ==> cs[v] == Cand(z.Pos(v, a), lookupArray[z.Pos(v, a)], -1)
        invariant allValid <==> forall j :: 0 <= j < w ==> Held(View(), cs[j])
      {
        var pos := z.Pos(w, a);
        var lineId := lookupArray[pos];
        cs[w] := Cand(pos, lineId, -1);
        allValid := allValid && lineAddr[lineId] != 0;
      }
      SeedsAreWalk(z, View(), a, cs[..z.ways]);
    }

    /** Way `w` of the expansion of candidate `fringe`. */
    method ExpandWay(cs: array<Cand>, n: nat, fringe: nat, w: nat, valid: bool,
                     ghost t: Tags, ghost a: nat, ghost walk: seq<Cand>, ghost n0: nat)
      returns (m: nat, allValid: bool, ghost walk': seq<Cand>)
      requires Valid() && t == View() && n < cs.Length && cs[..n] == walk && w < z.ways
      requires Kids(z, t, walk, n0, fringe, w)
      requires WalkPart(z, t, a, walk, fringe, w) && Held(t, walk[fringe])
      requires valid <==> AllHeld(t, walk)
      modifies cs
      ensures n <= m <= cs.Length && cs[..m] == walk' && walk <= walk'
      ensures WalkPart(z, t, a, walk', fringe, w + 1) && Kids(z, t, walk', n0, fringe, w + 1)
      ensures allValid <==> AllHeld(t, walk')
      ensures m == if Occupies(z, t, walk[fringe].lineId, w) then n else n + 1
    {
      var fringeId := cs[fringe].lineId;
      assert fringeId == walk[fringe].lineId;
      var pos := z.Pos(w, lineAddr[fringeId]);
      var lineId := lookupArray[pos];
      if lineId != fringeId {
        ghost var c := Cand(pos, lineId, fringe);
        AddCandidate(z, t, a, walk, fringe, w, c);
        KidAdded(z, t, walk, n0, fringe, w, c, w + 1);
        walk' := walk + [c];
        cs[n] := Cand(pos, lineId, fringe);
        m := n + 1;
        allValid := valid && lineAddr[lineId] != 0;
        AllHeldGrows(t, walk, c);
      } else {
        SkipWay(z, t, a, walk, fringe, w);
        KidSkipped(z, t, walk, n0, fringe, w, w + 1);
        m, allValid, walk' := n, valid, walk;
      }
    }

    /** Adds the other positions of the line of candidate `fringe` to the walk. */
    method Expand(cs: array<Cand>, n: nat, fringe: nat, valid: bool, ghost t: Tags, ghost a: nat, ghost walk: seq<Cand>)
      returns (m: nat, allValid: bool, ghost walk': seq<Cand>)
      requires Valid() && t == View() && n + z.ways <= cs.Length && cs[..n] == walk
      requires WalkOk(z, t, a, walk, fringe) && Held(t, walk[fringe])
      requires valid <==> AllHeld(t, walk)
      modifies cs
      ensures n < m <= cs.Length && cs[..m] == walk' && WalkOk(z, t, a, walk', fringe + 1)
      ensures walk <= walk' && Kids(z, t, walk', n, fringe, z.ways)
      ensures allValid <==> AllHeld(t, walk')
    {
      m, allValid, walk' := n, valid, walk;
      ghost var lineId := walk[fringe].lineId;
      for w := 0 to z.ways
        invariant n <= m <= n + w <= m + 1 && cs[..m] == walk' && walk <= walk'
        invariant m < n + w ==> exists v: nat :: v < w && Occupies(z, t, lineId, v)
        invariant WalkPart(z, t, a, walk', fringe, w) && Kids(z, t, walk', n, fringe, w)
        invariant allValid <==> AllHeld(t, walk')
      {
        if Occupies(z, t, lineId, w) { OneWayOnly(z, t, lineId, w); }
        m, allValid, walk' := ExpandWay(cs, m, fringe, w, allValid, t, a, walk', n);
      }
    }

    /** The breadth-first walk: stops at `cands` candidates or at a free line, and not before. */
    method Walk(a: nat) returns (cs: array<Cand>, n: nat, ghost walk: seq<Cand>, ghost fringe: nat)
      requires Valid()
      ensures fresh(cs) && cs.Length == z.cands + z.ways && z.ways <= n <= cs.Length
      ensures cs[..n] == walk && WalkOk(z, View(), a, walk, fringe) && WalkDone(z, View(), walk, fringe)
    {
      cs := new Cand[z.cands + z.ways](i => Cand(0, 0, -1));
      ghost var t := View();
      var allValid := Seed(a, cs);
      n, walk := z.ways, cs[..z.ways];
      var f := 0;
      while n < z.cands && allValid
        invariant z.ways <= n <= cs.Length && cs[..n] == walk && WalkOk(z, t, a, walk, f) && Whole(z, t, walk, f)
        invariant allValid <==> AllHeld(t, walk)
        decreases cs.Length - n
      {
        ghost var before := walk;
        n, allValid, walk := Expand(cs, n, f, allValid, t, a, walk);
        WholeGrows(z, t, before, f, walk);
        f := f + 1;
      }
      fringe := f;
    }

    /** Follows the parents of candidate `minIdx` up to a seed. */
    method FillSwapArray(cs: array<Cand>, minIdx: nat,
                         ghost t: Tags, ghost a: nat, ghost walk: seq<Cand>, ghost fringe: nat)
      requires |walk| <= cs.Length && cs[..|walk|] == walk && cs as object != swapArray
      requires WalkOk(z, t, a, walk, fringe) && PathTo(z, t, a, walk, [], minIdx)
      requires Depth(z.ways, minIdx) <= swapArray.Length
      modifies swapArray, this`swapArrayLen
      ensures swapArrayLen <= Depth(z.ways, minIdx) && PathOk(z, t, a, swapArray[..swapArrayLen])
      ensures swapArray[..swapArrayLen] == Lineage(walk, minIdx)
    {
      var idx: int := minIdx;
      var k := 0;
      ghost var path: seq<nat>, whole := [], Lineage(walk, minIdx);
      FollowStarts(walk, minIdx);
      while idx >= 0
        invariant -1 <= idx < |walk| && cs[..|walk|] == walk
        invariant k + Depth(z.ways, idx) <= Depth(z.ways, minIdx)
        invariant swapArray[..k] == path && PathTo(z, t, a, walk, path, idx)
        invariant Follows(walk, path, idx, whole)
        decreases idx
      {
        PathStep(z, t, a, walk, fringe, path, idx);
        var c := cs[idx];
        assert c == walk[idx];
        FollowOn(walk, path, idx, whole);
        path := path + [c.pos];
        swapArray[k] := c.pos;
        k := k + 1;
        idx := c.parent;
      }
      swapArrayLen := k;
      FollowEnds(walk, path, idx, whole);
    }

    /** Searches the walk for the first occurrence of the line the replacement policy has picked. */
    method PickVictim(cs: array<Cand>, n: nat, best: nat) returns (minIdx: nat)
      requires n <= cs.Length && best in LineIds(cs[..n])
      ensures minIdx < n && cs[minIdx].lineId == best && First(cs[..n], minIdx)
    {
      ghost var pick :| 0 <= pick < n && LineIds(cs[..n])[pick] == best;
      minIdx := 0;
      while cs[minIdx].lineId != best
        invariant 0 <= minIdx <= pick && forall i :: 0 <= i < minIdx ==> cs[i].lineId != best
        decreases pick - minIdx
      {
        minIdx := minIdx + 1;
      }
    }

    /** Plans an insertion: the replacement policy picks the victim among the first `cands` entries of
        the walk, and the moves lead from its first occurrence to a seed. */
    method Preinsert(a: nat, policy: Policy)
      returns (candidate: nat, wbLineAddr: nat, ghost walk: seq<Cand>, ghost fringe: nat)
      requires Valid() && Chooses(policy)
      modifies swapArray, this`swapArrayLen
      ensures Valid() && View() == old(View())
      ensures WalkOk(z, View(), a, walk, fringe) && WalkDone(z, View(), walk, fringe)
      ensures candidate == policy(LineIds(Ranked(walk, z.cands)))
      ensures candidate < z.numLines && wbLineAddr == lineAddr[candidate]
      ensures 0 < swapArrayLen < swapArray.Length
      ensures PathOk(z, View(), a, swapArray[..swapArrayLen]) && lookupArray[swapArray[0]] == candidate
      ensures PathFrom(walk, z.cands, candidate, swapArray[..swapArrayLen])
    {
      ghost var t := View();
      var cs, n;
      cs, n, walk, fringe := Walk(a);
      var m := if n > z.cands then z.cands else n;
      assert cs[..m] == walk[..m];
      candidate := policy(LineIds(cs[..m]));
      var minIdx := PickVictim(cs, m, candidate);
      PathStart(z, t, a, walk, fringe, m, minIdx);
      wbLineAddr := lineAddr[candidate];
      DepthMonotone(z.ways, minIdx, z.cands);
      FillSwapArray(cs, minIdx, t, a, walk, fringe);
      assert swapArray[0] == swapArray[..swapArrayLen][0] == walk[minIdx].pos;
      assert View() == t;
    }

    /** One move of `Postinsert`: the line at `from` goes to the free position `hole`. */
    method Move(hole: nat, from: nat, ghost candidate: nat)
      requires HoleOk(z, View(), candidate, hole) && lineAddr != lookupArray
      requires from < z.numLines && from != hole
      requires var b := lineAddr[lookupArray[from]]; b != 0 ==> z.Fits(b, hole)
      modifies this`slot, lookupArray
      ensures HoleOk(z, View(), candidate, from)
      ensures lookupArray[..] == old(lookupArray[..])[hole := old(lookupArray[from])]
    {
      ghost var t := View();
      MoveKeeps(z, t, candidate, hole, from);
      var lineId := lookupArray[from];
      lookupArray[hole] := lineId;
      slot := slot[lineId := hole];
      assert View() == Tags(t.lk[hole := lineId], t.slot[lineId := hole], t.addr);
    }

    /** The last move: the new line takes the free position and its address. */
    method Fill(hole: nat, candidate: nat, a: nat)
      requires HoleOk(z, View(), candidate, hole) && lineAddr != lookupArray && z.Fits(a, hole)
      requires forall i :: 0 <= i < z.numLines ==> lineAddr[i] != a
      modifies this`slot, lineAddr, lookupArray
      ensures TagsOk(z, View())
      ensures lineAddr[..] == old(lineAddr[..])[candidate := a]
      ensures lookupArray[..] == old(lookupArray[..])[hole := candidate]
    {
      ghost var t := View();
      FillKeeps(z, t, candidate, hole, a);
      lookupArray[hole] := candidate;
      lineAddr[candidate] := a;
      slot := slot[candidate := hole];
      assert View() == Tags(t.lk[hole := candidate], t.slot[candidate := hole], t.addr[candidate := a]);
    }

    /** Performs the moves that `Preinsert` has planned and stores the new address. */
    method Postinsert(a: nat, candidate: nat)
      requires Valid() && a != 0 && candidate < z.numLines
      requires swapArrayLen <= swapArray.Length && PathOk(z, View(), a, swapArray[..swapArrayLen])
      requires lookupArray[swapArray[0]] == candidate
      requires forall i :: 0 <= i < z.numLines ==> lineAddr[i] != a
      modifies this`slot, lineAddr, lookupArray
      ensures Valid()
      ensures lineAddr[..] == old(lineAddr[..])[candidate := a]
      ensures Replayed(swapArray[..swapArrayLen], candidate, old(lookupArray[..]), lookupArray[..])
    {
      ghost var lk0 := lookupArray[..];
      ghost var path := swapArray[..swapArrayLen];
      MoveLines(a, candidate);
      ghost var lk := lookupArray[..];
      Fill(swapArray[swapArrayLen - 1], candidate, a);
      ReplayEnds(path, lk0, lk, candidate, lookupArray[..]);
    }

    method MoveLines(ghost a: nat, ghost candidate: nat)
      requires Valid() && swapArrayLen <= swapArray.Length && PathOk(z, View(), a, swapArray[..swapArrayLen])
      requires lookupArray[swapArray[0]] == candidate
      modifies this`slot, lookupArray
      ensures HoleOk(z, View(), candidate, swapArray[swapArrayLen - 1])
      ensures Replaying(swapArray[..swapArrayLen], swapArrayLen - 1, old(lookupArray[..]), lookupArray[..])
    {
      ghost var t := View();
      ghost var path := swapArray[..swapArrayLen];
      assert HoleOk(z, t, candidate, path[0]) by { HoleStart(z, t, path[0]); }
      var i := 0;
      while i < swapArrayLen - 1
        invariant 0 <= i < swapArrayLen && swapArray[..swapArrayLen] == path && lineAddr[..] == t.addr
        invariant HoleOk(z, View(), candidate, path[i])
        invariant Replaying(path, i, t.lk, lookupArray[..])
      {
        assert MayMove(z, t, path, i);
        ghost var lk := lookupArray[..];
        Move(swapArray[i], swapArray[i + 1], candidate);
        ReplayOn(path, i, t.lk, lk, lookupArray[..]);
        i := i + 1;
      }
    }

    /** A whole insertion, as the cache performs it after a lookup that missed: the new address has
        the victim's line, the victim is gone, and every other address keeps its line. */
    method Insert(a: nat, policy: Policy)
      returns (candidate: nat, wbLineAddr: nat, ghost walk: seq<Cand>, ghost fringe: nat)
      requires Valid() && Chooses(policy) && a != 0 && forall i :: 0 <= i < z.numLines ==> lineAddr[i] != a
      modifies this`slot, this`swapArrayLen, lineAddr, lookupArray, swapArray
      ensures Valid()
      ensures WalkOk(z, old(View()), a, walk, fringe) && WalkDone(z, old(View()), walk, fringe)
      ensures candidate == policy(LineIds(Ranked(walk, z.cands)))
      ensures candidate < z.numLines && lineAddr[candidate] == a && wbLineAddr == old(lineAddr[candidate])
      ensures wbLineAddr != 0 ==> forall i :: 0 <= i < z.numLines ==> lineAddr[i] != wbLineAddr
      ensures forall i :: 0 <= i < z.numLines && i != candidate ==> lineAddr[i] == old(lineAddr[i])
      ensures 0 < swapArrayLen < swapArray.Length
      ensures PathFrom(walk, z.cands, candidate, swapArray[..swapArrayLen])
      ensures Replayed(swapArray[..swapArrayLen], candidate, old(lookupArray[..]), lookupArray[..])
    {
      ghost var t := View();
      candidate, wbLineAddr, walk, fringe := Preinsert(a, policy);
      Postinsert(a, candidate);
      forall i | 0 <= i < z.numLines && i != candidate
        ensures lineAddr[i] == t.addr[i]
      {
        assert lineAddr[i] == lineAddr[..][i];
      }
    }
  }

  /** The first `i` moves along the path: each position has the line of the next one, and all other
      positions have their own. */
  ghost predicate Replaying(path: seq<nat>, i: nat, lk0: seq<nat>, lk: seq<nat>) {
    && |lk| == |lk0| && i < |path| && InRange(path, |lk|)
    && (forall j :: 0 <= j < i ==> lk[path[j]] == lk0[path[j + 1]])
    && (forall p :: 0 <= p < |lk| && p !in path[..i] ==> lk[p] == lk0[p])
  }

  /** All of them, with the new line at the end of the path. */
  ghost predicate Replayed(path: seq<nat>, candidate: nat, lk0: seq<nat>, lk: seq<nat>) {
    && |lk| == |lk0| && 0 < |path| && InRange(path, |lk|)
    && (forall j :: 0 <= j < |path| - 1 ==> lk[path[j]] == lk0[path[j + 1]])
    && lk[path[|path| - 1]] == candidate
    && (forall p :: 0 <= p < |lk| && p !in path ==> lk[p] == lk0[p])
  }

  ghost predicate InRange(path: seq<nat>, n: nat) {
    && (forall i :: 0 <= i < |path| ==> path[i] < n)
    && (forall i, j :: 0 <= i < j < |path| ==> path[i] != path[j])
  }

  lemma ReplayOn(path: seq<nat>, i: nat, lk0: seq<nat>, lk: seq<nat>, lk': seq<nat>)
    requires i + 1 < |path| && Replaying(path, i, lk0, lk) && lk' == lk[path[i] := lk[path[i + 1]]]
    ensures Replaying(path, i + 1, lk0, lk')
  {
    assert path[..i + 1] == path[..i] + [path[i]];
    assert path[i + 1] !in path[..i];
  }

  lemma ReplayEnds(path: seq<nat>, lk0: seq<nat>, lk: seq<nat>, candidate: nat, lk': seq<nat>)
    requires 0 < |path| && Replaying(path, |path| - 1, lk0, lk) && lk' == lk[path[|path| - 1] := candidate]
    ensures Replayed(path, candidate, lk0, lk')
  {
    var n := |path| - 1;
    assert path == path[..n] + [path[n]];
  }

  lemma HoleStart(z: Shape, t: Tags, hole: nat)
    requires TagsOk(z, t) && hole < z.numLines
    ensures HoleOk(z, t, t.lk[hole], hole)
  {
  }

  /** All lines but `candidate` are in place and position `hole` is free. */
  ghost predicate HoleOk(z: Shape, t: Tags, candidate: nat, hole: nat) {
    && z.Valid()
    && var n := z.numLines;
    && |t.lk| == |t.slot| == |t.addr| == n
    && candidate < n && hole < n
    && (forall p :: 0 <= p < n && p != hole ==> t.lk[p] < n && t.lk[p] != candidate && t.slot[t.lk[p]] == p)
    && (forall i :: 0 <= i < n && i != candidate ==> t.slot[i] < n && t.slot[i] != hole && t.lk[t.slot[i]] == i)
    && (forall i :: 0 <= i < n && i != candidate && t.addr[i] != 0 ==> z.Fits(t.addr[i], t.slot[i]))
    && (forall i, j :: 0 <= i < j < n && t.addr[i] == t.addr[j] ==> t.addr[i] == 0)
  }

  /** Moving the line at `from` into the hole leaves the hole at `from`. */
  lemma MoveKeeps(z: Shape, t: Tags, candidate: nat, hole: nat, from: nat)
    requires HoleOk(z, t, candidate, hole) && from < z.numLines && from != hole
    requires t.addr[t.lk[from]] != 0 ==> z.Fits(t.addr[t.lk[from]], hole)
    ensures HoleOk(z, Tags(t.lk[hole := t.lk[from]], t.slot[t.lk[from] := hole], t.addr), candidate, from)
  {
  }

  lemma FillKeeps(z: Shape, t: Tags, candidate: nat, hole: nat, a: nat)
    requires HoleOk(z, t, candidate, hole) && z.Fits(a, hole)
    requires forall i :: 0 <= i < z.numLines ==> t.addr[i] != a
    ensures TagsOk(z, Tags(t.lk[hole := candidate], t.slot[candidate := hole], t.addr[candidate := a]))
  {
  }
}

/**
 What the end of a phase does to the run list: who is dropped from it and when, and in which orders
 the rest may come out.
 */
module BarrierPhases {
  import opened BarrierModel
  import opened BarrierSafety

  // ------------------------------------------------------------------ the cleanup

  lemma DropStates(b: Bar, i: nat, t: nat)
    requires Proper(b) && i < |b.list| && t < |b.th|
    ensures DropAt(b, i).th[t].st == if t == b.list[i] then OFFLINE else b.th[t].st
  {
  }

  /** The cleanup changes no state but LEFT. */
  lemma {:induction false} CompactStates(b: Bar, i: nat, t: nat)
    requires Proper(b) && i <= |b.list| && t < |b.th|
    ensures var r := Compact(b, i);
      && t < |r.th| && r.limit == b.limit && r.phases == b.phases
      && (b.th[t].st != LEFT ==> r.th[t].st == b.th[t].st)
      && (b.th[t].st == LEFT ==> r.th[t].st == LEFT || r.th[t].st == OFFLINE)
    decreases |b.list| - i
  {
    if i < |b.list| {
      if b.th[b.list[i]].st == LEFT {
        DropStates(b, i, t);
        CompactStates(DropAt(b, i), i, t);
      } else {
        CompactStates(b, i + 1, t);
      }
    }
  }

  lemma {:induction false} ShuffleStates(b: Bar, i: nat, draw: Draw, t: nat)
    requires Proper(b) && t < |b.th|
    ensures var r := Shuffle(b, i, draw); t < |r.th| && r.th[t].st == b.th[t].st
    decreases |b.list| - i
  {
    if i < |b.list| {
      ShuffleStates(b, i + 1, draw, t);
      ShuffleUnfold(b, i, draw, Shuffle(b, i + 1, draw));
    }
  }

  lemma CleanUpStates(b: Bar, due: bool, t: nat)
    requires Inv(b) && Unstarted(b) && t < |b.th|
    ensures var r := CleanUp(b, due);
      t < |r.th| && r.th[t].st == if due && b.th[t].st == LEFT then OFFLINE else b.th[t].st
  {
    if due {
      CompactKeeps(b, 0);
      CompactStates(b, 0, t);
      assert t !in Having(Compact(b, 0), LEFT);
    }
  }

  lemma EndPhaseStates(b: Bar, draw: Draw, t: nat)
    requires Inv(b) && PhaseOver(b) && t < |b.th|
    ensures var r := EndPhase(b, draw);
      t < |r.th| && r.th[t].st == if b.phases % 32 == 0 && b.th[t].st == LEFT then OFFLINE else b.th[t].st
  {
    var due, b0 := b.phases % 32 == 0, NewPhase(b);
    NewPhaseKeeps(b);
    CleanUpStates(b0, due, t);
    ReorderStates(CleanUp(b0, due), draw, t);
  }

  /** Every 32nd phase end takes the threads that left off the list; no other one changes who is on it. */
  lemma CleanupWhen(b: Bar, draw: Draw, t: nat)
    requires Inv(b) && PhaseOver(b) && t < |b.th|
    ensures var r := EndPhase(b, draw);
      && t < |r.th|
      && r.th[t].st == (if b.phases % 32 == 0 && b.th[t].st == LEFT then OFFLINE else b.th[t].st)
      && (t in r.list <==> t in b.list && !(b.phases % 32 == 0 && b.th[t].st == LEFT))
  {
    EndPhaseStates(b, draw, t);
    EndPhaseKeeps(b, draw);
    ListedIff(b, t);
    ListedIff(EndPhase(b, draw), t);
  }

  lemma ReorderStates(b: Bar, draw: Draw, t: nat)
    requires Proper(b) && t < |b.th|
    ensures t < |Reorder(b, draw).th| && Reorder(b, draw).th[t].st == b.th[t].st
  {
    if b.limit < |b.list| { ShuffleStates(b, 1, draw, t); }
  }

  /** The list holds exactly the threads that are not offline. */
  lemma ListedIff(b: Bar, t: nat)
    requires Inv(b) && t < |b.th|
    ensures t in b.list <==> b.th[t].st != OFFLINE
  {
    if t in b.list {
      var i: nat :| i < |b.list| && b.list[i] == t;
      assert SpotOk(b, i);
    }
  }

  /** So after such a phase end nobody listed has left. */
  lemma NoneLeftListed(b: Bar, draw: Draw, i: nat)
    requires Inv(b) && PhaseOver(b) && b.phases % 32 == 0 && i < |EndPhase(b, draw).list|
    ensures var r := EndPhase(b, draw); r.list[i] < |r.th| && r.th[r.list[i]].st != LEFT && r.left == 0
  {
    var r := EndPhase(b, draw);
    EndPhaseKeeps(b, draw);
    CleanupWhen(b, draw, r.list[i]);
    forall t: nat | t < |r.th|
      ensures r.th[t].st != LEFT
    {
      CleanupWhen(b, draw, t);
    }
    assert Having(r, LEFT) == {};
  }

  // ------------------------------------------------------------------ the order

  /** A list that all fits within the limit keeps its order; without a cleanup, just as it was. */
  lemma OrderKept(b: Bar, draw: Draw)
    requires Inv(b) && PhaseOver(b) && |b.list| <= b.limit && b.phases % 32 != 0
    ensures EndPhase(b, draw).list == b.list
  {
  }

  /** The draws from position `i` on decide the shuffle down to `i`. */
  lemma {:induction false} ShuffleDepends(b: Bar, i: nat, draw: Draw, draw': Draw)
    requires Proper(b) && |draw| == |draw'| && forall k :: i <= k < |draw| ==> draw[k] == draw'[k]
    ensures Shuffle(b, i, draw) == Shuffle(b, i, draw')
    decreases |b.list| - i
  {
    if i < |b.list| { ShuffleDepends(b, i + 1, draw, draw'); }
  }

  lemma SwapMultiset(b: Bar, i: nat, j: nat)
    requires Proper(b) && i < |b.list| && j < |b.list|
    ensures multiset(SwapAt(b, i, j).list) == multiset(b.list)
  {
  }

  /** What the tail agrees on, the head holds the rest of. */
  lemma FindBefore(p: seq<nat>, q: seq<nat>, i: nat) returns (j: nat)
    requires |p| == |q| && multiset(p) == multiset(q) && i < |p| && p[i + 1..] == q[i + 1..]
    ensures j <= i && p[j] == q[i]
  {
    var x, u, v, w := q[i], p[..i + 1], q[..i + 1], p[i + 1..];
    assert p == u + w && q == v + w;
    assert multiset(p)[x] == multiset(u)[x] + multiset(w)[x] && multiset(q)[x] == multiset(v)[x] + multiset(w)[x];
    assert v[i] == x && x in multiset(v);
    assert x in u;
    j :| 0 <= j < |u| && u[j] == x;
  }

  /** With these draws the shuffle down to position `i` has put the end of the list right. */
  ghost predicate Reached(b: Bar, i: nat, target: seq<nat>, draw: Draw)
    requires Proper(b)
  {
    var list := Shuffle(b, i, draw).list;
    && i <= |draw| == |b.list| == |target| == |list|
    && list[i..] == target[i..] && multiset(list) == multiset(target)
  }

  lemma ReachOn(b: Bar, i: nat, target: seq<nat>, d: Draw) returns (draw: Draw)
    requires Proper(b) && i < |b.list| && Reached(b, i + 1, target, d)
    ensures Reached(b, i, target, draw)
  {
    var c := Shuffle(b, i + 1, d);
    var j := FindBefore(c.list, target, i);
    draw := d[i := j];
    ShuffleDepends(b, i + 1, d, draw);
    ShuffleUnfold(b, i, draw, c);
    SwapMultiset(c, i, j);
    SwapPlaces(c, i, j, target);
  }

  lemma {:induction false} Reaches(b: Bar, i: nat, target: seq<nat>) returns (draw: Draw)
    requires Proper(b) && multiset(target) == multiset(b.list) && i <= |b.list|
    ensures Reached(b, i, target, draw)
    decreases |b.list| - i
  {
    if i == |b.list| {
      draw := NoneDrawn(b, i, target);
    } else {
      var d := Reaches(b, i + 1, target);
      draw := ReachOn(b, i, target, d);
    }
  }

  lemma NoneDrawn(b: Bar, i: nat, target: seq<nat>) returns (draw: Draw)
    requires Proper(b) && multiset(target) == multiset(b.list) && i == |b.list|
    ensures Reached(b, i, target, draw)
  {
    assert |target| == |multiset(target)| == |multiset(b.list)| == |b.list|;
    draw := seq(|b.list|, _ => 0);
  }

  lemma SwapPlaces(c: Bar, i: nat, j: nat, target: seq<nat>)
    requires Proper(c) && i < |c.list| == |target| && j <= i && c.list[j] == target[i]
    requires c.list[i + 1..] == target[i + 1..]
    ensures SwapAt(c, i, j).list[i..] == target[i..]
  {
    var r := SwapAt(c, i, j);
    forall k | i <= k < |target|
      ensures r.list[k] == target[k]
    {
      if k > i { assert c.list[k] == c.list[i + 1..][k - i - 1] == target[k]; }
    }
  }

  /** Every order of the list is the result of some draws: the shuffle favours nobody by construction. */
  lemma EveryOrderDrawn(b: Bar, target: seq<nat>) returns (draw: Draw)
    requires Proper(b) && multiset(target) == multiset(b.list)
    ensures Shuffle(b, 1, draw).list == target
  {
    draw := Reaches(b, 0, target);
    if b.list != [] {
      var c := Shuffle(b, 1, draw);
      ShuffleUnfold(b, 0, draw, c);
      assert SwapAt(c, 0, 0).list == c.list;
    }
  }

  /** A list that does not fit within the limit comes out of a phase end in any order, as the draws have it. */
  lemma EveryOrderAfterPhase(b: Bar, target: seq<nat>) returns (draw: Draw)
    requires Inv(b) && PhaseOver(b)
    requires var cleaned := CleanUp(NewPhase(b), b.phases % 32 == 0).list;
      |cleaned| > b.limit && multiset(target) == multiset(cleaned)
    ensures EndPhase(b, draw).list == target
  {
    var c := CleanUp(NewPhase(b), b.phases % 32 == 0);
    NewPhaseKeeps(b);
    var waiter := SomeoneWaits(b);
    CleanUpKeeps(NewPhase(b), b.phases % 32 == 0);
    draw := EveryOrderDrawn(c, target);
  }
}

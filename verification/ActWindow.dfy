/**
 The activation window of a rank: a circular buffer of the last `n` ACT cycles.  The scheduler
 issues a new ACT no earlier than the entry at `idx` plus tFAW, and the new ACT takes its place.

 The buffer is meant to be sorted from `idx` on.  It stays sorted exactly as long as no ACT is
 earlier than all entries that remain.  The limit of `n` ACTs in any tFAW cycles holds regardless.
 */
module ActWindow {

  // ------------------------------------------------------------------ the window as a sequence

  /** How many of the newest entries are later than `a`. */
  function Later(w: seq<nat>, a: nat): (t: nat)
    ensures t <= |w| && forall j :: |w| - t <= j < |w| ==> w[j] > a
    ensures t < |w| ==> w[|w| - t - 1] <= a
  {
    if w == [] || w[|w| - 1] <= a then 0 else 1 + Later(w[..|w| - 1], a)
  }

  /** `addActivation`, oldest entry first.  When the new ACT is earlier than everything that remains,
      the loop comes round to a slot it has overwritten and leaves the newest entry in front. */
  function Added(w: seq<nat>, a: nat): (r: seq<nat>)
    requires w != []
    ensures |r| == |w|
  {
    var n, t := |w|, Later(w[1..], a);
    if n > 1 && t == n - 1 then [w[n - 1]] + w[1..n - 1] + [a]
    else w[1..n - t] + [a] + w[n - t..]
  }

  /** Entry `i` of the window after the new ACT. */
  function EntryAdded(w: seq<nat>, a: nat, i: nat): nat
    requires i < |w|
  {
    var n, t := |w|, Later(w[1..], a);
    if n > 1 && t == n - 1 then (if i == n - 1 then a else if i == 0 then w[n - 1] else w[i])
    else if i < n - t - 1 then w[i + 1] else if i == n - t - 1 then a else w[i]
  }

  lemma AddedAt(w: seq<nat>, a: nat, i: nat)
    requires i < |w|
    ensures Added(w, a)[i] == EntryAdded(w, a, i)
  {
  }

  lemma AddedIs(w: seq<nat>, a: nat, r: seq<nat>)
    requires w != [] && |r| == |w| && forall i: nat :: i < |w| ==> r[i] == EntryAdded(w, a, i)
    ensures r == Added(w, a)
  {
    forall i: nat | i < |w|
      ensures r[i] == Added(w, a)[i]
    {
      AddedAt(w, a, i);
    }
  }

  ghost predicate Sorted(w: seq<nat>) {
    forall i, j :: 0 <= i < j < |w| ==> w[i] <= w[j]
  }

  /** The window stays sorted iff the new ACT is no earlier than the second oldest entry. */
  lemma SortedIff(w: seq<nat>, a: nat)
    requires w != [] && Sorted(w) && w[0] <= a
    ensures Sorted(Added(w, a)) <==> |w| == 1 || w[1] <= a
  {
    var n, t := |w|, Later(w[1..], a);
    if n > 1 {
      if t == n - 1 { WrappedUnsorted(w, a); } else { InsertedSorted(w, a); }
    }
  }

  lemma WrappedUnsorted(w: seq<nat>, a: nat)
    requires |w| > 1 && Sorted(w) && Later(w[1..], a) == |w| - 1
    ensures !Sorted(Added(w, a)) && w[1] > a
  {
    assert w[1..][0] == w[1];
    AddedAt(w, a, 0);
    AddedAt(w, a, |w| - 1);
  }

  lemma InsertedSorted(w: seq<nat>, a: nat)
    requires |w| > 1 && Sorted(w) && Later(w[1..], a) < |w| - 1
    ensures Sorted(Added(w, a)) && w[1] <= a
  {
    var n, t, r := |w|, Later(w[1..], a), Added(w, a);
    assert w[1..][n - 1 - t - 1] == w[n - t - 1] <= a;
    forall j | n - t <= j < n
      ensures w[j] > a
    {
      assert w[1..][j - 1] > a;
    }
    forall i, j | 0 <= i < j < n
      ensures r[i] <= r[j]
    {
      AddedAt(w, a, i);
      AddedAt(w, a, j);
    }
  }

  // ------------------------------------------------------------------ whole runs

  /** The window after the ACTs `acts`, of which the last is the newest. */
  function After(n: nat, acts: seq<nat>): (w: seq<nat>)
    requires n > 0
    ensures |w| == n
  {
    if acts == [] then seq(n, _ => 0) else Added(After(n, acts[..|acts| - 1]), acts[|acts| - 1])
  }

  /** Every ACT respects what `minActCycle` said when it was scheduled. */
  ghost predicate Respects(n: nat, faw: nat, acts: seq<nat>)
    requires n > 0
  {
    acts == [] ||
    var k := |acts| - 1;
    Respects(n, faw, acts[..k]) && After(n, acts[..k])[0] + faw <= acts[k]
  }

  /** An ACT that is the latest goes to the end of the window. */
  lemma InOrder(n: nat, faw: nat, acts: seq<nat>, w: seq<nat>, a: nat)
    requires n > 1 && w == After(n, acts) && w[n - 1] <= a && Respects(n, faw, acts) && w[0] + faw <= a
    ensures After(n, acts + [a]) == w[1..] + [a] && Respects(n, faw, acts + [a])
  {
    assert (acts + [a])[..|acts|] == acts;
    assert Later(w[1..], a) == 0;
  }

  /** The first ACTs, in order, fill the window from its end. */
  lemma {:induction false} FirstInOrder(n: nat, faw: nat, acts: seq<nat>)
    requires n > 1 && |acts| <= n && Sorted(acts) && forall i :: 0 <= i < |acts| ==> acts[i] >= faw
    ensures Respects(n, faw, acts) && After(n, acts) == seq(n - |acts|, _ => 0) + acts
    decreases |acts|
  {
    if acts != [] {
      var k := |acts| - 1;
      FirstInOrder(n, faw, acts[..k]);
      var w := After(n, acts[..k]);
      assert acts == acts[..k] + [acts[k]];
      InOrder(n, faw, acts[..k], w, acts[k]);
      assert w[1..] + [acts[k]] == seq(n - |acts|, _ => 0) + acts;
    }
  }

  /** The loop goes wrong on ACTs that all waited for their turn: once the window is full, one that is
      earlier than every entry that remains leaves it unsorted, as in 100, 200, 201, 202, 120 with a
      window of four ACTs in 20 cycles. */
  lemma WrapArises(n: nat, faw: nat, acts: seq<nat>, y: nat)
    requires n > 1 && |acts| == n && Sorted(acts) && forall i :: 0 <= i < n ==> acts[i] >= faw
    requires acts[0] + faw <= y < acts[1]
    ensures Respects(n, faw, acts + [y]) && !Sorted(After(n, acts + [y]))
  {
    FullInOrder(n, faw, acts);
    RespectsOne(n, faw, acts, y);
    SortedIff(acts, y);
  }

  lemma FullInOrder(n: nat, faw: nat, acts: seq<nat>)
    requires n > 1 && |acts| == n && Sorted(acts) && forall i :: 0 <= i < n ==> acts[i] >= faw
    ensures Respects(n, faw, acts) && After(n, acts) == acts
  {
    FirstInOrder(n, faw, acts);
    assert seq(n - |acts|, _ => 0) + acts == acts;
  }

  lemma RespectsOne(n: nat, faw: nat, acts: seq<nat>, y: nat)
    requires n > 0 && Respects(n, faw, acts) && After(n, acts)[0] + faw <= y
    ensures Respects(n, faw, acts + [y]) && After(n, acts + [y]) == Added(After(n, acts), y)
  {
    assert (acts + [y])[..|acts|] == acts;
  }

  ghost function Within(acts: seq<nat>, lo: nat, hi: nat): nat {
    if acts == [] then 0 else
    var k := |acts| - 1;
    Within(acts[..k], lo, hi) + if lo <= acts[k] < hi then 1 else 0
  }

  ghost function CountBelow(w: seq<nat>, lo: nat): (c: nat)
    ensures c <= |w|
  {
    if w == [] then 0 else (if w[0] < lo then 1 else 0) + CountBelow(w[1..], lo)
  }

  lemma {:induction false} CountBelowConcat(u: seq<nat>, v: seq<nat>, lo: nat)
    ensures CountBelow(u + v, lo) == CountBelow(u, lo) + CountBelow(v, lo)
    decreases |u|
  {
    if u == [] {
      assert u + v == v;
    } else {
      CountBelowConcat(u[1..], v, lo);
      assert (u + v)[1..] == u[1..] + v;
    }
  }

  lemma CountBelowInsert(x: seq<nat>, a: nat, y: seq<nat>, lo: nat)
    ensures CountBelow(x + [a] + y, lo) == CountBelow(x + y, lo) + if a < lo then 1 else 0
  {
    CountBelowConcat(x + [a], y, lo);
    CountBelowConcat(x, [a], lo);
    CountBelowConcat(x, y, lo);
  }

  lemma CountBelowRotate(x: seq<nat>, y: seq<nat>, a: nat, lo: nat)
    ensures CountBelow(y + x + [a], lo) == CountBelow(x + y, lo) + if a < lo then 1 else 0
  {
    CountBelowConcat(y + x, [a], lo);
    CountBelowConcat(y, x, lo);
    CountBelowConcat(x, y, lo);
  }

  /** The new ACT replaces the oldest entry, wherever it is put. */
  lemma CountBelowAdded(w: seq<nat>, a: nat, lo: nat)
    requires w != []
    ensures CountBelow(Added(w, a), lo) == CountBelow(w[1..], lo) + if a < lo then 1 else 0
  {
    var n, t := |w|, Later(w[1..], a);
    if n > 1 && t == n - 1 {
      CountBelowRotate(w[1..n - 1], [w[n - 1]], a, lo);
      assert w[1..] == w[1..n - 1] + [w[n - 1]];
    } else {
      CountBelowInsert(w[1..n - t], a, w[n - t..], lo);
      assert w[1..] == w[1..n - t] + w[n - t..];
    }
  }

  lemma {:induction false} Budget(n: nat, faw: nat, acts: seq<nat>, lo: nat)
    requires n > 0 && Respects(n, faw, acts)
    ensures Within(acts, lo, lo + faw) + CountBelow(After(n, acts), lo) <= n
    decreases |acts|
  {
    if acts != [] {
      var k := |acts| - 1;
      Budget(n, faw, acts[..k], lo);
      CountBelowAdded(After(n, acts[..k]), acts[k], lo);
    }
  }

  /** In every run, at most `n` ACTs of a rank fall into any `faw` consecutive cycles. */
  lemma FourActivateWindow(n: nat, faw: nat, acts: seq<nat>, lo: nat)
    requires n > 0 && Respects(n, faw, acts)
    ensures Within(acts, lo, lo + faw) <= n
  {
    Budget(n, faw, acts, lo);
  }

  // ------------------------------------------------------------------ the circular buffer

  /** `i` places after `idx` in a buffer of size `n`. */
  function Around(idx: nat, i: nat, n: nat): (p: nat)
    requires idx < n && i <= n
    ensures p < n
  {
    if idx + i < n then idx + i else idx + i - n
  }

  /** The entries from the oldest slot on. */
  ghost function Unrolled(s: seq<nat>, idx: nat): (w: seq<nat>)
    requires idx < |s|
    ensures |w| == |s| && forall i :: 0 <= i < |s| ==> w[i] == s[Around(idx, i, |s|)]
  {
    s[idx..] + s[..idx]
  }

  class Window {
    const buf: array<nat>
    var idx: nat

    ghost predicate Valid()
      reads this
    {
      idx < buf.Length
    }

    ghost function View(): (w: seq<nat>)
      reads this, buf
      requires Valid()
    {
      Unrolled(buf[..], idx)
    }

    constructor (size: nat)
      requires size > 0
      ensures Valid() && fresh(buf) && buf.Length == size && View() == After(size, [])
    {
      buf := new nat[size](_ => 0);
      idx := 0;
    }

    function MinActCycle(): (c: nat)
      requires Valid()
      reads this, buf
      ensures c == View()[0]
    {
      buf[idx]
    }

    function Inc(i: nat): nat
      requires i < buf.Length
    {
      Next(i, buf.Length)
    }

    function Dec(i: nat): nat
      requires i < buf.Length
    {
      Prev(i, buf.Length)
    }

    method AddActivation(actCycle: nat)
      requires Valid() && View()[0] <= actCycle
      modifies this`idx, buf
      ensures Valid() && View() == Added(old(View()), actCycle)
    {
      var cur := MakeRoom(actCycle);
      ghost var s := buf[..];
      buf[cur] := actCycle;
      assert buf[..] == s[cur := actCycle];
      idx := Inc(idx);
    }

    method Shift(cur: nat)
      requires cur < buf.Length
      modifies buf
      ensures buf[..] == old(buf[..])[cur := old(buf[Dec(cur)])]
    {
      buf[cur] := buf[Dec(cur)];
    }

    /** Moves later entries up and returns the slot for the new ACT. */
    method MakeRoom(actCycle: nat) returns (cur: nat)
      requires Valid() && View()[0] <= actCycle
      modifies buf
      ensures cur < buf.Length
      ensures Unrolled(buf[..][cur := actCycle], Next(idx, buf.Length)) == Added(old(View()), actCycle)
    {
      ghost var w, t := View(), 0;
      cur := idx;
      MovesStart(buf[..], idx, actCycle);
      while buf[Dec(cur)] > actCycle
        invariant Moving(buf[..], idx, w, t, actCycle, cur)
        decreases buf.Length - t
      {
        ghost var s := buf[..];
        Shift(cur);
        if Dec(cur) == idx {
          MovesWrap(s, idx, w, t, actCycle, cur);
          cur := idx;
          return;
        }
        MovesOn(s, idx, w, t, actCycle, cur);
        cur, t := Dec(cur), t + 1;
      }
      MovesEnd(buf[..], idx, w, t, actCycle, cur);
    }
  }

  /** The loop after `t` moves: slot `cur` is free, and what has been moved is later than the new ACT. */
  ghost predicate Moving(s: seq<nat>, idx: nat, w: seq<nat>, t: nat, a: nat, cur: nat) {
    && Shifted(s, idx, w, t) && w[0] <= a
    && cur == Around(idx, if t == 0 then 0 else |w| - t, |w|)
    && (forall j :: |w| - t <= j < |w| ==> w[j] > a)
  }

  function Prev(i: nat, n: nat): (p: nat)
    requires i < n
    ensures p < n
  {
    if i > 0 then i - 1 else n - 1
  }

  lemma MovesStart(s: seq<nat>, idx: nat, a: nat)
    requires idx < |s| && Unrolled(s, idx)[0] <= a
    ensures Moving(s, idx, Unrolled(s, idx), 0, a, idx)
  {
  }

  lemma MovesOn(s: seq<nat>, idx: nat, w: seq<nat>, t: nat, a: nat, cur: nat)
    requires Moving(s, idx, w, t, a, cur)
    requires var p := Prev(cur, |s|); s[p] > a && p != idx
    ensures var p := Prev(cur, |s|); t + 1 < |w| && Moving(s[cur := s[p]], idx, w, t + 1, a, p)
  {
    StepBack(idx, t, |w|);
    ShiftMore(s, idx, w, t);
    assert SlotHolds(s, idx, w, t, |w| - t - 1);
  }

  /** The loop ends at an entry that is not later than the new ACT, */
  lemma MovesEnd(s: seq<nat>, idx: nat, w: seq<nat>, t: nat, a: nat, cur: nat)
    requires Moving(s, idx, w, t, a, cur) && s[Prev(cur, |s|)] <= a
    ensures Unrolled(s[cur := a], Next(idx, |s|)) == Added(w, a)
  {
    StepBack(idx, t, |w|);
    if t + 1 < |w| { assert SlotHolds(s, idx, w, t, |w| - t - 1); }
    LaterIs(w, a, t);
    FinishInsert(s, idx, w, t, a);
  }

  /** ... or when it has come round. */
  lemma MovesWrap(s: seq<nat>, idx: nat, w: seq<nat>, t: nat, a: nat, cur: nat)
    requires Moving(s, idx, w, t, a, cur) && s[idx] > a && Prev(cur, |s|) == idx
    ensures Unrolled(s[cur := s[idx]][idx := a], Next(idx, |s|)) == Added(w, a)
  {
    StepBack(idx, t, |w|);
    LaterIs(w, a, t);
    FinishWrap(s, idx, w, a);
  }

  /** The `t` newest entries of `w` have moved one slot up, the newest into the oldest slot. */
  ghost predicate Shifted(s: seq<nat>, idx: nat, w: seq<nat>, t: nat) {
    && idx < |s| == |w| && t < |w|
    && (forall j: nat :: 1 <= j < |w| ==> SlotHolds(s, idx, w, t, j))
    && s[idx] == if t == 0 then w[0] else w[|w| - 1]
  }

  ghost predicate SlotHolds(s: seq<nat>, idx: nat, w: seq<nat>, t: nat, j: nat)
    requires idx < |s| == |w| && 1 <= j < |w|
  {
    s[Around(idx, j, |w|)] == if j <= |w| - t then w[j] else w[j - 1]
  }

  lemma {:induction false} LaterIs(w: seq<nat>, a: nat, t: nat)
    requires w != [] && t < |w| && (forall j :: |w| - t <= j < |w| ==> w[j] > a)
    requires t < |w| - 1 ==> w[|w| - t - 1] <= a
    ensures Later(w[1..], a) == t
  {
    assert forall j :: 0 <= j < |w| - 1 ==> w[1..][j] == w[j + 1];
    LaterUnique(w[1..], a, t);
  }

  lemma LaterUnique(u: seq<nat>, a: nat, t: nat)
    requires t <= |u| && (forall j :: |u| - t <= j < |u| ==> u[j] > a)
    requires t < |u| ==> u[|u| - t - 1] <= a
    ensures Later(u, a) == t
  {
  }

  /** The slot before the one that `t` moves have freed. */
  lemma StepBack(idx: nat, t: nat, n: nat)
    requires idx < n && t < n
    ensures Prev(Around(idx, if t == 0 then 0 else n - t, n), n) == Around(idx, n - t - 1, n)
  {
  }

  lemma ShiftMore(s: seq<nat>, idx: nat, w: seq<nat>, t: nat)
    requires Shifted(s, idx, w, t) && t + 1 < |w|
    ensures var n := |w|;
      Shifted(s[Around(idx, if t == 0 then 0 else n - t, n) := s[Around(idx, n - t - 1, n)]], idx, w, t + 1)
  {
    var n := |w|;
    var cur := Around(idx, if t == 0 then 0 else n - t, n);
    var next, t1 := s[cur := s[Around(idx, n - t - 1, n)]], t + 1;
    assert SlotHolds(s, idx, w, t, n - t - 1);
    forall j: nat | 1 <= j < |w|
      ensures SlotHolds(next, idx, w, t1, j)
    {
      assert SlotHolds(s, idx, w, t, j);
      assert Around(idx, j, n) == cur <==> t > 0 && j == n - t;
    }
  }

  function Next(i: nat, n: nat): nat {
    if i < n - 1 then i + 1 else 0
  }

  lemma FinishSlot(s: seq<nat>, idx: nat, w: seq<nat>, t: nat, a: nat, i: nat)
    requires Shifted(s, idx, w, t) && (|w| == 1 || t < |w| - 1) && i < |w|
    ensures var n := |w|;
      s[Around(idx, if t == 0 then 0 else n - t, n) := a][Around(idx, if i + 1 < n then i + 1 else 0, n)] ==
        if i < n - t - 1 then w[i + 1] else if i == n - t - 1 then a else w[i]
  {
    if i + 1 < |w| { assert SlotHolds(s, idx, w, t, i + 1); }
  }

  /** Storing the new ACT after `t` moves completes the insertion. */
  lemma FinishInsert(s: seq<nat>, idx: nat, w: seq<nat>, t: nat, a: nat)
    requires Shifted(s, idx, w, t) && Later(w[1..], a) == t && !(|w| > 1 && t == |w| - 1)
    ensures var n := |w|;
      Unrolled(s[Around(idx, if t == 0 then 0 else n - t, n) := a], Next(idx, n)) == Added(w, a)
  {
    var n := |w|;
    var cur := Around(idx, if t == 0 then 0 else n - t, n);
    var u := Unrolled(s[cur := a], Next(idx, n));
    forall i: nat | i < n
      ensures u[i] == EntryAdded(w, a, i)
    {
      InsertedAt(s, idx, w, t, a, i);
    }
    AddedIs(w, a, u);
  }

  lemma InsertedAt(s: seq<nat>, idx: nat, w: seq<nat>, t: nat, a: nat, i: nat)
    requires Shifted(s, idx, w, t) && Later(w[1..], a) == t && !(|w| > 1 && t == |w| - 1) && i < |w|
    ensures var n := |w|;
      Unrolled(s[Around(idx, if t == 0 then 0 else n - t, n) := a], Next(idx, n))[i] == EntryAdded(w, a, i)
  {
    NextAround(idx, i, |w|);
    FinishSlot(s, idx, w, t, a, i);
  }

  lemma NextAround(idx: nat, i: nat, n: nat)
    requires idx < n && i < n
    ensures Around(Next(idx, n), i, n) == Around(idx, if i + 1 < n then i + 1 else 0, n)
  {
  }

  /** After a full round the first slot has been moved twice and the new ACT is last. */
  lemma FinishWrap(s: seq<nat>, idx: nat, w: seq<nat>, a: nat)
    requires |w| > 1 && Shifted(s, idx, w, |w| - 1) && Later(w[1..], a) == |w| - 1
    ensures Unrolled(s[Around(idx, 1, |w|) := s[idx]][idx := a], Next(idx, |w|)) == Added(w, a)
  {
    var u := Unrolled(s[Around(idx, 1, |w|) := s[idx]][idx := a], Next(idx, |w|));
    forall i: nat | i < |w|
      ensures u[i] == EntryAdded(w, a, i)
    {
      WrappedAt(s, idx, w, a, i);
    }
    AddedIs(w, a, u);
  }

  lemma WrappedAt(s: seq<nat>, idx: nat, w: seq<nat>, a: nat, i: nat)
    requires |w| > 1 && Shifted(s, idx, w, |w| - 1) && Later(w[1..], a) == |w| - 1 && i < |w|
    ensures Unrolled(s[Around(idx, 1, |w|) := s[idx]][idx := a], Next(idx, |w|))[i] == EntryAdded(w, a, i)
  {
    NextAround(idx, i, |w|);
    if i + 1 < |w| { assert SlotHolds(s, idx, w, |w| - 1, i + 1); }
  }
}

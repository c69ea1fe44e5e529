/**
 The bookkeeping of the barrier survives waking, swapping, dropping and shuffling; the barrier
 never stalls; and a phase ends only when everybody had a turn.
 */
module BarrierSafety {
  import opened BarrierModel
  import opened Collections

  // ------------------------------------------------------------------ the invariant

  ghost function Having(b: Bar, st: State): set<nat> {
    set t: nat | t < |b.th| && b.th[t].st == st
  }

  /** What is known about the thread at position `i` of the run list. */
  ghost predicate SpotOk(b: Bar, i: nat)
    requires Proper(b) && i < |b.list|
  {
    var x := b.th[b.list[i]];
    && x.st != OFFLINE
    && (x.placed ==> x.last == i)
    && (x.st == RUNNING ==> x.placed && !x.word)
    && (x.st == LEFT ==> x.last == i)
    && (x.st == WAITING ==> x.word)
    && (!x.rejoined ==> x.ran <= 1)
    && (if i < b.cur then x.st == LEFT || x.ran >= 1 else x.st != RUNNING && (x.ran == 0 || x.rejoined))
  }

  /** Everything but the count of threads that left. */
  ghost predicate Core(b: Bar) {
    && b.limit > 0 && b.ok
    && Shaped(b) && Distinct(b.list)
    && b.running == |Having(b, RUNNING)| <= b.limit
    && (forall i: nat {:trigger SpotOk(b, i)} :: i < |b.list| ==> SpotOk(b, i))
    && (forall t: nat :: t < |b.th| && t !in b.list ==> b.th[t].st == OFFLINE && b.th[t].ran == 0 && !b.th[t].rejoined)
  }

  ghost predicate Inv(b: Bar) {
    Core(b) && b.left == |Having(b, LEFT)|
  }

  // ------------------------------------------------------------------ counting

  /** Changing one thread's state moves it from one set to another. */
  lemma CountChange(b: Bar, r: Bar, t: nat, st: State)
    requires t < |b.th| == |r.th| && forall u :: 0 <= u < |b.th| && u != t ==> r.th[u].st == b.th[u].st
    ensures |Having(r, st)| - |Having(b, st)| ==
      (if r.th[t].st == st then 1 else 0) - (if b.th[t].st == st then 1 else 0)
  {
    OthersSame(b, r, t, st);
    SizeWithout(Having(b, st), t);
    SizeWithout(Having(r, st), t);
  }

  lemma OthersSame(b: Bar, r: Bar, t: nat, st: State)
    requires t < |b.th| == |r.th| && forall u :: 0 <= u < |b.th| && u != t ==> r.th[u].st == b.th[u].st
    ensures Having(b, st) - {t} == Having(r, st) - {t}
  {
  }

  lemma SizeWithout(xs: set<nat>, t: nat)
    ensures |xs| == |xs - {t}| + if t in xs then 1 else 0
  {
    assert xs == if t in xs then (xs - {t}) + {t} else xs - {t};
  }

  lemma SameStates(b: Bar, r: Bar, st: State)
    requires |b.th| == |r.th| && forall u :: 0 <= u < |b.th| ==> r.th[u].st == b.th[u].st
    ensures Having(r, st) == Having(b, st)
  {
  }

  ghost function Members(s: seq<nat>): set<nat> {
    set i | 0 <= i < |s| :: s[i]
  }

  lemma {:induction false} MembersSize(s: seq<nat>)
    ensures |Members(s)| <= |s|
    ensures Distinct(s) ==> |Members(s)| == |s|
    decreases |s|
  {
    if s != [] {
      var n := |s| - 1;
      MembersSize(s[..n]);
      assert Members(s) == Members(s[..n]) + {s[n]} by {
        forall x | x in Members(s)
          ensures x in Members(s[..n]) + {s[n]}
        {
          var i :| 0 <= i < |s| && s[i] == x;
          if i < n { assert s[..n][i] == x; }
        }
        forall x | x in Members(s[..n])
          ensures x in Members(s)
        {
          var i :| 0 <= i < n && s[..n][i] == x;
          assert s[i] == x;
        }
      }
    }
  }

  /** All listed threads have left iff the counter equals the length of the list. */
  lemma AllLeft(b: Bar)
    requires Inv(b)
    ensures b.left == |b.list| <==> forall i :: 0 <= i < |b.list| ==> b.th[b.list[i]].st == LEFT
  {
    MembersSize(b.list);
    var l, m := Having(b, LEFT), Members(b.list);
    assert l <= m by {
      forall t | t in l
        ensures t in m
      {
        assert t in b.list;
      }
    }
    assert |m| == |l| + |m - l| by { assert m == l + (m - l); }
    assert b.left == |b.list| <==> m - l == {};
    forall i | 0 <= i < |b.list|
      ensures b.list[i] in m && (b.th[b.list[i]].st == LEFT <==> b.list[i] !in m - l)
    {
    }
  }

  lemma NobodyRuns(b: Bar)
    requires Core(b) && b.running == 0
    ensures forall t :: 0 <= t < |b.th| ==> b.th[t].st != RUNNING
  {
    forall t | 0 <= t < |b.th|
      ensures b.th[t].st != RUNNING
    {
      assert t !in Having(b, RUNNING);
    }
  }

  // ------------------------------------------------------------------ waking threads

  lemma WakeKeeps(b: Bar)
    requires Inv(b) && b.running < b.limit && b.cur < |b.list|
    ensures Inv(WakeNext(b)) && WakeNext(b).phases == b.phases
    ensures WakeNext(b).running >= b.running
    ensures b.th[b.list[b.cur]].st == WAITING ==> WakeNext(b).running > 0
  {
    var r := WakeNext(b);
    var t := b.list[b.cur];
    assert SpotOk(b, b.cur);
    CountChange(b, r, t, RUNNING);
    CountChange(b, r, t, LEFT);
    forall i: nat | i < |r.list|
      ensures SpotOk(r, i)
    {
      assert SpotOk(b, i);
      if i != b.cur { assert r.th[r.list[i]] == b.th[b.list[i]]; }
    }
  }

  /** The scan will come to a thread that waits. */
  ghost predicate WaiterAhead(b: Bar)
    requires Proper(b)
  {
    exists i: nat :: b.cur <= i < |b.list| && b.th[b.list[i]].st == WAITING
  }

  lemma StillWaits(b: Bar)
    requires Inv(b) && b.cur < |b.list| && WaiterAhead(b) && b.th[b.list[b.cur]].st != WAITING
    ensures WaiterAhead(WakeNext(b))
  {
    var i: nat :| b.cur <= i < |b.list| && b.th[b.list[i]].st == WAITING;
    assert WakeNext(b).th[b.list[i]] == b.th[b.list[i]];
  }

  /** Threads are woken until the limit is reached or the list has been scanned. */
  lemma {:induction false} CheckRunListKeeps(b: Bar)
    requires Inv(b)
    ensures var r := CheckRunList(b);
      && Inv(r) && r.phases == b.phases && r.running >= b.running
      && (r.running == r.limit || r.cur == |r.list|)
      && (WaiterAhead(b) ==> r.running > 0)
    decreases |b.list| - b.cur
  {
    if b.running < b.limit && b.cur < |b.list| {
      WakeKeeps(b);
      CheckRunListKeeps(WakeNext(b));
      if WaiterAhead(b) && b.th[b.list[b.cur]].st != WAITING { StillWaits(b); }
    }
  }

  // ------------------------------------------------------------------ the end of a phase

  /** Who has run when a phase ends: everybody who has not left, and only once unless it rejoined. */
  lemma PhaseEndsWhenAllRan(b: Bar, i: nat)
    requires Inv(b) && PhaseOver(b) && i < |b.list|
    ensures var x := b.th[b.list[i]];
      x.st == LEFT || (x.st == WAITING && x.ran >= 1 && (!x.rejoined ==> x.ran == 1))
    ensures forall t :: 0 <= t < |b.th| ==> b.th[t].st != RUNNING
  {
    NobodyRuns(b);
    assert SpotOk(b, i);
  }

  /** Nobody has run in this phase. */
  ghost predicate Unstarted(b: Bar) {
    b.cur == 0 && b.running == 0 && forall t :: 0 <= t < |b.th| ==> b.th[t].ran == 0 && !b.th[t].rejoined
  }

  lemma NewPhaseKeeps(b: Bar)
    requires Inv(b) && PhaseOver(b)
    ensures Inv(NewPhase(b)) && Unstarted(NewPhase(b))
    ensures forall t :: 0 <= t < |b.th| ==> NewPhase(b).th[t].st == b.th[t].st
  {
    var r := NewPhase(b);
    NobodyRuns(b);
    SameStates(b, r, RUNNING);
    SameStates(b, r, LEFT);
    forall i: nat | i < |r.list|
      ensures SpotOk(r, i)
    {
      assert SpotOk(b, i);
    }
  }

  /** `r` differs from `b` in positions, not in who waits; nobody new. */
  ghost predicate KeepsWaiting(b: Bar, r: Bar) {
    |r.th| == |b.th| && r.limit == b.limit && r.phases == b.phases && r.cur == b.cur && r.running == b.running
    && forall t :: 0 <= t < |b.th| ==> (r.th[t].st == WAITING <==> b.th[t].st == WAITING)
  }

  lemma DropCounts(b: Bar, i: nat)
    requires Core(b) && i < |b.list| && b.th[b.list[i]].st == LEFT
    ensures |Having(DropAt(b, i), LEFT)| == |Having(b, LEFT)| - 1
    ensures |Having(DropAt(b, i), RUNNING)| == |Having(b, RUNNING)|
  {
    CountChange(b, DropAt(b, i), b.list[i], LEFT);
    CountChange(b, DropAt(b, i), b.list[i], RUNNING);
  }

  lemma DropSpot(b: Bar, i: nat, k: nat)
    requires Core(b) && Unstarted(b) && i < |b.list| && b.th[b.list[i]].st == LEFT && k < |b.list| - 1
    ensures SpotOk(DropAt(b, i), k)
  {
    var n := |b.list| - 1;
    assert SpotOk(b, n) && SpotOk(b, i) && SpotOk(b, k);
    assert DropAt(b, i).list[k] == if k == i then b.list[n] else b.list[k];
  }

  lemma DropFrame(b: Bar, i: nat)
    requires Core(b) && Unstarted(b) && i < |b.list| && b.th[b.list[i]].st == LEFT
    ensures Unstarted(DropAt(b, i)) && KeepsWaiting(b, DropAt(b, i)) && DropAt(b, i).left == b.left
    ensures forall k :: 0 <= k < i ==>
      DropAt(b, i).list[k] == b.list[k] && DropAt(b, i).th[b.list[k]].st == b.th[b.list[k]].st
  {
  }

  lemma DropCore(b: Bar, i: nat)
    requires Core(b) && Unstarted(b) && i < |b.list| && b.th[b.list[i]].st == LEFT
    ensures Core(DropAt(b, i))
  {
    var r := DropAt(b, i);
    DropCounts(b, i);
    assert Distinct(r.list);
    forall k: nat | k < |b.list| - 1
      ensures SpotOk(r, k)
    {
      DropSpot(b, i, k);
    }
    forall u: nat | u < |r.th| && u !in r.list
      ensures r.th[u].st == OFFLINE && r.th[u].ran == 0 && !r.th[u].rejoined
    {
      DropUnlisted(b, i, u);
    }
  }

  lemma DropKeeps(b: Bar, i: nat)
    requires Core(b) && Unstarted(b) && i < |b.list| && b.th[b.list[i]].st == LEFT
    ensures Core(DropAt(b, i)) && Unstarted(DropAt(b, i))
    ensures KeepsWaiting(b, DropAt(b, i)) && DropAt(b, i).left == b.left
    ensures |Having(DropAt(b, i), LEFT)| == |Having(b, LEFT)| - 1
    ensures forall k :: 0 <= k < i ==>
      DropAt(b, i).list[k] == b.list[k] && DropAt(b, i).th[b.list[k]].st == b.th[b.list[k]].st
  {
    DropCounts(b, i);
    DropFrame(b, i);
    DropCore(b, i);
  }

  lemma DropUnlisted(b: Bar, i: nat, u: nat)
    requires Core(b) && Unstarted(b) && i < |b.list| && u < |b.th| && u !in DropAt(b, i).list
    ensures var x := DropAt(b, i).th[u]; x.st == OFFLINE && x.ran == 0 && !x.rejoined
  {
    if u in b.list && u != b.list[i] { StillListed(b, i, u); }
    if u !in b.list { assert u != b.list[|b.list| - 1]; }
  }

  lemma StillListed(b: Bar, i: nat, u: nat)
    requires Proper(b) && i < |b.list| && u in b.list && u != b.list[i]
    ensures u in DropAt(b, i).list
  {
    var n := |b.list| - 1;
    var k :| 0 <= k < |b.list| && b.list[k] == u;
    assert DropAt(b, i).list[if k == n then i else k] == u;
  }

  ghost predicate NoneLeftBefore(b: Bar, i: nat)
    requires Proper(b) && i <= |b.list|
  {
    forall k :: 0 <= k < i ==> b.th[b.list[k]].st != LEFT
  }

  /** The cleanup drops exactly the threads that left. */
  lemma {:induction false} CompactKeeps(b: Bar, i: nat)
    requires Core(b) && Unstarted(b) && i <= |b.list| && NoneLeftBefore(b, i)
    ensures var r := Compact(b, i);
      && Core(r) && Unstarted(r) && KeepsWaiting(b, r)
      && Having(r, LEFT) == {} && |b.list| - |r.list| == |Having(b, LEFT)|
    decreases |b.list| - i
  {
    if i == |b.list| {
      forall t: nat | t < |b.th|
        ensures b.th[t].st != LEFT
      {
        if t in b.list { var k :| 0 <= k < i && b.list[k] == t; }
      }
    } else if b.th[b.list[i]].st == LEFT {
      DropKeeps(b, i);
      CompactKeeps(DropAt(b, i), i);
    } else {
      CompactKeeps(b, i + 1);
    }
  }

  lemma SwapListed(b: Bar, i: nat, j: nat, u: nat)
    requires Proper(b) && i < |b.list| && j < |b.list| && u in b.list
    ensures u in SwapAt(b, i, j).list
  {
    var k :| 0 <= k < |b.list| && b.list[k] == u;
    assert SwapAt(b, i, j).list[if k == i then j else if k == j then i else k] == u;
  }

  lemma SwapSpot(b: Bar, i: nat, j: nat, k: nat)
    requires Inv(b) && Unstarted(b) && i < |b.list| && j < |b.list| && k < |b.list|
    ensures SpotOk(SwapAt(b, i, j), k)
  {
    assert SpotOk(b, i) && SpotOk(b, j) && SpotOk(b, k);
  }

  lemma SwapKeeps(b: Bar, i: nat, j: nat)
    requires Inv(b) && Unstarted(b) && i < |b.list| && j < |b.list|
    ensures Inv(SwapAt(b, i, j)) && Unstarted(SwapAt(b, i, j)) && KeepsWaiting(b, SwapAt(b, i, j))
  {
    var r := SwapAt(b, i, j);
    SameStates(b, r, LEFT);
    SameStates(b, r, RUNNING);
    forall k: nat | k < |r.list|
      ensures SpotOk(r, k)
    {
      SwapSpot(b, i, j, k);
    }
    forall u: nat | u < |r.th| && u !in r.list
      ensures r.th[u] == b.th[u] && u !in b.list
    {
      if u in b.list { SwapListed(b, i, j, u); }
    }
  }

  lemma WaitingTransitive(a: Bar, b: Bar, c: Bar)
    requires KeepsWaiting(a, b) && KeepsWaiting(b, c)
    ensures KeepsWaiting(a, c)
  {
  }

  lemma ShuffleUnfold(b: Bar, i: nat, draw: Draw, c: Bar)
    requires Proper(b) && i < |b.list| && c == Shuffle(b, i + 1, draw)
    ensures Shuffle(b, i, draw) == SwapAt(c, i, Pick(draw, i))
  {
  }

  lemma {:induction false} ShuffleKeeps(b: Bar, i: nat, draw: Draw)
    requires Inv(b) && Unstarted(b)
    ensures var r := Shuffle(b, i, draw); Inv(r) && Unstarted(r) && KeepsWaiting(b, r)
    decreases |b.list| - i
  {
    if i < |b.list| {
      ShuffleKeeps(b, i + 1, draw);
      var c := Shuffle(b, i + 1, draw);
      SwapKeeps(c, i, Pick(draw, i));
      ShuffleUnfold(b, i, draw, c);
      WaitingTransitive(b, c, SwapAt(c, i, Pick(draw, i)));
    }
  }

  lemma CleanUpKeeps(b: Bar, due: bool)
    requires Inv(b) && Unstarted(b) && b.list != []
    ensures var r := CleanUp(b, due); Inv(r) && Unstarted(r) && KeepsWaiting(b, r)
  {
    if due {
      CompactKeeps(b, 0);
      var c, r := Compact(b, 0), CleanUp(b, due);
      SameStates(c, r, LEFT);
      SameStates(c, r, RUNNING);
      forall i: nat | i < |r.list|
        ensures SpotOk(r, i)
      {
        assert SpotOk(c, i);
      }
    }
  }

  /** What the end of a phase leaves: nobody has run, and the same threads wait. */
  ghost predicate PhaseEnded(b: Bar, r: Bar) {
    && |r.th| == |b.th| && r.limit == b.limit && r.phases == b.phases + 1 && Unstarted(r)
    && forall t :: 0 <= t < |b.th| ==> (r.th[t].st == WAITING <==> b.th[t].st == WAITING)
  }

  lemma ReorderKeeps(b: Bar, draw: Draw)
    requires Inv(b) && Unstarted(b)
    ensures var r := Reorder(b, draw); Inv(r) && Unstarted(r) && KeepsWaiting(b, r)
  {
    if b.limit < |b.list| { ShuffleKeeps(b, 1, draw); }
  }

  lemma NewPhaseEnded(b: Bar, r: Bar)
    requires PhaseOver(b) && Inv(b) && KeepsWaiting(NewPhase(b), r) && Unstarted(r)
    ensures PhaseEnded(b, r)
  {
    NewPhaseKeeps(b);
  }

  lemma EndPhaseKeeps(b: Bar, draw: Draw)
    requires Inv(b)
    ensures var r := EndPhase(b, draw); Inv(r) && if PhaseOver(b) then PhaseEnded(b, r) else r == b
  {
    if PhaseOver(b) {
      NewPhaseKeeps(b);
      var t := SomeoneWaits(b);
      var b0 := NewPhase(b);
      var b1 := CleanUp(b0, b.phases % 32 == 0);
      CleanUpKeeps(b0, b.phases % 32 == 0);
      ReorderKeeps(b1, draw);
      WaitingTransitive(b0, b1, Reorder(b1, draw));
      NewPhaseEnded(b, Reorder(b1, draw));
    }
  }

  // ------------------------------------------------------------------ nobody is forgotten

  /** The limit is used up or the list is scanned, and if nobody runs then nobody waits. */
  ghost predicate Settled(b: Bar) {
    && (b.running == b.limit || b.cur == |b.list|)
    && (b.running == 0 ==> forall t :: 0 <= t < |b.th| ==> b.th[t].st != WAITING)
  }

  lemma NoneWaiting(b: Bar)
    requires Inv(b) && b.left == |b.list|
    ensures forall t :: 0 <= t < |b.th| ==> b.th[t].st != WAITING
  {
    AllLeft(b);
    forall t: nat | t < |b.th|
      ensures b.th[t].st != WAITING
    {
      if t in b.list { var i :| 0 <= i < |b.list| && b.list[i] == t; }
    }
  }

  lemma SomeoneWaits(b: Bar) returns (t: nat)
    requires Inv(b) && PhaseOver(b)
    ensures t < |b.th| && b.th[t].st == WAITING && b.list != []
  {
    AllLeft(b);
    var i: nat :| i < |b.list| && b.th[b.list[i]].st != LEFT;
    PhaseEndsWhenAllRan(b, i);
    t := b.list[i];
  }

  lemma WaiterListed(b: Bar, t: nat) returns (i: nat)
    requires Inv(b) && t < |b.th| && b.th[t].st != OFFLINE
    ensures i < |b.list| && b.list[i] == t && SpotOk(b, i)
  {
    assert t in b.list;
    i :| 0 <= i < |b.list| && b.list[i] == t;
  }

  lemma TryWakeKeeps(b: Bar, draw: Draw)
    requires Inv(b)
    ensures var r := TryWakeNext(b, draw);
      && Inv(r) && Settled(r)
      && r.phases == if PhaseOver(CheckRunList(b)) then b.phases + 1 else b.phases
  {
    CheckRunListKeeps(b);
    var b1 := CheckRunList(b);
    EndPhaseKeeps(b1, draw);
    var b2 := EndPhase(b1, draw);
    CheckRunListKeeps(b2);
    if PhaseOver(b1) {
      var t := SomeoneWaits(b1);
      var i := WaiterListed(b2, t);
      assert b2.cur <= i && b2.th[b2.list[i]].st == WAITING;
    } else {
      assert CheckRunList(b1) == b1;
      if b1.running == 0 { NoneWaiting(b1); }
    }
  }

  // ------------------------------------------------------------------ the operations

  ghost predicate CanJoin(b: Bar, t: nat) {
    t < |b.th| && (b.th[t].st == LEFT || b.th[t].st == OFFLINE)
  }

  ghost predicate CanSync(b: Bar, t: nat) {
    t < |b.th| && b.th[t].st == RUNNING
  }

  ghost predicate CanLeave(b: Bar, t: nat) {
    t < |b.th| && (b.th[t].st == RUNNING || b.th[t].st == WAITING)
  }

  /** The position `t` remembers is its own. */
  predicate KnowsPlace(b: Bar, t: nat) {
    t < |b.th| && b.th[t].last < |b.list| && b.list[b.th[t].last] == t
  }

  /** The assertion inside `join`, for a thread that left. */
  predicate JoinAsserts(b: Bar, t: nat) {
    t < |b.th| && (b.cur > b.th[t].last ==> b.cur <= |b.list| && b.list[b.th[t].last] == t)
  }

  /** The position a thread that left remembers is its position on the list. */
  lemma LeftIsWhereItThinks(b: Bar, t: nat)
    requires Inv(b) && t < |b.th| && b.th[t].st == LEFT
    ensures KnowsPlace(b, t)
  {
    var i := WaiterListed(b, t);
  }

  /** So does every thread woken since it was listed. */
  lemma WokenKnowsPlace(b: Bar, t: nat)
    requires Inv(b) && t < |b.th| && b.th[t].st != OFFLINE && b.th[t].placed
    ensures KnowsPlace(b, t)
  {
    var i := WaiterListed(b, t);
  }

  lemma OfflineUnlisted(b: Bar, t: nat)
    requires Inv(b) && t < |b.th|
    ensures t in b.list <==> b.th[t].st != OFFLINE
  {
    forall i: nat | i < |b.list|
      ensures b.th[b.list[i]].st != OFFLINE
    {
      assert SpotOk(b, i);
    }
  }

  lemma AppendKeeps(b: Bar, t: nat)
    requires Inv(b) && t < |b.th| && b.th[t].st == OFFLINE
    ensures Inv(Relist(b, t))
  {
    var r := Relist(b, t);
    CountChange(b, r, t, RUNNING);
    CountChange(b, r, t, LEFT);
    OfflineUnlisted(b, t);
    forall i: nat | i < |r.list|
      ensures SpotOk(r, i)
    {
      if i < |b.list| { assert SpotOk(b, i); }
    }
  }

  /** The exchange of a thread that left with the last one scanned. */
  lemma RejoinMoves(b: Bar, t: nat)
    requires Inv(b) && t < |b.th| && b.th[t].st == LEFT && b.cur > b.th[t].last
    ensures var r, l, c := Relist(b, t), b.th[t].last, b.cur - 1;
      && r.list == b.list[l := b.list[c]][c := t] && r.cur == c && b.list[l] == t
      && r.th[t] == b.th[t].(last := c, placed := true, st := WAITING, word := true, rejoined := true)
      && (b.list[c] != t ==> r.th[b.list[c]] == b.th[b.list[c]].(last := l, placed := true))
      && forall u: nat :: u < |b.th| && u != t && u != b.list[c] ==> r.th[u] == b.th[u]
  {
    LeftIsWhereItThinks(b, t);
  }

  /** If the scan has not come to it, only its state changes. */
  lemma RejoinStays(b: Bar, t: nat)
    requires Inv(b) && t < |b.th| && b.th[t].st == LEFT && b.cur <= b.th[t].last
    ensures var r := Relist(b, t);
      && r.list == b.list && r.cur == b.cur
      && r.th == b.th[t := b.th[t].(st := WAITING, word := true, rejoined := true)]
  {
  }

  lemma RejoinSpotMoved(b: Bar, t: nat, r: Bar, i: nat)
    requires Inv(b) && t < |b.th| && b.th[t].st == LEFT && b.cur > b.th[t].last && i < |b.list|
    requires r == Relist(b, t) && |r.list| == |b.list|
    ensures SpotOk(r, i)
  {
    RejoinMoves(b, t);
    var l, c := b.th[t].last, b.cur - 1;
    assert SpotOk(b, i) && SpotOk(b, l) && SpotOk(b, c);
    assert r.list[i] == if i == c then t else if i == l then b.list[c] else b.list[i];
  }

  lemma RejoinSpot(b: Bar, t: nat, i: nat)
    requires Inv(b) && t < |b.th| && b.th[t].st == LEFT && i < |Relist(b, t).list|
    ensures SpotOk(Relist(b, t), i)
  {
    LeftIsWhereItThinks(b, t);
    if b.cur > b.th[t].last {
      RejoinMoves(b, t);
      RejoinSpotMoved(b, t, Relist(b, t), i);
    } else {
      RejoinStays(b, t);
      assert SpotOk(b, i);
    }
  }

  lemma RejoinListed(b: Bar, t: nat, u: nat)
    requires Inv(b) && t < |b.th| && b.th[t].st == LEFT && u in b.list
    ensures u in Relist(b, t).list
  {
    LeftIsWhereItThinks(b, t);
    var r, l := Relist(b, t), b.th[t].last;
    var k :| 0 <= k < |b.list| && b.list[k] == u;
    if b.cur > l { assert r.list[if k == l then b.cur - 1 else if k == b.cur - 1 then l else k] == u; }
  }

  /** Exchanging a thread that left with the last one scanned, and scanning it again. */
  lemma RejoinKeeps(b: Bar, t: nat)
    requires Inv(b) && t < |b.th| && b.th[t].st == LEFT
    ensures Inv(Relist(b, t))
  {
    var r := Relist(b, t);
    RejoinCounts(b, t);
    RejoinDistinct(b, t);
    forall i: nat | i < |r.list|
      ensures SpotOk(r, i)
    {
      RejoinSpot(b, t, i);
    }
    forall u: nat | u < |r.th| && u !in r.list
      ensures u !in b.list && u != t && r.th[u] == b.th[u]
    {
      if u in b.list { RejoinListed(b, t, u); }
      OfflineUnlisted(b, t);
    }
  }

  lemma RejoinCounts(b: Bar, t: nat)
    requires Inv(b) && t < |b.th| && b.th[t].st == LEFT
    ensures var r := Relist(b, t);
      && r.running == b.running == |Having(r, RUNNING)| && r.left == b.left - 1 == |Having(r, LEFT)|
  {
    var r := Relist(b, t);
    LeftIsWhereItThinks(b, t);
    CountChange(b, r, t, RUNNING);
    CountChange(b, r, t, LEFT);
  }

  lemma RejoinDistinct(b: Bar, t: nat)
    requires Inv(b) && t < |b.th| && b.th[t].st == LEFT
    ensures Distinct(Relist(b, t).list) && Relist(b, t).ok
  {
    LeftIsWhereItThinks(b, t);
    if b.cur > b.th[t].last { RejoinMoves(b, t); } else { RejoinStays(b, t); }
  }

  lemma RelistKeeps(b: Bar, t: nat)
    requires Inv(b) && CanJoin(b, t)
    ensures var r := Relist(b, t);
      && Inv(r) && r.phases == b.phases
      && WaiterAhead(r)
  {
    var r := Relist(b, t);
    if b.th[t].st == OFFLINE {
      AppendKeeps(b, t);
      assert r.list[|b.list|] == t;
    } else {
      RejoinKeeps(b, t);
      LeftIsWhereItThinks(b, t);
      var l := b.th[t].last;
      assert r.list[if b.cur > l then b.cur - 1 else l] == t;
    }
  }

  /** Joining keeps the barrier going and can never end a phase. */
  lemma JoinKeeps(b: Bar, t: nat, draw: Draw)
    requires Inv(b) && CanJoin(b, t)
    ensures var r := Join(b, t, draw); Inv(r) && Settled(r) && r.phases == b.phases
  {
    RelistKeeps(b, t);
    CheckRunListKeeps(Relist(b, t));
    TryWakeKeeps(Relist(b, t), draw);
  }

  lemma StopKeeps(b: Bar, t: nat, st: State)
    requires Inv(b) && CanSync(b, t) && (st == WAITING || st == LEFT)
    ensures Inv(Set(b, t, b.th[t].(st := st, word := st == WAITING || b.th[t].word))
                .(running := b.running - 1, left := if st == LEFT then b.left + 1 else b.left))
  {
    var r := Set(b, t, b.th[t].(st := st, word := st == WAITING || b.th[t].word))
                .(running := b.running - 1, left := if st == LEFT then b.left + 1 else b.left);
    CountChange(b, r, t, RUNNING);
    CountChange(b, r, t, LEFT);
    forall i: nat | i < |r.list|
      ensures SpotOk(r, i)
    {
      assert SpotOk(b, i);
    }
  }

  lemma SyncKeeps(b: Bar, t: nat, draw: Draw)
    requires Inv(b) && CanSync(b, t)
    ensures Inv(Sync(b, t, draw)) && Settled(Sync(b, t, draw))
  {
    StopKeeps(b, t, WAITING);
    TryWakeKeeps(Set(b, t, b.th[t].(st := WAITING, word := true)).(running := b.running - 1), draw);
  }

  lemma LeaveKeeps(b: Bar, t: nat, draw: Draw)
    requires Inv(b) && Settled(b) && CanLeave(b, t) && (b.th[t].st == WAITING ==> KnowsPlace(b, t))
    ensures Inv(Leave(b, t, draw)) && Settled(Leave(b, t, draw))
  {
    var b1 := Set(b, t, b.th[t].(st := LEFT)).(left := b.left + 1);
    if b.th[t].st == RUNNING {
      StopKeeps(b, t, LEFT);
      TryWakeKeeps(b1.(running := b.running - 1), draw);
    } else {
      CountChange(b, b1, t, RUNNING);
      CountChange(b, b1, t, LEFT);
      forall i: nat | i < |b1.list|
        ensures SpotOk(b1, i)
      {
        assert SpotOk(b, i);
      }
    }
  }

  /** A thread that leaves keeps the bookkeeping intact if and only if it runs or knows its place. */
  lemma LeaveKeepsIff(b: Bar, t: nat, draw: Draw)
    requires Inv(b) && Settled(b) && CanLeave(b, t)
    ensures Inv(Leave(b, t, draw)) <==> b.th[t].st == RUNNING || KnowsPlace(b, t)
  {
    if b.th[t].st == RUNNING || KnowsPlace(b, t) {
      LeaveKeeps(b, t, draw);
    } else {
      var r := Leave(b, t, draw);
      assert r.list == b.list && r.th[t].last == b.th[t].last && !KnowsPlace(r, t);
      if Inv(r) { LeftIsWhereItThinks(r, t); }
    }
  }

  /** After a waiting thread left, its next join passes the assertion if and only if the scan has not
      reached the position it remembers, or that position is its own. */
  lemma RejoinAssertsIff(b: Bar, t: nat, draw: Draw)
    requires Inv(b) && Settled(b) && t < |b.th| && b.th[t].st == WAITING
    ensures JoinAsserts(Leave(b, t, draw), t) <==> b.cur <= b.th[t].last || KnowsPlace(b, t)
    ensures Relist(Leave(b, t, draw), t).ok <==> JoinAsserts(Leave(b, t, draw), t)
  {
  }

  // ------------------------------------------------------------------ runs

  datatype Op = JoinOp(t: nat) | LeaveOp(t: nat) | SyncOp(t: nat)

  ghost predicate Legal(b: Bar, op: Op) {
    match op
    case JoinOp(t) => CanJoin(b, t)
    case LeaveOp(t) => CanLeave(b, t)
    case SyncOp(t) => CanSync(b, t)
  }

  ghost function Do(b: Bar, op: Op, draw: Draw): (r: Bar)
    requires Shaped(b) && Legal(b, op)
    ensures Shaped(r)
  {
    match op
    case JoinOp(t) => Join(b, t, draw)
    case LeaveOp(t) => Leave(b, t, draw)
    case SyncOp(t) => Sync(b, t, draw)
  }

  /** A barrier nobody has joined. */
  function Fresh(limit: nat, threads: nat): Bar {
    Bar(limit, seq(threads, _ => Thread(OFFLINE, 0, false, false, 0, false)), [], 0, 0, 0, 0, true)
  }

  /** The barrier can get from `b` to `r` by operations whose callers keep to the rules. */
  ghost predicate Run(b: Bar, ops: seq<(Op, Draw)>, r: Bar)
    requires Shaped(b)
    decreases |ops|
  {
    if ops == [] then b == r
    else Legal(b, ops[0].0) && Run(Do(b, ops[0].0, ops[0].1), ops[1..], r)
  }

  /** A waiting thread that leaves knows its place. */
  ghost predicate InPlace(b: Bar, op: Op) {
    op.LeaveOp? && op.t < |b.th| && b.th[op.t].st == WAITING ==> KnowsPlace(b, op.t)
  }

  /** ... in every step of the run. */
  ghost predicate AllInPlace(b: Bar, ops: seq<(Op, Draw)>)
    requires Shaped(b)
    decreases |ops|
  {
    ops != [] && Legal(b, ops[0].0) ==> InPlace(b, ops[0].0) && AllInPlace(Do(b, ops[0].0, ops[0].1), ops[1..])
  }

  /** The bookkeeping is right in every state of the run. */
  ghost predicate AlwaysInv(b: Bar, ops: seq<(Op, Draw)>)
    requires Shaped(b)
    decreases |ops|
  {
    Inv(b) && (ops != [] && Legal(b, ops[0].0) ==> AlwaysInv(Do(b, ops[0].0, ops[0].1), ops[1..]))
  }

  lemma StepKeeps(b: Bar, op: Op, draw: Draw)
    requires Inv(b) && Settled(b) && Legal(b, op) && InPlace(b, op)
    ensures Inv(Do(b, op, draw)) && Settled(Do(b, op, draw))
  {
    match op
    case JoinOp(t) => JoinKeeps(b, t, draw);
    case LeaveOp(t) => LeaveKeeps(b, t, draw);
    case SyncOp(t) => SyncKeeps(b, t, draw);
  }

  /** The state in which the barrier looks for threads to wake, if it does. */
  ghost function Entered(b: Bar, op: Op): (r: Bar)
    requires Shaped(b) && Legal(b, op)
    ensures Shaped(r)
  {
    match op
    case JoinOp(t) => Relist(b, t)
    case LeaveOp(t) =>
      Set(b, t, b.th[t].(st := LEFT))
      .(left := b.left + 1, running := if b.th[t].st == RUNNING then b.running - 1 else b.running)
    case SyncOp(t) => Set(b, t, b.th[t].(st := WAITING, word := true)).(running := b.running - 1)
  }

  lemma EnteredKeeps(b: Bar, op: Op)
    requires Inv(b) && Legal(b, op) && (op.LeaveOp? ==> b.th[op.t].st == RUNNING)
    ensures Inv(Entered(b, op)) && Entered(b, op).phases == b.phases
  {
    match op
    case JoinOp(t) => RelistKeeps(b, t);
    case LeaveOp(t) => StopKeeps(b, t, LEFT);
    case SyncOp(t) => StopKeeps(b, t, WAITING);
  }

  /** Nobody runs, and every listed thread that has not left has had its turn: one, unless it rejoined. */
  ghost predicate AllHadTurn(b: Bar)
    requires Proper(b)
  {
    && (forall t :: 0 <= t < |b.th| ==> b.th[t].st != RUNNING)
    && forall i :: 0 <= i < |b.list| ==> var x := b.th[b.list[i]];
         x.st == LEFT || (x.st == WAITING && x.ran >= 1 && (!x.rejoined ==> x.ran == 1))
  }

  /** Whenever an operation of a run ends a phase, everybody has had a turn in it; no operation ends more
      than one phase, and a join ends none. */
  lemma PhaseEndsInRun(b: Bar, op: Op, draw: Draw)
    requires Inv(b) && Settled(b) && Legal(b, op) && InPlace(b, op)
    ensures var r := Do(b, op, draw);
      && (r.phases == b.phases || r.phases == b.phases + 1)
      && (r.phases == b.phases + 1 ==> !op.JoinOp? && AllHadTurn(CheckRunList(Entered(b, op))))
  {
    if !(op.LeaveOp? && b.th[op.t].st == WAITING) {
      EnteredKeeps(b, op);
      var e := Entered(b, op);
      assert Do(b, op, draw) == TryWakeNext(e, draw);
      TryWakeKeeps(e, draw);
      CheckRunListKeeps(e);
      var c := CheckRunList(e);
      if PhaseOver(c) {
        NobodyRuns(c);
        forall i: nat | i < |c.list|
          ensures var x := c.th[c.list[i]];
            x.st == LEFT || (x.st == WAITING && x.ran >= 1 && (!x.rejoined ==> x.ran == 1))
        {
          PhaseEndsWhenAllRan(c, i);
        }
      }
      if op.JoinOp? { JoinKeeps(b, op.t, draw); }
    }
  }

  lemma {:induction false} RunKeeps(b: Bar, ops: seq<(Op, Draw)>, r: Bar)
    requires Inv(b) && Settled(b) && Run(b, ops, r) && AllInPlace(b, ops)
    ensures Inv(r) && Settled(r)
    decreases |ops|
  {
    if ops != [] {
      StepKeeps(b, ops[0].0, ops[0].1);
      RunKeeps(Do(b, ops[0].0, ops[0].1), ops[1..], r);
    }
  }

  lemma {:induction false} AlwaysInvFrom(b: Bar, ops: seq<(Op, Draw)>)
    requires Inv(b) && Settled(b)
    ensures AlwaysInv(b, ops) <==> AllInPlace(b, ops)
    decreases |ops|
  {
    if ops != [] && Legal(b, ops[0].0) {
      var op, draw := ops[0].0, ops[0].1;
      if InPlace(b, op) {
        StepKeeps(b, op, draw);
        AlwaysInvFrom(Do(b, op, draw), ops[1..]);
      } else {
        LeaveKeepsIff(b, op.t, draw);
      }
    }
  }

  /** The bookkeeping is right, no assertion fails and the barrier does not stall, after any run of any
      threads in which no waiting thread leaves that does not know its place. */
  lemma BarrierWorks(limit: nat, threads: nat, ops: seq<(Op, Draw)>, r: Bar)
    requires limit > 0 && Run(Fresh(limit, threads), ops, r) && AllInPlace(Fresh(limit, threads), ops)
    ensures Inv(r) && Settled(r) && r.ok
  {
    FreshOk(limit, threads);
    RunKeeps(Fresh(limit, threads), ops, r);
  }

  /** Over whole runs the bookkeeping is right throughout exactly when every waiting thread that leaves
      knows its place. */
  lemma BarrierWorksIff(limit: nat, threads: nat, ops: seq<(Op, Draw)>)
    requires limit > 0
    ensures AlwaysInv(Fresh(limit, threads), ops) <==> AllInPlace(Fresh(limit, threads), ops)
  {
    FreshOk(limit, threads);
    AlwaysInvFrom(Fresh(limit, threads), ops);
  }

  lemma FreshOk(limit: nat, threads: nat)
    requires limit > 0
    ensures Inv(Fresh(limit, threads)) && Settled(Fresh(limit, threads))
  {
    var b := Fresh(limit, threads);
    assert Having(b, RUNNING) == {} && Having(b, LEFT) == {};
  }

  lemma FirstWoken() returns (b: Bar)
    requires Inv(Fresh(1, 2))
    ensures CheckRunList(Relist(Fresh(1, 2), 0)) == b
    ensures b == Bar(1, [Thread(RUNNING, 0, false, true, 1, false), Fresh(1, 2).th[1]], [0], 1, 1, 0, 0, true)
  {
    b := WakeNext(Relist(Fresh(1, 2), 0));
    assert CheckRunList(b) == b;
  }

  lemma FirstJoins(draw: Draw) returns (b: Bar)
    ensures Inv(Fresh(1, 2)) && Legal(Fresh(1, 2), JoinOp(0)) && Do(Fresh(1, 2), JoinOp(0), draw) == b && Inv(b)
    ensures b == Bar(1, [Thread(RUNNING, 0, false, true, 1, false), Fresh(1, 2).th[1]], [0], 1, 1, 0, 0, true)
  {
    FreshOk(1, 2);
    b := FirstWoken();
    StepKeeps(Fresh(1, 2), JoinOp(0), draw);
    assert CheckRunList(b) == b;
  }

  /** With one thread running, a second one joins, leaves before it was woken and joins again. */
  lemma SecondRejoins(b1: Bar, draw: Draw) returns (b: Bar)
    requires b1 == Bar(1, [Thread(RUNNING, 0, false, true, 1, false), Fresh(1, 2).th[1]], [0], 1, 1, 0, 0, true)
    ensures Run(b1, [(JoinOp(1), draw), (LeaveOp(1), draw), (JoinOp(1), draw)], b) && !b.ok
  {
    var b2 := Relist(b1, 1);
    assert CheckRunList(b2) == b2 && Do(b1, JoinOp(1), draw) == b2;
    var b3 := Do(b2, LeaveOp(1), draw);
    var b4 := Relist(b3, 1);
    assert !b4.ok && CheckRunList(b4) == b4;
    b := Do(b3, JoinOp(1), draw);
    assert b == b4;
    RunOne(b3, (JoinOp(1), draw), [], b, b);
    RunOne(b2, (LeaveOp(1), draw), [(JoinOp(1), draw)], b3, b);
    RunOne(b1, (JoinOp(1), draw), [(LeaveOp(1), draw), (JoinOp(1), draw)], b2, b);
  }

  lemma RunOne(b: Bar, op: (Op, Draw), ops: seq<(Op, Draw)>, c: Bar, r: Bar)
    requires Shaped(b) && Legal(b, op.0) && c == Do(b, op.0, op.1) && Run(c, ops, r)
    ensures Run(b, [op] + ops, r)
  {
    assert ([op] + ops)[1..] == ops;
  }

  /** A run in which every caller keeps to the rules and the assertion of `join` fails: a thread that
      was never woken leaves, and looks for itself at a position that is another's. */
  lemma UnwokenThreadMisplaced(draw: Draw) returns (b: Bar)
    ensures Run(Fresh(1, 2), [(JoinOp(0), draw), (JoinOp(1), draw), (LeaveOp(1), draw), (JoinOp(1), draw)], b)
    ensures !b.ok
  {
    var b1 := FirstJoins(draw);
    b := SecondRejoins(b1, draw);
    RunOne(Fresh(1, 2), (JoinOp(0), draw), [(JoinOp(1), draw), (LeaveOp(1), draw), (JoinOp(1), draw)], b1, b);
  }
}

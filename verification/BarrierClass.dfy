/**
 The barrier as the program runs it: thread records and the run list are arrays updated in place.
 Each method is proved to compute the corresponding function of the model.
 */
module BarrierClass {
  import opened BarrierModel
  import opened BarrierSafety
  import B = BarrierModel

  class Barrier {
    const parallelThreads: nat
    const threadList: array<Thread>
    const runList: array<nat>
    var runListSize: nat
    var curThreadIdx: nat
    var runningThreads: int
    var leftThreads: int
    var phaseCount: nat
    var ok: bool

    /** The barrier with the first `n` entries of the run list. */
    ghost function Seen(n: nat): Bar
      reads this, threadList, runList
      requires n <= runList.Length
    {
      Bar(parallelThreads, threadList[..], runList[..n], curThreadIdx, runningThreads, leftThreads, phaseCount, ok)
    }

    ghost predicate Valid()
      reads this, threadList, runList
    {
      runListSize <= runList.Length == threadList.Length && Proper(Seen(runListSize))
    }

    ghost function View(): Bar
      reads this, threadList, runList
      requires Valid()
    {
      Seen(runListSize)
    }

    constructor (parallelThreads: nat, maxThreads: nat)
      ensures Valid() && View() == Fresh(parallelThreads, maxThreads) && fresh(threadList) && fresh(runList)
    {
      this.parallelThreads := parallelThreads;
      threadList := new Thread[maxThreads](_ => Thread(OFFLINE, 0, false, false, 0, false));
      runList := new nat[maxThreads](_ => 0);
      runListSize, curThreadIdx, runningThreads, leftThreads, phaseCount, ok := 0, 0, 0, 0, 0, true;
      new;
      assert threadList[..] == Fresh(parallelThreads, maxThreads).th;
    }

    /** The next thread of the list is woken if it waits. */
    method WakeOne()
      requires Valid() && curThreadIdx < runListSize
      modifies this`curThreadIdx, this`runningThreads, this`ok, threadList
      ensures Valid() && View() == WakeNext(old(View()))
    {
      var idx := curThreadIdx;
      curThreadIdx := curThreadIdx + 1;
      var wtid := runList[idx];
      var x := threadList[wtid];
      if x.st == WAITING {
        ok := ok && x.word;
        threadList[wtid] := x.(st := RUNNING, last := idx, word := false, placed := true, ran := x.ran + 1);
        runningThreads := runningThreads + 1;
      }
    }

    method CheckRunList()
      requires Valid()
      modifies this`curThreadIdx, this`runningThreads, this`ok, threadList
      ensures Valid() && View() == B.CheckRunList(old(View()))
    {
      ghost var b := View();
      while runningThreads < parallelThreads && curThreadIdx < runListSize
        invariant Valid() && B.CheckRunList(View()) == B.CheckRunList(b)
        decreases runListSize - curThreadIdx
      {
        WakeOne();
      }
    }

    /** The cleanup pass: threads that left go offline, the last one takes their place. */
    method DropLeft() returns (newSize: nat)
      requires Valid()
      modifies threadList, runList
      ensures newSize <= runListSize && Proper(Seen(newSize)) && Seen(newSize) == Compact(old(View()), 0)
    {
      ghost var b := View();
      var idx := 0;
      newSize := runListSize;
      while idx < newSize
        invariant idx <= newSize <= runListSize && Proper(Seen(newSize))
        invariant Compact(Seen(newSize), idx) == Compact(b, 0)
        decreases newSize - idx
      {
        if threadList[runList[idx]].st == LEFT {
          DropOne(idx, newSize);
          newSize := newSize - 1;
        } else {
          idx := idx + 1;
        }
      }
    }

    /** The thread at `idx` goes offline, the last one of the first `size` takes its place. */
    method DropOne(idx: nat, size: nat)
      requires idx < size <= runList.Length && Proper(Seen(size))
      modifies threadList, runList
      ensures Proper(Seen(size - 1)) && Seen(size - 1) == DropAt(old(Seen(size)), idx)
    {
      ghost var c := Seen(size);
      var wtid, stid := runList[idx], runList[size - 1];
      threadList[wtid] := threadList[wtid].(st := OFFLINE);
      runList[idx] := stid;
      threadList[stid] := threadList[stid].(last := idx, placed := true);
      assert runList[..size - 1] == c.list[idx := stid][..size - 1];
    }

    /** The Fisher-Yates shuffle, from the last position down. */
    method ShuffleList(draw: Draw)
      requires Valid() && runListSize > 0
      modifies threadList, runList
      ensures Valid() && View() == Shuffle(old(View()), 1, draw)
    {
      ghost var b := View();
      var i := runListSize - 1;
      while i > 0
        invariant 0 <= i < runListSize && Valid() && View() == Shuffle(b, i + 1, draw)
      {
        ExchangeNext(i, draw, b);
        i := i - 1;
      }
    }

    method ExchangeNext(i: nat, draw: Draw, ghost b: Bar)
      requires Valid() && i < runListSize && Proper(b) && View() == Shuffle(b, i + 1, draw)
      modifies threadList, runList
      ensures Valid() && View() == Shuffle(b, i, draw)
    {
      ShuffleUnfold(b, i, draw, View());
      Exchange(i, Pick(draw, i));
    }

    method Exchange(i: nat, j: nat)
      requires Valid() && i < runListSize && j < runListSize
      modifies threadList, runList
      ensures Valid() && View() == SwapAt(old(View()), i, j)
    {
      var itid, jtid := runList[i], runList[j];
      runList[i] := jtid;
      runList[j] := itid;
      threadList[itid] := threadList[itid].(last := j, placed := true);
      threadList[jtid] := threadList[jtid].(last := i, placed := true);
    }

    /** The proof's own counters start over with the phase. */
    method ForgetTurns()
      requires Valid()
      modifies threadList
      ensures Valid()
      ensures threadList[..] == seq(threadList.Length, i requires 0 <= i < threadList.Length =>
                old(threadList[..])[i].(ran := 0, rejoined := false))
    {
      for i := 0 to threadList.Length
        invariant forall k :: 0 <= k < i ==> threadList[k] == old(threadList[k]).(ran := 0, rejoined := false)
        invariant forall k :: i <= k < threadList.Length ==> threadList[k] == old(threadList[k])
      {
        threadList[i] := threadList[i].(ran := 0, rejoined := false);
      }
    }

    method StartPhase()
      requires Valid()
      modifies this`curThreadIdx, this`phaseCount, threadList
      ensures Valid() && View() == NewPhase(old(View()))
    {
      curThreadIdx := 0;
      ForgetTurns();
      phaseCount := phaseCount + 1;
    }

    method CleanList()
      requires Valid()
      modifies this`runListSize, this`leftThreads, this`ok, threadList, runList
      ensures Valid() && View() == CleanUp(old(View()), true)
    {
      var newSize := DropLeft();
      ok := ok && runListSize > 0 && runListSize - newSize == leftThreads;
      leftThreads := 0;
      runListSize := newSize;
    }

    method CheckEndPhase(draw: Draw)
      requires Valid()
      modifies this, threadList, runList
      ensures Valid() && View() == EndPhase(old(View()), draw)
    {
      if curThreadIdx == runListSize && runningThreads == 0 {
        if leftThreads == runListSize { return; }
        var due := phaseCount % 32 == 0;
        StartPhase();
        if due { CleanList(); }
        if parallelThreads < runListSize { ShuffleList(draw); }
      }
    }

    method TryWakeNext(draw: Draw)
      requires Valid()
      modifies this, threadList, runList
      ensures Valid() && View() == B.TryWakeNext(old(View()), draw)
    {
      CheckRunList();
      CheckEndPhase(draw);
      CheckRunList();
    }

    method Append(tid: nat)
      requires Valid() && runListSize < runList.Length && curThreadIdx <= runListSize
      requires tid < threadList.Length && threadList[tid].st == OFFLINE
      modifies this`runListSize, threadList, runList
      ensures Valid() && View() == Relist(old(View()), tid)
    {
      ghost var b := View();
      runList[runListSize] := tid;
      runListSize := runListSize + 1;
      threadList[tid] := threadList[tid].(st := WAITING, word := true, placed := false);
      assert runList[..runListSize] == b.list + [tid];
    }

    /** The thread's record says that it is at position `idx`. */
    method Place(tid: nat, idx: nat)
      requires Valid() && tid < threadList.Length
      modifies threadList
      ensures Valid()
      ensures var b := old(View()); View() == B.Set(b, tid, b.th[tid].(last := idx, placed := true))
    {
      threadList[tid] := threadList[tid].(last := idx, placed := true);
    }

    method RescheduleAt(tid: nat, lastIdx: nat)
      requires Valid() && lastIdx < curThreadIdx <= runListSize
      requires tid < threadList.Length && threadList[tid].last == lastIdx
      modifies this`curThreadIdx, this`ok, threadList, runList
      ensures Valid() && View() == Reschedule(old(View()), tid)
    {
      var otherTid := SwapIn(tid, lastIdx);
      Place(otherTid, lastIdx);
      Place(tid, curThreadIdx);
    }

    /** The thread takes the last position scanned, which counts as not scanned again. */
    method SwapIn(tid: nat, lastIdx: nat) returns (otherTid: nat)
      requires Valid() && lastIdx < curThreadIdx <= runListSize && tid < threadList.Length
      modifies this`curThreadIdx, this`ok, runList
      ensures Valid()
      ensures var b := old(View());
        var c := b.cur - 1;
        && otherTid == b.list[c]
        && View() == b.(list := b.list[lastIdx := otherTid][c := tid], cur := c, ok := b.ok && b.list[lastIdx] == tid)
    {
      curThreadIdx := curThreadIdx - 1;
      ok := ok && tid == runList[lastIdx];
      otherTid := runList[curThreadIdx];
      runList[lastIdx] := otherTid;
      runList[curThreadIdx] := tid;
    }

    method MarkRejoined(tid: nat)
      requires Valid() && tid < threadList.Length
      modifies threadList
      ensures Valid()
      ensures var b := old(View()); View() == B.Set(b, tid, b.th[tid].(st := WAITING, word := true, rejoined := true))
    {
      threadList[tid] := threadList[tid].(st := WAITING, word := true, rejoined := true);
    }

    method OneBack()
      requires Valid()
      modifies this`leftThreads
      ensures Valid()
      ensures var b := old(View()); View() == b.(left := b.left - 1)
    {
      leftThreads := leftThreads - 1;
    }

    method Rejoin(tid: nat)
      requires Valid() && curThreadIdx <= runListSize && tid < threadList.Length && threadList[tid].st == LEFT
      modifies this`leftThreads, this`curThreadIdx, this`ok, threadList, runList
      ensures Valid() && View() == Relist(old(View()), tid)
    {
      OneBack();
      var lastIdx := threadList[tid].last;
      if curThreadIdx > lastIdx { RescheduleAt(tid, lastIdx); }
      MarkRejoined(tid);
    }

    method Join(tid: nat, draw: Draw)
      requires Valid() && curThreadIdx <= runListSize && CanJoin(View(), tid)
      requires threadList[tid].st == OFFLINE ==> runListSize < runList.Length
      modifies this, threadList, runList
      ensures Valid() && View() == B.Join(old(View()), tid, draw)
      ensures old(Inv(View())) ==> Inv(View()) && Settled(View()) && phaseCount == old(phaseCount)
    {
      ghost var b := View();
      if threadList[tid].st == OFFLINE { Append(tid); } else { Rejoin(tid); }
      TryWakeNext(draw);
      if Inv(b) { JoinKeeps(b, tid, draw); }
    }

    method MarkLeft(tid: nat)
      requires Valid() && tid < threadList.Length
      modifies this`leftThreads, threadList
      ensures Valid()
      ensures var b := old(View()); View() == B.Set(b, tid, b.th[tid].(st := LEFT)).(left := b.left + 1)
    {
      threadList[tid] := threadList[tid].(st := LEFT);
      leftThreads := leftThreads + 1;
    }

    method StopRunning()
      requires Valid()
      modifies this`runningThreads
      ensures Valid()
      ensures var b := old(View()); View() == b.(running := b.running - 1)
    {
      runningThreads := runningThreads - 1;
    }

    method Depart(tid: nat, draw: Draw)
      requires Valid() && curThreadIdx <= runListSize && CanLeave(View(), tid)
      modifies this, threadList, runList
      ensures Valid() && View() == B.Leave(old(View()), tid, draw)
    {
      ghost var b := View();
      var wasRunning := threadList[tid].st == RUNNING;
      MarkLeft(tid);
      if wasRunning {
        StopRunning();
        LeaveRunning(b, tid, draw, View());
        TryWakeNext(draw);
      }
    }

    method Leave(tid: nat, draw: Draw)
      requires Valid() && curThreadIdx <= runListSize && CanLeave(View(), tid)
      modifies this, threadList, runList
      ensures Valid() && View() == B.Leave(old(View()), tid, draw)
      ensures old(Inv(View()) && Settled(View())) ==>
        (Inv(View()) <==> old(View().th[tid].st == RUNNING || KnowsPlace(View(), tid)))
    {
      ghost var b := View();
      Depart(tid, draw);
      if Inv(b) && Settled(b) { LeaveKeepsIff(b, tid, draw); }
    }

    method Sync(tid: nat, draw: Draw)
      requires Valid() && curThreadIdx <= runListSize && CanSync(View(), tid)
      modifies this, threadList, runList
      ensures Valid() && View() == B.Sync(old(View()), tid, draw)
      ensures old(Inv(View())) ==> Inv(View()) && Settled(View())
    {
      ghost var b := View();
      threadList[tid] := threadList[tid].(st := WAITING, word := true);
      runningThreads := runningThreads - 1;
      assert View() == B.Set(b, tid, b.th[tid].(st := WAITING, word := true)).(running := b.running - 1);
      TryWakeNext(draw);
      if Inv(b) { SyncKeeps(b, tid, draw); }
    }
  }

  lemma LeaveRunning(b: Bar, t: nat, draw: Draw, c: Bar)
    requires Shaped(b) && t < |b.th| && b.th[t].st == RUNNING
    requires c == B.Set(b, t, b.th[t].(st := LEFT)).(left := b.left + 1, running := b.running - 1)
    ensures Proper(c) && B.Leave(b, t, draw) == B.TryWakeNext(c, draw)
  {
  }

  // ------------------------------------------------------------------ room on the list

  ghost function ThreadIds(n: nat): (s: set<nat>)
    ensures |s| == n && forall u :: u in s <==> 0 <= u < n
  {
    if n == 0 then {} else ThreadIds(n - 1) + {n - 1}
  }

  /** A thread that is off the list fits on it. */
  lemma RoomFor(b: Bar, t: nat)
    requires Inv(b) && t < |b.th| && b.th[t].st == OFFLINE
    ensures |b.list| < |b.th|
  {
    OfflineUnlisted(b, t);
    MembersSize(b.list);
    var all, listed := ThreadIds(|b.th|), Members(b.list);
    assert listed + {t} <= all && t !in listed;
    assert all == (listed + {t}) + (all - listed - {t});
  }
}

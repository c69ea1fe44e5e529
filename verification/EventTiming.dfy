/**
 When an adaptive event fires, over all counters that respect its rate.
 */
module EventTiming {
  import opened Arithmetic
  import opened EventModel
  import opened EventSafety

  /** The watched counter at the end of each phase: it gains at most `maxRate` in a phase, and at most
      `slack` between the insertion, in phase `c`, and the end of that phase. */
  ghost predicate Bounded(w: nat -> nat, c: nat, start: nat, maxRate: nat, slack: nat) {
    && w(c) <= start + slack
    && forall p :: p >= c ==> GainsAtMost(w, maxRate, p)
  }

  ghost predicate GainsAtMost(w: nat -> nat, maxRate: nat, p: nat) { w(p + 1) <= w(p) + maxRate }

  lemma {:induction false} Growth(w: nat -> nat, c: nat, start: nat, maxRate: nat, slack: nat, p: nat, n: nat)
    requires Bounded(w, c, start, maxRate, slack) && p >= c
    ensures w(p + n) <= w(p) + n * maxRate
    decreases n
  {
    if n > 0 {
      Growth(w, c, start, maxRate, slack, p, n - 1);
      assert GainsAtMost(w, maxRate, p + n - 1);
      assert n * maxRate == (n - 1) * maxRate + maxRate;
    }
  }

  /** No phase after `c` and before `k` has reached the target; in `k` it is passed by at most one
      phase's gain. */
  ghost predicate WellTimed(w: nat -> nat, c: nat, target: nat, maxRate: nat, k: nat) {
    (forall r :: c < r < k ==> w(r) < target) && w(k) <= target + maxRate
  }

  lemma PaceFits(distance: nat, maxRate: nat)
    requires maxRate > 0
    ensures distance >= maxRate ==> Pace(distance, maxRate) * maxRate <= distance
    ensures distance < maxRate ==> Pace(distance, maxRate) == 1
    ensures distance < Pace(distance, maxRate) * maxRate + maxRate
  {
    var k := distance / maxRate;
    assert distance == k * maxRate + distance % maxRate;
    if distance >= maxRate { DivMonotone(maxRate, distance, maxRate); DivUnique(maxRate, maxRate, 1); }
    else { DivUnique(distance, maxRate, 0); }
  }

  /** A call short of the target waits just so long that the target cannot be reached before the next
      call but one phase earlier than it. */
  lemma NextCall(w: nat -> nat, c: nat, start: nat, target: nat, maxRate: nat, slack: nat, p: nat)
    requires maxRate > 0 && Bounded(w, c, start, maxRate, slack) && p > c
    requires WellTimed(w, c, target, maxRate, p) && w(p) < target
    ensures WellTimed(w, c, target, maxRate, p + Pace(target - w(p), maxRate))
  {
    var k := Pace(target - w(p), maxRate);
    PaceFits(target - w(p), maxRate);
    forall r | p < r < p + k
      ensures w(r) < target
    {
      Growth(w, c, start, maxRate, slack, p, r - p);
      MulMonotone(r - p + 1, k, maxRate);
      assert (r - p + 1) * maxRate == (r - p) * maxRate + maxRate;
    }
    Growth(w, c, start, maxRate, slack, p + k - 1, 1);
  }

  /** When the first wait, computed from the value at insertion, is right for every counter. */
  ghost predicate FirstWaitFits(distance: nat, maxRate: nat, slack: nat)
    requires maxRate > 0
  {
    if distance < maxRate then slack <= distance
    else distance < 2 * maxRate || slack < maxRate || distance % maxRate != 0
  }

  lemma FirstWaitBefore(distance: nat, maxRate: nat, slack: nat, n: nat)
    requires 0 < maxRate && slack <= maxRate && FirstWaitFits(distance, maxRate, slack)
    requires 0 < n < Pace(distance, maxRate)
    ensures slack + n * maxRate < distance
  {
    var k := Pace(distance, maxRate);
    PaceFits(distance, maxRate);
    MulMonotone(n + 1, k, maxRate);
    MulMonotone(2, k, maxRate);
    assert (n + 1) * maxRate == n * maxRate + maxRate;
    assert distance == k * maxRate + distance % maxRate;
  }

  lemma FirstCall(w: nat -> nat, c: nat, start: nat, target: nat, maxRate: nat, slack: nat)
    requires 0 < maxRate && slack <= maxRate && start <= target
    requires Bounded(w, c, start, maxRate, slack) && FirstWaitFits(target - start, maxRate, slack)
    ensures WellTimed(w, c, target, maxRate, c + Pace(target - start, maxRate))
  {
    var k := Pace(target - start, maxRate);
    forall r | c < r < c + k
      ensures w(r) < target
    {
      Growth(w, c, start, maxRate, slack, c, r - c);
      FirstWaitBefore(target - start, maxRate, slack, r - c);
    }
    Growth(w, c, start, maxRate, slack, c, k);
    PaceFits(target - start, maxRate);
  }

  /** The fastest counter the bounds allow. */
  ghost function Fastest(c: nat, start: nat, maxRate: nat, slack: nat): nat -> nat {
    p => if p < c then start else start + slack + (p - c) * maxRate
  }

  lemma FastestBounded(c: nat, start: nat, maxRate: nat, slack: nat)
    ensures Bounded(Fastest(c, start, maxRate, slack), c, start, maxRate, slack)
  {
    forall p: nat | p >= c
      ensures GainsAtMost(Fastest(c, start, maxRate, slack), maxRate, p)
    {
      assert (p + 1 - c) * maxRate == (p - c) * maxRate + maxRate;
    }
  }

  /** The fastest counter defeats a first wait that does not fit. */
  lemma FirstWaitFails(c: nat, start: nat, target: nat, maxRate: nat, slack: nat)
    requires 0 < maxRate && slack <= maxRate && start <= target && !FirstWaitFits(target - start, maxRate, slack)
    ensures !WellTimed(Fastest(c, start, maxRate, slack), c, target, maxRate, c + Pace(target - start, maxRate))
  {
    var d := target - start;
    var w := Fastest(c, start, maxRate, slack);
    var k := Pace(d, maxRate);
    PaceFits(d, maxRate);
    if d < maxRate {
      assert w(c + k) == start + slack + maxRate;
    } else {
      var m := d / maxRate;
      assert d == m * maxRate + d % maxRate;
      if m < 2 { MulMonotone(m, 1, maxRate); }
      assert k == m && (k - 1) * maxRate + maxRate == k * maxRate;
      assert w(c + k - 1) == target;
    }
  }

  /** The first call is well timed for every counter within the bounds exactly when the wait fits. */
  lemma FirstWaitIff(c: nat, start: nat, target: nat, maxRate: nat, slack: nat)
    requires 0 < maxRate && slack <= maxRate && start <= target
    ensures FirstWaitFits(target - start, maxRate, slack) <==>
      (forall w: nat -> nat :: Bounded(w, c, start, maxRate, slack) ==>
        WellTimed(w, c, target, maxRate, c + Pace(target - start, maxRate)))
  {
    if FirstWaitFits(target - start, maxRate, slack) {
      forall w: nat -> nat | Bounded(w, c, start, maxRate, slack)
        ensures WellTimed(w, c, target, maxRate, c + Pace(target - start, maxRate))
      {
        FirstCall(w, c, start, target, maxRate, slack);
      }
    } else {
      FastestBounded(c, start, maxRate, slack);
      FirstWaitFails(c, start, target, maxRate, slack);
    }
  }

  // ------------------------------------------------------------------ the event in a run of the queue

  /** The event `e` is inserted once, in phase `c`, as insertion `j`, with the delay `delay`. */
  ghost predicate InsertedAs(run: seq<seq<(int, Event)>>, c: nat, j: nat, delay: int, e: Event) {
    && ValidRun(run) && c < |run| && j < |run[c]| && run[c][j] == (delay, e)
    && forall p, i :: 0 <= p < |run| && 0 <= i < |run[p]| && (p != c || i != j) ==> run[p][i].1.id != e.id
  }

  /** ... with the default delay. */
  ghost predicate InsertedOnce(run: seq<seq<(int, Event)>>, c: nat, j: nat, e: Event) {
    InsertedAs(run, c, j, -1, e)
  }

  lemma {:induction false} NotSeen(run: seq<seq<(int, Event)>>, v: (nat, nat) -> nat, id: nat)
    requires ValidRun(run)
    requires forall p, i :: 0 <= p < |run| && 0 <= i < |run[p]| ==> run[p][i].1.id != id
    ensures Of(Run(run, v).queue, id) == [] && FiredOf(Run(run, v).log, id) == []
    decreases |run|
  {
    if run != [] {
      var p := |run| - 1;
      NotSeen(run[..p], v, id);
      var s := Run(run[..p], v);
      InsertAllOther(s.queue, p, run[p], id);
      InsertAllValid(s.queue, p, run[p]);
      TickUntouched(s.(queue := InsertAll(s.queue, p, run[p])), p, v, id);
    }
  }

  ghost predicate SameWatch(e: Event, e': Event) {
    e'.id == e.id && e'.adaptive && e'.target == e.target && e'.maxRate == e.maxRate
  }

  /** Still waiting: due in a well timed phase not yet over, and not fired. */
  ghost predicate Waiting(entries: seq<(nat, Event)>, fires: seq<Fire>, w: nat -> nat, c: nat, e: Event, phase: nat) {
    && fires == [] && |entries| == 1
    && SameWatch(e, entries[0].1)
    && entries[0].0 >= phase && entries[0].0 > c
    && WellTimed(w, c, e.target, e.maxRate, entries[0].0)
  }

  /** Fired once, in the first phase after `c` whose counter reached the target, by at most one phase's
      gain too late; and gone from the queue. */
  ghost predicate Fired(entries: seq<(nat, Event)>, fires: seq<Fire>, w: nat -> nat, c: nat, e: Event, phase: nat) {
    && entries == [] && |fires| == 1
    && c < fires[0].phase < phase
    && w(fires[0].phase) >= e.target
    && fires[0].over == w(fires[0].phase) - e.target <= e.maxRate
    && forall r :: c < r < fires[0].phase ==> w(r) < e.target
  }

  ghost predicate Tracked(entries: seq<(nat, Event)>, fires: seq<Fire>, w: nat -> nat, c: nat, e: Event, phase: nat) {
    Waiting(entries, fires, w, c, e, phase) || Fired(entries, fires, w, c, e, phase)
  }

  /** The facts about the event and its counter. */
  ghost predicate Watches(e: Event, v: (nat, nat) -> nat, w: nat -> nat, c: nat, start: nat, slack: nat) {
    && e.adaptive && e.maxRate > 0 && slack <= e.maxRate && start <= e.target
    && e.period == Pace(e.target - start, e.maxRate)
    && (forall p: nat :: w(p) == v(p, e.id))
    && Bounded(w, c, start, e.maxRate, slack)
    && FirstWaitFits(e.target - start, e.maxRate, slack)
  }

  lemma CallTracks(k: nat, e': Event, v: (nat, nat) -> nat, w: nat -> nat, c: nat, start: nat, slack: nat, e: Event)
    requires Watches(e, v, w, c, start, slack) && Waiting([(k, e')], [], w, c, e, k)
    ensures Tracked(Again(e', k, w(k)), Fires(e', k, w(k)), w, c, e, k + 1)
  {
    if w(k) < e.target { NextCall(w, c, start, e.target, e.maxRate, slack, k); }
  }

  lemma TickTracks(s: Sim, v: (nat, nat) -> nat, w: nat -> nat, c: nat, start: nat, slack: nat, e: Event, phase: nat)
    requires Watches(e, v, w, c, start, slack) && ValidQueue(s.queue) && Sorted(s.queue) && From(s.queue, phase)
    requires Tracked(Of(s.queue, e.id), FiredOf(s.log, e.id), w, c, e, phase)
    ensures Tracked(Of(Tick(s, phase, v).queue, e.id), FiredOf(Tick(s, phase, v).log, e.id), w, c, e, phase + 1)
  {
    var entries, fires := Of(s.queue, e.id), FiredOf(s.log, e.id);
    if |entries| == 1 && entries[0].0 == phase {
      var e' := entries[0].1;
      assert entries == [(phase, e')];
      TickCalls(s, phase, v, e');
      CallTracks(phase, e', v, w, c, start, slack, e);
    } else {
      TickUntouched(s, phase, v, e.id);
    }
  }

  lemma NotSeenBefore(run: seq<seq<(int, Event)>>, v: (nat, nat) -> nat, c: nat, j: nat, delay: int, e: Event,
                      before: seq<seq<(int, Event)>>)
    requires InsertedAs(run, c, j, delay, e) && before == run[..c]
    ensures FiredOf(Run(before, v).log, e.id) == [] && Of(Run(before, v).queue, e.id) == []
  {
    forall p, i | 0 <= p < c && 0 <= i < |before[p]|
      ensures before[p][i].1.id != e.id
    {
      assert before[p] == run[p];
    }
    NotSeen(before, v, e.id);
  }

  /** The event enters a queue that has not seen it: its first call is a period away, or as many phases as
      the insertion says. */
  lemma Enters(run: seq<seq<(int, Event)>>, c: nat, j: nat, delay: int, e: Event, q: seq<(nat, Event)>)
    requires InsertedAs(run, c, j, delay, e) && Of(q, e.id) == []
    ensures Of(InsertAll(q, c, run[c]), e.id) == [(c + if delay == -1 then e.period else delay, e)]
  {
    var ins := run[c];
    assert forall i :: 0 <= i < |ins| && i != j ==> ins[i].1.id != e.id;
    InsertAllNew(q, c, ins, j);
  }

  lemma StartsWaiting(v: (nat, nat) -> nat, w: nat -> nat, c: nat, start: nat, slack: nat, e: Event)
    requires Watches(e, v, w, c, start, slack)
    ensures Waiting([(c + e.period, e)], [], w, c, e, c)
  {
    FirstCall(w, c, start, e.target, e.maxRate, slack);
  }

  lemma InsertTracks(run: seq<seq<(int, Event)>>, v: (nat, nat) -> nat, w: nat -> nat, c: nat, j: nat,
                     start: nat, slack: nat, e: Event, s: Sim)
    requires Watches(e, v, w, c, start, slack) && InsertedOnce(run, c, j, e)
    requires s == Run(run[..c], v)
    ensures ValidQueue(InsertAll(s.queue, c, run[c]))
    ensures var r := Tick(s.(queue := InsertAll(s.queue, c, run[c])), c, v);
      Tracked(Of(r.queue, e.id), FiredOf(r.log, e.id), w, c, e, c + 1)
  {
    NotSeenBefore(run, v, c, j, -1, e, run[..c]);
    Enters(run, c, j, -1, e, s.queue);
    NothingMissed(run[..c], v);
    InsertAllValid(s.queue, c, run[c]);
    InsertAllOrder(s.queue, c, run[c]);
    StartsWaiting(v, w, c, start, slack, e);
    TickTracks(s.(queue := InsertAll(s.queue, c, run[c])), v, w, c, start, slack, e, c);
  }

  /** In every run, among any other events, an adaptive event is still waiting with its target not yet
      reached, or it has fired exactly once, in the first phase that reached the target, and the check
      on the overshoot held. */
  lemma {:induction false} FiresOnceOnTime(run: seq<seq<(int, Event)>>, v: (nat, nat) -> nat, w: nat -> nat,
                                           c: nat, j: nat, start: nat, slack: nat, e: Event)
    requires Watches(e, v, w, c, start, slack) && InsertedOnce(run, c, j, e)
    ensures Tracked(Of(Run(run, v).queue, e.id), FiredOf(Run(run, v).log, e.id), w, c, e, |run|)
    decreases |run|
  {
    if |run| == c + 1 {
      InsertTracks(run, v, w, c, j, start, slack, e, Run(run[..c], v));
    } else {
      var p := |run| - 1;
      FiresOnceOnTime(run[..p], v, w, c, j, start, slack, e);
      var s := Run(run[..p], v);
      NothingMissed(run[..p], v);
      InsertAllValid(s.queue, p, run[p]);
      InsertAllOrder(s.queue, p, run[p]);
      InsertAllOther(s.queue, p, run[p], e.id);
      TickTracks(s.(queue := InsertAll(s.queue, p, run[p])), v, w, c, start, slack, e, p);
    }
  }

  /** So the event has fired if and only if its counter has reached the target in some phase since. */
  lemma FiredIffReached(run: seq<seq<(int, Event)>>, v: (nat, nat) -> nat, w: nat -> nat,
                        c: nat, j: nat, start: nat, slack: nat, e: Event)
    requires Watches(e, v, w, c, start, slack) && InsertedOnce(run, c, j, e)
    ensures Fired(Of(Run(run, v).queue, e.id), FiredOf(Run(run, v).log, e.id), w, c, e, |run|) <==>
      exists q :: c < q < |run| && w(q) >= e.target
  {
    FiresOnceOnTime(run, v, w, c, j, start, slack, e);
  }
}

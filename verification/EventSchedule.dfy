/**
 When an event is called, for every delay it may be inserted with, and the whole schedule of an event
 that keeps its period.
 */
module EventSchedule {
  import opened EventModel
  import opened EventSafety
  import opened EventTiming

  /** What the queue and the log say of event `id` after a run. */
  ghost function Entries(run: seq<seq<(int, Event)>>, v: (nat, nat) -> nat, id: nat): seq<(nat, Event)>
    requires ValidRun(run)
  {
    Of(Run(run, v).queue, id)
  }

  ghost function Calls(run: seq<seq<(int, Event)>>, v: (nat, nat) -> nat, id: nat): seq<Fire>
    requires ValidRun(run)
  {
    FiredOf(Run(run, v).log, id)
  }

  /** One more phase, in which the event is not inserted: nothing happens to it unless it is due. */
  lemma PhasePasses(run: seq<seq<(int, Event)>>, v: (nat, nat) -> nat, e: Event, due: nat, p: nat)
    requires ValidRun(run) && |run| == p + 1 && ValidEvent(e)
    requires forall i :: 0 <= i < |run[p]| ==> run[p][i].1.id != e.id
    requires Entries(run[..p], v, e.id) == [(due, e)] && due >= p
    ensures due > p ==> Entries(run, v, e.id) == [(due, e)] && Calls(run, v, e.id) == Calls(run[..p], v, e.id)
    ensures due == p ==> Entries(run, v, e.id) == Again(e, p, v(p, e.id))
    ensures due == p ==> Calls(run, v, e.id) == Calls(run[..p], v, e.id) + Fires(e, p, v(p, e.id))
  {
    var s := Run(run[..p], v);
    NothingMissed(run[..p], v);
    InsertAllValid(s.queue, p, run[p]);
    InsertAllOrder(s.queue, p, run[p]);
    InsertAllOther(s.queue, p, run[p], e.id);
    TickPasses(s.(queue := InsertAll(s.queue, p, run[p])), v, e, due, p);
  }

  lemma TickPasses(s: Sim, v: (nat, nat) -> nat, e: Event, due: nat, p: nat)
    requires ValidQueue(s.queue) && Sorted(s.queue) && From(s.queue, p) && ValidEvent(e)
    requires Of(s.queue, e.id) == [(due, e)] && due >= p
    ensures var r := Tick(s, p, v);
      if due > p then Of(r.queue, e.id) == [(due, e)] && FiredOf(r.log, e.id) == FiredOf(s.log, e.id)
      else
        && Of(r.queue, e.id) == Again(e, p, v(p, e.id))
        && FiredOf(r.log, e.id) == FiredOf(s.log, e.id) + Fires(e, p, v(p, e.id))
  {
    if due > p { TickUntouched(s, p, v, e.id); } else { TickCalls(s, p, v, e); }
  }

  /** No entry, no call. */
  lemma NothingPasses(run: seq<seq<(int, Event)>>, v: (nat, nat) -> nat, id: nat, p: nat)
    requires ValidRun(run) && |run| == p + 1
    requires forall i :: 0 <= i < |run[p]| ==> run[p][i].1.id != id
    requires Entries(run[..p], v, id) == []
    ensures Entries(run, v, id) == [] && Calls(run, v, id) == Calls(run[..p], v, id)
  {
    var s := Run(run[..p], v);
    InsertAllValid(s.queue, p, run[p]);
    InsertAllOther(s.queue, p, run[p], id);
    TickUntouched(s.(queue := InsertAll(s.queue, p, run[p])), p, v, id);
  }

  /** The phase of insertion itself. */
  lemma PhaseOfInsertion(run: seq<seq<(int, Event)>>, v: (nat, nat) -> nat, c: nat, j: nat, delay: int, e: Event,
                         due: nat)
    requires InsertedAs(run, c, j, delay, e) && |run| == c + 1 && due == c + if delay == -1 then e.period else delay
    ensures due > c ==> Entries(run, v, e.id) == [(due, e)] && Calls(run, v, e.id) == []
    ensures due == c ==> Entries(run, v, e.id) == Again(e, c, v(c, e.id))
    ensures due == c ==> Calls(run, v, e.id) == Fires(e, c, v(c, e.id))
  {
    var s := Run(run[..c], v);
    NotSeenBefore(run, v, c, j, delay, e, run[..c]);
    Enters(run, c, j, delay, e, s.queue);
    NothingMissed(run[..c], v);
    InsertAllValid(s.queue, c, run[c]);
    InsertAllOrder(s.queue, c, run[c]);
    TickPasses(s.(queue := InsertAll(s.queue, c, run[c])), v, e, due, c);
  }

  lemma ShorterRun(run: seq<seq<(int, Event)>>, c: nat, j: nat, delay: int, e: Event, p: nat)
    requires InsertedAs(run, c, j, delay, e) && c < p < |run|
    ensures InsertedAs(run[..p], c, j, delay, e)
    ensures forall i :: 0 <= i < |run[p]| ==> run[p][i].1.id != e.id
  {
  }

  /** An event inserted in phase `c` is first called in the phase that the insertion names: a period later
      by default, `delay` phases later otherwise, in the same phase for 0.  Until then it waits. */
  lemma {:induction false} FirstCallWhen(run: seq<seq<(int, Event)>>, v: (nat, nat) -> nat, c: nat, j: nat,
                                         delay: int, e: Event, due: nat)
    requires InsertedAs(run, c, j, delay, e) && due == c + if delay == -1 then e.period else delay
    ensures |run| <= due ==> Entries(run, v, e.id) == [(due, e)] && Calls(run, v, e.id) == []
    ensures |run| == due + 1 ==> Entries(run, v, e.id) == Again(e, due, v(due, e.id))
    ensures |run| == due + 1 ==> Calls(run, v, e.id) == Fires(e, due, v(due, e.id))
    decreases |run|
  {
    if |run| <= due + 1 {
      if |run| == c + 1 {
        PhaseOfInsertion(run, v, c, j, delay, e, due);
      } else {
        var p := |run| - 1;
        ShorterRun(run, c, j, delay, e, p);
        FirstCallWhen(run[..p], v, c, j, delay, e, due);
        PhasePasses(run, v, e, due, p);
      }
    }
  }

  // ------------------------------------------------------------------ events that keep their period

  /** The phase of call number `k`. */
  function CallPhase(first: nat, period: nat, k: nat): nat {
    first + k * period
  }

  /** After `n` phases: called in `first` and every period after it, and due next in the phase after that. */
  ghost predicate OnSchedule(entries: seq<(nat, Event)>, calls: seq<Fire>, first: nat, e: Event, n: nat) {
    var next := CallPhase(first, e.period, |calls|);
    && (forall k :: 0 <= k < |calls| ==> calls[k] == Fire(CallPhase(first, e.period, k), e.id, 0))
    && (forall k :: 0 <= k < |calls| ==> calls[k].phase < n)
    && (if e.period == 0 && calls != [] then entries == [] && |calls| == 1 else entries == [(next, e)] && next >= n)
  }

  lemma CalledOnSchedule(calls: seq<Fire>, first: nat, e: Event, p: nat, v: (nat, nat) -> nat)
    requires !e.adaptive && OnSchedule([(p, e)], calls, first, e, p) && p == CallPhase(first, e.period, |calls|)
    ensures OnSchedule(Again(e, p, v(p, e.id)), calls + Fires(e, p, v(p, e.id)), first, e, p + 1)
  {
    var k := |calls|;
    assert CallPhase(first, e.period, k + 1) == CallPhase(first, e.period, k) + e.period by {
      assert (k + 1) * e.period == k * e.period + e.period;
    }
    if e.period == 0 { assert k == 0; }
  }

  lemma UncalledOnSchedule(entries: seq<(nat, Event)>, calls: seq<Fire>, first: nat, e: Event, p: nat)
    requires OnSchedule(entries, calls, first, e, p) && entries != [(p, e)]
    ensures OnSchedule(entries, calls, first, e, p + 1)
  {
  }

  /** A plain event is called in the phase its insertion names and then every period, for ever, or just
      once if it has none; and in no other phase. */
  lemma {:induction false} PlainEventSchedule(run: seq<seq<(int, Event)>>, v: (nat, nat) -> nat, c: nat, j: nat,
                                              delay: int, e: Event, first: nat)
    requires InsertedAs(run, c, j, delay, e) && !e.adaptive && first == c + if delay == -1 then e.period else delay
    ensures OnSchedule(Entries(run, v, e.id), Calls(run, v, e.id), first, e, |run|)
    decreases |run|
  {
    var p := |run| - 1;
    if p == c {
      PhaseOfInsertion(run, v, c, j, delay, e, first);
      InsertedOnSchedule(v, e, first, c);
    } else {
      ShorterRun(run, c, j, delay, e, p);
      PlainEventSchedule(run[..p], v, c, j, delay, e, first);
      var entries, calls := Entries(run[..p], v, e.id), Calls(run[..p], v, e.id);
      if entries == [] {
        NothingPasses(run, v, e.id, p);
        UncalledOnSchedule(entries, calls, first, e, p);
      } else {
        var due := entries[0].0;
        PhasePasses(run, v, e, due, p);
        if due == p {
          CalledOnSchedule(calls, first, e, p, v);
        } else {
          UncalledOnSchedule(entries, calls, first, e, p);
        }
      }
    }
  }

  lemma InsertedOnSchedule(v: (nat, nat) -> nat, e: Event, first: nat, c: nat)
    requires !e.adaptive && first >= c
    ensures first > c ==> OnSchedule([(first, e)], [], first, e, c + 1)
    ensures first == c ==> OnSchedule(Again(e, c, v(c, e.id)), Fires(e, c, v(c, e.id)), first, e, c + 1)
  {
    if first == c {
      CalledOnSchedule([], first, e, c, v);
      assert [] + Fires(e, c, v(c, e.id)) == Fires(e, c, v(c, e.id));
    }
  }
}

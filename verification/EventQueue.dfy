/**
 The events and the queue as objects, step by step.
 */
module EventQueue {
  import opened EventModel

  class QueuedEvent {
    const id: nat
    const adaptive: bool
    const target: nat
    const maxRate: nat
    var period: nat

    ghost function View(): Event
      reads `period
    {
      Event(id, adaptive, target, maxRate, period)
    }

    constructor Plain(id: nat, period: nat)
      ensures View() == Event(id, false, 0, 0, period)
    {
      this.id, adaptive, target, maxRate, this.period := id, false, 0, 0, period;
    }

    constructor Adaptive(id: nat, start: nat, target: nat, maxRate: nat)
      requires target >= start && maxRate > 0
      ensures View() == Event(id, true, target, maxRate, Pace(target - start, maxRate))
    {
      this.id, adaptive, this.target, this.maxRate := id, true, target, maxRate;
      period := (target - start) / maxRate;
      if (target - start) / maxRate == 0 { period := 1; }
    }

    method Callback(phase: nat, cur: nat) returns (fires: seq<Fire>)
      requires ValidEvent(View())
      modifies `period
      ensures View() == Call(old(View()), cur)
      ensures fires == Fires(old(View()), phase, cur)
    {
      if !adaptive { return [Fire(phase, id, 0)]; }
      if cur >= target {
        fires := [Fire(phase, id, cur - target)];
        period := 0;
      } else {
        fires := [];
        period := (target - cur) / maxRate;
        if period == 0 { period := 1; }
      }
    }
  }

  ghost function Values(q: seq<(nat, QueuedEvent)>): (r: seq<(nat, Event)>)
    reads set i | 0 <= i < |q| :: q[i].1
    ensures |r| == |q| && forall i :: 0 <= i < |q| ==> r[i] == (q[i].0, q[i].1.View())
  {
    seq(|q|, i requires 0 <= i < |q| reads set i | 0 <= i < |q| :: q[i].1 => (q[i].0, q[i].1.View()))
  }

  ghost predicate DistinctEvents(q: seq<(nat, QueuedEvent)>) {
    forall i, j :: 0 <= i < j < |q| ==> q[i].1 != q[j].1
  }

  ghost predicate NotIn(q: seq<(nat, QueuedEvent)>, e: QueuedEvent) {
    forall i :: 0 <= i < |q| ==> q[i].1 != e
  }

  lemma ValuesCons(x: (nat, QueuedEvent), q: seq<(nat, QueuedEvent)>)
    ensures Values([x] + q) == [(x.0, x.1.View())] + Values(q)
  {
  }

  lemma {:induction false} InsertValues(q: seq<(nat, QueuedEvent)>, k: nat, e: QueuedEvent)
    ensures Values(Insert(q, k, e)) == Insert(Values(q), k, e.View())
  {
    if q == [] || q[0].0 > k {
      ValuesCons((k, e), q);
    } else {
      assert q == [q[0]] + q[1..];
      ValuesCons(q[0], q[1..]);
      assert Values(q)[1..] == Values(q[1..]);
      InsertValues(q[1..], k, e);
      ValuesCons(q[0], Insert(q[1..], k, e));
    }
  }

  lemma {:induction false} InsertMembers(q: seq<(nat, QueuedEvent)>, k: nat, e: QueuedEvent)
    requires DistinctEvents(q) && NotIn(q, e)
    ensures DistinctEvents(Insert(q, k, e))
    ensures forall i :: 0 <= i < |Insert(q, k, e)| ==> Insert(q, k, e)[i].1 == e || Insert(q, k, e)[i] in q
  {
    if q != [] && q[0].0 <= k {
      InsertMembers(q[1..], k, e);
      var r := Insert(q[1..], k, e);
      forall j | 0 <= j < |r|
        ensures r[j].1 != q[0].1
      {
        assert r[j].1 == e || r[j] in q[1..];
      }
    }
  }

  class Queue {
    var evMap: seq<(nat, QueuedEvent)>
    var log: seq<Fire>
    var ok: bool
    ghost var events: set<QueuedEvent>

    ghost predicate Valid()
      reads this, events
    {
      && DistinctEvents(evMap)
      && (forall i :: 0 <= i < |evMap| ==> evMap[i].1 in events && ValidEvent(evMap[i].1.View()))
    }

    ghost function View(): Sim
      requires Valid()
      reads this, events
    {
      Sim(Values(evMap), log, ok)
    }

    constructor ()
      ensures Valid() && View() == Sim([], [], true) && events == {}
    {
      evMap, log, ok, events := [], [], true, {};
    }

    /** Puts a called event back in its place if it keeps a period. */
    method Put(phase: nat, ev: QueuedEvent)
      requires Valid() && ev in events && ValidEvent(ev.View())
      requires NotIn(evMap, ev)
      modifies `evMap
      ensures Valid() && View() == PutBack(old(View()), phase, ev.View())
    {
      if ev.period == 0 { return; }
      var q := Insert(evMap, phase + ev.period, ev);
      InsertValues(evMap, phase + ev.period, ev);
      InsertMembers(evMap, phase + ev.period, ev);
      forall i | 0 <= i < |q|
        ensures q[i].1 in events && ValidEvent(q[i].1.View())
      {
      }
      evMap := q;
    }

    method Add(phase: nat, ev: QueuedEvent, startDelay: int)
      requires Valid() && startDelay >= -1 && ev !in events && ValidEvent(ev.View())
      modifies this
      ensures Valid() && events == old(events) + {ev}
      ensures View() == old(View()).(queue :=
        Insert(old(View()).queue, DuePhase(phase, startDelay, ev.View()), ev.View()))
    {
      var k := if startDelay == -1 then phase + ev.period else phase + startDelay;
      InsertValues(evMap, k, ev);
      InsertMembers(evMap, k, ev);
      evMap := Insert(evMap, k, ev);
      events := events + {ev};
    }

    /** Takes the first event out and calls it. */
    method CallFirst(phase: nat, v: (nat, nat) -> nat) returns (ev: QueuedEvent)
      requires Valid() && evMap != []
      modifies `evMap, `log, `ok, events`period
      ensures Valid() && ev == old(evMap[0].1) && ev in events && NotIn(evMap, ev) && ValidEvent(ev.View())
      ensures var e := old(View()).queue[0].1; ev.View() == Call(e, v(phase, e.id))
      ensures View() == Called(old(View()), phase, v)
    {
      ev := evMap[0].1;
      if evMap[0].0 != phase { ok := false; }
      evMap := evMap[1..];
      var fires := ev.Callback(phase, v(phase, ev.id));
      log := log + fires;
      forall i | 0 <= i < |evMap|
        ensures evMap[i].1.View() == old(evMap[i + 1].1.View())
      {
        assert old(evMap[i + 1]).1 != ev;
      }
    }

    method StepFirst(phase: nat, v: (nat, nat) -> nat)
      requires Valid() && evMap != [] && ValidQueue(View().queue)
      modifies `evMap, `log, `ok, events`period
      ensures Valid() && View() == Step(old(View()), phase, v)
    {
      var ev := CallFirst(phase, v);
      Put(phase, ev);
    }

    /** Calls every event that is due by the end of the phase. */
    method TickAt(phase: nat, v: (nat, nat) -> nat)
      requires Valid() && ValidQueue(View().queue)
      modifies `evMap, `log, `ok, events`period
      ensures Valid() && View() == Tick(old(View()), phase, v)
    {
      while evMap != [] && evMap[0].0 <= phase
        invariant Valid() && ValidQueue(View().queue)
        invariant Tick(View(), phase, v) == old(Tick(View(), phase, v))
        decreases Due(View().queue, phase)
      {
        StepDue(View(), phase, v);
        StepFirst(phase, v);
      }
    }
  }
}

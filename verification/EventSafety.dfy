/**
 No event is missed, and an adaptive event fires once, in the right phase.
 */
module EventSafety {
  import opened EventModel

  // ------------------------------------------------------------------ order: nothing is missed

  ghost predicate From(q: seq<(nat, Event)>, phase: nat) {
    forall i :: 0 <= i < |q| ==> q[i].0 >= phase
  }

  lemma {:induction false} InsertOrder(q: seq<(nat, Event)>, k: nat, e: Event, phase: nat)
    requires Sorted(q) && From(q, phase) && k >= phase
    ensures Sorted(Insert(q, k, e)) && From(Insert(q, k, e), phase)
    ensures q != [] && q[0].0 <= k ==> Insert(q, k, e)[0] == q[0]
  {
    if q != [] && q[0].0 <= k {
      assert From(q[1..], q[0].0);
      InsertOrder(q[1..], k, e, q[0].0);
    }
  }

  /** An event waits behind all that are due no later than it, in the order in which they came. */
  lemma {:induction false} InsertWhere(q: seq<(nat, Event)>, k: nat, e: Event) returns (i: nat)
    requires Sorted(q)
    ensures i <= |q| && Insert(q, k, e) == q[..i] + [(k, e)] + q[i..]
    ensures (forall j :: 0 <= j < i ==> q[j].0 <= k) && (forall j :: i <= j < |q| ==> q[j].0 > k)
    decreases |q|
  {
    if q == [] || q[0].0 > k {
      i := 0;
      assert q[..0] + [(k, e)] + q[0..] == [(k, e)] + q;
    } else {
      var n := InsertWhere(q[1..], k, e);
      i := n + 1;
      assert [q[0]] + (q[1..][..n] + [(k, e)] + q[1..][n..]) == q[..i] + [(k, e)] + q[i..];
    }
  }

  lemma StepOrder(s: Sim, phase: nat, v: (nat, nat) -> nat)
    requires ValidQueue(s.queue) && s.queue != [] && Sorted(s.queue) && From(s.queue, phase)
    ensures Sorted(Step(s, phase, v).queue) && From(Step(s, phase, v).queue, phase)
  {
    var e' := Call(s.queue[0].1, v(phase, s.queue[0].1.id));
    if e'.period != 0 { InsertOrder(s.queue[1..], phase + e'.period, e', phase); }
  }

  /** A tick that finds no event overdue leaves none due, and panics on none. */
  lemma {:induction false} TickOrder(s: Sim, phase: nat, v: (nat, nat) -> nat)
    requires ValidQueue(s.queue) && Sorted(s.queue) && From(s.queue, phase)
    ensures var r := Tick(s, phase, v); Sorted(r.queue) && From(r.queue, phase + 1) && r.ok == s.ok
    decreases Due(s.queue, phase)
  {
    if s.queue != [] && s.queue[0].0 <= phase {
      StepDue(s, phase, v);
      StepOrder(s, phase, v);
      TickOrder(Step(s, phase, v), phase, v);
    }
  }

  /** An event overdue at a tick makes it panic. */
  lemma {:induction false} TickPanics(s: Sim, phase: nat, v: (nat, nat) -> nat)
    requires ValidQueue(s.queue) && (!s.ok || (s.queue != [] && s.queue[0].0 < phase))
    ensures !Tick(s, phase, v).ok
    decreases Due(s.queue, phase)
  {
    if s.queue != [] && s.queue[0].0 <= phase {
      StepDue(s, phase, v);
      TickPanics(Step(s, phase, v), phase, v);
    }
  }

  lemma {:induction false} InsertAllOrder(q: seq<(nat, Event)>, phase: nat, ins: seq<(int, Event)>)
    requires Sorted(q) && From(q, phase) && ValidInserts(ins)
    ensures Sorted(InsertAll(q, phase, ins)) && From(InsertAll(q, phase, ins), phase)
    decreases |ins|
  {
    if ins != [] {
      var k := |ins| - 1;
      InsertAllOrder(q, phase, ins[..k]);
      InsertOrder(InsertAll(q, phase, ins[..k]), DuePhase(phase, ins[k].0, ins[k].1), ins[k].1, phase);
    }
  }

  /** In every run with a tick in each phase, whatever is inserted, no event is ever met late. */
  lemma {:induction false} NothingMissed(run: seq<seq<(int, Event)>>, v: (nat, nat) -> nat)
    requires ValidRun(run)
    ensures Run(run, v).ok && Sorted(Run(run, v).queue) && From(Run(run, v).queue, |run|)
    decreases |run|
  {
    if run != [] {
      var p := |run| - 1;
      NothingMissed(run[..p], v);
      var s := Run(run[..p], v);
      InsertAllOrder(s.queue, p, run[p]);
      InsertAllValid(s.queue, p, run[p]);
      TickOrder(s.(queue := InsertAll(s.queue, p, run[p])), p, v);
    }
  }

  // ------------------------------------------------------------------ following one event

  ghost function Of(q: seq<(nat, Event)>, id: nat): seq<(nat, Event)> {
    if q == [] then [] else (if q[0].1.id == id then [q[0]] else []) + Of(q[1..], id)
  }

  ghost function FiredOf(log: seq<Fire>, id: nat): seq<Fire> {
    if log == [] then []
    else FiredOf(log[..|log| - 1], id) + if log[|log| - 1].id == id then [log[|log| - 1]] else []
  }

  lemma {:induction false} OfInsertOther(q: seq<(nat, Event)>, k: nat, e: Event, id: nat)
    requires e.id != id
    ensures Of(Insert(q, k, e), id) == Of(q, id)
  {
    if q == [] || q[0].0 > k {
      assert Insert(q, k, e)[1..] == q;
    } else {
      assert Insert(q, k, e)[1..] == Insert(q[1..], k, e);
      OfInsertOther(q[1..], k, e, id);
    }
  }

  lemma {:induction false} OfInsertNew(q: seq<(nat, Event)>, k: nat, e: Event)
    requires Of(q, e.id) == []
    ensures Of(Insert(q, k, e), e.id) == [(k, e)]
  {
    if q == [] || q[0].0 > k {
      assert Insert(q, k, e)[1..] == q;
    } else {
      assert Insert(q, k, e)[1..] == Insert(q[1..], k, e);
      OfInsertNew(q[1..], k, e);
    }
  }

  lemma {:induction false} OfBelongs(q: seq<(nat, Event)>, id: nat, x: (nat, Event))
    requires x in Of(q, id)
    ensures x in q && x.1.id == id
  {
    if q[0].1.id != id || x != q[0] { OfBelongs(q[1..], id, x); }
  }

  lemma FiredOfFires(log: seq<Fire>, e: Event, phase: nat, cur: nat, id: nat)
    ensures FiredOf(log + Fires(e, phase, cur), id) ==
      FiredOf(log, id) + if e.id == id then Fires(e, phase, cur) else []
  {
    var f := Fires(e, phase, cur);
    if f == [] { assert log + f == log; } else { assert (log + f)[..|log|] == log; }
  }

  lemma PutBackOther(s: Sim, phase: nat, e: Event, id: nat)
    requires e.id != id
    ensures Of(PutBack(s, phase, e).queue, id) == Of(s.queue, id) && PutBack(s, phase, e).log == s.log
  {
    if e.period != 0 { OfInsertOther(s.queue, phase + e.period, e, id); }
  }

  lemma PutBackOwn(s: Sim, phase: nat, e: Event)
    requires Of(s.queue, e.id) == []
    ensures Of(PutBack(s, phase, e).queue, e.id) == if e.period == 0 then [] else [(phase + e.period, e)]
    ensures PutBack(s, phase, e).log == s.log
  {
    if e.period != 0 { OfInsertNew(s.queue, phase + e.period, e); }
  }

  /** What the call of the first event does to the entries of another one. */
  lemma StepOther(s: Sim, phase: nat, v: (nat, nat) -> nat, e': Event, id: nat, r: Sim)
    requires s.queue != [] && s.queue[0].1.id == e'.id != id && r == PutBack(Called(s, phase, v), phase, e')
    ensures Of(r.queue, id) == Of(s.queue, id) && FiredOf(r.log, id) == FiredOf(s.log, id)
  {
    var e := s.queue[0].1;
    FiredOfFires(s.log, e, phase, v(phase, e.id), id);
    PutBackOther(Called(s, phase, v), phase, e', id);
  }

  lemma StepOf(s: Sim, phase: nat, v: (nat, nat) -> nat, id: nat)
    requires ValidQueue(s.queue) && s.queue != [] && s.queue[0].1.id != id
    ensures Of(Step(s, phase, v).queue, id) == Of(s.queue, id)
    ensures FiredOf(Step(s, phase, v).log, id) == FiredOf(s.log, id)
  {
    var e := s.queue[0].1;
    StepOther(s, phase, v, Call(e, v(phase, e.id)), id, Step(s, phase, v));
  }

  lemma HeadIsOther(q: seq<(nat, Event)>, phase: nat, id: nat)
    requires q != [] && q[0].0 <= phase && forall x :: x in Of(q, id) ==> x.0 > phase
    ensures q[0].1.id != id
  {
    assert q[0] in [q[0]] + Of(q[1..], id);
  }

  lemma {:induction false} TickUntouched(s: Sim, phase: nat, v: (nat, nat) -> nat, id: nat)
    requires ValidQueue(s.queue) && (forall x :: x in Of(s.queue, id) ==> x.0 > phase)
    ensures Of(Tick(s, phase, v).queue, id) == Of(s.queue, id)
    ensures FiredOf(Tick(s, phase, v).log, id) == FiredOf(s.log, id)
    decreases Due(s.queue, phase)
  {
    if s.queue != [] && s.queue[0].0 <= phase {
      HeadIsOther(s.queue, phase, id);
      StepDue(s, phase, v);
      StepOf(s, phase, v, id);
      TickUntouched(Step(s, phase, v), phase, v, id);
    }
  }

  /** Where an event called in `phase` waits afterwards. */
  ghost function Again(e: Event, phase: nat, cur: nat): seq<(nat, Event)>
    requires ValidEvent(e)
  {
    var e' := Call(e, cur);
    if e'.period == 0 then [] else [(phase + e'.period, e')]
  }

  lemma OfHeadOnly(q: seq<(nat, Event)>, id: nat, x: (nat, Event))
    requires q != [] && q[0].1.id == id && Of(q, id) == [x]
    ensures q[0] == x && Of(q[1..], id) == []
  {
    var rest := Of(q[1..], id);
    assert Of(q, id) == [q[0]] + rest;
    assert |[q[0]] + rest| == 1 + |rest| && ([q[0]] + rest)[0] == q[0];
  }

  /** The event itself is called and put back as `e'`. */
  lemma StepOwn(s: Sim, phase: nat, v: (nat, nat) -> nat, e: Event, e': Event, r: Sim)
    requires s.queue != [] && s.queue[0].1.id == e.id == e'.id && Of(s.queue, e.id) == [(phase, e)]
    requires r == PutBack(Called(s, phase, v), phase, e')
    ensures Of(r.queue, e.id) == if e'.period == 0 then [] else [(phase + e'.period, e')]
    ensures FiredOf(r.log, e.id) == FiredOf(s.log, e.id) + Fires(e, phase, v(phase, e.id))
  {
    OfHeadOnly(s.queue, e.id, (phase, e));
    FiredOfFires(s.log, e, phase, v(phase, e.id), e.id);
    PutBackOwn(Called(s, phase, v), phase, e');
  }

  lemma DueFirst(q: seq<(nat, Event)>, phase: nat, e: Event)
    requires Sorted(q) && Of(q, e.id) == [(phase, e)]
    ensures q != [] && q[0].0 <= phase
  {
    assert (phase, e) in Of(q, e.id);
    OfBelongs(q, e.id, (phase, e));
  }

  lemma TickUnfold(s: Sim, phase: nat, v: (nat, nat) -> nat) returns (r: Sim)
    requires ValidQueue(s.queue) && s.queue != [] && s.queue[0].0 <= phase
    ensures r == Step(s, phase, v) && ValidQueue(r.queue) && Due(r.queue, phase) < Due(s.queue, phase)
    ensures Tick(s, phase, v) == Tick(r, phase, v)
  {
    StepDue(s, phase, v);
    r := Step(s, phase, v);
  }

  lemma OwnCalled(s: Sim, phase: nat, v: (nat, nat) -> nat, e: Event, r: Sim)
    requires ValidQueue(s.queue) && s.queue != [] && s.queue[0] == (phase, e) && Of(s.queue, e.id) == [(phase, e)]
    requires ValidEvent(e) && r == Step(s, phase, v)
    ensures Of(r.queue, e.id) == Again(e, phase, v(phase, e.id))
    ensures FiredOf(r.log, e.id) == FiredOf(s.log, e.id) + Fires(e, phase, v(phase, e.id))
  {
    StepOwn(s, phase, v, e, Call(e, v(phase, e.id)), r);
  }

  /** The first event is called: what is left to do in the tick, seen from the event itself. */
  lemma OwnStep(s: Sim, phase: nat, v: (nat, nat) -> nat, e: Event) returns (r: Sim)
    requires ValidQueue(s.queue) && s.queue != [] && s.queue[0] == (phase, e) && Of(s.queue, e.id) == [(phase, e)]
    requires ValidEvent(e)
    ensures ValidQueue(r.queue) && Tick(s, phase, v) == Tick(r, phase, v)
    ensures Of(r.queue, e.id) == Again(e, phase, v(phase, e.id))
    ensures FiredOf(r.log, e.id) == FiredOf(s.log, e.id) + Fires(e, phase, v(phase, e.id))
  {
    r := TickUnfold(s, phase, v);
    OwnCalled(s, phase, v, e, r);
  }

  /** ... and seen from another one. */
  lemma OtherStep(s: Sim, phase: nat, v: (nat, nat) -> nat, id: nat) returns (r: Sim)
    requires ValidQueue(s.queue) && s.queue != [] && s.queue[0].0 <= phase && s.queue[0].1.id != id
    requires Sorted(s.queue) && From(s.queue, phase)
    ensures ValidQueue(r.queue) && Tick(s, phase, v) == Tick(r, phase, v) && Due(r.queue, phase) < Due(s.queue, phase)
    ensures Sorted(r.queue) && From(r.queue, phase)
    ensures Of(r.queue, id) == Of(s.queue, id) && FiredOf(r.log, id) == FiredOf(s.log, id)
  {
    StepOrder(s, phase, v);
    StepOf(s, phase, v, id);
    r := TickUnfold(s, phase, v);
  }

  lemma AgainLater(e: Event, phase: nat, cur: nat)
    requires ValidEvent(e)
    ensures forall x :: x in Again(e, phase, cur) ==> x.0 > phase
  {
  }

  /** An event that is due is called once in the tick, and waits again if it keeps a period. */
  lemma {:induction false} TickCalls(s: Sim, phase: nat, v: (nat, nat) -> nat, e: Event)
    requires ValidQueue(s.queue) && Sorted(s.queue) && From(s.queue, phase)
    requires ValidEvent(e) && Of(s.queue, e.id) == [(phase, e)]
    ensures Of(Tick(s, phase, v).queue, e.id) == Again(e, phase, v(phase, e.id))
    ensures FiredOf(Tick(s, phase, v).log, e.id) == FiredOf(s.log, e.id) + Fires(e, phase, v(phase, e.id))
    decreases Due(s.queue, phase)
  {
    DueFirst(s.queue, phase, e);
    if s.queue[0].1.id == e.id {
      OfHeadOnly(s.queue, e.id, (phase, e));
      var r := OwnStep(s, phase, v, e);
      AgainLater(e, phase, v(phase, e.id));
      TickUntouched(r, phase, v, e.id);
    } else {
      var r := OtherStep(s, phase, v, e.id);
      TickCalls(r, phase, v, e);
    }
  }

  lemma {:induction false} InsertAllOther(q: seq<(nat, Event)>, phase: nat, ins: seq<(int, Event)>, id: nat)
    requires ValidInserts(ins) && forall i :: 0 <= i < |ins| ==> ins[i].1.id != id
    ensures Of(InsertAll(q, phase, ins), id) == Of(q, id)
    decreases |ins|
  {
    if ins != [] {
      var k := |ins| - 1;
      InsertAllOther(q, phase, ins[..k], id);
      OfInsertOther(InsertAll(q, phase, ins[..k]), DuePhase(phase, ins[k].0, ins[k].1), ins[k].1, id);
    }
  }

  lemma {:induction false} InsertAllNew(q: seq<(nat, Event)>, phase: nat, ins: seq<(int, Event)>, j: nat)
    requires ValidInserts(ins) && j < |ins|
    requires forall i :: 0 <= i < |ins| && i != j ==> ins[i].1.id != ins[j].1.id
    requires Of(q, ins[j].1.id) == []
    ensures Of(InsertAll(q, phase, ins), ins[j].1.id) == [(DuePhase(phase, ins[j].0, ins[j].1), ins[j].1)]
    decreases |ins|
  {
    var k := |ins| - 1;
    if j < k {
      InsertAllNew(q, phase, ins[..k], j);
      OfInsertOther(InsertAll(q, phase, ins[..k]), DuePhase(phase, ins[k].0, ins[k].1), ins[k].1, ins[j].1.id);
    } else {
      InsertAllOther(q, phase, ins[..k], ins[k].1.id);
      OfInsertNew(InsertAll(q, phase, ins[..k]), DuePhase(phase, ins[k].0, ins[k].1), ins[k].1);
    }
  }
}

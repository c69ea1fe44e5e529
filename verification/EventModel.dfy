/**
 The event queue on values: events wait in a list ordered by the phase they are due in; the tick at
 the end of a phase calls every event that is due and puts those that stay back.
 */
module EventModel {

  /** `period` 0 means that the queue disposes of the event after the call. An adaptive event watches
      a counter that is to reach `target`; a plain one keeps its period. */
  datatype Event = Event(id: nat, adaptive: bool, target: nat, maxRate: nat, period: nat)

  /** An event called with effect in a phase; `over` is how far its counter had passed the target. */
  datatype Fire = Fire(phase: nat, id: nat, over: nat)

  /** `ok` is cleared when an event is met after the phase it was due in. */
  datatype Sim = Sim(queue: seq<(nat, Event)>, log: seq<Fire>, ok: bool)

  /** How many phases to wait when the counter is `distance` short. */
  function Pace(distance: nat, maxRate: nat): (k: nat)
    requires maxRate > 0
    ensures k > 0
  {
    if distance / maxRate == 0 then 1 else distance / maxRate
  }

  ghost predicate ValidEvent(e: Event) { e.adaptive ==> e.maxRate > 0 }

  function Call(e: Event, cur: nat): Event
    requires ValidEvent(e)
  {
    if !e.adaptive then e
    else if cur >= e.target then e.(period := 0)
    else e.(period := Pace(e.target - cur, e.maxRate))
  }

  function Fires(e: Event, phase: nat, cur: nat): seq<Fire> {
    if !e.adaptive then [Fire(phase, e.id, 0)]
    else if cur >= e.target then [Fire(phase, e.id, cur - e.target)]
    else []
  }

  /** Behind every event due in the same phase or earlier. */
  function Insert<T>(q: seq<(nat, T)>, k: nat, e: T): seq<(nat, T)> {
    if q == [] || q[0].0 > k then [(k, e)] + q else [q[0]] + Insert(q[1..], k, e)
  }

  ghost predicate Sorted(q: seq<(nat, Event)>) {
    forall i, j :: 0 <= i < j < |q| ==> q[i].0 <= q[j].0
  }

  ghost predicate ValidQueue(q: seq<(nat, Event)>) {
    forall i :: 0 <= i < |q| ==> ValidEvent(q[i].1)
  }

  /** How many events are due by the end of the phase. */
  function Due(q: seq<(nat, Event)>, phase: nat): nat {
    if q == [] then 0 else (if q[0].0 <= phase then 1 else 0) + Due(q[1..], phase)
  }

  /** The queue takes its first event out and calls it. */
  function Called(s: Sim, phase: nat, v: (nat, nat) -> nat): Sim
    requires s.queue != []
  {
    var e := s.queue[0].1;
    Sim(s.queue[1..], s.log + Fires(e, phase, v(phase, e.id)), s.ok && s.queue[0].0 == phase)
  }

  /** An event that keeps a period waits again. */
  function PutBack(s: Sim, phase: nat, e: Event): Sim {
    if e.period == 0 then s else s.(queue := Insert(s.queue, phase + e.period, e))
  }

  function Step(s: Sim, phase: nat, v: (nat, nat) -> nat): Sim
    requires s.queue != [] && ValidQueue(s.queue)
  {
    var e := s.queue[0].1;
    PutBack(Called(s, phase, v), phase, Call(e, v(phase, e.id)))
  }

  ghost function Tick(s: Sim, phase: nat, v: (nat, nat) -> nat): (r: Sim)
    requires ValidQueue(s.queue)
    ensures ValidQueue(r.queue)
    decreases Due(s.queue, phase)
  {
    if s.queue == [] || s.queue[0].0 > phase then s
    else
      StepDue(s, phase, v);
      Tick(Step(s, phase, v), phase, v)
  }

  lemma {:induction false} InsertDue(q: seq<(nat, Event)>, k: nat, e: Event, phase: nat)
    requires ValidQueue(q) && ValidEvent(e) && k > phase
    ensures Due(Insert(q, k, e), phase) == Due(q, phase) && ValidQueue(Insert(q, k, e))
  {
    if q == [] || q[0].0 > k {
      assert Insert(q, k, e)[1..] == q;
    } else {
      assert Insert(q, k, e)[1..] == Insert(q[1..], k, e);
      InsertDue(q[1..], k, e, phase);
    }
  }

  lemma StepDue(s: Sim, phase: nat, v: (nat, nat) -> nat)
    requires s.queue != [] && s.queue[0].0 <= phase && ValidQueue(s.queue)
    ensures Due(Step(s, phase, v).queue, phase) < Due(s.queue, phase) && ValidQueue(Step(s, phase, v).queue)
  {
    var e' := Call(s.queue[0].1, v(phase, s.queue[0].1.id));
    if e'.period != 0 { InsertDue(s.queue[1..], phase + e'.period, e', phase); }
  }

  /** The phase an insertion names: by default a period from now, else `startDelay` phases. */
  function DuePhase(phase: nat, startDelay: int, e: Event): nat
    requires startDelay >= -1
  {
    if startDelay == -1 then phase + e.period else phase + startDelay
  }

  ghost predicate ValidInserts(ins: seq<(int, Event)>) {
    forall i :: 0 <= i < |ins| ==> ins[i].0 >= -1 && ValidEvent(ins[i].1)
  }

  ghost function InsertAll(q: seq<(nat, Event)>, phase: nat, ins: seq<(int, Event)>): seq<(nat, Event)>
    requires ValidInserts(ins)
    decreases |ins|
  {
    if ins == [] then q
    else
      var k := |ins| - 1;
      Insert(InsertAll(q, phase, ins[..k]), DuePhase(phase, ins[k].0, ins[k].1), ins[k].1)
  }

  ghost predicate ValidRun(run: seq<seq<(int, Event)>>) {
    forall p :: 0 <= p < |run| ==> ValidInserts(run[p])
  }

  /** The state after the phases of `run`: in each, some insertions and then the tick. */
  ghost function Run(run: seq<seq<(int, Event)>>, v: (nat, nat) -> nat): (s: Sim)
    requires ValidRun(run)
    ensures ValidQueue(s.queue)
    decreases |run|
  {
    if run == [] then Sim([], [], true)
    else
      var p := |run| - 1;
      var s := Run(run[..p], v);
      InsertAllValid(s.queue, p, run[p]);
      Tick(s.(queue := InsertAll(s.queue, p, run[p])), p, v)
  }

  lemma {:induction false} InsertValid(q: seq<(nat, Event)>, k: nat, e: Event)
    requires ValidQueue(q) && ValidEvent(e)
    ensures ValidQueue(Insert(q, k, e))
  {
    if q != [] && q[0].0 <= k { InsertValid(q[1..], k, e); }
  }

  lemma {:induction false} InsertAllValid(q: seq<(nat, Event)>, phase: nat, ins: seq<(int, Event)>)
    requires ValidQueue(q) && ValidInserts(ins)
    ensures ValidQueue(InsertAll(q, phase, ins))
    decreases |ins|
  {
    if ins != [] {
      var k := |ins| - 1;
      InsertAllValid(q, phase, ins[..k]);
      InsertValid(InsertAll(q, phase, ins[..k]), DuePhase(phase, ins[k].0, ins[k].1), ins[k].1);
    }
  }
}

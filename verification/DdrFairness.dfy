/**
 Bounded bypass in the whole controller: what the scheduler does to one list of one bank, in any run
 of requests, events and refreshes, is a run of that list alone.
 */
module DdrFairness {
  import Q = BankQueue
  import opened Collections
  import opened DdrController
  import opened DdrSafety
  import T = DdrTiming

  /** The list of bank `b` on the write or the read side. */
  function ListOf(c: Ctl, writes: bool, b: nat): seq<Q.Request> {
    var s := Chosen(c, writes);
    if b < |s.lists| then s.lists[b] else []
  }

  /** Between `c` and `d` the first request of the list has been served. */
  ghost predicate Takes(c: Ctl, d: Ctl, writes: bool, b: nat) {
    ListOf(c, writes, b) != [] && d.served == c.served + [ListOf(c, writes, b)[0].id]
  }

  // ------------------------------------------------------------------ queueing

  lemma QueueList(c: Ctl, r: Q.Request, cycle: nat, writes: bool, b: nat)
    requires Shape(c) && r.bank < |c.chan.banks|
    ensures ListOf(Queue(c, r, cycle), writes, b) ==
      if OnWriteSide(c.cfg, r) == writes && r.bank == b
      then Q.Queued(ListOf(c, writes, b), r.(arrival := cycle), BufferOf(c.chan.banks[b]), c.cfg.limit)
      else ListOf(c, writes, b)
  {
  }

  lemma QueueFollows(c: Ctl, r: Q.Request, cycle: nat, writes: bool, b: nat, p: nat) returns (bs: seq<Q.Step>, p': nat)
    requires Shape(c) && r.bank < |c.chan.banks| && p < |ListOf(c, writes, b)|
    ensures Q.Waits(ListOf(c, writes, b), p, bs, c.cfg.limit, ListOf(Queue(c, r, cycle), writes, b), p')
    ensures Q.Serves(bs) == 0
  {
    QueueList(c, r, cycle, writes, b);
    if OnWriteSide(c.cfg, r) == writes && r.bank == b {
      var x, buffer := r.(arrival := cycle), BufferOf(c.chan.banks[b]);
      bs, p' := [Q.Arrive(x, buffer)], Q.Moved(ListOf(c, writes, b), x, buffer, c.cfg.limit, p);
      assert bs[1..] == [];
    } else {
      bs, p' := [], p;
    }
  }

  // ------------------------------------------------------------------ serving

  /** Two lists never start with the same request. */
  lemma HeadsDiffer(c: Ctl, writes: bool, b: nat, writes': bool, b': nat)
    requires Core(c) && (writes != writes' || b != b')
    requires ListOf(c, writes, b) != [] && ListOf(c, writes', b') != []
    ensures ListOf(c, writes, b)[0].id != ListOf(c, writes', b')[0].id
  {
    var id, id' := ListOf(c, writes, b)[0].id, ListOf(c, writes', b')[0].id;
    HeadHeld(c, writes, b);
    HeadHeld(c, writes', b');
    if writes == writes' {
      var s := Chosen(c, writes);
      var i :| 0 <= i < |s.q| && s.q[i] == Entry(id, b);
      var j :| 0 <= j < |s.q| && s.q[j] == Entry(id', b');
    } else {
      SidesApart(c, id);
    }
  }

  /** No request is on both sides. */
  lemma SidesApart(c: Ctl, id: nat)
    requires Core(c)
    ensures !Holds(c.rd, id) || !Holds(c.wr, id)
  {
    IdsHold(c.rd, id);
    IdsHold(c.wr, id);
    assert multiset(c.arrived)[id] >= Ids(c.rd.q)[id] + Ids(c.wr.q)[id];
  }

  lemma HeadHeld(c: Ctl, writes: bool, b: nat)
    requires Core(c) && ListOf(c, writes, b) != []
    ensures Entry(ListOf(c, writes, b)[0].id, b) in Chosen(c, writes).q
    ensures Holds(Chosen(c, writes), ListOf(c, writes, b)[0].id)
  {
    var s := Chosen(c, writes);
    assert ListOk(s, b, c.cfg.limit);
    var e := Entry(s.lists[b][0].id, b);
    assert e in s.q;
    var i :| 0 <= i < |s.q| && s.q[i] == e;
  }

  /** Issuing an entry takes the first request out of its list and out of no other. */
  lemma IssueList(c: Ctl, cur: nat, sysCycle: nat, side: bool, k: nat, writes: bool, b: nat)
    requires Core(c) && k < |Chosen(c, side).q| && IsFront(Chosen(c, side), Chosen(c, side).q[k])
    ensures var d := IssueEntry(c, cur, sysCycle, side, k);
      ListOf(d, writes, b) ==
        if side == writes && Chosen(c, side).q[k].bank == b then ListOf(c, writes, b)[1..] else ListOf(c, writes, b)
  {
  }

  lemma IssueTakes(c: Ctl, cur: nat, sysCycle: nat, side: bool, k: nat, writes: bool, b: nat)
    requires Core(c) && k < |Chosen(c, side).q| && IsFront(Chosen(c, side), Chosen(c, side).q[k])
    ensures Takes(c, IssueEntry(c, cur, sysCycle, side, k), writes, b) <==>
      side == writes && Chosen(c, side).q[k].bank == b
  {
    var e, d := Chosen(c, side).q[k], IssueEntry(c, cur, sysCycle, side, k);
    assert d.served[|c.served|] == e.id;
    if (side != writes || e.bank != b) && ListOf(c, writes, b) != [] {
      HeadsDiffer(c, side, e.bank, writes, b);
      assert (c.served + [ListOf(c, writes, b)[0].id])[|c.served|] != e.id;
    }
  }

  lemma IssueFollows(c: Ctl, cur: nat, sysCycle: nat, side: bool, k: nat, writes: bool, b: nat, p: nat)
    returns (bs: seq<Q.Step>, p': nat)
    requires Core(c) && k < |Chosen(c, side).q| && IsFront(Chosen(c, side), Chosen(c, side).q[k])
    requires p < |ListOf(c, writes, b)|
    requires ListOf(c, writes, b)[p].id !in IssueEntry(c, cur, sysCycle, side, k).served
    ensures var d := IssueEntry(c, cur, sysCycle, side, k);
      && Q.Waits(ListOf(c, writes, b), p, bs, c.cfg.limit, ListOf(d, writes, b), p')
      && Q.Serves(bs) == if Takes(c, d, writes, b) then 1 else 0
  {
    var d := IssueEntry(c, cur, sysCycle, side, k);
    IssueList(c, cur, sysCycle, side, k, writes, b);
    IssueTakes(c, cur, sysCycle, side, k, writes, b);
    bs, p' := [], p;
    if Takes(c, d, writes, b) {
      assert d.served[|c.served|] == ListOf(c, writes, b)[0].id;
      bs, p' := [Q.Serve], p - 1;
      assert bs[1..] == [];
    }
  }

  lemma TryFollows(c: Ctl, cur: nat, sysCycle: nat, writes: bool, b: nat, p: nat) returns (bs: seq<Q.Step>, p': nat)
    requires Core(c) && p < |ListOf(c, writes, b)|
    requires ListOf(c, writes, b)[p].id !in TrySchedule(c, cur, sysCycle).0.served
    ensures var d := TrySchedule(c, cur, sysCycle).0;
      && Q.Waits(ListOf(c, writes, b), p, bs, c.cfg.limit, ListOf(d, writes, b), p')
      && Q.Serves(bs) == if Takes(c, d, writes, b) then 1 else 0
  {
    match Choice(c, cur)
    case None => bs, p' := [], p;
    case Some(k) => bs, p' := IssueFollows(c, cur, sysCycle, WritesFirst(c), k, writes, b, p);
  }

  lemma AdmitFollows(c: Ctl, m: Option<nat>, cycle: nat, writes: bool, b: nat, p: nat)
    returns (bs: seq<Q.Step>, p': nat)
    requires Shape(c) && p < |ListOf(c, writes, b)|
    ensures var d := AdmitOverflow(c, m, cycle).0;
      Q.Waits(ListOf(c, writes, b), p, bs, c.cfg.limit, ListOf(d, writes, b), p') && d.served == c.served
    ensures Q.Serves(bs) == 0
  {
    if Full(c) || c.ovf == [] {
      bs, p' := [], p;
    } else {
      var c1 := c.(ovf := c.ovf[1..]);
      assert ListOf(c1, writes, b) == ListOf(c, writes, b);
      bs, p' := QueueFollows(c1, c.ovf[0], cycle, writes, b, p);
    }
  }

  // ------------------------------------------------------------------ steps

  lemma TickFollows(c: Ctl, sysCycle: nat, writes: bool, b: nat, p: nat) returns (bs: seq<Q.Step>, p': nat)
    requires Core(c) && p < |ListOf(c, writes, b)|
    requires ListOf(c, writes, b)[p].id !in Tick(c, sysCycle).served
    ensures var d := Tick(c, sysCycle);
      && Q.Waits(ListOf(c, writes, b), p, bs, c.cfg.limit, ListOf(d, writes, b), p')
      && Q.Serves(bs) == if Takes(c, d, writes, b) then 1 else 0
  {
    var cur := c.cfg.clock.SysToMem(sysCycle);
    var r := TrySchedule(c, cur, sysCycle);
    TickKeepsServed(c, sysCycle);
    var xs, p1 := TryFollows(c, cur, sysCycle, writes, b, p);
    Q.WaitsWithin(ListOf(c, writes, b), p, xs, c.cfg.limit, ListOf(r.0, writes, b), p1);
    var ys;
    ys, p' := AdmitFollows(r.0, r.1, cur, writes, b, p1);
    bs := xs + ys;
    Q.WaitsOn(ListOf(c, writes, b), p, xs, c.cfg.limit, ListOf(r.0, writes, b), p1,
              ys, ListOf(Tick(c, sysCycle), writes, b), p');
  }

  /** The rest of a tick serves nobody. */
  lemma TickKeepsServed(c: Ctl, sysCycle: nat)
    requires Shape(c)
    ensures var r := TrySchedule(c, c.cfg.clock.SysToMem(sysCycle), sysCycle);
      var a := AdmitOverflow(r.0, r.1, c.cfg.clock.SysToMem(sysCycle)).0;
      && Tick(c, sysCycle).served == r.0.served
      && Tick(c, sysCycle).rd == a.rd && Tick(c, sysCycle).wr == a.wr && r.0.cfg == c.cfg
  {
  }

  lemma EnqueueFollows(c: Ctl, r: Q.Request, sysCycle: nat, writes: bool, b: nat, p: nat)
    returns (bs: seq<Q.Step>, p': nat)
    requires WellFormed(c) && r.bank < |c.chan.banks| && p < |ListOf(c, writes, b)|
    ensures var d := Enqueue(c, r, sysCycle);
      && Q.Waits(ListOf(c, writes, b), p, bs, c.cfg.limit, ListOf(d, writes, b), p')
      && Q.Serves(bs) == 0 && d.served == c.served && d.cfg == c.cfg
  {
    var cycle := c.cfg.clock.SysToMem(sysCycle);
    bs, p' := [], p;
    if !Full(c) {
      EnqueueQueues(c, r, sysCycle);
      bs, p' := QueueFollows(c, r, cycle, writes, b, p);
    }
  }

  lemma EnqueueQueues(c: Ctl, r: Q.Request, sysCycle: nat)
    requires WellFormed(c) && r.bank < |c.chan.banks| && !Full(c)
    ensures var d := Enqueue(c, r, sysCycle); var d' := Queue(c, r, c.cfg.clock.SysToMem(sysCycle));
      d.rd == d'.rd && d.wr == d'.wr && d.served == c.served && d.cfg == c.cfg
  {
  }

  lemma FireFollows(c: Ctl, i: nat, writes: bool, b: nat, p: nat) returns (bs: seq<Q.Step>, p': nat)
    requires WellFormed(c) && Core(c) && i < |c.events.ev| && p < |ListOf(c, writes, b)|
    requires ListOf(c, writes, b)[p].id !in Fire(c, i).served
    ensures var d := Fire(c, i);
      && Q.Waits(ListOf(c, writes, b), p, bs, c.cfg.limit, ListOf(d, writes, b), p')
      && Q.Serves(bs) == (if Takes(c, d, writes, b) then 1 else 0)
  {
    if c.events.ev[i].state == QUEUED {
      FireTicks(c, i);
      bs, p' := TickFollows(c, c.events.ev[i].cycle, writes, b, p);
    } else {
      FireFrees(c, i);
      bs, p' := [], p;
    }
  }

  lemma FireTicks(c: Ctl, i: nat)
    requires WellFormed(c) && i < |c.events.ev| && c.events.ev[i].state == QUEUED
    ensures var d, a := Fire(c, i), Tick(c, c.events.ev[i].cycle);
      d.rd == a.rd && d.wr == a.wr && d.served == a.served && d.cfg == a.cfg
  {
    SettleFrame(Tick(c, c.events.ev[i].cycle), i, c.events.ev[i].cycle);
  }

  lemma SettleFrame(a: Ctl, i: nat, sysCycle: nat)
    requires a.cfg.clock.Valid() && EventsShape(a.events) && i < |a.events.ev|
    ensures var d := Settle(a, i, sysCycle);
      d.rd == a.rd && d.wr == a.wr && d.served == a.served && d.cfg == a.cfg
  {
  }

  lemma FireFrees(c: Ctl, i: nat)
    requires WellFormed(c) && i < |c.events.ev| && c.events.ev[i].state != QUEUED
    ensures var d := Fire(c, i); d.rd == c.rd && d.wr == c.wr && d.served == c.served && d.cfg == c.cfg
  {
  }

  lemma FireGrows(c: Ctl, i: nat)
    requires WellFormed(c) && i < |c.events.ev|
    ensures var d := Fire(c, i); c.served <= d.served && d.cfg == c.cfg
  {
    if c.events.ev[i].state == QUEUED {
      FireTicks(c, i);
      TickKeepsServed(c, c.events.ev[i].cycle);
    } else {
      FireFrees(c, i);
    }
  }

  /** Nobody is taken back. */
  lemma ServedGrows(c: Ctl, step: Step)
    requires WellFormed(c) && Legal(c, step)
    ensures var d := Do(c, step); c.served <= d.served && d.cfg == c.cfg
  {
    match step
    case EnqueueStep(r, sysCycle) => if !Full(c) { EnqueueQueues(c, r, sysCycle); }
    case FireStep(i) => FireGrows(c, i);
    case RefreshStep(_) =>
  }

  lemma StepFollows(c: Ctl, step: Step, writes: bool, b: nat, p: nat) returns (bs: seq<Q.Step>, p': nat)
    requires Inv(c) && Legal(c, step) && p < |ListOf(c, writes, b)|
    requires ListOf(c, writes, b)[p].id !in Do(c, step).served
    ensures var d := Do(c, step);
      && Q.Waits(ListOf(c, writes, b), p, bs, c.cfg.limit, ListOf(d, writes, b), p')
      && Q.Serves(bs) == (if Takes(c, d, writes, b) then 1 else 0)
      && p' < |ListOf(d, writes, b)| && ListOf(d, writes, b)[p'].id == ListOf(c, writes, b)[p].id
  {
    match step {
      case EnqueueStep(r, sysCycle) => bs, p' := EnqueueFollows(c, r, sysCycle, writes, b, p);
      case FireStep(i) => bs, p' := FireFollows(c, i, writes, b, p);
      case RefreshStep(_) => bs, p' := [], p;
    }
    Q.WaitsWithin(ListOf(c, writes, b), p, bs, c.cfg.limit, ListOf(Do(c, step), writes, b), p');
  }

  // ------------------------------------------------------------------ runs

  /** `tr` holds the states that the steps go through. */
  ghost predicate Trace(tr: seq<Ctl>, steps: seq<Step>) {
    && |tr| == |steps| + 1
    && (forall i: nat {:trigger Linked(tr, steps, i)} :: i < |steps| ==> Linked(tr, steps, i))
  }

  ghost predicate Linked(tr: seq<Ctl>, steps: seq<Step>, i: nat)
    requires |tr| == |steps| + 1 && i < |steps|
  {
    WellFormed(tr[i]) && Legal(tr[i], steps[i]) && tr[i + 1] == Do(tr[i], steps[i])
  }

  /** Every run has one trace of states. */
  lemma {:induction false} RunTrace(c: Ctl, steps: seq<Step>, d: Ctl) returns (tr: seq<Ctl>)
    requires WellFormed(c) && Run(c, steps, d)
    ensures Trace(tr, steps) && tr[0] == c && tr[|steps|] == d
    decreases |steps|
  {
    if steps == [] {
      tr := [c];
    } else {
      var rest := RunTrace(Do(c, steps[0]), steps[1..], d);
      tr := [c] + rest;
      forall i: nat | i < |steps|
        ensures Linked(tr, steps, i)
      {
        assert i > 0 ==> Linked(rest, steps[1..], i - 1);
      }
    }
  }

  /** How many requests of the list are served from state `i` of a trace on. */
  ghost function Taken(tr: seq<Ctl>, i: nat, writes: bool, b: nat): nat
    decreases |tr| - i
  {
    if i + 1 >= |tr| then 0 else
    (if Takes(tr[i], tr[i + 1], writes, b) then 1 else 0) + Taken(tr, i + 1, writes, b)
  }

  lemma {:induction false} TraceGrows(tr: seq<Ctl>, steps: seq<Step>, i: nat)
    requires Trace(tr, steps) && i <= |steps|
    ensures tr[i].served <= tr[|steps|].served
    decreases |steps| - i
  {
    if i < |steps| {
      assert Linked(tr, steps, i);
      ServedGrows(tr[i], steps[i]);
      TraceGrows(tr, steps, i + 1);
    }
  }

  lemma LinkKeeps(tr: seq<Ctl>, steps: seq<Step>, i: nat)
    requires Trace(tr, steps) && i < |steps| && Inv(tr[i])
    ensures Inv(tr[i + 1]) && tr[i + 1].cfg == tr[i].cfg
  {
    assert Linked(tr, steps, i);
    StepKeeps(tr[i], steps[i]);
    ServedGrows(tr[i], steps[i]);
  }

  lemma {:induction false} TraceKeeps(tr: seq<Ctl>, steps: seq<Step>, i: nat)
    requires Trace(tr, steps) && i <= |steps| && Inv(tr[0])
    ensures Inv(tr[i])
  {
    if i > 0 {
      TraceKeeps(tr, steps, i - 1);
      LinkKeeps(tr, steps, i - 1);
    }
  }

  lemma LinkFollows(tr: seq<Ctl>, steps: seq<Step>, i: nat, writes: bool, b: nat, p: nat)
    returns (bs: seq<Q.Step>, p': nat)
    requires Trace(tr, steps) && i < |steps| && Inv(tr[i]) && p < |ListOf(tr[i], writes, b)|
    requires ListOf(tr[i], writes, b)[p].id !in tr[i + 1].served
    ensures var c, d := tr[i], tr[i + 1];
      && Inv(d) && d.cfg == c.cfg
      && Q.Waits(ListOf(c, writes, b), p, bs, c.cfg.limit, ListOf(d, writes, b), p')
      && Q.Serves(bs) == (if Takes(c, d, writes, b) then 1 else 0)
      && p' < |ListOf(d, writes, b)| && ListOf(d, writes, b)[p'].id == ListOf(c, writes, b)[p].id
  {
    LinkKeeps(tr, steps, i);
    assert Linked(tr, steps, i);
    bs, p' := StepFollows(tr[i], steps[i], writes, b, p);
  }

  /** While a request waits, every run of the controller is, for its list, a run of the list alone in
      which the list is served as often as in the controller. */
  lemma {:induction false} RunFollows(tr: seq<Ctl>, steps: seq<Step>, i: nat, writes: bool, b: nat, p: nat)
    returns (bs: seq<Q.Step>, p': nat)
    requires Trace(tr, steps) && i <= |steps| && Inv(tr[i]) && p < |ListOf(tr[i], writes, b)|
    requires ListOf(tr[i], writes, b)[p].id !in tr[|steps|].served
    ensures Q.Waits(ListOf(tr[i], writes, b), p, bs, tr[i].cfg.limit, ListOf(tr[|steps|], writes, b), p')
    ensures Q.Serves(bs) == Taken(tr, i, writes, b)
    decreases |steps| - i
  {
    if i == |steps| {
      bs, p' := [], p;
    } else {
      TraceGrows(tr, steps, i + 1);
      var xs, p1 := LinkFollows(tr, steps, i, writes, b, p);
      var ys, p2 := RunFollows(tr, steps, i + 1, writes, b, p1);
      Q.WaitsOn(ListOf(tr[i], writes, b), p, xs, tr[i].cfg.limit, ListOf(tr[i + 1], writes, b), p1,
                ys, ListOf(tr[|steps|], writes, b), p2);
      bs, p' := xs + ys, p2;
    }
  }

  lemma ListBound(c: Ctl, writes: bool, b: nat, p: nat, bs: seq<Q.Step>, q': seq<Q.Request>, p': nat)
    requires Core(c) && Q.Waits(ListOf(c, writes, b), p, bs, c.cfg.limit, q', p')
    ensures Q.Serves(bs) <= Q.Allowance(ListOf(c, writes, b), p, c.cfg.limit)
  {
    assert ListOk(Chosen(c, writes), b, c.cfg.limit);
    Q.WaitBound(ListOf(c, writes, b), p, bs, c.cfg.limit, q', p');
  }

  /** However long a run goes on and whatever arrives, a request at position `p` of its list still waits
      only as long as at most `Allowance` requests of the list have been served since: `limit + 1` for
      each run of row hits ahead of its own, and those before it in its own run. */
  lemma WaitBounded(tr: seq<Ctl>, steps: seq<Step>, i: nat, writes: bool, b: nat, p: nat)
    requires Trace(tr, steps) && i <= |steps| && Inv(tr[i]) && p < |ListOf(tr[i], writes, b)|
    requires ListOf(tr[i], writes, b)[p].id !in tr[|steps|].served
    ensures Taken(tr, i, writes, b) <= Q.Allowance(ListOf(tr[i], writes, b), p, tr[i].cfg.limit)
  {
    var bs, p' := RunFollows(tr, steps, i, writes, b, p);
    ListBound(tr[i], writes, b, p, bs, ListOf(tr[|steps|], writes, b), p');
  }

  /** The same from power-on, at any moment of the run: from state `i` on, at which the request waits. */
  lemma StartWaitBounded(cfg: Config, t: T.Timing, rank: seq<nat>, ranks: nat, steps: seq<Step>, tr: seq<Ctl>,
                         i: nat, writes: bool, b: nat, p: nat)
    requires cfg.clock.Valid() && cfg.depth > 0 && t.Valid() && (forall b :: 0 <= b < |rank| ==> rank[b] < ranks)
    requires Trace(tr, steps) && tr[0] == Start(cfg, t, rank, ranks)
    requires i <= |steps| && p < |ListOf(tr[i], writes, b)| && ListOf(tr[i], writes, b)[p].id !in tr[|steps|].served
    ensures Taken(tr, i, writes, b) <= Q.Allowance(ListOf(tr[i], writes, b), p, tr[i].cfg.limit)
  {
    StartOk(cfg, t, rank, ranks);
    TraceKeeps(tr, steps, i);
    WaitBounded(tr, steps, i, writes, b, p);
  }
}

/**
 What the controller decides: which side and which request is served, when the next attempt is made,
 and where a new request goes.
 */
module DdrPolicy {
  import Q = BankQueue
  import opened Collections
  import opened DdrClock
  import opened DdrController
  import E = DdrEarliest
  import opened DdrFairness
  import opened DdrSafety
  import T = DdrTiming

  // ------------------------------------------------------------------ one attempt

  /** The data bus can take a burst that is started now. */
  ghost predicate BusFree(c: Ctl, cur: nat) { cur + c.chan.t.tCL >= c.chan.minResp }

  /** Entry `i` heads the list of its bank and the bank can take its command by `cur`. */
  ghost predicate CanGo(s: Side, chan: T.Channel, cur: nat, i: nat)
    requires T.Shape(chan) && SideShape(s, |chan.banks|) && i < |s.q|
  {
    IsFront(s, s.q[i]) && T.FindMinCmdCycle(chan, s.lists[s.q[i].bank][0]) <= cur
  }

  ghost predicate NoneCanGo(s: Side, chan: T.Channel, cur: nat)
    requires T.Shape(chan) && SideShape(s, |chan.banks|)
  {
    forall i: nat :: i < |s.q| ==> !CanGo(s, chan, cur, i)
  }

  ghost predicate FirstToGo(s: Side, chan: T.Channel, cur: nat, k: nat)
    requires T.Shape(chan) && SideShape(s, |chan.banks|)
  {
    k < |s.q| && CanGo(s, chan, cur, k) && forall i: nat :: i < k ==> !CanGo(s, chan, cur, i)
  }

  /** The attempt at `cur` serves entry `k` of the given side, the head of a bank list: it leaves queue and
      list, its commands are issued, and its row stays open for a row hit that is next in the list. */
  ghost predicate Serves(c: Ctl, d: Ctl, cur: nat, writes: bool, k: nat)
    requires Shape(c)
  {
    var s, s' := Chosen(c, writes), Chosen(d, writes);
    && k < |s.q| && IsFront(s, s.q[k])
    && var e, list := s.q[k], s.lists[s.q[k].bank];
    && list[0].bank == e.bank
    && d.served == c.served + [e.id]
    && s'.q == s.q[..k] + s.q[k + 1..] && s'.lists == s.lists[e.bank := list[1..]]
    && Chosen(d, !writes) == Chosen(c, !writes) && d.ovf == c.ovf
    && d.chan == T.Issue(c.chan, list[0], cur, |list| > 1 && list[1].hits != 0)
  }

  ghost predicate ServesNone(c: Ctl, d: Ctl) {
    d.served == c.served && d.rd == c.rd && d.wr == c.wr && d.chan == c.chan && d.ovf == c.ovf
  }

  lemma IssueServes(c: Ctl, cur: nat, sysCycle: nat, writes: bool, k: nat)
    requires Shape(c) && k < |Chosen(c, writes).q| && IsFront(Chosen(c, writes), Chosen(c, writes).q[k])
    ensures Serves(c, IssueEntry(c, cur, sysCycle, writes, k), cur, writes, k)
  {
    var s := Chosen(c, writes);
    assert InBank(s.lists[s.q[k].bank], s.q[k].bank);
  }

  lemma ScanFinds(s: Side, chan: T.Channel, cur: nat)
    requires T.Shape(chan) && SideShape(s, |chan.banks|)
    ensures var k := FirstReady(s, chan, cur, 0);
      if k < |s.q| then FirstToGo(s, chan, cur, k) else NoneCanGo(s, chan, cur)
  {
    var k := FirstReady(s, chan, cur, 0);
    forall i: nat | i < k
      ensures !CanGo(s, chan, cur, i)
    {
      assert !Ready(s, chan, cur, s.q[i]);
    }
  }

  /** One side has the turn.  The first of its requests, in the order of arrival, that can go is served;
      nothing is served if the bus is busy or none can go.  It is the writes' turn if more than three
      quarters of their queue are taken, if the last command was a write and more than a quarter is, or if
      there are no reads, and the reads' turn otherwise. */
  lemma Attempt(c: Ctl, cur: nat, sysCycle: nat) returns (writes: bool, k: Option<nat>)
    requires Shape(c)
    ensures var d, s := TrySchedule(c, cur, sysCycle).0, Chosen(c, writes);
      match k
      case Some(k) => BusFree(c, cur) && FirstToGo(s, c.chan, cur, k) && Serves(c, d, cur, writes, k)
      case None => (BusFree(c, cur) ==> NoneCanGo(s, c.chan, cur)) && ServesNone(c, d)
    ensures |c.wr.q| > 3 * c.cfg.depth / 4 ==> writes
    ensures c.chan.lastWrite && |c.wr.q| > c.cfg.depth / 4 ==> writes
    ensures c.rd.q == [] ==> writes
    ensures c.rd.q != [] && |c.wr.q| <= 3 * c.cfg.depth / 4 && !(c.chan.lastWrite && |c.wr.q| > c.cfg.depth / 4)
      ==> !writes
  {
    writes, k := WritesFirst(c), Choice(c, cur);
    ScanFinds(Chosen(c, writes), c.chan, cur);
    if k.Some? { IssueServes(c, cur, sysCycle, writes, k.value); }
  }

  /** The id that an attempt appends to `served`, and the queue it comes from. */
  lemma WhoIsServed(c: Ctl, cur: nat, sysCycle: nat, id: nat)
    requires Shape(c) && TrySchedule(c, cur, sysCycle).0.served == c.served + [id]
    ensures |c.wr.q| > 3 * c.cfg.depth / 4 ==> Holds(c.wr, id)
    ensures c.chan.lastWrite && |c.wr.q| > c.cfg.depth / 4 ==> Holds(c.wr, id)
    ensures c.rd.q == [] ==> Holds(c.wr, id)
    ensures c.rd.q != [] && |c.wr.q| <= 3 * c.cfg.depth / 4 && !(c.chan.lastWrite && |c.wr.q| > c.cfg.depth / 4)
      ==> Holds(c.rd, id)
  {
    var writes, k := Attempt(c, cur, sysCycle);
    var d := TrySchedule(c, cur, sysCycle).0;
    assert d.served[|c.served|] == id;
    assert Chosen(c, writes).q[k.value].id == id;
    assert Holds(Chosen(c, writes), id);
  }

  // ------------------------------------------------------------------ the next attempt

  /** The scan's result is the minimum over the heads of the bank lists. */
  lemma {:induction false} EarliestIs(s: Side, chan: T.Channel, k: nat)
    requires T.Shape(chan) && SideShape(s, |chan.banks|) && k <= |s.q|
    ensures var m := Earliest(s, chan, k);
      && (m.None? ==> forall i: nat :: i < k ==> !IsFront(s, s.q[i]))
      && (m.Some? ==> exists i: nat :: i < k && HeadAt(s, chan, i, m.value))
      && (m.Some? ==> forall i: nat :: i < k && IsFront(s, s.q[i]) ==>
            m.value <= T.FindMinCmdCycle(chan, s.lists[s.q[i].bank][0]))
    decreases k
  {
    if k > 0 {
      EarliestIs(s, chan, k - 1);
      var m := Earliest(s, chan, k);
      if m.Some? && m != Earliest(s, chan, k - 1) { assert HeadAt(s, chan, k - 1, m.value); }
    }
  }

  ghost predicate HeadAt(s: Side, chan: T.Channel, i: nat, x: nat)
    requires T.Shape(chan) && SideShape(s, |chan.banks|) && i < |s.q|
  {
    IsFront(s, s.q[i]) && T.FindMinCmdCycle(chan, s.lists[s.q[i].bank][0]) == x
  }

  lemma BusyBusServesNone(d: Ctl, x: nat, sysCycle: nat)
    requires Shape(d) && !BusFree(d, x)
    ensures TrySchedule(d, x, sysCycle).0.served == d.served
  {
  }

  lemma ServedIff(c: Ctl, x: nat, sysCycle: nat)
    requires Shape(c)
    ensures TrySchedule(c, x, sysCycle).0.served == c.served <==> Choice(c, x) == None
  {
  }

  /** Some request of a side can go from the scan's result on, and none before. */
  lemma ScanFrom(s: Side, chan: T.Channel, x: nat)
    requires T.Shape(chan) && SideShape(s, |chan.banks|) && Earliest(s, chan, |s.q|).Some?
    ensures FirstReady(s, chan, x, 0) < |s.q| <==> x >= Earliest(s, chan, |s.q|).value
  {
    EarliestIs(s, chan, |s.q|);
    ScanFinds(s, chan, x);
    var m := Earliest(s, chan, |s.q|).value;
    var i: nat :| i < |s.q| && HeadAt(s, chan, i, m);
    assert x >= m ==> CanGo(s, chan, x, i);
  }

  lemma ChoiceFrom(c: Ctl, cur: nat, x: nat)
    requires Core(c) && Busy(c) && BusFree(c, cur) && Choice(c, cur) == None && x >= cur
    ensures var m := Retry(c, cur); m.Some? && (Choice(c, x) == None <==> x < m.value)
  {
    var s := Chosen(c, WritesFirst(c));
    WaitPlanned(s, c.chan, cur, c.cfg.limit);
    ScanFrom(s, c.chan, x);
  }

  lemma RetryIsLeast(c: Ctl, cur: nat, x: nat, sysCycle: nat)
    requires Core(c) && Busy(c) && BusFree(c, cur) && Choice(c, cur) == None && x >= cur
    ensures var m := Retry(c, cur);
      m.Some? && (TrySchedule(c, x, sysCycle).0.served == c.served <==> x < m.value)
  {
    ChoiceFrom(c, cur, x);
    ServedIff(c, x, sysCycle);
  }

  ghost predicate ServesNothing(c: Ctl, x: nat)
    requires Shape(c)
  {
    forall sysCycle: nat :: TrySchedule(c, x, sysCycle).0.served == c.served
  }

  /** The cycle an attempt reports for the next one is the right one: no attempt before it would serve
      anybody.  It is the first cycle at which the bus is free or, if the bus is free and no bank was
      ready, the first at which a request can go. */
  lemma NextAttempt(c: Ctl, cur: nat, sysCycle: nat)
    requires Core(c)
    ensures var (d, m) := TrySchedule(c, cur, sysCycle);
      && (m.Some? <==> Busy(d))
      && (m.Some? ==> forall x: nat :: cur <= x < m.value ==> ServesNothing(d, x))
      && (m.Some? ==> if d.served == c.served && BusFree(c, cur) then !ServesNothing(d, m.value)
                      else m.value + d.chan.t.tCL == d.chan.minResp)
  {
    var (d, m) := TrySchedule(c, cur, sysCycle);
    match Choice(c, cur)
    case Some(_) => NextBus(d, m, cur);
    case None =>
      if BusFree(c, cur) && Busy(c) { NextReady(c, cur, d, m); } else { NextBus(d, m, cur); }
  }

  lemma NextBus(d: Ctl, m: Option<nat>, cur: nat)
    requires Shape(d) && (m.Some? ==> m.value + d.chan.t.tCL == d.chan.minResp)
    ensures m.Some? ==> forall x: nat :: cur <= x < m.value ==> ServesNothing(d, x)
  {
    forall x: nat, sysCycle: nat | m.Some? && cur <= x < m.value
      ensures TrySchedule(d, x, sysCycle).0.served == d.served
    {
      BusyBusServesNone(d, x, sysCycle);
    }
  }

  lemma NextReady(c: Ctl, cur: nat, d: Ctl, m: Option<nat>)
    requires Core(c) && Busy(c) && BusFree(c, cur) && Choice(c, cur) == None && m == Retry(c, cur)
    requires Shape(d) && d == c.(ok := d.ok)
    ensures m.Some? && (forall x: nat :: cur <= x < m.value ==> ServesNothing(d, x)) && !ServesNothing(d, m.value)
  {
    RetryIsLeast(c, cur, cur, 0);
    forall x: nat | cur <= x < m.value
      ensures ServesNothing(d, x)
    {
      forall sysCycle: nat
        ensures TrySchedule(d, x, sysCycle).0.served == d.served
      {
        SameChoice(c, d, x, sysCycle);
        RetryIsLeast(c, cur, x, sysCycle);
      }
    }
    SameChoice(c, d, m.value, 0);
    RetryIsLeast(c, cur, m.value, 0);
    assert TrySchedule(d, m.value, 0).0.served != d.served;
  }

  lemma SameChoice(c: Ctl, d: Ctl, x: nat, sysCycle: nat)
    requires Shape(c) && Shape(d) && d == c.(ok := d.ok)
    ensures TrySchedule(c, x, sysCycle).0.served == TrySchedule(d, x, sysCycle).0.served
  {
  }

  // ------------------------------------------------------------------ writes are drained

  /** The write side holds deferred writes, the read side all other requests. */
  ghost predicate KindOk(c: Ctl) {
    forall writes: bool, b: nat {:trigger ListOf(c, writes, b)} :: AllOfKind(c.cfg, ListOf(c, writes, b), writes)
  }

  ghost predicate AllOfKind(cfg: Config, q: seq<Q.Request>, writes: bool) {
    forall j :: 0 <= j < |q| ==> (cfg.deferredWrites && q[j].write <==> writes)
  }

  lemma QueuedOfKind(cfg: Config, q: seq<Q.Request>, r: Q.Request, buffer: Q.RowBuffer, limit: nat, writes: bool)
    requires AllOfKind(cfg, q, writes) && (cfg.deferredWrites && r.write <==> writes)
    ensures AllOfKind(cfg, Q.Queued(q, r, buffer, limit), writes)
  {
  }

  lemma QueueKind(c: Ctl, r: Q.Request, cycle: nat)
    requires Shape(c) && r.bank < |c.chan.banks| && KindOk(c)
    ensures KindOk(Queue(c, r, cycle))
  {
    forall writes: bool, b: nat
      ensures AllOfKind(c.cfg, ListOf(Queue(c, r, cycle), writes, b), writes)
    {
      QueueList(c, r, cycle, writes, b);
      assert AllOfKind(c.cfg, ListOf(c, writes, b), writes);
      if b < |c.chan.banks| && r.bank == b && OnWriteSide(c.cfg, r) == writes {
        QueuedOfKind(c.cfg, ListOf(c, writes, b), r.(arrival := cycle), BufferOf(c.chan.banks[b]), c.cfg.limit, writes);
      }
    }
  }

  lemma ServedKind(c: Ctl, d: Ctl, cur: nat, side: bool, k: nat, writes: bool, b: nat)
    requires Shape(c) && KindOk(c) && Serves(c, d, cur, side, k)
    ensures AllOfKind(c.cfg, ListOf(d, writes, b), writes)
  {
    assert AllOfKind(c.cfg, ListOf(c, writes, b), writes);
  }

  lemma AttemptKind(c: Ctl, cur: nat, sysCycle: nat)
    requires Shape(c) && KindOk(c)
    ensures KindOk(TrySchedule(c, cur, sysCycle).0)
  {
    var side, k := Attempt(c, cur, sysCycle);
    var d := TrySchedule(c, cur, sysCycle).0;
    if k == None {
      SameKind(c, d);
    } else {
      forall writes: bool, b: nat
        ensures AllOfKind(d.cfg, ListOf(d, writes, b), writes)
      {
        ServedKind(c, d, cur, side, k.value, writes, b);
      }
    }
  }

  lemma SameKind(c: Ctl, d: Ctl)
    requires KindOk(c) && d.rd == c.rd && d.wr == c.wr && d.cfg == c.cfg
    ensures KindOk(d)
  {
    forall writes: bool, b: nat
      ensures AllOfKind(d.cfg, ListOf(d, writes, b), writes)
    {
      assert AllOfKind(c.cfg, ListOf(c, writes, b), writes);
    }
  }

  lemma TickKind(c: Ctl, sysCycle: nat)
    requires Shape(c) && KindOk(c)
    ensures KindOk(Tick(c, sysCycle))
  {
    var cur := c.cfg.clock.SysToMem(sysCycle);
    var (c1, m) := TrySchedule(c, cur, sysCycle);
    AttemptKind(c, cur, sysCycle);
    if !Full(c1) && c1.ovf != [] {
      var c2 := c1.(ovf := c1.ovf[1..]);
      SameKind(c1, c2);
      QueueKind(c2, c1.ovf[0], cur);
    }
    TickKeepsServed(c, sysCycle);
    SameKind(AdmitOverflow(c1, m, cur).0, Tick(c, sysCycle));
  }

  lemma StepKind(c: Ctl, step: Step)
    requires WellFormed(c) && Legal(c, step) && KindOk(c)
    ensures KindOk(Do(c, step))
  {
    match step
    case EnqueueStep(r, sysCycle) =>
      if Full(c) {
        SameKind(c, Enqueue(c, r, sysCycle));
      } else {
        EnqueueQueues(c, r, sysCycle);
        QueueKind(c, r, c.cfg.clock.SysToMem(sysCycle));
        SameKind(Queue(c, r, c.cfg.clock.SysToMem(sysCycle)), Enqueue(c, r, sysCycle));
      }
    case FireStep(i) =>
      if c.events.ev[i].state == QUEUED {
        FireTicks(c, i);
        TickKind(c, c.events.ev[i].cycle);
        SameKind(Tick(c, c.events.ev[i].cycle), Fire(c, i));
      } else {
        FireFrees(c, i);
        SameKind(c, Fire(c, i));
      }
    case RefreshStep(sysCycle) => SameKind(c, RefreshAt(c, sysCycle));
  }

  ghost predicate SameNumbers(c: Ctl, d: Ctl) {
    |d.chan.banks| == |c.chan.banks| &&
    forall b :: 0 <= b < |c.chan.banks| ==> d.chan.banks[b].rowHits == c.chan.banks[b].rowHits
  }

  /** A step that makes an attempt serves what the attempt serves; no other step serves anybody or changes
      the direction of the bus. */
  lemma StepAttempts(c: Ctl, step: Step) returns (tries: bool, cur: nat, sysCycle: nat)
    requires WellFormed(c) && Legal(c, step)
    ensures var d := Do(c, step);
      if tries then var a := TrySchedule(c, cur, sysCycle).0; d.served == a.served && d.chan == a.chan
      else d.served == c.served && d.chan.lastWrite == c.chan.lastWrite && SameNumbers(c, d)
  {
    tries, cur, sysCycle := false, 0, 0;
    match step
    case EnqueueStep(r, now) =>
    case FireStep(i) =>
      if c.events.ev[i].state == QUEUED {
        tries, sysCycle := true, c.events.ev[i].cycle;
        cur := c.cfg.clock.SysToMem(sysCycle);
        FireChannel(c, i);
      } else {
        FireFrees(c, i);
      }
    case RefreshStep(_) =>
  }

  lemma FireChannel(c: Ctl, i: nat)
    requires WellFormed(c) && i < |c.events.ev| && c.events.ev[i].state == QUEUED
    ensures var sysCycle := c.events.ev[i].cycle;
      var a := TrySchedule(c, c.cfg.clock.SysToMem(sysCycle), sysCycle).0;
      Fire(c, i).served == a.served && Fire(c, i).chan == a.chan
  {
    FireTicks(c, i);
    TickKeepsServed(c, c.events.ev[i].cycle);
    TickChan(c, c.events.ev[i].cycle);
  }

  lemma TickChan(c: Ctl, sysCycle: nat)
    requires Shape(c)
    ensures Tick(c, sysCycle).chan == TrySchedule(c, c.cfg.clock.SysToMem(sysCycle), sysCycle).0.chan
  {
  }

  /** The bus has the direction of the request that was served last. */
  lemma DirectionOfServed(c: Ctl, d: Ctl, cur: nat, writes: bool, k: nat)
    requires Shape(c) && KindOk(c) && Serves(c, d, cur, writes, k)
    ensures var e := Chosen(c, writes).q[k];
      d.chan.lastWrite == Chosen(c, writes).lists[e.bank][0].write && (writes ==> d.chan.lastWrite)
  {
    var e := Chosen(c, writes).q[k];
    assert AllOfKind(c.cfg, ListOf(c, writes, e.bank), writes);
  }

  /** Step `i` of the trace serves request `id`. */
  ghost predicate ServesAt(tr: seq<Ctl>, i: nat, id: nat) {
    i + 1 < |tr| && tr[i + 1].served == tr[i].served + [id]
  }

  lemma {:induction false} KindAlong(tr: seq<Ctl>, steps: seq<Step>, i: nat)
    requires Trace(tr, steps) && i <= |steps| && KindOk(tr[0])
    ensures KindOk(tr[i])
  {
    if i > 0 {
      KindAlong(tr, steps, i - 1);
      assert Linked(tr, steps, i - 1);
      StepKind(tr[i - 1], steps[i - 1]);
    }
  }

  /** A write has been served, and more than a quarter of the queue is taken: the next is a write, too. */
  lemma WriteAfterWrite(c: Ctl, step: Step)
    requires WellFormed(c) && Legal(c, step) && KindOk(c) && c.chan.lastWrite
    requires Do(c, step).served != c.served ==> |c.wr.q| > c.cfg.depth / 4
    ensures Do(c, step).chan.lastWrite
    ensures forall id :: Do(c, step).served == c.served + [id] ==> Holds(c.wr, id)
  {
    var tries, cur, sysCycle := StepAttempts(c, step);
    if tries {
      var writes, k := Attempt(c, cur, sysCycle);
      var a := TrySchedule(c, cur, sysCycle).0;
      if k.Some? {
        assert a.served[|c.served|] == Chosen(c, writes).q[k.value].id;
        DirectionOfServed(c, a, cur, writes, k.value);
        assert Holds(c.wr, c.wr.q[k.value].id);
      }
    }
  }

  lemma WriteTurnsBus(c: Ctl, step: Step, id: nat)
    requires Inv(c) && Legal(c, step) && KindOk(c) && Do(c, step).served == c.served + [id] && Holds(c.wr, id)
    ensures Do(c, step).chan.lastWrite
  {
    var tries, cur, sysCycle := StepAttempts(c, step);
    assert Do(c, step).served[|c.served|] == id;
    var writes, k := Attempt(c, cur, sysCycle);
    var a := TrySchedule(c, cur, sysCycle).0;
    assert a.served[|c.served|] == Chosen(c, writes).q[k.value].id;
    assert Holds(Chosen(c, writes), id);
    SidesApart(c, id);
    DirectionOfServed(c, a, cur, writes, k.value);
  }

  /** Both, for a step of a trace. */
  lemma DrainStep(tr: seq<Ctl>, steps: seq<Step>, k: nat)
    requires Trace(tr, steps) && KindOk(tr[0]) && k < |steps| && tr[k].chan.lastWrite
    requires tr[k + 1].served != tr[k].served ==> |tr[k].wr.q| > tr[k].cfg.depth / 4
    ensures tr[k + 1].chan.lastWrite
    ensures forall id :: ServesAt(tr, k, id) ==> Holds(tr[k].wr, id)
  {
    KindAlong(tr, steps, k);
    assert Linked(tr, steps, k);
    WriteAfterWrite(tr[k], steps[k]);
  }

  lemma DrainStarts(tr: seq<Ctl>, steps: seq<Step>, i: nat, id: nat)
    requires Trace(tr, steps) && Inv(tr[0]) && KindOk(tr[0]) && i < |steps|
    requires ServesAt(tr, i, id) && Holds(tr[i].wr, id)
    ensures tr[i + 1].chan.lastWrite
  {
    KindAlong(tr, steps, i);
    TraceKeeps(tr, steps, i);
    assert Linked(tr, steps, i);
    WriteTurnsBus(tr[i], steps[i], id);
  }

  lemma {:induction false} Draining(tr: seq<Ctl>, steps: seq<Step>, i: nat, j: nat, id: nat)
    requires Trace(tr, steps) && Inv(tr[0]) && KindOk(tr[0]) && i < j <= |steps|
    requires ServesAt(tr, i, id) && Holds(tr[i].wr, id)
    requires forall k: nat :: i < k < j && tr[k + 1].served != tr[k].served ==> |tr[k].wr.q| > tr[k].cfg.depth / 4
    ensures tr[j].chan.lastWrite
    decreases j
  {
    if j == i + 1 {
      DrainStarts(tr, steps, i, id);
    } else {
      Draining(tr, steps, i, j - 1, id);
      DrainStep(tr, steps, j - 1);
    }
  }

  /** In every run: once a write has been served from the write queue, everything served comes from there
      until an attempt finds at most a quarter of the queue taken. */
  lemma WritesDrain(tr: seq<Ctl>, steps: seq<Step>, i: nat, j: nat, id: nat, id': nat)
    requires Trace(tr, steps) && Inv(tr[0]) && KindOk(tr[0]) && i < j < |steps|
    requires ServesAt(tr, i, id) && Holds(tr[i].wr, id) && ServesAt(tr, j, id')
    requires forall k: nat :: i < k <= j && tr[k + 1].served != tr[k].served ==> |tr[k].wr.q| > tr[k].cfg.depth / 4
    ensures Holds(tr[j].wr, id')
  {
    Draining(tr, steps, i, j, id);
    assert tr[j + 1].served[|tr[j].served|] == id';
    DrainStep(tr, steps, j);
  }

  // ------------------------------------------------------------------ row hits are counted on

  lemma ServedNumber(c: Ctl, d: Ctl, cur: nat, side: bool, k: nat, b: nat)
    requires Core(c) && Serves(c, d, cur, side, k) && b < |c.chan.banks|
    ensures b < |d.chan.banks|
    ensures d.chan.banks[b].rowHits ==
      if Takes(c, d, true, b) then ListOf(c, true, b)[0].hits
      else if Takes(c, d, false, b) then ListOf(c, false, b)[0].hits
      else c.chan.banks[b].rowHits
  {
    var e := Chosen(c, side).q[k];
    assert d.served[|c.served|] == e.id == ListOf(c, side, e.bank)[0].id;
    OnlyTaken(c, d, side, e.bank, true, b);
    OnlyTaken(c, d, side, e.bank, false, b);
  }

  lemma OnlyTaken(c: Ctl, d: Ctl, side: bool, e: nat, writes: bool, b: nat)
    requires Core(c) && Takes(c, d, side, e)
    ensures Takes(c, d, writes, b) <==> writes == side && b == e
  {
    assert d.served[|c.served|] == ListOf(c, side, e)[0].id;
    if Takes(c, d, writes, b) && (writes != side || b != e) { HeadsDiffer(c, writes, b, side, e); }
  }

  /** The number a bank goes on counting from is that of the request it served last. */
  lemma StepNumbers(c: Ctl, step: Step, b: nat)
    requires Inv(c) && Legal(c, step) && b < |c.chan.banks|
    ensures var d := Do(c, step);
      && b < |d.chan.banks|
      && d.chan.banks[b].rowHits ==
        if Takes(c, d, true, b) then ListOf(c, true, b)[0].hits
        else if Takes(c, d, false, b) then ListOf(c, false, b)[0].hits
        else c.chan.banks[b].rowHits
  {
    var tries, cur, sysCycle := StepAttempts(c, step);
    if tries {
      var side, k := Attempt(c, cur, sysCycle);
      var a := TrySchedule(c, cur, sysCycle).0;
      if k.Some? { ServedNumber(c, a, cur, side, k.value, b); }
    }
  }

  /** Step `k` of the trace serves a request of bank `b`, from either side. */
  ghost predicate BankServes(tr: seq<Ctl>, k: nat, b: nat) {
    k + 1 < |tr| && (Takes(tr[k], tr[k + 1], true, b) || Takes(tr[k], tr[k + 1], false, b))
  }

  lemma {:induction false} NumberRemembered(tr: seq<Ctl>, steps: seq<Step>, i: nat, j: nat, writes: bool, b: nat)
    requires Trace(tr, steps) && Inv(tr[0]) && i < j <= |steps| && b < |tr[i].chan.banks|
    requires Takes(tr[i], tr[i + 1], writes, b)
    requires forall k: nat :: i < k < j ==> !BankServes(tr, k, b)
    ensures b < |tr[j].chan.banks| && tr[j].chan.banks[b].rowHits == ListOf(tr[i], writes, b)[0].hits
    decreases j
  {
    if j == i + 1 {
      NumberTaken(tr, steps, i, writes, b);
    } else {
      NumberRemembered(tr, steps, i, j - 1, writes, b);
      NumberKept(tr, steps, j - 1, b);
    }
  }

  lemma NumberTaken(tr: seq<Ctl>, steps: seq<Step>, i: nat, writes: bool, b: nat)
    requires Trace(tr, steps) && Inv(tr[0]) && i < |steps| && b < |tr[i].chan.banks|
    requires Takes(tr[i], tr[i + 1], writes, b)
    ensures b < |tr[i + 1].chan.banks| && tr[i + 1].chan.banks[b].rowHits == ListOf(tr[i], writes, b)[0].hits
  {
    TraceKeeps(tr, steps, i);
    assert Linked(tr, steps, i);
    StepNumbers(tr[i], steps[i], b);
    OnlyTaken(tr[i], tr[i + 1], writes, b, !writes, b);
  }

  lemma NumberKept(tr: seq<Ctl>, steps: seq<Step>, k: nat, b: nat)
    requires Trace(tr, steps) && Inv(tr[0]) && k < |steps| && b < |tr[k].chan.banks|
    requires !BankServes(tr, k, b)
    ensures b < |tr[k + 1].chan.banks| && tr[k + 1].chan.banks[b].rowHits == tr[k].chan.banks[b].rowHits
  {
    TraceKeeps(tr, steps, k);
    assert Linked(tr, steps, k);
    StepNumbers(tr[k], steps[k], b);
  }

  // ------------------------------------------------------------------ where a request goes

  /** The row that bank `b` holds, with the number of the request that used it last. */
  ghost function RowOf(c: Ctl, b: nat): Q.RowBuffer
    requires b < |c.chan.banks|
  {
    if c.chan.banks[b].open then Q.Open(c.chan.banks[b].openRow, c.chan.banks[b].rowHits) else Q.Closed
  }

  /** `r` has been put last into the queue of its side and in its place into the list of its bank. */
  ghost predicate PutIn(c: Ctl, d: Ctl, r: Q.Request, cycle: nat)
    requires Shape(c) && r.bank < |c.chan.banks|
  {
    var writes := c.cfg.deferredWrites && r.write;
    var s, s', b := Chosen(c, writes), Chosen(d, writes), r.bank;
    && s'.q == s.q + [Entry(r.id, b)]
    && s'.lists == s.lists[b := Q.Queued(s.lists[b], r.(arrival := cycle), RowOf(c, b), c.cfg.limit)]
    && Chosen(d, !writes) == Chosen(c, !writes)
  }

  /** A new request overflows iff the read or the write queue is full, and is queued otherwise. */
  lemma EnqueuePlace(c: Ctl, r: Q.Request, sysCycle: nat)
    requires WellFormed(c) && r.bank < |c.chan.banks|
    ensures var d, cycle := Enqueue(c, r, sysCycle), c.cfg.clock.SysToMem(sysCycle);
      && d.arrived == c.arrived + [r.id] && d.served == c.served && d.chan == c.chan
      && if |c.rd.q| >= c.cfg.depth || |c.wr.q| >= c.cfg.depth
         then d.ovf == c.ovf + [r.(arrival := cycle)] && d.rd == c.rd && d.wr == c.wr
         else d.ovf == c.ovf && PutIn(c, d, r, cycle)
  {
  }

  /** After an attempt the request that overflowed first is let in, unless a queue is still full. */
  lemma OldestAdmitted(c: Ctl, m: Option<nat>, cycle: nat)
    requires Shape(c)
    ensures var d := AdmitOverflow(c, m, cycle).0;
      && d.served == c.served && d.chan == c.chan && d.arrived == c.arrived
      && if |c.rd.q| >= c.cfg.depth || |c.wr.q| >= c.cfg.depth || c.ovf == []
         then d.ovf == c.ovf && d.rd == c.rd && d.wr == c.wr
         else d.ovf == c.ovf[1..] && PutIn(c, d, c.ovf[0], cycle)
  {
  }

  /** The earlier of a planned attempt and `x`. */
  ghost function NoLater(m: Option<nat>, x: nat): Option<nat> {
    if m.Some? && m.value <= x then m else Some(x)
  }

  /** A request heads the list of its bank iff it is alone there. */
  lemma FirstIffAlone(c: Ctl, r: Q.Request)
    requires Shape(c) && r.bank < |c.chan.banks|
    ensures BecomesFirst(c, r) <==> ListOf(c, c.cfg.deferredWrites && r.write, r.bank) == []
  {
  }

  lemma PlanIs(c: Ctl, r: Q.Request, sysCycle: nat)
    requires WellFormed(c) && r.bank < |c.chan.banks|
    ensures var d, cycle := Replanned(c, r, sysCycle), c.cfg.clock.SysToMem(sysCycle);
      var bus := T.Max(cycle, c.chan.minResp - c.chan.t.tCL - c.chan.t.tBL);
      d.next == NoLater(c.next, T.Max(bus, T.FindMinCmdCycle(c.chan, r.(arrival := cycle))))
  {
  }

  /** A request that is alone in the list of its bank brings the next attempt forward to when it can go,
      as far as is known: not before the bus is nearly free and the bank is ready for it.  No other
      request changes the plan. */
  lemma EnqueueWakes(c: Ctl, r: Q.Request, sysCycle: nat)
    requires WellFormed(c) && r.bank < |c.chan.banks|
    ensures var d, cycle := Enqueue(c, r, sysCycle), c.cfg.clock.SysToMem(sysCycle);
      var bus := T.Max(cycle, c.chan.minResp - c.chan.t.tCL - c.chan.t.tBL);
      if |c.rd.q| < c.cfg.depth && |c.wr.q| < c.cfg.depth && ListOf(c, c.cfg.deferredWrites && r.write, r.bank) == []
      then d.next == NoLater(c.next, T.Max(bus, T.FindMinCmdCycle(c.chan, r.(arrival := cycle))))
      else d.next == c.next && d.events == c.events
  {
    FirstIffAlone(c, r);
    var a := Accept(c, r, c.cfg.clock.SysToMem(sysCycle));
    assert a.chan == c.chan && a.next == c.next && a.cfg == c.cfg;
    PlanIs(a, r, sysCycle);
  }

  /** A request that is let in and alone in its list is looked at as soon as the bus is nearly free. */
  lemma AdmissionWakes(c: Ctl, m: Option<nat>, cycle: nat)
    requires Shape(c) && c.ovf != [] && |c.rd.q| < c.cfg.depth && |c.wr.q| < c.cfg.depth
    ensures var bus := T.Max(cycle, c.chan.minResp - c.chan.t.tCL - c.chan.t.tBL);
      AdmitOverflow(c, m, cycle).1 ==
        if ListOf(c, c.cfg.deferredWrites && c.ovf[0].write, c.ovf[0].bank) == [] then NoLater(m, bus) else m
  {
    FirstIffAlone(c, c.ovf[0]);
  }

  // ------------------------------------------------------------------ every command at the first cycle

  /** What a step of the controller does to the channel: nothing, the commands of the request that an
      attempt serves, or a refresh. */
  lemma StepChannel(c: Ctl, step: Step) returns (r: Option<Q.Request>, cur: nat, moreHits: bool)
    requires WellFormed(c) && Legal(c, step)
    ensures var d := Do(c, step).chan;
      match step
      case EnqueueStep(_, _) => r == None && d == c.chan
      case RefreshStep(sysCycle) => r == None && d == T.Refresh(c.chan, c.cfg.clock.SysToMem(sysCycle))
      case FireStep(i) =>
        match r
        case None => d == c.chan
        case Some(x) =>
          && x.bank < |c.chan.banks| && d == T.Issue(c.chan, x, cur, moreHits)
          && cur == c.cfg.clock.SysToMem(c.events.ev[i].cycle) && Do(c, step).served == c.served + [x.id]
  {
    r, cur, moreHits := None, 0, false;
    match step
    case EnqueueStep(x, now) => EnqueuePlace(c, x, now);
    case RefreshStep(_) =>
    case FireStep(i) =>
      if c.events.ev[i].state == QUEUED { r, cur, moreHits := FireIssues(c, i); } else { FireFreesChan(c, i); }
  }

  lemma FireFreesChan(c: Ctl, i: nat)
    requires WellFormed(c) && i < |c.events.ev| && c.events.ev[i].state != QUEUED
    ensures Fire(c, i).chan == c.chan
  {
  }

  lemma FireIssues(c: Ctl, i: nat) returns (r: Option<Q.Request>, cur: nat, moreHits: bool)
    requires WellFormed(c) && i < |c.events.ev| && c.events.ev[i].state == QUEUED
    ensures cur == c.cfg.clock.SysToMem(c.events.ev[i].cycle)
    ensures match r
      case None => Fire(c, i).chan == c.chan
      case Some(x) =>
        && x.bank < |c.chan.banks| && Fire(c, i).chan == T.Issue(c.chan, x, cur, moreHits)
        && Fire(c, i).served == c.served + [x.id]
  {
    var sysCycle := c.events.ev[i].cycle;
    cur := c.cfg.clock.SysToMem(sysCycle);
    FireChannel(c, i);
    var writes, k := Attempt(c, cur, sysCycle);
    r, moreHits := None, false;
    if k.Some? {
      var list := Chosen(c, writes).lists[Chosen(c, writes).q[k.value].bank];
      r, moreHits := Some(list[0]), |list| > 1 && list[1].hits != 0;
    }
  }

  lemma StepTight(c: Ctl, step: Step)
    requires WellFormed(c) && Legal(c, step) && T.Inv(c.chan) && E.Tight(c.chan)
    ensures E.Tight(Do(c, step).chan)
  {
    var r, cur, moreHits := StepChannel(c, step);
    match step
    case EnqueueStep(_, _) =>
    case RefreshStep(sysCycle) => E.RefreshTight(c.chan, c.cfg.clock.SysToMem(sysCycle));
    case FireStep(_) => if r.Some? { E.IssueTight(c.chan, r.value, cur, moreHits); }
  }

  lemma LinkTight(tr: seq<Ctl>, steps: seq<Step>, i: nat)
    requires Trace(tr, steps) && i < |steps| && Inv(tr[0]) && E.Tight(tr[i].chan)
    ensures E.Tight(tr[i + 1].chan)
  {
    TraceKeeps(tr, steps, i);
    assert Linked(tr, steps, i);
    StepTight(tr[i], steps[i]);
  }

  lemma {:induction false} TightAlong(tr: seq<Ctl>, steps: seq<Step>, i: nat)
    requires Trace(tr, steps) && i <= |steps| && Inv(tr[0]) && E.Tight(tr[0].chan)
    ensures E.Tight(tr[i].chan)
    decreases i
  {
    if i > 0 {
      TightAlong(tr, steps, i - 1);
      LinkTight(tr, steps, i - 1);
    }
  }

  ghost predicate EarliestHit(c: T.Channel, log: seq<T.Command>, r: Q.Request, cur: nat, closes: bool, y: nat) {
    && log == c.log + [T.Column(r.bank, r.row, y, r.write, closes)]
    && forall z: nat :: E.ColumnAllowed(c.t, c.log, cur, r, closes, z) <==> z >= y
  }

  ghost predicate EarliestMiss(c: T.Channel, log: seq<T.Command>, r: Q.Request, cur: nat, closes: bool,
                               x: nat, y: nat)
  {
    var after := c.log + [T.Act(r.bank, r.row, x)];
    && r.bank < |c.rank| && log == after + [T.Column(r.bank, r.row, y, r.write, closes)]
    && (forall z: nat :: E.ActAllowed(c.t, c.rank, c.log, r, z) <==> z >= x)
    && forall z: nat :: E.ColumnAllowed(c.t, after, cur, r, closes, z) <==> z >= y
  }

  ghost predicate EarliestRefresh(c: T.Channel, log: seq<T.Command>, cycle: nat, y: nat) {
    log == c.log + [T.Refreshed(y)] && forall z: nat :: E.RefreshAllowed(c, cycle, z) <==> z >= y
  }

  /** The commands of request `r`, chosen at `cur`, have been added to the log at the first cycles allowed: a
      column command, with an activation before it unless the row is open. */
  ghost predicate EarliestCommands(c: T.Channel, log: seq<T.Command>, r: Q.Request, cur: nat, closes: bool) {
    && r.bank < |c.banks|
    && if T.RowHit(c.banks[r.bank], r) then exists y: nat :: EarliestHit(c, log, r, cur, closes, y)
       else exists x: nat, y: nat :: EarliestMiss(c, log, r, cur, closes, x, y)
  }

  lemma IssueEarliest(c: T.Channel, r: Q.Request, cur: nat, moreHits: bool)
    requires T.Inv(c) && E.Tight(c) && r.bank < |c.banks|
    ensures EarliestCommands(c, T.Issue(c, r, cur, moreHits).log, r, cur, c.t.closedPage && !moreHits)
  {
    var closes, log := c.t.closedPage && !moreHits, T.Issue(c, r, cur, moreHits).log;
    if T.RowHit(c.banks[r.bank], r) {
      var y := E.HitIsEarliest(c, r, cur, moreHits);
      assert EarliestHit(c, log, r, cur, closes, y);
    } else {
      var x, y := E.MissIsEarliest(c, r, cur, moreHits);
      assert EarliestMiss(c, log, r, cur, closes, x, y);
    }
  }

  lemma StepEarliest(c: Ctl, step: Step) returns (r: Option<Q.Request>, cur: nat, closes: bool)
    requires WellFormed(c) && Legal(c, step) && T.Inv(c.chan) && E.Tight(c.chan)
    ensures var d := Do(c, step);
      match step
      case EnqueueStep(_, _) => d.chan.log == c.chan.log
      case RefreshStep(sysCycle) =>
        exists y: nat :: EarliestRefresh(c.chan, d.chan.log, c.cfg.clock.SysToMem(sysCycle), y)
      case FireStep(i) =>
        match r
        case None => d.chan.log == c.chan.log
        case Some(x) =>
          && d.served == c.served + [x.id] && cur == c.cfg.clock.SysToMem(c.events.ev[i].cycle)
          && EarliestCommands(c.chan, d.chan.log, x, cur, closes)
  {
    var moreHits;
    r, cur, moreHits := StepChannel(c, step);
    closes := c.chan.t.closedPage && !moreHits;
    match step
    case EnqueueStep(_, _) =>
    case RefreshStep(sysCycle) =>
      var y := E.RefreshIsEarliest(c.chan, c.cfg.clock.SysToMem(sysCycle));
      assert EarliestRefresh(c.chan, Do(c, step).chan.log, c.cfg.clock.SysToMem(sysCycle), y);
    case FireStep(_) => if r.Some? { IssueEarliest(c.chan, r.value, cur, moreHits); }
  }

  /** In every run of the controller no command comes a cycle later than it must. */
  lemma NoCycleWasted(tr: seq<Ctl>, steps: seq<Step>, i: nat) returns (r: Option<Q.Request>, cur: nat, closes: bool)
    requires Trace(tr, steps) && i < |steps| && Inv(tr[0]) && E.Tight(tr[0].chan)
    ensures var c, d := tr[i], tr[i + 1];
      match steps[i]
      case EnqueueStep(_, _) => d.chan.log == c.chan.log
      case RefreshStep(_) => exists cycle: nat, y: nat :: EarliestRefresh(c.chan, d.chan.log, cycle, y)
      case FireStep(_) =>
        match r
        case None => d.chan.log == c.chan.log
        case Some(x) => d.served == c.served + [x.id] && EarliestCommands(c.chan, d.chan.log, x, cur, closes)
  {
    TraceKeeps(tr, steps, i);
    TightAlong(tr, steps, i);
    assert Linked(tr, steps, i);
    r, cur, closes := StepEarliest(tr[i], steps[i]);
  }

  /** What these results ask of the first state holds at power-on. */
  lemma StartReady(cfg: Config, t: T.Timing, rank: seq<nat>, ranks: nat)
    requires cfg.clock.Valid() && cfg.depth > 0 && t.Valid() && (forall b :: 0 <= b < |rank| ==> rank[b] < ranks)
    ensures var c := Start(cfg, t, rank, ranks); Inv(c) && KindOk(c) && E.Tight(c.chan)
  {
    StartOk(cfg, t, rank, ranks);
    StartKind(cfg, t, rank, ranks);
    E.IdleTight(t, rank, ranks);
  }

  lemma StartKind(cfg: Config, t: T.Timing, rank: seq<nat>, ranks: nat)
    ensures KindOk(Start(cfg, t, rank, ranks))
  {
  }

  // ------------------------------------------------------------------ the event of an attempt

  /** The event that is due is queued for system cycle `x`. */
  ghost predicate DueIn(e: Events, x: nat) {
    e.due.Some? && e.due.value < |e.ev| && e.ev[e.due.value] == Event(QUEUED, x)
  }

  /** A new plan is an event in the middle of the memory cycle it is for, or now if that is past. */
  lemma EnqueueDueWhen(c: Ctl, r: Q.Request, sysCycle: nat)
    requires WellFormed(c) && r.bank < |c.chan.banks|
    ensures var d := Enqueue(c, r, sysCycle);
      if d.next == c.next then d.events == c.events
      else d.next.Some? && d.next.value > 0
           && DueIn(d.events, T.Max(sysCycle, c.cfg.clock.MatchingMemToSys(d.next.value)))
  {
    var a := Accept(c, r, c.cfg.clock.SysToMem(sysCycle));
    ReplanDueWhen(a, r, sysCycle);
  }

  lemma ReplanDueWhen(c: Ctl, r: Q.Request, sysCycle: nat)
    requires WellFormed(c) && r.bank < |c.chan.banks|
    ensures var d := Replanned(c, r, sysCycle);
      if d.next == c.next then d.events == c.events
      else d.next.Some? && d.next.value > 0
           && DueIn(d.events, T.Max(sysCycle, c.cfg.clock.MatchingMemToSys(d.next.value)))
  {
  }

  /** So is the plan an attempt leaves behind, for the event that made it; without one nothing is due. */
  lemma FireDueWhen(c: Ctl, i: nat)
    requires Inv(c) && i < |c.events.ev| && c.events.ev[i].state == QUEUED
    ensures var d, now := Fire(c, i), c.events.ev[i].cycle;
      if d.next == None then d.events.due == None
      else d.next.value > 0 && d.events.due == Some(i)
           && DueIn(d.events, T.Max(now, c.cfg.clock.MatchingMemToSys(d.next.value)))
  {
    var now := c.events.ev[i].cycle;
    TickKeeps(c, now);
    SettleDueWhen(Tick(c, now), i, now);
  }

  lemma SettleDueWhen(a: Ctl, i: nat, now: nat)
    requires a.cfg.clock.Valid() && EventsShape(a.events) && i < |a.events.ev| && a.events.due == Some(i)
    requires a.next.Some? ==> a.next.value >= a.cfg.clock.SysToMem(now)
    ensures var d := Settle(a, i, now);
      && d.next == a.next && d.cfg == a.cfg
      && if a.next == None then d.events.due == None
         else a.next.value > 0 && d.events.due == Some(i)
              && DueIn(d.events, T.Max(now, a.cfg.clock.MatchingMemToSys(a.next.value)))
  {
    if a.next.Some? { EventArrivesOnTime(a.cfg.clock, a.next.value, now); }
  }
}

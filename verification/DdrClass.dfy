/**
 The controller as the program runs it: an object whose methods update its queues, its events and,
 through the channel, banks and cycles in place.  Each method is proved to compute the corresponding
 step of the model.
 */
module DdrClass {
  import opened BankQueue
  import opened Collections
  import opened DdrChannel
  import opened DdrClock
  import opened DdrController
  import opened DdrSafety
  import T = DdrTiming

  class DdrMemory {
    const cfg: Config
    const chan: BankedChannel
    var rd: Side
    var wr: Side
    var ovf: seq<Request>
    var nextSchedCycle: Option<nat>
    var evs: seq<Event>
    var nextSchedEvent: Option<nat>
    var eventFreelist: seq<nat>
    var ok: bool
    ghost var arrived: seq<nat>
    ghost var served: seq<nat>

    ghost function View(): Ctl
      requires chan.Valid()
      reads this, chan, chan.banks, chan.windows, chan.Bufs()
    {
      Ctl(cfg, chan.View(), rd, wr, ovf, nextSchedCycle, Events(evs, nextSchedEvent, eventFreelist),
          ok, arrived, served)
    }

    ghost predicate Valid()
      reads this, chan, chan.banks, chan.windows, chan.Bufs()
    {
      chan.Valid() && WellFormed(View())
    }

    constructor (cfg: Config, t: T.Timing, rank: seq<nat>, ranks: nat)
      ensures chan.Valid() && View() == Start(cfg, t, rank, ranks)
      ensures fresh(chan) && fresh(chan.banks) && fresh(chan.windows) && fresh(chan.Bufs())
    {
      this.cfg := cfg;
      chan := new BankedChannel(t, rank, ranks);
      var none := Side([], seq(|rank|, _ => []));
      rd, wr, ovf, nextSchedCycle := none, none, [], None;
      evs, nextSchedEvent, eventFreelist, ok, arrived, served := [], None, [], true, [], [];
    }

    // ---------------------------------------------------------------- events

    method AnnulDue()
      requires nextSchedEvent.Some? ==> nextSchedEvent.value < |evs|
      modifies `evs, `ok
      ensures nextSchedEvent.None? ==> evs == old(evs) && ok == old(ok)
      ensures nextSchedEvent.Some? ==> var i := nextSchedEvent.value;
        evs == old(evs)[i := old(evs)[i].(state := ANNULLED)] && ok == (old(ok) && old(evs)[i].state == QUEUED)
    {
      if nextSchedEvent.Some? {
        var i := nextSchedEvent.value;
        ok := ok && evs[i].state == QUEUED;
        evs := evs[i := evs[i].(state := ANNULLED)];
      }
    }

    /** Annuls the due event, takes a free or a new one, and queues it. */
    method ArrangeEvents(sysCycle: nat)
      requires EventsShape(Events(evs, nextSchedEvent, eventFreelist))
      modifies `evs, `nextSchedEvent, `eventFreelist, `ok
      ensures var r := Arrange(old(Events(evs, nextSchedEvent, eventFreelist)), sysCycle);
        Events(evs, nextSchedEvent, eventFreelist) == r.0 && ok == (old(ok) && r.1)
    {
      AnnulDue();
      var i: nat;
      if eventFreelist != [] {
        i := eventFreelist[0];
        eventFreelist := eventFreelist[1..];
      } else {
        i := |evs|;
        evs := evs + [Event(IDLE, 0)];
      }
      nextSchedEvent := Some(i);
      ok := ok && evs[i].state == IDLE;
      evs := evs[i := Event(QUEUED, sysCycle)];
    }

    method ArrangeEvent(sysCycle: nat)
      requires Valid()
      modifies `evs, `nextSchedEvent, `eventFreelist, `ok
      ensures chan.Valid()
      ensures var c := old(View());
        View() == c.(events := Arrange(c.events, sysCycle).0, ok := c.ok && Arrange(c.events, sysCycle).1)
    {
      ArrangeEvents(sysCycle);
    }

    /** An event that has fired and is not needed goes to the free list. */
    method RecycleEvent(i: nat)
      requires Valid() && i < |evs|
      modifies `evs, `eventFreelist, `ok
      ensures chan.Valid()
      ensures var c := old(View());
        View() == c.(events := Recycle(c.events, i).0, ok := c.ok && Recycle(c.events, i).1)
    {
      evs := evs[i := evs[i].(state := IDLE)];
      ok := ok && nextSchedEvent != Some(i);
      eventFreelist := [i] + eventFreelist;
    }

    // ---------------------------------------------------------------- queueing

    /** `queue`: the slot in the bank list is found by a loop from its back. */
    method QueueRequest(r: Request, cycle: nat) returns (first: bool)
      requires Valid() && r.bank < chan.banks.Length
      modifies `rd, `wr
      ensures chan.Valid() && View() == Queue(old(View()), r, cycle)
      ensures first == BecomesFirst(old(View()), r)
    {
      var onWriteSide := OnWriteSide(cfg, r);
      var s := if onWriteSide then wr else rd;
      var list := s.lists[r.bank];
      var k, hits := FindSlot(list, r.row, BufferOf(chan.banks[r.bank]), cfg.limit);
      list := list[..k] + [r.(arrival := cycle, hits := hits)] + list[k..];
      s := Side(s.q + [Entry(r.id, r.bank)], s.lists[r.bank := list]);
      if onWriteSide { wr := s; } else { rd := s; }
      first := k == 0;
    }

    /** The request overflows, or is queued; `first` if it became the first of its bank. */
    method AcceptRequest(r: Request, memCycle: nat) returns (first: bool)
      requires Valid() && r.bank < chan.banks.Length
      modifies `rd, `wr, `ovf, `arrived
      ensures chan.Valid() && View() == Accept(old(View()), r, memCycle)
      ensures first == (!Full(old(View())) && BecomesFirst(old(View()), r))
    {
      ghost var c := View();
      arrived := arrived + [r.id];
      if |rd.q| >= cfg.depth || |wr.q| >= cfg.depth {
        ovf := ovf + [r.(arrival := memCycle)];
        first := false;
      } else {
        assert View() == c.(arrived := c.arrived + [r.id]);
        first := QueueRequest(r, memCycle);
      }
    }

    /** When a request that is the first of its bank may have to be looked at. */
    function FirstLook(r: Request, memCycle: nat): (minSchedCycle: nat)
      requires Valid() && r.bank < chan.banks.Length
      reads this, chan, chan.banks, chan.windows, chan.Bufs()
      ensures minSchedCycle == DueAt(View(), r, memCycle)
    {
      var minSchedCycle := T.Max(memCycle, chan.minRespCycle - chan.t.tCL - chan.t.tBL);
      if !Later(nextSchedCycle, minSchedCycle) then minSchedCycle
      else T.Max(minSchedCycle, chan.MinCmdCycle(r.(arrival := memCycle)))
    }

    /** Looks at a request that is the first of its bank: an earlier attempt may be needed. */
    method PlanFor(r: Request, sysCycle: nat)
      requires Valid() && r.bank < chan.banks.Length
      modifies `evs, `nextSchedEvent, `eventFreelist, `ok, `nextSchedCycle
      ensures chan.Valid() && View() == Replanned(old(View()), r, sysCycle)
    {
      var minSchedCycle := FirstLook(r, cfg.clock.SysToMem(sysCycle));
      if Later(nextSchedCycle, minSchedCycle) { WakeAt(minSchedCycle, sysCycle); }
    }

    method EnqueueRequest(r: Request, sysCycle: nat)
      requires Valid() && r.bank < chan.banks.Length
      modifies this
      ensures chan.Valid() && View() == Enqueue(old(View()), r, sysCycle)
    {
      var first := AcceptRequest(r, cfg.clock.SysToMem(sysCycle));
      if first { PlanFor(r, sysCycle); }
    }

    /** An attempt is due at `minSchedCycle`. */
    method WakeAt(minSchedCycle: nat, sysCycle: nat)
      requires Valid() && minSchedCycle > 0
      modifies `evs, `nextSchedEvent, `eventFreelist, `ok, `nextSchedCycle
      ensures chan.Valid()
      ensures var c := old(View());
        var (events, fine) := Arrange(c.events, EventCycle(c.cfg.clock, minSchedCycle, sysCycle));
        View() == c.(events := events, next := Some(minSchedCycle), ok := c.ok && fine)
    {
      ArrangeEvent(EventCycle(cfg.clock, minSchedCycle, sysCycle));
      nextSchedCycle := Some(minSchedCycle);
    }

    // ---------------------------------------------------------------- scheduling

    /** The scan of one queue: the first request that can be issued, or when the earliest can be. */
    method Scan(s: Side, curCycle: nat) returns (k: nat, minSchedCycle: Option<nat>)
      requires chan.Valid() && T.Shape(chan.View()) && SideShape(s, chan.banks.Length)
      ensures k == FirstReady(s, chan.View(), curCycle, 0)
      ensures k == |s.q| ==> minSchedCycle == Earliest(s, chan.View(), |s.q|)
    {
      k, minSchedCycle := 0, None;
      ghost var c := chan.View();
      while k < |s.q|
        invariant k <= |s.q| && FirstReady(s, c, curCycle, k) == FirstReady(s, c, curCycle, 0)
        invariant minSchedCycle == Earliest(s, c, k)
      {
        var e := s.q[k];
        if IsFront(s, e) {
          assert InBank(s.lists[e.bank], e.bank);
          var minCmdCycle := chan.MinCmdCycle(s.lists[e.bank][0]);
          if minCmdCycle <= curCycle { return; }
          if Later(minSchedCycle, minCmdCycle) { minSchedCycle := Some(minCmdCycle); }
        }
        k := k + 1;
      }
    }

    method IssueCommands(r: Request, curCycle: nat, moreHits: bool) returns (fine: bool)
      requires Valid() && r.bank < chan.banks.Length
      modifies chan`log, chan`minRespCycle, chan`lastCmdWasWrite, chan.banks, chan.windows, chan.Bufs()
      ensures chan.Valid()
      ensures var c := old(View()); View() == c.(chan := T.Issue(c.chan, r, curCycle, moreHits))
      ensures fine == T.IssueAsserts(old(View()).chan, r, curCycle)
    {
      fine := chan.Issue(r, curCycle, moreHits);
    }

    /** Issues the commands of a request and answers it. */
    method IssueRequest(r: Request, curCycle: nat, sysCycle: nat, moreHits: bool)
      requires Valid() && r.bank < chan.banks.Length
      modifies `ok, chan`log, chan`minRespCycle, chan`lastCmdWasWrite, chan.banks, chan.windows, chan.Bufs()
      ensures chan.Valid()
      ensures var c := old(View());
        var d := T.Issue(c.chan, r, curCycle, moreHits);
        View() == c.(chan := d,
                     ok := c.ok && T.IssueAsserts(c.chan, r, curCycle) && AnswerAsserts(c.cfg, r, d.minResp, sysCycle))
    {
      var fine := IssueCommands(r, curCycle, moreHits);
      ok := ok && fine && AnswerAsserts(cfg, r, chan.minRespCycle, sysCycle);
    }

    /** Takes entry `k` out of its queue and, as the first one, out of its bank list. */
    method Dequeue(isWriteQueue: bool, k: nat)
      requires chan.Valid()
      requires var s := Chosen(View(), isWriteQueue); k < |s.q| && IsFront(s, s.q[k])
      modifies `rd, `wr, `served
      ensures chan.Valid()
      ensures var c := old(View());
        var s := Remove(Chosen(c, isWriteQueue), k);
        View() == c.(rd := if isWriteQueue then c.rd else s, wr := if isWriteQueue then s else c.wr,
                     served := c.served + [Chosen(c, isWriteQueue).q[k].id])
    {
      var s := if isWriteQueue then wr else rd;
      var e := s.q[k];
      s := Side(s.q[..k] + s.q[k + 1..], s.lists[e.bank := s.lists[e.bank][1..]]);
      if isWriteQueue { wr := s; } else { rd := s; }
      served := served + [e.id];
    }

    method IssueChosen(curCycle: nat, sysCycle: nat, isWriteQueue: bool, k: nat)
      requires Valid()
      requires var s := Chosen(View(), isWriteQueue); k < |s.q| && IsFront(s, s.q[k])
      modifies `rd, `wr, `ok, `served
      modifies chan`log, chan`minRespCycle, chan`lastCmdWasWrite, chan.banks, chan.windows, chan.Bufs()
      ensures chan.Valid() && View() == IssueEntry(old(View()), curCycle, sysCycle, isWriteQueue, k)
    {
      var s := if isWriteQueue then wr else rd;
      var list := s.lists[s.q[k].bank];
      assert InBank(list, s.q[k].bank);
      IssueRequest(list[0], curCycle, sysCycle, |list| > 1 && list[1].hits != 0);
      Dequeue(isWriteQueue, k);
    }

    method PlanNext() returns (minSchedCycle: Option<nat>)
      requires chan.Valid() && T.Shape(chan.View())
      ensures minSchedCycle == NextAfter(View())
    {
      if |rd.q| == 0 && |wr.q| == 0 { return None; }
      minSchedCycle := Some(chan.minRespCycle - chan.t.tCL);
    }

    /** Whether to issue a request now, which one, and otherwise when to try again. */
    method Choose(curCycle: nat) returns (choice: Option<nat>, isWriteQueue: bool, retry: Option<nat>, fine: bool)
      requires Valid()
      ensures choice == Choice(View(), curCycle) && isWriteQueue == WritesFirst(View())
      ensures choice == None ==> retry == Retry(View(), curCycle)
      ensures fine == ScanAsserts(View(), curCycle)
    {
      var prioWrites := |wr.q| > 3 * cfg.depth / 4 || (chan.lastCmdWasWrite && |wr.q| > cfg.depth / 4);
      isWriteQueue := |rd.q| == 0 || prioWrites;
      if |rd.q| == 0 && |wr.q| == 0 { return None, isWriteQueue, None, true; }
      if curCycle + chan.t.tCL < chan.minRespCycle {
        return None, isWriteQueue, Some(chan.minRespCycle - chan.t.tCL), true;
      }
      var s := if isWriteQueue then wr else rd;
      fine := s.q != [];
      var k, earliest := Scan(s, curCycle);
      choice, retry := if k < |s.q| then Some(k) else None, earliest;
    }

    method Check(fine: bool)
      requires chan.Valid()
      modifies `ok
      ensures chan.Valid()
      ensures var c := old(View()); View() == c.(ok := c.ok && fine)
    {
      ok := ok && fine;
    }

    method TryScheduleOne(curCycle: nat, sysCycle: nat) returns (minSchedCycle: Option<nat>)
      requires Valid()
      modifies `rd, `wr, `ok, `served
      modifies chan`log, chan`minRespCycle, chan`lastCmdWasWrite, chan.banks, chan.windows, chan.Bufs()
      ensures chan.Valid() && (View(), minSchedCycle) == TrySchedule(old(View()), curCycle, sysCycle)
    {
      ghost var c := View();
      var choice, isWriteQueue, retry, fine := Choose(curCycle);
      if choice == None {
        Check(fine);
        NothingIssued(c, curCycle, sysCycle, View());
        return retry;
      }
      IssueChosen(curCycle, sysCycle, isWriteQueue, choice.value);
      SomethingIssued(c, curCycle, sysCycle, choice.value, View());
      minSchedCycle := PlanNext();
    }

    method AdmitFirst(memCycle: nat) returns (first: bool)
      requires Valid() && ovf != []
      modifies `rd, `wr, `ovf
      ensures chan.Valid() && View() == Admit(old(View()), memCycle)
      ensures first == BecomesFirst(old(View()), old(ovf)[0])
    {
      ghost var c := View();
      var r := ovf[0];
      ovf := ovf[1..];
      assert View() == c.(ovf := c.ovf[1..]);
      first := QueueRequest(r, memCycle);
    }

    /** A request that is the first of its bank may be due earlier than planned. */
    function LookAgain(plan: Option<nat>, r: Request, memCycle: nat): (minSchedCycle: Option<nat>)
      requires chan.Valid() && T.Shape(chan.View()) && r.bank < chan.banks.Length
      reads chan, chan.banks, chan.windows, chan.Bufs()
      ensures minSchedCycle == Sooner(chan.View(), plan, r, memCycle)
    {
      var minQueued := T.Max(memCycle, chan.minRespCycle - chan.t.tCL - chan.t.tBL);
      var due := if !Later(plan, minQueued) then plan
                 else Some(T.Max(minQueued, chan.MinCmdCycle(r.(arrival := memCycle))));
      if Later(due, minQueued) then Some(minQueued) else due
    }

    /** Lets one overflowed request in, if there is room; it may be due earlier than planned. */
    method AdmitOne(plan: Option<nat>, memCycle: nat) returns (minSchedCycle: Option<nat>)
      requires Valid()
      modifies `rd, `wr, `ovf
      ensures chan.Valid() && (View(), minSchedCycle) == AdmitOverflow(old(View()), plan, memCycle)
    {
      minSchedCycle := plan;
      ghost var c := View();
      if |rd.q| < cfg.depth && |wr.q| < cfg.depth && ovf != [] {
        var r := ovf[0];
        var first := AdmitFirst(memCycle);
        assert chan.View() == c.chan;
        if first { minSchedCycle := LookAgain(plan, r, memCycle); }
      }
    }

    method FinishTick(plan: Option<nat>, memCycle: nat)
      requires Valid()
      modifies `rd, `wr, `ovf, `ok, `nextSchedCycle
      ensures chan.Valid() && View() == TickRest(old(View()), plan, memCycle)
    {
      var onTime := nextSchedCycle == Some(memCycle);
      var minSchedCycle := AdmitOne(plan, memCycle);
      SetNext(minSchedCycle, onTime && (plan.None? || plan.value >= memCycle));
    }

    method SetNext(minSchedCycle: Option<nat>, fine: bool)
      requires chan.Valid()
      modifies `ok, `nextSchedCycle
      ensures chan.Valid()
      ensures var c := old(View()); View() == c.(next := minSchedCycle, ok := c.ok && fine)
    {
      ok := ok && fine;
      nextSchedCycle := minSchedCycle;
    }

    /** `tick`: one scheduling attempt, then room for overflow, then the time of the next attempt. */
    method TickAt(sysCycle: nat)
      requires Valid()
      modifies this
      modifies chan`log, chan`minRespCycle, chan`lastCmdWasWrite, chan.banks, chan.windows, chan.Bufs()
      ensures chan.Valid() && View() == Tick(old(View()), sysCycle)
    {
      var memCycle := cfg.clock.SysToMem(sysCycle);
      var plan := TryScheduleOne(memCycle, sysCycle);
      FinishTick(plan, memCycle);
    }

    // ---------------------------------------------------------------- firing

    method SettleEvent(i: nat, sysCycle: nat)
      requires Valid() && i < |evs|
      modifies `evs, `nextSchedEvent, `eventFreelist, `ok
      ensures chan.Valid() && View() == Settle(old(View()), i, sysCycle)
    {
      var nextCycle := 0;
      if nextSchedCycle.None? {
        nextSchedEvent := None;
      } else if nextSchedCycle.value > 0 {
        nextCycle := EventCycle(cfg.clock, nextSchedCycle.value, sysCycle);
      }
      if nextCycle != 0 {
        evs := evs[i := Event(QUEUED, nextCycle)];
      } else {
        RecycleEvent(i);
      }
    }

    /** `SchedEvent::simulate` for event `i`. */
    method Simulate(i: nat)
      requires Valid() && i < |evs|
      modifies this
      modifies chan`log, chan`minRespCycle, chan`lastCmdWasWrite, chan.banks, chan.windows, chan.Bufs()
      ensures chan.Valid() && View() == Fire(old(View()), i)
    {
      var e := evs[i];
      if e.state == QUEUED {
        TickAt(e.cycle);
        SettleEvent(i, e.cycle);
      } else {
        ok := ok && e.state == ANNULLED;
        RecycleEvent(i);
      }
    }

    method RefreshNow(sysCycle: nat)
      requires Valid()
      modifies chan`log, chan.banks
      ensures chan.Valid() && View() == RefreshAt(old(View()), sysCycle)
    {
      chan.Refresh(cfg.clock.SysToMem(sysCycle));
    }
  }

  lemma NothingIssued(c: Ctl, cur: nat, sysCycle: nat, d: Ctl)
    requires Shape(c) && Choice(c, cur) == None && d == c.(ok := c.ok && ScanAsserts(c, cur))
    ensures TrySchedule(c, cur, sysCycle) == (d, Retry(c, cur))
  {
  }

  lemma SomethingIssued(c: Ctl, cur: nat, sysCycle: nat, k: nat, d: Ctl)
    requires Shape(c) && Choice(c, cur) == Some(k) && d == IssueEntry(c, cur, sysCycle, WritesFirst(c), k)
    ensures TrySchedule(c, cur, sysCycle) == (d, NextAfter(d))
  {
  }
}

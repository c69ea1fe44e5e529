/**
 The DDR controller as a whole: request queues, per-bank lists, the overflow queue, and the events
 that wake the scheduler.

 A request enters through `Enqueue`.  Whenever requests are waiting, one scheduling event is due;
 when it fires, `Tick` issues at most one command, lets one overflowed request in, and arranges
 for the next event.  Requests are known by an id; a queue holds them in order of arrival.
 */
module DdrController {
  import opened BankQueue
  import opened Collections
  import opened DdrClock
  import T = DdrTiming

  datatype Entry = Entry(id: nat, bank: nat)

  /** The read or the write side: one queue, and the same requests in a list per bank. */
  datatype Side = Side(q: seq<Entry>, lists: seq<seq<Request>>)

  datatype EventState = IDLE | QUEUED | ANNULLED

  datatype Event = Event(state: EventState, cycle: nat)

  /** Event numbers: `due` is the one that will wake the scheduler, `free` the ones to reuse. */
  datatype Events = Events(ev: seq<Event>, due: Option<nat>, free: seq<nat>)

  /** `latency` is the controller's own delay, in system cycles. */
  datatype Config = Config(clock: Clock, depth: nat, limit: nat, deferredWrites: bool, latency: nat)

  /** `next` is the memory cycle of the next scheduling attempt; `ok` says no assertion has failed;
      `arrived` and `served` are kept for the proof. */
  datatype Ctl = Ctl(cfg: Config, chan: T.Channel, rd: Side, wr: Side, ovf: seq<Request>,
                     next: Option<nat>, events: Events, ok: bool, arrived: seq<nat>, served: seq<nat>)

  ghost predicate Shape(c: Ctl) {
    && T.Shape(c.chan) && c.cfg.clock.Valid()
    && SideShape(c.rd, |c.chan.banks|) && SideShape(c.wr, |c.chan.banks|)
    && (forall i :: 0 <= i < |c.ovf| ==> c.ovf[i].bank < |c.chan.banks|)
  }

  /** Event numbers are numbers of events. */
  ghost predicate EventsShape(e: Events) {
    (e.due.Some? ==> e.due.value < |e.ev|) && forall k :: 0 <= k < |e.free| ==> e.free[k] < |e.ev|
  }

  ghost predicate WellFormed(c: Ctl) { Shape(c) && EventsShape(c.events) }

  ghost predicate SideShape(s: Side, banks: nat) {
    && |s.lists| == banks
    && (forall i :: 0 <= i < |s.q| ==> s.q[i].bank < banks)
    && (forall b :: 0 <= b < banks ==> InBank(s.lists[b], b))
  }

  ghost predicate InBank(q: seq<Request>, b: nat) {
    forall i :: 0 <= i < |q| ==> q[i].bank == b
  }

  // ------------------------------------------------------------------ queueing

  function BufferOf(bank: T.Bank): RowBuffer {
    if bank.open then Open(bank.openRow, bank.rowHits) else Closed
  }

  function Add(s: Side, r: Request, buffer: RowBuffer, limit: nat): (s': Side)
    requires r.bank < |s.lists|
  {
    Side(s.q + [Entry(r.id, r.bank)], s.lists[r.bank := Queued(s.lists[r.bank], r, buffer, limit)])
  }

  lemma AddShape(s: Side, r: Request, buffer: RowBuffer, limit: nat)
    requires SideShape(s, |s.lists|) && r.bank < |s.lists|
    ensures SideShape(Add(s, r, buffer, limit), |s.lists|)
  {
    assert InBank(s.lists[r.bank], r.bank);
    assert InBank(Queued(s.lists[r.bank], r, buffer, limit), r.bank);
  }

  predicate OnWriteSide(cfg: Config, r: Request) { cfg.deferredWrites && r.write }

  function SideOf(c: Ctl, r: Request): Side {
    if OnWriteSide(c.cfg, r) then c.wr else c.rd
  }

  /** `queue`: into the queue and the bank list of its side, at memory cycle `cycle`. */
  function Queue(c: Ctl, r: Request, cycle: nat): (d: Ctl)
    requires Shape(c) && r.bank < |c.chan.banks|
    ensures Shape(d)
  {
    AddShape(SideOf(c, r), r.(arrival := cycle), BufferOf(c.chan.banks[r.bank]), c.cfg.limit);
    var s := Add(SideOf(c, r), r.(arrival := cycle), BufferOf(c.chan.banks[r.bank]), c.cfg.limit);
    if OnWriteSide(c.cfg, r) then c.(wr := s) else c.(rd := s)
  }

  /** The new request has become the first of its bank list. */
  predicate BecomesFirst(c: Ctl, r: Request)
    requires Shape(c) && r.bank < |c.chan.banks|
  {
    Slot(SideOf(c, r).lists[r.bank], r.row, BufferOf(c.chan.banks[r.bank]), c.cfg.limit).0 == 0
  }

  predicate Full(c: Ctl) {
    |c.rd.q| >= c.cfg.depth || |c.wr.q| >= c.cfg.depth
  }

  predicate Later(a: Option<nat>, b: nat) { a.None? || a.value > b }

  /** The first cycle after `cycle` at which the data bus leaves room for a command. */
  function BusCycle(chan: T.Channel, cycle: nat): nat
    requires T.Shape(chan)
  {
    T.Max(cycle, chan.minResp - chan.t.tCL - chan.t.tBL)
  }

  // ------------------------------------------------------------------ events

  /** The due event, if any, is annulled, and another one is queued for system cycle `cycle`. */
  function Arrange(e: Events, cycle: nat): (r: (Events, bool))
    requires EventsShape(e)
    ensures EventsShape(r.0)
  {
    var wasQueued := e.due.None? || e.ev[e.due.value].state == QUEUED;
    var ev := if e.due.Some? then e.ev[e.due.value := e.ev[e.due.value].(state := ANNULLED)] else e.ev;
    if e.free != [] then
      var i := e.free[0];
      (Events(ev[i := Event(QUEUED, cycle)], Some(i), e.free[1..]), wasQueued && ev[i].state == IDLE)
    else
      (Events(ev + [Event(QUEUED, cycle)], Some(|ev|), e.free), wasQueued)
  }

  function Recycle(e: Events, i: nat): (r: (Events, bool))
    requires EventsShape(e) && i < |e.ev|
    ensures EventsShape(r.0)
  {
    (Events(e.ev[i := e.ev[i].(state := IDLE)], e.due, [i] + e.free), e.due != Some(i))
  }

  // ------------------------------------------------------------------ a new request

  /** The request is queued, or overflows when a queue is full. */
  function Accept(c: Ctl, r: Request, cycle: nat): (d: Ctl)
    requires Shape(c) && r.bank < |c.chan.banks|
    ensures Shape(d) && d == c.(rd := d.rd, wr := d.wr, ovf := d.ovf, arrived := d.arrived)
  {
    var c1 := c.(arrived := c.arrived + [r.id]);
    if Full(c) then c1.(ovf := c.ovf + [r.(arrival := cycle)]) else Queue(c1, r, cycle)
  }

  /** A request that became the first of its bank may have to be looked at earlier than planned. */
  function DueAt(c: Ctl, r: Request, cycle: nat): (at: nat)
    requires Shape(c) && r.bank < |c.chan.banks|
    ensures at >= cycle
  {
    var bus := BusCycle(c.chan, cycle);
    if Later(c.next, bus) then T.Max(bus, T.FindMinCmdCycle(c.chan, r.(arrival := cycle))) else bus
  }

  /** The event for a request that is the first of its bank, if it is needed. */
  function Replanned(c: Ctl, r: Request, sysCycle: nat): (d: Ctl)
    requires WellFormed(c) && r.bank < |c.chan.banks|
    ensures WellFormed(d)
  {
    var at := DueAt(c, r, c.cfg.clock.SysToMem(sysCycle));
    if !Later(c.next, at) then c else
    var (events, fine) := Arrange(c.events, EventCycle(c.cfg.clock, at, sysCycle));
    c.(events := events, next := Some(at), ok := c.ok && fine)
  }

  function Enqueue(c: Ctl, r: Request, sysCycle: nat): (d: Ctl)
    requires WellFormed(c) && r.bank < |c.chan.banks|
    ensures WellFormed(d)
  {
    var d := Accept(c, r, c.cfg.clock.SysToMem(sysCycle));
    if Full(c) || !BecomesFirst(c, r) then d else Replanned(d, r, sysCycle)
  }

  // ------------------------------------------------------------------ the scheduler

  predicate IsFront(s: Side, e: Entry) {
    e.bank < |s.lists| && s.lists[e.bank] != [] && s.lists[e.bank][0].id == e.id
  }

  predicate Ready(s: Side, chan: T.Channel, cur: nat, e: Entry)
    requires T.Shape(chan) && SideShape(s, |chan.banks|)
  {
    IsFront(s, e) && T.FindMinCmdCycle(chan, s.lists[e.bank][0]) <= cur
  }

  /** The first entry from position `i` on that can be issued at `cur`, or the length of the queue. */
  function FirstReady(s: Side, chan: T.Channel, cur: nat, i: nat): (k: nat)
    requires T.Shape(chan) && SideShape(s, |chan.banks|) && i <= |s.q|
    ensures i <= k <= |s.q| && (k < |s.q| ==> Ready(s, chan, cur, s.q[k]))
    ensures forall j :: i <= j < k ==> !Ready(s, chan, cur, s.q[j])
    decreases |s.q| - i
  {
    if i == |s.q| || Ready(s, chan, cur, s.q[i]) then i else FirstReady(s, chan, cur, i + 1)
  }

  /** The earliest cycle at which one of the first `k` entries can be issued. */
  function Earliest(s: Side, chan: T.Channel, k: nat): (m: Option<nat>)
    requires T.Shape(chan) && SideShape(s, |chan.banks|) && k <= |s.q|
  {
    if k == 0 then None else
    var m, e := Earliest(s, chan, k - 1), s.q[k - 1];
    if !IsFront(s, e) then m else
    var x := T.FindMinCmdCycle(chan, s.lists[e.bank][0]);
    if Later(m, x) then Some(x) else m
  }

  /** Writes go first when their queue is getting full, or is not drained yet. */
  predicate WritesFirst(c: Ctl) {
    |c.rd.q| == 0 || |c.wr.q| > 3 * c.cfg.depth / 4 || (c.chan.lastWrite && |c.wr.q| > c.cfg.depth / 4)
  }

  function Remove(s: Side, k: nat): (s': Side)
    requires k < |s.q| && IsFront(s, s.q[k])
  {
    var b := s.q[k].bank;
    Side(s.q[..k] + s.q[k + 1..], s.lists[b := s.lists[b][1..]])
  }

  lemma RemoveShape(s: Side, k: nat)
    requires SideShape(s, |s.lists|) && k < |s.q| && IsFront(s, s.q[k])
    ensures SideShape(Remove(s, k), |s.lists|)
  {
    assert InBank(s.lists[s.q[k].bank], s.q[k].bank);
  }

  function Chosen(c: Ctl, writes: bool): Side { if writes then c.wr else c.rd }

  /** A write was answered on arrival; a read is answered when its data is there, not in the past. */
  predicate AnswerAsserts(cfg: Config, r: Request, minResp: nat, sysCycle: nat)
    requires cfg.clock.Valid()
  {
    r.write || cfg.clock.MemToSys(minResp) + cfg.latency >= sysCycle
  }

  /** Entry `k` of the chosen side, the front of its bank, is issued and removed. */
  function IssueEntry(c: Ctl, cur: nat, sysCycle: nat, writes: bool, k: nat): (d: Ctl)
    requires Shape(c) && k < |Chosen(c, writes).q| && IsFront(Chosen(c, writes), Chosen(c, writes).q[k])
    ensures Shape(d) && d.chan.minResp >= cur + d.chan.t.tCL
  {
    var s := Chosen(c, writes);
    assert InBank(s.lists[s.q[k].bank], s.q[k].bank);
    RemoveShape(s, k);
    var list := s.lists[s.q[k].bank];
    var chan := T.Issue(c.chan, list[0], cur, |list| > 1 && list[1].hits != 0);
    var s' := Remove(s, k);
    c.(chan := chan,
       ok := c.ok && T.IssueAsserts(c.chan, list[0], cur) && AnswerAsserts(c.cfg, list[0], chan.minResp, sysCycle),
       rd := if writes then c.rd else s', wr := if writes then s' else c.wr,
       served := c.served + [s.q[k].id])
  }

  /** The entry that `trySchedule` issues at `cur`, if the data bus and a bank are ready for one. */
  function Choice(c: Ctl, cur: nat): (k: Option<nat>)
    requires Shape(c)
    ensures var s := Chosen(c, WritesFirst(c)); k.Some? ==> k.value < |s.q| && IsFront(s, s.q[k.value])
  {
    if cur + c.chan.t.tCL < c.chan.minResp then None else
    var s := Chosen(c, WritesFirst(c));
    var k := FirstReady(s, c.chan, cur, 0);
    if k < |s.q| then Some(k) else None
  }

  /** When to try again after an attempt that issued nothing. */
  function Retry(c: Ctl, cur: nat): Option<nat>
    requires Shape(c)
  {
    if |c.rd.q| == 0 && |c.wr.q| == 0 then None
    else if cur + c.chan.t.tCL < c.chan.minResp then Some(c.chan.minResp - c.chan.t.tCL)
    else var s := Chosen(c, WritesFirst(c)); Earliest(s, c.chan, |s.q|)
  }

  /** Once the scan begins, the chosen queue must not be empty. */
  predicate ScanAsserts(c: Ctl, cur: nat) {
    (|c.rd.q| == 0 && |c.wr.q| == 0) || cur + c.chan.t.tCL < c.chan.minResp || Chosen(c, WritesFirst(c)).q != []
  }

  /** When to try again after a command was issued. */
  function NextAfter(c: Ctl): Option<nat>
    requires T.Shape(c.chan)
  {
    if |c.rd.q| == 0 && |c.wr.q| == 0 then None else Some(c.chan.minResp - c.chan.t.tCL)
  }

  /** `trySchedule`; the second result is the cycle of the next attempt. */
  function TrySchedule(c: Ctl, cur: nat, sysCycle: nat): (r: (Ctl, Option<nat>))
    requires Shape(c)
    ensures Shape(r.0) && r.0.events == c.events && r.0.cfg == c.cfg
  {
    match Choice(c, cur)
    case None => (c.(ok := c.ok && ScanAsserts(c, cur)), Retry(c, cur))
    case Some(k) =>
      var d := IssueEntry(c, cur, sysCycle, WritesFirst(c), k);
      (d, NextAfter(d))
  }

  /** The first overflowed request is let in. */
  function Admit(c: Ctl, cycle: nat): (d: Ctl)
    requires Shape(c) && c.ovf != []
    ensures Shape(d)
  {
    Queue(c.(ovf := c.ovf[1..]), c.ovf[0], cycle)
  }

  /** It may be due earlier than what has been found so far. */
  function AdmitPlan(c: Ctl, m: Option<nat>, cycle: nat): Option<nat>
    requires Shape(c) && c.ovf != []
  {
    if !BecomesFirst(c, c.ovf[0]) then m else Sooner(c.chan, m, c.ovf[0], cycle)
  }

  function Sooner(chan: T.Channel, m: Option<nat>, x: Request, cycle: nat): Option<nat>
    requires T.Shape(chan) && x.bank < |chan.banks|
  {
    var bus := BusCycle(chan, cycle);
    var m1 := if Later(m, bus) then Some(T.Max(bus, T.FindMinCmdCycle(chan, x.(arrival := cycle)))) else m;
    if Later(m1, bus) then Some(bus) else m1
  }

  function AdmitOverflow(c: Ctl, m: Option<nat>, cycle: nat): (r: (Ctl, Option<nat>))
    requires Shape(c)
    ensures Shape(r.0) && r.0.events == c.events && r.0.cfg == c.cfg
  {
    if Full(c) || c.ovf == [] then (c, m) else (Admit(c, cycle), AdmitPlan(c, m, cycle))
  }

  /** The second half of `tick`, after the attempt found `m`. */
  function TickRest(c: Ctl, m: Option<nat>, cycle: nat): (d: Ctl)
    requires Shape(c)
    ensures Shape(d) && d.events == c.events && d.cfg == c.cfg
  {
    var (c2, m2) := AdmitOverflow(c, m, cycle);
    c2.(next := m2, ok := c2.ok && c.next == Some(cycle) && (m.None? || m.value >= cycle))
  }

  /** `tick`: one scheduling attempt. */
  function Tick(c: Ctl, sysCycle: nat): (d: Ctl)
    requires Shape(c)
    ensures Shape(d) && d.events == c.events && d.cfg == c.cfg
  {
    var cycle := c.cfg.clock.SysToMem(sysCycle);
    var r := TrySchedule(c, cycle, sysCycle);
    TickRest(r.0, r.1, cycle)
  }

  /** After a tick at `sysCycle`, event `i` is queued again for the next attempt, or freed. */
  function Settle(c: Ctl, i: nat, sysCycle: nat): (d: Ctl)
    requires c.cfg.clock.Valid() && EventsShape(c.events) && i < |c.events.ev|
    ensures EventsShape(d.events) && (Shape(c) ==> Shape(d))
  {
    var e := if c.next.None? then c.events.(due := None) else c.events;
    var nextCycle := if c.next.Some? && c.next.value > 0 then EventCycle(c.cfg.clock, c.next.value, sysCycle) else 0;
    if nextCycle != 0 then c.(events := e.(ev := e.ev[i := Event(QUEUED, nextCycle)]))
    else
      var (events, fine) := Recycle(e, i);
      c.(events := events, ok := c.ok && fine)
  }

  /** `SchedEvent::simulate` of event `i`: a queued event ticks; an annulled one is freed. */
  function Fire(c: Ctl, i: nat): (d: Ctl)
    requires WellFormed(c) && i < |c.events.ev|
    ensures WellFormed(d)
  {
    var e := c.events.ev[i];
    if e.state == QUEUED then Settle(Tick(c, e.cycle), i, e.cycle)
    else
      var (events, fine) := Recycle(c.events, i);
      c.(events := events, ok := c.ok && e.state == ANNULLED && fine)
  }

  function RefreshAt(c: Ctl, sysCycle: nat): (d: Ctl)
    requires Shape(c)
    ensures Shape(d) && d.events == c.events
  {
    c.(chan := T.Refresh(c.chan, c.cfg.clock.SysToMem(sysCycle)))
  }
}

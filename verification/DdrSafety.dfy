/**
 The controller never loses a request and never sleeps while requests wait.
 */
module DdrSafety {
  import opened BankQueue
  import opened Collections
  import opened DdrClock
  import opened DdrController
  import T = DdrTiming

  // ------------------------------------------------------------------ one side

  ghost predicate Listed(q: seq<Request>, id: nat) {
    exists j :: 0 <= j < |q| && q[j].id == id
  }

  ghost predicate ListOk(s: Side, b: nat, limit: nat)
    requires b < |s.lists|
  {
    var q := s.lists[b];
    && RunsOk(q, limit)
    && (forall i, j :: 0 <= i < j < |q| ==> q[i].id != q[j].id)
    && (forall j :: 0 <= j < |q| ==> q[j].bank == b && Entry(q[j].id, b) in s.q)
  }

  ghost predicate EntryOk(s: Side, i: nat)
    requires i < |s.q|
  {
    s.q[i].bank < |s.lists| && Listed(s.lists[s.q[i].bank], s.q[i].id)
  }

  /** The queue and the bank lists hold the same requests, each once, and the lists are in runs. */
  ghost predicate SideOk(s: Side, banks: nat, limit: nat) {
    && SideShape(s, banks)
    && (forall i, j :: 0 <= i < j < |s.q| ==> s.q[i].id != s.q[j].id)
    && (forall i: nat {:trigger EntryOk(s, i)} :: i < |s.q| ==> EntryOk(s, i))
    && (forall b: nat {:trigger ListOk(s, b, limit)} :: b < |s.lists| ==> ListOk(s, b, limit))
  }

  ghost predicate Holds(s: Side, id: nat) {
    exists i :: 0 <= i < |s.q| && s.q[i].id == id
  }

  lemma AddOk(s: Side, r: Request, buffer: RowBuffer, limit: nat)
    requires SideOk(s, |s.lists|, limit) && r.bank < |s.lists| && !Holds(s, r.id)
    ensures SideOk(Add(s, r, buffer, limit), |s.lists|, limit)
  {
    var s' := Add(s, r, buffer, limit);
    var b := r.bank;
    AddShape(s, r, buffer, limit);
    assert ListOk(s, b, limit);
    QueuedKeepsRuns(s.lists[b], r, buffer, limit);
    AddList(s, r, buffer, limit);
    forall i: nat | i < |s'.q|
      ensures EntryOk(s', i)
    {
      if i < |s.q| {
        assert EntryOk(s, i);
        AddListed(s, r, buffer, limit, s.q[i]);
      } else {
        AddListedNew(s, r, buffer, limit);
      }
    }
    forall d: nat | d < |s'.lists|
      ensures ListOk(s', d, limit)
    {
      if d != b {
        assert ListOk(s, d, limit);
        forall j | 0 <= j < |s.lists[d]|
          ensures Entry(s.lists[d][j].id, d) in s'.q
        {
          assert Entry(s.lists[d][j].id, d) in s.q;
        }
      }
    }
  }

  lemma AddListed(s: Side, r: Request, buffer: RowBuffer, limit: nat, e: Entry)
    requires r.bank < |s.lists| && e.bank < |s.lists| && Listed(s.lists[e.bank], e.id)
    ensures Listed(Add(s, r, buffer, limit).lists[e.bank], e.id)
  {
    var q := s.lists[e.bank];
    var j: nat :| j < |q| && q[j].id == e.id;
    if e.bank == r.bank { assert Queued(q, r, buffer, limit)[Moved(q, r, buffer, limit, j)] == q[j]; }
  }

  lemma AddListedNew(s: Side, r: Request, buffer: RowBuffer, limit: nat)
    requires r.bank < |s.lists|
    ensures Listed(Add(s, r, buffer, limit).lists[r.bank], r.id)
  {
    var q := s.lists[r.bank];
    var (k, hits) := Slot(q, r.row, buffer, limit);
    assert Queued(q, r, buffer, limit)[k].id == r.id;
  }

  lemma AddList(s: Side, r: Request, buffer: RowBuffer, limit: nat)
    requires SideShape(s, |s.lists|) && r.bank < |s.lists| && ListOk(s, r.bank, limit) && !Holds(s, r.id)
    requires RunsOk(Queued(s.lists[r.bank], r, buffer, limit), limit)
    ensures ListOk(Add(s, r, buffer, limit), r.bank, limit)
  {
    var s', b := Add(s, r, buffer, limit), r.bank;
    var q, q' := s.lists[b], s'.lists[b];
    var (k, hits) := Slot(q, r.row, buffer, limit);
    forall j | 0 <= j < |q|
      ensures q[j].id != r.id && Entry(q[j].id, b) in s'.q
    {
      var e := Entry(q[j].id, b);
      assert e in s.q;
      var i :| 0 <= i < |s.q| && s.q[i] == e;
      assert s'.q[i] == e;
    }
    assert s'.q[|s.q|] == Entry(r.id, b);
    forall j | 0 <= j < |q'|
      ensures q'[j] == if j < k then q[j] else if j == k then r.(hits := hits) else q[j - 1]
    {
    }
  }

  lemma RemoveOk(s: Side, k: nat, limit: nat)
    requires SideOk(s, |s.lists|, limit) && k < |s.q| && IsFront(s, s.q[k])
    ensures SideOk(Remove(s, k), |s.lists|, limit)
  {
    var s', b := Remove(s, k), s.q[k].bank;
    RemoveShape(s, k);
    assert ListOk(s, b, limit);
    ServedKeepsRuns(s.lists[b], limit);
    forall i: nat | i < |s'.q|
      ensures EntryOk(s', i)
    {
      RemoveEntry(s, k, limit, i);
    }
    forall d: nat | d < |s'.lists|
      ensures ListOk(s', d, limit)
    {
      RemoveList(s, k, limit, d);
    }
  }

  lemma RemoveEntry(s: Side, k: nat, limit: nat, i: nat)
    requires SideOk(s, |s.lists|, limit) && k < |s.q| && IsFront(s, s.q[k]) && i < |s.q| - 1
    ensures EntryOk(Remove(s, k), i)
  {
    var s' := Remove(s, k);
    var n := if i < k then i else i + 1;
    var e := s.q[n];
    assert s'.q[i] == e && EntryOk(s, n);
    var q := s.lists[e.bank];
    var j: nat :| j < |q| && q[j].id == e.id;
    if e.bank == s.q[k].bank { assert s'.lists[e.bank][j - 1] == q[j]; }
  }

  lemma RemoveList(s: Side, k: nat, limit: nat, d: nat)
    requires SideOk(s, |s.lists|, limit) && k < |s.q| && IsFront(s, s.q[k]) && d < |s.lists|
    requires RunsOk(s.lists[s.q[k].bank][1..], limit)
    ensures ListOk(Remove(s, k), d, limit)
  {
    var s', b := Remove(s, k), s.q[k].bank;
    var q, q' := s.lists[d], s'.lists[d];
    assert ListOk(s, d, limit);
    forall j | 0 <= j < |q'|
      ensures Entry(q'[j].id, d) in s'.q
    {
      var e := Entry(q'[j].id, d);
      assert e in s.q by { assert q'[j] == q[if d == b then j + 1 else j]; }
      var i :| 0 <= i < |s.q| && s.q[i] == e;
      assert i != k;
      assert s'.q[if i < k then i else i - 1] == e;
    }
  }

  /** A queue that is not empty has an entry at the front of its bank. */
  lemma HasFront(s: Side, limit: nat) returns (k: nat)
    requires SideOk(s, |s.lists|, limit) && s.q != []
    ensures k < |s.q| && IsFront(s, s.q[k])
  {
    assert EntryOk(s, 0);
    var b := s.q[0].bank;
    assert ListOk(s, b, limit);
    var e := Entry(s.lists[b][0].id, b);
    assert e in s.q;
    k :| 0 <= k < |s.q| && s.q[k] == e;
  }

  lemma {:induction false} EarliestFound(s: Side, chan: T.Channel, k: nat, j: nat, cur: nat)
    requires T.Shape(chan) && SideShape(s, |chan.banks|) && j < k <= |s.q| && IsFront(s, s.q[j])
    requires forall i :: 0 <= i < k ==> !Ready(s, chan, cur, s.q[i])
    ensures Earliest(s, chan, k).Some? && Earliest(s, chan, k).value > cur
    decreases k
  {
    if j < k - 1 { EarliestFound(s, chan, k - 1, j, cur); } else { EarliestAbove(s, chan, k - 1, cur); }
    assert !Ready(s, chan, cur, s.q[k - 1]);
  }

  lemma {:induction false} EarliestAbove(s: Side, chan: T.Channel, k: nat, cur: nat)
    requires T.Shape(chan) && SideShape(s, |chan.banks|) && k <= |s.q|
    requires forall i :: 0 <= i < k ==> !Ready(s, chan, cur, s.q[i])
    ensures Earliest(s, chan, k).Some? ==> Earliest(s, chan, k).value > cur
    decreases k
  {
    if k > 0 {
      EarliestAbove(s, chan, k - 1, cur);
      assert !Ready(s, chan, cur, s.q[k - 1]);
    }
  }

  // ------------------------------------------------------------------ where the requests are

  ghost function IdSeq(q: seq<Entry>): (f: seq<nat>)
    ensures |f| == |q| && forall i :: 0 <= i < |q| ==> f[i] == q[i].id
  {
    seq(|q|, i requires 0 <= i < |q| => q[i].id)
  }

  ghost function RequestIds(q: seq<Request>): (f: seq<nat>)
    ensures |f| == |q| && forall i :: 0 <= i < |q| ==> f[i] == q[i].id
  {
    seq(|q|, i requires 0 <= i < |q| => q[i].id)
  }

  ghost function Ids(q: seq<Entry>): multiset<nat> { multiset(IdSeq(q)) }

  ghost function OvfIds(q: seq<Request>): multiset<nat> { multiset(RequestIds(q)) }

  lemma IdsAdd(q: seq<Entry>, e: Entry)
    ensures Ids(q + [e]) == Ids(q) + multiset{e.id}
  {
    assert IdSeq(q + [e]) == IdSeq(q) + [e.id];
  }

  lemma OvfIdsAdd(q: seq<Request>, r: Request)
    ensures OvfIds(q + [r]) == OvfIds(q) + multiset{r.id}
  {
    assert RequestIds(q + [r]) == RequestIds(q) + [r.id];
  }

  lemma OvfIdsPop(q: seq<Request>)
    requires q != []
    ensures OvfIds(q) == multiset{q[0].id} + OvfIds(q[1..])
  {
    assert RequestIds(q) == [q[0].id] + RequestIds(q[1..]);
  }

  lemma IdsRemove(q: seq<Entry>, k: nat)
    requires k < |q|
    ensures Ids(q) == Ids(q[..k] + q[k + 1..]) + multiset{q[k].id}
  {
    var f := IdSeq(q);
    assert IdSeq(q[..k] + q[k + 1..]) == f[..k] + f[k + 1..];
    assert f == f[..k] + [f[k]] + f[k + 1..];
  }

  lemma IdsHold(s: Side, id: nat)
    ensures Holds(s, id) <==> id in Ids(s.q)
  {
    var f := IdSeq(s.q);
    assert id in Ids(s.q) <==> id in f;
    if Holds(s, id) {
      var i :| 0 <= i < |s.q| && s.q[i].id == id;
      assert f[i] == id;
    }
  }

  /** Every request that has arrived is in exactly one place: queued, overflowed, or served. */
  ghost predicate Conserved(c: Ctl) {
    && multiset(c.arrived) == Ids(c.rd.q) + Ids(c.wr.q) + OvfIds(c.ovf) + multiset(c.served)
    && forall id :: multiset(c.arrived)[id] <= 1
  }

  // ------------------------------------------------------------------ events

  /** At most one event is queued, the due one; the rest are annulled, or free and listed as such. */
  ghost predicate OneDue(e: Events) {
    && (e.due.Some? ==> e.due.value < |e.ev| && e.ev[e.due.value].state == QUEUED)
    && (forall i :: 0 <= i < |e.ev| && e.ev[i].state == QUEUED ==> e.due == Some(i))
    && (forall i :: 0 <= i < |e.ev| && e.ev[i].state == IDLE ==> i in e.free)
    && (forall k :: 0 <= k < |e.free| ==> e.free[k] < |e.ev| && e.ev[e.free[k]].state == IDLE)
    && (forall k, l :: 0 <= k < l < |e.free| ==> e.free[k] != e.free[l])
  }

  /** An event is due iff an attempt is scheduled, and it will fire in the memory cycle of the attempt. */
  ghost predicate OnTime(e: Events, next: Option<nat>, clock: Clock) {
    && clock.Valid()
    && (e.due.Some? <==> next.Some?)
    && (e.due.Some? ==> next.value > 0 && e.due.value < |e.ev| && clock.SysToMem(e.ev[e.due.value].cycle) == next.value)
  }

  /** Reusing a free event; `ev` has the due one annulled. */
  lemma ArrangeReuse(e: Events, ev: seq<Event>, cycle: nat, r: Events)
    requires OneDue(e) && e.free != [] && |ev| == |e.ev|
    requires forall i :: 0 <= i < |ev| ==> ev[i].state == if e.ev[i].state == QUEUED then ANNULLED else e.ev[i].state
    requires r == Events(ev[e.free[0] := Event(QUEUED, cycle)], Some(e.free[0]), e.free[1..])
    ensures OneDue(r)
  {
    assert e.free == [e.free[0]] + e.free[1..];
    forall i | 0 <= i < |r.ev| && r.ev[i].state == IDLE
      ensures i in r.free
    {
      assert i in e.free && i != e.free[0];
    }
    forall k | 0 <= k < |r.free|
      ensures r.free[k] < |r.ev| && r.ev[r.free[k]].state == IDLE
    {
      assert r.free[k] == e.free[k + 1] != e.free[0];
    }
  }

  lemma ArrangeNew(e: Events, ev: seq<Event>, cycle: nat, r: Events)
    requires OneDue(e) && e.free == [] && |ev| == |e.ev|
    requires forall i :: 0 <= i < |ev| ==> ev[i].state == if e.ev[i].state == QUEUED then ANNULLED else e.ev[i].state
    requires r == Events(ev + [Event(QUEUED, cycle)], Some(|ev|), e.free)
    ensures OneDue(r)
  {
  }

  lemma ArrangeOneDue(e: Events, cycle: nat)
    requires OneDue(e)
    ensures var (r, fine) := Arrange(e, cycle);
      fine && OneDue(r) && r.due.Some? && r.ev[r.due.value].cycle == cycle
  {
    var ev := if e.due.Some? then e.ev[e.due.value := e.ev[e.due.value].(state := ANNULLED)] else e.ev;
    if e.free != [] {
      ArrangeReuse(e, ev, cycle, Arrange(e, cycle).0);
    } else {
      ArrangeNew(e, ev, cycle, Arrange(e, cycle).0);
    }
  }

  lemma ArrangeOk(e: Events, clock: Clock, at: nat, now: nat)
    requires OneDue(e) && clock.Valid() && at >= clock.SysToMem(now)
    ensures at > 0
    ensures var (r, fine) := Arrange(e, EventCycle(clock, at, now)); fine && OneDue(r) && OnTime(r, Some(at), clock)
  {
    EventArrivesOnTime(clock, at, now);
    ArrangeOneDue(e, EventCycle(clock, at, now));
  }

  lemma Freed(e: Events, i: nat, due: Option<nat>, r: Events)
    requires OneDue(e) && i < |e.ev| && e.ev[i].state != IDLE
    requires due == if e.due == Some(i) then None else e.due
    requires r == Events(e.ev[i := e.ev[i].(state := IDLE)], due, [i] + e.free)
    ensures OneDue(r)
  {
    forall j | 0 <= j < |r.ev| && r.ev[j].state == IDLE
      ensures j in r.free
    {
      if j == i { assert r.free[0] == i; } else { assert j in e.free; }
    }
    forall k | 0 <= k < |r.free|
      ensures r.free[k] < |r.ev| && r.ev[r.free[k]].state == IDLE && (k > 0 ==> r.free[k] != i)
    {
      if k > 0 { assert r.free[k] == e.free[k - 1]; }
    }
  }

  /** Event `i` goes back to the free list; it is not, or no longer, the due one. */
  lemma RecycleOk(e: Events, i: nat)
    requires OneDue(e) && i < |e.ev| && e.ev[i].state != IDLE
    ensures e.ev[i].state == ANNULLED ==>
      var (r, fine) := Recycle(e, i);
      fine && OneDue(r) && r.due == e.due && (e.due.Some? ==> r.ev[e.due.value] == e.ev[e.due.value])
    ensures e.due == Some(i) ==> var (r, fine) := Recycle(e.(due := None), i); fine && OneDue(r) && r.due == None
  {
    if e.due == Some(i) {
      Freed(e, i, None, Recycle(e.(due := None), i).0);
    } else {
      Freed(e, i, e.due, Recycle(e, i).0);
    }
  }

  lemma RequeueOk(e: Events, i: nat, clock: Clock, at: nat, now: nat)
    requires OneDue(e) && e.due == Some(i) && clock.Valid() && at >= clock.SysToMem(now)
    ensures at > 0 && EventCycle(clock, at, now) > 0
    ensures var r := Events(e.ev[i := Event(QUEUED, EventCycle(clock, at, now))], e.due, e.free);
      OneDue(r) && OnTime(r, Some(at), clock)
  {
    EventArrivesOnTime(clock, at, now);
  }

  // ------------------------------------------------------------------ the invariant

  ghost predicate Core(c: Ctl) {
    && Shape(c)
    && SideOk(c.rd, |c.chan.banks|, c.cfg.limit) && SideOk(c.wr, |c.chan.banks|, c.cfg.limit)
    && Conserved(c)
    && 0 < c.cfg.depth && |c.rd.q| <= c.cfg.depth && |c.wr.q| <= c.cfg.depth
  }

  predicate Busy(c: Ctl) { c.rd.q != [] || c.wr.q != [] }

  /** An attempt is scheduled iff some request waits; overflow only builds up behind full queues. */
  ghost predicate Inv(c: Ctl) {
    && Core(c) && T.Inv(c.chan) && c.ok
    && (c.next.Some? <==> Busy(c))
    && (c.ovf != [] ==> Busy(c))
    && OneDue(c.events) && OnTime(c.events, c.next, c.cfg.clock)
  }

  lemma QueueKeeps(c: Ctl, r: Request, cycle: nat)
    requires Core(c) && r.bank < |c.chan.banks| && !Full(c)
    requires !Holds(c.rd, r.id) && !Holds(c.wr, r.id)
    ensures var d := Queue(c, r, cycle);
      && Shape(d) && Busy(d) && |d.rd.q| <= c.cfg.depth && |d.wr.q| <= c.cfg.depth
      && SideOk(d.rd, |c.chan.banks|, c.cfg.limit) && SideOk(d.wr, |c.chan.banks|, c.cfg.limit)
      && Ids(d.rd.q) + Ids(d.wr.q) == Ids(c.rd.q) + Ids(c.wr.q) + multiset{r.id}
    ensures !BecomesFirst(c, r) ==> Busy(c)
  {
    var s := SideOf(c, r);
    AddOk(s, r.(arrival := cycle), BufferOf(c.chan.banks[r.bank]), c.cfg.limit);
    IdsAdd(s.q, Entry(r.id, r.bank));
    if !BecomesFirst(c, r) {
      var list := s.lists[r.bank];
      assert ListOk(s, r.bank, c.cfg.limit);
      assert Entry(list[0].id, r.bank) in s.q;
    }
  }

  lemma Unheld(c: Ctl, id: nat)
    requires Conserved(c) && (id !in multiset(c.arrived) || id in OvfIds(c.ovf))
    ensures !Holds(c.rd, id) && !Holds(c.wr, id)
  {
    IdsHold(c.rd, id);
    IdsHold(c.wr, id);
    assert multiset(c.arrived)[id] == Ids(c.rd.q)[id] + Ids(c.wr.q)[id] + OvfIds(c.ovf)[id] + multiset(c.served)[id];
  }

  // ------------------------------------------------------------------ steps

  /** A request that has just arrived may be anywhere. */
  lemma ConservedArrival(c: Ctl, d: Ctl, id: nat)
    requires Conserved(c) && id !in c.arrived && d.arrived == c.arrived + [id] && d.served == c.served
    requires Ids(d.rd.q) + Ids(d.wr.q) + OvfIds(d.ovf) == Ids(c.rd.q) + Ids(c.wr.q) + OvfIds(c.ovf) + multiset{id}
    ensures Conserved(d)
  {
    assert multiset(d.arrived) == multiset(c.arrived) + multiset{id};
    assert multiset(c.arrived)[id] == 0;
  }

  lemma AcceptCore(c: Ctl, r: Request, cycle: nat)
    requires Core(c) && r.bank < |c.chan.banks| && r.id !in c.arrived
    ensures Core(Accept(c, r, cycle)) && Busy(Accept(c, r, cycle))
    ensures !Full(c) && !BecomesFirst(c, r) ==> Busy(c)
    ensures Full(c) ==> Busy(c)
  {
    var d := Accept(c, r, cycle);
    if Full(c) {
      OvfIdsAdd(c.ovf, r.(arrival := cycle));
    } else {
      Unheld(c, r.id);
      QueueKeeps(c, r, cycle);
      var q := Queue(c, r, cycle);
      assert d.rd == q.rd && d.wr == q.wr && d.ovf == c.ovf;
    }
    ConservedArrival(c, d, r.id);
  }

  lemma ReplanKeeps(c: Ctl, r: Request, sysCycle: nat)
    requires Core(c) && T.Inv(c.chan) && c.ok && Busy(c) && OneDue(c.events) && OnTime(c.events, c.next, c.cfg.clock)
    requires r.bank < |c.chan.banks|
    ensures Inv(Replanned(c, r, sysCycle))
  {
    var d := Replanned(c, r, sysCycle);
    CoreFrame(c, d);
    ArrangeOk(c.events, c.cfg.clock, DueAt(c, r, c.cfg.clock.SysToMem(sysCycle)), sysCycle);
  }

  lemma EnqueueKeeps(c: Ctl, r: Request, sysCycle: nat)
    requires Inv(c) && r.bank < |c.chan.banks| && r.id !in c.arrived
    ensures Inv(Enqueue(c, r, sysCycle))
  {
    var d := Accept(c, r, c.cfg.clock.SysToMem(sysCycle));
    AcceptCore(c, r, c.cfg.clock.SysToMem(sysCycle));
    if !Full(c) && BecomesFirst(c, r) { ReplanKeeps(d, r, sysCycle); }
  }

  /** The events do not matter for where the requests are. */
  lemma CoreFrame(c: Ctl, d: Ctl)
    requires Core(c) && d == c.(events := d.events, next := d.next, ok := d.ok)
    ensures Core(d)
  {
  }

  /** What a scheduling attempt promises: it is next due, not in the past, iff requests are queued. */
  ghost predicate Planned(c: Ctl, m: Option<nat>, cycle: nat) {
    (m.Some? <==> Busy(c)) && (m.Some? ==> m.value >= cycle)
  }

  /** `d` is `c` as far as the scheduler does not own it. */
  ghost predicate SameOutside(c: Ctl, d: Ctl) {
    d.cfg == c.cfg && d.next == c.next && d.events == c.events && d.ok == c.ok && d.arrived == c.arrived
  }

  lemma IssueCore(c: Ctl, cur: nat, sysCycle: nat, writes: bool, k: nat)
    requires Core(c) && k < |Chosen(c, writes).q| && IsFront(Chosen(c, writes), Chosen(c, writes).q[k])
    ensures Core(IssueEntry(c, cur, sysCycle, writes, k))
  {
    var s := Chosen(c, writes);
    var b := s.q[k].bank;
    assert InBank(s.lists[b], b);
    RemoveOk(s, k, c.cfg.limit);
    IdsRemove(s.q, k);
    assert multiset(c.served + [s.q[k].id]) == multiset(c.served) + multiset{s.q[k].id};
  }

  /** The channel changes by an issued command or not at all. */
  lemma TryScheduleChannel(c: Ctl, cur: nat, sysCycle: nat)
    requires Shape(c) && T.Inv(c.chan)
    ensures T.Inv(TrySchedule(c, cur, sysCycle).0.chan)
  {
    if Choice(c, cur).Some? {
      var s := Chosen(c, WritesFirst(c));
      var b := s.q[Choice(c, cur).value].bank;
      assert InBank(s.lists[b], b);
      T.IssueKeeps(c.chan, s.lists[b][0], cur, |s.lists[b]| > 1 && s.lists[b][1].hits != 0);
    }
  }

  lemma AdmitChannel(c: Ctl, m: Option<nat>, cycle: nat)
    requires Shape(c)
    ensures AdmitOverflow(c, m, cycle).0.chan == c.chan
  {
  }

  lemma TickChannel(c: Ctl, sysCycle: nat)
    requires Shape(c) && T.Inv(c.chan)
    ensures T.Inv(Tick(c, sysCycle).chan)
  {
    var cur := c.cfg.clock.SysToMem(sysCycle);
    TryScheduleChannel(c, cur, sysCycle);
    var r := TrySchedule(c, cur, sysCycle);
    AdmitChannel(r.0, r.1, cur);
  }

  lemma WaitPlanned(s: Side, chan: T.Channel, cur: nat, limit: nat)
    requires T.Shape(chan) && SideOk(s, |chan.banks|, limit) && s.q != [] && FirstReady(s, chan, cur, 0) == |s.q|
    ensures var m := Earliest(s, chan, |s.q|); m.Some? && m.value > cur
  {
    var j := HasFront(s, limit);
    EarliestFound(s, chan, |s.q|, j, cur);
  }

  lemma RetryPlanned(c: Ctl, cur: nat)
    requires Core(c) && Choice(c, cur) == None
    ensures Planned(c, Retry(c, cur), cur)
  {
    if Busy(c) && cur + c.chan.t.tCL >= c.chan.minResp {
      WaitPlanned(Chosen(c, WritesFirst(c)), c.chan, cur, c.cfg.limit);
    }
  }

  lemma TryScheduleCore(c: Ctl, cur: nat, sysCycle: nat)
    requires Core(c)
    ensures Core(TrySchedule(c, cur, sysCycle).0)
  {
    match Choice(c, cur)
    case None => CoreFrame(c, TrySchedule(c, cur, sysCycle).0);
    case Some(k) =>
      IssueCore(c, cur, sysCycle, WritesFirst(c), k);
      assert TrySchedule(c, cur, sysCycle).0 == IssueEntry(c, cur, sysCycle, WritesFirst(c), k);
  }

  /** No assertion of an attempt fails: the queue it scans is not empty, the window and the order of
      the column commands are respected, and a read is not answered in the past. */
  lemma TryScheduleOk(c: Ctl, sysCycle: nat)
    requires Shape(c) && T.Inv(c.chan)
    ensures TrySchedule(c, c.cfg.clock.SysToMem(sysCycle), sysCycle).0.ok == c.ok
  {
    var cur := c.cfg.clock.SysToMem(sysCycle);
    if Choice(c, cur).Some? {
      var s := Chosen(c, WritesFirst(c));
      var b := s.q[Choice(c, cur).value].bank;
      assert InBank(s.lists[b], b);
      var r, more := s.lists[b][0], |s.lists[b]| > 1 && s.lists[b][1].hits != 0;
      T.IssueAssertsHold(c.chan, r, cur);
      ResponseNotPast(c.cfg.clock, T.Issue(c.chan, r, cur, more).minResp, sysCycle);
    }
  }

  lemma IssuePlanned(c: Ctl, cur: nat, sysCycle: nat, k: nat)
    requires Shape(c) && k < |Chosen(c, WritesFirst(c)).q|
    requires IsFront(Chosen(c, WritesFirst(c)), Chosen(c, WritesFirst(c)).q[k])
    ensures var d := IssueEntry(c, cur, sysCycle, WritesFirst(c), k);
      Planned(d, NextAfter(d), cur) && SameOutside(c.(ok := d.ok), d) && d.ovf == c.ovf
  {
  }

  lemma TrySchedulePlanned(c: Ctl, sysCycle: nat)
    requires Core(c) && T.Inv(c.chan)
    ensures var (d, m) := TrySchedule(c, c.cfg.clock.SysToMem(sysCycle), sysCycle);
      Planned(d, m, c.cfg.clock.SysToMem(sysCycle)) && SameOutside(c, d) && d.ovf == c.ovf
  {
    var cur := c.cfg.clock.SysToMem(sysCycle);
    TryScheduleOk(c, sysCycle);
    match Choice(c, cur)
    case None => RetryPlanned(c, cur);
    case Some(k) => IssuePlanned(c, cur, sysCycle, k);
  }

  lemma AdmitIs(c: Ctl, cycle: nat)
    requires Shape(c) && c.ovf != []
    ensures Admit(c, cycle) == Queue(c, c.ovf[0], cycle).(ovf := c.ovf[1..])
  {
  }

  /** A request moves from the overflow to a queue. */
  lemma ConservedAdmission(c: Ctl, d: Ctl)
    requires Conserved(c) && c.ovf != [] && d.ovf == c.ovf[1..] && d.arrived == c.arrived && d.served == c.served
    requires Ids(d.rd.q) + Ids(d.wr.q) == Ids(c.rd.q) + Ids(c.wr.q) + multiset{c.ovf[0].id}
    ensures Conserved(d)
  {
    OvfIdsPop(c.ovf);
    assert Ids(d.rd.q) + Ids(d.wr.q) + OvfIds(d.ovf) == Ids(c.rd.q) + Ids(c.wr.q) + OvfIds(c.ovf);
  }

  lemma AdmitCore(c: Ctl, cycle: nat)
    requires Core(c) && !Full(c) && c.ovf != []
    ensures Core(Admit(c, cycle)) && Busy(Admit(c, cycle)) && SameOutside(c, Admit(c, cycle))
    ensures !BecomesFirst(c, c.ovf[0]) ==> Busy(c)
  {
    OvfIdsPop(c.ovf);
    Unheld(c, c.ovf[0].id);
    QueueKeeps(c, c.ovf[0], cycle);
    AdmitIs(c, cycle);
    ConservedAdmission(c, Admit(c, cycle));
  }

  lemma AdmitKeeps(c: Ctl, m: Option<nat>, cycle: nat)
    requires Core(c) && Planned(c, m, cycle)
    ensures var (d, m2) := AdmitOverflow(c, m, cycle);
      Core(d) && Planned(d, m2, cycle) && SameOutside(c, d) && (d.ovf != [] ==> Busy(d))
  {
    if !Full(c) && c.ovf != [] {
      AdmitCore(c, cycle);
      AdmitPlanned(c, m, cycle);
    }
  }

  lemma AdmitPlanned(c: Ctl, m: Option<nat>, cycle: nat)
    requires Shape(c) && c.ovf != [] && Planned(c, m, cycle) && (!BecomesFirst(c, c.ovf[0]) ==> Busy(c))
    ensures AdmitPlan(c, m, cycle).Some? && AdmitPlan(c, m, cycle).value >= cycle
  {
  }

  lemma TickKeeps(c: Ctl, sysCycle: nat)
    requires Inv(c) && c.next == Some(c.cfg.clock.SysToMem(sysCycle))
    ensures var d := Tick(c, sysCycle);
      && Core(d) && d.ok && d.events == c.events && d.cfg == c.cfg
      && (d.next.Some? <==> Busy(d)) && (d.ovf != [] ==> Busy(d))
      && (d.next.Some? ==> d.next.value >= c.cfg.clock.SysToMem(sysCycle))
  {
    var cycle := c.cfg.clock.SysToMem(sysCycle);
    TryScheduleCore(c, cycle, sysCycle);
    TrySchedulePlanned(c, sysCycle);
    var (c1, m) := TrySchedule(c, cycle, sysCycle);
    AdmitKeeps(c1, m, cycle);
  }

  /** The event that ticked is queued again for the next attempt, or freed. */
  lemma SettleKeeps(d: Ctl, i: nat, sysCycle: nat)
    requires Core(d) && T.Inv(d.chan) && d.ok && (d.next.Some? <==> Busy(d)) && (d.ovf != [] ==> Busy(d))
    requires OneDue(d.events) && d.events.due == Some(i)
    requires d.next.Some? ==> d.next.value >= d.cfg.clock.SysToMem(sysCycle)
    ensures Inv(Settle(d, i, sysCycle))
  {
    CoreFrame(d, Settle(d, i, sysCycle));
    if d.next.Some? {
      RequeueOk(d.events, i, d.cfg.clock, d.next.value, sysCycle);
    } else {
      RecycleOk(d.events, i);
    }
  }

  lemma FireDue(c: Ctl, i: nat)
    requires Inv(c) && i < |c.events.ev| && c.events.ev[i].state == QUEUED
    ensures Inv(Fire(c, i))
  {
    var sysCycle := c.events.ev[i].cycle;
    TickKeeps(c, sysCycle);
    TickChannel(c, sysCycle);
    SettleKeeps(Tick(c, sysCycle), i, sysCycle);
  }

  lemma FireKeeps(c: Ctl, i: nat)
    requires Inv(c) && i < |c.events.ev| && c.events.ev[i].state != IDLE
    ensures Inv(Fire(c, i))
  {
    if c.events.ev[i].state == QUEUED {
      FireDue(c, i);
    } else {
      RecycleOk(c.events, i);
      CoreFrame(c, Fire(c, i));
    }
  }

  lemma RefreshKeeps(c: Ctl, sysCycle: nat)
    requires Inv(c)
    ensures Inv(RefreshAt(c, sysCycle))
  {
    T.RefreshKeeps(c.chan, c.cfg.clock.SysToMem(sysCycle));
  }

  // ------------------------------------------------------------------ runs

  datatype Step = EnqueueStep(r: Request, sysCycle: nat) | FireStep(i: nat) | RefreshStep(sysCycle: nat)

  /** Requests have ids of their own; the simulator fires events that were queued. */
  ghost predicate Legal(c: Ctl, step: Step) {
    match step
    case EnqueueStep(r, _) => r.bank < |c.chan.banks| && r.id !in c.arrived
    case FireStep(i) => i < |c.events.ev| && c.events.ev[i].state != IDLE
    case RefreshStep(_) => true
  }

  ghost function Do(c: Ctl, step: Step): (d: Ctl)
    requires WellFormed(c) && Legal(c, step)
    ensures WellFormed(d)
  {
    match step
    case EnqueueStep(r, sysCycle) => Enqueue(c, r, sysCycle)
    case FireStep(i) => Fire(c, i)
    case RefreshStep(sysCycle) => RefreshAt(c, sysCycle)
  }

  ghost predicate Run(c: Ctl, steps: seq<Step>, d: Ctl)
    requires WellFormed(c)
    decreases |steps|
  {
    if steps == [] then c == d
    else Legal(c, steps[0]) && Run(Do(c, steps[0]), steps[1..], d)
  }

  function Start(cfg: Config, t: T.Timing, rank: seq<nat>, ranks: nat): (c: Ctl)
    ensures cfg.clock.Valid() && t.Valid() && (forall b :: 0 <= b < |rank| ==> rank[b] < ranks) ==> WellFormed(c)
  {
    var none := Side([], seq(|rank|, _ => []));
    Ctl(cfg, T.Idle(t, rank, ranks), none, none, [], None, Events([], None, []), true, [], [])
  }

  lemma StepKeeps(c: Ctl, step: Step)
    requires Inv(c) && Legal(c, step)
    ensures Inv(Do(c, step))
  {
    match step
    case EnqueueStep(r, sysCycle) => EnqueueKeeps(c, r, sysCycle);
    case FireStep(i) => FireKeeps(c, i);
    case RefreshStep(sysCycle) => RefreshKeeps(c, sysCycle);
  }

  lemma {:induction false} RunKeeps(c: Ctl, steps: seq<Step>, d: Ctl)
    requires Inv(c) && Run(c, steps, d)
    ensures Inv(d)
    decreases |steps|
  {
    if steps != [] {
      StepKeeps(c, steps[0]);
      RunKeeps(Do(c, steps[0]), steps[1..], d);
    }
  }

  /** In every run of requests, events and refreshes: no request is lost or served twice, an event is
      due iff requests wait, it will fire in its memory cycle, and no assertion fails. */
  lemma ControllerWorks(cfg: Config, t: T.Timing, rank: seq<nat>, ranks: nat, steps: seq<Step>, d: Ctl)
    requires cfg.clock.Valid() && cfg.depth > 0 && t.Valid() && (forall b :: 0 <= b < |rank| ==> rank[b] < ranks)
    requires Run(Start(cfg, t, rank, ranks), steps, d)
    ensures Inv(d)
    ensures Conserved(d) && d.ok && (d.events.due.Some? <==> d.rd.q != [] || d.wr.q != [] || d.ovf != [])
  {
    StartOk(cfg, t, rank, ranks);
    RunKeeps(Start(cfg, t, rank, ranks), steps, d);
  }

  lemma StartOk(cfg: Config, t: T.Timing, rank: seq<nat>, ranks: nat)
    requires cfg.clock.Valid() && cfg.depth > 0 && t.Valid() && (forall b :: 0 <= b < |rank| ==> rank[b] < ranks)
    ensures Inv(Start(cfg, t, rank, ranks))
  {
    T.IdleOk(t, rank, ranks);
  }
}

/**
 The scheduler wastes no cycle: every command of every run is issued at the first cycle that its
 request, the power-on state and the commands already issued allow.
 */
module DdrEarliest {
  import ActWindow
  import Q = BankQueue
  import opened DdrTiming

  // ------------------------------------------------------------------ the state is no stricter than the log

  /** The first cycle at which bank `b` may be precharged after command `e`. */
  function PreBound(t: Timing, e: Command, b: nat): int {
    match e
    case Act(d, _, x) => if d == b then x + t.tRAS else 0
    case Column(d, _, x, w, _) => if d == b then x + (if w then t.tCL + t.tBL + t.tWR else t.tRTP) else 0
    case Refreshed(x) => x - t.tRP
  }

  ghost predicate PreOwed(t: Timing, log: seq<Command>, b: nat, p: nat) {
    p == 0 || exists i :: 0 <= i < |log| && PreBound(t, log[i], b) == p
  }

  ghost predicate Activated(log: seq<Command>, b: nat, x: nat) {
    exists i :: 0 <= i < |log| && log[i].Act? && log[i].bank == b && log[i].cycle == x
  }

  ghost predicate Accessed(log: seq<Command>, b: nat, x: nat) {
    exists i :: 0 <= i < |log| && log[i].Column? && log[i].bank == b && log[i].cycle == x
  }

  /** Every cycle that the bank remembers is owed to a command. */
  ghost predicate BankTight(c: Channel, b: nat)
    requires b < |c.banks|
  {
    var bank := c.banks[b];
    && PreOwed(c.t, c.log, b, bank.minPre)
    && (bank.lastAct == 0 || Activated(c.log, b, bank.lastAct))
    && (bank.lastCmd == 0 || Accessed(c.log, b, bank.lastCmd))
    && (bank.open ==> Activated(c.log, b, bank.lastAct) && Accessed(c.log, b, bank.lastCmd))
  }

  /** The data bus is held by the last column command, which has the direction the channel remembers. */
  ghost predicate BusTight(t: Timing, log: seq<Command>, minResp: nat, lastWrite: bool) {
    && minResp > t.tCL + t.tBL
    && (|| (minResp == t.tCL + t.tBL + 1 && !lastWrite)
        || exists i ::
             0 <= i < |log| && log[i].Column? && log[i].cycle + t.tCL + t.tBL == minResp && log[i].write == lastWrite)
  }

  ghost predicate Tight(c: Channel) {
    && BusTight(c.t, c.log, c.minResp, c.lastWrite)
    && forall b: nat {:trigger BankTight(c, b)} :: b < |c.banks| ==> BankTight(c, b)
  }

  lemma OwedGrows(t: Timing, log: seq<Command>, more: seq<Command>, b: nat, p: nat)
    requires PreOwed(t, log, b, p) && log <= more
    ensures PreOwed(t, more, b, p)
  {
    if p != 0 {
      var i :| 0 <= i < |log| && PreBound(t, log[i], b) == p;
      assert more[i] == log[i];
    }
  }

  lemma ActivatedGrows(log: seq<Command>, more: seq<Command>, b: nat, x: nat)
    requires Activated(log, b, x) && log <= more
    ensures Activated(more, b, x)
  {
    var i :| 0 <= i < |log| && log[i].Act? && log[i].bank == b && log[i].cycle == x;
    assert more[i] == log[i];
  }

  lemma AccessedGrows(log: seq<Command>, more: seq<Command>, b: nat, x: nat)
    requires Accessed(log, b, x) && log <= more
    ensures Accessed(more, b, x)
  {
    var i :| 0 <= i < |log| && log[i].Column? && log[i].bank == b && log[i].cycle == x;
    assert more[i] == log[i];
  }

  /** A bank that a step leaves alone, or closes, owes what it owed. */
  lemma TightFrame(c: Channel, d: Channel, b: nat)
    requires b < |c.banks| && b < |d.banks| && BankTight(c, b) && c.log <= d.log && d.t == c.t
    requires d.banks[b].lastAct == c.banks[b].lastAct && d.banks[b].lastCmd == c.banks[b].lastCmd
    requires d.banks[b].open ==> c.banks[b].open
    requires d.banks[b].minPre == c.banks[b].minPre || PreOwed(d.t, d.log, b, d.banks[b].minPre)
    ensures BankTight(d, b)
  {
    var bank := c.banks[b];
    OwedGrows(c.t, c.log, d.log, b, bank.minPre);
    if Activated(c.log, b, bank.lastAct) { ActivatedGrows(c.log, d.log, b, bank.lastAct); }
    if Accessed(c.log, b, bank.lastCmd) { AccessedGrows(c.log, d.log, b, bank.lastCmd); }
  }

  /** The bank a command goes to. */
  lemma IssuedBank(c: Channel, r: Q.Request, cur: nat, moreHits: bool)
    requires Inv(c) && Tight(c) && r.bank < |c.banks|
    ensures BankTight(Issue(c, r, cur, moreHits), r.bank)
  {
    var d, b := Issue(c, r, cur, moreHits), r.bank;
    var n := |d.log|;
    assert BankTight(c, b);
    assert d.log[n - 1].Column? && d.log[n - 1].bank == b && d.log[n - 1].cycle == d.banks[b].lastCmd;
    assert Accessed(d.log, b, d.banks[b].lastCmd);
    if RowHit(c.banks[b], r) {
      ActivatedGrows(c.log, d.log, b, c.banks[b].lastAct);
    } else {
      assert d.log[n - 2].Act? && d.log[n - 2].bank == b && d.log[n - 2].cycle == d.banks[b].lastAct;
    }
    IssuedPre(c, r, cur, moreHits);
  }

  lemma IssuedPre(c: Channel, r: Q.Request, cur: nat, moreHits: bool)
    requires Inv(c) && Tight(c) && r.bank < |c.banks|
    ensures var d := Issue(c, r, cur, moreHits); PreOwed(d.t, d.log, r.bank, d.banks[r.bank].minPre)
  {
    var d, b := Issue(c, r, cur, moreHits), r.bank;
    assert BankTight(c, b);
    OwedGrows(c.t, c.log, d.log, b, c.banks[b].minPre);
    assert PreBound(d.t, d.log[|d.log| - 1], b) >= 0;
    if RowHit(c.banks[b], r) {
      ActivatedGrows(c.log, d.log, b, c.banks[b].lastAct);
      var i :| 0 <= i < |d.log| && d.log[i].Act? && d.log[i].bank == b && d.log[i].cycle == c.banks[b].lastAct;
      assert PreBound(d.t, d.log[i], b) == c.banks[b].lastAct + d.t.tRAS;
    } else {
      assert PreBound(d.t, d.log[|d.log| - 2], b) == ActCycle(c, r) + d.t.tRAS;
    }
  }

  lemma IssueTight(c: Channel, r: Q.Request, cur: nat, moreHits: bool)
    requires Inv(c) && Tight(c) && r.bank < |c.banks|
    ensures Tight(Issue(c, r, cur, moreHits))
  {
    var d := Issue(c, r, cur, moreHits);
    var f := d.log[|d.log| - 1];
    assert f.Column? && f.cycle + d.t.tCL + d.t.tBL == d.minResp && f.write == d.lastWrite;
    forall b: nat | b < |d.banks|
      ensures BankTight(d, b)
    {
      if b == r.bank {
        IssuedBank(c, r, cur, moreHits);
      } else {
        assert BankTight(c, b);
        TightFrame(c, d, b);
      }
    }
  }

  lemma RefreshTight(c: Channel, cycle: nat)
    requires Inv(c) && Tight(c)
    ensures Tight(Refresh(c, cycle))
  {
    var d := Refresh(c, cycle);
    var n := |c.log|;
    forall b: nat | b < |d.banks|
      ensures BankTight(d, b)
    {
      assert BankTight(c, b);
      assert PreBound(d.t, d.log[n], b) == d.banks[b].minPre;
      TightFrame(c, d, b);
    }
    if !(c.minResp == c.t.tCL + c.t.tBL + 1 && !c.lastWrite) {
      var i :| 0 <= i < n && c.log[i].Column? && c.log[i].cycle + c.t.tCL + c.t.tBL == c.minResp
               && c.log[i].write == c.lastWrite;
      assert d.log[i] == c.log[i];
    }
  }

  // ------------------------------------------------------------------ activations

  /** The row of `r` may be activated at cycle `y`: the request is there, in time to close another row;
      the power-on state counts as a precharge and an activation at cycle 0; the activation window of the
      rank has room; and every command issued so far allows it. */
  ghost predicate ActAllowed(t: Timing, rank: seq<nat>, log: seq<Command>, r: Q.Request, y: nat)
    requires r.bank < |rank|
  {
    && y >= r.arrival + (if RowIn(log, r.bank) >= 0 then t.tRP else 0)
    && y >= t.tRP && y >= t.tRRD
    && y >= ActWindow.After(4, RankActs(log, rank, rank[r.bank]))[0] + t.tFAW
    && MayCome(t, log, Act(r.bank, r.row, y))
  }

  ghost predicate MayCome(t: Timing, log: seq<Command>, f: Command) {
    forall i :: 0 <= i < |log| ==> MayFollow(t, log[i], f)
  }

  lemma ActSoonEnough(c: Channel, r: Q.Request, y: nat)
    requires Inv(c) && r.bank < |c.banks| && y >= ActCycle(c, r)
    ensures ActAllowed(c.t, c.rank, c.log, r, y)
  {
    assert BankOk(c, r.bank) && WindowOk(c, c.rank[r.bank]);
    forall i | 0 <= i < |c.log|
      ensures MayFollow(c.t, c.log[i], Act(r.bank, r.row, y))
    {
      assert Remembered(c, c.log[i]);
      ActMayFollow(c, r, c.log[i]);
    }
  }

  lemma PreNotBefore(c: Channel, r: Q.Request, y: nat)
    requires Inv(c) && r.bank < |c.banks| && BankTight(c, r.bank) && y >= c.t.tRP
    requires MayCome(c.t, c.log, Act(r.bank, r.row, y))
    ensures y >= c.banks[r.bank].minPre + c.t.tRP
  {
    var p := c.banks[r.bank].minPre;
    if p != 0 {
      var i :| 0 <= i < |c.log| && PreBound(c.t, c.log[i], r.bank) == p;
      assert MayFollow(c.t, c.log[i], Act(r.bank, r.row, y));
    }
  }

  lemma ActNotBefore(c: Channel, r: Q.Request, y: nat)
    requires Inv(c) && Tight(c) && r.bank < |c.banks| && ActAllowed(c.t, c.rank, c.log, r, y)
    ensures y >= ActCycle(c, r)
  {
    var b := r.bank;
    assert BankTight(c, b) && BankOk(c, b) && WindowOk(c, c.rank[b]);
    PreNotBefore(c, r, y);
    if c.banks[b].lastAct != 0 {
      var i :| 0 <= i < |c.log| && c.log[i].Act? && c.log[i].bank == b && c.log[i].cycle == c.banks[b].lastAct;
      assert MayFollow(c.t, c.log[i], Act(b, r.row, y));
    }
  }

  lemma ActAllowedFrom(c: Channel, r: Q.Request, z: nat)
    requires Inv(c) && Tight(c) && r.bank < |c.banks|
    ensures ActAllowed(c.t, c.rank, c.log, r, z) <==> z >= ActCycle(c, r)
  {
    if z >= ActCycle(c, r) { ActSoonEnough(c, r, z); }
    if ActAllowed(c.t, c.rank, c.log, r, z) { ActNotBefore(c, r, z); }
  }

  // ------------------------------------------------------------------ column commands

  /** The column command of `r` may be issued at cycle `y`, when an attempt at `cur` has chosen it: not
      before `cur`, and every command issued so far allows it. */
  ghost predicate ColumnAllowed(t: Timing, log: seq<Command>, cur: nat, r: Q.Request, closes: bool, y: nat) {
    y >= cur && y > t.tBL && MayCome(t, log, Column(r.bank, r.row, y, r.write, closes))
  }

  lemma LaterColumn(t: Timing, e: Command, b: nat, row: nat, x: nat, write: bool, closes: bool, y: nat)
    requires MayFollow(t, e, Column(b, row, x, write, closes)) && y >= x
    ensures MayFollow(t, e, Column(b, row, y, write, closes))
  {
  }

  /** With its row open in `a`, just now if `hit` does not hold. */
  lemma ColumnSoonEnough(a: Channel, log: seq<Command>, r: Q.Request, cur: nat, hit: bool, moreHits: bool, y: nat)
    requires Opened(a, log, r) && (hit <==> a.log == log) && BusTight(a.t, log, a.minResp, a.lastWrite)
    requires y >= ColumnCycle(a, r, cur, hit)
    ensures ColumnAllowed(a.t, a.log, cur, r, a.t.closedPage && !moreHits, y)
  {
    var x, closes := ColumnCycle(a, r, cur, hit), a.t.closedPage && !moreHits;
    assert BankOk(a, r.bank);
    forall i | 0 <= i < |a.log|
      ensures MayFollow(a.t, a.log[i], Column(r.bank, r.row, y, r.write, closes))
    {
      if i < |log| {
        assert a.log[i] == log[i] && Remembered(a, log[i]);
        ColumnMayFollow(a, r, cur, hit, moreHits, log[i]);
      } else {
        FreshActRemembered(a, r, cur, moreHits);
      }
      LaterColumn(a.t, a.log[i], r.bank, r.row, x, r.write, closes, y);
    }
  }

  lemma ColumnNotBefore(a: Channel, log: seq<Command>, r: Q.Request, cur: nat, hit: bool, closes: bool, y: nat)
    requires Opened(a, log, r) && (hit <==> a.log == log) && BusTight(a.t, log, a.minResp, a.lastWrite)
    requires ColumnAllowed(a.t, a.log, cur, r, closes, y)
    ensures y >= ColumnCycle(a, r, cur, hit)
  {
    var f := Column(r.bank, r.row, y, r.write, closes);
    if !(a.minResp == a.t.tCL + a.t.tBL + 1 && !a.lastWrite) {
      var i :| 0 <= i < |log| && log[i].Column? && log[i].cycle + a.t.tCL + a.t.tBL == a.minResp
               && log[i].write == a.lastWrite;
      assert a.log[i] == log[i];
      assert MayFollow(a.t, a.log[i], f);
    }
    if !hit {
      assert a.log[|log|] == Act(r.bank, r.row, a.banks[r.bank].lastAct);
      assert MayFollow(a.t, a.log[|log|], f);
    }
  }

  // ------------------------------------------------------------------ the main results

  /** A request whose row is open gets its column command at the first cycle that is allowed. */
  lemma HitIsEarliest(c: Channel, r: Q.Request, cur: nat, moreHits: bool) returns (y: nat)
    requires Inv(c) && Tight(c) && r.bank < |c.banks| && RowHit(c.banks[r.bank], r)
    ensures var closes := c.t.closedPage && !moreHits;
      && Issue(c, r, cur, moreHits).log == c.log + [Column(r.bank, r.row, y, r.write, closes)]
      && forall z: nat :: ColumnAllowed(c.t, c.log, cur, r, closes, z) <==> z >= y
  {
    var closes := c.t.closedPage && !moreHits;
    ActivateOpens(c, r);
    y := ColumnCycle(c, r, cur, true);
    forall z: nat
      ensures ColumnAllowed(c.t, c.log, cur, r, closes, z) <==> z >= y
    {
      if z >= y { ColumnSoonEnough(c, c.log, r, cur, true, moreHits, z); }
      if ColumnAllowed(c.t, c.log, cur, r, closes, z) { ColumnNotBefore(c, c.log, r, cur, true, closes, z); }
    }
  }

  /** Any other request gets its row activated at the first cycle that is allowed, and then its column
      command at the first cycle that is allowed after that. */
  lemma MissIsEarliest(c: Channel, r: Q.Request, cur: nat, moreHits: bool) returns (x: nat, y: nat)
    requires Inv(c) && Tight(c) && r.bank < |c.banks| && !RowHit(c.banks[r.bank], r)
    ensures var closes := c.t.closedPage && !moreHits;
      var log := c.log + [Act(r.bank, r.row, x)];
      && Issue(c, r, cur, moreHits).log == log + [Column(r.bank, r.row, y, r.write, closes)]
      && (forall z: nat :: ActAllowed(c.t, c.rank, c.log, r, z) <==> z >= x)
      && forall z: nat :: ColumnAllowed(c.t, log, cur, r, closes, z) <==> z >= y
  {
    var closes := c.t.closedPage && !moreHits;
    ActivateOpens(c, r);
    var a := Activate(c, r);
    x, y := ActCycle(c, r), ColumnCycle(a, r, cur, false);
    forall z: nat
      ensures ActAllowed(c.t, c.rank, c.log, r, z) <==> z >= x
    {
      ActAllowedFrom(c, r, z);
    }
    forall z: nat
      ensures ColumnAllowed(c.t, a.log, cur, r, closes, z) <==> z >= y
    {
      if z >= y { ColumnSoonEnough(a, c.log, r, cur, false, moreHits, z); }
      if ColumnAllowed(c.t, a.log, cur, r, closes, z) { ColumnNotBefore(a, c.log, r, cur, false, closes, z); }
    }
  }

  /** A refresh may be complete at cycle `y`: it takes tRFC, begins no earlier than it is called and only
      when every bank has recovered from every command. */
  ghost predicate RefreshAllowed(c: Channel, cycle: nat, y: nat) {
    && y >= cycle + c.t.tRFC && MayCome(c.t, c.log, Refreshed(y))
    && forall i :: 0 <= i < |c.log| && c.log[i].Refreshed? && c.banks != [] ==> y + c.t.tRP >= c.log[i].cycle + c.t.tRFC
  }

  lemma RefreshIsEarliest(c: Channel, cycle: nat) returns (y: nat)
    requires Inv(c) && Tight(c)
    ensures Refresh(c, cycle).log == c.log + [Refreshed(y)]
    ensures forall z: nat :: RefreshAllowed(c, cycle, z) <==> z >= y
  {
    y := RefreshStart(c.banks, cycle) + c.t.tRFC;
    forall z: nat
      ensures RefreshAllowed(c, cycle, z) <==> z >= y
    {
      if z >= y { RefreshSoonEnough(c, cycle, z); }
      if RefreshAllowed(c, cycle, z) { RefreshNotBefore(c, cycle, z); }
    }
  }

  lemma RefreshSoonEnough(c: Channel, cycle: nat, z: nat)
    requires Inv(c) && z >= RefreshStart(c.banks, cycle) + c.t.tRFC
    ensures RefreshAllowed(c, cycle, z)
  {
    forall i | 0 <= i < |c.log|
      ensures MayFollow(c.t, c.log[i], Refreshed(z))
      ensures c.log[i].Refreshed? && c.banks != [] ==> z + c.t.tRP >= c.log[i].cycle + c.t.tRFC
    {
      assert Remembered(c, c.log[i]);
      RefreshRemembers(c, cycle, c.log[i]);
      if c.log[i].Refreshed? && c.banks != [] { assert c.log[i].cycle <= c.banks[0].minPre + c.t.tRP; }
    }
  }

  /** The refresh starts when it is called or when the last bank has recovered. */
  lemma {:induction false} StartOwed(banks: seq<Bank>, cycle: nat)
    ensures var m := RefreshStart(banks, cycle);
      m == cycle || exists b: nat :: b < |banks| && (m == banks[b].minPre || m == banks[b].lastCmd)
    decreases |banks|
  {
    if banks != [] {
      var k := |banks| - 1;
      StartOwed(banks[..k], cycle);
      if RefreshStart(banks, cycle) == RefreshStart(banks[..k], cycle) {
        if b: nat :| b < k && (RefreshStart(banks[..k], cycle) == banks[..k][b].minPre
                               || RefreshStart(banks[..k], cycle) == banks[..k][b].lastCmd) {
          assert banks[..k][b] == banks[b];
        }
      }
    }
  }

  lemma RefreshNotBefore(c: Channel, cycle: nat, z: nat)
    requires Inv(c) && Tight(c) && RefreshAllowed(c, cycle, z)
    ensures z >= RefreshStart(c.banks, cycle) + c.t.tRFC
  {
    var m := RefreshStart(c.banks, cycle);
    StartOwed(c.banks, cycle);
    if m != cycle {
      var b: nat :| b < |c.banks| && (m == c.banks[b].minPre || m == c.banks[b].lastCmd);
      assert BankTight(c, b);
      if m == c.banks[b].minPre {
        if m != 0 {
          var i :| 0 <= i < |c.log| && PreBound(c.t, c.log[i], b) == m;
          assert MayFollow(c.t, c.log[i], Refreshed(z));
        }
      } else if m != 0 {
        var i :| 0 <= i < |c.log| && c.log[i].Column? && c.log[i].bank == b && c.log[i].cycle == m;
        assert MayFollow(c.t, c.log[i], Refreshed(z));
      }
    }
  }

  /** All this holds in every state of every run. */
  lemma {:induction false} RunTight(c: Channel, steps: seq<Step>, d: Channel)
    requires Inv(c) && Tight(c) && Run(c, steps, d)
    ensures Inv(d) && Tight(d)
    decreases |steps|
  {
    if steps != [] {
      match steps[0]
      case IssueStep(r, cur, moreHits) =>
        IssueKeeps(c, r, cur, moreHits);
        IssueTight(c, r, cur, moreHits);
        RunTight(Issue(c, r, cur, moreHits), steps[1..], d);
      case RefreshStep(cycle) =>
        RefreshKeeps(c, cycle);
        RefreshTight(c, cycle);
        RunTight(Refresh(c, cycle), steps[1..], d);
    }
  }

  lemma AlwaysTight(t: Timing, rank: seq<nat>, ranks: nat, steps: seq<Step>, d: Channel)
    requires t.Valid() && (forall b :: 0 <= b < |rank| ==> rank[b] < ranks)
    requires Run(Idle(t, rank, ranks), steps, d)
    ensures Inv(d) && Tight(d)
  {
    IdleOk(t, rank, ranks);
    IdleTight(t, rank, ranks);
    RunTight(Idle(t, rank, ranks), steps, d);
  }

  lemma IdleTight(t: Timing, rank: seq<nat>, ranks: nat)
    ensures Tight(Idle(t, rank, ranks))
  {
    forall b: nat | b < |rank|
      ensures BankTight(Idle(t, rank, ranks), b)
    {
    }
  }

  // ------------------------------------------------------------------ when a request is ready

  ghost predicate AfterColumns(log: seq<Command>, b: nat, y: nat) {
    forall i :: 0 <= i < |log| && log[i].Column? && log[i].bank == b ==> y > log[i].cycle
  }

  lemma AfterLast(c: Channel, b: nat, y: nat)
    requires Inv(c) && b < |c.banks| && y > c.banks[b].lastCmd
    ensures AfterColumns(c.log, b, y)
  {
    forall i | 0 <= i < |c.log| && c.log[i].Column? && c.log[i].bank == b
      ensures y > c.log[i].cycle
    {
      assert Remembered(c, c.log[i]);
    }
  }

  /** What `findMinCmdCycle` means: a request whose row is open is ready once it has arrived and after the
      last column command of the bank, */
  lemma HitReadyWhen(c: Channel, r: Q.Request, y: nat)
    requires Inv(c) && Tight(c) && r.bank < |c.banks| && RowHit(c.banks[r.bank], r)
    ensures y >= FindMinCmdCycle(c, r) <==> y >= r.arrival && AfterColumns(c.log, r.bank, y)
  {
    var b := r.bank;
    assert BankTight(c, b);
    var i :| 0 <= i < |c.log| && c.log[i].Column? && c.log[i].bank == b && c.log[i].cycle == c.banks[b].lastCmd;
    if y > c.banks[b].lastCmd { AfterLast(c, b, y); }
  }

  /** ... and another one tRCD after the activation that it would get. */
  lemma MissReadyWhen(c: Channel, r: Q.Request, y: nat)
    requires Inv(c) && Tight(c) && r.bank < |c.banks| && !RowHit(c.banks[r.bank], r)
    ensures y >= FindMinCmdCycle(c, r) <==> y >= c.t.tRCD && ActAllowed(c.t, c.rank, c.log, r, y - c.t.tRCD)
  {
    if y >= c.t.tRCD { ActAllowedFrom(c, r, y - c.t.tRCD); }
  }
}

/**
 The DRAM commands the scheduler issues and the timing rules they obey.

 The channel keeps a log of its commands: row activations, column accesses and refreshes.  The log
 is in the order the scheduler decides them; cycles are memory cycles.
 */
module DdrTiming {
  import opened BankQueue
  import ActWindow

  datatype Timing = Timing(tBL: nat, tCL: nat, tRCD: nat, tRTP: nat, tRP: nat, tRRD: nat, tRAS: nat,
                           tFAW: nat, tWTR: nat, tWR: nat, tRFC: nat, closedPage: bool)
  {
    ghost predicate Valid() { tBL > 0 && tRFC >= tRP }
  }

  datatype Bank = Bank(open: bool, openRow: nat, minPre: nat, lastAct: nat, lastCmd: nat, rowHits: nat)

  datatype Command =
    | Act(bank: nat, row: nat, cycle: nat)
    | Column(bank: nat, row: nat, cycle: nat, write: bool, closes: bool) // `closes`: with auto-precharge
    | Refreshed(cycle: nat) // the refresh is complete from this cycle on

  /** `rank[b]` is the rank of bank `b`; `window[k]` the activation window of rank `k`. */
  datatype Channel = Channel(t: Timing, rank: seq<nat>, banks: seq<Bank>, window: seq<seq<nat>>,
                             minResp: nat, lastWrite: bool, log: seq<Command>)

  ghost predicate Shape(c: Channel) {
    && c.t.Valid()
    && |c.rank| == |c.banks|
    && (forall b :: 0 <= b < |c.rank| ==> c.rank[b] < |c.window|)
    && (forall k :: 0 <= k < |c.window| ==> |c.window[k]| == 4)
    && c.minResp >= c.t.tCL + c.t.tBL
  }

  function Max(a: nat, b: nat): nat { if a >= b then a else b }

  // ------------------------------------------------------------------ the scheduler's arithmetic

  predicate RowHit(bank: Bank, r: Request) { bank.open && r.row == bank.openRow }

  /** When the row of `r` can be activated. */
  function ActCycle(c: Channel, r: Request): nat
    requires Shape(c) && r.bank < |c.banks|
  {
    var bank := c.banks[r.bank];
    var pre := PreCycle(bank, r);
    Max(Max(r.arrival, Max(pre + c.t.tRP, bank.lastAct + c.t.tRRD)), c.window[c.rank[r.bank]][0] + c.t.tFAW)
  }

  function PreCycle(bank: Bank, r: Request): nat {
    if bank.open then Max(r.arrival, bank.minPre) else bank.minPre
  }

  /** `findMinCmdCycle` */
  function FindMinCmdCycle(c: Channel, r: Request): nat
    requires Shape(c) && r.bank < |c.banks|
  {
    var bank := c.banks[r.bank];
    if RowHit(bank, r) then Max(r.arrival, bank.lastCmd + 1) else ActCycle(c, r) + c.t.tRCD
  }

  /** The row of `r` is opened by an activation at cycle `act`, after a precharge at `pre` if another
      row was open. */
  function Opening(c: Channel, r: Request, pre: nat, act: nat): (d: Channel)
    requires r.bank < |c.banks| && r.bank < |c.rank| && c.rank[r.bank] < |c.window| && c.window[c.rank[r.bank]] != []
  {
    var bank, k := c.banks[r.bank], c.rank[r.bank];
    var bank' := bank.(open := true, openRow := r.row, lastAct := act,
                       minPre := if bank.open then pre + c.t.tRAS else bank.minPre);
    c.(banks := c.banks[r.bank := bank'], window := c.window[k := ActWindow.Added(c.window[k], act)],
       log := c.log + [Act(r.bank, r.row, act)])
  }

  /** The row of `r` is opened, unless it is open already. */
  function Activate(c: Channel, r: Request): (d: Channel)
    requires Shape(c) && r.bank < |c.banks|
  {
    var bank := c.banks[r.bank];
    if RowHit(bank, r) then c else Opening(c, r, PreCycle(bank, r), ActCycle(c, r))
  }

  /** When the column command of `r` is issued, its row being open: not before the activation, the
      data bus and the turn-around from writing to reading allow it. */
  function ColumnCycle(c: Channel, r: Request, cur: nat, hit: bool): nat
    requires Shape(c) && r.bank < |c.banks|
  {
    var bus := Max(cur, c.minResp - c.t.tCL);
    var turn := if c.lastWrite && !r.write then Max(bus, c.minResp + c.t.tWTR) else bus;
    var ready := if hit then turn else Max(turn, c.banks[r.bank].lastAct + c.t.tRCD);
    Max(ready, c.minResp - c.t.tCL)
  }

  /** The column command; the row is closed at once if pages are, and no further hit is queued. */
  function Access(c: Channel, r: Request, cycle: nat, moreHits: bool): (d: Channel)
    requires Shape(c) && r.bank < |c.banks|
  {
    var bank := c.banks[r.bank];
    var resp := cycle + c.t.tCL + c.t.tBL;
    var done := if r.write then resp + c.t.tWR else cycle + c.t.tRTP;
    var closes := c.t.closedPage && !moreHits;
    var bank' := bank.(open := bank.open && !closes,
                       minPre := Max(bank.minPre, Max(bank.lastAct + c.t.tRAS, done)),
                       lastCmd := cycle, rowHits := r.hits);
    c.(banks := c.banks[r.bank := bank'], minResp := resp, lastWrite := r.write,
       log := c.log + [Column(r.bank, r.row, cycle, r.write, closes)])
  }

  /** `trySchedule` for the request it has chosen. */
  function Issue(c: Channel, r: Request, cur: nat, moreHits: bool): (d: Channel)
    requires Shape(c) && r.bank < |c.banks|
    ensures Shape(d) && |d.banks| == |c.banks| && d.t == c.t && d.minResp >= cur + d.t.tCL + d.t.tBL
  {
    var hit := RowHit(c.banks[r.bank], r);
    ShapeActivate(c, r);
    var a := Activate(c, r);
    Access(a, r, ColumnCycle(a, r, cur, hit), moreHits)
  }

  /** The assertions on the way: the activation window is not violated, and the column commands of a
      bank are issued one after the other. */
  predicate IssueAsserts(c: Channel, r: Request, cur: nat)
    requires Shape(c) && r.bank < |c.banks|
  {
    var hit := RowHit(c.banks[r.bank], r);
    ShapeActivate(c, r);
    && (!hit ==> c.window[c.rank[r.bank]][0] <= ActCycle(c, r))
    && c.banks[r.bank].lastCmd < ColumnCycle(Activate(c, r), r, cur, hit)
  }

  lemma ShapeActivate(c: Channel, r: Request)
    requires Shape(c) && r.bank < |c.banks|
    ensures Shape(Activate(c, r)) && |Activate(c, r).banks| == |c.banks|
  {
  }

  /** The cycle from which on no bank has anything left to do. */
  function RefreshStart(banks: seq<Bank>, cycle: nat): (m: nat)
    ensures m >= cycle && forall b :: 0 <= b < |banks| ==> m >= banks[b].minPre && m >= banks[b].lastCmd
  {
    if banks == [] then cycle else
    var k := |banks| - 1;
    Max(RefreshStart(banks[..k], cycle), Max(banks[k].minPre, banks[k].lastCmd))
  }

  function Refresh(c: Channel, cycle: nat): (d: Channel)
    requires Shape(c)
    ensures Shape(d) && |d.banks| == |c.banks| && d.t == c.t
  {
    var done := RefreshStart(c.banks, cycle) + c.t.tRFC;
    c.(banks := seq(|c.banks|, b requires 0 <= b < |c.banks| => c.banks[b].(open := false, minPre := done - c.t.tRP)),
       log := c.log + [Refreshed(done)])
  }

  // ------------------------------------------------------------------ the rules

  /** `f` may follow `e`, anywhere later in the log. */
  ghost predicate MayFollow(t: Timing, e: Command, f: Command) {
    match (e, f)
    case (Act(b, _, x), Act(d, _, y)) => b == d ==> y >= x + t.tRAS + t.tRP && y >= x + t.tRRD
    case (Act(b, _, x), Column(d, _, y, _, _)) => b == d ==> y >= x + t.tRCD
    case (Column(b, _, x, w, _), Act(d, _, y)) =>
      b == d ==> y >= x + t.tRP + if w then t.tCL + t.tBL + t.tWR else t.tRTP
    case (Column(_, _, x, w, _), Column(_, _, y, v, _)) =>
      y >= x + t.tBL && (w && !v ==> y >= x + t.tCL + t.tBL + t.tWTR)
    case (Refreshed(x), Act(_, _, y)) => y >= x
    case (Act(_, _, x), Refreshed(y)) => y >= x + t.tRAS + t.tRFC
    case (Column(_, _, x, w, _), Refreshed(y)) =>
      y >= x + t.tRFC && y >= x + t.tRFC + if w then t.tCL + t.tBL + t.tWR else t.tRTP
    case _ => true
  }

  ghost predicate InTime(t: Timing, log: seq<Command>) {
    forall i, j :: 0 <= i < j < |log| ==> MayFollow(t, log[i], log[j])
  }

  /** The row that bank `b` holds after the commands of `log`, if any. */
  ghost function RowIn(log: seq<Command>, b: nat): (r: int)
    ensures r >= -1
  {
    if log == [] then -1 else
    var k := |log| - 1;
    match log[k]
    case Act(d, row, _) => if d == b then row else RowIn(log[..k], b)
    case Column(d, _, _, _, closes) => if d == b && closes then -1 else RowIn(log[..k], b)
    case Refreshed(_) => -1
  }

  /** A column access needs its row in the row buffer, an activation is issued only if it is not there. */
  ghost predicate RowFits(log: seq<Command>, f: Command) {
    match f
    case Column(b, row, _, _, _) => RowIn(log, b) == row
    case Act(b, row, _) => RowIn(log, b) != row
    case Refreshed(_) => true
  }

  ghost predicate RowsOpen(log: seq<Command>) {
    forall i :: 0 <= i < |log| ==> RowFits(log[..i], log[i])
  }

  /** The activations of the banks of rank `k`. */
  ghost function RankActs(log: seq<Command>, rank: seq<nat>, k: nat): seq<nat> {
    if log == [] then [] else
    var n := |log| - 1;
    RankActs(log[..n], rank, k) +
      if log[n].Act? && log[n].bank < |rank| && rank[log[n].bank] == k then [log[n].cycle] else []
  }

  // ------------------------------------------------------------------ what the state remembers of the log

  /** The constraints that command `e` leaves behind in the state. */
  ghost predicate Remembered(c: Channel, e: Command) {
    match e
    case Act(b, _, x) =>
      && b < |c.banks| && x <= c.banks[b].lastAct
      && x + c.t.tRAS <= c.banks[b].minPre && x + c.t.tRCD <= c.banks[b].lastCmd
    case Column(b, _, x, w, _) =>
      && b < |c.banks| && x <= c.banks[b].lastCmd && x + c.t.tCL + c.t.tBL <= c.minResp
      && x + (if w then c.t.tCL + c.t.tBL + c.t.tWR else c.t.tRTP) <= c.banks[b].minPre
      && (w && !c.lastWrite ==> x + c.t.tCL + c.t.tBL + c.t.tWTR <= c.minResp - c.t.tCL)
    case Refreshed(x) => forall b :: 0 <= b < |c.banks| ==> x <= c.banks[b].minPre + c.t.tRP
  }

  ghost predicate AllRemembered(c: Channel, log: seq<Command>) {
    forall i :: 0 <= i < |log| ==> Remembered(c, log[i])
  }

  /** The windows hold the activations of their ranks, each of which waited for its turn. */
  ghost predicate WindowsOk(c: Channel) {
    forall k: nat :: k < |c.window| ==> WindowOk(c, k)
  }

  ghost predicate WindowOk(c: Channel, k: nat)
    requires k < |c.window|
  {
    var acts := RankActs(c.log, c.rank, k);
    c.window[k] == ActWindow.After(4, acts) && ActWindow.Respects(4, c.t.tFAW, acts)
  }

  ghost predicate BanksOk(c: Channel) {
    forall b: nat :: b < |c.banks| ==> BankOk(c, b)
  }

  ghost predicate BankOk(c: Channel, b: nat)
    requires b < |c.banks|
  {
    && RowIn(c.log, b) == (if c.banks[b].open then c.banks[b].openRow else -1)
    && c.banks[b].lastCmd + c.t.tCL + c.t.tBL <= c.minResp
  }

  ghost predicate Inv(c: Channel) {
    Shape(c) && AllRemembered(c, c.log) && InTime(c.t, c.log) && RowsOpen(c.log) && WindowsOk(c) && BanksOk(c)
  }

  // ------------------------------------------------------------------ growing the log

  lemma InTimeGrows(t: Timing, log: seq<Command>, f: Command)
    requires InTime(t, log) && forall i :: 0 <= i < |log| ==> MayFollow(t, log[i], f)
    ensures InTime(t, log + [f])
  {
  }

  lemma RowsOpenGrows(log: seq<Command>, f: Command)
    requires RowsOpen(log) && RowFits(log, f)
    ensures RowsOpen(log + [f])
  {
    forall i | 0 <= i < |log + [f]|
      ensures RowFits((log + [f])[..i], (log + [f])[i])
    {
      assert (log + [f])[..i] == log[..i];
      assert log[..|log|] == log;
    }
  }

  lemma RowInGrows(log: seq<Command>, f: Command, b: nat)
    ensures RowIn(log + [f], b) ==
      match f
      case Act(d, row, _) => (if d == b then row else RowIn(log, b))
      case Column(d, _, _, _, closes) => (if d == b && closes then -1 else RowIn(log, b))
      case Refreshed(_) => -1
  {
    assert (log + [f])[..|log|] == log;
  }

  lemma RankActsGrow(log: seq<Command>, f: Command, rank: seq<nat>, k: nat)
    ensures RankActs(log + [f], rank, k) == RankActs(log, rank, k) +
      if f.Act? && f.bank < |rank| && rank[f.bank] == k then [f.cycle] else []
  {
    assert (log + [f])[..|log|] == log;
  }

  // ------------------------------------------------------------------ opening a row

  lemma ActMayFollow(c: Channel, r: Request, e: Command)
    requires Shape(c) && r.bank < |c.banks| && Remembered(c, e)
    ensures MayFollow(c.t, e, Act(r.bank, r.row, ActCycle(c, r)))
  {
  }

  lemma ActivateRemembers(c: Channel, r: Request, e: Command)
    requires Shape(c) && r.bank < |c.banks| && Remembered(c, e)
    ensures Remembered(Activate(c, r), e)
  {
  }

  lemma ActivateWindow(c: Channel, r: Request, k: nat)
    requires Inv(c) && r.bank < |c.banks| && !RowHit(c.banks[r.bank], r) && k < |c.window|
    ensures WindowOk(Activate(c, r), k)
  {
    var a, act := Activate(c, r), ActCycle(c, r);
    assert WindowOk(c, k);
    RankActsGrow(c.log, Act(r.bank, r.row, act), c.rank, k);
    var acts := RankActs(c.log, c.rank, k);
    assert (acts + [act])[..|acts|] == acts && acts + [] == acts;
  }

  /** A row that had to be opened: all rules hold, and the bank is about to get its column command. */
  ghost predicate Opened(c: Channel, log: seq<Command>, r: Request) {
    && Shape(c) && r.bank < |c.banks| && RowHit(c.banks[r.bank], r)
    && AllRemembered(c, log) && InTime(c.t, c.log) && RowsOpen(c.log) && WindowsOk(c) && BanksOk(c)
    && (c.log == log || c.log == log + [Act(r.bank, r.row, c.banks[r.bank].lastAct)])
  }

  lemma ActivateOpens(c: Channel, r: Request)
    requires Inv(c) && r.bank < |c.banks|
    ensures Opened(Activate(c, r), c.log, r) && |Activate(c, r).banks| == |c.banks|
    ensures RowHit(c.banks[r.bank], r) <==> Activate(c, r).log == c.log
  {
    var a := Activate(c, r);
    if !RowHit(c.banks[r.bank], r) {
      var f := Act(r.bank, r.row, ActCycle(c, r));
      forall i | 0 <= i < |c.log|
        ensures Remembered(a, c.log[i]) && MayFollow(c.t, c.log[i], f)
      {
        ActMayFollow(c, r, c.log[i]);
        ActivateRemembers(c, r, c.log[i]);
      }
      InTimeGrows(c.t, c.log, f);
      assert BankOk(c, r.bank);
      RowsOpenGrows(c.log, f);
      forall k: nat | k < |a.window|
        ensures WindowOk(a, k)
      {
        ActivateWindow(c, r, k);
      }
      forall b: nat | b < |a.banks|
        ensures BankOk(a, b)
      {
        assert BankOk(c, b);
        RowInGrows(c.log, f, b);
      }
    }
  }

  // ------------------------------------------------------------------ the column command

  lemma ColumnMayFollow(c: Channel, r: Request, cur: nat, hit: bool, moreHits: bool, e: Command)
    requires Shape(c) && r.bank < |c.banks| && BankOk(c, r.bank) && Remembered(c, e)
    ensures var cycle := ColumnCycle(c, r, cur, hit);
      && MayFollow(c.t, e, Column(r.bank, r.row, cycle, r.write, c.t.closedPage && !moreHits))
      && Remembered(Access(c, r, cycle, moreHits), e)
  {
  }

  lemma FreshActRemembered(c: Channel, r: Request, cur: nat, moreHits: bool)
    requires Shape(c) && r.bank < |c.banks| && BankOk(c, r.bank)
    ensures var cycle := ColumnCycle(c, r, cur, false);
      var e := Act(r.bank, r.row, c.banks[r.bank].lastAct);
      && MayFollow(c.t, e, Column(r.bank, r.row, cycle, r.write, c.t.closedPage && !moreHits))
      && Remembered(Access(c, r, cycle, moreHits), e)
  {
  }

  /** A command that is no activation leaves the windows right. */
  lemma WindowFrame(c: Channel, f: Command, d: Channel, k: nat)
    requires k < |c.window| && WindowOk(c, k) && !f.Act?
    requires d.window == c.window && d.rank == c.rank && d.t == c.t && d.log == c.log + [f]
    ensures WindowOk(d, k)
  {
    RankActsGrow(c.log, f, c.rank, k);
    assert RankActs(c.log, c.rank, k) + [] == RankActs(c.log, c.rank, k);
  }

  /** What a new command has to satisfy for the log to stay in order. */
  lemma LogGrows(c: Channel, f: Command, d: Channel)
    requires InTime(c.t, c.log) && RowsOpen(c.log) && RowFits(c.log, f)
    requires forall i :: 0 <= i < |c.log| ==> MayFollow(c.t, c.log[i], f)
    requires AllRemembered(d, c.log) && Remembered(d, f) && d.log == c.log + [f] && d.t == c.t
    ensures AllRemembered(d, d.log) && InTime(d.t, d.log) && RowsOpen(d.log)
  {
    InTimeGrows(c.t, c.log, f);
    RowsOpenGrows(c.log, f);
  }

  lemma AccessBank(c: Channel, r: Request, cur: nat, hit: bool, moreHits: bool, b: nat)
    requires Shape(c) && r.bank < |c.banks| && b < |c.banks| && BankOk(c, b) && RowIn(c.log, r.bank) == r.row
    requires c.banks[r.bank].openRow == r.row
    ensures var d := Access(c, r, ColumnCycle(c, r, cur, hit), moreHits); b < |d.banks| && BankOk(d, b)
  {
    RowInGrows(c.log, Column(r.bank, r.row, ColumnCycle(c, r, cur, hit), r.write, c.t.closedPage && !moreHits), b);
  }

  lemma AccessKeeps(c: Channel, log: seq<Command>, r: Request, cur: nat, hit: bool, moreHits: bool)
    requires Opened(c, log, r) && (hit <==> c.log == log)
    ensures Inv(Access(c, r, ColumnCycle(c, r, cur, hit), moreHits))
  {
    var cycle := ColumnCycle(c, r, cur, hit);
    var d := Access(c, r, cycle, moreHits);
    var f := Column(r.bank, r.row, cycle, r.write, c.t.closedPage && !moreHits);
    assert BankOk(c, r.bank);
    forall i | 0 <= i < |c.log|
      ensures MayFollow(c.t, c.log[i], f) && Remembered(d, c.log[i])
    {
      if i < |log| {
        assert c.log[i] == log[i];
        ColumnMayFollow(c, r, cur, hit, moreHits, log[i]);
      } else {
        FreshActRemembered(c, r, cur, moreHits);
      }
    }
    LogGrows(c, f, d);
    forall k: nat | k < |d.window|
      ensures WindowOk(d, k)
    {
      assert WindowOk(c, k);
      WindowFrame(c, f, d, k);
    }
    forall b: nat | b < |d.banks|
      ensures BankOk(d, b)
    {
      assert BankOk(c, b);
      AccessBank(c, r, cur, hit, moreHits, b);
    }
  }

  lemma IssueKeeps(c: Channel, r: Request, cur: nat, moreHits: bool)
    requires Inv(c) && r.bank < |c.banks|
    ensures Inv(Issue(c, r, cur, moreHits)) && |Issue(c, r, cur, moreHits).banks| == |c.banks|
  {
    ActivateOpens(c, r);
    AccessKeeps(Activate(c, r), c.log, r, cur, RowHit(c.banks[r.bank], r), moreHits);
  }

  lemma IssueAssertsHold(c: Channel, r: Request, cur: nat)
    requires Inv(c) && r.bank < |c.banks|
    ensures IssueAsserts(c, r, cur)
  {
    assert BankOk(c, r.bank);
  }

  // ------------------------------------------------------------------ refresh

  lemma RefreshRemembers(c: Channel, cycle: nat, e: Command)
    requires Shape(c) && Remembered(c, e)
    ensures MayFollow(c.t, e, Refreshed(RefreshStart(c.banks, cycle) + c.t.tRFC)) && Remembered(Refresh(c, cycle), e)
  {
  }

  lemma RefreshKeeps(c: Channel, cycle: nat)
    requires Inv(c)
    ensures Inv(Refresh(c, cycle)) && |Refresh(c, cycle).banks| == |c.banks|
  {
    var d := Refresh(c, cycle);
    var f := Refreshed(RefreshStart(c.banks, cycle) + c.t.tRFC);
    forall i | 0 <= i < |c.log|
      ensures MayFollow(c.t, c.log[i], f) && Remembered(d, c.log[i])
    {
      RefreshRemembers(c, cycle, c.log[i]);
    }
    LogGrows(c, f, d);
    forall k: nat | k < |d.window|
      ensures WindowOk(d, k)
    {
      assert WindowOk(c, k);
      WindowFrame(c, f, d, k);
    }
    forall b: nat | b < |d.banks|
      ensures BankOk(d, b)
    {
      assert BankOk(c, b);
      RowInGrows(c.log, f, b);
    }
  }

  // ------------------------------------------------------------------ runs

  datatype Step = IssueStep(r: Request, cur: nat, moreHits: bool) | RefreshStep(cycle: nat)

  ghost predicate Run(c: Channel, steps: seq<Step>, d: Channel)
    requires Shape(c)
    decreases |steps|
  {
    if steps == [] then c == d else
    match steps[0]
    case IssueStep(r, cur, moreHits) => r.bank < |c.banks| && Run(Issue(c, r, cur, moreHits), steps[1..], d)
    case RefreshStep(cycle) => Run(Refresh(c, cycle), steps[1..], d)
  }

  /** A channel that has not been used. */
  function Idle(t: Timing, rank: seq<nat>, ranks: nat): (c: Channel)
    ensures t.Valid() && (forall b :: 0 <= b < |rank| ==> rank[b] < ranks) ==> Shape(c)
  {
    Channel(t, rank, seq(|rank|, _ => Bank(false, 0, 0, 0, 0, 0)), seq(ranks, _ => [0, 0, 0, 0]),
            t.tCL + t.tBL + 1, false, [])
  }

  lemma IdleOk(t: Timing, rank: seq<nat>, ranks: nat)
    requires t.Valid() && forall b :: 0 <= b < |rank| ==> rank[b] < ranks
    ensures Inv(Idle(t, rank, ranks))
  {
    assert ActWindow.After(4, []) == [0, 0, 0, 0];
  }

  lemma {:induction false} RunKeeps(c: Channel, steps: seq<Step>, d: Channel)
    requires Inv(c) && Run(c, steps, d)
    ensures Inv(d) && d.t == c.t && d.rank == c.rank
    decreases |steps|
  {
    if steps != [] {
      match steps[0]
      case IssueStep(r, cur, moreHits) =>
        IssueKeeps(c, r, cur, moreHits);
        RunKeeps(Issue(c, r, cur, moreHits), steps[1..], d);
      case RefreshStep(cycle) =>
        RefreshKeeps(c, cycle);
        RunKeeps(Refresh(c, cycle), steps[1..], d);
    }
  }

  lemma RunInv(t: Timing, rank: seq<nat>, ranks: nat, steps: seq<Step>, d: Channel)
    requires t.Valid() && (forall b :: 0 <= b < |rank| ==> rank[b] < ranks)
    requires Run(Idle(t, rank, ranks), steps, d)
    ensures Inv(d) && d.t == t && d.rank == rank
  {
    IdleOk(t, rank, ranks);
    RunKeeps(Idle(t, rank, ranks), steps, d);
  }

  /** Whatever is scheduled and refreshed, every pair of commands keeps its distance and every column
      access finds its row open. */
  lemma AlwaysInTime(t: Timing, rank: seq<nat>, ranks: nat, steps: seq<Step>, d: Channel)
    requires t.Valid() && (forall b :: 0 <= b < |rank| ==> rank[b] < ranks)
    requires Run(Idle(t, rank, ranks), steps, d)
    ensures InTime(t, d.log) && RowsOpen(d.log)
  {
    RunInv(t, rank, ranks, steps, d);
  }

  lemma RankRespects(d: Channel, k: nat, n: nat, faw: nat, acts: seq<nat>)
    requires Inv(d) && k < |d.window| && n == 4 && faw == d.t.tFAW && acts == RankActs(d.log, d.rank, k)
    ensures ActWindow.Respects(n, faw, acts)
  {
    assert WindowOk(d, k);
  }

  /** How many activations of rank `k` fall into the cycles from `lo` to before `hi`. */
  ghost function ActsBetween(log: seq<Command>, rank: seq<nat>, k: nat, lo: nat, hi: nat): nat {
    ActWindow.Within(RankActs(log, rank, k), lo, hi)
  }

  lemma RankLimit(d: Channel, k: nat, n: nat, lo: nat, hi: nat)
    requires Inv(d) && k < |d.window| && n == 4 && hi == lo + d.t.tFAW
    ensures ActsBetween(d.log, d.rank, k, lo, hi) <= n
  {
    var acts := RankActs(d.log, d.rank, k);
    RankRespects(d, k, n, d.t.tFAW, acts);
    ActWindow.FourActivateWindow(n, d.t.tFAW, acts, lo);
  }

  /** No more than four activations of one rank in any tFAW cycles. */
  lemma FourActivates(t: Timing, rank: seq<nat>, ranks: nat, steps: seq<Step>, d: Channel, k: nat, lo: nat)
    requires t.Valid() && (forall b :: 0 <= b < |rank| ==> rank[b] < ranks)
    requires Run(Idle(t, rank, ranks), steps, d) && k < |d.window|
    ensures ActsBetween(d.log, rank, k, lo, lo + t.tFAW) <= 4
  {
    RunInv(t, rank, ranks, steps, d);
    RankLimit(d, k, 4, lo, lo + t.tFAW);
  }
}

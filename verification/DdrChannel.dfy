/**
 The banks, the activation windows and the data bus as the program keeps them: bank records and the
 circular buffers of the windows are overwritten in place, field by field.
 */
module DdrChannel {
  import opened BankQueue
  import opened ActWindow
  import T = DdrTiming

  ghost predicate ApartFrom(windows: seq<Window>, i: nat, j: nat)
    requires i < |windows| && j < |windows|
  {
    windows[i] != windows[j] && windows[i].buf != windows[j].buf
  }

  class BankedChannel {
    const t: T.Timing
    const rank: seq<nat>
    const banks: array<T.Bank>
    const windows: seq<Window>
    var minRespCycle: nat
    var lastCmdWasWrite: bool
    ghost var log: seq<T.Command>

    ghost function Bufs(): set<array<nat>> {
      set k | 0 <= k < |windows| :: windows[k].buf
    }

    /** Each rank has a window of its own, with room for four activations. */
    ghost predicate Valid()
      reads windows
    {
      && (forall k :: 0 <= k < |windows| ==> windows[k].Valid() && windows[k].buf.Length == 4)
      && (forall i: nat, j: nat :: i < j < |windows| ==> ApartFrom(windows, i, j))
    }

    ghost function WindowsView(): (w: seq<seq<nat>>)
      requires Valid()
      reads windows, Bufs()
      ensures |w| == |windows| && forall k :: 0 <= k < |w| ==> w[k] == windows[k].View()
    {
      seq(|windows|, k requires 0 <= k < |windows| && Valid() reads windows, Bufs() => windows[k].View())
    }

    ghost function View(): T.Channel
      requires Valid()
      reads this, banks, windows, Bufs()
    {
      T.Channel(t, rank, banks[..], WindowsView(), minRespCycle, lastCmdWasWrite, log)
    }

    constructor (t: T.Timing, rank: seq<nat>, ranks: nat)
      ensures Valid() && View() == T.Idle(t, rank, ranks)
      ensures fresh(banks) && fresh(windows) && fresh(Bufs())
    {
      var ws := NewWindows(ranks);
      this.t, this.rank, windows := t, rank, ws;
      banks := new T.Bank[|rank|](_ => T.Bank(false, 0, 0, 0, 0, 0));
      minRespCycle, lastCmdWasWrite, log := t.tCL + t.tBL + 1, false, [];
      new;
      assert banks[..] == T.Idle(t, rank, ranks).banks;
      assert WindowsView() == T.Idle(t, rank, ranks).window by { assert After(4, []) == [0, 0, 0, 0]; }
    }

    function PreAt(r: Request): (preCycle: nat)
      requires r.bank < banks.Length
      reads banks
      ensures preCycle == T.PreCycle(banks[r.bank], r)
    {
      var bank := banks[r.bank];
      if !bank.open then bank.minPre else T.Max(r.arrival, bank.minPre)
    }

    /** When a request's row can be activated: after PRE, the last ACT, and the activation window. */
    function ActAt(r: Request): (actCycle: nat)
      requires Valid() && T.Shape(View()) && r.bank < banks.Length
      reads this, banks, windows, Bufs()
      ensures actCycle == T.ActCycle(View(), r)
    {
      var actCycle := T.Max(r.arrival, T.Max(PreAt(r) + t.tRP, banks[r.bank].lastAct + t.tRRD));
      T.Max(actCycle, windows[rank[r.bank]].MinActCycle() + t.tFAW)
    }

    function MinCmdCycle(r: Request): (minCmdCycle: nat)
      requires Valid() && T.Shape(View()) && r.bank < banks.Length
      reads this, banks, windows, Bufs()
      ensures minCmdCycle == T.FindMinCmdCycle(View(), r)
    {
      var bank := banks[r.bank];
      if r.row == bank.openRow && bank.open then T.Max(r.arrival, bank.lastCmd + 1) else ActAt(r) + t.tRCD
    }

    /** The bank's row and cycles. */
    method RecordRow(r: Request, preCycle: nat, actCycle: nat)
      requires Valid() && r.bank < banks.Length
      modifies `log, banks
      ensures Valid()
      ensures var c := old(View());
        var bank := c.banks[r.bank];
        View() == c.(log := c.log + [T.Act(r.bank, r.row, actCycle)],
                     banks := c.banks[r.bank := bank.(open := true, openRow := r.row, lastAct := actCycle,
                                      minPre := if bank.open then preCycle + t.tRAS else bank.minPre)])
    {
      var b := r.bank;
      var preIssued := banks[b].open;
      banks[b] := banks[b].(open := true);
      banks[b] := banks[b].(openRow := r.row);
      if preIssued { banks[b] := banks[b].(minPre := preCycle + t.tRAS); }
      banks[b] := banks[b].(lastAct := actCycle);
      log := log + [T.Act(b, r.row, actCycle)];
    }

    /** Records an activation in its bank and in the window of its rank. */
    method RecordOpening(r: Request, preCycle: nat, actCycle: nat)
      requires Valid() && r.bank < banks.Length && r.bank < |rank| && rank[r.bank] < |windows|
      requires WindowsView()[rank[r.bank]] != [] && WindowsView()[rank[r.bank]][0] <= actCycle
      modifies `log, banks, windows, Bufs()
      ensures Valid() && View() == T.Opening(old(View()), r, preCycle, actCycle)
    {
      RecordRow(r, preCycle, actCycle);
      assert View().window == old(View()).window;
      Push(rank[r.bank], actCycle);
    }

    method RecordAct(r: Request) returns (actCycle: nat, respected: bool)
      requires Valid() && T.Shape(View()) && r.bank < banks.Length && !T.RowHit(banks[r.bank], r)
      modifies `log, banks, windows, Bufs()
      ensures Valid() && View() == T.Activate(old(View()), r)
      ensures actCycle == T.ActCycle(old(View()), r)
      ensures respected == (old(View()).window[rank[r.bank]][0] <= actCycle)
    {
      var preCycle := PreAt(r);
      actCycle := ActAt(r);
      respected := windows[rank[r.bank]].MinActCycle() <= actCycle;
      RecordOpening(r, preCycle, actCycle);
    }

    /** One window takes the activation, the others are apart from it. */
    method Push(k: nat, actCycle: nat)
      requires Valid() && k < |windows| && WindowsView()[k] != [] && WindowsView()[k][0] <= actCycle
      modifies windows, Bufs()
      ensures Valid()
      ensures var c := old(View()); View() == c.(window := c.window[k := Added(c.window[k], actCycle)])
    {
      ghost var w := WindowsView();
      windows[k].AddActivation(actCycle);
      forall i: nat | i < |windows|
        ensures windows[i].Valid() && windows[i].buf.Length == 4
        ensures windows[i].View() == if i == k then Added(w[k], actCycle) else w[i]
      {
        if i != k { assert ApartFrom(windows, if i < k then i else k, if i < k then k else i); }
      }
      assert WindowsView() == w[k := Added(w[k], actCycle)];
    }

    /** The bank's part of a column command: precharge time, row buffer, hits. */
    method RecordHit(r: Request, cmdCycle: nat, recovered: nat, closes: bool) returns (inOrder: bool)
      requires Valid() && r.bank < banks.Length
      modifies banks
      ensures Valid() && inOrder == (old(banks[r.bank].lastCmd) < cmdCycle)
      ensures var c := old(View());
        var bank := c.banks[r.bank];
        View() == c.(banks := c.banks[r.bank := bank.(open := bank.open && !closes,
                                      minPre := T.Max(bank.minPre, T.Max(bank.lastAct + t.tRAS, recovered)),
                                      lastCmd := cmdCycle, rowHits := r.hits)])
    {
      var b := r.bank;
      if closes { banks[b] := banks[b].(open := false); }
      banks[b] := banks[b].(minPre := T.Max(banks[b].minPre, T.Max(banks[b].lastAct + t.tRAS, recovered)));
      inOrder := banks[b].lastCmd < cmdCycle;
      banks[b] := banks[b].(lastCmd := cmdCycle);
      banks[b] := banks[b].(rowHits := r.hits);
    }

    /** Records the column command: data bus, bank and log. */
    method RecordColumn(r: Request, cmdCycle: nat, moreHits: bool) returns (inOrder: bool)
      requires Valid() && T.Shape(View()) && r.bank < banks.Length
      modifies `log, `minRespCycle, `lastCmdWasWrite, banks
      ensures Valid() && View() == T.Access(old(View()), r, cmdCycle, moreHits)
      ensures inOrder == (old(banks[r.bank].lastCmd) < cmdCycle)
    {
      var closes := t.closedPage && !moreHits;
      var respCycle := cmdCycle + t.tCL + t.tBL;
      inOrder := RecordHit(r, cmdCycle, if r.write then respCycle + t.tWR else cmdCycle + t.tRTP, closes);
      minRespCycle := respCycle;
      lastCmdWasWrite := r.write;
      log := log + [T.Column(r.bank, r.row, cmdCycle, r.write, closes)];
    }

    /** Opens the row of a request, unless it is open, and says when the bank is ready for it. */
    method OpenRow(r: Request, minCmdCycle: nat) returns (ready: nat, respected: bool)
      requires Valid() && T.Shape(View()) && r.bank < banks.Length
      modifies `log, banks, windows, Bufs()
      ensures Valid() && View() == T.Activate(old(View()), r)
      ensures var c := old(View());
        if T.RowHit(c.banks[r.bank], r) then ready == minCmdCycle && respected
        else ready == T.Max(minCmdCycle, T.ActCycle(c, r) + t.tRCD)
             && respected == (c.window[rank[r.bank]][0] <= T.ActCycle(c, r))
    {
      ready, respected := minCmdCycle, true;
      if !(r.row == banks[r.bank].openRow && banks[r.bank].open) {
        var actCycle;
        actCycle, respected := RecordAct(r);
        ready := T.Max(minCmdCycle, actCycle + t.tRCD);
      }
    }

    /** The second half of `trySchedule`: the command cycle of a request, and everything it changes. */
    method Issue(r: Request, curCycle: nat, moreHits: bool) returns (fine: bool)
      requires Valid() && T.Shape(View()) && r.bank < banks.Length
      modifies `log, `minRespCycle, `lastCmdWasWrite, banks, windows, Bufs()
      ensures Valid() && View() == T.Issue(old(View()), r, curCycle, moreHits)
      ensures fine == T.IssueAsserts(old(View()), r, curCycle)
    {
      ghost var c := View();
      T.ShapeActivate(c, r);
      var minCmdCycle := T.Max(curCycle, minRespCycle - t.tCL);
      if lastCmdWasWrite && !r.write { minCmdCycle := T.Max(minCmdCycle, minRespCycle + t.tWTR); }
      var ready, respected := OpenRow(r, minCmdCycle);
      var cmdCycle := T.Max(ready, minRespCycle - t.tCL);
      assert cmdCycle == T.ColumnCycle(View(), r, curCycle, T.RowHit(c.banks[r.bank], r));
      var inOrder := RecordColumn(r, cmdCycle, moreHits);
      fine := respected && inOrder;
    }

    /** The first loop of `refresh`: nothing is left to do in any bank from this cycle on. */
    method RefreshFrom(memCycle: nat) returns (minRefreshCycle: nat)
      ensures minRefreshCycle == T.RefreshStart(banks[..], memCycle)
    {
      minRefreshCycle := memCycle;
      for b := 0 to banks.Length
        invariant minRefreshCycle == T.RefreshStart(banks[..b], memCycle)
      {
        assert banks[..b + 1][..b] == banks[..b];
        minRefreshCycle := T.Max(minRefreshCycle, T.Max(banks[b].minPre, banks[b].lastCmd));
      }
      assert banks[..banks.Length] == banks[..];
    }

    /** The second one: all banks are closed and may not be precharged before `cycle`. */
    method CloseAll(cycle: nat)
      modifies banks
      ensures banks[..] == seq(banks.Length, b requires 0 <= b < banks.Length =>
                old(banks[..])[b].(open := false, minPre := cycle))
    {
      for b := 0 to banks.Length
        invariant forall i :: 0 <= i < b ==> banks[i] == old(banks[i]).(open := false, minPre := cycle)
        invariant forall i :: b <= i < banks.Length ==> banks[i] == old(banks[i])
      {
        banks[b] := banks[b].(minPre := cycle);
        banks[b] := banks[b].(open := false);
      }
    }

    method Refresh(memCycle: nat)
      requires Valid() && T.Shape(View())
      modifies `log, banks
      ensures Valid() && View() == T.Refresh(old(View()), memCycle)
    {
      ghost var c := View();
      var minRefreshCycle := RefreshFrom(memCycle);
      var refreshDoneCycle := minRefreshCycle + t.tRFC;
      CloseAll(refreshDoneCycle - t.tRP);
      log := log + [T.Refreshed(refreshDoneCycle)];
      assert banks[..] == T.Refresh(c, memCycle).banks;
      assert WindowsView() == c.window;
    }
  }

  method NewWindows(n: nat) returns (ws: seq<Window>)
    ensures |ws| == n && fresh(ws) && (forall k :: 0 <= k < n ==> fresh(ws[k].buf))
    ensures forall k :: 0 <= k < n ==> ws[k].Valid() && ws[k].buf.Length == 4 && ws[k].View() == After(4, [])
    ensures forall i: nat, j: nat :: i < j < n ==> ApartFrom(ws, i, j)
  {
    ws := [];
    for k := 0 to n
      invariant |ws| == k && fresh(ws) && (forall i :: 0 <= i < k ==> fresh(ws[i].buf))
      invariant forall i :: 0 <= i < k ==> ws[i].Valid() && ws[i].buf.Length == 4 && ws[i].View() == After(4, [])
      invariant forall i: nat, j: nat :: i < j < k ==> ApartFrom(ws, i, j)
    {
      var w := new Window(4);
      ghost var before := ws;
      ws := ws + [w];
      forall i: nat, j: nat | i < j < k + 1
        ensures ApartFrom(ws, i, j)
      {
        if j < k { assert ApartFrom(before, i, j); }
      }
    }
  }
}

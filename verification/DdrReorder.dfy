/**
 The scheduler dates an activation from the arrival of its request, not from the moment it is decided.
 So the activations of a rank can come in any order that respects the activation window, and the
 window of a channel does become unsorted.
 */
module DdrReorder {
  import ActWindow
  import Q = BankQueue
  import opened DdrTiming

  /** One rank of `n` banks. */
  function OneRank(n: nat): seq<nat> { seq(n, _ => 0) }

  ghost predicate Fresh(c: Channel, b: nat) {
    b < |c.banks| && !c.banks[b].open && c.banks[b].minPre == c.banks[b].lastAct == 0
  }

  lemma {:induction false} RunOn(c: Channel, steps: seq<Step>, d: Channel, r: Q.Request, cur: nat, moreHits: bool)
    requires Shape(c) && Run(c, steps, d) && Shape(d) && r.bank < |d.banks|
    ensures Run(c, steps + [IssueStep(r, cur, moreHits)], Issue(d, r, cur, moreHits))
    decreases |steps|
  {
    var all := steps + [IssueStep(r, cur, moreHits)];
    if steps == [] {
      assert all[1..] == [];
    } else {
      assert all[0] == steps[0] && all[1..] == steps[1..] + [IssueStep(r, cur, moreHits)];
      match steps[0]
      case IssueStep(r', cur', more') => RunOn(Issue(c, r', cur', more'), steps[1..], d, r, cur, moreHits);
      case RefreshStep(cycle) => RunOn(Refresh(c, cycle), steps[1..], d, r, cur, moreHits);
    }
  }

  /** A bank that has not been used is activated when the request arrived, if the window allows it. */
  lemma FreshAct(c: Channel, r: Q.Request)
    requires Shape(c) && Fresh(c, r.bank) && r.arrival >= c.t.tRP && r.arrival >= c.t.tRRD
    requires c.window[c.rank[r.bank]][0] + c.t.tFAW <= r.arrival
    ensures ActCycle(c, r) == r.arrival
  {
  }

  lemma FreshOpens(c: Channel, r: Q.Request, k: nat)
    requires Inv(c) && Fresh(c, r.bank) && r.arrival >= c.t.tRP && r.arrival >= c.t.tRRD && c.rank[r.bank] == k
    requires ActWindow.Respects(4, c.t.tFAW, RankActs(c.log, c.rank, k) + [r.arrival])
    ensures Activate(c, r).log == c.log + [Act(r.bank, r.row, r.arrival)]
    ensures RankActs(Activate(c, r).log, c.rank, k) == RankActs(c.log, c.rank, k) + [r.arrival]
  {
    var acts := RankActs(c.log, c.rank, k);
    assert WindowOk(c, k);
    assert (acts + [r.arrival])[..|acts|] == acts;
    FreshAct(c, r);
    RankActsGrow(c.log, Act(r.bank, r.row, r.arrival), c.rank, k);
  }

  lemma ColumnKeepsActs(c: Channel, r: Q.Request, cycle: nat, k: nat)
    requires Shape(c) && r.bank < |c.banks|
    ensures RankActs(Access(c, r, cycle, false).log, c.rank, k) == RankActs(c.log, c.rank, k)
  {
    RankActsGrow(c.log, Column(r.bank, r.row, cycle, r.write, c.t.closedPage), c.rank, k);
  }

  /** Issuing leaves the other banks alone. */
  lemma IssueFrame(c: Channel, r: Q.Request, cur: nat, b: nat)
    requires Shape(c) && r.bank < |c.banks|
    ensures var d := Issue(c, r, cur, false);
      d.rank == c.rank && |d.window| == |c.window| && (b != r.bank && Fresh(c, b) ==> Fresh(d, b))
  {
  }

  lemma FreshIssue(c: Channel, r: Q.Request, cur: nat, k: nat)
    requires Inv(c) && Fresh(c, r.bank) && r.arrival >= c.t.tRP && r.arrival >= c.t.tRRD && c.rank[r.bank] == k
    requires ActWindow.Respects(4, c.t.tFAW, RankActs(c.log, c.rank, k) + [r.arrival])
    ensures RankActs(Issue(c, r, cur, false).log, c.rank, k) == RankActs(c.log, c.rank, k) + [r.arrival]
  {
    FreshOpens(c, r, k);
    ShapeActivate(c, r);
    var a := Activate(c, r);
    ColumnKeepsActs(a, r, ColumnCycle(a, r, cur, false), k);
  }

  /** A run whose activations are `acts`, one bank each. */
  ghost predicate Arisen(t: Timing, n: nat, acts: seq<nat>, steps: seq<Step>, d: Channel) {
    && t.Valid() && Run(Idle(t, OneRank(n), 1), steps, d) && Inv(d)
    && d.t == t && d.rank == OneRank(n) && |d.window| == 1
    && RankActs(d.log, OneRank(n), 0) == acts
    && forall b: nat :: |acts| <= b < n ==> Fresh(d, b)
  }

  lemma NoneYet(t: Timing, n: nat, acts: seq<nat>) returns (steps: seq<Step>, d: Channel)
    requires t.Valid() && acts == []
    ensures Arisen(t, n, acts, steps, d)
  {
    steps, d := [], Idle(t, OneRank(n), 1);
    IdleOk(t, OneRank(n), 1);
  }

  lemma OneMore(t: Timing, n: nat, acts: seq<nat>, steps: seq<Step>, d: Channel, y: nat, acts': seq<nat>)
    returns (steps': seq<Step>, d': Channel)
    requires Arisen(t, n, acts, steps, d) && |acts| < n && y >= t.tRP && y >= t.tRRD
    requires acts' == acts + [y] && ActWindow.Respects(4, t.tFAW, acts')
    ensures Arisen(t, n, acts', steps', d')
  {
    var r := Q.Request(|acts|, |acts|, 0, false, y, 0);
    steps', d' := steps + [IssueStep(r, 0, false)], Issue(d, r, 0, false);
    FreshIssue(d, r, 0, 0);
    forall b: nat | |acts| < b < n
      ensures Fresh(d', b)
    {
      IssueFrame(d, r, 0, b);
    }
    IssueFrame(d, r, 0, |acts|);
    IssueKeeps(d, r, 0, false);
    RunOn(Idle(t, OneRank(n), 1), steps, d, r, 0, false);
  }

  /** Every sequence of activations that respects the window is that of a rank in some run, whatever
      its order: requests that arrived at those cycles, each for a bank of its own. */
  lemma {:induction false} EveryOrderArises(t: Timing, n: nat, acts: seq<nat>) returns (steps: seq<Step>, d: Channel)
    requires t.Valid() && |acts| <= n && ActWindow.Respects(4, t.tFAW, acts)
    requires forall i :: 0 <= i < |acts| ==> acts[i] >= t.tRP && acts[i] >= t.tRRD
    ensures Arisen(t, n, acts, steps, d)
    decreases |acts|
  {
    if acts == [] {
      steps, d := NoneYet(t, n, acts);
    } else {
      var k := |acts| - 1;
      var steps0, d0 := EveryOrderArises(t, n, acts[..k]);
      steps, d := OneMore(t, n, acts[..k], steps0, d0, acts[k], acts);
    }
  }

  /** A channel whose window is not sorted: four requests in order of arrival, then one that came
      before the second of them and is issued last. */
  lemma WindowUnsorted(t: Timing, acts: seq<nat>, y: nat) returns (steps: seq<Step>, d: Channel)
    requires t.Valid() && |acts| == 4 && ActWindow.Sorted(acts) && acts[0] + t.tFAW <= y < acts[1]
    requires forall i :: 0 <= i < 4 ==> acts[i] >= t.tRP && acts[i] >= t.tRRD && acts[i] >= t.tFAW
    ensures Run(Idle(t, OneRank(5), 1), steps, d) && |d.window| == 1 && !ActWindow.Sorted(d.window[0])
    ensures RankActs(d.log, d.rank, 0) == acts + [y]
  {
    ActWindow.WrapArises(4, t.tFAW, acts, y);
    steps, d := EveryOrderArises(t, 5, acts + [y]);
    assert WindowOk(d, 0);
  }
}

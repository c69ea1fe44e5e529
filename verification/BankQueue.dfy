/**
 One request list of a DRAM bank, kept in first-ready, first-come-first-served order.

 A request to a row that is already queued goes right behind the last request to that row, unless
 as many row hits as the limit allows are lined up there; then, and for other rows, it goes last.
 */
module BankQueue {

  /** `hits` is the sequence number that throttles row hits. */
  datatype Request = Request(id: nat, bank: nat, row: nat, write: bool, arrival: nat, hits: nat)

  /** What the bank says about the row buffer: the open row and its hits so far. */
  datatype RowBuffer = Closed | Open(row: nat, hits: nat)

  /** The last request to `row`, or -1. */
  function LastOfRow(q: seq<Request>, row: nat): (m: int)
    ensures -1 <= m < |q|
    ensures m >= 0 ==> q[m].row == row
    ensures forall i :: m < i < |q| ==> q[i].row != row
  {
    if q == [] then -1
    else if q[|q| - 1].row == row then |q| - 1
    else LastOfRow(q[..|q| - 1], row)
  }

  /** Where a new request goes, and the number it gets. */
  function Slot(q: seq<Request>, row: nat, buffer: RowBuffer, limit: nat): (s: (nat, nat))
    ensures s.0 <= |q|
  {
    var m := LastOfRow(q, row);
    if m >= 0 then
      if q[m].hits < limit then (m + 1, q[m].hits + 1) else (|q|, 0)
    else if buffer.Open? && buffer.row == row && buffer.hits < limit && q == [] then (0, buffer.hits + 1)
    else (|q|, 0)
  }

  function Queued(q: seq<Request>, r: Request, buffer: RowBuffer, limit: nat): (q': seq<Request>)
    ensures |q'| == |q| + 1
  {
    var (k, hits) := Slot(q, r.row, buffer, limit);
    q[..k] + [r.(hits := hits)] + q[k..]
  }

  /** The loop from the back of the list, as `DDRMemory::queue` runs it. */
  method FindSlot(q: seq<Request>, row: nat, buffer: RowBuffer, limit: nat) returns (k: nat, hits: nat)
    ensures (k, hits) == Slot(q, row, buffer, limit)
  {
    var m := |q| - 1;
    while m >= 0
      invariant -1 <= m < |q| && LastOfRow(q[..m + 1], row) == LastOfRow(q, row)
      decreases m
    {
      assert q[..m + 1][..m] == q[..m];
      if q[m].row == row {
        if q[m].hits < limit {
          k, hits := m + 1, q[m].hits + 1;
        } else {
          k, hits := |q|, 0;
        }
        return;
      }
      m := m - 1;
    }
    if buffer.Open? && row == buffer.row && buffer.hits < limit && |q| == 0 {
      k, hits := 0, buffer.hits + 1;
    } else {
      k, hits := |q|, 0;
    }
  }

  // ------------------------------------------------------------------ where a request goes

  /** Position `m` holds the last queued request to `row`. */
  ghost predicate LastTo(q: seq<Request>, row: nat, m: nat) {
    m < |q| && q[m].row == row && forall i :: m < i < |q| ==> q[i].row != row
  }

  /** First ready, first come: a request goes behind the last one to its row, with the next number, while
      the limit allows it; otherwise it goes last and starts again with 0. */
  lemma HitGoesBehind(q: seq<Request>, r: Request, buffer: RowBuffer, limit: nat, m: nat)
    requires LastTo(q, r.row, m)
    ensures q[m].hits < limit ==>
      Queued(q, r, buffer, limit) == q[..m + 1] + [r.(hits := q[m].hits + 1)] + q[m + 1..]
    ensures q[m].hits >= limit ==> Queued(q, r, buffer, limit) == q + [r.(hits := 0)]
  {
    assert LastOfRow(q, r.row) == m;
  }

  /** A request to a row that is not queued goes last; an empty list goes on counting the hits of the row
      that is open. */
  lemma MissGoesLast(q: seq<Request>, r: Request, buffer: RowBuffer, limit: nat)
    requires forall i :: 0 <= i < |q| ==> q[i].row != r.row
    ensures var goesOn := q == [] && buffer.Open? && buffer.row == r.row && buffer.hits < limit;
      Queued(q, r, buffer, limit) == q + [r.(hits := if goesOn then buffer.hits + 1 else 0)]
  {
    assert LastOfRow(q, r.row) == -1;
  }

  // ------------------------------------------------------------------ runs

  /** The list is a concatenation of runs: same row, consecutive numbers, none above the limit. */
  ghost predicate RunsOk(q: seq<Request>, limit: nat) {
    && (forall i :: 0 <= i < |q| ==> q[i].hits <= limit)
    && (forall i: nat :: 0 < i < |q| ==> Starts(q, i) || Continues(q, i))
  }

  ghost predicate Starts(q: seq<Request>, i: nat)
    requires i < |q|
  {
    q[i].hits == 0
  }

  ghost predicate Continues(q: seq<Request>, i: nat)
    requires 0 < i < |q|
  {
    q[i].row == q[i - 1].row && q[i].hits == q[i - 1].hits + 1
  }

  lemma QueuedKeepsRuns(q: seq<Request>, r: Request, buffer: RowBuffer, limit: nat)
    requires RunsOk(q, limit)
    ensures RunsOk(Queued(q, r, buffer, limit), limit)
  {
    var (k, hits) := Slot(q, r.row, buffer, limit);
    var q' := Queued(q, r, buffer, limit);
    forall i: nat | 0 < i < |q'|
      ensures Starts(q', i) || Continues(q', i)
    {
      if i < k {
        assert Starts(q, i) || Continues(q, i);
      } else if i > k {
        assert q'[i] == q[i - 1];
        if i > 1 { assert Starts(q, i - 1) || Continues(q, i - 1); }
      }
    }
  }

  lemma ServedKeepsRuns(q: seq<Request>, limit: nat)
    requires RunsOk(q, limit) && q != []
    ensures RunsOk(q[1..], limit)
  {
    forall i: nat | 0 < i < |q[1..]|
      ensures Starts(q[1..], i) || Continues(q[1..], i)
    {
      assert Starts(q, i + 1) || Continues(q, i + 1);
    }
  }

  // ------------------------------------------------------------------ how often a request is overtaken

  /** The first request of the run that holds position `p`. */
  ghost function RunStart(q: seq<Request>, p: nat): (s: nat)
    requires p < |q|
    ensures s <= p
  {
    if p == 0 || q[p].hits == 0 then p else RunStart(q, p - 1)
  }

  /** The services that the runs before position `i` can still see: each may grow up to the limit. */
  ghost function RunsAhead(q: seq<Request>, i: nat, limit: nat): (n: int)
    requires i <= |q|
  {
    if i == 0 then 0 else
    var s := RunStart(q, i - 1);
    RunsAhead(q, s, limit) + limit + 1 - q[s].hits
  }

  /** The services that may still come before the request at position `p`. */
  ghost function Ahead(q: seq<Request>, p: nat, limit: nat): (n: int)
    requires p < |q|
  {
    RunsAhead(q, RunStart(q, p), limit) + p - RunStart(q, p)
  }

  lemma {:induction false} RunStartPrefix(q: seq<Request>, q': seq<Request>, p: nat)
    requires p < |q| && p < |q'| && q[..p + 1] == q'[..p + 1]
    ensures RunStart(q, p) == RunStart(q', p)
    decreases p
  {
    assert q[p] == q[..p + 1][p] == q'[p];
    if p > 0 {
      assert q[..p] == q[..p + 1][..p] == q'[..p];
      RunStartPrefix(q, q', p - 1);
    }
  }

  lemma {:induction false} RunsAheadPrefix(q: seq<Request>, q': seq<Request>, i: nat, limit: nat)
    requires i <= |q| && i <= |q'| && q[..i] == q'[..i]
    ensures RunsAhead(q, i, limit) == RunsAhead(q', i, limit)
    decreases i
  {
    if i > 0 {
      RunStartPrefix(q, q', i - 1);
      var s := RunStart(q, i - 1);
      assert q[..s] == q[..i][..s] == q'[..s];
      assert q[s] == q[..i][s] == q'[s];
      RunsAheadPrefix(q, q', s, limit);
    }
  }

  // Serving the front request

  lemma {:induction false} RunStartServed(q: seq<Request>, p: nat)
    requires 1 <= p < |q|
    ensures RunStart(q[1..], p - 1) == if RunStart(q, p) == 0 then 0 else RunStart(q, p) - 1
    decreases p
  {
    if q[p].hits != 0 && p > 1 { RunStartServed(q, p - 1); }
  }

  lemma {:induction false} FirstRun(q: seq<Request>, p: nat)
    requires 1 <= p < |q| && RunStart(q, p) == 0
    ensures q[1].hits != 0
    decreases p
  {
    if p > 1 { FirstRun(q, p - 1); }
  }

  lemma {:induction false} RunsAheadServed(q: seq<Request>, i: nat, limit: nat)
    requires RunsOk(q, limit) && 1 <= i <= |q|
    ensures RunsAhead(q[1..], i - 1, limit) < RunsAhead(q, i, limit)
    decreases i
  {
    if i > 1 {
      RunStartServed(q, i - 1);
      var s := RunStart(q, i - 1);
      if s == 0 {
        FirstRun(q, i - 1);
        assert Starts(q, 1) || Continues(q, 1);
      } else {
        RunsAheadServed(q, s, limit);
      }
    }
  }

  lemma AheadServed(q: seq<Request>, p: nat, limit: nat)
    requires RunsOk(q, limit) && 0 < p < |q|
    ensures Ahead(q[1..], p - 1, limit) < Ahead(q, p, limit)
  {
    RunStartServed(q, p);
    var s := RunStart(q, p);
    if s > 0 { RunsAheadServed(q, s, limit); }
  }

  // Extending a run that lies ahead

  lemma {:induction false} RunStartInserted(q: seq<Request>, x: Request, k: nat, p: nat)
    requires k <= p < |q| && q[k].hits == 0
    ensures k <= RunStart(q, p) && RunStart(q[..k] + [x] + q[k..], p + 1) == RunStart(q, p) + 1
    decreases p
  {
    assert (q[..k] + [x] + q[k..])[p + 1] == q[p];
    if q[p].hits != 0 { RunStartInserted(q, x, k, p - 1); }
  }

  lemma {:induction false} RunsAheadInserted(q: seq<Request>, x: Request, k: nat, i: nat, limit: nat)
    requires 0 < k <= i <= |q| && k < |q| && q[k].hits == 0 && x.hits != 0
    ensures RunsAhead(q[..k] + [x] + q[k..], i + 1, limit) == RunsAhead(q, i, limit)
    decreases i
  {
    var q' := q[..k] + [x] + q[k..];
    if i == k {
      assert q'[..k] == q[..k];
      RunStartPrefix(q, q', k - 1);
      var s := RunStart(q, k - 1);
      assert q'[..s] == q[..s];
      RunsAheadPrefix(q, q', s, limit);
    } else {
      RunStartInserted(q, x, k, i - 1);
      RunsAheadInserted(q, x, k, RunStart(q, i - 1), limit);
    }
  }

  /** Where the request at position `p` is after a new one has been queued. */
  function Moved(q: seq<Request>, r: Request, buffer: RowBuffer, limit: nat, p: nat): (p': nat)
    requires p < |q|
    ensures p' <= |q| && Queued(q, r, buffer, limit)[p'] == q[p]
  {
    if Slot(q, r.row, buffer, limit).0 <= p then p + 1 else p
  }

  /** A request queued behind position `p` changes nothing before it. */
  lemma AheadOfSlot(q: seq<Request>, r: Request, buffer: RowBuffer, limit: nat, p: nat)
    requires p < |q| && p < Slot(q, r.row, buffer, limit).0
    ensures Ahead(Queued(q, r, buffer, limit), p, limit) == Ahead(q, p, limit)
  {
    var q', s := Queued(q, r, buffer, limit), RunStart(q, p);
    assert q'[..p + 1] == q[..p + 1];
    RunStartPrefix(q, q', p);
    assert q'[..s] == q[..s];
    RunsAheadPrefix(q, q', s, limit);
  }

  /** One that is queued before it joins a run there, which then may grow by one less. */
  lemma AheadPastSlot(q: seq<Request>, r: Request, buffer: RowBuffer, limit: nat, p: nat)
    requires RunsOk(q, limit) && Slot(q, r.row, buffer, limit).0 <= p < |q|
    ensures Ahead(Queued(q, r, buffer, limit), p + 1, limit) == Ahead(q, p, limit)
  {
    var (k, hits) := Slot(q, r.row, buffer, limit);
    var x := r.(hits := hits);
    assert k == LastOfRow(q, r.row) + 1 > 0;
    assert Starts(q, k) || Continues(q, k);
    RunStartInserted(q, x, k, p);
    RunsAheadInserted(q, x, k, RunStart(q, p), limit);
  }

  /** A new request never adds to what may come before one that is already queued. */
  lemma AheadQueued(q: seq<Request>, r: Request, buffer: RowBuffer, limit: nat, p: nat)
    requires RunsOk(q, limit) && p < |q|
    ensures Ahead(Queued(q, r, buffer, limit), Moved(q, r, buffer, limit, p), limit) == Ahead(q, p, limit)
  {
    if Slot(q, r.row, buffer, limit).0 <= p {
      AheadPastSlot(q, r, buffer, limit, p);
    } else {
      AheadOfSlot(q, r, buffer, limit, p);
    }
  }

  // ------------------------------------------------------------------ bounded bypass

  datatype Step = Arrive(r: Request, buffer: RowBuffer) | Serve

  /** The list goes from `q` to `q'` by `steps`; the request at `p`, not served yet, is then at `p'`. */
  ghost predicate Waits(q: seq<Request>, p: nat, steps: seq<Step>, limit: nat, q': seq<Request>, p': nat)
    decreases |steps|
  {
    p < |q| &&
    if steps == [] then q == q' && p == p'
    else
      match steps[0]
      case Arrive(r, buffer) =>
        Waits(Queued(q, r, buffer, limit), Moved(q, r, buffer, limit, p), steps[1..], limit, q', p')
      case Serve => p > 0 && Waits(q[1..], p - 1, steps[1..], limit, q', p')
  }

  ghost function Serves(steps: seq<Step>): nat {
    if steps == [] then 0 else (if steps[0].Serve? then 1 else 0) + Serves(steps[1..])
  }

  lemma {:induction false} WaitsOn(q: seq<Request>, p: nat, xs: seq<Step>, limit: nat, q1: seq<Request>, p1: nat,
                                   ys: seq<Step>, q2: seq<Request>, p2: nat)
    requires Waits(q, p, xs, limit, q1, p1) && Waits(q1, p1, ys, limit, q2, p2)
    ensures Waits(q, p, xs + ys, limit, q2, p2) && Serves(xs + ys) == Serves(xs) + Serves(ys)
    decreases |xs|
  {
    if xs == [] {
      assert xs + ys == ys;
    } else {
      assert (xs + ys)[1..] == xs[1..] + ys;
      match xs[0]
      case Arrive(r, buffer) =>
        WaitsOn(Queued(q, r, buffer, limit), Moved(q, r, buffer, limit, p), xs[1..], limit, q1, p1, ys, q2, p2);
      case Serve => WaitsOn(q[1..], p - 1, xs[1..], limit, q1, p1, ys, q2, p2);
    }
  }

  lemma {:induction false} WaitsWithin(q: seq<Request>, p: nat, steps: seq<Step>, limit: nat,
                                       q': seq<Request>, p': nat)
    requires Waits(q, p, steps, limit, q', p')
    ensures p' < |q'| && q'[p'] == q[p]
    decreases |steps|
  {
    if steps != [] {
      match steps[0]
      case Arrive(r, buffer) =>
        WaitsWithin(Queued(q, r, buffer, limit), Moved(q, r, buffer, limit, p), steps[1..], limit, q', p');
      case Serve => WaitsWithin(q[1..], p - 1, steps[1..], limit, q', p');
    }
  }

  /** However requests keep arriving, what was ahead of a request only shrinks as others are served. */
  lemma {:induction false} WaitingBounded(q: seq<Request>, p: nat, steps: seq<Step>, limit: nat,
                                          q': seq<Request>, p': nat)
    requires RunsOk(q, limit) && Waits(q, p, steps, limit, q', p')
    ensures RunsOk(q', limit) && p' < |q'| && q'[p'] == q[p]
    ensures Serves(steps) + Ahead(q', p', limit) <= Ahead(q, p, limit)
    decreases |steps|
  {
    if steps != [] {
      match steps[0]
      case Arrive(r, buffer) =>
        QueuedKeepsRuns(q, r, buffer, limit);
        AheadQueued(q, r, buffer, limit, p);
        WaitingBounded(Queued(q, r, buffer, limit), Moved(q, r, buffer, limit, p), steps[1..], limit, q', p');
      case Serve =>
        ServedKeepsRuns(q, limit);
        AheadServed(q, p, limit);
        WaitingBounded(q[1..], p - 1, steps[1..], limit, q', p');
    }
  }

  ghost function RunCount(q: seq<Request>, i: nat): nat
    requires i <= |q|
  {
    if i == 0 then 0 else RunCount(q, RunStart(q, i - 1)) + 1
  }

  lemma {:induction false} RunsAheadBound(q: seq<Request>, i: nat, limit: nat)
    requires i <= |q| && RunsOk(q, limit)
    ensures 0 <= RunsAhead(q, i, limit) <= (limit + 1) * RunCount(q, i)
    decreases i
  {
    if i > 0 {
      var s := RunStart(q, i - 1);
      RunsAheadBound(q, s, limit);
      assert (limit + 1) * (RunCount(q, s) + 1) == (limit + 1) * RunCount(q, s) + (limit + 1);
    }
  }

  /** `limit + 1` services for each run ahead of the one of position `p`, and those before it in its run. */
  ghost function Allowance(q: seq<Request>, p: nat, limit: nat): nat
    requires p < |q|
  {
    (limit + 1) * RunCount(q, RunStart(q, p)) + (p - RunStart(q, p))
  }

  /** What may come before a request, in terms of the runs ahead of it. */
  lemma AheadBound(q: seq<Request>, p: nat, limit: nat)
    requires RunsOk(q, limit) && p < |q|
    ensures 0 <= Ahead(q, p, limit) <= Allowance(q, p, limit)
  {
    RunsAheadBound(q, RunStart(q, p), limit);
  }

  lemma WaitBound(q: seq<Request>, p: nat, steps: seq<Step>, limit: nat, q': seq<Request>, p': nat)
    requires RunsOk(q, limit) && Waits(q, p, steps, limit, q', p')
    ensures Serves(steps) <= Allowance(q, p, limit)
  {
    WaitingBounded(q, p, steps, limit, q', p');
    AheadBound(q, p, limit);
    AheadBound(q', p', limit);
  }

  /** A request that arrives behind `n` runs is overtaken or preceded by at most `limit + 1` services
      for each of them, plus those before it in its own run. */
  lemma BoundedBypass(q: seq<Request>, r: Request, buffer: RowBuffer, limit: nat,
                      steps: seq<Step>, q': seq<Request>, p': nat)
    requires RunsOk(q, limit)
    requires Waits(Queued(q, r, buffer, limit), Slot(q, r.row, buffer, limit).0, steps, limit, q', p')
    ensures Serves(steps) <= Allowance(Queued(q, r, buffer, limit), Slot(q, r.row, buffer, limit).0, limit)
  {
    var q1, k := Queued(q, r, buffer, limit), Slot(q, r.row, buffer, limit).0;
    QueuedKeepsRuns(q, r, buffer, limit);
    WaitBound(q1, k, steps, limit, q', p');
  }
}

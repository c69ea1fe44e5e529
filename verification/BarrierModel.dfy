/**
 The join/leave barrier with a limit on the threads that run at the same time.

 Threads that have joined are on a run list.  `cur` is the first position of the list that has not
 been considered in the current phase.  The phase ends when the list has been scanned and nobody
 runs; now and then threads that left are then dropped from the list, and the list is shuffled
 when it is longer than the limit.

 Every method of the barrier runs under the scheduler lock and is one step here.  `ok` is cleared by
 every assertion and panic inside a step; the assertions on the caller are the steps' preconditions.
 */
module BarrierModel {

  datatype State = OFFLINE | WAITING | RUNNING | LEFT

  /** `word` is the futex word.  `placed` (the position `last` was written since the thread was
      listed), `ran` (wake-ups in this phase) and `rejoined` (in this phase) are kept for the proof. */
  datatype Thread = Thread(st: State, last: nat, word: bool, placed: bool, ran: nat, rejoined: bool)

  datatype Bar = Bar(limit: nat, th: seq<Thread>, list: seq<nat>, cur: nat,
                     running: int, left: int, phases: nat, ok: bool)

  function Set(b: Bar, t: nat, x: Thread): Bar
    requires t < |b.th|
  {
    b.(th := b.th[t := x])
  }

  /** The list holds thread numbers. */
  ghost predicate Proper(b: Bar) {
    forall i :: 0 <= i < |b.list| ==> b.list[i] < |b.th|
  }

  /** ... and the scan is inside it. */
  ghost predicate Shaped(b: Bar) {
    Proper(b) && b.cur <= |b.list|
  }

  // ------------------------------------------------------------------ waking threads

  /** One round of `checkRunList`: the next thread of the list is woken if it waits. */
  function WakeNext(b: Bar): (r: Bar)
    requires Proper(b) && b.cur < |b.list|
    ensures Proper(r) && r.list == b.list && r.cur == b.cur + 1
  {
    var t := b.list[b.cur];
    var x := b.th[t];
    if x.st == WAITING then
      Set(b, t, x.(st := RUNNING, last := b.cur, word := false, placed := true, ran := x.ran + 1))
      .(running := b.running + 1, cur := b.cur + 1, ok := b.ok && x.word)
    else b.(cur := b.cur + 1)
  }

  function CheckRunList(b: Bar): (r: Bar)
    requires Proper(b)
    ensures Proper(r) && r.list == b.list && (Shaped(b) ==> Shaped(r))
    decreases |b.list| - b.cur
  {
    if b.running < b.limit && b.cur < |b.list| then CheckRunList(WakeNext(b)) else b
  }

  // ------------------------------------------------------------------ the end of a phase

  predicate PhaseOver(b: Bar) {
    b.cur == |b.list| && b.running == 0 && b.left != |b.list|
  }

  function NewPhase(b: Bar): (r: Bar)
    ensures Proper(b) ==> Proper(r)
  {
    b.(cur := 0, phases := b.phases + 1,
       th := seq(|b.th|, i requires 0 <= i < |b.th| => b.th[i].(ran := 0, rejoined := false)))
  }

  /** Drops the thread at position `i` and puts the last one of the list in its place. */
  function DropAt(b: Bar, i: nat): (r: Bar)
    requires Proper(b) && i < |b.list|
    ensures Proper(r) && |r.list| == |b.list| - 1
  {
    var t, s := b.list[i], b.list[|b.list| - 1];
    var b1 := Set(b, t, b.th[t].(st := OFFLINE));
    Set(b1, s, b1.th[s].(last := i, placed := true)).(list := b.list[i := s][..|b.list| - 1])
  }

  /** The cleanup pass from position `i` on. */
  function Compact(b: Bar, i: nat): (r: Bar)
    requires Proper(b) && i <= |b.list|
    ensures Proper(r) && r.cur == b.cur
    decreases |b.list| - i
  {
    if i == |b.list| then b
    else if b.th[b.list[i]].st == LEFT then Compact(DropAt(b, i), i)
    else Compact(b, i + 1)
  }

  /** One exchange of the shuffle. */
  function SwapAt(b: Bar, i: nat, j: nat): (r: Bar)
    requires Proper(b) && i < |b.list| && j < |b.list|
    ensures Proper(r) && |r.list| == |b.list|
  {
    var s, t := b.list[i], b.list[j];
    var b1 := Set(b, s, b.th[s].(last := j, placed := true));
    Set(b1, t, b1.th[t].(last := i, placed := true)).(list := b.list[i := t][j := s])
  }

  /** The random numbers of a shuffle, one for each position. */
  type Draw = seq<nat>

  /** The number drawn for position `i` lies between 0 and `i`. */
  function Pick(draw: Draw, i: nat): (j: nat)
    ensures j <= i
  {
    if i < |draw| && draw[i] <= i then draw[i] else i
  }

  /** The shuffle after the positions from the last one down to `i` have been exchanged. */
  function Shuffle(b: Bar, i: nat, draw: Draw): (r: Bar)
    requires Proper(b)
    ensures Proper(r) && |r.list| == |b.list| && r.cur == b.cur
    decreases |b.list| - i
  {
    if i >= |b.list| then b else SwapAt(Shuffle(b, i + 1, draw), i, Pick(draw, i))
  }

  /** The cleanup, done once every 32 phases; it must drop as many threads as had left. */
  function CleanUp(b: Bar, due: bool): (r: Bar)
    requires Proper(b)
    ensures Proper(r) && r.cur == b.cur
  {
    var c := Compact(b, 0);
    if due then c.(left := 0, ok := c.ok && |b.list| > 0 && |b.list| - |c.list| == b.left) else b
  }

  /** A list longer than the limit is shuffled. */
  function Reorder(b: Bar, draw: Draw): (r: Bar)
    requires Proper(b)
    ensures Proper(r) && r.cur == b.cur && |r.list| == |b.list|
  {
    if b.limit < |b.list| then Shuffle(b, 1, draw) else b
  }

  /** `checkEndPhase`; `draw` are the random numbers of the shuffle. */
  function EndPhase(b: Bar, draw: Draw): (r: Bar)
    requires Proper(b)
    ensures Proper(r) && (Shaped(b) ==> Shaped(r))
  {
    if !PhaseOver(b) then b else
    Reorder(CleanUp(NewPhase(b), b.phases % 32 == 0), draw)
  }

  function TryWakeNext(b: Bar, draw: Draw): (r: Bar)
    requires Proper(b)
    ensures Proper(r) && (Shaped(b) ==> Shaped(r))
  {
    CheckRunList(EndPhase(CheckRunList(b), draw))
  }

  // ------------------------------------------------------------------ the operations

  /** The exchange of `join`: `t` takes the last position scanned and is scanned again; the thread
      from there goes to the position `t` remembers, which must be `t`'s own. */
  function Reschedule(b: Bar, t: nat): (r: Bar)
    requires Shaped(b) && t < |b.th| && b.cur > b.th[t].last
    ensures Shaped(r) && |r.th| == |b.th|
  {
    var l, c := b.th[t].last, b.cur - 1;
    var other := b.list[c];
    var b1 := Set(b, other, b.th[other].(last := l, placed := true));
    Set(b1, t, b1.th[t].(last := c, placed := true))
    .(list := b.list[l := other][c := t], cur := c, ok := b.ok && b.list[l] == t)
  }

  /** Puts `t` on the list again: at the end if it was off, else so that this phase still wakes it. */
  function Relist(b: Bar, t: nat): (r: Bar)
    requires Shaped(b) && t < |b.th|
    ensures Shaped(r) && |r.th| == |b.th|
  {
    var x := b.th[t];
    if x.st == OFFLINE then
      Set(b, t, x.(st := WAITING, word := true, placed := false)).(list := b.list + [t])
    else
      var b1 := b.(left := b.left - 1);
      var b2 := if b.cur > x.last then Reschedule(b1, t) else b1;
      Set(b2, t, b2.th[t].(st := WAITING, word := true, rejoined := true))
  }

  function Join(b: Bar, t: nat, draw: Draw): (r: Bar)
    requires Shaped(b) && t < |b.th|
    ensures Shaped(r)
  {
    TryWakeNext(Relist(b, t), draw)
  }

  function Leave(b: Bar, t: nat, draw: Draw): (r: Bar)
    requires Shaped(b) && t < |b.th|
    ensures Shaped(r)
  {
    var b1 := Set(b, t, b.th[t].(st := LEFT)).(left := b.left + 1);
    if b.th[t].st == RUNNING then TryWakeNext(b1.(running := b.running - 1), draw) else b1
  }

  function Sync(b: Bar, t: nat, draw: Draw): (r: Bar)
    requires Shaped(b) && t < |b.th|
    ensures Shaped(r)
  {
    TryWakeNext(Set(b, t, b.th[t].(st := WAITING, word := true)).(running := b.running - 1), draw)
  }
}

/**
 The MESI directory protocol of one line address, as the caches of a whole hierarchy run it.

 Every cache has a bottom controller (its MESI state towards its parent) and a top controller (a
 directory entry about its children).  A request gives up the requester's lock while it travels
 up, so invalidations from above can overtake it.  Each locked section is one step here.

 The simulator moves no data.  Version stamps stand for it: `latest` counts the stores to the line
 and `ver` is the version a copy holds.  Every assertion and panic of the controllers is kept as a
 condition that clears `ok`.
 */
module CoherenceProtocol {
  import opened CacheTree
  import opened Collections

  datatype Mesi = I | S | E | M {
    predicate Exclusive() { E? || M? }
  }

  datatype Access = GETS | GETX | PUTS | PUTX {
    predicate IsPut() { PUTS? || PUTX? }
  }

  datatype Inval = INV | INVX

  /** One directory entry; `excl` is stale while the entry is empty. */
  datatype Entry = Entry(num: int, sharers: set<nat>, excl: bool) {
    predicate IsEmpty() { num == 0 }
    predicate IsExclusive() { num == 1 && excl }
  }

  /** A request on its way up; `started` once the parent holds its locks for it.  `asked` is what the
      requester's own call was made with; `op` may be changed by the race check on the way. */
  datatype Request = Request(op: Access, initial: Mesi, noExcl: bool, started: bool, asked: Access)

  /** What one cache knows of the line; `tag` says that its tag array still maps the line. */
  datatype Node = Node(st: Mesi, tag: bool, dir: Entry, ver: nat, req: Option<Request>)

  datatype Line = Line(node: seq<Node>, latest: nat, ok: bool) {
    function At(n: nat, x: Node): (r: Line)
      requires n < |node|
      ensures |r.node| == |node| && r.node[n] == x && r.latest == latest && r.ok == ok
      ensures forall j :: 0 <= j < |node| && j != n ==> r.node[j] == node[j]
    {
      this.(node := node[n := x])
    }

    function Check(condition: bool): Line {
      this.(ok := ok && condition)
    }
  }

  /** The outcome of sending invalidations down: the write-back flag and the data it stands for. */
  datatype Down = Down(line: Line, wb: bool, data: nat)

  datatype Sweep = Sweep(down: Down, sent: nat)

  // ------------------------------------------------------------------ going down

  /** `Cache::invalidate` on cache `c`: its children first, then its own state. */
  function Invalidate(par: Tree, s: Line, c: nat, ty: Inval): (d: Down)
    requires c < |par| == |s.node|
    ensures |d.line.node| == |s.node|
    decreases |par| - c, 2, 0
  {
    if !s.node[c].tag then Down(s, false, 0) else ProcessInval(SendInvalidates(par, s, c, ty), c, ty)
  }

  /** `MESIBottomCC::processInval` at cache `c`, after its children. */
  function ProcessInval(d: Down, c: nat, ty: Inval): (r: Down)
    requires c < |d.line.node|
    ensures |r.line.node| == |d.line.node|
  {
    var x := d.line.node[c];
    var data := if d.wb then d.data else x.ver;
    if x.st == I then Down(d.line, d.wb, data)
    else if ty == INV then Down(d.line.At(c, x.(st := I)), d.wb || x.st == M, data)
    else Down(d.line.At(c, x.(st := S, ver := data)).Check(x.st.Exclusive()), d.wb || x.st == M, data)
  }

  /** `MESITopCC::sendInvalidates` at cache `p`. */
  function SendInvalidates(par: Tree, s: Line, p: nat, ty: Inval): (d: Down)
    requires p < |par| == |s.node|
    ensures |d.line.node| == |s.node|
    decreases |par| - p, 1, 0
  {
    var e := s.node[p].dir;
    if (ty == INVX && !e.IsExclusive()) || e.IsEmpty() then Down(s, false, 0) else
    var w := SweepChildren(par, s, p, ty, |par|);
    var x := w.down.line.node[p];
    var entry := if ty == INV then x.dir.(num := 0) else x.dir.(excl := false);
    var checks := w.sent == x.dir.num && (ty == INVX ==> x.dir.excl && x.dir.num == 1);
    w.down.(line := w.down.line.At(p, x.(dir := entry)).Check(checks))
  }

  /** The loop of `sendInvalidates` after it has passed the children numbered below `k`. */
  function SweepChildren(par: Tree, s: Line, p: nat, ty: Inval, k: nat): (w: Sweep)
    requires p < |par| == |s.node| && k <= |par|
    ensures |w.down.line.node| == |s.node|
    decreases |par| - p, 0, k
  {
    if k == 0 then Sweep(Down(s, false, 0), 0) else
    var w := SweepChildren(par, s, p, ty, k - 1);
    SweepOne(par, w, p, ty, k - 1)
  }

  function SweepOne(par: Tree, w: Sweep, p: nat, ty: Inval, c: nat): (r: Sweep)
    requires p < |par| == |w.down.line.node| && c < |par|
    ensures |r.down.line.node| == |w.down.line.node|
    decreases |par| - p, 0, c
  {
    var line := w.down.line;
    if !(c > 0 && par[c] == p && c in line.node[p].dir.sharers && line.node[c].tag) then w else
    var d := Invalidate(par, line, c, ty);
    var x := d.line.node[p];
    var after := if ty == INV then d.line.At(p, x.(dir := x.dir.(sharers := x.dir.sharers - {c}))) else d.line;
    Sweep(Down(after, w.down.wb || d.wb, if d.wb then d.data else w.down.data), w.sent + 1)
  }

  // ------------------------------------------------------------------ going up

  datatype Race = Proceed(op: Access) | Skip | Fail

  /** `CheckForMESIRace`: what happened to the requester while its request was unlocked. */
  function CheckRace(op: Access, st: Mesi, initial: Mesi): Race {
    if st == initial then Proceed(op)
    else if op.IsPut() then
      if st == I then Skip
      else if st != S then Fail
      else Proceed(PUTS)
    else if op == GETX then
      if initial == S && st == I then Proceed(GETX) else Fail
    else Fail
  }

  /** A write-back raised by the children of `p` reaches `p`'s own copy. */
  function Absorb(d: Down, p: nat): (s: Line)
    requires p < |d.line.node|
    ensures |s.node| == |d.line.node|
  {
    var x := d.line.node[p];
    if d.wb then d.line.At(p, x.(st := M, ver := d.data)).Check(x.st.Exclusive()) else d.line
  }

  /** `MESITopCC::processAccess` for a GETS of child `c`, then the induced write-back. */
  function GrantShared(par: Tree, s: Line, c: nat): (r: Line)
    requires 0 < c < |par| == |s.node| && s.node[c].req.Some?
    ensures |r.node| == |s.node|
  {
    var p := par[c];
    var x := s.node[p];
    if x.dir.IsEmpty() && x.st.Exclusive() && !s.node[c].req.value.noExcl then
      var s1 := s.At(p, x.(dir := Entry(1, x.dir.sharers + {c}, true)));
      s1.At(c, s1.node[c].(st := E, ver := x.ver, req := None))
    else
      var d := if x.dir.IsExclusive() then SendInvalidates(par, s, p, INVX) else Down(s, false, 0);
      Share(Absorb(d, p).Check(c !in x.dir.sharers), p, c)
  }

  /** `c` becomes one of the sharers listed at `p` and gets `p`'s data. */
  function Share(s: Line, p: nat, c: nat): (r: Line)
    requires p < |s.node| && c < |s.node|
    ensures |r.node| == |s.node|
  {
    var y := s.node[p];
    var s1 := s.At(p, y.(dir := Entry(y.dir.num + 1, y.dir.sharers + {c}, false))).Check(!y.dir.IsExclusive());
    s1.At(c, s1.node[c].(st := S, ver := y.ver, req := None))
  }

  /** The start of a GETX of child `c`: the parent counts as written, a mere upgrade leaves the list. */
  function Claim(par: Tree, s: Line, c: nat): (r: Line)
    requires 0 < c < |par| == |s.node|
    ensures |r.node| == |s.node|
  {
    var p := par[c];
    var x := s.node[p].(st := if s.node[p].st == E then M else s.node[p].st);
    var upgrade := c in x.dir.sharers;
    var e := if upgrade then Entry(x.dir.num - 1, x.dir.sharers - {c}, x.dir.excl) else x.dir;
    s.At(p, x.(dir := e)).Check(x.st.Exclusive() && (upgrade ==> !x.dir.IsExclusive()))
  }

  /** `MESITopCC::processAccess` for a GETX of child `c`, then the induced write-back. */
  function GrantExclusive(par: Tree, s: Line, c: nat): (r: Line)
    requires 0 < c < |par| == |s.node|
    ensures |r.node| == |s.node|
  {
    HandOver(Absorb(SendInvalidates(par, Claim(par, s, c), par[c], INV), par[c]), par[c], c)
  }

  /** `c` becomes the only sharer listed at `p` and gets `p`'s data to write. */
  function HandOver(s: Line, p: nat, c: nat): (r: Line)
    requires p < |s.node| && c < |s.node|
    ensures |r.node| == |s.node|
  {
    var y := s.node[p];
    var s1 := s.At(p, y.(dir := Entry(y.dir.num + 1, y.dir.sharers + {c}, true))).Check(y.dir.num + 1 == 1);
    s1.At(c, s1.node[c].(st := M, ver := y.ver, req := None))
  }

  /** A PUTS or PUTX of child `c` that was not skipped, in `MESICC::processAccess`. */
  function AcceptPut(par: Tree, s: Line, c: nat, op: Access): (r: Line)
    requires 0 < c < |par| == |s.node|
    ensures |r.node| == |s.node|
  {
    var p := par[c];
    var x := s.node[p];
    var fits := x.tag && x.st != I && c in x.dir.sharers
                && (op == PUTX ==> x.st.Exclusive() && x.dir.IsExclusive());
    var y := if op == PUTX then x.(st := if x.st == E then M else x.st, ver := s.node[c].ver) else x;
    var s1 := s.At(p, y.(dir := Entry(x.dir.num - 1, x.dir.sharers - {c}, x.dir.excl))).Check(fits);
    s1.At(c, s1.node[c].(st := I))
  }

  // ------------------------------------------------------------------ steps

  datatype Step =
    | Miss(c: nat, op: Access, noExcl: bool) // a leaf sends a GETS or GETX up
    | Store(c: nat)                          // a leaf with exclusive permission writes
    | Begin(c: nat)                          // the parent locks itself for c's GET
    | Fetch(c: nat)                          // the parent lacks permission and asks its own parent
    | Grant(c: nat)                          // the parent answers c's GET
    | Evict(c: nat)                          // c gives up the line and sends a PUT if it is valid
    | Put(c: nat)                            // the parent handles c's PUT

  /** Nobody is being served by `p` and `p` waits for nobody: its locks are free for this line. */
  ghost predicate Idle(par: Tree, s: Line, p: nat)
    requires p < |par| == |s.node|
  {
    && s.node[p].req == None
    && forall c :: IsChild(par, c, p) ==> !Started(s, c)
  }

  ghost predicate Started(s: Line, c: nat) {
    c < |s.node| && s.node[c].req.Some? && s.node[c].req.value.started
  }

  /** The parent's own state already allows what child `c` asked for. */
  predicate Enough(op: Access, st: Mesi) {
    if op == GETX then st.Exclusive() else st != I
  }

  ghost predicate Enabled(par: Tree, s: Line, step: Step) {
    && |s.node| == |par|
    && 0 < step.c < |par|
    && var c, p := step.c, par[step.c];
      match step
      case Miss(_, op, _) =>
        IsLeaf(par, c) && s.node[c].req == None && !op.IsPut() && !Enough(op, s.node[c].st)
      case Store(_) => IsLeaf(par, c) && s.node[c].req == None && s.node[c].st.Exclusive()
      case Begin(_) =>
        s.node[c].req.Some? && !s.node[c].req.value.started && !s.node[c].req.value.op.IsPut() && Idle(par, s, p)
      case Fetch(_) => Started(s, c) && s.node[p].req == None && !Enough(s.node[c].req.value.op, s.node[p].st) && p > 0
      case Grant(_) => Started(s, c) && s.node[p].req == None && Enough(s.node[c].req.value.op, s.node[p].st)
      case Evict(_) => s.node[c].tag && Idle(par, s, c)
      case Put(_) => s.node[c].req.Some? && s.node[c].req.value.op.IsPut() && Idle(par, s, p)
  }

  function Apply(par: Tree, s: Line, step: Step): (r: Line)
    requires 0 < step.c < |par| == |s.node|
    requires !step.Miss? && !step.Store? && !step.Evict? ==> s.node[step.c].req.Some?
    ensures |r.node| == |s.node|
  {
    var c, p := step.c, par[step.c];
    var x := s.node[c];
    match step
    case Miss(_, op, noExcl) => s.At(c, x.(tag := true, req := Some(Request(op, x.st, noExcl, false, op))))
    case Store(_) => s.At(c, x.(st := M, ver := s.latest + 1)).(latest := s.latest + 1)
    case Begin(_) =>
      (match CheckRace(x.req.value.op, x.st, x.req.value.initial)
       case Proceed(op) => s.At(c, x.(req := Some(x.req.value.(op := op, started := true))))
       case Skip => s.At(c, x.(req := None))
       case Fail => s.Check(false))
    case Fetch(_) =>
      var y := s.node[p];
      var op := x.req.value.op;
      s.At(p, y.(tag := true, req := Some(Request(op, y.st, x.req.value.noExcl, false, op))))
    case Grant(_) =>
      var granted := if x.req.value.op == GETX then GrantExclusive(par, s, c) else GrantShared(par, s, c);
      Received(granted, c, x.req.value.asked)
    case Evict(_) => GiveUp(Absorb(SendInvalidates(par, s, c, INV), c), c)
    case Put(_) =>
      match CheckRace(x.req.value.op, x.st, x.req.value.initial)
      case Proceed(op) => Finish(AcceptPut(par, s, c, op), c)
      case Skip => Finish(s, c)
      case Fail => s.Check(false)
  }

  /** A cache without a valid copy frees the tag at once; otherwise a PUT goes to the parent. */
  function GiveUp(s: Line, c: nat): (r: Line)
    requires c < |s.node|
    ensures |r.node| == |s.node|
  {
    var x := s.node[c];
    if x.st == I then s.At(c, x.(tag := false))
    else
      var op := if x.st == M then PUTX else PUTS;
      s.At(c, x.(req := Some(Request(op, x.st, false, false, op))))
  }

  /** The end of `MESIBottomCC::processAccess` at the requester.  The source also stores M there after a
      GETX; as the state it was handed is M already, that changes nothing. */
  function Received(s: Line, c: nat, asked: Access): (r: Line)
    requires c < |s.node|
    ensures |r.node| == |s.node|
  {
    s.Check(asked == GETX ==> s.node[c].st == M)
  }

  /** The end of `MESIBottomCC::processEviction`: the line must be gone; its tag is then reused. */
  function Finish(s: Line, c: nat): (r: Line)
    requires c < |s.node|
    ensures |r.node| == |s.node|
  {
    s.At(c, s.node[c].(tag := false, req := None)).Check(s.node[c].st == I)
  }

  /** All caches empty; memory holds version 0 and may hand out any permission. */
  function Initial(par: Tree): (s: Line)
    ensures |s.node| == |par|
  {
    var none := Entry(0, {}, false);
    Line(seq(|par|, n => if n == 0 then Node(M, true, none, 0, None) else Node(I, false, none, 0, None)), 0, true)
  }

  /** `steps` can be taken one after the other from `s` and lead to `t`. */
  ghost predicate Run(par: Tree, s: Line, steps: seq<Step>, t: Line)
    decreases |steps|
  {
    if steps == [] then s == t
    else Enabled(par, s, steps[0]) && Run(par, Apply(par, s, steps[0]), steps[1..], t)
  }

  ghost predicate Reachable(par: Tree, s: Line) {
    exists steps :: Run(par, Initial(par), steps, s)
  }
}

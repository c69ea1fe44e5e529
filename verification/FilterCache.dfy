/**
 The filter in front of an L1 cache: one line per set, read without a lock by the core.

 A filter hit must mean that the L1 still allows the access.  A miss goes through the L1 and then
 overwrites the filter entry; an invalidation first clears the filter entry and then, in a second
 locked section, changes the L1.  Line address 0 marks an empty entry and is not a line.
 */
module FilterCache {
  import opened CoherenceProtocol
  import opened Collections

  const INVALID: int := -1

  /** The line a set may serve loads for, and the one it may serve stores for. */
  datatype FilterEntry = FilterEntry(rdAddr: int, wrAddr: int)

  /** A miss that has been through the L1 and holds the filter lock, about to write its entry. */
  datatype Pending = Pending(line: nat, isLoad: bool)

  /** `l1` holds the lines valid in the L1; `invs` the invalidations between their two halves. */
  datatype Filter = Filter(entries: seq<FilterEntry>, l1: map<nat, Mesi>, pending: Option<Pending>,
                           invs: multiset<(nat, Inval)>)

  function State(s: Filter, a: nat): Mesi {
    if a in s.l1 then s.l1[a] else I
  }

  /** The set of a line, in the filter and in the L1 alike. */
  function SetOf(s: Filter, a: nat): (i: nat)
    requires s.entries != []
    ensures i < |s.entries|
  {
    a % |s.entries|
  }

  // ------------------------------------------------------------------ steps

  datatype Step =
    | Access(a: nat, isLoad: bool, st: Mesi, victim: Option<nat>) // a filter miss gets the line from the L1
    | Commit                                                      // ... and writes its filter entry
    | InvStart(a: nat, ty: Inval)                                 // an invalidation clears the filter entry
    | InvFinish(a: nat, ty: Inval)                                // ... and changes the L1
    | ContextSwitch

  /** The core's own accesses do not overlap, and the filter lock is held from the end of an access
      to its commit.  A victim of the L1 comes from the set of the new line. */
  ghost predicate Enabled(s: Filter, step: Step) {
    && s.entries != []
    && match step
      case Access(a, isLoad, st, victim) =>
        && s.pending == None && a != 0
        && (if isLoad then !LoadHits(s, a) else !StoreHits(s, a))
        && (if !isLoad then st == M else if State(s, a) == I then st == S || st == E else st == State(s, a))
        && (victim.Some? ==> State(s, a) == I && victim.value != a && SetOf(s, victim.value) == SetOf(s, a))
      case Commit => s.pending.Some?
      case InvStart(a, _) => s.pending == None && a != 0
      case InvFinish(a, ty) => (a, ty) in s.invs
      case ContextSwitch => s.pending == None
  }

  predicate LoadHits(s: Filter, a: nat)
    requires s.entries != []
  {
    s.entries[SetOf(s, a)].rdAddr == a
  }

  predicate StoreHits(s: Filter, a: nat)
    requires s.entries != []
  {
    s.entries[SetOf(s, a)].wrAddr == a
  }

  function Cleared(e: FilterEntry, a: nat): FilterEntry {
    if e.rdAddr == a then FilterEntry(INVALID, INVALID) else e
  }

  function Downgraded(st: Mesi, ty: Inval): Mesi {
    if ty == INV then I else if st.Exclusive() then S else st
  }

  function After(s: Filter, step: Step): (r: Filter)
    requires s.entries != []
  {
    match step
    case Access(a, isLoad, st, victim) =>
      var l1 := if victim.Some? then s.l1[victim.value := I] else s.l1;
      s.(l1 := l1[a := st], pending := Some(Pending(a, isLoad)))
    case Commit =>
      if s.pending == None then s else
      var a := s.pending.value.line;
      s.(entries := s.entries[SetOf(s, a) := FilterEntry(a, if s.pending.value.isLoad then INVALID else a)],
         pending := None)
    case InvStart(a, ty) =>
      var i := SetOf(s, a);
      s.(entries := s.entries[i := Cleared(s.entries[i], a)], invs := s.invs + multiset{(a, ty)})
    case InvFinish(a, ty) =>
      s.(l1 := s.l1[a := Downgraded(State(s, a), ty)], invs := s.invs - multiset{(a, ty)})
    case ContextSwitch =>
      s.(entries := seq(|s.entries|, _ => FilterEntry(0, 0)))
  }

  // ------------------------------------------------------------------ agreement

  /** An entry speaks only of lines of its set that the L1 holds, of modified ones for stores. */
  ghost predicate EntryAgrees(s: Filter, i: nat)
    requires i < |s.entries|
  {
    var e := s.entries[i];
    && (e.rdAddr > 0 ==> SetOf(s, e.rdAddr) == i && State(s, e.rdAddr) != I)
    && (e.wrAddr > 0 ==> e.wrAddr == e.rdAddr && State(s, e.wrAddr) == M)
  }

  /** All entries agree with the L1, but for the one that a pending miss is about to overwrite. */
  ghost predicate Agrees(s: Filter) {
    && s.entries != []
    && (forall i: nat ::
          i < |s.entries| && !(s.pending.Some? && i == SetOf(s, s.pending.value.line)) ==> EntryAgrees(s, i))
    && (s.pending.Some? ==>
          var p := s.pending.value;
          p.line != 0 && (if p.isLoad then State(s, p.line) != I else State(s, p.line) == M))
  }

  /** While the filter agrees, a load hit means a valid line and a store hit a modified one. */
  lemma HitsAreAllowed(s: Filter, a: nat)
    requires Agrees(s) && a != 0 && s.pending == None
    ensures LoadHits(s, a) ==> State(s, a) != I
    ensures StoreHits(s, a) ==> State(s, a) == M
  {
    assert EntryAgrees(s, SetOf(s, a));
  }

  /** The second half of an invalidation finds the filter serving its line, or about to. */
  ghost predicate Overtaken(s: Filter, step: Step)
    requires s.entries != []
  {
    step.InvFinish? && step.a != 0 &&
    var i := SetOf(s, step.a);
    var overwritten := s.pending.Some? && SetOf(s, s.pending.value.line) == i;
    if step.ty == INV then
      (!overwritten && LoadHits(s, step.a)) || (s.pending.Some? && s.pending.value.line == step.a)
    else
      (!overwritten && StoreHits(s, step.a)) || s.pending == Some(Pending(step.a, false))
  }

  lemma EntryKept(s: Filter, step: Step, i: nat)
    requires Agrees(s) && Enabled(s, step) && !Overtaken(s, step) && i < |s.entries|
    requires var r := After(s, step); !(r.pending.Some? && i == SetOf(r, r.pending.value.line))
    ensures EntryAgrees(After(s, step), i)
  {
    if !(s.pending.Some? && i == SetOf(s, s.pending.value.line)) { assert EntryAgrees(s, i); }
  }

  /** Each step keeps the filter in agreement with the L1 iff it is not an overtaken invalidation. */
  lemma AgreesIff(s: Filter, step: Step)
    requires Agrees(s) && Enabled(s, step) && (step.InvFinish? ==> step.a != 0)
    ensures Agrees(After(s, step)) <==> !Overtaken(s, step)
  {
    var r := After(s, step);
    if !Overtaken(s, step) {
      forall i: nat | i < |r.entries| && !(r.pending.Some? && i == SetOf(r, r.pending.value.line))
        ensures EntryAgrees(r, i)
      {
        EntryKept(s, step, i);
      }
    } else {
      var i := SetOf(s, step.a);
      if !(s.pending.Some? && SetOf(s, s.pending.value.line) == i) { assert EntryAgrees(s, i); }
      assert Agrees(r) ==> (!(r.pending.Some? && i == SetOf(r, r.pending.value.line)) ==> EntryAgrees(r, i));
    }
  }

  /** An invalidation that is not interrupted is never overtaken. */
  lemma UninterruptedIsFine(s: Filter, a: nat, ty: Inval)
    requires Agrees(s) && Enabled(s, InvStart(a, ty))
    ensures Agrees(After(After(s, InvStart(a, ty)), InvFinish(a, ty)))
  {
    AgreesIff(s, InvStart(a, ty));
    assert EntryAgrees(s, SetOf(s, a));
    var s1 := After(s, InvStart(a, ty));
    assert !LoadHits(s1, a) && !StoreHits(s1, a);
    AgreesIff(s1, InvFinish(a, ty));
  }

  // ------------------------------------------------------------------ runs

  ghost predicate StepAt(states: seq<Filter>, steps: seq<Step>, k: nat)
    requires |states| == |steps| + 1 && k < |steps|
  {
    Enabled(states[k], steps[k]) && states[k + 1] == After(states[k], steps[k])
  }

  /** The states of a run, one more than its steps. */
  ghost predicate IsRun(states: seq<Filter>, steps: seq<Step>) {
    && |states| == |steps| + 1
    && forall k: nat {:trigger StepAt(states, steps, k)} :: k < |steps| ==> StepAt(states, steps, k)
  }

  ghost predicate OvertakenAt(states: seq<Filter>, steps: seq<Step>, k: nat)
    requires k < |states| && k < |steps|
  {
    states[k].entries != [] && Overtaken(states[k], steps[k])
  }

  ghost predicate RealLines(s: Filter) {
    forall x :: x in s.invs ==> x.0 != 0
  }

  lemma {:induction false} LinesStayReal(states: seq<Filter>, steps: seq<Step>, k: nat)
    requires IsRun(states, steps) && RealLines(states[0]) && k <= |steps|
    ensures RealLines(states[k])
  {
    if k > 0 {
      LinesStayReal(states, steps, k - 1);
      assert StepAt(states, steps, k - 1);
    }
  }

  /** In a run without overtaken invalidations the filter agrees with the L1 throughout. */
  lemma {:induction false} CleanRunsAgree(states: seq<Filter>, steps: seq<Step>, k: nat)
    requires IsRun(states, steps) && Agrees(states[0]) && RealLines(states[0]) && k <= |steps|
    requires forall i :: 0 <= i < k ==> !OvertakenAt(states, steps, i)
    ensures Agrees(states[k])
  {
    if k > 0 {
      CleanRunsAgree(states, steps, k - 1);
      LinesStayReal(states, steps, k - 1);
      assert StepAt(states, steps, k - 1) && !OvertakenAt(states, steps, k - 1);
      AgreesIff(states[k - 1], steps[k - 1]);
    }
  }

  /** Over every run the filter agrees with the L1 at all times iff no invalidation is overtaken. */
  lemma RunsAgreeIff(states: seq<Filter>, steps: seq<Step>)
    requires IsRun(states, steps) && Agrees(states[0]) && RealLines(states[0])
    ensures (forall k :: 0 <= k <= |steps| ==> Agrees(states[k])) <==>
      (forall k :: 0 <= k < |steps| ==> !OvertakenAt(states, steps, k))
  {
    if k: nat :| k < |steps| && OvertakenAt(states, steps, k) {
      LinesStayReal(states, steps, k);
      assert StepAt(states, steps, k);
      if Agrees(states[k]) { AgreesIff(states[k], steps[k]); }
      assert !(Agrees(states[k]) && Agrees(states[k + 1]));
    } else {
      forall k: nat | k <= |steps|
        ensures Agrees(states[k])
      {
        CleanRunsAgree(states, steps, k);
      }
    }
  }

  // ------------------------------------------------------------------ what overtakes an invalidation

  /** The filter serves line `a`, or is about to. */
  ghost predicate Serves(s: Filter, a: nat)
    requires s.entries != []
  {
    LoadHits(s, a) || StoreHits(s, a) || (s.pending.Some? && s.pending.value.line == a)
  }

  /** Stores are served only for the line that loads are served for. */
  ghost predicate Paired(s: Filter) {
    forall i :: 0 <= i < |s.entries| ==> s.entries[i].wrAddr > 0 ==> s.entries[i].wrAddr == s.entries[i].rdAddr
  }

  ghost predicate StartedAt(steps: seq<Step>, i: nat, a: nat, ty: Inval) {
    i < |steps| && steps[i] == InvStart(a, ty)
  }

  ghost predicate MissedAt(steps: seq<Step>, j: nat, a: nat) {
    j < |steps| && steps[j].Access? && steps[j].a == a
  }

  lemma {:induction false} StaysPaired(states: seq<Filter>, steps: seq<Step>, k: nat)
    requires IsRun(states, steps) && Paired(states[0]) && k <= |steps|
    ensures Paired(states[k])
  {
    if k > 0 {
      StaysPaired(states, steps, k - 1);
      assert StepAt(states, steps, k - 1);
    }
  }

  lemma {:induction false} WasStarted(states: seq<Filter>, steps: seq<Step>, k: nat, a: nat, ty: Inval) returns (i: nat)
    requires IsRun(states, steps) && states[0].invs == multiset{} && k <= |steps| && (a, ty) in states[k].invs
    ensures i < k && StartedAt(steps, i, a, ty)
  {
    if steps[k - 1] == InvStart(a, ty) {
      i := k - 1;
    } else {
      assert StepAt(states, steps, k - 1);
      i := WasStarted(states, steps, k - 1, a, ty);
    }
  }

  /** Only a miss makes the filter serve a line, and the first half of its invalidation ends that. */
  lemma ServesBefore(s: Filter, step: Step, a: nat, ty: Inval)
    requires Enabled(s, step) && Paired(s) && a != 0 && Serves(After(s, step), a) && !(step.Access? && step.a == a)
    requires (a, ty) in After(s, step).invs
    ensures Serves(s, a) && (a, ty) in s.invs
  {
    assert s.entries[SetOf(s, a)] in s.entries;
  }

  lemma {:induction false} WasMissed(states: seq<Filter>, steps: seq<Step>, k: nat, a: nat, ty: Inval)
    returns (i: nat, j: nat)
    requires IsRun(states, steps) && states[0].invs == multiset{} && Paired(states[0]) && k <= |steps| && a != 0
    requires states[k].entries != [] && (a, ty) in states[k].invs && Serves(states[k], a)
    ensures i < j < k && StartedAt(steps, i, a, ty) && MissedAt(steps, j, a)
    decreases k
  {
    if k > 0 { assert StepAt(states, steps, k - 1); }
    if MissedAt(steps, k - 1, a) {
      i := WasStarted(states, steps, k - 1, a, ty);
      j := k - 1;
    } else {
      StaysPaired(states, steps, k - 1);
      ServesBefore(states[k - 1], steps[k - 1], a, ty);
      i, j := WasMissed(states, steps, k - 1, a, ty);
    }
  }

  /** An invalidation is overtaken only by a miss on its own line between its two halves. */
  lemma OvertakenByMiss(states: seq<Filter>, steps: seq<Step>, k: nat) returns (i: nat, j: nat)
    requires IsRun(states, steps) && Agrees(states[0]) && states[0].pending == None && states[0].invs == multiset{}
    requires k < |steps| && OvertakenAt(states, steps, k)
    ensures steps[k].InvFinish? && i < j < k
    ensures StartedAt(steps, i, steps[k].a, steps[k].ty) && MissedAt(steps, j, steps[k].a)
  {
    forall n: nat | n < |states[0].entries|
      ensures states[0].entries[n].wrAddr > 0 ==> states[0].entries[n].wrAddr == states[0].entries[n].rdAddr
    {
      assert EntryAgrees(states[0], n);
    }
    assert StepAt(states, steps, k);
    i, j := WasMissed(states, steps, k, steps[k].a, steps[k].ty);
  }

  /** Between the halves of an invalidation, the core's next load finds the line still in the L1. */
  lemma RaceLoads(s: Filter, a: nat) returns (s1: Filter, s2: Filter)
    requires s.entries != [] && s.pending == None && a != 0 && State(s, a) != I
    ensures s1 == After(s, InvStart(a, INV)) && Enabled(s, InvStart(a, INV))
    ensures var load := Access(a, true, State(s, a), None); Enabled(s1, load) && s2 == After(s1, load)
    ensures s2.entries != [] && s2.pending == Some(Pending(a, true)) && (a, INV) in s2.invs
  {
    s1 := After(s, InvStart(a, INV));
    s2 := After(s1, Access(a, true, State(s, a), None));
  }

  /** ... which then writes its entry before the second half takes the line away. */
  lemma RaceEnds(s: Filter, a: nat) returns (s1: Filter, s2: Filter)
    requires s.entries != [] && s.pending == Some(Pending(a, true)) && (a, INV) in s.invs
    ensures Enabled(s, Commit) && s1 == After(s, Commit)
    ensures Enabled(s1, InvFinish(a, INV)) && s2 == After(s1, InvFinish(a, INV))
    ensures s2.pending == None && s2.entries != [] && LoadHits(s2, a) && State(s2, a) == I
  {
    s1 := After(s, Commit);
    s2 := After(s1, InvFinish(a, INV));
  }

  /** The race is real, for every valid line in every state: the line is invalidated while the core's
      next load brings it back, and the filter goes on serving loads of a line the L1 has lost. */
  lemma RaceArises(s: Filter, a: nat) returns (states: seq<Filter>, steps: seq<Step>)
    requires s.entries != [] && s.pending == None && a != 0 && State(s, a) != I
    ensures IsRun(states, steps) && states[0] == s
    ensures var t := states[|steps|]; t.pending == None && t.entries != [] && LoadHits(t, a) && State(t, a) == I
  {
    var s1, s2 := RaceLoads(s, a);
    var s3, t := RaceEnds(s2, a);
    states := [s, s1, s2, s3, t];
    steps := [InvStart(a, INV), Access(a, true, State(s, a), None), Commit, InvFinish(a, INV)];
  }

  // ------------------------------------------------------------------ what the filter is for

  /** What the steps do to the lines of the L1. */
  lemma LinesAfter(s: Filter, step: Step, b: nat)
    requires Enabled(s, step)
    ensures State(After(s, step), b) ==
      match step
      case Access(a, _, st, victim) => (if b == a then st else if victim == Some(b) then I else State(s, b))
      case InvFinish(a, ty) =>
        (if b != a then State(s, b) else if ty == INV then I else if State(s, b) == I then I else S)
      case _ => State(s, b)
  {
  }

  /** After a miss the line is served from the filter: loads always, stores after a store. */
  lemma MissThenHits(s: Filter)
    requires s.entries != [] && s.pending.Some?
    ensures var t, a := After(s, Commit), s.pending.value.line;
      t.entries != [] && t.pending == None && LoadHits(t, a) && (StoreHits(t, a) <==> !s.pending.value.isLoad)
  {
  }

  /** The step takes line `a` out of the filter: an invalidation of it, a miss that is given its set, or a
      context switch. */
  ghost predicate Displaces(s: Filter, step: Step, a: nat)
    requires s.entries != []
  {
    match step
    case InvStart(b, _) => b == a
    case Commit => s.pending.Some? && s.pending.value.line != a && SetOf(s, s.pending.value.line) == SetOf(s, a)
    case ContextSwitch => true
    case _ => false
  }

  /** No other step does, and these do. */
  lemma HitsStayIff(s: Filter, step: Step, a: nat)
    requires s.entries != [] && Enabled(s, step) && a != 0 && LoadHits(s, a)
    ensures After(s, step).entries != [] && (LoadHits(After(s, step), a) <==> !Displaces(s, step, a))
    ensures StoreHits(s, a) && !Displaces(s, step, a) && !(step == Commit && s.pending.value.line == a) ==>
      StoreHits(After(s, step), a)
  {
  }

  /** Over a whole run: a line brought in by a store serves loads and stores until it is displaced, or
      until a miss on the same line is for a load. */
  lemma {:induction false} StoreServesOn(states: seq<Filter>, steps: seq<Step>, i: nat, k: nat, a: nat)
    requires IsRun(states, steps) && i < k <= |steps| && a != 0
    requires steps[i] == Commit && states[i].pending == Some(Pending(a, false))
    requires forall j :: i < j < k ==>
      states[j].entries != [] && !Displaces(states[j], steps[j], a)
      && !(steps[j] == Commit && states[j].pending == Some(Pending(a, true)))
    ensures states[k].entries != [] && LoadHits(states[k], a) && StoreHits(states[k], a)
    decreases k
  {
    assert StepAt(states, steps, k - 1);
    if k == i + 1 {
      MissThenHits(states[i]);
    } else {
      StoreServesOn(states, steps, i, k - 1, a);
      HitsStayIff(states[k - 1], steps[k - 1], a);
      if steps[k - 1] == Commit && states[k - 1].pending.value.line == a { MissThenHits(states[k - 1]); }
    }
  }

  // ------------------------------------------------------------------ the filter array

  /** The filter as the program keeps it: an array of entries overwritten in place. */
  class FilterArray {
    const filterArray: array<FilterEntry>

    constructor (numSets: nat)
      ensures fresh(filterArray) && filterArray[..] == seq(numSets, _ => FilterEntry(0, 0))
    {
      filterArray := new FilterEntry[numSets](_ => FilterEntry(0, 0));
    }

    /** The end of `replace`, with the filter lock held. */
    method Replace(line: nat, isLoad: bool, ghost s: Filter)
      requires filterArray.Length > 0 && s.entries == filterArray[..] && s.pending == Some(Pending(line, isLoad))
      modifies filterArray
      ensures filterArray[..] == After(s, Commit).entries
    {
      var idx := line % filterArray.Length;
      filterArray[idx] := FilterEntry(line, if isLoad then INVALID else line);
    }

    /** The first half of `invalidate`. */
    method Invalidate(line: nat, ty: Inval, ghost s: Filter)
      requires filterArray.Length > 0 && s.entries == filterArray[..]
      modifies filterArray
      ensures filterArray[..] == After(s, InvStart(line, ty)).entries
    {
      var idx := line % filterArray.Length;
      if filterArray[idx].rdAddr == line {
        filterArray[idx] := FilterEntry(INVALID, INVALID);
      }
    }

    method SwitchContext(ghost s: Filter)
      requires filterArray.Length > 0 && s.entries == filterArray[..]
      modifies filterArray
      ensures filterArray[..] == After(s, ContextSwitch).entries
    {
      for i := 0 to filterArray.Length
        invariant forall k :: 0 <= k < i ==> filterArray[k] == FilterEntry(0, 0)
      {
        filterArray[i] := FilterEntry(0, 0);
      }
    }
  }
}

/**
 Many lines in the same caches.

 The controllers keep a state for every line of every cache, and the tag arrays have room for a
 limited number of lines.  A run of the whole hierarchy is, for each line address, a run of the
 protocol of that line; so what holds of every reachable line holds of the contents of the caches.
 */
module CoherenceLines {
  import opened CacheTree
  import opened CoherenceProtocol
  import opened CoherenceTheorems

  /** `par[a]` is the tree of address `a` (banked caches spread the addresses over several parents);
      `cap[n]` is the number of lines for which cache `n` has tags. */
  datatype Hierarchy = Hierarchy(par: seq<Tree>, cap: seq<nat>)

  /** One line per address. */
  type System = seq<Line>

  /** Step `step` of the line at address `a`. */
  datatype Move = Move(a: nat, step: Step)

  ghost predicate Shaped(h: Hierarchy, sys: System) {
    && |sys| == |h.par|
    && forall a: nat :: a < |sys| ==> |h.par[a]| == |sys[a].node| == |h.cap|
  }

  /** The addresses that have a tag in cache `n`. */
  ghost function Tags(sys: System, n: nat): set<nat> {
    set a: nat | a < |sys| && n < |sys[a].node| && sys[a].node[n].tag
  }

  /** No cache but memory, which is number 0, holds more lines than it has room for. */
  ghost predicate Fits(h: Hierarchy, sys: System) {
    forall n: nat :: 0 < n < |h.cap| ==> |Tags(sys, n)| <= h.cap[n]
  }

  ghost predicate CanMove(h: Hierarchy, sys: System, m: Move) {
    Shaped(h, sys) && m.a < |sys| && Enabled(h.par[m.a], sys[m.a], m.step)
  }

  ghost function After(h: Hierarchy, sys: System, m: Move): (sys': System)
    requires CanMove(h, sys, m)
    ensures Shaped(h, sys')
  {
    sys[m.a := Apply(h.par[m.a], sys[m.a], m.step)]
  }

  /** The moves can be taken one after the other, and no cache is ever overfull. */
  ghost predicate SystemRun(h: Hierarchy, sys: System, moves: seq<Move>, sys': System)
    decreases |moves|
  {
    if moves == [] then sys == sys'
    else
      && CanMove(h, sys, moves[0])
      && Fits(h, After(h, sys, moves[0]))
      && SystemRun(h, After(h, sys, moves[0]), moves[1..], sys')
  }

  ghost function Start(h: Hierarchy): (sys: System)
    ensures |sys| == |h.par|
  {
    seq(|h.par|, a requires 0 <= a < |h.par| => Initial(h.par[a]))
  }

  /** The steps of a run that concern address `a`. */
  ghost function StepsOf(moves: seq<Move>, a: nat): seq<Step> {
    if moves == [] then []
    else (if moves[0].a == a then [moves[0].step] else []) + StepsOf(moves[1..], a)
  }

  // ------------------------------------------------------------------ projection

  /** A run of the hierarchy is, for each address, a run of its line. */
  lemma {:induction false} RunProjects(h: Hierarchy, sys: System, moves: seq<Move>, sys': System, a: nat)
    requires Shaped(h, sys) && SystemRun(h, sys, moves, sys') && a < |sys|
    ensures Shaped(h, sys') && Run(h.par[a], sys[a], StepsOf(moves, a), sys'[a])
    decreases |moves|
  {
    if moves != [] {
      var sys1 := After(h, sys, moves[0]);
      RunProjects(h, sys1, moves[1..], sys', a);
      if moves[0].a == a {
        RunBegins(h.par[a], sys[a], moves[0].step, StepsOf(moves[1..], a), sys'[a]);
      } else {
        assert StepsOf(moves, a) == StepsOf(moves[1..], a);
      }
    }
  }

  lemma RunBegins(par: Tree, s: Line, step: Step, steps: seq<Step>, t: Line)
    requires Enabled(par, s, step) && Run(par, Apply(par, s, step), steps, t)
    ensures Run(par, s, [step] + steps, t)
  {
    assert ([step] + steps)[1..] == steps;
  }

  ghost predicate Reached(h: Hierarchy, sys: System) {
    exists moves :: SystemRun(h, Start(h), moves, sys)
  }

  /** Every line of a reachable hierarchy is a reachable line. */
  lemma LinesReachable(h: Hierarchy, sys: System, a: nat)
    requires Shaped(h, Start(h)) && Reached(h, sys) && a < |h.par|
    ensures Shaped(h, sys) && Reachable(h.par[a], sys[a])
  {
    var moves :| SystemRun(h, Start(h), moves, sys);
    RunProjects(h, Start(h), moves, sys, a);
  }

  /** The converse: a run of one line is a run of the hierarchy, if every cache has room for a line. */
  lemma {:induction false} RunLifts(h: Hierarchy, sys: System, a: nat, steps: seq<Step>, t: Line)
    requires Shaped(h, sys) && a < |sys| && Run(h.par[a], sys[a], steps, t)
    requires (forall b: nat :: b < |sys| && b != a ==> sys[b] == Initial(h.par[b]))
    requires (forall n: nat :: 0 < n < |h.cap| ==> h.cap[n] > 0)
    ensures SystemRun(h, sys, seq(|steps|, i requires 0 <= i < |steps| => Move(a, steps[i])), sys[a := t])
    decreases |steps|
  {
    var moves := seq(|steps|, i requires 0 <= i < |steps| => Move(a, steps[i]));
    if steps == [] {
      assert sys[a := t] == sys;
    } else {
      var sys1 := After(h, sys, moves[0]);
      OneLineFits(h, sys1, a);
      RunLifts(h, sys1, a, steps[1..], t);
      assert moves[1..] == seq(|steps[1..]|, i requires 0 <= i < |steps[1..]| => Move(a, steps[1..][i]));
      assert sys1[a := t] == sys[a := t];
    }
  }

  lemma OneLineFits(h: Hierarchy, sys: System, a: nat)
    requires Shaped(h, sys) && a < |sys|
    requires (forall b: nat :: b < |sys| && b != a ==> sys[b] == Initial(h.par[b]))
    requires (forall n: nat :: 0 < n < |h.cap| ==> h.cap[n] > 0)
    ensures Fits(h, sys)
  {
    forall n: nat | 0 < n < |h.cap|
      ensures |Tags(sys, n)| <= h.cap[n]
    {
      assert Tags(sys, n) <= {a};
      AtMost(Tags(sys, n), {a});
    }
  }

  lemma {:induction false} AtMost(xs: set<nat>, ys: set<nat>)
    requires xs <= ys
    ensures |xs| <= |ys|
    decreases ys
  {
    if ys != {} {
      var y :| y in ys;
      AtMost(xs - {y}, ys - {y});
      assert y in xs ==> |xs - {y}| == |xs| - 1;
    }
  }

  // ------------------------------------------------------------------ the contents of the caches

  /** Cache `n`, which lies below cache `k` for address `a`, has a valid copy of that line. */
  ghost predicate HasCopy(h: Hierarchy, sys: System, k: nat, a: nat, n: nat)
    requires Shaped(h, sys) && a < |sys|
  {
    n < |h.cap| && Under(h.par[a], k, n) && sys[a].node[n].st != I
  }

  ghost predicate CopyBelow(h: Hierarchy, sys: System, k: nat, a: nat)
    requires Shaped(h, sys) && a < |sys|
  {
    exists n: nat :: HasCopy(h, sys, k, a, n)
  }

  /** The lines of which cache `k` or a cache below it has a valid copy. */
  ghost function HeldBelow(h: Hierarchy, sys: System, k: nat): set<nat>
    requires Shaped(h, sys)
  {
    set a: nat | a < |sys| && CopyBelow(h, sys, k, a)
  }

  /** Inclusion, for whole caches: what is held anywhere below a cache has a tag in that cache, so the
      caches below it never hold more lines than it has room for. */
  lemma CacheInclusion(h: Hierarchy, sys: System, k: nat)
    requires Shaped(h, Start(h)) && Reached(h, sys) && 0 < k < |h.cap|
    ensures Shaped(h, sys) && HeldBelow(h, sys, k) <= Tags(sys, k)
    ensures |HeldBelow(h, sys, k)| <= h.cap[k]
  {
    ReachedFits(h, sys);
    forall a | a in HeldBelow(h, sys, k)
      ensures a in Tags(sys, k)
    {
      var n: nat :| HasCopy(h, sys, k, a, n);
      LinesReachable(h, sys, a);
      Inclusion(h.par[a], sys[a], k, n);
    }
    AtMost(HeldBelow(h, sys, k), Tags(sys, k));
  }

  lemma ReachedFits(h: Hierarchy, sys: System)
    requires Shaped(h, Start(h)) && Reached(h, sys)
    ensures Shaped(h, sys) && Fits(h, sys)
  {
    var moves :| SystemRun(h, Start(h), moves, sys);
    forall n: nat | 0 < n < |h.cap|
      ensures |Tags(Start(h), n)| <= h.cap[n]
    {
      assert Tags(Start(h), n) == {};
    }
    RunFits(h, Start(h), moves, sys);
  }

  lemma {:induction false} RunFits(h: Hierarchy, sys: System, moves: seq<Move>, sys': System)
    requires Shaped(h, sys) && Fits(h, sys) && SystemRun(h, sys, moves, sys')
    ensures Shaped(h, sys') && Fits(h, sys')
    decreases |moves|
  {
    if moves != [] { RunFits(h, After(h, sys, moves[0]), moves[1..], sys'); }
  }
}

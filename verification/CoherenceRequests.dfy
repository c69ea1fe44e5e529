/**
 A request over a whole run: what a core asks for is what every cache on the way asks for, and what
 it is granted in the end, whatever happens to the line in between.
 */
module CoherenceRequests {
  import opened CacheTree
  import opened Collections
  import opened CoherenceEffects
  import opened CoherenceProtocol
  import opened CoherenceSafety
  import opened CoherenceTheorems

  // ------------------------------------------------------------------ runs by their states

  ghost predicate StepAt(par: Tree, states: seq<Line>, steps: seq<Step>, k: nat)
    requires |states| == |steps| + 1 && k < |steps|
  {
    Enabled(par, states[k], steps[k]) && states[k + 1] == Apply(par, states[k], steps[k])
  }

  /** The states that the steps go through, from the empty caches on. */
  ghost predicate IsRun(par: Tree, states: seq<Line>, steps: seq<Step>) {
    && |states| == |steps| + 1 && states[0] == Initial(par)
    && forall k: nat {:trigger StepAt(par, states, steps, k)} :: k < |steps| ==> StepAt(par, states, steps, k)
  }

  lemma {:induction false} RunOn(par: Tree, s: Line, steps: seq<Step>, t: Line, step: Step)
    requires Run(par, s, steps, t) && Enabled(par, t, step)
    ensures Run(par, s, steps + [step], Apply(par, t, step))
    decreases |steps|
  {
    if steps == [] {
      assert ([] + [step])[1..] == [];
    } else {
      assert (steps + [step])[1..] == steps[1..] + [step];
      RunOn(par, Apply(par, s, steps[0]), steps[1..], t, step);
    }
  }

  lemma {:induction false} PrefixRun(par: Tree, states: seq<Line>, steps: seq<Step>, k: nat)
    requires IsRun(par, states, steps) && k <= |steps|
    ensures Run(par, states[0], steps[..k], states[k])
    decreases k
  {
    if k == 0 {
      assert steps[..0] == [];
    } else {
      PrefixRun(par, states, steps, k - 1);
      assert StepAt(par, states, steps, k - 1);
      RunOn(par, states[0], steps[..k - 1], states[k - 1], steps[k - 1]);
      assert steps[..k] == steps[..k - 1] + [steps[k - 1]];
    }
  }

  lemma StatesReachable(par: Tree, states: seq<Line>, steps: seq<Step>, k: nat)
    requires IsRun(par, states, steps) && k <= |steps|
    ensures Reachable(par, states[k])
  {
    PrefixRun(par, states, steps, k);
  }

  // ------------------------------------------------------------------ a request keeps its kind

  /** The step makes cache `c` ask its parent for the line. */
  ghost predicate Asks(par: Tree, step: Step, c: nat) {
    || (step.Miss? && step.c == c)
    || (step.Fetch? && step.c < |par| && par[step.c] == c)
  }

  /** ... and asks for `op`: what the core wants, or what the child waiting at `c` has asked for. */
  ghost predicate AsksFor(par: Tree, s: Line, step: Step, c: nat, op: Access, noExcl: bool) {
    && Asks(par, step, c)
    && match step
      case Miss(_, o, x) => o == op && x == noExcl
      case Fetch(d) =>
        d < |s.node| && s.node[d].req.Some? && s.node[d].req.value.op == op && s.node[d].req.value.noExcl == noExcl
      case _ => false
  }

  /** A GET of `c` that is pending asks for `op`. */
  ghost predicate Stands(s: Line, c: nat, op: Access, noExcl: bool) {
    c < |s.node| && (s.node[c].req.Some? && !s.node[c].req.value.op.IsPut() ==>
                       s.node[c].req.value.op == op && s.node[c].req.value.noExcl == noExcl)
  }

  lemma StepStands(par: Tree, s: Line, step: Step, c: nat, op: Access, noExcl: bool)
    requires Reachable(par, s) && Enabled(par, s, step) && !Asks(par, step, c) && Stands(s, c, op, noExcl)
    ensures Stands(Apply(par, s, step), c, op, noExcl)
  {
    match step
    case Grant(d) => if d == c { GetDelivers(par, s, c); } else { GrantChanges(par, s, d, c); }
    case Evict(d) => EvictChanges(par, s, d, c);
    case Put(d) => PutChanges(par, s, d, c);
    case Begin(d) => if d == c { RacesResolved(par, s, c); }
    case _ =>
  }

  lemma {:induction false} RequestStands(par: Tree, states: seq<Line>, steps: seq<Step>, i: nat, k: nat,
                                         c: nat, op: Access, noExcl: bool)
    requires IsRun(par, states, steps) && i < k <= |steps| && AsksFor(par, states[i], steps[i], c, op, noExcl)
    requires forall j :: i < j < k ==> !Asks(par, steps[j], c)
    ensures Stands(states[k], c, op, noExcl)
    decreases k
  {
    assert StepAt(par, states, steps, k - 1);
    if k > i + 1 {
      RequestStands(par, states, steps, i, k - 1, c, op, noExcl);
      StatesReachable(par, states, steps, k - 1);
      StepStands(par, states[k - 1], steps[k - 1], c, op, noExcl);
    }
  }

  // ------------------------------------------------------------------ the main results

  /** The request that `c` made at step `i` is answered at step `k`: `c` may write the line if it asked
      to, and read it otherwise, exclusively iff it wants that and nobody else has it, and it has the last
      store. */
  lemma RequestHonoured(par: Tree, states: seq<Line>, steps: seq<Step>, i: nat, k: nat,
                        c: nat, op: Access, noExcl: bool)
    requires IsRun(par, states, steps) && i < k < |steps| && AsksFor(par, states[i], steps[i], c, op, noExcl)
    requires steps[k] == Grant(c) && forall j :: i < j < k ==> !Asks(par, steps[j], c)
    ensures 0 < c < |par| == |states[k].node| == |states[k + 1].node|
    ensures var x := states[k + 1].node[c];
      && x.ver == states[k].latest && x.req == None
      && (op == GETX ==> x.st == M)
      && (op == GETS ==>
            var p := par[c];
            x.st == if !noExcl && states[k].node[p].st.Exclusive() && NoChildValid(par, states[k], p) then E else S)
  {
    RequestStands(par, states, steps, i, k, c, op, noExcl);
    StatesReachable(par, states, steps, k);
    assert StepAt(par, states, steps, k);
    GetDelivers(par, states[k], c);
    GrantIsGet(par, states[k], c);
  }

  lemma GrantIsGet(par: Tree, s: Line, c: nat)
    requires Reachable(par, s) && Enabled(par, s, Grant(c))
    ensures !s.node[c].req.value.op.IsPut()
  {
    ReachableOk(par, s);
    assert ReqOk(s.node[c]);
  }

  /** When the parent has to ask in its turn, it asks for just what `c` asked for. */
  lemma RequestCarried(par: Tree, states: seq<Line>, steps: seq<Step>, i: nat, k: nat,
                       c: nat, op: Access, noExcl: bool)
    requires IsRun(par, states, steps) && i < k < |steps| && AsksFor(par, states[i], steps[i], c, op, noExcl)
    requires steps[k] == Fetch(c) && forall j :: i < j < k ==> !Asks(par, steps[j], c)
    ensures 0 < c < |par| == |states[k + 1].node|
    ensures var r := states[k + 1].node[par[c]].req;
      r.Some? && r.value.op == r.value.asked == op && r.value.noExcl == noExcl && !r.value.started
    ensures AsksFor(par, states[k], steps[k], par[c], op, noExcl)
  {
    RequestStands(par, states, steps, i, k, c, op, noExcl);
    StatesReachable(par, states, steps, k);
    assert StepAt(par, states, steps, k);
    ReachableOk(par, states[k]);
    assert ReqOk(states[k].node[c]);
  }
}

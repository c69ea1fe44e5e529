/**
 The shape of a cache hierarchy as seen by one line address.

 Caches are numbered so that every cache has a larger number than its parent, and number 0 is
 main memory.  `par[c]` is the parent that `c` sends this line's requests to.
 */
module CacheTree {

  ghost predicate IsTree(par: seq<nat>) {
    |par| > 0 && forall c :: 0 < c < |par| ==> par[c] < c
  }

  type Tree = par: seq<nat> | IsTree(par) ghost witness [0]

  ghost predicate IsChild(par: Tree, c: nat, p: nat) {
    0 < c < |par| && par[c] == p
  }

  ghost predicate IsLeaf(par: Tree, c: nat) {
    c < |par| && forall x :: IsChild(par, x, c) ==> false
  }

  /** `x` is `a` or lies below `a`. */
  ghost predicate Under(par: Tree, a: nat, x: nat)
    decreases x
  {
    x < |par| && (a == x || (x > 0 && Under(par, a, par[x])))
  }

  ghost predicate Below(par: Tree, a: nat, x: nat) {
    a != x && Under(par, a, x)
  }

  /** The child of `a` through which the path from `a` down to `x` goes. */
  ghost function Toward(par: Tree, a: nat, x: nat): (k: nat)
    requires Below(par, a, x)
    ensures IsChild(par, k, a) && Under(par, k, x)
    decreases x
  {
    if par[x] == a then x else Toward(par, a, par[x])
  }

  lemma {:induction false} UnderOrder(par: Tree, a: nat, x: nat)
    requires Under(par, a, x)
    ensures a <= x < |par|
    decreases x
  {
    if a != x { UnderOrder(par, a, par[x]); }
  }

  lemma {:induction false} UnderTransitive(par: Tree, a: nat, b: nat, x: nat)
    requires Under(par, a, b) && Under(par, b, x)
    ensures Under(par, a, x)
    decreases x
  {
    if b != x { UnderTransitive(par, a, b, par[x]); }
  }

  /** Two caches above the same one lie on one path. */
  lemma {:induction false} UnderComparable(par: Tree, a: nat, b: nat, x: nat)
    requires Under(par, a, x) && Under(par, b, x)
    ensures Under(par, a, b) || Under(par, b, a)
    decreases x
  {
    if a != x && b != x { UnderComparable(par, a, b, par[x]); }
  }

  /** The subtrees of two children of one cache share no cache. */
  lemma TowardUnique(par: Tree, p: nat, k: nat, x: nat)
    requires IsChild(par, k, p) && Under(par, k, x)
    ensures Below(par, p, x) && Toward(par, p, x) == k
  {
    assert Under(par, p, k);
    UnderTransitive(par, p, k, x);
    UnderOrder(par, k, x);
    var j := Toward(par, p, x);
    UnderComparable(par, j, k, x);
    if j != k {
      if Under(par, j, k) { UnderOrder(par, j, p); } else { UnderOrder(par, k, p); }
      assert false;
    }
  }

  lemma {:induction false} AllUnderMemory(par: Tree, x: nat)
    requires x < |par|
    ensures Under(par, 0, x)
    decreases x
  {
    if x != 0 { AllUnderMemory(par, par[x]); }
  }

  lemma LeafIsLast(par: Tree, c: nat, x: nat)
    requires IsLeaf(par, c) && Under(par, c, x)
    ensures x == c
  {
    if x != c {
      var k := Toward(par, c, x);
      assert false;
    }
  }
}

/**
 Least-recently-used replacement on values, and the plain recency list it must follow.

 `order` lists the lines of the array, most recently used first; `addr` gives the address written in
 each line, 0 in a line that has never been filled; `table` maps an address to its line.
 */
module LruModel {
  import opened Collections

  datatype Lru = Lru(order: seq<nat>, addr: seq<nat>, table: map<nat, nat>)

  function Without(s: seq<nat>, x: nat): seq<nat>
  {
    if s == [] then []
    else if s[0] == x then Without(s[1..], x)
    else [s[0]] + Without(s[1..], x)
  }

  function MoveFront(s: seq<nat>, x: nat): seq<nat> { [x] + Without(s, x) }

  function Touch(l: Lru, i: nat): Lru { l.(order := MoveFront(l.order, i)) }

  /** The old address of the line leaves the table, the new one enters it. */
  function Fill(l: Lru, i: nat, a: nat): Lru
    requires i < |l.addr|
  {
    Lru(MoveFront(l.order, i), l.addr[i := a], (l.table - {l.addr[i]})[a := i])
  }

  ghost predicate AllBelow(s: seq<nat>, n: nat) {
    forall k :: 0 <= k < |s| ==> s[k] < n
  }

  /** Every line named is a line of the array. */
  ghost predicate Shape(l: Lru) {
    |l.order| > 0 && AllBelow(l.order, |l.addr|) && forall a :: a in l.table ==> l.table[a] < |l.addr|
  }

  lemma {:induction false} WithoutBelow(s: seq<nat>, x: nat, n: nat)
    requires AllBelow(s, n)
    ensures AllBelow(Without(s, x), n)
  {
    if s != [] { WithoutBelow(s[1..], x, n); }
  }

  /** A cache access: a hit is touched; a miss replaces the least recent line. */
  ghost function Access(l: Lru, a: nat): (r: Lru)
    requires Shape(l)
    ensures Shape(r)
  {
    var i := if a in l.table then l.table[a] else l.order[|l.order| - 1];
    WithoutBelow(l.order, i, |l.addr|);
    if a in l.table then Touch(l, i) else Fill(l, i, a)
  }

  // ------------------------------------------------------------------ the plain stack

  function Take(s: seq<nat>, n: nat): seq<nat> { if n <= |s| then s[..n] else s }

  function StackAccess(s: seq<nat>, n: nat, a: nat): seq<nat>
    requires n > 0
  {
    if a in s then MoveFront(s, a) else [a] + Take(s, n - 1)
  }

  /** All addresses ever used, most recent first. */
  function Recency(h: seq<nat>): seq<nat> {
    if h == [] then [] else MoveFront(Recency(h[..|h| - 1]), h[|h| - 1])
  }

  // ------------------------------------------------------------------ removing from a sequence

  lemma {:induction false} WithoutSplit(u: seq<nat>, x: nat, v: seq<nat>)
    requires x !in u && x !in v
    ensures Without(u + [x] + v, x) == u + v
    decreases |u|
  {
    if u == [] {
      assert (u + [x] + v)[1..] == v;
      WithoutAbsent(v, x);
    } else {
      assert (u + [x] + v)[1..] == u[1..] + [x] + v;
      WithoutSplit(u[1..], x, v);
    }
  }

  lemma {:induction false} WithoutAbsent(s: seq<nat>, x: nat)
    requires x !in s
    ensures Without(s, x) == s
  {
    if s != [] { WithoutAbsent(s[1..], x); }
  }

  lemma SplitAt(s: seq<nat>, x: nat) returns (k: nat)
    requires Distinct(s) && x in s
    ensures k < |s| && s[k] == x && s == s[..k] + [x] + s[k + 1..]
    ensures x !in s[..k] && x !in s[k + 1..] && Without(s, x) == s[..k] + s[k + 1..]
  {
    k :| 0 <= k < |s| && s[k] == x;
    WithoutSplit(s[..k], x, s[k + 1..]);
    assert s == s[..k] + [x] + s[k + 1..];
  }

  lemma MoveFrontDistinct(s: seq<nat>, x: nat)
    requires Distinct(s)
    ensures Distinct(MoveFront(s, x))
  {
    if x in s { var k := SplitAt(s, x); } else { WithoutAbsent(s, x); }
  }

  // ------------------------------------------------------------------ the stack property

  lemma InclusionHit(u: seq<nat>, a: nat, v: seq<nat>, n: nat)
    requires a !in u && a !in v && |u| < n
    ensures MoveFront(Take(u + [a] + v, n), a) == Take([a] + (u + v), n)
  {
    var w := Take(v, n - |u| - 1);
    assert Take(u + [a] + v, n) == u + [a] + w;
    WithoutSplit(u, a, w);
    assert Take([a] + (u + v), n) == [a] + (u + w);
  }

  lemma InclusionMiss(r: seq<nat>, rest: seq<nat>, a: nat, n: nat)
    requires n > 0 && Take(rest, n - 1) == Take(r, n - 1)
    ensures [a] + Take(Take(r, n), n - 1) == Take([a] + rest, n)
  {
    assert Take(Take(r, n), n - 1) == Take(r, n - 1);
    assert Take([a] + rest, n) == [a] + Take(rest, n - 1);
  }

  /** A stack cut to `n` entries and a full one stay in step. */
  lemma StackInclusion(r: seq<nat>, n: nat, a: nat)
    requires Distinct(r) && n > 0
    ensures StackAccess(Take(r, n), n, a) == Take(MoveFront(r, a), n)
  {
    if a in r {
      var k := SplitAt(r, a);
      if k < n {
        assert Take(r, n)[k] == a;
        InclusionHit(r[..k], a, r[k + 1..], n);
      } else {
        assert Take(r[..k] + r[k + 1..], n - 1) == Take(r, n - 1);
        InclusionMiss(r, r[..k] + r[k + 1..], a, n);
      }
    } else {
      WithoutAbsent(r, a);
      InclusionMiss(r, r, a, n);
    }
  }

  lemma {:induction false} RecencyDistinct(h: seq<nat>)
    ensures Distinct(Recency(h))
    decreases |h|
  {
    if h != [] {
      RecencyDistinct(h[..|h| - 1]);
      MoveFrontDistinct(Recency(h[..|h| - 1]), h[|h| - 1]);
    }
  }

  lemma {:induction false} RecencyElements(h: seq<nat>, a: nat)
    ensures a in Recency(h) <==> a in h
    decreases |h|
  {
    if h != [] {
      var k := |h| - 1;
      assert h == h[..k] + [h[k]];
      RecencyElements(h[..k], a);
      RecencyDistinct(h[..k]);
      var r := Recency(h[..k]);
      if h[k] in r { var p := SplitAt(r, h[k]); } else { WithoutAbsent(r, h[k]); }
    }
  }

  // ------------------------------------------------------------------ the array follows the stack

  ghost predicate Ordered(order: seq<nat>, n: nat)
  {
    |order| == n && Distinct(order) && forall k :: 0 <= k < n ==> order[k] < n
  }

  ghost predicate Addresses(order: seq<nat>, addr: seq<nat>, s: seq<nat>)
    requires Ordered(order, |addr|)
  {
    forall k :: 0 <= k < |order| ==> addr[order[k]] == if k < |s| then s[k] else 0
  }

  ghost predicate Tabled(order: seq<nat>, table: map<nat, nat>, s: seq<nat>)
    requires |s| <= |order|
  {
    && (forall k :: 0 <= k < |s| ==> s[k] in table && table[s[k]] == order[k])
    && (forall a :: a in table ==> a in s)
  }

  /** The array has `n` lines and holds exactly the addresses `s`, most recent first. */
  ghost predicate Holds(l: Lru, n: nat, s: seq<nat>) {
    && n > 0 && |l.addr| == n && Ordered(l.order, n) && |s| <= n
    && Addresses(l.order, l.addr, s) && Tabled(l.order, l.table, s)
  }

  lemma HeldDistinct(l: Lru, n: nat, s: seq<nat>)
    requires Holds(l, n, s)
    ensures Distinct(s)
  {
    forall i, j | 0 <= i < j < |s|
      ensures s[i] != s[j]
    {
      assert l.order[i] != l.order[j];
    }
  }

  /** Position `k` moved to the front. */
  ghost function Rotated(s: seq<nat>, k: nat): (r: seq<nat>)
    requires k < |s|
    ensures |r| == |s|
    ensures forall i :: 0 <= i < |s| ==> r[i] == s[if i == 0 then k else if i <= k then i - 1 else i]
  {
    [s[k]] + s[..k] + s[k + 1..]
  }

  lemma MovedIsRotated(s: seq<nat>, k: nat)
    requires Distinct(s) && k < |s|
    ensures MoveFront(s, s[k]) == Rotated(s, k)
  {
    var p := SplitAt(s, s[k]);
  }

  lemma RotatedOrdered(order: seq<nat>, n: nat, k: nat)
    requires Ordered(order, n) && k < n
    ensures Ordered(Rotated(order, k), n)
  {
  }

  lemma HitAddresses(order: seq<nat>, addr: seq<nat>, s: seq<nat>, k: nat)
    requires Ordered(order, |addr|) && k < |s| <= |order| && Addresses(order, addr, s)
    ensures Ordered(Rotated(order, k), |addr|) && Addresses(Rotated(order, k), addr, Rotated(s, k))
  {
    RotatedOrdered(order, |addr|, k);
  }

  lemma HitTabled(order: seq<nat>, table: map<nat, nat>, s: seq<nat>, k: nat)
    requires k < |s| <= |order| && Tabled(order, table, s)
    ensures Tabled(Rotated(order, k), table, Rotated(s, k))
  {
    forall a | a in table
      ensures a in Rotated(s, k)
    {
      var i :| 0 <= i < |s| && s[i] == a;
      assert Rotated(s, k)[if i == k then 0 else if i < k then i + 1 else i] == a;
    }
  }

  lemma HitKeeps(l: Lru, n: nat, s: seq<nat>, a: nat)
    requires Holds(l, n, s) && a in l.table
    ensures Holds(Access(l, a), n, MoveFront(s, a))
  {
    HeldDistinct(l, n, s);
    var k :| 0 <= k < |s| && s[k] == a;
    MovedIsRotated(s, k);
    MovedIsRotated(l.order, k);
    HitAddresses(l.order, l.addr, s, k);
    HitTabled(l.order, l.table, s, k);
  }

  lemma MissMoved(order: seq<nat>, n: nat)
    requires n > 0 && Ordered(order, n)
    ensures MoveFront(order, order[n - 1]) == Rotated(order, n - 1) && Ordered(Rotated(order, n - 1), n)
  {
    MovedIsRotated(order, n - 1);
    RotatedOrdered(order, n, n - 1);
  }

  lemma MissAddressAt(order: seq<nat>, addr: seq<nat>, s: seq<nat>, a: nat, i: nat, k: nat, t: seq<nat>)
    requires 0 < k < |order| && |s| <= |order| && t == [a] + Take(s, |order| - 1)
    requires i < |addr| && order[k - 1] < |addr| && order[k - 1] != i
    requires addr[order[k - 1]] == if k - 1 < |s| then s[k - 1] else 0
    ensures addr[i := a][order[k - 1]] == if k < |t| then t[k] else 0
  {
  }

  lemma MissAddresses(order: seq<nat>, addr: seq<nat>, n: nat, s: seq<nat>, a: nat, o: seq<nat>)
    requires |addr| == n > 0 && Ordered(order, n) && |s| <= n && Addresses(order, addr, s)
    requires o == Rotated(order, n - 1) && Ordered(o, n)
    ensures Addresses(o, addr[order[n - 1] := a], [a] + Take(s, n - 1))
  {
    var i, t := order[n - 1], [a] + Take(s, n - 1);
    forall k | 0 <= k < n
      ensures addr[i := a][o[k]] == if k < |t| then t[k] else 0
    {
      if k == 0 {
        assert o[0] == i;
      } else {
        assert o[k] == order[k - 1];
        MissAddressAt(order, addr, s, a, i, k, t);
      }
    }
  }

  lemma MissTabled(order: seq<nat>, table: map<nat, nat>, n: nat, s: seq<nat>, a: nat, dropped: nat)
    requires |order| == n > 0 && |s| <= n && Tabled(order, table, s) && Distinct(s) && a !in table
    requires if |s| == n then dropped == s[n - 1] else dropped !in s
    ensures Tabled(Rotated(order, n - 1), (table - {dropped})[a := order[n - 1]], [a] + Take(s, n - 1))
  {
    var t := [a] + Take(s, n - 1);
    var table' := (table - {dropped})[a := order[n - 1]];
    forall k | 0 <= k < |t|
      ensures t[k] in table' && table'[t[k]] == Rotated(order, n - 1)[k]
    {
      if k > 0 { assert t[k] == s[k - 1]; }
    }
    forall x | x in table'
      ensures x in t
    {
      if x != a {
        var k :| 0 <= k < |s| && s[k] == x;
        assert t[k + 1] == x;
      }
    }
  }

  /** A miss drops the least recent address and nothing else, provided the address written in a line
      never used, 0, is not itself an address held. */
  lemma MissKeeps(l: Lru, n: nat, s: seq<nat>, a: nat)
    requires Holds(l, n, s) && a !in l.table && !(|s| < n && 0 in s)
    ensures Holds(Access(l, a), n, [a] + Take(s, n - 1))
  {
    HeldDistinct(l, n, s);
    MissMoved(l.order, n);
    MissAddresses(l.order, l.addr, n, s, a, Rotated(l.order, n - 1));
    MissTabled(l.order, l.table, n, s, a, l.addr[l.order[n - 1]]);
  }

  lemma AccessFollows(l: Lru, n: nat, s: seq<nat>, a: nat)
    requires Holds(l, n, s) && !(|s| < n && 0 in s && a !in s)
    ensures Holds(Access(l, a), n, StackAccess(s, n, a))
  {
    if a in s { HitKeeps(l, n, s, a); } else { MissKeeps(l, n, s, a); }
  }

  /** Filling a line never used while address 0 is held takes 0 out of the table. */
  lemma MissLosesZero(l: Lru, n: nat, s: seq<nat>, a: nat)
    requires Holds(l, n, s) && |s| < n && 0 in s && a !in s
    ensures 0 !in Access(l, a).table && 0 in StackAccess(s, n, a)
  {
    assert Take(s, n - 1) == s;
  }

  /** An access to the array is an access to a plain stack if and only if it does not fill a line never
      used while address 0 is held. */
  lemma AccessFollowsIff(l: Lru, n: nat, s: seq<nat>, a: nat)
    requires Holds(l, n, s)
    ensures Holds(Access(l, a), n, StackAccess(s, n, a)) <==> !(|s| < n && 0 in s && a !in s)
  {
    if |s| < n && 0 in s && a !in s {
      MissLosesZero(l, n, s, a);
      var t := StackAccess(s, n, a);
      var k :| 0 <= k < |t| && t[k] == 0;
      assert !(t[k] in Access(l, a).table);
    } else {
      AccessFollows(l, n, s, a);
    }
  }

  // ------------------------------------------------------------------ whole histories

  function Empty(n: nat): Lru { Lru(seq(n, i => n - 1 - i), seq(n, _ => 0), map[]) }

  /** The array after the accesses of `h`. */
  ghost function Run(n: nat, h: seq<nat>): (r: Lru)
    requires n > 0
    ensures Shape(r)
    decreases |h|
  {
    if h == [] then Empty(n) else Access(Run(n, h[..|h| - 1]), h[|h| - 1])
  }

  /** The access at position `j` fills a line never used while address 0 has been used before. */
  ghost predicate ForgetsZero(n: nat, h: seq<nat>, j: nat)
    requires j < |h|
  {
    0 in h[..j] && h[j] !in h[..j] && |Recency(h[..j])| < n
  }

  ghost predicate ExactlyRecent(n: nat, h: seq<nat>)
    requires n > 0
  {
    forall a :: a in Run(n, h).table <==> a in Take(Recency(h), n)
  }

  lemma ForgetsIff(n: nat, h: seq<nat>, j: nat)
    requires j < |h| && n > 0
    ensures var s := Take(Recency(h[..j]), n);
      ForgetsZero(n, h, j) <==> |s| < n && 0 in s && h[j] !in s
  {
    RecencyElements(h[..j], 0);
    RecencyElements(h[..j], h[j]);
  }

  lemma EmptyHolds(n: nat)
    requires n > 0
    ensures Holds(Empty(n), n, [])
  {
  }

  /** As long as no access forgets address 0, the array holds exactly the `n` most recently used
      addresses in order of recency; so the line it replaces is the least recently used one. */
  lemma {:induction false} HoldsMostRecent(n: nat, h: seq<nat>)
    requires n > 0 && (forall j :: 0 <= j < |h| ==> !ForgetsZero(n, h, j))
    ensures Holds(Run(n, h), n, Take(Recency(h), n))
    decreases |h|
  {
    if h == [] {
      EmptyHolds(n);
    } else {
      var k := |h| - 1;
      forall j | 0 <= j < k
        ensures !ForgetsZero(n, h[..k], j)
      {
        assert h[..k][..j] == h[..j] && !ForgetsZero(n, h, j);
      }
      HoldsMostRecent(n, h[..k]);
      ForgetsIff(n, h, k);
      AccessFollows(Run(n, h[..k]), n, Take(Recency(h[..k]), n), h[k]);
      RecencyDistinct(h[..k]);
      StackInclusion(Recency(h[..k]), n, h[k]);
    }
  }

  /** The first access that forgets address 0 leaves it out of the table although it is recent. */
  lemma ForgottenZero(n: nat, h: seq<nat>, j: nat)
    requires n > 0 && j < |h| && ForgetsZero(n, h, j) && (forall i :: 0 <= i < j ==> !ForgetsZero(n, h, i))
    ensures 0 !in Run(n, h[..j + 1]).table && 0 in Take(Recency(h[..j + 1]), n)
  {
    var g := h[..j + 1];
    assert g[..j] == h[..j];
    forall i | 0 <= i < j
      ensures !ForgetsZero(n, g[..j], i)
    {
      assert g[..j][..i] == h[..i] && !ForgetsZero(n, h, i);
    }
    HoldsMostRecent(n, g[..j]);
    ForgetsIff(n, h, j);
    MissLosesZero(Run(n, g[..j]), n, Take(Recency(g[..j]), n), g[j]);
    RecencyDistinct(g[..j]);
    StackInclusion(Recency(g[..j]), n, g[j]);
  }

  /** Over a whole history the table is exactly the set of the `n` most recent addresses, at every
      moment, if and only if no access fills an unused line after address 0 was used. */
  lemma ExactlyRecentIff(n: nat, h: seq<nat>)
    requires n > 0
    ensures (forall j :: 0 <= j <= |h| ==> ExactlyRecent(n, h[..j])) <==>
      (forall j :: 0 <= j < |h| ==> !ForgetsZero(n, h, j))
  {
    if j: nat :| j < |h| && ForgetsZero(n, h, j) {
      var i := FirstForgets(n, h, j);
      ForgottenZero(n, h, i);
      assert !ExactlyRecent(n, h[..i + 1]);
    } else {
      forall j: nat | j <= |h|
        ensures ExactlyRecent(n, h[..j])
      {
        forall i | 0 <= i < j
          ensures !ForgetsZero(n, h[..j], i)
        {
          assert h[..j][..i] == h[..i] && !ForgetsZero(n, h, i);
        }
        HoldsMostRecent(n, h[..j]);
      }
    }
  }

  lemma FirstForgets(n: nat, h: seq<nat>, j: nat) returns (i: nat)
    requires j < |h| && ForgetsZero(n, h, j)
    ensures i < |h| && ForgetsZero(n, h, i) && forall k :: 0 <= k < i ==> !ForgetsZero(n, h, k)
  {
    i := 0;
    while !ForgetsZero(n, h, i)
      invariant i <= j && forall k :: 0 <= k < i ==> !ForgetsZero(n, h, k)
      decreases j - i
    {
      i := i + 1;
    }
  }
}

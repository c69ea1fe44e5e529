/**
 The two clock domains of the DDR controller: events run on system cycles, commands on memory cycles.

 Cycles are unbounded here; the products of a cycle and a frequency are not cut to 64 bits.
 */
module DdrClock {
  import opened Arithmetic

  datatype Clock = Clock(sysFreq: nat, memFreq: nat) {
    /** What the constructor of the controller insists on: `memFreq < sysFreq / 2`. */
    ghost predicate Valid() {
      0 < memFreq && 2 * memFreq < sysFreq
    }

    function SysToMem(sysCycle: nat): (m: nat)
      requires Valid()
      ensures m > 0
    {
      assert sysCycle * memFreq >= 0 by { MulMonotone(0, sysCycle, memFreq); }
      sysCycle * memFreq / sysFreq + 1
    }

    function MemToSys(memCycle: nat): (s: nat)
      requires Valid()
    {
      assert (memCycle + 1) * sysFreq >= 0 by { MulMonotone(0, memCycle + 1, sysFreq); }
      (memCycle + 1) * sysFreq / memFreq
    }

    function MatchingMemToSys(memCycle: nat): (s: nat)
      requires Valid() && memCycle > 0
    {
      assert (2 * memCycle - 1) * sysFreq >= 0 by { MulMonotone(0, 2 * memCycle - 1, sysFreq); }
      (2 * memCycle - 1) * sysFreq / memFreq / 2
    }
  }

  /** Half of the quotient, times the divisor, is less than twice the divisor away from half of `k`. */
  lemma HalvedQuotient(k: nat, d: nat, q: nat, s: nat)
    requires d > 0 && q == k / d && s == q / 2
    ensures k - 2 * d < 2 * (s * d) <= k
  {
    assert k == q * d + k % d;
    assert q == 2 * s + q % 2;
    assert q * d == 2 * (s * d) + (q % 2) * d;
    assert (q % 2) * d <= d;
  }

  /** The chosen system cycle translates back to the memory cycle it was made for. */
  lemma RoundTrip(c: Clock, m: nat)
    requires c.Valid() && m > 0
    ensures c.SysToMem(c.MatchingMemToSys(m)) == m
  {
    var sf, mf := c.sysFreq, c.memFreq;
    var k := (2 * m - 1) * sf;
    var s := k / mf / 2;
    HalvedQuotient(k, mf, k / mf, s);
    // k is an odd multiple of sf
    assert k == 2 * ((m - 1) * sf) + sf;
    assert (m - 1) * sf <= s * mf < (m - 1) * sf + sf;
    DivUnique(s * mf, sf, m - 1);
  }

  /** It is the last one that is not past the middle of the memory cycle. */
  lemma MatchingIsMiddle(c: Clock, m: nat)
    requires c.Valid() && m > 0
    ensures var s := c.MatchingMemToSys(m); 2 * (s * c.memFreq) <= (2 * m - 1) * c.sysFreq < 2 * ((s + 1) * c.memFreq)
  {
    var k, s := (2 * m - 1) * c.sysFreq, c.MatchingMemToSys(m);
    HalvedQuotient(k, c.memFreq, k / c.memFreq, s);
    assert (s + 1) * c.memFreq == s * c.memFreq + c.memFreq;
  }

  lemma SysToMemMonotone(c: Clock, s: nat, t: nat)
    requires c.Valid() && s <= t
    ensures c.SysToMem(s) <= c.SysToMem(t)
  {
    MulMonotone(s, t, c.memFreq);
    DivMonotone(s * c.memFreq, t * c.memFreq, c.sysFreq);
  }

  /** A memory cycle is over, in system cycles, at the last one that is not past its end: nothing before it
      falls into a later memory cycle than the next, and it is not in the cycle itself any more. */
  lemma MemToSysIs(c: Clock, m: nat)
    requires c.Valid()
    ensures var s := c.MemToSys(m); s * c.memFreq <= (m + 1) * c.sysFreq < (s + 1) * c.memFreq
    ensures m < c.SysToMem(c.MemToSys(m)) <= m + 2
  {
    var s, k := c.MemToSys(m), (m + 1) * c.sysFreq;
    assert k == s * c.memFreq + k % c.memFreq;
    assert (s + 1) * c.memFreq == s * c.memFreq + c.memFreq;
    assert k == m * c.sysFreq + c.sysFreq;
    DivMonotone(m * c.sysFreq, s * c.memFreq, c.sysFreq);
    DivMonotone(s * c.memFreq, k, c.sysFreq);
    DivUnique(m * c.sysFreq, c.sysFreq, m);
    DivUnique(k, c.sysFreq, m + 1);
  }

  /** The system cycle an event for memory cycle `m` is queued at, seen from system cycle `now`. */
  function EventCycle(c: Clock, m: nat, now: nat): (s: nat)
    requires c.Valid() && m > 0
    ensures s >= now
  {
    var x := c.MatchingMemToSys(m);
    if x > now then x else now
  }

  /** An event queued for a memory cycle that is not past arrives exactly in that memory cycle, and
      never at system cycle 0, which stands for "no event". */
  lemma EventArrivesOnTime(c: Clock, m: nat, now: nat)
    requires c.Valid() && m >= c.SysToMem(now)
    ensures c.SysToMem(EventCycle(c, m, now)) == m && EventCycle(c, m, now) > 0
    ensures EventCycle(c, m, now) == if c.MatchingMemToSys(m) > now then c.MatchingMemToSys(m) else now
  {
    RoundTrip(c, m);
    var x := c.MatchingMemToSys(m);
    if x <= now { SysToMemMonotone(c, x, now); }
    MatchingPositive(c, m);
  }

  lemma MatchingPositive(c: Clock, m: nat)
    requires c.Valid() && m > 0
    ensures c.MatchingMemToSys(m) > 0
  {
    var sf, mf := c.sysFreq, c.memFreq;
    MulMonotone(1, 2 * m - 1, sf);
    DivMonotone(2 * mf, (2 * m - 1) * sf, mf);
    DivUnique(2 * mf, mf, 2);
  }

  /** A response that is ready at a memory cycle not before now is never due in the past. */
  lemma ResponseNotPast(c: Clock, m: nat, now: nat)
    requires c.Valid() && m >= c.SysToMem(now)
    ensures c.MemToSys(m) >= now
  {
    var sf, mf := c.sysFreq, c.memFreq;
    var q := now * mf / sf;
    assert now * mf == q * sf + now * mf % sf && (q + 1) * sf == q * sf + sf;
    MulMonotone(q + 1, m + 1, sf);
    DivMonotone(now * mf, (m + 1) * sf, mf);
    DivUnique(now * mf, mf, now);
  }
}

/**
 The idealised LRU array: a line per entry, the entries chained by recency, a table by address.
 */
module IdealLru {
  import opened IntrusiveList
  import opened LruModel

  function Ids(nodes: seq<Entry>): (r: seq<nat>)
    ensures |r| == |nodes| && forall i :: 0 <= i < |nodes| ==> r[i] == nodes[i].lineId
  {
    seq(|nodes|, i requires 0 <= i < |nodes| => nodes[i].lineId)
  }

  ghost function Addrs(lines: seq<Entry>): (r: seq<nat>)
    reads lines
    ensures |r| == |lines| && forall i :: 0 <= i < |lines| ==> r[i] == lines[i].lineAddr
  {
    seq(|lines|, i requires 0 <= i < |lines| reads lines => lines[i].lineAddr)
  }

  ghost predicate IsLine(lines: seq<Entry>, e: Entry) {
    e.lineId < |lines| && lines[e.lineId] == e
  }

  /** The chain threads every line once. */
  ghost predicate Threads(lines: seq<Entry>, nodes: seq<Entry>) {
    && |nodes| == |lines|
    && (forall i :: 0 <= i < |lines| ==> lines[i].lineId == i && lines[i] in nodes)
    && (forall k :: 0 <= k < |nodes| ==> IsLine(lines, nodes[k]))
    && (forall i, j :: 0 <= i < j < |nodes| ==> nodes[i] != nodes[j])
  }

  lemma ThreadsOrdered(lines: seq<Entry>, nodes: seq<Entry>)
    requires Threads(lines, nodes)
    ensures Ordered(Ids(nodes), |lines|)
  {
    forall i, j | 0 <= i < j < |nodes|
      ensures Ids(nodes)[i] != Ids(nodes)[j]
    {
      assert IsLine(lines, nodes[i]) && IsLine(lines, nodes[j]);
    }
  }

  ghost function Front(nodes: seq<Entry>, k: nat): (r: seq<Entry>)
    requires k < |nodes|
    ensures |r| == |nodes|
    ensures forall i :: 0 <= i < |nodes| ==> r[i] == nodes[if i == 0 then k else if i <= k then i - 1 else i]
  {
    [nodes[k]] + (nodes[..k] + nodes[k + 1..])
  }

  lemma FrontThreads(lines: seq<Entry>, nodes: seq<Entry>, k: nat)
    requires Threads(lines, nodes) && k < |nodes|
    ensures Threads(lines, Front(nodes, k))
  {
    forall i | 0 <= i < |lines|
      ensures lines[i] in Front(nodes, k)
    {
      var j :| 0 <= j < |nodes| && nodes[j] == lines[i];
      assert Front(nodes, k)[if j == k then 0 else if j < k then j + 1 else j] == lines[i];
    }
  }

  lemma FrontIds(nodes: seq<Entry>, k: nat)
    requires k < |nodes|
    ensures Ids(Front(nodes, k)) == Rotated(Ids(nodes), k)
  {
  }

  lemma Moved(lines: seq<Entry>, nodes: seq<Entry>, k: nat)
    requires Threads(lines, nodes) && k < |nodes|
    ensures Threads(lines, Front(nodes, k)) && Ids(Front(nodes, k)) == MoveFront(Ids(nodes), nodes[k].lineId)
  {
    ThreadsOrdered(lines, nodes);
    MovedIsRotated(Ids(nodes), k);
    FrontIds(nodes, k);
    FrontThreads(lines, nodes, k);
  }

  /** Remove and push: the element at position `k` becomes the first. */
  method Refresh(list: InList, e: Entry, ghost k: nat)
    requires list.Valid() && k < |list.nodes| && list.nodes[k] == e
    modifies list, list.nodes`next, list.nodes`prev, list.nodes`owner
    ensures list.Valid() && list.nodes == Front(old(list.nodes), k)
  {
    list.Remove(e, k);
    list.PushFront(e);
  }

  method NewLines(n: nat) returns (es: seq<Entry>, l: InList)
    ensures |es| == n && l.Valid() && fresh(l) && fresh(l.nodes)
    ensures forall k :: 0 <= k < n ==> es[k].lineId == k && es[k].lineAddr == 0
    ensures |l.nodes| == n && forall k :: 0 <= k < n ==> l.nodes[k] == es[n - 1 - k]
  {
    es := [];
    l := new InList();
    for i := 0 to n
      invariant |es| == i && l.Valid() && fresh(l) && fresh(es) && fresh(l.nodes)
      invariant forall k :: 0 <= k < i ==> es[k].lineId == k && es[k].lineAddr == 0
      invariant |l.nodes| == i && forall k :: 0 <= k < i ==> l.nodes[k] == es[i - 1 - k]
    {
      var e := new Entry(i);
      l.PushFront(e);
      es := es + [e];
    }
  }

  lemma NewThreads(es: seq<Entry>, nodes: seq<Entry>, n: nat)
    requires |es| == |nodes| == n && (forall k :: 0 <= k < n ==> es[k].lineId == k)
    requires forall k :: 0 <= k < n ==> nodes[k] == es[n - 1 - k]
    ensures Threads(es, nodes) && Ids(nodes) == Empty(n).order
  {
    forall i | 0 <= i < n
      ensures es[i] in nodes
    {
      assert nodes[n - 1 - i] == es[i];
    }
  }

  class IdealArray {
    const lines: seq<Entry>
    const lruList: InList
    var lineMap: map<nat, nat>

    ghost predicate Valid()
      reads this, lruList, lruList.nodes`next, lruList.nodes`prev, lruList.nodes`owner
    {
      && lines != []
      && lruList.Valid()
      && Threads(lines, lruList.nodes)
      && forall a :: a in lineMap ==> lineMap[a] < |lines|
    }

    ghost function View(): Lru
      reads this, lruList, lines
    {
      Lru(Ids(lruList.nodes), Addrs(lines), lineMap)
    }

    constructor (numLines: nat)
      requires numLines > 0
      ensures Valid() && View() == Empty(numLines)
      ensures fresh(lruList) && fresh(lruList.nodes)
    {
      var es, l := NewLines(numLines);
      NewThreads(es, l.nodes, numLines);
      lines, lruList, lineMap := es, l, map[];
    }

    /** The chain position of a line. */
    ghost function Position(id: nat): (k: nat)
      requires Valid() && id < |lines|
      reads this, lruList, lruList.nodes`next, lruList.nodes`prev, lruList.nodes`owner
      ensures k < |lruList.nodes| && lruList.nodes[k] == lines[id]
    {
      assert lines[id] in lruList.nodes;
      var k: nat :| k < |lruList.nodes| && lruList.nodes[k] == lines[id];
      k
    }

    method Promote(id: nat)
      requires Valid() && id < |lines|
      modifies lruList, lruList.nodes`next, lruList.nodes`prev, lruList.nodes`owner
      ensures Valid() && Ids(lruList.nodes) == MoveFront(old(Ids(lruList.nodes)), id)
    {
      ghost var k, nodes := Position(id), lruList.nodes;
      Refresh(lruList, lines[id], k);
      Moved(lines, nodes, k);
    }

    method Lookup(a: nat, updateReplacement: bool) returns (r: int)
      requires Valid()
      modifies lruList, lruList.nodes`next, lruList.nodes`prev, lruList.nodes`owner
      ensures Valid()
      ensures r == if a in old(View()).table then old(View()).table[a] else -1
      ensures View() == if r >= 0 && updateReplacement then Touch(old(View()), r) else old(View())
    {
      if a !in lineMap { return -1; }
      r := lineMap[a];
      if updateReplacement { Promote(r); }
    }

    /** The victim is the last line of the order; its old address is to be written back. */
    method Preinsert() returns (id: nat, wbLineAddr: nat)
      requires Valid()
      ensures id == View().order[|lines| - 1] && id < |lines| && wbLineAddr == View().addr[id]
    {
      var e := lruList.tail;
      assert IsLine(lines, lruList.nodes[|lines| - 1]);
      id, wbLineAddr := e.lineId, e.lineAddr;
    }

    /** The line's address and its table entry change. */
    method Retag(a: nat, id: nat)
      requires Valid() && id < |lines|
      modifies `lineMap, lines`lineAddr
      ensures Valid()
      ensures View().addr == old(View()).addr[id := a]
      ensures View().table == (old(View()).table - {old(View()).addr[id]})[a := id]
    {
      var e := lines[id];
      lineMap := lineMap - {e.lineAddr};
      e.lineAddr := a;
      lineMap := lineMap[a := id];
    }

    method Postinsert(a: nat, id: nat)
      requires Valid() && id < |lines| && a !in View().table - {View().addr[id]}
      modifies `lineMap, lines`lineAddr, lruList, lruList.nodes`next, lruList.nodes`prev, lruList.nodes`owner
      ensures Valid() && View() == Fill(old(View()), id, a)
    {
      Retag(a, id);
      Promote(id);
    }

    /** A whole access, as the cache drives it: look up, and on a miss replace the victim. */
    method Use(a: nat)
      requires Valid()
      modifies `lineMap, lines`lineAddr, lruList, lruList.nodes`next, lruList.nodes`prev, lruList.nodes`owner
      ensures Valid() && Shape(old(View())) && View() == Access(old(View()), a)
    {
      ViewShape();
      var r := Lookup(a, true);
      if r < 0 {
        var id, wb := Preinsert();
        Postinsert(a, id);
      }
    }

    lemma ViewShape()
      requires Valid()
      ensures Shape(View())
    {
      ThreadsOrdered(lines, lruList.nodes);
    }
  }
}

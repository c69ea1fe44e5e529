/**
 The intrusive doubly linked list: the links are fields of the elements themselves.
 */
module IntrusiveList {

  class Entry {
    const lineId: nat
    var lineAddr: nat
    var next: Entry?
    var prev: Entry?
    var owner: InList?

    constructor (lineId: nat)
      ensures this.lineId == lineId && lineAddr == 0 && Unlinked()
    {
      this.lineId := lineId;
      lineAddr, next, prev, owner := 0, null, null, null;
    }

    ghost predicate Unlinked()
      reads this
    {
      next == null && prev == null && owner == null
    }
  }

  /** The element at position `i`, or null outside the sequence. */
  ghost function At(s: seq<Entry>, i: int): Entry? {
    if 0 <= i < |s| then s[i] else null
  }

  class InList {
    var head: Entry?
    var tail: Entry?
    var elems: nat
    ghost var nodes: seq<Entry>

    ghost predicate Linked(i: nat)
      reads `nodes, nodes`next, nodes`prev, nodes`owner
    {
      i < |nodes| ==>
        && nodes[i].owner == this
        && nodes[i].next == At(nodes, i + 1)
        && nodes[i].prev == At(nodes, i - 1)
    }

    /** The links spell out `nodes`, each element once. */
    ghost predicate Chain()
      reads `nodes, nodes`next, nodes`prev, nodes`owner
    {
      && (forall i, j :: 0 <= i < j < |nodes| ==> nodes[i] != nodes[j])
      && (forall i: nat :: Linked(i))
    }

    ghost predicate Valid()
      reads this, nodes`next, nodes`prev, nodes`owner
    {
      && Chain()
      && elems == |nodes|
      && head == At(nodes, 0)
      && tail == At(nodes, |nodes| - 1)
    }

    constructor ()
      ensures Valid() && nodes == []
    {
      head, tail, elems, nodes := null, null, 0, [];
    }

    /** No element of the list is unlinked, so a new element is not there yet. */
    lemma Absent(e: Entry)
      requires Chain() && e.owner == null
      ensures e !in nodes
    {
      forall i: nat | i < |nodes|
        ensures nodes[i] != e
      {
        assert Linked(i);
      }
    }

    /** Takes an element out of the chain, wherever it is, in constant time; the two ends are left to
        the caller. */
    method Unlink(e: Entry, ghost i: nat)
      requires Chain() && i < |nodes| && nodes[i] == e
      modifies `nodes, nodes`prev, nodes`next, e`owner
      ensures Chain() && nodes == old(nodes[..i] + nodes[i + 1..])
      ensures e.Unlinked()
    {
      assert Linked(i) && At(nodes, i + 1) == e.next && At(nodes, i - 1) == e.prev;
      if e.next != null { e.next.prev := e.prev; }
      if e.prev != null { e.prev.next := e.next; }
      e.next, e.prev, e.owner := null, null, null;
      nodes := nodes[..i] + nodes[i + 1..];
      forall j: nat
        ensures Linked(j)
      {
        if j < i { assert old(Linked(j)); } else if j < |nodes| { assert old(Linked(j + 1)); }
      }
    }

    /** Links `e` in behind the element `p`; the two ends are left to the caller. */
    method LinkPrev(e: Entry, p: Entry, ghost i: nat)
      requires Chain() && e.Unlinked() && i < |nodes| && nodes[i] == p
      modifies `nodes, nodes`prev, nodes`next, e`prev, e`next, e`owner
      ensures Chain() && nodes == old(nodes[..i + 1] + [e] + nodes[i + 1..])
    {
      Absent(e);
      assert Linked(i) && Linked(i + 1);
      if p.next != null {
        p.next.prev := e;
        e.next := p.next;
      }
      p.next := e;
      e.prev := p;
      e.owner := this;
      nodes := nodes[..i + 1] + [e] + nodes[i + 1..];
      forall j: nat
        ensures Linked(j)
      {
        if j <= i { assert old(Linked(j)); } else if i + 1 < j < |nodes| { assert old(Linked(j - 1)); }
      }
    }

    method PushFront(e: Entry)
      requires Valid() && e.Unlinked()
      modifies this, nodes`prev, e`next, e`owner
      ensures Valid() && nodes == [e] + old(nodes)
    {
      Absent(e);
      assert Linked(0);
      if head == null {
        head, tail := e, e;
      } else {
        e.next := head;
        head.prev := e;
        head := e;
      }
      e.owner := this;
      elems := elems + 1;
      nodes := [e] + nodes;
      forall i: nat
        ensures Linked(i)
      {
        if 0 < i < |nodes| { assert old(Linked(i - 1)); }
      }
    }

    method PushBack(e: Entry)
      requires Valid() && e.Unlinked()
      modifies this, nodes`prev, nodes`next, e`prev, e`next, e`owner
      ensures Valid() && nodes == old(nodes) + [e]
    {
      if head == null {
        head, tail := e, e;
        e.owner := this;
        nodes := [e];
      } else {
        LinkPrev(e, tail, |nodes| - 1);
        tail := e;
      }
      elems := elems + 1;
    }

    method PopFront()
      requires Valid()
      modifies this, nodes`prev, nodes`next, nodes`owner
      ensures Valid() && nodes == if old(nodes) == [] then [] else old(nodes)[1..]
    {
      if head == null { return; }
      assert Linked(0);
      var e := head;
      head := e.next;
      Unlink(e, 0);
      if head == null { tail := null; }
      elems := elems - 1;
    }

    method PopBack()
      requires Valid()
      modifies this, nodes`prev, nodes`next, nodes`owner
      ensures Valid() && nodes == if old(nodes) == [] then [] else old(nodes)[..|old(nodes)| - 1]
    {
      if head == null { return; }
      assert Linked(|nodes| - 1);
      var e := tail;
      tail := e.prev;
      Unlink(e, |nodes| - 1);
      if tail == null { head := null; }
      elems := elems - 1;
    }

    method Remove(e: Entry, ghost i: nat)
      requires Valid() && i < |nodes| && nodes[i] == e
      modifies this, nodes`prev, nodes`next, e`owner
      ensures Valid() && nodes == old(nodes[..i] + nodes[i + 1..])
      ensures e.Unlinked()
    {
      assert Linked(i);
      if e == head { head := e.next; }
      if e == tail { tail := e.prev; }
      Unlink(e, i);
      elems := elems - 1;
    }

    method InsertAfter(p: Entry, e: Entry, ghost i: nat)
      requires Valid() && e.Unlinked() && i < |nodes| && nodes[i] == p
      modifies this, nodes`prev, nodes`next, e`prev, e`next, e`owner
      ensures Valid() && nodes == old(nodes[..i + 1] + [e] + nodes[i + 1..])
    {
      LinkPrev(e, p, i);
      if p == tail { tail := e; }
      elems := elems + 1;
    }
  }
}

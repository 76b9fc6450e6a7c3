/** Circle's doubly linked list of pointers. */
module PtrList {
  /** An address. */
  type Ptr = nat

  class Element {
    var prev: Element?
    var next: Element?
    const ptr: Ptr

    constructor (ptr: Ptr, prev: Element?, next: Element?)
      ensures this.ptr == ptr && this.prev == prev && this.next == next
    {
      this.ptr, this.prev, this.next := ptr, prev, next;
    }
  }

  /** The element before the i-th one, and the i-th one itself; null beyond the ends. */
  ghost function Elem(nodes: seq<Element>, i: int): Element? {
    if 0 <= i < |nodes| then nodes[i] else null
  }

  predicate Apart(nodes: seq<Element>) {
    forall i, j :: 0 <= i < j < |nodes| ==> nodes[i] != nodes[j]
  }

  /** Each element refers to its neighbours. */
  ghost predicate Chained(nodes: seq<Element>)
    reads nodes
  {
    forall i :: 0 <= i < |nodes| ==> nodes[i].prev == Elem(nodes, i - 1) && nodes[i].next == Elem(nodes, i + 1)
  }

  lemma ChainInsert(nodes: seq<Element>, i: nat, e: Element)
    requires Apart(nodes) && e !in nodes && i <= |nodes| && e.prev == Elem(nodes, i - 1) && e.next == Elem(nodes, i)
    requires forall j :: 0 <= j < |nodes| ==> nodes[j].prev == if j == i then e else Elem(nodes, j - 1)
    requires forall j :: 0 <= j < |nodes| ==> nodes[j].next == if j == i - 1 then e else Elem(nodes, j + 1)
    ensures var nodes' := nodes[..i] + [e] + nodes[i..]; Apart(nodes') && Chained(nodes')
  {
    var nodes' := nodes[..i] + [e] + nodes[i..];
    ApartInsert(nodes, i, e);
    hide Elem, Apart;
    forall k | 0 <= k < |nodes'|
      ensures nodes'[k].prev == Elem(nodes', k - 1) && nodes'[k].next == Elem(nodes', k + 1)
    {
      assert nodes'[k] == if k < i then nodes[k] else if k == i then e else nodes[k - 1];
      ElemInsert(nodes, i, e, k - 1);
      ElemInsert(nodes, i, e, k + 1);
    }
  }

  lemma ElemInsert(nodes: seq<Element>, i: nat, e: Element, k: int)
    requires i <= |nodes|
    ensures Elem(nodes[..i] + [e] + nodes[i..], k) ==
      if k < i then Elem(nodes, k) else if k == i then e else Elem(nodes, k - 1)
  {
  }

  lemma ApartInsert(nodes: seq<Element>, i: nat, e: Element)
    requires Apart(nodes) && e !in nodes && i <= |nodes|
    ensures Apart(nodes[..i] + [e] + nodes[i..])
  {
    var nodes' := nodes[..i] + [e] + nodes[i..];
    assert forall k :: 0 <= k < |nodes'| ==>
      nodes'[k] == if k < i then nodes[k] else if k == i then e else nodes[k - 1];
  }

  /** The elements around the i-th one refer to each other. */
  ghost predicate Bypassed(nodes: seq<Element>, i: nat)
    reads nodes
  {
    forall j :: 0 <= j < |nodes| && j != i ==>
      && nodes[j].prev == Elem(nodes, if j == i + 1 then i - 1 else j - 1)
      && nodes[j].next == Elem(nodes, if j == i - 1 then i + 1 else j + 1)
  }

  lemma ChainRemoveAt(nodes: seq<Element>, i: nat, k: nat)
    requires i < |nodes| && k < |nodes| - 1 && Bypassed(nodes, i)
    ensures var nodes' := nodes[..i] + nodes[i + 1..];
      nodes'[k].prev == Elem(nodes', k - 1) && nodes'[k].next == Elem(nodes', k + 1)
  {
    hide Elem;
    ElemRemove(nodes, i, k - 1);
    ElemRemove(nodes, i, k + 1);
    var j := if k < i then k else k + 1;
    assert (nodes[..i] + nodes[i + 1..])[k] == nodes[j];
  }

  lemma ChainRemove(nodes: seq<Element>, i: nat)
    requires Apart(nodes) && i < |nodes|
    requires forall j :: 0 <= j < |nodes| && j != i ==>
      nodes[j].prev == Elem(nodes, if j == i + 1 then i - 1 else j - 1)
    requires forall j :: 0 <= j < |nodes| && j != i ==>
      nodes[j].next == Elem(nodes, if j == i - 1 then i + 1 else j + 1)
    ensures var nodes' := nodes[..i] + nodes[i + 1..]; Apart(nodes') && Chained(nodes')
  {
    ApartRemove(nodes, i);
    hide Elem, Apart;
    var nodes' := nodes[..i] + nodes[i + 1..];
    forall k | 0 <= k < |nodes'|
      ensures nodes'[k].prev == Elem(nodes', k - 1) && nodes'[k].next == Elem(nodes', k + 1)
    {
      ChainRemoveAt(nodes, i, k);
    }
  }

  lemma ElemRemove(nodes: seq<Element>, i: nat, k: int)
    requires i < |nodes|
    ensures Elem(nodes[..i] + nodes[i + 1..], k) == Elem(nodes, if k < i then k else k + 1)
  {
  }

  lemma ApartRemove(nodes: seq<Element>, i: nat)
    requires Apart(nodes) && i < |nodes|
    ensures Apart(nodes[..i] + nodes[i + 1..])
  {
    var nodes' := nodes[..i] + nodes[i + 1..];
    assert forall k :: 0 <= k < |nodes'| ==> nodes'[k] == nodes[if k < i then k else k + 1];
  }

  ghost function Members(nodes: seq<Element>): set<Element> {
    set n | n in nodes
  }

  lemma MembersInsert(nodes: seq<Element>, i: nat, e: Element)
    requires i <= |nodes|
    ensures Members(nodes[..i] + [e] + nodes[i..]) == Members(nodes) + {e}
  {
    assert nodes == nodes[..i] + nodes[i..];
  }

  lemma MembersRemove(nodes: seq<Element>, i: nat)
    requires i < |nodes| && Apart(nodes)
    ensures Members(nodes[..i] + nodes[i + 1..]) == Members(nodes) - {nodes[i]}
  {
    assert nodes == nodes[..i] + [nodes[i]] + nodes[i + 1..];
    ApartHalves(nodes, i);
  }

  lemma ApartHalves(nodes: seq<Element>, i: nat)
    requires i < |nodes| && Apart(nodes)
    ensures nodes[i] !in nodes[..i] + nodes[i + 1..]
  {
  }

  lemma InMembers(nodes: seq<Element>)
    ensures forall k :: 0 <= k < |nodes| ==> nodes[k] in Members(nodes)
  {
  }

  /** What the neighbours of a place are. */
  lemma ElemAt(nodes: seq<Element>, i: int)
    requires -1 <= i <= |nodes|
    ensures Elem(nodes, i) == null <==> i == -1 || i == |nodes|
    ensures 0 <= i < |nodes| ==> Elem(nodes, i) == nodes[i] && nodes[i] in Members(nodes)
  {
  }

  /** Other places hold other elements. */
  lemma ApartFrom(nodes: seq<Element>, i: int)
    requires Apart(nodes)
    ensures forall j :: 0 <= i < |nodes| && 0 <= j < |nodes| && j != i ==> nodes[j] != Elem(nodes, i)
  {
  }

  class PtrList {
    var first: Element?
    ghost var nodes: seq<Element>
    ghost var repr: set<Element>

    ghost predicate Valid()
      reads this, repr
    {
      repr == Members(nodes) && first == Elem(nodes, 0) && Apart(nodes) && Chained(nodes)
    }

    constructor ()
      ensures Valid() && nodes == []
    {
      first, nodes, repr := null, [], {};
    }

    method GetFirst() returns (e: Element?)
      requires Valid()
      ensures e == Elem(nodes, 0)
    {
      e := first;
    }

    method GetNext(e: Element, ghost i: nat) returns (n: Element?)
      requires Valid() && i < |nodes| && nodes[i] == e
      ensures n == Elem(nodes, i + 1)
    {
      n := e.next;
    }

    method GetPtr(e: Element) returns (p: Ptr)
      ensures p == e.ptr
    {
      p := e.ptr;
    }

    method InsertBefore(after: Element, ptr: Ptr, ghost i: nat) returns (e: Element)
      requires Valid() && i < |nodes| && nodes[i] == after
      modifies this, repr
      ensures Valid() && fresh(e) && repr == old(repr) + {e} && e.ptr == ptr &&
        nodes == old(nodes[..i] + [e] + nodes[i..])
    {
      hide Members, Elem, Apart;
      InMembers(nodes);
      ElemAt(nodes, i - 1);
      ElemAt(nodes, 0);
      ElemAt(nodes, i);
      ApartFrom(nodes, i - 1);
      ApartFrom(nodes, i);
      ApartFrom(nodes, 0);
      if after == first {
        assert i == 0;
        e := new Element(ptr, null, after);
        first.prev := e;
        first := e;
      } else {
        e := new Element(ptr, after.prev, after);
        if after.prev != null {
          after.prev.next := e;
        }
        after.prev := e;
      }
      ghost var was := nodes;
      nodes, repr := nodes[..i] + [e] + nodes[i..], repr + {e};
      ChainInsert(was, i, e);
      MembersInsert(was, i, e);
      ElemInsert(was, i, e, 0);
    }

    method InsertAfter(before: Element?, ptr: Ptr, ghost i: nat) returns (e: Element)
      requires Valid() && i <= |nodes| && before == Elem(nodes, i - 1)
      requires before == null ==> nodes == []
      modifies this, repr
      ensures Valid() && fresh(e) && repr == old(repr) + {e} && e.ptr == ptr &&
        nodes == old(nodes[..i] + [e] + nodes[i..])
    {
      hide Members, Elem, Apart;
      InMembers(nodes);
      ElemAt(nodes, i - 1);
      ElemAt(nodes, 0);
      ElemAt(nodes, i);
      ApartFrom(nodes, i - 1);
      ApartFrom(nodes, i);
      if before == null {
        e := new Element(ptr, null, null);
        first := e;
      } else {
        e := new Element(ptr, before, before.next);
        if before.next != null {
          before.next.prev := e;
        }
        before.next := e;
      }
      ghost var was := nodes;
      nodes, repr := nodes[..i] + [e] + nodes[i..], repr + {e};
      ChainInsert(was, i, e);
      MembersInsert(was, i, e);
      ElemInsert(was, i, e, 0);
    }

    method Remove(e: Element, ghost i: nat)
      requires Valid() && i < |nodes| && nodes[i] == e
      modifies this, repr
      ensures Valid() && repr == old(repr) - {e} && nodes == old(nodes[..i] + nodes[i + 1..])
    {
      hide Members, Elem, Apart;
      InMembers(nodes);
      ElemAt(nodes, i - 1);
      ElemAt(nodes, i + 1);
      ElemAt(nodes, 0);
      ApartFrom(nodes, 0);
      ApartFrom(nodes, i - 1);
      ApartFrom(nodes, i);
      ApartFrom(nodes, i + 1);
      if e == first {
        assert i == 0;
        first := e.next;
        if e.next != null {
          e.next.prev := null;
        }
      } else {
        e.prev.next := e.next;
        if e.next != null {
          e.next.prev := e.prev;
        }
      }
      ghost var was := nodes;
      nodes, repr := nodes[..i] + nodes[i + 1..], repr - {e};
      ChainRemove(was, i);
      MembersRemove(was, i);
      ElemRemove(was, i, 0);
    }

    /** The first element with this pointer. */
    method Find(ptr: Ptr) returns (e: Element?, ghost i: nat)
      requires Valid()
      ensures if e == null then forall n :: n in nodes ==> n.ptr != ptr else e in nodes && e.ptr == ptr
      ensures i <= |nodes| && (e == null <==> i == |nodes|) && (e != null ==> nodes[i] == e && e.ptr == ptr)
      ensures forall k :: 0 <= k < i ==> nodes[k].ptr != ptr
    {
      e, i := first, 0;
      while e != null
        invariant i <= |nodes| && e == Elem(nodes, i)
        invariant forall k :: 0 <= k < i ==> nodes[k].ptr != ptr
        decreases |nodes| - i
      {
        if e.ptr == ptr {
          return;
        }
        e, i := e.next, i + 1;
      }
    }
  }
}

/** The circular doubly linked lists that all of the library's lists are made of, as pointers.
    A ring of nodes is described by the sequence of its nodes; a list is the ring that starts
    at its head. */
module IntrusiveList {
  class Node {
    var next: Node?
    var prev: Node?

    constructor ()
      ensures next == null && prev == null
    {
      next, prev := null, null;
    }
  }

  predicate Distinct(ns: seq<Node>) {
    forall i, j :: 0 <= i < j < |ns| ==> ns[i] != ns[j]
  }

  /** The node after the i-th, going round. */
  function Succ(ns: seq<Node>, i: nat): Node
    requires i < |ns|
  {
    if i + 1 < |ns| then ns[i + 1] else ns[0]
  }

  function Pred(ns: seq<Node>, i: nat): Node
    requires i < |ns|
  {
    if i > 0 then ns[i - 1] else ns[|ns| - 1]
  }

  ghost predicate Ring(ns: seq<Node>)
    reads ns
  {
    && ns != [] && Distinct(ns)
    && forall i :: 0 <= i < |ns| ==> ns[i].next == Succ(ns, i) && ns[i].prev == Pred(ns, i)
  }

  /** list_empty */
  predicate Empty(head: Node)
    reads head
  {
    head.next == head
  }

  /** A ring of several nodes is not empty, and one of its head alone is. */
  lemma EmptyMeans(head: Node, elems: seq<Node>)
    requires Ring([head] + elems)
    ensures Empty(head) <==> elems == []
  {
    var ns := [head] + elems;
    assert ns[0].next == Succ(ns, 0);
    if elems != [] {
      assert ns[1] == elems[0] && ns[0] != ns[1];
    }
  }

  /** The same ring seen from another of its nodes. */
  lemma Rotate(a: seq<Node>, b: seq<Node>)
    requires Ring(a + b) && b != []
    ensures Ring(b + a)
  {
    var ns, r := a + b, b + a;
    forall i | 0 <= i < |r| ensures r[i] == ns[if i < |b| then |a| + i else i - |b|] {
    }
    RotateDistinct(ns, r, |a|);
    forall i | 0 <= i < |r| ensures r[i].next == Succ(r, i) && r[i].prev == Pred(r, i) {
      var k := if i < |b| then |a| + i else i - |b|;
      assert ns[k].next == Succ(ns, k) && ns[k].prev == Pred(ns, k);
    }
  }

  lemma RotateDistinct(ns: seq<Node>, r: seq<Node>, k: nat)
    requires Distinct(ns) && k <= |ns| && r == ns[k..] + ns[..k]
    ensures Distinct(r)
  {
  }

  /** list_init */
  method Init(entry: Node)
    modifies entry
    ensures Ring([entry])
  {
    entry.prev := entry;
    entry.next := entry;
  }

  /** list_add_tail: puts the entry in front of head, which is the end of its list. */
  method AddTail(entry: Node, head: Node, ghost elems: seq<Node>)
    requires Ring([head] + elems) && entry !in [head] + elems
    modifies entry, head, head.prev
    ensures Ring([head] + elems + [entry])
  {
    ghost var ns := [head] + elems;
    assert ns[0].prev == Pred(ns, 0);
    entry.next := head;
    entry.prev := head.prev;
    head.prev.next := entry;
    head.prev := entry;
    ghost var r := [head] + elems + [entry];
    forall i | 0 <= i < |r| ensures r[i].next == Succ(r, i) && r[i].prev == Pred(r, i) {
      assert i < |ns| ==> r[i] == ns[i];
    }
  }

  /** list_add: puts the entry at the front of the list. */
  method Add(entry: Node, head: Node, ghost elems: seq<Node>)
    requires Ring([head] + elems) && entry !in [head] + elems
    modifies entry, head, head.next
    ensures Ring([head] + ([entry] + elems))
  {
    ghost var ns := [head] + elems;
    assert ns[0].next == Succ(ns, 0);
    entry.next := head.next;
    entry.prev := head;
    head.next.prev := entry;
    head.next := entry;
    ghost var r := [head] + ([entry] + elems);
    DistinctAdd(ns, entry);
    assert r[0] == head && r[1] == entry;
    forall i | 2 <= i < |r| ensures r[i] == ns[i - 1] {
    }
    forall i | 0 <= i < |r| ensures r[i].next == Succ(r, i) && r[i].prev == Pred(r, i) {
      if i >= 2 {
        assert ns[i - 1].next == Succ(ns, i - 1);
      }
    }
  }

  lemma DistinctAdd(ns: seq<Node>, entry: Node)
    requires Distinct(ns) && ns != [] && entry !in ns
    ensures Distinct([ns[0]] + ([entry] + ns[1..]))
  {
  }

  /** list_del: unlinks the entry and clears its links. */
  method Del(entry: Node, ghost head: Node, ghost a: seq<Node>, ghost b: seq<Node>)
    requires Ring([head] + a + [entry] + b)
    modifies entry, entry.next, entry.prev
    ensures Ring([head] + a + b)
    ensures entry.next == null && entry.prev == null
  {
    ghost var ns := [head] + a + [entry] + b;
    ghost var k := |a| + 1;
    assert ns[k] == entry && entry.next == Succ(ns, k) && entry.prev == Pred(ns, k);
    entry.next.prev := entry.prev;
    entry.prev.next := entry.next;
    entry.next := null;
    entry.prev := null;
    ghost var r := [head] + a + b;
    forall i | 0 <= i < |r| ensures r[i] == ns[if i < k then i else i + 1] {
    }
    forall i | 0 <= i < |r| ensures r[i].next == Succ(r, i) && r[i].prev == Pred(r, i) {
      assert r[i] == ns[if i < k then i else i + 1];
    }
  }

  /** list_cut: moves all elements to another list. */
  method Cut(list: Node, head: Node, ghost elems: seq<Node>)
    requires Ring([head] + elems) && list !in [head] + elems
    modifies list, head, head.next, head.prev
    ensures Ring([list] + elems) && Ring([head])
  {
    ghost var ns := [head] + elems;
    EmptyMeans(head, elems);
    if Empty(head) {
      assert ns == [head] && [list] + elems == [list];
      Init(list);
      return;
    }
    assert ns[0].next == Succ(ns, 0) && ns[0].prev == Pred(ns, 0);
    MoveElements(list, head, ns);
    Init(head);
    assert ns[1..] == elems;
  }

  method MoveElements(list: Node, head: Node, ghost ns: seq<Node>)
    requires Ring(ns) && |ns| > 1 && ns[0] == head && list !in ns
    modifies list, head.next, head.prev
    ensures Ring([list] + ns[1..])
  {
    assert ns[0].next == Succ(ns, 0) && ns[0].prev == Pred(ns, 0);
    list.next := head.next;
    list.next.prev := list;
    list.prev := head.prev;
    list.prev.next := list;
    ghost var r := [list] + ns[1..];
    forall i | 1 <= i < |r| ensures r[i] == ns[i] {
    }
    forall i | 0 <= i < |r| ensures r[i].next == Succ(r, i) && r[i].prev == Pred(r, i) {
      if i > 0 {
        assert ns[i] != ns[0];
      }
    }
  }

  /** list_splice_front: moves all elements of one list in front of those of another.  It must
      not be called with an empty list: then, and only then, head is left in disorder. */
  method SpliceFront(list: Node, head: Node, ghost a: seq<Node>, ghost b: seq<Node>)
    requires Ring([list] + a) && Ring([head] + b) && Distinct([list] + a + ([head] + b))
    modifies list, list.next, list.prev, head, head.next
    ensures Ring([head] + (a + b)) <==> a != []
  {
    hide Distinct;
    ghost var ns, ms := [list] + a, [head] + b;
    SpliceApart(ns, ms);
    EndsApart(ns);
    EndsApart(ms);
    assert ns[0].next == Succ(ns, 0) && ns[0].prev == Pred(ns, 0) && ms[0].next == Succ(ms, 0);
    list.next.prev := head;
    list.prev.next := head.next;
    head.next.prev := list.prev;
    head.next := list.next;
    if a != [] {
      assert Spliced(ns, ms);
      SplicedRing(ns, ms, a, b);
    } else {
      NotSpliced(list, head, b);
    }
  }

  lemma EndsApart(ns: seq<Node>)
    requires Distinct(ns) && ns != []
    ensures forall i :: 1 <= i < |ns| ==> ns[i] != ns[0]
    ensures forall i :: 0 <= i < |ns| - 1 ==> ns[i] != ns[|ns| - 1]
    ensures forall i :: 1 < i < |ns| ==> ns[i] != ns[1]
  {
  }

  lemma SpliceApart(ns: seq<Node>, ms: seq<Node>)
    requires Distinct(ns + ms)
    ensures forall i, j :: 0 <= i < |ns| && 0 <= j < |ms| ==> ns[i] != ms[j]
  {
    forall i, j | 0 <= i < |ns| && 0 <= j < |ms| ensures ns[i] != ms[j] {
      assert (ns + ms)[i] == ns[i] && (ns + ms)[|ns| + j] == ms[j];
    }
  }

  /** The links after the splice of the elements of ns behind the head of ms. */
  ghost predicate Spliced(ns: seq<Node>, ms: seq<Node>)
    requires |ns| > 1 && ms != []
    reads ns, ms
  {
    && ms[0].next == ns[1] && ns[1].prev == ms[0]
    && (forall i :: 1 <= i < |ns| - 1 ==> ns[i].next == ns[i + 1] && ns[i + 1].prev == ns[i])
    && ns[|ns| - 1].next == Succ(ms, 0) && Succ(ms, 0).prev == ns[|ns| - 1]
    && (forall j :: 1 <= j < |ms| ==> ms[j].next == Succ(ms, j))
    && (forall j :: 1 <= j < |ms| ==> Succ(ms, j).prev == ms[j])
  }

  lemma SplicedRing(ns: seq<Node>, ms: seq<Node>, a: seq<Node>, b: seq<Node>)
    requires |ns| > 1 && ms != [] && Spliced(ns, ms) && Distinct(ns + ms)
    requires a == ns[1..] && b == ms[1..]
    ensures Ring([ms[0]] + (a + b))
  {
    var r := [ms[0]] + (a + b);
    assert ns == [ns[0]] + a;
    SpliceDistinct(ns[0], a, ms, r);
    forall i | 0 <= i < |r| ensures r[i].next == Succ(r, i) && Succ(r, i).prev == r[i] {
      if 1 <= i <= |a| {
        assert r[i] == ns[i];
      } else if i > |a| {
        assert r[i] == ms[i - |a|];
      }
    }
    RingByNext(r);
  }

  /** It is enough that the successor of each node points back to it. */
  lemma RingByNext(r: seq<Node>)
    requires r != [] && Distinct(r)
    requires forall i :: 0 <= i < |r| ==> r[i].next == Succ(r, i) && Succ(r, i).prev == r[i]
    ensures Ring(r)
  {
    forall i | 0 <= i < |r| ensures r[i].prev == Pred(r, i) {
      var k := if i > 0 then i - 1 else |r| - 1;
      assert Succ(r, k) == r[i];
    }
  }

  lemma NotSpliced(list: Node, head: Node, b: seq<Node>)
    requires head.next == list && list !in [head] + b
    ensures !Ring([head] + ([] + b))
  {
    var r := [head] + ([] + b);
    assert r == [head] + b && Succ(r, 0) in r;
  }

  lemma SpliceDistinct(list: Node, a: seq<Node>, ms: seq<Node>, r: seq<Node>)
    requires Distinct([list] + a + ms) && ms != [] && r == [ms[0]] + (a + ms[1..])
    ensures Distinct(r)
  {
    var all := [list] + a + ms;
    forall i | 0 <= i < |r| ensures r[i] == all[if i == 0 then 1 + |a| else if i <= |a| then i else i + 1] {
    }
  }
}

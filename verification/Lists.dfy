// The doubly linked list whose first node is stored inside the list header.
module Lists {
  import opened Basics

  class Node<T> {
    var elt: Option<T>
    var prev: Node?<T>
    var next: Node?<T>

    constructor (elt: Option<T>)
      ensures this.elt == elt && prev == null && next == null
    {
      this.elt := elt;
      prev := null;
      next := null;
    }
  }

  class List<T> {
    const inner: Node<T>
    var last: Node<T>
    var length: nat
    ghost var nodes: seq<Node<T>>
    ghost var contents: seq<T>

    // The nodes form one chain from inner to last; an empty list still owns its inline node, without an
    // element.
    ghost predicate Valid()
      reads this, nodes
    {
      && |nodes| > 0 && nodes[0] == inner && nodes[|nodes| - 1] == last
      && length == |contents|
      && |nodes| == (if length == 0 then 1 else length)
      && (forall i, j :: 0 <= i < j < |nodes| ==> nodes[i] != nodes[j])
      && (forall i :: 0 <= i < |nodes| ==> LinkedAt(i))
      && (length == 0 ==> inner.elt == None)
      && (forall i :: 0 <= i < length ==> nodes[i].elt == Some(contents[i]))
    }

    ghost predicate LinkedAt(i: int)
      requires 0 <= i < |nodes|
      reads this, nodes
    {
      && nodes[i].prev == (if i == 0 then null else nodes[i - 1])
      && nodes[i].next == (if i + 1 == |nodes| then null else nodes[i + 1])
    }

    // A list none of whose nodes changed is still the same list.
    twostate lemma StaysValid()
      requires old(Valid())
      requires unchanged(this) && forall i :: 0 <= i < |nodes| ==> unchanged(nodes[i])
      ensures Valid()
    {
      forall i | 0 <= i < |nodes| ensures LinkedAt(i) { assert old(LinkedAt(i)); }
    }

    constructor Empty()
      ensures Valid() && contents == []
      ensures nodes == [inner] && fresh(inner)
    {
      var first := new Node(None);
      inner := first;
      last := first;
      length := 0;
      nodes := [first];
      contents := [];
      new;
      assert LinkedAt(0);
    }

    // list_append: link b after a.  Both asserts of the source are preconditions here, and every caller
    // meets them.
    static method Append(a: Node<T>, b: Node<T>)
      requires a != b && a.next == null && b.prev == null
      modifies a`next, b`prev
      ensures a.next == b && b.prev == a
    {
      a.next := b;
      b.prev := a;
    }

    // list_add
    method Add(elt: T)
      requires Valid()
      modifies this, nodes
      ensures Valid() && contents == old(contents) + [elt]
      ensures last in nodes && (nodes == old(nodes) || (nodes == old(nodes) + [last] && fresh(last)))
    {
      assert LinkedAt(|nodes| - 1);
      if length == 0 {
        inner.elt := Some(elt);
        length := length + 1;
        contents := contents + [elt];
        assert LinkedAt(0);
      } else {
        var node := new Node(Some(elt));
        length := length + 1;
        Append(last, node);
        last := node;
        contents := contents + [elt];
        nodes := nodes + [node];
        forall i | 0 <= i < |nodes| ensures LinkedAt(i) {
          if i + 1 < |nodes| { assert old(LinkedAt(i)); }
        }
      }
    }

    // list_pop, which the source supports for lists of at least two elements.
    method Pop() returns (elt: T)
      requires Valid() && length >= 2
      modifies this, nodes
      ensures Valid() && old(contents) == contents + [elt]
      ensures forall n :: n in nodes ==> n in old(nodes)
    {
      assert LinkedAt(|nodes| - 1) && LinkedAt(|nodes| - 2);
      elt := last.elt.value;
      last := last.prev;
      last.next := null;
      length := length - 1;
      contents := contents[..|contents| - 1];
      nodes := nodes[..|nodes| - 1];
      forall i | 0 <= i < |nodes| ensures LinkedAt(i) {
        assert old(LinkedAt(i));
      }
    }

    // list_last: the element of the last node, none for an empty list.
    method Last() returns (elt: Option<T>)
      requires Valid()
      ensures elt == if contents == [] then None else Some(contents[|contents| - 1])
    {
      elt := last.elt;
    }

    // What a forward traversal (LFOREACH) visits.
    method Forward() returns (s: seq<T>)
      requires Valid()
      ensures s == contents
    {
      s := [];
      var temp: Node?<T> := inner;
      for i := 0 to length
        invariant temp == if i < |nodes| then nodes[i] else null
        invariant s == contents[..i]
      {
        s := s + [temp.elt.value];
        assert LinkedAt(i);
        temp := temp.next;
      }
    }

    // What a backward traversal (LFOREACHREV) visits: it skips nodes without an element.
    method Backward() returns (s: seq<T>)
      requires Valid()
      ensures s == Reversed(contents)
    {
      s := [];
      var temp: Node?<T> := last;
      ghost var k := |nodes|;
      while temp != null
        invariant 0 <= k <= |nodes|
        invariant temp == if k > 0 then nodes[k - 1] else null
        invariant s == Reversed(if length == 0 then [] else contents[k..])
        decreases k
      {
        if temp.elt.Some? {
          s := s + [temp.elt.value];
          assert contents[k - 1..] == [contents[k - 1]] + contents[k..];
        }
        assert LinkedAt(k - 1);
        temp := temp.prev;
        k := k - 1;
      }
    }
  }

  function Reversed<T>(s: seq<T>): (r: seq<T>)
    ensures |r| == |s|
  {
    if s == [] then [] else Reversed(s[1..]) + [s[0]]
  }

  // The two traversals visit mirror-image sequences.
  lemma {:induction false} ReversedAt<T>(s: seq<T>, i: nat)
    requires i < |s|
    ensures Reversed(s)[i] == s[|s| - 1 - i]
  {
    if i < |s| - 1 { ReversedAt(s[1..], i); }
  }
}

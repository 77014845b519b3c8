/** The singly-linked tail queue: a head with a pointer to the last `next` field. */
module TailQueue {
  import opened Bytes

  lemma DistinctConcat(a: seq<Node>, b: seq<Node>)
    requires Distinct(a) && Distinct(b) && forall x :: x in a ==> x !in b
    ensures Distinct(a + b)
  {
    var c := a + b;
    forall i, j | 0 <= i < j < |c|
      ensures c[i] != c[j]
    {
      if i < |a| <= j { assert c[i] in a && c[j] in b; }
    }
  }

  lemma DistinctInsert(a: seq<Node>, x: Node, i: nat)
    requires Distinct(a) && x !in a && i <= |a|
    ensures Distinct(a[..i] + [x] + a[i..])
  {
    var c := a[..i] + [x] + a[i..];
    forall j, k | 0 <= j < k < |c|
      ensures c[j] != c[k]
    {
      assert j != i ==> c[j] in a;
      assert k != i ==> c[k] in a;
    }
  }

  lemma DistinctRemove(a: seq<Node>, i: nat)
    requires Distinct(a) && i < |a|
    ensures Distinct(a[..i] + a[i + 1..])
  {
  }

  lemma OnlyPlace(a: seq<Node>, i: nat)
    requires Distinct(a) && i < |a|
    ensures forall j :: 0 <= j < |a| && a[j] == a[i] ==> j == i
  {
  }

  lemma SamePlace(a: seq<Node>, i: nat, j: nat)
    requires Distinct(a) && i < |a| && j < |a|
    ensures a[i] == a[j] ==> i == j
  {
  }

  /** A list item; only its link matters to the queue. */
  class Node {
    var next: Node?

    constructor ()
    {
      next := null;
    }
  }

  /** STAILQ_HEAD. `stqh_last` is the address of a `next` field or of stqh_first itself; here `last`
      is the node that field belongs to, and null stands for the head. */
  class Queue {
    var first: Node?
    var last: Node?
    var size: nat
    ghost var nodes: seq<Node>

    ghost predicate Valid()
      reads this, nodes
    {
      && size == |nodes|
      && Distinct(nodes)
      && first == (if nodes == [] then null else nodes[0])
      && last == (if nodes == [] then null else nodes[|nodes| - 1])
      && (forall i :: 0 <= i < |nodes| - 1 ==> nodes[i].next == nodes[i + 1])
      && (nodes != [] ==> nodes[|nodes| - 1].next == null)
    }

    /** STAILQ_INIT */
    constructor ()
      ensures Valid() && nodes == []
    {
      first, last, size := null, null, 0;
      nodes := [];
    }

    /** `*stqh_last = elm` */
    method StoreLast(elm: Node?)
      modifies this`first, last
      ensures last == old(last)
      ensures last == null ==> first == elm
      ensures last != null ==> first == old(first) && last.next == elm
    {
      if last == null {
        first := elm;
      } else {
        last.next := elm;
      }
    }

    /** list_push */
    method Push(elm: Node)
      requires Valid() && elm !in nodes
      modifies this, elm, last
      ensures Valid() && nodes == old(nodes) + [elm]
    {
      elm.next := null;
      StoreLast(elm);
      last := elm;
      size := size + 1;
      nodes := nodes + [elm];
    }

    /** list_unshift */
    method Unshift(elm: Node)
      requires Valid() && elm !in nodes
      modifies this, elm
      ensures Valid() && nodes == [elm] + old(nodes)
    {
      elm.next := first;
      if elm.next == null {
        last := elm;
      }
      first := elm;
      size := size + 1;
      nodes := [elm] + nodes;
    }

    /** list_insert: `elm` goes in behind `pos`. */
    method Insert(pos: Node, elm: Node, ghost i: nat)
      requires Valid() && elm !in nodes && i < |nodes| && nodes[i] == pos
      modifies this, elm, pos
      ensures Valid() && nodes == old(nodes)[..i + 1] + [elm] + old(nodes)[i + 1..]
    {
      hide Distinct;
      OnlyPlace(nodes, i);
      elm.next := pos.next;
      assert i < |nodes| - 1 ==> elm.next == nodes[i + 1];
      if elm.next == null {
        last := elm;
      }
      pos.next := elm;
      size := size + 1;
      DistinctInsert(nodes, elm, i + 1);
      ghost var a := nodes;
      nodes := a[..i + 1] + [elm] + a[i + 1..];
      assert forall j :: 0 <= j <= i ==> nodes[j] == a[j];
      assert nodes[i + 1] == elm && forall j :: i + 1 < j < |nodes| ==> nodes[j] == a[j - 1];
    }

    /** STAILQ_REMOVE_HEAD */
    method RemoveHead()
      requires Valid() && nodes != []
      modifies this
      ensures Valid() && nodes == old(nodes)[1..]
    {
      first := first.next;
      if first == null {
        last := null;
      }
      size := size - 1;
      nodes := nodes[1..];
    }

    /** list_shift */
    method Shift() returns (item: Node?)
      requires Valid() && nodes != []
      modifies this
      ensures Valid() && item == old(nodes)[0] && nodes == old(nodes)[1..]
    {
      item := first;
      RemoveHead();
    }

    /** list_remove: a walk to the item's predecessor, which is then linked past it. */
    method Remove(elm: Node, ghost i: nat)
      requires Valid() && i < |nodes| && nodes[i] == elm
      modifies this, nodes
      ensures Valid() && nodes == old(nodes)[..i] + old(nodes)[i + 1..]
      ensures forall x :: x in nodes && (i == 0 || x != old(nodes)[i - 1]) ==> x.next == old(x.next)
    {
      hide Distinct;
      OnlyPlace(nodes, i);
      if first == elm {
        RemoveHead();
      } else {
        var cur := first;
        ghost var k := 0;
        while cur.next != elm
          invariant 0 <= k < i && cur == nodes[k]
          decreases i - k
        {
          cur := cur.next;
          k := k + 1;
        }
        assert cur.next == nodes[k + 1];
        SamePlace(nodes, k + 1, i);
        assert k + 1 == i && cur.next == nodes[i];
        cur.next := cur.next.next;
        assert i < |nodes| - 1 ==> cur.next == nodes[i + 1];
        OnlyPlace(nodes, k);
        DistinctRemove(nodes, i);
        if cur.next == null {
          last := cur;
        }
        size := size - 1;
        nodes := nodes[..i] + nodes[i + 1..];
      }
    }

    /** list_pop */
    method Pop() returns (item: Node?)
      requires Valid() && nodes != []
      modifies this, nodes
      ensures Valid() && item == old(nodes)[|old(nodes)| - 1] && nodes == old(nodes)[..|old(nodes)| - 1]
    {
      item := last;
      Remove(item, |nodes| - 1);
    }

    /** list_cat: all of `other` moves to the end of this queue. */
    method Cat(other: Queue)
      requires Valid() && other.Valid() && other != this && (forall x :: x in nodes ==> x !in other.nodes)
      modifies this, other, last
      ensures Valid() && other.Valid()
      ensures nodes == old(nodes) + old(other.nodes) && other.nodes == []
    {
      if other.first != null {
        ghost var a, b := nodes, other.nodes;
        assert last != null ==> last in a && last !in b;
        DistinctConcat(a, b);
        StoreLast(other.first);
        last := other.last;
        size := size + other.size;
        nodes := nodes + other.nodes;
        other.first, other.last, other.size := null, null, 0;
        other.nodes := [];
      }
    }

    /** list_addr: the item at position `n`, null past the end; a negative `n` gives the first. */
    method Addr(n: int) returns (item: Node?)
      requires Valid()
      ensures n >= |nodes| ==> item == null
      ensures 0 <= n < |nodes| ==> item == nodes[n]
      ensures n < 0 ==> item == first
    {
      var m := n;
      if m >= size {
        return null;
      }
      item := first;
      m := m - 1;
      while m >= 0
        invariant n >= 0 ==> -1 <= m < n < |nodes| && item == nodes[n - 1 - m]
        invariant n < 0 ==> m < 0 && item == first
        decreases m
      {
        item := item.next;
        m := m - 1;
      }
    }

    /** Following the links `k` times from the first item: every item once, in order, and then the
        end, so the chain has no cycle. */
    ghost function Walk(k: nat): (r: Node?)
      requires Valid()
      reads this, nodes
      ensures r == if k < |nodes| then nodes[k] else null
    {
      if k == 0 then first
      else
        var before := Walk(k - 1);
        if before == null then null else before.next
    }
  }
}

// The doubly linked lists of utlist.h: every node has both links in it, the last
// node's next is NULL, and the first node's prev is the last node.
module IntrusiveLists {
  class Node<T> {
    var prev: Node?<T>
    var next: Node?<T>
    const data: T

    constructor (data: T)
      ensures this.data == data
    {
      this.data := data;
      prev, next := null, null;
    }
  }

  function At<T>(ns: seq<Node<T>>, i: nat): Node?<T> {
    if i < |ns| then ns[i] else null
  }

  ghost predicate Distinct<E>(ns: seq<E>) {
    forall i, j | 0 <= i < j < |ns| :: ns[i] != ns[j]
  }

  /** `head` is the list of the nodes `ns`: the next chain runs through them to NULL,
      so it has no cycle, prev is its inverse, and head->prev is the last node. */
  ghost predicate Linked<T>(head: Node?<T>, ns: seq<Node<T>>)
    reads ns
  {
    && Distinct(ns)
    && head == At(ns, 0)
    && (forall i {:trigger ns[i].next} | 0 <= i < |ns| :: ns[i].next == At(ns, i + 1))
    && (forall i {:trigger ns[i].prev} | 0 < i < |ns| :: ns[i].prev == ns[i - 1])
    && (ns != [] ==> ns[0].prev == ns[|ns| - 1])
  }

  ghost function IndexOf<E>(ns: seq<E>, n: E): (i: nat)
    requires n in ns
    ensures i < |ns| && ns[i] == n
  {
    var i :| 0 <= i < |ns| && ns[i] == n; i
  }

  /** `ns` without `n`. */
  ghost function Without<E>(ns: seq<E>, n: E): seq<E>
    requires n in ns
  {
    ns[..IndexOf(ns, n)] + ns[IndexOf(ns, n) + 1..]
  }

  class List<T> {
    var head: Node?<T>
    ghost var nodes: seq<Node<T>>

    ghost predicate Valid()
      reads this, nodes
    {
      Linked(head, nodes)
    }

    constructor ()
      ensures Valid() && nodes == []
    {
      head, nodes := null, [];
    }

    /** DL_APPEND */
    method Append(add: Node<T>)
      requires Valid() && add !in nodes
      modifies this, nodes, add
      ensures Valid() && nodes == old(nodes) + [add]
    {
      ghost var ns := nodes;
      if head != null {
        assert head == ns[0] && head.prev == ns[|ns| - 1];
        add.prev := head.prev;
        head.prev.next := add;
        head.prev := add;
        add.next := null;
      } else {
        head := add;
        head.prev := head;
        head.next := null;
      }
      nodes := ns + [add];
    }

    /** DL_DELETE. The links in the deleted node itself are left as they were. */
    method Delete(del: Node<T>)
      requires Valid() && del in nodes
      modifies this, nodes
      ensures Valid() && nodes == Without(old(nodes), del)
      ensures del.next == old(del.next) && del.prev == old(del.prev)
    {
      ghost var i := IndexOf(nodes, del);
      assert i > 0 ==> del.prev == nodes[i - 1];
      if del.prev == del {
        head, nodes := null, [];
      } else if del == head {
        DeleteFirst(del);
      } else {
        DeleteLater(del, i);
      }
    }

    method DeleteFirst(del: Node<T>)
      requires Valid() && |nodes| > 1 && del == nodes[0]
      modifies this, nodes
      ensures Valid() && nodes == old(nodes[1..])
      ensures del.next == old(del.next) && del.prev == old(del.prev)
    {
      assert del.next == At(nodes, 1) && nodes[1].next == At(nodes, 2);
      del.next.prev := del.prev;
      head := del.next;
      nodes := nodes[1..];
    }

    method DeleteLater(del: Node<T>, ghost i: nat)
      requires Valid() && 0 < i < |nodes| && del == nodes[i]
      modifies this, nodes
      ensures Valid() && nodes == old(nodes[..i] + nodes[i + 1..])
      ensures del.next == old(del.next) && del.prev == old(del.prev)
    {
      ghost var ns := nodes;
      ghost var ms := ns[..i] + ns[i + 1..];
      assert del.prev == ns[i - 1] && del.next == At(ns, i + 1) && head == ns[0];
      del.prev.next := del.next;
      if del.next != null {
        del.next.prev := del.prev;
      } else {
        head.prev := del.prev;
      }
      nodes := ms;
      forall k | 0 <= k < |ms|
        ensures ms[k].next == At(ms, k + 1) && (k > 0 ==> ms[k].prev == ms[k - 1])
      {
        var x := if k < i then k else k + 1;
        assert old(ns[x].next) == At(ns, x + 1) && (x > 0 ==> old(ns[x].prev) == ns[x - 1]);
      }
    }
  }
}

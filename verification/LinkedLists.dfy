/** The doubly linked list with two sentinels (src/lib/list.c): pointers changed in place, against the
    sequence of its elements. */
module LinkedLists {
  import opened Sequences

  /** A link inside a thread or memory block. */
  class Elem {
    var prev: Elem?
    var next: Elem?

    constructor ()
      ensures prev == null && next == null
    {
      prev, next := null, null;
    }
  }

  /** Two neighbours point at each other. */
  ghost predicate Joined(nodes: seq<Elem>, i: nat)
    requires i + 1 < |nodes|
    reads nodes
  {
    nodes[i].next == nodes[i + 1] && nodes[i + 1].prev == nodes[i]
  }

  /** All neighbours point at each other, and the ends at nothing. */
  ghost predicate Linked(nodes: seq<Elem>)
    requires |nodes| >= 2
    reads nodes
  {
    && nodes[0].prev == null && nodes[|nodes| - 1].next == null
    && (forall i: nat {:trigger Joined(nodes, i)} :: i + 1 < |nodes| ==> Joined(nodes, i))
  }

  lemma {:induction false} NoRepeatInsert(q: seq<Elem>, k: nat, e: Elem)
    requires NoRepeat(q) && k <= |q| && e !in q
    ensures NoRepeat(q[..k] + [e] + q[k..])
  {
    var r := q[..k] + [e] + q[k..];
    assert forall i :: 0 <= i < |r| ==> r[i] == if i < k then q[i] else if i == k then e else q[i - 1];
  }

  lemma NoRepeatInside(head: Elem, elems: seq<Elem>, tail: Elem)
    requires NoRepeat([head] + elems + [tail])
    ensures NoRepeat(elems) && head !in elems && tail !in elems && head != tail
  {
    var q := [head] + elems + [tail];
    assert q[0] == head && q[|elems| + 1] == tail;
    assert forall i :: 0 <= i < |elems| ==> elems[i] == q[i + 1];
  }

  lemma NoRepeatLess(q: seq<Elem>, k: nat)
    requires NoRepeat(q) && k < |q|
    ensures NoRepeat(q[..k] + q[k + 1..]) && q[k] !in q[..k] + q[k + 1..]
  {
    var r := q[..k] + q[k + 1..];
    assert forall i :: 0 <= i < |r| ==> r[i] == q[if i < k then i else i + 1];
  }

  lemma CloseUp(head: Elem, elems: seq<Elem>, tail: Elem, k: nat)
    requires k < |elems|
    ensures var nodes := [head] + elems + [tail];
            nodes[..k + 1] + nodes[k + 2..] == [head] + (elems[..k] + elems[k + 1..]) + [tail]
  {
  }

  class List {
    const head: Elem
    const tail: Elem
    ghost var elems: seq<Elem>

    ghost function Nodes(): (nodes: seq<Elem>)
      reads this
    {
      [head] + elems + [tail]
    }

    ghost predicate Valid()
      reads this, Nodes()
    {
      NoRepeat(Nodes()) && Linked(Nodes())
    }

    /** list_init. */
    constructor ()
      ensures Valid() && elems == [] && fresh(head) && fresh(tail)
    {
      head := new Elem();
      tail := new Elem();
      elems := [];
      new;
      head.next := tail;
      tail.prev := head;
      assert Nodes() == [head, tail] && head != tail;
      assert Joined([head, tail], 0);
      assert Linked([head, tail]);
    }

    /** list_insert_before; before is the element with number k, or the tail behind the last. */
    method InsertBefore(before: Elem, elem: Elem, ghost k: nat)
      requires Valid() && k <= |elems| && before == Nodes()[k + 1] && elem !in Nodes()
      modifies this, Nodes(), elem
      ensures Valid() && elems == old(elems)[..k] + [elem] + old(elems)[k..]
    {
      ghost var nodes := Nodes();
      assert Joined(nodes, k);
      before.prev.next := elem;
      elem.prev := before.prev;
      elem.next := before;
      before.prev := elem;
      elems := elems[..k] + [elem] + elems[k..];
      NoRepeatInsert(nodes, k + 1, elem);
      ghost var after := nodes[..k + 1] + [elem] + nodes[k + 1..];
      assert Nodes() == after;
      forall i: nat | i + 1 < |after| ensures Joined(after, i) {
        if i < k {
          assert old(Joined(nodes, i));
        } else if i > k + 1 {
          assert old(Joined(nodes, i - 1));
        }
      }
    }

    /** list_push. */
    method Push(elem: Elem)
      requires Valid() && elem !in Nodes()
      modifies this, Nodes(), elem
      ensures Valid() && elems == [elem] + old(elems)
    {
      assert Joined(Nodes(), 0);
      InsertBefore(head.next, elem, 0);
    }

    /** list_append. */
    method Append(elem: Elem)
      requires Valid() && elem !in Nodes()
      modifies this, Nodes(), elem
      ensures Valid() && elems == old(elems) + [elem]
    {
      InsertBefore(tail, elem, |elems|);
    }

    /** list_remove. */
    method Remove(elem: Elem)
      requires Valid() && elem in elems
      modifies this, Nodes()
      ensures Valid() && elems == Without(old(elems), elem) && elem !in Nodes()
    {
      hide Without;
      ghost var nodes := Nodes();
      ghost var k :| 0 <= k < |elems| && elems[k] == elem;
      assert nodes[k + 1] == elem;
      assert Joined(nodes, k) && Joined(nodes, k + 1);
      NoRepeatInside(head, elems, tail);
      WithoutAt(elems, k);
      NoRepeatLess(nodes, k + 1);
      CloseUp(head, elems, tail, k);
      elem.prev.next := elem.next;
      elem.next.prev := elem.prev;
      elems := elems[..k] + elems[k + 1..];
      ghost var after := nodes[..k + 1] + nodes[k + 2..];
      forall i: nat | i + 1 < |after| ensures Joined(after, i) {
        if i < k {
          assert old(Joined(nodes, i));
        } else if i > k {
          assert old(Joined(nodes, i + 1));
        }
      }
    }

    /** list_pop; the callers make sure that the list is not empty. */
    method Pop() returns (elem: Elem)
      requires Valid() && elems != []
      modifies this, Nodes()
      ensures Valid() && old(elems) == [elem] + elems && elem !in Nodes()
    {
      assert Joined(Nodes(), 0);
      elem := head.next;
      NoRepeatInside(head, elems, tail);
      WithoutAt(elems, 0);
      Remove(elem);
    }

    /** list_empty. */
    method Empty() returns (empty: bool)
      requires Valid()
      ensures empty <==> elems == []
    {
      assert Joined(Nodes(), 0);
      return head.next == tail;
    }

    /** elem_find. */
    method Find(obj: Elem) returns (found: bool)
      requires Valid() && obj != head && obj != tail
      ensures found <==> obj in elems
    {
      ghost var i := 1;
      assert Joined(Nodes(), 0);
      var elem := head.next;
      while elem != tail && elem != null
        invariant 1 <= i <= |elems| + 1 && elem == Nodes()[i] && obj !in elems[..i - 1]
        decreases |elems| - i
      {
        if elem == obj {
          return true;
        }
        assert elems[..i] == elems[..i - 1] + [elem];
        assert Joined(Nodes(), i);
        elem := elem.next;
        i := i + 1;
      }
      return false;
    }

    /** list_traversal: the first element that meets the condition, or NULL. */
    method Traversal(meets: Elem -> bool) returns (r: Elem?)
      requires Valid()
      ensures r == null ==> forall e :: e in elems ==> !meets(e)
      ensures r != null ==> exists k :: 0 <= k < |elems| && elems[k] == r && meets(r) && forall j :: 0 <= j < k ==>
              !meets(elems[j])
    {
      ghost var i := 1;
      assert Joined(Nodes(), 0);
      var elem := head.next;
      while elem != tail
        invariant 1 <= i <= |elems| + 1 && elem == Nodes()[i] && forall j :: 0 <= j < i - 1 ==> !meets(elems[j])
        decreases |elems| - i
      {
        if meets(elem) {
          return elem;
        }
        assert Joined(Nodes(), i);
        elem := elem.next;
        i := i + 1;
      }
      return null;
    }

    /** list_len. */
    method Len() returns (length: nat)
      requires Valid()
      ensures length == |elems|
    {
      length := 0;
      assert Joined(Nodes(), 0);
      var elem := head.next;
      while elem != tail
        invariant 0 <= length <= |elems| && elem == Nodes()[length + 1]
        decreases |elems| - length
      {
        assert Joined(Nodes(), length + 1);
        length := length + 1;
        elem := elem.next;
      }
    }
  }
}

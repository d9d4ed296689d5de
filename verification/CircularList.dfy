/**
 cmocka's circular doubly linked list with a sentinel. A list is an object, its head, whose
 value is NULL; the other nodes are reached through `next` and `prev`.
 */
module CircularList {

  datatype Pointer<V> = Null | To(target: V)

  ghost predicate Distinct<T>(s: seq<T>) {
    forall i, j :: 0 <= i < j < |s| ==> s[i] != s[j]
  }

  // Node number i of the ring: 0 is the head, 1 the first element; the ring closes at both ends.
  ghost function At<V>(head: ListNode<V>, nodes: seq<ListNode<V>>, i: int): ListNode<V>
    requires -1 <= i <= |nodes|
  {
    if 0 <= i < |nodes| then nodes[i] else head
  }

  // The list `head` holds exactly `nodes`, in this order, and every link agrees.
  ghost predicate Ring<V>(head: ListNode<V>, nodes: seq<ListNode<V>>)
    reads head, nodes
  {
    && head !in nodes
    && Distinct(nodes)
    && head.next == At(head, nodes, 0)
    && head.prev == At(head, nodes, |nodes| - 1)
    && (forall i {:trigger nodes[i].next} :: 0 <= i < |nodes| ==> nodes[i].next == At(head, nodes, i + 1))
    && (forall i {:trigger nodes[i].prev} :: 0 <= i < |nodes| ==> nodes[i].prev == At(head, nodes, i - 1))
  }

  class ListNode<V> {
    var value: Pointer<V>
    var refcount: int
    var next: ListNode<V>
    var prev: ListNode<V>

    // list_initialize
    constructor ()
      ensures Ring(this, []) && value == Null && refcount == 1
    {
      value := Null;
      refcount := 1;
      next := this;
      prev := this;
    }

    // A node that is not linked yet.
    constructor Unlinked(v: V, count: int)
      ensures value == To(v) && refcount == count
    {
      value := To(v);
      refcount := count;
      next := this;
      prev := this;
    }
  }

  ghost function Without<T>(s: seq<T>, i: int): seq<T>
    requires 0 <= i < |s|
  {
    s[..i] + s[i + 1..]
  }

  ghost function NodeSet<V>(nodes: seq<ListNode<V>>): set<ListNode<V>> {
    set n | n in nodes
  }

  // list_add: link a node in at the tail.
  method ListAdd<V>(head: ListNode<V>, node: ListNode<V>, ghost nodes: seq<ListNode<V>>)
    requires Ring(head, nodes) && node != head && node !in nodes
    modifies head`prev, head.prev`next, node`next, node`prev
    ensures Ring(head, nodes + [node])
  {
    node.next := head;
    node.prev := head.prev;
    head.prev.next := node;
    head.prev := node;
  }

  // With the neighbours of node i joined and every other link as before, the rest is a ring.
  lemma ClosedUp<V>(head: ListNode<V>, nodes: seq<ListNode<V>>, i: nat, before: ListNode<V>, after: ListNode<V>)
    requires i < |nodes| && head !in nodes && Distinct(nodes)
    requires before == At(head, nodes, i - 1) && after == At(head, nodes, i + 1)
    requires before.next == after && after.prev == before
    requires head != before ==> head.next == At(head, nodes, 0)
    requires head != after ==> head.prev == At(head, nodes, |nodes| - 1)
    requires forall j {:trigger nodes[j].next} :: 0 <= j < |nodes| && nodes[j] != before ==>
               nodes[j].next == At(head, nodes, j + 1)
    requires forall j {:trigger nodes[j].prev} :: 0 <= j < |nodes| && nodes[j] != after ==>
               nodes[j].prev == At(head, nodes, j - 1)
    ensures Ring(head, Without(nodes, i))
  {
  }

  // list_remove: unlink node number i. The node's own links stay as they were.
  method ListRemove<V>(node: ListNode<V>, ghost head: ListNode<V>, ghost nodes: seq<ListNode<V>>, ghost i: nat)
    requires Ring(head, nodes) && i < |nodes| && nodes[i] == node
    modifies node.prev`next, node.next`prev
    ensures Ring(head, Without(nodes, i))
    ensures node.next == old(node.next) && node.prev == old(node.prev)
  {
    node.prev.next := node.next;
    node.next.prev := node.prev;
    ClosedUp(head, nodes, i, node.prev, node.next);
  }

  // list_find with an arbitrary test on values: the first node that passes it.
  method ListFind<V>(head: ListNode<V>, test: V ~> bool, ghost nodes: seq<ListNode<V>>)
    returns (found: bool, node: ListNode<V>, ghost i: nat)
    requires Ring(head, nodes)
    requires forall n :: n in nodes ==> n.value.To? && test.requires(n.value.target)
    ensures found ==> i < |nodes| && node == nodes[i] && test(node.value.target)
    ensures found ==> forall j :: 0 <= j < i ==> !test(nodes[j].value.target)
    ensures !found ==> forall j :: 0 <= j < |nodes| ==> !test(nodes[j].value.target)
  {
    var current := head.next;
    i := 0;
    while current != head
      invariant 0 <= i <= |nodes| && current == At(head, nodes, i)
      invariant forall j :: 0 <= j < i ==> !test(nodes[j].value.target)
      decreases |nodes| - i
    {
      if test(current.value.target) {
        return true, current, i;
      }
      current := current.next;
      i := i + 1;
    }
    return false, head, i;
  }
}

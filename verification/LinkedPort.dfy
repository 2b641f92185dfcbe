/**
 The port as it is laid out in memory (Shared/NtlSharedCommon.h): a singly linked list with head
 and tail pointers.  Each method is one critical section and refines the section of the same
 name on the queue of items.
 */
module LinkedPort {
  import opened CompletionPort

  class Node {
    const item: Item
    var next: Node?

    constructor (item: Item)
      ensures this.item == item && next == null
    {
      this.item := item;
      next := null;
    }
  }

  function Items(nodes: seq<Node>): seq<Item> {
    seq(|nodes|, i requires 0 <= i < |nodes| => nodes[i].item)
  }

  lemma ItemsAppend(nodes: seq<Node>, node: Node)
    ensures Items(nodes + [node]) == Items(nodes) + [node.item]
  {}

  lemma ItemsRest(nodes: seq<Node>)
    requires nodes != []
    ensures Items(nodes)[0] == nodes[0].item && Items(nodes[1..]) == Items(nodes)[1..]
  {}

  /** Every node points to its successor in `nodes`, the last one nowhere; no node occurs twice. */
  ghost predicate Linked(nodes: seq<Node>)
    reads nodes
  {
    && (forall i :: 0 <= i < |nodes| - 1 ==> nodes[i].next == nodes[i + 1])
    && (nodes != [] ==> nodes[|nodes| - 1].next == null)
    && (forall i, j :: 0 <= i < j < |nodes| ==> nodes[i] != nodes[j])
  }

  class Port {
    var head: Node?
    var tail: Node?
    var closed: bool
    var refcount: int
    ghost var nodes: seq<Node>

    ghost predicate Valid()
      reads this, nodes
    {
      && Linked(nodes)
      && (nodes == [] ==> head == null && tail == null)
      && (nodes != [] ==> head == nodes[0] && tail == nodes[|nodes| - 1])
    }

    ghost function Value(): Core
      reads this
    {
      Core(Items(nodes), closed, refcount)
    }

    constructor ()
      ensures Valid() && Value() == NEW_PORT && nodes == []
    {
      head, tail := null, null;
      closed, refcount := false, 0;
      nodes := [];
    }

    /** The loop test of Get and what follows it: wait, give up, or unlink the first node. */
    method TakeFirst() returns (outcome: Outcome)
      requires Valid()
      modifies this
      ensures Valid()
      ensures (Value(), outcome) == GetSection(old(Value()))
      ensures nodes == if outcome.Delivered? then old(nodes)[1..] else old(nodes)
    {
      if !closed && head == null {
        return Blocked;
      }
      if closed && head == null {
        refcount := refcount - 1;
        return Failed;
      }
      var first := head;
      head := first.next;
      if head == null {
        tail := null;
      }
      ItemsRest(nodes);
      nodes := nodes[1..];
      refcount := refcount - 1;
      return Delivered(first.item);
    }

    method Enter() returns (outcome: Outcome)
      requires Valid()
      modifies this
      ensures Valid()
      ensures (Value(), outcome) == EnterGet(old(Value()))
      ensures nodes == if outcome.Delivered? then old(nodes)[1..] else old(nodes)
    {
      refcount := refcount + 1;
      outcome := TakeFirst();
    }

    method PostItem(item: Item) returns (ok: bool)
      requires Valid()
      modifies this, nodes
      ensures Valid()
      ensures (Value(), ok) == PostSection(old(Value()), item)
      ensures forall n :: n in nodes ==> n in old(nodes) || fresh(n)
    {
      var node := new Node(item);
      if closed {
        return false;
      }
      if tail != null {
        tail.next := node;
      } else {
        head := node;
      }
      tail := node;
      ItemsAppend(nodes, node);
      nodes := nodes + [node];
      return true;
    }

    /** The closer's first step; it must wait while callers are inside. */
    method MarkClosed() returns (mustWait: bool)
      requires Valid()
      modifies this`closed
      ensures Valid() && Value() == old(Value()).(closed := true)
      ensures mustWait <==> refcount > 0
    {
      closed := true;
      mustWait := refcount > 0;
    }

    /** Closing frees what is left of the list: each remaining node once, first to last. */
    method Drain() returns (freed: seq<Node>)
      requires Valid()
      modifies this
      ensures Valid()
      ensures Value() == old(Value()).(queue := [])
      ensures freed == old(nodes)
      ensures forall i, j :: 0 <= i < j < |freed| ==> freed[i] != freed[j]
    {
      freed := [];
      var it := head;
      while it != null
        invariant freed <= nodes
        invariant it == if |freed| < |nodes| then nodes[|freed|] else null
        decreases |nodes| - |freed|
      {
        var next := it.next;
        freed := freed + [it];
        it := next;
      }
      head, tail := null, null;
      nodes := [];
    }
  }
}

/**
 The linked FIFO of kernel/queue.c. A node comes from kalloc, so it starts out
 zeroed; that is what makes the next pointer of a new last node null.
 */
module Queue {

  class Node {
    var item: int
    var next: Node?

    constructor Zeroed()
      ensures item == 0 && next == null
    {
      item := 0;
      next := null;
    }
  }

  class Queue {
    var head: Node?
    var tail: Node?
    ghost var nodes: seq<Node>
    ghost var spine: set<Node>

    ghost predicate Valid()
      reads this, spine
    {
      && (forall i | 0 <= i < |nodes| :: nodes[i] in spine)
      && (nodes == [] ==> head == null && tail == null)
      && (nodes != [] ==> head == nodes[0] && tail == nodes[|nodes| - 1] && nodes[|nodes| - 1].next == null)
      && (forall i | 0 <= i < |nodes| - 1 :: nodes[i].next == nodes[i + 1])
      && (forall i, j | 0 <= i < j < |nodes| :: nodes[i] != nodes[j])
    }

    /** The items from front to back. */
    ghost function Items(): seq<int>
      requires Valid()
      reads this, spine
    {
      seq(|nodes|, i requires 0 <= i < |nodes| && Valid() reads this, spine => nodes[i].item)
    }

    constructor ()
      ensures Valid() && Items() == [] && spine == {}
    {
      head := null;
      tail := null;
      nodes := [];
      spine := {};
    }

    /** pushBack */
    method PushBack(data: int)
      requires Valid()
      modifies this, spine
      ensures Valid() && Items() == old(Items()) + [data] && fresh(spine - old(spine))
    {
      var n := new Node.Zeroed();
      n.item := data;
      if head == tail && head == null {
        head := n;
        tail := n;
      } else {
        tail.next := n;
        tail := n;
      }
      nodes := nodes + [n];
      spine := spine + {n};
      assert Items() == old(Items()) + [data];
    }

    /** popFront */
    method PopFront() returns (r: int)
      requires Valid() && Items() != []
      modifies this
      ensures Valid() && [r] + Items() == old(Items()) && spine == old(spine)
    {
      var n := head;
      r := n.item;
      if head == tail {
        head := null;
        tail := null;
      } else {
        head := head.next;
      }
      nodes := nodes[1..];
      assert [r] + Items() == old(Items());
    }

    /** isEmpty */
    method IsEmpty() returns (r: int)
      requires Valid()
      ensures r == 1 <==> Items() == []
      ensures r == 0 || r == 1
    {
      if head == tail && head == null {
        r := 1;
      } else {
        r := 0;
      }
    }
  }
}

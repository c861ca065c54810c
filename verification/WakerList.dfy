/** The circular doubly linked list of wakers inside the async mutex. A node joins
    at the head when a lock future goes to sleep and leaves at the tail when a guard
    is dropped. The list always represents a queue, newest node first.
 */
module WakerList {

  import opened Common

  class WakerNode {
    var next: WakerNode?
    var prev: WakerNode?
    const waker: nat

    constructor (waker: nat)
      ensures this.waker == waker
    {
      this.waker := waker;
      next, prev := null, null;
    }
  }

  /** Neighbours inside the sequence point at each other. */
  ghost predicate Chain(nodes: seq<WakerNode>)
    reads nodes
  {
    && (forall i, j :: 0 <= i < j < |nodes| ==> nodes[i] != nodes[j])
    && (forall i :: 0 <= i < |nodes| - 1 ==> nodes[i].next == nodes[i + 1])
    && (forall i :: 0 < i < |nodes| ==> nodes[i].prev == nodes[i - 1])
  }

  /** And the ends point at each other, which closes the circle. */
  ghost predicate Circle(nodes: seq<WakerNode>)
    reads nodes
  {
    Chain(nodes) && (nodes != [] ==> nodes[|nodes| - 1].next == nodes[0] && nodes[0].prev == nodes[|nodes| - 1])
  }

  lemma ChainCons(node: WakerNode, s: seq<WakerNode>)
    requires s != [] && Chain(s) && node !in s && node.next == s[0] && s[0].prev == node
    ensures Chain([node] + s)
  {
    var t := [node] + s;
    assert forall i :: 0 < i < |t| ==> t[i] == s[i - 1];
  }

  ghost function Wakers(nodes: seq<WakerNode>): seq<nat> {
    seq(|nodes|, i requires 0 <= i < |nodes| => nodes[i].waker)
  }

  class List {
    var head: WakerNode?
    var tail: WakerNode?
    ghost var nodes: seq<WakerNode>

    ghost predicate Valid()
      reads this, nodes
    {
      && Circle(nodes)
      && (nodes == [] ==> head == null && tail == null)
      && (nodes != [] ==> head == nodes[0] && tail == nodes[|nodes| - 1])
    }

    constructor ()
      ensures Valid() && nodes == []
    {
      head, tail, nodes := null, null, [];
    }

    /** A node that is not in the list joins at the head. */
    method Insert(node: WakerNode)
      requires Valid() && node !in nodes
      modifies this, node, nodes
      ensures Valid() && nodes == [node] + old(nodes)
      ensures Wakers(nodes) == [node.waker] + old(Wakers(nodes))
    {
      ghost var s := nodes;
      node.next := head;
      node.prev := tail;
      if node.next == null || node.prev == null {
        node.next := node;
        node.prev := node;
        head := node;
        tail := node;
      } else {
        node.next := head;
        head := node;
        node.prev := tail;
        node.next.prev := node;
        node.prev.next := node;
        assert |s| > 1 ==> s[0] != s[|s| - 1];
        assert Chain(s);
        ChainCons(node, s);
      }
      nodes := [node] + s;
    }

    /** The node at the tail leaves; its waker is the oldest. */
    method Remove() returns (woken: Option<nat>)
      requires Valid()
      modifies this, nodes
      ensures Valid()
      ensures old(nodes) == [] ==> woken == None && nodes == []
      ensures old(nodes) != [] ==> nodes == old(nodes)[..|old(nodes)| - 1]
      ensures old(nodes) != [] ==> woken == Some(old(nodes)[|old(nodes)| - 1].waker)
      ensures old(Wakers(nodes)) == if woken == None then Wakers(nodes) else Wakers(nodes) + [woken.value]
    {
      if tail == null || head == null {
        return None;
      }
      ghost var s := nodes;
      var node := tail;
      assert |s| > 1 ==> node.prev == s[|s| - 2] && s[|s| - 2] != s[|s| - 1];
      if node.prev == node {
        head, tail := null, null;
      } else {
        tail := node.prev;
        node.prev.next := head;
        head.prev := node.prev;
        assert Chain(s[..|s| - 1]);
      }
      nodes := s[..|s| - 1];
      return Some(node.waker);
    }
  }
}

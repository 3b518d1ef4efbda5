// The linked list behind the payload transport's queue: a head, a tail, and a node for each payload.
module PayloadQueue {
  import opened Prelude

  type Payload = seq<byte>

  class Node {
    var next: Node?
    const bytes: Payload

    constructor (bytes: Payload)
      ensures this.bytes == bytes && next == null
    {
      this.bytes := bytes;
      next := null;
    }
  }

  ghost function BytesOf(nodes: seq<Node>): (r: seq<Payload>)
    ensures |r| == |nodes| && forall i :: 0 <= i < |r| ==> r[i] == nodes[i].bytes
  {
    seq(|nodes|, i requires 0 <= i < |nodes| => nodes[i].bytes)
  }

  class Queue {
    var head: Node?
    var tail: Node?
    ghost var nodes: seq<Node>

    // The chain from the head runs through the nodes, each once, and ends at the tail.
    ghost predicate Valid()
      reads this, nodes
    {
      && (forall i, j :: 0 <= i < j < |nodes| ==> nodes[i] != nodes[j])
      && (forall i :: 0 <= i < |nodes| - 1 ==> nodes[i].next == nodes[i + 1])
      && (if nodes == [] then head == null && tail == null
          else head == nodes[0] && tail == nodes[|nodes| - 1] && nodes[|nodes| - 1].next == null)
    }

    ghost function Contents(): seq<Payload>
      reads this
    {
      BytesOf(nodes)
    }

    constructor ()
      ensures Valid() && Contents() == []
    {
      head, tail, nodes := null, null, [];
    }

    // The second section of a commit.
    method Append(node: Node)
      requires Valid() && node !in nodes && node.next == null
      modifies this, nodes
      ensures Valid() && nodes == old(nodes) + [node]
      ensures Contents() == old(Contents()) + [node.bytes]
    {
      if tail != null {
        tail.next := node;
      } else {
        head := node;
      }
      tail := node;
      nodes := nodes + [node];
    }

    // The head leaves the list; it still points to what follows.
    method TakeHead() returns (node: Node)
      requires Valid() && head != null
      modifies this
      ensures Valid() && node == old(head) && node !in nodes && node.next == head
      ensures old(nodes) == [node] + nodes
      ensures old(Contents()) == [node.bytes] + Contents()
    {
      node := head;
      head := node.next;
      if head == null {
        tail := null;
      }
      nodes := nodes[1..];
    }

    // A node for which no token can be had goes back to the front.
    method PutBack(node: Node)
      requires Valid() && node !in nodes
      modifies this, node
      ensures Valid() && nodes == [node] + old(nodes)
      ensures Contents() == [node.bytes] + old(Contents())
    {
      node.next := head;
      head := node;
      if tail == null {
        tail := node;
      }
      nodes := [node] + nodes;
    }

    // Taking the head and putting it back leaves the queue as it was.
    method TryTake(granted: bool) returns (taken: Option<Payload>)
      requires Valid()
      modifies this, nodes
      ensures Valid()
      ensures taken.Some? <==> granted && old(Contents()) != []
      ensures old(Contents()) == (if taken.Some? then [taken.value] else []) + Contents()
    {
      if head == null {
        return None;
      }
      var node := TakeHead();
      if !granted {
        PutBack(node);
        return None;
      }
      return Some(node.bytes);
    }

    // A close takes the whole list away and visits its nodes; `dropped` are the payloads in the order of the visits.
    method DropAll() returns (dropped: seq<Payload>)
      requires Valid()
      modifies this
      ensures Valid() && Contents() == [] && dropped == old(Contents())
    {
      ghost var chain := nodes;
      var node := head;
      head, tail, nodes := null, null, [];
      dropped := [];
      ghost var i := 0;
      while node != null
        invariant i <= |chain| && dropped == BytesOf(chain[..i])
        invariant node == if i < |chain| then chain[i] else null
        decreases |chain| - i
      {
        var next := node.next;
        dropped := dropped + [node.bytes];
        node := next;
        i := i + 1;
      }
      assert chain[..i] == chain;
    }
  }
}

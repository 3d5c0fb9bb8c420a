/** The packet queues of the player, and the thread that fills them and seeks. */
module PacketQueues {

  /** A packet as it was read, numbered in reading order, or the marker that follows a seek. */
  datatype Packet = Flush | Packet(number: nat, bytes: nat)

  function Size(p: Packet): nat {
    if p.Flush? then 0 else p.bytes
  }

  function Sizes(ps: seq<Packet>): nat {
    if ps == [] then 0 else Sizes(ps[..|ps| - 1]) + Size(ps[|ps| - 1])
  }

  lemma {:induction false} SizesSnoc(ps: seq<Packet>, p: Packet)
    ensures Sizes(ps + [p]) == Sizes(ps) + Size(p)
  {
    assert (ps + [p])[..|ps|] == ps;
  }

  lemma {:induction false} SizesCons(ps: seq<Packet>)
    requires ps != []
    ensures Sizes(ps) == Size(ps[0]) + Sizes(ps[1..])
  {
    if |ps| > 1 {
      var n := |ps| - 1;
      SizesCons(ps[..n]);
      assert ps[..n][1..] == ps[1..][..n - 1] && ps[1..][n - 1] == ps[n];
    } else {
      assert ps[..0] == [] && ps[1..] == [];
    }
  }

  class PacketNode {
    const pkt: Packet
    var next: PacketNode?

    constructor (pkt: Packet)
      ensures this.pkt == pkt && next == null
    {
      this.pkt, this.next := pkt, null;
    }
  }

  function PacketsOf(nodes: seq<PacketNode>): (ps: seq<Packet>)
    ensures |ps| == |nodes| && forall i :: 0 <= i < |nodes| ==> ps[i] == nodes[i].pkt
  {
    seq(|nodes|, i requires 0 <= i < |nodes| => nodes[i].pkt)
  }

  lemma PacketsSnoc(nodes: seq<PacketNode>, node: PacketNode)
    ensures PacketsOf(nodes + [node]) == PacketsOf(nodes) + [node.pkt]
  {
  }

  /** What was delivered before the last flush, then the packets put since: delivered ones first, then the queue. */
  predicate Balanced(delivered: seq<Packet>, contents: seq<Packet>, past: seq<Packet>, since: seq<Packet>) {
    delivered + contents == past + since && past <= delivered
  }

  lemma BalancedPut(delivered: seq<Packet>, contents: seq<Packet>, past: seq<Packet>, since: seq<Packet>, p: Packet)
    requires Balanced(delivered, contents, past, since)
    ensures Balanced(delivered, contents + [p], past, since + [p])
  {
    assert delivered + (contents + [p]) == delivered + contents + [p];
    assert past + (since + [p]) == past + since + [p];
  }

  lemma BalancedGet(delivered: seq<Packet>, contents: seq<Packet>, past: seq<Packet>, since: seq<Packet>)
    requires Balanced(delivered, contents, past, since) && contents != []
    ensures Balanced(delivered + [contents[0]], contents[1..], past, since)
  {
    assert delivered + [contents[0]] + contents[1..] == delivered + contents;
  }

  lemma PacketsTail(nodes: seq<PacketNode>)
    requires nodes != []
    ensures PacketsOf(nodes)[0] == nodes[0].pkt && PacketsOf(nodes)[1..] == PacketsOf(nodes[1..])
  {
  }

  datatype Got = Aborted | Empty | Next(pkt: Packet)

  /** A queue of packets as a linked list. Every method runs under the lock of the queue. */
  class PacketQueue {
    var first: PacketNode?
    var last: PacketNode?
    var count: nat
    var size: nat
    var aborted: bool
    ghost var nodes: seq<PacketNode>
    ghost var cells: set<PacketNode>
    ghost var delivered: seq<Packet>
    /** What had been delivered at the last flush, and what has been put since. */
    ghost var past: seq<Packet>
    ghost var since: seq<Packet>

    ghost predicate Valid()
      reads this, cells
    {
      && Linked()
      && count == |nodes| && size == Sizes(Contents())
      && Balanced(delivered, Contents(), past, since)
    }

    ghost predicate Linked()
      reads this`first, this`last, this`nodes, this`cells, cells`next
    {
      && (forall i :: 0 <= i < |nodes| ==> nodes[i] in cells)
      && (if nodes == [] then first == null && last == null
          else first == nodes[0] && last == nodes[|nodes| - 1] && nodes[|nodes| - 1].next == null)
      && (forall i :: 0 <= i < |nodes| - 1 ==> nodes[i].next == nodes[i + 1])
      && (forall i, j :: 0 <= i < j < |nodes| ==> nodes[i] != nodes[j])
    }

    ghost function Contents(): (ps: seq<Packet>)
      reads this`nodes
    {
      PacketsOf(nodes)
    }

    constructor ()
      ensures Valid() && Contents() == delivered == past == since == [] && !aborted && cells == {}
    {
      first, last, count, size, aborted := null, null, 0, 0, false;
      nodes, cells, delivered, past, since := [], {}, [], [], [];
    }

    /** Frees every packet in the queue, one by one. */
    method Flush() returns (freed: seq<Packet>)
      requires Valid()
      modifies this`first, this`last, this`count, this`size, this`nodes, this`past, this`since
      ensures Valid() && Contents() == [] && since == [] && past == delivered && nodes == []
      ensures freed == old(Contents()) && count == 0 && size == 0
    {
      var pkt := first;
      freed := [];
      while pkt != null
        invariant nodes == old(nodes) && delivered == old(delivered) && Linked()
        invariant |freed| <= |nodes| && pkt == if |freed| < |nodes| then nodes[|freed|] else null
        invariant freed == Contents()[..|freed|]
        decreases |nodes| - |freed|
      {
        freed := freed + [pkt.pkt];
        pkt := pkt.next;
      }
      last, first, count, size := null, null, 0, 0;
      nodes, past, since := [], delivered, [];
    }

    /** Appends a packet, unless there is no memory for it. */
    method Put(pkt: Packet, memory: bool) returns (ok: bool)
      requires Valid()
      modifies this`first, this`last, this`count, this`size, this`nodes, this`cells, this`since, cells`next
      ensures Valid() && ok == memory
      ensures ok ==> Contents() == old(Contents()) + [pkt] && since == old(since) + [pkt]
      ensures old(cells) <= cells && fresh(cells - old(cells))
      ensures !ok ==> Contents() == old(Contents()) && since == old(since) && size == old(size) && count == old(count)
      ensures ok ==> count == old(count) + 1 && size == old(size) + (if pkt.Packet? then pkt.bytes else 0)
    {
      if !memory {
        return false;
      }
      hide Valid, PacketsOf;
      var node := new PacketNode(pkt);
      Append(node);
      ok := true;
    }

    /** The list and what is counted of it grow by one node. */
    method Append(node: PacketNode)
      requires Valid() && node !in cells && node.next == null
      modifies this`first, this`last, this`count, this`size, this`nodes, this`cells, this`since, cells`next
      ensures Valid() && Contents() == old(Contents()) + [node.pkt] && since == old(since) + [node.pkt]
      ensures cells == old(cells) + {node}
      ensures count == old(count) + 1 && size == old(size) + (if node.pkt.Packet? then node.pkt.bytes else 0)
    {
      hide Linked, Sizes, PacketsOf, Balanced;
      SizesSnoc(Contents(), node.pkt);
      BalancedPut(delivered, Contents(), past, since, node.pkt);
      Link(node);
      PacketsSnoc(old(nodes), node);
      count := count + 1;
      size := size + Size(node.pkt);
      since := since + [node.pkt];
    }

    /** Hangs a new node behind the last one. */
    method Link(node: PacketNode)
      requires Linked() && node !in cells && node.next == null
      modifies this`first, this`last, this`nodes, this`cells, cells`next
      ensures Linked() && nodes == old(nodes) + [node] && cells == old(cells) + {node}
    {
      if last == null {
        first := node;
      } else {
        last.next := node;
      }
      last := node;
      nodes, cells := nodes + [node], cells + {node};
    }

    method Abort()
      requires Valid()
      modifies this`aborted
      ensures Valid() && aborted
    {
      aborted := true;
    }

    /** Takes the oldest packet; an empty queue is left as it is, for the caller to wait or go on. */
    method Get() returns (r: Got)
      requires Valid()
      modifies this`first, this`last, this`count, this`size, this`nodes, this`delivered
      ensures Valid()
      ensures r.Aborted? <==> aborted
      ensures r.Empty? <==> !aborted && old(Contents()) == []
      ensures r.Next? ==> old(Contents()) == [r.pkt] + Contents() && delivered == old(delivered) + [r.pkt]
      ensures r.Next? ==> count == old(count) - 1 && size == old(size) - (if r.pkt.Packet? then r.pkt.bytes else 0)
      ensures !r.Next? ==> Contents() == old(Contents()) && delivered == old(delivered)
    {
      hide Linked, Sizes, PacketsOf, Balanced;
      if aborted {
        return Aborted;
      }
      FirstNode();
      if first == null {
        return Empty;
      }
      ghost var before := Contents();
      PacketsTail(nodes);
      SizesCons(before);
      BalancedGet(delivered, before, past, since);
      var node := Unlink();
      count := count - 1;
      size := size - Size(node.pkt);
      delivered := delivered + [node.pkt];
      assert before == [node.pkt] + Contents();
      r := Next(node.pkt);
    }

    lemma FirstNode()
      requires Linked()
      ensures first == null <==> nodes == []
      ensures nodes == [] ==> Contents() == []
    {
    }

    /** Takes the first node off the list. */
    method Unlink() returns (node: PacketNode)
      requires Linked() && nodes != []
      modifies this`first, this`last, this`nodes
      ensures Linked() && node == old(nodes[0]) && nodes == old(nodes)[1..]
    {
      node := first;
      first := node.next;
      if first == null {
        last := null;
      }
      nodes := nodes[1..];
    }
  }
}

// The queue of wepoll: a ring of links that starts and ends at the queue's own head. A link that is
// in no queue points to itself. SocketPort and PollGroups treat such queues as sequences; here is
// why they may.

module IntrusiveQueue {
  import opened Basics

  class Link {
    var prev: Link
    var next: Link

    // queue_node_init
    constructor ()
      ensures prev == this && next == this
    {
      prev, next := this, this;
    }
  }

  ghost predicate Joined(s: seq<Link>)
    reads s
  {
    forall i, j | 0 <= i < |s| && j == i + 1 && j < |s| :: s[i].next == s[j] && s[j].prev == s[i]
  }

  ghost predicate Ring(r: seq<Link>)
    reads r
  {
    && r != []
    && Distinct(r)
    && Joined(r)
    && r[|r| - 1].next == r[0] && r[0].prev == r[|r| - 1]
  }

  lemma Neighbours(r: seq<Link>, k: nat)
    requires Ring(r) && k < |r|
    ensures r[k].prev == if k == 0 then r[|r| - 1] else r[k - 1]
    ensures r[k].next == if k == |r| - 1 then r[0] else r[k + 1]
  {
    if k > 0 {
      assert r[k - 1].next == r[k];
    }
    if k < |r| - 1 {
      assert r[k + 1].prev == r[k];
    }
  }

  lemma JoinedParts(s: seq<Link>, k: nat)
    requires Joined(s) && k <= |s|
    ensures Joined(s[..k]) && Joined(s[k..])
  {
  }

  lemma JoinedWhole(a: seq<Link>, b: seq<Link>)
    requires Joined(a) && Joined(b)
    requires a != [] && b != [] ==> a[|a| - 1].next == b[0] && b[0].prev == a[|a| - 1]
    ensures Joined(a + b)
  {
  }

  lemma RingTail(head: Link, rest: seq<Link>)
    requires Ring([head] + rest)
    ensures Joined(rest) && Distinct(rest) && forall i | 0 <= i < |rest| :: rest[i] != head
  {
    var r := [head] + rest;
    JoinedParts(r, 1);
    assert r[1..] == rest;
    assert forall i | 0 <= i < |rest| :: rest[i] == r[i + 1];
  }

  // Two rings that share a link are the same ring: a link is in at most one queue.
  lemma {:induction false} OneRing(r: seq<Link>, q: seq<Link>, i: nat, j: nat)
    requires Ring(r) && Ring(q) && i < |r| && j < |q| && r[i] == q[j]
    ensures r[0] in q
    decreases i
  {
    if i > 0 {
      Neighbours(r, i);
      Neighbours(q, j);
      OneRing(r, q, i - 1, if j == 0 then |q| - 1 else j - 1);
    }
  }

  // queue_is_enqueued answers whether a link shares its ring with anything.
  lemma EnqueuedMeansShared(r: seq<Link>, k: nat)
    requires Ring(r) && k < |r|
    ensures r[k].prev != r[k] <==> |r| > 1
  {
    Neighbours(r, k);
  }

  // queue__detach_node: only the neighbours change; the node itself keeps its old links.
  method Detach(node: Link, ghost r: seq<Link>, ghost k: nat)
    requires Ring(r) && 0 < k < |r| && r[k] == node
    modifies node.prev, node.next
    ensures Ring(r[..k] + r[k + 1..])
    ensures unchanged(node)
  {
    Neighbours(r, k);
    ghost var before, after := r[..k], r[k + 1..];
    JoinedParts(r, k);
    JoinedParts(r, k + 1);
    DistinctCut(r, k);
    node.prev.next := node.next;
    node.next.prev := node.prev;
    JoinedWhole(before, after);
  }

  class Queue {
    const head: Link
    ghost var nodes: seq<Link>

    ghost predicate Valid()
      reads this, head, nodes
    {
      Ring([head] + nodes)
    }

    // queue_init
    constructor ()
      ensures Valid() && nodes == [] && fresh(head)
    {
      head := new Link();
      nodes := [];
    }

    // queue_is_empty
    method IsEmpty() returns (r: bool)
      requires Valid()
      ensures r <==> nodes == []
    {
      EnqueuedMeansShared([head] + nodes, 0);
      r := head.prev == head;
    }

    // queue_first
    method First() returns (r: Link?)
      requires Valid()
      ensures r == if nodes == [] then null else nodes[0]
    {
      Neighbours([head] + nodes, 0);
      var empty := IsEmpty();
      r := if empty then null else head.next;
    }

    // queue_last
    method Last() returns (r: Link?)
      requires Valid()
      ensures r == if nodes == [] then null else nodes[|nodes| - 1]
    {
      Neighbours([head] + nodes, 0);
      var empty := IsEmpty();
      r := if empty then null else head.prev;
    }

    // queue_prepend
    method Prepend(node: Link)
      requires Valid() && node != head && node !in nodes
      modifies this, head, nodes, node
      ensures Valid() && nodes == [node] + old(nodes)
    {
      ghost var rest := nodes;
      Neighbours([head] + rest, 0);
      RingTail(head, rest);
      node.next := head.next;
      node.prev := head;
      node.next.prev := node;
      head.next := node;
      JoinedWhole([node], rest);
      JoinedWhole([head], [node] + rest);
      nodes := [node] + nodes;
    }

    // queue_append
    method Append(node: Link)
      requires Valid() && node != head && node !in nodes
      modifies this, head, nodes, node
      ensures Valid() && nodes == old(nodes) + [node]
    {
      Neighbours([head] + nodes, 0);
      node.next := head;
      node.prev := head.prev;
      node.prev.next := node;
      head.prev := node;
      JoinedWhole([head] + nodes, [node]);
      assert [head] + (nodes + [node]) == [head] + nodes + [node];
      nodes := nodes + [node];
    }

    method Take(node: Link, ghost k: nat)
      requires Valid() && k < |nodes| && nodes[k] == node
      modifies this, head, nodes
      ensures Valid() && nodes == old(nodes)[..k] + old(nodes)[k + 1..]
      ensures node != head && node !in nodes
    {
      ghost var r := [head] + nodes;
      assert r[k + 1] == node && r[0] == head;
      Neighbours(r, k + 1);
      DistinctCut(nodes, k) by {
        assert forall i | 0 <= i < |nodes| :: nodes[i] == r[i + 1];
      }
      Detach(node, r, k + 1);
      assert r[..k + 1] + r[k + 2..] == [head] + (nodes[..k] + nodes[k + 1..]);
      nodes := nodes[..k] + nodes[k + 1..];
    }

    // queue_remove: the node is in no queue afterwards.
    method Remove(node: Link, ghost k: nat)
      requires Valid() && k < |nodes| && nodes[k] == node
      modifies this, head, nodes
      ensures Valid() && nodes == old(nodes)[..k] + old(nodes)[k + 1..]
      ensures Ring([node])
    {
      Take(node, k);
      node.prev, node.next := node, node;
    }

    // queue_move_to_start
    method MoveToStart(node: Link, ghost k: nat)
      requires Valid() && k < |nodes| && nodes[k] == node
      modifies this, head, nodes
      ensures Valid() && nodes == [node] + (old(nodes)[..k] + old(nodes)[k + 1..])
    {
      Take(node, k);
      Prepend(node);
    }

    // queue_move_to_end
    method MoveToEnd(node: Link, ghost k: nat)
      requires Valid() && k < |nodes| && nodes[k] == node
      modifies this, head, nodes
      ensures Valid() && nodes == old(nodes)[..k] + old(nodes)[k + 1..] + [node]
    {
      Take(node, k);
      Append(node);
    }
  }
}

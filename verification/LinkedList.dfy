// The doubly linked list of ezgrpc2: nodes with next and prev links, a front, a back and a count.
// `nodes` is the list as a sequence; every operation is proved to do to it, and to the data it
// holds, what its name says.

module LinkedList {
  import opened Basics

  class Node<T> {
    const data: T
    var next: Node?<T>
    var prev: Node?<T>

    constructor (data: T)
      ensures this.data == data && next == null && prev == null
    {
      this.data, next, prev := data, null, null;
    }
  }

  // The index of the first element that matches, or the length.
  ghost function FirstMatch<T>(s: seq<T>, matches: T -> bool): (i: nat)
    ensures i <= |s| && (i < |s| ==> matches(s[i]))
    ensures forall j | 0 <= j < i :: !matches(s[j])
  {
    if s == [] || matches(s[0]) then 0 else 1 + FirstMatch(s[1..], matches)
  }

  lemma {:induction false} FirstMatchIs<T>(s: seq<T>, matches: T -> bool, i: nat)
    requires i <= |s| && (i < |s| ==> matches(s[i])) && forall j | 0 <= j < i :: !matches(s[j])
    ensures FirstMatch(s, matches) == i
  {
    if i > 0 {
      assert !matches(s[0]);
      forall j | 0 <= j < i - 1
        ensures !matches(s[1..][j])
      {
        assert !matches(s[j + 1]);
      }
      FirstMatchIs(s[1..], matches, i - 1);
    }
  }

  lemma DistinctWhole<T>(a: seq<T>, b: seq<T>)
    requires Distinct(a) && Distinct(b)
    requires forall i, j | 0 <= i < |a| && 0 <= j < |b| :: a[i] != b[j]
    ensures Distinct(a + b)
  {
  }

  // Each node is linked to its neighbours in the sequence, and the ends to nothing.
  ghost predicate Chained<T>(nodes: seq<Node<T>>)
    reads nodes
  {
    && Distinct(nodes)
    && (nodes != [] ==> nodes[0].prev == null && nodes[|nodes| - 1].next == null)
    && Joined(nodes)
  }

  ghost predicate Joined<T>(nodes: seq<Node<T>>)
    reads nodes
  {
    forall i, j | 0 <= i < |nodes| && j == i + 1 && j < |nodes| ::
      nodes[i].next == nodes[j] && nodes[j].prev == nodes[i]
  }

  lemma JoinedParts<T>(nodes: seq<Node<T>>, k: nat)
    requires Joined(nodes) && k <= |nodes|
    ensures Joined(nodes[..k]) && Joined(nodes[k..])
  {
  }

  lemma JoinedWhole<T>(a: seq<Node<T>>, b: seq<Node<T>>)
    requires Joined(a) && Joined(b)
    requires a != [] && b != [] ==> a[|a| - 1].next == b[0] && b[0].prev == a[|a| - 1]
    ensures Joined(a + b)
  {
  }

  lemma Neighbours<T>(nodes: seq<Node<T>>, k: nat)
    requires Chained(nodes) && k < |nodes|
    ensures nodes[k].prev == if k == 0 then null else nodes[k - 1]
    ensures nodes[k].next == if k == |nodes| - 1 then null else nodes[k + 1]
  {
    if k > 0 {
      assert nodes[k - 1].next == nodes[k];
    }
    if k < |nodes| - 1 {
      assert nodes[k + 1].prev == nodes[k];
    }
  }

  ghost function DataOf<T>(nodes: seq<Node<T>>): seq<T> {
    seq(|nodes|, i requires 0 <= i < |nodes| => nodes[i].data)
  }

  lemma DataOfConcat<T>(a: seq<Node<T>>, b: seq<Node<T>>)
    ensures DataOf(a + b) == DataOf(a) + DataOf(b)
  {
  }

  lemma DataOfLength<T>(nodes: seq<Node<T>>)
    ensures |DataOf(nodes)| == |nodes|
  {
  }

  lemma DataOfCut<T>(nodes: seq<Node<T>>, k: nat)
    requires k < |nodes|
    ensures |DataOf(nodes)| == |nodes|
    ensures DataOf(nodes[..k] + nodes[k + 1..]) == DataOf(nodes)[..k] + DataOf(nodes)[k + 1..]
    ensures DataOf(nodes)[k] == nodes[k].data
    ensures DataOf(nodes) == DataOf(nodes[..k]) + [nodes[k].data] + DataOf(nodes[k + 1..])
  {
  }

  // `all` holds every node the list has had; only they change when it does.
  class List<T(==)> {
    var front: Node?<T>
    var back: Node?<T>
    var count: nat
    ghost var nodes: seq<Node<T>>
    ghost var all: set<Node<T>>

    // Front and back are the ends of the chain q.
    ghost predicate Ends(q: seq<Node<T>>)
      reads this, q
    {
      && front == (if q == [] then null else q[0])
      && back == (if q == [] then null else q[|q| - 1])
      && Chained(q)
    }

    ghost predicate Valid()
      reads this, nodes
    {
      && count == |nodes|
      && Ends(nodes)
      && (forall i | 0 <= i < |nodes| :: nodes[i] in all)
    }

    ghost function Contents(): seq<T>
      reads this
    {
      DataOf(nodes)
    }

    constructor ()
      ensures Valid() && nodes == [] && Contents() == [] && all == {}
    {
      front, back, count, nodes, all := null, null, 0, [], {};
    }

    method PushBack(data: T)
      requires Valid()
      modifies this, all
      ensures Valid() && Contents() == old(Contents()) + [data]
      ensures |nodes| > 0 && nodes[..|nodes| - 1] == old(nodes) && fresh(nodes[|nodes| - 1])
      ensures all == old(all) + {nodes[|nodes| - 1]}
    {
      hide DataOf;
      var node := new Node(data);
      DataOfConcat(nodes, [node]);
      DataOfCut([node], 0);
      if back != null {
        back.next := node;
        node.prev := back;
        back := node;
      } else {
        front := node;
        back := node;
      }
      count := count + 1;
      nodes, all := nodes + [node], all + {node};
    }

    method PushFront(data: T)
      requires Valid()
      modifies this, all
      ensures Valid() && Contents() == [data] + old(Contents())
      ensures |nodes| > 0 && nodes[1..] == old(nodes) && fresh(nodes[0])
      ensures all == old(all) + {nodes[0]}
    {
      hide DataOf;
      var node := new Node(data);
      DataOfConcat([node], nodes);
      DataOfCut([node], 0);
      node.next := front;
      if front != null {
        front.prev := node;
      } else {
        back := node;
      }
      front := node;
      count := count + 1;
      nodes, all := [node] + nodes, all + {node};
    }

    method PopBack() returns (r: Option<T>)
      requires Valid()
      modifies this, all
      ensures all == old(all)
      ensures Valid()
      ensures r == None <==> old(Contents()) == []
      ensures r == None ==> nodes == old(nodes)
      ensures r.Some? ==> old(Contents()) == Contents() + [r.value] && nodes == old(nodes)[..|old(nodes)| - 1]
    {
      if count == 0 {
        return None;
      }
      Neighbours(nodes, |nodes| - 1);
      var last := back;
      r := Some(last.data);
      back := last.prev;
      if back != null {
        back.next := null;
      } else {
        front := null;
        assert count == 1;
      }
      count := count - 1;
      nodes := nodes[..|nodes| - 1];
    }

    method PopFront() returns (r: Option<T>)
      requires Valid()
      modifies this, all
      ensures all == old(all)
      ensures Valid()
      ensures r == None <==> old(Contents()) == []
      ensures r == None ==> nodes == old(nodes)
      ensures r.Some? ==> old(Contents()) == [r.value] + Contents() && nodes == old(nodes)[1..]
    {
      if count == 0 {
        return None;
      }
      Neighbours(nodes, 0);
      var first := front;
      r := Some(first.data);
      front := first.next;
      if front != null {
        front.prev := null;
      } else {
        back := null;
        assert count == 1;
      }
      count := count - 1;
      nodes := nodes[1..];
    }

    method PeekFront() returns (r: Option<T>)
      requires Valid()
      ensures r == if Contents() == [] then None else Some(Contents()[0])
    {
      r := if front != null then Some(front.data) else None;
    }

    method PeekBack() returns (r: Option<T>)
      requires Valid()
      ensures r == if Contents() == [] then None else Some(Contents()[|Contents()| - 1])
    {
      r := if back != null then Some(back.data) else None;
    }

    // The walk that find and remove share. The comparison of the code returns 0 on a match.
    method Seek(matches: T -> bool) returns (node: Node?<T>, ghost k: nat)
      requires Valid()
      ensures k == FirstMatch(Contents(), matches)
      ensures node == if k < |nodes| then nodes[k] else null
    {
      node, k := front, 0;
      while node != null && !matches(node.data)
        invariant k <= |nodes| && node == if k < |nodes| then nodes[k] else null
        invariant forall j | 0 <= j < k :: !matches(Contents()[j])
        decreases |nodes| - k
      {
        node, k := node.next, k + 1;
      }
      FirstMatchIs(Contents(), matches, k);
    }

    method Find(matches: T -> bool) returns (r: Option<T>)
      requires Valid()
      ensures
        var k := FirstMatch(Contents(), matches);
        r == if k < |Contents()| then Some(Contents()[k]) else None
    {
      var node, k := Seek(matches);
      r := if node != null then Some(node.data) else None;
    }

    // Takes out the first match and nothing else.
    method Remove(matches: T -> bool) returns (r: Option<T>)
      requires Valid()
      modifies this, all
      ensures all == old(all)
      ensures Valid()
      ensures
        var k := FirstMatch(old(Contents()), matches);
        if k == |old(Contents())| then r == None && nodes == old(nodes) && Contents() == old(Contents())
        else
          && r == Some(old(Contents())[k])
          && nodes == old(nodes)[..k] + old(nodes)[k + 1..]
          && Contents() == old(Contents())[..k] + old(Contents())[k + 1..]
    {
      var node, k := Seek(matches);
      if node == null {
        return None;
      }
      r := Some(node.data);
      Unlink(node, k);
    }

    // The neighbours of a node are linked to each other.
    method Bypass(prev: Node?<T>, next: Node?<T>)
      requires prev != next || prev == null
      modifies this`front, this`back, if prev == null then {} else {prev}, if next == null then {} else {next}
      ensures if prev == null then front == next else front == old(front) && prev.next == next
      ensures if next == null then back == prev else back == old(back) && next.prev == prev
      ensures prev != null ==> prev.prev == old(prev.prev)
      ensures next != null ==> next.next == old(next.next)
    {
      if prev != null {
        prev.next := next;
      } else {
        front := next;
      }
      if next != null {
        next.prev := prev;
      } else {
        back := prev;
      }
    }

    // Closes the chain over one of its nodes.
    method Close(node: Node<T>, ghost k: nat)
      requires Ends(nodes) && k < |nodes| && nodes[k] == node
      modifies this`front, this`back, nodes
      ensures Ends(nodes[..k] + nodes[k + 1..])
    {
      Neighbours(nodes, k);
      JoinedParts(nodes, k);
      JoinedParts(nodes, k + 1);
      DistinctCut(nodes, k);
      Bypass(node.prev, node.next);
      JoinedWhole(nodes[..k], nodes[k + 1..]);
    }

    method Unlink(node: Node<T>, ghost k: nat)
      requires Valid() && k < |nodes| && nodes[k] == node
      modifies this, all
      ensures all == old(all)
      ensures Valid() && nodes == old(nodes)[..k] + old(nodes)[k + 1..]
      ensures Contents() == old(Contents())[..k] + old(Contents())[k + 1..]
    {
      hide DataOf, Chained;
      DataOfCut(nodes, k);
      Close(node, k);
      count := count - 1;
      nodes := nodes[..k] + nodes[k + 1..];
    }

    // Appends the nodes of src, without copying them, and leaves src empty.
    method ConcatAndEmpty(src: List<T>)
      requires Valid() && src.Valid() && src != this
      requires forall i, j | 0 <= i < |nodes| && 0 <= j < |src.nodes| :: nodes[i] != src.nodes[j]
      modifies this, src, all, src.all
      ensures all == old(all) + old(src.all) && src.all == {}
      ensures Valid() && src.Valid() && src.nodes == []
      ensures nodes == old(nodes) + old(src.nodes)
      ensures Contents() == old(Contents()) + old(src.Contents()) && src.Contents() == []
    {
      hide DataOf;
      DataOfConcat(nodes, src.nodes);
      DataOfLength<T>([]);
      if src.count == 0 {
        all, src.all := all + src.all, {};
        return;
      }
      Adopt(src);
      src.front, src.back, src.count, src.nodes, src.all := null, null, 0, [], {};
    }

    method Adopt(src: List<T>)
      requires Valid() && src.Valid() && src != this && src.nodes != []
      requires forall i, j | 0 <= i < |nodes| && 0 <= j < |src.nodes| :: nodes[i] != src.nodes[j]
      modifies this, all, src.all
      ensures Valid() && nodes == old(nodes) + src.nodes && all == old(all) + src.all
    {
      if front == null {
        front := src.front;
      }
      if back != null {
        back.next := src.front;
        src.front.prev := back;
      } else {
        back := src.back;
      }
      back := src.back;
      count := count + src.count;
      all := all + src.all;
      JoinedWhole(nodes, src.nodes);
      DistinctWhole(nodes, src.nodes);
      nodes := nodes + src.nodes;
    }
  }
}

// Snapshots of the intrusive red-black tree of wepoll.
//
// A node is a heap object; a snapshot maps every node of one tree to a record of
// its fields. Each record also carries three annotations that exist only in the proof:
// the open key interval (lo, hi) that the node's subtree lives in, and its
// black height. With intervals the tree shape is a set of purely local facts: no
// recursion, no disjointness of subtrees, and "hi - lo" is a termination measure
// in both directions.

module TreeShape {
  import opened Basics

  const UINTPTR_LIMIT: int := 0x1_0000_0000_0000_0000

  type uintptr = k: int | 0 <= k < UINTPTR_LIMIT

  datatype Side = Left | Right
  {
    function Other(): Side {
      if this.Left? then Right else Left
    }
  }

  class Node {
    var left: Node?
    var right: Node?
    var parent: Node?
    var key: uintptr
    var red: bool

    constructor ()
      ensures left == right == parent == null && key == 0 && !red
    {
      left, right, parent, key, red := null, null, null, 0, false;
    }

    function Child(side: Side): Node?
      reads this
    {
      if side.Left? then left else right
    }
  }

  datatype Rec = Rec(left: Node?, right: Node?, parent: Node?, key: int, red: bool, lo: int, hi: int, bh: nat)
  {
    function Child(side: Side): Node? {
      if side.Left? then left else right
    }

    function WithChild(side: Side, child: Node?): Rec {
      if side.Left? then this.(left := child) else this.(right := child)
    }

    // The interval that belongs to the child on the given side.
    function ChildLo(side: Side): int {
      if side.Left? then lo else key
    }

    function ChildHi(side: Side): int {
      if side.Left? then key else hi
    }

    ghost predicate Spans(k: int) {
      lo < k < hi
    }
  }

  type Shape = map<Node, Rec>

  // The same heap fields; the annotations may differ.
  ghost predicate SameFields(h: Shape, h': Shape) {
    h.Keys == h'.Keys && forall n | n in h :: h'[n] == h[n].(lo := h'[n].lo, hi := h'[n].hi, bh := h'[n].bh)
  }

  // The same heap fields on every node but x, which has left the tree.
  ghost predicate SameFieldsWithout(h: Shape, h': Shape, x: Node) {
    && x in h && h'.Keys == h.Keys - {x}
    && forall n | n in h' :: h'[n] == h[n].(lo := h'[n].lo, hi := h'[n].hi, bh := h'[n].bh)
  }

  ghost predicate SameKeysWithout(h: Shape, h': Shape, x: Node) {
    x in h && h'.Keys == h.Keys - {x} && forall n | n in h' :: h'[n].key == h[n].key
  }

  // The parent's link to `from` is redirected to `to`; a missing parent stands for the root link.
  ghost function Redirected(h: Shape, parent: Node?, from: Node, to: Node?): (h': Shape)
    requires parent != null ==> parent in h
    ensures h'.Keys == h.Keys
  {
    if parent == null then h
    else if h[parent].left == from then h[parent := h[parent].(left := to)]
    else h[parent := h[parent].(right := to)]
  }

  ghost predicate ChildOk(h: Shape, n: Node, side: Side)
    requires n in h
  {
    var c := h[n].Child(side);
    c != null ==>
      && c in h
      && h[c].parent == n
      && h[c].lo == h[n].ChildLo(side)
      && h[c].hi == h[n].ChildHi(side)
  }

  ghost predicate ParentOk(h: Shape, root: Node?, n: Node)
    requires n in h
  {
    var p := h[n].parent;
    if p == null then n == root else p in h && (h[p].left == n || h[p].right == n)
  }

  // Everything the links of one node must satisfy.
  ghost predicate NodeOk(h: Shape, root: Node?, n: Node)
    requires n in h
  {
    && -1 <= h[n].lo < h[n].key < h[n].hi <= UINTPTR_LIMIT
    && ChildOk(h, n, Left)
    && ChildOk(h, n, Right)
    && ParentOk(h, root, n)
  }

  ghost predicate RootOk(h: Shape, root: Node?) {
    if root == null then h == map[]
    else root in h && h[root].parent == null && h[root].lo == -1 && h[root].hi == UINTPTR_LIMIT
  }

  // Parents and children agree, and keys are in search order.
  ghost predicate Linked(h: Shape, root: Node?) {
    && RootOk(h, root)
    && forall n {:trigger NodeOk(h, root, n)} | n in h :: NodeOk(h, root, n)
  }

  // ---- The nodes below a node ----

  ghost function Subtree(h: Shape, root: Node?, a: Node?): (s: set<Node>)
    requires Linked(h, root) && (a != null ==> a in h)
    ensures s <= h.Keys
    decreases if a == null then 0 else h[a].hi - h[a].lo
  {
    if a == null then {}
    else
      assert NodeOk(h, root, a);
      assert h[a].left != null ==> NodeOk(h, root, h[a].left);
      assert h[a].right != null ==> NodeOk(h, root, h[a].right);
      Subtree(h, root, h[a].left) + {a} + Subtree(h, root, h[a].right)
  }

  // Every key below a node lies in its interval, and intervals nest.
  lemma {:induction false} SubtreeNests(h: Shape, root: Node?, a: Node, x: Node)
    requires Linked(h, root) && a in h && x in Subtree(h, root, a)
    ensures h[a].lo <= h[x].lo < h[x].key < h[x].hi <= h[a].hi
    ensures x != a ==> h[x].hi <= h[a].key || h[a].key <= h[x].lo
    decreases h[a].hi - h[a].lo
  {
    assert NodeOk(h, root, a);
    if x != a {
      if x in Subtree(h, root, h[a].left) {
        assert NodeOk(h, root, h[a].left);
        SubtreeNests(h, root, h[a].left, x);
      } else {
        assert NodeOk(h, root, h[a].right);
        SubtreeNests(h, root, h[a].right, x);
      }
    }
  }

  lemma {:induction false} SubtreeTransitive(h: Shape, root: Node?, a: Node, b: Node, x: Node)
    requires Linked(h, root) && a in h && b in Subtree(h, root, a) && x in Subtree(h, root, b)
    ensures x in Subtree(h, root, a)
    decreases h[a].hi - h[a].lo
  {
    assert NodeOk(h, root, a);
    if b != a {
      if b in Subtree(h, root, h[a].left) {
        assert NodeOk(h, root, h[a].left);
        SubtreeTransitive(h, root, h[a].left, b, x);
      } else {
        assert NodeOk(h, root, h[a].right);
        SubtreeTransitive(h, root, h[a].right, b, x);
      }
    }
  }

  // Climbing parents from any node ends at the root: no node of the tree is detached.
  lemma {:induction false} AllBelowRoot(h: Shape, root: Node?, x: Node)
    requires Linked(h, root) && x in h
    ensures root != null && x in Subtree(h, root, root)
    decreases UINTPTR_LIMIT + 1 - (h[x].hi - h[x].lo)
  {
    assert NodeOk(h, root, x);
    if h[x].parent != null {
      var p := h[x].parent;
      assert NodeOk(h, root, p);
      AllBelowRoot(h, root, p);
      assert x in Subtree(h, root, p);
      SubtreeTransitive(h, root, root, p, x);
    }
  }

  // If a node's interval contains the key of another node, that node is below it.
  lemma {:induction false} SpansMeansBelowFrom(h: Shape, root: Node?, a: Node, n: Node, m: Node)
    requires Linked(h, root) && a in h
    requires n in Subtree(h, root, a) && m in Subtree(h, root, a)
    requires h[n].Spans(h[m].key)
    ensures m in Subtree(h, root, n)
    decreases h[a].hi - h[a].lo
  {
    assert NodeOk(h, root, a);
    if n != a {
      SubtreeNests(h, root, a, n);
      SubtreeNests(h, root, a, m);
      if n in Subtree(h, root, h[a].left) {
        assert NodeOk(h, root, h[a].left);
        SubtreeNests(h, root, h[a].left, n);
        assert m in Subtree(h, root, h[a].left) by {
          if m in Subtree(h, root, h[a].right) {
            assert NodeOk(h, root, h[a].right);
            SubtreeNests(h, root, h[a].right, m);
          }
        }
        SpansMeansBelowFrom(h, root, h[a].left, n, m);
      } else {
        assert NodeOk(h, root, h[a].right);
        SubtreeNests(h, root, h[a].right, n);
        assert m in Subtree(h, root, h[a].right) by {
          if m in Subtree(h, root, h[a].left) {
            assert NodeOk(h, root, h[a].left);
            SubtreeNests(h, root, h[a].left, m);
          }
        }
        SpansMeansBelowFrom(h, root, h[a].right, n, m);
      }
    }
  }

  lemma SpansMeansBelow(h: Shape, root: Node?, n: Node, m: Node)
    requires Linked(h, root) && n in h && m in h && h[n].Spans(h[m].key)
    ensures m in Subtree(h, root, n)
  {
    AllBelowRoot(h, root, n);
    AllBelowRoot(h, root, m);
    SpansMeansBelowFrom(h, root, root, n, m);
  }

  // ---- Consequences used by the operations ----

  // A missing child means that no node has a key in the child's interval. This is what
  // makes a failed descent a proof of absence.
  lemma GapIsEmpty(h: Shape, root: Node?, n: Node, side: Side, m: Node)
    requires Linked(h, root) && n in h && m in h
    requires h[n].Child(side) == null
    ensures !(h[n].ChildLo(side) < h[m].key < h[n].ChildHi(side))
  {
    assert NodeOk(h, root, n);
    if h[n].ChildLo(side) < h[m].key < h[n].ChildHi(side) {
      SpansMeansBelow(h, root, n, m);
      SubtreeNests(h, root, n, m);
      var other := h[n].Child(side.Other());
      if other != null {
        assert NodeOk(h, root, other);
        SubtreeNests(h, root, other, m);
      }
    }
  }

  lemma KeysDistinct(h: Shape, root: Node?, n: Node, m: Node)
    requires Linked(h, root) && n in h && m in h && h[n].key == h[m].key
    ensures n == m
  {
    assert NodeOk(h, root, n);
    SpansMeansBelow(h, root, n, m);
    SubtreeNests(h, root, n, m);
  }

  // ---- Colours and black heights ----

  ghost predicate IsRed(h: Shape, n: Node?) {
    n != null && n in h && h[n].red
  }

  ghost function BlackHeight(h: Shape, n: Node?): nat {
    if n != null && n in h then h[n].bh else 0
  }

  ghost predicate HeightOk(h: Shape, n: Node)
    requires n in h
  {
    && h[n].bh == BlackHeight(h, h[n].left) + (if h[n].red then 0 else 1)
    && h[n].bh == BlackHeight(h, h[n].right) + (if h[n].red then 0 else 1)
  }

  ghost predicate ColourOk(h: Shape, n: Node)
    requires n in h
  {
    h[n].red ==> !IsRed(h, h[n].left) && !IsRed(h, h[n].right)
  }

  // The same conditions child by child.
  lemma BalanceBySide(h: Shape, n: Node, side: Side)
    requires n in h
    ensures HeightOk(h, n) <==>
              && h[n].bh == BlackHeight(h, h[n].Child(side)) + (if h[n].red then 0 else 1)
              && h[n].bh == BlackHeight(h, h[n].Child(side.Other())) + (if h[n].red then 0 else 1)
    ensures ColourOk(h, n) <==>
              (h[n].red ==> !IsRed(h, h[n].Child(side)) && !IsRed(h, h[n].Child(side.Other())))
  {
  }

  ghost predicate RedBlack(h: Shape, root: Node?) {
    && Linked(h, root)
    && (forall n {:trigger HeightOk(h, n)} | n in h :: HeightOk(h, n))
    && (forall n {:trigger ColourOk(h, n)} | n in h :: ColourOk(h, n))
    && !IsRed(h, root)
  }

  // ---- The height bound ----

  ghost function Pow2(n: nat): (p: nat)
    ensures p >= 1
  {
    if n == 0 then 1 else 2 * Pow2(n - 1)
  }

  lemma {:induction false} Pow2Monotone(a: nat, b: nat)
    requires a <= b
    ensures Pow2(a) <= Pow2(b)
  {
    if a < b {
      Pow2Monotone(a, b - 1);
    }
  }

  lemma {:induction false} Pow2Double(a: nat)
    ensures Pow2(2 * a) == Pow2(a) * Pow2(a)
  {
    if a > 0 {
      Pow2Double(a - 1);
      var p := Pow2(a - 1);
      assert Pow2(2 * a) == 2 * Pow2(2 * a - 1) == 4 * Pow2(2 * (a - 1));
      assert (2 * p) * (2 * p) == 4 * (p * p);
    }
  }

  lemma SubtreeCount(h: Shape, root: Node?, a: Node)
    requires Linked(h, root) && a in h
    ensures h[a].left != null ==> h[a].left in h
    ensures h[a].right != null ==> h[a].right in h
    ensures |Subtree(h, root, a)| == |Subtree(h, root, h[a].left)| + 1 + |Subtree(h, root, h[a].right)|
  {
    assert NodeOk(h, root, a);
    var l, r := h[a].left, h[a].right;
    assert l != null ==> NodeOk(h, root, l);
    assert r != null ==> NodeOk(h, root, r);
    var sl, sr := Subtree(h, root, l), Subtree(h, root, r);
    forall x | x in sl ensures x != a && x !in sr {
      SubtreeNests(h, root, l, x);
      if x in sr {
        SubtreeNests(h, root, r, x);
      }
    }
    forall x | x in sr ensures x != a {
      SubtreeNests(h, root, r, x);
    }
    assert sl !! {a} !! sr;
    assert |sl + {a} + sr| == |sl| + 1 + |sr|;
  }

  // A subtree of black height b holds at least 2^b - 1 nodes.
  lemma {:induction false} BlackHeightCount(h: Shape, root: Node?, a: Node?)
    requires RedBlack(h, root) && (a != null ==> a in h)
    ensures Pow2(BlackHeight(h, a)) <= |Subtree(h, root, a)| + 1
    decreases if a == null then 0 else h[a].hi - h[a].lo
  {
    hide Subtree;
    if a != null {
      assert NodeOk(h, root, a) && HeightOk(h, a);
      var l, r := h[a].left, h[a].right;
      assert l != null ==> NodeOk(h, root, l);
      assert r != null ==> NodeOk(h, root, r);
      BlackHeightCount(h, root, l);
      BlackHeightCount(h, root, r);
      SubtreeCount(h, root, a);
    }
  }

  // Longest possible walk from a node down to a missing child, counted in nodes.
  ghost function WalkBound(h: Shape, n: Node?): nat {
    2 * BlackHeight(h, n) + if IsRed(h, n) then 1 else 0
  }

  lemma WalkBoundShrinks(h: Shape, root: Node?, n: Node, side: Side)
    requires RedBlack(h, root) && n in h
    ensures WalkBound(h, h[n].Child(side)) < WalkBound(h, n)
  {
    assert NodeOk(h, root, n) && HeightOk(h, n) && ColourOk(h, n);
  }

  // The walk bound of the root is at most 2 * log2(n + 1).
  lemma RootWalkBound(h: Shape, root: Node?)
    requires RedBlack(h, root)
    ensures Pow2(WalkBound(h, root)) <= (|h| + 1) * (|h| + 1)
  {
    BlackHeightCount(h, root, root);
    var b := BlackHeight(h, root);
    var s := Subtree(h, root, root);
    assert s <= h.Keys;
    SubsetSize(s, h.Keys);
    assert |h.Keys| == |h|;
    Pow2Double(b);
    SquareMonotone(Pow2(b), |h| + 1);
  }

  lemma SquareMonotone(a: nat, b: nat)
    requires a <= b
    ensures a * a <= b * b
  {
    assert a * a <= a * b <= b * b;
  }
}

// Unlinking a node from the tree, on snapshots. Taking a node out leaves every path through
// one place short of one black node when the colour that disappeared was black.

module TreeSplice {
  import opened TreeShape

  // The tree is red-black except that the subtree `node`, hanging on the given side of
  // `parent`, is one black node short; and `node`, when red, may clash with its neighbours.
  ghost predicate Short(h: Shape, root: Node?, node: Node?, parent: Node?, side: Side) {
    && Linked(h, root)
    && (node != null ==> node in h && h[node].parent == parent)
    && (parent == null ==> node == root)
    && (parent != null ==> parent in h && ShortAt(h, node, parent, side))
    && (forall n {:trigger HeightOk(h, n)} | n in h && n != parent :: HeightOk(h, n))
    && (forall n {:trigger ColourOk(h, n)} | n in h && n != parent && (n != node || !h[n].red) :: ColourOk(h, n))
    && (IsRed(h, root) ==> root == node)
  }

  ghost predicate ShortAt(h: Shape, node: Node?, parent: Node, side: Side)
    requires parent in h
  {
    && h[parent].Child(side) == node
    && h[parent].bh == BlackHeight(h, node) + 1 + (if h[parent].red then 0 else 1)
    && BlackHeight(h, h[parent].Child(side.Other())) == BlackHeight(h, node) + 1
    && (h[parent].red ==> !IsRed(h, h[parent].Child(side.Other())))
  }

  // ---- At most one child ----

  ghost function Relinked(r: Rec, from: Node, to: Node?): Rec {
    if r.left == from then r.(left := to) else if r.right == from then r.(right := to) else r
  }

  ghost predicate HasGap(h: Shape, root: Node?, x: Node, missing: Side) {
    RedBlack(h, root) && x in h && h[x].Child(missing) == null
  }

  ghost function BypassedRec(h: Shape, x: Node, missing: Side, n: Node): Rec
    requires x in h && n in h
  {
    var r := if n == h[x].parent then Relinked(h[n], x, h[x].Child(missing.Other()))
             else if n == h[x].Child(missing.Other()) then h[n].(parent := h[x].parent)
             else h[n];
    if missing.Left? then r.(lo := if r.lo == h[x].key then h[x].lo else r.lo)
    else r.(hi := if r.hi == h[x].key then h[x].hi else r.hi)
  }

  // The tree after x has been replaced by its only possible child.
  ghost function Bypassed(h: Shape, x: Node, missing: Side): (h': Shape)
    requires x in h
    ensures h'.Keys == h.Keys - {x}
  {
    map n | n in h && n != x :: BypassedRec(h, x, missing, n)
  }

  lemma BypassedAt(h: Shape, x: Node, missing: Side, n: Node)
    requires x in h && n in h && n != x
    ensures Bypassed(h, x, missing)[n] == BypassedRec(h, x, missing, n)
  {
  }

  ghost function BypassedRoot(h: Shape, root: Node?, x: Node, missing: Side): Node?
    requires x in h
  {
    if h[x].parent == null then h[x].Child(missing.Other()) else root
  }

  // The stores that unlink x when a child is missing.
  ghost function BypassWrites(h: Shape, x: Node, missing: Side): (h': Shape)
    requires x in h && (h[x].parent != null ==> h[x].parent in h)
    requires h[x].Child(missing.Other()) != null ==> h[x].Child(missing.Other()) in h
    ensures h'.Keys == h.Keys
  {
    var next := h[x].Child(missing.Other());
    var h1 := Redirected(h, h[x].parent, x, next);
    if next == null then h1 else h1[next := h1[next].(parent := h[x].parent)]
  }

  lemma BypassStores(h: Shape, root: Node?, x: Node, missing: Side)
    requires HasGap(h, root, x, missing)
    ensures h[x].parent != null ==> h[x].parent in h
    ensures h[x].Child(missing.Other()) != null ==> h[x].Child(missing.Other()) in h
    ensures SameFieldsWithout(BypassWrites(h, x, missing), Bypassed(h, x, missing), x)
    ensures SameKeysWithout(BypassWrites(h, x, missing), Bypassed(h, x, missing), x)
  {
    assert NodeOk(h, root, x);
    var p, next := h[x].parent, h[x].Child(missing.Other());
    assert p != null ==> NodeOk(h, root, p);
    assert next != null ==> NodeOk(h, root, next);
    assert p != null ==> p != next;
  }

  lemma BypassLinked(h: Shape, root: Node?, x: Node, missing: Side)
    requires HasGap(h, root, x, missing)
    ensures Linked(Bypassed(h, x, missing), BypassedRoot(h, root, x, missing))
  {
    var h', root' := Bypassed(h, x, missing), BypassedRoot(h, root, x, missing);
    assert NodeOk(h, root, x);
    assert root != null && NodeOk(h, root, root);
    assert RootOk(h', root') by {
      if root' == null {
        assert root == x;
        forall n | n in h ensures n == x {
          AllBelowRoot(h, root, n);
        }
        assert h'.Keys == {};
      } else if root == x {
        assert NodeOk(h, root, root');
      }
    }
    forall n | n in h' ensures NodeOk(h', root', n) {
      BypassNode(h, root, x, missing, n);
    }
  }

  lemma BypassNode(h: Shape, root: Node?, x: Node, missing: Side, n: Node)
    requires HasGap(h, root, x, missing) && n in h && n != x
    ensures NodeOk(Bypassed(h, x, missing), BypassedRoot(h, root, x, missing), n)
  {
    hide Bypassed, BypassedRoot, ChildOk, ParentOk, HeightOk, ColourOk;
    BypassChild(h, root, x, missing, n, Left);
    BypassChild(h, root, x, missing, n, Right);
    BypassParent(h, root, x, missing, n);
    BypassBounds(h, root, x, missing, n);
  }

  lemma BypassBounds(h: Shape, root: Node?, x: Node, missing: Side, n: Node)
    requires HasGap(h, root, x, missing) && n in h && n != x
    ensures var r := Bypassed(h, x, missing)[n]; -1 <= r.lo < r.key < r.hi <= UINTPTR_LIMIT
  {
    hide HeightOk, ColourOk;
    assert NodeOk(h, root, x) && NodeOk(h, root, n);
    KeysApart(h, root, x, n);
  }

  lemma BypassParent(h: Shape, root: Node?, x: Node, missing: Side, n: Node)
    requires HasGap(h, root, x, missing) && n in h && n != x
    ensures ParentOk(Bypassed(h, x, missing), BypassedRoot(h, root, x, missing), n)
  {
    hide HeightOk, ColourOk;
    var h' := Bypassed(h, x, missing);
    assert NodeOk(h, root, x) && NodeOk(h, root, n);
    var next := h[x].Child(missing.Other());
    if n == next {
      assert h'[n].parent == h[x].parent;
      if h[x].parent != null {
        assert NodeOk(h, root, h[x].parent);
      }
    } else {
      assert h'[n].parent == h[n].parent;
      if h[n].parent != null {
        assert NodeOk(h, root, h[n].parent);
        assert h[n].parent != x;
      }
    }
  }

  lemma KeysApart(h: Shape, root: Node?, x: Node, n: Node)
    requires Linked(h, root) && x in h && n in h && n != x
    ensures h[n].key != h[x].key
  {
    if h[n].key == h[x].key {
      KeysDistinct(h, root, n, x);
    }
  }

  lemma BypassChild(h: Shape, root: Node?, x: Node, missing: Side, n: Node, side: Side)
    requires HasGap(h, root, x, missing) && n in h && n != x
    ensures ChildOk(Bypassed(h, x, missing), n, side)
  {
    hide HeightOk, ColourOk, ChildOk, Bypassed;
    if h[n].Child(side) == x {
      BypassParentsChild(h, root, x, missing, n, side);
    } else {
      BypassOtherChild(h, root, x, missing, n, side);
    }
  }

  lemma BypassParentsChild(h: Shape, root: Node?, x: Node, missing: Side, n: Node, side: Side)
    requires HasGap(h, root, x, missing) && n in h && n != x && h[n].Child(side) == x
    ensures ChildOk(Bypassed(h, x, missing), n, side)
  {
    hide HeightOk, ColourOk;
    var next := h[x].Child(missing.Other());
    assert NodeOk(h, root, x) && NodeOk(h, root, n);
    KeysApart(h, root, x, n);
    assert next != null ==> NodeOk(h, root, next);
    assert Bypassed(h, x, missing)[n].Child(side) == next;
  }

  lemma BypassOtherChild(h: Shape, root: Node?, x: Node, missing: Side, n: Node, side: Side)
    requires HasGap(h, root, x, missing) && n in h && n != x && h[n].Child(side) != x
    ensures ChildOk(Bypassed(h, x, missing), n, side)
  {
    hide HeightOk, ColourOk, Bypassed;
    var c, next := h[n].Child(side), h[x].Child(missing.Other());
    assert NodeOk(h, root, x) && NodeOk(h, root, n);
    BypassedAt(h, x, missing, n);
    if c != null {
      assert NodeOk(h, root, c);
      assert next != null ==> NodeOk(h, root, next);
      KeysApart(h, root, x, n);
      BypassedAt(h, x, missing, c);
    }
  }

  // What unlinking one node with a missing child leaves to be done.
  lemma BypassBalance(h: Shape, root: Node?, x: Node, missing: Side, side: Side)
    requires HasGap(h, root, x, missing)
    requires h[x].parent != null && h[x].parent in h ==> h[h[x].parent].Child(side) == x
    ensures
      var h', root' := Bypassed(h, x, missing), BypassedRoot(h, root, x, missing);
      if h[x].red then RedBlack(h', root')
      else Short(h', root', h[x].Child(missing.Other()), h[x].parent, side)
  {
    BypassLinked(h, root, x, missing);
    var h', root' := Bypassed(h, x, missing), BypassedRoot(h, root, x, missing);
    var p, next := h[x].parent, h[x].Child(missing.Other());
    assert NodeOk(h, root, x) && ColourOk(h, x);
    assert next != null ==> NodeOk(h, root, next);
    forall n | n in h' && n != p ensures HeightOk(h', n) && ColourOk(h', n) {
      BypassElsewhere(h, root, x, missing, n);
    }
    if p != null {
      BypassedParentShort(h, root, x, missing, side);
    }
  }

  lemma BypassedParentShort(h: Shape, root: Node?, x: Node, missing: Side, side: Side)
    requires HasGap(h, root, x, missing) && h[x].parent != null
    requires h[x].parent in h ==> h[h[x].parent].Child(side) == x
    ensures
      var h', p := Bypassed(h, x, missing), h[x].parent;
      && p in h'
      && if h[x].red then HeightOk(h', p) && ColourOk(h', p)
         else ShortAt(h', h[x].Child(missing.Other()), p, side)
  {
    hide Bypassed;
    var h', p, next := Bypassed(h, x, missing), h[x].parent, h[x].Child(missing.Other());
    assert NodeOk(h, root, x) && HeightOk(h, x) && ColourOk(h, x);
    BalanceBySide(h, x, missing);
    assert next != null ==> NodeOk(h, root, next);
    assert NodeOk(h, root, p) && HeightOk(h, p) && ColourOk(h, p);
    var far := h[p].Child(side.Other());
    assert far != null ==> NodeOk(h, root, far);
    BypassKeepsBalance(h, root, x, missing, next);
    BypassKeepsBalance(h, root, x, missing, far);
    BypassedParentRec(h, x, missing, side);
    BalanceBySide(h, p, side);
    BalanceBySide(h', p, side);
  }

  lemma BypassedParentRec(h: Shape, x: Node, missing: Side, side: Side)
    requires x in h && h[x].parent != null && h[x].parent in h && h[x].parent != x
    requires h[h[x].parent].Child(side) == x && h[h[x].parent].Child(side.Other()) != x
    ensures
      var r, p := Bypassed(h, x, missing)[h[x].parent], h[h[x].parent];
      && r.Child(side) == h[x].Child(missing.Other()) && r.Child(side.Other()) == p.Child(side.Other())
      && r.red == p.red && r.bh == p.bh
  {
  }

  lemma BypassElsewhere(h: Shape, root: Node?, x: Node, missing: Side, n: Node)
    requires HasGap(h, root, x, missing) && n in h && n != x && n != h[x].parent
    ensures HeightOk(Bypassed(h, x, missing), n) && ColourOk(Bypassed(h, x, missing), n)
  {
    var h' := Bypassed(h, x, missing);
    assert NodeOk(h, root, n) && HeightOk(h, n) && ColourOk(h, n);
    assert h'[n].left == h[n].left && h'[n].right == h[n].right;
    BypassKeepsBalance(h, root, x, missing, h[n].left);
    BypassKeepsBalance(h, root, x, missing, h[n].right);
  }

  lemma BypassKeepsBalance(h: Shape, root: Node?, x: Node, missing: Side, c: Node?)
    requires HasGap(h, root, x, missing) && c != x
    ensures var h' := Bypassed(h, x, missing);
      BlackHeight(h', c) == BlackHeight(h, c) && (IsRed(h', c) <==> IsRed(h, c))
  {
  }

  // ---- Two children: the in-order successor takes the place of the node ----

  // y is the leftmost node of x's right subtree: it starts where x's key ends, and nothing is to its left.
  ghost predicate HasSuccessor(h: Shape, root: Node?, x: Node, y: Node) {
    && RedBlack(h, root)
    && x in h && h[x].left != null && h[x].right != null
    && y in h && y != x && h[y].left == null && h[y].lo == h[x].key && h[y].parent != null
    && (h[y].parent == x ==> h[x].right == y)
    && (h[y].parent != x ==> h[y].parent in h && h[h[y].parent].left == y)
  }

  ghost function PromotedRec(h: Shape, x: Node, y: Node, n: Node): Rec
    requires x in h && y in h && n in h
  {
    if n == y then
      h[x].(key := h[y].key, right := if h[y].parent == x then h[y].right else h[x].right)
    else
      var r := if n == h[x].parent then Relinked(h[n], x, y) else h[n];
      var r1 := if n == h[x].left || n == h[x].right then r.(parent := y) else r;
      var r2 := if n == h[y].parent then r1.(left := h[y].right) else r1;
      var r3 := if n == h[y].right then r2.(parent := if h[y].parent == x then y else h[y].parent) else r2;
      r3.(lo := if r3.lo == h[x].key then h[y].key else r3.lo,
          hi := if r3.hi == h[x].key then h[y].key else r3.hi)
  }

  ghost function Promoted(h: Shape, x: Node, y: Node): (h': Shape)
    requires x in h && y in h
    ensures h'.Keys == h.Keys - {x}
  {
    map n | n in h && n != x :: PromotedRec(h, x, y, n)
  }

  lemma PromotedAt(h: Shape, x: Node, y: Node, n: Node)
    requires x in h && y in h && n in h && n != x
    ensures Promoted(h, x, y)[n] == PromotedRec(h, x, y, n)
  {
  }

  // y takes x's colour and left child.
  ghost function TakenOver(h: Shape, x: Node, y: Node): (h': Shape)
    requires x in h && y in h && h[x].left != null && h[x].left in h
    ensures h'.Keys == h.Keys
  {
    var h1 := h[y := h[y].(red := h[x].red)];
    var h2 := h1[y := h1[y].(left := h[x].left)];
    h2[h[x].left := h2[h[x].left].(parent := y)]
  }

  ghost predicate NearLinks(h: Shape, x: Node, y: Node) {
    && x in h && y in h && x != y
    && (h[y].right != null ==> h[y].right in h && h[y].right != y)
  }

  ghost function NearMoved(h: Shape, x: Node, y: Node): (h': Shape)
    requires NearLinks(h, x, y)
    ensures h'.Keys == h.Keys
  {
    var z := h[y].right;
    var h1 := h[y := h[y].(parent := h[x].parent)];
    if z == null then h1 else h1[z := h1[z].(parent := y)]
  }

  ghost predicate FarLinks(h: Shape, x: Node, y: Node) {
    && x in h && y in h && x != y
    && h[x].right != null && h[x].right in h && h[x].right != x
    && h[y].parent != null && h[y].parent in h && h[y].parent != y && h[y].parent != x
    && (h[y].right != null ==> h[y].right in h && h[y].right != y && h[y].right != x)
  }

  ghost function FarMoved(h: Shape, x: Node, y: Node): (h': Shape)
    requires FarLinks(h, x, y)
    ensures h'.Keys == h.Keys
  {
    var z, yp, r := h[y].right, h[y].parent, h[x].right;
    var h1 := h[y := h[y].(parent := h[x].parent)];
    var h2 := h1[yp := h1[yp].(left := z)];
    var h3 := h2[y := h2[y].(right := r)];
    var h4 := h3[r := h3[r].(parent := y)];
    if z == null then h4 else h4[z := h4[z].(parent := yp)]
  }

  // All that the stores rely on, from the start and once x's parent points at y.
  ghost predicate Promotable(h: Shape, x: Node, y: Node) {
    && x in h && y in h && (h[x].parent != null ==> h[x].parent in h)
    && var h1 := Redirected(h, h[x].parent, x, y);
    && h1[x] == h[x] && h1[y] == h[y]
    && Swappable(h1, x, y)
  }

  ghost predicate Swappable(h: Shape, x: Node, y: Node) {
    && x in h && y in h && x != y
    && h[x].left != null && h[x].left in h && h[x].left != y
    && var h2 := TakenOver(h, x, y);
    && h2[x] == h[x] && h2[y] == h[y].(red := h[x].red, left := h[x].left)
    && (if h[y].parent == x then NearLinks(h2, x, y) && h[x].right == y
        else FarLinks(h2, x, y) && h[x].right != y)
  }

  ghost function SwappedIn(h: Shape, x: Node, y: Node): (h': Shape)
    requires Swappable(h, x, y)
    ensures h'.Keys == h.Keys
  {
    PromotionLast(TakenOver(h, x, y), x, y)
  }

  ghost function PromotionLast(h: Shape, x: Node, y: Node): (h': Shape)
    requires y in h && (if h[y].parent == x then NearLinks(h, x, y) else FarLinks(h, x, y))
    ensures h'.Keys == h.Keys
  {
    if h[y].parent == x then NearMoved(h, x, y) else FarMoved(h, x, y)
  }

  // The stores that put y in x's place, in the order of the code.
  ghost function PromotionWrites(h: Shape, x: Node, y: Node): (h': Shape)
    requires Promotable(h, x, y)
    ensures h'.Keys == h.Keys
  {
    SwappedIn(Redirected(h, h[x].parent, x, y), x, y)
  }

  lemma SuccessorPromotable(h: Shape, root: Node?, x: Node, y: Node)
    requires HasSuccessor(h, root, x, y)
    ensures Promotable(h, x, y)
  {
    PromotionNeighbours(h, root, x, y);
    assert NodeOk(h, root, x) && NodeOk(h, root, y);
  }

  lemma PromotionStores(h: Shape, root: Node?, x: Node, y: Node)
    requires HasSuccessor(h, root, x, y)
    ensures Promotable(h, x, y)
    ensures SameFieldsWithout(PromotionWrites(h, x, y), Promoted(h, x, y), x)
    ensures SameKeysWithout(PromotionWrites(h, x, y), Promoted(h, x, y), x)
  {
    SuccessorPromotable(h, root, x, y);
    forall n | n in h && n != x ensures
      var w, h' := PromotionWrites(h, x, y), Promoted(h, x, y);
      h'[n] == w[n].(lo := h'[n].lo, hi := h'[n].hi, bh := h'[n].bh) && h'[n].key == w[n].key
    {
      if h[y].parent == x {
        NearPromotionStores(h, root, x, y, n);
      } else {
        FarPromotionStores(h, root, x, y, n);
      }
    }
  }

  lemma NearPromotionStores(h: Shape, root: Node?, x: Node, y: Node, n: Node)
    requires HasSuccessor(h, root, x, y) && n in h && n != x && h[y].parent == x
    requires Promotable(h, x, y)
    ensures
      var w, h' := PromotionWrites(h, x, y), Promoted(h, x, y);
      h'[n] == w[n].(lo := h'[n].lo, hi := h'[n].hi, bh := h'[n].bh) && h'[n].key == w[n].key
  {
    PromotionNeighbours(h, root, x, y);
    assert NodeOk(h, root, x);
    var w := PromotionWrites(h, x, y);
    if n == y {
    } else if n == h[x].parent {
      assert w[n] == Relinked(h[n], x, y);
    } else if n == h[x].left || n == h[y].right {
      assert w[n] == h[n].(parent := y);
    } else {
      assert w[n] == h[n];
    }
  }

  lemma FarPromotionStores(h: Shape, root: Node?, x: Node, y: Node, n: Node)
    requires HasSuccessor(h, root, x, y) && n in h && n != x && h[y].parent != x
    requires Promotable(h, x, y)
    ensures
      var w, h' := PromotionWrites(h, x, y), Promoted(h, x, y);
      h'[n] == w[n].(lo := h'[n].lo, hi := h'[n].hi, bh := h'[n].bh) && h'[n].key == w[n].key
  {
    PromotionNeighbours(h, root, x, y);
    assert NodeOk(h, root, x) && NodeOk(h, root, y);
    var w := PromotionWrites(h, x, y);
    if n == y {
      assert y != h[x].right;
    } else if n == h[x].parent {
      assert w[n] == Relinked(h[n], x, y);
    } else if n == h[y].right {
      assert w[n] == h[n].(parent := h[y].parent);
    } else if n == h[x].left {
      assert w[n] == h[n].(parent := y);
    } else if n == h[x].right {
      assert n != h[y].right;
    } else if n == h[y].parent {
      assert w[n] == h[n].(left := h[y].right);
    } else {
      assert w[n] == h[n];
    }
  }

  ghost function PromotedRoot(h: Shape, root: Node?, x: Node, y: Node): Node?
    requires x in h
  {
    if h[x].parent == null then y else root
  }

  // The nodes that the promotion touches, and what they are to each other.
  lemma PromotionNeighbours(h: Shape, root: Node?, x: Node, y: Node)
    requires HasSuccessor(h, root, x, y)
    ensures
      var p, l, r, z, yp := h[x].parent, h[x].left, h[x].right, h[y].right, h[y].parent;
      && l in h && r in h && h[l].parent == x && h[r].parent == x && l != x && r != x && l != y
      && (p != null ==> p in h && p != y && p != l && p != r && p != z && p != x && p != yp)
      && (z != null ==> z in h && h[z].parent == y && z != l && z != r && z != x && z != yp)
      && yp in h && yp != l && yp != y
  {
    hide HeightOk, ColourOk;
    var p, l, r, z, yp := h[x].parent, h[x].left, h[x].right, h[y].right, h[y].parent;
    assert NodeOk(h, root, x) && NodeOk(h, root, y);
    assert NodeOk(h, root, l) && NodeOk(h, root, r) && NodeOk(h, root, yp);
    assert p != null ==> NodeOk(h, root, p);
    assert z != null ==> NodeOk(h, root, z);
    SpansMeansBelow(h, root, x, x);
    if yp != x {
      // y starts at x's key, so its parent, whose left child it is, lies to the right of x
      assert h[yp].lo == h[x].key;
    }
  }

  lemma PromoteLinked(h: Shape, root: Node?, x: Node, y: Node)
    requires HasSuccessor(h, root, x, y)
    ensures Linked(Promoted(h, x, y), PromotedRoot(h, root, x, y))
  {
    hide NodeOk, RootOk, PromotedRoot, HeightOk, ColourOk;
    var h', root' := Promoted(h, x, y), PromotedRoot(h, root, x, y);
    forall n | n in h' ensures NodeOk(h', root', n) {
      PromoteNode(h, root, x, y, n);
    }
    PromoteRoot(h, root, x, y);
  }

  lemma PromoteNode(h: Shape, root: Node?, x: Node, y: Node, n: Node)
    requires HasSuccessor(h, root, x, y) && n in h && n != x
    ensures NodeOk(Promoted(h, x, y), PromotedRoot(h, root, x, y), n)
  {
    hide Promoted, PromotedRoot, ChildOk, ParentOk, HeightOk, ColourOk;
    PromoteBounds(h, root, x, y, n);
    PromoteParent(h, root, x, y, n);
    PromoteChild(h, root, x, y, n, Left);
    PromoteChild(h, root, x, y, n, Right);
  }

  lemma PromoteRoot(h: Shape, root: Node?, x: Node, y: Node)
    requires HasSuccessor(h, root, x, y)
    ensures RootOk(Promoted(h, x, y), PromotedRoot(h, root, x, y))
  {
    hide HeightOk, ColourOk;
    assert NodeOk(h, root, x);
    assert root != null && NodeOk(h, root, root);
    PromotionNeighbours(h, root, x, y);
  }

  lemma PromoteBounds(h: Shape, root: Node?, x: Node, y: Node, n: Node)
    requires HasSuccessor(h, root, x, y) && n in h && n != x
    ensures var r := Promoted(h, x, y)[n]; -1 <= r.lo < r.key < r.hi <= UINTPTR_LIMIT
  {
    hide HeightOk, ColourOk, Promoted;
    assert NodeOk(h, root, x) && NodeOk(h, root, y) && NodeOk(h, root, n);
    PromotedAt(h, x, y, n);
    GapIsEmpty(h, root, y, Left, n);
    if n != y {
      KeysApart(h, root, y, n);
    } else {
      // y lies below x, so its key is inside x's interval
      SuccessorBelow(h, root, x, y);
    }
  }

  lemma SuccessorBelow(h: Shape, root: Node?, x: Node, y: Node)
    requires HasSuccessor(h, root, x, y)
    ensures h[x].key < h[y].key < h[x].hi
  {
    assert NodeOk(h, root, x) && NodeOk(h, root, y);
    var r := h[x].right;
    assert NodeOk(h, root, r);
    GapIsEmpty(h, root, y, Left, r);
  }

  lemma PromoteParent(h: Shape, root: Node?, x: Node, y: Node, n: Node)
    requires HasSuccessor(h, root, x, y) && n in h && n != x
    ensures ParentOk(Promoted(h, x, y), PromotedRoot(h, root, x, y), n)
  {
    hide HeightOk, ColourOk;
    PromotionNeighbours(h, root, x, y);
    var h' := Promoted(h, x, y);
    assert NodeOk(h, root, x) && NodeOk(h, root, n);
    if n == y {
      var p := h[x].parent;
      if p != null {
        assert NodeOk(h, root, p);
      }
    } else if n == h[y].right {
      assert NodeOk(h, root, y);
    } else if n == h[x].left || n == h[x].right {
      assert h'[n].parent == y;
    } else {
      assert h'[n].parent == h[n].parent;
      var p := h[n].parent;
      if p != null {
        assert NodeOk(h, root, p);
        assert p != x && p != y;
        assert h'[p].left == h[p].left || h[p].left == x || h[p].left == y;
        assert h'[p].right == h[p].right || h[p].right == x;
      }
    }
  }

  lemma PromoteChild(h: Shape, root: Node?, x: Node, y: Node, n: Node, side: Side)
    requires HasSuccessor(h, root, x, y) && n in h && n != x
    ensures ChildOk(Promoted(h, x, y), n, side)
  {
    hide HeightOk, ColourOk;
    var h' := Promoted(h, x, y);
    assert NodeOk(h, root, x) && NodeOk(h, root, y) && NodeOk(h, root, n);
    KeysApart(h, root, x, n);
    PromotionNeighbours(h, root, x, y);
    if n == y {
      PromoteChildOfSuccessor(h, root, x, y, side);
    } else if n == h[x].parent {
      PromoteChildOfParent(h, root, x, y, side);
    } else if n == h[y].parent {
      PromoteChildOfOldParent(h, root, x, y, side);
    } else {
      PromoteChildElsewhere(h, root, x, y, n, side);
    }
  }

  lemma PromoteChildElsewhere(h: Shape, root: Node?, x: Node, y: Node, n: Node, side: Side)
    requires HasSuccessor(h, root, x, y) && n in h && n != x && n != y && n != h[x].parent && n != h[y].parent
    ensures ChildOk(Promoted(h, x, y), n, side)
  {
    hide HeightOk, ColourOk, Promoted;
    var c := h[n].Child(side);
    assert NodeOk(h, root, x) && NodeOk(h, root, y) && NodeOk(h, root, n);
    PromotedAt(h, x, y, n);
    if c != null {
      assert NodeOk(h, root, c);
      KeysApart(h, root, x, n);
      PromotionNeighbours(h, root, x, y);
      PromotedAt(h, x, y, c);
    }
  }

  lemma PromoteChildOfSuccessor(h: Shape, root: Node?, x: Node, y: Node, side: Side)
    requires HasSuccessor(h, root, x, y)
    ensures ChildOk(Promoted(h, x, y), y, side)
  {
    PromotionNeighbours(h, root, x, y);
    assert NodeOk(h, root, x) && NodeOk(h, root, y);
    var c := Promoted(h, x, y)[y].Child(side);
    assert c != null ==> NodeOk(h, root, c);
  }

  lemma PromoteChildOfParent(h: Shape, root: Node?, x: Node, y: Node, side: Side)
    requires HasSuccessor(h, root, x, y) && h[x].parent != null
    ensures h[x].parent in h && h[x].parent != x && ChildOk(Promoted(h, x, y), h[x].parent, side)
  {
    PromotionNeighbours(h, root, x, y);
    var p := h[x].parent;
    assert NodeOk(h, root, x) && NodeOk(h, root, p);
    KeysApart(h, root, x, p);
    var c := h[p].Child(side);
    if c == x {
      assert Promoted(h, x, y)[p].Child(side) == y;
    } else if c != null {
      assert NodeOk(h, root, c);
      assert Promoted(h, x, y)[p].Child(side) == c;
    }
  }

  lemma PromoteChildOfOldParent(h: Shape, root: Node?, x: Node, y: Node, side: Side)
    requires HasSuccessor(h, root, x, y) && h[y].parent != x
    ensures h[y].parent in h && ChildOk(Promoted(h, x, y), h[y].parent, side)
  {
    PromotionNeighbours(h, root, x, y);
    var yp, z := h[y].parent, h[y].right;
    assert NodeOk(h, root, y) && NodeOk(h, root, yp) && NodeOk(h, root, x);
    KeysApart(h, root, x, yp);
    KeysApart(h, root, x, y);
    if side.Left? {
      assert Promoted(h, x, y)[yp].left == z;
      assert z != null ==> NodeOk(h, root, z);
    } else {
      var c := h[yp].right;
      assert c != null ==> NodeOk(h, root, c);
    }
  }

  // Where the missing black node shows after the promotion.
  ghost function ShortParent(h: Shape, x: Node, y: Node): Node
    requires y in h && h[y].parent != null
  {
    if h[y].parent == x then y else h[y].parent
  }

  ghost function ShortSide(h: Shape, x: Node, y: Node): Side
    requires y in h
  {
    if h[y].parent == x then Right else Left
  }

  lemma PromoteBalance(h: Shape, root: Node?, x: Node, y: Node)
    requires HasSuccessor(h, root, x, y)
    ensures
      var h', root' := Promoted(h, x, y), PromotedRoot(h, root, x, y);
      if h[y].red then RedBlack(h', root')
      else Short(h', root', h[y].right, ShortParent(h, x, y), ShortSide(h, x, y))
  {
    PromoteLinked(h, root, x, y);
    PromotionNeighbours(h, root, x, y);
    var h', root' := Promoted(h, x, y), PromotedRoot(h, root, x, y);
    var sp, side := ShortParent(h, x, y), ShortSide(h, x, y);
    forall n | n in h' && n != sp ensures HeightOk(h', n) && ColourOk(h', n) {
      PromoteElsewhere(h, root, x, y, n);
    }
    PromoteAtShort(h, root, x, y);
    assert NodeOk(h, root, x) && NodeOk(h, root, y) && ColourOk(h, y);
    assert root != null && NodeOk(h, root, root);
  }

  lemma PromoteColours(h: Shape, root: Node?, x: Node, y: Node, c: Node?)
    requires HasSuccessor(h, root, x, y) && c != x && c != y
    ensures var h' := Promoted(h, x, y);
      BlackHeight(h', c) == BlackHeight(h, c) && (IsRed(h', c) <==> IsRed(h, c))
  {
  }

  // The node that lost y, or y itself when it was x's own child.
  lemma PromoteAtShort(h: Shape, root: Node?, x: Node, y: Node)
    requires HasSuccessor(h, root, x, y)
    ensures
      var h', sp := Promoted(h, x, y), ShortParent(h, x, y);
      && sp in h'
      && if h[y].red then HeightOk(h', sp) && ColourOk(h', sp)
         else ShortAt(h', h[y].right, sp, ShortSide(h, x, y))
  {
    PromotionNeighbours(h, root, x, y);
    var h', sp, side := Promoted(h, x, y), ShortParent(h, x, y), ShortSide(h, x, y);
    var yp := h[y].parent;
    assert NodeOk(h, root, y) && HeightOk(h, y) && ColourOk(h, y);
    assert NodeOk(h, root, yp) && HeightOk(h, yp) && ColourOk(h, yp);
    var far := if yp == x then h[x].left else h[yp].right;
    assert h'[sp].Child(side) == h[y].right && h'[sp].Child(side.Other()) == far;
    PromoteColours(h, root, x, y, h[y].right);
    assert far != x && far != y by {
      assert far != null ==> NodeOk(h, root, far);
    }
    PromoteColours(h, root, x, y, far);
    BalanceBySide(h', sp, side);
  }

  lemma PromoteElsewhere(h: Shape, root: Node?, x: Node, y: Node, n: Node)
    requires HasSuccessor(h, root, x, y) && n in h && n != x && n != ShortParent(h, x, y)
    ensures HeightOk(Promoted(h, x, y), n) && ColourOk(Promoted(h, x, y), n)
  {
    PromotionNeighbours(h, root, x, y);
    var h' := Promoted(h, x, y);
    var was := if n == y then x else n;
    assert NodeOk(h, root, was) && HeightOk(h, was) && ColourOk(h, was);
    PromoteElsewhereChild(h, root, x, y, n, Left);
    PromoteElsewhereChild(h, root, x, y, n, Right);
  }

  lemma PromoteElsewhereChild(h: Shape, root: Node?, x: Node, y: Node, n: Node, side: Side)
    requires HasSuccessor(h, root, x, y) && n in h && n != x && n != ShortParent(h, x, y)
    ensures
      var h', was := Promoted(h, x, y), if n == y then x else n;
      && BlackHeight(h', h'[n].Child(side)) == BlackHeight(h, h[was].Child(side))
      && (IsRed(h', h'[n].Child(side)) <==> IsRed(h, h[was].Child(side)))
  {
    PromotionNeighbours(h, root, x, y);
    var h', was := Promoted(h, x, y), if n == y then x else n;
    assert NodeOk(h, root, was) && NodeOk(h, root, y);
    var c := h[was].Child(side);
    if c == x {
      assert h'[n].Child(side) == y;
    } else {
      assert c != null ==> NodeOk(h, root, c);
      assert c != y;
      assert h'[n].Child(side) == c;
      PromoteColours(h, root, x, y, c);
    }
  }
}

// Rebalancing after an insertion, on snapshots. The loop carries a tree that is red-black
// except that the current node, which is red, may have a red parent.

module TreeInsert {
  import opened TreeShape
  import opened TreeRotate

  // Black heights agree everywhere; the only red-red edge is the one above `node`;
  // the root is black unless it is `node` itself.
  ghost predicate AlmostRedBlack(h: Shape, root: Node?, node: Node) {
    && Linked(h, root)
    && (forall n {:trigger HeightOk(h, n)} | n in h :: HeightOk(h, n))
    && node in h && h[node].red
    && (forall n {:trigger ColourOk(h, n)} | n in h && n != h[node].parent :: ColourOk(h, n))
    && (h[node].parent != null && IsRed(h, h[node].parent) ==> !IsRed(h, Sibling(h, node)))
    && (IsRed(h, root) ==> root == node)
  }

  ghost function Sibling(h: Shape, node: Node): Node?
    requires node in h && h[node].parent != null
  {
    var p := h[node].parent;
    if p !in h then null
    else if h[p].left == node then h[p].right else h[p].left
  }

  // What is left of the climb: nothing once the parent is black.
  ghost function ClimbLeft(h: Shape, node: Node): int
    requires node in h
  {
    if IsRed(h, h[node].parent) then UINTPTR_LIMIT + 2 - (h[node].hi - h[node].lo) else 0
  }

  // ---- Linking the new leaf ----

  ghost predicate IsGap(h: Shape, parent: Node, side: Side, key: int) {
    && parent in h
    && h[parent].Child(side) == null
    && h[parent].ChildLo(side) < key < h[parent].ChildHi(side)
  }

  ghost function WithLeaf(h: Shape, parent: Node?, side: Side, node: Node, key: int): Shape
    requires node !in h && (parent != null ==> parent in h)
  {
    if parent == null then
      map[node := Rec(null, null, null, key, true, -1, UINTPTR_LIMIT, 0)]
    else
      h[node := Rec(null, null, parent, key, true, h[parent].ChildLo(side), h[parent].ChildHi(side), 0)]
       [parent := h[parent].WithChild(side, node)]
  }

  lemma LinkFirst(h: Shape, node: Node, key: uintptr)
    requires RedBlack(h, null) && node !in h
    ensures AlmostRedBlack(WithLeaf(h, null, Left, node, key), node, node)
  {
  }

  lemma LinkLeaf(h: Shape, root: Node?, parent: Node, side: Side, node: Node, key: uintptr)
    requires RedBlack(h, root) && node !in h && IsGap(h, parent, side, key)
    ensures AlmostRedBlack(WithLeaf(h, parent, side, node, key), root, node)
  {
    var h' := WithLeaf(h, parent, side, node, key);
    forall n | n in h' ensures NodeOk(h', root, n) && HeightOk(h', n) {
      LinkLeafNode(h, root, parent, side, node, key, n);
    }
    forall n | n in h' && n != h'[node].parent ensures ColourOk(h', n) {
      LinkLeafNode(h, root, parent, side, node, key, n);
    }
    LinkLeafKin(h, root, parent, side, node, key);
  }

  lemma LinkLeafKin(h: Shape, root: Node?, parent: Node, side: Side, node: Node, key: uintptr)
    requires RedBlack(h, root) && node !in h && IsGap(h, parent, side, key)
    ensures
      var h' := WithLeaf(h, parent, side, node, key);
      && RootOk(h', root) && !IsRed(h', root)
      && h'[node].red && h'[node].parent == parent
      && (h[parent].red ==> !IsRed(h', Sibling(h', node)))
  {
    var h' := WithLeaf(h, parent, side, node, key);
    assert Sibling(h', node) == h[parent].Child(side.Other());
    assert ColourOk(h, parent) && NodeOk(h, root, parent);
  }

  lemma LinkLeafNode(h: Shape, root: Node?, parent: Node, side: Side, node: Node, key: uintptr, n: Node)
    requires RedBlack(h, root) && node !in h && IsGap(h, parent, side, key)
    requires n in h || n == node
    ensures var h' := WithLeaf(h, parent, side, node, key);
      NodeOk(h', root, n) && HeightOk(h', n) && (n != parent ==> ColourOk(h', n))
  {
    assert NodeOk(h, root, parent);
    if n != node {
      assert NodeOk(h, root, n) && HeightOk(h, n) && ColourOk(h, n);
    }
  }

  // ---- The uncle is red: push the problem two levels up ----

  ghost function Recoloured(h: Shape, parent: Node, uncle: Node, grandparent: Node): Shape
    requires parent in h && uncle in h && grandparent in h
  {
    map n | n in h ::
      if n == parent || n == uncle then h[n].(red := false, bh := h[n].bh + 1)
      else if n == grandparent then h[n].(red := true)
      else h[n]
  }

  // A red parent is not the root, so there is a grandparent.
  lemma ParentOfRed(h: Shape, root: Node?, node: Node, parent: Node)
    requires AlmostRedBlack(h, root, node) && parent == h[node].parent && IsRed(h, parent)
    ensures parent in h && parent != node
    ensures
      var g := h[parent].parent;
      g != null && g in h && g != parent && (h[g].left == parent || h[g].right == parent)
    ensures ClimbLeft(h, node) > 0
  {
    assert NodeOk(h, root, node) && NodeOk(h, root, parent);
    var g := h[parent].parent;
    assert g != null ==> NodeOk(h, root, g);
  }

  lemma UncleIsSibling(h: Shape, root: Node?, parent: Node, grandparent: Node, cis: Side)
    requires Linked(h, root) && parent in h && grandparent in h
    requires h[parent].parent == grandparent && h[grandparent].Child(cis) == parent
    ensures h[grandparent].Child(cis.Other()) == Sibling(h, parent) != parent
    ensures Sibling(h, parent) != null ==> Sibling(h, parent) in h && Sibling(h, parent) != grandparent
  {
    assert NodeOk(h, root, grandparent) && NodeOk(h, root, parent);
    var u := h[grandparent].Child(cis.Other());
    assert u != null ==> NodeOk(h, root, u);
  }

  // The recolouring moves the red pair to a node with a wider interval.
  lemma RecolourClimbs(h: Shape, root: Node?, node: Node, parent: Node, grandparent: Node, uncle: Node)
    requires RecolourCase(h, root, node, parent, grandparent, uncle)
    ensures 0 <= ClimbLeft(Recoloured(h, parent, uncle, grandparent), grandparent) < ClimbLeft(h, node)
  {
    assert NodeOk(h, root, node) && NodeOk(h, root, parent) && NodeOk(h, root, grandparent);
  }

  lemma RecolourStores(h: Shape, parent: Node, uncle: Node, grandparent: Node)
    requires parent in h && uncle in h && grandparent in h
    requires grandparent != parent && grandparent != uncle
    ensures SameFields(WithRed(WithRed(WithRed(h, parent, false), uncle, false), grandparent, true),
                       Recoloured(h, parent, uncle, grandparent))
  {
  }

  ghost predicate RecolourCase(h: Shape, root: Node?, node: Node, parent: Node, grandparent: Node, uncle: Node) {
    && AlmostRedBlack(h, root, node)
    && h[node].parent == parent && IsRed(h, parent)
    && h[parent].parent == grandparent && grandparent in h
    && uncle == Sibling(h, parent) && IsRed(h, uncle)
  }

  lemma RecolourStep(h: Shape, root: Node?, node: Node, parent: Node, grandparent: Node, uncle: Node)
    requires RecolourCase(h, root, node, parent, grandparent, uncle)
    ensures AlmostRedBlack(Recoloured(h, parent, uncle, grandparent), root, grandparent)
  {
    var h' := Recoloured(h, parent, uncle, grandparent);
    forall n | n in h' ensures NodeOk(h', root, n) {
      assert NodeOk(h, root, n);
    }
    forall n | n in h' ensures HeightOk(h', n) && (n != h[grandparent].parent ==> ColourOk(h', n)) {
      RecolourNode(h, root, node, parent, grandparent, uncle, n);
    }
    RecolourRoot(h, root, node, parent, grandparent, uncle);
    var g := h[grandparent].parent;
    if g != null {
      assert NodeOk(h, root, grandparent);
      RecolourAbove(h, root, node, parent, grandparent, uncle, g);
    }
  }

  lemma RecolourRoot(h: Shape, root: Node?, node: Node, parent: Node, grandparent: Node, uncle: Node)
    requires RecolourCase(h, root, node, parent, grandparent, uncle)
    ensures var h' := Recoloured(h, parent, uncle, grandparent);
      RootOk(h', root) && (IsRed(h', root) ==> root == grandparent)
  {
    assert NodeOk(h, root, grandparent) && NodeOk(h, root, parent) && NodeOk(h, root, uncle);
    assert root != null && NodeOk(h, root, root);
  }

  lemma RecolourAbove(h: Shape, root: Node?, node: Node, parent: Node, grandparent: Node, uncle: Node, g: Node)
    requires RecolourCase(h, root, node, parent, grandparent, uncle)
    requires g == h[grandparent].parent && g in h
    ensures var h' := Recoloured(h, parent, uncle, grandparent);
      IsRed(h', g) ==> !IsRed(h', Sibling(h', grandparent))
  {
    assert NodeOk(h, root, parent) && NodeOk(h, root, uncle) && NodeOk(h, root, g) && NodeOk(h, root, grandparent);
    assert ColourOk(h, g);
    var s := Sibling(h, grandparent);
    assert s != null ==> NodeOk(h, root, s);
  }

  lemma RecolourNode(h: Shape, root: Node?, node: Node, parent: Node, grandparent: Node, uncle: Node, n: Node)
    requires RecolourCase(h, root, node, parent, grandparent, uncle) && n in h
    ensures var h' := Recoloured(h, parent, uncle, grandparent);
      HeightOk(h', n) && (n != h[grandparent].parent ==> ColourOk(h', n))
  {
    assert NodeOk(h, root, n) && HeightOk(h, n);
    assert NodeOk(h, root, parent) && NodeOk(h, root, grandparent) && NodeOk(h, root, uncle);
    assert ColourOk(h, grandparent) && !h[grandparent].red;
    if n == grandparent {
      var side := if h[n].left == parent then Left else Right;
      assert h[n].Child(side) == parent && h[n].Child(side.Other()) == uncle;
      BalanceBySide(h, n, side);
      BalanceBySide(Recoloured(h, parent, uncle, grandparent), n, side);
    } else {
      RecolourChild(h, root, node, parent, grandparent, uncle, n, h[n].left);
      RecolourChild(h, root, node, parent, grandparent, uncle, n, h[n].right);
      if n != parent {
        assert ColourOk(h, n);
      }
    }
  }

  lemma RecolourChild(h: Shape, root: Node?, node: Node, parent: Node, grandparent: Node, uncle: Node, n: Node, c: Node?)
    requires RecolourCase(h, root, node, parent, grandparent, uncle) && n in h && n != grandparent
    requires c == h[n].left || c == h[n].right
    ensures var h' := Recoloured(h, parent, uncle, grandparent);
      && BlackHeight(h', c) == BlackHeight(h, c)
      && (IsRed(h', c) ==> IsRed(h, c) || n == h[grandparent].parent)
  {
    assert NodeOk(h, root, n) && NodeOk(h, root, parent) && NodeOk(h, root, grandparent);
    if c != null {
      assert NodeOk(h, root, c);
    }
  }

  // ---- The uncle is black: one or two rotations finish the work ----

  // A rotation of the red edge between parent and its inner child turns the inner case into
  // the outer one, with the two nodes exchanging roles.
  lemma InnerStep(h: Shape, root: Node?, node: Node, parent: Node, cis: Side)
    requires AlmostRedBlack(h, root, node)
    requires h[node].parent == parent && IsRed(h, parent)
    requires h[parent].Child(cis.Other()) == node
    ensures CanRotate(h, root, parent, cis)
    ensures AlmostRedBlack(Rotated(h, root, parent, cis), RotatedRoot(h, root, parent, cis), parent)
    ensures Rotated(h, root, parent, cis)[parent].parent == node
    ensures Rotated(h, root, parent, cis)[node].Child(cis) == parent
    ensures Rotated(h, root, parent, cis)[node].parent == h[parent].parent
    ensures
      var g := h[parent].parent;
      g != null && g in h && g != parent
      && forall s :: Rotated(h, root, parent, cis)[g].Child(s) == if h[g].Child(s) == parent then node else h[g].Child(s)
  {
    RotateLinked(h, root, parent, cis);
    RotateChildren(h, root, parent, cis, node);
    var h' := Rotated(h, root, parent, cis);
    assert NodeOk(h, root, node) && NodeOk(h, root, parent);
    var g := h[parent].parent;
    assert g != null && NodeOk(h, root, g);
    forall n | n in h' ensures HeightOk(h', n) && (n != node ==> ColourOk(h', n)) {
      InnerNode(h, root, node, parent, cis, n);
    }
    RotateKeeps(h, root, parent, cis, node);
    RotateKeeps(h, root, parent, cis, parent);
    assert ColourOk(h, node);
    assert Sibling(h', parent) == h[node].Child(cis.Other()) by {
      assert NodeOk(h', RotatedRoot(h, root, parent, cis), parent);
      assert NodeOk(h', RotatedRoot(h, root, parent, cis), node);
    }
    var s := h[node].Child(cis.Other());
    if s != null {
      RotateKeeps(h, root, parent, cis, s);
    }
  }

  lemma InnerNode(h: Shape, root: Node?, node: Node, parent: Node, cis: Side, n: Node)
    requires AlmostRedBlack(h, root, node) && n in h
    requires h[node].parent == parent && IsRed(h, parent)
    requires h[parent].Child(cis.Other()) == node
    ensures HeightOk(Rotated(h, root, parent, cis), n)
    ensures n != node ==> ColourOk(Rotated(h, root, parent, cis), n)
  {
    var h' := Rotated(h, root, parent, cis);
    RotateChildren(h, root, parent, cis, node);
    assert NodeOk(h, root, n) && HeightOk(h, n) && HeightOk(h, node) && HeightOk(h, parent) && ColourOk(h, node);
    BalanceBySide(h, n, cis);
    BalanceBySide(h', n, cis);
    var g := h[parent].parent;
    if n == node || n == parent {
      BalanceBySide(h, node, cis);
      BalanceBySide(h, parent, cis);
    } else if n == g {
      assert ColourOk(h, g);
    } else {
      RotateElsewhere(h, root, parent, cis, n);
      assert ColourOk(h, n);
    }
  }

  // The rotation of the inner case does not touch the uncle.
  lemma InnerUncle(h: Shape, root: Node?, parent: Node, grandparent: Node, cis: Side)
    requires CanRotate(h, root, parent, cis) && grandparent in h
    requires !IsRed(h, h[grandparent].Child(cis.Other()))
    ensures !IsRed(Rotated(h, root, parent, cis), h[grandparent].Child(cis.Other()))
  {
    var uncle := h[grandparent].Child(cis.Other());
    if uncle != null && uncle in h {
      RotateKeeps(h, root, parent, cis, uncle);
    }
  }

  ghost function Lifted(h: Shape, parent: Node, grandparent: Node): Shape
    requires parent in h && grandparent in h
  {
    var h1 := Paint(h, parent, false, h[parent].bh + 1);
    Paint(h1, grandparent, true, if h1[grandparent].bh > 0 then h1[grandparent].bh - 1 else 0)
  }

  lemma LiftStores(h: Shape, parent: Node, grandparent: Node)
    requires parent in h && grandparent in h && parent != grandparent
    ensures SameFields(WithRed(WithRed(h, parent, false), grandparent, true), Lifted(h, parent, grandparent))
  {
  }

  // Swapping the colours of parent and grandparent and rotating the edge between them
  // removes the violation for good.
  lemma OuterStep(h: Shape, root: Node?, node: Node, parent: Node, grandparent: Node, cis: Side)
    requires OuterCase(h, root, node, parent, grandparent, cis)
    ensures CanRotate(Lifted(h, parent, grandparent), root, grandparent, cis.Other())
    ensures RedBlack(Rotated(Lifted(h, parent, grandparent), root, grandparent, cis.Other()),
                     RotatedRoot(Lifted(h, parent, grandparent), root, grandparent, cis.Other()))
  {
    var h1 := Lifted(h, parent, grandparent);
    var trans := cis.Other();
    LiftedLinked(h, root, node, parent, grandparent, cis);
    RotateLinked(h1, root, grandparent, trans);
    RotateChildren(h1, root, grandparent, trans, parent);
    var h', root' := Rotated(h1, root, grandparent, trans), RotatedRoot(h1, root, grandparent, trans);
    assert NodeOk(h, root, grandparent);
    RotateKeeps(h1, root, grandparent, trans, parent);
    if root != null && root != grandparent {
      RotateKeeps(h1, root, grandparent, trans, root);
      assert NodeOk(h, root, parent);
    }
    forall n | n in h' ensures HeightOk(h', n) && ColourOk(h', n) {
      OuterNode(h, root, node, parent, grandparent, cis, n);
    }
  }

  ghost predicate OuterCase(h: Shape, root: Node?, node: Node, parent: Node, grandparent: Node, cis: Side) {
    && AlmostRedBlack(h, root, node)
    && h[node].parent == parent && IsRed(h, parent) && h[parent].Child(cis) == node
    && h[parent].parent == grandparent && grandparent in h && h[grandparent].Child(cis) == parent
    && !IsRed(h, h[grandparent].Child(cis.Other()))
  }

  // After the step the loop is over: node is still red and its parent is black.
  lemma OuterDone(h: Shape, root: Node?, node: Node, parent: Node, grandparent: Node, cis: Side)
    requires OuterCase(h, root, node, parent, grandparent, cis)
    requires CanRotate(Lifted(h, parent, grandparent), root, grandparent, cis.Other())
    ensures
      var h' := Rotated(Lifted(h, parent, grandparent), root, grandparent, cis.Other());
      && node in h' && h'[node].red && h'[node].parent == parent && !IsRed(h', parent)
  {
    var h1 := Lifted(h, parent, grandparent);
    assert NodeOk(h, root, node) && NodeOk(h, root, parent) && NodeOk(h, root, grandparent);
    RotationNeighbours(h1, root, grandparent, cis.Other());
    RotateKeeps(h1, root, grandparent, cis.Other(), node);
    RotateKeeps(h1, root, grandparent, cis.Other(), parent);
    assert node != h[parent].Child(cis.Other());
  }

  lemma LiftedLinked(h: Shape, root: Node?, node: Node, parent: Node, grandparent: Node, cis: Side)
    requires OuterCase(h, root, node, parent, grandparent, cis)
    ensures CanRotate(Lifted(h, parent, grandparent), root, grandparent, cis.Other())
    ensures parent != grandparent
  {
    var h1 := Lifted(h, parent, grandparent);
    assert NodeOk(h, root, grandparent) && NodeOk(h, root, parent);
    PaintLinked(h, root, parent, false, h[parent].bh + 1);
    PaintLinked(Paint(h, parent, false, h[parent].bh + 1), root, grandparent, true, h1[grandparent].bh);
  }

  lemma OuterNode(h: Shape, root: Node?, node: Node, parent: Node, grandparent: Node, cis: Side, n: Node)
    requires OuterCase(h, root, node, parent, grandparent, cis) && n in h
    requires CanRotate(Lifted(h, parent, grandparent), root, grandparent, cis.Other())
    ensures var h' := Rotated(Lifted(h, parent, grandparent), root, grandparent, cis.Other());
      HeightOk(h', n) && ColourOk(h', n)
  {
    var h1 := Lifted(h, parent, grandparent);
    assert NodeOk(h, root, n) && HeightOk(h, n);
    if n == parent || n == grandparent {
      OuterCentre(h, root, node, parent, grandparent, cis, n);
    } else if n == h[grandparent].parent {
      OuterAbove(h, root, node, parent, grandparent, cis);
    } else {
      assert ColourOk(h, n);
      assert h[n].left != null ==> NodeOk(h, root, h[n].left);
      assert h[n].right != null ==> NodeOk(h, root, h[n].right);
      assert h1[n] == h[n];
      assert HeightOk(h1, n) && ColourOk(h1, n);
      RotateElsewhere(h1, root, grandparent, cis.Other(), n);
    }
  }

  lemma OuterCentre(h: Shape, root: Node?, node: Node, parent: Node, grandparent: Node, cis: Side, n: Node)
    requires OuterCase(h, root, node, parent, grandparent, cis)
    requires CanRotate(Lifted(h, parent, grandparent), root, grandparent, cis.Other())
    requires n == parent || n == grandparent
    ensures var h' := Rotated(Lifted(h, parent, grandparent), root, grandparent, cis.Other());
      HeightOk(h', n) && ColourOk(h', n)
  {
    var h1 := Lifted(h, parent, grandparent);
    var h' := Rotated(h1, root, grandparent, cis.Other());
    RotateChildren(h1, root, grandparent, cis.Other(), parent);
    OuterKin(h, root, node, parent, grandparent, cis);
    BalanceBySide(h', n, cis);
  }

  // The subtrees around the rotated edge, before anything moves.
  lemma OuterKin(h: Shape, root: Node?, node: Node, parent: Node, grandparent: Node, cis: Side)
    requires OuterCase(h, root, node, parent, grandparent, cis)
    ensures
      var inner, outer := h[parent].Child(cis.Other()), h[grandparent].Child(cis.Other());
      && node != parent && node != grandparent && parent != grandparent
      && (inner != null ==> inner in h && inner != node && inner != parent && inner != grandparent)
      && (outer != null ==> outer in h && outer != node && outer != parent && outer != grandparent)
      && h[parent].bh == h[grandparent].bh - 1 == h[node].bh == BlackHeight(h, inner) == BlackHeight(h, outer)
      && !IsRed(h, inner)
  {
    assert NodeOk(h, root, parent) && NodeOk(h, root, grandparent) && NodeOk(h, root, node);
    assert HeightOk(h, parent) && HeightOk(h, grandparent) && ColourOk(h, grandparent);
    BalanceBySide(h, parent, cis);
    BalanceBySide(h, grandparent, cis);
    var inner := h[parent].Child(cis.Other());
    assert inner != null ==> NodeOk(h, root, inner);
    var outer := h[grandparent].Child(cis.Other());
    assert outer != null ==> NodeOk(h, root, outer);
  }

  lemma OuterAbove(h: Shape, root: Node?, node: Node, parent: Node, grandparent: Node, cis: Side)
    requires OuterCase(h, root, node, parent, grandparent, cis)
    requires CanRotate(Lifted(h, parent, grandparent), root, grandparent, cis.Other())
    requires h[grandparent].parent != null
    ensures var h' := Rotated(Lifted(h, parent, grandparent), root, grandparent, cis.Other());
      var g := h[grandparent].parent;
      g in h' && HeightOk(h', g) && ColourOk(h', g)
  {
    var h1 := Lifted(h, parent, grandparent);
    var h' := Rotated(h1, root, grandparent, cis.Other());
    RotateChildren(h1, root, grandparent, cis.Other(), parent);
    var g := h[grandparent].parent;
    assert NodeOk(h, root, parent) && NodeOk(h, root, grandparent) && NodeOk(h, root, g);
    assert HeightOk(h, parent) && HeightOk(h, grandparent) && HeightOk(h, g) && ColourOk(h, g);
    var side := if h[g].left == grandparent then Left else Right;
    BalanceBySide(h, grandparent, cis);
    assert h1[parent].bh == h[grandparent].bh;
    BalanceBySide(h, g, side);
    BalanceBySide(h', g, side);
    var far := h[g].Child(side.Other());
    assert far != null ==> NodeOk(h, root, far);
    assert far != grandparent && far != parent;
    RotateKeeps(h1, root, grandparent, cis.Other(), parent);
    RotateKeeps(h1, root, grandparent, cis.Other(), g);
    if far != null {
      RotateKeeps(h1, root, grandparent, cis.Other(), far);
    }
  }

  // ---- Leaving the loop ----

  ghost function Blackened(h: Shape, root: Node): Shape
    requires root in h
  {
    if h[root].red then Paint(h, root, false, h[root].bh + 1) else h
  }

  lemma FinishInsert(h: Shape, root: Node, node: Node)
    requires AlmostRedBlack(h, root, node)
    requires h[node].parent == null || !IsRed(h, h[node].parent)
    ensures RedBlack(Blackened(h, root), root)
  {
    var h' := Blackened(h, root);
    assert NodeOk(h, root, root) && HeightOk(h, root);
    if h[root].red {
      PaintLinked(h, root, root, false, h[root].bh + 1);
    }
    forall n | n in h' ensures HeightOk(h', n) && ColourOk(h', n) {
      assert NodeOk(h, root, n) && HeightOk(h, n);
      assert h[n].left != null ==> NodeOk(h, root, h[n].left);
      assert h[n].right != null ==> NodeOk(h, root, h[n].right);
      if n != h[node].parent {
        assert ColourOk(h, n);
      }
    }
  }
}

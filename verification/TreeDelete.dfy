// Rebalancing after a removal, on snapshots.

module TreeDelete {
  import opened TreeShape
  import opened TreeRotate
  import opened TreeSplice

  // ---- Leaving the loop ----

  // A red node absorbs the missing black.
  lemma AbsorbRed(h: Shape, root: Node?, node: Node, parent: Node?, side: Side)
    requires Short(h, root, node, parent, side) && IsRed(h, node)
    ensures RedBlack(Paint(h, node, false, h[node].bh + 1), root)
  {
    var h' := Paint(h, node, false, h[node].bh + 1);
    PaintLinked(h, root, node, false, h[node].bh + 1);
    assert NodeOk(h, root, node);
    forall n | n in h' ensures HeightOk(h', n) && ColourOk(h', n) {
      assert NodeOk(h, root, n);
      var l, r := h[n].left, h[n].right;
      assert l != null ==> NodeOk(h, root, l);
      assert r != null ==> NodeOk(h, root, r);
      if n == parent {
        BalanceBySide(h', n, side);
      } else {
        assert HeightOk(h, n);
        assert n != node ==> ColourOk(h, n);
      }
    }
  }

  // Being short everywhere is the same as not being short at all.
  lemma ShortAtRoot(h: Shape, root: Node?, node: Node?, parent: Node?, side: Side)
    requires Short(h, root, node, parent, side) && !IsRed(h, node) && node == root
    ensures RedBlack(h, root)
  {
    assert parent == null;
    forall n | n in h ensures HeightOk(h, n) && ColourOk(h, n) {
      assert HeightOk(h, n) && ColourOk(h, n);
    }
  }

  // What is left of the climb.
  ghost function ShortageLeft(h: Shape, parent: Node?): int {
    if parent == null || parent !in h then 0 else UINTPTR_LIMIT + 2 - (h[parent].hi - h[parent].lo)
  }

  // ---- Inside the loop ----

  ghost predicate Working(h: Shape, root: Node?, node: Node?, parent: Node, side: Side) {
    Short(h, root, node, parent, side) && !IsRed(h, node)
  }

  // The sibling exists, and the side the loop works on is the one the code tests for.
  lemma WorkingSibling(h: Shape, root: Node?, node: Node?, parent: Node, side: Side)
    requires Working(h, root, node, parent, side)
    ensures
      var s := h[parent].Child(side.Other());
      && s != null && s in h && s != node && s != parent && h[s].parent == parent && HeightOk(h, s) && ColourOk(h, s)
      && h[s].bh == BlackHeight(h, node) + 1
    ensures h[parent].left == node <==> side.Left?
  {
    assert NodeOk(h, root, parent);
    var s := h[parent].Child(side.Other());
    assert NodeOk(h, root, s);
    assert HeightOk(h, s) && ColourOk(h, s);
  }

  // ---- Red sibling ----

  ghost function SiblingBlackened(h: Shape, parent: Node, s: Node): Shape
    requires parent in h && s in h
  {
    map n | n in h ::
      if n == s then h[n].(red := false, bh := h[n].bh + 1)
      else if n == parent then h[n].(red := true, bh := if h[n].bh > 0 then h[n].bh - 1 else 0)
      else h[n]
  }

  // Two snapshots that differ only in paint have the same links.
  ghost predicate SameLinks(h: Shape, h1: Shape) {
    h.Keys == h1.Keys && forall m | m in h :: h1[m] == h[m].(red := h1[m].red, bh := h1[m].bh)
  }

  lemma TintLinked(h: Shape, h': Shape, root: Node?)
    requires Linked(h, root) && SameLinks(h, h')
    ensures Linked(h', root)
  {
    forall n | n in h' ensures NodeOk(h', root, n) {
      assert NodeOk(h, root, n);
    }
    assert root == null ==> h'.Keys == {};
  }

  // Turning a red sibling into a black one: the shortage stays where it was, one level lower.
  lemma RedSiblingStep(h: Shape, root: Node?, node: Node?, parent: Node, side: Side, s: Node)
    requires Working(h, root, node, parent, side)
    requires s == h[parent].Child(side.Other()) && IsRed(h, s)
    ensures s in h && CanRotate(SiblingBlackened(h, parent, s), root, parent, side)
    ensures
      var h1 := SiblingBlackened(h, parent, s);
      var h' := Rotated(h1, root, parent, side);
      && Working(h', RotatedRoot(h1, root, parent, side), node, parent, side)
      && !IsRed(h', h'[parent].Child(side.Other()))
      && h'[parent].red
  {
    WorkingSibling(h, root, node, parent, side);
    var h1 := SiblingBlackened(h, parent, s);
    TintLinked(h, h1, root);
    RotateLinked(h1, root, parent, side);
    var h', root' := Rotated(h1, root, parent, side), RotatedRoot(h1, root, parent, side);
    RedSiblingShort(h, root, node, parent, side, s);
    forall n | n in h' && n != parent ensures HeightOk(h', n) && ColourOk(h', n) {
      RedSiblingNode(h, root, node, parent, side, s, n);
    }
    assert !IsRed(h', root') by {
      assert NodeOk(h, root, s) && NodeOk(h, root, parent);
      RotateKeeps(h1, root, parent, side, s);
      if root != null {
        RotateKeeps(h1, root, parent, side, root);
      }
    }
  }

  // The shortage at parent, as it stands after the rotation.
  lemma RedSiblingShort(h: Shape, root: Node?, node: Node?, parent: Node, side: Side, s: Node)
    requires Working(h, root, node, parent, side)
    requires s == h[parent].Child(side.Other()) && IsRed(h, s)
    requires CanRotate(SiblingBlackened(h, parent, s), root, parent, side)
    ensures
      var h' := Rotated(SiblingBlackened(h, parent, s), root, parent, side);
      && ShortAt(h', node, parent, side) && h'[parent].red && !IsRed(h', node)
      && (node != null ==> node in h' && h'[node].parent == parent)
  {
    WorkingSibling(h, root, node, parent, side);
    var h1 := SiblingBlackened(h, parent, s);
    var h' := Rotated(h1, root, parent, side);
    RotateChildren(h1, root, parent, side, s);
    RotateKeeps(h1, root, parent, side, parent);
    BalanceBySide(h, s, side);
    assert NodeOk(h, root, s) && NodeOk(h, root, parent);
    var near := h[s].Child(side);
    if near != null {
      assert NodeOk(h, root, near);
      RotateKeeps(h1, root, parent, side, near);
    }
    if node != null {
      assert NodeOk(h, root, node);
      RotateKeeps(h1, root, parent, side, node);
    }
  }

  lemma RedSiblingNode(h: Shape, root: Node?, node: Node?, parent: Node, side: Side, s: Node, n: Node)
    requires Working(h, root, node, parent, side) && n in h && n != parent
    requires s == h[parent].Child(side.Other()) && IsRed(h, s)
    requires CanRotate(SiblingBlackened(h, parent, s), root, parent, side)
    ensures var h' := Rotated(SiblingBlackened(h, parent, s), root, parent, side);
      HeightOk(h', n) && ColourOk(h', n)
  {
    WorkingSibling(h, root, node, parent, side);
    var h1 := SiblingBlackened(h, parent, s);
    assert SameLinks(h, h1);
    assert HeightOk(h, n) && ColourOk(h, n);
    if n == s {
      RedSiblingItself(h, root, node, parent, side, s);
    } else if n == h[parent].parent {
      assert NodeOk(h, root, s);
      ReplacedBelow(h, h1, root, parent, side, s, n);
    } else {
      UntouchedElsewhere(h, h1, root, parent, side, n);
    }
  }

  lemma RedSiblingItself(h: Shape, root: Node?, node: Node?, parent: Node, side: Side, s: Node)
    requires Working(h, root, node, parent, side)
    requires s == h[parent].Child(side.Other()) && IsRed(h, s)
    requires CanRotate(SiblingBlackened(h, parent, s), root, parent, side)
    ensures var h' := Rotated(SiblingBlackened(h, parent, s), root, parent, side);
      s in h' && HeightOk(h', s) && ColourOk(h', s)
  {
    WorkingSibling(h, root, node, parent, side);
    var h1 := SiblingBlackened(h, parent, s);
    var h' := Rotated(h1, root, parent, side);
    RotateChildren(h1, root, parent, side, s);
    BalanceBySide(h, s, side);
    BalanceBySide(h', s, side);
    RotateKeeps(h1, root, parent, side, s);
    RotateKeeps(h1, root, parent, side, parent);
    var far := h[s].Child(side.Other());
    if far != null {
      assert NodeOk(h, root, s) && NodeOk(h, root, far);
      RotateKeeps(h1, root, parent, side, far);
    }
  }

  // Shared by the rotations below: above the rotation a child is replaced by one with the same
  // black height that is no redder.
  lemma ReplacedBelow(h: Shape, h1: Shape, root: Node?, p: Node, cis: Side, q: Node, n: Node)
    requires Linked(h, root) && SameLinks(h, h1) && n in h && p in h && q in h && n == h[p].parent
    requires CanRotate(h1, root, p, cis) && q == h[p].Child(cis.Other())
    requires h1[q].bh == h[p].bh && (h1[q].red ==> h[p].red)
    requires forall m | m in h && m != p && h[m].parent == n :: h1[m] == h[m]
    requires h1[n] == h[n]
    requires HeightOk(h, n) && ColourOk(h, n)
    ensures HeightOk(Rotated(h1, root, p, cis), n) && ColourOk(Rotated(h1, root, p, cis), n)
  {
    var h' := Rotated(h1, root, p, cis);
    RotateChildren(h1, root, p, cis, q);
    assert NodeOk(h, root, n) && NodeOk(h, root, p);
    var up := if h[n].left == p then Left else Right;
    var far := h[n].Child(up.Other());
    assert far != p by {
      assert far != null ==> NodeOk(h, root, far);
    }
    RotateKeeps(h1, root, p, cis, q);
    RotateKeeps(h1, root, p, cis, n);
    if far != null {
      RotateKeeps(h1, root, p, cis, far);
      assert h1[far] == h[far];
    }
    BalanceBySide(h, n, up);
    BalanceBySide(h', n, up);
  }

  // Away from the rotation, a node none of whose children were repainted keeps its balance.
  lemma UntouchedElsewhere(h: Shape, h1: Shape, root: Node?, p: Node, cis: Side, n: Node)
    requires Linked(h, root) && SameLinks(h, h1) && n in h
    requires CanRotate(h1, root, p, cis)
    requires n != p && n != h1[p].Child(cis.Other()) && n != h1[p].parent
    requires h1[n] == h[n] && forall m | m in h && h[m].parent == n :: h1[m] == h[m]
    requires HeightOk(h, n) && ColourOk(h, n)
    ensures HeightOk(Rotated(h1, root, p, cis), n) && ColourOk(Rotated(h1, root, p, cis), n)
  {
    assert NodeOk(h, root, n);
    assert HeightOk(h1, n) && ColourOk(h1, n);
    RotateElsewhere(h1, root, p, cis, n);
  }

  // ---- Black sibling without red children: move the shortage up ----

  ghost function SiblingReddened(h: Shape, parent: Node, s: Node): Shape
    requires parent in h && s in h
  {
    map n | n in h ::
      if n == s then h[n].(red := true, bh := if h[n].bh > 0 then h[n].bh - 1 else 0)
      else if n == parent then h[n].(bh := if h[n].bh > 0 then h[n].bh - 1 else 0)
      else h[n]
  }

  lemma MoveUpStep(h: Shape, root: Node?, node: Node?, parent: Node, side: Side, s: Node, up: Side)
    requires Working(h, root, node, parent, side)
    requires s == h[parent].Child(side.Other()) && !IsRed(h, s)
    requires s in h && !IsRed(h, h[s].left) && !IsRed(h, h[s].right)
    requires h[parent].parent != null && h[parent].parent in h ==> h[h[parent].parent].Child(up) == parent
    ensures Short(SiblingReddened(h, parent, s), root, parent, h[parent].parent, up)
  {
    WorkingSibling(h, root, node, parent, side);
    var h' := SiblingReddened(h, parent, s);
    TintLinked(h, h', root);
    assert NodeOk(h, root, parent);
    var g := h[parent].parent;
    forall n | n in h' && n != g ensures HeightOk(h', n) && (n != parent || !h'[n].red ==> ColourOk(h', n)) {
      MoveUpNode(h, root, node, parent, side, s, n);
    }
    if g != null {
      MoveUpAbove(h, root, node, parent, side, s, up);
    }
  }

  lemma MoveUpAbove(h: Shape, root: Node?, node: Node?, parent: Node, side: Side, s: Node, up: Side)
    requires Working(h, root, node, parent, side)
    requires s == h[parent].Child(side.Other()) && !IsRed(h, s) && s in h
    requires h[parent].parent != null && h[parent].parent in h && h[h[parent].parent].Child(up) == parent
    ensures ShortAt(SiblingReddened(h, parent, s), parent, h[parent].parent, up)
  {
    WorkingSibling(h, root, node, parent, side);
    var g := h[parent].parent;
    assert NodeOk(h, root, parent) && NodeOk(h, root, g) && HeightOk(h, g) && ColourOk(h, g);
    BalanceBySide(h, g, up);
    var far := h[g].Child(up.Other());
    assert far != parent && far != s by {
      assert far != null ==> NodeOk(h, root, far);
    }
  }

  lemma MoveUpNode(h: Shape, root: Node?, node: Node?, parent: Node, side: Side, s: Node, n: Node)
    requires Working(h, root, node, parent, side) && n in h && n != h[parent].parent
    requires s == h[parent].Child(side.Other()) && !IsRed(h, s)
    requires s in h && !IsRed(h, h[s].left) && !IsRed(h, h[s].right)
    ensures var h' := SiblingReddened(h, parent, s);
      HeightOk(h', n) && (n != parent || !h'[n].red ==> ColourOk(h', n))
  {
    WorkingSibling(h, root, node, parent, side);
    var h' := SiblingReddened(h, parent, s);
    assert NodeOk(h, root, n);
    if n == parent {
      BalanceBySide(h', n, side);
      assert node != parent by {
        assert node != null ==> NodeOk(h, root, node);
      }
    } else {
      assert HeightOk(h, n) && ColourOk(h, n);
      MoveUpChild(h, root, node, parent, side, s, n, h[n].left);
      MoveUpChild(h, root, node, parent, side, s, n, h[n].right);
    }
  }

  lemma MoveUpChild(h: Shape, root: Node?, node: Node?, parent: Node, side: Side, s: Node, n: Node, c: Node?)
    requires Working(h, root, node, parent, side) && n in h && n != h[parent].parent && n != parent
    requires s == h[parent].Child(side.Other()) && s in h
    requires c == h[n].left || c == h[n].right
    ensures var h' := SiblingReddened(h, parent, s);
      BlackHeight(h', c) == BlackHeight(h, c) && (IsRed(h', c) <==> IsRed(h, c))
  {
    WorkingSibling(h, root, node, parent, side);
    assert NodeOk(h, root, n);
    if c != null {
      assert NodeOk(h, root, c);
      assert c != parent && c != s;
    }
  }

  // ---- Red near nephew: rotate it outwards ----

  // Raises x (red) over y (black): the paint that goes with rotating the edge between them.
  ghost function PaintSwapped(h: Shape, x: Node, y: Node): Shape
    requires x in h && y in h
  {
    map n | n in h ::
      if n == x then h[n].(red := false, bh := h[n].bh + 1)
      else if n == y then h[n].(red := true, bh := if h[n].bh > 0 then h[n].bh - 1 else 0)
      else h[n]
  }

  ghost predicate NearRed(h: Shape, root: Node?, node: Node?, parent: Node, side: Side, s: Node, near: Node) {
    && Working(h, root, node, parent, side)
    && s == h[parent].Child(side.Other()) && s in h && !IsRed(h, s)
    && near == h[s].Child(side) && IsRed(h, near) && !IsRed(h, h[s].Child(side.Other()))
  }

  lemma NearNephewStep(h: Shape, root: Node?, node: Node?, parent: Node, side: Side, s: Node, near: Node)
    requires NearRed(h, root, node, parent, side, s, near)
    ensures CanRotate(PaintSwapped(h, near, s), root, s, side.Other())
    ensures
      var h1 := PaintSwapped(h, near, s);
      var h' := Rotated(h1, root, s, side.Other());
      && RotatedRoot(h1, root, s, side.Other()) == root
      && Working(h', root, node, parent, side)
      && h'[parent].Child(side.Other()) == near && !IsRed(h', near)
      && h'[near].Child(side.Other()) == s && IsRed(h', s)
  {
    WorkingSibling(h, root, node, parent, side);
    var h1 := PaintSwapped(h, near, s);
    var trans := side.Other();
    TintLinked(h, h1, root);
    RotateLinked(h1, root, s, trans);
    var h' := Rotated(h1, root, s, trans);
    NearNephewShort(h, root, node, parent, side, s, near);
    forall n | n in h' && n != parent ensures HeightOk(h', n) && ColourOk(h', n) {
      NearNephewNode(h, root, node, parent, side, s, near, n);
    }
    assert NodeOk(h, root, s) && NodeOk(h, root, near);
    assert root != null && root != s && root != near;
    RotateKeeps(h1, root, s, trans, root);
  }

  lemma NearNephewShort(h: Shape, root: Node?, node: Node?, parent: Node, side: Side, s: Node, near: Node)
    requires NearRed(h, root, node, parent, side, s, near)
    requires CanRotate(PaintSwapped(h, near, s), root, s, side.Other())
    ensures
      var h' := Rotated(PaintSwapped(h, near, s), root, s, side.Other());
      && ShortAt(h', node, parent, side) && !IsRed(h', node)
      && (node != null ==> node in h' && h'[node].parent == parent)
      && h'[parent].Child(side.Other()) == near && !IsRed(h', near)
      && h'[near].Child(side.Other()) == s && IsRed(h', s)
  {
    WorkingSibling(h, root, node, parent, side);
    var h1 := PaintSwapped(h, near, s);
    var trans := side.Other();
    var h' := Rotated(h1, root, s, trans);
    assert NodeOk(h, root, s) && NodeOk(h, root, near) && NodeOk(h, root, parent);
    RotateChildren(h1, root, s, trans, near);
    RotateKeeps(h1, root, s, trans, parent);
    RotateKeeps(h1, root, s, trans, near);
    RotateKeeps(h1, root, s, trans, s);
    assert HeightOk(h, near);
    BalanceBySide(h, s, side);
    if node != null {
      assert NodeOk(h, root, node);
      RotateKeeps(h1, root, s, trans, node);
    }
    assert h'[parent].Child(side) == node;
  }

  lemma NearNephewNode(h: Shape, root: Node?, node: Node?, parent: Node, side: Side, s: Node, near: Node, n: Node)
    requires NearRed(h, root, node, parent, side, s, near) && n in h && n != parent
    requires CanRotate(PaintSwapped(h, near, s), root, s, side.Other())
    ensures var h' := Rotated(PaintSwapped(h, near, s), root, s, side.Other());
      HeightOk(h', n) && ColourOk(h', n)
  {
    WorkingSibling(h, root, node, parent, side);
    var h1 := PaintSwapped(h, near, s);
    var trans := side.Other();
    var h' := Rotated(h1, root, s, trans);
    assert NodeOk(h, root, s) && NodeOk(h, root, near) && NodeOk(h, root, n);
    assert HeightOk(h, n) && ColourOk(h, n) && HeightOk(h, near) && ColourOk(h, near) && HeightOk(h, s);
    if n == s || n == near {
      NearNephewCentre(h, root, node, parent, side, s, near, n);
    } else {
      UntouchedElsewhere(h, h1, root, s, trans, n);
    }
  }

  lemma NearNephewCentre(h: Shape, root: Node?, node: Node?, parent: Node, side: Side, s: Node, near: Node, n: Node)
    requires NearRed(h, root, node, parent, side, s, near) && (n == s || n == near)
    requires CanRotate(PaintSwapped(h, near, s), root, s, side.Other())
    ensures n in h
    ensures var h' := Rotated(PaintSwapped(h, near, s), root, s, side.Other());
      HeightOk(h', n) && ColourOk(h', n)
  {
    hide Rotated;
    WorkingSibling(h, root, node, parent, side);
    var h1 := PaintSwapped(h, near, s);
    var trans := side.Other();
    var h' := Rotated(h1, root, s, trans);
    RotateChildren(h1, root, s, trans, near);
    assert NodeOk(h, root, s) && NodeOk(h, root, near);
    assert HeightOk(h, near) && ColourOk(h, near) && HeightOk(h, s);
    BalanceBySide(h, near, side);
    BalanceBySide(h, s, side);
    BalanceBySide(h', n, side);
    NearNephewBelow(h, root, s, side, near, h[near].Child(side), near);
    NearNephewBelow(h, root, s, side, near, h[near].Child(trans), near);
    NearNephewBelow(h, root, s, side, near, h[s].Child(trans), s);
    RotateKeeps(h1, root, s, trans, s);
    RotateKeeps(h1, root, s, trans, near);
  }

  // Below the two nodes that turn nothing changes.
  lemma NearNephewBelow(h: Shape, root: Node?, s: Node, side: Side, near: Node, c: Node?, above: Node)
    requires Linked(h, root) && s in h && near in h && near == h[s].Child(side) && (above == s || above == near)
    requires c != near && (c == h[above].left || c == h[above].right)
    requires CanRotate(PaintSwapped(h, near, s), root, s, side.Other())
    ensures
      var h' := Rotated(PaintSwapped(h, near, s), root, s, side.Other());
      BlackHeight(h', c) == BlackHeight(h, c) && (IsRed(h', c) <==> IsRed(h, c))
  {
    assert NodeOk(h, root, s) && NodeOk(h, root, above);
    if c != null {
      assert NodeOk(h, root, c);
      RotateKeeps(PaintSwapped(h, near, s), root, s, side.Other(), c);
    }
  }

  // ---- Red far nephew: one rotation at the parent repays the missing black ----

  ghost predicate FarRed(h: Shape, root: Node?, node: Node?, parent: Node, side: Side, s: Node, far: Node) {
    && Working(h, root, node, parent, side)
    && s == h[parent].Child(side.Other()) && s in h && !IsRed(h, s)
    && far == h[s].Child(side.Other()) && IsRed(h, far)
  }

  ghost function Repaid(h: Shape, parent: Node, s: Node, far: Node): Shape
    requires parent in h && s in h && far in h
  {
    map n | n in h ::
      if n == s then h[n].(red := h[parent].red, bh := h[parent].bh)
      else if n == parent then h[n].(red := false, bh := h[s].bh)
      else if n == far then h[n].(red := false, bh := h[n].bh + 1)
      else h[n]
  }

  lemma FarNephewStep(h: Shape, root: Node?, node: Node?, parent: Node, side: Side, s: Node, far: Node)
    requires FarRed(h, root, node, parent, side, s, far)
    ensures CanRotate(Repaid(h, parent, s, far), root, parent, side)
    ensures RedBlack(Rotated(Repaid(h, parent, s, far), root, parent, side),
                     RotatedRoot(Repaid(h, parent, s, far), root, parent, side))
  {
    hide HeightOk, ColourOk;
    WorkingSibling(h, root, node, parent, side);
    var h1 := Repaid(h, parent, s, far);
    TintLinked(h, h1, root);
    RotateLinked(h1, root, parent, side);
    var h', root' := Rotated(h1, root, parent, side), RotatedRoot(h1, root, parent, side);
    forall n | n in h' ensures HeightOk(h', n) && ColourOk(h', n) {
      FarNephewNode(h, root, node, parent, side, s, far, n);
    }
    assert NodeOk(h, root, parent) && NodeOk(h, root, s) && NodeOk(h, root, root);
    RotateKeeps(h1, root, parent, side, s);
    RotateKeeps(h1, root, parent, side, root);
  }

  lemma FarNephewNode(h: Shape, root: Node?, node: Node?, parent: Node, side: Side, s: Node, far: Node, n: Node)
    requires FarRed(h, root, node, parent, side, s, far) && n in h
    requires CanRotate(Repaid(h, parent, s, far), root, parent, side)
    ensures var h' := Rotated(Repaid(h, parent, s, far), root, parent, side);
      HeightOk(h', n) && ColourOk(h', n)
  {
    WorkingSibling(h, root, node, parent, side);
    if n == parent || n == s {
      FarNephewCentre(h, root, node, parent, side, s, far, n);
    } else if n == far {
      FarNephewItself(h, root, node, parent, side, s, far);
    } else {
      FarNephewElsewhere(h, root, node, parent, side, s, far, n);
    }
  }

  lemma RepaidLinks(h: Shape, parent: Node, s: Node, far: Node)
    requires parent in h && s in h && far in h
    ensures SameLinks(h, Repaid(h, parent, s, far))
  {
  }

  lemma FarNephewElsewhere(h: Shape, root: Node?, node: Node?, parent: Node, side: Side, s: Node, far: Node, n: Node)
    requires FarRed(h, root, node, parent, side, s, far) && n in h && n != parent && n != s && n != far
    requires CanRotate(Repaid(h, parent, s, far), root, parent, side)
    ensures var h' := Rotated(Repaid(h, parent, s, far), root, parent, side);
      HeightOk(h', n) && ColourOk(h', n)
  {
    WorkingSibling(h, root, node, parent, side);
    var h1 := Repaid(h, parent, s, far);
    assert NodeOk(h, root, s) && NodeOk(h, root, far);
    RepaidLinks(h, parent, s, far);
    assert HeightOk(h, n) && ColourOk(h, n);
    if n == h[parent].parent {
      ReplacedBelow(h, h1, root, parent, side, s, n);
    } else {
      UntouchedElsewhere(h, h1, root, parent, side, n);
    }
  }

  lemma FarNephewItself(h: Shape, root: Node?, node: Node?, parent: Node, side: Side, s: Node, far: Node)
    requires FarRed(h, root, node, parent, side, s, far)
    requires CanRotate(Repaid(h, parent, s, far), root, parent, side)
    ensures far in h
    ensures var h' := Rotated(Repaid(h, parent, s, far), root, parent, side);
      HeightOk(h', far) && ColourOk(h', far)
  {
    WorkingSibling(h, root, node, parent, side);
    var h1 := Repaid(h, parent, s, far);
    assert NodeOk(h, root, parent) && NodeOk(h, root, s) && NodeOk(h, root, far);
    assert HeightOk(h, far);
    var l, r := h[far].left, h[far].right;
    assert l != null ==> NodeOk(h, root, l);
    assert r != null ==> NodeOk(h, root, r);
    assert HeightOk(h1, far) && ColourOk(h1, far);
    RotateElsewhere(h1, root, parent, side, far);
  }

  lemma FarNephewCentre(h: Shape, root: Node?, node: Node?, parent: Node, side: Side, s: Node, far: Node, n: Node)
    requires FarRed(h, root, node, parent, side, s, far) && (n == s || n == parent)
    requires CanRotate(Repaid(h, parent, s, far), root, parent, side)
    ensures n in h
    ensures var h' := Rotated(Repaid(h, parent, s, far), root, parent, side);
      HeightOk(h', n) && ColourOk(h', n)
  {
    WorkingSibling(h, root, node, parent, side);
    var h1 := Repaid(h, parent, s, far);
    var h' := Rotated(h1, root, parent, side);
    RotateChildren(h1, root, parent, side, s);
    assert NodeOk(h, root, parent) && NodeOk(h, root, s) && NodeOk(h, root, far);
    assert HeightOk(h, s) && HeightOk(h, far) && far != s && far != parent;
    BalanceBySide(h, s, side);
    BalanceBySide(h', n, side);
    RotateKeeps(h1, root, parent, side, s);
    RotateKeeps(h1, root, parent, side, parent);
    RotateKeeps(h1, root, parent, side, far);
    var near := h[s].Child(side);
    assert near != null ==> NodeOk(h, root, near);
    assert near != far && near != s && near != parent;
    assert node != null ==> NodeOk(h, root, node);
    assert node != far && node != s && node != parent;
  }

  lemma RepaidStores(h: Shape, parent: Node, s: Node, far: Node)
    requires parent in h && s in h && far in h && s != parent && far != parent && far != s
    ensures SameFields(WithRed(WithRed(WithRed(h, s, h[parent].red), parent, false), far, false),
                       Repaid(h, parent, s, far))
  {
  }

  // The shortage moves to a node with a wider interval.
  lemma MoveUpMeasure(h: Shape, root: Node?, node: Node?, parent: Node, side: Side, s: Node)
    requires Working(h, root, node, parent, side)
    requires s == h[parent].Child(side.Other()) && s in h
    ensures s != parent
    ensures
      var g := h[parent].parent;
      && (g != null ==> g in h && g != parent && (h[g].left == parent || h[g].right == parent))
      && 0 <= ShortageLeft(SiblingReddened(h, parent, s), g) < ShortageLeft(h, parent)
    ensures
      var h' := SiblingReddened(h, parent, s);
      && h'[parent].parent == h[parent].parent && (IsRed(h', parent) <==> IsRed(h, parent))
      && SameFields(WithRed(h, s, true), h')
  {
    WorkingSibling(h, root, node, parent, side);
    assert NodeOk(h, root, parent);
    var g := h[parent].parent;
    assert g != null ==> NodeOk(h, root, g);
  }
}

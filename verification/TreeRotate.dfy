// The two primitive rewrites of the tree, on snapshots: repainting a node and rotating an edge.

module TreeRotate {
  import opened TreeShape

  // ---- Painting ----

  ghost function Paint(h: Shape, n: Node, red: bool, bh: nat): Shape
    requires n in h
  {
    h[n := h[n].(red := red, bh := bh)]
  }

  lemma PaintLinked(h: Shape, root: Node?, n: Node, red: bool, bh: nat)
    requires Linked(h, root) && n in h
    ensures Linked(Paint(h, n, red, bh), root)
  {
    var h' := Paint(h, n, red, bh);
    forall m | m in h' ensures NodeOk(h', root, m) {
      assert NodeOk(h, root, m);
    }
  }

  // A store to the colour alone.
  ghost function WithRed(h: Shape, n: Node, red: bool): (h': Shape)
    requires n in h
    ensures h'.Keys == h.Keys
  {
    h[n := h[n].(red := red)]
  }

  // ---- Rotation ----

  // Rotating towards `cis` at p lifts q, the child of p on the other side.
  ghost predicate CanRotate(h: Shape, root: Node?, p: Node, cis: Side) {
    Linked(h, root) && p in h && h[p].Child(cis.Other()) != null
  }

  ghost function RotatedRec(h: Shape, p: Node, q: Node, cis: Side, n: Node): Rec
    requires p in h && q in h && n in h
  {
    if n == q then
      h[q].WithChild(cis, p).(parent := h[p].parent, lo := h[p].lo, hi := h[p].hi)
    else if n == p then
      h[p].WithChild(cis.Other(), h[q].Child(cis))
          .(parent := q,
            lo := if cis.Left? then h[p].lo else h[q].key,
            hi := if cis.Left? then h[q].key else h[p].hi)
    else if n == h[p].parent then
      if h[n].left == p then h[n].(left := q) else h[n].(right := q)
    else if n == h[q].Child(cis) then
      h[n].(parent := p)
    else
      h[n]
  }

  ghost function Rotated(h: Shape, root: Node?, p: Node, cis: Side): (h': Shape)
    requires CanRotate(h, root, p, cis)
    ensures h'.Keys == h.Keys
  {
    assert NodeOk(h, root, p);
    var q := h[p].Child(cis.Other());
    map n | n in h :: RotatedRec(h, p, q, cis, n)
  }

  ghost function RotatedRoot(h: Shape, root: Node?, p: Node, cis: Side): Node?
    requires CanRotate(h, root, p, cis)
  {
    if h[p].parent == null then h[p].Child(cis.Other()) else root
  }

  // The nodes a rotation touches are pairwise different.
  lemma RotationNeighbours(h: Shape, root: Node?, p: Node, cis: Side)
    requires CanRotate(h, root, p, cis)
    ensures
      var q := h[p].Child(cis.Other());
      && q in h && q != p && h[q].parent == p
      && var b, g := h[q].Child(cis), h[p].parent;
      && (b != null ==> b in h && b != p && b != q && h[b].parent == q)
      && (g != null ==> g in h && g != p && g != q && g != b)
  {
    assert NodeOk(h, root, p);
    var q := h[p].Child(cis.Other());
    assert NodeOk(h, root, q);
    var b, g := h[q].Child(cis), h[p].parent;
    if b != null {
      assert NodeOk(h, root, b);
    }
    if g != null {
      assert NodeOk(h, root, g);
    }
  }

  lemma RotateLinked(h: Shape, root: Node?, p: Node, cis: Side)
    requires CanRotate(h, root, p, cis)
    ensures Linked(Rotated(h, root, p, cis), RotatedRoot(h, root, p, cis))
  {
    RotationNeighbours(h, root, p, cis);
    var h', root' := Rotated(h, root, p, cis), RotatedRoot(h, root, p, cis);
    var q := h[p].Child(cis.Other());
    var b, g := h[q].Child(cis), h[p].parent;
    assert NodeOk(h, root, p) && NodeOk(h, root, q);
    assert b != null ==> NodeOk(h, root, b);
    assert g != null ==> NodeOk(h, root, g);
    assert RootOk(h', root') by {
      assert root != null ==> NodeOk(h, root, root);
    }
    forall n | n in h' ensures NodeOk(h', root', n) {
      assert NodeOk(h, root, n);
      RotatedNode(h, root, p, cis, n);
    }
  }

  lemma RotatedNode(h: Shape, root: Node?, p: Node, cis: Side, n: Node)
    requires CanRotate(h, root, p, cis) && n in h
    ensures NodeOk(Rotated(h, root, p, cis), RotatedRoot(h, root, p, cis), n)
  {
    RotationNeighbours(h, root, p, cis);
    var h', root' := Rotated(h, root, p, cis), RotatedRoot(h, root, p, cis);
    var q := h[p].Child(cis.Other());
    var b, g := h[q].Child(cis), h[p].parent;
    assert NodeOk(h, root, n) && NodeOk(h, root, p) && NodeOk(h, root, q);
    assert ParentOk(h', root', n) by {
      assert g != null ==> NodeOk(h, root, g);
    }
    assert h'[n].lo < h'[n].key < h'[n].hi;
    RotatedChild(h, root, p, cis, n, Left);
    RotatedChild(h, root, p, cis, n, Right);
  }

  lemma RotatedChild(h: Shape, root: Node?, p: Node, cis: Side, n: Node, side: Side)
    requires CanRotate(h, root, p, cis) && n in h
    ensures ChildOk(Rotated(h, root, p, cis), n, side)
  {
    RotationNeighbours(h, root, p, cis);
    var h' := Rotated(h, root, p, cis);
    var q := h[p].Child(cis.Other());
    var b, g := h[q].Child(cis), h[p].parent;
    assert NodeOk(h, root, p) && NodeOk(h, root, q) && NodeOk(h, root, n);
    if n == p || n == q || n == g {
      RotatedCentre(h, root, p, cis, n, side);
    } else {
      var c := h[n].Child(side);
      if c != null {
        assert c in h && h[c].parent == n;
        assert c != p && c != q && c != b;
        assert h'[n].lo == h[n].lo && h'[n].hi == h[n].hi && h'[n].key == h[n].key;
        assert h'[c].lo == h[c].lo && h'[c].hi == h[c].hi && h'[c].parent == h[c].parent;
      }
    }
  }

  lemma RotatedCentre(h: Shape, root: Node?, p: Node, cis: Side, n: Node, side: Side)
    requires CanRotate(h, root, p, cis) && n in h
    requires n == p || n == h[p].Child(cis.Other()) || n == h[p].parent
    ensures ChildOk(Rotated(h, root, p, cis), n, side)
  {
    RotationNeighbours(h, root, p, cis);
    var h' := Rotated(h, root, p, cis);
    var q := h[p].Child(cis.Other());
    assert NodeOk(h, root, p) && NodeOk(h, root, q) && NodeOk(h, root, n);
    var c := h'[n].Child(side);
    if n == p {
      assert c != null ==> NodeOk(h, root, c);
    } else if n == q {
      assert c != null ==> NodeOk(h, root, c);
    } else {
      var d := h[n].Child(side);
      assert d != null ==> NodeOk(h, root, d);
      assert c == if d == p then q else d;
    }
  }

  // What a rotation does to the children: p and q exchange one child, p's parent gets q for p,
  // and nobody else's children change. Keys, colours and black heights all stay.
  lemma RotateKeeps(h: Shape, root: Node?, p: Node, cis: Side, n: Node)
    requires CanRotate(h, root, p, cis) && n in h
    ensures
      var h' := Rotated(h, root, p, cis);
      && h'[n].key == h[n].key && h'[n].red == h[n].red && h'[n].bh == h[n].bh
  {
  }

  lemma RotateChildren(h: Shape, root: Node?, p: Node, cis: Side, q: Node)
    requires CanRotate(h, root, p, cis) && q == h[p].Child(cis.Other())
    ensures q in h && p != q
    ensures
      var h', g := Rotated(h, root, p, cis), h[p].parent;
      && h'[q].Child(cis) == p && h'[q].Child(cis.Other()) == h[q].Child(cis.Other())
      && h'[p].Child(cis) == h[p].Child(cis) && h'[p].Child(cis.Other()) == h[q].Child(cis)
      && h'[q].parent == g && h'[p].parent == q
      && (g != null ==>
            && g in h && g != p && g != q
            && forall side :: h'[g].Child(side) == if h[g].Child(side) == p then q else h[g].Child(side))
  {
    RotationNeighbours(h, root, p, cis);
    assert NodeOk(h, root, p);
    var g := h[p].parent;
    if g != null {
      assert NodeOk(h, root, g);
    }
  }

  // Balance at a node away from the rotation is not disturbed.
  lemma RotateElsewhere(h: Shape, root: Node?, p: Node, cis: Side, n: Node)
    requires CanRotate(h, root, p, cis) && n in h
    requires n != p && n != h[p].Child(cis.Other()) && n != h[p].parent
    ensures HeightOk(h, n) ==> HeightOk(Rotated(h, root, p, cis), n)
    ensures ColourOk(h, n) ==> ColourOk(Rotated(h, root, p, cis), n)
  {
    var h' := Rotated(h, root, p, cis);
    assert NodeOk(h, root, n);
    assert h'[n].left == h[n].left && h'[n].right == h[n].right;
    if h[n].left != null {
      RotateKeeps(h, root, p, cis, h[n].left);
    }
    if h[n].right != null {
      RotateKeeps(h, root, p, cis, h[n].right);
    }
  }

  // All that the stores of a rotation rely on.
  ghost predicate Turnable(h: Shape, p: Node, cis: Side) {
    && p in h
    && var q, g := h[p].Child(cis.Other()), h[p].parent;
    && q != null && q in h && q != p && (g != null ==> g in h && g != p && g != q)
    && var b := h[q].Child(cis);
    && (b != null ==> b in h && b != p)
    && Redirected(h, g, p, q)[q] == h[q]
  }

  // The stores of a rotation, in the order of the code.
  ghost function Turned(h: Shape, p: Node, cis: Side): (h': Shape)
    requires Turnable(h, p, cis)
    ensures h'.Keys == h.Keys
  {
    var q, g := h[p].Child(cis.Other()), h[p].parent;
    EdgeTurned(Redirected(h, g, p, q), p, q, g, cis)
  }

  ghost function EdgeTurned(h: Shape, p: Node, q: Node, parent: Node?, cis: Side): (h': Shape)
    requires p in h && q in h && (h[q].Child(cis) != null ==> h[q].Child(cis) in h)
    ensures h'.Keys == h.Keys
  {
    var h1 := h[q := h[q].(parent := parent)];
    Crossed(h1[p := h1[p].(parent := q)], p, q, cis)
  }

  // q's child on the near side moves across to p, and p becomes q's child.
  ghost function Crossed(h: Shape, p: Node, q: Node, cis: Side): (h': Shape)
    requires p in h && q in h && (h[q].Child(cis) != null ==> h[q].Child(cis) in h)
    ensures h'.Keys == h.Keys
  {
    var b := h[q].Child(cis);
    var h1 := h[p := h[p].WithChild(cis.Other(), b)];
    var h2 := if b == null then h1 else h1[b := h1[b].(parent := p)];
    h2[q := h2[q].WithChild(cis, p)]
  }

  lemma RotationStores(h: Shape, root: Node?, p: Node, cis: Side)
    requires CanRotate(h, root, p, cis)
    ensures Turnable(h, p, cis) && SameFields(Turned(h, p, cis), Rotated(h, root, p, cis))
  {
    RotationNeighbours(h, root, p, cis);
    var q, g := h[p].Child(cis.Other()), h[p].parent;
    var h1 := Redirected(h, g, p, q);
    var w, h' := Turned(h, p, cis), Rotated(h, root, p, cis);
    forall n | n in h ensures h'[n] == w[n].(lo := h'[n].lo, hi := h'[n].hi, bh := h'[n].bh) {
      if n == q {
        assert h1[n] == h[n];
      } else if n == p {
        assert h1[n] == h[n];
      } else if n == h[q].Child(cis) {
        assert h1[n] == h[n];
      } else {
        assert w[n] == h1[n];
      }
    }
  }
}

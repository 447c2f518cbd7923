// How far an operation on the tree has got, and what each of its steps does to the snapshot.

module TreeStage {
  import opened TreeShape
  import opened TreeRotate
  import opened TreeInsert
  import opened TreeSplice
  import opened TreeDelete

  // `Loose` promises nothing about the balance.
  datatype Stage =
    | Loose
    | Balanced
    | Inserting(node: Node)
    | Removing(short: Node?, parent: Node?, side: Side)

  ghost predicate Holds(stage: Stage, h: Shape, root: Node?) {
    match stage
    case Loose => true
    case Balanced => RedBlack(h, root)
    case Inserting(node) => AlmostRedBlack(h, root, node)
    case Removing(short, parent, side) => Short(h, root, short, parent, side)
  }

  // ---- The steps ----
  // In each, w is the tree after the stores that change colours or links, h1 the same with
  // fresh annotations, and h2 the tree after the rotation.

  // A red parent is not the root, so there is a grandparent; and the uncle is its other child.
  lemma PlanInsertCase(h: Shape, root: Node?, node: Node, parent: Node)
    requires Holds(Inserting(node), h, root) && parent == h[node].parent && IsRed(h, parent)
    ensures parent in h && parent != node
    ensures
      var g := h[parent].parent;
      && g != null && g in h && g != parent && (h[g].left == parent <==> h[g].right != parent)
      && var u := if h[g].left == parent then h[g].right else h[g].left;
      u != null ==> u in h && u != g && u != parent
    ensures h[parent].left == node <==> h[parent].right != node
    ensures ClimbLeft(h, node) > 0
  {
    assert NodeOk(h, root, parent) && NodeOk(h, root, node);
    ParentOfRed(h, root, node, parent);
    var g := h[parent].parent;
    var cis := if h[g].left == parent then Left else Right;
    UncleIsSibling(h, root, parent, g, cis);
  }

  lemma PlanRecolour(h: Shape, root: Node?, node: Node, parent: Node, grandparent: Node, uncle: Node, cis: Side)
    returns (w: Shape, h1: Shape)
    requires Holds(Inserting(node), h, root) && parent == h[node].parent && IsRed(h, parent)
    requires grandparent in h && h[parent].parent == grandparent && h[grandparent].Child(cis) == parent
    requires uncle == h[grandparent].Child(cis.Other()) && IsRed(h, uncle)
    ensures uncle in h
    ensures w == WithRed(WithRed(WithRed(h, parent, false), uncle, false), grandparent, true) && SameFields(w, h1)
    ensures Holds(Inserting(grandparent), h1, root)
    ensures 0 <= ClimbLeft(h1, grandparent) < ClimbLeft(h, node)
  {
    ParentOfRed(h, root, node, parent);
    UncleIsSibling(h, root, parent, grandparent, cis);
    RecolourStep(h, root, node, parent, grandparent, uncle);
    RecolourClimbs(h, root, node, parent, grandparent, uncle);
    RecolourStores(h, parent, uncle, grandparent);
    w := WithRed(WithRed(WithRed(h, parent, false), uncle, false), grandparent, true);
    h1 := Recoloured(h, parent, uncle, grandparent);
  }

  lemma PlanInner(h: Shape, root: Node?, node: Node, parent: Node, grandparent: Node, cis: Side)
    returns (h2: Shape, root2: Node?)
    requires Holds(Inserting(node), h, root) && parent == h[node].parent && IsRed(h, parent)
    requires grandparent in h && h[parent].parent == grandparent && h[grandparent].Child(cis) == parent
    requires h[parent].Child(cis.Other()) == node && !IsRed(h, h[grandparent].Child(cis.Other()))
    ensures CanRotate(h, root, parent, cis)
    ensures h2 == Rotated(h, root, parent, cis) && root2 == RotatedRoot(h, root, parent, cis)
    ensures Holds(Inserting(parent), h2, root2)
    ensures h2[parent].parent == node && IsRed(h2, node) && h2[node].Child(cis) == parent
    ensures h2[node].parent == grandparent && h2[grandparent].Child(cis) == node
    ensures !IsRed(h2, h2[grandparent].Child(cis.Other()))
  {
    InnerStep(h, root, node, parent, cis);
    InnerUncle(h, root, parent, grandparent, cis);
    UncleIsSibling(h, root, parent, grandparent, cis);
    RotateKeeps(h, root, parent, cis, node);
    h2, root2 := Rotated(h, root, parent, cis), RotatedRoot(h, root, parent, cis);
  }

  lemma PlanOuter(h: Shape, root: Node?, node: Node, parent: Node, grandparent: Node, cis: Side)
    returns (w: Shape, h1: Shape, h2: Shape, root2: Node?)
    requires Holds(Inserting(node), h, root)
    requires parent == h[node].parent && IsRed(h, parent) && h[parent].Child(cis) == node
    requires grandparent in h && h[parent].parent == grandparent && h[grandparent].Child(cis) == parent
    requires !IsRed(h, h[grandparent].Child(cis.Other()))
    ensures w == WithRed(WithRed(h, parent, false), grandparent, true) && SameFields(w, h1)
    ensures CanRotate(h1, root, grandparent, cis.Other())
    ensures h2 == Rotated(h1, root, grandparent, cis.Other())
    ensures root2 == RotatedRoot(h1, root, grandparent, cis.Other())
    ensures Holds(Inserting(node), h2, root2) && ClimbLeft(h2, node) == 0
  {
    LiftedLinked(h, root, node, parent, grandparent, cis);
    OuterStep(h, root, node, parent, grandparent, cis);
    OuterDone(h, root, node, parent, grandparent, cis);
    LiftStores(h, parent, grandparent);
    w, h1 := WithRed(WithRed(h, parent, false), grandparent, true), Lifted(h, parent, grandparent);
    h2 := Rotated(h1, root, grandparent, cis.Other());
    root2 := RotatedRoot(h1, root, grandparent, cis.Other());
  }

  lemma PlanBlackenRoot(h: Shape, root: Node?, node: Node) returns (w: Shape, h1: Shape)
    requires Holds(Inserting(node), h, root) && !IsRed(h, h[node].parent)
    ensures root != null && root in h
    ensures w == WithRed(h, root, false) && SameFields(w, h1) && Holds(Balanced, h1, root)
  {
    assert NodeOk(h, root, node);
    FinishInsert(h, root, node);
    w, h1 := WithRed(h, root, false), Blackened(h, root);
  }

  lemma PlanBypass(h: Shape, root: Node?, x: Node, missing: Side) returns (w: Shape, h': Shape, root': Node?, side: Side)
    requires Holds(Balanced, h, root) && x in h && h[x].Child(missing) == null
    ensures h[x].parent != null ==> h[x].parent in h
    ensures h[x].Child(missing.Other()) != null ==> h[x].Child(missing.Other()) in h
    ensures w == BypassWrites(h, x, missing) && w[x].key == h[x].key
    ensures root' == BypassedRoot(h, root, x, missing)
    ensures SameFieldsWithout(w, h', x) && SameKeysWithout(w, h', x) && w.Keys == h.Keys
    ensures Holds(if h[x].red then Balanced
                  else Removing(h[x].Child(missing.Other()), h[x].parent, side), h', root')
  {
    BypassStores(h, root, x, missing);
    w, h', root' := BypassWrites(h, x, missing), Bypassed(h, x, missing), BypassedRoot(h, root, x, missing);
    assert NodeOk(h, root, x);
    side := if h[x].parent != null && h[h[x].parent].left == x then Left else Right;
    BypassBalance(h, root, x, missing, side);
  }

  lemma PlanPromotion(h: Shape, root: Node?, x: Node, y: Node) returns (w: Shape, h': Shape, root': Node?, side: Side)
    requires HasSuccessor(h, root, x, y)
    ensures Promotable(h, x, y) && w == PromotionWrites(h, x, y) && w[x].key == h[x].key
    ensures root' == PromotedRoot(h, root, x, y)
    ensures SameFieldsWithout(w, h', x) && SameKeysWithout(w, h', x) && w.Keys == h.Keys
    ensures Holds(if h[y].red then Balanced
                  else Removing(h[y].right, ShortParent(h, x, y), side), h', root')
  {
    PromotionStores(h, root, x, y);
    w, h', root' := PromotionWrites(h, x, y), Promoted(h, x, y), PromotedRoot(h, root, x, y);
    side := ShortSide(h, x, y);
    PromoteBalance(h, root, x, y);
  }

  lemma BlackenedFields(h: Shape, parent: Node, s: Node)
    requires parent in h && s in h && s != parent
    ensures SameFields(WithRed(WithRed(h, s, false), parent, true), SiblingBlackened(h, parent, s))
  {
  }

  lemma PlanRedSibling(h: Shape, root: Node?, node: Node?, parent: Node, side: Side, s: Node)
    returns (w: Shape, h1: Shape, h2: Shape, root2: Node?)
    requires Holds(Removing(node, parent, side), h, root) && !IsRed(h, node)
    requires s == h[parent].Child(side.Other()) && IsRed(h, s)
    ensures parent in h && s in h && s != parent
    ensures w == WithRed(WithRed(h, s, false), parent, true) && SameFields(w, h1)
    ensures CanRotate(h1, root, parent, side)
    ensures h2 == Rotated(h1, root, parent, side) && root2 == RotatedRoot(h1, root, parent, side)
    ensures Holds(Removing(node, parent, side), h2, root2) && !IsRed(h2, node) && IsRed(h2, parent)
    ensures
      var next := h2[parent].Child(side.Other());
      next != null && next in h2 && !IsRed(h2, next)
  {
    hide SameFields, Rotated, RotatedRoot;
    WorkingSibling(h, root, node, parent, side);
    RedSiblingStep(h, root, node, parent, side, s);
    BlackenedFields(h, parent, s);
    w, h1 := WithRed(WithRed(h, s, false), parent, true), SiblingBlackened(h, parent, s);
    h2, root2 := Rotated(h1, root, parent, side), RotatedRoot(h1, root, parent, side);
    WorkingSibling(h2, root2, node, parent, side);
  }

  lemma PlanNearNephew(h: Shape, root: Node?, node: Node?, parent: Node, side: Side, s: Node, near: Node)
    returns (w: Shape, h1: Shape, h2: Shape)
    requires Holds(Removing(node, parent, side), h, root) && !IsRed(h, node)
    requires s == h[parent].Child(side.Other()) && s in h && !IsRed(h, s)
    requires near == h[s].Child(side) && IsRed(h, near) && !IsRed(h, h[s].Child(side.Other()))
    ensures near in h && near != s
    ensures w == WithRed(WithRed(h, near, false), s, true) && SameFields(w, h1)
    ensures CanRotate(h1, root, s, side.Other())
    ensures h2 == Rotated(h1, root, s, side.Other()) && root == RotatedRoot(h1, root, s, side.Other())
    ensures Holds(Removing(node, parent, side), h2, root) && !IsRed(h2, node)
    ensures h2[parent].Child(side.Other()) == near && near in h2 && !IsRed(h2, near)
    ensures IsRed(h2, h2[near].Child(side.Other()))
  {
    assert NodeOk(h, root, s);
    NearNephewStep(h, root, node, parent, side, s, near);
    w, h1 := WithRed(WithRed(h, near, false), s, true), PaintSwapped(h, near, s);
    h2 := Rotated(h1, root, s, side.Other());
  }

  lemma PlanFarNephew(h: Shape, root: Node?, node: Node?, parent: Node, side: Side, s: Node, far: Node)
    returns (w: Shape, h1: Shape, h2: Shape, root2: Node?)
    requires Holds(Removing(node, parent, side), h, root) && !IsRed(h, node)
    requires s == h[parent].Child(side.Other()) && s in h && !IsRed(h, s)
    requires far == h[s].Child(side.Other()) && IsRed(h, far)
    ensures s in h && far in h && parent in h
    ensures w == WithRed(WithRed(WithRed(h, s, h[parent].red), parent, false), far, false) && SameFields(w, h1)
    ensures CanRotate(h1, root, parent, side)
    ensures h2 == Rotated(h1, root, parent, side) && root2 == RotatedRoot(h1, root, parent, side)
    ensures Holds(Balanced, h2, root2)
  {
    WorkingSibling(h, root, node, parent, side);
    assert NodeOk(h, root, s) && NodeOk(h, root, far);
    FarNephewStep(h, root, node, parent, side, s, far);
    RepaidStores(h, parent, s, far);
    w := WithRed(WithRed(WithRed(h, s, h[parent].red), parent, false), far, false);
    h1 := Repaid(h, parent, s, far);
    h2, root2 := Rotated(h1, root, parent, side), RotatedRoot(h1, root, parent, side);
  }

  lemma PlanAbsorb(h: Shape, root: Node?, node: Node, parent: Node?, side: Side) returns (w: Shape, h1: Shape)
    requires Holds(Removing(node, parent, side), h, root) && IsRed(h, node)
    ensures w == WithRed(h, node, false) && SameFields(w, h1) && Holds(Balanced, h1, root)
  {
    AbsorbRed(h, root, node, parent, side);
    w, h1 := WithRed(h, node, false), Paint(h, node, false, h[node].bh + 1);
  }

  lemma PlanMoveUp(h: Shape, root: Node?, node: Node?, parent: Node, side: Side, s: Node)
    returns (w: Shape, h1: Shape, up: Side)
    requires Holds(Removing(node, parent, side), h, root) && !IsRed(h, node)
    requires s == h[parent].Child(side.Other()) && !IsRed(h, s)
    requires s in h && !IsRed(h, h[s].left) && !IsRed(h, h[s].right)
    ensures parent in h && w == WithRed(h, s, true) && SameFields(w, h1)
    ensures h1[parent].parent == h[parent].parent && (IsRed(h1, parent) <==> IsRed(h, parent))
    ensures Holds(Removing(parent, h[parent].parent, up), h1, root)
    ensures 0 <= ShortageLeft(h1, h[parent].parent) < ShortageLeft(h, parent)
  {
    hide SiblingReddened, ShortageLeft, SameFields, WithRed;
    MoveUpMeasure(h, root, node, parent, side, s);
    var g := h[parent].parent;
    up := if g != null && g in h && h[g].left == parent then Left else Right;
    MoveUpStep(h, root, node, parent, side, s, up);
    w, h1 := WithRed(h, s, true), SiblingReddened(h, parent, s);
  }

  // The sibling exists, and the code's test finds the side the shortage is on.
  lemma PlanRemoveCase(h: Shape, root: Node?, node: Node?, parent: Node, side: Side)
    requires Holds(Removing(node, parent, side), h, root) && !IsRed(h, node)
    ensures parent in h && (h[parent].left == node <==> side.Left?)
    ensures
      var s := h[parent].Child(side.Other());
      && s != null && s in h && s != parent
      && (h[s].left != null ==> h[s].left in h) && (h[s].right != null ==> h[s].right in h)
  {
    WorkingSibling(h, root, node, parent, side);
    assert NodeOk(h, root, h[parent].Child(side.Other()));
  }
}

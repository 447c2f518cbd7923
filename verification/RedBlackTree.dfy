// The intrusive red-black tree of wepoll, mutated in place. Sockets and port handles are
// looked up in it; what callers rely on is that it behaves as a map from keys to nodes.

module RedBlackTree {
  import opened TreeShape
  import opened TreeRotate
  import opened TreeStage
  import opened TreeInsert
  import opened TreeSplice
  import opened TreeDelete

  class Tree {
    var root: Node?

    // The map this tree stands for, and the snapshot that the heap nodes must match.
    ghost var contents: map<uintptr, Node>
    ghost var h: Shape

    constructor ()
      ensures Valid() && contents == map[] && h == map[]
    {
      root, contents, h := null, map[], map[];
    }

    ghost predicate Mirrors()
      reads this, h.Keys
    {
      forall n | n in h ::
        n.left == h[n].left && n.right == h[n].right && n.parent == h[n].parent
        && n.key == h[n].key && n.red == h[n].red
    }

    ghost predicate Indexed()
      reads this
    {
      && (forall k | k in contents :: contents[k] in h && h[contents[k]].key == k)
      && (forall n | n in h :: h[n].key in contents && contents[h[n].key] == n)
    }

    // What is true of the heap while an operation is under way.
    ghost predicate At(stage: Stage)
      reads this, h.Keys
    {
      match stage
      case Loose => Mirrors() && Indexed()
      case _ => Mirrors() && Indexed() && Holds(stage, h, root)
    }

    ghost predicate Valid()
      reads this, h.Keys
    {
      At(Balanced)
    }

    // ---- tree_find ----

    // `steps` counts the nodes looked at: at most 2 * log2(n + 1) of them.
    method Find(key: uintptr) returns (found: Node?, ghost steps: nat)
      requires Valid()
      ensures found == if key in contents then contents[key] else null
      ensures Pow2(steps) <= (|h| + 1) * (|h| + 1)
    {
      RootWalkBound(h, root);
      steps := 0;
      var node := root;
      while node != null
        invariant node != null ==> node in h && h[node].Spans(key)
        invariant node == null ==> key !in contents
        invariant steps + WalkBound(h, node) <= WalkBound(h, root)
        decreases if node == null then 0 else h[node].hi - h[node].lo
      {
        assert NodeOk(h, root, node);
        steps := steps + 1;
        WalkBoundShrinks(h, root, node, Left);
        if key < node.key {
          AbsentBelow(node, Left, key);
          assert node.left != null ==> NodeOk(h, root, node.left);
          node := node.left;
        } else if key > node.key {
          AbsentBelow(node, Right, key);
          WalkBoundShrinks(h, root, node, Right);
          assert node.right != null ==> NodeOk(h, root, node.right);
          node := node.right;
        } else {
          Pow2Monotone(steps, WalkBound(h, root));
          return node, steps;
        }
      }
      Pow2Monotone(steps, WalkBound(h, root));
      found := null;
    }

    // Falling off the tree means the key is nowhere in it.
    lemma AbsentBelow(node: Node, side: Side, key: uintptr)
      requires Valid() && node in h
      requires h[node].ChildLo(side) < key < h[node].ChildHi(side)
      ensures h[node].Child(side) == null ==> key !in contents
    {
      if h[node].Child(side) == null && key in contents {
        GapIsEmpty(h, root, node, side, contents[key]);
      }
    }

    // ---- Stores ----
    // Every store to a linked node goes through one of these, which keep the snapshot in step.

    method SetLeft(n: Node, left: Node?)
      requires At(Loose) && n in h
      modifies this`h, n`left
      ensures At(Loose) && h == old(h)[n := old(h)[n].(left := left)]
    {
      n.left := left;
      h := h[n := h[n].(left := left)];
    }

    method SetRight(n: Node, right: Node?)
      requires At(Loose) && n in h
      modifies this`h, n`right
      ensures At(Loose) && h == old(h)[n := old(h)[n].(right := right)]
    {
      n.right := right;
      h := h[n := h[n].(right := right)];
    }

    method SetParent(n: Node, parent: Node?)
      requires At(Loose) && n in h
      modifies this`h, n`parent
      ensures At(Loose) && h == old(h)[n := old(h)[n].(parent := parent)]
    {
      n.parent := parent;
      h := h[n := h[n].(parent := parent)];
    }

    method SetRed(n: Node, red: bool)
      requires At(Loose) && n in h
      modifies this`h, n`red
      ensures At(Loose) && h == WithRed(old(h), n, red)
    {
      n.red := red;
      h := h[n := h[n].(red := red)];
    }

    // Only the proof annotations change.
    ghost method Reannotate(h': Shape)
      requires At(Loose) && SameFields(h, h')
      modifies this`h
      ensures At(Loose) && h == h'
    {
      h := h';
    }

    // Two stores of colour, after which the tree is h1 but for its annotations.
    method Repaint(a: Node, aRed: bool, b: Node, bRed: bool, ghost h1: Shape)
      requires At(Loose) && a in h && b in h
      requires SameFields(WithRed(WithRed(h, a, aRed), b, bRed), h1)
      modifies this`h, a`red, b`red
      ensures At(Loose) && h == h1
    {
      SetRed(a, aRed);
      SetRed(b, bRed);
      Reannotate(h1);
    }

    // Whoever pointed down at `from`, its parent or the root, now points at `to`.
    method RedirectParent(parent: Node?, from: Node, to: Node?)
      requires At(Loose) && (parent != null ==> parent in h)
      modifies this`h, this`root, h.Keys
      ensures At(Loose)
      ensures h == Redirected(old(h), parent, from, to)
      ensures root == if parent == null then to else old(root)
    {
      if parent != null {
        if parent.left == from {
          SetLeft(parent, to);
        } else {
          SetRight(parent, to);
        }
      } else {
        root := to;
      }
    }

    // ---- Rotation ----

    method RotateLeft(node: Node)
      requires At(Loose) && Turnable(h, node, Left)
      modifies this`h, this`root, h.Keys
      ensures At(Loose) && h == Turned(old(h), node, Left)
      ensures root == if old(h)[node].parent == null then old(h)[node].right else old(root)
    {
      hide Redirected, EdgeTurned;
      var p := node;
      var q := node.right;
      var parent := p.parent;
      RedirectParent(parent, p, q);
      TurnEdgeLeft(p, q, parent);
    }

    method TurnEdgeLeft(p: Node, q: Node, parent: Node?)
      requires At(Loose) && p in h && q in h && p != q
      requires h[q].left != null ==> h[q].left in h && h[q].left != p
      modifies this`h, h.Keys
      ensures At(Loose) && h == EdgeTurned(old(h), p, q, parent, Left)
    {
      hide Crossed;
      SetParent(q, parent);
      SetParent(p, q);
      CrossLeft(p, q);
    }

    // q's left child moves across to p, and p becomes q's left child.
    method CrossLeft(p: Node, q: Node)
      requires At(Loose) && p in h && q in h && p != q
      requires h[q].left != null ==> h[q].left in h && h[q].left != p
      modifies this`h, h.Keys
      ensures At(Loose) && h == Crossed(old(h), p, q, Left)
    {
      SetRight(p, q.left);
      if p.right != null {
        SetParent(p.right, p);
      }
      SetLeft(q, p);
    }

    method RotateRight(node: Node)
      requires At(Loose) && Turnable(h, node, Right)
      modifies this`h, this`root, h.Keys
      ensures At(Loose) && h == Turned(old(h), node, Right)
      ensures root == if old(h)[node].parent == null then old(h)[node].left else old(root)
    {
      hide Redirected, EdgeTurned;
      var p := node;
      var q := node.left;
      var parent := p.parent;
      RedirectParent(parent, p, q);
      TurnEdgeRight(p, q, parent);
    }

    method TurnEdgeRight(p: Node, q: Node, parent: Node?)
      requires At(Loose) && p in h && q in h && p != q
      requires h[q].right != null ==> h[q].right in h && h[q].right != p
      modifies this`h, h.Keys
      ensures At(Loose) && h == EdgeTurned(old(h), p, q, parent, Right)
    {
      hide Crossed;
      SetParent(q, parent);
      SetParent(p, q);
      CrossRight(p, q);
    }

    // q's right child moves across to p, and p becomes q's right child.
    method CrossRight(p: Node, q: Node)
      requires At(Loose) && p in h && q in h && p != q
      requires h[q].right != null ==> h[q].right in h && h[q].right != p
      modifies this`h, h.Keys
      ensures At(Loose) && h == Crossed(old(h), p, q, Right)
    {
      SetLeft(p, q.right);
      if p.left != null {
        SetParent(p.left, p);
      }
      SetRight(q, p);
    }

    method Rotate(node: Node, cis: Side)
      requires At(Loose) && CanRotate(h, root, node, cis)
      modifies this`h, this`root, h.Keys
      ensures At(Loose)
      ensures h == Rotated(old(h), old(root), node, cis)
      ensures root == RotatedRoot(old(h), old(root), node, cis)
    {
      hide Turned, Rotated;
      RotationStores(h, root, node, cis);
      ghost var h' := Rotated(h, root, node, cis);
      if cis.Left? {
        RotateLeft(node);
      } else {
        RotateRight(node);
      }
      Reannotate(h');
    }

    // ---- tree_add ----

    // Returns -1 and changes nothing when the key is taken, otherwise 0.
    method Add(node: Node, key: uintptr) returns (r: int)
      requires Valid() && node !in h
      modifies this, h.Keys, node
      ensures Valid()
      ensures r == if key in old(contents) then -1 else 0
      ensures r == -1 ==> contents == old(contents) && h == old(h) && root == old(root) && unchanged(node)
      ensures r == 0 ==> contents == old(contents)[key := node] && h.Keys == old(h.Keys) + {node}
    {
      r := Link(node, key);
      if r == 0 {
        RebalanceAfterInsert(node);
      }
    }

    // The descent, and the stores that make the new node a leaf.
    method Link(node: Node, key: uintptr) returns (r: int)
      requires Valid() && node !in h
      modifies this, h.Keys, node
      ensures r == if key in old(contents) then -1 else 0
      ensures r == -1 ==> contents == old(contents) && h == old(h) && root == old(root) && unchanged(node)
      ensures r == 0 ==> contents == old(contents)[key := node] && h.Keys == old(h.Keys) + {node}
      ensures At(if r == 0 then Inserting(node) else Balanced)
    {
      var taken, parent, side := Descend(key);
      if taken {
        return -1;
      }
      r := 0;
      AttachLeaf(node, key, parent, side);
    }

    // Where a new key belongs: the missing child of `parent` on `side`, or the empty root link.
    method Descend(key: uintptr) returns (taken: bool, parent: Node?, side: Side)
      requires Valid()
      ensures taken <==> key in contents
      ensures !taken && parent == null ==> root == null
      ensures !taken && parent != null ==> IsGap(h, parent, side, key)
    {
      taken, parent, side := false, root, Left;
      if parent != null {
        while true
          invariant parent != null && parent in h && h[parent].Spans(key)
          decreases h[parent].hi - h[parent].lo
        {
          assert NodeOk(h, root, parent);
          if key < parent.key {
            AbsentBelow(parent, Left, key);
            if parent.left != null {
              assert NodeOk(h, root, parent.left);
              parent := parent.left;
            } else {
              side := Left;
              break;
            }
          } else if key > parent.key {
            AbsentBelow(parent, Right, key);
            if parent.right != null {
              assert NodeOk(h, root, parent.right);
              parent := parent.right;
            } else {
              side := Right;
              break;
            }
          } else {
            taken := true;
            break;
          }
        }
      }
    }

    method AttachLeaf(node: Node, key: uintptr, parent: Node?, side: Side)
      requires Valid() && node !in h && key !in contents
      requires if parent == null then root == null else IsGap(h, parent, side, key)
      modifies this, h.Keys, node
      ensures contents == old(contents)[key := node] && h.Keys == old(h.Keys) + {node}
      ensures At(Inserting(node))
    {
      hide AlmostRedBlack;
      ghost var h' := WithLeaf(h, parent, side, node, key);
      if parent == null {
        LinkFirst(h, node, key);
        root := node;
      } else {
        LinkLeaf(h, root, parent, side, node, key);
        if side.Left? {
          SetLeft(parent, node);
        } else {
          SetRight(parent, node);
        }
      }
      InitLeaf(node, key, parent, h');
    }

    // The new node's own fields.
    method InitLeaf(node: Node, key: uintptr, parent: Node?, ghost h': Shape)
      requires At(Loose) && node !in h && key !in contents
      requires node in h' && h' == h[node := h'[node]]
      requires var r := h'[node];
        r.left == null && r.right == null && r.parent == parent && r.key == key && r.red
      modifies this`h, this`contents, node
      ensures At(Loose) && h == h' && contents == old(contents)[key := node]
    {
      node.key := key;
      node.left := null;
      node.right := null;
      node.parent := parent;
      node.red := true;
      h := h';
      contents := contents[key := node];
    }

    method RebalanceAfterInsert(start: Node)
      requires At(Inserting(start))
      modifies this`h, this`root, h.Keys
      ensures At(Balanced) && h.Keys == old(h.Keys)
    {
      var node := start;
      var parent := node.parent;
      while parent != null && parent.red
        invariant At(Inserting(node)) && h.Keys == old(h.Keys)
        invariant parent == h[node].parent
        decreases ClimbLeft(h, node)
      {
        assert NodeOk(h, root, node);
        node := InsertIteration(node, parent);
        parent := node.parent;
      }
      BlackenRoot(node);
    }

    method BlackenRoot(ghost node: Node)
      requires At(Inserting(node)) && !IsRed(h, h[node].parent)
      modifies this`h, h.Keys
      ensures At(Balanced) && h.Keys == old(h.Keys)
    {
      ghost var w, h1 := PlanBlackenRoot(h, root, node);
      SetRed(root, false);
      Reannotate(h1);
    }

    // One turn of the loop: either the red pair moves two levels up, or it is gone.
    method InsertIteration(node: Node, parent: Node) returns (next: Node)
      requires At(Inserting(node)) && parent == h[node].parent && IsRed(h, parent)
      modifies this`h, this`root, h.Keys
      ensures At(Inserting(next)) && h.Keys == old(h.Keys)
      ensures 0 <= ClimbLeft(h, next) < old(ClimbLeft(h, node))
    {
      PlanInsertCase(h, root, node, parent);
      var grandparent := parent.parent;
      if parent == grandparent.left {
        next := InsertCase(node, parent, grandparent, Left);
      } else {
        next := InsertCase(node, parent, grandparent, Right);
      }
    }

    // TREE__REBALANCE_AFTER_INSERT(cis, trans)
    method InsertCase(node: Node, parent: Node, grandparent: Node, cis: Side) returns (next: Node)
      requires At(Inserting(node)) && parent == h[node].parent && IsRed(h, parent)
      requires grandparent in h && h[parent].parent == grandparent && h[grandparent].Child(cis) == parent
      modifies this`h, this`root, h.Keys
      ensures At(Inserting(next)) && h.Keys == old(h.Keys)
      ensures 0 <= ClimbLeft(h, next) < old(ClimbLeft(h, node))
    {
      PlanInsertCase(h, root, node, parent);
      var uncle := grandparent.Child(cis.Other());
      if uncle != null && uncle.red {
        Recolour(node, parent, grandparent, uncle, cis);
        next := grandparent;
      } else {
        next := InsertRotations(node, parent, grandparent, cis);
      }
    }

    method Recolour(ghost node: Node, parent: Node, grandparent: Node, uncle: Node, ghost cis: Side)
      requires At(Inserting(node)) && parent == h[node].parent && IsRed(h, parent)
      requires grandparent in h && h[parent].parent == grandparent && h[grandparent].Child(cis) == parent
      requires uncle == h[grandparent].Child(cis.Other()) && IsRed(h, uncle)
      modifies this`h, h.Keys
      ensures At(Inserting(grandparent)) && h.Keys == old(h.Keys)
      ensures 0 <= ClimbLeft(h, grandparent) < old(ClimbLeft(h, node))
    {
      hide AlmostRedBlack, ClimbLeft;
      ghost var w, h1 := PlanRecolour(h, root, node, parent, grandparent, uncle, cis);
      RepaintFamily(parent, uncle, grandparent, h1);
    }

    method RepaintFamily(parent: Node, uncle: Node, grandparent: Node, ghost h1: Shape)
      requires At(Loose) && parent in h && uncle in h && grandparent in h
      requires SameFields(WithRed(WithRed(WithRed(h, parent, false), uncle, false), grandparent, true), h1)
      modifies this`h, parent`red, uncle`red, grandparent`red
      ensures At(Loose) && h == h1
    {
      SetRed(parent, false);
      Repaint(uncle, false, grandparent, true, h1);
    }

    method InsertRotations(node0: Node, parent0: Node, grandparent: Node, cis: Side) returns (node: Node)
      requires At(Inserting(node0)) && parent0 == h[node0].parent && IsRed(h, parent0)
      requires grandparent in h && h[parent0].parent == grandparent && h[grandparent].Child(cis) == parent0
      requires !IsRed(h, h[grandparent].Child(cis.Other()))
      modifies this`h, this`root, h.Keys
      ensures At(Inserting(node)) && h.Keys == old(h.Keys)
      ensures ClimbLeft(h, node) == 0
    {
      PlanInsertCase(h, root, node0, parent0);
      node := node0;
      var parent := parent0;
      if node == parent.Child(cis.Other()) {
        ghost var h2, root2 := PlanInner(h, root, node, parent, grandparent, cis);
        Rotate(parent, cis);
        node := parent;
        parent := node.parent;
      }
      LiftAndRotate(node, parent, grandparent, cis);
    }

    method LiftAndRotate(node: Node, parent: Node, grandparent: Node, cis: Side)
      requires At(Inserting(node)) && parent == h[node].parent && IsRed(h, parent) && h[parent].Child(cis) == node
      requires grandparent in h && h[parent].parent == grandparent && h[grandparent].Child(cis) == parent
      requires !IsRed(h, h[grandparent].Child(cis.Other()))
      modifies this`h, this`root, h.Keys
      ensures At(Inserting(node)) && h.Keys == old(h.Keys)
      ensures ClimbLeft(h, node) == 0
    {
      ghost var w, h1, h2, root2 := PlanOuter(h, root, node, parent, grandparent, cis);
      Repaint(parent, false, grandparent, true, h1);
      Rotate(grandparent, cis.Other());
    }

    // ---- tree_del ----

    method Delete(x: Node)
      requires Valid() && x in h
      modifies this, h.Keys
      ensures Valid()
      ensures contents == old(contents) - {old(x.key)} && h.Keys == old(h.Keys) - {x}
    {
      var node: Node?, parent: Node?, red: bool;
      ghost var side;
      if x.left == null {
        node, parent, red, side := UnlinkSingle(x, Left);
      } else if x.right == null {
        node, parent, red, side := UnlinkSingle(x, Right);
      } else {
        node, parent, red, side := UnlinkPromoting(x);
      }
      if !red {
        RepairShortage(node, parent, side);
      }
    }

    // Takes x out of the snapshot and of the map.
    ghost method Forget(x: Node, key: uintptr, h': Shape)
      requires At(Loose) && SameFieldsWithout(h, h', x) && SameKeysWithout(h, h', x) && h[x].key == key
      modifies this`h, this`contents
      ensures At(Loose) && h == h' && contents == old(contents) - {key}
    {
      contents := contents - {key};
      h := h';
    }

    method UnlinkSingle(x: Node, missing: Side) returns (next: Node?, parent: Node?, red: bool, ghost side: Side)
      requires At(Balanced) && x in h && h[x].Child(missing) == null
      modifies this, h.Keys
      ensures At(if red then Balanced else Removing(next, parent, side))
      ensures contents == old(contents) - {old(x.key)} && h.Keys == old(h.Keys) - {x}
    {
      ghost var key, w, h', root' := x.key, h, h, root;
      w, h', root', side := PlanBypass(h, root, x, missing);
      assert w[x].key == key;
      next, parent, red := Bypass(x, missing, w);
      Forget(x, key, h');
    }

    method Bypass(x: Node, missing: Side, ghost w: Shape) returns (next: Node?, parent: Node?, red: bool)
      requires At(Loose) && HasGap(h, root, x, missing)
      requires h[x].parent != null ==> h[x].parent in h
      requires h[x].Child(missing.Other()) != null ==> h[x].Child(missing.Other()) in h
      requires w == BypassWrites(h, x, missing)
      modifies this`h, this`root, h.Keys
      ensures At(Loose) && h == w && root == BypassedRoot(old(h), old(root), x, missing)
      ensures next == old(h)[x].Child(missing.Other()) && parent == old(h)[x].parent && red == old(h)[x].red
    {
      parent := x.parent;
      next := x.Child(missing.Other());
      red := x.red;
      RedirectParent(parent, x, next);
      if next != null {
        SetParent(next, parent);
      }
    }

    // The leftmost node of the right subtree.
    method Successor(x: Node) returns (next: Node)
      requires At(Balanced) && x in h && h[x].left != null && h[x].right != null
      ensures HasSuccessor(h, root, x, next)
    {
      assert NodeOk(h, root, x);
      next := x.right;
      assert NodeOk(h, root, next);
      while next.left != null
        invariant next in h && next != x && h[next].lo == h[x].key && h[next].parent != null
        invariant h[next].parent == x ==> h[x].right == next
        invariant h[next].parent != x ==> h[next].parent in h && h[h[next].parent].left == next
        decreases h[next].hi - h[next].lo
      {
        assert NodeOk(h, root, next);
        next := next.left;
        assert NodeOk(h, root, next);
      }
    }

    method UnlinkPromoting(x: Node) returns (node: Node?, parent: Node?, red: bool, ghost side: Side)
      requires At(Balanced) && x in h && h[x].left != null && h[x].right != null
      modifies this, h.Keys
      ensures At(if red then Balanced else Removing(node, parent, side))
      ensures contents == old(contents) - {old(x.key)} && h.Keys == old(h.Keys) - {x}
    {
      var next := Successor(x);
      node, parent, red, side := ExchangeWithSuccessor(x, next);
    }

    method ExchangeWithSuccessor(x: Node, next: Node)
      returns (node: Node?, parent: Node?, red: bool, ghost side: Side)
      requires At(Balanced) && HasSuccessor(h, root, x, next)
      modifies this, h.Keys
      ensures At(if red then Balanced else Removing(node, parent, side))
      ensures contents == old(contents) - {old(x.key)} && h.Keys == old(h.Keys) - {x}
    {
      hide PromotionWrites;
      ghost var key, w, h', root' := x.key, h, h, root;
      w, h', root', side := PlanPromotion(h, root, x, next);
      red := next.red;
      ghost var stage := if red then Balanced else Removing(next.right, ShortParent(h, x, next), side);
      assert Holds(stage, h', root') && w[x].key == key;
      node, parent := Exchange(x, next);
      Forget(x, key, h');
    }

    method Exchange(x: Node, next: Node) returns (node: Node?, parent: Node)
      requires At(Loose) && Promotable(h, x, next)
      modifies this`h, this`root, h.Keys
      ensures At(Loose) && h == PromotionWrites(old(h), x, next)
      ensures root == PromotedRoot(old(h), old(root), x, next)
      ensures node == old(h)[next].right && parent == ShortParent(old(h), x, next)
    {
      hide SwappedIn, Redirected;
      ghost var h0, h1 := h, Redirected(h, h[x].parent, x, next);
      RedirectParent(x.parent, x, next);
      assert root == PromotedRoot(h0, old(root), x, next);
      assert h == h1 && h1[x] == h0[x] && h1[next] == h0[next];
      node, parent := SwapIn(x, next);
    }

    method SwapIn(x: Node, next: Node) returns (node: Node?, parent: Node)
      requires At(Loose) && Swappable(h, x, next)
      modifies this`h, h.Keys
      ensures At(Loose) && h == SwappedIn(old(h), x, next)
      ensures node == old(h)[next].right && parent == ShortParent(old(h), x, next)
    {
      hide TakenOver, PromotionLast;
      TakeOver(x, next);
      node, parent := PromoteLast(x, next);
    }

    method PromoteLast(x: Node, next: Node) returns (node: Node?, parent: Node)
      requires At(Loose) && x in h && next in h
      requires if h[next].parent == x then NearLinks(h, x, next) && h[x].right == next
               else FarLinks(h, x, next) && h[x].right != next
      modifies this`h, h.Keys
      ensures At(Loose) && h == PromotionLast(old(h), x, next)
      ensures node == old(h)[next].right && parent == ShortParent(old(h), x, next)
    {
      hide FarMoved, NearMoved;
      if next != x.right {
        parent := next.parent;
        node := PromoteFar(x, next);
      } else {
        node := PromoteNear(x, next);
        parent := next;
      }
    }

    method TakeOver(x: Node, next: Node)
      requires At(Loose) && x in h && next in h && x != next
      requires h[x].left != null && h[x].left in h && h[x].left != next
      modifies this`h, h.Keys
      ensures At(Loose) && h == TakenOver(old(h), x, next)
    {
      SetRed(next, x.red);
      SetLeft(next, x.left);
      SetParent(x.left, next);
    }

    method PromoteFar(x: Node, next: Node) returns (node: Node?)
      requires At(Loose) && FarLinks(h, x, next)
      modifies this`h, h.Keys
      ensures At(Loose) && h == FarMoved(old(h), x, next) && node == old(h)[next].right
    {
      var parent := next.parent;
      SetParent(next, x.parent);
      node := next.right;
      SetLeft(parent, node);
      SetRight(next, x.right);
      SetParent(x.right, next);
      if node != null {
        SetParent(node, parent);
      }
    }

    method PromoteNear(x: Node, next: Node) returns (node: Node?)
      requires At(Loose) && NearLinks(h, x, next)
      modifies this`h, h.Keys
      ensures At(Loose) && h == NearMoved(old(h), x, next) && node == old(h)[next].right
    {
      SetParent(next, x.parent);
      node := next.right;
      if node != null {
        SetParent(node, next);
      }
    }

    // ---- Rebalancing after a removal ----

    method RepairShortage(node0: Node?, parent0: Node?, ghost side0: Side)
      requires At(Removing(node0, parent0, side0))
      modifies this`h, this`root, h.Keys
      ensures At(Balanced) && h.Keys == old(h.Keys)
    {
      var node, parent := node0, parent0;
      ghost var side := side0;
      if node != null && node.red {
        Absorb(node, parent, side);
        return;
      }
      while true
        invariant At(Removing(node, parent, side)) && !IsRed(h, node) && h.Keys == old(h.Keys)
        invariant parent != null ==> parent in h
        decreases ShortageLeft(h, parent)
      {
        if node == root {
          ShortAtRoot(h, root, node, parent, side);
          return;
        }
        ghost var up;
        var done;
        done, up := RemoveIteration(node, parent, side);
        if done {
          return;
        }
        node := parent;
        parent := parent.parent;
        side := up;
        if node.red {
          Absorb(node, parent, side);
          return;
        }
      }
    }

    method Absorb(node: Node, ghost parent: Node?, ghost side: Side)
      requires At(Removing(node, parent, side)) && IsRed(h, node)
      modifies this`h, h.Keys
      ensures At(Balanced) && h.Keys == old(h.Keys)
    {
      ghost var w, h1 := PlanAbsorb(h, root, node, parent, side);
      SetRed(node, false);
      Reannotate(h1);
    }

    method RemoveIteration(node: Node?, parent: Node, ghost side: Side) returns (done: bool, ghost up: Side)
      requires At(Removing(node, parent, side)) && !IsRed(h, node)
      modifies this`h, this`root, h.Keys
      ensures h.Keys == old(h.Keys) && parent in h
      ensures At(if done then Balanced else Removing(parent, h[parent].parent, up))
      ensures !done && !IsRed(h, parent) ==> 0 <= ShortageLeft(h, h[parent].parent) < old(ShortageLeft(h, parent))
    {
      PlanRemoveCase(h, root, node, parent, side);
      if node == parent.left {
        done, up := RemoveCase(node, parent, Left);
      } else {
        done, up := RemoveCase(node, parent, Right);
      }
    }

    // TREE__REBALANCE_AFTER_REMOVE(cis, trans); `done` stands for its break.
    method RemoveCase(node: Node?, parent: Node, cis: Side) returns (done: bool, ghost up: Side)
      requires At(Removing(node, parent, cis)) && !IsRed(h, node)
      modifies this`h, this`root, h.Keys
      ensures h.Keys == old(h.Keys) && parent in h
      ensures At(if done then Balanced else Removing(parent, h[parent].parent, up))
      ensures !done && !IsRed(h, parent) ==> 0 <= ShortageLeft(h, h[parent].parent) < old(ShortageLeft(h, parent))
    {
      PlanRemoveCase(h, root, node, parent, cis);
      var sibling := parent.Child(cis.Other());
      if sibling.red {
        sibling := TurnRedSibling(node, parent, sibling, cis);
      }
      PlanRemoveCase(h, root, node, parent, cis);
      up := cis;
      if (sibling.left != null && sibling.left.red) || (sibling.right != null && sibling.right.red) {
        RepayAtParent(node, parent, sibling, cis);
        done := true;
      } else {
        up := MoveShortageUp(node, parent, sibling, cis);
        done := false;
      }
    }

    method TurnRedSibling(node: Node?, parent: Node, sibling: Node, cis: Side) returns (next: Node)
      requires At(Removing(node, parent, cis)) && !IsRed(h, node)
      requires sibling == h[parent].Child(cis.Other()) && IsRed(h, sibling)
      modifies this`h, this`root, h.Keys
      ensures At(Removing(node, parent, cis)) && !IsRed(h, node) && h.Keys == old(h.Keys)
      ensures next in h && h[parent].Child(cis.Other()) == next && !IsRed(h, next) && IsRed(h, parent)
    {
      ghost var w, h1, h2, root2 := PlanRedSibling(h, root, node, parent, cis, sibling);
      Repaint(sibling, false, parent, true, h1);
      Rotate(parent, cis);
      next := parent.Child(cis.Other());
    }

    method MoveShortageUp(ghost node: Node?, parent: Node, sibling: Node, ghost cis: Side) returns (ghost up: Side)
      requires At(Removing(node, parent, cis)) && !IsRed(h, node)
      requires sibling == h[parent].Child(cis.Other()) && !IsRed(h, sibling)
      requires sibling in h && !IsRed(h, h[sibling].left) && !IsRed(h, h[sibling].right)
      modifies this`h, h.Keys
      ensures h.Keys == old(h.Keys) && parent in h && At(Removing(parent, h[parent].parent, up))
      ensures IsRed(h, parent) <==> old(IsRed(h, parent))
      ensures 0 <= ShortageLeft(h, h[parent].parent) < old(ShortageLeft(h, parent))
    {
      ghost var w, h1;
      w, h1, up := PlanMoveUp(h, root, node, parent, cis, sibling);
      SetRed(sibling, true);
      Reannotate(h1);
    }

    // A red nephew: rotate it to the outside if need be, then repay the black at the parent.
    method RepayAtParent(ghost node: Node?, parent: Node, sibling: Node, cis: Side)
      requires At(Removing(node, parent, cis)) && !IsRed(h, node)
      requires sibling == h[parent].Child(cis.Other()) && !IsRed(h, sibling)
      requires sibling in h && (IsRed(h, h[sibling].left) || IsRed(h, h[sibling].right))
      modifies this`h, this`root, h.Keys
      ensures At(Balanced) && h.Keys == old(h.Keys)
    {
      PlanRemoveCase(h, root, node, parent, cis);
      var s := sibling;
      if s.Child(cis.Other()) == null || !s.Child(cis.Other()).red {
        s := TurnNearNephew(node, parent, s, cis);
      }
      Repay(node, parent, s, s.Child(cis.Other()), cis);
    }

    method TurnNearNephew(ghost node: Node?, parent: Node, s: Node, cis: Side) returns (near: Node)
      requires At(Removing(node, parent, cis)) && !IsRed(h, node)
      requires s == h[parent].Child(cis.Other()) && !IsRed(h, s) && s in h
      requires IsRed(h, h[s].Child(cis)) && !IsRed(h, h[s].Child(cis.Other()))
      modifies this`h, this`root, h.Keys
      ensures At(Removing(node, parent, cis)) && !IsRed(h, node) && h.Keys == old(h.Keys)
      ensures near in h && h[parent].Child(cis.Other()) == near && !IsRed(h, near)
      ensures IsRed(h, h[near].Child(cis.Other()))
    {
      near := s.Child(cis);
      ghost var w, h1, h2 := PlanNearNephew(h, root, node, parent, cis, s, near);
      Repaint(near, false, s, true, h1);
      Rotate(s, cis.Other());
    }

    method RepayPaint(parent: Node, s: Node, far: Node, ghost h1: Shape)
      requires At(Loose) && parent in h && s in h && far in h
      requires SameFields(WithRed(WithRed(WithRed(h, s, h[parent].red), parent, false), far, false), h1)
      modifies this`h, h.Keys
      ensures At(Loose) && h == h1
    {
      SetRed(s, parent.red);
      Repaint(parent, false, far, false, h1);
    }

    method Repay(ghost node: Node?, parent: Node, s: Node, far: Node, cis: Side)
      requires At(Removing(node, parent, cis)) && !IsRed(h, node)
      requires s == h[parent].Child(cis.Other()) && !IsRed(h, s) && s in h
      requires far == h[s].Child(cis.Other()) && IsRed(h, far)
      modifies this`h, this`root, h.Keys
      ensures At(Balanced) && h.Keys == old(h.Keys)
    {
      ghost var w, h1, h2, root2 := PlanFarNephew(h, root, node, parent, cis, s, far);
      RepayPaint(parent, s, far, h1);
      Rotate(parent, cis);
    }
  }
}

/** The red-black tree in memory: nodes with parent links, one sentinel, and the methods of the program,
    each leaving exactly the tree its function on values gives. */
module RbHeap {
  import opened RbTree
  import opened RbInsert
  import opened RbDelete

  // ----- Trees and paths in memory

  ghost function Nodes(t: Tree): (s: set<Node>)
    ensures t.Bin? ==> t.n in s
  {
    if t.Tip? then {} else {t.n} + Nodes(t.l) + Nodes(t.r)
  }

  ghost function CtxNodes(ctx: Ctx): set<Node> {
    if ctx.Top? then {} else {ctx.n} + Nodes(ctx.sib) + CtxNodes(ctx.up)
  }

  /** No node occurs twice. */
  ghost predicate Distinct(t: Tree) {
    t.Bin? ==>
      && t.n !in Nodes(t.l) && t.n !in Nodes(t.r) && Nodes(t.l) !! Nodes(t.r)
      && Distinct(t.l) && Distinct(t.r)
  }

  ghost predicate CtxDistinct(ctx: Ctx) {
    !ctx.Top? ==>
      && ctx.n !in Nodes(ctx.sib) && ctx.n !in CtxNodes(ctx.up) && Nodes(ctx.sib) !! CtxNodes(ctx.up)
      && Distinct(ctx.sib) && CtxDistinct(ctx.up)
  }

  lemma RotationNodes(t: Tree)
    requires Distinct(t)
    ensures t.Bin? && t.r.Bin? ==> Distinct(RotL(t)) && Nodes(RotL(t)) == Nodes(t)
    ensures t.Bin? && t.l.Bin? ==> Distinct(RotR(t)) && Nodes(RotR(t)) == Nodes(t)
  {
  }

  function Depth(ctx: Ctx): nat {
    if ctx.Top? then 0 else 1 + Depth(ctx.up)
  }

  function Ptr(t: Tree, nil: Node): Node {
    if t.Tip? then nil else t.n
  }

  function ParentPtr(ctx: Ctx, nil: Node): Node {
    if ctx.Top? then nil else ctx.n
  }

  /** The memory below a node spells out the tree, children pointing back to their parents. */
  ghost predicate Linked(t: Tree, nil: Node)
    reads Nodes(t)
  {
    t.Bin? ==>
      && t.n.color == t.c && t.n.key == t.k && t.n.value == t.v
      && t.n.left == Ptr(t.l, nil) && t.n.right == Ptr(t.r, nil)
      && (t.l.Bin? ==> t.l.n.parent == t.n) && (t.r.Bin? ==> t.r.n.parent == t.n)
      && Linked(t.l, nil) && Linked(t.r, nil)
  }

  /** The memory above `hole` spells out the path to the root. */
  ghost predicate CtxLinked(ctx: Ctx, hole: Node, nil: Node, root: Node)
    reads CtxNodes(ctx)
  {
    if ctx.Top? then root == hole
    else
      && ctx.n.color == ctx.c && ctx.n.key == ctx.k && ctx.n.value == ctx.v
      && ctx.n.left == (if ctx.side.L? then hole else Ptr(ctx.sib, nil))
      && ctx.n.right == (if ctx.side.L? then Ptr(ctx.sib, nil) else hole)
      && (ctx.sib.Bin? ==> ctx.sib.n.parent == ctx.n)
      && ctx.n.parent == ParentPtr(ctx.up, nil)
      && Linked(ctx.sib, nil)
      && CtxLinked(ctx.up, ctx.n, nil, root)
  }

  /** The sentinel as `rbtree_create` makes it. */
  ghost predicate IsNil(nil: Node)
    reads nil
  {
    nil.color == Black && nil.parent == nil && nil.left == null && nil.right == null
  }

  class RBTree {
    var root: Node
    const nil: Node
    ghost var repr: set<Node>  // the nodes of the tree
    ghost var tree: Tree       // the tree they make up

    /** The nodes of the tree are those of the subtree and of the path, each once. */
    ghost predicate Shape(ctx: Ctx, t: Tree)
      reads this`repr
    {
      && repr == Nodes(t) + CtxNodes(ctx)
      && nil !in repr && Nodes(t) !! CtxNodes(ctx)
      && Distinct(t) && CtxDistinct(ctx)
    }

    /** Memory holds the tree `Plug(ctx, t)`, looked at from the root of `t`. */
    ghost predicate Focus(ctx: Ctx, t: Tree)
      reads this`root, this`repr, nil, repr
    {
      && Shape(ctx, t)
      && IsNil(nil)
      && Linked(t, nil)
      && (t.Bin? ==> t.n.parent == ParentPtr(ctx, nil))
      && CtxLinked(ctx, Ptr(t, nil), nil, root)
    }

    ghost predicate Valid()
      reads this, nil, repr
    {
      Focus(Top, tree) && RedBlack(tree) && SearchTree(tree)
    }

    constructor ()
      ensures Valid() && tree == Tip && fresh(nil)
    {
      var sentinel := new Node(0, 0);
      sentinel.parent, sentinel.color := sentinel, Black;
      nil, root, repr, tree := sentinel, sentinel, {}, Tip;
    }

    /** Looking at the parent instead. */
    lemma ZoomOut(ctx: Ctx, t: Tree)
      requires Focus(ctx, t) && !ctx.Top?
      ensures Focus(ctx.up, Hang(ctx, t))
    {
    }

    lemma {:induction false} ZoomTop(ctx: Ctx, t: Tree)
      requires Focus(ctx, t)
      ensures Focus(Top, Plug(ctx, t))
      decreases ctx
    {
      if !ctx.Top? {
        ZoomOut(ctx, t);
        ZoomTop(ctx.up, Hang(ctx, t));
      }
    }

    lemma ZoomLeft(ctx: Ctx, t: Tree)
      requires Focus(ctx, t) && t.Bin?
      ensures Focus(Step(L, t.n, t.c, t.k, t.v, t.r, ctx), t.l)
    {
    }

    lemma ZoomRight(ctx: Ctx, t: Tree)
      requires Focus(ctx, t) && t.Bin?
      ensures Focus(Step(R, t.n, t.c, t.k, t.v, t.l, ctx), t.r)
    {
    }

    /** The pointer updates of `left_rotate`. */
    method LeftRotateLinks(parent: Node, ghost changed: set<Node>)
      requires parent.right != null && parent.parent != null && parent.right.left != null
      requires var r, b, g := parent.right, parent.right.left, parent.parent;
        && parent != nil && r != nil && parent != r && b != parent && b != r && g != parent && g != r
        && (b != nil ==> b != g)
      requires changed == {parent, parent.right, parent.right.left, parent.parent} - {nil}
      modifies this`root, changed
      ensures var r, b, g := old(parent.right), old(parent.right.left), old(parent.parent);
        && (parent.color, r.color) == (old(r.color), old(parent.color))
        && (parent.key, parent.value, r.key, r.value) == old((parent.key, parent.value, r.key, r.value))
        && (parent.left, parent.right, parent.parent) == (old(parent.left), b, r)
        && (r.left, r.right, r.parent) == (parent, old(r.right), g)
        && (b.color, b.key, b.value, b.left, b.right) == old((b.color, b.key, b.value, b.left, b.right))
        && b.parent == (if b == nil then old(b.parent) else parent)
        && (g.color, g.key, g.value, g.parent) == old((g.color, g.key, g.value, g.parent))
        && root == (if g == nil then r else old(root))
        && g.left == (if g != nil && old(g.left) == parent then r else old(g.left))
        && g.right == (if g != nil && old(g.left) != parent then r else old(g.right))
    {
      var rchild := parent.right;
      rchild.color, parent.color := parent.color, rchild.color;
      parent.right := rchild.left;
      if rchild.left != nil {
        rchild.left.parent := parent;
      }
      rchild.parent := parent.parent;
      if parent.parent == nil {
        root := rchild;
      } else if parent == parent.parent.left {
        parent.parent.left := rchild;
      } else {
        parent.parent.right := rchild;
      }
      rchild.left := parent;
      parent.parent := rchild;
    }

    method LeftRotate(parent: Node, ghost ctx: Ctx, ghost t: Tree)
      requires Focus(ctx, t) && t.Bin? && t.n == parent && t.r.Bin?
      modifies this`root, repr
      ensures Focus(ctx, RotL(t))
    {
      ghost var a, b, c := t.l, t.r.l, t.r.r;
      ApartL(ctx, t);
      LeftRotateLinks(parent, TouchedL(ctx, t));
      assert Linked(a, nil) == old(Linked(a, nil)) && Linked(c, nil) == old(Linked(c, nil));
      if b.Bin? {
        assert Linked(b.l, nil) == old(Linked(b.l, nil)) && Linked(b.r, nil) == old(Linked(b.r, nil));
      }
      if !ctx.Top? {
        assert Linked(ctx.sib, nil) == old(Linked(ctx.sib, nil));
        assert CtxLinked(ctx.up, ctx.n, nil, root) == old(CtxLinked(ctx.up, ctx.n, nil, root));
      }
      assert Linked(b, nil);
      TurnedL(ctx, t);
    }

    /** What the pointer updates leave is the turned tree. */
    lemma TurnedL(ctx: Ctx, t: Tree)
      requires t.Bin? && t.r.Bin? && Shape(ctx, RotL(t)) && IsNil(nil)
      requires var p, r, a, b, c := t.n, t.r.n, t.l, t.r.l, t.r.r;
        && Linked(a, nil) && Linked(b, nil) && Linked(c, nil)
        && (p.color, p.key, p.value) == (t.r.c, t.k, t.v) && (r.color, r.key, r.value) == (t.c, t.r.k, t.r.v)
        && (p.left, p.right, p.parent) == (Ptr(a, nil), Ptr(b, nil), r)
        && (r.left, r.right, r.parent) == (p, Ptr(c, nil), ParentPtr(ctx, nil))
        && (a.Bin? ==> a.n.parent == p) && (b.Bin? ==> b.n.parent == p) && (c.Bin? ==> c.n.parent == r)
      requires CtxLinked(ctx, t.r.n, nil, root)
      ensures Focus(ctx, RotL(t))
    {
    }

    ghost function TouchedL(ctx: Ctx, t: Tree): set<Node>
      requires t.Bin? && t.r.Bin?
    {
      {t.n, t.r.n, Ptr(t.r.l, nil), ParentPtr(ctx, nil)} - {nil}
    }

    /** The nodes a rotation changes are in none of the subtrees it moves. */
    lemma ApartL(ctx: Ctx, t: Tree)
      requires Focus(ctx, t) && t.Bin? && t.r.Bin?
      ensures Shape(ctx, RotL(t))
      ensures var b, changed := t.r.l, TouchedL(ctx, t);
        && Nodes(t.l) + Nodes(t.r.r) <= repr - changed
        && (b.Bin? ==> Nodes(b.l) + Nodes(b.r) <= repr - changed)
        && (!ctx.Top? ==> Nodes(ctx.sib) + CtxNodes(ctx.up) <= repr - changed)
        && Linked(t.r, nil) && Linked(t.r.l, nil) && Linked(t.r.r, nil)
        && (b.Bin? ==> Linked(b.l, nil) && Linked(b.r, nil))
    {
      RotationNodes(t);
      assert Distinct(t.r) && Distinct(t.r.l) && Linked(t.r, nil);
    }

    /** The pointer updates of `right_rotate`. */
    method RightRotateLinks(parent: Node, ghost changed: set<Node>)
      requires parent.left != null && parent.parent != null && parent.left.right != null
      requires var r, b, g := parent.left, parent.left.right, parent.parent;
        && parent != nil && r != nil && parent != r && b != parent && b != r && g != parent && g != r
        && (b != nil ==> b != g)
      requires changed == {parent, parent.left, parent.left.right, parent.parent} - {nil}
      modifies this`root, changed
      ensures var r, b, g := old(parent.left), old(parent.left.right), old(parent.parent);
        && (parent.color, r.color) == (old(r.color), old(parent.color))
        && (parent.key, parent.value, r.key, r.value) == old((parent.key, parent.value, r.key, r.value))
        && (parent.right, parent.left, parent.parent) == (old(parent.right), b, r)
        && (r.right, r.left, r.parent) == (parent, old(r.left), g)
        && (b.color, b.key, b.value, b.right, b.left) == old((b.color, b.key, b.value, b.right, b.left))
        && b.parent == (if b == nil then old(b.parent) else parent)
        && (g.color, g.key, g.value, g.parent) == old((g.color, g.key, g.value, g.parent))
        && root == (if g == nil then r else old(root))
        && g.right == (if g != nil && old(g.right) == parent then r else old(g.right))
        && g.left == (if g != nil && old(g.right) != parent then r else old(g.left))
    {
      var lchild := parent.left;
      lchild.color, parent.color := parent.color, lchild.color;
      parent.left := lchild.right;
      if lchild.right != nil {
        lchild.right.parent := parent;
      }
      lchild.parent := parent.parent;
      if parent.parent == nil {
        root := lchild;
      } else if parent == parent.parent.right {
        parent.parent.right := lchild;
      } else {
        parent.parent.left := lchild;
      }
      lchild.right := parent;
      parent.parent := lchild;
    }

    method RightRotate(parent: Node, ghost ctx: Ctx, ghost t: Tree)
      requires Focus(ctx, t) && t.Bin? && t.n == parent && t.l.Bin?
      modifies this`root, repr
      ensures Focus(ctx, RotR(t))
    {
      ghost var a, b, c := t.r, t.l.r, t.l.l;
      ApartR(ctx, t);
      RightRotateLinks(parent, TouchedR(ctx, t));
      assert Linked(a, nil) == old(Linked(a, nil)) && Linked(c, nil) == old(Linked(c, nil));
      if b.Bin? {
        assert Linked(b.r, nil) == old(Linked(b.r, nil)) && Linked(b.l, nil) == old(Linked(b.l, nil));
      }
      if !ctx.Top? {
        assert Linked(ctx.sib, nil) == old(Linked(ctx.sib, nil));
        assert CtxLinked(ctx.up, ctx.n, nil, root) == old(CtxLinked(ctx.up, ctx.n, nil, root));
      }
      assert Linked(b, nil);
      TurnedR(ctx, t);
    }

    /** What the pointer updates leave is the turned tree. */
    lemma TurnedR(ctx: Ctx, t: Tree)
      requires t.Bin? && t.l.Bin? && Shape(ctx, RotR(t)) && IsNil(nil)
      requires var p, r, a, b, c := t.n, t.l.n, t.r, t.l.r, t.l.l;
        && Linked(a, nil) && Linked(b, nil) && Linked(c, nil)
        && (p.color, p.key, p.value) == (t.l.c, t.k, t.v) && (r.color, r.key, r.value) == (t.c, t.l.k, t.l.v)
        && (p.right, p.left, p.parent) == (Ptr(a, nil), Ptr(b, nil), r)
        && (r.right, r.left, r.parent) == (p, Ptr(c, nil), ParentPtr(ctx, nil))
        && (a.Bin? ==> a.n.parent == p) && (b.Bin? ==> b.n.parent == p) && (c.Bin? ==> c.n.parent == r)
      requires CtxLinked(ctx, t.l.n, nil, root)
      ensures Focus(ctx, RotR(t))
    {
    }

    ghost function TouchedR(ctx: Ctx, t: Tree): set<Node>
      requires t.Bin? && t.l.Bin?
    {
      {t.n, t.l.n, Ptr(t.l.r, nil), ParentPtr(ctx, nil)} - {nil}
    }

    /** The nodes a rotation changes are in none of the subtrees it moves. */
    lemma ApartR(ctx: Ctx, t: Tree)
      requires Focus(ctx, t) && t.Bin? && t.l.Bin?
      ensures Shape(ctx, RotR(t))
      ensures var b, changed := t.l.r, TouchedR(ctx, t);
        && Nodes(t.r) + Nodes(t.l.l) <= repr - changed
        && (b.Bin? ==> Nodes(b.r) + Nodes(b.l) <= repr - changed)
        && (!ctx.Top? ==> Nodes(ctx.sib) + CtxNodes(ctx.up) <= repr - changed)
        && Linked(t.l, nil) && Linked(t.l.r, nil) && Linked(t.l.l, nil)
        && (b.Bin? ==> Linked(b.r, nil) && Linked(b.l, nil))
    {
      RotationNodes(t);
      assert Distinct(t.l) && Distinct(t.l.r) && Linked(t.l, nil);
    }

    /** `rb_set_color` on the node looked at. */
    method SetColor(node: Node, c: Color, ghost ctx: Ctx, ghost t: Tree)
      requires Focus(ctx, t) && t.Bin? && t.n == node
      modifies repr
      ensures Focus(ctx, Paint(t, c))
    {
      node.color := c;
      assert Linked(t.l, nil) == old(Linked(t.l, nil)) && Linked(t.r, nil) == old(Linked(t.r, nil));
      assert CtxLinked(ctx, t.n, nil, root) == old(CtxLinked(ctx, t.n, nil, root));
    }

    // ----- rbtree_find

    /** Walks down to the key, in at most as many steps as the tree is high. */
    method Find(key: int) returns (node: Node?, ghost steps: nat)
      requires Valid()
      ensures steps <= Height(tree)
      ensures node == null <==> !HasKey(Entries(tree), key)
      ensures node != null ==> node in repr && node.key == key && (node.key, node.value) in Entries(tree)
      ensures var (ctx, s) := Descend(tree, key, Top); Focus(ctx, s) && (if s.Bin? then node == s.n else node == null)
    {
      Searched(tree, key);
      steps := 0;
      var cur := root;
      ghost var ctx, s := Top, tree;
      if cur == nil {
        return null, 0;
      }
      while cur != nil && cur.key != key
        invariant Focus(ctx, s) && cur == Ptr(s, nil)
        invariant Descend(s, key, ctx) == Descend(tree, key, Top)
        invariant steps + Height(s) <= Height(tree)
        decreases Height(s)
      {
        if cur.key < key {
          ZoomRight(ctx, s);
          ctx, s := Step(R, s.n, s.c, s.k, s.v, s.l, ctx), s.r;
          cur := cur.right;
        } else {
          ZoomLeft(ctx, s);
          ctx, s := Step(L, s.n, s.c, s.k, s.v, s.r, ctx), s.l;
          cur := cur.left;
        }
        steps := steps + 1;
      }
      PlugEntries(ctx, s);
      node := if cur == nil then null else cur;
    }

    // ----- rbtree_insert

    /** The branch of `insert_fixup` for a red uncle; the loop goes on at the grandparent. */
    method RecolourUp(node: Node, ghost ctx: Ctx, ghost t: Tree) returns (pparent: Node)
      requires Focus(ctx, t) && t.Bin? && t.n == node
      requires IsRedCtx(ctx) && !ctx.up.Top? && IsRed(ctx.up.sib)
      modifies repr
      ensures Focus(ctx.up.up, Recoloured(ctx, t)) && pparent == ctx.up.n
    {
      var parent := node.parent;
      pparent := parent.parent;
      ghost var g := ctx.up;
      var uncle := if parent == pparent.left then pparent.right else pparent.left;
      ZoomOut(ctx, t);
      var pc, gc := parent.color, pparent.color;
      SetColor(parent, gc, g, Hang(ctx, t));
      ghost var p' := Hang(ctx.(c := g.c), t);
      ZoomOut(g, p');
      SetColor(pparent, pc, g.up, Hang(g, p'));
      ghost var g' := Hang(g.(c := ctx.c), p');
      ghost var side := if g.side.L? then R else L;
      if g.side.L? {
        ZoomRight(g.up, g');
      } else {
        ZoomLeft(g.up, g');
      }
      SetColor(uncle, gc, Step(side, g.n, ctx.c, g.k, g.v, p', g.up), g.sib);
      ZoomOut(Step(side, g.n, ctx.c, g.k, g.v, p', g.up), Paint(g.sib, g.c));
    }

    /** The branch for a black uncle: one or two rotations, after which the parent is black. */
    method RotateUp(node: Node, ghost ctx: Ctx, ghost t: Tree) returns (node': Node)
      requires Focus(ctx, t) && t.Bin? && t.n == node
      requires IsRedCtx(ctx) && t.c.Red? && !ctx.up.Top? && ctx.up.c.Black?
      modifies this`root, repr
      ensures Focus(ctx.up.up, Rotated(ctx, t)) && node'.parent != null && node'.parent.color == Black
    {
      var parent := node.parent;
      var pparent := parent.parent;
      ghost var g := ctx.up;
      ghost var p := Hang(ctx, t);
      ZoomOut(ctx, t);
      node' := node;
      if parent == pparent.left {
        if node == parent.right {
          node' := parent;
          LeftRotate(parent, g, p);
          p := RotL(p);
        }
        ZoomOut(g, p);
        RightRotate(pparent, g.up, Hang(g, p));
      } else {
        if node == parent.left {
          node' := parent;
          RightRotate(parent, g, p);
          p := RotR(p);
        }
        ZoomOut(g, p);
        LeftRotate(pparent, g.up, Hang(g, p));
      }
    }

    /** What the loop of `insert_fixup` knows of a red node whose parent may be red. */
    ghost predicate Pending(node: Node, ctx: Ctx, t: Tree)
      reads this, nil, repr
    {
      Focus(ctx, t) && t.Bin? && t.n == node && IsRed(t) && Balanced(t) && NoRedRed(t) && CtxOk(ctx, BH(t))
    }

    /** One pass of the loop. It goes on two levels up, or it ends below a black node. */
    method FixupPass(node: Node, ghost ctx: Ctx, ghost t: Tree) returns (node': Node, ghost s: Tree, ghost last: bool)
      requires Pending(node, ctx, t) && IsRedCtx(ctx)
      modifies this`root, repr
      ensures node'.parent != null && !ctx.up.Top? && s.Bin?
      ensures !last ==> Pending(node', ctx.up.up, s) && Fixup(ctx.up.up, s) == Fixup(ctx, t)
      ensures last ==>
        && Focus(ctx.up.up, s) && node'.parent.color == Black
        && Paint(Plug(ctx.up.up, s), Black) == Fixup(ctx, t)
    {
      UncleIs(ctx, t);
      var parent := node.parent;
      var uncle := if parent == parent.parent.left then parent.parent.right else parent.parent.left;
      if uncle.color == Red {
        RecolouredOk(ctx, t);
        node' := RecolourUp(node, ctx, t);
        s, last := Recoloured(ctx, t), false;
      } else {
        node' := RotateUp(node, ctx, t);
        s, last := Rotated(ctx, t), true;
      }
    }

    /** The loop condition in terms of the path. */
    lemma ParentIs(ctx: Ctx, t: Tree)
      requires Focus(ctx, t) && t.Bin?
      ensures t.n.parent != null && (t.n.parent.color == Red <==> IsRedCtx(ctx))
    {
    }

    /** `T->root->color = BLACK`. */
    method BlackenRoot(ghost ctx: Ctx, ghost t: Tree)
      requires Focus(ctx, t) && t.Bin?
      modifies repr
      ensures Focus(Top, Paint(Plug(ctx, t), Black))
    {
      PlugIsBin(ctx, t);
      ZoomTop(ctx, t);
      SetColor(root, Black, Top, Plug(ctx, t));
    }

    /** Restores the red-black rules from a red node upwards. */
    method InsertFixup(node: Node, ghost ctx: Ctx, ghost t: Tree)
      requires Focus(ctx, t) && t.Bin? && t.n == node
      requires if ctx.Top? then t.c.Black? else Pending(node, ctx, t)
      modifies this`root, repr
      ensures Focus(Top, if ctx.Top? then t else Fixup(ctx, t))
    {
      ParentIs(ctx, t);
      if node.parent.color == Black {
        if !ctx.Top? {
          PlugRedBlack(ctx, t);
          PlugIsBin(ctx, t);
        }
        ZoomTop(ctx, t);
        return;
      }
      FixupLoop(node, ctx, t);
    }

    method FixupLoop(node: Node, ghost ctx: Ctx, ghost t: Tree)
      requires Pending(node, ctx, t)
      modifies this`root, repr
      ensures Focus(Top, Fixup(ctx, t))
    {
      var cur := node;
      ghost var c, s, last := ctx, t, false;
      ParentIs(c, s);
      while cur.parent.color == Red
        invariant cur.parent != null && s.Bin? && Focus(c, s)
        invariant !last ==>
          && Pending(cur, c, s) && Fixup(c, s) == Fixup(ctx, t)
          && (cur.parent.color == Red <==> IsRedCtx(c))
        invariant last ==> cur.parent.color == Black && Paint(Plug(c, s), Black) == Fixup(ctx, t)
        decreases if last then 0 else 1 + Depth(c)
      {
        ghost var s', last';
        cur, s', last' := FixupPass(cur, c, s);
        assert Depth(c) == Depth(c.up) + 1 && Depth(c.up) == Depth(c.up.up) + 1;
        c, s, last := c.up.up, s', last';
        ParentIs(c, s);
      }
      BlackenRoot(c, s);
    }

    /** The uncle as the program reads it. */
    lemma UncleIs(ctx: Ctx, t: Tree)
      requires Focus(ctx, t) && t.Bin? && IsRedCtx(ctx) && !ctx.up.Top?
      ensures var g := ctx.up.n;
        && t.n.parent == ctx.n && ctx.n.parent == g && g.left != null && g.right != null
        && var uncle := if ctx.n == g.left then g.right else g.left;
           uncle == Ptr(ctx.up.sib, nil) && (uncle.color == Red <==> IsRed(ctx.up.sib))
    {
      ZoomOut(ctx, t);
    }

    /** The links of a new red leaf where the path ends. */
    method Attach(node: Node, parent: Node, ghost ctx: Ctx)
      requires Focus(ctx, Tip) && node !in repr && node != nil && parent == ParentPtr(ctx, nil)
      requires !ctx.Top? ==> (ctx.side.L? <==> node.key < ctx.k)
      modifies this`root, this`repr, repr, node
      ensures repr == old(repr) + {node} && node.parent == parent
      ensures Focus(ctx, Bin(node, if ctx.Top? then Black else Red, old(node.key), old(node.value), Tip, Tip))
    {
      node.parent, node.left, node.right, node.color := parent, nil, nil, Red;
      if parent == nil {
        root := node;
        node.color := Black;
      } else if node.key < parent.key {
        parent.left := node;
      } else {
        parent.right := node;
      }
      repr := repr + {node};
      if !ctx.Top? {
        assert Linked(ctx.sib, nil) == old(Linked(ctx.sib, nil));
        assert CtxLinked(ctx.up, ctx.n, nil, root) == old(CtxLinked(ctx.up, ctx.n, nil, root));
      }
      Refocus(ctx, Bin(node, if ctx.Top? then Black else Red, node.key, node.value, Tip, Tip));
    }

    /** The search loop of `rbtree_insert`. */
    method FindPlace(key: int, ghost t: Tree) returns (parent: Node, found: bool)
      requires Focus(Top, t)
      ensures var (ctx, s) := Descend(t, key, Top);
        && Focus(ctx, s) && found == s.Bin?
        && (s.Tip? ==> parent == ParentPtr(ctx, nil))
        && (s.Tip? && !ctx.Top? ==> (ctx.side.L? <==> key < ctx.k))
    {
      var tmp := root;
      parent := nil;
      ghost var ctx, s := Top, t;
      while tmp != nil
        invariant Focus(ctx, s) && tmp == Ptr(s, nil) && parent == ParentPtr(ctx, nil)
        invariant Descend(s, key, ctx) == Descend(t, key, Top)
        invariant !ctx.Top? ==> (ctx.side.L? <==> key < ctx.k)
        decreases Height(s)
      {
        parent := tmp;
        if key < tmp.key {
          ZoomLeft(ctx, s);
          ctx, s := Step(L, s.n, s.c, s.k, s.v, s.r, ctx), s.l;
          tmp := tmp.left;
        } else if key > tmp.key {
          ZoomRight(ctx, s);
          ctx, s := Step(R, s.n, s.c, s.k, s.v, s.l, ctx), s.r;
          tmp := tmp.right;
        } else {
          return parent, true;
        }
      }
      found := false;
    }

    /** Puts a node into the tree unless its key is there already. */
    method Insert(node: Node)
      requires Valid() && node !in repr && node != nil
      modifies this, repr, node
      ensures Valid() && tree == InsertTree(old(tree), node, old(node.key), old(node.value))
      ensures !HasKey(Entries(old(tree)), old(node.key)) ==>
        && repr == old(repr) + {node}
        && multiset(Entries(tree)) == multiset(Entries(old(tree))) + multiset{(old(node.key), old(node.value))}
      ensures HasKey(Entries(old(tree)), old(node.key)) ==> unchanged(this) && unchanged(repr) && unchanged(node)
    {
      Searched(tree, node.key);
      InsertCorrect(tree, node, node.key, node.value);
      var parent, found := FindPlace(node.key, tree);
      if found {
        assert HasKey(Entries(tree), node.key);
        return;
      }
      InsertAt(node, parent, Descend(tree, node.key, Top).0, InsertTree(tree, node, node.key, node.value));
    }

    /** The part of `rbtree_insert` after the search. */
    method InsertAt(node: Node, parent: Node, ghost ctx: Ctx, ghost grown: Tree)
      requires Focus(ctx, Tip) && node !in repr && node != nil && parent == ParentPtr(ctx, nil)
      requires !ctx.Top? ==> (ctx.side.L? <==> node.key < ctx.k)
      requires RedBlack(Plug(ctx, Tip)) && RedBlack(grown) && SearchTree(grown)
      requires grown == Fixup(ctx, Bin(node, Red, node.key, node.value, Tip, Tip))
      modifies this, repr, node
      ensures repr == old(repr) + {node} && Valid() && tree == grown
    {
      ghost var key, value := node.key, node.value;
      UnplugRedBlack(ctx, Tip);
      Attach(node, parent, ctx);
      InsertFixup(node, ctx, Bin(node, if ctx.Top? then Black else Red, key, value, Tip, Tip));
      tree := grown;
    }

    // ----- rbtree_delete

    /** After the rotation at the parent the node is found below parent and brother. */
    lemma LowerFocus(ctx: Ctx, t: Tree)
      requires t.Bin? && !ctx.Top? && ctx.sib.Bin?
      requires Focus(ctx.up, if ctx.side.L? then RotL(Hang(ctx, t)) else RotR(Hang(ctx, t)))
      ensures Focus(Lower(ctx), t)
    {
      if ctx.side.L? {
        ZoomLeft(ctx.up, RotL(Hang(ctx, t)));
        ZoomLeft(Lower(ctx).up, RotL(Hang(ctx, t)).l);
      } else {
        ZoomRight(ctx.up, RotR(Hang(ctx, t)));
        ZoomRight(Lower(ctx).up, RotR(Hang(ctx, t)).r);
      }
    }

    /** The path to the brother, and back. */
    ghost function Across(ctx: Ctx, t: Tree): Ctx
      requires !ctx.Top?
    {
      Step(if ctx.side.L? then R else L, ctx.n, ctx.c, ctx.k, ctx.v, t, ctx.up)
    }

    lemma ZoomAcross(ctx: Ctx, t: Tree)
      requires Focus(ctx, t) && !ctx.Top?
      ensures Focus(Across(ctx, t), ctx.sib)
    {
      ZoomOut(ctx, t);
      if ctx.side.L? {
        ZoomRight(ctx.up, Hang(ctx, t));
      } else {
        ZoomLeft(ctx.up, Hang(ctx, t));
      }
    }

    /** The rotation at the parent, towards the node. */
    method Lift(node: Node, parent: Node, ghost ctx: Ctx, ghost t: Tree)
      requires Focus(ctx, t) && t.Bin? && t.n == node && !ctx.Top? && ctx.sib.Bin? && ctx.n == parent
      modifies this`root, repr
      ensures Focus(Lower(ctx), t)
    {
      ZoomOut(ctx, t);
      if node == parent.left {
        LeftRotate(parent, ctx.up, Hang(ctx, t));
      } else {
        RightRotate(parent, ctx.up, Hang(ctx, t));
      }
      LowerFocus(ctx, t);
    }

    /** The path to a child of the brother. */
    ghost function ToNephew(ctx: Ctx, t: Tree, side: Side): Ctx
      requires !ctx.Top? && ctx.sib.Bin?
    {
      var b := ctx.sib;
      Step(side, b.n, b.c, b.k, b.v, if side.L? then b.r else b.l, Across(ctx, t))
    }

    lemma ZoomNephew(ctx: Ctx, t: Tree, side: Side)
      requires Focus(ctx, t) && !ctx.Top? && ctx.sib.Bin?
      ensures Focus(ToNephew(ctx, t, side), if side.L? then ctx.sib.l else ctx.sib.r)
    {
      ZoomAcross(ctx, t);
      if side.L? {
        ZoomLeft(Across(ctx, t), ctx.sib);
      } else {
        ZoomRight(Across(ctx, t), ctx.sib);
      }
    }

    /** Paints a child of the brother black. */
    method PaintNephew(nephew: Node, ghost ctx: Ctx, ghost t: Tree, ghost side: Side)
      requires Focus(ctx, t) && !ctx.Top? && ctx.sib.Bin?
      requires var x := if side.L? then ctx.sib.l else ctx.sib.r; x.Bin? && x.n == nephew
      modifies repr
      ensures Focus(ctx.(sib := if side.L? then ctx.sib.(l := Paint(ctx.sib.l, Black))
                                           else ctx.sib.(r := Paint(ctx.sib.r, Black))), t)
    {
      ZoomNephew(ctx, t, side);
      ghost var p, x := ToNephew(ctx, t, side), if side.L? then ctx.sib.l else ctx.sib.r;
      SetColor(nephew, Black, p, x);
      ZoomOut(p, Paint(x, Black));
      ZoomAcross(p.up, Hang(p, Paint(x, Black)));
    }

    /** Paints the inner nephew black and rotates it above the brother. */
    method RaiseNephew(node: Node, brother: Node, nephew: Node, ghost ctx: Ctx, ghost t: Tree)
      requires Focus(ctx, t) && t.Bin? && t.n == node && !ctx.Top? && ctx.sib.Bin? && ctx.sib.n == brother
      requires Inner(ctx).Bin? && Inner(ctx).n == nephew
      modifies this`root, repr
      ensures Focus(InnerUp(ctx), t)
    {
      PaintNephew(nephew, ctx, t, ctx.side);
      ghost var c' := ctx.(sib := if ctx.side.L? then ctx.sib.(l := Paint(ctx.sib.l, Black))
                                                 else ctx.sib.(r := Paint(ctx.sib.r, Black)));
      ZoomAcross(c', t);
      if nephew == brother.left {
        RightRotate(brother, Across(c', t), c'.sib);
      } else {
        LeftRotate(brother, Across(c', t), c'.sib);
      }
      ZoomAcross(Across(c', t), InnerUp(ctx).sib);
    }

    /** The colour exchange of a red parent with its black brother. */
    method ExchangeColors(parent: Node, brother: Node, ghost ctx: Ctx, ghost t: Tree)
      requires Focus(ctx, t) && !ctx.Top? && ctx.sib.Bin? && ctx.n == parent && ctx.sib.n == brother
      modifies repr
      ensures Focus(ctx.(c := ctx.sib.c, sib := Paint(ctx.sib, ctx.c)), t)
    {
      var pc, bc := parent.color, brother.color;
      ZoomAcross(ctx, t);
      SetColor(brother, pc, Across(ctx, t), ctx.sib);
      ghost var b' := Paint(ctx.sib, ctx.c);
      ZoomOut(Across(ctx, t), b');
      SetColor(parent, bc, ctx.up, Hang(Across(ctx, t), b'));
      if ctx.side.L? {
        ZoomLeft(ctx.up, Hang(ctx.(c := ctx.sib.c, sib := b'), t));
      } else {
        ZoomRight(ctx.up, Hang(ctx.(c := ctx.sib.c, sib := b'), t));
      }
    }

    /** The root pointer has been set to `nil` while the nodes hang together as before. */
    ghost predicate Severed(t: Tree)
      reads this, nil, repr
    {
      && root == nil && IsNil(nil) && Shape(Top, t)
      && Linked(t, nil) && (t.Bin? ==> t.n.parent == nil)
    }

    /** One pass of `delete_fixup` for a black node; the two mirrored halves of the program are one here.
        The result says where the program goes on, if it does. */
    method FixPass(node: Node, ghost ctx: Ctx, ghost t: Tree) returns (again: bool, next: Node)
      requires Focus(ctx, t) && t.Bin? && t.n == node
      requires !ctx.Top? ==> ctx.sib.Bin? && (IsRed(ctx.sib) || Climbs(ctx) || Settle(ctx).Fixed?)
      modifies this`root, repr
      ensures again == (!ctx.Top? && (IsRed(ctx.sib) || Climbs(ctx)))
      ensures ctx.Top? ==> Severed(t)
      ensures !ctx.Top? && IsRed(ctx.sib) ==> Focus(Lower(ctx), t) && next == node
      ensures !ctx.Top? && !IsRed(ctx.sib) && Climbs(ctx) ==>
        Focus(ctx.up, Hang(ctx.(sib := Paint(ctx.sib, Red)), t)) && next == ctx.n
      ensures !ctx.Top? && !IsRed(ctx.sib) && !Climbs(ctx) ==> Focus(Settle(ctx).ctx, t) && next == node
    {
      again, next := false, node;
      var parent := node.parent;
      RootIs(ctx, t);
      if root == node {
        root := nil;
        return;
      }
      var left := node == parent.left;
      var brother := if left then parent.right else parent.left;
      BrotherIs(ctx, t);
      if brother.color == Red {
        Lift(node, parent, ctx, t);
        return true, node;
      }
      var outer, inner := if left then brother.right else brother.left, if left then brother.left else brother.right;
      if outer != nil {
        PaintNephew(outer, ctx, t, if ctx.side.L? then R else L);
        Lift(node, parent, PaintOuter(ctx), t);
      } else if inner != nil {
        RaiseNephew(node, brother, inner, ctx, t);
        Lift(node, parent, InnerUp(ctx), t);
      } else if parent.color == Red {
        ExchangeColors(parent, brother, ctx, t);
      } else {
        ZoomAcross(ctx, t);
        SetColor(brother, Red, Across(ctx, t), ctx.sib);
        ZoomOut(Across(ctx, t), Paint(ctx.sib, Red));
        return true, parent;
      }
    }

    lemma RootIs(ctx: Ctx, t: Tree)
      requires Focus(ctx, t) && t.Bin?
      ensures root == t.n <==> ctx.Top?
      ensures t.n.parent == ParentPtr(ctx, nil)
    {
      if !ctx.Top? {
        RootAbove(ctx, t);
      }
    }

    /** The root is on the path, if there is one. */
    lemma {:induction false} RootAbove(ctx: Ctx, t: Tree)
      requires Focus(ctx, t) && !ctx.Top?
      ensures root in CtxNodes(ctx)
      decreases ctx
    {
      assert CtxLinked(ctx.up, ctx.n, nil, root);
      if !ctx.up.Top? {
        ZoomOut(ctx, t);
        RootAbove(ctx.up, Hang(ctx, t));
      }
    }

    /** The brother and the nephews as the program reads them. */
    lemma BrotherIs(ctx: Ctx, t: Tree)
      requires Focus(ctx, t) && t.Bin? && !ctx.Top? && ctx.sib.Bin?
      ensures t.n.parent == ctx.n && (ctx.n.color == Red <==> ctx.c.Red?)
      ensures ctx.n.left != null && ctx.n.right != null && (t.n == ctx.n.left <==> ctx.side.L?)
      ensures var b := if t.n == ctx.n.left then ctx.n.right else ctx.n.left;
        && b == ctx.sib.n && (b.color == Red <==> IsRed(ctx.sib)) && b.left != null && b.right != null
        && (if ctx.side.L? then b.right else b.left) == Ptr(Outer(ctx), nil)
        && (if ctx.side.L? then b.left else b.right) == Ptr(Inner(ctx), nil)
    {
      assert Linked(ctx.sib, nil);
    }

    /** Where `delete_fixup` stands: at the node to be unlinked, or, after climbing, at its parent. */
    ghost predicate Fixing(ctx: Ctx, x: Tree, c: Ctx, s: Tree, climbed: bool) {
      if !climbed then s == x && DeleteFix(c) == DeleteFix(ctx) && CtxOk(c, 1) && (c == ctx || !Climbs(c))
      else
        && Climbs(ctx) && s == Hang(ctx.(sib := Paint(ctx.sib, Red)), x)
        && DeleteFix(c) == DeleteFix(ctx.up) && CtxOk(c, 2)
    }

    /** In a red-black tree each pass finds a brother, and it climbs at most once. */
    lemma PassReady(c: Ctx, h: nat)
      requires CtxOk(c, h) && 1 <= h <= 2 && !c.Top?
      ensures c.sib.Bin? && (IsRed(c.sib) || Climbs(c) || Settle(c).Fixed?)
      ensures h == 2 ==> !Climbs(c)
      ensures IsRed(c.sib) ==>
        && CtxOk(Lower(c), h) && !Climbs(Lower(c)) && !IsRed(Lower(c).sib)
        && DeleteFix(Lower(c)) == DeleteFix(c)
    {
      if IsRed(c.sib) {
        LowerOk(c, h);
      }
    }

    function Rank(c: Ctx, climbed: bool): nat {
      (if climbed then 0 else 2) + if !c.Top? && IsRed(c.sib) then 1 else 0
    }

    /** With the root pointer lost, the node to be unlinked still has its parent. */
    ghost predicate Adrift(node: Node)
      reads this, nil, repr, node
    {
      root == nil && IsNil(nil) && nil !in repr && node in repr
      && node.parent != null && node.parent != node && (node.parent == nil || node.parent in repr)
    }

    /** A pass, and what it means for the node to be unlinked. */
    method FixStep(node: Node, ghost ctx: Ctx, ghost x: Tree, ghost c: Ctx, ghost s: Tree, ghost climbed: bool)
      returns (again: bool, next: Node, ghost c': Ctx, ghost s': Tree, ghost climbed': bool)
      requires x.Bin? && Fixing(ctx, x, c, s, climbed) && Focus(c, s) && s.Bin? && s.n == node
      modifies this`root, repr
      ensures again ==>
        && Fixing(ctx, x, c', s', climbed') && Focus(c', s') && s'.Bin? && s'.n == next
        && Rank(c', climbed') < Rank(c, climbed)
      ensures !again && DeleteFix(ctx).Fixed? ==> Focus(DeleteFix(ctx).ctx, x)
      ensures !again && !DeleteFix(ctx).Fixed? ==> Adrift(x.n)
    {
      if !c.Top? {
        PassReady(c, if climbed then 2 else 1);
      }
      again, next := FixPass(node, c, s);
      c', s', climbed' := c, s, climbed;
      if !c.Top? && IsRed(c.sib) {
        c' := Lower(c);
      } else if !c.Top? && Climbs(c) {
        c', s', climbed' := c.up, Hang(c.(sib := Paint(c.sib, Red)), s), true;
      } else if !c.Top? && climbed {
        if ctx.side.L? {
          ZoomLeft(Settle(c).ctx, s);
        } else {
          ZoomRight(Settle(c).ctx, s);
        }
      }
    }

    /** Repairs the tree before a black node without children is unlinked. */
    method DeleteFixup(node: Node, ghost ctx: Ctx, ghost x: Tree)
      requires Focus(ctx, x) && x.Bin? && x.n == node && CtxOk(ctx, 1)
      modifies this`root, repr
      ensures DeleteFix(ctx).Fixed? ==> Focus(DeleteFix(ctx).ctx, x)
      ensures !DeleteFix(ctx).Fixed? ==> Adrift(node)
    {
      var cur, again := node, true;
      ghost var c, s, climbed := ctx, x, false;
      while again
        invariant again ==> Fixing(ctx, x, c, s, climbed) && Focus(c, s) && s.Bin? && s.n == cur
        invariant !again && DeleteFix(ctx).Fixed? ==> Focus(DeleteFix(ctx).ctx, x)
        invariant !again && !DeleteFix(ctx).Fixed? ==> Adrift(node)
        decreases again, Rank(c, climbed)
      {
        ghost var c', s', climbed';
        again, cur, c', s', climbed' := FixStep(cur, ctx, x, c, s, climbed);
        c, s, climbed := c', s', climbed';
      }
    }

    /** The only child's subtree and the path above lie apart from what unlinking changes. */
    lemma ChildApart(ctx: Ctx, x: Tree, y: Tree)
      requires Focus(ctx, x) && x.Bin? && (x.l.Tip? || x.r.Tip?) && y == if x.l.Bin? then x.l else x.r
      ensures Nodes(y) + CtxNodes(ctx) == repr - {x.n} && Nodes(y) !! CtxNodes(ctx) && Distinct(y)
      ensures Linked(y, nil)
      ensures var changed := {Ptr(y, nil), ParentPtr(ctx, nil)} - {nil};
        && (y.Bin? ==> Nodes(y.l) + Nodes(y.r) <= repr - changed)
        && (!ctx.Top? ==> Nodes(ctx.sib) + CtxNodes(ctx.up) <= repr - changed)
    {
      assert Linked(x.l, nil) && Linked(x.r, nil) && Distinct(x.l) && Distinct(x.r);
    }

    /** `logic_delete`: the only child, or `nil`, takes the place of the node. With the root pointer lost,
        the tree stays empty. */
    method LogicDelete(node: Node, child: Node, ghost ctx: Ctx, ghost x: Tree, ghost y: Tree, ghost lost: bool)
      requires lost ==> Adrift(node) && child == nil
      requires !lost ==>
        && Focus(ctx, x) && x.Bin? && x.n == node && (x.l.Tip? || x.r.Tip?)
        && y == (if x.l.Bin? then x.l else x.r) && child == Ptr(y, nil)
      modifies this`root, this`repr, repr
      ensures lost ==> Focus(Top, Tip)
      ensures !lost ==> repr == old(repr) - {node} && Focus(ctx, y)
    {
      if !lost {
        ChildApart(ctx, x, y);
      }
      Relink(node, child, ctx, x, y, lost);
      repr := if lost then {} else repr - {node};
      if !lost {
        Refocus(ctx, y);
      }
    }

    /** The link changes, and what they leave alone. */
    method Relink(node: Node, child: Node, ghost ctx: Ctx, ghost x: Tree, ghost y: Tree, ghost lost: bool)
      requires lost ==> Adrift(node) && child == nil
      requires !lost ==>
        && Focus(ctx, x) && x.Bin? && x.n == node && (x.l.Tip? || x.r.Tip?)
        && y == (if x.l.Bin? then x.l else x.r) && child == Ptr(y, nil)
      modifies this`root, repr
      ensures IsNil(nil) && (lost ==> root == nil)
      ensures !lost ==> Linked(y, nil) && (y.Bin? ==> y.n.parent == ParentPtr(ctx, nil))
      ensures !lost ==> CtxLinked(ctx, Ptr(y, nil), nil, root)
    {
      if !lost {
        ChildApart(ctx, x, y);
      }
      LogicDeleteLinks(node, child, {child, node.parent} - {nil});
      if !lost {
        if y.Bin? {
          assert Linked(y.l, nil) == old(Linked(y.l, nil)) && Linked(y.r, nil) == old(Linked(y.r, nil));
        }
        if !ctx.Top? {
          assert Linked(ctx.sib, nil) == old(Linked(ctx.sib, nil));
          assert CtxLinked(ctx.up, ctx.n, nil, root) == old(CtxLinked(ctx.up, ctx.n, nil, root));
        }
      }
    }

    /** What the link changes leave around the subtree that moved up. */
    lemma Refocus(ctx: Ctx, y: Tree)
      requires Shape(ctx, y) && IsNil(nil) && Linked(y, nil) && (y.Bin? ==> y.n.parent == ParentPtr(ctx, nil))
      requires CtxLinked(ctx, Ptr(y, nil), nil, root)
      ensures Focus(ctx, y)
    {
    }

    method LogicDeleteLinks(node: Node, child: Node, ghost changed: set<Node>)
      requires node.parent != null && node != nil && child != node && node.parent != node
      requires child != nil ==> child != node.parent
      requires changed == {child, node.parent} - {nil}
      modifies this`root, changed
      ensures var p := old(node.parent);
        && child.parent == (if child == nil then old(child.parent) else p)
        && (child.color, child.key, child.value, child.left, child.right)
           == old((child.color, child.key, child.value, child.left, child.right))
        && (p.color, p.key, p.value, p.parent) == old((p.color, p.key, p.value, p.parent))
        && root == (if p == nil then child else old(root))
        && p.left == (if p != nil && old(p.left) == node then child else old(p.left))
        && p.right == (if p != nil && old(p.left) != node then child else old(p.right))
    {
      var parent := node.parent;
      if child != nil {
        child.parent := parent;
      }
      if parent == nil {
        root := child;
      } else if node == parent.left {
        parent.left := child;
      } else {
        parent.right := child;
      }
    }

    /** Sets key and value of the node looked at. */
    method SetEntry(node: Node, key: int, value: int, ghost ctx: Ctx, ghost t: Tree)
      requires Focus(ctx, t) && t.Bin? && t.n == node
      modifies repr
      ensures Focus(ctx, t.(k := key, v := value))
    {
      node.key, node.value := key, value;
      assert Linked(t.l, nil) == old(Linked(t.l, nil)) && Linked(t.r, nil) == old(Linked(t.r, nil));
      assert CtxLinked(ctx, t.n, nil, root) == old(CtxLinked(ctx, t.n, nil, root));
    }

    lemma {:induction false} ZoomLeftmost(ctx: Ctx, t: Tree)
      requires Focus(ctx, t) && t.Bin?
      ensures Focus(Leftmost(t, ctx).0, Leftmost(t, ctx).1)
      decreases t
    {
      if t.l.Bin? {
        ZoomLeft(ctx, t);
        ZoomLeftmost(Step(L, t.n, t.c, t.k, t.v, t.r, ctx), t.l);
      }
    }

    /** `find_successor` for a node with a right child. */
    method FindSuccessor(node: Node, ghost ctx: Ctx, ghost s: Tree) returns (next: Node)
      requires Focus(ctx, s) && s.Bin? && s.n == node && s.r.Bin?
      ensures var x := Leftmost(s.r, Top).1; next == x.n && (next.key, next.value) == (x.k, x.v)
    {
      next := node.right;
      ghost var c, t := Step(R, s.n, s.c, s.k, s.v, s.l, ctx), s.r;
      ZoomRight(ctx, s);
      LeftmostSame(s.r, Top, c);
      while next.left != nil
        invariant Focus(c, t) && t.Bin? && t.n == next && next.left != null
        invariant Leftmost(t, c).1 == Leftmost(s.r, Top).1
        decreases Height(t)
      {
        ZoomLeft(c, t);
        c, t := Step(L, t.n, t.c, t.k, t.v, t.r, c), t.l;
        next := next.left;
      }
    }

    /** The exchange of keys and values with the successor. */
    method ExchangeEntries(node: Node, ghost ctx: Ctx, ghost s: Tree) returns (victim: Node)
      requires Focus(ctx, s) && s.Bin? && s.n == node && s.l.Bin? && s.r.Bin?
      modifies repr
      ensures var (c, x) := Victim(ctx, s); Focus(c, x) && victim == x.n
    {
      victim := FindSuccessor(node, ctx, s);
      ghost var next := Leftmost(s.r, Top).1;
      var key, value := node.key, node.value;
      SetEntry(node, victim.key, victim.value, ctx, s);
      ghost var s' := s.(k := next.k, v := next.v);
      ghost var down := Step(R, s.n, s.c, next.k, next.v, s.l, ctx);
      ZoomRight(ctx, s');
      ZoomLeftmost(down, s.r);
      LeftmostSame(s.r, Top, down);
      SetEntry(victim, key, value, Leftmost(s.r, down).0, next);
    }

    /** `delete_fixup` and `logic_delete` for a node with at most one child. */
    method UnlinkNode(node: Node, ghost ctx: Ctx, ghost x: Tree)
      requires Focus(ctx, x) && x.Bin? && x.n == node && (x.l.Tip? || x.r.Tip?) && RedBlack(Plug(ctx, x))
      modifies this`root, this`repr, repr
      ensures Focus(Top, Unlink(ctx, x))
    {
      UnplugRedBlack(ctx, x);
      var child := if node.left != nil then node.left else node.right;
      ghost var c, x', lost := ctx, x, false;
      if child != nil {
        PaintChild(child, ctx, x);
        x' := if x.l.Bin? then x.(l := Paint(x.l, Black)) else x.(r := Paint(x.r, Black));
      } else if node.color == Black {
        DeleteFixup(node, ctx, x);
        lost := !DeleteFix(ctx).Fixed?;
        c := if lost then ctx else DeleteFix(ctx).ctx;
      }
      ghost var y := if x'.l.Bin? then x'.l else x'.r;
      LogicDelete(node, child, c, x', y, lost);
      if !lost {
        ZoomTop(c, y);
      }
    }

    /** The first two branches of `delete_fixup`. */
    method PaintChild(child: Node, ghost ctx: Ctx, ghost x: Tree)
      requires Focus(ctx, x) && x.Bin? && (x.l.Bin? <==> x.r.Tip?)
      requires child == if x.l.Bin? then x.l.n else x.r.n
      modifies repr
      ensures Focus(ctx, if x.l.Bin? then x.(l := Paint(x.l, Black)) else x.(r := Paint(x.r, Black)))
    {
      ghost var down := Step(if x.l.Bin? then L else R, x.n, x.c, x.k, x.v, Tip, ctx);
      ghost var y := if x.l.Bin? then x.l else x.r;
      if x.l.Bin? {
        ZoomLeft(ctx, x);
      } else {
        ZoomRight(ctx, x);
      }
      SetColor(child, Black, down, y);
      ZoomOut(down, Paint(y, Black));
    }

    /** Deletes the node found: itself if it has at most one child, otherwise in place of its successor. */
    method DeleteFound(node: Node, ghost ctx: Ctx, ghost s: Tree)
      requires Focus(ctx, s) && s.Bin? && s.n == node && RedBlack(Plug(ctx, s))
      modifies this`root, this`repr, repr
      ensures Focus(Top, Unlink(Victim(ctx, s).0, Victim(ctx, s).1))
    {
      VictimOk(ctx, s);
      var victim := node;
      if node.left != nil && node.right != nil {
        victim := ExchangeEntries(node, ctx, s);
      }
      UnlinkNode(victim, Victim(ctx, s).0, Victim(ctx, s).1);
    }

    /** Deletes a key; -1 when it is not there. When the move is sound, exactly the pair with the key is
        gone and the tree is valid again. When it is not, exactly the pair is gone all the same, and one
        subtree is a black node short, unless the repair climbs to the root: then all is lost. */
    method Delete(key: int) returns (r: int)
      requires Valid()
      modifies this, repr
      ensures r == if HasKey(Entries(old(tree)), key) then 0 else -1
      ensures tree == DeleteTree(old(tree), key) && Focus(Top, tree)
      ensures r == -1 ==> Valid() && unchanged(this) && unchanged(repr)
      ensures r == 0 ==>
        (DeleteSound(old(tree), key) <==> Valid() && Entries(tree) == Without(Entries(old(tree)), key))
      ensures r == 0 ==>
        && (Entries(tree) == Without(Entries(old(tree)), key) <==> DeleteKeeps(old(tree), key))
        && (if DeleteKeeps(old(tree), key) then DeleteSound(old(tree), key) || OneShort(tree) else tree == Tip)
    {
      var node, _ := Find(key);
      ghost var ctx, s := Descend(tree, key, Top).0, Descend(tree, key, Top).1;
      Searched(tree, key);
      DeleteCorrectIff(tree, key);
      if node == null {
        return -1;
      }
      DeleteLeaves(tree, key);
      DeleteAt(node, key, ctx, s);
      return 0;
    }

    /** The node with the key has been found. */
    method DeleteAt(node: Node, key: int, ghost ctx: Ctx, ghost s: Tree)
      requires (ctx, s) == Descend(tree, key, Top) && Focus(ctx, s) && s.Bin? && s.n == node
      requires RedBlack(Plug(ctx, s))
      modifies this, repr
      ensures tree == DeleteTree(old(tree), key) && Focus(Top, tree)
    {
      ghost var t := DeleteTree(tree, key);
      DeleteFound(node, ctx, s);
      tree := t;
    }
  }
}

/** Insertion into the red-black tree, on values. */
module RbInsert {
  import opened RbTree

  /** The node of a path with a subtree hung below it. */
  function Hang(ctx: Ctx, t: Tree): Tree
    requires !ctx.Top?
  {
    if ctx.side.L? then Bin(ctx.n, ctx.c, ctx.k, ctx.v, t, ctx.sib) else Bin(ctx.n, ctx.c, ctx.k, ctx.v, ctx.sib, t)
  }

  /** The rotations of `insert_fixup` when the uncle is black: an inner grandchild first comes up past its
      parent, then the parent's place past the grandparent. */
  function Rotated(ctx: Ctx, t: Tree): Tree
    requires t.Bin? && !ctx.Top? && !ctx.up.Top?
  {
    var g := ctx.up;
    if g.side.L? then
      RotR(Hang(g, if ctx.side.R? then RotL(Hang(ctx, t)) else Hang(ctx, t)))
    else
      RotL(Hang(g, if ctx.side.L? then RotR(Hang(ctx, t)) else Hang(ctx, t)))
  }

  /** The colour exchange of `insert_fixup` when the uncle is red. */
  function Recoloured(ctx: Ctx, t: Tree): Tree
    requires !ctx.Top? && !ctx.up.Top?
  {
    var g := ctx.up;
    Hang(g.(c := ctx.c, sib := Paint(g.sib, g.c)), Hang(ctx.(c := g.c), t))
  }

  /** `insert_fixup` for the node at the root of `t`, as the tree it leaves. */
  function Fixup(ctx: Ctx, t: Tree): Tree
    requires t.Bin?
    decreases ctx
  {
    if !IsRedCtx(ctx) || ctx.up.Top? then Paint(Plug(ctx, t), Black)
    else if IsRed(ctx.up.sib) then Fixup(ctx.up.up, Recoloured(ctx, t))
    else Paint(Plug(ctx.up.up, Rotated(ctx, t)), Black)
  }

  /** The tree `rbtree_insert` leaves. */
  function InsertTree(t: Tree, node: Node, key: int, value: int): Tree {
    var (ctx, s) := Descend(t, key, Top);
    if s.Bin? then t else Fixup(ctx, Bin(node, Red, key, value, Tip, Tip))
  }

  lemma HangEntries(ctx: Ctx, t: Tree)
    requires !ctx.Top?
    ensures Plug(ctx, t) == Plug(ctx.up, Hang(ctx, t))
  {
  }

  /** The subtree with black-uncle rotations keeps its entries and black height and gets a black root
      over red children. */
  lemma RotatedOk(ctx: Ctx, t: Tree)
    requires t.Bin? && IsRedCtx(ctx) && !ctx.up.Top?
    requires IsRed(t) && Balanced(t) && NoRedRed(t) && CtxOk(ctx, BH(t)) && !IsRed(ctx.up.sib)
    ensures RedBlack(Rotated(ctx, t)) && BH(Rotated(ctx, t)) == BH(t) + 1
  {
  }

  lemma RotatedEntries(ctx: Ctx, t: Tree)
    requires t.Bin? && !ctx.Top? && !ctx.up.Top?
    ensures Entries(Rotated(ctx, t)) == Entries(Hang(ctx.up, Hang(ctx, t)))
  {
    var p, g := Hang(ctx, t), ctx.up;
    RotationsInverse(p);
    var p' := if g.side.L? && ctx.side.R? then RotL(p) else if g.side.R? && ctx.side.L? then RotR(p) else p;
    RotationsInverse(Hang(g, p'));
  }

  lemma RecolouredOk(ctx: Ctx, t: Tree)
    requires t.Bin? && IsRedCtx(ctx) && !ctx.up.Top?
    requires IsRed(t) && Balanced(t) && NoRedRed(t) && CtxOk(ctx, BH(t)) && IsRed(ctx.up.sib)
    ensures var r := Recoloured(ctx, t);
      IsRed(r) && Balanced(r) && NoRedRed(r) && BH(r) == BH(t) + 1 && CtxOk(ctx.up.up, BH(r))
    ensures Entries(Recoloured(ctx, t)) == Entries(Hang(ctx.up, Hang(ctx, t)))
  {
  }

  lemma PaintPlug(ctx: Ctx, t: Tree)
    requires t.Bin?
    ensures Entries(Paint(Plug(ctx, t), Black)) == Before(ctx) + Entries(t) + After(ctx)
  {
    PlugEntries(ctx, t);
  }

  /** The loop of `insert_fixup` ends in a red-black tree with the entries it started from. */
  lemma {:induction false} FixupCorrect(ctx: Ctx, t: Tree)
    requires IsRed(t) && Balanced(t) && NoRedRed(t) && CtxOk(ctx, BH(t))
    ensures RedBlack(Fixup(ctx, t))
    ensures Entries(Fixup(ctx, t)) == Before(ctx) + Entries(t) + After(ctx)
    decreases ctx
  {
    if !IsRedCtx(ctx) {
      PaintPlug(ctx, t);
      if !ctx.Top? {
        PlugRedBlack(ctx, t);
        assert Paint(Plug(ctx, t), Black) == Plug(ctx, t) by { PlugIsBin(ctx, t); }
      }
    } else {
      PlugEntries(ctx, t);
      HangEntries(ctx, t);
      HangEntries(ctx.up, Hang(ctx, t));
      PlugEntries(ctx.up.up, Hang(ctx.up, Hang(ctx, t)));
      if IsRed(ctx.up.sib) {
        RecolouredOk(ctx, t);
        FixupCorrect(ctx.up.up, Recoloured(ctx, t));
      } else {
        RotatedOk(ctx, t);
        RotatedEntries(ctx, t);
        PlugRedBlack(ctx.up.up, Rotated(ctx, t));
        PaintPlug(ctx.up.up, Rotated(ctx, t));
        PlugIsBin(ctx.up.up, Rotated(ctx, t));
      }
    }
  }

  lemma {:induction false} PlugIsBin(ctx: Ctx, t: Tree)
    requires t.Bin?
    ensures Plug(ctx, t).Bin?
  {
    if !ctx.Top? {
      PlugIsBin(ctx.up, Hang(ctx, t));
    }
  }

  lemma AddBetween(a: seq<Entry>, e: Entry, b: seq<Entry>)
    ensures multiset(a + [e] + b) == multiset(a + b) + multiset{e}
  {
  }

  lemma EmptyEnds<T>(s: seq<T>, a: seq<T>, b: seq<T>)
    ensures [] + s + [] == s && a + [] + b == a + b
  {
  }

  /** The path of a key from the root, in the words of the program: it ends at the node with the key, or
      it ends at `nil` where the key belongs. */
  lemma Searched(t: Tree, key: int)
    requires SearchTree(t)
    ensures var (ctx, s) := Descend(t, key, Top);
      && Plug(ctx, s) == t
      && Below(Before(ctx), key) && Above(After(ctx), key)
      && (s.Bin? ==> s.k == key)
      && (s.Bin? <==> HasKey(Entries(t), key))
  {
    EmptyEnds(Entries(t), [], []);
    DescendFinds(t, key, Top);
  }

  /** An absent key splits the entries. */
  lemma AbsentSplits(t: Tree, key: int)
    requires Descend(t, key, Top).1.Tip? && Plug(Descend(t, key, Top).0, Tip) == t
    ensures var ctx := Descend(t, key, Top).0; Entries(t) == Before(ctx) + After(ctx)
  {
    var ctx := Descend(t, key, Top).0;
    PlugEntries(ctx, Tip);
    EmptyEnds([], Before(ctx), After(ctx));
  }

  /** What insertion of an absent key leaves: the new pair between the smaller and the larger ones. */
  lemma InsertedEntries(t: Tree, node: Node, key: int, value: int)
    requires RedBlack(t) && Descend(t, key, Top).1.Tip? && Plug(Descend(t, key, Top).0, Tip) == t
    ensures var t', ctx := InsertTree(t, node, key, value), Descend(t, key, Top).0;
      RedBlack(t') && Entries(t') == Before(ctx) + [(key, value)] + After(ctx)
  {
    var ctx := Descend(t, key, Top).0;
    UnplugRedBlack(ctx, Tip);
    FixupCorrect(ctx, Bin(node, Red, key, value, Tip, Tip));
    EmptyEnds([(key, value)], [], []);
  }

  /** Insertion keeps the search order and all colour rules, and adds exactly the new pair; a key already
      there leaves the tree as it is. */
  lemma InsertCorrect(t: Tree, node: Node, key: int, value: int)
    requires RedBlack(t) && SearchTree(t)
    ensures var t' := InsertTree(t, node, key, value);
      && RedBlack(t') && SearchTree(t')
      && (HasKey(Entries(t), key) ==> t' == t)
      && (!HasKey(Entries(t), key) ==> multiset(Entries(t')) == multiset(Entries(t)) + multiset{(key, value)})
  {
    Searched(t, key);
    var (ctx, s) := Descend(t, key, Top);
    if s.Tip? {
      AbsentSplits(t, key);
      InsertedEntries(t, node, key, value);
      SortedInsert(Before(ctx), (key, value), After(ctx));
      AddBetween(Before(ctx), (key, value), After(ctx));
    }
  }
}

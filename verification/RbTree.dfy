/** The red-black tree on values: shapes with colours, the paths the program walks up and down, and the
    colour-swapping rotations. The heap methods of RbHeap compute exactly the functions defined here. */
module RbTree {

  datatype Color = Red | Black

  /** A node of the program, linked by its fields. */
  class Node {
    var color: Color
    var left: Node?
    var right: Node?
    var parent: Node?
    var key: int
    var value: int

    constructor (key: int, value: int)
      ensures this.key == key && this.value == value && left == null && right == null && parent == null
    {
      this.color, this.left, this.right, this.parent := Red, null, null, null;
      this.key, this.value := key, value;
    }
  }

  /** A tree with the contents of its nodes; `Tip` stands for the sentinel `nil`. */
  datatype Tree = Tip | Bin(n: Node, c: Color, k: int, v: int, l: Tree, r: Tree)

  /** A path from a subtree up to the root: what is at and beside each node passed. */
  datatype Ctx = Top | Step(side: Side, n: Node, c: Color, k: int, v: int, sib: Tree, up: Ctx)

  /** Which child of the node passed the subtree is; `sib` is the other one. */
  datatype Side = L | R

  function Plug(ctx: Ctx, t: Tree): Tree {
    match ctx
    case Top => t
    case Step(L, n, c, k, v, sib, up) => Plug(up, Bin(n, c, k, v, t, sib))
    case Step(R, n, c, k, v, sib, up) => Plug(up, Bin(n, c, k, v, sib, t))
  }

  type Entry = (int, int)

  /** The key-value pairs in order. */
  function Entries(t: Tree): seq<Entry> {
    match t
    case Tip => []
    case Bin(n, c, k, v, l, r) => Entries(l) + [(k, v)] + Entries(r)
  }

  function Before(ctx: Ctx): seq<Entry> {
    match ctx
    case Top => []
    case Step(L, n, c, k, v, sib, up) => Before(up)
    case Step(R, n, c, k, v, sib, up) => Before(up) + Entries(sib) + [(k, v)]
  }

  function After(ctx: Ctx): seq<Entry> {
    match ctx
    case Top => []
    case Step(L, n, c, k, v, sib, up) => [(k, v)] + Entries(sib) + After(up)
    case Step(R, n, c, k, v, sib, up) => After(up)
  }

  lemma {:induction false} PlugEntries(ctx: Ctx, t: Tree)
    ensures Entries(Plug(ctx, t)) == Before(ctx) + Entries(t) + After(ctx)
  {
    match ctx
    case Top =>
    case Step(L, n, c, k, v, sib, up) =>
      PlugEntries(up, Bin(n, c, k, v, t, sib));
      PullRight(Before(up), Entries(t), [(k, v)], Entries(sib), After(up));
    case Step(R, n, c, k, v, sib, up) =>
      PlugEntries(up, Bin(n, c, k, v, sib, t));
      PullLeft(Before(up), Entries(sib), [(k, v)], Entries(t), After(up));
  }

  lemma PullRight<T>(a: seq<T>, l: seq<T>, m: seq<T>, r: seq<T>, b: seq<T>)
    ensures a + (l + m + r) + b == a + l + (m + r + b)
  {
  }

  lemma PullLeft<T>(a: seq<T>, l: seq<T>, m: seq<T>, r: seq<T>, b: seq<T>)
    ensures a + (l + m + r) + b == a + l + m + r + b
  {
  }

  ghost predicate Sorted(s: seq<Entry>) {
    forall i, j | 0 <= i < j < |s| :: s[i].0 < s[j].0
  }

  ghost predicate Below(s: seq<Entry>, key: int) {
    forall e | e in s :: e.0 < key
  }

  ghost predicate Above(s: seq<Entry>, key: int) {
    forall e | e in s :: e.0 > key
  }

  ghost predicate HasKey(s: seq<Entry>, key: int) {
    exists e :: e in s && e.0 == key
  }

  // ----- The red-black invariant

  predicate IsRed(t: Tree) {
    t.Bin? && t.c.Red?
  }

  function Weight(c: Color): nat {
    if c.Black? then 1 else 0
  }

  /** Black nodes on the leftmost path. */
  function BH(t: Tree): nat {
    if t.Tip? then 0 else Weight(t.c) + BH(t.l)
  }

  /** Equal black height on every path. */
  predicate Balanced(t: Tree) {
    t.Bin? ==> Balanced(t.l) && Balanced(t.r) && BH(t.l) == BH(t.r)
  }

  /** No red node has a red child. */
  predicate NoRedRed(t: Tree) {
    t.Bin? ==> NoRedRed(t.l) && NoRedRed(t.r) && (t.c.Red? ==> !IsRed(t.l) && !IsRed(t.r))
  }

  predicate RedBlack(t: Tree) {
    !IsRed(t) && Balanced(t) && NoRedRed(t)
  }

  ghost predicate SearchTree(t: Tree) {
    Sorted(Entries(t))
  }

  predicate IsRedCtx(ctx: Ctx) {
    !ctx.Top? && ctx.c.Red?
  }

  /** What surrounds a subtree of black height `h` in a red-black tree. */
  predicate CtxOk(ctx: Ctx, h: nat) {
    !ctx.Top? ==>
      && Balanced(ctx.sib) && NoRedRed(ctx.sib) && BH(ctx.sib) == h
      && (ctx.c.Red? ==> !IsRed(ctx.sib) && !IsRedCtx(ctx.up) && !ctx.up.Top?)
      && CtxOk(ctx.up, h + Weight(ctx.c))
  }

  lemma {:induction false} PlugRedBlack(ctx: Ctx, t: Tree)
    requires CtxOk(ctx, BH(t)) && Balanced(t) && NoRedRed(t)
    requires IsRed(t) ==> !IsRedCtx(ctx) && !ctx.Top?
    ensures RedBlack(Plug(ctx, t))
  {
    match ctx
    case Top =>
    case Step(L, n, c, k, v, sib, up) => PlugRedBlack(up, Bin(n, c, k, v, t, sib));
    case Step(R, n, c, k, v, sib, up) => PlugRedBlack(up, Bin(n, c, k, v, sib, t));
  }

  /** Conversely, a red-black tree gives its subtrees and their surroundings. */
  lemma {:induction false} UnplugRedBlack(ctx: Ctx, t: Tree)
    requires RedBlack(Plug(ctx, t))
    ensures Balanced(t) && NoRedRed(t) && CtxOk(ctx, BH(t))
    ensures IsRed(t) ==> !IsRedCtx(ctx) && !ctx.Top?
  {
    match ctx
    case Top =>
    case Step(L, n, c, k, v, sib, up) => UnplugRedBlack(up, Bin(n, c, k, v, t, sib));
    case Step(R, n, c, k, v, sib, up) => UnplugRedBlack(up, Bin(n, c, k, v, sib, t));
  }

  // ----- Rotations

  /** `left_rotate`: the right child comes up and the two nodes exchange their colours. */
  function RotL(t: Tree): Tree
    requires t.Bin? && t.r.Bin?
  {
    Bin(t.r.n, t.c, t.r.k, t.r.v, Bin(t.n, t.r.c, t.k, t.v, t.l, t.r.l), t.r.r)
  }

  /** `right_rotate`. */
  function RotR(t: Tree): Tree
    requires t.Bin? && t.l.Bin?
  {
    Bin(t.l.n, t.c, t.l.k, t.l.v, t.l.l, Bin(t.n, t.l.c, t.k, t.v, t.l.r, t.r))
  }

  lemma Regroup<T>(a: seq<T>, x: T, b: seq<T>, y: T, c: seq<T>)
    ensures (a + [x] + b) + [y] + c == a + [x] + (b + [y] + c)
  {
  }

  lemma Flatten<T>(a: seq<T>, l: seq<T>, x: T, r: seq<T>, b: seq<T>)
    ensures a + (l + [x] + r) + b == (a + l) + [x] + (r + b)
    ensures a + l + ([x] + r + b) == (a + l) + [x] + (r + b)
    ensures (a + l + [x]) + r + b == (a + l) + [x] + (r + b)
  {
  }

  /** A rotation is undone by the opposite one, colours included, and moves no entry. */
  lemma RotationsInverse(t: Tree)
    ensures t.Bin? && t.r.Bin? ==> RotR(RotL(t)) == t && Entries(RotL(t)) == Entries(t)
    ensures t.Bin? && t.l.Bin? ==> RotL(RotR(t)) == t && Entries(RotR(t)) == Entries(t)
  {
    if t.Bin? && t.r.Bin? {
      Regroup(Entries(t.l), (t.k, t.v), Entries(t.r.l), (t.r.k, t.r.v), Entries(t.r.r));
    }
    if t.Bin? && t.l.Bin? {
      Regroup(Entries(t.l.l), (t.l.k, t.l.v), Entries(t.l.r), (t.k, t.v), Entries(t.r));
    }
  }

  function Paint(t: Tree, c: Color): Tree {
    if t.Tip? then t else t.(c := c)
  }

  // ----- Search

  /** The path `rbtree_find` and `rbtree_insert` take for a key, and what is at its end. */
  function Descend(t: Tree, key: int, ctx: Ctx): (Ctx, Tree) {
    if t.Tip? || t.k == key then (ctx, t)
    else if key < t.k then Descend(t.l, key, Step(L, t.n, t.c, t.k, t.v, t.r, ctx))
    else Descend(t.r, key, Step(R, t.n, t.c, t.k, t.v, t.l, ctx))
  }

  /** The search ends in the same tree, at the node with the key if there is one, and otherwise where
      the key belongs. */
  lemma {:induction false} DescendFinds(t: Tree, key: int, ctx: Ctx)
    requires Sorted(Before(ctx) + Entries(t) + After(ctx)) && Below(Before(ctx), key) && Above(After(ctx), key)
    ensures var (c, s) := Descend(t, key, ctx);
      && Plug(c, s) == Plug(ctx, t)
      && Below(Before(c), key) && Above(After(c), key)
      && (s.Bin? ==> s.k == key)
      && (s.Bin? <==> HasKey(Entries(t), key))
  {
    if t.Tip? {
    } else if t.k == key {
      assert (t.k, t.v) in Entries(t);
    } else {
      var a, l, e, r, b := Before(ctx), Entries(t.l), (t.k, t.v), Entries(t.r), After(ctx);
      Flatten(a, l, e, r, b);
      SortedAround(a + l, e, r + b);
      if key < t.k {
        NoKey([e] + r, key);
        DescendFinds(t.l, key, Step(L, t.n, t.c, t.k, t.v, t.r, ctx));
      } else {
        NoKey(l + [e], key);
        DescendFinds(t.r, key, Step(R, t.n, t.c, t.k, t.v, t.l, ctx));
      }
    }
  }

  lemma NoKey(s: seq<Entry>, key: int)
    requires Below(s, key) || Above(s, key)
    ensures !HasKey(s, key)
  {
  }

  lemma SortedAround(a: seq<Entry>, e: Entry, b: seq<Entry>)
    requires Sorted(a + [e] + b)
    ensures Below(a, e.0) && Above(b, e.0) && Sorted(a + b) && Sorted(a) && Sorted(b)
  {
    var s := a + [e] + b;
    forall i | 0 <= i < |a|
      ensures a[i].0 < e.0
    {
      assert s[i] == a[i] && s[|a|] == e;
    }
    forall i | 0 <= i < |b|
      ensures b[i].0 > e.0
    {
      assert s[|a| + 1 + i] == b[i] && s[|a|] == e;
    }
    forall i, j | 0 <= i < j < |a + b|
      ensures (a + b)[i].0 < (a + b)[j].0
    {
      assert (a + b)[i] == s[if i < |a| then i else i + 1];
      assert (a + b)[j] == s[if j < |a| then j else j + 1];
    }
    assert a == (a + b)[..|a|] && b == (a + b)[|a|..];
  }

  /** An entry between smaller and larger ones. */
  lemma SortedInsert(a: seq<Entry>, e: Entry, b: seq<Entry>)
    requires Sorted(a + b) && Below(a, e.0) && Above(b, e.0)
    ensures Sorted(a + [e] + b)
  {
    var s := a + [e] + b;
    forall i, j | 0 <= i < j < |s|
      ensures s[i].0 < s[j].0
    {
      if i != |a| && j != |a| {
        assert s[i] == (a + b)[if i < |a| then i else i - 1];
        assert s[j] == (a + b)[if j < |a| then j else j - 1];
      } else if i == |a| {
        assert s[j] in b;
      } else {
        assert s[i] in a;
      }
    }
  }
}

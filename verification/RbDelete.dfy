/** Deletion from the red-black tree, on values, with the exact condition under which it is right. */
module RbDelete {
  import opened RbTree
  import opened RbInsert

  /** What `delete_fixup` leaves for a black node: the path of the node in the rearranged tree, or a tree
      whose root pointer was set to `nil`, or a dereference of a child of `nil`. */
  datatype Fix = Fixed(ctx: Ctx) | RootLost | Crash

  /** The path of a node after rotating at its parent, so that its brother comes above the parent. */
  function Lower(ctx: Ctx): Ctx
    requires !ctx.Top? && ctx.sib.Bin?
  {
    var b := ctx.sib;
    if ctx.side.L? then
      Step(L, ctx.n, b.c, ctx.k, ctx.v, b.l, Step(L, b.n, ctx.c, b.k, b.v, b.r, ctx.up))
    else
      Step(R, ctx.n, b.c, ctx.k, ctx.v, b.r, Step(R, b.n, ctx.c, b.k, b.v, b.l, ctx.up))
  }

  /** The brother's child away from the node, and the one next to it. */
  function Outer(ctx: Ctx): Tree
    requires !ctx.Top? && ctx.sib.Bin?
  {
    if ctx.side.L? then ctx.sib.r else ctx.sib.l
  }

  function Inner(ctx: Ctx): Tree
    requires !ctx.Top? && ctx.sib.Bin?
  {
    if ctx.side.L? then ctx.sib.l else ctx.sib.r
  }

  function PaintOuter(ctx: Ctx): Ctx
    requires !ctx.Top? && ctx.sib.Bin?
  {
    if ctx.side.L? then ctx.(sib := ctx.sib.(r := Paint(ctx.sib.r, Black)))
    else ctx.(sib := ctx.sib.(l := Paint(ctx.sib.l, Black)))
  }

  /** The inner nephew painted black and rotated above the brother. */
  function InnerUp(ctx: Ctx): Ctx
    requires !ctx.Top? && ctx.sib.Bin? && Inner(ctx).Bin?
  {
    if ctx.side.L? then ctx.(sib := RotR(ctx.sib.(l := Paint(ctx.sib.l, Black))))
    else ctx.(sib := RotL(ctx.sib.(r := Paint(ctx.sib.r, Black))))
  }

  /** The branch that gives the deficiency to the parent: black parent, black brother, no nephews. */
  predicate Climbs(ctx: Ctx) {
    && !ctx.Top? && ctx.c.Black?
    && ctx.sib.Bin? && ctx.sib.c.Black? && ctx.sib.l.Tip? && ctx.sib.r.Tip?
  }

  /** The branches for a black brother that end the loop. */
  function Settle(ctx: Ctx): Fix {
    if ctx.Top? || ctx.sib.Tip? || IsRed(ctx.sib) then Crash
    else if Outer(ctx).Bin? then Fixed(Lower(PaintOuter(ctx)))
    else if Inner(ctx).Bin? then Fixed(Lower(InnerUp(ctx)))
    else if ctx.c.Red? then Fixed(ctx.(c := ctx.sib.c, sib := Paint(ctx.sib, Red)))
    else Crash
  }

  /** `delete_fixup` for a black node with no child, or with two, at the end of the path. */
  function DeleteFix(ctx: Ctx): Fix
    decreases ctx
  {
    if ctx.Top? then RootLost
    else if ctx.sib.Tip? then Crash
    else if IsRed(ctx.sib) then Settle(Lower(ctx))
    else if Climbs(ctx) then
      match DeleteFix(ctx.up)
      case Fixed(up) => Fixed(ctx.(sib := Paint(ctx.sib, Red), up := up))
      case other => other
    else Settle(ctx)
  }

  /** Removal of a node with at most one child. */
  function Unlink(ctx: Ctx, s: Tree): Tree
    requires s.Bin? && (s.l.Tip? || s.r.Tip?)
  {
    if s.l.Bin? then Plug(ctx, Paint(s.l, Black))
    else if s.r.Bin? then Plug(ctx, Paint(s.r, Black))
    else if s.c.Red? then Plug(ctx, Tip)
    else
      match DeleteFix(ctx)
      case Fixed(c) => Plug(c, Tip)
      case _ => Tip
  }

  /** The path to the leftmost node of a tree. */
  function Leftmost(t: Tree, ctx: Ctx): (Ctx, Tree)
    requires t.Bin?
    ensures Leftmost(t, ctx).1.Bin? && Leftmost(t, ctx).1.l.Tip?
  {
    if t.l.Tip? then (ctx, t) else Leftmost(t.l, Step(L, t.n, t.c, t.k, t.v, t.r, ctx))
  }

  /** The node that is unlinked for the node found at `s`: itself, or its successor after the two have
      exchanged keys and values. */
  function Victim(ctx: Ctx, s: Tree): (Ctx, Tree)
    requires s.Bin?
    ensures var (c, x) := Victim(ctx, s); x.Bin? && (x.l.Tip? || x.r.Tip?)
  {
    if s.l.Tip? || s.r.Tip? then (ctx, s)
    else
      var next := Leftmost(s.r, Top).1;
      var (c, x) := Leftmost(s.r, Step(R, s.n, s.c, next.k, next.v, s.l, ctx));
      (c, x.(k := s.k, v := s.v))
  }

  /** The tree `rbtree_delete` leaves. */
  function DeleteTree(t: Tree, key: int): Tree {
    var (ctx, s) := Descend(t, key, Top);
    if s.Tip? then t
    else
      var (c, x) := Victim(ctx, s);
      Unlink(c, x)
  }

  // ----- When deletion is right

  /** One level up the program takes the outer nephew for red. */
  predicate OuterRed(ctx: Ctx) {
    && !ctx.Top? && ctx.sib.Bin?
    && if IsRed(ctx.sib) then Inner(ctx).Bin? && IsRed(Outer(Lower(ctx))) else IsRed(Outer(ctx))
  }

  /** What a caller can read off the tree: the node to be unlinked is red, or has a child, or is the root,
      or does not climb, or climbs to a parent that is not the root and whose outer nephew is red. */
  predicate Sound(ctx: Ctx, x: Tree)
    requires x.Bin?
  {
    IsRed(x) || x.l.Bin? || x.r.Bin? || !Climbs(ctx) || OuterRed(ctx.up)
  }

  predicate DeleteSound(t: Tree, key: int) {
    var (ctx, s) := Descend(t, key, Top);
    s.Bin? ==> var (c, x) := Victim(ctx, s); Sound(c, x)
  }

  // ----- Entries

  /** The entries before and after the hole are not touched by the rearrangement. */
  ghost predicate SameSides(a: Ctx, b: Ctx) {
    Before(a) == Before(b) && After(a) == After(b)
  }

  lemma LowerSides(ctx: Ctx)
    requires !ctx.Top? && ctx.sib.Bin?
    ensures SameSides(ctx, Lower(ctx))
  {
    var b := ctx.sib;
    if ctx.side.L? {
      Sides([(ctx.k, ctx.v)], Entries(b.l), (b.k, b.v), Entries(b.r), After(ctx.up));
    } else {
      Sides(Before(ctx.up), Entries(b.l), (b.k, b.v), Entries(b.r), [(ctx.k, ctx.v)]);
    }
  }

  lemma Sides<T>(a: seq<T>, l: seq<T>, x: T, r: seq<T>, b: seq<T>)
    ensures a + (l + [x] + r) + b == a + l + ([x] + r + b)
    ensures a + (l + [x] + r) + b == (a + l + [x]) + r + b
  {
  }

  lemma SettleSides(ctx: Ctx)
    ensures Settle(ctx).Fixed? ==> SameSides(ctx, Settle(ctx).ctx)
  {
    if Settle(ctx).Fixed? {
      if Outer(ctx).Bin? {
        assert SameSides(ctx, PaintOuter(ctx)) by { assert Entries(PaintOuter(ctx).sib) == Entries(ctx.sib); }
        LowerSides(PaintOuter(ctx));
      } else if Inner(ctx).Bin? {
        RotationsInverse(ctx.sib.(l := Paint(ctx.sib.l, Black)));
        RotationsInverse(ctx.sib.(r := Paint(ctx.sib.r, Black)));
        LowerSides(InnerUp(ctx));
      }
    }
  }

  lemma {:induction false} DeleteFixSides(ctx: Ctx)
    ensures DeleteFix(ctx).Fixed? ==> SameSides(ctx, DeleteFix(ctx).ctx)
    decreases ctx
  {
    if !ctx.Top? && ctx.sib.Bin? {
      LowerSides(ctx);
      SettleSides(ctx);
      SettleSides(Lower(ctx));
      if Climbs(ctx) {
        DeleteFixSides(ctx.up);
      }
    }
  }

  // ----- Colours

  /** With a red brother the rotation keeps everything and gives a black brother. */
  lemma LowerOk(ctx: Ctx, h: nat)
    requires !ctx.Top? && IsRed(ctx.sib) && CtxOk(ctx, h) && h > 0
    ensures CtxOk(Lower(ctx), h) && Lower(ctx).sib.Bin? && Lower(ctx).sib.c.Black?
  {
  }

  /** The branches that end the loop make good the missing black node, given red nephews. */
  lemma SettleOk(ctx: Ctx, h: nat)
    requires !ctx.Top? && ctx.sib.Bin? && !IsRed(ctx.sib) && CtxOk(ctx, h + 1)
    requires IsRed(Outer(ctx)) || (Outer(ctx).Tip? && (IsRed(Inner(ctx)) || (Inner(ctx).Tip? && ctx.c.Red?)))
    ensures Settle(ctx).Fixed? && CtxOk(Settle(ctx).ctx, h)
  {
    var o, i := Outer(ctx), Inner(ctx);
    assert Balanced(o) && NoRedRed(o) && BH(o) == h && Balanced(i) && NoRedRed(i) && BH(i) == h;
    if o.Bin? {
      assert BH(Paint(o, Black)) == h + 1 && RedBlack(Paint(o, Black));
    } else if i.Bin? {
      assert Balanced(i.l) && NoRedRed(i.l) && BH(i.l) == h && Balanced(i.r) && NoRedRed(i.r) && BH(i.r) == h;
    }
  }

  /** With a black outer nephew they leave one black node too few on its side. */
  lemma SettleWrong(ctx: Ctx, h: nat)
    requires !ctx.Top? && ctx.sib.Bin? && !IsRed(ctx.sib) && CtxOk(ctx, h + 1)
    requires Outer(ctx).Bin? && !IsRed(Outer(ctx))
    ensures Settle(ctx).Fixed? && !CtxOk(Settle(ctx).ctx, h)
  {
  }

  /** After climbing once: the missing black node is made good exactly if the outer nephew is red. */
  lemma UpperFix(ctx: Ctx)
    requires CtxOk(ctx, 2) && !ctx.Top?
    ensures DeleteFix(ctx).Fixed?
    ensures OuterRed(ctx) <==> CtxOk(DeleteFix(ctx).ctx, 1)
  {
    if IsRed(ctx.sib) {
      LowerOk(ctx, 2);
      if OuterRed(ctx) {
        SettleOk(Lower(ctx), 1);
      } else {
        SettleWrong(Lower(ctx), 1);
      }
    } else if OuterRed(ctx) {
      SettleOk(ctx, 1);
    } else {
      SettleWrong(ctx, 1);
    }
  }

  /** The whole repair for a black node without children that is not the root. */
  lemma LeafFix(ctx: Ctx)
    requires CtxOk(ctx, 1) && !ctx.Top?
    ensures !DeleteFix(ctx).Crash?
    ensures DeleteFix(ctx).RootLost? <==> Climbs(ctx) && ctx.up.Top?
    ensures DeleteFix(ctx).Fixed? ==> (CtxOk(DeleteFix(ctx).ctx, 0) <==> !Climbs(ctx) || OuterRed(ctx.up))
  {
    if IsRed(ctx.sib) {
      LowerOk(ctx, 1);
      SettleOk(Lower(ctx), 0);
    } else if Climbs(ctx) {
      if !ctx.up.Top? {
        UpperFix(ctx.up);
      }
    } else {
      SettleOk(ctx, 0);
    }
  }

  /** Unlinking keeps the red-black rules and drops just the node's own pair exactly if the move is sound. */
  lemma UnlinkIff(ctx: Ctx, x: Tree)
    requires x.Bin? && (x.l.Tip? || x.r.Tip?) && RedBlack(Plug(ctx, x))
    ensures var t' := Unlink(ctx, x);
      Sound(ctx, x) <==>
        RedBlack(t') && Entries(t') == Before(ctx) + (Entries(x.l) + Entries(x.r)) + After(ctx)
  {
    UnplugRedBlack(ctx, x);
    if x.l.Bin? || x.r.Bin? {
      var child := if x.l.Bin? then x.l else x.r;
      OnlyChild(x);
      PlugRedBlack(ctx, Paint(child, Black));
      PlugEntries(ctx, Paint(child, Black));
    } else if IsRed(x) {
      PlugRedBlack(ctx, Tip);
      PlugEntries(ctx, Tip);
    } else if ctx.Top? {
      assert Before(ctx) + (Entries(x.l) + Entries(x.r)) + After(ctx) == [];
    } else {
      BlackLeafIff(ctx);
    }
  }

  /** An only child is red and has no children. */
  lemma OnlyChild(x: Tree)
    requires x.Bin? && (x.l.Bin? <==> x.r.Tip?) && Balanced(x) && NoRedRed(x)
    ensures var child := if x.l.Bin? then x.l else x.r;
      x.c.Black? && child.c.Red? && child.l.Tip? && child.r.Tip?
      && Entries(x.l) + Entries(x.r) == Entries(Paint(child, Black))
  {
  }

  lemma BlackLeafIff(ctx: Ctx)
    requires !ctx.Top? && CtxOk(ctx, 1)
    ensures var f := DeleteFix(ctx);
      var t' := if f.Fixed? then Plug(f.ctx, Tip) else Tip;
      !Climbs(ctx) || OuterRed(ctx.up) <==> RedBlack(t') && Entries(t') == Before(ctx) + [] + After(ctx)
  {
    LeafFix(ctx);
    var f := DeleteFix(ctx);
    if f.Fixed? {
      DeleteFixSides(ctx);
      PlugEntries(f.ctx, Tip);
      if CtxOk(f.ctx, 0) {
        PlugRedBlack(f.ctx, Tip);
      } else if RedBlack(Plug(f.ctx, Tip)) {
        UnplugRedBlack(f.ctx, Tip);
      }
    } else {
      var e := (ctx.k, ctx.v);
      assert e in Before(ctx) + [] + After(ctx) by { assert e in Before(ctx) || e in After(ctx); }
    }
  }

  // ----- What an unsound deletion leaves

  /** The repair does not reach the root: only there is the root link lost. */
  predicate Keeps(ctx: Ctx, x: Tree)
    requires x.Bin?
  {
    IsRed(x) || x.l.Bin? || x.r.Bin? || !Climbs(ctx) || !ctx.up.Top?
  }

  predicate DeleteKeeps(t: Tree, key: int) {
    var (ctx, s) := Descend(t, key, Top);
    s.Bin? ==> var (c, x) := Victim(ctx, s); Keeps(c, x)
  }

  /** All paths have `h` black nodes but those through one subtree, which have one too few. */
  predicate Short(t: Tree, h: nat) {
    || (Balanced(t) && BH(t) + 1 == h)
    || (t.Bin? && h >= Weight(t.c) && Short(t.l, h - Weight(t.c)) && Balanced(t.r) && BH(t.r) == h - Weight(t.c))
    || (t.Bin? && h >= Weight(t.c) && Short(t.r, h - Weight(t.c)) && Balanced(t.l) && BH(t.l) == h - Weight(t.c))
  }

  /** A tree that keeps all red-black rules but the equal height, which it misses in one subtree. */
  ghost predicate OneShort(t: Tree) {
    !IsRed(t) && NoRedRed(t) && !Balanced(t) && exists h: nat :: Short(t, h)
  }

  lemma {:induction false} ShortPlug(ctx: Ctx, y: Tree, h: nat)
    requires CtxOk(ctx, h) && NoRedRed(y) && Short(y, h) && (IsRed(y) ==> !IsRedCtx(ctx) && !ctx.Top?)
    ensures var t := Plug(ctx, y);
      !IsRed(t) && NoRedRed(t) && exists h': nat :: Short(t, h')
    decreases ctx
  {
    if !ctx.Top? {
      HangEntries(ctx, y);
      assert Short(Hang(ctx, y), h + Weight(ctx.c));
      ShortPlug(ctx.up, Hang(ctx, y), h + Weight(ctx.c));
    }
  }

  lemma ShortHere(ctx: Ctx, y: Tree)
    requires !ctx.Top? && Balanced(y) && NoRedRed(y) && !IsRed(y) && CtxOk(ctx, BH(y) + 1)
    ensures OneShort(Plug(ctx, y))
  {
    ShortPlug(ctx, y, BH(y) + 1);
    if Balanced(Plug(ctx, y)) {
      UnplugRedBlack(ctx, y);
    }
  }

  /** The rotation under a black outer nephew leaves the side of that nephew short. */
  lemma ShortOutside(u: Ctx, t: Tree)
    requires !u.Top? && u.sib.Bin? && !IsRed(u.sib) && CtxOk(u, 2) && Outer(u).Bin? && !IsRed(Outer(u))
    requires Balanced(t) && NoRedRed(t) && BH(t) == 1
    ensures Settle(u).Fixed? && OneShort(Plug(Settle(u).ctx, t))
  {
    var b, o := u.sib, Outer(u);
    assert Paint(o, Black) == o;
    if u.side.L? {
      var low := Bin(u.n, Black, u.k, u.v, t, b.l);
      assert Plug(Settle(u).ctx, t) == Plug(Step(R, b.n, u.c, b.k, b.v, low, u.up), o);
      ShortHere(Step(R, b.n, u.c, b.k, b.v, low, u.up), o);
    } else {
      var low := Bin(u.n, Black, u.k, u.v, b.r, t);
      assert Plug(Settle(u).ctx, t) == Plug(Step(L, b.n, u.c, b.k, b.v, low, u.up), o);
      ShortHere(Step(L, b.n, u.c, b.k, b.v, low, u.up), o);
    }
  }

  lemma UpperShort(ctx: Ctx, t: Tree)
    requires CtxOk(ctx, 2) && !ctx.Top? && !OuterRed(ctx)
    requires Balanced(t) && NoRedRed(t) && BH(t) == 1
    ensures DeleteFix(ctx).Fixed? && OneShort(Plug(DeleteFix(ctx).ctx, t))
  {
    if IsRed(ctx.sib) {
      LowerOk(ctx, 2);
      ShortOutside(Lower(ctx), t);
    } else {
      ShortOutside(ctx, t);
    }
  }

  /** Of the entries only the node's own pair goes, exactly unless the root link is lost, and then all go;
      an unsound move that keeps them leaves one subtree a black node short. */
  lemma UnlinkLeaves(ctx: Ctx, x: Tree)
    requires x.Bin? && (x.l.Tip? || x.r.Tip?) && RedBlack(Plug(ctx, x))
    ensures var t' := Unlink(ctx, x);
      && (Keeps(ctx, x) <==> Entries(t') == Before(ctx) + (Entries(x.l) + Entries(x.r)) + After(ctx))
      && (!Keeps(ctx, x) ==> t' == Tip)
      && (Keeps(ctx, x) && !Sound(ctx, x) ==> OneShort(t'))
  {
    if Sound(ctx, x) {
      UnlinkIff(ctx, x);
      LostIsUnsound(ctx, x);
    } else {
      UnplugRedBlack(ctx, x);
      LeafFix(ctx);
      if Keeps(ctx, x) {
        ClimbKeeps(ctx);
      } else {
        var e := (ctx.k, ctx.v);
        assert e in Before(ctx) + ([] + []) + After(ctx) by { assert e in Before(ctx) || e in After(ctx); }
      }
    }
  }

  lemma LostIsUnsound(ctx: Ctx, x: Tree)
    requires x.Bin? && Sound(ctx, x)
    ensures Keeps(ctx, x)
  {
  }

  lemma ClimbKeeps(ctx: Ctx)
    requires Climbs(ctx) && !ctx.up.Top? && CtxOk(ctx, 1) && !OuterRed(ctx.up)
    ensures DeleteFix(ctx).Fixed?
    ensures Entries(Plug(DeleteFix(ctx).ctx, Tip)) == Before(ctx) + ([] + []) + After(ctx)
    ensures OneShort(Plug(DeleteFix(ctx).ctx, Tip))
  {
    var hung := Hang(ctx.(sib := Paint(ctx.sib, Red)), Tip);
    UpperShort(ctx.up, hung);
    HangEntries(DeleteFix(ctx).ctx, Tip);
    DeleteFixSides(ctx);
    PlugEntries(DeleteFix(ctx).ctx, Tip);
  }

  // ----- The successor exchange

  lemma {:induction false} LeftmostSame(t: Tree, ctx: Ctx, ctx': Ctx)
    requires t.Bin?
    ensures Leftmost(t, ctx).1 == Leftmost(t, ctx').1
    decreases t
  {
    if t.l.Bin? {
      LeftmostSame(t.l, Step(L, t.n, t.c, t.k, t.v, t.r, ctx), Step(L, t.n, t.c, t.k, t.v, t.r, ctx'));
    }
  }

  /** The leftmost node is reached without passing an entry. */
  lemma {:induction false} LeftmostSides(t: Tree, ctx: Ctx)
    requires t.Bin?
    ensures var (c, x) := Leftmost(t, ctx);
      && Plug(c, x) == Plug(ctx, t)
      && Before(c) == Before(ctx)
      && [(x.k, x.v)] + (Entries(x.r) + After(c)) == Entries(t) + After(ctx)
    decreases t
  {
    if t.l.Bin? {
      LeftmostSides(t.l, Step(L, t.n, t.c, t.k, t.v, t.r, ctx));
    }
  }

  /** After the exchange the node to unlink stands where the same entries less the deleted one remain. */
  lemma VictimOk(ctx: Ctx, s: Tree)
    requires s.Bin? && RedBlack(Plug(ctx, s))
    ensures var (c, x) := Victim(ctx, s);
      && RedBlack(Plug(c, x))
      && Before(c) + (Entries(x.l) + Entries(x.r)) + After(c)
           == Before(ctx) + (Entries(s.l) + Entries(s.r)) + After(ctx)
  {
    if s.l.Bin? && s.r.Bin? {
      var next := Leftmost(s.r, Top).1;
      var down := Step(R, s.n, s.c, next.k, next.v, s.l, ctx);
      LeftmostSame(s.r, Top, down);
      LeftmostSides(s.r, down);
      UnplugRedBlack(ctx, s);
      PlugRedBlack(down, s.r);
      var (c, x) := Leftmost(s.r, down);
      UnplugRedBlack(c, x);
      PlugRedBlack(c, x.(k := s.k, v := s.v));
      Exchange(Before(ctx), Entries(s.l), (next.k, next.v), Entries(x.r), After(c), Entries(s.r), After(ctx));
    }
  }

  lemma Exchange<T>(a: seq<T>, l: seq<T>, e: T, rest: seq<T>, b': seq<T>, r: seq<T>, b: seq<T>)
    requires [e] + (rest + b') == r + b
    ensures (a + l + [e]) + ([] + rest) + b' == a + (l + r) + b
  {
    calc {
      (a + l + [e]) + ([] + rest) + b';
      a + l + ([e] + (rest + b'));
      a + l + (r + b);
      a + (l + r) + b;
    }
  }

  // ----- Deletion

  /** The entries without those of one key. */
  function Without(s: seq<Entry>, key: int): seq<Entry> {
    if s == [] then []
    else if s[0].0 == key then Without(s[1..], key)
    else [s[0]] + Without(s[1..], key)
  }

  lemma {:induction false} WithoutNone(s: seq<Entry>, key: int)
    requires Below(s, key) || Above(s, key)
    ensures Without(s, key) == s
  {
    if s != [] {
      assert s[0] in s;
      WithoutNone(s[1..], key);
    }
  }

  lemma {:induction false} WithoutOne(a: seq<Entry>, e: Entry, b: seq<Entry>)
    requires Below(a, e.0) && Above(b, e.0)
    ensures Without(a + [e] + b, e.0) == a + b
  {
    var s := a + [e] + b;
    if a == [] {
      assert s[1..] == b;
      WithoutNone(b, e.0);
    } else {
      assert a[0] in a && s[0] == a[0] && s[1..] == a[1..] + [e] + b;
      WithoutOne(a[1..], e, b);
      assert a + b == [a[0]] + (a[1..] + b);
    }
  }

  lemma DropOne(a: seq<Entry>, l: seq<Entry>, e: Entry, r: seq<Entry>, b: seq<Entry>)
    requires Sorted(a + (l + [e] + r) + b)
    ensures Without(a + (l + [e] + r) + b, e.0) == a + (l + r) + b && Sorted(a + (l + r) + b)
  {
    Flatten(a, l, e, r, b);
    SortedAround(a + l, e, r + b);
    WithoutOne(a + l, e, r + b);
    Rejoin(a, l, r, b);
  }

  lemma Rejoin<T>(a: seq<T>, l: seq<T>, r: seq<T>, b: seq<T>)
    ensures (a + l) + (r + b) == a + (l + r) + b
  {
  }

  /** The entries around a found node, and what is left of them without it. */
  lemma FoundSplits(t: Tree, key: int)
    requires SearchTree(t) && HasKey(Entries(t), key)
    ensures var (ctx, s) := Descend(t, key, Top);
      && s.Bin? && Plug(ctx, s) == t
      && Before(ctx) + (Entries(s.l) + Entries(s.r)) + After(ctx) == Without(Entries(t), key)
      && Sorted(Without(Entries(t), key))
  {
    Searched(t, key);
    var (ctx, s) := Descend(t, key, Top);
    PlugEntries(ctx, s);
    DropOne(Before(ctx), Entries(s.l), (s.k, s.v), Entries(s.r), After(ctx));
  }

  /** Deleting a key that is there removes exactly its pair and keeps the red-black rules and the search
      order if and only if the move is sound: it does not climb, or it climbs to a parent that is not the
      root and whose outer nephew is red. An absent key changes nothing. */
  lemma DeleteCorrectIff(t: Tree, key: int)
    requires RedBlack(t) && SearchTree(t)
    ensures !HasKey(Entries(t), key) ==> DeleteTree(t, key) == t && DeleteSound(t, key)
    ensures HasKey(Entries(t), key) ==>
      (DeleteSound(t, key) <==>
        var t' := DeleteTree(t, key);
        RedBlack(t') && SearchTree(t') && Entries(t') == Without(Entries(t), key))
  {
    Searched(t, key);
    var (ctx, s) := Descend(t, key, Top);
    if s.Bin? {
      FoundSplits(t, key);
      VictimOk(ctx, s);
      var (c, x) := Victim(ctx, s);
      UnlinkIff(c, x);
    }
  }

  /** What a deletion leaves in any case: of a present key exactly its pair is gone if and only if the repair
      does not climb to the root; if it does, nothing is left. An unsound deletion that keeps the other
      entries keeps their order, and leaves one subtree a black node short. */
  lemma DeleteLeaves(t: Tree, key: int)
    requires RedBlack(t) && SearchTree(t) && HasKey(Entries(t), key)
    ensures var t' := DeleteTree(t, key);
      && (Entries(t') == Without(Entries(t), key) <==> DeleteKeeps(t, key))
      && (!DeleteKeeps(t, key) ==> t' == Tip)
      && SearchTree(t')
      && (DeleteKeeps(t, key) && !DeleteSound(t, key) ==> OneShort(t'))
  {
    Searched(t, key);
    var (ctx, s) := Descend(t, key, Top);
    FoundSplits(t, key);
    VictimOk(ctx, s);
    var (c, x) := Victim(ctx, s);
    UnlinkLeaves(c, x);
  }

  /** The smallest failure: three black nodes; deleting a leaf loses the whole tree. */
  lemma DeleteLosesTree(n: Node)
    ensures var t := Bin(n, Black, 2, 0, Bin(n, Black, 1, 0, Tip, Tip), Bin(n, Black, 3, 0, Tip, Tip));
      RedBlack(t) && SearchTree(t) && !DeleteSound(t, 1) && DeleteTree(t, 1) == Tip
  {
    var l, r := Bin(n, Black, 1, 0, Tip, Tip), Bin(n, Black, 3, 0, Tip, Tip);
    var t, ctx := Bin(n, Black, 2, 0, l, r), Step(L, n, Black, 2, 0, r, Top);
    LeafEntries(n, Black, 1, 0);
    LeafEntries(n, Black, 3, 0);
    assert Entries(t) == Entries(l) + [(2, 0)] + Entries(r);
    assert [(1, 0)] + [(2, 0)] + [(3, 0)] == [(1, 0), (2, 0), (3, 0)];
    assert Descend(t, 1, Top) == (ctx, l);
    assert DeleteFix(ctx.up) == RootLost;
  }

  lemma LeafEntries(n: Node, c: Color, k: int, v: int)
    ensures Entries(Bin(n, c, k, v, Tip, Tip)) == [(k, v)]
  {
    assert Entries(Tip) == [];
  }

  // ----- Height and search

  function Max(a: nat, b: nat): nat {
    if a < b then b else a
  }

  function Height(t: Tree): nat {
    if t.Tip? then 0 else 1 + Max(Height(t.l), Height(t.r))
  }

  function Pow2(n: nat): nat {
    if n == 0 then 1 else 2 * Pow2(n - 1)
  }

  lemma Twice(x: nat, y: nat)
    ensures 2 * (x * y) == (2 * x) * y
  {
  }

  lemma {:induction false} Pow2Add(a: nat, b: nat)
    ensures Pow2(a + b) == Pow2(a) * Pow2(b)
  {
    if a > 0 {
      Pow2Add(a - 1, b);
      Twice(Pow2(a - 1), Pow2(b));
    }
  }

  lemma {:induction false} Pow2Monotone(a: nat, b: nat)
    requires a <= b
    ensures Pow2(a) <= Pow2(b)
    decreases b - a
  {
    if a < b {
      Pow2Monotone(a + 1, b);
    }
  }

  /** A subtree is at most twice as high as its black height, one more below a red root. */
  lemma {:induction false} HeightByBlack(t: Tree)
    requires Balanced(t) && NoRedRed(t)
    ensures Height(t) <= 2 * BH(t) + if IsRed(t) then 1 else 0
  {
    if t.Bin? {
      HeightByBlack(t.l);
      HeightByBlack(t.r);
    }
  }

  lemma {:induction false} SizeByBlack(t: Tree)
    requires Balanced(t)
    ensures Pow2(BH(t)) <= |Entries(t)| + 1
  {
    if t.Bin? {
      SizeByBlack(t.l);
      SizeByBlack(t.r);
    }
  }

  /** Logarithmic height: 2^height is at most the square of one more than the number of keys. */
  lemma HeightBound(t: Tree)
    requires RedBlack(t)
    ensures Pow2(Height(t)) <= (|Entries(t)| + 1) * (|Entries(t)| + 1)
  {
    HeightByBlack(t);
    SizeByBlack(t);
    Pow2Monotone(Height(t), BH(t) + BH(t));
    Pow2Add(BH(t), BH(t));
    SquareMonotone(Pow2(BH(t)), |Entries(t)| + 1);
  }

  lemma SquareMonotone(b: nat, m: nat)
    requires b <= m
    ensures b * b <= m * m
  {
    assert b * b <= b * m <= m * m;
  }
}

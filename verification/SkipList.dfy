/** The skip list: nodes with towers of links, one list per level, found by walking from the top level down. */
module SkipList {
  import opened Arith

  const LEVEL_MAX := 32

  type U64 = n: nat | n < WORD

  /** `struct skpnode_s`: `next` is the tower of links. */
  class Node {
    const timestamp: U64
    const height: nat
    var next: seq<Node?>

    constructor (timestamp: U64, height: nat)
      ensures this.timestamp == timestamp && this.height == height
      ensures next == seq(height, _ => null)
    {
      this.timestamp, this.height, next := timestamp, height, seq(height, _ => null);
    }
  }

  // ----- Levels as values: the nodes in order, the head first, and their towers

  /** The position of the next node whose tower reaches level `i`, or the number of nodes. */
  ghost function NextPos(all: seq<Node>, p: nat, i: nat): (q: nat)
    requires p < |all|
    ensures p < q <= |all| && (q < |all| ==> all[q].height > i)
    ensures forall r | p < r < q :: all[r].height <= i
    decreases |all| - p
  {
    if p + 1 == |all| || all[p + 1].height > i then p + 1 else NextPos(all, p + 1, i)
  }

  lemma NextPosIs(all: seq<Node>, p: nat, i: nat, q: nat)
    requires p < q <= |all| && (q < |all| ==> all[q].height > i)
    requires forall r | p < r < q :: all[r].height <= i
    ensures NextPos(all, p, i) == q
  {
    var n := NextPos(all, p, i);
  }

  ghost function Target(all: seq<Node>, q: nat): Node? {
    if q < |all| then all[q] else null
  }

  /** On level `i` every node that reaches it is linked to the next one that does. */
  ghost predicate LevelOk(all: seq<Node>, towers: seq<seq<Node?>>, i: nat) {
    && |towers| == |all|
    && forall q | 0 <= q < |all| && all[q].height > i ::
         |towers[q]| > i && towers[q][i] == Target(all, NextPos(all, q, i))
  }

  /** `more` is `all` with `n` inserted at position `w`. */
  ghost predicate InsertedAt(all: seq<Node>, more: seq<Node>, w: nat, n: Node) {
    && 0 < w <= |all| && |more| == |all| + 1 && more[w] == n
    && (forall k | 0 <= k < w :: more[k] == all[k])
    && (forall k | w <= k < |all| :: more[k + 1] == all[k])
  }

  ghost function Insertion(all: seq<Node>, w: nat, n: Node): (more: seq<Node>)
    requires 0 < w <= |all|
    ensures InsertedAt(all, more, w, n)
  {
    all[..w] + [n] + all[w..]
  }

  ghost function Deletion(all: seq<Node>, x: nat): (less: seq<Node>)
    requires 0 < x < |all|
    ensures InsertedAt(less, all, x, all[x])
  {
    all[..x] + all[x + 1..]
  }

  /** What an insertion does to the next positions: behind it they shift, ... */
  lemma NextBehind(all: seq<Node>, more: seq<Node>, w: nat, n: Node, q: nat, i: nat)
    requires InsertedAt(all, more, w, n) && w <= q < |all|
    ensures NextPos(more, q + 1, i) == NextPos(all, q, i) + 1
  {
    var r := NextPos(all, q, i);
    forall k | q + 1 < k < r + 1
      ensures more[k].height <= i
    {
      assert more[k] == all[k - 1];
    }
    NextPosIs(more, q + 1, i, r + 1);
  }

  /** ... before it they stay, unless they lead across it, ... */
  lemma NextBefore(all: seq<Node>, more: seq<Node>, w: nat, n: Node, q: nat, i: nat)
    requires InsertedAt(all, more, w, n) && q < w && NextPos(all, q, i) < w
    ensures NextPos(more, q, i) == NextPos(all, q, i)
  {
    NextPosIs(more, q, i, NextPos(all, q, i));
  }

  /** ... in which case the new node steps in between if it is tall enough. */
  lemma NextAcross(all: seq<Node>, more: seq<Node>, w: nat, n: Node, q: nat, i: nat)
    requires InsertedAt(all, more, w, n) && q < w <= NextPos(all, q, i)
    ensures NextPos(more, w, i) == NextPos(all, q, i) + 1
    ensures NextPos(more, q, i) == if n.height > i then w else NextPos(all, q, i) + 1
  {
    var r := NextPos(all, q, i);
    forall k | w < k < r + 1
      ensures more[k].height <= i
    {
      assert more[k] == all[k - 1];
    }
    NextPosIs(more, w, i, r + 1);
    NextPosIs(more, q, i, if n.height > i then w else r + 1);
  }

  /** All cases together: where a link leads after the insertion. */
  lemma TargetMoves(all: seq<Node>, more: seq<Node>, w: nat, n: Node, q: nat, i: nat)
    requires InsertedAt(all, more, w, n) && q < |all|
    ensures Target(more, NextPos(more, Shift(q, w), i)) ==
      if q < w <= NextPos(all, q, i) && n.height > i then n else Target(all, NextPos(all, q, i))
    ensures q < w <= NextPos(all, q, i) ==> Target(more, NextPos(more, w, i)) == Target(all, NextPos(all, q, i))
  {
    if q >= w {
      NextBehind(all, more, w, n, q, i);
    } else if NextPos(all, q, i) < w {
      NextBefore(all, more, w, n, q, i);
    } else {
      NextAcross(all, more, w, n, q, i);
    }
  }

  /** Where position `q` is after an insertion at `w`. */
  function Shift(q: nat, w: nat): nat {
    if q < w then q else q + 1
  }

  /** Only one node of a level has its link across a given position. */
  lemma OneAcross(all: seq<Node>, w: nat, p: nat, q: nat, i: nat)
    requires p < w <= |all| && q < |all| && all[p].height > i && all[q].height > i
    requires w <= NextPos(all, p, i) && q != p
    ensures !(q < w <= NextPos(all, q, i))
  {
  }

  /** Level `i` as it is to be after the insertion, seen from the nodes there are. */
  ghost predicate LevelNew(all: seq<Node>, more: seq<Node>, towers: seq<seq<Node?>>, w: nat, i: nat)
    requires |more| == |all| + 1
  {
    && |towers| == |all|
    && forall q | 0 <= q < |all| && all[q].height > i ::
         |towers[q]| > i && towers[q][i] == Target(more, NextPos(more, Shift(q, w), i))
  }

  /** The links of the other nodes already lead where they have to. */
  lemma OtherLinks(all: seq<Node>, more: seq<Node>, w: nat, n: Node, i: nat, p: nat, q: nat)
    requires InsertedAt(all, more, w, n) && p < w <= NextPos(all, p, i) && all[p].height > i
    requires q < |all| && all[q].height > i && q != p
    ensures Target(all, NextPos(all, q, i)) == Target(more, NextPos(more, Shift(q, w), i))
  {
    TargetMoves(all, more, w, n, q, i);
    OneAcross(all, w, p, q, i);
  }

  /** Linking the new node behind its predecessor on level `i`. */
  lemma LinkLevel(all: seq<Node>, more: seq<Node>, towers: seq<seq<Node?>>, w: nat, n: Node, i: nat, p: nat)
    requires InsertedAt(all, more, w, n) && LevelOk(all, towers, i) && n.height > i
    requires p < w <= NextPos(all, p, i) && all[p].height > i
    ensures LevelNew(all, more, Relinked(towers, p, i, n), w, i)
    ensures towers[p][i] == Target(more, NextPos(more, w, i))
  {
    TargetMoves(all, more, w, n, p, i);
    var towers' := Relinked(towers, p, i, n);
    forall q | 0 <= q < |all| && all[q].height > i
      ensures |towers'[q]| > i && towers'[q][i] == Target(more, NextPos(more, Shift(q, w), i))
    {
      if q != p {
        OtherLinks(all, more, w, n, i, p, q);
      }
    }
  }

  /** A level the new node does not reach. */
  lemma SkipLevel(all: seq<Node>, more: seq<Node>, towers: seq<seq<Node?>>, w: nat, n: Node, i: nat)
    requires InsertedAt(all, more, w, n) && LevelOk(all, towers, i) && n.height <= i
    ensures LevelNew(all, more, towers, w, i)
  {
    forall q | 0 <= q < |all| && all[q].height > i
      ensures towers[q][i] == Target(more, NextPos(more, Shift(q, w), i))
    {
      TargetMoves(all, more, w, n, q, i);
    }
  }

  /** With its own tower the new node joins the list. */
  lemma LevelJoin(all: seq<Node>, more: seq<Node>, towers: seq<seq<Node?>>, w: nat, n: Node, tower: seq<Node?>, i: nat)
    requires InsertedAt(all, more, w, n) && LevelNew(all, more, towers, w, i)
    requires n.height > i ==> |tower| > i && tower[i] == Target(more, NextPos(more, w, i))
    ensures LevelOk(more, With(towers, w, tower), i)
  {
    forall q | 0 <= q < |more| && more[q].height > i
      ensures |With(towers, w, tower)[q]| > i && With(towers, w, tower)[q][i] == Target(more, NextPos(more, q, i))
    {
      WithAt(towers, w, tower, q);
      if q != w {
        assert more[q] == all[Unshift(q, w)];
      }
    }
  }

  /** Where a position other than `w` was before an insertion at `w`. */
  function Unshift(q: nat, w: nat): (p: nat)
    requires q != w
    ensures Shift(p, w) == q
  {
    if q < w then q else q - 1
  }

  lemma WithAt(towers: seq<seq<Node?>>, w: nat, tower: seq<Node?>, q: nat)
    requires w <= |towers| && q <= |towers|
    ensures With(towers, w, tower)[q] == if q == w then tower else towers[Unshift(q, w)]
  {
  }

  // ----- Half-way states: the levels from `i` on are done, those below are as they were

  ghost predicate InsertingAt(all: seq<Node>, more: seq<Node>, towers: seq<seq<Node?>>, w: nat, tower: seq<Node?>,
                              i: nat, j: nat)
    requires |more| == |all| + 1 && w < |more|
  {
    if j < i then LevelOk(all, towers, j)
    else LevelNew(all, more, towers, w, j) && (j < |tower| ==> tower[j] == Target(more, NextPos(more, w, j)))
  }

  ghost predicate Inserting(all: seq<Node>, more: seq<Node>, towers: seq<seq<Node?>>, w: nat, tower: seq<Node?>, i: nat)
    requires |more| == |all| + 1 && w < |more|
  {
    forall j | 0 <= j < LEVEL_MAX :: InsertingAt(all, more, towers, w, tower, i, j)
  }

  /** The towers after a link `v` was set on level `i` of the node at `p`. */
  ghost function Relinked(towers: seq<seq<Node?>>, p: nat, i: nat, v: Node?): seq<seq<Node?>>
    requires p < |towers| && i < |towers[p]|
  {
    towers[p := towers[p][i := v]]
  }

  /** A link on one level does not concern the others. */
  lemma OtherLevel(all: seq<Node>, towers: seq<seq<Node?>>, p: nat, i: nat, v: Node?, j: nat)
    requires p < |towers| && i < |towers[p]| && i != j
    ensures LevelOk(all, towers, j) ==> LevelOk(all, Relinked(towers, p, i, v), j)
    ensures var after := Relinked(towers, p, i, v);
      |after| == |towers|
      && forall q | 0 <= q < |towers| :: |after[q]| == |towers[q]| && (j < |towers[q]| ==> after[q][j] == towers[q][j])
  {
    var after := Relinked(towers, p, i, v);
    assert forall q | 0 <= q < |towers| ::
      |after[q]| == |towers[q]| && (j < |towers[q]| ==> after[q][j] == towers[q][j]);
  }

  lemma InsertStep(all: seq<Node>, more: seq<Node>, towers: seq<seq<Node?>>, w: nat, n: Node, tower: seq<Node?>,
                   i: nat, above: nat, p: nat)
    requires InsertedAt(all, more, w, n) && |tower| == n.height > i && above == i + 1 <= LEVEL_MAX
    requires Inserting(all, more, towers, w, tower, above) && p < |towers| && |towers[p]| > i
    requires p < w <= NextPos(all, p, i) && all[p].height > i
    ensures Inserting(all, more, Relinked(towers, p, i, n), w, tower[i := towers[p][i]], i)
  {
    var towers', tower' := Relinked(towers, p, i, n), tower[i := towers[p][i]];
    forall j | 0 <= j < LEVEL_MAX
      ensures InsertingAt(all, more, towers', w, tower', i, j)
    {
      assert InsertingAt(all, more, towers, w, tower, above, j);
      if j == i {
        LinkLevel(all, more, towers, w, n, i, p);
      } else {
        OtherLevel(all, towers, p, i, n, j);
      }
    }
  }

  /** A level the new node does not reach, done without a change. */
  lemma InsertPass(all: seq<Node>, more: seq<Node>, towers: seq<seq<Node?>>, w: nat, n: Node, tower: seq<Node?>,
                   i: nat, above: nat)
    requires InsertedAt(all, more, w, n) && |tower| == n.height <= i && above == i + 1 <= LEVEL_MAX
    requires Inserting(all, more, towers, w, tower, above)
    ensures Inserting(all, more, towers, w, tower, i)
  {
    forall j | 0 <= j < LEVEL_MAX
      ensures InsertingAt(all, more, towers, w, tower, i, j)
    {
      assert InsertingAt(all, more, towers, w, tower, above, j);
      if j == i {
        SkipLevel(all, more, towers, w, n, i);
      }
    }
  }

  /** Levels above all towers need no work. */
  lemma InsertStart(all: seq<Node>, more: seq<Node>, towers: seq<seq<Node?>>, w: nat, n: Node, tower: seq<Node?>,
                    level: nat)
    requires InsertedAt(all, more, w, n) && |tower| == n.height <= level <= LEVEL_MAX
    requires forall j | 0 <= j < LEVEL_MAX :: LevelOk(all, towers, j)
    ensures Inserting(all, more, towers, w, tower, level)
  {
    forall j | 0 <= j < LEVEL_MAX
      ensures InsertingAt(all, more, towers, w, tower, level, j)
    {
      if j >= level {
        SkipLevel(all, more, towers, w, n, j);
      }
    }
  }

  /** The towers with that of the new node. */
  ghost function With(towers: seq<seq<Node?>>, w: nat, tower: seq<Node?>): seq<seq<Node?>>
    requires w <= |towers|
  {
    towers[..w] + [tower] + towers[w..]
  }

  lemma InsertEnd(all: seq<Node>, more: seq<Node>, towers: seq<seq<Node?>>, w: nat, n: Node, tower: seq<Node?>, i: nat)
    requires i == 0 && InsertedAt(all, more, w, n) && |towers| == |all| && |tower| == n.height
    requires Inserting(all, more, towers, w, tower, i)
    ensures forall j | 0 <= j < LEVEL_MAX :: LevelOk(more, With(towers, w, tower), j)
  {
    var towers' := With(towers, w, tower);
    forall j | 0 <= j < LEVEL_MAX
      ensures LevelOk(more, towers', j)
    {
      assert InsertingAt(all, more, towers, w, tower, i, j);
      LevelJoin(all, more, towers, w, n, tower, j);
    }
  }

  // ----- Order

  ghost predicate Sorted(all: seq<Node>) {
    forall q, r | 0 < q < r < |all| :: all[q].timestamp <= all[r].timestamp
  }

  ghost predicate Distinct(all: seq<Node>) {
    forall q, r | 0 <= q < r < |all| :: all[q] != all[r]
  }

  /** The first position behind the head whose timestamp is not below the key. */
  ghost function Place(all: seq<Node>, key: nat): (w: nat)
    requires |all| > 0 && Sorted(all)
    ensures 0 < w <= |all|
    ensures forall q | 0 < q < w :: all[q].timestamp < key
    ensures forall q | w <= q < |all| :: all[q].timestamp >= key
  {
    PlaceFrom(all, key, 1)
  }

  lemma PlaceIs(all: seq<Node>, key: nat, w: nat)
    requires Sorted(all) && 0 < w <= |all|
    requires (w > 1 ==> all[w - 1].timestamp < key) && (w < |all| ==> all[w].timestamp >= key)
    ensures Place(all, key) == w
  {
  }

  ghost function PlaceFrom(all: seq<Node>, key: nat, k: nat): (w: nat)
    requires 0 < k <= |all|
    ensures k <= w <= |all| && (w < |all| ==> all[w].timestamp >= key)
    ensures forall q | k <= q < w :: all[q].timestamp < key
    decreases |all| - k
  {
    if k == |all| || all[k].timestamp >= key then k else PlaceFrom(all, key, k + 1)
  }

  /** The nodes behind position `p` whose towers reach level `i`. */
  ghost function Tall(all: seq<Node>, p: nat, i: nat): seq<Node>
    requires p < |all|
    decreases |all| - p
  {
    if p + 1 == |all| then [] else (if all[p + 1].height > i then [all[p + 1]] else []) + Tall(all, p + 1, i)
  }

  /** The first of them is the next node of the level. */
  lemma {:induction false} TallFrom(all: seq<Node>, p: nat, i: nat)
    requires p < |all|
    ensures NextPos(all, p, i) == |all| ==> Tall(all, p, i) == []
    ensures NextPos(all, p, i) < |all| ==>
      Tall(all, p, i) == [all[NextPos(all, p, i)]] + Tall(all, NextPos(all, p, i), i)
    decreases |all| - p
  {
    if p + 1 < |all| && all[p + 1].height <= i {
      TallFrom(all, p + 1, i);
      assert Tall(all, p, i) == Tall(all, p + 1, i);
    }
  }

  lemma MoveOver(nodes: seq<Node>, rest: seq<Node>)
    requires rest != []
    ensures (nodes + [rest[0]]) + rest[1..] == nodes + rest
  {
  }

  /** A node at or above the key reaches the top level in use. */
  ghost predicate Reaches(all: seq<Node>, level: nat, key: nat) {
    exists q :: 0 < q < |all| && all[q].timestamp >= key && all[q].height >= level
  }

  ghost predicate Present(all: seq<Node>, key: nat) {
    exists q :: 0 < q < |all| && all[q].timestamp == key
  }

  /** On level 0 the walk stops right before the first node at or above the key. */
  lemma Bottom(all: seq<Node>, key: nat, p: nat)
    requires |all| > 0 && Sorted(all) && p < Place(all, key) <= NextPos(all, p, 0)
    requires forall q | 0 < q < |all| :: all[q].height > 0
    ensures p + 1 == Place(all, key) == NextPos(all, p, 0)
    ensures Present(all, key) <==> Place(all, key) < |all| && all[Place(all, key)].timestamp == key
  {
    assert p + 1 < |all| ==> all[p + 1].height > 0;
    if q :| 0 < q < |all| && all[q].timestamp == key {
      assert all[Place(all, key)].timestamp <= all[q].timestamp;
    }
  }

  /** What a search does: the list is not tested for its end before its next timestamp is read. */
  datatype Search = Found | Missing | NullRead

  // ----- Removal

  /** Converting a timestamp to `int` and comparing it with unsigned 64-bit numbers: the low 32 bits, with
      their sign extended. */
  function IntKey(ts: U64): (key: U64)
    ensures key % 0x1_0000_0000 == ts % 0x1_0000_0000 && (key < 0x8000_0000 || key >= WORD - 0x8000_0000)
    ensures key == ts <==> ts < 0x8000_0000 || ts >= WORD - 0x8000_0000
  {
    var low := ts % 0x1_0000_0000;
    if low < 0x8000_0000 then low else WORD - 0x1_0000_0000 + low
  }

  /** The key leads to the node at `x`: it is its timestamp, and no node before it has the same. */
  ghost predicate Aimed(all: seq<Node>, x: nat, key: nat)
    requires x < |all|
  {
    all[x].timestamp == key && forall q | 0 < q < x :: all[q].timestamp < key
  }

  /** A node with the key has a tower of at least the given height. */
  ghost predicate Clash(all: seq<Node>, height: nat, key: nat) {
    exists q :: 0 < q < |all| && all[q].timestamp == key && all[q].height >= height
  }

  /** For a node's own timestamp that is so if it fits an `int`, and the node is the first with it. */
  lemma AimedMeans(all: seq<Node>, x: nat)
    requires 0 < x < |all| && Sorted(all)
    ensures Aimed(all, x, IntKey(all[x].timestamp)) <==>
      && (all[x].timestamp < 0x8000_0000 || all[x].timestamp >= WORD - 0x8000_0000)
      && forall q | 0 < q < x :: all[q].timestamp != all[x].timestamp
  {
    assert IntKey(all[x].timestamp) == all[x].timestamp ==>
      forall q | 0 < q < x :: all[q].timestamp <= all[x].timestamp;
  }

  lemma AimedIsPlace(all: seq<Node>, x: nat, key: nat)
    requires Sorted(all) && 0 < x < |all|
    ensures Aimed(all, x, key) <==> x == Place(all, key) && all[x].timestamp == key
  {
  }

  /** What the walk along level `i` finds when it stops behind `r`. */
  lemma Look(all: seq<Node>, key: nat, i: nat, r: nat)
    requires |all| > 0 && Sorted(all) && r < Place(all, key) <= NextPos(all, r, i)
    ensures NextPos(all, r, i) < |all| <==> Reaches(all, i + 1, key)
    ensures NextPos(all, r, i) < |all| && all[NextPos(all, r, i)].timestamp == key <==> Clash(all, i + 1, key)
  {
    var m := NextPos(all, r, i);
    if q :| 0 < q < |all| && all[q].timestamp == key && all[q].height >= i + 1 {
      assert m <= q;
      assert m == q || all[m].timestamp <= all[q].timestamp;
    }
  }

  // ----- Levels after a removal, whatever its key leads to

  /** Where the link of the node at `q` leads on level `i`: a link to the first node with the key, from
      before it, is replaced by that of the node at `x`. */
  ghost function CutTarget(all: seq<Node>, key: nat, x: nat, q: nat, i: nat): Node?
    requires |all| > 0 && Sorted(all) && x < |all| && q < |all|
  {
    var m := NextPos(all, q, i);
    if q < Place(all, key) <= m < |all| && all[m].timestamp == key then Target(all, NextPos(all, x, i))
    else Target(all, m)
  }

  ghost predicate LevelCut(all: seq<Node>, towers: seq<seq<Node?>>, key: nat, x: nat, i: nat)
    requires |all| > 0 && Sorted(all) && x < |all|
  {
    && |towers| == |all|
    && forall q | 0 <= q < |all| && all[q].height > i :: |towers[q]| > i && towers[q][i] == CutTarget(all, key, x, q, i)
  }

  /** The assignment on a level whose walk stops before a node with the key, ... */
  lemma CutOne(all: seq<Node>, towers: seq<seq<Node?>>, key: nat, x: nat, i: nat, p: nat)
    requires |all| > 0 && Sorted(all) && LevelOk(all, towers, i) && x < |all| && all[x].height > i
    requires p < Place(all, key) <= NextPos(all, p, i) < |all| && all[p].height > i
    requires all[NextPos(all, p, i)].timestamp == key
    ensures LevelCut(all, Relinked(towers, p, i, towers[x][i]), key, x, i)
  {
    forall q | 0 <= q < |all| && all[q].height > i && q != p
      ensures |towers[q]| > i && towers[q][i] == CutTarget(all, key, x, q, i)
    {
      OneAcross(all, Place(all, key), p, q, i);
    }
  }

  /** ... and a level whose walk stops elsewhere. */
  lemma CutNone(all: seq<Node>, towers: seq<seq<Node?>>, key: nat, x: nat, i: nat, p: nat)
    requires |all| > 0 && Sorted(all) && LevelOk(all, towers, i) && x < |all|
    requires p < Place(all, key) <= NextPos(all, p, i) && all[p].height > i
    requires NextPos(all, p, i) < |all| ==> all[NextPos(all, p, i)].timestamp != key
    ensures LevelCut(all, towers, key, x, i)
  {
    forall q | 0 <= q < |all| && all[q].height > i
      ensures towers[q][i] == CutTarget(all, key, x, q, i)
    {
      if q != p {
        OneAcross(all, Place(all, key), p, q, i);
      }
    }
  }

  /** The levels from `i` on are done, those below are as they were. */
  ghost predicate CuttingAt(all: seq<Node>, towers: seq<seq<Node?>>, key: nat, x: nat, i: nat, j: nat)
    requires |all| > 0 && Sorted(all) && x < |all|
  {
    if j < i then LevelOk(all, towers, j) else LevelCut(all, towers, key, x, j)
  }

  ghost predicate Cutting(all: seq<Node>, towers: seq<seq<Node?>>, key: nat, x: nat, i: nat)
    requires |all| > 0 && Sorted(all) && x < |all|
  {
    forall j | 0 <= j < LEVEL_MAX :: CuttingAt(all, towers, key, x, i, j)
  }

  lemma CutStep(all: seq<Node>, towers: seq<seq<Node?>>, key: nat, x: nat, i: nat, above: nat, p: nat)
    requires |all| > 0 && Sorted(all) && x < |all| && all[x].height > i && above == i + 1 <= LEVEL_MAX
    requires Cutting(all, towers, key, x, above) && |towers| == |all| && |towers[x]| > i && p < |all| && |towers[p]| > i
    requires p < Place(all, key) <= NextPos(all, p, i) < |all| && all[p].height > i
    requires all[NextPos(all, p, i)].timestamp == key
    ensures Cutting(all, Relinked(towers, p, i, towers[x][i]), key, x, i)
  {
    var v := towers[x][i];
    var towers' := Relinked(towers, p, i, v);
    forall j | 0 <= j < LEVEL_MAX
      ensures CuttingAt(all, towers', key, x, i, j)
    {
      assert CuttingAt(all, towers, key, x, above, j);
      if j == i {
        CutOne(all, towers, key, x, i, p);
      } else {
        OtherLevel(all, towers, p, i, v, j);
      }
    }
  }

  lemma CutPass(all: seq<Node>, towers: seq<seq<Node?>>, key: nat, x: nat, i: nat, above: nat, p: nat)
    requires |all| > 0 && Sorted(all) && x < |all| && above == i + 1 <= LEVEL_MAX && Cutting(all, towers, key, x, above)
    requires p < Place(all, key) <= NextPos(all, p, i) && all[p].height > i
    requires NextPos(all, p, i) < |all| ==> all[NextPos(all, p, i)].timestamp != key
    ensures Cutting(all, towers, key, x, i)
  {
    forall j | 0 <= j < LEVEL_MAX
      ensures CuttingAt(all, towers, key, x, i, j)
    {
      assert CuttingAt(all, towers, key, x, above, j);
      if j == i {
        CutNone(all, towers, key, x, i, p);
      }
    }
  }

  /** Levels above all towers need no work. */
  lemma CutStart(all: seq<Node>, towers: seq<seq<Node?>>, key: nat, x: nat, level: nat)
    requires |all| > 0 && Sorted(all) && x < |all| && forall q | 0 < q < |all| :: all[q].height <= level
    requires all[0].height == LEVEL_MAX && forall j | 0 <= j < LEVEL_MAX :: LevelOk(all, towers, j)
    ensures Cutting(all, towers, key, x, level)
  {
    forall j | 0 <= j < LEVEL_MAX
      ensures CuttingAt(all, towers, key, x, level, j)
    {
      if j >= level {
        NextPosIs(all, 0, j, |all|);
        CutNone(all, towers, key, x, j, 0);
      }
    }
  }

  lemma CutEnd(all: seq<Node>, towers: seq<seq<Node?>>, key: nat, x: nat, i: nat)
    requires i == 0 && |all| > 0 && Sorted(all) && x < |all| && Cutting(all, towers, key, x, i)
    ensures forall j | 0 <= j < LEVEL_MAX :: LevelCut(all, towers, key, x, j)
  {
    forall j | 0 <= j < LEVEL_MAX
      ensures LevelCut(all, towers, key, x, j)
    {
      assert CuttingAt(all, towers, key, x, i, j);
    }
  }

  // ----- A removal whose key leads to its node

  /** Level `i` as it is to be without the node at `x`, seen from the nodes there were. */
  ghost predicate LevelGone(less: seq<Node>, towers: seq<seq<Node?>>, x: nat, i: nat) {
    && |towers| == |less| + 1
    && forall q | 0 <= q < |less| && less[q].height > i ::
         |towers[Shift(q, x)]| > i && towers[Shift(q, x)][i] == Target(less, NextPos(less, q, i))
  }

  ghost function Without(towers: seq<seq<Node?>>, x: nat): seq<seq<Node?>>
    requires x < |towers|
  {
    towers[..x] + towers[x + 1..]
  }

  lemma LevelLeave(less: seq<Node>, towers: seq<seq<Node?>>, x: nat, i: nat)
    requires LevelGone(less, towers, x, i) && x <= |less|
    ensures LevelOk(less, Without(towers, x), i)
  {
    var after := Without(towers, x);
    assert forall q | 0 <= q < |less| :: after[q] == towers[Shift(q, x)];
  }

  /** Then the link replaced on a level is the one to the node, which leaves the level of the shorter
      list. */
  lemma CutLevel(less: seq<Node>, all: seq<Node>, towers: seq<seq<Node?>>, x: nat, n: Node, i: nat, key: nat)
    requires InsertedAt(less, all, x, n) && Sorted(all) && Aimed(all, x, key) && !Clash(all, n.height + 1, key)
    requires LevelCut(all, towers, key, x, i)
    ensures LevelGone(less, towers, x, i)
  {
    AimedIsPlace(all, x, key);
    forall q | 0 <= q < |less| && less[q].height > i
      ensures |towers[Shift(q, x)]| > i && towers[Shift(q, x)][i] == Target(less, NextPos(less, q, i))
    {
      assert all[Shift(q, x)] == less[q];
      CutLink(less, all, x, n, i, key, q);
    }
  }

  lemma CutLink(less: seq<Node>, all: seq<Node>, x: nat, n: Node, i: nat, key: nat, q: nat)
    requires InsertedAt(less, all, x, n) && Sorted(all) && x == Place(all, key) && n.timestamp == key && q < |less|
    requires !Clash(all, n.height + 1, key)
    ensures CutTarget(all, key, x, Shift(q, x), i) == Target(less, NextPos(less, q, i))
  {
    TargetMoves(less, all, x, n, q, i);
    var m := NextPos(all, Shift(q, x), i);
    if q < x <= m {
      if n.height > i {
        NextPosIs(all, q, i, x);
        MoveBack(less, all, x, n, q, i);
      } else {
        assert m < |all| ==> all[m].height >= n.height + 1;
      }
    } else if q < x {
      MoveBack(less, all, x, n, q, i);
    }
  }

  /** A link across the node in the longer list is one across its place in the shorter one. */
  lemma MoveBack(less: seq<Node>, all: seq<Node>, x: nat, n: Node, q: nat, i: nat)
    requires InsertedAt(less, all, x, n) && q < x
    ensures x <= NextPos(all, q, i) <==> x <= NextPos(less, q, i)
  {
    assert forall k | 0 <= k < x :: all[k] == less[k];
    var r, m := NextPos(less, q, i), NextPos(all, q, i);
    if r < x {
      NextPosIs(all, q, i, r);
    }
    if m < x {
      NextPosIs(less, q, i, m);
    }
  }

  // ----- A removal whose key leads elsewhere

  /** If no node has the key, no link changes. */
  lemma CutNothing(all: seq<Node>, towers: seq<seq<Node?>>, key: nat, x: nat, i: nat)
    requires |all| > 0 && Sorted(all) && x < |all| && !Present(all, key) && LevelCut(all, towers, key, x, i)
    ensures LevelOk(all, towers, i)
  {
    forall q | 0 <= q < |all| && all[q].height > i
      ensures CutTarget(all, key, x, q, i) == Target(all, NextPos(all, q, i))
    {
    }
  }

  /** On level 0 the link behind the last smaller node leads to what follows the node at `x`; all other
      links are as they were. */
  lemma CutBottom(all: seq<Node>, key: nat, x: nat, q: nat)
    requires |all| > 0 && Sorted(all) && 0 < x < |all| && q < |all| && Present(all, key)
    requires forall k | 0 < k < |all| :: all[k].height > 0
    ensures CutTarget(all, key, x, q, 0) == Target(all, if q == Place(all, key) - 1 then x + 1 else q + 1)
  {
    NextPosIs(all, q, 0, q + 1);
    NextPosIs(all, x, 0, x + 1);
    var k :| 0 < k < |all| && all[k].timestamp == key;
    assert all[Place(all, key)].timestamp <= all[k].timestamp;
  }

  /** How a removal ends: with the node freed, by reading through a null link, or by reading a link the
      node's tower does not have. */
  datatype Removal = Removed | NullLink | NoTower

  /** What a removal meets on level `i` for a node of the given height. */
  ghost function OnLevel(all: seq<Node>, i: nat, height: nat, key: nat): Removal {
    if !Reaches(all, i + 1, key) then NullLink else if i >= height && Clash(all, i + 1, key) then NoTower else Removed
  }

  // ----- The list

  class List {
    const head: Node
    var level: nat
    var length: nat
    ghost var all: seq<Node>             // the head and the nodes in the order of level 0
    ghost var towers: seq<seq<Node?>>    // their links

    ghost predicate Seen()
      reads this`all, this`towers, all
    {
      |towers| == |all| && forall q | 0 <= q < |all| :: all[q].next == towers[q] && |towers[q]| == all[q].height
    }

    ghost predicate Shaped()
      reads this`all, this`level
    {
      && |all| > 0 && all[0] == head && Sorted(all) && Distinct(all) && level <= LEVEL_MAX && head.height == LEVEL_MAX
      && forall q | 0 < q < |all| :: 0 < all[q].height <= level
    }

    ghost predicate Valid()
      reads this, all
    {
      Seen() && Shaped() && length == |all| - 1 && forall i | 0 <= i < LEVEL_MAX :: LevelOk(all, towers, i)
    }

    /** `skplist_create`. */
    constructor ()
      ensures Valid() && length == 0 && level == 0 && all == [head] && fresh(head)
    {
      var h := new Node(0, LEVEL_MAX);
      head, level, length := h, 0, 0;
      all, towers := [h], [seq(LEVEL_MAX, _ => null)];
    }

    /** Following one link, which is in the tower of its node. */
    method Next(cur: Node, i: nat, ghost p: nat) returns (n: Node?)
      requires Seen() && LevelOk(all, towers, i) && p < |all| && all[p] == cur && cur.height > i
      ensures |cur.next| > i && n == cur.next[i] == Target(all, NextPos(all, p, i))
    {
      assert all[p].next == towers[p];
      n := cur.next[i];
    }

    /** The inner loop of all three operations: along level `i` while the next timestamp is below the key. */
    method Walk(cur: Node, i: nat, key: U64, ghost p: nat) returns (c: Node, n: Node?, ghost r: nat)
      requires Seen() && |all| > 0 && Sorted(all) && LevelOk(all, towers, i)
      requires p < Place(all, key) && all[p] == cur && cur.height > i
      ensures p <= r < Place(all, key) <= NextPos(all, r, i) && c == all[r] && c.height > i
      ensures |c.next| > i && n == c.next[i] == Target(all, NextPos(all, r, i))
    {
      c, r := cur, p;
      n := Next(c, i, r);
      while n != null && n.timestamp < key
        invariant p <= r < Place(all, key) && c == all[r] && c.height > i
        invariant |c.next| > i && n == c.next[i] == Target(all, NextPos(all, r, i))
        decreases |all| - r
      {
        r := NextPos(all, r, i);
        c := n;
        n := Next(c, i, r);
      }
    }

    /** Links `v` behind a node on level `i`. */
    method LinkAt(cur: Node, i: nat, v: Node?, ghost r: nat)
      requires Seen() && Distinct(all) && r < |all| && all[r] == cur && i < cur.height
      modifies cur`next, this`towers
      ensures Seen() && towers == Relinked(old(towers), r, i, v)
    {
      cur.next := cur.next[i := v];
      towers := towers[r := towers[r][i := v]];
    }

    /** One level of `skplist_insert`: if the node's tower reaches it, the node is linked behind the last
        one with a smaller timestamp. */
    method LinkLevelOf(node: Node, cur: Node, i: nat, ghost above: nat, ghost more: seq<Node>, ghost w: nat,
                       ghost p: nat)
        returns (c: Node, ghost r: nat)
      requires Seen() && |all| > 0 && Sorted(all) && Distinct(all) && node !in all
      requires w == Place(all, node.timestamp) && InsertedAt(all, more, w, node)
      requires |node.next| == node.height && above == i + 1 <= LEVEL_MAX
      requires Inserting(all, more, towers, w, node.next, above)
      requires p < w && all[p] == cur && cur.height > i
      modifies this`towers, all`next, node`next
      ensures Seen() && |node.next| == node.height && Inserting(all, more, towers, w, node.next, i)
      ensures r < w && all[r] == c && c.height > i
    {
      assert InsertingAt(all, more, towers, w, node.next, above, i);
      var n;
      c, n, r := Walk(cur, i, node.timestamp, p);
      if i < node.height {
        InsertStep(all, more, towers, w, node, node.next, i, above, r);
        node.next := node.next[i := n];
        LinkAt(c, i, node, r);
      } else {
        InsertPass(all, more, towers, w, node, node.next, i, above);
      }
    }

    /** The loop of `skplist_insert` over the levels. */
    method LinkNode(node: Node, ghost more: seq<Node>, ghost w: nat)
      requires Seen() && Shaped() && node !in all && w == Place(all, node.timestamp) && InsertedAt(all, more, w, node)
      requires |node.next| == node.height <= level && forall j | 0 <= j < LEVEL_MAX :: LevelOk(all, towers, j)
      modifies this`towers, all`next, node`next
      ensures Seen() && |node.next| == node.height
      ensures forall j | 0 <= j < LEVEL_MAX :: LevelOk(more, With(towers, w, node.next), j)
    {
      var i := level;
      var cur := head;
      ghost var p: nat := 0;
      InsertStart(all, more, towers, w, node, node.next, level);
      while i > 0
        invariant 0 <= i <= level && Seen() && |node.next| == node.height
        invariant Inserting(all, more, towers, w, node.next, i)
        invariant p < w && all[p] == cur && cur.height >= i
      {
        ghost var above := i;
        i := i - 1;
        cur, p := LinkLevelOf(node, cur, i, above, more, w, p);
      }
      InsertEnd(all, more, towers, w, node, node.next, i);
    }

    /** The new node, linked on all its levels, becomes one of the list's. */
    ghost method Adopt(node: Node, more: seq<Node>, w: nat)
      requires Seen() && Shaped() && node !in all && InsertedAt(all, more, w, node) && w == Place(all, node.timestamp)
      requires |node.next| == node.height && 0 < node.height <= level
      requires forall j | 0 <= j < LEVEL_MAX :: LevelOk(more, With(towers, w, node.next), j)
      modifies this`all, this`towers
      ensures Seen() && Shaped() && all == more && forall j | 0 <= j < LEVEL_MAX :: LevelOk(all, towers, j)
    {
      ghost var was, linked := all, towers;
      all, towers := more, With(towers, w, node.next);
      InsertShape(was, more, w, node, level);
      InsertDistinct(was, more, w, node);
      Joined(was, linked, node, w);
    }

    lemma Joined(was: seq<Node>, linked: seq<seq<Node?>>, node: Node, w: nat)
      requires |linked| == |was|
      requires forall q | 0 <= q < |was| :: was[q].next == linked[q] && |linked[q]| == was[q].height
      requires InsertedAt(was, all, w, node) && towers == With(linked, w, node.next) && |node.next| == node.height
      ensures Seen()
    {
      forall q | 0 <= q < |all|
        ensures all[q].next == towers[q] && |towers[q]| == all[q].height
      {
        assert q < w ==> all[q] == was[q] && towers[q] == linked[q];
        assert q > w ==> all[q] == was[q - 1] && towers[q] == linked[q - 1];
      }
    }

    /** `skplist_insert`, the random height given: the new node stands before the nodes with the same
        timestamp and behind all with a smaller one. */
    method Insert(ts: U64, height: nat) returns (node: Node)
      requires Valid() && 0 < height <= LEVEL_MAX
      modifies this, all
      ensures Valid() && fresh(node) && node.timestamp == ts && node.height == height
      ensures InsertedAt(old(all), all, old(Place(all, ts)), node)
      ensures length == old(length) + 1 && level == if height > old(level) then height else old(level)
    {
      level := if height > level then height else level;
      node := new Node(ts, height);
      Enter(node);
      length := length + 1;
    }

    /** Its loop: the new node enters the list on all its levels. */
    method Enter(node: Node)
      requires Seen() && Shaped() && node !in all && |node.next| == node.height && 0 < node.height <= level
      requires forall j | 0 <= j < LEVEL_MAX :: LevelOk(all, towers, j)
      modifies this`all, this`towers, all`next, node`next
      ensures Seen() && Shaped() && InsertedAt(old(all), all, old(Place(all, node.timestamp)), node)
      ensures forall j | 0 <= j < LEVEL_MAX :: LevelOk(all, towers, j)
    {
      ghost var w := Place(all, node.timestamp);
      ghost var more := Insertion(all, w, node);
      LinkNode(node, more, w);
      Adopt(node, more, w);
    }

    /** The walk of `skplist_print` along one level: exactly the nodes whose towers reach it, in order. */
    method NodesOf(i: nat) returns (nodes: seq<Node>)
      requires Valid() && i < LEVEL_MAX
      ensures nodes == Tall(all, 0, i)
    {
      assert LevelOk(all, towers, i);
      nodes := Collect(head, i);
    }

    method Collect(first: Node, i: nat) returns (nodes: seq<Node>)
      requires Seen() && |all| > 0 && all[0] == first && first.height > i && LevelOk(all, towers, i)
      ensures nodes == Tall(all, 0, i)
    {
      nodes := [];
      ghost var p: nat, rest := 0, Tall(all, 0, i);
      var cur := Next(first, i, p);
      while cur != null
        invariant p < |all| && all[p].height > i && cur == Target(all, NextPos(all, p, i))
        invariant rest == Tall(all, p, i) && nodes + rest == Tall(all, 0, i)
        decreases |all| - p
      {
        TallFrom(all, p, i);
        p := NextPos(all, p, i);
        var node: Node := cur;
        assert rest[0] == node && rest[1..] == Tall(all, p, i);
        MoveOver(nodes, rest);
        nodes, rest := nodes + [node], rest[1..];
        cur := Next(node, i, p);
      }
      TallFrom(all, p, i);
    }

    /** `skplist_find`: it reads through a null link exactly if no node of full height is at or above the
        key; otherwise it tells whether the key is there. */
    method Find(ts: U64) returns (r: Search)
      requires Valid()
      ensures r == NullRead <==> length > 0 && !Reaches(all, level, ts)
      ensures r == Found <==> length > 0 && Reaches(all, level, ts) && Present(all, ts)
    {
      if length == 0 {
        return Missing;
      }
      assert all[1].height > 0;
      var i := level;
      var cur := head;
      ghost var p: nat := 0;
      while i > 0
        invariant 0 <= i <= level && p < Place(all, ts) && all[p] == cur && cur.height >= i
        invariant i < level ==> Reaches(all, level, ts)
        invariant i == 0 ==> !Present(all, ts)
      {
        ghost var above := i;
        i := i - 1;
        assert LevelOk(all, towers, i);
        var n;
        cur, n, p := Walk(cur, i, ts, p);
        Look(all, ts, i, p);
        if n == null {
          return NullRead;
        }
        if n.timestamp == ts {
          return Found;
        }
        if i == 0 {
          Bottom(all, ts, p);
        }
      }
      return Missing;
    }

    /** The walk of `skplist_remove` along one level, and what it reads there. */
    method Probe(node: Node, cur: Node, i: nat, key: U64, ghost p: nat)
      returns (s: Removal, found: bool, c: Node, ghost r: nat)
      requires Seen() && |all| > 0 && Sorted(all) && LevelOk(all, towers, i)
      requires p < Place(all, key) && all[p] == cur && cur.height > i
      ensures r < Place(all, key) <= NextPos(all, r, i) && all[r] == c && c.height > i
      ensures found <==> NextPos(all, r, i) < |all| && all[NextPos(all, r, i)].timestamp == key
      ensures s == OnLevel(all, i, node.height, key)
      ensures s == Removed && found ==> i < node.height
    {
      var n;
      c, n, r := Walk(cur, i, key, p);
      Look(all, key, i, r);
      found := n != null && n.timestamp == key;
      s := if n == null then NullLink else if found && i >= node.height then NoTower else Removed;
    }

    /** One level of `skplist_remove`: what comes first at or above the key is read, and if it has the key,
        the link to it is replaced by the link of the node to remove. */
    method CutAt(node: Node, cur: Node, i: nat, key: U64, ghost above: nat, ghost x: nat, ghost p: nat)
        returns (s: Removal, c: Node, ghost r: nat)
      requires Seen() && 0 < x < |all| && Sorted(all) && Distinct(all) && all[x] == node && above == i + 1 <= LEVEL_MAX
      requires p < Place(all, key) && all[p] == cur && cur.height > i && Cutting(all, towers, key, x, above)
      modifies this`towers, all`next
      ensures Seen() && r < Place(all, key) && all[r] == c && c.height > i
      ensures s == OnLevel(all, i, node.height, key)
      ensures if s == Removed then Cutting(all, towers, key, x, i) else towers == old(towers)
    {
      assert CuttingAt(all, towers, key, x, above, i);
      var found;
      s, found, c, r := Probe(node, cur, i, key, p);
      if s == Removed {
        CutLink(node, c, found, i, key, above, x, r);
      }
    }

    /** The assignment of `skplist_remove`, if the timestamps match. */
    method CutLink(node: Node, c: Node, found: bool, i: nat, key: U64, ghost above: nat, ghost x: nat, ghost r: nat)
      requires Seen() && 0 < x < |all| && Sorted(all) && Distinct(all) && all[x] == node && above == i + 1 <= LEVEL_MAX
      requires r < Place(all, key) <= NextPos(all, r, i) && all[r] == c && c.height > i && (found ==> i < node.height)
      requires found <==> NextPos(all, r, i) < |all| && all[NextPos(all, r, i)].timestamp == key
      requires Cutting(all, towers, key, x, above)
      modifies this`towers, all`next
      ensures Seen() && Cutting(all, towers, key, x, i)
    {
      if found {
        CutStep(all, towers, key, x, i, above, r);
        LinkAt(c, i, node.next[i], r);
      } else {
        CutPass(all, towers, key, x, i, above, r);
      }
    }

    /** The loop of `skplist_remove` over the levels: a null link can only be read on the first. */
    method CutLevels(node: Node, key: U64, ghost x: nat) returns (s: Removal)
      requires Seen() && Shaped() && 0 < x < |all| && all[x] == node
      requires forall j | 0 <= j < LEVEL_MAX :: LevelOk(all, towers, j)
      modifies this`towers, all`next
      ensures Seen()
      ensures s == NullLink <==> !Reaches(all, level, key)
      ensures s == NoTower <==> Reaches(all, level, key) && Clash(all, node.height + 1, key)
      ensures s == Removed ==> forall j | 0 <= j < LEVEL_MAX :: LevelCut(all, towers, key, x, j)
      ensures s == NullLink ==> towers == old(towers)
      ensures s == NoTower ==> exists i :: node.height < i <= level && Cutting(all, towers, key, x, i)
    {
      CutStart(all, towers, key, x, level);
      var i := level;
      var cur := head;
      ghost var p: nat := 0;
      while i > 0
        invariant 0 <= i <= level && Seen() && p < Place(all, key) && all[p] == cur && cur.height >= i
        invariant Cutting(all, towers, key, x, i)
        invariant if i < level then Reaches(all, level, key) else towers == old(towers)
        invariant NoClash(all, i, node.height, key)
      {
        ghost var above := i;
        i := i - 1;
        s, cur, p := CutAt(node, cur, i, key, above, x, p);
        Levels(all, level, i, node.height, key);
        if s != Removed {
          return;
        }
      }
      CutEnd(all, towers, key, x, i);
      s := Removed;
    }

    /** The node, unlinked on all its levels, is no longer one of the list's. */
    ghost method Drop(node: Node, less: seq<Node>, x: nat)
      requires Seen() && Shaped() && InsertedAt(less, all, x, node) && 0 < x
      requires forall j | 0 <= j < LEVEL_MAX :: LevelOk(less, Without(towers, x), j)
      modifies this`all, this`towers
      ensures Seen() && Shaped() && all == less && node !in all
      ensures forall j | 0 <= j < LEVEL_MAX :: LevelOk(all, towers, j)
    {
      ghost var was, linked := all, towers;
      all, towers := less, Without(towers, x);
      RemoveShape(less, was, x, node, level);
      forall q | 0 <= q < |less|
        ensures less[q].next == towers[q] && |towers[q]| == less[q].height
      {
        assert less[q] == was[Shift(q, x)] && towers[q] == linked[Shift(q, x)];
      }
    }

    /** `skplist_remove`. Before a null read nothing has changed; before a read beyond the tower the levels
        from some level on have been cut. If it runs to its end, the list has lost exactly this node, if the
        key, having gone through an `int`, still leads to it. If no node has the key, the node is freed and
        the list is as it was, with the node in it. Else each level goes from the last node below the key to
        what follows the removed one there, if a node with the key is on it. */
    method Remove(node: Node, ghost x: nat, ghost w: nat) returns (s: Removal)
      requires Valid() && 0 < x < |all| && all[x] == node && w == Place(all, IntKey(node.timestamp))
      modifies this, all
      ensures s == NullLink <==> !old(Reaches(all, level, IntKey(node.timestamp)))
      ensures s == NoTower <==>
        old(Reaches(all, level, IntKey(node.timestamp)) && Clash(all, node.height + 1, IntKey(node.timestamp)))
      ensures s == NullLink ==> Valid() && all == old(all) && towers == old(towers)
      ensures s == NoTower ==>
        && Seen() && all == old(all) && level == old(level)
        && exists i :: node.height < i <= level && Cutting(all, towers, IntKey(node.timestamp), x, i)
      ensures s == Removed ==> length == old(length) - 1 && level == old(level)
      ensures s == Removed && old(Aimed(all, x, IntKey(node.timestamp))) ==>
        Valid() && InsertedAt(all, old(all), x, node) && node !in all
      ensures s == Removed && !old(Aimed(all, x, IntKey(node.timestamp))) ==>
        && Seen() && all == old(all)
        && forall j | 0 <= j < LEVEL_MAX :: LevelCut(all, towers, IntKey(node.timestamp), x, j)
      ensures s == Removed && !old(Present(all, IntKey(node.timestamp))) ==>
        forall j | 0 <= j < LEVEL_MAX :: LevelOk(all, towers, j)
      ensures s == Removed && old(Present(all, IntKey(node.timestamp)) && !Aimed(all, x, IntKey(node.timestamp))) ==>
        BottomCut(all, towers, w, x)
    {
      var key := IntKey(node.timestamp);
      s := CutLevels(node, key, x);
      if s == Removed {
        Settle(node, key, x, w);
        length := length - 1;
      }
    }

    /** What the list is after the assignments on all levels. */
    ghost method Settle(node: Node, key: nat, x: nat, w: nat)
      requires Seen() && Shaped() && 0 < x < |all| && all[x] == node && w == Place(all, key)
      requires !Clash(all, node.height + 1, key) && forall j | 0 <= j < LEVEL_MAX :: LevelCut(all, towers, key, x, j)
      modifies this`all, this`towers
      ensures Seen() && Shaped()
      ensures old(Aimed(all, x, key)) ==> InsertedAt(all, old(all), x, node) && node !in all
      ensures old(Aimed(all, x, key)) ==> forall j | 0 <= j < LEVEL_MAX :: LevelOk(all, towers, j)
      ensures !old(Aimed(all, x, key)) ==> all == old(all) && towers == old(towers)
      ensures !old(Present(all, key)) ==> forall j | 0 <= j < LEVEL_MAX :: LevelOk(all, towers, j)
      ensures old(Present(all, key) && !Aimed(all, x, key)) ==> BottomCut(all, towers, w, x)
    {
      if Aimed(all, x, key) {
        Dropped(node, key, x);
      } else {
        Strayed(key, x);
      }
    }

    /** The end of a removal whose key leads to its node. */
    ghost method Dropped(node: Node, key: nat, x: nat)
      requires Seen() && Shaped() && 0 < x < |all| && all[x] == node && Aimed(all, x, key)
      requires !Clash(all, node.height + 1, key) && forall j | 0 <= j < LEVEL_MAX :: LevelCut(all, towers, key, x, j)
      modifies this`all, this`towers
      ensures Seen() && Shaped() && InsertedAt(all, old(all), x, node) && node !in all
      ensures forall j | 0 <= j < LEVEL_MAX :: LevelOk(all, towers, j)
    {
      ghost var less := Deletion(all, x);
      forall j | 0 <= j < LEVEL_MAX
        ensures LevelOk(less, Without(towers, x), j)
      {
        CutLevel(less, all, towers, x, node, j, key);
        LevelLeave(less, towers, x, j);
      }
      Drop(node, less, x);
    }

    /** The end of a removal whose key leads elsewhere. */
    lemma Strayed(key: nat, x: nat)
      requires Shaped() && 0 < x < |all| && forall j | 0 <= j < LEVEL_MAX :: LevelCut(all, towers, key, x, j)
      ensures !Present(all, key) ==> forall j | 0 <= j < LEVEL_MAX :: LevelOk(all, towers, j)
      ensures Present(all, key) ==> BottomCut(all, towers, Place(all, key), x)
    {
      if Present(all, key) {
        assert LevelCut(all, towers, key, x, 0);
        forall q | 0 <= q < |all|
          ensures |towers[q]| > 0 && towers[q][0] == Target(all, if q == Place(all, key) - 1 then x + 1 else q + 1)
        {
          CutBottom(all, key, x, q);
        }
      } else {
        forall j | 0 <= j < LEVEL_MAX
          ensures LevelOk(all, towers, j)
        {
          CutNothing(all, towers, key, x, j);
        }
      }
    }
  }

  /** Level 0 after a removal that was led astray to the node at `w`: the node before it is linked to what
      follows the node at `x`, every other to the next one. */
  ghost predicate BottomCut(all: seq<Node>, towers: seq<seq<Node?>>, w: nat, x: nat) {
    && |towers| == |all|
    && forall q | 0 <= q < |all| :: |towers[q]| > 0 && towers[q][0] == Target(all, if q == w - 1 then x + 1 else q + 1)
  }

  // ----- What following level 0 meets

  /** Following the links of level 0 from `n` meets exactly the nodes of `s` and then ends. */
  ghost predicate Chain(n: Node?, s: seq<Node>)
    reads s
    decreases |s|
  {
    if n == null then s == [] else s != [] && s[0] == n && |n.next| > 0 && Chain(n.next[0], s[1..])
  }

  /** What comes behind the cut is met as it was, ... */
  lemma {:induction false} ChainBehind(all: seq<Node>, towers: seq<seq<Node?>>, w: nat, x: nat, q: nat)
    requires |towers| == |all| && (forall k | 0 <= k < |all| :: all[k].next == towers[k])
    requires BottomCut(all, towers, w, x)
    requires w <= q <= |all|
    ensures Chain(Target(all, q), all[q..])
    decreases |all| - q
  {
    if q < |all| {
      ChainBehind(all, towers, w, x, q + 1);
      assert all[q..][1..] == all[q + 1..];
    }
  }

  /** ... what comes before it leads to what follows the node at `x`, ... */
  lemma {:induction false} ChainBefore(all: seq<Node>, towers: seq<seq<Node?>>, w: nat, x: nat, q: nat)
    requires |towers| == |all| && (forall k | 0 <= k < |all| :: all[k].next == towers[k])
    requires BottomCut(all, towers, w, x)
    requires q < w <= x + 1 <= |all|
    ensures Chain(all[q], Spared(all, q, w, x))
    decreases w - q
  {
    SparedRest(all, q, w, x);
    if q + 1 == w {
      ChainBehind(all, towers, w, x, x + 1);
      ChainOn(all[q], Target(all, x + 1), Spared(all, q, w, x), all[x + 1..]);
    } else {
      ChainBefore(all, towers, w, x, q + 1);
      ChainOn(all[q], all[q + 1], Spared(all, q, w, x), Spared(all, q + 1, w, x));
    }
  }

  lemma ChainOn(n: Node, next: Node?, s: seq<Node>, rest: seq<Node>)
    requires |n.next| > 0 && n.next[0] == next && Chain(next, rest)
    requires s != [] && s[0] == n && s[1..] == rest
    ensures Chain(n, s)
  {
  }

  /** The nodes from `q` on without those from `w` to `x`. */
  ghost function Spared(all: seq<Node>, q: nat, w: nat, x: nat): seq<Node>
    requires q <= w <= x + 1 <= |all|
  {
    all[q..w] + all[x + 1..]
  }

  lemma SparedRest(all: seq<Node>, q: nat, w: nat, x: nat)
    requires q < w <= x + 1 <= |all|
    ensures Spared(all, q, w, x) != [] && Spared(all, q, w, x)[0] == all[q]
    ensures Spared(all, q, w, x)[1..] == if q + 1 == w then all[x + 1..] else Spared(all, q + 1, w, x)
  {
  }

  /** ... and if that comes first, the links go round. */
  lemma {:induction false} ChainRound(all: seq<Node>, towers: seq<seq<Node?>>, w: nat, x: nat, q: nat, s: seq<Node>)
    requires |towers| == |all| && (forall k | 0 <= k < |all| :: all[k].next == towers[k])
    requires BottomCut(all, towers, w, x)
    requires q < w <= |all| && x + 1 < w
    ensures !Chain(all[q], s)
    decreases |s|
  {
    if s != [] {
      ChainRound(all, towers, w, x, if q + 1 == w then x + 1 else q + 1, s[1..]);
    }
  }

  /** What the links of level 0 meet from the head: the nodes before `w` and those behind `x`, if the cut
      ends at or behind `w`; else there is no end. */
  lemma CutMeets(all: seq<Node>, towers: seq<seq<Node?>>, w: nat, x: nat)
    requires |towers| == |all| && (forall k | 0 <= k < |all| :: all[k].next == towers[k])
    requires BottomCut(all, towers, w, x)
    requires 0 < w <= |all| && x < |all|
    ensures forall s :: Chain(all[0], s) <==> w <= x + 1 && s == Spared(all, 0, w, x)
  {
    forall s
      ensures Chain(all[0], s) <==> w <= x + 1 && s == Spared(all, 0, w, x)
    {
      if w <= x + 1 {
        ChainBefore(all, towers, w, x, 0);
        ChainUnique(all[0], s, Spared(all, 0, w, x));
      } else {
        ChainRound(all, towers, w, x, 0, s);
      }
    }
  }

  /** In particular a list as it should be is met node by node. */
  lemma LevelMeets(all: seq<Node>, towers: seq<seq<Node?>>, s: seq<Node>)
    requires |towers| == |all| > 0 && (forall k | 0 <= k < |all| :: all[k].next == towers[k]) && LevelOk(all, towers, 0)
    requires forall k | 0 <= k < |all| :: all[k].height > 0
    ensures Chain(all[0], s) <==> s == all
  {
    forall q | 0 <= q < |all|
      ensures NextPos(all, q, 0) == q + 1
    {
      NextPosIs(all, q, 0, q + 1);
    }
    CutMeets(all, towers, 1, 0);
  }

  lemma {:induction false} ChainUnique(n: Node?, s: seq<Node>, t: seq<Node>)
    requires Chain(n, t)
    ensures Chain(n, s) <==> s == t
    decreases |t|
  {
    if n != null && s != [] && s[0] == n {
      ChainUnique(n.next[0], s[1..], t[1..]);
      assert s == [n] + s[1..] && t == [n] + t[1..];
    }
  }

  // ----- The failures at concrete lists

  /** A node none of the others comes before. */
  method Prepend(l: List, ts: U64, height: nat) returns (n: Node)
    requires l.Valid() && 0 < height <= LEVEL_MAX && forall q | 0 < q < |l.all| :: l.all[q].timestamp >= ts
    modifies l, l.all
    ensures l.Valid() && fresh(n) && n.timestamp == ts && n.height == height && l.all == [l.head, n] + old(l.all[1..])
    ensures l.length == old(l.length) + 1 && l.level == if height > old(l.level) then height else old(l.level)
  {
    n := l.Insert(ts, height);
  }

  /** Timestamps 1 and 5 with towers of 2 and 1 links: searching 3 starts on the level where nothing comes
      behind 1. */
  method NullReadExample() returns (l: List, r: Search)
    ensures l.Valid() && |l.all| == 3 && l.all[1].timestamp == 1 && l.all[2].timestamp == 5
    ensures r == NullRead
  {
    l := new List();
    var b := Prepend(l, 5, 1);
    var a := Prepend(l, 1, 2);
    r := l.Find(3);
  }

  /** Two nodes of timestamp 5, the later with the lower tower: removing it reads a link above its tower. */
  method NoTowerExample() returns (l: List, a: Node, s: Removal)
    ensures s == NoTower && a.timestamp == 5 && a.height == 1
  {
    l := new List();
    var b := Prepend(l, 5, 2);
    a := Prepend(l, 5, 1);
    assert l.all[2] == b;
    s := l.Remove(a, 1, 1);
  }

  /** Timestamp 5 and one that becomes 5 as an `int`, with one link each: removing the second leads to the
      first, and both are lost. */
  method LoseBoth(ts: U64) returns (l: List, a: Node, b: Node, s: Removal)
    requires ts >= 5 && IntKey(ts) == 5
    ensures a != b && a.timestamp == 5 && b.timestamp == ts
    ensures s == Removed && l.length == 1 && Chain(l.head, [l.head])
  {
    l, a, b := TwoNodes(5, ts);
    PlaceIs(l.all, 5, 1);
    assert !Clash(l.all, 2, 5);
    assert l.all[1].timestamp == 5;
    s := l.Remove(b, 2, 1);
    CutMeets(l.all, l.towers, 1, 2);
    assert Spared(l.all, 0, 1, 2) == [l.head];
  }

  method TwoNodes(ts: U64, ts': U64) returns (l: List, a: Node, b: Node)
    requires ts <= ts'
    ensures fresh(l) && fresh(l.all) && l.Valid() && l.level == 1 && l.length == 2 && l.all == [l.head, a, b]
    ensures a.timestamp == ts && b.timestamp == ts' && a.height == b.height == 1
  {
    l := new List();
    b := Prepend(l, ts', 1);
    a := Prepend(l, ts, 1);
  }

  /** Two nodes of timestamp 5, `a` before `b`: removing `b` leaves nothing behind the head, so that `a`,
      which was not removed, is lost as well. */
  method LostNodeExample() returns (l: List, a: Node, b: Node, s: Removal)
    ensures a != b && a.timestamp == b.timestamp == 5
    ensures s == Removed && l.length == 1 && Chain(l.head, [l.head])
  {
    l, a, b, s := LoseBoth(5);
  }

  /** The same with timestamps 5 and 2^32 + 5. */
  method HighBitsExample() returns (l: List, a: Node, b: Node, s: Removal)
    ensures a.timestamp == 5 && b.timestamp == 0x1_0000_0005
    ensures s == Removed && l.length == 1 && Chain(l.head, [l.head])
  {
    l, a, b, s := LoseBoth(0x1_0000_0005);
  }

  /** A timestamp that does not fit an `int`: the node is freed, and is in the list as before. */
  method StillLinkedExample() returns (l: List, n: Node, s: Removal)
    ensures n.timestamp == 0x1_0000_0005
    ensures s == Removed && l.length == 0 && Chain(l.head, [l.head, n])
  {
    l := new List();
    n := Prepend(l, 0x1_0000_0005, 1);
    assert l.all == [l.head, n];
    s := l.Remove(n, 1, 1);
    assert LevelOk(l.all, l.towers, 0);
    LevelMeets(l.all, l.towers, [l.head, n]);
  }

  /** Timestamps 2^31 and 2^31 + 1 and the one the first becomes as an `int`, with one link each: removing
      the first makes the links go round. */
  method RoundExample() returns (l: List, n: Node, s: Removal)
    ensures n.timestamp == 0x8000_0000 && s == Removed && forall t :: !Chain(l.head, t)
  {
    l, n := RoundList();
    PlaceIs(l.all, WORD - 0x8000_0000, 3);
    assert !Clash(l.all, 2, WORD - 0x8000_0000);
    assert l.all[3].timestamp == WORD - 0x8000_0000;
    s := l.Remove(n, 1, 3);
    CutMeets(l.all, l.towers, 3, 1);
  }

  method RoundList() returns (l: List, n: Node)
    ensures fresh(l) && fresh(l.all) && l.Valid() && l.level == 1 && |l.all| == 4 && l.all[1] == n
    ensures n.timestamp == 0x8000_0000 && l.all[2].timestamp == 0x8000_0001 && l.all[3].timestamp == WORD - 0x8000_0000
    ensures forall q | 0 < q < |l.all| :: l.all[q].height == 1
  {
    l := new List();
    var c := Prepend(l, WORD - 0x8000_0000, 1);
    var b := Prepend(l, 0x8000_0001, 1);
    assert l.all == [l.head, b, c];
    n := Prepend(l, 0x8000_0000, 1);
    assert l.all == [l.head, n, b, c];
  }

  /** No node with the key reaches above both heights. */
  ghost predicate NoClash(all: seq<Node>, i: nat, height: nat, key: nat) {
    forall h: nat | i < h && height < h :: !Clash(all, h, key)
  }

  /** What a level tells about the others. */
  lemma Levels(all: seq<Node>, level: nat, i: nat, height: nat, key: nat)
    requires i < level && NoClash(all, i + 1, height, key)
    ensures Reaches(all, level, key) ==> OnLevel(all, i, height, key) != NullLink
    ensures OnLevel(all, i, height, key) == NoTower ==> Clash(all, height + 1, key)
    ensures OnLevel(all, i, height, key) == Removed ==> NoClash(all, i, height, key)
    ensures i == level - 1 ==> (OnLevel(all, i, height, key) == NullLink <==> !Reaches(all, level, key))
    ensures NoClash(all, 0, height, key) ==> !Clash(all, height + 1, key)
  {
  }

  lemma RemoveShape(less: seq<Node>, all: seq<Node>, x: nat, n: Node, level: nat)
    requires InsertedAt(less, all, x, n) && Sorted(all) && Distinct(all)
    requires forall q | 0 < q < |all| :: 0 < all[q].height <= level
    ensures Sorted(less) && n !in less && forall q | 0 < q < |less| :: 0 < less[q].height <= level
    ensures Distinct(less)
  {
    assert forall q | 0 <= q < |less| :: less[q] == all[Shift(q, x)];
  }

  lemma InsertShape(all: seq<Node>, more: seq<Node>, w: nat, n: Node, level: nat)
    requires |all| > 0 && Sorted(all) && InsertedAt(all, more, w, n) && w == Place(all, n.timestamp)
    requires 0 < n.height <= level && forall q | 0 < q < |all| :: 0 < all[q].height <= level
    ensures Sorted(more) && forall q | 0 < q < |more| :: 0 < more[q].height <= level
  {
    assert forall q | w < q < |more| :: more[q] == all[q - 1];
  }

  lemma InsertDistinct(all: seq<Node>, more: seq<Node>, w: nat, n: Node)
    requires InsertedAt(all, more, w, n) && n !in all && Distinct(all)
    ensures Distinct(more)
  {
    assert forall q | w < q < |more| :: more[q] == all[q - 1];
  }
}

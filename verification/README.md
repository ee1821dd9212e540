# Timers, trees, exceptions, pools and queues of a C server toolkit, verified

Seven components of the toolkit are modelled in Dafny in the form the program gives them: classes whose
methods assign fields, loops with invariants, arrays filled in place. Each method is tied by its contract to
functions on values, and what the program is for is proved about those.

| file | component |
|---|---|
| `Arith.dfy`, `Options.dfy` | division with remainder, the size of a word and an option type, shared |
| `WheelClock.dfy`, `TimeWheel.dfy` | the hierarchical timing wheel |
| `RbTree.dfy`, `RbInsert.dfy`, `RbDelete.dfy`, `RbHeap.dfy` | the red-black tree, on values and in memory |
| `TryCatch.dfy` | the exception macros, as a small compiler |
| `MmPool.dfy` | the memory pool |
| `SkipList.dfy` | the skip list |
| `LockFreeQueue.dfy` | the array queue shared by threads |
| `Dns.dfy` | the DNS name encoder and decoder |

What is proved, in short:

- **Timing wheel.** The program places a timer by its distance from a wrapping 32-bit clock and moves lists
  down by the digits of the clock. Over every run of additions, cancellations and ticks, with calls from
  callbacks and other threads in between, a timer is in exactly one list until its tick and is then dispatched
  exactly once, at that tick, unless it was placed in slot 0 of one of the lower three levels; then it is never
  moved and never dispatched. `WheelClock.LostDelays` says which delays are lost when. Timers added at one tick
  for the same tick are dispatched in the order in which they were added.
- **Red-black tree.** Rotations here exchange the colours of the two nodes, and the case analysis follows that.
  Insertion is right for every tree. Deletion is right if and only if the node to be unlinked is red, or has a
  child, or is the root, or the repair does not climb to the parent, or it climbs to a parent that is not the
  root and whose outer nephew is red. Otherwise, if the repair climbs to the root, the whole tree is lost; if not,
  exactly the key's pair is gone all the same, and one subtree is left a black node short
  (`RbDelete.DeleteLeaves`). `RbDelete.DeleteLosesTree` is the smallest failure: deleting a leaf of
  three black nodes leaves the empty tree.
- **Try/Catch/Finally.** The expansion of every nest of blocks, run on a machine with a frame stack, flags and
  jumps, shows exactly the events of a big-step meaning, ends with no frame left, and never uses a frame that is
  not there or leaves a block whose frame was not popped exactly once; it faults if and only if a `ReThrow` reads
  a frame no exception was stored in. The meaning differs from the customary one in one way, whose exact
  condition is proved for a block: a handler that raises to an enclosing block passes over its own `Finally`.
  The thread that assigns its variables step by step ends in just that state (`TryCatch.Thread.RunAll`).
  `TryCatch.KeepsFinally` is a condition read off the program under which no nest does that.
- **Memory pool.** A small request comes from the first block from `current` on that takes it, and only if none
  does is a block added. A search looks at no more than seven blocks however long the chain is. The regions handed out
  are disjoint, inside their blocks and aligned exactly as long as aligning does not step past the end of a
  block, where the guard's unsigned difference wraps around. Whether that can happen under requests of
  multiples of 16 bytes depends on the pool size alone: if it is 8 to 15 modulo 32, no mix of aligned and unaligned
  requests, large ones, releases and resets ever does it (`MmPool.Serve`); a pool of any other size is brought to
  hand out memory behind a block by such requests (`MmPool.Overrun`). Every large allocation is held by one descriptor, and whatever
  the pool owns is given back once.
- **Skip list.** Insertion keeps every level the sorted subsequence of the nodes tall enough. Search and removal
  read through a null link exactly if no node at or above the key reaches the top level in use. Removal takes out
  exactly its node if the timestamp survives an `int` and no node before it has the same. Otherwise, if it runs
  to its end, the node is freed while still linked, or live nodes are lost with it, or the links of level 0 go
  round; `SkipList.CutMeets` says which nodes are left, and concrete lists show each failure.
- **Queue.** Every interleaving of pushes and pops keeps tickets distinct and the counter right. The calls of every
  thread end in order, each once: with a ticket, or because the test of the slots says full or empty; left alone a
  thread returns within seven steps. No more than
  one item less than there are slots is held if and only if there is at most one producer (or one slot). What
  a consumer reads is characterised for one producer; with one consumer as well, every interleaving hands out the
  items in order, none twice, except for slots read before they are stored. The queue in memory, on 64-bit
  indices, follows the unbounded one step by step exactly unless a compare-and-swap finds an index moved on by a
  multiple of 2^64. Used by one thread the class is a bounded first-in
  first-out queue, across 64-bit wrap-around, when the number of slots divides 2^64.
- **DNS names.** Of every host name with a token the parser gives the name back from the request if and only if no
  token has more than 191 bytes and there are single dots between the tokens and nowhere else (`Dns.EchoIff`); run
  through encoding, building, skipping and parsing, tokens of up to 191 bytes come back with single dots between
  them, and skipping ends with the request exactly if the host name was of that form (`Dns.Echo`). On messages that follow RFC 1035 every pointer is followed to where
  it leads if and only if no offset is 256 or more; then the parser writes the name of section 4.1.4, with one
  dot too many exactly when the last label is followed by a pointer to the root.

Integers are unbounded in Dafny; 32-bit and 64-bit wrap-around is written out where the program relies on it.
Shifts and masks by powers of two are written as division and remainder.

## Model

| member | source | states |
|---|---|---|
| WheelClock.PlaceIsInSlot | src/timewheel.c:51-67 | placement by distance puts a timer either less than 256 ticks away in the near slot of its low byte, or in a level whose slot has its cascade tick ahead within one turn |
| WheelClock.SpanIsDrained | src/timewheel.c:98-120 | at a multiple of a level's span the list of that level's digit is the one moved, unless the digit is 0 and the level is not the highest |
| WheelClock.MovedDown | src/timewheel.c:88-120 | a list being moved contains only timers whose slot begins now; each lands at least one level lower, never in slot 0 of a lower level, and keeps the placement invariant |
| WheelClock.StaysInSlot | src/timewheel.c:98-120 | a timer whose list is not moved this tick keeps the placement invariant |
| WheelClock.Trajectory | src/timewheel.c:51-120 | over any stretch of time: the invariant holds up to the due tick, each move costs at least one level, and a timer placed in slot 0 of a lower level never moves |
| WheelClock.AtMostFourMoves | src/timewheel.c:88-120 | a timer is relocated at most four times |
| WheelClock.FiresExactlyIff | src/timewheel.c:51-146 | a timer is found in the near slot of the clock at its due tick and not before exactly if it was not placed in slot 0 of a lower level; otherwise at no tick at all |
| WheelClock.LostDelays | src/timewheel.c:69-120 | the lost delays in terms of the call: the delay is within a turn of a level and the due tick falls into the first slot of that turn |
| WheelClock.LostExample | src/timewheel.c:109-118 | 256 ticks asked for at tick 16128 are never dispatched |
| TimeWheel.DrainedWraps | src/timewheel.c:101-110 | the moved list depends only on the clock modulo 2^32 |
| TimeWheel.NextLevel | src/timewheel.c:109-118 | the search goes up only while a level is left, so it stops by level 3 before the mask overflows |
| TimeWheel.TimerWheel.constructor | src/timewheel.c:162-178 | an empty wheel satisfies the invariant |
| TimeWheel.TimerWheel.AddNode | src/timewheel.c:44-67 | with 32-bit arithmetic the node is appended to the list of its unbounded placement, all other lists unchanged |
| TimeWheel.TimerWheel.AddTimer | src/timewheel.c:69-86 | a positive delay adds one pending timer due that many ticks from now, numbered behind all others; any other delay is called at once and adds none |
| TimeWheel.TimerWheel.MoveList | src/timewheel.c:88-96 | one list is emptied and its timers are appended, in order, where they belong now |
| TimeWheel.TimerWheel.MoveDue | src/timewheel.c:98-120 | the loop over masks moves exactly the list the clock selects, or none |
| TimeWheel.TimerWheel.TimerShift | src/timewheel.c:98-120 | the clock advances by one, exactly the selected list is moved, in order, and the whole-run invariant is kept for that tick |
| TimeWheel.TimerWheel.DueNow | src/timewheel.c:136-146 | the near list of the clock holds exactly the pending timers due now that are not lost |
| TimeWheel.TimerWheel.Detach | src/timewheel.c:35-42 | taking that list leaves no pending timer due now except lost ones |
| TimeWheel.TimerWheel.DispatchOne | src/timewheel.c:125-134 | a node is logged once, at this tick, and called exactly if it is not cancelled by then, whatever ran since the node before |
| TimeWheel.TimerWheel.DispatchList | src/timewheel.c:125-134 | all nodes of the list are logged in order, with arbitrary additions and cancellations between them |
| TimeWheel.TimerWheel.TimerExecute | src/timewheel.c:136-146 | the loop dispatches exactly what is due, in the order of the near list, and ends with nothing due; right after a tick it finds nothing |
| TimeWheel.TimerWheel.TimerUpdate | src/timewheel.c:148-155 | one tick: exactly the pending timers due at the new tick leave for the log, except lost ones; the log stays in the order of ticks and, for timers added at one tick for the same tick, of addition |
| TimeWheel.TimerWheel.DelTimer | src/timewheel.c:157-160 | cancelling marks one timer and keeps the invariant at any moment |
| TimeWheel.TimerWheel.ExpireTimer | src/timewheel.c:197-208 | as many ticks as the wall clock has advanced modulo 2^32, each with its dispatches, in the same order |
| TimeWheel.TimerWheel.Accounted | src/timewheel.c:51-160 | in every reachable state each timer ever added is in exactly one list once and not in the log, or in no list and in the log exactly once at its due tick; a lost timer stays where it was put |
| TimeWheel.OrderedApart | src/timewheel.c:88-96 | a moved list lands behind another without breaking the order of addition: timers added at one tick for the same tick are never in different lists |
| TimeWheel.TimerWheel.LoggedInTurn | src/timewheel.c:44-155 | in every reachable state the log goes by ticks, and timers added at one tick for the same tick are in it in the order in which they were added |
| RbTree.RotationsInverse | util/rbtree.c:88-135 | colour-exchanging rotations undo each other and move no entry |
| RbTree.DescendFinds | util/rbtree.c:146-160 | the walk for a key ends at the node with it exactly if it is among the entries, and else where it belongs |
| RbTree.PlugRedBlack | util/rbtree.c:163-224 | a subtree of the right black height in a sound surrounding makes a red-black tree |
| RbTree.UnplugRedBlack | util/rbtree.c:289-362 | conversely every subtree of a red-black tree and its surrounding are sound |
| RbInsert.FixupCorrect | util/rbtree.c:163-224 | the insertion repair turns one red-red violation into a red-black tree with the same entries |
| RbInsert.InsertedEntries | util/rbtree.c:227-260 | the new pair stands between the smaller and the larger ones |
| RbInsert.InsertCorrect | util/rbtree.c:163-260 | insertion keeps the search order and all colour rules and adds exactly the new pair; a duplicate key changes nothing |
| RbDelete.DeleteFixSides | util/rbtree.c:289-362 | the deletion repair moves no entry past the node to be unlinked |
| RbDelete.SettleOk | util/rbtree.c:313-326 | with a black brother and red nephews the finishing branches make good the missing black node |
| RbDelete.SettleWrong | util/rbtree.c:313-319 | with a black outer nephew, as met after climbing, they leave one side short |
| RbDelete.UpperFix | util/rbtree.c:327-331 | after climbing once the repair is right exactly if the outer nephew is red |
| RbDelete.UnlinkIff | util/rbtree.c:63-83 | unlinking keeps the colour rules and drops just one pair exactly if the move is sound |
| RbDelete.ShortOutside | util/rbtree.c:313-319 | the rotation under a black outer nephew keeps every rule but the equal height, which it misses in one subtree by one black node |
| RbDelete.UnlinkLeaves | util/rbtree.c:63-83 | of the entries just one pair goes exactly unless the repair climbs to the root, and then all go; an unsound move that keeps them leaves one subtree a black node short |
| RbDelete.VictimOk | util/rbtree.c:394-407 | after the exchange with the successor the node to unlink has at most one child, and without it the other entries remain in order |
| RbDelete.DeleteCorrectIff | util/rbtree.c:289-412 | deletion removes exactly the key's pair and keeps order and colour rules if and only if the repair does not climb, or climbs to a parent that is not the root and whose outer nephew is red |
| RbDelete.DeleteLeaves | util/rbtree.c:289-412 | what deleting a present key leaves in any case: exactly the other pairs, in order, if and only if the repair does not climb to the root, and nothing if it does; an unsound deletion that keeps them leaves a tree with one subtree a black node short |
| RbDelete.DeleteLosesTree | util/rbtree.c:305-306 | three black nodes: deleting a leaf climbs to the root and loses the tree |
| RbDelete.HeightBound | util/rbtree.c:146-260 | height at most twice the binary logarithm of one more than the number of keys |
| RbHeap.RBTree.constructor | util/rbtree.c:40-45 | the empty tree, its sentinel black |
| RbHeap.RBTree.LeftRotate | util/rbtree.c:88-110 | in memory, with parent links and the sentinel unchanged, exactly the left rotation of the tree at the node |
| RbHeap.RBTree.RightRotate | util/rbtree.c:113-135 | the same for the right rotation |
| RbHeap.RBTree.Find | util/rbtree.c:146-160 | in at most as many steps as the tree is high, the node with the key and its pair, or null exactly if the key is absent |
| RbHeap.RBTree.FixupPass | util/rbtree.c:169-220 | one round of the insertion repair in memory |
| RbHeap.RBTree.InsertFixup | util/rbtree.c:163-224 | the loop ends, with the repaired tree in memory and a black root |
| RbHeap.RBTree.FindPlace | util/rbtree.c:228-241 | the parent for a new key, or that the key is there |
| RbHeap.RBTree.Insert | util/rbtree.c:227-260 | all invariants kept, links and sentinel included; exactly one pair and one node more, or nothing changed at all for a duplicate |
| RbHeap.RBTree.FindSuccessor | util/rbtree.c:266-274 | the leftmost node of the right subtree |
| RbHeap.RBTree.ExchangeEntries | util/rbtree.c:395-406 | keys and values of the two nodes exchanged in memory, nothing else |
| RbHeap.RBTree.FixStep | util/rbtree.c:291-361 | one round of the deletion repair in memory, with a decreasing measure while it goes round again |
| RbHeap.RBTree.DeleteFixup | util/rbtree.c:289-362 | the goto loop ends with the rearranged tree in memory, or with the root link lost |
| RbHeap.RBTree.LogicDelete | util/rbtree.c:63-83 | the only child, or the sentinel, takes the place of the node |
| RbHeap.RBTree.Delete | util/rbtree.c:365-412 | 0 or -1 by presence; the tree valid and without exactly that pair if and only if the deletion is sound; without exactly that pair and one subtree a black node short if it is unsound and does not climb to the root; empty if it does; untouched when the key is absent |
| TryCatch.UnguardedIsNormal | src/trycatch.c:104-142 | with no frame around, nothing is raised out of a statement: a throw only logs and execution goes on |
| TryCatch.Simulate | src/trycatch.c:61-124 | from the start of its expansion the machine does what any statement means, and leaves blocks and frame stack as the surrounding code expects, or jumps to the enclosing block; it faults exactly where the meaning is broken |
| TryCatch.WellFormedHolds | src/trycatch.c:49 | with `ReThrow` in handlers only, no frame without an exception is ever read |
| TryCatch.SimulateCatches | src/trycatch.c:71-74 | the chain of tests takes the first handler that names the exception, and no other |
| TryCatch.SimulateFinal | src/trycatch.c:77-86 | the final block runs before an unmatched exception is rethrown, its frame still holding the exception of the body for a `ReThrow` of its own |
| TryCatch.ProgramMeaning | src/trycatch.c:46-142 | every program ends with exactly the events of its meaning, no block open and no frame left; every block is left with its frame popped exactly once, and no pop or jump meets a frame that is not there; a fault occurs if and only if a `ReThrow` reads an empty frame |
| TryCatch.GuardedQuiet | src/trycatch.c:104-128 | inside a block nothing is ever logged, whatever is thrown there |
| TryCatch.ThrowLogs | src/trycatch.c:128-141 | a throw outside all blocks of any program logs its exception once, with or without a cause, and the program goes on behind it |
| TryCatch.UncaughtLogs | src/trycatch.c:83-86 | an exception that no handler of an outermost block takes is logged once, behind the events of the body, and the program goes on behind the block |
| TryCatch.RethrownLogs | src/trycatch.c:49 | so is one that its handler throws again |
| TryCatch.IdealUnlessSkipped | src/trycatch.c:61-86 | the macros mean the customary exceptions for every nest in which no final block is passed over |
| TryCatch.MayRaise | src/trycatch.c:61-86 | the exceptions that may leave a statement, read off the program, are a bound for what any run raises |
| TryCatch.KeptNotSkipped | src/trycatch.c:61-86 | if no handler of a block with a final block contains a throw that may leave it, no run passes over a final block, whatever the nesting |
| TryCatch.KeptIsIdeal | src/trycatch.c:61-142 | such a program ends as the customary meaning says, a `ReThrow` from an empty frame included |
| TryCatch.AgreeIff | src/trycatch.c:71-86 | for one block whose parts have their customary meaning: it has so too if and only if no handler raises past a final block that would have shown an effect |
| TryCatch.SkippedExample | src/trycatch.c:71-86 | a final block that does not run |
| TryCatch.Thread.Throw | src/trycatch.c:104-142 | the assignments of a throw: store the exception, pop the frame, continue after the frame's set point; with no frame only a log entry |
| TryCatch.Thread.Pop | src/trycatch.c:46-47 | the stack top becomes the frame's predecessor, and the pop is counted for the frame |
| TryCatch.Thread.StepOnce | src/trycatch.c:61-86 | the assignments of the expansion refine the machine step by step |
| TryCatch.Thread.RunAll | src/trycatch.c:46-142 | the thread run to its end has done exactly what the program means, no block open and no frame left, or has faulted where the meaning is broken |
| MmPool.GuardMeans | pool/mmpool.c:194-195 | the unsigned guard holds if the request fits, and also if aligning has stepped past the end |
| MmPool.CHeap.Alloc | pool/mmpool.c:31-34 | what the library promises: an aligned address apart from everything live |
| MmPool.CountersGrow | pool/mmpool.c:112-121 | after a new tail the counters from `current` on are again the distance to the tail less one, and `current` is at most six steps away |
| MmPool.RegionsCarve | pool/mmpool.c:194-199 | a request carved from a free end is disjoint from all regions handed out, and inside its block exactly if it ends before the block does |
| MmPool.RegionsPush | pool/mmpool.c:142-151 | descriptors live in regions of their own |
| MmPool.DescriptorSet | pool/mmpool.c:134-138 | an empty descriptor used again holds the new address, and no address is held twice |
| MmPool.DescriptorClear | pool/mmpool.c:253-257 | emptying a descriptor removes just its address from what is held |
| MmPool.SteadySizes | pool/mmpool.c:28-41 | free ends that are multiples of 8 in the first block and of 16 in a later one are never aligned past the end of the block, if and only if the pool size is 8 to 15 modulo 32 |
| MmPool.SteadyRoom | pool/mmpool.c:194-198 | in a pool of such a size, whose free ends are such multiples, aligning stays inside every block |
| MmPool.FullBlock | pool/mmpool.c:190-200 | aligning steps past the end of a block filled up by requests of 16 bytes exactly if that end is 16 or more past a multiple of 32 |
| MmPool.Overrun | pool/mmpool.c:183-232 | a pool of any size that is not 8 to 15 modulo 32: a run of aligned requests of 16 bytes (one of 0 bytes, if the pool has less than 8) hands out an address behind the end of a block |
| MmPool.Pool.constructor | pool/mmpool.c:28-47 | a valid, clean pool of one block; nothing else allocated |
| MmPool.Pool.Search | pool/mmpool.c:190-202 | the first block from `current` on that takes the request, in at most seven looks |
| MmPool.Pool.CountFailures | pool/mmpool.c:112-118 | every block but the tail counts one failure more, and `current` moves to six steps from the tail, or stays |
| MmPool.Pool.AllocBlock | pool/mmpool.c:91-125 | the chain grows by one disjoint block, allocated for it alone, with the request aligned at its start; clean stays clean |
| MmPool.Pool.FromBlocks | pool/mmpool.c:183-232 | the first block from `current` on that takes the request, and nothing else changes; a block more, and its memory from the library, only if none does; the pool stays clean exactly if aligning did not step past the end |
| MmPool.RoomFits | pool/mmpool.c:194-195 | a block with room for the request behind its start takes it |
| MmPool.Pool.Small | pool/mmpool.c:183-232 | the same, with one region more, aligned or not; in a steady pool a multiple of 16 bytes is always right and leaves it steady |
| MmPool.Pool.AllocLarge | pool/mmpool.c:127-154 | the new allocation is held by the first empty one of five descriptors, and nothing else changes, or by a new one in front, which comes from the first block that takes it; what others own is untouched |
| MmPool.Pool.Alloc | pool/mmpool.c:183-236 | small requests, aligned (`mp_alloc`) or not (`mp_nalloc`), are placed in the first block from `current` on that takes them, and if one has room nothing is allocated and no block added; large ones give an allocation held by the pool; in a steady pool everything stays clean for ever |
| MmPool.Serve | pool/mmpool.c:28-261 | a new pool of a size that is 8 to 15 modulo 32: every run of `mp_alloc`, `mp_nalloc`, `mp_memalign`, `mp_free` and `mp_reset_pool`, in any mix, small requests being multiples of 16 bytes, leaves every region inside its block and apart from all others, and what others own untouched |
| MmPool.Pool.Memalign | pool/mmpool.c:156-176 | an aligned allocation held by a new descriptor, which comes from the first block that takes it |
| MmPool.Pool.Free | pool/mmpool.c:249-261 | an address the pool holds is given back and no longer held; any other address does nothing |
| MmPool.Pool.FreeLarge | pool/mmpool.c:54-58 | every held address is live when freed, and freed once |
| MmPool.Pool.Reset | pool/mmpool.c:72-89 | all large allocations given back, all blocks empty again, counters and chain as before |
| MmPool.Pool.Destroy | pool/mmpool.c:49-70 | everything the pool owns is freed once, and nothing else |
| MmPool.OverrunExample | pool/mmpool.c:194-199 | a pool of 100 bytes that hands out memory behind its end |
| SkipList.TargetMoves | util/skiplist.c:74-83 | where each link has to lead after an insertion: only links across the new position change, and only on levels the new node reaches |
| SkipList.LinkLevel | util/skiplist.c:79-82 | linking behind the predecessor gives the level of the longer list |
| SkipList.CutLevel | util/skiplist.c:101-103 | if the key leads to the node, unlinking from the predecessor gives the level of the shorter list |
| SkipList.CutLink | util/skiplist.c:97-103 | where each link then leads: past the node on its levels, as before elsewhere |
| SkipList.AimedMeans | util/skiplist.c:94 | the key of a removal leads to its node exactly if the timestamp fits an `int`, as a signed number, and no node before has the same |
| SkipList.IntKey | util/skiplist.c:94-101 | the key a timestamp becomes: the same low 32 bits, and the value of an `int` with its sign extended; the timestamp itself exactly if it is one |
| SkipList.List.constructor | util/skiplist.c:22-32 | an empty list with a head of 32 levels |
| SkipList.List.Walk | util/skiplist.c:75-77 | along a level to the last node below the key, reading only links its towers have |
| SkipList.List.Insert | util/skiplist.c:64-88 | every level again exactly the sorted subsequence of tall enough nodes; one node more, before its equals; length and level right, for any height |
| SkipList.List.NodesOf | util/skiplist.c:134-147 | walking a level yields exactly the nodes whose towers reach it, in order |
| SkipList.List.Find | util/skiplist.c:112-130 | reads through a null link exactly if no node at or above the key reaches the level in use; otherwise finds the key exactly if it is there |
| SkipList.Bottom | util/skiplist.c:118-129 | what the walk on level 0 stops at decides whether the key is there |
| SkipList.List.Remove | util/skiplist.c:91-109 | the exact conditions for a null read, before which nothing has changed, and for reading a link beyond the node's tower, before which the levels from some level on have been cut; otherwise the list without exactly this node if the key leads to it, the list unchanged with the freed node in it if no node has the key, and else every level cut from the last node below the key to what follows the freed one there, if a node with the key is on it |
| SkipList.CutMeets | util/skiplist.c:97-106 | after such a cut level 0 has exactly the nodes before the first with the key and those behind the freed node, dropping all between; if the freed node comes before the last one below the key, it has no end |
| SkipList.LevelMeets | util/skiplist.c:134-147 | a sound level 0 has exactly the nodes of the list |
| SkipList.NullReadExample | util/skiplist.c:118-124 | searching 3 among 1 and 5 reads through a null link |
| SkipList.NoTowerExample | util/skiplist.c:101-103 | removing the lower of two nodes of one timestamp reads a link above its tower |
| SkipList.LostNodeExample | util/skiplist.c:94-105 | removing the second of two nodes of timestamp 5 loses the first as well |
| SkipList.HighBitsExample | util/skiplist.c:94-105 | so does removing 2^32 + 5 behind a node of timestamp 5 |
| SkipList.StillLinkedExample | util/skiplist.c:94-105 | a node of timestamp 2^32 + 5 is freed and still linked |
| SkipList.RoundExample | util/skiplist.c:94-105 | three timestamps from 2^31 on: removing the first makes level 0 go round |
| LockFreeQueue.NextKeeps | util/ArrayLockFreeQueue.cpp:30-65 | every atomic step of every thread keeps: distinct tickets, read index not past write index, counter plus unfinished pushes less unfinished pops equal to the difference of the indices |
| LockFreeQueue.EveryRun | util/ArrayLockFreeQueue.cpp:30-65 | so does every interleaving |
| LockFreeQueue.TicketsInOrder | util/ArrayLockFreeQueue.cpp:33-59 | in every interleaving the tickets won by pushes are consecutive numbers, so distinct and without gaps, and so are those won by pops |
| LockFreeQueue.PushCallStep | util/ArrayLockFreeQueue.cpp:30-46 | no step of a push drops or changes its item: it has ended with a ticket or with a test that says full, or is still to end |
| LockFreeQueue.PushesEnd | util/ArrayLockFreeQueue.cpp:30-46 | in every interleaving the pushes of every thread end in the order of its calls, each once, with a ticket or because its test says full; only the last may be under way |
| LockFreeQueue.PopsEnd | util/ArrayLockFreeQueue.cpp:49-65 | so do its pops, with a ticket or because the test says empty |
| LockFreeQueue.PushedStays | util/ArrayLockFreeQueue.cpp:40-42 | the ticket with which a push ended stays that of its item |
| LockFreeQueue.GotIsRead | util/ArrayLockFreeQueue.cpp:59-61 | the ticket with which a pop ended has been read, or its thread is about to read it |
| LockFreeQueue.ReturnIff | util/ArrayLockFreeQueue.cpp:30-65 | a thread returns exactly when it has counted or its test says full or empty, and goes round again only if another thread has won a ticket meanwhile |
| LockFreeQueue.ReturnsAlone | util/ArrayLockFreeQueue.cpp:30-65 | left alone in any state a push or pop returns within seven steps |
| LockFreeQueue.OneProducer | util/ArrayLockFreeQueue.cpp:30-65 | with one producer and any consumers at most one item less than there are slots is held, and slots hold the items of the last turn |
| LockFreeQueue.UnreadApart | util/ArrayLockFreeQueue.cpp:42-61 | unread tickets have slots of their own |
| LockFreeQueue.PopReads | util/ArrayLockFreeQueue.cpp:42-61 | with one producer and any consumers a pop reads the item of the last ticket stored in its slot, or what the slot was created with |
| LockFreeQueue.OwnItemIff | util/ArrayLockFreeQueue.cpp:42-61 | that is the item of its own ticket if and only if that is stored and its slot not used again |
| LockFreeQueue.OnlyConsumerReads | util/ArrayLockFreeQueue.cpp:42-61 | with one producer and one consumer: the item exactly if it is stored, else what the slot held a turn before |
| LockFreeQueue.ConsumerRun | util/ArrayLockFreeQueue.cpp:49-65 | if only one thread calls pop in a run, no other has a read ticket, and its ticket is the last one |
| LockFreeQueue.OneEach | util/ArrayLockFreeQueue.cpp:30-65 | every interleaving of one producer and one consumer, from the empty queue: tickets are read in order, none twice and none skipped, each giving its own item, except those read before their store, which give what the slot held a turn before |
| LockFreeQueue.EarlyRead | util/ArrayLockFreeQueue.cpp:40-61 | a run with one producer and one consumer in which a pop reads before the push has stored |
| LockFreeQueue.Overfull | util/ArrayLockFreeQueue.cpp:34-40 | a run with two producers, for every size, after which the queue holds one item too many and looks empty |
| LockFreeQueue.OccupancyIff | util/ArrayLockFreeQueue.cpp:30-65 | the bound holds in every interleaving if and only if there is at most one producer, or one slot |
| LockFreeQueue.TestsMean | util/ArrayLockFreeQueue.cpp:37-58 | with one producer equal slots mean empty, and the full test means one item less than there are slots |
| LockFreeQueue.CalIndexIff | util/ArrayLockFreeQueue.cpp:16-19 | the slot of a wrapped 64-bit index is that of the unbounded one, for all indices, if and only if the size divides 2^64 |
| LockFreeQueue.WordsFollow | util/ArrayLockFreeQueue.cpp:30-65 | a step of the queue in memory, all indices modulo 2^64, is the step on unbounded indices if and only if it is not a compare-and-swap that finds its index moved on by a multiple of 2^64 |
| LockFreeQueue.WordsRun | util/ArrayLockFreeQueue.cpp:30-65 | so every interleaving without such a compare-and-swap runs in memory as on unbounded indices |
| LockFreeQueue.Queue.WinWrite | util/ArrayLockFreeQueue.cpp:33-40 | the retry loop wins a ticket exactly if the queue is not full |
| LockFreeQueue.Queue.Push | util/ArrayLockFreeQueue.cpp:30-46 | appends the item, or refuses exactly when one less than all slots are taken, across index wrap-around |
| LockFreeQueue.Queue.Pop | util/ArrayLockFreeQueue.cpp:49-65 | takes the oldest item, or none exactly when empty |
| Dns.TokensOfJoin | pool/asyn_dns_client.c:92-109 | tokenizing a dotted name gives its labels back |
| Dns.EncodedLength | pool/asyn_dns_client.c:84-87 | encoding takes two bytes more than the dotted name |
| Dns.FilledIff | pool/asyn_dns_client.c:84-110 | of every host name: the encoded tokens fit the allocated name, and fill it completely if and only if the host name is its tokens with single dots between them |
| Dns.Strtok | pool/asyn_dns_client.c:94-110 | the next nonempty token, as the two loops of `strtok` find it |
| Dns.CreateQuestion | pool/asyn_dns_client.c:79-116 | the allocation has two bytes more than the host name and holds its encoded tokens, terminator included, and behind them, or instead of them if there is no token, what it held before |
| Dns.RequestCounts | pool/asyn_dns_client.c:65-139 | what is read of a request in network byte order: the identifier, the recursion flag and no other, one question and no records, and behind the name type 1 and class 1 |
| Dns.BuildRequest | pool/asyn_dns_client.c:118-139 | header, name, type and class one behind the other, and their total length |
| Dns.OneWay | pool/asyn_dns_client.c:160-194 | the parser has at most one way through a message |
| Dns.CopyLabel | pool/asyn_dns_client.c:177-190 | one label and, unless a zero octet follows, a dot |
| Dns.ParseName | pool/asyn_dns_client.c:160-194 | appends exactly what the way through the message spells, the length equal to the characters written at every depth of recursion |
| Dns.TargetIff | pool/asyn_dns_client.c:172-173 | the second octet alone is the target exactly if the offset is below 256 |
| Dns.FaithfulIff | pool/asyn_dns_client.c:160-194 | on a conforming message every pointer on the way is followed to where it leads if and only if no offset is 256 or more |
| Dns.Misread | pool/asyn_dns_client.c:172-173 | a conforming message whose name is `a`, behind a pointer to 256, and of which the parser writes nothing |
| Dns.ParseExpands | pool/asyn_dns_client.c:141-194 | on conforming messages with offsets below 256 the parser writes the dotted expansion of the name, with a dot too many exactly if the last label is followed by a pointer to the root |
| Dns.BackwardGoes | pool/asyn_dns_client.c:160-194 | if every pointer leads to before the name it ends, the parser ends within the message |
| Dns.PlainParses | pool/asyn_dns_client.c:141-194 | a message with labels below 64 octets and pointers of first octet 192 to before the name they end conforms, and the parser ends on it with the dotted expansion of the name, with a dot too many exactly if the last label is followed by a pointer to the root |
| Dns.LoopNever | pool/asyn_dns_client.c:170-175 | a pointer to itself has no end |
| Dns.RoundTrip | pool/asyn_dns_client.c:79-194 | parsing an encoded name gives the dotted name back, for labels of up to 191 bytes |
| Dns.RoundTripIff | pool/asyn_dns_client.c:79-194 | for names with labels of any length: some way of the parser through the encoded name writes the dotted name if and only if every label has at most 191 bytes |
| Dns.WrittenDotted | pool/asyn_dns_client.c:160-194 | whatever the message, in what the parser writes there is a dot among any 192 bytes in a row |
| Dns.HostIff | pool/asyn_dns_client.c:79-194 | of the encoded tokens of any host name, some way of the parser writes the host name if and only if no token has more than 191 bytes and the host name is its tokens with single dots between them |
| Dns.LongLabel | pool/asyn_dns_client.c:103 | a label of a multiple of 256 bytes reads back as the root, whatever follows it |
| Dns.SkipQuestions | pool/asyn_dns_client.c:202-217 | skipping stops right behind all questions, whatever octets their labels have |
| Dns.Echo | pool/asyn_dns_client.c:79-217 | for every host name with tokens of up to 191 bytes, run through all stages: the tokens come back with single dots between them, skipping stops right behind their encoding, and that is the end of the request if and only if the host name came back |
| Dns.EchoIff | pool/asyn_dns_client.c:79-217 | for every host name with a token, of any length: the parser gives it back from its request if and only if no token has more than 191 bytes and there are single dots between the tokens and nowhere else |
| Dns.NoToken | pool/asyn_dns_client.c:79-116 | without a token the question is what the allocation held, and what comes back is left to that |

## Left out

- TimeWheel.TimerWheel.AddNode: the cells of the linked lists; a list is a sequence in its array slot, so link order is captured and node aliasing is not.
- TimeWheel.TimerWheel.TimerExecute: the spin lock itself; what other threads and callbacks do while it is released is an arbitrary script of additions and cancellations.
- TimeWheel.TimerWheel.AddTimer: the cancel mark is taken as initialised to 0, which the program does not do; allocation failure; a callback run at once under the lock does not use the wheel.
- TimeWheel.TimerWheel.DelTimer: that a node is freed once dispatched, so that cancelling it later writes to freed memory in the program; the model keeps the nodes and says which cancellations took effect in time.
- TimeWheel.TimerWheel.ExpireTimer: the wall clock is a parameter; `clear_timer` is left out.
- RbHeap.RBTree.Delete: printing, and the release of the node's memory; `rb_node_create` does not return its node in the source, nodes here come from the caller.
- RbHeap.RBTree.FindSuccessor: the walk upwards, which deletion never takes.
- TryCatch.ProgramMeaning: leaving a block by return, break or goto, loops, message texts, and local variables of the guarded code; tests and actions are abstract.
- MmPool.Pool.AllocBlock: the chain and the list of descriptors are sequences of values in fields; node addresses are kept, the link cells are not. `head->next` is taken as null after creation, and a reset leaves the old descriptors' memory to be handed out again.
- MmPool.Pool.Free: that in an overrun pool, where regions leave their blocks, a descriptor may be written over or be written over foreign memory; descriptors are values here, so this method, `FreeLarge`, `Reset` and `Destroy` release exactly what they hold in such a pool too, which the program then need not.
- MmPool.Pool.Alloc: failure of the library's allocator; sizes for which header and pool size overflow 64 bits; a large request to a pool under 16 bytes, on which the source calls itself without end. `mp_calloc` is this and a clearing loop.
- SkipList.List.Insert: the random height is a parameter; callbacks, and the cleanup on destroying, are left out.
- SkipList.List.Remove: what happens after a null read or a read beyond a tower, where the program has no defined behaviour.
- LockFreeQueue.WordsRun: what the queue does after a compare-and-swap has won on an index moved on by a multiple of 2^64; all steps are sequentially consistent, and the counter of the unbounded model is an integer that may be negative for a moment.
- LockFreeQueue.PopReads: linearizability of concurrent use, which does not hold because tickets are published before items are stored; `LockFreeQueue.EarlyRead` shows it.
- LockFreeQueue.Queue.Push: sizes that do not divide 2^64, whose slots go wrong when an index wraps around.
- Dns.HostIff: which text the parser writes, or whether it ends, for a name with a label of 192 bytes or more, other than that it is not the name; `Dns.LongLabel` is one case.
- Dns.ParseName: messages on which the parser does not end or leaves the message; sockets, the answer section and printing are not modelled.
- Components outside: reactors, the web server, thread pools, `util/queue.c`, `util/ringbuf.c`, `util/minheap-timer.c`, `util/btree.c`, `src/deadlock.c`, `src/memleak.c`, `src/timer.cpp`: plumbing, or unfinished.

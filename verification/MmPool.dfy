/** The memory pool: a bump allocator over a growing chain of blocks, with the descriptors of large
    allocations kept in the pool itself. Addresses are numbers; the layout is that of a 64-bit machine. */
module MmPool {
  import opened Arith

  const ALIGNMENT := 32
  const MAX_FROM_POOL := 4095
  const POOL_HEADER := 24   // sizeof(struct mp_pool_s)
  const BLOCK_HEADER := 32  // sizeof(struct mp_node_s)
  const DESCRIPTOR := 16    // sizeof(struct mp_large_s)

  /** `mp_align_ptr` with the pool's alignment. */
  function Align(p: nat): (m: nat)
    ensures p <= m < p + ALIGNMENT && m % ALIGNMENT == 0
  {
    (p + ALIGNMENT - 1) / ALIGNMENT * ALIGNMENT
  }

  /** The guard `(size_t)(end - m) >= size`, in 64-bit arithmetic. */
  predicate Guard(end: nat, m: nat, size: nat) {
    (end - m) % WORD >= size
  }

  /** The guard holds if the request fits, and also if aligning has stepped past the end. */
  lemma GuardMeans(end: nat, m: nat, size: nat)
    requires size <= MAX_FROM_POOL && end < m + WORD && m < end + ALIGNMENT
    ensures Guard(end, m, size) <==> m + size <= end || end < m
  {
  }

  // ----- The C library's allocator

  /** What is allocated, by address; the address handed out is fresh and apart from everything live. */
  class CHeap {
    var live: map<nat, nat>
    var brk: nat

    ghost predicate Valid()
      reads this
    {
      brk > 0 && forall p | p in live :: 0 < p && p + live[p] <= brk
    }

    constructor ()
      ensures Valid() && live == map[]
    {
      live, brk := map[], 1;
    }

    /** `malloc` and `posix_memalign`. */
    method Alloc(size: nat, alignment: nat) returns (p: nat)
      requires Valid() && alignment > 0
      modifies this
      ensures Valid()
      ensures p > 0 && p % alignment == 0 && p !in old(live) && live == old(live)[p := size]
      ensures forall q | q in old(live) :: q + old(live)[q] <= p || p + size <= q
    {
      p := (brk / alignment + 1) * alignment;
      AlignedAbove(brk, alignment);
      brk := p + size;
      live := live[p := size];
    }

    /** `free`; freeing what is not live is an error of the caller. */
    method Free(p: nat)
      requires Valid() && p in live
      modifies this
      ensures Valid() && live == old(live) - {p}
    {
      live := live - {p};
    }
  }

  /** Nothing live is touched. */
  ghost predicate Kept(before: map<nat, nat>, after: map<nat, nat>) {
    forall p | p in before :: p in after && after[p] == before[p]
  }

  lemma AlignedAbove(n: nat, m: nat)
    requires m > 0
    ensures n < (n / m + 1) * m && (n / m + 1) * m % m == 0
  {
    assert n == m * (n / m) + n % m;
    DivModUnique((n / m + 1) * m, m, n / m + 1, 0);
  }

  // ----- Blocks, regions and descriptors

  /** `struct mp_node_s`: a block of memory with its header at `base`. */
  datatype Block = Block(base: nat, end: nat, last: nat, failed: nat)

  /** A piece of memory handed out of block number `block`. */
  datatype Region = Region(block: nat, addr: nat, size: nat)

  /** `struct mp_large_s`, living in the region `home`; the address 0 is the null pointer. */
  datatype Descriptor = Descriptor(home: Region, alloc: nat)

  predicate Apart(a: Region, b: Region) {
    a.addr + a.size <= b.addr || b.addr + b.size <= a.addr
  }

  /** Where the memory of a block begins: the first one has the pool header in front. */
  function Front(bs: seq<Block>, i: nat): int
    requires i < |bs|
  {
    if i == 0 then bs[i].base - POOL_HEADER else bs[i].base
  }

  /** No two blocks share memory, nor has one a part of the pool header. */
  ghost predicate Scattered(bs: seq<Block>) {
    forall i, j | 0 <= i < j < |bs| :: bs[i].end <= bs[j].base || bs[j].end <= Front(bs, i)
  }

  /** The chain: the head block follows the pool header, every other block is an allocation of its own,
      and no two blocks share memory. */
  ghost predicate ChainOk(bs: seq<Block>, base: nat, size: nat, live: map<nat, nat>) {
    && |bs| > 0
    && base in live && base % ALIGNMENT == 0 && live[base] == size + POOL_HEADER + BLOCK_HEADER
    && bs[0].base == base + POOL_HEADER
    && (forall i | 0 <= i < |bs| ::
         bs[i].end == bs[i].base + BLOCK_HEADER + size && bs[i].base + BLOCK_HEADER <= bs[i].last)
    && (forall i | 0 < i < |bs| ::
         bs[i].base in live && bs[i].base % ALIGNMENT == 0 && live[bs[i].base] == BLOCK_HEADER + size)
    && Scattered(bs)
  }

  /** What the counter of a block shows `k` steps before the tail. */
  function Fails(k: nat): nat {
    if k == 0 then 0 else k - 1
  }

  /** From `current` on the counters show the distance to the tail, and `current` is at most six steps
      away from it. */
  ghost predicate CountersOk(bs: seq<Block>, current: nat) {
    && current < |bs| <= current + 7
    && forall i | current <= i < |bs| :: bs[i].failed == Fails(|bs| - 1 - i)
  }

  /** The addresses of the blocks that are allocations of their own. */
  ghost function Bases(bs: seq<Block>): set<nat> {
    set i | 0 < i < |bs| :: bs[i].base
  }

  /** The live large allocations: the addresses in the descriptors. */
  ghost function Held(large: seq<Descriptor>): set<nat> {
    set i | 0 <= i < |large| && large[i].alloc != 0 :: large[i].alloc
  }

  /** Everything the pool has to give back. */
  ghost function Owned(base: nat, bs: seq<Block>, large: seq<Descriptor>): set<nat> {
    {base} + Bases(bs) + Held(large)
  }

  /** Every address in a descriptor is live, in no other descriptor, and not a block. */
  ghost predicate DescriptorsOk(large: seq<Descriptor>, blocks: set<nat>, live: set<nat>) {
    && (forall i, j | 0 <= i < j < |large| && large[i].alloc != 0 :: large[i].alloc != large[j].alloc)
    && Held(large) <= live && Held(large) !! blocks
  }

  /** The regions handed out lie inside their blocks, behind the header and before `last`; no two of them
      share memory, and the descriptors live in regions of their own. */
  ghost predicate RegionsOk(bs: seq<Block>, large: seq<Descriptor>, regions: seq<Region>) {
    && (forall i | 0 <= i < |bs| :: bs[i].base + BLOCK_HEADER <= bs[i].last <= bs[i].end)
    && (forall r | r in regions ::
         r.block < |bs| && bs[r.block].base + BLOCK_HEADER <= r.addr && r.addr + r.size <= bs[r.block].last)
    && (forall i, j | 0 <= i < j < |regions| :: Apart(regions[i], regions[j]))
    && (forall d | d in large :: d.home in regions && d.home.size == DESCRIPTOR)
    && (forall i, j | 0 <= i < j < |large| :: Apart(large[i].home, large[j].home))
  }

  /** What the pool owns is allocated. */
  lemma OwnedLive(bs: seq<Block>, base: nat, size: nat, live: map<nat, nat>, large: seq<Descriptor>)
    requires ChainOk(bs, base, size, live) && Held(large) <= live.Keys
    ensures Owned(base, bs, large) <= live.Keys
  {
  }

  /** An allocation that is not the pool's. */
  lemma OthersMore(live: set<nat>, owned: set<nat>, p: nat)
    requires owned <= live && p !in live
    ensures live + {p} - owned == (live - owned) + {p}
  {
  }

  /** An allocation for the chain. */
  lemma OthersSame(live: set<nat>, base: nat, bs: seq<Block>, cs: seq<Block>, large: seq<Descriptor>, p: nat)
    requires p !in live && Bases(cs) == Bases(bs) + {p}
    ensures live + {p} - Owned(base, cs, large) == live - Owned(base, bs, large)
  {
  }

  /** A freshly allocated block extends the chain. */
  lemma ChainGrow(bs: seq<Block>, base: nat, size: nat, live: map<nat, nat>, b: Block)
    requires ChainOk(bs, base, size, live) && b.base !in live
    requires b.base % ALIGNMENT == 0 && b.end == b.base + BLOCK_HEADER + size && b.base + BLOCK_HEADER <= b.last
    requires forall q | q in live :: q + live[q] <= b.base || b.end <= q
    ensures ChainOk(bs + [b], base, size, live[b.base := BLOCK_HEADER + size])
    ensures Bases(bs + [b]) == Bases(bs) + {b.base}
  {
    var ds := bs + [b];
    assert ds[|bs|] == b;
    assert forall i | 0 <= i < |bs| :: ds[i] == bs[i] && (bs[i].end <= b.base || b.end <= bs[i].base);
  }

  /** The chain with a new tail, where nothing else moved but counters. */
  ghost predicate Counted(bs: seq<Block>, ds: seq<Block>, b: Block) {
    && |ds| == |bs| + 1 && ds[|bs|] == b
    && forall i | 0 <= i < |bs| :: ds[i] == bs[i].(failed := ds[i].failed)
  }

  lemma ChainCounted(bs: seq<Block>, ds: seq<Block>, b: Block, base: nat, size: nat, live: map<nat, nat>)
    requires ChainOk(bs + [b], base, size, live) && Bases(bs + [b]) == Bases(bs) + {b.base} && Counted(bs, ds, b)
    ensures ChainOk(ds, base, size, live) && Bases(ds) == Bases(bs) + {b.base}
  {
    var es := bs + [b];
    assert forall i | 0 <= i < |bs| :: es[i] == bs[i];
    ChainSame(es, ds, base, size, live);
  }

  /** The counters after a new tail, all others having failed once more. */
  lemma CountersGrow(cs: seq<Block>, cur: nat, b: Block)
    requires |cs| <= cur + 6 && cur < |cs| && b.failed == 0
    requires forall i | cur <= i < |cs| :: cs[i].failed == Fails(|cs| - i)
    ensures CountersOk(cs + [b], cur)
  {
    var ds := cs + [b];
    assert ds[|cs|] == b;
    assert forall i | cur <= i < |cs| :: ds[i] == cs[i];
  }

  /** An allocation for the chain leaves the descriptors and the allocations of others alone. */
  lemma DescriptorsGrow(large: seq<Descriptor>, blocks: set<nat>, live: set<nat>, p: nat)
    requires DescriptorsOk(large, blocks, live) && p !in live
    ensures DescriptorsOk(large, blocks + {p}, live + {p})
  {
  }

  /** Moving `last` and `failed` does not concern the chain. */
  lemma ChainSame(bs: seq<Block>, cs: seq<Block>, base: nat, size: nat, live: map<nat, nat>)
    requires ChainOk(bs, base, size, live) && |bs| == |cs|
    requires forall i | 0 <= i < |bs| :: cs[i].base == bs[i].base && cs[i].end == bs[i].end
    requires forall i | 0 <= i < |bs| :: cs[i].base + BLOCK_HEADER <= cs[i].last
    ensures ChainOk(cs, base, size, live) && Bases(cs) == Bases(bs)
  {
  }

  /** More or fewer live allocations elsewhere do not concern the chain. */
  lemma ChainElsewhere(bs: seq<Block>, base: nat, size: nat, live: map<nat, nat>, live': map<nat, nat>)
    requires ChainOk(bs, base, size, live)
    requires forall p | p in {base} + Bases(bs) :: p in live' && live'[p] == live[p]
    ensures ChainOk(bs, base, size, live')
  {
    assert forall i | 0 < i < |bs| :: bs[i].base in Bases(bs);
  }

  /** A region carved from the free end of a block is apart from all others; it stays in bounds exactly
      if it ends before the block does. */
  lemma RegionsCarve(bs: seq<Block>, large: seq<Descriptor>, regions: seq<Region>, b: nat, m: nat, size: nat)
    requires RegionsOk(bs, large, regions) && b < |bs| && bs[b].last <= m
    requires Scattered(bs)
    ensures RegionsOk(bs[b := bs[b].(last := m + size)], large, regions + [Region(b, m, size)])
      <==> m + size <= bs[b].end
  {
    var cs, all := bs[b := bs[b].(last := m + size)], regions + [Region(b, m, size)];
    if m + size <= bs[b].end {
      forall i | 0 <= i < |regions|
        ensures Apart(regions[i], Region(b, m, size))
      {
        assert regions[i] in regions;
      }
      assert forall i | 0 <= i < |regions| :: all[i] == regions[i];
    } else {
      assert cs[b].last > cs[b].end;
    }
  }

  /** If the guard lets it pass, that is if it starts before the end. */
  lemma CarveFits(bs: seq<Block>, large: seq<Descriptor>, regions: seq<Region>, b: nat, m: nat, size: nat)
    requires RegionsOk(bs, large, regions) && b < |bs| && bs[b].last <= m < bs[b].last + ALIGNMENT && Scattered(bs)
    requires size <= MAX_FROM_POOL && bs[b].end < m + WORD && Guard(bs[b].end, m, size)
    ensures RegionsOk(bs[b := bs[b].(last := m + size)], large, regions + [Region(b, m, size)]) <==> m <= bs[b].end
  {
    GuardMeans(bs[b].end, m, size);
    RegionsCarve(bs, large, regions, b, m, size);
  }

  /** A new block brings no region. */
  lemma RegionsGrow(bs: seq<Block>, large: seq<Descriptor>, regions: seq<Region>, b: Block)
    requires RegionsOk(bs, large, regions) && b.base + BLOCK_HEADER == b.last <= b.end
    ensures RegionsOk(bs + [b], large, regions)
  {
  }

  /** The counters do not concern the regions. */
  lemma RegionsSame(bs: seq<Block>, cs: seq<Block>, large: seq<Descriptor>, regions: seq<Region>)
    requires |bs| == |cs| && forall i | 0 <= i < |bs| :: cs[i] == bs[i].(failed := cs[i].failed)
    ensures RegionsOk(cs, large, regions) <==> RegionsOk(bs, large, regions)
  {
  }

  /** A new block with the request at its start. */
  lemma RegionsNew(bs: seq<Block>, ds: seq<Block>, large: seq<Descriptor>, regions: seq<Region>, b: Block, m: nat,
                   size: nat)
    requires Counted(bs, ds, b) && Scattered(ds) && m == b.base + BLOCK_HEADER && b.last == m + size <= b.end
    requires RegionsOk(bs, large, regions)
    ensures RegionsOk(ds, large, regions + [Region(|bs|, m, size)])
  {
    var cs, empty := ds[..|bs|], b.(last := m);
    RegionsSame(bs, cs, large, regions);
    RegionsGrow(cs, large, regions, empty);
    RegionsCarve(cs + [empty], large, regions, |cs|, m, size);
    assert (cs + [empty])[|cs| := b] == ds;
  }

  /** A descriptor put in front of the list. */
  lemma DescriptorPush(large: seq<Descriptor>, blocks: set<nat>, live: set<nat>, d: Descriptor)
    requires DescriptorsOk(large, blocks, live)
    requires d.alloc != 0 && d.alloc in live && d.alloc !in blocks && d.alloc !in Held(large)
    ensures DescriptorsOk([d] + large, blocks, live) && Held([d] + large) == Held(large) + {d.alloc}
  {
    HeldPush(large, d);
    forall i, j | 0 <= i < j < |large| + 1 && ([d] + large)[i].alloc != 0
      ensures ([d] + large)[i].alloc != ([d] + large)[j].alloc
    {
      if i == 0 {
        assert large[j - 1].alloc != 0 ==> large[j - 1].alloc in Held(large);
      }
    }
  }

  lemma HeldPush(large: seq<Descriptor>, d: Descriptor)
    requires d.alloc != 0
    ensures Held([d] + large) == Held(large) + {d.alloc}
  {
    var ds := [d] + large;
    assert ds[0] == d;
    assert forall i | 0 <= i < |large| :: ds[i + 1] == large[i];
    assert forall i | 0 < i < |ds| :: ds[i] == large[i - 1];
  }

  /** An empty descriptor used again. */
  lemma DescriptorSet(large: seq<Descriptor>, blocks: set<nat>, live: set<nat>, i: nat, p: nat)
    requires DescriptorsOk(large, blocks, live) && i < |large| && large[i].alloc == 0
    requires p != 0 && p in live && p !in blocks && p !in Held(large)
    ensures DescriptorsOk(large[i := large[i].(alloc := p)], blocks, live)
    ensures Held(large[i := large[i].(alloc := p)]) == Held(large) + {p}
  {
    var ds := large[i := large[i].(alloc := p)];
    assert ds[i].alloc == p;
    assert forall j | 0 <= j < |large| && j != i :: ds[j] == large[j];
    assert forall j | 0 <= j < |large| && large[j].alloc != 0 :: large[j].alloc in Held(large);
  }

  /** A descriptor emptied, its allocation given back. */
  lemma DescriptorClear(large: seq<Descriptor>, blocks: set<nat>, live: set<nat>, i: nat)
    requires DescriptorsOk(large, blocks, live) && i < |large| && large[i].alloc != 0
    ensures DescriptorsOk(large[i := large[i].(alloc := 0)], blocks, live - {large[i].alloc})
    ensures Held(large[i := large[i].(alloc := 0)]) == Held(large) - {large[i].alloc}
  {
    var ds := large[i := large[i].(alloc := 0)];
    assert forall j | 0 <= j < |large| && j != i :: ds[j] == large[j];
    assert forall j | 0 <= j < |large| && large[j].alloc != 0 :: large[j].alloc in Held(large);
  }

  /** The region of a new descriptor. */
  lemma RegionsPush(bs: seq<Block>, cs: seq<Block>, large: seq<Descriptor>, regions: seq<Region>, d: Descriptor)
    requires RegionsOk(bs, large, regions) && RegionsOk(cs, large, regions + [d.home]) && d.home.size == DESCRIPTOR
    ensures RegionsOk(cs, [d] + large, regions + [d.home])
  {
    var ds, all := [d] + large, regions + [d.home];
    assert all[|regions|] == d.home;
    forall j | 0 <= j < |large|
      ensures Apart(d.home, large[j].home)
    {
      assert large[j] in large;
      var r :| 0 <= r < |regions| && regions[r] == large[j].home;
      assert all[r] == large[j].home;
    }
    assert forall i | 0 < i < |ds| :: ds[i] == large[i - 1];
  }

  /** What a descriptor holds does not concern the regions. */
  lemma RegionsHold(bs: seq<Block>, large: seq<Descriptor>, regions: seq<Region>, i: nat, p: nat)
    requires i < |large|
    ensures RegionsOk(bs, large[i := large[i].(alloc := p)], regions) <==> RegionsOk(bs, large, regions)
  {
    var ds := large[i := large[i].(alloc := p)];
    assert forall j | 0 <= j < |large| :: ds[j].home == large[j].home;
    assert forall j | 0 <= j < |large| :: ds[j] in ds && large[j] in large;
  }

  // ----- Which pools never overrun

  /** From no multiple of `g` between `start` and `end` does aligning step past the end. */
  ghost predicate NeverPast(g: nat, start: nat, end: nat)
    requires g > 0
  {
    forall last: nat | last % g == 0 && start <= last <= end :: Align(last) <= end
  }

  /** Aligning from the offsets that occur. */
  lemma AlignAt(a: nat)
    ensures Align(32 * a) == 32 * a && Align(32 * a + 8) == 32 * a + 32
    ensures Align(32 * a + 16) == 32 * a + 32 && Align(32 * a + 24) == 32 * a + 32
  {
    DivModUnique(32 * a + 31, 32, a, 31);
    DivModUnique(32 * a + 8 + 31, 32, a + 1, 7);
    DivModUnique(32 * a + 16 + 31, 32, a + 1, 15);
    DivModUnique(32 * a + 24 + 31, 32, a + 1, 23);
  }

  /** What the free ends are multiples of, in the first block, which follows the pool header, and in the
      others. */
  function Grade(i: nat): (g: nat)
    ensures g == 8 || g == 16
  {
    if i == 0 then 8 else 16
  }

  /** A multiple of 8 or 16 is a multiple of 32 or at least that far past one. */
  lemma GradeGap(last: nat, g: nat)
    requires (g == 8 || g == 16) && last % g == 0
    ensures last % 32 == 0 || last % 32 >= g
  {
    ModOfMod(last, g, 32 / g);
    assert last % 32 % g == 0;
  }

  lemma AlignBelow(last: nat, e: nat, r: nat, g: nat)
    requires (g == 8 || g == 16) && last % g == 0 && last <= 32 * e + r && r < g
    ensures Align(last) <= 32 * e + r
  {
    var a, x := last / 32, last % 32;
    GradeGap(last, g);
    if x == 0 {
      AlignAt(a);
    } else {
      DivModUnique(last + 31, 32, a + 1, x - 1);
      assert a < e;
    }
  }

  lemma NeverPastBelow(g: nat, start: nat, e: nat, r: nat)
    requires (g == 8 || g == 16) && r < g
    ensures NeverPast(g, start, 32 * e + r)
  {
    forall last: nat | last % g == 0 && start <= last <= 32 * e + r
      ensures Align(last) <= 32 * e + r
    {
      AlignBelow(last, e, r, g);
    }
  }

  /** Free ends that are multiples of 8 in the first block and of 16 in a later one are never aligned past
      the end of their block exactly if the size leaves 8 to 15 bytes over a multiple of 32. */
  lemma SteadySizes(base: nat, size: nat)
    requires base % ALIGNMENT == 0
    ensures NeverPast(8, base + POOL_HEADER + BLOCK_HEADER, base + POOL_HEADER + BLOCK_HEADER + size)
         && NeverPast(16, base + BLOCK_HEADER, base + BLOCK_HEADER + size)
      <==> 8 <= size % 32 < 16
  {
    if 8 <= size % 32 < 16 {
      SteadyEnds(base, size);
    } else {
      var last := PastEnd(base, size);
    }
  }

  lemma SteadyEnds(base: nat, size: nat)
    requires base % ALIGNMENT == 0 && 8 <= size % 32 < 16
    ensures NeverPast(8, base + 56, base + 56 + size) && NeverPast(16, base + 32, base + 32 + size)
  {
    var k, q, x := base / 32, size / 32, size % 32;
    NeverPastBelow(8, base + 56, k + 2 + q, x - 8);
    NeverPastBelow(16, base + 32, k + 1 + q, x);
  }

  /** A multiple of 8 in the first block that aligns past the end. */
  lemma PastEnd(base: nat, size: nat) returns (last: nat)
    requires base % ALIGNMENT == 0 && !(8 <= size % 32 < 16)
    ensures last % 8 == 0 && base + 56 <= last <= base + 56 + size < Align(last)
  {
    var k, q, x := base / 32, size / 32, size % 32;
    if x < 8 {
      last := 32 * (k + 1 + q) + 24;
      AlignAt(k + 1 + q);
      DivModUnique(last, 8, 4 * (k + 1 + q) + 3, 0);
    } else {
      last := 32 * (k + 2 + q) + 8;
      AlignAt(k + 2 + q);
      DivModUnique(last, 8, 4 * (k + 2 + q) + 1, 0);
    }
  }

  predicate Graded(bs: seq<Block>, i: nat)
    requires i < |bs|
  {
    bs[i].last % Grade(i) == 0
  }

  predicate AllGraded(bs: seq<Block>) {
    forall i | 0 <= i < |bs| :: Graded(bs, i)
  }

  lemma GradedStep(bs: seq<Block>, cs: seq<Block>, k: nat)
    requires AllGraded(bs) && k < |cs| && Graded(cs, k)
    requires forall i | 0 <= i < |cs| && i != k :: i < |bs| && cs[i].last == bs[i].last && cs[i].base == bs[i].base
    ensures AllGraded(cs)
  {
    forall i | 0 <= i < |cs|
      ensures Graded(cs, i)
    {
      if i != k {
        assert cs[i].last == bs[i].last;
        assert Graded(bs, i);
      }
    }
  }

  lemma GradeSum(m: nat, request: nat, g: nat)
    requires (g == 8 || g == 16) && m % g == 0 && request % 16 == 0
    ensures (m + request) % g == 0
  {
    DivModUnique(m + request, g, m / g + request / 16 * (16 / g), 0);
  }

  /** In a pool of such a size aligning stays inside every block. */
  lemma SteadyRoom(bs: seq<Block>, base: nat, size: nat, live: map<nat, nat>, i: nat)
    requires ChainOk(bs, base, size, live) && i < |bs| && Graded(bs, i)
    requires bs[i].base + BLOCK_HEADER <= bs[i].last <= bs[i].end
    requires 8 <= size % 32 < 16
    ensures Align(bs[i].last) <= bs[i].end
  {
    SteadySizes(if i == 0 then base else bs[i].base, size);
  }

  // ----- The pool

  /** Where a request starts in a block: `mp_alloc` aligns, `mp_nalloc` does not. */
  function Start(b: Block, aligned: bool): nat {
    if aligned then Align(b.last) else b.last
  }

  predicate Fits(b: Block, size: nat, aligned: bool) {
    Guard(b.end, Start(b, aligned), size)
  }

  function Carved(bs: seq<Block>, k: nat, last: nat): seq<Block>
    requires k < |bs|
  {
    bs[k := bs[k].(last := last)]
  }

  /** The chain grown by a block with the request at its start; nothing else moved but counters. */
  ghost predicate Extended(bs: seq<Block>, cs: seq<Block>, m: nat, request: nat) {
    && |cs| == |bs| + 1 && m == cs[|bs|].base + BLOCK_HEADER && cs[|bs|].last == m + request
    && forall i | 0 <= i < |bs| :: cs[i] == bs[i].(failed := cs[i].failed)
  }

  /** `current` after a search of `n` blocks in vain: past those that have failed too often. */
  function Moved(current: nat, n: nat): nat {
    if current + 6 < n then n - 6 else current
  }

  /** Where a request comes from: the first block from `current` on that takes it, and then nothing else has
      changed; a block more, and its memory from the library, only if none does. */
  ghost predicate Placed(bs: seq<Block>, current: nat, live: map<nat, nat>, cs: seq<Block>, current': nat,
                         live': map<nat, nat>, size: nat, request: nat, aligned: bool, r: Region) {
    && r.size == request && current <= r.block <= |bs|
    && (forall j | current <= j < r.block :: !Fits(bs[j], request, aligned))
    && if r.block < |bs| then
         && Fits(bs[r.block], request, aligned) && r.addr == Start(bs[r.block], aligned)
         && cs == Carved(bs, r.block, r.addr + request) && current' == current && live' == live
       else
         && Extended(bs, cs, r.addr, request) && r.addr - BLOCK_HEADER !in live
         && current' == Moved(current, |bs|) && live' == live[r.addr - BLOCK_HEADER := BLOCK_HEADER + size]
  }

  /** Carving concerns neither chain nor counters. */
  lemma CarveChain(bs: seq<Block>, k: nat, last: nat, base: nat, size: nat, live: map<nat, nat>, current: nat)
    requires ChainOk(bs, base, size, live) && CountersOk(bs, current) && k < |bs| && bs[k].last <= last
    ensures ChainOk(Carved(bs, k, last), base, size, live) && CountersOk(Carved(bs, k, last), current)
    ensures Bases(Carved(bs, k, last)) == Bases(bs)
  {
    ChainSame(bs, Carved(bs, k, last), base, size, live);
  }

  lemma PlacedIn(bs: seq<Block>, current: nat, live: map<nat, nat>, size: nat, request: nat, aligned: bool, r: Region)
    requires current <= r.block < |bs| && r.size == request && r.addr == Start(bs[r.block], aligned)
    requires Fits(bs[r.block], request, aligned)
    requires forall j | current <= j < r.block :: !Fits(bs[j], request, aligned)
    ensures Placed(bs, current, live, Carved(bs, r.block, r.addr + request), current, live, size, request, aligned, r)
  {
  }

  lemma PlacedNew(bs: seq<Block>, current: nat, live: map<nat, nat>, cs: seq<Block>, size: nat, request: nat,
                  aligned: bool, m: nat)
    requires current <= |bs| && Extended(bs, cs, m, request) && m - BLOCK_HEADER !in live
    requires forall j | current <= j < |bs| :: !Fits(bs[j], request, aligned)
    ensures Placed(bs, current, live, cs, Moved(current, |bs|), live[m - BLOCK_HEADER := BLOCK_HEADER + size], size,
                   request, aligned, Region(|bs|, m, request))
  {
  }

  /** A block with room takes the request. */
  lemma RoomFits(bs: seq<Block>, base: nat, size: nat, live: map<nat, nat>, j: nat, request: nat, aligned: bool)
    requires ChainOk(bs, base, size, live) && size + BLOCK_HEADER < WORD && j < |bs|
    requires Start(bs[j], aligned) + request <= bs[j].end
    ensures Fits(bs[j], request, aligned)
  {
  }

  /** A request moves the free end of one block. */
  lemma OneMoved(bs: seq<Block>, cs: seq<Block>, k: nat, m: nat, request: nat)
    requires if k < |bs| then cs == Carved(bs, k, m + request) else k == |bs| && Extended(bs, cs, m, request)
    ensures k < |cs| && cs[k].last == m + request
    ensures forall i | 0 <= i < |cs| && i != k :: i < |bs| && cs[i].last == bs[i].last && cs[i].base == bs[i].base
  {
  }

  /** A request of a multiple of 16 bytes in a steady pool. */
  lemma SteadyStep(bs: seq<Block>, cs: seq<Block>, base: nat, size: nat, live: map<nat, nat>, k: nat, m: nat,
                   request: nat, aligned: bool)
    requires AllGraded(bs) && 8 <= size % 32 < 16 && ChainOk(bs, base, size, live)
    requires forall i | 0 <= i < |bs| :: bs[i].base + BLOCK_HEADER <= bs[i].last <= bs[i].end
    requires if k < |bs| then cs == Carved(bs, k, m + request) else k == |bs| && Extended(bs, cs, m, request)
    requires if k < |bs| then m == Start(bs[k], aligned) else m % ALIGNMENT == 0
    requires request % 16 == 0
    ensures AllGraded(cs) && (k < |bs| ==> m <= bs[k].end)
  {
    OneMoved(bs, cs, k, m, request);
    if k < |bs| {
      assert Graded(bs, k);
      SteadyRoom(bs, base, size, live, k);
    }
    if m % ALIGNMENT == 0 {
      ModOfMod(m, Grade(k), 32 / Grade(k));
    }
    GradeSum(m, request, Grade(k));
    GradedStep(bs, cs, k);
  }

  class Pool {
    const base: nat              // address of struct mp_pool_s
    const size: nat
    const max: nat
    const heap: CHeap
    var blocks: seq<Block>       // the chain from `head` on
    var current: nat
    var large: seq<Descriptor>   // the list of descriptors from `large` on
    ghost var regions: seq<Region>  // handed out since the last reset

    ghost predicate Valid()
      reads this, heap
    {
      && heap.Valid()
      && max == (if size < MAX_FROM_POOL then size else MAX_FROM_POOL)
      && size + POOL_HEADER + BLOCK_HEADER < WORD
      && ChainOk(blocks, base, size, heap.live)
      && CountersOk(blocks, current)
      && DescriptorsOk(large, {base} + Bases(blocks), heap.live.Keys)
    }

    /** Every region handed out is where it should be. */
    ghost predicate Clean()
      reads this
    {
      RegionsOk(blocks, large, regions)
    }

    /** The pool has one of the sizes that never overrun, and its free ends are where requests of multiples
        of 16 bytes leave them. */
    ghost predicate Steady()
      reads this
    {
      8 <= size % 32 < 16 && AllGraded(blocks)
    }

    /** What is allocated and does not belong to the pool. */
    ghost function Others(): set<nat>
      reads this, heap
    {
      heap.live.Keys - Owned(base, blocks, large)
    }

    /** `mp_create_pool`. */
    constructor (size: nat, heap: CHeap)
      requires heap.Valid() && size + POOL_HEADER + BLOCK_HEADER < WORD
      modifies heap
      ensures Valid() && Clean() && regions == [] && large == [] && current == 0
      ensures blocks == [Block(base + 24, base + 56 + size, base + 56, 0)]
      ensures this.heap == heap && this.size == size && (8 <= size % 32 < 16 ==> Steady())
      ensures Others() == old(heap.live.Keys)
    {
      this.heap, this.size := heap, size;
      max := if size < MAX_FROM_POOL then size else MAX_FROM_POOL;
      var p := heap.Alloc(size + POOL_HEADER + BLOCK_HEADER, ALIGNMENT);
      base := p;
      HeadGraded(p);
      var first := p + POOL_HEADER + BLOCK_HEADER;
      blocks, current, large := [Block(p + POOL_HEADER, first + size, first, 0)], 0, [];
      regions := [];
    }

    /** The search of `mp_alloc` and `mp_nalloc`: the first block from `current` on that takes the request,
        after at most seven looks however long the chain is. */
    method Search(size: nat, aligned: bool) returns (k: nat, looks: nat)
      requires CountersOk(blocks, current)
      ensures current <= k <= |blocks| && looks <= 7
      ensures forall j | current <= j < k :: !Fits(blocks[j], size, aligned)
      ensures k < |blocks| ==> Fits(blocks[k], size, aligned)
    {
      k, looks := current, 0;
      while k < |blocks|
        invariant current <= k <= |blocks| && looks == k - current
        invariant forall j | current <= j < k :: !Fits(blocks[j], size, aligned)
      {
        looks := looks + 1;
        var m := Start(blocks[k], aligned);
        if Guard(blocks[k].end, m, size) {
          return;
        }
        k := k + 1;
      }
    }

    /** The loop of `mp_alloc_block` over the chain: every block but the tail fails once more, and
        `current` moves past those that have failed too often. */
    method CountFailures() returns (cur: nat)
      requires CountersOk(blocks, current)
      modifies this`blocks
      ensures cur == Moved(current, |blocks|) < |blocks|
      ensures forall i | cur <= i < |blocks| :: blocks[i].failed == Fails(|blocks| - i)
      ensures |blocks| == |old(blocks)|
      ensures forall i | 0 <= i < |blocks| :: blocks[i] == old(blocks)[i].(failed := blocks[i].failed)
    {
      cur := current;
      var p := current;
      while p + 1 < |blocks|
        invariant current <= p < |blocks| == |old(blocks)|
        invariant cur ==
          if current < |blocks| - 6 < p then |blocks| - 6 else if current < |blocks| - 6 then p else current
        invariant forall i | current <= i < |blocks| ::
          blocks[i].failed == Fails(|blocks| - 1 - i) + if i < p then 1 else 0
        invariant forall i | 0 <= i < |blocks| :: blocks[i] == old(blocks)[i].(failed := blocks[i].failed)
      {
        var failed := blocks[p].failed;
        blocks := blocks[p := blocks[p].(failed := failed + 1)];
        if failed > 4 {
          cur := p + 1;
        }
        p := p + 1;
      }
    }
  
    /** The first half of `mp_alloc_block`: the memory of a new block, with the request at its start. */
    method NewBlock(request: nat) returns (node: Block, m: nat)
      requires Valid()
      modifies heap
      ensures heap.Valid() && node.base !in old(heap.live) && Kept(old(heap.live), heap.live)
      ensures heap.live == old(heap.live)[node.base := BLOCK_HEADER + size]
      ensures m == node.base + BLOCK_HEADER && m % ALIGNMENT == 0 && m + size == node.end
      ensures node.last == m + request && node.failed == 0
      ensures ChainOk(blocks + [node], base, size, heap.live) && Bases(blocks + [node]) == Bases(blocks) + {node.base}
    {
      ghost var live := heap.live;
      var psize := blocks[0].end - blocks[0].base;
      var p := heap.Alloc(psize, ALIGNMENT);
      m := Align(p + BLOCK_HEADER);
      AlignedStart(p);
      node := Block(p, p + psize, m + request, 0);
      ChainGrow(blocks, base, size, live, node);
    }

    /** The second half of `mp_alloc_block`: counts the failures and hangs the new block in. */
    method HangIn(node: Block)
      requires CountersOk(blocks, current) && node.failed == 0
      modifies this`blocks, this`current
      ensures CountersOk(blocks, current) && Counted(old(blocks), blocks, node)
      ensures current == Moved(old(current), |old(blocks)|)
    {
      var cur := CountFailures();
      CountersGrow(blocks, cur, node);
      blocks, current := blocks + [node], cur;
    }

    /** Both: the chain has a new tail, and what is not the pool's is as it was. */
    method Grow(request: nat) returns (m: nat, ghost node: Block)
      requires Valid()
      modifies this`blocks, this`current, heap
      ensures Valid() && Counted(old(blocks), blocks, node)
      ensures m == node.base + BLOCK_HEADER && m % ALIGNMENT == 0 && m + size == node.end && node.last == m + request
      ensures Others() == old(Others()) && Kept(old(heap.live), heap.live)
      ensures current == Moved(old(current), |old(blocks)|)
      ensures node.base !in old(heap.live) && heap.live == old(heap.live)[node.base := BLOCK_HEADER + size]
    {
      ghost var bs, live := blocks, heap.live;
      var tail;
      tail, m := NewBlock(request);
      node := tail;
      HangIn(tail);
      ChainCounted(bs, blocks, tail, base, size, heap.live);
      DescriptorsGrow(large, {base} + Bases(bs), live.Keys, tail.base);
      assert {base} + Bases(blocks) == {base} + Bases(bs) + {tail.base};
      assert heap.live.Keys == live.Keys + {tail.base};
      OthersSame(live.Keys, base, bs, blocks, large, tail.base);
    }

    /** `mp_alloc_block`: a new block at the end of the chain, with the request at its start. */
    method AllocBlock(request: nat) returns (m: nat)
      requires Valid() && request <= max
      modifies this`blocks, this`current, this`regions, heap
      ensures Valid() && Extended(old(blocks), blocks, m, request) && m % ALIGNMENT == 0
      ensures regions == old(regions) + [Region(|old(blocks)|, m, request)]
      ensures Others() == old(Others()) && Kept(old(heap.live), heap.live)
      ensures old(Clean()) ==> Clean()
      ensures current == Moved(old(current), |old(blocks)|) && m - BLOCK_HEADER !in old(heap.live)
      ensures heap.live == old(heap.live)[m - BLOCK_HEADER := BLOCK_HEADER + size]
    {
      ghost var bs := blocks;
      ghost var node;
      m, node := Grow(request);
      regions := regions + [Region(|bs|, m, request)];
      if old(Clean()) {
        RegionsNew(bs, blocks, large, old(regions), node, m, request);
      }
    }

    /** If no block from `current` on takes the request, there is a new one. */
    method TakeNew(request: nat, aligned: bool) returns (m: nat)
      requires Valid() && request <= max
      requires forall j | current <= j < |blocks| :: !Fits(blocks[j], request, aligned)
      modifies this`blocks, this`current, this`regions, heap
      ensures Valid() && m % ALIGNMENT == 0
      ensures Placed(old(blocks), old(current), old(heap.live), blocks, current, heap.live, size, request, aligned,
                     Region(|old(blocks)|, m, request))
      ensures regions == old(regions) + [Region(|old(blocks)|, m, request)]
      ensures Others() == old(Others()) && Kept(old(heap.live), heap.live)
      ensures old(Clean()) ==> Clean()
    {
      ghost var bs, cur, live := blocks, current, heap.live;
      m := AllocBlock(request);
      PlacedNew(bs, cur, live, blocks, size, request, aligned, m);
    }

    /** Takes the request from the free end of block `k`. The pool stays clean exactly if aligning has not
        stepped past the end of that block. */
    method TakeFrom(k: nat, request: nat, aligned: bool) returns (m: nat)
      requires Valid() && request <= max && k < |blocks| && Fits(blocks[k], request, aligned)
      modifies this`blocks, this`regions
      ensures Valid() && m == Start(old(blocks)[k], aligned) && blocks == Carved(old(blocks), k, m + request)
      ensures regions == old(regions) + [Region(k, m, request)] && Others() == old(Others())
      ensures old(Clean()) ==> (Clean() <==> m <= blocks[k].end)
    {
      ghost var bs := blocks;
      m := Start(blocks[k], aligned);
      Carve(k, m + request);
      regions := regions + [Region(k, m, request)];
      if old(Clean()) {
        CarveFits(bs, large, old(regions), k, m, request);
      }
    }

    /** Moves the free end of block `k` up. */
    method Carve(k: nat, last: nat)
      requires Valid() && k < |blocks| && blocks[k].last <= last
      modifies this`blocks
      ensures Valid() && blocks == Carved(old(blocks), k, last) && Others() == old(Others())
    {
      CarveChain(blocks, k, last, base, size, heap.live, current);
      blocks := Carved(blocks, k, last);
    }

    /** The first block that takes the request. */
    method TakeOld(k: nat, request: nat, aligned: bool) returns (m: nat)
      requires Valid() && request <= max && current <= k < |blocks| && Fits(blocks[k], request, aligned)
      requires forall j | current <= j < k :: !Fits(blocks[j], request, aligned)
      modifies this`blocks, this`regions
      ensures Valid() && (aligned ==> m % ALIGNMENT == 0)
      ensures Placed(old(blocks), current, heap.live, blocks, current, heap.live, size, request, aligned,
                     Region(k, m, request))
      ensures regions == old(regions) + [Region(k, m, request)] && Others() == old(Others())
      ensures old(Clean()) ==> (Clean() <==> m <= blocks[k].end)
    {
      ghost var bs := blocks;
      m := TakeFrom(k, request, aligned);
      PlacedIn(bs, current, heap.live, size, request, aligned, Region(k, m, request));
    }

    /** A request of at most `max` bytes: the first block that takes it, or a new one. */
    method FromBlocks(request: nat, aligned: bool) returns (m: nat, k: nat, looks: nat)
      requires Valid() && request <= max
      modifies this`blocks, this`current, this`regions, heap
      ensures Valid() && looks <= 7
      ensures Placed(old(blocks), old(current), old(heap.live), blocks, current, heap.live, size,
                     request, aligned, Region(k, m, request))
      ensures aligned || k == |old(blocks)| ==> m % ALIGNMENT == 0
      ensures regions == old(regions) + [Region(k, m, request)]
      ensures Others() == old(Others()) && Kept(old(heap.live), heap.live)
      ensures old(Clean()) ==> (Clean() <==> k == |old(blocks)| || m <= blocks[k].end)
    {
      k, looks := Search(request, aligned);
      if k < |blocks| {
        m := TakeOld(k, request, aligned);
      } else {
        m := TakeNew(request, aligned);
      }
    }

    /** What a request of at most `max` bytes means for the regions: it adds one; in a steady pool, where
        it is right. */
    method Small(request: nat, aligned: bool) returns (home: Region, looks: nat)
      requires Valid() && request <= max
      modifies this`blocks, this`current, this`regions, heap
      ensures Valid() && looks <= 7 && home.size == request && home.block < |blocks|
      ensures aligned ==> home.addr % ALIGNMENT == 0
      ensures Placed(old(blocks), old(current), old(heap.live), blocks, current, heap.live, size,
                     request, aligned, home)
      ensures regions == old(regions) + [home] && large == old(large)
      ensures Others() == old(Others()) && Kept(old(heap.live), heap.live)
      ensures old(Clean()) ==> (Clean() <==> home.addr <= blocks[home.block].end)
      ensures old(Clean() && Steady()) && request % 16 == 0 ==> Clean() && Steady()
    {
      ghost var bs := blocks;
      var m, k;
      m, k, looks := FromBlocks(request, aligned);
      home := Region(k, m, request);
      assert blocks[k].last == m + request;
      if old(Clean() && Steady()) && request % 16 == 0 {
        SteadyStep(bs, blocks, base, size, old(heap.live), k, m, request, aligned);
      }
    }

    /** The end of `mp_alloc_large` and of `mp_memalign`: a descriptor for `p`, carved from the pool and
        put in front of the list. */
    method AddDescriptor(p: nat)
      requires Valid() && DESCRIPTOR <= max && p in Others() && p != 0
      modifies this`blocks, this`current, this`regions, this`large, heap
      ensures Valid() && |large| == |old(large)| + 1 && large[1..] == old(large) && large[0].alloc == p
      ensures regions == old(regions) + [large[0].home] && large[0].home.size == DESCRIPTOR
      ensures Others() == old(Others()) - {p} && p in Held(large) && Kept(old(heap.live), heap.live)
      ensures large[0].home.block < |blocks|
      ensures Placed(old(blocks), old(current), old(heap.live), blocks, current, heap.live, size,
                     DESCRIPTOR, true, large[0].home)
      ensures old(Clean()) ==> (Clean() <==> large[0].home.addr <= blocks[large[0].home.block].end)
      ensures old(Clean() && Steady()) ==> Clean() && Steady()
    {
      ghost var bs := blocks;
      var home, looks := Small(DESCRIPTOR, true);
      var d := Descriptor(home, p);
      DescriptorPush(large, {base} + Bases(blocks), heap.live.Keys, d);
      if old(Clean()) && Clean() {
        RegionsPush(bs, blocks, large, old(regions), d);
      }
      large := [d] + large;
    }

    /** An allocation that is not the pool's yet. */
    method Grab(request: nat, alignment: nat) returns (p: nat)
      requires Valid() && alignment > 0
      modifies heap
      ensures Valid() && p != 0 && p !in old(heap.live) && p % alignment == 0
      ensures heap.live == old(heap.live)[p := request] && Others() == old(Others()) + {p}
    {
      ghost var live := heap.live;
      p := heap.Alloc(request, alignment);
      OwnedLive(blocks, base, size, live, large);
      assert heap.live.Keys == live.Keys + {p};
      OthersMore(live.Keys, Owned(base, blocks, large), p);
      ChainElsewhere(blocks, base, size, live, heap.live);
    }

    /** `mp_alloc_large`: the allocation goes to the first empty descriptor if that is one of the first
        five, and else to a new one in front. */
    method AllocLarge(request: nat) returns (p: nat, slot: nat)
      requires Valid() && DESCRIPTOR <= max
      modifies this`blocks, this`current, this`regions, this`large, heap
      ensures Valid() && p !in old(heap.live) && p in Held(large) && heap.live[p] == request
      ensures Others() == old(Others()) && Kept(old(heap.live), heap.live)
      ensures slot <= |old(large)| && slot <= 5 && forall j | 0 <= j < slot :: old(large)[j].alloc != 0
      ensures slot < |old(large)| && slot < 5 ==>
        && old(large)[slot].alloc == 0 && large == old(large)[slot := old(large)[slot].(alloc := p)]
        && blocks == old(blocks) && current == old(current) && heap.live == old(heap.live)[p := request]
        && regions == old(regions) && (old(Clean()) ==> Clean())
      ensures slot == |old(large)| || slot == 5 ==>
        && |large| == |old(large)| + 1 && large[1..] == old(large) && large[0].alloc == p
        && regions == old(regions) + [large[0].home] && large[0].home.size == DESCRIPTOR
        && large[0].home.block < |blocks|
        && Placed(old(blocks), old(current), old(heap.live)[p := request], blocks, current, heap.live, size,
                  DESCRIPTOR, true, large[0].home)
        && (old(Clean()) ==> (Clean() <==> large[0].home.addr <= blocks[large[0].home.block].end))
      ensures old(Clean() && Steady()) ==> Clean() && Steady()
    {
      p := Grab(request, 1);
      slot := 0;
      while slot < |large|
        invariant 0 <= slot <= |large| && slot <= 5
        invariant forall j | 0 <= j < slot :: large[j].alloc != 0
      {
        if slot == 5 {
          break;
        }
        if large[slot].alloc == 0 {
          DescriptorSet(large, {base} + Bases(blocks), heap.live.Keys, slot, p);
          RegionsHold(blocks, large, regions, slot, p);
          large := large[slot := large[slot].(alloc := p)];
          return;
        }
        slot := slot + 1;
      }
      AddDescriptor(p);
    }

    /** `mp_alloc` (aligned) and `mp_nalloc` (not). A pool too small for a descriptor cannot serve a large
        request. What is handed out is a new region of the pool or a new allocation held by it. */
    method Alloc(request: nat, aligned: bool) returns (p: nat, ghost k: nat)
      requires Valid() && (request <= max || DESCRIPTOR <= max)
      modifies this`blocks, this`current, this`regions, this`large, heap
      ensures Valid() && Others() == old(Others()) && Kept(old(heap.live), heap.live)
      ensures request <= max ==> large == old(large) && k < |blocks|
      ensures request <= max ==> regions == old(regions) + [Region(k, p, request)]
      ensures request <= max ==>
        Placed(old(blocks), old(current), old(heap.live), blocks, current, heap.live, size,
               request, aligned, Region(k, p, request))
      ensures request <= max && (exists j | old(current) <= j < |old(blocks)| ::
                                   Start(old(blocks)[j], aligned) + request <= old(blocks)[j].end) ==>
        heap.live == old(heap.live) && |blocks| == |old(blocks)|
      ensures request <= max && aligned ==> p % ALIGNMENT == 0
      ensures request <= max && old(Clean()) ==> (Clean() <==> p <= blocks[k].end)
      ensures request > max ==> p !in old(heap.live) && p in Held(large) && heap.live[p] == request
      ensures old(Clean() && Steady()) && (request > max || request % 16 == 0) ==> Clean() && Steady()
    {
      if request <= max {
        forall j | current <= j < |blocks| && Start(blocks[j], aligned) + request <= blocks[j].end
          ensures Fits(blocks[j], request, aligned)
        {
          RoomFits(blocks, base, size, heap.live, j, request, aligned);
        }
        var home, looks := Small(request, aligned);
        p, k := home.addr, home.block;
      } else {
        var slot;
        p, slot := AllocLarge(request);
        k := 0;
      }
    }

    /** `mp_memalign`: always a new descriptor. */
    method Memalign(request: nat, alignment: nat) returns (p: nat)
      requires Valid() && DESCRIPTOR <= max && alignment > 0
      modifies this`blocks, this`current, this`regions, this`large, heap
      ensures Valid() && p !in old(heap.live) && p in Held(large) && p % alignment == 0
      ensures Others() == old(Others()) && Kept(old(heap.live), heap.live) && heap.live[p] == request
      ensures |large| == |old(large)| + 1 && large[1..] == old(large) && large[0].alloc == p
      ensures Placed(old(blocks), old(current), old(heap.live)[p := request], blocks, current, heap.live, size,
                     DESCRIPTOR, true, large[0].home)
      ensures old(Clean() && Steady()) ==> Clean() && Steady()
    {
      p := Grab(request, alignment);
      AddDescriptor(p);
    }

    /** Gives back what descriptor `i` holds. */
    method Release(i: nat)
      requires Valid() && i < |large| && large[i].alloc != 0
      modifies this`large, heap
      ensures Valid() && large == old(large)[i := old(large)[i].(alloc := 0)]
      ensures heap.live == old(heap.live) - {old(large)[i].alloc}
      ensures Held(large) == old(Held(large)) - {old(large)[i].alloc}
      ensures Others() == old(Others()) && Clean() == old(Clean())
    {
      ghost var live, p := heap.live, large[i].alloc;
      assert p in Held(large);
      DescriptorClear(large, {base} + Bases(blocks), live.Keys, i);
      RegionsHold(blocks, large, regions, i, 0);
      heap.Free(large[i].alloc);
      large := large[i := large[i].(alloc := 0)];
      ChainElsewhere(blocks, base, size, live, heap.live);
      assert heap.live.Keys == live.Keys - {p};
    }

    /** `mp_free`: gives back a large allocation of the pool and does nothing for any other address. */
    method Free(p: nat)
      requires Valid()
      modifies this`large, heap
      ensures Valid() && Others() == old(Others()) && Clean() == old(Clean())
      ensures heap.live == old(heap.live) - ({p} * old(Held(large)))
      ensures Held(large) == old(Held(large)) - {p}
    {
      var i := 0;
      while i < |large|
        invariant 0 <= i <= |large|
        invariant forall j | 0 <= j < i :: large[j].alloc != p
      {
        if p == large[i].alloc {
          if p != 0 {
            assert p in Held(large);
            Release(i);
          }
          return;
        }
        i := i + 1;
      }
    }

    /** The first loop of `mp_reset_pool` and of `mp_destory_pool`, which does not empty the descriptors:
        every address in a descriptor is freed, and each is live when its turn comes. */
    method FreeLarge()
      requires Valid()
      modifies heap
      ensures heap.Valid() && heap.live == old(heap.live) - Held(large)
    {
      var i := 0;
      assert large[..0] == [];
      while i < |large|
        invariant 0 <= i <= |large| && heap.Valid()
        invariant heap.live == old(heap.live) - Held(large[..i])
      {
        var p := large[i].alloc;
        HeldNext(large, i);
        if p != 0 {
          assert p in Held(large);
          heap.Free(p);
        }
        i := i + 1;
      }
      assert large[..i] == large;
    }

    /** The second loop of `mp_reset_pool`. */
    method EmptyBlocks()
      modifies this`blocks
      ensures |blocks| == |old(blocks)|
      ensures forall i | 0 <= i < |blocks| :: blocks[i] == old(blocks)[i].(last := old(blocks)[i].base + BLOCK_HEADER)
    {
      var i := 0;
      while i < |blocks|
        invariant 0 <= i <= |blocks| == |old(blocks)|
        invariant forall j | 0 <= j < i :: blocks[j] == old(blocks)[j].(last := old(blocks)[j].base + BLOCK_HEADER)
        invariant forall j | i <= j < |blocks| :: blocks[j] == old(blocks)[j]
      {
        blocks := blocks[i := blocks[i].(last := blocks[i].base + BLOCK_HEADER)];
        i := i + 1;
      }
    }

    /** `mp_reset_pool`: the blocks stay, empty again; the large allocations go; the counters and `current`
        stay as they are. */
    method Reset()
      requires Valid()
      modifies this`blocks, this`large, this`regions, heap
      ensures Valid() && Clean() && large == [] && regions == [] && Others() == old(Others())
      ensures heap.live == old(heap.live) - old(Held(large)) && |blocks| == |old(blocks)|
      ensures forall i | 0 <= i < |blocks| :: blocks[i] == old(blocks)[i].(last := old(blocks)[i].base + BLOCK_HEADER)
      ensures 8 <= size % 32 < 16 ==> Steady()
    {
      ghost var bs, live := blocks, heap.live;
      FreeLarge();
      ChainElsewhere(bs, base, size, live, heap.live);
      large, regions := [], [];
      EmptyBlocks();
      ChainSame(bs, blocks, base, size, heap.live);
      ResetGraded(blocks, base, size, heap.live);
    }

    /** `mp_destory_pool`: everything the pool owns is freed, once each, and nothing else. */
    method Destroy()
      requires Valid()
      modifies heap
      ensures heap.Valid() && heap.live == old(heap.live) - old(Owned(base, blocks, large))
      ensures heap.live.Keys == old(Others())
    {
      ghost var live := heap.live;
      FreeLarge();
      var i := 1;
      while i < |blocks|
        invariant 1 <= i <= |blocks| && heap.Valid()
        invariant heap.live == live - Held(large) - Bases(blocks[..i])
      {
        BasesNext(blocks, i, size);
        heap.Free(blocks[i].base);
        i := i + 1;
      }
      assert blocks[..i] == blocks;
      BaseApart(blocks, base, size, live);
      heap.Free(base);
    }
  }

  lemma HeldNext(large: seq<Descriptor>, i: nat)
    requires i < |large| && DescriptorsOk(large, {}, Held(large))
    ensures Held(large[..i + 1]) == Held(large[..i]) + (if large[i].alloc == 0 then {} else {large[i].alloc})
    ensures large[i].alloc !in Held(large[..i])
  {
    var a, b := large[..i], large[..i + 1];
    assert b == a + [large[i]];
    assert forall j | 0 <= j < i :: a[j] == large[j] == b[j];
    assert b[i] == large[i];
  }

  lemma BaseApart(bs: seq<Block>, base: nat, size: nat, live: map<nat, nat>)
    requires ChainOk(bs, base, size, live)
    ensures base !in Bases(bs)
  {
    assert forall j | 0 < j < |bs| :: bs[0].end <= bs[j].base || bs[j].end <= Front(bs, 0);
  }

  lemma BasesNext(bs: seq<Block>, i: nat, size: nat)
    requires 0 < i < |bs| && Scattered(bs) && forall j | 0 <= j < |bs| :: bs[j].end == bs[j].base + BLOCK_HEADER + size
    ensures Bases(bs[..i + 1]) == Bases(bs[..i]) + {bs[i].base} && bs[i].base !in Bases(bs[..i])
  {
    var a, b := bs[..i], bs[..i + 1];
    assert forall j | 0 <= j < i :: a[j] == bs[j] == b[j];
    assert b[i] == bs[i];
  }

  lemma HeadGraded(base: nat)
    requires base % ALIGNMENT == 0
    ensures (base + POOL_HEADER + BLOCK_HEADER) % 8 == 0
  {
    DivModUnique(base + POOL_HEADER + BLOCK_HEADER, 8, 4 * (base / 32) + 7, 0);
  }

  lemma ResetGraded(bs: seq<Block>, base: nat, size: nat, live: map<nat, nat>)
    requires ChainOk(bs, base, size, live)
    requires forall i | 0 <= i < |bs| :: bs[i].last == bs[i].base + BLOCK_HEADER
    ensures AllGraded(bs)
  {
    forall i | 0 <= i < |bs|
      ensures Graded(bs, i)
    {
      var b := if i == 0 then base else bs[i].base;
      DivModUnique(bs[i].last, Grade(i), 32 / Grade(i) * (b / 32 + 1) + (if i == 0 then 3 else 0), 0);
    }
  }

  lemma AlignedStart(p: nat)
    requires p % ALIGNMENT == 0
    ensures Align(p + BLOCK_HEADER) == p + BLOCK_HEADER
  {
    AlignAt(p / 32 + 1);
  }

  /** A pool of 100 bytes hands out memory behind its end: 80 bytes bring the free end to 12 bytes before
      the end, aligning steps 4 bytes past it, and the guard's difference wraps around. */
  method OverrunExample(heap: CHeap) returns (pool: Pool, p: nat, q: nat)
    requires heap.Valid()
    modifies heap
    ensures fresh(pool) && pool.size == 100 && !pool.Clean()
    ensures q > pool.base + POOL_HEADER + BLOCK_HEADER + pool.size
  {
    pool := new Pool(100, heap);
    ghost var base := pool.base;
    AlignAt(base / 32 + 1);
    AlignAt(base / 32 + 4);
    assert Align(base + 56) == base + 64 && Align(base + 144) == base + 160;
    var k, looks;
    assert Fits(pool.blocks[0], 80, true);
    p, k, looks := pool.FromBlocks(80, true);
    assert Fits(pool.blocks[0], 16, true);
    q, k, looks := pool.FromBlocks(16, true);
  }

  // ----- Whole runs of a steady pool

  /** The calls a pool serves. */
  datatype Call = Alloc(request: nat, aligned: bool) | Memalign(bytes: nat, alignment: nat) | Free(p: nat) | Reset

  /** Requests served from the blocks are multiples of 16 bytes; large ones need room for a descriptor. */
  predicate Regular(c: Call, max: nat) {
    match c
    case Alloc(request, _) => if request <= max then request % 16 == 0 else DESCRIPTOR <= max
    case Memalign(_, alignment) => DESCRIPTOR <= max && alignment > 0
    case _ => true
  }

  /** In a pool of a size that is 8 to 15 modulo 32 every run of such calls, in any mix, leaves every region
      handed out inside its block and apart from all others. */
  method Serve(size: nat, heap: CHeap, calls: seq<Call>) returns (pool: Pool)
    requires heap.Valid() && size + POOL_HEADER + BLOCK_HEADER < WORD && 8 <= size % 32 < 16
    requires forall c | c in calls :: Regular(c, if size < MAX_FROM_POOL then size else MAX_FROM_POOL)
    modifies heap
    ensures fresh(pool) && pool.heap == heap && pool.size == size && pool.Valid() && pool.Clean()
    ensures pool.Others() == old(heap.live.Keys)
  {
    pool := new Pool(size, heap);
    for i := 0 to |calls|
      invariant pool.Valid() && pool.Clean() && pool.Steady() && pool.Others() == old(heap.live.Keys)
    {
      assert calls[i] in calls;
      OneCall(pool, calls[i]);
    }
  }

  method OneCall(pool: Pool, c: Call)
    requires pool.Valid() && pool.Clean() && pool.Steady() && Regular(c, pool.max)
    modifies pool`blocks, pool`current, pool`regions, pool`large, pool.heap
    ensures pool.Valid() && pool.Clean() && pool.Steady() && pool.Others() == old(pool.Others())
  {
    match c
    case Alloc(request, aligned) =>
      var p, _ := pool.Alloc(request, aligned);
    case Memalign(bytes, alignment) =>
      var p := pool.Memalign(bytes, alignment);
    case Free(p) =>
      pool.Free(p);
    case Reset =>
      pool.Reset();
  }

  // ----- Every other size overruns

  function Tail(bs: seq<Block>): Block
    requires |bs| > 0
  {
    bs[|bs| - 1]
  }

  /** The chain after an aligned request of 16 bytes from the last block. */
  function Sixteen(bs: seq<Block>): seq<Block>
    requires |bs| > 0
  {
    Carved(bs, |bs| - 1, Align(Tail(bs).last) + 16)
  }

  /** No block but the last takes 16 bytes, and the free end of that is in bounds. */
  ghost predicate Filling(bs: seq<Block>) {
    && |bs| > 0 && Tail(bs).last <= Tail(bs).end < Tail(bs).last + WORD
    && forall j | 0 <= j < |bs| - 1 :: !Fits(bs[j], 16, true)
  }

  predicate Sized(regions: seq<Region>, n: nat) {
    forall r | r in regions :: r.size == n
  }

  /** If there is room, the next request is filling too. */
  lemma FillingStep(bs: seq<Block>)
    requires Filling(bs) && Align(Tail(bs).last) + 16 <= Tail(bs).end
    ensures Fits(Tail(bs), 16, true) && Filling(Sixteen(bs)) && |Sixteen(bs)| == |bs|
    ensures Tail(Sixteen(bs)).end == Tail(bs).end
    ensures Tail(Sixteen(bs)).last % 32 == 16 && Tail(Sixteen(bs)).last > Tail(bs).last
  {
    GuardMeans(Tail(bs).end, Align(Tail(bs).last), 16);
    DivModUnique(Align(Tail(bs).last) + 16, 32, Align(Tail(bs).last) / 32, 16);
  }

  /** A request of 16 bytes that the last block takes, be it for having room or for the guard wrapping
      around. */
  method Request(pool: Pool) returns (p: nat)
    requires pool.Valid() && pool.max >= 16 && Filling(pool.blocks) && Sized(pool.regions, 16)
    requires Fits(Tail(pool.blocks), 16, true)
    modifies pool`blocks, pool`current, pool`regions, pool.heap
    ensures pool.Valid() && Sized(pool.regions, 16) && pool.blocks == Sixteen(old(pool.blocks))
    ensures p == Align(Tail(old(pool.blocks)).last)
  {
    ghost var bs, cur, live := pool.blocks, pool.current, pool.heap.live;
    var k, looks;
    p, k, looks := pool.FromBlocks(16, true);
    FromTail(bs, cur, live, pool.blocks, pool.current, pool.heap.live, pool.size, Region(k, p, 16));
  }

  lemma FromTail(bs: seq<Block>, current: nat, live: map<nat, nat>, cs: seq<Block>, current': nat,
                 live': map<nat, nat>, size: nat, r: Region)
    requires Filling(bs) && Fits(Tail(bs), 16, true) && current < |bs|
    requires Placed(bs, current, live, cs, current', live', size, 16, true, r)
    ensures cs == Sixteen(bs) && r.addr == Align(Tail(bs).last)
  {
    assert r.block == |bs| - 1;
  }

  /** Requests of 16 bytes until the last block has no room. */
  method Fill(pool: Pool)
    requires pool.Valid() && pool.max >= 16 && Filling(pool.blocks) && Sized(pool.regions, 16)
    modifies pool`blocks, pool`current, pool`regions, pool.heap
    ensures pool.Valid() && Filling(pool.blocks) && Sized(pool.regions, 16) && |pool.blocks| == |old(pool.blocks)|
    ensures Tail(pool.blocks).end == Tail(old(pool.blocks)).end < Align(Tail(pool.blocks).last) + 16
    ensures Tail(pool.blocks).last == Tail(old(pool.blocks)).last || Tail(pool.blocks).last % 32 == 16
  {
    while Align(Tail(pool.blocks).last) + 16 <= Tail(pool.blocks).end
      invariant pool.Valid() && Filling(pool.blocks) && Sized(pool.regions, 16) && |pool.blocks| == |old(pool.blocks)|
      invariant Tail(pool.blocks).end == Tail(old(pool.blocks)).end
      invariant Tail(pool.blocks).last == Tail(old(pool.blocks)).last || Tail(pool.blocks).last % 32 == 16
      decreases Tail(pool.blocks).end - Tail(pool.blocks).last
    {
      FillingStep(pool.blocks);
      var p := Request(pool);
    }
  }

  /** The free end of a full block is halfway between two multiples of 32: aligning steps past the end if
      that comes before the next one, and else no request fits. */
  lemma FullBlock(b: Block)
    requires b.last <= b.end < Align(b.last) + 16 && b.last % 32 == 16
    ensures Align(b.last) > b.end <==> b.end % 32 >= 16
  {
    var a := b.last / 32;
    AlignAt(a);
    if b.end < 32 * a + 32 {
      DivModUnique(b.end, 32, a, b.end - 32 * a);
    } else {
      DivModUnique(b.end, 32, a + 1, b.end - 32 * a - 32);
    }
  }

  /** The end of the first block. */
  lemma HeadEnd(base: nat, size: nat)
    requires base % 32 == 0
    ensures (base + 56 + size) % 32 == if size % 32 < 8 then size % 32 + 24 else size % 32 - 8
    ensures Align(base + 56) == base + 64
  {
    var k, q, x := base / 32, size / 32, size % 32;
    AlignAt(k + 1);
    if x < 8 {
      DivModUnique(base + 56 + size, 32, k + 1 + q, x + 24);
    } else {
      DivModUnique(base + 56 + size, 32, k + 2 + q, x - 8);
    }
  }

  /** A full first block that aligning does not step out of: the next request brings a second block, whose
      end is as far past a multiple of 32 as the size. */
  method SecondBlock(pool: Pool)
    requires pool.Valid() && pool.max >= 16 && Filling(pool.blocks) && Sized(pool.regions, 16) && |pool.blocks| == 1
    requires Align(Tail(pool.blocks).last) <= Tail(pool.blocks).end < Align(Tail(pool.blocks).last) + 16
    modifies pool`blocks, pool`current, pool`regions, pool.heap
    ensures pool.Valid() && Filling(pool.blocks) && Sized(pool.regions, 16) && |pool.blocks| == 2
    ensures Tail(pool.blocks).end % 32 == pool.size % 32 && Tail(pool.blocks).last % 32 == 16
  {
    ghost var bs := pool.blocks;
    GuardMeans(bs[0].end, Align(bs[0].last), 16);
    var m, k, looks := pool.FromBlocks(16, true);
    SecondFilling(bs, pool.blocks, m, pool.size);
  }

  lemma SecondFilling(bs: seq<Block>, cs: seq<Block>, m: nat, size: nat)
    requires |bs| == 1 && !Fits(bs[0], 16, true) && Extended(bs, cs, m, 16) && cs[1].end == m + size
    requires m % 32 == 0 && 16 <= size < WORD
    ensures Filling(cs) && Tail(cs).end % 32 == size % 32 && Tail(cs).last % 32 == 16
  {
    SecondEnd(m, size);
  }

  lemma SecondEnd(m: nat, size: nat)
    requires m % 32 == 0
    ensures (m + 16) % 32 == 16 && (m + size) % 32 == size % 32
  {
    DivModUnique(m + 16, 32, m / 32, 16);
    DivModUnique(m + size, 32, m / 32 + size / 32, size % 32);
  }

  /** The first block when it is full. */
  lemma FullHead(base: nat, size: nat, b: Block)
    requires base % 32 == 0 && size >= 16 && b.end == base + 56 + size && b.last <= b.end < Align(b.last) + 16
    requires b.last == base + 56 || b.last % 32 == 16
    ensures Align(b.last) > b.end <==> size % 32 < 8 || size % 32 >= 24
  {
    HeadEnd(base, size);
    if b.last != base + 56 {
      FullBlock(b);
    }
  }

  /** Fills the first block, and a second one if need be. */
  method FillUp(pool: Pool)
    requires pool.Valid() && pool.size >= 16
    requires pool.blocks == [Block(pool.base + 24, pool.base + 56 + pool.size, pool.base + 56, 0)]
    requires pool.regions == [] && !(8 <= pool.size % 32 < 16)
    modifies pool`blocks, pool`current, pool`regions, pool.heap
    ensures pool.Valid() && Filling(pool.blocks) && Sized(pool.regions, 16)
    ensures Tail(pool.blocks).end < Align(Tail(pool.blocks).last)
  {
    Fill(pool);
    FullHead(pool.base, pool.size, Tail(pool.blocks));
    if pool.size % 32 < 8 || pool.size % 32 >= 24 {
      return;
    }
    SecondBlock(pool);
    Fill(pool);
    FullBlock(Tail(pool.blocks));
  }

  /** A pool of any other size, serving requests of 16 bytes only (of 0 bytes if it is smaller than that),
      hands out memory behind the end of a block. */
  method Overrun(size: nat, heap: CHeap) returns (pool: Pool, p: nat)
    requires heap.Valid() && size + POOL_HEADER + BLOCK_HEADER < WORD && !(8 <= size % 32 < 16)
    modifies heap
    ensures fresh(pool) && pool.size == size && pool.large == []
    ensures Sized(pool.regions, if size < 8 then 0 else 16)
    ensures pool.blocks != [] && Tail(pool.blocks).end < p <= Tail(pool.blocks).last && !pool.Clean()
  {
    pool := new Pool(size, heap);
    if size < 8 {
      p := Nothing(pool);
    } else {
      FillUp(pool);
      GuardMeans(Tail(pool.blocks).end, Align(Tail(pool.blocks).last), 16);
      p := Request(pool);
    }
  }

  /** A request of 0 bytes from a pool that has less than the 8 bytes that aligning takes. */
  method Nothing(pool: Pool) returns (p: nat)
    requires pool.Valid() && pool.size < 8 && pool.regions == [] && pool.current == 0
    requires pool.blocks == [Block(pool.base + 24, pool.base + 56 + pool.size, pool.base + 56, 0)]
    modifies pool`blocks, pool`current, pool`regions, pool.heap
    ensures Sized(pool.regions, 0)
    ensures pool.blocks != [] && Tail(pool.blocks).end < p <= Tail(pool.blocks).last
  {
    HeadEnd(pool.base, pool.size);
    assert Fits(pool.blocks[0], 0, true);
    var k, looks;
    p, k, looks := pool.FromBlocks(0, true);
  }
}

/** kernel/reflex_heap.c on a 32-bit target.

    `hdr` holds the block header stored at an address and `mem` the bytes.
    `blocks` is the list those headers spell out, in address order. */
module Heap {
  import opened Arith
  import opened HeapAudit
  import opened HeapBlocks
  import opened HeapSizes
  import opened HeapStore

  /** The last value seen is `free` and the least one is `minFree`. */
  ghost predicate Tracked(seen: seq<nat>, free: nat, minFree: nat)
  {
    && |seen| > 0 && seen[|seen| - 1] == free && minFree in seen
    && (forall v :: v in seen ==> minFree <= v)
  }

  /** One more value of `free`, and the minimum noted with it. */
  lemma TrackedOn(seen: seq<nat>, free: nat, minFree: nat, free': nat, minFree': nat)
    requires Tracked(seen, free, minFree) && minFree' == if free' < minFree then free' else minFree
    ensures Tracked(seen + [free'], free', minFree')
  {
    assert minFree in seen + [free'];
  }

  class Heap {
    var ram: Store
    var regionLo: nat
    var regionHi: nat
    var first: nat
    var total: nat
    var free: nat
    var minFree: nat
    var ready: bool

    ghost var blocks: seq<Blk>
    /** Every value of `free` a caller could have read since the heap was set up. */
    ghost var seen: seq<nat>

    /** The list is laid out in memory as the headers say; it may still hold free neighbours. */
    ghost predicate Laid()
      reads this
    {
      first == regionLo && Linked(ram, blocks, regionLo, regionHi)
    }

    /** What holds of the list whenever the lock is not held. */
    ghost predicate Steady()
      reads this
    {
      && (ready ==> Laid() && Coalesced(blocks) && free == FreeBytes(blocks))
      && (!ready ==> blocks == [] && first == NULL && free == 0 && ram.hdr == map[])
    }

    ghost predicate Valid()
      reads this
    {
      && Steady()
      && minFree <= free
      && (ready ==>
            && total == regionHi - regionLo - HDR
            && Tracked(seen, free, minFree))
    }

    constructor (memory: map<nat, nat>)
      ensures Valid() && !ready && ram == Store(map[], memory)
    {
      ram := Store(map[], memory);
      regionLo, regionHi, first, total, free, minFree := 0, 0, NULL, 0, 0, 0;
      ready := false;
      blocks, seen := [], [];
    }

    /** Hand the allocator the bytes [base, base + size), which `memory` holds. */
    method Init(base: nat, size: nat, memory: map<nat, nat>)
      requires base + size < U32 && forall x :: base <= x < base + size ==> x in memory
      modifies this
      ensures Valid() && ram.mem.Keys == memory.Keys
      ensures ready <==> base != NULL && size > (8 - base % 8) % 8 + HDR + MIN_PAYLOAD
      ensures ready ==>
        && regionLo == base + (8 - base % 8) % 8 && base <= regionLo && base + size - 8 < regionHi <= base + size
        && blocks == [Blk(regionLo, regionHi - regionLo - HDR, false)] && seen == [free]
    {
      first, regionLo, regionHi := NULL, 0, 0;
      total, free, minFree := 0, 0, 0;
      ready := false;
      blocks, seen := [], [];
      ram := Store(map[], memory);
      if base == NULL || size < HDR + MIN_PAYLOAD {
        return;
      }
      var start := (base + 7) / 8 * 8;
      var lost := start - base;
      StartAligned(base, start);
      if size <= lost + HDR + MIN_PAYLOAD {
        return;
      }
      EightsOf(size - lost, (size - lost) / 8 * 8);
      FirstBlock(start, (size - lost) / 8 * 8);
    }

    /** The end of init: one free block over the whole region. */
    method FirstBlock(start: nat, usable: nat)
      requires 0 < start && start % 8 == 0 && usable % 8 == 0 && usable >= HDR + MIN_PAYLOAD && start + usable < U32
      requires ram.hdr == map[] && forall x :: start <= x < start + usable ==> x in ram.mem
      modifies this
      ensures Valid() && ready && regionLo == start && regionHi == start + usable && seen == [free]
      ensures blocks == [Blk(start, usable - HDR, false)] && ram.mem.Keys == old(ram).mem.Keys
    {
      ghost var b := Blk(start, usable - HDR, false);
      OneBlockLinked(ram.mem, start, start + usable, b);
      SetUp(start, usable, b);
    }

    /** The stores of init. */
    method SetUp(start: nat, usable: nat, ghost b: Blk)
      requires usable >= HDR && b == Blk(start, usable - HDR, false)
      requires Linked(ram.Put(start, Header(NULL, NULL, usable - HDR, 0)), [b], start, start + usable)
      modifies this
      ensures Valid() && ready && regionLo == start && regionHi == start + usable && seen == [free]
      ensures blocks == [b] && ram.mem.Keys == old(ram).mem.Keys
    {
      FreeOfOne(b);
      ram := ram.Put(start, Header(NULL, NULL, usable - HDR, 0));
      regionLo, regionHi := start, start + usable;
      first := start;
      total, free, minFree := usable - HDR, usable - HDR, usable - HDR;
      ready := true;
      blocks, seen := [b], [free];
    }

    /** Give block k exactly `want` bytes and return the rest as a free block. */
    method Split(b: nat, want: nat, ghost k: nat)
      requires Laid() && k < |blocks| && blocks[k].addr == b
      requires MIN_PAYLOAD <= want <= blocks[k].size && want % 8 == 0 && free < U32
      modifies `ram, `free, `blocks
      ensures Laid()
      ensures blocks == Splice(old(blocks), k, k + 1, Carve(old(blocks)[k], want, old(blocks)[k].used))
      ensures free == if old(blocks)[k].size - want < SPLIT_MIN then old(free) else USub(old(free), HDR)
      ensures old(blocks)[k].size - want < SPLIT_MIN ==> unchanged(this)
      ensures KeptBut(old(blocks), {old(blocks)[k]}, old(ram).mem, ram.mem)
      ensures Kept(old(ram).mem, ram.mem, b + HDR, b + HDR + want)
    {
      ghost var s, bs, lo, hi := ram, blocks, regionLo, regionHi;
      ReadHeader(s, bs, k, lo, hi);
      SplitTiled(bs, k, want, lo, hi);
      var rest := USub(ram.hdr[b].size, want);
      if rest < SPLIT_MIN {
        return;
      }
      var tail := b + HDR + want;
      var n := ram.hdr[b].next;
      SplitLinked(s, bs, k, want, b, n, tail, rest, lo, hi);
      SplitKept(s, bs, k, want, b, n, tail, rest, lo, hi);
      ram := ram.Put(tail, Header(b, n, rest - HDR, 0));
      ram := if n == NULL then ram else ram.Put(n, ram.hdr[n].(prev := tail));
      ram := ram.Put(b, ram.hdr[b].(next := tail, size := want));
      free := USub(free, HDR);
      assert ram == SplitStore(s, b, n, tail, rest, want);
      blocks := Splice(bs, k, k + 1, Carve(bs[k], want, bs[k].used));
    }

    /** Merge block k with its successor if that is free. */
    method CoalesceForward(b: nat, ghost k: nat)
      requires Laid() && k < |blocks| && blocks[k].addr == b && free + HDR < U32
      modifies `ram, `free, `blocks
      ensures Laid() && blocks == JoinAt(old(blocks), k)
      ensures free == if |blocks| == |old(blocks)| then old(free) else old(free) + HDR
      ensures KeptBut(old(blocks), {}, old(ram).mem, ram.mem)
    {
      ghost var s, bs, lo, hi := ram, blocks, regionLo, regionHi;
      ReadHeader(s, bs, k, lo, hi);
      var n := ram.hdr[b].next;
      if k + 1 < |bs| {
        ReadAfterNext(s, bs, k, lo, hi);
      }
      if n == NULL || ram.hdr[n].used != 0 {
        return;
      }
      var after := ram.hdr[n].next;
      JoinLinked(s, bs, k, b, n, after, lo, hi);
      JoinKept(s, bs, k, b, n, after, lo, hi);
      ram := ram.Put(b, ram.hdr[b].(size := ram.hdr[b].size + HDR + ram.hdr[n].size, next := after));
      ram := if after == NULL then ram else ram.Put(after, ram.hdr[after].(prev := b));
      free := UAdd(free, HDR);
      assert ram == JoinStore(s, b, n, after);
      blocks := Splice(bs, k, k + 2, [Joined(bs, k)]);
    }

    /** Store the `used` word of block k. */
    method Mark(b: nat, u: bool, ghost k: nat)
      requires Laid() && k < |blocks| && blocks[k].addr == b
      modifies `ram, `blocks
      ensures Laid() && blocks == old(blocks)[k := old(blocks)[k].(used := u)]
      ensures KeptBut(old(blocks), {}, old(ram).mem, ram.mem)
    {
      MarkLinked(ram, blocks, k, u, regionLo, regionHi);
      MarkKept(ram, blocks, k, u, regionLo, regionHi);
      ram := ram.Put(b, ram.hdr[b].(used := if u then 1 else 0));
      blocks := blocks[k := blocks[k].(used := u)];
    }

    /** What the search loop knows of a free block. */
    lemma FreeBlock(i: nat)
      requires Laid() && i < |blocks| && !blocks[i].used && free == FreeBytes(blocks)
      ensures blocks[i].size <= free < U32
    {
      BytesConserved(blocks, regionLo, regionHi);
      FreeBytesAt(blocks, i);
    }

    method NoteFreeChange()
      modifies `minFree
      ensures minFree == if free < old(minFree) then free else old(minFree)
    {
      if free < minFree {
        minFree := free;
      }
    }

    /** Mark block k used and debit its bytes. */
    method MarkUsed(b: nat, ghost k: nat)
      requires Laid() && k < |blocks| && blocks[k].addr == b && blocks[k].size <= free < U32
      modifies `ram, `free, `blocks
      ensures Laid() && blocks == old(blocks)[k := old(blocks)[k].(used := true)]
      ensures free == old(free) - old(blocks)[k].size
      ensures KeptBut(old(blocks), {}, old(ram).mem, ram.mem)
    {
      Mark(b, true, k);
      ReadHeader(ram, blocks, k, regionLo, regionHi);
      free := USub(free, ram.hdr[b].size);
    }

    /** The end of the search loop: cut block k down, mark it used and account for it. */
    method Take(b: nat, want: nat, ghost k: nat) returns (p: nat)
      requires Laid() && k < |blocks| && blocks[k].addr == b && !blocks[k].used
      requires MIN_PAYLOAD <= want <= blocks[k].size <= free < U32 && want % 8 == 0
      modifies `ram, `free, `minFree, `blocks
      ensures Laid() && p == b + HDR
      ensures blocks == Splice(old(blocks), k, k + 1, Carve(old(blocks)[k], want, true))
      ensures free + PlacedIn(old(blocks)[k], 0, want).size
           == old(free) - (if old(blocks)[k].size - want < SPLIT_MIN then 0 else HDR)
      ensures minFree == if free < old(minFree) then free else old(minFree)
      ensures KeptBut(old(blocks), {old(blocks)[k]}, old(ram).mem, ram.mem)
    {
      ghost var bs, m := blocks, ram.mem;
      TakeIsPlaced(bs, k, want);
      Split(b, want, k);
      ghost var cut, m' := blocks, ram.mem;
      MarkUsed(b, k);
      NoteFreeChange();
      SpliceMembers(bs, k, k + 1, Carve(bs[k], want, false), regionLo, regionHi);
      KeptChain(bs, {bs[k]}, cut, {}, m, m', ram.mem);
      p := b + HDR;
    }

    /** The aligned branch of the search: split off a gap below the aligned payload and step to the tail.
        When the 32-bit test passed only by wrapping, the split is declined and the step leads to a used block. */
    method OpenGap(b: nat, gap: nat, want: nat, ghost k: nat) returns (t: nat)
      requires Laid() && Coalesced(blocks) && k < |blocks| && blocks[k].addr == b && !blocks[k].used
      requires SPLIT_MIN <= gap < U32 && gap % 8 == 0 && MIN_PAYLOAD <= want < U32
      requires UAdd(gap, want) <= blocks[k].size && !TearsWith(blocks[k], gap, want, regionHi)
      requires blocks[k].size <= free < U32
      modifies `ram, `free, `blocks
      ensures Laid()
      ensures gap + want <= old(blocks)[k].size ==>
        && blocks == Splice(old(blocks), k, k + 1, Gapped(old(blocks)[k], gap)) && t == blocks[k + 1].addr
        && free == old(free) - HDR && KeptBut(old(blocks), {old(blocks)[k]}, old(ram).mem, ram.mem)
      ensures gap + want > old(blocks)[k].size ==>
        && unchanged(this) && k + 1 < |blocks| && t == blocks[k + 1].addr && blocks[k + 1].used
    {
      ghost var s, bs, lo, hi := ram, blocks, regionLo, regionHi;
      ReadHeader(s, bs, k, lo, hi);
      FreeEdges(bs, k);
      Split(b, gap - HDR, k);
      if gap + want > bs[k].size {
        assert ram == s && blocks == bs;
      } else {
        GapThenTake(bs, k, gap, want);
        ReadHeader(ram, blocks, k, lo, hi);
      }
      t := ram.hdr[b].next;
    }

    /** An allocation has been placed in block k of `bs`, and `p` is its payload. */
    ghost predicate Placement(bs: seq<Blk>, k: nat, gap: nat, want: nat,
                              free0: nat, minFree0: nat, mem0: map<nat, nat>, p: nat)
      reads this
    {
      && k < |bs| && (gap == 0 || gap >= SPLIT_MIN) && gap + want <= bs[k].size
      && Laid() && blocks == AllocAt(bs, k, gap, want)
      && p == PlacedIn(bs[k], gap, want).Pay()
      && free + PlacedIn(bs[k], gap, want).size + 16 * (|blocks| - |bs|) == free0
      && minFree == (if free < minFree0 then free else minFree0)
      && KeptBut(bs, {bs[k]}, mem0, ram.mem)
    }

    /** The search loop at a free block whose payload is aligned as it is. */
    method TryPlain(b: nat, want: nat, ghost i: nat) returns (p: nat, t: nat)
      requires Laid() && free == FreeBytes(blocks)
      requires i < |blocks| && b == blocks[i].addr && !blocks[i].used
      requires MIN_PAYLOAD <= want < U32 && want % 8 == 0
      modifies `ram, `free, `minFree, `blocks
      ensures want > old(blocks)[i].size ==> p == NULL && unchanged(this) && t == AddrAt(blocks, i + 1)
      ensures want <= old(blocks)[i].size ==>
        Placement(old(blocks), i, 0, want, old(free), old(minFree), old(ram).mem, p)
    {
      ReadHeader(ram, blocks, i, regionLo, regionHi);
      FreeBlock(i);
      p, t := NULL, ram.hdr[b].next;
      if ram.hdr[b].size >= want {
        p := Take(b, want, i);
      }
    }

    /** The search loop at a free block that needs a gap.  When the block does not serve, the search goes on
        at block j. */
    method TryGap(b: nat, gap: nat, want: nat, ghost i: nat) returns (p: nat, t: nat, ghost j: nat)
      requires Laid() && Coalesced(blocks) && free == FreeBytes(blocks)
      requires i < |blocks| && b == blocks[i].addr && !blocks[i].used
      requires MIN_PAYLOAD <= want < U32 && want % 8 == 0
      requires SPLIT_MIN <= gap < U32 && gap % 8 == 0 && !TearsWith(blocks[i], gap, want, regionHi)
      modifies `ram, `free, `minFree, `blocks
      ensures gap + want > old(blocks)[i].size ==>
        && p == NULL && unchanged(this) && t == AddrAt(blocks, j)
        && (j == i + 1 || (j == i + 2 <= |blocks| && blocks[i + 1].used))
      ensures gap + want <= old(blocks)[i].size ==>
        Placement(old(blocks), i, gap, want, old(free), old(minFree), old(ram).mem, p)
    {
      ghost var bs, m, lo, hi := blocks, ram.mem, regionLo, regionHi;
      ReadHeader(ram, bs, i, lo, hi);
      FreeBlock(i);
      p, t, j := NULL, ram.hdr[b].next, i + 1;
      if ram.hdr[b].size < UAdd(gap, want) {
        return;
      }
      t := OpenGap(b, gap, want, i);
      ReadHeader(ram, blocks, i + 1, lo, hi);
      if t == NULL || ram.hdr[t].used != 0 || ram.hdr[t].size < want {
        t, j := ram.hdr[t].next, i + 2;
        return;
      }
      GapThenTake(bs, i, gap, want);
      GapOthers(bs, i, gap, lo, hi);
      ghost var open, m' := blocks, ram.mem;
      p := Take(t, want, i + 1);
      KeptChain(bs, {bs[i]}, open, {open[i + 1]}, m, m', ram.mem);
    }

    /** The search loop at free block i, once its gap is known. */
    method TryBlock(b: nat, gap: nat, want: nat, ghost i: nat) returns (p: nat, t: nat, ghost j: nat)
      requires Laid() && Coalesced(blocks) && free == FreeBytes(blocks)
      requires i < |blocks| && b == blocks[i].addr && !blocks[i].used
      requires MIN_PAYLOAD <= want < U32 && want % 8 == 0
      requires gap < U32 && gap % 8 == 0 && (gap == 0 || gap >= SPLIT_MIN)
      requires !TearsWith(blocks[i], gap, want, regionHi)
      modifies `ram, `free, `minFree, `blocks
      ensures gap + want > old(blocks)[i].size ==>
        && p == NULL && unchanged(this) && t == AddrAt(blocks, j)
        && (j == i + 1 || (j == i + 2 <= |blocks| && blocks[i + 1].used))
      ensures gap + want <= old(blocks)[i].size ==>
        Placement(old(blocks), i, gap, want, old(free), old(minFree), old(ram).mem, p)
    {
      if gap == 0 {
        p, t := TryPlain(b, want, i);
        j := i + 1;
      } else {
        p, t, j := TryGap(b, gap, want, i);
      }
    }

    /** One turn of the search loop, at block i of a search that stops at block k. */
    method Visit(b: nat, align: nat, want: nat, ghost i: nat, ghost k: nat) returns (p: nat, t: nat, ghost j: nat)
      requires Laid() && Coalesced(blocks) && free == FreeBytes(blocks)
      requires align < U32 && IsPowerOfTwo(align) && MIN_PAYLOAD <= want < U32 && want % 8 == 0
      requires StopsAt(blocks, align, want, regionHi, k) && i <= k && i < |blocks| && b == blocks[i].addr
      modifies `ram, `free, `minFree, `blocks
      ensures i < k ==> p == NULL && unchanged(this) && i < j <= k && t == AddrAt(blocks, j)
      ensures i == k ==> !old(blocks)[k].used && Placement(old(blocks), k, Gap(old(blocks)[k].Pay(), AtLeastEight(align)),
                                                           want, old(free), old(minFree), old(ram).mem, p)
    {
      ghost var bs, lo, hi := blocks, regionLo, regionHi;
      ReadHeader(ram, bs, i, lo, hi);
      StopsLater(bs, align, want, hi, k, i);
      if ram.hdr[b].used != 0 {
        return NULL, ram.hdr[b].next, i + 1;
      }
      PayAligned(bs, i, lo, hi);
      FreeBlock(i);
      var gap := PayloadGap(b + HDR, align);
      StopsHere(bs, align, want, hi, k, i, gap);
      p, t, j := TryBlock(b, gap, want, i);
      if i < k && j == i + 2 {
        StopsLater(bs, align, want, hi, k, i + 1);
      }
    }

    method Search(align: nat, want: nat) returns (p: nat, ghost k: nat, ghost gap: nat)
      requires Steady() && align < U32 && IsPowerOfTwo(align)
      requires MIN_PAYLOAD <= want < U32 && want % 8 == 0
      requires !TornBeforeFit(blocks, AtLeastEight(align), want, regionHi)
      modifies `ram, `free, `minFree, `blocks
      ensures k == FirstFit(old(blocks), AtLeastEight(align), want)
      ensures k == |old(blocks)| ==> p == NULL && unchanged(this)
      ensures k < |old(blocks)| ==> gap == Gap(old(blocks)[k].Pay(), AtLeastEight(align))
      ensures k < |old(blocks)| ==> Placement(old(blocks), k, gap, want, old(free), old(minFree), old(ram).mem, p)
    {
      ghost var bs := blocks;
      k := FirstFit(bs, AtLeastEight(align), want);
      gap := if k < |bs| then Gap(bs[k].Pay(), AtLeastEight(align)) else 0;
      var b := first;
      ghost var i := 0;
      while b != NULL
        invariant i <= k && b == AddrAt(bs, i)
        invariant unchanged(this)
        decreases |bs| - i
      {
        p, b, i := Visit(b, align, want, i, k);
        if p != NULL {
          return;
        }
      }
      if ready {
        AtEnd(ram, bs, i, regionLo, regionHi);
      }
      p := NULL;
    }

    method AllocLocked(align: nat, size: nat) returns (p: nat)
      requires Steady() && align < U32 && IsPowerOfTwo(align) && !Torn(blocks, align, size, regionHi)
      modifies `ram, `free, `minFree, `blocks
      ensures !Serves(old(blocks), align, size) ==> p == NULL && unchanged(this)
      ensures Serves(old(blocks), align, size) ==>
        Placement(old(blocks), FitOf(old(blocks), align, size), GapOf(old(blocks), align, size), Want(size),
                  old(free), old(minFree), old(ram).mem, p)
    {
      if !ready || size == 0 || !SizeIsSane(size) {
        return NULL;
      }
      ghost var k, gap;
      p, k, gap := Search(align, Want(size));
    }

    /** The allocations now held. */
    ghost function Live(): set<Blk>
      reads this
    {
      UsedSet(blocks)
    }

    /** What the caller of a successful allocation gets. */
    ghost predicate Granted(bs: seq<Blk>, align: nat, size: nat, mem0: map<nat, nat>, p: nat)
      reads this
    {
      && Serves(bs, align, size) && blocks == Served(bs, align, size)
      && p == NewBlock(bs, align, size).Pay() && p % (if align == 0 then 1 else align) == 0
      && NewBlock(bs, align, size).size >= size
      && NewBlock(bs, align, size) !in UsedSet(bs) && Live() == UsedSet(bs) + {NewBlock(bs, align, size)}
      && KeptAll(UsedSet(bs), mem0, ram.mem)
    }

    method AllocSteady(align: nat, size: nat) returns (p: nat)
      requires Steady() && align < U32 && IsPowerOfTwo(align) && !Torn(blocks, align, size, regionHi)
      modifies `ram, `free, `minFree, `blocks
      ensures !Serves(old(blocks), align, size) ==> p == NULL && unchanged(this)
      ensures Serves(old(blocks), align, size) ==>
        && Steady() && Granted(old(blocks), align, size, old(ram).mem, p)
        && minFree == (if free < old(minFree) then free else old(minFree))
    {
      ghost var bs := blocks;
      p := AllocLocked(align, size);
      if p != NULL {
        ServedFacts(bs, align, size, regionLo, regionHi);
      }
    }

    /** reflex_heap_alloc and reflex_heap_alloc_aligned share this body; plain alloc passes 8. */
    method AllocAligned(align: nat, size: nat) returns (p: nat)
      requires Valid() && align < U32 && !Torn(blocks, align, size, regionHi)
      modifies `ram, `free, `minFree, `blocks, `seen
      ensures Valid()
      ensures !(IsPowerOfTwo(align) && Serves(old(blocks), align, size)) ==> p == NULL && unchanged(this)
      ensures IsPowerOfTwo(align) && Serves(old(blocks), align, size) ==>
        Granted(old(blocks), align, size, old(ram).mem, p) && seen == old(seen) + [free]
    {
      if !IsPowerOfTwo(align) {
        return NULL;
      }
      ghost var free0, min0 := free, minFree;
      p := AllocSteady(align, size);
      if p != NULL {
        TrackedOn(seen, free0, min0, free, minFree);
        seen := seen + [free];
      }
    }

    /** Merge block k into its predecessor if that is free. */
    method CoalesceBack(b: nat, ghost k: nat)
      requires Laid() && k < |blocks| && blocks[k].addr == b && free + HDR < U32
      modifies `ram, `free, `blocks
      ensures Laid()
      ensures blocks == if k > 0 && !old(blocks)[k - 1].used then JoinAt(old(blocks), k - 1) else old(blocks)
      ensures free == if |blocks| == |old(blocks)| then old(free) else old(free) + HDR
      ensures KeptBut(old(blocks), {}, old(ram).mem, ram.mem)
    {
      ghost var bs, lo, hi := blocks, regionLo, regionHi;
      ReadHeader(ram, bs, k, lo, hi);
      if k > 0 {
        ReadHeader(ram, bs, k - 1, lo, hi);
      }
      var before := ram.hdr[b].prev;
      if before != NULL {
        if ram.hdr[before].used == 0 {
          CoalesceForward(before, k - 1);
        }
      }
    }

    /** The start of a release: mark block k free and credit its bytes. */
    method Unmark(b: nat, ghost k: nat)
      requires Laid() && k < |blocks| && blocks[k].addr == b && free + blocks[k].size < U32
      modifies `ram, `free, `blocks
      ensures Laid() && blocks == old(blocks)[k := old(blocks)[k].(used := false)]
      ensures free == old(free) + old(blocks)[k].size
      ensures KeptBut(old(blocks), {}, old(ram).mem, ram.mem)
    {
      Mark(b, false, k);
      ReadHeader(ram, blocks, k, regionLo, regionHi);
      free := UAdd(free, ram.hdr[b].size);
    }

    method FreeLocked(ptr: nat, ghost k: nat)
      requires ready && Steady() && k < |blocks| && blocks[k].Pay() == ptr
      modifies `ram, `free, `blocks
      ensures !old(blocks)[k].used ==> unchanged(this)
      ensures old(blocks)[k].used ==>
        && Laid() && blocks == FreeAt(old(blocks), k, regionLo, regionHi)
        && free == old(free) + old(blocks)[k].size + 16 * (|old(blocks)| - |blocks|)
        && KeptAll(UsedSet(old(blocks)) - {old(blocks)[k]}, old(ram).mem, ram.mem)
    {
      ghost var bs, m, lo, hi := blocks, ram.mem, regionLo, regionHi;
      ghost var held := UsedSet(bs) - {bs[k]};
      var b := ptr - HDR;
      ReadHeader(ram, bs, k, lo, hi);
      if ram.hdr[b].used == 0 {
        return;
      }
      ReleaseBound(bs, k, lo, hi);
      ReleaseOthers(bs, k);
      Unmark(b, k);
      ghost var freed, m1 := blocks, ram.mem;
      KeptStep(held, bs, {}, m, m, m1);
      CoalesceForward(b, k);
      ghost var merged, m2 := blocks, ram.mem;
      KeptStep(held, freed, {}, m, m1, m2);
      CoalesceBack(b, k);
      KeptStep(held, merged, {}, m, m2, ram.mem);
      ReleasedBySteps(bs, k, freed, merged, blocks);
      ReleasedIsFreeAt(bs, k, lo, hi);
    }

    /** Merge the free tail that a cut left behind block k with a free successor. */
    method MergeTail(b: nat, ghost k: nat)
      requires Laid() && k + 1 < |blocks| && blocks[k].addr == b && !blocks[k + 1].used && free + HDR < U32
      modifies `ram, `free, `blocks
      ensures Laid() && blocks == JoinAt(old(blocks), k + 1)
      ensures k + 1 < |blocks| && blocks[k] == old(blocks)[k] && free == old(free) + 16 * (|old(blocks)| - |blocks|)
      ensures KeptBut(old(blocks), {}, old(ram).mem, ram.mem)
    {
      ReadHeader(ram, blocks, k, regionLo, regionHi);
      ReadHeader(ram, blocks, k + 1, regionLo, regionHi);
      var t := ram.hdr[b].next;
      if t != NULL && ram.hdr[t].used == 0 {
        CoalesceForward(t, k + 1);
      }
    }

    /** Split block k, and read its size back. */
    method CutOnce(b: nat, want: nat, ghost k: nat) returns (left: nat)
      requires Laid() && k < |blocks| && blocks[k].addr == b && blocks[k].used
      requires MIN_PAYLOAD <= want <= blocks[k].size && want % 8 == 0
      requires free + blocks[k].size < U32
      modifies `ram, `free, `blocks
      ensures Laid() && k < |blocks| && blocks[k].addr == b && left == blocks[k].size && b in ram.hdr
      ensures left == ram.hdr[b].size == (if old(blocks)[k].size - want < SPLIT_MIN then old(blocks)[k].size else want)
      ensures old(blocks)[k].size - want < SPLIT_MIN ==> unchanged(this)
      ensures old(blocks)[k].size - want >= SPLIT_MIN ==>
        && blocks == Splice(old(blocks), k, k + 1, Carve(old(blocks)[k], want, true))
        && k + 1 < |blocks| == |old(blocks)| + 1 && !blocks[k + 1].used && free == USub(old(free), HDR)
        && (forall c :: c in UsedSet(old(blocks)) - {old(blocks)[k]} ==> c in blocks)
      ensures KeptAll(UsedSet(old(blocks)) - {old(blocks)[k]}, old(ram).mem, ram.mem)
      ensures Kept(old(ram).mem, ram.mem, b + HDR, b + HDR + want)
    {
      ghost var bs, m := blocks, ram.mem;
      ReadHeader(ram, bs, k, regionLo, regionHi);
      Split(b, want, k);
      if bs[k].size - want >= SPLIT_MIN {
        TrimOthers(bs, k, want);
        assert blocks[k] == Blk(b, want, true);
        ReadHeader(ram, blocks, k, regionLo, regionHi);
      }
      KeptStep(UsedSet(bs) - {bs[k]}, bs, {bs[k]}, m, m, ram.mem);
      left := ram.hdr[b].size;
    }

    /** The end of both in-place branches of realloc. */
    method CutBack(b: nat, want: nat, ghost k: nat)
      requires Laid() && k < |blocks| && blocks[k].addr == b && blocks[k].used
      requires MIN_PAYLOAD <= want <= blocks[k].size && want % 8 == 0
      requires free + blocks[k].size < U32
      modifies `ram, `free, `blocks
      ensures Laid() && blocks == Trimmed(old(blocks), k, want)
      ensures k < |blocks| && free + blocks[k].size + 16 * (|blocks| - |old(blocks)|) == old(free) + old(blocks)[k].size
      ensures KeptAll(UsedSet(old(blocks)) - {old(blocks)[k]}, old(ram).mem, ram.mem)
      ensures Kept(old(ram).mem, ram.mem, b + HDR, b + HDR + want)
    {
      ghost var held, m := UsedSet(blocks) - {blocks[k]}, ram.mem;
      ReadHeader(ram, blocks, k, regionLo, regionHi);
      var before := ram.hdr[b].size;
      var left := CutOnce(b, want, k);
      if left != before {
        ghost var cut, m1 := blocks, ram.mem;
        free := UAdd(free, before - left);
        MergeTail(b, k);
        KeptStep(held, cut, {}, m, m1, ram.mem);
        assert Kept(m1, ram.mem, cut[k].Pay(), cut[k].End());
        assert blocks[k].size == left && free == old(free) - HDR + (before - left) + 16 * (|cut| - |blocks|);
      }
    }

    predicate Plausible(ptr: nat)
      reads this
    {
      ready && ptr != NULL && regionLo + HDR <= ptr < regionHi && ptr % 8 == 0
    }

    lemma BlockPlausible(k: nat)
      requires ready && Laid() && k < |blocks|
      ensures Plausible(blocks[k].Pay())
    {
      ReadHeader(ram, blocks, k, regionLo, regionHi);
      AddrAligned(blocks, k, regionLo, regionHi);
      assert blocks[k] in blocks;
    }

    method FreeSteady(ptr: nat, ghost k: nat)
      requires ready && Steady() && k < |blocks| && blocks[k].Pay() == ptr
      modifies `ram, `free, `blocks
      ensures Steady() && old(free) <= free
      ensures !old(blocks)[k].used ==> unchanged(this)
      ensures old(blocks)[k].used ==>
        && blocks == FreeAt(old(blocks), k, regionLo, regionHi)
        && Live() == old(Live()) - {old(blocks)[k]} && KeptAll(Live(), old(ram).mem, ram.mem)
    {
      ghost var bs := blocks;
      FreeLocked(ptr, k);
      if bs[k].used {
        FreeKeeps(bs, k, regionLo, regionHi);
        FreeCredits(bs, k, regionLo, regionHi);
        FreeUses(bs, k, regionLo, regionHi);
      }
    }

    /** Freeing a pointer twice, or one from outside the region, changes nothing. */
    method Free(ptr: nat)
      requires Valid()
      requires Plausible(ptr) ==> IndexOf(blocks, ptr) < |blocks|
      modifies `ram, `free, `blocks, `seen
      ensures Valid()
      ensures var k := IndexOf(old(blocks), ptr);
        if k < |old(blocks)| && old(blocks)[k].used then
          && blocks == FreeAt(old(blocks), k, regionLo, regionHi)
          && Live() == old(Live()) - {old(blocks)[k]} && KeptAll(Live(), old(ram).mem, ram.mem)
          && seen == old(seen) + [free]
        else unchanged(this)
      ensures !old(Plausible(ptr)) ==> unchanged(this)
    {
      ghost var bs, k := blocks, IndexOf(blocks, ptr);
      if !Plausible(ptr) {
        if ready && k < |bs| {
          BlockPlausible(k);
        }
        return;
      }
      ghost var free0 := free;
      FreeSteady(ptr, k);
      if bs[k].used {
        TrackedOn(seen, free0, minFree, free, minFree);
        seen := seen + [free];
      }
    }

    /** The branch of realloc that grows over a free successor. */
    method Absorb(b: nat, n: nat, ghost k: nat)
      requires Laid() && k + 1 < |blocks| && blocks[k].addr == b && blocks[k + 1].addr == n
      requires !blocks[k + 1].used && blocks[k + 1].size <= free < U32
      modifies `ram, `free, `blocks
      ensures Laid() && blocks == Splice(old(blocks), k, k + 2, [Joined(old(blocks), k)])
      ensures free == old(free) - old(blocks)[k + 1].size
      ensures KeptBut(old(blocks), {}, old(ram).mem, ram.mem)
    {
      ghost var s, bs, lo, hi := ram, blocks, regionLo, regionHi;
      ReadHeader(s, bs, k, lo, hi);
      ReadAfterNext(s, bs, k, lo, hi);
      var after := ram.hdr[n].next;
      JoinLinked(s, bs, k, b, n, after, lo, hi);
      JoinKept(s, bs, k, b, n, after, lo, hi);
      free := USub(free, ram.hdr[n].size);
      ram := ram.Put(b, ram.hdr[b].(size := ram.hdr[b].size + HDR + ram.hdr[n].size, next := after));
      ram := if after == NULL then ram else ram.Put(after, ram.hdr[after].(prev := b));
      assert ram == JoinStore(s, b, n, after);
      blocks := Splice(bs, k, k + 2, [Joined(bs, k)]);
    }

    /** Block k has been resized in place; its first `n` bytes are still there. */
    ghost predicate Resized(bs: seq<Blk>, k: nat, want: nat, n: nat, free0: nat, mem0: map<nat, nat>)
      reads this
    {
      && k < |bs| && Tiled(bs, regionLo, regionHi) && want <= Reach(bs, k, regionLo, regionHi)
      && Laid() && blocks == ResizeAt(bs, k, want, regionLo, regionHi)
      && free + ResizedBlock(bs, k, want, regionLo, regionHi).size + 16 * (|blocks| - |bs|) == free0 + bs[k].size
      && KeptAll(UsedSet(bs) - {bs[k]}, mem0, ram.mem)
      && Kept(mem0, ram.mem, bs[k].Pay(), bs[k].Pay() + n)
    }

    /** The branch of realloc that grows over the successor `n`. */
    method GrowInPlace(b: nat, n: nat, want: nat, ghost k: nat)
      requires ready && Steady() && k + 1 < |blocks| && blocks[k].addr == b && blocks[k + 1].addr == n
      requires blocks[k].used && !blocks[k + 1].used
      requires MIN_PAYLOAD <= want && want % 8 == 0
      requires blocks[k].size < want <= blocks[k].size + HDR + blocks[k + 1].size
      modifies `ram, `free, `blocks
      ensures Resized(old(blocks), k, want, old(blocks)[k].size, old(free), old(ram).mem)
    {
      ghost var bs, m, lo, hi := blocks, ram.mem, regionLo, regionHi;
      ReleaseBound(bs, k, lo, hi);
      FreeBytesAt(bs, k + 1);
      GrowIsResize(bs, k, want, lo, hi);
      GrowOthers(bs, k, lo, hi);
      Absorb(b, n, k);
      ghost var joined, m1 := blocks, ram.mem;
      KeptStep(UsedSet(bs) - {bs[k]}, bs, {}, m, m, m1);
      assert Kept(m, m1, bs[k].Pay(), bs[k].End());
      CutBack(b, want, k);
      KeptTwice(UsedSet(bs) - {bs[k]}, UsedSet(joined) - {joined[k]}, m, m1, ram.mem);
    }

    /** The two in-place branches of realloc. */
    method ResizeInPlace(b: nat, want: nat, ghost k: nat) returns (done: bool)
      requires ready && Steady() && k < |blocks| && blocks[k].addr == b && blocks[k].used
      requires MIN_PAYLOAD <= want < U32 && want % 8 == 0
      modifies `ram, `free, `blocks
      ensures done == (want <= Reach(old(blocks), k, regionLo, regionHi))
      ensures !done ==> unchanged(this)
      ensures done ==> Resized(old(blocks), k, want, if want <= old(blocks)[k].size then want else old(blocks)[k].size,
                               old(free), old(ram).mem)
    {
      ghost var bs, lo, hi := blocks, regionLo, regionHi;
      ReadHeader(ram, bs, k, lo, hi);
      RunSpan(bs, k, RunHi(bs, k), lo, hi);
      if want <= ram.hdr[b].size {
        ReleaseBound(bs, k, lo, hi);
        CutBack(b, want, k);
        TrimIsResize(bs, k, want, lo, hi);
        return true;
      }
      var n := ram.hdr[b].next;
      if k + 1 < |bs| {
        ReadNext(ram, bs, k, lo, hi);
      }
      done := n != NULL && ram.hdr[n].used == 0 && ram.hdr[b].size + HDR + ram.hdr[n].size >= want;
      if done {
        GrowInPlace(b, n, want, k);
      }
    }

    /** Some allocation at `p` holds what block b held, and every other allocation is untouched. */
    ghost predicate Moved(live0: set<Blk>, b: Blk, nb: Blk, n: nat, mem0: map<nat, nat>)
      reads this
    {
      && Live() == live0 - {b} + {nb}
      && KeptAll(live0 - {b}, mem0, ram.mem)
      && Copied(mem0, b.Pay(), ram.mem, nb.Pay(), n)
    }

    /** memcpy of n bytes from block b to block nb. */
    method CopyOver(ptr: nat, p: nat, n: nat, ghost b: Blk, ghost nb: Blk)
      requires ready && Steady() && b in Live() && nb in Live() && b != nb
      requires ptr == b.Pay() && p == nb.Pay() && n <= b.size && n <= nb.size
      modifies `ram
      ensures Steady()
      ensures KeptAll(Live() - {b, nb}, old(ram).mem, ram.mem)
      ensures Copied(old(ram).mem, ptr, ram.mem, p, n)
    {
      LiveDisjoint(blocks, regionLo, regionHi);
      CopyBytesMeans(ram.mem, p, ptr, n);
      CopyKept(Live() - {b, nb}, b, nb, n, ram.mem);
      ram := ram.(mem := CopyBytes(ram.mem, p, ptr, n));
    }

    /** The end of a move: copy n bytes of block b to block nb and release b. */
    method CopyAndRelease(ptr: nat, p: nat, n: nat, ghost b: Blk, ghost nb: Blk)
      requires ready && Steady() && b in Live() && nb in Live() && b != nb
      requires ptr == b.Pay() && p == nb.Pay() && n <= b.size && n <= nb.size
      modifies `ram, `free, `blocks
      ensures Steady() && old(free) <= free && Live() == old(Live()) - {b}
      ensures KeptAll(old(Live()) - {b, nb}, old(ram).mem, ram.mem)
      ensures Copied(old(ram).mem, ptr, ram.mem, p, n)
    {
      ghost var held, m := UsedSet(blocks) - {b, nb}, ram.mem;
      ghost var k :| 0 <= k < |blocks| && blocks[k] == b;
      CopyOver(ptr, p, n, b, nb);
      ghost var m2 := ram.mem;
      FreeSteady(ptr, k);
      KeptTwice(held, Live(), m, m2, ram.mem);
      CopiedThenKept(b, nb, n, m, m2, ram.mem);
    }

    /** The branch of realloc that moves: allocate, copy, release. */
    method Move(ptr: nat, size: nat, ghost k: nat) returns (p: nat, ghost dip: nat)
      requires ready && Steady() && k < |blocks| && blocks[k].Pay() == ptr && blocks[k].used
      modifies `ram, `free, `minFree, `blocks
      ensures !Serves(old(blocks), 8, size) ==> p == NULL && unchanged(this)
      ensures Serves(old(blocks), 8, size) ==>
        var b, nb := old(blocks)[k], NewBlock(old(blocks), 8, size);
        && Steady() && p == nb.Pay() && nb.size >= size
        && Moved(old(Live()), b, nb, if b.size < size then b.size else size, old(ram).mem)
        && dip <= free && minFree == (if dip < old(minFree) then dip else old(minFree))
    {
      ghost var bs, m, lo, hi := blocks, ram.mem, regionLo, regionHi;
      ghost var b := bs[k];
      EightNeverTorn(bs, size, lo, hi);
      ReadHeader(ram, bs, k, lo, hi);
      var held := ram.hdr[ptr - HDR].size;
      p := AllocSteady(8, size);
      dip := free;
      if p != NULL {
        ghost var nb, m1 := NewBlock(bs, 8, size), ram.mem;
        var n := if held < size then held else size;
        assert b in UsedSet(bs);
        CopyAndRelease(ptr, p, n, b, nb);
        KeptTwice(UsedSet(bs) - {b}, UsedSet(bs) + {nb} - {b, nb}, m, m1, ram.mem);
        KeptThenCopied(b, nb, n, m, m1, ram.mem);
      }
    }

    /** What realloc does with block k, which is in use, for a nonzero size. */
    ghost predicate Reallocated(bs: seq<Blk>, k: nat, size: nat, free0: nat, mem0: map<nat, nat>, p: nat)
      requires k < |bs| && Tiled(bs, regionLo, regionHi) && SizeIsSane(size)
      reads this
    {
      var want := Want(size);
      if want <= Reach(bs, k, regionLo, regionHi) then
        && p == bs[k].Pay()
        && Resized(bs, k, want, if want <= bs[k].size then want else bs[k].size, free0, mem0)
        && Live() == UsedSet(bs) - {bs[k]} + {ResizedBlock(bs, k, want, regionLo, regionHi)}
      else
        && Serves(bs, 8, size) && p == NewBlock(bs, 8, size).Pay() && NewBlock(bs, 8, size).size >= size
        && Moved(UsedSet(bs), bs[k], NewBlock(bs, 8, size), if bs[k].size < size then bs[k].size else size, mem0)
    }

    ghost predicate CanRealloc(k: nat, size: nat)
      requires k < |blocks| && Laid() && SizeIsSane(size)
      reads this
    {
      Want(size) <= Reach(blocks, k, regionLo, regionHi) || Serves(blocks, 8, size)
    }

    /** An in-place resize, and its accounting. */
    method ResizeLive(b: nat, want: nat, ghost k: nat) returns (done: bool)
      requires Valid() && ready && k < |blocks| && blocks[k].addr == b && blocks[k].used
      requires MIN_PAYLOAD <= want < U32 && want % 8 == 0
      modifies `ram, `free, `minFree, `blocks, `seen
      ensures Valid() && done == (want <= Reach(old(blocks), k, regionLo, regionHi))
      ensures !done ==> unchanged(this)
      ensures done ==> Resized(old(blocks), k, want, if want <= old(blocks)[k].size then want else old(blocks)[k].size,
                               old(free), old(ram).mem)
      ensures done ==>
        Live() == UsedSet(old(blocks)) - {old(blocks)[k]} + {ResizedBlock(old(blocks), k, want, regionLo, regionHi)}
    {
      ghost var bs := blocks;
      ghost var free0, min0 := free, minFree;
      done := ResizeInPlace(b, want, k);
      if done {
        NoteFreeChange();
        TrackedOn(seen, free0, min0, free, minFree);
        ResizeKeeps(bs, k, want, regionLo, regionHi);
        ResizeCredits(bs, k, want, regionLo, regionHi);
        ResizeUses(bs, k, want, regionLo, regionHi);
        seen := seen + [free];
      }
    }

    method ReallocLive(ptr: nat, size: nat, ghost k: nat) returns (p: nat)
      requires Valid() && ready && size > 0 && SizeIsSane(size)
      requires k < |blocks| && blocks[k].Pay() == ptr && blocks[k].used
      modifies `ram, `free, `minFree, `blocks, `seen
      ensures Valid()
      ensures !old(CanRealloc(k, size)) ==> p == NULL && unchanged(this)
      ensures old(CanRealloc(k, size)) ==> Reallocated(old(blocks), k, size, old(free), old(ram).mem, p)
    {
      var done := ResizeLive(ptr - HDR, Want(size), k);
      if done {
        return ptr;
      }
      ghost var dip, free0, min0 := 0, free, minFree;
      p, dip := Move(ptr, size, k);
      if p != NULL {
        TrackedOn(seen, free0, min0, dip, minFree);
        TrackedOn(seen + [dip], dip, minFree, free, minFree);
        assert seen + [dip] + [free] == seen + [dip, free];
        seen := seen + [dip, free];
      }
    }

    method Realloc(ptr: nat, size: nat) returns (p: nat)
      requires Valid()
      requires Plausible(ptr) ==> IndexOf(blocks, ptr) < |blocks| && blocks[IndexOf(blocks, ptr)].used
      modifies `ram, `free, `minFree, `blocks, `seen
      ensures Valid()
      ensures ptr == NULL && Serves(old(blocks), 8, size) ==> Granted(old(blocks), 8, size, old(ram).mem, p)
      ensures ptr == NULL && !Serves(old(blocks), 8, size) ==> p == NULL && unchanged(this)
      ensures ptr != NULL && !old(Plausible(ptr)) ==> p == NULL && unchanged(this)
      ensures old(Plausible(ptr)) && size == 0 ==>
        var b := old(blocks)[IndexOf(old(blocks), ptr)];
        p == NULL && Live() == old(Live()) - {b} && KeptAll(Live(), old(ram).mem, ram.mem)
      ensures old(Plausible(ptr)) && size > 0 && !SizeIsSane(size) ==> p == NULL && unchanged(this)
      ensures old(Plausible(ptr)) && size > 0 && SizeIsSane(size) ==>
        if old(CanRealloc(IndexOf(blocks, ptr), size))
        then Reallocated(old(blocks), IndexOf(old(blocks), ptr), size, old(free), old(ram).mem, p)
        else p == NULL && unchanged(this)
    {
      if ptr == NULL {
        if ready {
          EightNeverTorn(blocks, size, regionLo, regionHi);
        }
        p := AllocAligned(8, size);
        return;
      }
      if size == 0 {
        Free(ptr);
        return NULL;
      }
      if !ready || !SizeIsSane(size) || !Plausible(ptr) {
        return NULL;
      }
      p := ReallocLive(ptr, size, IndexOf(blocks, ptr));
    }

    /** Some chain of headers passes every test of the audit. */
    ghost predicate Intact()
      requires Closed(ram.hdr, first)
      reads this
    {
      ready && first == regionLo && Passes(ram.hdr, first, regionHi, free)
    }

    /** The headers hold the structure of a heap. */
    ghost predicate WellBuilt()
      reads this
    {
      ready && first == regionLo && exists bs :: Structured(ram.hdr, bs, regionLo, regionHi, free)
    }

    /** On whatever headers there are, the audit's verdict is the structure, unless a block the walk meets wraps. */
    lemma IntactExactly()
      requires Closed(ram.hdr, first) && regionLo < regionHi < U32
      ensures WellBuilt() <==> Intact() && WalkFits(ram.hdr, first)
    {
      if first == regionLo {
        AuditExactly(ram.hdr, regionLo, regionHi, free);
      }
    }

    /** The audit can run whenever the lock is free, and a heap in use passes it. */
    lemma ValidIsIntact()
      requires Valid()
      ensures Closed(ram.hdr, first) && (Intact() <==> ready)
      ensures ready ==> WellBuilt()
    {
      if ready {
        ReadHeader(ram, blocks, 0, regionLo, regionHi);
        assert forall b :: b in blocks ==> Shapely(b);
        assert Structured(ram.hdr, blocks, regionLo, regionHi, free);
        AuditExactly(ram.hdr, regionLo, regionHi, free);
      }
    }

    /** The tests of one block. */
    method TestBlock(hdr: map<nat, Header>, b: nat, prev: nat) returns (ok: bool)
      requires b in hdr && (hdr[b].next == NULL || hdr[b].next in hdr)
      ensures ok == BlockOk(hdr, b, prev)
    {
      ok := true;
      if hdr[b].prev != prev {
        ok := false;
      }
      if hdr[b].size % 8 != 0 {
        ok := false;
      }
      if hdr[b].used > 1 {
        ok := false;
      }
      if hdr[b].next != NULL {
        var end := Word(b + HDR + hdr[b].size);
        if hdr[b].next != end {
          ok := false;
        }
        if hdr[b].used == 0 && hdr[hdr[b].next].used == 0 {
          ok := false;
        }
      }
    }

    /** The audit runs on any headers, however corrupted, and ends. */
    method Check() returns (ok: bool)
      requires Closed(ram.hdr, first)
      ensures ok <==> Intact()
      ensures regionLo < regionHi < U32 && WalkFits(ram.hdr, first) ==> (ok <==> WellBuilt())
      ensures Valid() ==> (ok <==> ready)
    {
      ok := RunAudit();
      if regionLo < regionHi < U32 {
        IntactExactly();
      }
      if Valid() {
        ValidIsIntact();
      }
    }

    method RunAudit() returns (ok: bool)
      requires Closed(ram.hdr, first)
      ensures ok <==> Intact()
    {
      var hdr := ram.hdr;
      ok := true;
      var freeSeen, span, prev, last := 0, 0, NULL, NULL;
      if !ready || first != regionLo {
        ok := false;
      }
      ghost var c: seq<nat>, met: set<nat> := [], {};
      var b := first;
      while b != NULL && ok
        invariant b == NULL || b in hdr
        invariant Walk(hdr, first, c, b)
        invariant prev == last == Before(c, |c|)
        invariant ok ==> forall i, k :: 0 <= i < k < |c| ==> c[i] != c[k]
        invariant ok ==> ready && first == regionLo && BlocksOk(hdr, c)
        invariant ok ==> span == Span(hdr, c) && freeSeen == FreeSeen(hdr, c)
        invariant !ok && ready && first == regionLo ==> c != [] && !BlockOk(hdr, c[|c| - 1], Before(c, |c| - 1))
        invariant forall a :: a in met <==> a in c
        decreases ok, hdr.Keys - met
      {
        WalkStep(hdr, first, c, b);
        span := Word(span + HDR + hdr[b].size);
        last := b;
        ok := TestBlock(hdr, b, prev);
        if hdr[b].used == 0 {
          freeSeen := Word(freeSeen + hdr[b].size);
        }
        if ok {
          PassesOnce(hdr, first, c, b);
          assert b in hdr.Keys - met;
        }
        met := met + {b};
        prev := b;
        c := c + [b];
        b := hdr[b].next;
      }
      if !ok {
        if ready && first == regionLo {
          forall d | Chain(hdr, first, d) ensures !BlocksOk(hdr, d) {
            BadBlockBadChain(hdr, first, c, b, d);
          }
        }
        return;
      }
      forall d | Chain(hdr, first, d) ensures d == c {
        WalkIsPrefix(hdr, first, c, b, d);
      }
      assert Chain(hdr, first, c);
      if freeSeen != free {
        ok := false;
      }
      if ok && last != NULL && Word(last + HDR + hdr[last].size) != regionHi {
        ok := false;
      }
      if ok && span != Word(regionHi - regionLo) {
        ok := false;
      }
    }

    method GetStats() returns (totalBytes: nat, freeBytes: nat, minFreeBytes: nat,
                               largest: nat, blocksTotal: nat, blocksFree: nat)
      requires Valid()
      ensures totalBytes == total && freeBytes == free && minFreeBytes == minFree
      ensures ready ==> freeBytes == FreeBytes(blocks)
      ensures largest == LargestFree(blocks) && blocksTotal == |blocks|
      ensures blocksFree == |blocks| - |UsedSet(blocks)|
    {
      totalBytes, freeBytes, minFreeBytes := total, free, minFree;
      largest, blocksTotal, blocksFree := 0, 0, 0;
      ghost var bs := blocks;
      var b := first;
      assert bs[..0] == [];
      while b != NULL
        invariant blocksTotal <= |bs| && b == AddrAt(bs, blocksTotal)
        invariant largest == LargestFree(bs[..blocksTotal])
        invariant blocksFree == blocksTotal - |UsedSet(bs[..blocksTotal])|
        decreases |bs| - blocksTotal
      {
        ReadHeader(ram, bs, blocksTotal, regionLo, regionHi);
        StatsStep(bs, blocksTotal, regionLo, regionHi);
        blocksTotal := blocksTotal + 1;
        if ram.hdr[b].used == 0 {
          blocksFree := blocksFree + 1;
          if ram.hdr[b].size > largest {
            largest := ram.hdr[b].size;
          }
        }
        b := ram.hdr[b].next;
      }
      if ready {
        AtEnd(ram, bs, blocksTotal, regionLo, regionHi);
      }
      assert bs[..|bs|] == bs;
    }
  }
}

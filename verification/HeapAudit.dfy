/** The structural audit of kernel/reflex_heap.c, over any headers at all.

    A chain is the list of block addresses met by following `next` from the first
    block to NULL.  Corrupted headers may have no chain: `next` may run in a circle.
    Sizes and addresses are 32-bit words and their sums wrap, as in the source. */
module HeapAudit {
  import opened Arith
  import opened HeapBlocks
  import opened HeapStore

  function Word(x: int): nat { x % 0x1_0000_0000 }

  /** Every pointer leads to NULL or to a header. */
  ghost predicate Closed(hdr: map<nat, Header>, first: nat)
  {
    Wired(hdr) && (first == NULL || first in hdr)
  }

  /** `c` is an initial stretch of the walk from `first`; `b` is where the walk stands. */
  ghost predicate Walk(hdr: map<nat, Header>, first: nat, c: seq<nat>, b: nat)
  {
    && (forall i :: 0 <= i < |c| ==> c[i] in hdr)
    && (if c == [] then b == first else c[0] == first && hdr[c[|c| - 1]].next == b)
    && (forall i, j :: 0 <= i && j == i + 1 < |c| ==> hdr[c[i]].next == c[j])
  }

  ghost predicate Chain(hdr: map<nat, Header>, first: nat, c: seq<nat>)
  {
    Walk(hdr, first, c, NULL)
  }

  function EndOf(hdr: map<nat, Header>, a: nat): nat
    requires a in hdr
  {
    Word(a + HDR + hdr[a].size)
  }

  /** What the audit asks of the block at `a`, met after the block at `prev`. */
  predicate BlockOk(hdr: map<nat, Header>, a: nat, prev: nat)
    requires a in hdr && (hdr[a].next == NULL || hdr[a].next in hdr)
  {
    && hdr[a].prev == prev && hdr[a].size % 8 == 0 && hdr[a].used <= 1
    && (hdr[a].next != NULL ==>
          hdr[a].next == EndOf(hdr, a) && !(hdr[a].used == 0 && hdr[hdr[a].next].used == 0))
  }

  function Span(hdr: map<nat, Header>, c: seq<nat>): nat
    requires forall a :: a in c ==> a in hdr
  {
    if c == [] then 0 else Word(Span(hdr, c[..|c| - 1]) + HDR + hdr[c[|c| - 1]].size)
  }

  function FreeSeen(hdr: map<nat, Header>, c: seq<nat>): nat
    requires forall a :: a in c ==> a in hdr
  {
    if c == [] then 0
    else
      var a := c[|c| - 1];
      Word(FreeSeen(hdr, c[..|c| - 1]) + if hdr[a].used == 0 then hdr[a].size else 0)
  }

  ghost predicate BlocksOk(hdr: map<nat, Header>, c: seq<nat>)
    requires forall a :: a in c ==> a in hdr
    requires forall a :: a in c ==> hdr[a].next == NULL || hdr[a].next in hdr
  {
    forall i {:trigger Before(c, i)} :: 0 <= i < |c| ==> BlockOk(hdr, c[i], Before(c, i))
  }

  function Before(c: seq<nat>, i: nat): nat
  {
    if 0 < i <= |c| then c[i - 1] else NULL
  }

  /** The audit's verdict on a chain. */
  ghost predicate Audited(hdr: map<nat, Header>, c: seq<nat>, lo: nat, hi: nat, free: nat)
    requires forall a :: a in c ==> a in hdr
    requires forall a :: a in c ==> hdr[a].next == NULL || hdr[a].next in hdr
  {
    && BlocksOk(hdr, c)
    && FreeSeen(hdr, c) == free
    && (c != [] ==> EndOf(hdr, c[|c| - 1]) == hi)
    && Span(hdr, c) == Word(hi - lo)
  }

  /** Headers decide the walk: every chain starts with the blocks walked so far. */
  lemma {:induction false} WalkIsPrefix(hdr: map<nat, Header>, first: nat, c: seq<nat>, b: nat, d: seq<nat>)
    requires Walk(hdr, first, c, b) && Chain(hdr, first, d) && NULL !in hdr
    ensures c <= d
    ensures if b == NULL then c == d else |c| < |d| && d[|c|] == b
  {
    if c == [] {
    } else {
      var n := |c| - 1;
      var c' := c[..n];
      assert Walk(hdr, first, c', c[n]) by {
        assert n > 0 ==> hdr[c'[n - 1]].next == c[n];
      }
      WalkIsPrefix(hdr, first, c', c[n], d);
      assert c == c' + [c[n]];
      assert n + 1 < |d| ==> hdr[d[n]].next == d[n + 1];
    }
  }

  /** The prev check: a block met again is met after a different block, so it fails. */
  lemma NoSecondVisit(hdr: map<nat, Header>, c: seq<nat>, j: nat)
    requires forall a :: a in c ==> a in hdr
    requires forall a :: a in c ==> hdr[a].next == NULL || hdr[a].next in hdr
    requires NULL !in hdr && BlocksOk(hdr, c) && j < |c|
    requires forall i, k :: 0 <= i < k < |c| ==> c[i] != c[k]
    ensures hdr[c[j]].prev != c[|c| - 1]
  {
    assert BlockOk(hdr, c[j], Before(c, j));
    assert c[|c| - 1] in c;
  }

  /** One bad block spoils every chain. */
  lemma BadBlockBadChain(hdr: map<nat, Header>, first: nat, c: seq<nat>, b: nat, d: seq<nat>)
    requires Closed(hdr, first) && Walk(hdr, first, c, b) && c != []
    requires !BlockOk(hdr, c[|c| - 1], Before(c, |c| - 1)) && Chain(hdr, first, d)
    ensures !BlocksOk(hdr, d)
  {
    WalkIsPrefix(hdr, first, c, b, d);
    var i := |c| - 1;
    assert d[i] == c[i] && Before(d, i) == Before(c, i);
  }

  /** A block that passes has not been met before. */
  lemma PassesOnce(hdr: map<nat, Header>, first: nat, c: seq<nat>, b: nat)
    requires Closed(hdr, first) && Walk(hdr, first, c, b) && b in hdr && BlocksOk(hdr, c)
    requires forall i, k :: 0 <= i < k < |c| ==> c[i] != c[k]
    requires BlockOk(hdr, b, Before(c, |c|))
    ensures b !in c
    ensures BlocksOk(hdr, c + [b])
  {
    if b in c {
      var j :| 0 <= j < |c| && c[j] == b;
      NoSecondVisit(hdr, c, j);
    }
    var e := c + [b];
    forall i | 0 <= i < |e| ensures BlockOk(hdr, e[i], Before(e, i)) {
      if i < |c| {
        assert Before(e, i) == Before(c, i) && BlockOk(hdr, c[i], Before(c, i));
      }
    }
  }

  lemma WalkStep(hdr: map<nat, Header>, first: nat, c: seq<nat>, b: nat)
    requires Walk(hdr, first, c, b) && b in hdr
    ensures Walk(hdr, first, c + [b], hdr[b].next)
    ensures Before(c + [b], |c|) == Before(c, |c|)
    ensures Span(hdr, c + [b]) == Word(Span(hdr, c) + HDR + hdr[b].size)
    ensures FreeSeen(hdr, c + [b]) == if hdr[b].used == 0 then Word(FreeSeen(hdr, c) + hdr[b].size) else FreeSeen(hdr, c)
  {
    SumsStep(hdr, c, b);
  }

  lemma SumsStep(hdr: map<nat, Header>, c: seq<nat>, b: nat)
    requires b in hdr && forall a :: a in c ==> a in hdr
    ensures Span(hdr, c + [b]) == Word(Span(hdr, c) + HDR + hdr[b].size)
    ensures FreeSeen(hdr, c + [b]) == Word(FreeSeen(hdr, c) + if hdr[b].used == 0 then hdr[b].size else 0)
  {
    assert (c + [b])[..|c|] == c && (c + [b])[|c|] == b;
  }

  // ---- The verdict and the block list ----

  ghost function BlocksOf(hdr: map<nat, Header>, c: seq<nat>): (bs: seq<Blk>)
    requires forall a :: a in c ==> a in hdr
    ensures |bs| == |c|
    ensures forall i :: 0 <= i < |c| ==> bs[i] == Blk(c[i], hdr[c[i]].size, hdr[c[i]].used != 0)
  {
    seq(|c|, i requires 0 <= i < |c| => Blk(c[i], hdr[c[i]].size, hdr[c[i]].used != 0))
  }

  lemma {:induction false} FreeSeenIsFreeBytes(hdr: map<nat, Header>, c: seq<nat>)
    requires forall a :: a in c ==> a in hdr
    ensures FreeSeen(hdr, c) == Word(FreeBytes(BlocksOf(hdr, c)))
  {
    if c != [] {
      var c', last := c[..|c| - 1], BlocksOf(hdr, c)[|c| - 1];
      FreeSeenIsFreeBytes(hdr, c');
      assert BlocksOf(hdr, c) == BlocksOf(hdr, c') + [last];
      FreeBytesConcat(BlocksOf(hdr, c'), [last]);
      FreeOfOne(last);
      WordAdds(FreeBytes(BlocksOf(hdr, c')), FreeBytes([last]));
    }
  }

  lemma WordAdds(x: nat, y: nat)
    ensures Word(Word(x) + y) == Word(x + y)
  {
    var q, r, n := x / 0x1_0000_0000, Word(x), (Word(x) + y) / 0x1_0000_0000;
    DivModUnique(q + n, 0x1_0000_0000, Word(r + y));
  }

  ghost predicate NoWrap(hdr: map<nat, Header>, c: seq<nat>)
    requires forall a :: a in c ==> a in hdr
  {
    forall i :: 0 <= i < |c| ==> c[i] + HDR + hdr[c[i]].size < U32
  }

  /** What a passing chain says about its i-th block. */
  lemma AuditStep(hdr: map<nat, Header>, first: nat, c: seq<nat>, i: nat)
    requires Closed(hdr, first) && Chain(hdr, first, c) && BlocksOk(hdr, c) && NoWrap(hdr, c) && i < |c|
    ensures BlockOk(hdr, c[i], Before(c, i))
    ensures i + 1 < |c| ==> hdr[c[i]].next == c[i + 1] == c[i] + HDR + hdr[c[i]].size
    ensures i + 1 < |c| ==> !(hdr[c[i]].used == 0 && hdr[c[i + 1]].used == 0)
  {
    assert BlockOk(hdr, c[i], Before(c, i));
    if i + 1 < |c| {
      var j := i + 1;
      assert hdr[c[i]].next == c[j] && c[j] in hdr;
    }
  }

  lemma AuditMirrors(hdr: map<nat, Header>, first: nat, c: seq<nat>)
    requires Closed(hdr, first) && Chain(hdr, first, c) && BlocksOk(hdr, c) && NoWrap(hdr, c)
    ensures Mirrors(hdr, BlocksOf(hdr, c))
  {
    var bs := BlocksOf(hdr, c);
    forall i | 0 <= i < |bs| ensures bs[i].addr in hdr && hdr[bs[i].addr] == HeaderAt(bs, i) {
      AuditStep(hdr, first, c, i);
    }
  }

  lemma AuditTiled(hdr: map<nat, Header>, first: nat, c: seq<nat>, hi: nat)
    requires Closed(hdr, first) && Chain(hdr, first, c) && BlocksOk(hdr, c) && NoWrap(hdr, c) && c != []
    requires EndOf(hdr, c[|c| - 1]) == hi
    ensures Tiled(BlocksOf(hdr, c), first, hi) && Coalesced(BlocksOf(hdr, c))
  {
    var bs := BlocksOf(hdr, c);
    forall i | 0 <= i < |bs| - 1 ensures bs[i + 1].addr == bs[i].End() && (bs[i].used || bs[i + 1].used) {
      AuditStep(hdr, first, c, i);
    }
  }

  /** What the audit is there to establish: the headers spell out a list of blocks that tiles the region,
      of sizes that are multiples of eight, with no free neighbours and `free` free bytes. */
  ghost predicate Structured(hdr: map<nat, Header>, bs: seq<Blk>, lo: nat, hi: nat, free: nat)
  {
    && Mirrors(hdr, bs) && Tiled(bs, lo, hi) && Coalesced(bs) && free == FreeBytes(bs)
    && forall b :: b in bs ==> b.size % 8 == 0
  }

  /** A chain that passes, and whose blocks do not wrap round the address space, spells out such a list. */
  lemma AuditMeansSound(hdr: map<nat, Header>, first: nat, c: seq<nat>, hi: nat, free: nat)
    requires Closed(hdr, first) && Chain(hdr, first, c) && c != [] && NoWrap(hdr, c) && hi < U32
    requires Audited(hdr, c, first, hi, free)
    ensures Structured(hdr, BlocksOf(hdr, c), first, hi, free)
  {
    AuditTiled(hdr, first, c, hi);
    AuditMirrors(hdr, first, c);
    FreeSeenIsFreeBytes(hdr, c);
    BytesConserved(BlocksOf(hdr, c), first, hi);
    AuditSizes(hdr, first, c);
  }

  lemma AuditSizes(hdr: map<nat, Header>, first: nat, c: seq<nat>)
    requires Closed(hdr, first) && Chain(hdr, first, c) && BlocksOk(hdr, c) && NoWrap(hdr, c)
    ensures forall b :: b in BlocksOf(hdr, c) ==> b.size % 8 == 0
  {
    forall b | b in BlocksOf(hdr, c) ensures b.size % 8 == 0 {
      var i :| 0 <= i < |c| && BlocksOf(hdr, c)[i] == b;
      AuditStep(hdr, first, c, i);
    }
  }

  ghost function Addrs(bs: seq<Blk>): (c: seq<nat>)
    ensures |c| == |bs| && forall i :: 0 <= i < |bs| ==> c[i] == bs[i].addr
  {
    seq(|bs|, i requires 0 <= i < |bs| => bs[i].addr)
  }

  lemma {:induction false} SpanIs(hdr: map<nat, Header>, bs: seq<Blk>, lo: nat, hi: nat)
    requires Tiled(bs, lo, hi) && hi < U32
    requires forall i :: 0 <= i < |bs| ==> bs[i].addr in hdr && hdr[bs[i].addr].size == bs[i].size
    ensures Span(hdr, Addrs(bs)) == hi - lo
  {
    var n := |bs| - 1;
    assert Addrs(bs)[..n] == Addrs(bs[..n]);
    if n > 0 {
      assert bs[n - 1 + 1].addr == bs[n - 1].End();
      assert Tiled(bs[..n], lo, bs[n].addr);
      Apart(bs, n, lo, hi);
      SpanIs(hdr, bs[..n], lo, bs[n].addr);
    } else {
      assert Addrs(bs)[..n] == [];
    }
  }

  lemma SoundStep(hdr: map<nat, Header>, bs: seq<Blk>, i: nat, lo: nat, hi: nat, free: nat)
    requires Structured(hdr, bs, lo, hi, free) && hi < U32 && i < |bs|
    ensures Holds(hdr, bs[i].addr, HeaderAt(bs, i))
    ensures hdr[bs[i].addr].next == NULL || hdr[bs[i].addr].next in hdr
    ensures BlockOk(hdr, bs[i].addr, AddrAt(bs, i - 1))
  {
    Apart(bs, i, lo, hi);
    assert hdr[bs[i].addr] == HeaderAt(bs, i) && bs[i] in bs;
    if i + 1 < |bs| {
      assert hdr[bs[i + 1].addr] == HeaderAt(bs, i + 1);
      assert bs[i].used || bs[i + 1].used;
    }
  }

  /** The sizes and marks in the headers are those of the blocks, and `next` is never loose. */
  ghost predicate Matches(hdr: map<nat, Header>, bs: seq<Blk>)
  {
    forall i :: 0 <= i < |bs| ==>
      && bs[i].addr in hdr && hdr[bs[i].addr].size == bs[i].size
      && hdr[bs[i].addr].used == (if bs[i].used then 1 else 0)
      && (hdr[bs[i].addr].next == NULL || hdr[bs[i].addr].next in hdr)
  }

  lemma SoundMatches(hdr: map<nat, Header>, bs: seq<Blk>, lo: nat, hi: nat, free: nat)
    requires Structured(hdr, bs, lo, hi, free) && hi < U32
    ensures Matches(hdr, bs)
  {
    forall i | 0 <= i < |bs|
      ensures Holds(hdr, bs[i].addr, HeaderAt(bs, i))
      ensures hdr[bs[i].addr].next == NULL || hdr[bs[i].addr].next in hdr
    {
      SoundStep(hdr, bs, i, lo, hi, free);
    }
  }

  lemma SoundChain(hdr: map<nat, Header>, bs: seq<Blk>, lo: nat, hi: nat, free: nat)
    requires Structured(hdr, bs, lo, hi, free) && hi < U32 && Matches(hdr, bs)
    ensures Chain(hdr, lo, Addrs(bs))
  {
    var c := Addrs(bs);
    forall i, j | 0 <= i && j == i + 1 < |c| ensures hdr[c[i]].next == c[j] {
      SoundStep(hdr, bs, i, lo, hi, free);
    }
    SoundStep(hdr, bs, |bs| - 1, lo, hi, free);
  }

  lemma SoundBlocksOk(hdr: map<nat, Header>, bs: seq<Blk>, lo: nat, hi: nat, free: nat)
    requires Structured(hdr, bs, lo, hi, free) && hi < U32 && Matches(hdr, bs)
    ensures BlocksOk(hdr, Addrs(bs))
  {
    var c := Addrs(bs);
    forall i | 0 <= i < |bs| ensures BlockOk(hdr, c[i], Before(c, i)) {
      SoundStep(hdr, bs, i, lo, hi, free);
      assert Before(c, i) == AddrAt(bs, i - 1);
    }
  }

  lemma MatchingTotals(hdr: map<nat, Header>, bs: seq<Blk>, lo: nat, hi: nat)
    requires Matches(hdr, bs) && Tiled(bs, lo, hi) && hi < U32
    ensures FreeSeen(hdr, Addrs(bs)) == FreeBytes(bs)
    ensures Span(hdr, Addrs(bs)) == Word(hi - lo)
    ensures EndOf(hdr, Addrs(bs)[|bs| - 1]) == hi
  {
    SpanIs(hdr, bs, lo, hi);
    assert BlocksOf(hdr, Addrs(bs)) == bs;
    FreeSeenIsFreeBytes(hdr, Addrs(bs));
    BytesConserved(bs, lo, hi);
  }

  lemma NothingWraps(hdr: map<nat, Header>, bs: seq<Blk>, lo: nat, hi: nat)
    requires Matches(hdr, bs) && Tiled(bs, lo, hi) && hi < U32
    ensures NoWrap(hdr, Addrs(bs))
  {
    forall i | 0 <= i < |bs| ensures bs[i].End() <= hi {
      Apart(bs, i, lo, hi);
    }
  }

  /** The headers of such a list pass the audit, and none of its blocks wraps. */
  lemma SoundMeansAudit(hdr: map<nat, Header>, bs: seq<Blk>, lo: nat, hi: nat, free: nat)
    requires Structured(hdr, bs, lo, hi, free) && hi < U32
    ensures Matches(hdr, bs)
    ensures Chain(hdr, lo, Addrs(bs)) && NoWrap(hdr, Addrs(bs)) && Audited(hdr, Addrs(bs), lo, hi, free)
  {
    SoundMatches(hdr, bs, lo, hi, free);
    SoundChain(hdr, bs, lo, hi, free);
    SoundBlocksOk(hdr, bs, lo, hi, free);
    MatchingTotals(hdr, bs, lo, hi);
    NothingWraps(hdr, bs, lo, hi);
  }

  // ---- The verdict, exactly ----

  /** Some chain of headers passes every test. */
  ghost predicate Passes(hdr: map<nat, Header>, lo: nat, hi: nat, free: nat)
    requires Closed(hdr, lo)
  {
    exists c :: Chain(hdr, lo, c) && Audited(hdr, c, lo, hi, free)
  }

  /** No block that the walk from `first` meets ends past the address space. */
  ghost predicate WalkFits(hdr: map<nat, Header>, first: nat)
  {
    forall c :: Chain(hdr, first, c) ==> NoWrap(hdr, c)
  }

  /** The headers hold the structure exactly when they pass the audit and no block the walk meets wraps. */
  lemma AuditExactly(hdr: map<nat, Header>, lo: nat, hi: nat, free: nat)
    requires Closed(hdr, lo) && lo < hi < U32
    ensures (exists bs :: Structured(hdr, bs, lo, hi, free)) <==> Passes(hdr, lo, hi, free) && WalkFits(hdr, lo)
  {
    if bs :| Structured(hdr, bs, lo, hi, free) {
      SoundMeansAudit(hdr, bs, lo, hi, free);
      var c := Addrs(bs);
      forall d | Chain(hdr, lo, d) ensures NoWrap(hdr, d) {
        WalkIsPrefix(hdr, lo, c, NULL, d);
      }
    }
    if Passes(hdr, lo, hi, free) && WalkFits(hdr, lo) {
      var c :| Chain(hdr, lo, c) && Audited(hdr, c, lo, hi, free);
      assert c != [] by {
        assert Span(hdr, []) == 0;
      }
      AuditMeansSound(hdr, lo, c, hi, free);
    }
  }

  lemma TwoTotals(hdr: map<nat, Header>, a: nat, b: nat)
    requires a in hdr && b in hdr && hdr[a].used != 0 && hdr[b].used != 0
    ensures Span(hdr, [a, b]) == Word(Word(HDR + hdr[a].size) + HDR + hdr[b].size)
    ensures FreeSeen(hdr, [a, b]) == 0
  {
    assert [a, b][..1] == [a] && [a][..0] == [];
    assert Span(hdr, [a]) == Word(HDR + hdr[a].size) && FreeSeen(hdr, [a]) == 0;
  }

  /** Why wrapping has to be excluded: the first block ends, by wrapping, below the region, the second starts there
      and ends where the region does, and the audit sees nothing wrong. */
  lemma WrappingPasses()
    ensures var hdr := map[0x100 := Header(0, 0x20, 0xFFFF_FF10, 1), 0x20 := Header(0x100, 0, 0x1D0, 1)];
      && Closed(hdr, 0x100) && Passes(hdr, 0x100, 0x200, 0)
      && forall bs :: !Structured(hdr, bs, 0x100, 0x200, 0)
  {
    var hdr := map[0x100 := Header(0, 0x20, 0xFFFF_FF10, 1), 0x20 := Header(0x100, 0, 0x1D0, 1)];
    var c := [0x100, 0x20];
    TwoTotals(hdr, 0x100, 0x20);
    assert Span(hdr, c) == Word(Word(0xFFFF_FF20) + 0x1E0);
    assert Chain(hdr, 0x100, c) && BlocksOk(hdr, c);
    assert !NoWrap(hdr, c) by {
      assert c[0] + HDR + hdr[c[0]].size >= U32;
    }
    AuditExactly(hdr, 0x100, 0x200, 0);
  }
}

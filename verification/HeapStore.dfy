/** Block headers in memory, and when they spell out a list of blocks.

    A pointer is an address and NULL is 0.  Storing a header also overwrites the
    sixteen bytes it occupies. */
module HeapStore {
  import opened Arith
  import opened HeapBlocks

  const NULL: nat := 0

  /** One block header: 32-bit words prev, next, size, used. */
  datatype Header = Header(prev: nat, next: nat, size: nat, used: nat) {
    function Byte(i: nat): nat {
      var word := if i < 4 then prev else if i < 8 then next else if i < 12 then size else used;
      var r := i % 4;
      (if r == 0 then word else if r == 1 then word / 0x100
       else if r == 2 then word / 0x1_0000 else word / 0x100_0000) % 0x100
    }
  }

  // ---- The mirror between headers and blocks ----

  ghost function AddrAt(bs: seq<Blk>, i: int): nat
  {
    if 0 <= i < |bs| then bs[i].addr else NULL
  }

  ghost function HeaderAt(bs: seq<Blk>, i: int): Header
    requires 0 <= i < |bs|
  {
    Header(AddrAt(bs, i - 1), AddrAt(bs, i + 1), bs[i].size, if bs[i].used then 1 else 0)
  }

  ghost predicate Mirrors(hdr: map<nat, Header>, bs: seq<Blk>)
  {
    && (forall i :: 0 <= i < |bs| ==> bs[i].addr in hdr)
    && (forall i {:trigger HeaderAt(bs, i)} :: 0 <= i < |bs| ==> hdr[bs[i].addr] == HeaderAt(bs, i))
  }

  /** Headers and bytes together: storing a header overwrites the bytes under it. */
  datatype Store = Store(hdr: map<nat, Header>, mem: map<nat, nat>) {
    function Put(a: nat, h: Header): Store
    {
      Store(hdr[a := h], Scribble(mem, a, h))
    }
  }

  /** Every `next` leads to NULL or to a header, also in headers left behind by blocks that are gone. */
  ghost predicate Wired(hdr: map<nat, Header>)
  {
    NULL !in hdr && forall a :: a in hdr ==> hdr[a].next == NULL || hdr[a].next in hdr
  }

  ghost predicate Linked(s: Store, bs: seq<Blk>, lo: nat, hi: nat)
  {
    && Mirrors(s.hdr, bs) && Wired(s.hdr)
    && Tiled(bs, lo, hi) && Shaped(bs)
    && 0 < lo && lo % 8 == 0 && hi < U32
    && (forall x :: lo <= x < hi ==> x in s.mem)
  }

  /** The payload of every block in `bs` other than those in `but` is unchanged. */
  ghost predicate KeptBut(bs: seq<Blk>, but: set<Blk>, m: map<nat, nat>, m': map<nat, nat>)
  {
    forall c :: c in bs && c !in but ==> Kept(m, m', c.Pay(), c.End())
  }

  ghost predicate Kept(m: map<nat, nat>, m': map<nat, nat>, lo: nat, hi: nat)
  {
    forall x :: lo <= x < hi && x in m ==> x in m' && m'[x] == m[x]
  }

  function Scribble(m: map<nat, nat>, a: nat, h: Header): (m': map<nat, nat>)
    ensures m'.Keys == m.Keys
    ensures forall x :: x in m && !(a <= x < a + HDR) ==> m'[x] == m[x]
  {
    map x | x in m :: if a <= x < a + HDR then h.Byte(x - a) else m[x]
  }

  ghost predicate Holds(hdr: map<nat, Header>, a: nat, h: Header)
  {
    a in hdr && hdr[a] == h
  }

  /** Every other block lies wholly below or wholly above block k. */
  lemma Apart(bs: seq<Blk>, k: nat, lo: nat, hi: nat)
    requires Tiled(bs, lo, hi) && k < |bs|
    ensures forall m :: 0 <= m < k ==> lo <= bs[m].addr && bs[m].End() <= bs[k].addr
    ensures forall m :: k < m < |bs| ==> bs[k].End() <= bs[m].addr && bs[m].End() <= hi
    ensures lo <= bs[k].addr && bs[k].End() <= hi
  {
    AllOrdered(bs, lo, hi);
  }

  /** Headers match the spliced list when those of the new run of one or two blocks do
      and its successor points back at it. */
  lemma MirrorSplice(hdr: map<nat, Header>, hdr': map<nat, Header>, bs: seq<Blk>, i: nat, j: nat, rs: seq<Blk>, lo: nat, hi: nat)
    requires Mirrors(hdr, bs) && i < j <= |bs| && 1 <= |rs| <= 2
    requires rs[0].addr == bs[i].addr
    requires Holds(hdr', rs[0].addr, Header(AddrAt(bs, i - 1), if |rs| == 1 then AddrAt(bs, j) else rs[1].addr,
                                            rs[0].size, if rs[0].used then 1 else 0))
    requires |rs| == 2 ==>
      Holds(hdr', rs[1].addr, Header(rs[0].addr, AddrAt(bs, j), rs[1].size, if rs[1].used then 1 else 0))
    requires j < |bs| ==> Holds(hdr', bs[j].addr, hdr[bs[j].addr].(prev := rs[|rs| - 1].addr))
    requires forall m :: (0 <= m < i || j < m < |bs|) ==> Holds(hdr', bs[m].addr, hdr[bs[m].addr])
    ensures Mirrors(hdr', Splice(bs, i, j, rs))
  {
    var s := Splice(bs, i, j, rs);
    forall m | 0 <= m < |s| ensures Holds(hdr', s[m].addr, HeaderAt(s, m)) {
      if m < i {
        assert s[m] == bs[m] && s[m + 1].addr == bs[m + 1].addr;
        assert Holds(hdr', bs[m].addr, hdr[bs[m].addr]);
        assert HeaderAt(s, m) == HeaderAt(bs, m);
      } else if m < i + |rs| {
        assert s[m] == rs[m - i];
      } else {
        var p := m - i - |rs| + j;
        assert s[m] == bs[p] && hdr[bs[p].addr] == HeaderAt(bs, p);
        assert p > j ==> Holds(hdr', bs[p].addr, hdr[bs[p].addr]);
      }
    }
  }

  /** The stores of a split, in the order the source makes them. */
  function SplitStore(s: Store, b: nat, n: nat, tail: nat, rest: nat, want: nat): Store
    requires b in s.hdr && rest >= HDR && (n == NULL || n in s.hdr)
  {
    var s1 := s.Put(tail, Header(b, n, rest - HDR, 0));
    var s2 := if n == NULL then s1 else s1.Put(n, s1.hdr[n].(prev := tail));
    s2.Put(b, s2.hdr[b].(next := tail, size := want))
  }

  lemma SplitTiled(bs: seq<Blk>, k: nat, want: nat, lo: nat, hi: nat)
    requires Tiled(bs, lo, hi) && Shaped(bs) && k < |bs|
    requires MIN_PAYLOAD <= want <= bs[k].size && want % 8 == 0
    ensures Tiled(Splice(bs, k, k + 1, Carve(bs[k], want, bs[k].used)), lo, hi)
    ensures Shaped(Splice(bs, k, k + 1, Carve(bs[k], want, bs[k].used)))
    ensures bs[k].size - want < SPLIT_MIN ==> Splice(bs, k, k + 1, Carve(bs[k], want, bs[k].used)) == bs
  {
    assert bs[k] in bs;
    CarveTiles(bs[k], want, bs[k].used);
    SpliceTiled(bs, k, k + 1, Carve(bs[k], want, bs[k].used), lo, hi);
    SpliceShaped(bs, k, k + 1, Carve(bs[k], want, bs[k].used));
    if bs[k].size - want < SPLIT_MIN {
      assert Splice(bs, k, k + 1, [bs[k]]) == bs;
    }
  }

  lemma CarveTiles(b: Blk, want: nat, u: bool)
    requires MIN_PAYLOAD <= want <= b.size && want % 8 == 0 && Shapely(b)
    ensures Tiled(Carve(b, want, u), b.addr, b.End()) && Shaped(Carve(b, want, u))
  {
    if b.size - want >= SPLIT_MIN {
      EightsLess(b.size, want, b.size - want - HDR);
    }
  }

  /** `b`, `n`, `tail` and `rest` are what the source reads off block k before splitting it. */
  ghost predicate SplitArgs(s: Store, bs: seq<Blk>, k: nat, want: nat, b: nat, n: nat, tail: nat, rest: nat)
  {
    && k < |bs| && want + SPLIT_MIN <= bs[k].size
    && b == bs[k].addr && n == AddrAt(bs, k + 1) && tail == b + HDR + want && rest == bs[k].size - want
    && Holds(s.hdr, b, HeaderAt(bs, k)) && (n == NULL || n in s.hdr)
  }

  lemma SplitMirrors(s: Store, bs: seq<Blk>, k: nat, want: nat, b: nat, n: nat, tail: nat, rest: nat, lo: nat, hi: nat)
    requires Linked(s, bs, lo, hi) && SplitArgs(s, bs, k, want, b, n, tail, rest)
    ensures Mirrors(SplitStore(s, b, n, tail, rest, want).hdr, Splice(bs, k, k + 1, Carve(bs[k], want, bs[k].used)))
  {
    Apart(bs, k, lo, hi);
    if k + 1 < |bs| {
      ReadNext(s, bs, k, lo, hi);
      Apart(bs, k + 1, lo, hi);
    }
    var rs := [Blk(b, want, bs[k].used), Blk(tail, rest - HDR, false)];
    assert rs == Carve(bs[k], want, bs[k].used);
    MirrorSplice(s.hdr, SplitStore(s, b, n, tail, rest, want).hdr, bs, k, k + 1, rs, lo, hi);
  }

  lemma SplitLinked(s: Store, bs: seq<Blk>, k: nat, want: nat, b: nat, n: nat, tail: nat, rest: nat, lo: nat, hi: nat)
    requires Linked(s, bs, lo, hi) && SplitArgs(s, bs, k, want, b, n, tail, rest)
    requires MIN_PAYLOAD <= want && want % 8 == 0
    ensures Linked(SplitStore(s, b, n, tail, rest, want), Splice(bs, k, k + 1, Carve(bs[k], want, bs[k].used)), lo, hi)
  {
    SplitTiled(bs, k, want, lo, hi);
    SplitMirrors(s, bs, k, want, b, n, tail, rest, lo, hi);
  }

  /** A split touches no payload but the part of block k it takes away. */
  lemma SplitKept(s: Store, bs: seq<Blk>, k: nat, want: nat, b: nat, n: nat, tail: nat, rest: nat, lo: nat, hi: nat)
    requires Linked(s, bs, lo, hi) && SplitArgs(s, bs, k, want, b, n, tail, rest)
    ensures KeptBut(bs, {bs[k]}, s.mem, SplitStore(s, b, n, tail, rest, want).mem)
    ensures Kept(s.mem, SplitStore(s, b, n, tail, rest, want).mem, b + HDR, b + HDR + want)
  {
    Apart(bs, k, lo, hi);
    if k + 1 < |bs| {
      Apart(bs, k + 1, lo, hi);
    }
  }

  /** What can be read off the header of block k. */
  lemma ReadHeader(s: Store, bs: seq<Blk>, k: nat, lo: nat, hi: nat)
    requires Linked(s, bs, lo, hi) && k < |bs|
    ensures Holds(s.hdr, bs[k].addr, HeaderAt(bs, k))
    ensures lo <= bs[k].addr && bs[k].End() <= hi
    ensures k + 1 < |bs| ==> bs[k + 1].addr == bs[k].End() && bs[k + 1].addr in s.hdr
  {
    Apart(bs, k, lo, hi);
    assert s.hdr[bs[k].addr] == HeaderAt(bs, k);
  }

  /** Following `next` off the list leads past its last block. */
  lemma AtEnd(s: Store, bs: seq<Blk>, i: nat, lo: nat, hi: nat)
    requires Linked(s, bs, lo, hi) && AddrAt(bs, i) == NULL
    ensures i >= |bs|
  {
    AllOrdered(bs, lo, hi);
  }

  lemma ReadAfterNext(s: Store, bs: seq<Blk>, k: nat, lo: nat, hi: nat)
    requires Linked(s, bs, lo, hi) && k + 1 < |bs|
    ensures Holds(s.hdr, bs[k + 1].addr, HeaderAt(bs, k + 1))
    ensures k + 2 < |bs| ==> bs[k + 2].addr in s.hdr && 0 < bs[k + 2].addr
    ensures AddrAt(bs, k + 2) != bs[k].addr
  {
    Apart(bs, k, lo, hi);
    ReadNext(s, bs, k, lo, hi);
  }

  lemma ReadNext(s: Store, bs: seq<Blk>, k: nat, lo: nat, hi: nat)
    requires Linked(s, bs, lo, hi) && k + 1 < |bs|
    ensures Holds(s.hdr, bs[k + 1].addr, HeaderAt(bs, k + 1))
  {
    assert s.hdr[bs[k + 1].addr] == HeaderAt(bs, k + 1);
  }

  /** The stores that absorb the successor `n` of `b`. */
  function JoinStore(s: Store, b: nat, n: nat, after: nat): Store
    requires b in s.hdr && n in s.hdr && (after == NULL || after in s.hdr)
  {
    var s1 := s.Put(b, s.hdr[b].(size := s.hdr[b].size + HDR + s.hdr[n].size, next := after));
    if after == NULL then s1 else s1.Put(after, s1.hdr[after].(prev := b))
  }

  ghost predicate JoinArgs(s: Store, bs: seq<Blk>, k: nat, b: nat, n: nat, after: nat)
  {
    && k + 1 < |bs|
    && b == bs[k].addr && n == bs[k + 1].addr && after == AddrAt(bs, k + 2)
    && Holds(s.hdr, b, HeaderAt(bs, k)) && Holds(s.hdr, n, HeaderAt(bs, k + 1)) && (after == NULL || after in s.hdr)
  }

  lemma JoinTiled(bs: seq<Blk>, k: nat, lo: nat, hi: nat)
    requires Tiled(bs, lo, hi) && Shaped(bs) && k + 1 < |bs|
    ensures Tiled(Splice(bs, k, k + 2, [Joined(bs, k)]), lo, hi)
    ensures Shaped(Splice(bs, k, k + 2, [Joined(bs, k)]))
  {
    RunSpan(bs, k, k + 2, lo, hi);
    SpliceTiled(bs, k, k + 2, [Joined(bs, k)], lo, hi);
    SpliceShaped(bs, k, k + 2, [Joined(bs, k)]);
  }

  lemma JoinMirrors(s: Store, bs: seq<Blk>, k: nat, b: nat, n: nat, after: nat, lo: nat, hi: nat)
    requires Linked(s, bs, lo, hi) && JoinArgs(s, bs, k, b, n, after)
    ensures Mirrors(JoinStore(s, b, n, after).hdr, Splice(bs, k, k + 2, [Joined(bs, k)]))
  {
    Apart(bs, k, lo, hi);
    if k + 2 < |bs| {
      Apart(bs, k + 2, lo, hi);
    }
    MirrorSplice(s.hdr, JoinStore(s, b, n, after).hdr, bs, k, k + 2, [Joined(bs, k)], lo, hi);
  }

  lemma JoinLinked(s: Store, bs: seq<Blk>, k: nat, b: nat, n: nat, after: nat, lo: nat, hi: nat)
    requires Linked(s, bs, lo, hi) && JoinArgs(s, bs, k, b, n, after)
    ensures Linked(JoinStore(s, b, n, after), Splice(bs, k, k + 2, [Joined(bs, k)]), lo, hi)
  {
    JoinMirrors(s, bs, k, b, n, after, lo, hi);
    JoinTiled(bs, k, lo, hi);
  }

  lemma JoinKept(s: Store, bs: seq<Blk>, k: nat, b: nat, n: nat, after: nat, lo: nat, hi: nat)
    requires Linked(s, bs, lo, hi) && JoinArgs(s, bs, k, b, n, after)
    ensures KeptBut(bs, {}, s.mem, JoinStore(s, b, n, after).mem)
  {
    Apart(bs, k, lo, hi);
    if k + 2 < |bs| {
      Apart(bs, k + 2, lo, hi);
    }
  }

  lemma MarkTiled(bs: seq<Blk>, k: nat, u: bool, lo: nat, hi: nat)
    requires Tiled(bs, lo, hi) && Shaped(bs) && k < |bs|
    ensures Tiled(bs[k := bs[k].(used := u)], lo, hi) && Shaped(bs[k := bs[k].(used := u)])
    ensures bs[k := bs[k].(used := u)] == Splice(bs, k, k + 1, [bs[k].(used := u)])
  {
    assert bs[k] in bs;
    SpliceTiled(bs, k, k + 1, [bs[k].(used := u)], lo, hi);
    SpliceShaped(bs, k, k + 1, [bs[k].(used := u)]);
    assert bs[k := bs[k].(used := u)] == Splice(bs, k, k + 1, [bs[k].(used := u)]);
  }

  function MarkStore(s: Store, b: nat, u: bool): Store
    requires b in s.hdr
  {
    s.Put(b, s.hdr[b].(used := if u then 1 else 0))
  }

  lemma MarkMirrors(s: Store, bs: seq<Blk>, k: nat, u: bool, lo: nat, hi: nat)
    requires Linked(s, bs, lo, hi) && k < |bs|
    ensures bs[k].addr in s.hdr
    ensures Mirrors(MarkStore(s, bs[k].addr, u).hdr, Splice(bs, k, k + 1, [bs[k].(used := u)]))
  {
    Apart(bs, k, lo, hi);
    ReadHeader(s, bs, k, lo, hi);
    if k + 1 < |bs| {
      ReadNext(s, bs, k, lo, hi);
    }
    MirrorSplice(s.hdr, MarkStore(s, bs[k].addr, u).hdr, bs, k, k + 1, [bs[k].(used := u)], lo, hi);
  }

  lemma MarkLinked(s: Store, bs: seq<Blk>, k: nat, u: bool, lo: nat, hi: nat)
    requires Linked(s, bs, lo, hi) && k < |bs|
    ensures bs[k].addr in s.hdr
    ensures Linked(MarkStore(s, bs[k].addr, u), bs[k := bs[k].(used := u)], lo, hi)
  {
    MarkTiled(bs, k, u, lo, hi);
    MarkMirrors(s, bs, k, u, lo, hi);
  }

  lemma MarkKept(s: Store, bs: seq<Blk>, k: nat, u: bool, lo: nat, hi: nat)
    requires Linked(s, bs, lo, hi) && k < |bs| && bs[k].addr in s.hdr
    ensures KeptBut(bs, {}, s.mem, MarkStore(s, bs[k].addr, u).mem)
  {
    Apart(bs, k, lo, hi);
  }

  lemma KeptChain(bs: seq<Blk>, but: set<Blk>, bs': seq<Blk>, but': set<Blk>,
                  m: map<nat, nat>, m': map<nat, nat>, m'': map<nat, nat>)
    requires KeptBut(bs, but, m, m') && KeptBut(bs', but', m', m'')
    requires forall c :: c in bs && c !in but ==> c in bs' && c !in but'
    ensures KeptBut(bs, but, m, m'')
  {
    forall c | c in bs && c !in but ensures Kept(m, m'', c.Pay(), c.End()) {
      assert Kept(m, m', c.Pay(), c.End()) && Kept(m', m'', c.Pay(), c.End());
    }
  }

  ghost predicate KeptAll(held: set<Blk>, m: map<nat, nat>, m': map<nat, nat>)
  {
    forall c :: c in held ==> Kept(m, m', c.Pay(), c.End())
  }

  lemma KeptStep(held: set<Blk>, bs: seq<Blk>, but: set<Blk>, m: map<nat, nat>, m': map<nat, nat>, m'': map<nat, nat>)
    requires KeptAll(held, m, m') && KeptBut(bs, but, m', m'')
    requires forall c :: c in held ==> c in bs && c !in but
    ensures KeptAll(held, m, m'')
  {
    forall c | c in held ensures Kept(m, m'', c.Pay(), c.End()) {
      assert Kept(m, m', c.Pay(), c.End()) && Kept(m', m'', c.Pay(), c.End());
    }
  }

  lemma KeptTwice(held: set<Blk>, held': set<Blk>, m: map<nat, nat>, m': map<nat, nat>, m'': map<nat, nat>)
    requires KeptAll(held, m, m') && KeptAll(held', m', m'') && held <= held'
    ensures KeptAll(held, m, m'')
  {
    forall c | c in held ensures Kept(m, m'', c.Pay(), c.End()) {
      assert Kept(m, m', c.Pay(), c.End()) && Kept(m', m'', c.Pay(), c.End());
    }
  }

  /** The byte at x in m' is the one as far after src in m as x is after dst. */
  ghost predicate ByteCopied(m: map<nat, nat>, src: nat, m': map<nat, nat>, dst: nat, x: nat)
    requires dst <= x
  {
    x in m' && x - dst + src in m && m'[x] == m[x - dst + src]
  }

  /** The n bytes at dst in m' are those at src in m. */
  ghost predicate Copied(m: map<nat, nat>, src: nat, m': map<nat, nat>, dst: nat, n: nat)
  {
    forall x :: dst <= x < dst + n ==> ByteCopied(m, src, m', dst, x)
  }

  ghost predicate Has(m: map<nat, nat>, at: nat, n: nat)
  {
    forall x :: at <= x < at + n ==> x in m
  }

  /** memcpy of n bytes between two stretches that do not overlap. */
  function CopyBytes(m: map<nat, nat>, dst: nat, src: nat, n: nat): (m': map<nat, nat>)
    requires Has(m, src, n) && Has(m, dst, n)
    ensures m'.Keys == m.Keys
  {
    if n == 0 then m else CopyBytes(m, dst, src, n - 1)[dst + n - 1 := m[src + n - 1]]
  }

  lemma OneMoreCopied(m: map<nat, nat>, src: nat, m': map<nat, nat>, dst: nat, n: nat)
    requires Copied(m, src, m', dst, n) && src + n in m
    ensures Copied(m, src, m'[dst + n := m[src + n]], dst, n + 1)
  {
    var m2 := m'[dst + n := m[src + n]];
    forall x | dst <= x < dst + n + 1 ensures ByteCopied(m, src, m2, dst, x) {
      assert x < dst + n ==> ByteCopied(m, src, m', dst, x);
    }
  }

  lemma {:induction false} CopyBytesMeans(m: map<nat, nat>, dst: nat, src: nat, n: nat)
    requires Has(m, src, n) && Has(m, dst, n)
    ensures Copied(m, src, CopyBytes(m, dst, src, n), dst, n)
    ensures forall x :: x in m && !(dst <= x < dst + n) ==> CopyBytes(m, dst, src, n)[x] == m[x]
  {
    if n > 0 {
      CopyBytesMeans(m, dst, src, n - 1);
      var before := CopyBytes(m, dst, src, n - 1);
      assert CopyBytes(m, dst, src, n) == before[dst + n - 1 := m[src + n - 1]];
      OneMoreCopied(m, src, before, dst, n - 1);
    }
  }

  /** Copying into block nb leaves the others as they were. */
  lemma CopyKept(held: set<Blk>, b: Blk, nb: Blk, n: nat, m: map<nat, nat>)
    requires n <= b.size && n <= nb.size
    requires forall c :: c in held ==> c.End() <= nb.addr || nb.End() <= c.addr
    requires Has(m, b.Pay(), n) && Has(m, nb.Pay(), n)
    ensures KeptAll(held, m, CopyBytes(m, nb.Pay(), b.Pay(), n))
  {
    CopyBytesMeans(m, nb.Pay(), b.Pay(), n);
  }

  lemma CopiedThenKept(b: Blk, nb: Blk, n: nat, m: map<nat, nat>, m2: map<nat, nat>, m3: map<nat, nat>)
    requires Copied(m, b.Pay(), m2, nb.Pay(), n) && n <= nb.size && Kept(m2, m3, nb.Pay(), nb.End())
    ensures Copied(m, b.Pay(), m3, nb.Pay(), n)
  {
    forall x | nb.Pay() <= x < nb.Pay() + n ensures ByteCopied(m, b.Pay(), m3, nb.Pay(), x) {
      assert ByteCopied(m, b.Pay(), m2, nb.Pay(), x);
    }
  }

  lemma KeptThenCopied(b: Blk, nb: Blk, n: nat, m: map<nat, nat>, m2: map<nat, nat>, m3: map<nat, nat>)
    requires Kept(m, m2, b.Pay(), b.End()) && n <= b.size && Copied(m2, b.Pay(), m3, nb.Pay(), n)
    requires Has(m, b.Pay(), b.size)
    ensures Copied(m, b.Pay(), m3, nb.Pay(), n)
  {
    forall x | nb.Pay() <= x < nb.Pay() + n ensures ByteCopied(m, b.Pay(), m3, nb.Pay(), x) {
      assert ByteCopied(m2, b.Pay(), m3, nb.Pay(), x);
    }
  }

  /** Rounding up to eight, as init does it. */
  lemma StartAligned(base: nat, start: nat)
    requires start == (base + 7) / 8 * 8
    ensures start % 8 == 0 && start == base + (8 - base % 8) % 8
  {
    var q, r := base / 8, base % 8;
    assert base == 8 * q + r && 0 <= r < 8;
    assert (base + 7) / 8 == if r == 0 then q else q + 1;
  }

  lemma EightsOf(n: nat, m: nat)
    requires m == n / 8 * 8
    ensures m % 8 == 0 && n - 8 < m <= n
  {
  }

  /** One header makes a list of one free block. */
  lemma OneBlockLinked(m: map<nat, nat>, lo: nat, hi: nat, b: Blk)
    requires 0 < lo && lo % 8 == 0 && hi % 8 == 0 && lo + HDR + MIN_PAYLOAD <= hi < U32
    requires forall x :: lo <= x < hi ==> x in m
    requires b == Blk(lo, hi - lo - HDR, false)
    ensures Linked(Store(map[], m).Put(lo, Header(NULL, NULL, b.size, 0)), [b], lo, hi)
  {
    EightsLess(hi, lo, b.size);
    assert Shapely(b);
  }
}

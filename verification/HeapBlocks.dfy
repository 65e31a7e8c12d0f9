/** The block list of kernel/reflex_heap.c as a plain sequence of values.

    Every operation of the allocator replaces a short run of neighbouring blocks
    by another run that covers the same bytes.  This module says which run, and
    proves what such a replacement keeps.  The class in Heap.dfy does the pointer
    work and is proved to have exactly these effects. */
module HeapBlocks {
  import opened Arith

  const ALIGN: nat := 8
  const HDR: nat := 16
  const MIN_PAYLOAD: nat := ALIGN
  const SPLIT_MIN: nat := HDR + MIN_PAYLOAD

  datatype Blk = Blk(addr: nat, size: nat, used: bool) {
    function Pay(): nat { addr + HDR }
    function End(): nat { addr + HDR + size }
  }

  // ---- Shape ----

  /** Blocks lie end to end and cover [lo, hi) exactly. */
  ghost predicate Tiled(bs: seq<Blk>, lo: nat, hi: nat)
  {
    && |bs| > 0
    && bs[0].addr == lo
    && bs[|bs| - 1].End() == hi
    && (forall i :: 0 <= i < |bs| - 1 ==> bs[i + 1].addr == bs[i].End())
  }

  ghost predicate Shapely(b: Blk)
  {
    b.size % 8 == 0 && b.size >= MIN_PAYLOAD
  }

  ghost predicate Shaped(bs: seq<Blk>)
  {
    forall b :: b in bs ==> Shapely(b)
  }

  /** No two neighbours are both free. */
  ghost predicate Coalesced(bs: seq<Blk>)
  {
    forall i :: 0 <= i < |bs| - 1 ==> bs[i].used || bs[i + 1].used
  }

  ghost predicate Sound(bs: seq<Blk>, lo: nat, hi: nat)
  {
    Tiled(bs, lo, hi) && Shaped(bs) && Coalesced(bs)
  }

  lemma {:induction false} Ordered(bs: seq<Blk>, lo: nat, hi: nat, i: nat, j: nat)
    requires Tiled(bs, lo, hi) && i < j < |bs|
    ensures bs[i].End() <= bs[j].addr
    decreases j
  {
    if i < j - 1 {
      Ordered(bs, lo, hi, i, j - 1);
    }
    assert bs[j - 1 + 1].addr == bs[j - 1].End();
  }

  lemma AllOrdered(bs: seq<Blk>, lo: nat, hi: nat)
    requires Tiled(bs, lo, hi)
    ensures forall i, j :: 0 <= i < j < |bs| ==> bs[i].End() <= bs[j].addr
    ensures forall i :: 0 <= i < |bs| ==> lo <= bs[i].addr && bs[i].End() <= hi
  {
    forall i, j | 0 <= i < j < |bs| ensures bs[i].End() <= bs[j].addr {
      Ordered(bs, lo, hi, i, j);
    }
  }

  // ---- Accounting ----

  ghost function FreeBytes(bs: seq<Blk>): nat
  {
    if bs == [] then 0 else (if bs[0].used then 0 else bs[0].size) + FreeBytes(bs[1..])
  }

  ghost function UsedBytes(bs: seq<Blk>): nat
  {
    if bs == [] then 0 else (if bs[0].used then bs[0].size else 0) + UsedBytes(bs[1..])
  }

  ghost function UsedSet(bs: seq<Blk>): set<Blk>
  {
    set b | b in bs && b.used
  }

  lemma {:induction false} FreeBytesConcat(xs: seq<Blk>, ys: seq<Blk>)
    ensures FreeBytes(xs + ys) == FreeBytes(xs) + FreeBytes(ys)
  {
    if xs == [] {
      assert xs + ys == ys;
    } else {
      assert (xs + ys)[1..] == xs[1..] + ys;
      FreeBytesConcat(xs[1..], ys);
    }
  }

  /** Conservation: payload in use, payload free and one header per block are the region. */
  lemma {:induction false} BytesConserved(bs: seq<Blk>, lo: nat, hi: nat)
    requires Tiled(bs, lo, hi)
    ensures UsedBytes(bs) + FreeBytes(bs) + 16 * |bs| == hi - lo
  {
    if |bs| == 1 {
      assert bs[1..] == [];
    } else {
      var rest := bs[1..];
      assert bs[0 + 1].addr == bs[0].End();
      forall i | 0 <= i < |rest| - 1 ensures rest[i + 1].addr == rest[i].End() {
        assert bs[i + 1 + 1].addr == bs[i + 1].End();
      }
      BytesConserved(rest, bs[0].End(), hi);
    }
  }

  // ---- Replacing a run of blocks ----

  ghost function Splice(bs: seq<Blk>, i: nat, j: nat, rs: seq<Blk>): seq<Blk>
    requires i <= j <= |bs|
  {
    bs[..i] + rs + bs[j..]
  }

  lemma SpliceTiled(bs: seq<Blk>, i: nat, j: nat, rs: seq<Blk>, lo: nat, hi: nat)
    requires Tiled(bs, lo, hi) && i < j <= |bs|
    requires Tiled(rs, bs[i].addr, bs[j - 1].End())
    ensures Tiled(Splice(bs, i, j, rs), lo, hi)
  {
    var s := Splice(bs, i, j, rs);
    forall m | 0 <= m < |s| - 1 ensures s[m + 1].addr == s[m].End() {
      if m < i {
        assert bs[m + 1].addr == bs[m].End();
      } else if m < i + |rs| - 1 {
        assert s[m] == rs[m - i] && s[m + 1] == rs[m - i + 1];
      } else {
        var p := m - i - |rs| + j;
        assert s[m + 1] == bs[p + 1];
        assert bs[p + 1].addr == bs[p].End();
      }
    }
  }

  lemma SpliceShaped(bs: seq<Blk>, i: nat, j: nat, rs: seq<Blk>)
    requires Shaped(bs) && Shaped(rs) && i <= j <= |bs|
    ensures Shaped(Splice(bs, i, j, rs))
  {
  }

  lemma SpliceCoalesced(bs: seq<Blk>, i: nat, j: nat, rs: seq<Blk>)
    requires Coalesced(bs) && Coalesced(rs) && i < j <= |bs| && |rs| > 0
    requires i > 0 ==> bs[i - 1].used || rs[0].used
    requires j < |bs| ==> rs[|rs| - 1].used || bs[j].used
    ensures Coalesced(Splice(bs, i, j, rs))
  {
    var s := Splice(bs, i, j, rs);
    forall m | 0 <= m < |s| - 1 ensures s[m].used || s[m + 1].used {
      if m + 1 < i {
        assert bs[m].used || bs[m + 1].used;
      } else if i <= m < i + |rs| - 1 {
        assert rs[m - i].used || rs[m - i + 1].used;
      } else if m >= i + |rs| {
        var p := m - i - |rs| + j;
        assert bs[p].used || bs[p + 1].used;
      }
    }
  }

  lemma SpliceFreeBytes(bs: seq<Blk>, i: nat, j: nat, rs: seq<Blk>)
    requires i <= j <= |bs|
    ensures FreeBytes(Splice(bs, i, j, rs)) == FreeBytes(bs) - FreeBytes(bs[i..j]) + FreeBytes(rs)
  {
    FreeBytesConcat(bs[..i] + rs, bs[j..]);
    FreeBytesConcat(bs[..i], rs);
    assert bs == bs[..i] + bs[i..j] + bs[j..];
    FreeBytesConcat(bs[..i] + bs[i..j], bs[j..]);
    FreeBytesConcat(bs[..i], bs[i..j]);
  }

  lemma InRun(bs: seq<Blk>, i: nat, j: nat, m: nat)
    requires i <= m < j <= |bs|
    ensures bs[m] in bs[i..j]
  {
    assert bs[i..j][m - i] == bs[m];
  }

  /** Addresses are distinct, so a splice removes exactly the blocks of the run it replaces. */
  lemma SpliceMembers(bs: seq<Blk>, i: nat, j: nat, rs: seq<Blk>, lo: nat, hi: nat)
    requires Tiled(bs, lo, hi) && i < j <= |bs|
    ensures forall b :: b in Splice(bs, i, j, rs) <==> b in rs || (b in bs && b !in bs[i..j])
  {
    forall b ensures b in Splice(bs, i, j, rs) <==> b in rs || b in bs[..i] || b in bs[j..] {
    }
    forall b | b in bs ensures b !in bs[i..j] <==> b in bs[..i] || b in bs[j..] {
      RunApart(bs, i, j, b, lo, hi);
    }
  }

  /** A block lies in the run from i to j, or outside it, and not both. */
  lemma RunApart(bs: seq<Blk>, i: nat, j: nat, b: Blk, lo: nat, hi: nat)
    requires Tiled(bs, lo, hi) && i < j <= |bs| && b in bs
    ensures b !in bs[i..j] <==> b in bs[..i] || b in bs[j..]
  {
    var m :| 0 <= m < |bs| && bs[m] == b;
    if i <= m < j {
      InRun(bs, i, j, m);
      NotBeside(bs, i, j, m, lo, hi);
    } else {
      NotInRun(bs, i, j, m, lo, hi);
      assert m < i ==> bs[..i][m] == b;
      assert m >= j ==> bs[j..][m - j] == b;
    }
  }

  lemma NotInRun(bs: seq<Blk>, i: nat, j: nat, m: nat, lo: nat, hi: nat)
    requires Tiled(bs, lo, hi) && i < j <= |bs| && m < |bs| && !(i <= m < j)
    ensures bs[m] !in bs[i..j]
  {
    AllOrdered(bs, lo, hi);
  }

  lemma NotBeside(bs: seq<Blk>, i: nat, j: nat, m: nat, lo: nat, hi: nat)
    requires Tiled(bs, lo, hi) && i <= m < j <= |bs|
    ensures bs[m] !in bs[..i] && bs[m] !in bs[j..]
  {
    AllOrdered(bs, lo, hi);
  }

  lemma UsedSplice(bs: seq<Blk>, i: nat, j: nat, rs: seq<Blk>, lo: nat, hi: nat)
    requires Tiled(bs, lo, hi) && i < j <= |bs|
    ensures UsedSet(Splice(bs, i, j, rs)) == UsedSet(bs) - UsedSet(bs[i..j]) + UsedSet(rs)
  {
    SpliceMembers(bs, i, j, rs, lo, hi);
  }

  // ---- What each operation does to the list ----

  /** Cutting a block to `want` bytes; a remainder too small to be a block stays with it. */
  ghost function Carve(b: Blk, want: nat, u: bool): (r: seq<Blk>)
    requires want <= b.size
  {
    if b.size - want < SPLIT_MIN then [b.(used := u)]
    else [Blk(b.addr, want, u), Blk(b.addr + HDR + want, b.size - want - HDR, false)]
  }

  /** Placing an allocation in a free block, `gap` bytes above its payload. */
  ghost function Placed(b: Blk, gap: nat, want: nat): seq<Blk>
    requires gap == 0 || gap >= SPLIT_MIN
    requires gap + want <= b.size
  {
    if gap == 0 then Carve(b, want, true)
    else [Blk(b.addr, gap - HDR, false)] + Carve(Blk(b.addr + gap, b.size - gap, false), want, true)
  }

  ghost function PlacedIn(b: Blk, gap: nat, want: nat): Blk
    requires gap == 0 || gap >= SPLIT_MIN
    requires gap + want <= b.size
  {
    Blk(b.addr + gap, if b.size - gap - want < SPLIT_MIN then b.size - gap else want, true)
  }

  ghost function AllocAt(bs: seq<Blk>, k: nat, gap: nat, want: nat): seq<Blk>
    requires k < |bs| && (gap == 0 || gap >= SPLIT_MIN) && gap + want <= bs[k].size
  {
    Splice(bs, k, k + 1, Placed(bs[k], gap, want))
  }

  /** First block of the free run that appears when block k is released. */
  ghost function RunLo(bs: seq<Blk>, k: nat): (i: nat)
    requires k < |bs|
    ensures i <= k
  {
    if k > 0 && !bs[k - 1].used then k - 1 else k
  }

  /** One past the last block of that run. */
  ghost function RunHi(bs: seq<Blk>, k: nat): (j: nat)
    requires k < |bs|
    ensures k < j <= |bs|
  {
    if k + 1 < |bs| && !bs[k + 1].used then k + 2 else k + 1
  }

  /** Releasing block k merges it with whichever neighbours are free. */
  ghost function FreeAt(bs: seq<Blk>, k: nat, lo: nat, hi: nat): seq<Blk>
    requires k < |bs| && Tiled(bs, lo, hi)
  {
    AllOrdered(bs, lo, hi);
    var i, j := RunLo(bs, k), RunHi(bs, k);
    Splice(bs, i, j, [Blk(bs[i].addr, bs[j - 1].End() - bs[i].Pay(), false)])
  }

  /** Bytes block k can have without moving: its own and a free successor's. */
  ghost function Reach(bs: seq<Blk>, k: nat, lo: nat, hi: nat): (n: nat)
    requires k < |bs| && Tiled(bs, lo, hi)
    ensures bs[k].size <= n
  {
    AllOrdered(bs, lo, hi);
    bs[RunHi(bs, k) - 1].End() - bs[k].Pay()
  }

  /** Resizing block k in place to `want` bytes. */
  ghost function ResizeAt(bs: seq<Blk>, k: nat, want: nat, lo: nat, hi: nat): seq<Blk>
    requires k < |bs| && Tiled(bs, lo, hi) && want <= Reach(bs, k, lo, hi)
  {
    if want <= bs[k].size && bs[k].size - want < SPLIT_MIN then bs
    else Splice(bs, k, RunHi(bs, k), Carve(Blk(bs[k].addr, Reach(bs, k, lo, hi), true), want, true))
  }

  ghost function ResizedBlock(bs: seq<Blk>, k: nat, want: nat, lo: nat, hi: nat): Blk
    requires k < |bs| && Tiled(bs, lo, hi) && want <= Reach(bs, k, lo, hi)
  {
    if want <= bs[k].size && bs[k].size - want < SPLIT_MIN then bs[k]
    else Carve(Blk(bs[k].addr, Reach(bs, k, lo, hi), true), want, true)[0]
  }

  // ---- What each operation keeps ----

  lemma FreeOfOne(b: Blk)
    ensures FreeBytes([b]) == if b.used then 0 else b.size
    ensures UsedSet([b]) == if b.used then {b} else {}
  {
    assert [b][1..] == [];
  }

  lemma FreeOfTwo(a: Blk, b: Blk)
    ensures FreeBytes([a, b]) == FreeBytes([a]) + FreeBytes([b])
    ensures UsedSet([a, b]) == UsedSet([a]) + UsedSet([b])
  {
    assert [a, b] == [a] + [b];
    FreeBytesConcat([a], [b]);
  }

  lemma FreeOfThree(a: Blk, b: Blk, c: Blk)
    ensures FreeBytes([a, b, c]) == FreeBytes([a]) + FreeBytes([b]) + FreeBytes([c])
    ensures UsedSet([a, b, c]) == UsedSet([a]) + UsedSet([b]) + UsedSet([c])
  {
    assert [a, b, c] == [a] + [b, c];
    FreeBytesConcat([a], [b, c]);
    FreeOfTwo(b, c);
  }

  /** The part of the argument common to all operations. */
  lemma SpliceKeeps(bs: seq<Blk>, i: nat, j: nat, rs: seq<Blk>, lo: nat, hi: nat)
    requires Sound(bs, lo, hi) && i < j <= |bs|
    requires Sound(rs, bs[i].addr, bs[j - 1].End())
    requires i > 0 ==> bs[i - 1].used || rs[0].used
    requires j < |bs| ==> rs[|rs| - 1].used || bs[j].used
    ensures Sound(Splice(bs, i, j, rs), lo, hi)
    ensures FreeBytes(Splice(bs, i, j, rs)) == FreeBytes(bs) - FreeBytes(bs[i..j]) + FreeBytes(rs)
  {
    SpliceTiled(bs, i, j, rs, lo, hi);
    SpliceShaped(bs, i, j, rs);
    SpliceCoalesced(bs, i, j, rs);
    SpliceFreeBytes(bs, i, j, rs);
  }

  lemma CarveFacts(b: Blk, want: nat)
    requires want <= b.size && want % 8 == 0 && want >= MIN_PAYLOAD && b.size % 8 == 0
    ensures var rs := Carve(b, want, true);
      && Sound(rs, b.addr, b.End()) && rs[0].used
      && UsedSet(rs) == {rs[0]}
      && FreeBytes(rs) + rs[0].size == b.size - 16 * (|rs| - 1)
  {
    var rs := Carve(b, want, true);
    FreeOfOne(rs[0]);
    if |rs| == 2 {
      FreeOfOne(rs[1]);
      FreeOfTwo(rs[0], rs[1]);
    }
  }

  lemma ConsSound(b: Blk, rest: seq<Blk>, hi: nat)
    requires Sound(rest, b.End(), hi) && b.size % 8 == 0 && b.size >= MIN_PAYLOAD
    requires b.used || rest[0].used
    ensures Sound([b] + rest, b.addr, hi)
  {
    var s := [b] + rest;
    forall m | 0 <= m < |s| - 1 ensures s[m + 1].addr == s[m].End() && (s[m].used || s[m + 1].used) {
      if m > 0 {
        assert s[m] == rest[m - 1] && s[m + 1] == rest[m - 1 + 1];
      }
    }
  }

  lemma PlacedSound(b: Blk, gap: nat, want: nat)
    requires !b.used && b.size % 8 == 0
    requires (gap == 0 || gap >= SPLIT_MIN) && gap % 8 == 0
    requires want >= MIN_PAYLOAD && want % 8 == 0 && gap + want <= b.size
    ensures Sound(Placed(b, gap, want), b.addr, b.End())
  {
    if gap == 0 {
      CarveFacts(b, want);
    } else {
      var low, upper := Blk(b.addr, gap - HDR, false), Blk(b.addr + gap, b.size - gap, false);
      CarveFacts(upper, want);
      ConsSound(low, Carve(upper, want, true), upper.End());
    }
  }

  lemma PlacedUse(b: Blk, gap: nat, want: nat)
    requires !b.used && b.size % 8 == 0
    requires (gap == 0 || gap >= SPLIT_MIN) && gap % 8 == 0
    requires want >= MIN_PAYLOAD && want % 8 == 0 && gap + want <= b.size
    ensures UsedSet(Placed(b, gap, want)) == {PlacedIn(b, gap, want)}
    ensures FreeBytes(Placed(b, gap, want)) + PlacedIn(b, gap, want).size == b.size - 16 * (|Placed(b, gap, want)| - 1)
  {
    if gap == 0 {
      CarveFacts(b, want);
    } else {
      var low, upper := Blk(b.addr, gap - HDR, false), Blk(b.addr + gap, b.size - gap, false);
      var rest := Carve(upper, want, true);
      CarveFacts(upper, want);
      FreeBytesConcat([low], rest);
      FreeOfOne(low);
      assert UsedSet([low] + rest) == UsedSet(rest);
      assert rest[0] == PlacedIn(b, gap, want);
    }
  }

  lemma CoalescedAt(bs: seq<Blk>, m: nat)
    requires Coalesced(bs) && m + 1 < |bs|
    ensures bs[m].used || bs[m + 1].used
  {
  }

  lemma FreeEdges(bs: seq<Blk>, k: nat)
    requires Coalesced(bs) && k < |bs| && !bs[k].used
    ensures k > 0 ==> bs[k - 1].used
    ensures k + 1 < |bs| ==> bs[k + 1].used
  {
    if k > 0 {
      CoalescedAt(bs, k - 1);
    }
  }

  lemma AllocKeeps(bs: seq<Blk>, k: nat, gap: nat, want: nat, lo: nat, hi: nat)
    requires Sound(bs, lo, hi) && k < |bs| && !bs[k].used
    requires (gap == 0 || gap >= SPLIT_MIN) && gap % 8 == 0
    requires want >= MIN_PAYLOAD && want % 8 == 0 && gap + want <= bs[k].size
    ensures Sound(AllocAt(bs, k, gap, want), lo, hi)
    ensures FreeBytes(AllocAt(bs, k, gap, want)) + PlacedIn(bs[k], gap, want).size
         == FreeBytes(bs) - 16 * (|AllocAt(bs, k, gap, want)| - |bs|)
  {
    assert bs[k] in bs;
    PlacedSound(bs[k], gap, want);
    PlacedUse(bs[k], gap, want);
    RunOfThree(bs, k, k + 1);
    FreeEdges(bs, k);
    SpliceKeeps(bs, k, k + 1, Placed(bs[k], gap, want), lo, hi);
  }

  /** A run of up to three neighbours spans their payloads and the headers between them. */
  lemma RunSpan(bs: seq<Blk>, i: nat, j: nat, lo: nat, hi: nat)
    requires Tiled(bs, lo, hi) && Shaped(bs) && i < j <= |bs| && j <= i + 3
    ensures bs[j - 1].End() - bs[i].Pay() == bs[i].size
              + (if i + 1 < j then HDR + bs[i + 1].size else 0)
              + (if i + 2 < j then HDR + bs[i + 2].size else 0)
    ensures (bs[j - 1].End() - bs[i].Pay()) % 8 == 0
    ensures bs[j - 1].End() - bs[i].Pay() >= MIN_PAYLOAD
  {
    RunSize(bs, i, j, lo, hi);
    var n := bs[j - 1].End() - bs[i].Pay();
    assert Shapely(bs[i]) && Shapely(bs[j - 1]);
    if j == i + 1 {
    } else if j == i + 2 {
      EightsAdd(n, bs[i].size, bs[i + 1].size, 0, 1);
    } else {
      assert Shapely(bs[i + 1]);
      EightsAdd(n, bs[i].size, bs[i + 1].size, bs[i + 2].size, 2);
    }
  }

  lemma RunSize(bs: seq<Blk>, i: nat, j: nat, lo: nat, hi: nat)
    requires Tiled(bs, lo, hi) && i < j <= |bs| && j <= i + 3
    ensures bs[j - 1].End() - bs[i].Pay() == bs[i].size
              + (if i + 1 < j then HDR + bs[i + 1].size else 0)
              + (if i + 2 < j then HDR + bs[i + 2].size else 0)
  {
    if i + 1 < j {
      assert bs[i + 1].addr == bs[i].End();
    }
    if i + 2 < j {
      assert bs[i + 1 + 1].addr == bs[i + 1].End();
    }
  }

  lemma EightsAdd(n: int, a: nat, b: nat, c: nat, headers: nat)
    requires a % 8 == 0 && b % 8 == 0 && c % 8 == 0 && n == a + b + c + 16 * headers
    ensures n % 8 == 0
  {
    var q := a / 8 + b / 8 + c / 8 + 2 * headers;
    DivModUnique(q, 8, 0);
  }

  lemma EightsLess(a: nat, b: nat, n: nat)
    requires a % 8 == 0 && b % 8 == 0 && a == b + 16 + n
    ensures n % 8 == 0
  {
    var q := a / 8 - b / 8 - 2;
    DivModUnique(q, 8, 0);
  }

  /** A run that took in every free neighbour has used blocks at both edges. */
  lemma RunEdges(bs: seq<Blk>, k: nat)
    requires Coalesced(bs) && k < |bs|
    ensures RunLo(bs, k) > 0 ==> bs[RunLo(bs, k) - 1].used
    ensures RunHi(bs, k) < |bs| ==> bs[RunHi(bs, k)].used
    ensures RunLo(bs, k) < k ==> !bs[k - 1].used
    ensures k + 1 < RunHi(bs, k) ==> !bs[k + 1].used
  {
    var i, j := RunLo(bs, k), RunHi(bs, k);
    if 0 < i < k {
      CoalescedAt(bs, i - 1);
    }
    if k + 1 < j < |bs| {
      CoalescedAt(bs, j - 1);
    }
  }

  ghost function MergedRun(bs: seq<Blk>, i: nat, j: nat): Blk
    requires i < j <= |bs| && bs[i].Pay() <= bs[j - 1].End()
  {
    Blk(bs[i].addr, bs[j - 1].End() - bs[i].Pay(), false)
  }

  lemma FreeKeeps(bs: seq<Blk>, k: nat, lo: nat, hi: nat)
    requires Sound(bs, lo, hi) && k < |bs| && bs[k].used
    ensures Sound(FreeAt(bs, k, lo, hi), lo, hi)
  {
    var i, j := RunLo(bs, k), RunHi(bs, k);
    RunSpan(bs, i, j, lo, hi);
    RunEdges(bs, k);
    var merged := MergedRun(bs, i, j);
    assert Sound([merged], bs[i].addr, bs[j - 1].End());
    SpliceKeeps(bs, i, j, [merged], lo, hi);
    assert FreeAt(bs, k, lo, hi) == Splice(bs, i, j, [merged]);
  }

  lemma FreeCredits(bs: seq<Blk>, k: nat, lo: nat, hi: nat)
    requires Sound(bs, lo, hi) && k < |bs| && bs[k].used
    ensures FreeBytes(FreeAt(bs, k, lo, hi))
         == FreeBytes(bs) + bs[k].size + 16 * (|bs| - |FreeAt(bs, k, lo, hi)|)
  {
    var i, j := RunLo(bs, k), RunHi(bs, k);
    RunSpan(bs, i, j, lo, hi);
    var merged := MergedRun(bs, i, j);
    SpliceFreeBytes(bs, i, j, [merged]);
    FreeOfOne(merged);
    RunOfThree(bs, i, j);
    assert FreeAt(bs, k, lo, hi) == Splice(bs, i, j, [merged]);
  }

  ghost function OwnFree(b: Blk): nat { if b.used then 0 else b.size }

  ghost function OwnUse(b: Blk): set<Blk> { if b.used then {b} else {} }

  lemma RunOfThree(bs: seq<Blk>, i: nat, j: nat)
    requires i < j <= |bs| && j <= i + 3
    ensures FreeBytes(bs[i..j]) == OwnFree(bs[i])
              + (if i + 1 < j then OwnFree(bs[i + 1]) else 0)
              + (if i + 2 < j then OwnFree(bs[i + 2]) else 0)
    ensures UsedSet(bs[i..j]) == OwnUse(bs[i])
              + (if i + 1 < j then OwnUse(bs[i + 1]) else {})
              + (if i + 2 < j then OwnUse(bs[i + 2]) else {})
  {
    FreeOfOne(bs[i]);
    if j == i + 1 {
      assert bs[i..j] == [bs[i]];
    } else {
      FreeOfOne(bs[i + 1]);
      if j == i + 2 {
        assert bs[i..j] == [bs[i], bs[i + 1]];
        FreeOfTwo(bs[i], bs[i + 1]);
      } else {
        assert bs[i..j] == [bs[i], bs[i + 1], bs[i + 2]];
        FreeOfOne(bs[i + 2]);
        FreeOfThree(bs[i], bs[i + 1], bs[i + 2]);
      }
    }
  }

  lemma ResizeKeeps(bs: seq<Blk>, k: nat, want: nat, lo: nat, hi: nat)
    requires Sound(bs, lo, hi) && k < |bs| && bs[k].used
    requires want >= MIN_PAYLOAD && want % 8 == 0 && want <= Reach(bs, k, lo, hi)
    ensures Sound(ResizeAt(bs, k, want, lo, hi), lo, hi)
  {
    if want <= bs[k].size && bs[k].size - want < SPLIT_MIN {
    } else {
      var j := RunHi(bs, k);
      RunSpan(bs, k, j, lo, hi);
      RunEdges(bs, k);
      var whole := Blk(bs[k].addr, Reach(bs, k, lo, hi), true);
      var rs := Carve(whole, want, true);
      CarveFacts(whole, want);
      SpliceKeeps(bs, k, j, rs, lo, hi);
      assert ResizeAt(bs, k, want, lo, hi) == Splice(bs, k, j, rs);
    }
  }

  lemma ResizeCredits(bs: seq<Blk>, k: nat, want: nat, lo: nat, hi: nat)
    requires Sound(bs, lo, hi) && k < |bs| && bs[k].used
    requires want >= MIN_PAYLOAD && want % 8 == 0 && want <= Reach(bs, k, lo, hi)
    ensures FreeBytes(ResizeAt(bs, k, want, lo, hi)) + ResizedBlock(bs, k, want, lo, hi).size
         == FreeBytes(bs) + bs[k].size + 16 * (|bs| - |ResizeAt(bs, k, want, lo, hi)|)
  {
    if want <= bs[k].size && bs[k].size - want < SPLIT_MIN {
    } else {
      var j := RunHi(bs, k);
      RunSpan(bs, k, j, lo, hi);
      var whole := Blk(bs[k].addr, Reach(bs, k, lo, hi), true);
      var rs := Carve(whole, want, true);
      CarveFacts(whole, want);
      SpliceFreeBytes(bs, k, j, rs);
      RunOfThree(bs, k, j);
      assert ResizeAt(bs, k, want, lo, hi) == Splice(bs, k, j, rs);
    }
  }

  // ---- Which blocks stay in use ----

  lemma AllocUses(bs: seq<Blk>, k: nat, gap: nat, want: nat, lo: nat, hi: nat)
    requires Sound(bs, lo, hi) && k < |bs| && !bs[k].used
    requires (gap == 0 || gap >= SPLIT_MIN) && gap % 8 == 0
    requires want >= MIN_PAYLOAD && want % 8 == 0 && gap + want <= bs[k].size
    ensures UsedSet(AllocAt(bs, k, gap, want)) == UsedSet(bs) + {PlacedIn(bs[k], gap, want)}
  {
    assert bs[k] in bs;
    PlacedUse(bs[k], gap, want);
    UsedSplice(bs, k, k + 1, Placed(bs[k], gap, want), lo, hi);
    RunOfThree(bs, k, k + 1);
  }

  lemma FreeUses(bs: seq<Blk>, k: nat, lo: nat, hi: nat)
    requires Sound(bs, lo, hi) && k < |bs| && bs[k].used
    ensures UsedSet(FreeAt(bs, k, lo, hi)) == UsedSet(bs) - {bs[k]}
  {
    var i, j := RunLo(bs, k), RunHi(bs, k);
    RunSpan(bs, i, j, lo, hi);
    var merged := MergedRun(bs, i, j);
    UsedSplice(bs, i, j, [merged], lo, hi);
    FreeOfOne(merged);
    RunOfThree(bs, i, j);
    assert UsedSet(bs[i..j]) == {bs[k]};
    assert FreeAt(bs, k, lo, hi) == Splice(bs, i, j, [merged]);
  }

  lemma ResizeUses(bs: seq<Blk>, k: nat, want: nat, lo: nat, hi: nat)
    requires Sound(bs, lo, hi) && k < |bs| && bs[k].used
    requires want >= MIN_PAYLOAD && want % 8 == 0 && want <= Reach(bs, k, lo, hi)
    ensures UsedSet(ResizeAt(bs, k, want, lo, hi)) == UsedSet(bs) - {bs[k]} + {ResizedBlock(bs, k, want, lo, hi)}
  {
    if want <= bs[k].size && bs[k].size - want < SPLIT_MIN {
      assert bs[k] in UsedSet(bs);
    } else {
      var j := RunHi(bs, k);
      RunSpan(bs, k, j, lo, hi);
      RunEdges(bs, k);
      var whole := Blk(bs[k].addr, Reach(bs, k, lo, hi), true);
      CarveFacts(whole, want);
      UsedSplice(bs, k, j, Carve(whole, want, true), lo, hi);
      RunOfThree(bs, k, j);
      assert UsedSet(bs[k..j]) == {bs[k]};
    }
  }

  // ---- Composing the steps of an allocation ----

  lemma {:induction false} FreeBytesAt(bs: seq<Blk>, k: nat)
    requires k < |bs| && !bs[k].used
    ensures bs[k].size <= FreeBytes(bs)
  {
    if k > 0 {
      FreeBytesAt(bs[1..], k - 1);
    }
  }

  /** Cutting a free block and then marking its head used is placing it. */
  lemma TakeIsPlaced(bs: seq<Blk>, k: nat, want: nat)
    requires k < |bs| && !bs[k].used && want <= bs[k].size
    ensures var cut := Splice(bs, k, k + 1, Carve(bs[k], want, false));
      && |cut| > k
      && cut[k := cut[k].(used := true)] == Splice(bs, k, k + 1, Carve(bs[k], want, true))
      && cut[k].(used := true) == PlacedIn(bs[k], 0, want)
  {
  }

  /** The free block below a gap, and the block the allocation is then cut from. */
  ghost function Gapped(b: Blk, gap: nat): seq<Blk>
    requires SPLIT_MIN <= gap <= b.size
  {
    [Blk(b.addr, gap - HDR, false), Blk(b.addr + gap, b.size - gap, false)]
  }

  lemma GapThenTake(bs: seq<Blk>, k: nat, gap: nat, want: nat)
    requires k < |bs| && !bs[k].used && SPLIT_MIN <= gap && gap + want <= bs[k].size && MIN_PAYLOAD <= want
    ensures Carve(bs[k], gap - HDR, false) == Gapped(bs[k], gap)
    ensures var open := Splice(bs, k, k + 1, Gapped(bs[k], gap));
      && |open| == |bs| + 1 && open[k + 1] == Blk(bs[k].addr + gap, bs[k].size - gap, false)
      && Splice(open, k + 1, k + 2, Carve(open[k + 1], want, true)) == AllocAt(bs, k, gap, want)
      && PlacedIn(open[k + 1], 0, want) == PlacedIn(bs[k], gap, want)
  {
    var open := Splice(bs, k, k + 1, Gapped(bs[k], gap));
    assert Splice(open, k + 1, k + 2, Carve(open[k + 1], want, true)) == AllocAt(bs, k, gap, want);
  }

  /** The other blocks are still there, and none of them is the block about to be cut. */
  lemma GapOthers(bs: seq<Blk>, k: nat, gap: nat, lo: nat, hi: nat)
    requires Tiled(bs, lo, hi) && k < |bs| && SPLIT_MIN <= gap <= bs[k].size
    ensures var open := Splice(bs, k, k + 1, Gapped(bs[k], gap));
      forall c :: c in bs && c != bs[k] ==> c in open && c != open[k + 1]
  {
    AllOrdered(bs, lo, hi);
    var open := Splice(bs, k, k + 1, Gapped(bs[k], gap));
    forall c | c in bs && c != bs[k] ensures c in open && c != open[k + 1] {
      var m :| 0 <= m < |bs| && bs[m] == c;
      assert c == open[if m < k then m else m + 1];
    }
  }

  lemma PlacedNew(bs: seq<Blk>, k: nat, gap: nat, want: nat, lo: nat, hi: nat)
    requires Tiled(bs, lo, hi) && k < |bs| && !bs[k].used
    requires (gap == 0 || gap >= SPLIT_MIN) && gap + want <= bs[k].size
    ensures PlacedIn(bs[k], gap, want) !in UsedSet(bs)
    ensures bs[k] !in UsedSet(bs)
  {
    AllOrdered(bs, lo, hi);
  }

  /** Every block address is eight-byte aligned. */
  lemma {:induction false} AddrAligned(bs: seq<Blk>, k: nat, lo: nat, hi: nat)
    requires Tiled(bs, lo, hi) && Shaped(bs) && lo % 8 == 0 && k < |bs|
    ensures bs[k].addr % 8 == 0
  {
    if k > 0 {
      AddrAligned(bs, k - 1, lo, hi);
      assert Shapely(bs[k - 1]) && bs[k - 1 + 1].addr == bs[k - 1].End();
      EightsAdd(bs[k].addr, bs[k - 1].addr, bs[k - 1].size, 0, 1);
    }
  }

  ghost function Joined(bs: seq<Blk>, k: nat): Blk
    requires k + 1 < |bs|
  {
    Blk(bs[k].addr, bs[k].size + HDR + bs[k + 1].size, bs[k].used)
  }

  lemma PayAligned(bs: seq<Blk>, k: nat, lo: nat, hi: nat)
    requires Tiled(bs, lo, hi) && Shaped(bs) && lo % 8 == 0 && k < |bs|
    ensures bs[k].Pay() % 8 == 0
  {
    AddrAligned(bs, k, lo, hi);
  }

  ghost function JoinAt(bs: seq<Blk>, k: nat): seq<Blk>
    requires k < |bs|
  {
    if k + 1 < |bs| && !bs[k + 1].used then Splice(bs, k, k + 2, [Joined(bs, k)]) else bs
  }

  /** The steps of a release: mark free, absorb a free successor, be absorbed by a free predecessor. */
  ghost function Released(bs: seq<Blk>, k: nat): seq<Blk>
    requires k < |bs|
  {
    var merged := JoinAt(bs[k := bs[k].(used := false)], k);
    if k > 0 && !bs[k - 1].used then JoinAt(merged, k - 1) else merged
  }

  lemma ReleasedBySteps(bs: seq<Blk>, k: nat, freed: seq<Blk>, merged: seq<Blk>, last: seq<Blk>)
    requires k < |bs| && freed == bs[k := bs[k].(used := false)] && merged == JoinAt(freed, k)
    requires last == if k > 0 && !bs[k - 1].used then JoinAt(merged, k - 1) else merged
    ensures last == Released(bs, k)
  {
  }

  lemma ReleaseForward(bs: seq<Blk>, k: nat, lo: nat, hi: nat)
    requires Tiled(bs, lo, hi) && Shaped(bs) && k < |bs|
    ensures bs[k].Pay() <= bs[RunHi(bs, k) - 1].End()
    ensures JoinAt(bs[k := bs[k].(used := false)], k)
         == Splice(bs, k, RunHi(bs, k), [MergedRun(bs, k, RunHi(bs, k))])
  {
    var j := RunHi(bs, k);
    RunSpan(bs, k, j, lo, hi);
    var freed := bs[k := bs[k].(used := false)];
    if j == k + 2 {
      assert Joined(freed, k) == MergedRun(bs, k, j);
      assert freed[..k] == bs[..k] && freed[k + 2..] == bs[k + 2..];
    } else {
      assert freed == bs[..k] + [bs[k].(used := false)] + bs[k + 1..];
    }
  }

  lemma ReleaseBackward(bs: seq<Blk>, k: nat, j: nat, lo: nat, hi: nat)
    requires Tiled(bs, lo, hi) && Shaped(bs) && 0 < k < j <= |bs| && j <= k + 2 && !bs[k - 1].used
    ensures bs[k].Pay() <= bs[j - 1].End() && bs[k - 1].Pay() <= bs[j - 1].End()
    ensures JoinAt(Splice(bs, k, j, [MergedRun(bs, k, j)]), k - 1)
         == Splice(bs, k - 1, j, [MergedRun(bs, k - 1, j)])
  {
    RunSpan(bs, k - 1, j, lo, hi);
    RunSpan(bs, k, j, lo, hi);
    RunSpan(bs, k - 1, k, lo, hi);
    assert bs[k - 1 + 1].addr == bs[k - 1].End();
    var merged := Splice(bs, k, j, [MergedRun(bs, k, j)]);
    assert merged[k - 1] == bs[k - 1] && merged[k] == MergedRun(bs, k, j);
    assert Joined(merged, k - 1) == MergedRun(bs, k - 1, j);
    assert merged[..k - 1] == bs[..k - 1] && merged[k + 1..] == bs[j..];
  }

  lemma ReleasedIsFreeAt(bs: seq<Blk>, k: nat, lo: nat, hi: nat)
    requires Sound(bs, lo, hi) && k < |bs| && bs[k].used
    ensures Released(bs, k) == FreeAt(bs, k, lo, hi)
  {
    var i, j := RunLo(bs, k), RunHi(bs, k);
    ReleaseForward(bs, k, lo, hi);
    var merged := JoinAt(bs[k := bs[k].(used := false)], k);
    if i < k {
      ReleaseBackward(bs, k, j, lo, hi);
      ReleasedBySteps(bs, k, bs[k := bs[k].(used := false)], merged, Splice(bs, i, j, [MergedRun(bs, i, j)]));
    } else {
      ReleasedBySteps(bs, k, bs[k := bs[k].(used := false)], merged, merged);
    }
    FreeAtIsRun(bs, k, i, j, lo, hi);
  }

  lemma FreeAtIsRun(bs: seq<Blk>, k: nat, i: nat, j: nat, lo: nat, hi: nat)
    requires Tiled(bs, lo, hi) && k < |bs| && i == RunLo(bs, k) && j == RunHi(bs, k) && bs[i].Pay() <= bs[j - 1].End()
    ensures FreeAt(bs, k, lo, hi) == Splice(bs, i, j, [MergedRun(bs, i, j)])
  {
  }

  lemma {:induction false} UsedBytesAt(bs: seq<Blk>, k: nat)
    requires k < |bs| && bs[k].used
    ensures bs[k].size <= UsedBytes(bs)
  {
    if k > 0 {
      UsedBytesAt(bs[1..], k - 1);
    }
  }

  lemma ReleaseBound(bs: seq<Blk>, k: nat, lo: nat, hi: nat)
    requires Tiled(bs, lo, hi) && k < |bs| && bs[k].used
    ensures FreeBytes(bs) + bs[k].size + 16 * |bs| <= hi - lo
  {
    UsedBytesAt(bs, k);
    BytesConserved(bs, lo, hi);
  }

  /** The other allocations are still in the list after each step of a release. */
  lemma ReleaseOthers(bs: seq<Blk>, k: nat)
    requires k < |bs|
    ensures forall c :: c in UsedSet(bs) - {bs[k]} ==> c in bs[k := bs[k].(used := false)]
    ensures forall c :: c in UsedSet(bs) - {bs[k]} ==> c in JoinAt(bs[k := bs[k].(used := false)], k)
  {
    var freed := bs[k := bs[k].(used := false)];
    var merged := JoinAt(freed, k);
    forall c | c in UsedSet(bs) - {bs[k]} ensures c in freed && c in merged {
      var m :| 0 <= m < |bs| && bs[m] == c;
      assert freed[m] == c;
      assert c == merged[if m < k then m else m - (|bs| - |merged|)];
    }
  }

  // ---- Resizing in place, step by step ----

  /** Cut block k to `want` bytes and let the piece cut off absorb a free successor. */
  ghost function Trimmed(bs: seq<Blk>, k: nat, want: nat): seq<Blk>
    requires k < |bs| && want <= bs[k].size
  {
    if bs[k].size - want < SPLIT_MIN then bs
    else JoinAt(Splice(bs, k, k + 1, Carve(bs[k], want, bs[k].used)), k + 1)
  }

  lemma TrimBeforeFree(bs: seq<Blk>, k: nat, want: nat, head: Blk, tail: Blk, whole: Blk)
    requires k + 1 < |bs| && !bs[k + 1].used && !tail.used
    requires whole == Blk(tail.addr, tail.size + HDR + bs[k + 1].size, false)
    ensures JoinAt(Splice(bs, k, k + 1, [head, tail]), k + 1) == Splice(bs, k, k + 2, [head, whole])
  {
    var cut := Splice(bs, k, k + 1, [head, tail]);
    assert cut[k + 1] == tail && cut[k + 2] == bs[k + 1];
    assert Joined(cut, k + 1) == whole;
    assert cut[..k + 1] == bs[..k] + [head] && cut[k + 3..] == bs[k + 2..];
  }

  lemma TrimIsResize(bs: seq<Blk>, k: nat, want: nat, lo: nat, hi: nat)
    requires Tiled(bs, lo, hi) && Shaped(bs) && k < |bs| && bs[k].used && want <= bs[k].size
    ensures Trimmed(bs, k, want) == ResizeAt(bs, k, want, lo, hi)
    ensures Trimmed(bs, k, want)[k] == ResizedBlock(bs, k, want, lo, hi)
  {
    if bs[k].size - want >= SPLIT_MIN {
      var j := RunHi(bs, k);
      RunSpan(bs, k, j, lo, hi);
      var rs := Carve(bs[k], want, true);
      var whole := Carve(Blk(bs[k].addr, Reach(bs, k, lo, hi), true), want, true);
      if j == k + 2 {
        TrimBeforeFree(bs, k, want, rs[0], rs[1], whole[1]);
        assert Trimmed(bs, k, want) == Splice(bs, k, k + 2, [rs[0], whole[1]]);
        assert whole == [rs[0], whole[1]];
      } else {
        var cut := Splice(bs, k, k + 1, rs);
        assert k + 2 < |cut| ==> cut[k + 2] == bs[k + 1];
        assert rs == whole;
      }
    }
  }

  /** Absorbing a free successor first and then trimming comes to the same as a resize. */
  lemma GrowIsResize(bs: seq<Blk>, k: nat, want: nat, lo: nat, hi: nat)
    requires Sound(bs, lo, hi) && k + 1 < |bs| && bs[k].used && !bs[k + 1].used
    requires bs[k].size < want <= bs[k].size + HDR + bs[k + 1].size
    ensures var joined := Splice(bs, k, k + 2, [Joined(bs, k)]);
      && |joined| == |bs| - 1 && joined[k] == Joined(bs, k)
      && want <= Reach(bs, k, lo, hi) == joined[k].size
      && Trimmed(joined, k, want) == ResizeAt(bs, k, want, lo, hi)
      && Trimmed(joined, k, want)[k] == ResizedBlock(bs, k, want, lo, hi)
  {
    RunSpan(bs, k, k + 2, lo, hi);
    FreeEdges(bs, k + 1);
    var joined := Splice(bs, k, k + 2, [Joined(bs, k)]);
    var rs := Carve(Joined(bs, k), want, true);
    if joined[k].size - want >= SPLIT_MIN {
      var cut := Splice(joined, k, k + 1, rs);
      assert cut[k] == rs[0] && cut[k + 1] == rs[1];
      assert k + 2 < |cut| ==> cut[k + 2] == bs[k + 2];
      assert Trimmed(joined, k, want) == cut;
      assert cut == Splice(bs, k, k + 2, rs);
    } else {
      assert rs == [Joined(bs, k)];
    }
  }

  lemma TrimOthers(bs: seq<Blk>, k: nat, want: nat)
    requires k < |bs| && want <= bs[k].size && bs[k].size - want >= SPLIT_MIN
    ensures forall c :: c in UsedSet(bs) - {bs[k]} ==> c in Splice(bs, k, k + 1, Carve(bs[k], want, bs[k].used))
  {
    var cut := Splice(bs, k, k + 1, Carve(bs[k], want, bs[k].used));
    forall c | c in UsedSet(bs) - {bs[k]} ensures c in cut {
      var m :| 0 <= m < |bs| && bs[m] == c;
      assert c == cut[if m < k then m else m + 1];
    }
  }

  // ---- Finding a block by its payload ----

  ghost function IndexOf(bs: seq<Blk>, ptr: nat): (k: nat)
    ensures k <= |bs|
    ensures k < |bs| ==> bs[k].Pay() == ptr
    ensures k == |bs| ==> forall b :: b in bs ==> b.Pay() != ptr
  {
    if bs == [] then 0 else if bs[0].Pay() == ptr then 0 else 1 + IndexOf(bs[1..], ptr)
  }

  lemma OnlyIndex(bs: seq<Blk>, k: nat, lo: nat, hi: nat)
    requires Tiled(bs, lo, hi) && k < |bs|
    ensures IndexOf(bs, bs[k].Pay()) == k
    ensures forall c :: c in bs && c.Pay() == bs[k].Pay() ==> c == bs[k]
  {
    AllOrdered(bs, lo, hi);
    var j := IndexOf(bs, bs[k].Pay());
    assert bs[k] in bs;
  }

  lemma GrowOthers(bs: seq<Blk>, k: nat, lo: nat, hi: nat)
    requires Tiled(bs, lo, hi) && k + 1 < |bs| && !bs[k + 1].used
    ensures var joined := Splice(bs, k, k + 2, [Joined(bs, k)]);
      UsedSet(bs) - {bs[k]} <= UsedSet(joined) - {joined[k]}
  {
    AllOrdered(bs, lo, hi);
    var joined := Splice(bs, k, k + 2, [Joined(bs, k)]);
    forall c | c in UsedSet(bs) - {bs[k]} ensures c in joined && c != joined[k] {
      var m :| 0 <= m < |bs| && bs[m] == c;
      assert c == joined[if m < k then m else m - 1];
    }
  }

  /** Live allocations are pairwise disjoint and inside the region. */
  lemma LiveDisjoint(bs: seq<Blk>, lo: nat, hi: nat)
    requires Tiled(bs, lo, hi)
    ensures forall b, c :: b in UsedSet(bs) && c in UsedSet(bs) && b != c ==> b.End() <= c.addr || c.End() <= b.addr
    ensures forall b :: b in UsedSet(bs) ==> lo + HDR <= b.Pay() && b.End() <= hi
  {
    AllOrdered(bs, lo, hi);
  }

  lemma UsedOneMore(bs: seq<Blk>, k: nat, lo: nat, hi: nat)
    requires Tiled(bs, lo, hi) && k < |bs|
    ensures UsedSet(bs[..k + 1]) == UsedSet(bs[..k]) + (if bs[k].used then {bs[k]} else {})
    ensures bs[k] !in UsedSet(bs[..k])
  {
    AllOrdered(bs, lo, hi);
    assert bs[..k + 1] == bs[..k] + [bs[k]];
  }
}

/** The 32-bit size arithmetic of kernel/reflex_heap.c: rounding, alignment gaps and the
    first-fit test. */
module HeapSizes {
  import opened Arith
  import opened HeapBlocks

  const SIZE_MAX: nat := U32 - 1

  // ---- size_t arithmetic ----

  function AlignUp(n: nat): nat
    requires n < U32
  {
    UAdd(n, 7) / 8 * 8
  }

  function SizeIsSane(size: nat): bool { size <= SIZE_MAX - (ALIGN - 1) - HDR }

  /** Payload bytes actually asked of a block for a request of `size` bytes. */
  function Want(size: nat): (w: nat)
    requires SizeIsSane(size)
    ensures size <= w < size + 8 || w == MIN_PAYLOAD
    ensures size <= w && w % 8 == 0 && MIN_PAYLOAD <= w && w + HDR < U32
  {
    var w := AlignUp(size);
    if w < MIN_PAYLOAD then MIN_PAYLOAD else w
  }

  /** A size is sane exactly when it can be rounded up to eight and headed without passing 2^32. */
  lemma SaneExactly(size: nat)
    requires size < U32
    ensures SizeIsSane(size) <==> (size + 7) / 8 * 8 + 16 < 0x1_0000_0000
  {
  }

  /** What is asked of a block is the least multiple of eight that holds the request and is no less than eight. */
  lemma WantIsLeast(size: nat, w: nat)
    requires SizeIsSane(size) && w % 8 == 0 && w >= size && w >= 8
    ensures Want(size) % 8 == 0 && Want(size) >= size && Want(size) >= 8 && Want(size) <= w
  {
  }

  function IsPowerOfTwo(n: nat): bool
  {
    n == 1 || (n > 0 && n % 2 == 0 && IsPowerOfTwo(n / 2))
  }

  lemma {:induction false} PowersDivide(a: nat, m: nat)
    requires IsPowerOfTwo(a) && IsPowerOfTwo(m) && a <= m
    ensures m % a == 0 && (a < m ==> 2 * a <= m)
  {
    if a > 1 {
      PowersDivide(a / 2, m / 2);
      var q := (m / 2) / (a / 2);
      assert m / 2 == q * (a / 2);
      assert m == q * a;
      DivModUnique(q, a, 0);
    }
  }

  lemma {:induction false} Pow2IsPower(k: nat)
    ensures IsPowerOfTwo(Pow2(k))
  {
    if k > 0 {
      Pow2IsPower(k - 1);
    }
  }

  lemma {:induction false} PowerIsPow2(n: nat) returns (k: nat)
    requires IsPowerOfTwo(n)
    ensures n == Pow2(k)
  {
    k := 0;
    if n > 1 {
      k := PowerIsPow2(n / 2);
      k := k + 1;
    }
  }

  /** The alignments that alloc takes are exactly the powers of two. */
  lemma PowersExactly(n: nat)
    ensures IsPowerOfTwo(n) <==> exists k: nat :: n == Pow2(k)
  {
    if IsPowerOfTwo(n) {
      var k := PowerIsPow2(n);
    } else if k: nat :| n == Pow2(k) {
      Pow2IsPower(k);
    }
  }

  lemma DividesU32(a: nat)
    requires IsPowerOfTwo(a) && a < U32
    ensures U32 % a == 0 && 2 * a <= U32
  {
    Pow2IsPower(32);
    Pow2Of32();
    PowersDivide(a, U32);
  }

  lemma EightDividesAlign(a: nat)
    requires IsPowerOfTwo(a) && a >= 8
    ensures a % 8 == 0
  {
    Pow2IsPower(3);
    assert Pow2(3) == 8;
    PowersDivide(8, a);
  }

  // ---- Alignment gaps ----

  /** Distance from `pay` up to the first multiple of `align` that leaves either no
      gap or one large enough to be a block of its own. */
  function Gap(pay: nat, align: nat): (g: nat)
    requires align >= ALIGN
  {
    Bump((align - pay % align) % align, align)
  }

  function Bump(g: nat, align: nat): (r: nat)
    requires align >= ALIGN
    ensures r == 0 || r >= SPLIT_MIN
    ensures r <= g || r < align + SPLIT_MIN
    decreases SPLIT_MIN - g
  {
    if g == 0 || g >= SPLIT_MIN then g else Bump(g + align, align)
  }

  ghost predicate Fits(b: Blk, align: nat, want: nat)
    requires align >= ALIGN
  {
    !b.used && Gap(b.Pay(), align) + want <= b.size
  }

  /** The source raises any smaller alignment to eight bytes. */
  function AtLeastEight(align: nat): (r: nat)
    ensures r >= ALIGN && r >= align
  {
    if align < ALIGN then ALIGN else align
  }

  lemma AlignmentFacts(align: nat)
    requires IsPowerOfTwo(align) && align < U32
    ensures IsPowerOfTwo(AtLeastEight(align)) && 2 * AtLeastEight(align) <= U32
    ensures U32 % AtLeastEight(align) == 0 && AtLeastEight(align) % 8 == 0
  {
    assert IsPowerOfTwo(8) by { Pow2IsPower(3); assert Pow2(3) == 8; }
    DividesU32(AtLeastEight(align));
    EightDividesAlign(AtLeastEight(align));
  }

  /** Index of the first block an allocation fits in, or |bs|. */
  ghost function FirstFit(bs: seq<Blk>, align: nat, want: nat): (k: nat)
    requires align >= ALIGN
    ensures k <= |bs|
    ensures k < |bs| ==> Fits(bs[k], align, want)
    ensures forall i :: 0 <= i < k ==> !Fits(bs[i], align, want)
  {
    if bs == [] then 0
    else if Fits(bs[0], align, want) then 0
    else 1 + FirstFit(bs[1..], align, want)
  }

  /** The 32-bit sum `gap + want` wraps and passes the size test all the same, and then
      either the split goes ahead or there is no next block to step to. */
  ghost predicate Tears(b: Blk, align: nat, want: nat, hi: nat)
    requires align >= ALIGN
  {
    TearsWith(b, Gap(b.Pay(), align), want, hi)
  }

  ghost predicate TearsWith(b: Blk, gap: nat, want: nat, hi: nat)
  {
    && !b.used && gap != 0
    && U32 <= gap + want <= U32 + b.size
    && (b.size + HDR < gap || b.size + HDR - gap >= SPLIT_MIN || b.End() == hi)
  }

  ghost predicate TornBeforeFit(bs: seq<Blk>, align: nat, want: nat, hi: nat)
    requires align >= ALIGN
  {
    exists i :: 0 <= i < FirstFit(bs, align, want) && Tears(bs[i], align, want, hi)
  }

  /** A gap that lands on a multiple of `align` and is nothing or can hold a block. */
  ghost predicate Usable(pay: nat, align: nat, g: nat)
    requires align > 0
  {
    (pay + g) % align == 0 && (g == 0 || g >= SPLIT_MIN)
  }

  lemma GapUsable(pay: nat, align: nat)
    requires align >= ALIGN && align % 8 == 0 && pay % 8 == 0
    ensures Usable(pay, align, Gap(pay, align)) && Gap(pay, align) % 8 == 0
  {
    GapStart(pay, align);
    BumpUsable(pay, (align - pay % align) % align, align);
  }

  lemma GapLeast(pay: nat, align: nat, g: nat)
    requires align >= ALIGN && align % 8 == 0 && pay % 8 == 0 && Usable(pay, align, g)
    ensures Gap(pay, align) <= g
  {
    var g0 := (align - pay % align) % align;
    GapStart(pay, align);
    if g < g0 {
      MultiplesApart(pay + g, pay + g0, align);
    }
    BumpLeast(pay, g0, align, g);
  }

  /** Whatever the alignment asked for, the gap is the least that reaches a multiple of it and of eight. */
  lemma GapLeastAsked(pay: nat, align: nat, g: nat)
    requires IsPowerOfTwo(align) && align < U32 && pay % 8 == 0
    requires Usable(pay, align, g) && g % 8 == 0
    ensures Gap(pay, AtLeastEight(align)) <= g
  {
    AlignmentFacts(align);
    GapLeast(pay, AtLeastEight(align), g);
  }

  /** The first candidate is the distance to the next multiple of `align`. */
  lemma GapStart(pay: nat, align: nat)
    requires align >= ALIGN && align % 8 == 0 && pay % 8 == 0
    ensures var g0 := (align - pay % align) % align;
      g0 % 8 == 0 && g0 < align && (pay + g0) % align == 0
  {
    var q, r := pay / align, pay % align;
    assert pay == q * align + r;
    EightDivides(q, align, r, pay);
    if r == 0 {
      DivModUnique(1, align, 0);
      DivModUnique(q, align, 0);
    } else {
      DivModUnique(0, align, align - r);
      assert pay + (align - r) == (q + 1) * align;
      DivModUnique(q + 1, align, 0);
    }
  }

  lemma EightDivides(q: nat, align: nat, r: nat, pay: nat)
    requires align % 8 == 0 && pay % 8 == 0 && pay == q * align + r
    ensures r % 8 == 0
  {
    var t := align / 8;
    assert q * align == 8 * (q * t);
  }

  lemma {:induction false} BumpUsable(pay: nat, g: nat, align: nat)
    requires align >= ALIGN && align % 8 == 0 && g % 8 == 0 && (pay + g) % align == 0
    ensures Usable(pay, align, Bump(g, align)) && Bump(g, align) % 8 == 0
    decreases SPLIT_MIN - g
  {
    if 0 < g < SPLIT_MIN {
      NextMultiple(pay + g, align);
      assert pay + g + align == pay + (g + align);
      BumpUsable(pay, g + align, align);
    }
  }

  lemma {:induction false} BumpLeast(pay: nat, g: nat, align: nat, h: nat)
    requires align >= ALIGN && (pay + g) % align == 0 && g <= h && Usable(pay, align, h)
    ensures Bump(g, align) <= h
    decreases SPLIT_MIN - g
  {
    if 0 < g < SPLIT_MIN {
      MultiplesApart(pay + g, pay + h, align);
      NextMultiple(pay + g, align);
      BumpLeast(pay, g + align, align, h);
    }
  }

  lemma NextMultiple(x: nat, align: nat)
    requires align > 0 && x % align == 0
    ensures (x + align) % align == 0
  {
    var q := x / align;
    assert x + align == (q + 1) * align;
    DivModUnique(q + 1, align, 0);
  }

  lemma MultiplesApart(x: nat, y: nat, align: nat)
    requires align > 0 && x % align == 0 && y % align == 0 && x < y
    ensures y >= x + align
  {
    var d := y / align - x / align;
    assert y - x == align * d;
    assert d >= 1 by {
      if d <= -1 {
        MulAtMost(align, d);
      }
    }
    MulAtLeast(align, d);
  }

  // ---- What a request gets ----

  ghost predicate Serves(bs: seq<Blk>, align: nat, size: nat)
  {
    && size > 0 && SizeIsSane(size)
    && FirstFit(bs, AtLeastEight(align), Want(size)) < |bs|
  }

  ghost function FitOf(bs: seq<Blk>, align: nat, size: nat): (k: nat)
    requires Serves(bs, align, size)
    ensures k < |bs| && Fits(bs[k], AtLeastEight(align), Want(size))
  {
    FirstFit(bs, AtLeastEight(align), Want(size))
  }

  ghost function GapOf(bs: seq<Blk>, align: nat, size: nat): (g: nat)
    requires Serves(bs, align, size)
    ensures g == 0 || g >= SPLIT_MIN
  {
    Gap(bs[FitOf(bs, align, size)].Pay(), AtLeastEight(align))
  }

  /** The list after the request. */
  ghost function Served(bs: seq<Blk>, align: nat, size: nat): seq<Blk>
    requires Serves(bs, align, size)
  {
    AllocAt(bs, FitOf(bs, align, size), GapOf(bs, align, size), Want(size))
  }

  /** The block handed out. */
  ghost function NewBlock(bs: seq<Blk>, align: nat, size: nat): Blk
    requires Serves(bs, align, size)
  {
    PlacedIn(bs[FitOf(bs, align, size)], GapOf(bs, align, size), Want(size))
  }

  /** Main result for one allocation: the list stays sound, exactly one new block is in use, it is
      as large and as aligned as asked, and the free bytes drop by its payload and any new headers. */
  lemma ServedFacts(bs: seq<Blk>, align: nat, size: nat, lo: nat, hi: nat)
    requires Sound(bs, lo, hi) && lo % 8 == 0 && Serves(bs, align, size) && IsPowerOfTwo(align) && align < U32
    ensures Sound(Served(bs, align, size), lo, hi)
    ensures FreeBytes(Served(bs, align, size)) + NewBlock(bs, align, size).size
         == FreeBytes(bs) - 16 * (|Served(bs, align, size)| - |bs|)
    ensures UsedSet(Served(bs, align, size)) == UsedSet(bs) + {NewBlock(bs, align, size)}
    ensures NewBlock(bs, align, size) !in UsedSet(bs)
    ensures NewBlock(bs, align, size).size >= size && NewBlock(bs, align, size).Pay() % align == 0
  {
    var k, gap, want := FitOf(bs, align, size), GapOf(bs, align, size), Want(size);
    AddrAligned(bs, k, lo, hi);
    PlacedAligned(bs[k], align, gap, want);
    AllocKeeps(bs, k, gap, want, lo, hi);
    AllocUses(bs, k, gap, want, lo, hi);
    PlacedNew(bs, k, gap, want, lo, hi);
  }

  lemma GapAligns(pay: nat, align: nat)
    requires IsPowerOfTwo(align) && align < U32 && pay % 8 == 0
    ensures Gap(pay, AtLeastEight(align)) % 8 == 0
    ensures (pay + Gap(pay, AtLeastEight(align))) % align == 0
  {
    AlignmentFacts(align);
    GapUsable(pay, AtLeastEight(align));
    if align < ALIGN {
      SmallDivides(pay + Gap(pay, 8), align);
    }
  }

  lemma SmallDivides(x: nat, align: nat)
    requires IsPowerOfTwo(align) && align < ALIGN && x % 8 == 0
    ensures x % align == 0
  {
    SmallPowers(align);
    EvenlySmall(x);
    if align == 1 {
    } else if align == 2 {
    } else {
    }
  }

  lemma SmallPowers(align: nat)
    requires IsPowerOfTwo(align) && align < ALIGN
    ensures align == 1 || align == 2 || align == 4
  {
    assert IsPowerOfTwo(6) == IsPowerOfTwo(3) == false;
  }

  lemma EvenlySmall(x: nat)
    requires x % 8 == 0
    ensures x % 1 == 0 && x % 2 == 0 && x % 4 == 0
  {
    var q := x / 8;
    DivModUnique(4 * q, 2, 0);
    DivModUnique(2 * q, 4, 0);
  }

  lemma PlacedAt(b: Blk, gap: nat, want: nat)
    requires (gap == 0 || gap >= SPLIT_MIN) && gap + want <= b.size
    ensures PlacedIn(b, gap, want).Pay() == b.Pay() + gap
  {
  }

  lemma PayOf(b: Blk)
    requires b.addr % 8 == 0
    ensures b.Pay() % 8 == 0
  {
  }

  lemma PlacedAligned(b: Blk, align: nat, gap: nat, want: nat)
    requires b.addr % 8 == 0 && IsPowerOfTwo(align) && align < U32
    requires gap == Gap(b.Pay(), AtLeastEight(align)) && gap + want <= b.size
    ensures gap % 8 == 0 && PlacedIn(b, gap, want).Pay() % align == 0
  {
    PayOf(b);
    PlacedAt(b, gap, want);
    GapAligns(b.Pay(), align);
  }

  ghost predicate Torn(bs: seq<Blk>, align: nat, size: nat, hi: nat)
  {
    size > 0 && SizeIsSane(size) && TornBeforeFit(bs, AtLeastEight(align), Want(size), hi)
  }

  /** A step of the rounding loop widens the gap, whether or not the address wraps. */
  lemma NextGap(pay: nat, aligned: nat, align: nat)
    requires pay < U32 && aligned < U32 && 2 * align <= U32 && 0 < USub(aligned, pay) < SPLIT_MIN
    ensures USub(UAdd(aligned, align), pay) == USub(aligned, pay) + align
  {
  }

  /** The rounding loop of the source, in 32-bit arithmetic: an address may wrap, the gap does not. */
  method WidenGap(pay: nat, start: nat, align: nat) returns (gap: nat)
    requires pay < U32 && start < U32 && ALIGN <= align && 2 * align <= U32
    ensures gap == Bump(USub(start, pay), align) && gap < U32
  {
    var aligned: nat := start;
    gap := USub(aligned, pay);
    while gap != 0 && gap < SPLIT_MIN
      invariant aligned < U32 && gap == USub(aligned, pay)
      invariant Bump(gap, align) == Bump(USub(start, pay), align)
      decreases SPLIT_MIN - gap
    {
      NextGap(pay, aligned, align);
      aligned := UAdd(aligned, align);
      gap := USub(aligned, pay);
    }
  }

  method FindGap(pay: nat, align: nat) returns (gap: nat)
    requires pay < U32 && pay % 8 == 0
    requires align >= ALIGN && align % 8 == 0 && 2 * align <= U32 && U32 % align == 0
    ensures gap == Gap(pay, align) && gap < U32
  {
    var aligned := RoundedUp(pay, align);
    gap := WidenGap(pay, aligned, align);
  }

  method RoundedUp(pay: nat, align: nat) returns (aligned: nat)
    requires pay < U32
    requires align >= ALIGN && align % 8 == 0 && 2 * align <= U32 && U32 % align == 0
    ensures aligned < U32 && Bump(USub(aligned, pay), align) == Gap(pay, align)
  {
    RoundUp(pay, align);
    aligned := DownTo(UAdd(pay, align - 1), align);
  }

  lemma ProductNonNegative(q: nat, a: nat)
    ensures q * a >= 0
  {
  }

  /** The multiple of `align` at or below x. */
  function DownTo(x: nat, align: nat): (m: nat)
    requires align > 0
  {
    ProductNonNegative(x / align, align);
    x / align * align
  }

  lemma RoundUp(pay: nat, align: nat)
    requires pay < U32
    requires align >= ALIGN && align % 8 == 0 && 2 * align <= U32 && U32 % align == 0
    ensures var aligned := DownTo(UAdd(pay, align - 1), align);
      aligned < U32 && USub(aligned, pay) == (align - pay % align) % align
  {
    var q, r, n := pay / align, pay % align, U32 / align;
    assert pay == q * align + r && U32 == n * align;
    if r == 0 {
      DivModUnique(1, align, 0);
      DivModUnique(q, align, align - 1);
      MultiplesApart(pay, U32, align);
    } else {
      RoundUpPast(pay, align, q, r, n);
    }
  }

  lemma RoundUpPast(pay: nat, align: nat, q: nat, r: nat, n: nat)
    requires pay < U32 && 0 < align < U32 && pay == q * align + r && 0 < r < align && U32 == n * align
    ensures var aligned := DownTo(UAdd(pay, align - 1), align);
      aligned < U32 && USub(aligned, pay) == (align - r) % align
  {
    DivModUnique(0, align, align - r);
    assert (q + 1) * align == pay + (align - r);
    if pay + (align - 1) < U32 {
      DivModUnique(q + 1, align, r - 1);
    } else {
      NextBelow(q, n, align, r);
      DownToNothing(pay + (align - 1) - U32, align);
    }
  }

  lemma DownToNothing(x: nat, align: nat)
    requires x < align
    ensures DownTo(x, align) == 0
  {
    DivModUnique(0, align, x);
  }

  /** The first multiple past the top of the address space is the top itself. */
  lemma NextBelow(q: nat, n: nat, align: nat, r: nat)
    requires align > 0 && 0 < r < align && q * align + r < n * align <= q * align + r + (align - 1)
    ensures n == q + 1
  {
    assert n * align - q * align == align * (n - q);
    OneMultipleBelowTwo(align, n - q);
  }

  /** The gap above a payload, with what the search needs to know of it. */
  method PayloadGap(pay: nat, align: nat) returns (gap: nat)
    requires align < U32 && IsPowerOfTwo(align) && pay < U32 && pay % 8 == 0
    ensures gap == Gap(pay, AtLeastEight(align))
    ensures gap < U32 && gap % 8 == 0 && (gap == 0 || gap >= SPLIT_MIN)
  {
    AlignmentFacts(align);
    GapUsable(pay, AtLeastEight(align));
    gap := FindGap(pay, AtLeastEight(align));
  }

  /** The search stops at block k: the first fit, with no torn block before it. */
  ghost predicate StopsAt(bs: seq<Blk>, align: nat, want: nat, hi: nat, k: nat)
  {
    k == FirstFit(bs, AtLeastEight(align), want) && !TornBeforeFit(bs, AtLeastEight(align), want, hi)
  }

  /** What the search needs to know at block i. */
  lemma StopsLater(bs: seq<Blk>, align: nat, want: nat, hi: nat, k: nat, i: nat)
    requires StopsAt(bs, align, want, hi, k) && i <= k && i < |bs|
    ensures bs[i].used ==> i < k
  {
  }

  lemma StopsHere(bs: seq<Blk>, align: nat, want: nat, hi: nat, k: nat, i: nat, gap: nat)
    requires StopsAt(bs, align, want, hi, k) && i <= k && i < |bs| && !bs[i].used
    requires gap == Gap(bs[i].Pay(), AtLeastEight(align)) && bs[i].size < U32
    ensures i == k <==> gap + want <= bs[i].size
    ensures !TearsWith(bs[i], gap, want, hi)
  {
    assert i < k ==> !Tears(bs[i], AtLeastEight(align), want, hi);
  }

  // ---- When the 32-bit sum can wrap ----

  /** A caller-side bound under which no block tears, whatever the list. */
  lemma BoundedNeverTorn(bs: seq<Blk>, align: nat, size: nat, hi: nat)
    requires SizeIsSane(size) && AtLeastEight(align) + SPLIT_MIN + Want(size) <= U32
    ensures !Torn(bs, align, size, hi)
  {
    forall b: Blk ensures Gap(b.Pay(), AtLeastEight(align)) + Want(size) < U32 {
      GapBelow(b.Pay(), AtLeastEight(align));
    }
  }

  lemma GapBelow(pay: nat, align: nat)
    requires align >= ALIGN
    ensures Gap(pay, align) < align + SPLIT_MIN
  {
  }

  /** Plain allocations ask for eight-byte alignment, which every payload has: the gap is nothing. */
  lemma EightNeverTorn(bs: seq<Blk>, size: nat, lo: nat, hi: nat)
    requires Tiled(bs, lo, hi) && Shaped(bs) && lo % 8 == 0
    ensures !Torn(bs, 8, size, hi)
    ensures forall b :: b in bs ==> Gap(b.Pay(), 8) == 0
  {
    forall k | 0 <= k < |bs| ensures Gap(bs[k].Pay(), 8) == 0 {
      AddrAligned(bs, k, lo, hi);
      PayOf(bs[k]);
      NoGap(bs[k].Pay());
    }
    if size > 0 && SizeIsSane(size) {
      WholeWithoutGaps(bs, Want(size), hi);
    }
  }

  lemma WholeWithoutGaps(bs: seq<Blk>, want: nat, hi: nat)
    requires forall k :: 0 <= k < |bs| ==> Gap(bs[k].Pay(), 8) == 0
    ensures !TornBeforeFit(bs, 8, want, hi)
  {
  }

  lemma NoGap(pay: nat)
    requires pay % 8 == 0
    ensures Gap(pay, 8) == 0
  {
    assert (8 - pay % 8) % 8 == 0;
  }

  /** Without the bound the property fails: on a fresh 64 KB heap at 0x40800000 this request
      passes the size test, although no block is nearly large enough. */
  lemma UnboundedTears()
    ensures var b := Blk(0x4080_0000, 0x1_0000 - HDR, false);
      && Torn([b], 0x8000_0000, 0xC080_0010, b.End())
      && !Serves([b], 0x8000_0000, 0xC080_0010)
  {
    var b := Blk(0x4080_0000, 0x1_0000 - HDR, false);
    var want := Want(0xC080_0010);
    assert want == 0xC080_0010 by {
      HugeWant();
    }
    FarGap();
    TearsAlone(b, 0x8000_0000, want, b.End());
  }

  lemma FarGap()
    ensures Gap(0x4080_0010, 0x8000_0000) == 0x3F7F_FFF0
  {
    assert 0x4080_0010 % 0x8000_0000 == 0x4080_0010;
  }

  lemma HugeWant()
    ensures Want(0xC080_0010) == 0xC080_0010
  {
    assert UAdd(0xC080_0010, 7) / 8 == 0x1810_0002;
  }

  lemma TearsAlone(b: Blk, align: nat, want: nat, hi: nat)
    requires align >= ALIGN && Tears(b, align, want, hi) && !Fits(b, align, want)
    ensures TornBeforeFit([b], align, want, hi) && FirstFit([b], align, want) == 1
  {
    assert FirstFit([b][1..], align, want) == 0;
    assert Tears([b][0], align, want, hi);
  }

  /** What a split that goes ahead after a wrapped test leaves behind: either two free neighbours, the
      second too small for the request and so never used up, or a block that ends beyond the one it was cut from. */
  lemma TornBreaks(bs: seq<Blk>, k: nat, gap: nat, want: nat, hi: nat)
    requires k < |bs| && TearsWith(bs[k], gap, want, hi) && gap >= SPLIT_MIN && bs[k].size < U32
    requires bs[k].size + HDR < gap || bs[k].size + HDR - gap >= SPLIT_MIN
    ensures gap - HDR <= bs[k].size ==>
      var cut := Splice(bs, k, k + 1, Carve(bs[k], gap - HDR, false));
      !Coalesced(cut) && k + 1 < |cut| && cut[k + 1].size < want
    ensures gap - HDR > bs[k].size ==> Blk(bs[k].addr, gap - HDR, false).End() > bs[k].End()
  {
    if gap - HDR <= bs[k].size {
      var cut := Splice(bs, k, k + 1, Carve(bs[k], gap - HDR, false));
      assert !cut[k].used && !cut[k + 1].used;
    }
  }

  /** The first block of the search that tears. */
  lemma {:induction false} FirstTear(bs: seq<Blk>, align: nat, want: nat, hi: nat, n: nat) returns (k: nat)
    requires align >= ALIGN && n <= |bs| && exists i :: 0 <= i < n && Tears(bs[i], align, want, hi)
    ensures k < n && Tears(bs[k], align, want, hi) && forall i :: 0 <= i < k ==> !Tears(bs[i], align, want, hi)
  {
    if i: nat :| i < n - 1 && Tears(bs[i], align, want, hi) {
      k := FirstTear(bs, align, want, hi, n - 1);
    } else {
      k := n - 1;
    }
  }

  /** So the condition on the search is exact: once a request is torn, the search comes to a block that is too small,
      whose wrapped test passes, and at which it finds no next block, or leaves free neighbours, or cuts beyond the block. */
  lemma TornNeverKeeps(bs: seq<Blk>, align: nat, size: nat, lo: nat, hi: nat) returns (k: nat, gap: nat)
    requires Sound(bs, lo, hi) && hi < U32 && Torn(bs, align, size, hi)
    ensures k < FirstFit(bs, AtLeastEight(align), Want(size)) && gap == Gap(bs[k].Pay(), AtLeastEight(align)) >= SPLIT_MIN
    ensures !bs[k].used && bs[k].size < gap + Want(size) && gap + Want(size) - U32 <= bs[k].size
    ensures forall i :: 0 <= i < k ==> !Tears(bs[i], AtLeastEight(align), Want(size), hi)
    ensures Breaks(bs, k, gap)
  {
    var want := Want(size);
    k := FirstTear(bs, AtLeastEight(align), want, hi, FirstFit(bs, AtLeastEight(align), want));
    gap := Gap(bs[k].Pay(), AtLeastEight(align));
    AllOrdered(bs, lo, hi);
    if bs[k].size + HDR < gap || bs[k].size + HDR - gap >= SPLIT_MIN {
      TornBreaks(bs, k, gap, want, hi);
    } else {
      LastBlock(bs, k, lo, hi);
    }
  }

  /** What splitting block k below a gap does when the block is too small for gap and request. */
  ghost predicate Breaks(bs: seq<Blk>, k: nat, gap: nat)
    requires k < |bs| && gap >= SPLIT_MIN
  {
    if gap - HDR > bs[k].size then Blk(bs[k].addr, gap - HDR, false).End() > bs[k].End()
    else if bs[k].size - (gap - HDR) < SPLIT_MIN then k + 1 == |bs|
    else !Coalesced(Splice(bs, k, k + 1, Carve(bs[k], gap - HDR, false)))
  }

  lemma LastBlock(bs: seq<Blk>, k: nat, lo: nat, hi: nat)
    requires Tiled(bs, lo, hi) && k < |bs| && bs[k].End() == hi
    ensures k + 1 == |bs|
  {
    AllOrdered(bs, lo, hi);
  }

  // ---- Exactly when a plain allocation succeeds ----

  ghost function LargestFree(bs: seq<Blk>): nat
  {
    if bs == [] then 0
    else
      var rest := LargestFree(bs[..|bs| - 1]);
      var b := bs[|bs| - 1];
      if !b.used && b.size > rest then b.size else rest
  }

  lemma {:induction false} LargestFreeIs(bs: seq<Blk>)
    ensures forall b :: b in bs && !b.used ==> b.size <= LargestFree(bs)
    ensures LargestFree(bs) > 0 ==> exists b :: b in bs && !b.used && b.size == LargestFree(bs)
  {
    if bs != [] {
      var rest, last := bs[..|bs| - 1], bs[|bs| - 1];
      LargestFreeIs(rest);
      assert bs == rest + [last];
      assert forall b :: b in rest ==> b in bs;
    }
  }

  /** A plain allocation is refused exactly when no free block holds the rounded size; the statistic
      called largest_free is the threshold. */
  lemma PlainServesIff(bs: seq<Blk>, size: nat, lo: nat, hi: nat)
    requires Tiled(bs, lo, hi) && Shaped(bs) && lo % 8 == 0
    ensures Serves(bs, 8, size) <==>
      size > 0 && SizeIsSane(size) && exists b :: b in bs && !b.used && Want(size) <= b.size
    ensures Serves(bs, 8, size) <==> size > 0 && SizeIsSane(size) && Want(size) <= LargestFree(bs)
  {
    EightNeverTorn(bs, size, lo, hi);
    LargestFreeIs(bs);
    if size > 0 && SizeIsSane(size) {
      var want := Want(size);
      var k := FirstFit(bs, 8, want);
      if k < |bs| {
        assert bs[k] in bs && Fits(bs[k], 8, want);
      }
      forall b | b in bs && !b.used && want <= b.size ensures k < |bs| {
        var i :| 0 <= i < |bs| && bs[i] == b;
        assert Fits(bs[i], 8, want);
      }
    }
  }

  // ---- Releasing everything ----

  lemma InUse(bs: seq<Blk>, b: Blk)
    requires b in UsedSet(bs)
    ensures b in bs && b.used
  {
  }

  /** The list after releasing the allocations of `order` one after another. */
  ghost function ReleaseAll(bs: seq<Blk>, order: seq<Blk>, lo: nat, hi: nat): (r: seq<Blk>)
    requires Sound(bs, lo, hi)
    requires forall b :: b in order ==> b in UsedSet(bs)
    requires forall i, j :: 0 <= i < j < |order| ==> order[i] != order[j]
    ensures Sound(r, lo, hi)
    ensures UsedSet(r) == UsedSet(bs) - (set b | b in order)
    decreases |order|
  {
    if order == [] then bs
    else
      var k := IndexOf(bs, order[0].Pay());
      assert k < |bs| && bs[k] == order[0] && bs[k].used by {
        assert order[0] in order && order[0] in UsedSet(bs);
        InUse(bs, order[0]);
        var j :| 0 <= j < |bs| && bs[j] == order[0];
        OnlyIndex(bs, j, lo, hi);
      }
      FreeKeeps(bs, k, lo, hi);
      FreeUses(bs, k, lo, hi);
      assert forall b :: b in order <==> b == order[0] || b in order[1..];
      ReleaseAll(FreeAt(bs, k, lo, hi), order[1..], lo, hi)
  }

  /** Whatever the order in which everything is released, one free block covering the region remains. */
  lemma AllReleasedIsOneBlock(bs: seq<Blk>, order: seq<Blk>, lo: nat, hi: nat)
    requires Sound(bs, lo, hi)
    requires forall b :: b in order <==> b in UsedSet(bs)
    requires forall i, j :: 0 <= i < j < |order| ==> order[i] != order[j]
    ensures IsOneFreeBlock(ReleaseAll(bs, order, lo, hi), lo, hi)
  {
    NothingUsedIsOneBlock(ReleaseAll(bs, order, lo, hi), lo, hi);
  }

  ghost predicate IsOneFreeBlock(bs: seq<Blk>, lo: nat, hi: nat)
  {
    |bs| == 1 && bs[0].addr == lo && bs[0].End() == hi && !bs[0].used
  }

  lemma NothingUsedIsOneBlock(bs: seq<Blk>, lo: nat, hi: nat)
    requires Sound(bs, lo, hi) && UsedSet(bs) == {}
    ensures IsOneFreeBlock(bs, lo, hi)
  {
    forall i | 0 <= i < |bs| ensures !bs[i].used {
      assert (bs[i] in UsedSet(bs)) == bs[i].used;
    }
    if |bs| >= 2 {
      CoalescedAt(bs, 0);
    }
  }

  // ---- The loop of the statistics ----

  lemma StatsStep(bs: seq<Blk>, k: nat, lo: nat, hi: nat)
    requires Tiled(bs, lo, hi) && k < |bs|
    ensures LargestFree(bs[..k + 1]) ==
      if !bs[k].used && bs[k].size > LargestFree(bs[..k]) then bs[k].size else LargestFree(bs[..k])
    ensures |UsedSet(bs[..k + 1])| == |UsedSet(bs[..k])| + (if bs[k].used then 1 else 0)
  {
    UsedOneMore(bs, k, lo, hi);
    assert bs[..k + 1][..k] == bs[..k];
  }
}

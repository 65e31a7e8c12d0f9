/** The search loop of kernel/reflex_heap.c as it is, with a size test that may wrap, on the block list. */
module HeapSearch {
  import opened Arith
  import opened Errors
  import opened HeapBlocks
  import opened HeapSizes

  /** How a search ends: with a list, or by stepping to a next block that is not there,
      or by cutting a block at a place beyond its end. */
  datatype End = Returned(list: seq<Blk>, at: Option<nat>) | NoNext | CutBeyond

  /** The 32-bit sum of two words. */
  function Sum32(a: nat, b: nat): nat
  {
    if a + b < U32 then a + b else a + b - U32
  }

  /** The loop from block i on. */
  ghost function SearchFrom(bs: seq<Blk>, align: nat, want: nat, i: nat): End
    requires align >= ALIGN
    decreases |bs| - i
  {
    if i >= |bs| then Returned(bs, None)
    else if bs[i].used then SearchFrom(bs, align, want, i + 1)
    else
      var b, gap := bs[i], Gap(bs[i].Pay(), align);
      if gap == 0 then
        if b.size < want then SearchFrom(bs, align, want, i + 1) else Returned(AllocAt(bs, i, 0, want), Some(i))
      else if b.size < Sum32(gap, want) then SearchFrom(bs, align, want, i + 1)
      else if gap - HDR > b.size then CutBeyond
      else
        var cut := Splice(bs, i, i + 1, Carve(b, gap - HDR, false));
        if i + 1 >= |cut| then NoNext
        else if cut[i + 1].used || cut[i + 1].size < want then SearchFrom(cut, align, want, i + 2)
        else Returned(AllocAt(cut, i + 1, 0, want), Some(i + 1))
  }

  /** The search never goes back: what it has passed stays as it is. */
  lemma {:induction false} PassedStays(bs: seq<Blk>, align: nat, want: nat, i: nat)
    requires align >= ALIGN && i <= |bs|
    ensures Keeps(bs, SearchFrom(bs, align, want, i), i)
    decreases |bs| - i, 1
  {
    if i < |bs| {
      var b, gap := bs[i], Gap(bs[i].Pay(), align);
      if b.used || (gap == 0 && b.size < want) || (gap != 0 && b.size < Sum32(gap, want)) {
        PassedStays(bs, align, want, i + 1);
        StaysShorter(bs, SearchFrom(bs, align, want, i + 1), i, i + 1);
      } else if gap == 0 {
        PlacedStays(bs, i, want);
      } else if gap - HDR <= b.size {
        CutStays(bs, align, want, i, Splice(bs, i, i + 1, Carve(b, gap - HDR, false)));
      }
    }
  }

  lemma {:induction false} CutStays(bs: seq<Blk>, align: nat, want: nat, i: nat, cut: seq<Blk>)
    requires align >= ALIGN && i < |bs| && i <= |cut| <= |bs| + 1 && cut[..i] == bs[..i]
    ensures i + 1 < |cut| && (cut[i + 1].used || cut[i + 1].size < want) ==>
      Keeps(bs, SearchFrom(cut, align, want, i + 2), i)
    ensures i + 1 < |cut| && cut[i + 1].size >= want ==>
      Keeps(bs, Returned(AllocAt(cut, i + 1, 0, want), Some(i + 1)), i)
    decreases |bs| - i, 0
  {
    if i + 1 < |cut| {
      if cut[i + 1].used || cut[i + 1].size < want {
        var e := SearchFrom(cut, align, want, i + 2);
        PassedStays(cut, align, want, i + 2);
        StaysShorter(cut, e, i, i + 2);
        StaysSame(bs, cut, e, i);
      }
      if cut[i + 1].size >= want {
        var e := Returned(AllocAt(cut, i + 1, 0, want), Some(i + 1));
        PlacedStays(cut, i + 1, want);
        StaysShorter(cut, e, i, i + 1);
        StaysSame(bs, cut, e, i);
      }
    }
  }

  lemma PlacedStays(bs: seq<Blk>, k: nat, want: nat)
    requires k < |bs| && want <= bs[k].size
    ensures Keeps(bs, Returned(AllocAt(bs, k, 0, want), Some(k)), k)
  {
    assert AllocAt(bs, k, 0, want)[..k] == bs[..k];
  }

  /** A list that was returned starts with the first i blocks. */
  ghost predicate Keeps(bs: seq<Blk>, e: End, i: nat)
    requires i <= |bs|
  {
    e.Returned? ==> i <= |e.list| && e.list[..i] == bs[..i]
  }

  lemma StaysSame(bs: seq<Blk>, cut: seq<Blk>, e: End, i: nat)
    requires i <= |bs| && i <= |cut| && cut[..i] == bs[..i] && Keeps(cut, e, i)
    ensures Keeps(bs, e, i)
  {
  }

  lemma StaysShorter(bs: seq<Blk>, e: End, i: nat, j: nat)
    requires i <= j <= |bs|
    requires Keeps(bs, e, j)
    ensures Keeps(bs, e, i)
  {
    if e.Returned? {
      assert e.list[..j][..i] == e.list[..i] && bs[..j][..i] == bs[..i];
    }
  }

  /** A block that neither fits nor tears is passed without a change. */
  lemma PassedBy(bs: seq<Blk>, align: nat, want: nat, hi: nat, i: nat) returns (j: nat)
    requires align >= ALIGN && i < |bs| && Coalesced(bs) && bs[|bs| - 1].End() == hi && bs[i].size < U32
    requires !Fits(bs[i], align, want) && !Tears(bs[i], align, want, hi)
    ensures SearchFrom(bs, align, want, i) == SearchFrom(bs, align, want, j)
    ensures j == i + 1 || (j == i + 2 <= |bs| && bs[i + 1].used)
  {
    var b, gap := bs[i], Gap(bs[i].Pay(), align);
    j := i + 1;
    if !b.used && gap != 0 && b.size >= Sum32(gap, want) {
      assert bs[i].used || i + 1 == |bs| || bs[i + 1].used;
      assert Splice(bs, i, i + 1, [b]) == bs;
      j := i + 2;
    }
  }

  /** What the search does where it fits. */
  lemma FitTaken(bs: seq<Blk>, align: nat, want: nat, i: nat)
    requires align >= ALIGN && i < |bs| && Fits(bs[i], align, want) && bs[i].size < U32 && want >= MIN_PAYLOAD
    ensures SearchFrom(bs, align, want, i).Returned?
    ensures SearchFrom(bs, align, want, i).list == AllocAt(bs, i, Gap(bs[i].Pay(), align), want)
  {
    var gap := Gap(bs[i].Pay(), align);
    if gap != 0 {
      GapThenTake(bs, i, gap, want);
    }
  }

  /** Without a torn block before the first fit, the search is first fit. */
  lemma {:induction false} SearchIsFirstFit(bs: seq<Blk>, align: nat, want: nat, hi: nat, i: nat)
    requires align >= ALIGN && Coalesced(bs) && bs != [] && bs[|bs| - 1].End() == hi && want >= MIN_PAYLOAD
    requires forall m :: 0 <= m < |bs| ==> bs[m].size < U32
    requires !TornBeforeFit(bs, align, want, hi) && i <= FirstFit(bs, align, want)
    ensures var k, e := FirstFit(bs, align, want), SearchFrom(bs, align, want, i);
      e.Returned? && e.list == if k == |bs| then bs else AllocAt(bs, k, Gap(bs[k].Pay(), align), want)
    decreases |bs| - i
  {
    var k := FirstFit(bs, align, want);
    if i < k {
      assert !Tears(bs[i], align, want, hi) && !Fits(bs[i], align, want);
      var j := PassedBy(bs, align, want, hi, i);
      assert j <= k by {
        assert j == i + 2 ==> !Fits(bs[i + 1], align, want);
      }
      SearchIsFirstFit(bs, align, want, hi, j);
    } else if k < |bs| {
      FitTaken(bs, align, want, k);
    }
  }

  /** The search comes to the first torn block. */
  lemma {:induction false} ReachesTear(bs: seq<Blk>, align: nat, want: nat, hi: nat, i: nat, k: nat)
    requires align >= ALIGN && Coalesced(bs) && bs != [] && bs[|bs| - 1].End() == hi
    requires forall m :: 0 <= m < |bs| ==> bs[m].size < U32
    requires i <= k < FirstFit(bs, align, want) && !bs[k].used
    requires forall m :: 0 <= m < k ==> !Tears(bs[m], align, want, hi)
    ensures SearchFrom(bs, align, want, i) == SearchFrom(bs, align, want, k)
    decreases k - i
  {
    if i < k {
      assert !Tears(bs[i], align, want, hi) && !Fits(bs[i], align, want);
      var j := PassedBy(bs, align, want, hi, i);
      ReachesTear(bs, align, want, hi, j, k);
    }
  }

  /** At a torn block the search breaks, and whatever it goes on to do, a list it returns holds two free neighbours. */
  lemma TearBreaks(bs: seq<Blk>, align: nat, want: nat, hi: nat, k: nat)
    requires align >= ALIGN && k < |bs| && Tears(bs[k], align, want, hi) && bs[k].size < U32
    requires bs[k].End() == hi ==> k + 1 == |bs|
    ensures var e := SearchFrom(bs, align, want, k); e.Returned? ==> !Coalesced(e.list)
  {
    var b, gap := bs[k], Gap(bs[k].Pay(), align);
    if gap - HDR <= b.size {
      var cut := Splice(bs, k, k + 1, Carve(b, gap - HDR, false));
      if b.size - (gap - HDR) >= SPLIT_MIN {
        assert !cut[k].used && !cut[k + 1].used && cut[k + 1].size < want;
        PassedStays(cut, align, want, k + 2);
        var e := SearchFrom(cut, align, want, k + 2);
        if e.Returned? {
          assert e.list[k] == e.list[..k + 2][k] == cut[k] && e.list[k + 1] == e.list[..k + 2][k + 1] == cut[k + 1];
        }
      }
    }
  }

  lemma SizesFit(bs: seq<Blk>, lo: nat, hi: nat)
    requires Tiled(bs, lo, hi) && hi < U32
    ensures forall m :: 0 <= m < |bs| ==> bs[m].size < U32
    ensures forall m :: 0 <= m < |bs| && bs[m].End() == hi ==> m + 1 == |bs|
  {
    AllOrdered(bs, lo, hi);
  }

  /** When a torn request has been searched for: no list, or one with two free neighbours. */
  lemma TornSearchBreaks(bs: seq<Blk>, align: nat, want: nat, lo: nat, hi: nat)
    requires Sound(bs, lo, hi) && hi < U32 && align >= ALIGN && TornBeforeFit(bs, align, want, hi)
    ensures var e := SearchFrom(bs, align, want, 0); e.Returned? ==> !Coalesced(e.list)
  {
    var k := FirstTear(bs, align, want, hi, FirstFit(bs, align, want));
    SizesFit(bs, lo, hi);
    ReachesTear(bs, align, want, hi, 0, k);
    TearBreaks(bs, align, want, hi, k);
  }

  /** The condition is exact: a search for a sane size returns a sound list if and only if the request is not torn. */
  lemma SearchKeepsExactly(bs: seq<Blk>, align: nat, size: nat, lo: nat, hi: nat)
    requires Sound(bs, lo, hi) && lo % 8 == 0 && hi < U32 && IsPowerOfTwo(align) && align < U32
    requires size > 0 && SizeIsSane(size)
    ensures var e := SearchFrom(bs, AtLeastEight(align), Want(size), 0);
      (e.Returned? && Sound(e.list, lo, hi)) <==> !Torn(bs, align, size, hi)
  {
    if Torn(bs, align, size, hi) {
      TornSearchBreaks(bs, AtLeastEight(align), Want(size), lo, hi);
    } else {
      SizesFit(bs, lo, hi);
      SearchIsFirstFit(bs, AtLeastEight(align), Want(size), hi, 0);
      if Serves(bs, align, size) {
        ServedFacts(bs, align, size, lo, hi);
      }
    }
  }
}

/** bootloader_components/main/reflex_boot0.c: from an image in flash to code in RAM and pages in the flash MMU.

    The ROM's SHA engine is taken to be SHA-256; flash reads may fail. */
module Boot0 {
  import opened Arith
  import opened Bytes
  import Crypto
  import Sha256Spec

  const IMAGE_MAGIC: nat := 0xE9
  const MAX_SEGMENTS: nat := 16
  const MAX_SEG_LEN: nat := 0x100_0000
  const HEADER_LEN: nat := 24
  const SEG_HEADER_LEN: nat := 8
  const HASH_LEN: nat := 32
  const SRAM_LOW: nat := 0x4080_0000
  const SRAM_HIGH: nat := 0x4088_0000
  const RTC_LOW: nat := 0x5000_0000
  const RTC_HIGH: nat := 0x5000_4000
  const FLASH_LOW: nat := 0x4200_0000
  const FLASH_HIGH: nat := 0x4400_0000
  const PAGE: nat := 0x1_0000
  const ENTRIES: nat := 256
  const VALID_BIT: nat := 512
  /** Flash the MMU can reach with nine-bit page numbers. */
  const MAPPABLE: nat := 0x200_0000

  // ---- Address tests ----

  predicate IsSram(a: nat) { SRAM_LOW <= a < SRAM_HIGH }

  predicate IsRtc(a: nat) { RTC_LOW <= a < RTC_HIGH }

  predicate IsRam(a: nat) { IsSram(a) || IsRtc(a) }

  predicate IsFlashMapped(a: nat) { FLASH_LOW <= a < FLASH_HIGH }

  /** All of [addr, addr + len) lies in [low, high), without a sum that could wrap. */
  predicate RangeWithin(addr: nat, len: nat, low: nat, high: nat)
    requires addr < U32 && high < U32
  {
    !(addr < low || addr >= high) && len <= USub(high, addr)
  }

  predicate FitsRam(load: nat, len: nat)
    requires load < U32
  {
    RangeWithin(load, len, SRAM_LOW, SRAM_HIGH) || RangeWithin(load, len, RTC_LOW, RTC_HIGH)
  }

  /** What the test means: every byte is in the window its first byte is in, and no address wraps. */
  lemma FitsMeans(load: nat, len: nat)
    requires load < U32
    ensures FitsRam(load, len) <==>
      (IsSram(load) && load + len <= SRAM_HIGH) || (IsRtc(load) && load + len <= RTC_HIGH)
    ensures FitsRam(load, len) ==> load + len < U32 && forall a :: load <= a < load + len ==> IsRam(a)
  {
  }

  // ---- Segments ----

  /** A segment: where it goes, how long it is, where its bytes are in flash. */
  datatype Seg = Seg(load: nat, len: nat, data: nat)

  /** Flash as the ROM reads it: a read is refused past the end or at an address in `bad`. */
  datatype Flash = Flash(bytes: seq<bv8>, bad: set<nat>) {
    predicate Readable(at: nat, len: nat) { at !in bad && at + len <= |bytes| }

    function Read(at: nat, len: nat): (r: seq<bv8>)
      requires Readable(at, len)
      ensures |r| == len
    {
      bytes[at..at + len]
    }
  }

  /** What the first pass asks of a segment header. */
  predicate SegOk(load: nat, len: nat)
    requires load < U32
  {
    len <= MAX_SEG_LEN && (IsRam(load) ==> FitsRam(load, len))
  }

  datatype Table = BadTable | Table(segs: seq<Seg>, end: nat)

  /** The first pass over `count` segment headers from offset `at`. */
  function Walk(f: Flash, at: nat, count: nat): Table
    requires |f.bytes| <= 0x8000_0000 && at < U32
    decreases count
  {
    if count == 0 then Table([], at)
    else if !f.Readable(at, SEG_HEADER_LEN) then BadTable
    else
      var load, len, data := U32At(f.bytes, at), U32At(f.bytes, at + 4), at + SEG_HEADER_LEN;
      if !SegOk(load, len) then BadTable
      else
        match Walk(f, data + len, count - 1)
        case BadTable => BadTable
        case Table(rest, end) => Table([Seg(load, len, data)] + rest, end)
  }

  /** Where the header of segment i lies: the first at `at`, each other behind the bytes of the one before. */
  function HeadAt(segs: seq<Seg>, at: nat, i: nat): nat
    requires i <= |segs|
  {
    if i == 0 then at else segs[i - 1].data + segs[i - 1].len
  }

  /** Segment i as the flash spells it out: a readable header of two words, a length of at most 16 MB, and for a load
      address in one of the RAM windows room in that window. */
  predicate SegSpelled(f: Flash, segs: seq<Seg>, at: nat, i: nat)
    requires i < |segs|
  {
    var h, s := HeadAt(segs, at, i), segs[i];
    && h !in f.bad && h + 8 <= |f.bytes| && s.data == h + 8
    && s.load == U32At(f.bytes, h) && s.len == U32At(f.bytes, h + 4) && s.len <= 0x100_0000
    && (0x4080_0000 <= s.load < 0x4088_0000 ==> s.load + s.len <= 0x4088_0000)
    && (0x5000_0000 <= s.load < 0x5000_4000 ==> s.load + s.len <= 0x5000_4000)
  }

  predicate Spelled(f: Flash, segs: seq<Seg>, at: nat, count: nat, end: nat)
  {
    && |segs| == count && end == HeadAt(segs, at, count)
    && forall i :: 0 <= i < count ==> SegSpelled(f, segs, at, i)
  }

  lemma SpelledTail(f: Flash, s: Seg, rest: seq<Seg>, at: nat, end: nat)
    ensures Spelled(f, [s] + rest, at, |rest| + 1, end) <==>
      SegSpelled(f, [s], at, 0) && Spelled(f, rest, s.data + s.len, |rest|, end)
  {
    var segs, next := [s] + rest, s.data + s.len;
    forall i | 0 <= i <= |rest| ensures HeadAt(segs, at, i + 1) == HeadAt(rest, next, i) {
      assert segs[i] == if i == 0 then s else rest[i - 1];
    }
    forall i | 0 <= i < |rest| ensures SegSpelled(f, segs, at, i + 1) <==> SegSpelled(f, rest, next, i) {
      assert segs[i + 1] == rest[i] && HeadAt(segs, at, i + 1) == HeadAt(rest, next, i);
    }
    assert SegSpelled(f, segs, at, 0) <==> SegSpelled(f, [s], at, 0);
    if Spelled(f, segs, at, |rest| + 1, end) {
      forall i | 0 <= i < |rest| ensures SegSpelled(f, rest, next, i) {
        assert SegSpelled(f, segs, at, i + 1);
      }
      assert HeadAt(segs, at, |rest| + 1) == HeadAt(rest, next, |rest|);
    }
    if SegSpelled(f, [s], at, 0) && Spelled(f, rest, next, |rest|, end) {
      forall i | 0 <= i < |segs| ensures SegSpelled(f, segs, at, i) {
        assert i > 0 ==> SegSpelled(f, rest, next, i - 1) && SegSpelled(f, segs, at, i - 1 + 1);
      }
      assert HeadAt(segs, at, |rest| + 1) == HeadAt(rest, next, |rest|);
    }
  }

  /** A header that is spelled out is one the first pass goes on from. */
  lemma SpelledHead(f: Flash, s: Seg, at: nat)
    requires at < U32
    ensures SegSpelled(f, [s], at, 0) <==>
      && f.Readable(at, SEG_HEADER_LEN) && s == Seg(U32At(f.bytes, at), U32At(f.bytes, at + 4), at + SEG_HEADER_LEN)
      && SegOk(U32At(f.bytes, at), U32At(f.bytes, at + 4))
  {
    if f.Readable(at, SEG_HEADER_LEN) {
      FitsMeans(U32At(f.bytes, at), U32At(f.bytes, at + 4));
    }
  }

  lemma WalkHead(f: Flash, at: nat, count: nat, s: Seg, rest: seq<Seg>, end: nat)
    requires |f.bytes| <= 0x8000_0000 && at < U32 && count > 0
    ensures Walk(f, at, count) == Table([s] + rest, end) <==>
      SegSpelled(f, [s], at, 0) && s.data + s.len < U32 && Walk(f, s.data + s.len, count - 1) == Table(rest, end)
  {
    SpelledHead(f, s, at);
    if Walk(f, at, count) == Table([s] + rest, end) {
      assert ([s] + rest)[0] == s && ([s] + rest)[1..] == rest;
    }
  }

  /** The first pass accepts exactly the tables that the flash spells out, from the first header to the end of the last
      segment. */
  lemma {:induction false} WalkExactly(f: Flash, at: nat, count: nat, segs: seq<Seg>, end: nat)
    requires |f.bytes| <= 0x8000_0000 && at < U32
    ensures Walk(f, at, count) == Table(segs, end) <==> Spelled(f, segs, at, count, end)
    decreases count
  {
    if count > 0 && segs != [] {
      var s, rest := segs[0], segs[1..];
      assert segs == [s] + rest;
      SpelledHead(f, s, at);
      WalkHead(f, at, count, s, rest, end);
      SpelledTail(f, s, rest, at, end);
      if SegSpelled(f, [s], at, 0) {
        WalkExactly(f, s.data + s.len, count - 1, rest, end);
      }
    }
  }

  lemma {:induction false} WalkChecks(f: Flash, at: nat, count: nat)
    requires |f.bytes| <= 0x8000_0000 && at < U32 && Walk(f, at, count).Table?
    ensures var t := Walk(f, at, count);
      && |t.segs| == count && at <= t.end < U32
      && forall i :: 0 <= i < count ==> SegChecked(t.segs[i])
    decreases count
  {
    if count > 0 {
      var load, len, data := U32At(f.bytes, at), U32At(f.bytes, at + 4), at + SEG_HEADER_LEN;
      WalkChecks(f, data + len, count - 1);
    }
  }

  predicate SegChecked(s: Seg)
  {
    s.load < U32 && SegOk(s.load, s.len) && s.data < 0x8000_0008
  }

  /** Header, segments, padding and the checksum byte, up to a multiple of sixteen. */
  function BodyLength(len: nat): nat
  {
    (len + 16) / 16 * 16
  }

  /** There is room for the checksum byte, and no more than a row of padding. */
  lemma BodyIsPadded(len: nat)
    ensures BodyLength(len) % 16 == 0 && len < BodyLength(len) <= len + 16
  {
  }

  // ---- The image ----

  /** The header at offset p is one the loader goes on with. */
  predicate HeaderOk(f: Flash, p: nat)
  {
    f.Readable(p, HEADER_LEN) && OfByte(f.bytes[p]) == IMAGE_MAGIC && OfByte(f.bytes[p + 1]) <= MAX_SEGMENTS
  }

  function TableOf(f: Flash, p: nat): Table
    requires |f.bytes| <= 0x8000_0000 && HeaderOk(f, p)
  {
    Walk(f, p + HEADER_LEN, OfByte(f.bytes[p + 1]))
  }

  predicate HashAppended(f: Flash, p: nat)
    requires HeaderOk(f, p)
  {
    f.bytes[p + 23] != 0
  }

  /** The digest behind the body is that of the body. */
  predicate DigestMatches(f: Flash, p: nat, body: nat)
  {
    && p + body + HASH_LEN <= |f.bytes| && 8 * body < Crypto.U64
    && f.bytes[p + body..p + body + HASH_LEN] == Sha256Spec.Sha256(f.bytes[p..p + body])
  }

  /** Everything that has to hold before a byte of RAM is written. */
  predicate Trusted(f: Flash, p: nat)
    requires |f.bytes| <= 0x8000_0000
  {
    HeaderOk(f, p) && TableTrusted(f, p, TableOf(f, p))
  }

  predicate TableTrusted(f: Flash, p: nat, table: Table)
    requires HeaderOk(f, p)
  {
    && table.Table? && p <= table.end
    && (HashAppended(f, p) ==> DigestMatches(f, p, BodyLength(table.end - p)))
  }

  // ---- RAM ----

  /** RAM with bytes written from address `at` on. */
  function Stored(ram: map<nat, bv8>, at: nat, bytes: seq<bv8>): map<nat, bv8>
  {
    if bytes == [] then ram
    else
      var n := |bytes| - 1;
      Stored(ram, at, bytes[..n])[at + n := bytes[n]]
  }

  lemma {:induction false} StoredIs(ram: map<nat, bv8>, at: nat, bytes: seq<bv8>, a: nat)
    ensures at <= a < at + |bytes| ==> a in Stored(ram, at, bytes) && Stored(ram, at, bytes)[a] == bytes[a - at]
    ensures !(at <= a < at + |bytes|) ==>
      (a in Stored(ram, at, bytes) <==> a in ram) && (a in ram ==> Stored(ram, at, bytes)[a] == ram[a])
  {
    if bytes != [] {
      StoredIs(ram, at, bytes[..|bytes| - 1], a);
    }
  }

  /** RAM after the second pass has loaded the first k segments. */
  function LoadedRam(f: Flash, segs: seq<Seg>, k: nat, ram: map<nat, bv8>): map<nat, bv8>
    requires k <= |segs| && forall i :: 0 <= i < k && IsRam(segs[i].load) ==> f.Readable(segs[i].data, segs[i].len)
  {
    if k == 0 then ram
    else
      var before, s := LoadedRam(f, segs, k - 1, ram), segs[k - 1];
      if IsRam(s.load) then Stored(before, s.load, f.Read(s.data, s.len)) else before
  }

  predicate SameAt(r: map<nat, bv8>, q: map<nat, bv8>, a: nat)
  {
    (a in r <==> a in q) && (a in r ==> r[a] == q[a])
  }

  /** Nothing outside the two windows is written. */
  lemma {:induction false} WindowsOnly(f: Flash, segs: seq<Seg>, k: nat, ram: map<nat, bv8>, a: nat)
    requires k <= |segs| && forall i :: 0 <= i < k && IsRam(segs[i].load) ==> f.Readable(segs[i].data, segs[i].len)
    requires forall i :: 0 <= i < |segs| ==> SegChecked(segs[i])
    requires !IsRam(a)
    ensures SameAt(LoadedRam(f, segs, k, ram), ram, a)
  {
    if k > 0 {
      WindowsOnly(f, segs, k - 1, ram, a);
      var s := segs[k - 1];
      assert SegChecked(s);
      FitsMeans(s.load, s.len);
      if IsRam(s.load) {
        StoredIs(LoadedRam(f, segs, k - 1, ram), s.load, f.Read(s.data, s.len), a);
      }
    }
  }

  predicate Covers(s: Seg, a: nat) { IsRam(s.load) && s.load <= a < s.load + s.len }

  /** A byte of a segment that no later segment overwrites is the byte in flash. */
  lemma {:induction false} SegmentArrives(f: Flash, segs: seq<Seg>, k: nat, ram: map<nat, bv8>, j: nat, a: nat)
    requires j < k <= |segs| && forall i :: 0 <= i < k && IsRam(segs[i].load) ==> f.Readable(segs[i].data, segs[i].len)
    requires Covers(segs[j], a) && forall i :: j < i < k ==> !Covers(segs[i], a)
    ensures var r := LoadedRam(f, segs, k, ram); a in r && r[a] == f.bytes[segs[j].data + (a - segs[j].load)]
  {
    var s := segs[k - 1];
    var before := LoadedRam(f, segs, k - 1, ram);
    if IsRam(s.load) {
      StoredIs(before, s.load, f.Read(s.data, s.len), a);
    }
    if j < k - 1 {
      assert !Covers(segs[k - 1], a);
      SegmentArrives(f, segs, k - 1, ram, j, a);
    }
  }

  // ---- The flash MMU ----

  /** Setting bit 9 of a page number. */
  function WithValid(page: nat): (c: nat)
    ensures page < VALID_BIT ==> c == page + VALID_BIT
  {
    if page / 512 % 2 == 1 then page else page + 512
  }

  /** Entry and flash page of page j of a segment. */
  function Entry(m: Seg, j: nat): (e: nat)
    ensures e < ENTRIES
  {
    (m.load / 0x1_0000 + j) % 256
  }

  function FlashPage(m: Seg, j: nat): nat { m.data / 0x1_0000 + j }

  /** How many pages the inner loop maps. */
  function Pages(m: Seg): nat { (m.data % 0x1_0000 + m.len + 0xFFFF) / 0x1_0000 }

  /** The table after j pages of a segment. */
  function MappedTo(mmu: seq<nat>, m: Seg, j: nat): (r: seq<nat>)
    requires |mmu| == ENTRIES
    ensures |r| == ENTRIES
    decreases j, mmu
  {
    if j == 0 then mmu else MappedTo(mmu, m, j - 1)[Entry(m, j - 1) := WithValid(FlashPage(m, j - 1))]
  }

  function MappedAll(mmu: seq<nat>, maps: seq<Seg>, k: nat): (r: seq<nat>)
    requires |mmu| == ENTRIES && k <= |maps|
    ensures |r| == ENTRIES
  {
    if k == 0 then mmu else MappedTo(MappedAll(mmu, maps, k - 1), maps[k - 1], Pages(maps[k - 1]))
  }

  /** The flash address behind a virtual address. */
  function Translate(mmu: seq<nat>, va: nat): (pa: nat)
    requires |mmu| == ENTRIES
  {
    mmu[va / 0x1_0000 % 256] % 512 * 0x1_0000 + va % 0x1_0000
  }

  predicate EntryValid(mmu: seq<nat>, va: nat)
    requires |mmu| == ENTRIES
  {
    mmu[va / 0x1_0000 % 256] / 512 % 2 == 1
  }

  /** A valid entry sends va to pa. */
  predicate Finds(mmu: seq<nat>, va: nat, pa: nat)
    requires |mmu| == ENTRIES
  {
    EntryValid(mmu, va) && Translate(mmu, va) == pa
  }

  predicate Uses(m: Seg, j: nat, e: nat) { j < Pages(m) && Entry(m, j) == e }

  /** No entry is used by two pages, of one segment or of two. */
  ghost predicate DistinctEntries(maps: seq<Seg>)
  {
    forall k, j, k', j', e :: 0 <= k < |maps| && 0 <= k' < |maps| && Uses(maps[k], j, e) && Uses(maps[k'], j', e) ==>
      k == k' && j == j'
  }

  lemma {:induction false} OtherEntriesStay(mmu: seq<nat>, m: Seg, n: nat, e: nat)
    requires |mmu| == ENTRIES && e < ENTRIES && forall j :: 0 <= j < n ==> Entry(m, j) != e
    ensures MappedTo(mmu, m, n)[e] == mmu[e]
  {
    if n > 0 {
      assert Entry(m, n - 1) != e;
      OtherEntriesStay(mmu, m, n - 1, e);
    }
  }

  lemma {:induction false} PageIsMapped(mmu: seq<nat>, m: Seg, n: nat, j: nat)
    requires |mmu| == ENTRIES && j < n && forall i :: j < i < n ==> Entry(m, i) != Entry(m, j)
    ensures MappedTo(mmu, m, n)[Entry(m, j)] == WithValid(FlashPage(m, j))
  {
    if j < n - 1 {
      assert Entry(m, n - 1) != Entry(m, j);
      PageIsMapped(mmu, m, n - 1, j);
    }
  }

  lemma {:induction false} PageStaysMapped(mmu: seq<nat>, maps: seq<Seg>, n: nat, k: nat, j: nat)
    requires |mmu| == ENTRIES && DistinctEntries(maps) && k < n <= |maps| && j < Pages(maps[k])
    ensures MappedAll(mmu, maps, n)[Entry(maps[k], j)] == WithValid(FlashPage(maps[k], j))
  {
    var e := Entry(maps[k], j);
    assert Uses(maps[k], j, e);
    var last := maps[n - 1];
    forall i: nat | i < Pages(last) && (k, j) != (n - 1, i) ensures Entry(last, i) != e {
      assert !Uses(last, i, e);
    }
    if k == n - 1 {
      PageIsMapped(MappedAll(mmu, maps, n - 1), last, Pages(last), j);
    } else {
      OtherEntriesStay(MappedAll(mmu, maps, n - 1), last, Pages(last), e);
      PageStaysMapped(mmu, maps, n - 1, k, j);
    }
  }

  /** Page arithmetic of byte i of a segment whose two addresses agree within a page. */
  lemma ByteInPage(v: nat, p: nat, len: nat, i: nat, j: nat)
    requires v % 0x1_0000 == p % 0x1_0000 && i < len && j == (p % 0x1_0000 + i) / 0x1_0000
    ensures (v + i) / 0x1_0000 == v / 0x1_0000 + j && (p + i) / 0x1_0000 == p / 0x1_0000 + j
    ensures (v + i) % 0x1_0000 == (p + i) % 0x1_0000
    ensures j < (p % 0x1_0000 + len + 0xFFFF) / 0x1_0000
  {
  }

  lemma PageInRange(p: nat, page: nat)
    requires p < MAPPABLE && page == p / 0x1_0000
    ensures page < 512 && WithValid(page) % 512 == page && WithValid(page) / 512 % 2 == 1
    ensures page * 0x1_0000 + p % 0x1_0000 == p
  {
  }

  lemma EntryOf(va: nat, m: Seg, j: nat)
    requires va / 0x1_0000 == m.load / 0x1_0000 + j
    ensures va / 0x1_0000 % 256 == Entry(m, j)
  {
  }

  /** A valid entry for page `page` sends an address to the same place in that page. */
  lemma EntryTranslates(mmu: seq<nat>, va: nat, pa: nat, page: nat)
    requires |mmu| == ENTRIES && pa < MAPPABLE && page == pa / 0x1_0000 && va % 0x1_0000 == pa % 0x1_0000
    requires mmu[va / 0x1_0000 % 256] == WithValid(page)
    ensures Finds(mmu, va, pa)
  {
    PageInRange(pa, page);
  }

  /** Once page j of a segment is mapped, byte i of the segment is found at its flash address. */
  lemma PageServes(mmu: seq<nat>, m: Seg, i: nat, j: nat)
    requires |mmu| == ENTRIES && i < m.len && j == (m.data % 0x1_0000 + i) / 0x1_0000
    requires m.load % 0x1_0000 == m.data % 0x1_0000 && m.data + m.len <= MAPPABLE
    requires mmu[Entry(m, j)] == WithValid(FlashPage(m, j))
    ensures Finds(mmu, m.load + i, m.data + i)
  {
    ByteInPage(m.load, m.data, m.len, i, j);
    EntryOf(m.load + i, m, j);
    EntryTranslates(mmu, m.load + i, m.data + i, FlashPage(m, j));
  }

  lemma PageCounted(m: Seg, i: nat, j: nat)
    requires i < m.len && j == (m.data % 0x1_0000 + i) / 0x1_0000
    ensures j < Pages(m)
  {
    ByteInPage(m.data, m.data, m.len, i, j);
  }

  /** Every page of a segment is in the table. */
  ghost predicate AllMapped(mmu: seq<nat>, m: Seg)
    requires |mmu| == ENTRIES
  {
    forall j: nat :: j < Pages(m) ==> mmu[Entry(m, j)] == WithValid(FlashPage(m, j))
  }

  lemma SegmentStaysMapped(mmu: seq<nat>, maps: seq<Seg>, k: nat)
    requires |mmu| == ENTRIES && DistinctEntries(maps) && k < |maps|
    ensures AllMapped(MappedAll(mmu, maps, |maps|), maps[k])
  {
    forall j: nat | j < Pages(maps[k])
      ensures MappedAll(mmu, maps, |maps|)[Entry(maps[k], j)] == WithValid(FlashPage(maps[k], j))
    {
      PageStaysMapped(mmu, maps, |maps|, k, j);
    }
  }

  /** The two addresses of a segment agree within a page, and its pages have nine-bit numbers. */
  predicate Mappable(m: Seg) { m.load % 0x1_0000 == m.data % 0x1_0000 && m.data + m.len <= MAPPABLE }

  /** Byte i of a segment is found at its flash address. */
  predicate ByteFound(mmu: seq<nat>, m: Seg, i: nat)
    requires |mmu| == ENTRIES
  {
    Finds(mmu, m.load + i, m.data + i)
  }

  ghost predicate AllFound(mmu: seq<nat>, m: Seg)
    requires |mmu| == ENTRIES
  {
    forall i: nat :: i < m.len ==> ByteFound(mmu, m, i)
  }

  lemma AllMappedServes(mmu: seq<nat>, m: Seg)
    requires |mmu| == ENTRIES && AllMapped(mmu, m) && Mappable(m)
    ensures AllFound(mmu, m)
  {
    forall i: nat | i < m.len ensures ByteFound(mmu, m, i) {
      var j := (m.data % 0x1_0000 + i) / 0x1_0000;
      PageCounted(m, i, j);
      PageServes(mmu, m, i, j);
    }
  }

  /** After a load, every byte of a flash segment is found at its flash address. */
  lemma SegmentIsMapped(mmu: seq<nat>, maps: seq<Seg>, k: nat)
    requires |mmu| == ENTRIES && DistinctEntries(maps) && k < |maps| && Mappable(maps[k])
    ensures AllFound(MappedAll(mmu, maps, |maps|), maps[k])
  {
    SegmentStaysMapped(mmu, maps, k);
    AllMappedServes(MappedAll(mmu, maps, |maps|), maps[k]);
  }

  // ---- The loader ----

  /** The flash segments, in order. */
  function FlashSegs(segs: seq<Seg>, k: nat): (maps: seq<Seg>)
    requires k <= |segs|
    ensures |maps| <= k
  {
    if k == 0 then []
    else
      var s := segs[k - 1];
      if !IsRam(s.load) && IsFlashMapped(s.load) then FlashSegs(segs, k - 1) + [s] else FlashSegs(segs, k - 1)
  }

  /** Reads of the digest check, one of at most 4096 bytes after another. */
  predicate ChunksReadable(f: Flash, at: nat, len: nat)
    decreases len
  {
    var chunk := if len > 4096 then 4096 else len;
    len > 0 ==> f.Readable(at, chunk) && ChunksReadable(f, at + chunk, len - chunk)
  }

  lemma {:induction false} ChunksInFlash(f: Flash, at: nat, len: nat)
    requires ChunksReadable(f, at, len) && len > 0
    ensures at + len <= |f.bytes|
    decreases len
  {
    if len > 4096 {
      ChunksInFlash(f, at + 4096, len - 4096);
    }
  }

  lemma SliceGrows(bytes: seq<bv8>, a: nat, b: nat, c: nat)
    requires a <= b <= c <= |bytes|
    ensures bytes[a..b] + bytes[b..c] == bytes[a..c]
  {
  }

  class Board {
    const flash: Flash
    var ram: map<nat, bv8>
    const mmu: array<nat>

    ghost predicate Valid()
      reads this
    {
      mmu.Length == ENTRIES && |flash.bytes| <= 0x8000_0000
    }

    /** The chunk loop. */
    method HashBody(p: nat, body: nat) returns (ok: bool, digest: seq<bv8>)
      requires Valid() && 8 * body < Crypto.U64 && p + body <= |flash.bytes|
      ensures ok <==> ChunksReadable(flash, p, body)
      ensures ok ==> digest == Sha256Spec.Sha256(flash.bytes[p..p + body])
    {
      var ctx := new Crypto.Sha256Context();
      var off := 0;
      while off < body
        invariant off <= body && ctx.Valid() && fresh(ctx) && fresh(ctx.buf)
        invariant ctx.Fed() == flash.bytes[p..p + off]
        invariant ChunksReadable(flash, p, body) <==> ChunksReadable(flash, p + off, body - off)
      {
        var chunk := body - off;
        if chunk > 4096 {
          chunk := 4096;
        }
        if !flash.Readable(p + off, chunk) {
          return false, [];
        }
        SliceGrows(flash.bytes, p, p + off, p + (off + chunk));
        ctx.Update(flash.Read(p + off, chunk));
        off := off + chunk;
      }
      assert ctx.Fed() == flash.bytes[p..p + body];
      var out := new bv8[32](_ => 0);
      ctx.Final(out);
      ok, digest := true, out[..];
    }

    /** `engine` says whether the ROM's SHA engine starts and finishes. */
    method VerifySha256(p: nat, body: nat, engine: bool) returns (ok: bool)
      requires Valid() && 8 * body < Crypto.U64
      ensures ok <==> DigestReadable(flash, p, body, engine) && DigestMatches(flash, p, body)
    {
      if !flash.Readable(p + body, HASH_LEN) {
        return false;
      }
      var expected := flash.Read(p + body, HASH_LEN);
      if !engine {
        return false;
      }
      var read, digest := HashBody(p, body);
      if !read {
        return false;
      }
      ok := SameBytes(digest, expected);
    }

    /** Read and check one segment header. */
    method CheckHead(off: nat) returns (ok: bool, load: nat, len: nat)
      requires Valid()
      ensures ok == HeadOk(flash, off) && load < U32
      ensures ok ==> load == U32At(flash.bytes, off) && len == U32At(flash.bytes, off + 4)
    {
      ok, load, len := false, 0, 0;
      if !flash.Readable(off, SEG_HEADER_LEN) {
        return;
      }
      load, len := U32At(flash.bytes, off), U32At(flash.bytes, off + 4);
      if len > MAX_SEG_LEN {
        return;
      }
      if IsSram(load) || IsRtc(load) {
        var fits := RangeWithin(load, len, SRAM_LOW, SRAM_HIGH) || RangeWithin(load, len, RTC_LOW, RTC_HIGH);
        if !fits {
          return;
        }
      }
      ok := true;
    }

    /** The first pass. */
    method Measure(at: nat, count: nat) returns (table: Table)
      requires Valid() && at < U32
      ensures table == Walk(flash, at, count)
    {
      var segs: seq<Seg> := [];
      var off: nat := at;
      ghost var left: nat := count;
      StartsWalk(flash, at, count);
      for i := 0 to count
        invariant off < U32 && left == count - i && Continues(flash, at, count, segs, off, left)
      {
        var ok, load, len := CheckHead(off);
        if !ok {
          StopsWalk(flash, at, count, segs, off, left);
          return BadTable;
        }
        StepsOn(flash, at, count, segs, off, left, load, len);
        off := off + SEG_HEADER_LEN;
        segs := segs + [Seg(load, len, off)];
        off := off + len;
        left := left - 1;
      }
      assert Walk(flash, at, count) == Table(segs, off);
      return Table(segs, off);
    }

    /** The second pass: load RAM segments, and note the flash ones. */
    method LoadRam(segs: seq<Seg>) returns (ok: bool, maps: seq<Seg>)
      requires Valid() && |segs| <= MAX_SEGMENTS
      modifies `ram
      ensures ok <==> forall i :: 0 <= i < |segs| && IsRam(segs[i].load) ==> flash.Readable(segs[i].data, segs[i].len)
      ensures ok ==> ram == LoadedRam(flash, segs, |segs|, old(ram)) && maps == FlashSegs(segs, |segs|)
      ensures !ok ==> exists k :: 0 <= k < |segs| && RamAfter(flash, segs, k, old(ram), ram)
    {
      maps := [];
      for i := 0 to |segs|
        invariant forall j :: 0 <= j < i && IsRam(segs[j].load) ==> flash.Readable(segs[j].data, segs[j].len)
        invariant ram == LoadedRam(flash, segs, i, old(ram)) && maps == FlashSegs(segs, i)
      {
        var s := segs[i];
        if IsSram(s.load) || IsRtc(s.load) {
          if !flash.Readable(s.data, s.len) {
            assert RamAfter(flash, segs, i, old(ram), ram);
            return false, maps;
          }
          ram := Stored(ram, s.load, flash.Read(s.data, s.len));
        } else if IsFlashMapped(s.load) && |maps| < MAX_SEGMENTS {
          maps := maps + [s];
        }
      }
      ok := true;
    }

    method UnmapAll()
      requires Valid()
      modifies mmu
      ensures forall e :: 0 <= e < ENTRIES ==> mmu[e] == 0
    {
      for e := 0 to ENTRIES
        invariant forall j :: 0 <= j < e ==> mmu[j] == 0
      {
        mmu[e] := 0;
      }
    }

    /** The inner loop of the third pass. */
    method MapSegment(m: Seg)
      requires Valid()
      modifies mmu
      ensures mmu[..] == MappedTo(old(mmu[..]), m, Pages(m))
    {
      var vaddr, paddr := m.load / 0x1_0000 * 0x1_0000, m.data / 0x1_0000 * 0x1_0000;
      var end := m.data + m.len;
      ghost var j := 0;
      while paddr < end
        invariant vaddr == (m.load / 0x1_0000 + j) * 0x1_0000 && paddr == FlashPage(m, j) * 0x1_0000
        invariant j <= Pages(m) && (paddr < end <==> j < Pages(m))
        invariant mmu[..] == MappedTo(old(mmu[..]), m, j)
        decreases Pages(m) - j
      {
        mmu[vaddr / 0x1_0000 % 256] := WithValid(paddr / 0x1_0000);
        vaddr := vaddr + PAGE;
        paddr := paddr + PAGE;
        j := j + 1;
      }
    }

    /** The third pass. */
    method MapFlash(maps: seq<Seg>)
      requires Valid()
      modifies mmu
      ensures mmu[..] == MappedAll(seq(ENTRIES, _ => 0), maps, |maps|)
    {
      UnmapAll();
      assert mmu[..] == seq(ENTRIES, _ => 0);
      for k := 0 to |maps|
        invariant mmu[..] == MappedAll(seq(ENTRIES, _ => 0), maps, k)
      {
        MapSegment(maps[k]);
      }
    }

    /** Everything before RAM is written: the header, the first pass and the digest. */
    method Inspect(p: nat, engine: bool) returns (table: Table)
      requires Valid() && p < U32
      ensures Inspected(flash, p, engine, table)
    {
      var ok, count := CheckHeader(p);
      if !ok {
        NoHeader(flash, p, engine);
        return BadTable;
      }
      table := Measure(p + HEADER_LEN, count);
      TableIs(flash, p, count, table);
      if table.BadTable? {
        NoTable(flash, p, engine);
        return;
      }
      var intact := true;
      if flash.bytes[p + 23] != 0 {
        intact := VerifySha256(p, BodyLength(table.end - p), engine);
      }
      if !intact {
        NoDigest(flash, p, table, engine);
        return BadTable;
      }
      Accepted(flash, p, table, engine);
    }

    /** Read and check the image header. */
    method CheckHeader(p: nat) returns (ok: bool, count: nat)
      requires Valid()
      ensures ok == HeaderOk(flash, p)
      ensures ok ==> count == OfByte(flash.bytes[p + 1])
    {
      if !flash.Readable(p, HEADER_LEN) || OfByte(flash.bytes[p]) != IMAGE_MAGIC {
        return false, 0;
      }
      count := OfByte(flash.bytes[p + 1]);
      ok := count <= MAX_SEGMENTS;
    }

    /** The entry address, or 0 when the image is refused.  RAM is written only after every segment and the digest passed. */
    method LoadImage(p: nat, engine: bool) returns (entry: nat)
      requires Valid() && p < U32
      modifies `ram, mmu
      ensures !Trusted(flash, p) ==> entry == 0 && ram == old(ram) && mmu[..] == old(mmu[..])
      ensures Trusted(flash, p) ==> ram == old(ram) || exists k :: RamAfter(flash, TableOf(flash, p).segs, k, old(ram), ram)
      ensures entry == if Bootable(flash, p, engine) then U32At(flash.bytes, p + 4) else 0
      ensures Bootable(flash, p, engine) ==>
        && LoadedAll(flash, TableOf(flash, p).segs, old(ram), ram, mmu[..])
        && LoadedRight(flash, TableOf(flash, p).segs, old(ram), ram, mmu[..])
      ensures !Bootable(flash, p, engine) ==> mmu[..] == old(mmu[..])
    {
      var table := Inspect(p, engine);
      if table.BadTable? {
        NotBootable(flash, p, engine);
        return 0;
      }
      IsBootable(flash, p, engine, table);
      ghost var before := ram;
      var ok, maps := LoadRam(table.segs);
      if !ok {
        return 0;
      }
      assert RamAfter(flash, table.segs, |table.segs|, before, ram);
      MapFlash(maps);
      LoadedMeans(flash, p, before, ram, mmu[..]);
      return U32At(flash.bytes, p + 4);
    }
  }

  /** The body and its digest can be read and the engine works. */
  predicate DigestReadable(f: Flash, p: nat, body: nat, engine: bool)
  {
    f.Readable(p + body, HASH_LEN) && engine && ChunksReadable(f, p, body)
  }

  /** The accumulating comparison of two digests. */
  method SameBytes(a: seq<bv8>, b: seq<bv8>) returns (same: bool)
    requires |a| == |b|
    ensures same <==> a == b
  {
    var diff: bv8 := 0;
    for i := 0 to |a|
      invariant diff == 0 <==> a[..i] == b[..i]
    {
      AnyBit(diff, a[i], b[i]);
      assert a[..i + 1] == a[..i] + [a[i]] && b[..i + 1] == b[..i] + [b[i]];
      diff := diff | (a[i] ^ b[i]);
    }
    assert a[..|a|] == a && b[..|b|] == b;
    same := diff == 0;
  }

  /** All RAM segments loaded, and all flash segments mapped over an empty table. */
  ghost predicate LoadedAll(f: Flash, segs: seq<Seg>, before: map<nat, bv8>, after: map<nat, bv8>, mmu: seq<nat>)
  {
    && RamAfter(f, segs, |segs|, before, after)
    && var maps := FlashSegs(segs, |segs|);
       mmu == MappedAll(seq(ENTRIES, _ => 0), maps, |maps|)
  }

  /** Byte a of segment j is in RAM, unless a later segment lies over it. */
  ghost predicate Arrived(f: Flash, segs: seq<Seg>, after: map<nat, bv8>, j: nat, a: nat)
    requires j < |segs|
  {
    Covers(segs[j], a) && (forall i :: j < i < |segs| ==> !Covers(segs[i], a)) ==>
      a in after && segs[j].data + (a - segs[j].load) < |f.bytes| && after[a] == f.bytes[segs[j].data + (a - segs[j].load)]
  }

  predicate GoesToFlash(s: Seg) { 0x4200_0000 <= s.load < 0x4400_0000 }

  /** What an image that was loaded can rely on: nothing outside the windows has changed, every byte of a RAM segment is
      in RAM, and every byte of a flash segment whose pages can be mapped is found. */
  ghost predicate LoadedRight(f: Flash, segs: seq<Seg>, before: map<nat, bv8>, after: map<nat, bv8>, mmu: seq<nat>)
  {
    && |mmu| == ENTRIES
    && (forall a: nat :: !IsRam(a) ==> SameAt(after, before, a))
    && (forall j: nat, a: nat :: j < |segs| ==> Arrived(f, segs, after, j, a))
    && var maps := FlashSegs(segs, |segs|);
       DistinctEntries(maps) ==> forall i :: 0 <= i < |segs| && GoesToFlash(segs[i]) && Mappable(segs[i]) ==> AllFound(mmu, segs[i])
  }

  lemma {:induction false} FlashSegsHave(segs: seq<Seg>, k: nat, i: nat)
    requires i < k <= |segs| && GoesToFlash(segs[i])
    ensures segs[i] in FlashSegs(segs, k)
  {
    if i < k - 1 {
      FlashSegsHave(segs, k - 1, i);
    }
  }

  lemma FlashIsFound(segs: seq<Seg>, mmu: seq<nat>, i: nat)
    requires i < |segs| && GoesToFlash(segs[i]) && Mappable(segs[i]) && DistinctEntries(FlashSegs(segs, |segs|))
    requires var maps := FlashSegs(segs, |segs|); mmu == MappedAll(seq(ENTRIES, _ => 0), maps, |maps|)
    ensures |mmu| == ENTRIES && AllFound(mmu, segs[i])
  {
    var maps := FlashSegs(segs, |segs|);
    FlashSegsHave(segs, |segs|, i);
    var k :| 0 <= k < |maps| && maps[k] == segs[i];
    SegmentIsMapped(seq(ENTRIES, _ => 0), maps, k);
  }

  lemma BytesArrive(f: Flash, segs: seq<Seg>, before: map<nat, bv8>, after: map<nat, bv8>, j: nat, a: nat)
    requires j < |segs| && RamAfter(f, segs, |segs|, before, after)
    ensures Arrived(f, segs, after, j, a)
  {
    if Covers(segs[j], a) && forall i :: j < i < |segs| ==> !Covers(segs[i], a) {
      SegmentArrives(f, segs, |segs|, before, j, a);
    }
  }

  lemma LoadedMeans(f: Flash, p: nat, before: map<nat, bv8>, after: map<nat, bv8>, mmu: seq<nat>)
    requires |f.bytes| <= 0x8000_0000 && p < U32 && Trusted(f, p)
    requires LoadedAll(f, TableOf(f, p).segs, before, after, mmu)
    ensures LoadedRight(f, TableOf(f, p).segs, before, after, mmu)
  {
    var segs := TableOf(f, p).segs;
    SegmentsChecked(f, p);
    forall a: nat | !IsRam(a) ensures SameAt(after, before, a) {
      WindowsOnly(f, segs, |segs|, before, a);
    }
    forall j: nat, a: nat | j < |segs| ensures Arrived(f, segs, after, j, a) {
      BytesArrive(f, segs, before, after, j, a);
    }
    if DistinctEntries(FlashSegs(segs, |segs|)) {
      forall i | 0 <= i < |segs| && GoesToFlash(segs[i]) && Mappable(segs[i]) ensures AllFound(mmu, segs[i]) {
        FlashIsFound(segs, mmu, i);
      }
    }
  }

  lemma SegmentsChecked(f: Flash, p: nat)
    requires |f.bytes| <= 0x8000_0000 && p < U32 && Trusted(f, p)
    ensures forall i :: 0 <= i < |TableOf(f, p).segs| ==> SegChecked(TableOf(f, p).segs[i])
  {
    WalkChecks(f, p + HEADER_LEN, OfByte(f.bytes[p + 1]));
  }

  /** A table is given out for exactly a trusted image whose digest, if it has one, can be read and the engine works. */
  predicate Inspected(f: Flash, p: nat, engine: bool, table: Table)
    requires |f.bytes| <= 0x8000_0000
  {
    if HeaderOk(f, p) then TableInspected(f, p, engine, TableOf(f, p), table) else table.BadTable?
  }

  predicate TableInspected(f: Flash, p: nat, engine: bool, whole: Table, table: Table)
    requires HeaderOk(f, p)
  {
    if TableTrusted(f, p, whole) && DigestCanBeRead(f, p, whole, engine)
    then table.Table? && table == whole && |table.segs| <= MAX_SEGMENTS
    else table.BadTable?
  }

  predicate DigestCanBeRead(f: Flash, p: nat, whole: Table, engine: bool)
    requires HeaderOk(f, p) && whole.Table? && p <= whole.end
  {
    HashAppended(f, p) ==> DigestReadable(f, p, BodyLength(whole.end - p), engine)
  }

  /** The image is trusted, its digest, if it has one, can be checked, and every RAM segment can be read. */
  predicate Bootable(f: Flash, p: nat, engine: bool)
    requires |f.bytes| <= 0x8000_0000
  {
    && Trusted(f, p) && DigestCanBeRead(f, p, TableOf(f, p), engine)
    && RamReadable(f, TableOf(f, p).segs)
  }

  predicate RamReadable(f: Flash, segs: seq<Seg>)
  {
    forall i :: 0 <= i < |segs| && IsRam(segs[i].load) ==> f.Readable(segs[i].data, segs[i].len)
  }

  /** An image as the flash spells it out: magic and count, that many segments from byte 24 on, those for RAM readable, and
      behind a body rounded up to sixteen, if one is announced, a digest that can be checked and matches. */
  predicate SoundImage(f: Flash, p: nat, engine: bool, segs: seq<Seg>, end: nat)
  {
    && p !in f.bad && p + 24 <= |f.bytes| && OfByte(f.bytes[p]) == 0xE9 && OfByte(f.bytes[p + 1]) <= 16
    && Spelled(f, segs, p + 24, OfByte(f.bytes[p + 1]), end) && p <= end
    && (f.bytes[p + 23] != 0 ==>
          var body := BodyLength(end - p); DigestMatches(f, p, body) && DigestReadable(f, p, body, engine))
    && RamReadable(f, segs)
  }

  lemma SoundTable(f: Flash, p: nat, engine: bool, segs: seq<Seg>, end: nat)
    requires |f.bytes| <= 0x8000_0000 && p < U32 && SoundImage(f, p, engine, segs, end)
    ensures HeaderOk(f, p) && TableOf(f, p) == Table(segs, end)
  {
    WalkExactly(f, p + 24, OfByte(f.bytes[p + 1]), segs, end);
  }

  /** The conditions that do not concern the table. */
  lemma SoundAround(f: Flash, p: nat, engine: bool, segs: seq<Seg>, end: nat)
    requires HeaderOk(f, p) && Spelled(f, segs, p + 24, OfByte(f.bytes[p + 1]), end)
    ensures SoundImage(f, p, engine, segs, end) <==>
      TableTrusted(f, p, Table(segs, end)) && DigestCanBeRead(f, p, Table(segs, end), engine) && RamReadable(f, segs)
  {
  }

  lemma TableSpelled(f: Flash, p: nat)
    requires |f.bytes| <= 0x8000_0000 && p < U32 && HeaderOk(f, p) && TableOf(f, p).Table?
    ensures Spelled(f, TableOf(f, p).segs, p + 24, OfByte(f.bytes[p + 1]), TableOf(f, p).end)
  {
    WalkExactly(f, p + 24, OfByte(f.bytes[p + 1]), TableOf(f, p).segs, TableOf(f, p).end);
  }

  lemma SoundBoots(f: Flash, p: nat, engine: bool, segs: seq<Seg>, end: nat)
    requires |f.bytes| <= 0x8000_0000 && p < U32 && SoundImage(f, p, engine, segs, end)
    ensures Bootable(f, p, engine)
  {
    SoundTable(f, p, engine, segs, end);
    SoundAround(f, p, engine, segs, end);
  }

  lemma BootableIsSound(f: Flash, p: nat, engine: bool)
    requires |f.bytes| <= 0x8000_0000 && p < U32 && Bootable(f, p, engine)
    ensures TableOf(f, p).Table? && SoundImage(f, p, engine, TableOf(f, p).segs, TableOf(f, p).end)
  {
    TableSpelled(f, p);
    SoundAround(f, p, engine, TableOf(f, p).segs, TableOf(f, p).end);
  }

  /** An image boots if and only if the flash spells out a sound one. */
  lemma BootableExactly(f: Flash, p: nat, engine: bool)
    requires |f.bytes| <= 0x8000_0000 && p < U32
    ensures Bootable(f, p, engine) <==> exists segs, end :: SoundImage(f, p, engine, segs, end)
  {
    forall segs, end | SoundImage(f, p, engine, segs, end) ensures Bootable(f, p, engine) {
      SoundBoots(f, p, engine, segs, end);
    }
    if Bootable(f, p, engine) {
      BootableIsSound(f, p, engine);
    }
  }

  lemma NoHeader(f: Flash, p: nat, engine: bool)
    requires |f.bytes| <= 0x8000_0000 && !HeaderOk(f, p)
    ensures Inspected(f, p, engine, BadTable)
  {
  }

  lemma NoTable(f: Flash, p: nat, engine: bool)
    requires |f.bytes| <= 0x8000_0000 && HeaderOk(f, p) && TableOf(f, p).BadTable?
    ensures Inspected(f, p, engine, BadTable)
  {
  }

  lemma NotBootable(f: Flash, p: nat, engine: bool)
    requires |f.bytes| <= 0x8000_0000 && Inspected(f, p, engine, BadTable)
    ensures !Bootable(f, p, engine)
  {
  }

  lemma IsBootable(f: Flash, p: nat, engine: bool, table: Table)
    requires |f.bytes| <= 0x8000_0000 && Inspected(f, p, engine, table) && table.Table?
    ensures Trusted(f, p) && table == TableOf(f, p) && |table.segs| <= MAX_SEGMENTS
    ensures Bootable(f, p, engine) <==> RamReadable(f, table.segs)
  {
  }

  lemma Accepted(f: Flash, p: nat, table: Table, engine: bool)
    requires HeaderOk(f, p) && table.Table? && p <= table.end && |table.segs| <= MAX_SEGMENTS
    requires f.bytes[p + 23] != 0 ==>
      DigestReadable(f, p, BodyLength(table.end - p), engine) && DigestMatches(f, p, BodyLength(table.end - p))
    ensures TableInspected(f, p, engine, table, table)
  {
  }

  lemma NoDigest(f: Flash, p: nat, table: Table, engine: bool)
    requires HeaderOk(f, p) && table.Table? && p <= table.end && f.bytes[p + 23] != 0
    requires var body := BodyLength(table.end - p); !(DigestReadable(f, p, body, engine) && DigestMatches(f, p, body))
    ensures TableInspected(f, p, engine, table, BadTable)
  {
  }

  lemma TableIs(f: Flash, p: nat, count: nat, table: Table)
    requires |f.bytes| <= 0x8000_0000 && HeaderOk(f, p) && p < U32
    requires count == OfByte(f.bytes[p + 1]) && table == Walk(f, p + HEADER_LEN, count)
    ensures table == TableOf(f, p)
    ensures table.Table? ==> |table.segs| <= MAX_SEGMENTS && p <= table.end < U32
  {
    if table.Table? {
      WalkChecks(f, p + HEADER_LEN, count);
    }
  }

  /** RAM holds what loading the first k segments leaves. */
  ghost predicate RamAfter(f: Flash, segs: seq<Seg>, k: nat, before: map<nat, bv8>, after: map<nat, bv8>)
  {
    && k <= |segs| && (forall i :: 0 <= i < k && IsRam(segs[i].load) ==> f.Readable(segs[i].data, segs[i].len))
    && after == LoadedRam(f, segs, k, before)
  }

  lemma AnyBit(diff: bv8, a: bv8, b: bv8)
    ensures diff | (a ^ b) == 0 <==> diff == 0 && a == b
  {
  }

  function Prefixed(segs: seq<Seg>, t: Table): Table
  {
    match t
    case BadTable => BadTable
    case Table(rest, end) => Table(segs + rest, end)
  }

  lemma NothingBefore(t: Table)
    ensures Prefixed([], t) == t
  {
    if t.Table? {
      assert [] + t.segs == t.segs;
    }
  }

  lemma PrefixGrows(segs: seq<Seg>, s: Seg, t: Table)
    ensures Prefixed(segs, Prefixed([s], t)) == Prefixed(segs + [s], t)
  {
    if t.Table? {
      assert segs + ([s] + t.segs) == segs + [s] + t.segs;
    }
  }

  /** The first pass over `count` headers from `at` has found `segs` and has `left` headers from `off` to go. */
  predicate Continues(f: Flash, at: nat, count: nat, segs: seq<Seg>, off: nat, left: nat)
    requires |f.bytes| <= 0x8000_0000 && at < U32 && off < U32
  {
    Walk(f, at, count) == Prefixed(segs, Walk(f, off, left)) && (left == 0 ==> Walk(f, at, count) == Table(segs, off))
  }

  /** A segment header the first pass accepts. */
  predicate HeadOk(f: Flash, off: nat)
  {
    f.Readable(off, SEG_HEADER_LEN) && SegOk(U32At(f.bytes, off), U32At(f.bytes, off + 4))
  }

  lemma StartsWalk(f: Flash, at: nat, count: nat)
    requires |f.bytes| <= 0x8000_0000 && at < U32
    ensures Continues(f, at, count, [], at, count)
  {
    NothingBefore(Walk(f, at, count));
  }

  lemma StopsWalk(f: Flash, at: nat, count: nat, segs: seq<Seg>, off: nat, left: nat)
    requires |f.bytes| <= 0x8000_0000 && at < U32 && off < U32 && Continues(f, at, count, segs, off, left) && left > 0
    requires !HeadOk(f, off)
    ensures Walk(f, at, count) == BadTable
  {
    assert Walk(f, off, left) == BadTable;
  }

  lemma StepsOn(f: Flash, at: nat, count: nat, segs: seq<Seg>, off: nat, left: nat, load: nat, len: nat)
    requires |f.bytes| <= 0x8000_0000 && at < U32 && off < U32 && Continues(f, at, count, segs, off, left) && left > 0
    requires HeadOk(f, off) && load == U32At(f.bytes, off) && len == U32At(f.bytes, off + 4)
    ensures var data := off + SEG_HEADER_LEN;
      data + len < U32 && Continues(f, at, count, segs + [Seg(load, len, data)], data + len, left - 1)
  {
    var data := off + SEG_HEADER_LEN;
    var s, rest := Seg(load, len, data), Walk(f, data + len, left - 1);
    assert Walk(f, off, left) == Prefixed([s], rest);
    PrefixGrows(segs, s, rest);
    if left == 1 {
      assert segs + [s] + [] == segs + [s];
    }
  }

  // ---- The fail counter ----

  const FAIL_MAX: nat := 3
  const FAIL_MAGIC: nat := 0xBF

  /** The count in the retained register, which holds anything after a power cycle. */
  function FailCount(reg: nat): nat
    requires reg < U32
  {
    if reg / 0x100_0000 != FAIL_MAGIC then 0 else reg % 256
  }

  function FailReg(count: nat): (reg: nat)
    ensures reg < U32
  {
    FAIL_MAGIC * 0x100_0000 + count % 256
  }

  /** One boot: does it stop before loading, and what it leaves in the register. */
  datatype Boot = Boot(stops: bool, reg: nat)

  function BootOnce(reg: nat): (b: Boot)
    requires reg < U32
    ensures b.reg < U32
  {
    if FailCount(reg) >= FAIL_MAX then Boot(true, 0) else Boot(false, FailReg(FailCount(reg) + 1))
  }

  /** The register before boot n, when no application stays up long enough to clear it. */
  function RegBefore(reg: nat, n: nat): (r: nat)
    requires reg < U32
    ensures r < U32
  {
    if n == 0 then reg else BootOnce(RegBefore(reg, n - 1)).reg
  }

  lemma CountIsKept(c: nat)
    requires c < 256
    ensures FailCount(FailReg(c)) == c
  {
  }

  /** A boot counts up by one, or stops. */
  lemma CountsUp(reg: nat)
    requires reg < U32
    ensures BootOnce(reg).stops <==> reg / 0x100_0000 == 0xBF && reg % 256 >= 3
    ensures FailCount(BootOnce(reg).reg) == if BootOnce(reg).stops then 0 else FailCount(reg) + 1
  {
    if FailCount(reg) < FAIL_MAX {
      CountIsKept(FailCount(reg) + 1);
    }
  }

  /** Whatever the register held, the loader stops within four boots; from a count of zero, at the fourth and not before. */
  lemma StopsWithinFour(reg: nat)
    requires reg < U32
    ensures exists n :: 0 <= n < 4 && BootOnce(RegBefore(reg, n)).stops
    ensures FailCount(reg) == 0 ==>
      BootOnce(RegBefore(reg, 3)).stops && forall n :: 0 <= n < 3 ==> !BootOnce(RegBefore(reg, n)).stops
  {
    CountsUp(RegBefore(reg, 0));
    CountsUp(RegBefore(reg, 1));
    CountsUp(RegBefore(reg, 2));
    CountsUp(RegBefore(reg, 3));
  }
}

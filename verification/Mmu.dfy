/** vm/mmu.c: up to four address ranges, each backed by a buffer of words.

    A region holds the contents of its buffer; two regions never share one. */
module Mmu {
  import opened Arith
  import opened Errors
  import opened Ternary

  const MAX_REGIONS: nat := 4

  datatype Kind = Private | Shared

  datatype Region = Region(base: nat, kind: Kind, words: seq<Word>) {
    predicate Contains(a: nat) { base <= a < base + |words| }

    ghost predicate InRange() { base + |words| < U32 }
  }

  ghost predicate Apart(r: Region, q: Region)
  {
    r.base + |r.words| <= q.base || q.base + |q.words| <= r.base
  }

  ghost predicate WellFormed(rs: seq<Region>)
  {
    && |rs| <= MAX_REGIONS
    && (forall i :: 0 <= i < |rs| ==> rs[i].InRange())
    && (forall i, j :: 0 <= i < j < |rs| ==> Apart(rs[i], rs[j]))
  }

  /** Index of the first region that contains an address, or |rs|. */
  function Find(rs: seq<Region>, a: nat): (k: nat)
    ensures k <= |rs|
    ensures k < |rs| ==> rs[k].Contains(a)
    ensures forall i :: 0 <= i < k ==> !rs[i].Contains(a)
  {
    if rs == [] then 0 else if rs[0].Contains(a) then 0 else 1 + Find(rs[1..], a)
  }

  predicate Mapped(rs: seq<Region>, a: nat)
  {
    Find(rs, a) < |rs|
  }

  function At(rs: seq<Region>, a: nat): Option<Word>
  {
    var k := Find(rs, a);
    if k < |rs| then Some(rs[k].words[a - rs[k].base]) else None
  }

  function Set(rs: seq<Region>, a: nat, w: Word): seq<Region>
    requires Mapped(rs, a)
  {
    var k := Find(rs, a);
    rs[k := rs[k].(words := rs[k].words[a - rs[k].base := w])]
  }

  ghost predicate SameLayout(rs: seq<Region>, qs: seq<Region>)
  {
    && |rs| == |qs|
    && forall i :: 0 <= i < |rs| ==> SameShape(rs[i], qs[i])
  }

  ghost predicate SameShape(r: Region, q: Region)
  {
    r.base == q.base && r.kind == q.kind && |r.words| == |q.words|
  }

  lemma FindUnique(rs: seq<Region>, a: nat, k: nat)
    requires k < |rs| && rs[k].Contains(a) && forall i :: 0 <= i < k ==> !rs[i].Contains(a)
    ensures Find(rs, a) == k
  {
  }

  lemma SameFind(rs: seq<Region>, qs: seq<Region>, a: nat)
    requires SameLayout(rs, qs)
    ensures Find(rs, a) == Find(qs, a)
  {
    var k := Find(qs, a);
    forall i | 0 <= i < |rs| ensures rs[i].Contains(a) == qs[i].Contains(a) {
      assert SameShape(rs[i], qs[i]);
    }
  }

  /** A write is read back, and no other address changes. */
  lemma SetGet(rs: seq<Region>, a: nat, w: Word, b: nat)
    requires Mapped(rs, a)
    ensures SameLayout(rs, Set(rs, a, w))
    ensures At(Set(rs, a, w), b) == if b == a then Some(w) else At(rs, b)
  {
    SameFind(rs, Set(rs, a, w), b);
  }

  lemma SetKeeps(rs: seq<Region>, a: nat, w: Word)
    requires WellFormed(rs) && Mapped(rs, a)
    ensures WellFormed(Set(rs, a, w))
  {
    var qs := Set(rs, a, w);
    forall i | 0 <= i < |rs| ensures SameShape(rs[i], qs[i]) {
    }
  }

  /** With regions apart, the words at all addresses are the whole memory. */
  lemma SameWords(rs: seq<Region>, qs: seq<Region>)
    requires WellFormed(rs) && SameLayout(rs, qs)
    requires forall a :: At(rs, a) == At(qs, a)
    ensures rs == qs
  {
    forall i | 0 <= i < |rs| ensures rs[i] == qs[i] {
      assert SameShape(rs[i], qs[i]);
      forall o | 0 <= o < |rs[i].words| ensures rs[i].words[o] == qs[i].words[o] {
        var a := rs[i].base + o;
        Translates(rs, a, i);
        SameFind(rs, qs, a);
        assert At(rs, a) == At(qs, a);
      }
    }
  }

  /** Only one region contains an address. */
  lemma Translates(rs: seq<Region>, a: nat, k: nat)
    requires WellFormed(rs) && k < |rs| && rs[k].Contains(a)
    ensures Find(rs, a) == k
  {
    forall i | 0 <= i < k ensures !rs[i].Contains(a) {
      assert Apart(rs[i], rs[k]);
    }
    FindUnique(rs, a, k);
  }

  class Mmu {
    var regions: seq<Region>

    ghost predicate Valid()
      reads this
    {
      WellFormed(regions)
    }

    constructor ()
      ensures Valid() && regions == []
    {
      regions := [];
    }

    method Init()
      modifies this
      ensures Valid() && regions == []
    {
      regions := [];
    }

    method AddRegion(buffer: Option<seq<Word>>, kind: Kind, base: nat) returns (err: Err)
      requires Valid() && base < U32 && (buffer.Some? ==> |buffer.value| < U32)
      modifies this
      ensures Valid()
      ensures err == if buffer.None? then InvalidArg
                     else if |old(regions)| == MAX_REGIONS then NoMem
                     else if base + |buffer.value| >= U32 then InvalidSize
                     else if exists i :: 0 <= i < |old(regions)| && !Apart(Region(base, kind, buffer.value), old(regions)[i])
                       then InvalidState
                     else Ok
      ensures regions == if err == Ok then old(regions) + [Region(base, kind, buffer.value)] else old(regions)
    {
      if buffer.None? {
        return InvalidArg;
      }
      var length := |buffer.value|;
      if |regions| >= MAX_REGIONS {
        return NoMem;
      }
      if USub(0xFFFF_FFFF, base) < length {
        return InvalidSize;
      }
      var start, end := base, UAdd(base, length);
      ghost var added := Region(base, kind, buffer.value);
      for i := 0 to |regions|
        invariant forall j :: 0 <= j < i ==> Apart(added, regions[j])
      {
        assert regions[i].InRange();
        var existingStart := regions[i].base;
        var existingEnd := UAdd(existingStart, |regions[i].words|);
        if start < existingEnd && end > existingStart {
          assert !Apart(added, regions[i]);
          return InvalidState;
        }
      }
      regions := regions + [Region(base, kind, buffer.value)];
      return Ok;
    }

    method Translate(a: nat) returns (err: Err, region: nat, offset: nat)
      requires Valid() && a < U32
      ensures err == if exists i :: 0 <= i < |regions| && regions[i].Contains(a) then Ok else NotFound
      ensures err == Ok ==>
        && region < |regions| && a == regions[region].base + offset && offset < |regions[region].words|
        && (forall i :: 0 <= i < |regions| && regions[i].Contains(a) ==> i == region)
        && region == Find(regions, a)
    {
      for i := 0 to |regions|
        invariant forall j :: 0 <= j < i ==> !regions[j].Contains(a)
      {
        assert regions[i].InRange();
        var r := regions[i];
        if a >= r.base && a < UAdd(r.base, |r.words|) {
          assert r.Contains(a);
          forall j | i < j < |regions| ensures !regions[j].Contains(a) {
            assert Apart(r, regions[j]);
          }
          FindUnique(regions, a, i);
          return Ok, i, USub(a, r.base);
        }
      }
      return NotFound, 0, 0;
    }

    /** reflex_vm_mem_get_raw of vm/interpreter.c. */
    method GetRaw(a: nat) returns (err: Err, w: Word)
      requires Valid() && a < U32
      ensures err == if At(regions, a).Some? then Ok else NotFound
      ensures err == Ok ==> At(regions, a) == Some(w)
    {
      var region, offset;
      err, region, offset := Translate(a);
      w := if err == Ok then regions[region].words[offset] else ZERO;
    }

    /** reflex_vm_mem_set_raw of vm/interpreter.c. */
    method SetRaw(a: nat, w: Word) returns (err: Err)
      requires Valid() && a < U32
      modifies this
      ensures Valid()
      ensures err == if Mapped(old(regions), a) then Ok else NotFound
      ensures regions == if err == Ok then Set(old(regions), a, w) else old(regions)
    {
      var region, offset;
      err, region, offset := Translate(a);
      if err != Ok {
        return;
      }
      SetKeeps(regions, a, w);
      regions := regions[region := regions[region].(words := regions[region].words[offset := w])];
    }
  }
}

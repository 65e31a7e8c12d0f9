/** vm/cache.c: a direct-mapped write-back cache of single words in front of the MMU.

    The number of sets is the length of `lines`; nothing here depends on its value. */
module Cache {
  import opened Arith
  import opened Errors
  import opened Mmu
  import opened Ternary

  datatype LineState = I | E | M

  datatype Line = Line(tag: nat, state: LineState, value: Word)

  /** Cache lines over memory: what one cache operation reads and writes. */
  datatype Tier = Tier(lines: seq<Line>, regions: seq<Region>) {

    ghost predicate Valid()
    {
      |lines| > 0 && WellFormed(regions) && forall i :: 0 <= i < |lines| ==> lines[i].tag < U32
    }

    function LineOf(a: nat): Line
      requires |lines| > 0
    {
      lines[a % |lines|]
    }

    function WithLine(a: nat, l: Line): Tier
      requires |lines| > 0
    {
      Tier(lines[a % |lines| := l], regions)
    }
  }

  /** The word found, or None where the source returns NotFound. */
  datatype Got = Got(word: Option<Word>, tier: Tier)
  datatype Done = Done(err: Err, tier: Tier)

  /** Memory with a dirty line written back, unless its tag is not mapped. */
  function WriteBack(regions: seq<Region>, l: Line): Option<seq<Region>>
  {
    if l.state != M then Some(regions) else if Mapped(regions, l.tag) then Some(Set(regions, l.tag, l.value)) else None
  }

  function Fill(t: Tier, a: nat): Got
    requires |t.lines| > 0
  {
    match At(t.regions, a)
    case None => Got(None, t)
    case Some(w) => Got(Some(w), t.WithLine(a, Line(a, E, w)))
  }

  function Load(t: Tier, a: nat): Got
    requires |t.lines| > 0
  {
    var l := t.LineOf(a);
    if l.state != I && l.tag == a then Got(Some(l.value), t)
    else
      match WriteBack(t.regions, l)
      case None => Got(None, t)
      case Some(regions) => Fill(Tier(t.lines, regions), a)
  }

  function Store(t: Tier, a: nat, w: Word): Done
    requires |t.lines| > 0
  {
    var l := t.LineOf(a);
    match (if l.tag == a then Some(t.regions) else WriteBack(t.regions, l))
    case None => Done(NotFound, t)
    case Some(regions) => Done(Ok, Tier(t.lines, regions).WithLine(a, Line(a, M, w)))
  }

  function Flush(t: Tier, a: nat): Done
    requires |t.lines| > 0
  {
    var l := t.LineOf(a);
    if l.state != M || l.tag != a then Done(Ok, t)
    else
      match WriteBack(t.regions, l)
      case None => Done(NotFound, t)
      case Some(regions) => Done(Ok, Tier(t.lines, regions).WithLine(a, l.(state := E)))
  }

  function Invalidate(t: Tier, a: nat): Tier
    requires |t.lines| > 0
  {
    var l := t.LineOf(a);
    if l.tag == a then t.WithLine(a, l.(state := I)) else t
  }

  function FlushInvalidate(t: Tier, a: nat): Done
    requires |t.lines| > 0
  {
    var f := Flush(t, a);
    if f.err != Ok then f else Done(Ok, Invalidate(f.tier, a))
  }

  /** Write back sets i and up, stopping at the first that fails. */
  function FlushFrom(t: Tier, i: nat): Done
    requires i <= |t.lines|
    decreases |t.lines| - i
  {
    if i == |t.lines| then Done(Ok, t)
    else
      match WriteBack(t.regions, t.lines[i])
      case None => Done(NotFound, t)
      case Some(regions) => FlushFrom(Tier(t.lines[i := Cleaned(t.lines[i])], regions), i + 1)
  }

  function Cleaned(l: Line): Line { if l.state == M then l.(state := E) else l }

  function FlushAll(t: Tier): Done { FlushFrom(t, 0) }

  /** A write by the host, straight to memory; the cached copy is dropped, dirty or not. */
  function HostWrite(t: Tier, a: nat, w: Word): Done
    requires |t.lines| > 0
  {
    if !Mapped(t.regions, a) then Done(NotFound, t)
    else Done(Ok, Invalidate(Tier(t.lines, Set(t.regions, a, w)), a))
  }

  // ---- What the cache stands for ----

  /** What a program sees at an address: a dirty line hides memory. */
  function View(t: Tier, a: nat): Option<Word>
    requires |t.lines| > 0
  {
    var l := t.LineOf(a);
    if l.state == M && l.tag == a then Some(l.value) else At(t.regions, a)
  }

  /** A line in use sits in its own set, a clean one agrees with memory, a dirty one can be written back. */
  ghost predicate LineOk(t: Tier, i: nat)
    requires i < |t.lines|
  {
    var l := t.lines[i];
    && (l.state != I ==> l.tag % |t.lines| == i)
    && (l.state == E ==> At(t.regions, l.tag) == Some(l.value))
    && (l.state == M ==> Mapped(t.regions, l.tag))
  }

  ghost predicate Coherent(t: Tier)
  {
    && t.Valid()
    && forall i :: 0 <= i < |t.lines| ==> LineOk(t, i)
  }

  /** The cache stands for the plain memory `plain`. */
  ghost predicate StandsFor(t: Tier, plain: seq<Region>)
  {
    && Coherent(t) && SameLayout(t.regions, plain)
    && forall a: nat :: At(plain, a) == View(t, a)
  }

  lemma EmptyCache(t: Tier)
    requires t.Valid() && forall i :: 0 <= i < |t.lines| ==> t.lines[i].state == I
    ensures StandsFor(t, t.regions)
  {
  }

  lemma SameLayoutMapped(rs: seq<Region>, qs: seq<Region>)
    requires SameLayout(rs, qs)
    ensures forall a: nat :: Mapped(rs, a) == Mapped(qs, a)
  {
    forall a: nat ensures Mapped(rs, a) == Mapped(qs, a) {
      SameFind(rs, qs, a);
    }
  }

  lemma WriteBackFacts(t: Tier, i: nat, t': Tier)
    requires Coherent(t) && i < |t.lines|
    requires WriteBack(t.regions, t.lines[i]) == Some(t'.regions) && t'.lines == t.lines
    ensures WellFormed(t'.regions) && SameLayout(t.regions, t'.regions)
    ensures forall a: nat :: View(t', a) == View(t, a)
    ensures At(t'.regions, t.lines[i].tag) == if t.lines[i].state == M then Some(t.lines[i].value) else At(t.regions, t.lines[i].tag)
    ensures forall j :: 0 <= j < |t.lines| && j != i && t.lines[j].state != I ==>
      At(t'.regions, t.lines[j].tag) == At(t.regions, t.lines[j].tag)
    ensures forall a: nat :: Mapped(t'.regions, a) == Mapped(t.regions, a)
  {
    var l := t.lines[i];
    assert LineOk(t, i);
    if l.state == M {
      SetKeeps(t.regions, l.tag, l.value);
      forall a: nat
        ensures At(t'.regions, a) == (if a == l.tag then Some(l.value) else At(t.regions, a)) {
        SetGet(t.regions, l.tag, l.value, a);
      }
      SetGet(t.regions, l.tag, l.value, 0);
      forall j | 0 <= j < |t.lines| && j != i && t.lines[j].state != I ensures t.lines[j].tag != l.tag {
        assert LineOk(t, j);
      }
      forall a: nat ensures View(t', a) == View(t, a) {
      }
    }
    forall a: nat ensures Mapped(t'.regions, a) == Mapped(t.regions, a) {
      SameFind(t.regions, t'.regions, a);
    }
  }

  /** Replacing line i, once it is clean, by a line that agrees with memory. */
  lemma Replaced(t: Tier, i: nat, l: Line, plain: seq<Region>)
    requires t.Valid() && SameLayout(t.regions, plain) && i < |t.lines|
    requires forall j :: 0 <= j < |t.lines| && j != i ==> LineOk(t, j)
    requires forall a: nat :: a % |t.lines| != i ==> At(plain, a) == View(t, a)
    requires l.tag < U32 && LineOk(Tier(t.lines[i := l], t.regions), i)
    requires forall a: nat :: a % |t.lines| == i ==>
      At(plain, a) == if l.state == M && l.tag == a then Some(l.value) else At(t.regions, a)
    ensures StandsFor(Tier(t.lines[i := l], t.regions), plain)
  {
    var u := Tier(t.lines[i := l], t.regions);
    forall j | 0 <= j < |u.lines| ensures LineOk(u, j) {
      assert j != i ==> LineOk(t, j);
    }
    forall a: nat ensures At(plain, a) == View(u, a) {
    }
  }

  /** Writing line i back leaves memory right at every address of set i. */
  lemma WrittenBack(t: Tier, i: nat, t': Tier, plain: seq<Region>)
    requires StandsFor(t, plain) && i < |t.lines|
    requires WriteBack(t.regions, t.lines[i]) == Some(t'.regions) && t'.lines == t.lines
    ensures t'.Valid() && SameLayout(t'.regions, plain)
    ensures forall j :: 0 <= j < |t.lines| && j != i ==> LineOk(t', j)
    ensures forall a: nat :: At(plain, a) == View(t', a)
    ensures forall a: nat :: a % |t.lines| == i ==> At(plain, a) == At(t'.regions, a)
  {
    WriteBackFacts(t, i, t');
    assert LineOk(t, i);
    forall j | 0 <= j < |t.lines| && j != i ensures LineOk(t', j) {
      assert LineOk(t, j);
    }
  }

  lemma CanWriteBack(t: Tier, i: nat)
    requires Coherent(t) && i < |t.lines|
    ensures WriteBack(t.regions, t.lines[i]).Some?
  {
    assert LineOk(t, i);
  }

  lemma LoadRefines(t: Tier, a: nat, plain: seq<Region>)
    requires StandsFor(t, plain) && a < U32
    ensures Load(t, a).word == At(plain, a) && StandsFor(Load(t, a).tier, plain)
  {
    var i := a % |t.lines|;
    var l := t.lines[i];
    assert LineOk(t, i);
    if !(l.state != I && l.tag == a) {
      CanWriteBack(t, i);
      var t' := Tier(t.lines, WriteBack(t.regions, l).value);
      WrittenBack(t, i, t', plain);
      if At(t'.regions, a).Some? {
        Replaced(t', i, Line(a, E, At(t'.regions, a).value), plain);
      } else {
        WriteBackFacts(t, i, t');
        assert LineOk(t', i);
      }
    }
  }

  lemma StoreRefines(t: Tier, a: nat, w: Word, plain: seq<Region>)
    requires StandsFor(t, plain) && a < U32 && Mapped(plain, a)
    ensures Store(t, a, w).err == Ok && StandsFor(Store(t, a, w).tier, Set(plain, a, w))
  {
    var i := a % |t.lines|;
    var l := t.lines[i];
    assert LineOk(t, i);
    forall b: nat ensures At(Set(plain, a, w), b) == if b == a then Some(w) else At(plain, b) {
      SetGet(plain, a, w, b);
    }
    SetGet(plain, a, w, a);
    if l.tag == a {
      StoreInPlace(t, a, w, plain);
    } else {
      CanWriteBack(t, i);
      var t' := Tier(t.lines, WriteBack(t.regions, l).value);
      WrittenBack(t, i, t', plain);
      SameLayoutMapped(t'.regions, plain);
      Replaced(t', i, Line(a, M, w), Set(plain, a, w));
    }
  }

  lemma StoreInPlace(t: Tier, a: nat, w: Word, plain: seq<Region>)
    requires StandsFor(t, plain) && a < U32 && Mapped(plain, a) && t.LineOf(a).tag == a
    ensures StandsFor(t.WithLine(a, Line(a, M, w)), Set(plain, a, w))
  {
    var i := a % |t.lines|;
    assert LineOk(t, i);
    forall b: nat ensures At(Set(plain, a, w), b) == if b == a then Some(w) else At(plain, b) {
      SetGet(plain, a, w, b);
    }
    SetGet(plain, a, w, a);
    SameLayoutMapped(t.regions, plain);
    Replaced(t, i, Line(a, M, w), Set(plain, a, w));
  }

  /** A store to an address no region holds is accepted by the cache; plain memory refuses it. */
  lemma StoreUnmapped(t: Tier, a: nat, w: Word, plain: seq<Region>)
    requires StandsFor(t, plain) && !Mapped(plain, a)
    ensures Store(t, a, w).err == Ok && !Coherent(Store(t, a, w).tier)
  {
    var i := a % |t.lines|;
    CanWriteBack(t, i);
    var t' := Tier(t.lines, WriteBack(t.regions, t.lines[i]).value);
    WrittenBack(t, i, t', plain);
    SameLayoutMapped(t'.regions, plain);
    SameLayoutMapped(t.regions, plain);
    var u := Store(t, a, w).tier;
    assert !LineOk(u, i);
  }

  lemma FlushRefines(t: Tier, a: nat, plain: seq<Region>)
    requires StandsFor(t, plain)
    ensures Flush(t, a).err == Ok && StandsFor(Flush(t, a).tier, plain)
    ensures Flush(t, a).tier.LineOf(a).state == M ==> Flush(t, a).tier.LineOf(a).tag != a
  {
    var i := a % |t.lines|;
    var l := t.lines[i];
    assert LineOk(t, i);
    if l.state == M && l.tag == a {
      CanWriteBack(t, i);
      var t' := Tier(t.lines, WriteBack(t.regions, l).value);
      WrittenBack(t, i, t', plain);
      WriteBackFacts(t, i, t');
      Replaced(t', i, l.(state := E), plain);
    }
  }

  /** Dropping a line that is not dirty. */
  lemma InvalidateRefines(t: Tier, a: nat, plain: seq<Region>)
    requires StandsFor(t, plain) && (t.LineOf(a).state == M ==> t.LineOf(a).tag != a)
    ensures StandsFor(Invalidate(t, a), plain)
  {
    var i := a % |t.lines|;
    assert LineOk(t, i);
    if t.lines[i].tag == a {
      Replaced(t, i, t.lines[i].(state := I), plain);
    }
  }

  lemma FlushInvalidateRefines(t: Tier, a: nat, plain: seq<Region>)
    requires StandsFor(t, plain)
    ensures FlushInvalidate(t, a).err == Ok && StandsFor(FlushInvalidate(t, a).tier, plain)
  {
    FlushRefines(t, a, plain);
    InvalidateRefines(Flush(t, a).tier, a, plain);
  }

  lemma SetEverywhere(rs: seq<Region>, a: nat, w: Word)
    requires Mapped(rs, a)
    ensures SameLayout(rs, Set(rs, a, w))
    ensures forall b: nat :: At(Set(rs, a, w), b) == if b == a then Some(w) else At(rs, b)
  {
    SetGet(rs, a, w, a);
    forall b: nat ensures At(Set(rs, a, w), b) == if b == a then Some(w) else At(rs, b) {
      SetGet(rs, a, w, b);
    }
  }

  /** A host write is seen by the program, whether or not it had the address dirty in its cache. */
  lemma HostWriteRefines(t: Tier, a: nat, w: Word, plain: seq<Region>)
    requires StandsFor(t, plain)
    ensures HostWrite(t, a, w).err == if Mapped(plain, a) then Ok else NotFound
    ensures StandsFor(HostWrite(t, a, w).tier, if Mapped(plain, a) then Set(plain, a, w) else plain)
  {
    SameLayoutMapped(t.regions, plain);
    if Mapped(plain, a) {
      var i := a % |t.lines|;
      var t' := Tier(t.lines, Set(t.regions, a, w));
      SetKeeps(t.regions, a, w);
      assert LineOk(t, i);
      SetEverywhere(t.regions, a, w);
      SetEverywhere(plain, a, w);
      SameLayoutMapped(t.regions, t'.regions);
      forall j | 0 <= j < |t.lines| && (j != i || t.lines[i].tag != a) ensures LineOk(t', j) {
        assert LineOk(t, j);
      }
      var l := t.lines[i];
      Replaced(t', i, if l.tag == a then l.(state := I) else l, Set(plain, a, w));
    }
  }

  lemma {:induction false} FlushFromRefines(t: Tier, i: nat, plain: seq<Region>)
    requires StandsFor(t, plain) && i <= |t.lines| && forall j :: 0 <= j < i ==> t.lines[j].state != M
    ensures FlushFrom(t, i).err == Ok && StandsFor(FlushFrom(t, i).tier, plain)
    ensures forall j :: 0 <= j < |FlushFrom(t, i).tier.lines| ==> FlushFrom(t, i).tier.lines[j].state != M
    decreases |t.lines| - i
  {
    if i < |t.lines| {
      var l := t.lines[i];
      assert LineOk(t, i);
      CanWriteBack(t, i);
      var t' := Tier(t.lines, WriteBack(t.regions, l).value);
      WrittenBack(t, i, t', plain);
      WriteBackFacts(t, i, t');
      Replaced(t', i, Cleaned(l), plain);
      FlushFromRefines(Tier(t.lines[i := Cleaned(l)], t'.regions), i + 1, plain);
    }
  }

  /** Flushing everything makes memory what the cache stood for. */
  lemma FlushAllRefines(t: Tier, plain: seq<Region>)
    requires StandsFor(t, plain)
    ensures FlushAll(t).err == Ok && FlushAll(t).tier.regions == plain && StandsFor(FlushAll(t).tier, plain)
  {
    FlushFromRefines(t, 0, plain);
    var u := FlushAll(t).tier;
    forall a: nat ensures At(u.regions, a) == At(plain, a) {
      assert At(plain, a) == View(u, a);
    }
    SameWords(u.regions, plain);
  }

  /** The cache of a VM; its methods take the MMU of the same VM. */
  class Cache {
    const lines: array<Line>

    ghost predicate Valid()
      reads this, lines
    {
      lines.Length > 0 && forall i :: 0 <= i < lines.Length ==> lines[i].tag < U32
    }

    ghost function Over(mmu: Mmu): (t: Tier)
      reads this, lines, mmu
      requires Valid()
      ensures |t.lines| > 0
    {
      Tier(lines[..], mmu.regions)
    }

    constructor (sets: nat)
      requires sets > 0
      ensures Valid() && fresh(lines) && lines.Length == sets
      ensures forall i :: 0 <= i < sets ==> lines[i].state == I
    {
      lines := new Line[sets](_ => Line(0, I, ZERO));
    }

    method LoadWord(mmu: Mmu, a: nat) returns (err: Err, w: Word)
      requires Valid() && mmu.Valid() && a < U32
      modifies lines, mmu
      ensures Valid() && mmu.Valid()
      ensures var got := Load(old(Over(mmu)), a);
        && Over(mmu) == got.tier
        && err == (if got.word.Some? then Ok else NotFound) && (err == Ok ==> got.word == Some(w))
    {
      var i := a % lines.Length;
      if lines[i].state != I && lines[i].tag == a {
        return Ok, lines[i].value;
      }
      if lines[i].state == M {
        err := mmu.SetRaw(lines[i].tag, lines[i].value);
        if err != Ok {
          return err, ZERO;
        }
      }
      err, w := mmu.GetRaw(a);
      if err != Ok {
        return;
      }
      lines[i] := Line(a, E, w);
    }

    method StoreWord(mmu: Mmu, a: nat, w: Word) returns (err: Err)
      requires Valid() && mmu.Valid() && a < U32
      modifies lines, mmu
      ensures Valid() && mmu.Valid()
      ensures Done(err, Over(mmu)) == Store(old(Over(mmu)), a, w)
    {
      var i := a % lines.Length;
      if lines[i].state == M && lines[i].tag != a {
        err := mmu.SetRaw(lines[i].tag, lines[i].value);
        if err != Ok {
          return;
        }
      }
      lines[i] := Line(a, M, w);
      return Ok;
    }

    method FlushLine(mmu: Mmu, a: nat) returns (err: Err)
      requires Valid() && mmu.Valid() && a < U32
      modifies lines, mmu
      ensures Valid() && mmu.Valid()
      ensures Done(err, Over(mmu)) == Flush(old(Over(mmu)), a)
    {
      var i := a % lines.Length;
      if lines[i].state == M && lines[i].tag == a {
        err := mmu.SetRaw(lines[i].tag, lines[i].value);
        if err != Ok {
          return;
        }
        lines[i] := lines[i].(state := E);
      }
      return Ok;
    }

    method InvalidateLine(mmu: Mmu, a: nat)
      requires Valid() && mmu.Valid()
      modifies lines
      ensures Valid()
      ensures Over(mmu) == Invalidate(old(Over(mmu)), a)
    {
      var i := a % lines.Length;
      if lines[i].tag == a {
        lines[i] := lines[i].(state := I);
      }
    }

    method FlushInvalidateLine(mmu: Mmu, a: nat) returns (err: Err)
      requires Valid() && mmu.Valid() && a < U32
      modifies lines, mmu
      ensures Valid() && mmu.Valid()
      ensures Done(err, Over(mmu)) == FlushInvalidate(old(Over(mmu)), a)
    {
      err := FlushLine(mmu, a);
      if err != Ok {
        return;
      }
      InvalidateLine(mmu, a);
    }

    method FlushAllLines(mmu: Mmu) returns (err: Err)
      requires Valid() && mmu.Valid()
      modifies lines, mmu
      ensures Valid() && mmu.Valid()
      ensures Done(err, Over(mmu)) == FlushAll(old(Over(mmu)))
    {
      for i := 0 to lines.Length
        invariant Valid() && mmu.Valid()
        invariant FlushFrom(Over(mmu), i) == FlushAll(old(Over(mmu)))
      {
        if lines[i].state == M {
          err := mmu.SetRaw(lines[i].tag, lines[i].value);
          if err != Ok {
            return;
          }
          ghost var was := Over(mmu).lines;
          lines[i] := lines[i].(state := E);
          assert lines[..] == was[i := lines[i]];
        } else {
          assert lines[..] == lines[..][i := lines[i]];
        }
      }
      return Ok;
    }

    method HostWriteWord(mmu: Mmu, a: nat, w: Word) returns (err: Err)
      requires Valid() && mmu.Valid() && a < U32
      modifies lines, mmu
      ensures Valid() && mmu.Valid()
      ensures Done(err, Over(mmu)) == HostWrite(old(Over(mmu)), a, w)
    {
      err := mmu.SetRaw(a, w);
      if err != Ok {
        return;
      }
      InvalidateLine(mmu, a);
    }
  }
}

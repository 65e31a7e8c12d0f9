/** vm/loader.c: which images are accepted, and what loading one leaves in the VM. */
module Loader {
  import opened Arith
  import opened Bytes
  import opened Cache
  import opened Crc
  import opened Errors
  import opened Image
  import opened Mmu
  import opened Packing
  import opened Ternary
  import opened Vm
  import opened VmSafety
  import Interpreter

  /** A decoded image; an absent pointer is None, and `memoryCount` is its length when present. */
  datatype VmImage = VmImage(magic: nat, version: nat, entry: nat, instrs: Option<seq<Instr>>,
                             memory: Option<seq<Word>>, memoryCount: nat)

  predicate LoaderFields(ins: Instr)
  {
    match ins.op
    case TNOP | TJMP | THALT => true
    case TLDI | TRECV => IsReg(ins.dst)
    case TMOV | TSEND | TLD | TST | TSENSE | TBIAS => IsReg(ins.dst) && IsReg(ins.srcA)
    case TADD | TSUB | TCMP | TSEL | TSYS | TROUTE => IsReg(ins.dst) && IsReg(ins.srcA) && IsReg(ins.srcB)
    case TBRNEG | TBRZERO | TBRPOS | TFLUSH | TINV => IsReg(ins.srcA)
    case Unknown(_) => false
  }

  function InstrError(ins: Instr, n: nat): Err
  {
    if ins.op.Unknown? then InvalidResponse
    else if !LoaderFields(ins) then InvalidArg
    else if IsJump(ins.op) && !(0 <= ins.imm < n) then InvalidArg
    else if ins.op == TSYS && !(0 <= ins.imm <= 3) then InvalidArg
    else Ok
  }

  /** The error of the first instruction at i or later that has one. */
  function FirstError(instrs: seq<Instr>, i: nat): Err
    requires i <= |instrs|
    decreases |instrs| - i
  {
    if i == |instrs| then Ok
    else if InstrError(instrs[i], |instrs|) != Ok then InstrError(instrs[i], |instrs|)
    else FirstError(instrs, i + 1)
  }

  function ImageError(image: VmImage): Err
  {
    if image.magic != MAGIC then InvalidResponse
    else if image.version != 1 && image.version != 2 then InvalidVersion
    else if image.instrs.None? then InvalidArg
    else if |image.instrs.value| == 0 then InvalidSize
    else if image.entry >= |image.instrs.value| then InvalidArg
    else if image.memory.None? && image.memoryCount != 0 then InvalidArg
    else FirstError(image.instrs.value, 0)
  }

  method ValidateImage(image: VmImage) returns (err: Err)
    ensures err == ImageError(image)
  {
    if image.magic != MAGIC {
      return InvalidResponse;
    }
    if !(image.version == 1 || image.version == 2) {
      return InvalidVersion;
    }
    if image.instrs.None? {
      return InvalidArg;
    }
    var instrs := image.instrs.value;
    if |instrs| == 0 {
      return InvalidSize;
    }
    if image.entry >= |instrs| {
      return InvalidArg;
    }
    if image.memory.None? && image.memoryCount != 0 {
      return InvalidArg;
    }
    for i := 0 to |instrs|
      invariant FirstError(instrs, 0) == FirstError(instrs, i)
    {
      var ins := instrs[i];
      if ins.op.Unknown? {
        return InvalidResponse;
      }
      if !LoaderFields(ins) {
        return InvalidArg;
      }
      if ins.op == TJMP || ins.op == TBRNEG || ins.op == TBRZERO || ins.op == TBRPOS {
        if ins.imm < 0 || ins.imm >= |instrs| {
          return InvalidArg;
        }
      }
      if ins.op == TSYS {
        if ins.imm < 0 || ins.imm > 3 {
          return InvalidArg;
        }
      }
    }
    return Ok;
  }

  lemma {:induction false} FirstErrorExactly(instrs: seq<Instr>, i: nat)
    requires i <= |instrs|
    ensures FirstError(instrs, i) == Ok <==> forall j :: i <= j < |instrs| ==> InstrError(instrs[j], |instrs|) == Ok
    decreases |instrs| - i
  {
    if i < |instrs| {
      FirstErrorExactly(instrs, i + 1);
    }
  }

  // ---- What acceptance means for a run ----

  /** Fields of TBIAS and TLDI that no check of the loader covers. */
  predicate UncoveredInRange(ins: Instr)
  {
    && -0x8000_0000 <= ins.imm <= 0x7FFF_FFFF
    && (ins.op == TBIAS ==> IsReg(ins.srcB))
    && (ins.op == TLDI ==> Fits(ins.imm))
  }

  /** An accepted image is safe code exactly when these fields happen to be in range. */
  lemma AcceptedImageSafe(image: VmImage)
    requires ImageError(image) == Ok
    ensures SafeCode(image.instrs.value)
       <==> forall i :: 0 <= i < |image.instrs.value| ==> UncoveredInRange(image.instrs.value[i])
  {
    var instrs := image.instrs.value;
    FirstErrorExactly(instrs, 0);
    forall i | 0 <= i < |instrs| ensures SafeInstr(instrs[i], |instrs|) <==> UncoveredInRange(instrs[i]) {
      assert InstrError(instrs[i], |instrs|) == Ok;
    }
  }

  /** The checks are no stricter than that: safe code with the selectors of TSYS in range passes all of them. */
  lemma SafeIsAccepted(instrs: seq<Instr>)
    requires SafeCode(instrs)
    ensures FirstError(instrs, 0) == Ok <==> forall i :: 0 <= i < |instrs| && instrs[i].op == TSYS ==> 0 <= instrs[i].imm <= 3
  {
    FirstErrorExactly(instrs, 0);
    forall i | 0 <= i < |instrs|
      ensures InstrError(instrs[i], |instrs|) == Ok <==> (instrs[i].op == TSYS ==> 0 <= instrs[i].imm <= 3)
    {
      assert SafeInstr(instrs[i], |instrs|);
    }
  }

  /** An image the loader accepts although its TBIAS names register 200. */
  lemma TbiasIsNotValidated() returns (image: VmImage)
    ensures ImageError(image) == Ok && !InBounds(image.instrs.value)
  {
    var ins := Instr(TBIAS, 0, 0, 200, 0);
    image := VmImage(MAGIC, 1, 0, Some([ins]), None, 0);
    assert InstrError(ins, 1) == Ok;
    FirstErrorExactly([ins], 0);
    assert !UncheckedInBounds(image.instrs.value[0]);
  }

  // ---- The packed format ----

  datatype Parsed = Bad(err: Err) | Good(entry: nat, instrs: seq<Instr>, words: seq<Word>)

  function PayloadLength(n: nat, d: nat): nat { n * 4 + d * 5 }

  function InstrAt(buffer: seq<bv8>, i: nat): Instr
    requires HEADER + 4 * (i + 1) <= |buffer|
  {
    Decoded(U32At(buffer, HEADER + i * 4))
  }

  function InstrsOf(buffer: seq<bv8>, n: nat): (instrs: seq<Instr>)
    requires HEADER + 4 * n <= |buffer|
    ensures |instrs| == n
  {
    seq(n, i requires 0 <= i < n => InstrAt(buffer, i))
  }

  /** The five bytes of data word i, after n instructions. */
  function WordBytes(buffer: seq<bv8>, n: nat, i: nat): (bytes: seq<bv8>)
    requires HEADER + PayloadLength(n, i + 1) <= |buffer|
    ensures |bytes| == 5
  {
    var at := HEADER + n * 4 + i * 5;
    buffer[at..at + 5]
  }

  ghost predicate WordsOk(buffer: seq<bv8>, n: nat, d: nat)
    requires HEADER + PayloadLength(n, d) <= |buffer|
  {
    forall i :: 0 <= i < d ==> CodesOk(WordBytes(buffer, n, i), 18)
  }

  function WordsOf(buffer: seq<bv8>, n: nat, d: nat): (words: seq<Word>)
    requires HEADER + PayloadLength(n, d) <= |buffer|
    ensures |words| == d && forall i :: 0 <= i < d ==> AllTrits(words[i])
  {
    seq(d, i requires 0 <= i < d => Unpacked(WordBytes(buffer, n, i), 18))
  }

  /** The image as validated; its memory pointer is null without data words. */
  function ImageOf(version: nat, entry: nat, instrs: seq<Instr>, words: seq<Word>): VmImage
  {
    VmImage(MAGIC, version, entry, Some(instrs), if |words| > 0 then Some(words) else None, |words|)
  }

  /** The result of loading a buffer; the two flags say whether the allocations succeed. */
  ghost function Parse(buffer: seq<bv8>, instrsFit: bool, wordsFit: bool): Parsed
  {
    if |buffer| < HEADER then Bad(InvalidSize)
    else if U32At(buffer, 0) != MAGIC then Bad(InvalidResponse)
    else if U16(buffer, 4) != 2 then Bad(InvalidVersion)
    else ParsePayload(buffer, U16(buffer, 10), U16(buffer, 12), U16(buffer, 14), instrsFit, wordsFit)
  }

  /** The stored checksum is that of the payload. */
  predicate CrcMatches(buffer: seq<bv8>, end: nat)
    requires HEADER <= end <= |buffer|
  {
    CrcNumber(buffer[HEADER..end]) == U32At(buffer, 6)
  }

  ghost function ParsePayload(buffer: seq<bv8>, entry: nat, n: nat, d: nat, instrsFit: bool, wordsFit: bool): Parsed
    requires |buffer| >= HEADER
  {
    if |buffer| < HEADER + PayloadLength(n, d) then Bad(InvalidSize)
    else if !CrcMatches(buffer, HEADER + PayloadLength(n, d)) then Bad(InvalidCrc)
    else if !instrsFit || (d > 0 && !wordsFit) then Bad(NoMem)
    else ParseContent(buffer, entry, n, d)
  }

  ghost function ParseContent(buffer: seq<bv8>, entry: nat, n: nat, d: nat): Parsed
    requires HEADER + PayloadLength(n, d) <= |buffer|
  {
    if !WordsOk(buffer, n, d) then Bad(InvalidResponse)
    else
      var instrs, words := InstrsOf(buffer, n), WordsOf(buffer, n, d);
      var err := ImageError(ImageOf(2, entry, instrs, words));
      if err != Ok then Bad(err) else Good(entry, instrs, words)
  }

  /** A buffer whose header and checksum are right is taken for what its content is. */
  lemma ParsedAsContent(buffer: seq<bv8>, entry: nat, n: nat, d: nat, end: nat)
    requires end == HEADER + PayloadLength(n, d) <= |buffer| && CrcMatches(buffer, end)
    requires U32At(buffer, 0) == MAGIC && U16(buffer, 4) == 2
    requires U16(buffer, 10) == entry && U16(buffer, 12) == n && U16(buffer, 14) == d
    ensures Parse(buffer, true, true) == ParseContent(buffer, entry, n, d)
  {
  }

  lemma DecodedInRange(n: nat)
    requires n < U32
    ensures UncoveredInRange(Decoded(n))
  {
    DecodedIsEncoded(n);
  }

  lemma ReadInRange(buffer: seq<bv8>, n: nat)
    requires HEADER + 4 * n <= |buffer|
    ensures forall i :: 0 <= i < n ==> UncoveredInRange(InstrsOf(buffer, n)[i])
  {
    forall i | 0 <= i < n ensures UncoveredInRange(InstrsOf(buffer, n)[i]) {
      DecodedInRange(U32At(buffer, HEADER + i * 4));
    }
  }

  lemma GoodIsContent(buffer: seq<bv8>, a: bool, b: bool, p: Parsed) returns (n: nat, d: nat)
    requires p == Parse(buffer, a, b) && p.Good?
    ensures HEADER + PayloadLength(n, d) <= |buffer| && p == ParseContent(buffer, p.entry, n, d)
  {
    n, d := U16(buffer, 12), U16(buffer, 14);
  }

  /** What an accepted packed image guarantees: no field is left unchecked, because registers have three bits. */
  lemma AcceptedIsSafe(buffer: seq<bv8>, a: bool, b: bool, p: Parsed)
    requires p == Parse(buffer, a, b) && p.Good?
    ensures SafeCode(p.instrs) && p.entry < |p.instrs|
    ensures forall i :: 0 <= i < |p.words| ==> AllTrits(p.words[i])
  {
    var n, d := GoodIsContent(buffer, a, b, p);
    ReadInRange(buffer, n);
    AcceptedImageSafe(ImageOf(2, p.entry, p.instrs, p.words));
  }

  /** Private memory at address 0, if there is any. */
  function PrivateRegions(words: seq<Word>): seq<Region>
  {
    if |words| > 0 then [Region(0, Private, words)] else []
  }

  /** What a load of p leaves.  A cache keeps whatever lines it had; they hold valid trits if the programs before this
      one only ever stored such. */
  ghost predicate JustLoaded(m: Machine, p: Parsed)
    requires p.Good?
  {
    && m.core.regs == seq(REGISTERS, _ => ZERO) && m.core.fault == NoFault && m.core.ip == p.entry
    && m.core.status == Ready && MemoryOk(m.mem) && RawRegions(m.mem) == PrivateRegions(p.words)
    && (m.mem.Cached? ==> TritsInLines(m.mem.tier.lines))
  }

  ghost predicate TritsInLines(lines: seq<Line>)
  {
    forall i :: 0 <= i < |lines| ==> AllTrits(lines[i].value)
  }

  lemma LoadedIsSafe(m: Machine, p: Parsed)
    requires p.Good? && JustLoaded(m, p) && p.entry < |p.instrs|
    requires forall i :: 0 <= i < |p.words| ==> AllTrits(p.words[i])
    ensures Safe(p.instrs, m)
  {
  }

  /** Any run of an accepted image, on a VM with or without a cache and whatever the cache still holds, keeps valid trits
      everywhere and raises no fault a bad image would cause; an immediate fault means that the run met a send to a node
      number that is not a byte. */
  lemma AcceptedRunsSafely(buffer: seq<bv8>, a: bool, b: bool, p: Parsed, m: Machine, envs: seq<Outside>)
    requires p == Parse(buffer, a, b) && p.Good? && JustLoaded(m, p)
    requires forall i :: 0 <= i < |envs| ==> FairOutside(envs[i])
    ensures m.core.Valid() && InBounds(p.instrs) && Safe(p.instrs, RunLoop(p.instrs, m, envs).machine)
    ensures RunLoop(p.instrs, m, envs).err == PcOutOfRange ==>
      RunLoop(p.instrs, m, envs).machine.core.ip == |p.instrs|
    ensures BadSendFault(RunLoop(p.instrs, m, envs)) <==> MeetsBadSend(p.instrs, m, envs)
  {
    AcceptedIsSafe(buffer, a, b, p);
    LoadedIsSafe(m, p);
    RunSafe(p.instrs, m, envs);
  }

  // ---- Damage the checksum catches ----

  lemma GoodIsPayload(x: seq<bv8>, a: bool, b: bool)
    requires Parse(x, a, b).Good?
    ensures |x| >= HEADER && Parse(x, a, b) == ParsePayload(x, U16(x, 10), U16(x, 12), U16(x, 14), a, b)
  {
  }

  lemma PayloadHasCrc(x: seq<bv8>, entry: nat, n: nat, d: nat, a: bool, b: bool)
    requires |x| >= HEADER && ParsePayload(x, entry, n, d, a, b).Good?
    ensures HEADER + PayloadLength(n, d) <= |x| && CrcMatches(x, HEADER + PayloadLength(n, d))
  {
  }

  lemma GoodHasCrc(x: seq<bv8>, a: bool, b: bool)
    requires Parse(x, a, b).Good?
    ensures |x| >= HEADER && HEADER + PayloadLength(U16(x, 12), U16(x, 14)) <= |x|
    ensures CrcMatches(x, HEADER + PayloadLength(U16(x, 12), U16(x, 14)))
  {
    GoodIsPayload(x, a, b);
    PayloadHasCrc(x, U16(x, 10), U16(x, 12), U16(x, 14), a, b);
  }

  lemma SameHeader(x: seq<bv8>, y: seq<bv8>)
    requires |x| >= HEADER && |y| >= HEADER && x[..HEADER] == y[..HEADER]
    ensures U32At(x, 6) == U32At(y, 6) && U16(x, 12) == U16(y, 12) && U16(x, 14) == U16(y, 14)
  {
    SameSlice(x, y, 6, 4);
    SameSlice(x, y, 12, 2);
    SameSlice(x, y, 14, 2);
  }

  lemma SameSlice(x: seq<bv8>, y: seq<bv8>, at: nat, k: nat)
    requires at + k <= HEADER <= |x| && HEADER <= |y| && x[..HEADER] == y[..HEADER]
    ensures Field(x, at, k) == Field(y, at, k)
  {
    forall i | at <= i < at + k ensures x[i] == y[i] {
      assert x[i] == x[..HEADER][i] && y[i] == y[..HEADER][i];
    }
    SameField(x, y, at, k);
  }

  lemma OneChecksum(x: seq<bv8>, y: seq<bv8>, end: nat)
    requires HEADER <= end <= |x| && end <= |y| && U32At(x, 6) == U32At(y, 6)
    requires CrcMatches(x, end) && CrcMatches(y, end)
    ensures Crc32(x[HEADER..end]) == Crc32(y[HEADER..end])
  {
    NumberIsRead(Crc32(x[HEADER..end]));
    NumberIsRead(Crc32(y[HEADER..end]));
  }

  lemma NotBothMatch(x: seq<bv8>, y: seq<bv8>, p: nat, end: nat)
    requires HEADER <= end <= |x| == |y| && U32At(x, 6) == U32At(y, 6)
    requires x[HEADER..end] != y[HEADER..end] && DifferOnlyWithin(x[HEADER..end], y[HEADER..end], p, 4)
    ensures !(CrcMatches(x, end) && CrcMatches(y, end))
  {
    BurstDetected(x[HEADER..end], y[HEADER..end], p);
    if CrcMatches(x, end) && CrcMatches(y, end) {
      OneChecksum(x, y, end);
    }
  }

  /** Of two buffers with one header, whose payloads differ only within four consecutive bytes, at most one is accepted. */
  lemma BurstIsRejected(x: seq<bv8>, y: seq<bv8>, p: nat, a: bool, b: bool)
    requires |x| == |y| >= HEADER && x[..HEADER] == y[..HEADER]
    requires var end := HEADER + PayloadLength(U16(x, 12), U16(x, 14));
      && end <= |x| && x[HEADER..end] != y[HEADER..end]
      && DifferOnlyWithin(x[HEADER..end], y[HEADER..end], p, 4)
    ensures !(Parse(x, a, b).Good? && Parse(y, a, b).Good?)
  {
    var end := HEADER + PayloadLength(U16(x, 12), U16(x, 14));
    SameHeader(x, y);
    NotBothMatch(x, y, p, end);
    if Parse(x, a, b).Good? {
      GoodHasCrc(x, a, b);
    }
    if Parse(y, a, b).Good? {
      GoodHasCrc(y, a, b);
    }
  }

  // ---- Unloading and loading ----

  /** What unloading leaves: no program, no memory, no routes, registers zero. */
  ghost predicate Cleared(vm: Interpreter.Interpreter)
    reads vm, vm.mmu
  {
    && vm.program == [] && vm.mmu.regions == [] && vm.routes == 0
    && vm.registers == seq(REGISTERS, _ => ZERO)
    && vm.status == Ready && vm.fault == NoFault && vm.ip == 0 && vm.steps == 0
  }

  /** What a load leaves. */
  ghost predicate Holds(vm: Interpreter.Interpreter, p: Parsed)
    requires p.Good?
    reads vm, vm.mmu
  {
    && vm.program == p.instrs && vm.mmu.regions == PrivateRegions(p.words) && vm.routes == 0
    && vm.registers == seq(REGISTERS, _ => ZERO)
    && vm.status == Ready && vm.fault == NoFault && vm.ip == p.entry && vm.steps == 0
  }

  /** So what LoadBinary and LoadImage leave is what the safety of runs starts from. */
  lemma HeldIsJustLoaded(vm: Interpreter.Interpreter, p: Parsed)
    requires vm.Valid() && p.Good? && Holds(vm, p)
    requires vm.cache != null ==> TritsInLines(vm.cache.lines[..])
    ensures JustLoaded(vm.State(), p)
  {
  }

  method Unload(vm: Interpreter.Interpreter)
    requires vm.Valid()
    modifies vm, vm.mmu
    ensures vm.Valid() && Cleared(vm)
  {
    vm.routes := 0;
    vm.program := [];
    vm.mmu.Init();
    vm.Reset();
    assert vm.registers == seq(REGISTERS, _ => ZERO);
  }

  method LoadImage(vm: Interpreter.Interpreter, image: VmImage) returns (err: Err)
    requires vm.Valid() && (image.memory.Some? ==> |image.memory.value| == image.memoryCount < U32)
    modifies vm, vm.mmu
    ensures vm.Valid() && err == ImageError(image)
    ensures err == Ok ==> Holds(vm, Good(image.entry, image.instrs.value, if image.memory.Some? then image.memory.value else []))
    ensures err != Ok ==> unchanged(vm) && unchanged(vm.mmu)
  {
    err := ValidateImage(image);
    if err != Ok {
      return;
    }
    Unload(vm);
    vm.program := image.instrs.value;
    vm.mmu.Init();
    if image.memoryCount > 0 {
      err := vm.mmu.AddRegion(image.memory, Private, 0);
      if err != Ok {
        return;
      }
    }
    vm.Reset();
    assert vm.registers == seq(REGISTERS, _ => ZERO);
    vm.ip := image.entry;
    return Ok;
  }

  method DecodeWord(word: nat) returns (ins: Instr)
    requires word < U32
    ensures ins == Decoded(word)
  {
    var imm: int := word / 32768;
    if imm >= 0x1_0000 {
      imm := imm - 0x2_0000;
    }
    ins := Instr(OpOf(word % 64), word / 64 % 8, word / 512 % 8, word / 4096 % 8, imm);
  }

  /** The decode loop. */
  method ReadInstrs(buffer: seq<bv8>, n: nat) returns (instrs: array<Instr>)
    requires HEADER + 4 * n <= |buffer|
    ensures fresh(instrs) && instrs[..] == InstrsOf(buffer, n)
  {
    instrs := new Instr[n](_ => Instr(TNOP, 0, 0, 0, 0));
    for i := 0 to n
      invariant forall j :: 0 <= j < i ==> instrs[j] == InstrAt(buffer, j)
    {
      var ins := DecodeWord(U32At(buffer, HEADER + i * 4));
      instrs[i] := ins;
    }
  }

  /** The unpack loop over the data words. */
  method ReadWords(buffer: seq<bv8>, n: nat, d: nat) returns (err: Err, words: array<Word>)
    requires HEADER + PayloadLength(n, d) <= |buffer|
    ensures err == if WordsOk(buffer, n, d) then Ok else InvalidResponse
    ensures err == Ok ==> words[..] == WordsOf(buffer, n, d)
  {
    words := new Word[d](_ => ZERO);
    for i := 0 to d
      invariant WordsOk(buffer, n, i)
      invariant forall j :: 0 <= j < i ==> words[j] == Unpacked(WordBytes(buffer, n, j), 18)
    {
      var trits := new int[18](_ => 0);
      err := Unpack(WordBytes(buffer, n, i), trits);
      if err != Ok {
        return;
      }
      words[i] := trits[..];
    }
    return Ok, words;
  }

  method LoadBinary(vm: Interpreter.Interpreter, buffer: seq<bv8>, instrsFit: bool, wordsFit: bool) returns (err: Err)
    requires vm.Valid()
    modifies vm, vm.mmu
    ensures vm.Valid()
    ensures match Parse(buffer, instrsFit, wordsFit)
            case Good(entry, instrs, words) => err == Ok && Holds(vm, Good(entry, instrs, words))
            case Bad(e) => err == e != Ok
    ensures err != Ok && |buffer| < HEADER ==> unchanged(vm) && unchanged(vm.mmu)
    ensures err != Ok && |buffer| >= HEADER ==> Cleared(vm)
  {
    if |buffer| < HEADER {
      return InvalidSize;
    }
    Unload(vm);
    if U32At(buffer, 0) != MAGIC {
      return InvalidResponse;
    }
    if U16(buffer, 4) != 2 {
      return InvalidVersion;
    }
    err := LoadPayload(vm, buffer, U16(buffer, 10), U16(buffer, 12), U16(buffer, 14), instrsFit, wordsFit);
  }

  method CheckCrc(buffer: seq<bv8>, end: nat) returns (intact: bool)
    requires HEADER <= end <= |buffer|
    ensures intact <==> CrcMatches(buffer, end)
  {
    var crc := ComputeCrc(buffer[HEADER..end]);
    return AsNumber(crc) == U32At(buffer, 6);
  }

  method LoadPayload(vm: Interpreter.Interpreter, buffer: seq<bv8>, entry: nat, n: nat, d: nat,
                     instrsFit: bool, wordsFit: bool) returns (err: Err)
    requires vm.Valid() && Cleared(vm) && |buffer| >= HEADER && d < 0x1_0000
    modifies vm, vm.mmu
    ensures vm.Valid()
    ensures match ParsePayload(buffer, entry, n, d, instrsFit, wordsFit)
            case Good(entry, instrs, words) => err == Ok && Holds(vm, Good(entry, instrs, words))
            case Bad(e) => err == e != Ok && Cleared(vm)
  {
    var end := HEADER + (n * 4 + d * 5);
    if |buffer| < end {
      return InvalidSize;
    }
    var intact := CheckCrc(buffer, end);
    if !intact {
      return InvalidCrc;
    }
    if !instrsFit {
      return NoMem;
    }
    if d > 0 && !wordsFit {
      return NoMem;
    }
    err := LoadContent(vm, buffer, entry, n, d);
  }

  /** The part of reflex_vm_load_binary after its allocations. */
  method LoadContent(vm: Interpreter.Interpreter, buffer: seq<bv8>, entry: nat, n: nat, d: nat) returns (err: Err)
    requires vm.Valid() && Cleared(vm) && HEADER + PayloadLength(n, d) <= |buffer| && d < 0x1_0000
    modifies vm, vm.mmu
    ensures vm.Valid()
    ensures match ParseContent(buffer, entry, n, d)
            case Good(entry, instrs, words) => err == Ok && Holds(vm, Good(entry, instrs, words))
            case Bad(e) => err == e != Ok && Cleared(vm)
  {
    var instrs := ReadInstrs(buffer, n);
    var words;
    err, words := ReadWords(buffer, n, d);
    if err != Ok {
      return;
    }
    err := ValidateImage(ImageOf(2, entry, instrs[..], words[..]));
    if err != Ok {
      return;
    }
    err := Install(vm, entry, instrs[..], words[..]);
  }

  method Install(vm: Interpreter.Interpreter, entry: nat, instrs: seq<Instr>, words: seq<Word>) returns (err: Err)
    requires vm.Valid() && vm.routes == 0 && |words| < 0x1_0000
    modifies vm, vm.mmu
    ensures vm.Valid() && err == Ok && Holds(vm, Good(entry, instrs, words))
  {
    vm.mmu.Init();
    err := Ok;
    if |words| > 0 {
      err := vm.mmu.AddRegion(Some(words), Private, 0);
    }
    vm.program := instrs;
    vm.Reset();
    assert vm.registers == seq(REGISTERS, _ => ZERO);
    vm.ip := entry;
  }

  // ---- Reloading over an old cache ----

  /** A line of the old program is right for the new memory. */
  ghost predicate StillRight(l: Line, i: nat, sets: nat, rs: seq<Region>)
    requires sets > 0
  {
    l.state != I ==> l.tag % sets == i && At(rs, l.tag) == Some(l.value)
  }

  /** Unloading leaves the cache alone.  The new program sees the memory it was loaded with exactly when every line still
      in use is in its set and holds what that memory has at its tag. */
  lemma ReloadExactly(t: Tier, rs: seq<Region>)
    requires t.Valid() && WellFormed(rs)
    ensures StandsFor(Tier(t.lines, rs), rs) <==>
      forall i :: 0 <= i < |t.lines| ==> StillRight(t.lines[i], i, |t.lines|, rs)
  {
    var n := Tier(t.lines, rs);
    if StandsFor(n, rs) {
      forall i | 0 <= i < |t.lines| ensures StillRight(t.lines[i], i, |t.lines|, rs) {
        assert LineOk(n, i);
        if t.lines[i].state == M {
          assert At(rs, t.lines[i].tag) == View(n, t.lines[i].tag);
        }
      }
    }
    if forall i :: 0 <= i < |t.lines| ==> StillRight(t.lines[i], i, |t.lines|, rs) {
      forall i | 0 <= i < |t.lines| ensures LineOk(n, i) {
        assert StillRight(t.lines[i], i, |t.lines|, rs);
      }
      forall a: nat ensures At(rs, a) == View(n, a) {
        assert StillRight(t.lines[a % |t.lines|], a % |t.lines|, |t.lines|, rs);
      }
    }
  }

  /** A program that loads the word at address 0. */
  const PEEK: seq<Instr> := [Instr(TLD, 1, 0, 0, 0), Instr(THALT, 0, 0, 0, 0)]

  function PeekImage(w: Word): VmImage
  {
    VmImage(MAGIC, 2, 0, Some(PEEK), Some([w]), 1)
  }

  lemma PeekLoads(w: Word)
    ensures ImageError(PeekImage(w)) == Ok && InBounds(PEEK)
  {
    assert FirstError(PEEK, 2) == Ok && FirstError(PEEK, 1) == Ok;
  }

  /** What the first step of that program does on a machine with a cache. */
  lemma PeekReads(m: Machine, env: Outside)
    requires m.core.regs == seq(REGISTERS, _ => ZERO) && m.core.ip == 0 && m.core.status == Ready && m.mem.Cached?
    requires MemoryOk(m.mem) && InBounds(PEEK) && Load(m.mem.tier, 0).word.Some?
    ensures Step(PEEK, m, env).err == Ok
    ensures Step(PEEK, m, env).machine.core.regs == m.core.regs[1 := Load(m.mem.tier, 0).word.value]
    ensures Step(PEEK, m, env).machine.mem == Cached(Load(m.mem.tier, 0).tier)
  {
    ZerosValue(ZERO);
    assert Address(m.core.regs[0]) == 0;
    var ins := PEEK[0];
    assert ins == Instr(TLD, 1, 0, 0, 0);
    PeekStep(m.(core := Advanced(m.core)), ins, env);
  }

  lemma PeekStep(m: Machine, ins: Instr, env: Outside)
    requires Executable(m, ins) && ins == Instr(TLD, 1, 0, 0, 0) && m.mem.Cached?
    requires Address(m.core.regs[0]) == 0 && AllTrits(m.core.regs[0])
    requires Load(m.mem.tier, 0).word.Some? && m.core.status == Running
    ensures var o := Exec(PEEK, m, ins, env);
      && o.err == Ok && o.machine.core.regs == m.core.regs[1 := Load(m.mem.tier, 0).word.value]
      && o.machine.mem == Cached(Load(m.mem.tier, 0).tier)
  {
    assert Exec(PEEK, m, ins, env) == ExecMemory(m, ins);
  }

  /** Load, run, unload, load, run: the second program reads what the first one's memory held, not what it was loaded with. */
  method ReloadReadsStale(first: Word, second: Word, env: Outside) returns (vm: Interpreter.Interpreter)
    ensures vm.Valid() && vm.program == PEEK && vm.mmu.regions == PrivateRegions([second])
    ensures vm.registers[1] == first
  {
    var mmu := new Mmu();
    var cache := new Cache(1);
    vm := new Interpreter.Interpreter(mmu, cache);
    PeekLoads(first);
    PeekLoads(second);
    var err := LoadImage(vm, PeekImage(first));
    ghost var m := vm.State();
    PeekReads(m, env);
    err := vm.StepOnce(env);
    Unload(vm);
    err := LoadImage(vm, PeekImage(second));
    m := vm.State();
    PeekReads(m, env);
    err := vm.StepOnce(env);
  }
}

/** vm/interpreter.c as a step function on values: what one instruction does to the registers,
    to memory behind or without a cache, and which outside calls it makes. */
module Vm {
  import opened Arith
  import opened Cache
  import opened Errors
  import opened Mmu
  import opened Ternary

  const REGISTERS: nat := 8
  const MAX_ROUTES: nat := 4
  const NAME_CHARS: nat := 15

  datatype Op =
    | TNOP | TLDI | TMOV | TLD | TST | TADD | TSUB | TCMP | TSEL | TJMP | TBRNEG | TBRZERO | TBRPOS
    | TSEND | TRECV | TFLUSH | TINV | TSYS | THALT | TROUTE | TBIAS | TSENSE
    | Unknown(code: nat)

  datatype Instr = Instr(op: Op, dst: nat, srcA: nat, srcB: nat, imm: int)

  datatype Status = Ready | Running | Halted | Faulted

  datatype Fault =
    | NoFault | InvalidOpcode | InvalidRegister | InvalidImmediate | PcFault
    | ArithmeticOverflow | InvalidSyscall | InvalidMemoryAccess

  /** Calls the interpreter makes to the outside. */
  datatype Event = Sent(to: nat, op: nat, payload: Word) | Called(id: int, a: Word, b: Word)

  datatype Core = Core(regs: seq<Word>, ip: nat, status: Status, fault: Fault, steps: nat, routes: nat, calls: seq<Event>) {

    predicate Valid() { |regs| == REGISTERS }

    function Put(r: nat, w: Word): (c: Core)
      requires Valid() && r < REGISTERS
      ensures c.Valid()
    {
      this.(regs := regs[r := w])
    }
  }

  datatype Memory = Plain(regions: seq<Region>) | Cached(tier: Tier)

  datatype Machine = Machine(core: Core, mem: Memory)

  datatype Outcome = Outcome(err: Err, machine: Machine)

  datatype Recv = Message(payload: Word) | Empty | Broken
  datatype Syscall = NoHandler | Refused | Answer(word: Word)

  /** Cells of the fabric by name and by coordinate, with their states. */
  datatype Fabric = Fabric(names: map<seq<int>, int>, coords: map<seq<int>, int>)

  /** What the outside answers during one step, and whether the clock has passed the budget after it. */
  datatype Outside = Outside(sendOk: bool, recv: Recv, syscall: Syscall, fabric: Fabric, late: bool)

  // ---- Register fields ----

  predicate IsReg(i: nat) { i < REGISTERS }

  /** The fields the interpreter checks before it runs an instruction. */
  predicate FieldsChecked(ins: Instr)
  {
    match ins.op
    case TLDI | TRECV => IsReg(ins.dst)
    case TMOV | TBIAS | TLD | TST | TSEND => IsReg(ins.dst) && IsReg(ins.srcA)
    case TADD | TSUB | TCMP | TSEL | TSYS | TROUTE => IsReg(ins.dst) && IsReg(ins.srcA) && IsReg(ins.srcB)
    case TBRNEG | TBRZERO | TBRPOS | TSENSE | TINV => IsReg(ins.srcA)
    case _ => true
  }

  /** The fields it uses without a check; an immediate is a 32-bit integer by its type. */
  predicate UncheckedInBounds(ins: Instr)
  {
    && -0x8000_0000 <= ins.imm <= 0x7FFF_FFFF
    && match ins.op
       case TFLUSH => IsReg(ins.srcA)
       case TSENSE => IsReg(ins.dst)
       case TBIAS => IsReg(ins.srcB)
       case _ => true
  }

  predicate InBounds(prog: seq<Instr>)
  {
    forall i :: 0 <= i < |prog| ==> UncheckedInBounds(prog[i])
  }

  // ---- Memory, with or without the cache ----

  datatype Loaded = Loaded(word: Option<Word>, mem: Memory)
  datatype Stored = Stored(err: Err, mem: Memory)

  predicate MemoryOk(m: Memory) { m.Cached? ==> |m.tier.lines| > 0 }

  function RawRegions(m: Memory): seq<Region> { if m.Plain? then m.regions else m.tier.regions }

  function LoadFrom(m: Memory, a: nat): (r: Loaded)
    requires MemoryOk(m)
  {
    match m
    case Plain(rs) => Loaded(At(rs, a), m)
    case Cached(t) => Loaded(Load(t, a).word, Cached(Load(t, a).tier))
  }

  function StoreTo(m: Memory, a: nat, w: Word): (r: Stored)
    requires MemoryOk(m)
  {
    match m
    case Plain(rs) => if Mapped(rs, a) then Stored(Ok, Plain(Set(rs, a, w))) else Stored(NotFound, m)
    case Cached(t) => Stored(Store(t, a, w).err, Cached(Store(t, a, w).tier))
  }

  function FlushAt(m: Memory, a: nat): Memory
    requires MemoryOk(m)
  {
    match m
    case Plain(_) => m
    case Cached(t) => Cached(Flush(t, a).tier)
  }

  function FlushInvalidateAt(m: Memory, a: nat): Memory
    requires MemoryOk(m)
  {
    match m
    case Plain(_) => m
    case Cached(t) => Cached(FlushInvalidate(t, a).tier)
  }

  /** The conversion of a register value to a 32-bit address. */
  function Address(w: Word): (a: nat)
    ensures a < U32
  {
    Value(w) % 0x1_0000_0000
  }

  /** Characters read one word each from memory itself, never through the cache; None when an address is not mapped. */
  function ReadChars(rs: seq<Region>, a: nat, n: nat): Option<seq<int>>
    requires a < U32
    decreases n, a
  {
    if n == 0 then Some([])
    else
      match At(rs, a)
      case None => None
      case Some(w) =>
        if Value(w) == 0 then Some([])
        else
          match ReadChars(rs, UAdd(a, 1), n - 1)
          case None => None
          case Some(rest) => Some([Value(w) % 256] + rest)
  }

  /** The C string in a character buffer: what comes before the first zero byte. */
  function CString(s: seq<int>): seq<int>
  {
    if s == [] || s[0] == 0 then [] else [s[0]] + CString(s[1..])
  }

  function FindByName(f: Fabric, rs: seq<Region>, a: nat): Option<int>
    requires a < U32
  {
    match ReadChars(rs, a, NAME_CHARS)
    case None => None
    case Some(s) => if CString(s) in f.names then Some(f.names[CString(s)]) else None
  }

  function FindByCoord(f: Fabric, w: Word): Option<int>
  {
    if w[..9] in f.coords then Some(f.coords[w[..9]]) else None
  }

  // ---- Arithmetic ----

  function AddWords(a: Word, b: Word): Option<Word>
  {
    if AllTrits(a) && AllTrits(b) && Fits(Value(a) + Value(b)) then Some(Encode(Value(a) + Value(b))) else None
  }

  function SubtractWords(a: Word, b: Word): Option<Word>
  {
    if AllTrits(a) && AllTrits(b) && Fits(Value(a) - Value(b)) then Some(Encode(Value(a) - Value(b))) else None
  }

  function CompareWords(a: Word, b: Word): Option<int>
  {
    if AllTrits(a) && AllTrits(b) then Some(Sign(Value(a) - Value(b))) else None
  }

  function SelectWord(t: int, negative: Word, zero: Word, positive: Word): Option<Word>
  {
    if IsTrit(t) && AllTrits(negative) && AllTrits(zero) && AllTrits(positive)
    then Some(if t == -1 then negative else if t == 0 then zero else positive)
    else None
  }

  // ---- One step ----

  function Stop(m: Machine, f: Fault): Outcome
  {
    Outcome(Fail, m.(core := m.core.(status := Faulted, fault := f)))
  }

  function Finish(c: Core, mem: Memory): Outcome
  {
    Outcome(Ok, Machine(if c.status == Running then c.(status := Ready) else c, mem))
  }

  function Write(m: Machine, r: nat, w: Word): Outcome
    requires m.core.Valid() && IsReg(r)
  {
    Finish(m.core.Put(r, w), m.mem)
  }

  function WriteOr(m: Machine, r: nat, w: Option<Word>, f: Fault): Outcome
    requires m.core.Valid() && IsReg(r)
  {
    match w
    case None => Stop(m, f)
    case Some(v) => Write(m, r, v)
  }

  /** A taken branch leaves the status as it is, Running. */
  function Jump(prog: seq<Instr>, m: Machine, target: int): Outcome
  {
    if target < 0 || target >= |prog| then Stop(m, PcFault) else Outcome(Ok, m.(core := m.core.(ip := target)))
  }

  function Branch(prog: seq<Instr>, m: Machine, taken: bool, target: int): Outcome
  {
    if taken then Jump(prog, m, target) else Finish(m.core, m.mem)
  }

  function Note(m: Machine, e: Event): Machine
  {
    m.(core := m.core.(calls := m.core.calls + [e]))
  }

  predicate Executable(m: Machine, ins: Instr)
  {
    m.core.Valid() && MemoryOk(m.mem) && FieldsChecked(ins) && UncheckedInBounds(ins)
  }

  function ExecAlu(m: Machine, ins: Instr): Outcome
    requires Executable(m, ins) && ins.op in {TLDI, TMOV, TADD, TSUB, TCMP, TSEL}
  {
    var regs := m.core.regs;
    match ins.op
    case TLDI => WriteOr(m, ins.dst, if Fits(ins.imm) then Some(Encode(ins.imm)) else None, InvalidImmediate)
    case TMOV => Write(m, ins.dst, regs[ins.srcA])
    case TADD => WriteOr(m, ins.dst, AddWords(regs[ins.srcA], regs[ins.srcB]), ArithmeticOverflow)
    case TSUB => WriteOr(m, ins.dst, SubtractWords(regs[ins.srcA], regs[ins.srcB]), ArithmeticOverflow)
    case TCMP => WriteOr(m, ins.dst, FromTrit(CompareWords(regs[ins.srcA], regs[ins.srcB])), ArithmeticOverflow)
    case TSEL =>
      WriteOr(m, ins.dst,
              SelectWord(regs[ins.srcA][0], regs[ins.imm % 8], regs[ins.srcB], regs[ins.imm / 8 % 8]), ArithmeticOverflow)
  }

  /** A word with one trit in slot 0. */
  function TritWord(t: int): Word { ZERO[0 := t] }

  function FromTrit(t: Option<int>): Option<Word>
  {
    match t
    case None => None
    case Some(v) => Some(TritWord(v))
  }

  function ExecMemory(m: Machine, ins: Instr): Outcome
    requires Executable(m, ins) && ins.op in {TLD, TST, TFLUSH, TINV}
  {
    var c := m.core;
    var word := c.regs[if ins.op == TST then ins.dst else ins.srcA];
    if !AllTrits(word) then Outcome(InvalidArg, m)
    else
      var a := Address(word);
      match ins.op
      case TLD =>
        var r := LoadFrom(m.mem, a);
        WriteOr(Machine(c, r.mem), ins.dst, r.word, InvalidMemoryAccess)
      case TST =>
        var r := StoreTo(m.mem, a, c.regs[ins.srcA]);
        if r.err == Ok then Finish(c, r.mem) else Stop(Machine(c, r.mem), InvalidMemoryAccess)
      case TFLUSH => Finish(c, FlushAt(m.mem, a))
      case TINV => Finish(c, FlushInvalidateAt(m.mem, a))
  }

  function ExecCall(m: Machine, ins: Instr, env: Outside): Outcome
    requires Executable(m, ins) && ins.op in {TSEND, TRECV, TSYS}
  {
    var regs := m.core.regs;
    match ins.op
    case TSEND =>
      if !AllTrits(regs[ins.dst]) then Outcome(InvalidArg, m)
      else
        var to := Value(regs[ins.dst]);
        if to < 0 || to > 255 then Stop(m, InvalidImmediate)
        else
          var m' := Note(m, Sent(to, ins.imm % 256, regs[ins.srcA]));
          if env.sendOk then Finish(m'.core, m'.mem) else Stop(m', InvalidSyscall)
    case TRECV =>
      (match env.recv
       case Message(w) => Write(m, ins.dst, w)
       case Empty => Write(m, ins.dst, ZERO)
       case Broken => Finish(m.core, m.mem))
    case TSYS =>
      if env.syscall.NoHandler? then Stop(m, InvalidSyscall)
      else
        var m' := Note(m, Called(ins.imm, regs[ins.srcA], regs[ins.srcB]));
        if env.syscall.Answer? then Write(m', ins.dst, env.syscall.word) else Stop(m', InvalidSyscall)
  }

  function FindCell(m: Machine, byName: bool, w: Word, f: Fabric): Option<int>
  {
    if byName then FindByName(f, RawRegions(m.mem), Address(w)) else FindByCoord(f, w)
  }

  /** The word a program gets back: 1 for done, -1 for not. */
  function Flag(done: bool): (w: Word)
    ensures AllTrits(w)
  {
    Encode(if done then 1 else -1)
  }

  function RouteFound(m: Machine, dst: nat, source: Option<int>, sink: Option<int>): Outcome
    requires m.core.Valid() && IsReg(dst)
  {
    var found := source.Some? && sink.Some? && m.core.routes < MAX_ROUTES;
    Write(m.(core := m.core.(routes := if found then m.core.routes + 1 else m.core.routes)), dst, Flag(found))
  }

  function Sensed(m: Machine, dst: nat, cell: Option<int>): Outcome
    requires m.core.Valid() && IsReg(dst)
  {
    Write(m, dst, TritWord(if cell.Some? then cell.value else 0))
  }

  function ExecFabric(m: Machine, ins: Instr, env: Outside): Outcome
    requires Executable(m, ins) && ins.op in {TROUTE, TBIAS, TSENSE}
  {
    var regs, byName := m.core.regs, ins.imm == 0;
    match ins.op
    case TROUTE =>
      RouteFound(m, ins.dst, FindCell(m, byName, regs[ins.srcA], env.fabric), FindCell(m, byName, regs[ins.srcB], env.fabric))
    case TBIAS => Write(m, ins.dst, Flag(0 <= Value(regs[ins.srcA]) < m.core.routes))
    case TSENSE => Sensed(m, ins.dst, FindCell(m, byName, regs[ins.srcA], env.fabric))
  }

  /** One instruction, its pointer and counter already advanced. */
  function Exec(prog: seq<Instr>, m: Machine, ins: Instr, env: Outside): Outcome
    requires Executable(m, ins)
  {
    match ins.op
    case TNOP => Finish(m.core, m.mem)
    case TLDI | TMOV | TADD | TSUB | TCMP | TSEL => ExecAlu(m, ins)
    case TJMP => Jump(prog, m, ins.imm)
    case TBRNEG => Branch(prog, m, m.core.regs[ins.srcA][0] == -1, ins.imm)
    case TBRZERO => Branch(prog, m, m.core.regs[ins.srcA][0] == 0, ins.imm)
    case TBRPOS => Branch(prog, m, m.core.regs[ins.srcA][0] == 1, ins.imm)
    case TSEND | TRECV | TSYS => ExecCall(m, ins, env)
    case THALT => Outcome(Ok, m.(core := m.core.(status := Halted)))
    case TLD | TST | TFLUSH | TINV => ExecMemory(m, ins)
    case TROUTE | TBIAS | TSENSE => ExecFabric(m, ins, env)
    case Unknown(_) => Stop(m, InvalidOpcode)
  }

  function CheckState(prog: seq<Instr>, c: Core): Err
  {
    if |prog| == 0 then InvalidState else if c.ip >= |prog| then PcOutOfRange else Ok
  }

  function Advanced(c: Core): Core
  {
    c.(status := Running, ip := c.ip + 1, steps := (c.steps + 1) % 0x1_0000_0000)
  }

  function RunNext(prog: seq<Instr>, m: Machine, env: Outside): Outcome
    requires m.core.Valid() && MemoryOk(m.mem) && InBounds(prog) && m.core.ip < |prog|
  {
    var ins := prog[m.core.ip];
    if !FieldsChecked(ins) then Stop(m.(core := m.core.(status := Running)), InvalidRegister)
    else Exec(prog, m.(core := Advanced(m.core)), ins, env)
  }

  function Step(prog: seq<Instr>, m: Machine, env: Outside): Outcome
    requires m.core.Valid() && MemoryOk(m.mem) && InBounds(prog)
  {
    var err := CheckState(prog, m.core);
    if err != Ok then Outcome(err, m)
    else if m.core.status == Halted then Outcome(InvalidState, m)
    else if m.core.status == Faulted then Outcome(Fail, m)
    else RunNext(prog, m, env)
  }

  /** Eight registers, and a cache exactly if there was one. */
  ghost predicate Shaped(m: Machine, o: Outcome)
  {
    && o.machine.core.Valid() && MemoryOk(o.machine.mem)
    && o.machine.mem.Cached? == m.mem.Cached?
  }

  lemma WriteShape(m: Machine, r: nat, w: Word)
    requires m.core.Valid() && MemoryOk(m.mem) && IsReg(r)
    ensures Shaped(m, Write(m, r, w))
  {
  }

  lemma AluShape(m: Machine, ins: Instr)
    requires Executable(m, ins) && ins.op in {TLDI, TMOV, TADD, TSUB, TCMP, TSEL}
    ensures Shaped(m, ExecAlu(m, ins))
  {
  }

  lemma MemoryShape(m: Machine, ins: Instr)
    requires Executable(m, ins) && ins.op in {TLD, TST, TFLUSH, TINV}
    ensures Shaped(m, ExecMemory(m, ins))
  {
    if m.mem.Cached? {
      LoadShape(m.mem.tier, Address(m.core.regs[if ins.op == TST then ins.dst else ins.srcA]));
    }
  }

  lemma CallShape(m: Machine, ins: Instr, env: Outside)
    requires Executable(m, ins) && ins.op in {TSEND, TRECV, TSYS}
    ensures Shaped(m, ExecCall(m, ins, env))
  {
  }

  lemma RouteShape(m: Machine, dst: nat, source: Option<int>, sink: Option<int>)
    requires m.core.Valid() && MemoryOk(m.mem) && IsReg(dst)
    ensures Shaped(m, RouteFound(m, dst, source, sink))
  {
  }

  lemma SenseShape(m: Machine, dst: nat, cell: Option<int>)
    requires m.core.Valid() && MemoryOk(m.mem) && IsReg(dst)
    ensures Shaped(m, Sensed(m, dst, cell))
  {
  }

  lemma FabricShape(m: Machine, ins: Instr, env: Outside)
    requires Executable(m, ins) && ins.op in {TROUTE, TBIAS, TSENSE}
    ensures Shaped(m, ExecFabric(m, ins, env))
  {
    var regs, byName := m.core.regs, ins.imm == 0;
    match ins.op
    case TROUTE =>
      RouteShape(m, ins.dst, FindCell(m, byName, regs[ins.srcA], env.fabric), FindCell(m, byName, regs[ins.srcB], env.fabric));
    case TBIAS => WriteShape(m, ins.dst, Flag(0 <= Value(regs[ins.srcA]) < m.core.routes));
    case TSENSE => SenseShape(m, ins.dst, FindCell(m, byName, regs[ins.srcA], env.fabric));
  }

  lemma ExecShape(prog: seq<Instr>, m: Machine, ins: Instr, env: Outside)
    requires Executable(m, ins)
    ensures Shaped(m, Exec(prog, m, ins, env))
  {
    match ins.op
    case TLDI | TMOV | TADD | TSUB | TCMP | TSEL => AluShape(m, ins);
    case TSEND | TRECV | TSYS => CallShape(m, ins, env);
    case TLD | TST | TFLUSH | TINV => MemoryShape(m, ins);
    case TROUTE | TBIAS | TSENSE => FabricShape(m, ins, env);
    case _ =>
  }

  /** A step leaves registers and cache of the size they were. */
  lemma StepShape(prog: seq<Instr>, m: Machine, env: Outside)
    requires m.core.Valid() && MemoryOk(m.mem) && InBounds(prog)
    ensures Shaped(m, Step(prog, m, env))
  {
    if CheckState(prog, m.core) == Ok && FieldsChecked(prog[m.core.ip]) {
      ExecShape(prog, m.(core := Advanced(m.core)), prog[m.core.ip], env);
    }
  }

  lemma LoadShape(t: Tier, a: nat)
    requires |t.lines| > 0
    ensures |Load(t, a).tier.lines| == |t.lines|
    ensures forall w: Word :: |Store(t, a, w).tier.lines| == |t.lines|
    ensures |FlushInvalidate(t, a).tier.lines| == |t.lines| && |Flush(t, a).tier.lines| == |t.lines|
  {
  }

  /** The loop of reflex_vm_run_bounded, with one answer of the outside for each step it may take. */
  function RunLoop(prog: seq<Instr>, m: Machine, envs: seq<Outside>): Outcome
    requires m.core.Valid() && MemoryOk(m.mem) && InBounds(prog)
    decreases |envs|
  {
    if m.core.status == Halted then Outcome(Ok, m)
    else if envs == [] then Outcome(Timeout, m)
    else
      StepShape(prog, m, envs[0]);
      var s := Step(prog, m, envs[0]);
      if s.err != Ok then s
      else if envs[0].late then Outcome(Timeout, s.machine)
      else RunLoop(prog, s.machine, envs[1..])
  }

  function Run(prog: seq<Instr>, m: Machine, envs: seq<Outside>): Outcome
    requires m.core.Valid() && MemoryOk(m.mem) && InBounds(prog)
  {
    if |envs| == 0 then Outcome(InvalidArg, m)
    else
      var err := CheckState(prog, m.core);
      if err != Ok then Outcome(err, m) else RunLoop(prog, m, envs)
  }
}

/** vm/interpreter.c: the VM object and its step and run loops, proved to take exactly the steps of module Vm. */
module Interpreter {
  import opened Arith
  import opened Cache
  import opened Errors
  import opened Mmu
  import opened Ternary
  import opened Vm
  import TernaryOps

  // ---- The arithmetic of vm/ternary.c on register values ----

  method OfWord(w: Word) returns (a: array<int>)
    ensures fresh(a) && a.Length == 18 && a[..] == w
  {
    a := new int[18](i requires 0 <= i < 18 => w[i]);
  }

  method FromInt(v: int) returns (r: Option<Word>)
    requires TernaryOps.INT32_MIN <= v <= TernaryOps.INT32_MAX
    ensures r == if Fits(v) then Some(Encode(v)) else None
  {
    var out := OfWord(ZERO);
    var err := TernaryOps.FromInt32(v, out);
    r := if err == Ok then Some(out[..]) else None;
  }

  method ToInt(w: Word) returns (r: Option<int>)
    ensures r == if AllTrits(w) then Some(Value(w)) else None
  {
    var a := OfWord(w);
    var err, v := TernaryOps.ToInt32(a);
    r := if err == Ok then Some(v) else None;
  }

  method Sum(a: Word, b: Word) returns (r: Option<Word>)
    ensures r == AddWords(a, b)
  {
    var lhs := OfWord(a);
    var rhs := OfWord(b);
    var out := OfWord(ZERO);
    var err := TernaryOps.Add(lhs, rhs, out);
    r := if err == Ok then Some(out[..]) else None;
  }

  method Difference(a: Word, b: Word) returns (r: Option<Word>)
    ensures r == SubtractWords(a, b)
  {
    var lhs := OfWord(a);
    var rhs := OfWord(b);
    var out := OfWord(ZERO);
    var err := TernaryOps.Subtract(lhs, rhs, out);
    r := if err == Ok then Some(out[..]) else None;
  }

  method Comparison(a: Word, b: Word) returns (r: Option<Word>)
    ensures r == FromTrit(CompareWords(a, b))
  {
    var lhs := OfWord(a);
    var rhs := OfWord(b);
    var err, sign := TernaryOps.Compare(lhs, rhs);
    r := if err == Ok then Some(TritWord(sign)) else None;
  }

  method Selection(t: int, negative: Word, zero: Word, positive: Word) returns (r: Option<Word>)
    ensures r == SelectWord(t, negative, zero, positive)
  {
    var n := OfWord(negative);
    var z := OfWord(zero);
    var p := OfWord(positive);
    var out := OfWord(ZERO);
    var err := TernaryOps.Select(t, n, z, p, out);
    r := if err == Ok then Some(out[..]) else None;
  }

  /** reflex_vm_get_string: up to fifteen characters into a sixteen-character buffer. */
  method GetString(mmu: Mmu, a: nat, out: array<int>) returns (err: Err)
    requires mmu.Valid() && a < U32 && out.Length == NAME_CHARS + 1
    modifies out
    ensures var chars := ReadChars(mmu.regions, a, NAME_CHARS);
      if chars.None? then err == Fail else err == Ok && CString(out[..]) == CString(chars.value)
  {
    ghost var rs := mmu.regions;
    ghost var whole := ReadChars(rs, a, NAME_CHARS);
    NothingRead(rs, a);
    for i := 0 to NAME_CHARS
      invariant ReadUpTo(rs, whole, a, i, out[..i])
    {
      ghost var before := out[..i];
      ReadOne(rs, whole, a, i, before);
      var got, w := mmu.GetRaw(UAdd(a, i));
      if got != Ok {
        out[i] := 0;
        return Fail;
      }
      var v := Value(w);
      out[i] := v % 256;
      if v == 0 {
        assert out[..i] == before;
        Terminated(before, out[..]);
        return Ok;
      }
      assert out[..i + 1] == before + [v % 256];
    }
    ghost var all := out[..NAME_CHARS];
    AllRead(rs, whole, a, all);
    out[NAME_CHARS] := 0;
    assert out[..NAME_CHARS] == all;
    Terminated(all, out[..]);
    return Ok;
  }

  class Interpreter {
    const mmu: Mmu
    /** Null when memory is reached directly. */
    const cache: Cache?
    var program: seq<Instr>
    var registers: seq<Word>
    var ip: nat
    var status: Status
    var fault: Fault
    var steps: nat
    var routes: nat
    ghost var calls: seq<Event>

    ghost function Repr(): set<object>
    {
      {this, mmu} + if cache == null then {} else {cache, cache.lines}
    }

    ghost predicate Valid()
      reads Repr()
    {
      && |registers| == REGISTERS && mmu.Valid() && (cache != null ==> cache.Valid())
    }

    ghost function Core(): Core
      reads this
    {
      Vm.Core(registers, ip, status, fault, steps, routes, calls)
    }

    ghost function Memory(): (m: Memory)
      reads Repr()
      requires Valid()
      ensures MemoryOk(m)
    {
      if cache == null then Plain(mmu.regions) else Cached(cache.Over(mmu))
    }

    /** The machine this object is. */
    ghost function State(): (m: Machine)
      reads Repr()
      requires Valid()
      ensures m.core.Valid() && MemoryOk(m.mem)
    {
      Machine(Core(), Memory())
    }

    constructor (memory: Mmu, soft: Cache?)
      requires memory.Valid() && (soft != null ==> soft.Valid())
      ensures Valid() && mmu == memory && cache == soft && program == [] && ip == 0 && status == Ready
      ensures Memory() == if soft == null then Plain(memory.regions) else Cached(soft.Over(memory))
    {
      mmu, cache := memory, soft;
      program, registers := [], seq(REGISTERS, _ => ZERO);
      ip, steps, routes := 0, 0, 0;
      status, fault := Ready, NoFault;
      calls := [];
    }

    method Reset()
      modifies this
      ensures |registers| == REGISTERS && forall r :: 0 <= r < REGISTERS ==> registers[r] == ZERO
      ensures status == Ready && fault == NoFault && ip == 0 && steps == 0
      ensures unchanged(`program) && unchanged(`routes) && unchanged(`calls)
    {
      registers := seq(REGISTERS, _ => ZERO);
      status, fault := Ready, NoFault;
      ip, steps := 0, 0;
    }

    method Raise(f: Fault) returns (err: Err)
      requires Valid()
      modifies this
      ensures Valid() && Outcome(err, State()) == Stop(old(State()), f)
      ensures unchanged(`program)
    {
      status, fault := Faulted, f;
      return Fail;
    }

    /** The common end of an instruction. */
    method Done() returns (err: Err)
      requires Valid()
      modifies this
      ensures Valid() && Outcome(err, State()) == Finish(old(Core()), old(Memory()))
      ensures unchanged(`program)
    {
      if status == Running {
        status := Ready;
      }
      return Ok;
    }

    method PutWord(r: nat, w: Word) returns (err: Err)
      requires Valid() && IsReg(r)
      modifies this
      ensures Valid() && Outcome(err, State()) == Write(old(State()), r, w)
      ensures unchanged(`program)
    {
      registers := registers[r := w];
      err := Done();
    }

    method PutOr(r: nat, w: Option<Word>, f: Fault) returns (err: Err)
      requires Valid() && IsReg(r)
      modifies this
      ensures Valid() && Outcome(err, State()) == WriteOr(old(State()), r, w, f)
      ensures unchanged(`program)
    {
      if w.None? {
        err := Raise(f);
      } else {
        err := PutWord(r, w.value);
      }
    }

    method JumpTo(target: int) returns (err: Err)
      requires Valid()
      modifies this
      ensures Valid() && Outcome(err, State()) == Jump(old(program), old(State()), target)
      ensures unchanged(`program)
    {
      if target < 0 || target >= |program| {
        err := Raise(PcFault);
        return;
      }
      ip := target;
      return Ok;
    }

    method Alu(ins: Instr) returns (err: Err)
      requires Valid() && Executable(State(), ins)
      requires ins.op in {TLDI, TMOV, TADD, TSUB, TCMP, TSEL}
      requires TernaryOps.INT32_MIN <= ins.imm <= TernaryOps.INT32_MAX
      modifies this
      ensures Valid() && Outcome(err, State()) == ExecAlu(old(State()), ins)
      ensures unchanged(`program)
    {
      var w: Option<Word>;
      match ins.op
      case TLDI =>
        w := FromInt(ins.imm);
        err := PutOr(ins.dst, w, InvalidImmediate);
      case TMOV =>
        err := PutWord(ins.dst, registers[ins.srcA]);
      case TADD =>
        w := Sum(registers[ins.srcA], registers[ins.srcB]);
        err := PutOr(ins.dst, w, ArithmeticOverflow);
      case TSUB =>
        w := Difference(registers[ins.srcA], registers[ins.srcB]);
        err := PutOr(ins.dst, w, ArithmeticOverflow);
      case TCMP =>
        w := Comparison(registers[ins.srcA], registers[ins.srcB]);
        err := PutOr(ins.dst, w, ArithmeticOverflow);
      case TSEL =>
        var negReg, posReg := ins.imm % 8, ins.imm / 8 % 8;
        w := Selection(registers[ins.srcA][0], registers[negReg], registers[ins.srcB], registers[posReg]);
        err := PutOr(ins.dst, w, ArithmeticOverflow);
    }

    method LoadStore(ins: Instr) returns (err: Err)
      requires Valid() && Executable(State(), ins) && ins.op in {TLD, TST}
      modifies Repr()
      ensures Valid() && Outcome(err, State()) == ExecMemory(old(State()), ins)
      ensures unchanged(`program)
    {
      var n := ToInt(registers[if ins.op == TLD then ins.srcA else ins.dst]);
      if n.None? {
        return InvalidArg;
      }
      var a := n.value % 0x1_0000_0000;
      if ins.op == TLD {
        var w: Word;
        if cache != null {
          err, w := cache.LoadWord(mmu, a);
        } else {
          err, w := mmu.GetRaw(a);
        }
        if err != Ok {
          err := Raise(InvalidMemoryAccess);
          return;
        }
        err := PutWord(ins.dst, w);
      } else {
        if cache != null {
          err := cache.StoreWord(mmu, a, registers[ins.srcA]);
        } else {
          err := mmu.SetRaw(a, registers[ins.srcA]);
        }
        if err != Ok {
          err := Raise(InvalidMemoryAccess);
          return;
        }
        err := Done();
      }
    }

    method CacheControl(ins: Instr) returns (err: Err)
      requires Valid() && Executable(State(), ins) && ins.op in {TFLUSH, TINV}
      modifies Repr()
      ensures Valid() && Outcome(err, State()) == ExecMemory(old(State()), ins)
      ensures unchanged(`program)
    {
      var n := ToInt(registers[ins.srcA]);
      if n.None? {
        return InvalidArg;
      }
      var a := n.value % 0x1_0000_0000;
      if cache != null {
        if ins.op == TFLUSH {
          err := cache.FlushLine(mmu, a);
        } else {
          err := cache.FlushInvalidateLine(mmu, a);
        }
      }
      err := Done();
    }

    method CallOut(ins: Instr, env: Outside) returns (err: Err)
      requires Valid() && Executable(State(), ins) && ins.op in {TSEND, TRECV, TSYS}
      modifies this
      ensures Valid() && Outcome(err, State()) == ExecCall(old(State()), ins, env)
      ensures unchanged(`program)
    {
      match ins.op
      case TSEND =>
        var to := ToInt(registers[ins.dst]);
        if to.None? {
          return InvalidArg;
        }
        if to.value < 0 || to.value > 255 {
          err := Raise(InvalidImmediate);
          return;
        }
        calls := calls + [Sent(to.value, ins.imm % 256, registers[ins.srcA])];
        if !env.sendOk {
          err := Raise(InvalidSyscall);
          return;
        }
        err := Done();
      case TRECV =>
        match env.recv {
          case Message(w) => err := PutWord(ins.dst, w);
          case Empty => err := PutWord(ins.dst, ZERO);
          case Broken => err := Done();
        }
      case TSYS =>
        if env.syscall.NoHandler? {
          err := Raise(InvalidSyscall);
          return;
        }
        calls := calls + [Called(ins.imm, registers[ins.srcA], registers[ins.srcB])];
        if !env.syscall.Answer? {
          err := Raise(InvalidSyscall);
          return;
        }
        err := PutWord(ins.dst, env.syscall.word);
    }

    method FindCellBy(byName: bool, w: Word, env: Outside) returns (cell: Option<int>)
      requires Valid()
      ensures Valid() && State() == old(State()) && unchanged(this)
      ensures cell == FindCell(State(), byName, w, env.fabric)
    {
      if byName {
        var name := new int[NAME_CHARS + 1](_ => 0);
        var err := GetString(mmu, Value(w) % 0x1_0000_0000, name);
        if err != Ok {
          return None;
        }
        var s := CString(name[..]);
        return if s in env.fabric.names then Some(env.fabric.names[s]) else None;
      }
      var coord := w[..9];
      return if coord in env.fabric.coords then Some(env.fabric.coords[coord]) else None;
    }

    method Route(ins: Instr, env: Outside) returns (err: Err)
      requires Valid() && Executable(State(), ins) && ins.op == TROUTE
      modifies this
      ensures Valid() && unchanged(`program)
      ensures Outcome(err, State()) == RouteFound(old(State()), ins.dst,
        FindCell(old(State()), ins.imm == 0, old(registers)[ins.srcA], env.fabric),
        FindCell(old(State()), ins.imm == 0, old(registers)[ins.srcB], env.fabric))
    {
      var source := FindCellBy(ins.imm == 0, registers[ins.srcA], env);
      var sink := FindCellBy(ins.imm == 0, registers[ins.srcB], env);
      err := Connect(ins.dst, source, sink);
    }

    /** The end of TROUTE, both cells looked up. */
    method Connect(dst: nat, source: Option<int>, sink: Option<int>) returns (err: Err)
      requires Valid() && IsReg(dst)
      modifies this
      ensures Valid() && unchanged(`program)
      ensures Outcome(err, State()) == RouteFound(old(State()), dst, source, sink)
    {
      var found := source.Some? && sink.Some? && routes < MAX_ROUTES;
      if found {
        routes := routes + 1;
      }
      err := PutWord(dst, Flag(found));
    }

    method Sense(ins: Instr, env: Outside) returns (err: Err)
      requires Valid() && Executable(State(), ins) && ins.op == TSENSE
      modifies this
      ensures Valid() && unchanged(`program)
      ensures Outcome(err, State()) == Sensed(old(State()), ins.dst,
        FindCell(old(State()), ins.imm == 0, old(registers)[ins.srcA], env.fabric))
    {
      var cell := FindCellBy(ins.imm == 0, registers[ins.srcA], env);
      err := PutWord(ins.dst, TritWord(if cell.Some? then cell.value else 0));
    }

    method Bias(ins: Instr) returns (err: Err)
      requires Valid() && Executable(State(), ins) && ins.op == TBIAS
      modifies this
      ensures Valid() && unchanged(`program)
      ensures Outcome(err, State()) == Write(old(State()), ins.dst, Flag(0 <= Value(old(registers)[ins.srcA]) < old(routes)))
    {
      var index := Value(registers[ins.srcA]);
      err := PutWord(ins.dst, Flag(0 <= index < routes));
    }

    /** Instructions that only move the pointer or the status. */
    method Control(ins: Instr, env: Outside) returns (err: Err)
      requires Valid() && Executable(State(), ins)
      requires ins.op in {TNOP, TJMP, TBRNEG, TBRZERO, TBRPOS, THALT} || ins.op.Unknown?
      modifies this
      ensures Valid() && Outcome(err, State()) == Exec(old(program), old(State()), ins, env)
      ensures unchanged(`program)
    {
      match ins.op
      case TJMP => err := JumpTo(ins.imm);
      case TBRNEG => err := BranchIf(registers[ins.srcA][0] == -1, ins.imm);
      case TBRZERO => err := BranchIf(registers[ins.srcA][0] == 0, ins.imm);
      case TBRPOS => err := BranchIf(registers[ins.srcA][0] == 1, ins.imm);
      case THALT =>
        status := Halted;
        err := Ok;
      case Unknown(_) => err := Raise(InvalidOpcode);
      case TNOP => err := Done();
    }

    /** The dispatch of reflex_vm_step. */
    method Dispatch(ins: Instr, env: Outside) returns (err: Err)
      requires Valid() && Executable(State(), ins)
      modifies Repr()
      ensures Valid() && Outcome(err, State()) == Exec(old(program), old(State()), ins, env)
      ensures unchanged(`program)
    {
      match ins.op
      case TLDI | TMOV | TADD | TSUB | TCMP | TSEL => err := Alu(ins);
      case TSEND | TRECV | TSYS => err := CallOut(ins, env);
      case TLD | TST => err := LoadStore(ins);
      case TFLUSH | TINV => err := CacheControl(ins);
      case TROUTE | TBIAS | TSENSE => err := OnFabric(ins, env);
      case _ => err := Control(ins, env);
    }

    method OnFabric(ins: Instr, env: Outside) returns (err: Err)
      requires Valid() && Executable(State(), ins) && ins.op in {TROUTE, TBIAS, TSENSE}
      modifies this
      ensures Valid() && Outcome(err, State()) == ExecFabric(old(State()), ins, env)
      ensures unchanged(`program)
    {
      match ins.op
      case TROUTE => err := Route(ins, env);
      case TBIAS => err := Bias(ins);
      case TSENSE => err := Sense(ins, env);
    }

    method BranchIf(taken: bool, target: int) returns (err: Err)
      requires Valid()
      modifies this
      ensures Valid() && Outcome(err, State()) == Branch(old(program), old(State()), taken, target)
      ensures unchanged(`program)
    {
      if taken {
        err := JumpTo(target);
      } else {
        err := Done();
      }
    }

    method ValidateState() returns (err: Err)
      requires Valid()
      ensures err == CheckState(program, Core())
    {
      return if |program| == 0 then InvalidState else if ip >= |program| then PcOutOfRange else Ok;
    }

    /** Counting the instruction about to run. */
    method Advance()
      requires Valid() && status == Running
      modifies this
      ensures Valid() && unchanged(`program) && State() == old(State()).(core := Advanced(old(Core())))
    {
      ip, steps := ip + 1, (steps + 1) % 0x1_0000_0000;
    }

    method RunInstruction(env: Outside) returns (err: Err)
      requires Valid() && InBounds(program) && ip < |program|
      modifies Repr()
      ensures Valid() && Outcome(err, State()) == RunNext(old(program), old(State()), env)
      ensures unchanged(`program)
    {
      ghost var m, prog := State(), program;
      status := Running;
      var ins := program[ip];
      if !FieldsChecked(ins) {
        err := Raise(InvalidRegister);
        return;
      }
      Advance();
      NextRuns(prog, m, State(), ins, env);
      err := Dispatch(ins, env);
    }

    method StepOnce(env: Outside) returns (err: Err)
      requires Valid() && InBounds(program)
      modifies Repr()
      ensures Valid() && Outcome(err, State()) == Step(old(program), old(State()), env)
      ensures unchanged(`program)
    {
      err := ValidateState();
      if err != Ok {
        return;
      }
      if status == Halted {
        return InvalidState;
      }
      if status == Faulted {
        return Fail;
      }
      err := RunInstruction(env);
    }

    /** `envs` holds what the outside answers during each of at most |envs| steps; a budget of 0 is no late answer. */
    method RunBounded(envs: seq<Outside>) returns (err: Err)
      requires Valid() && InBounds(program)
      modifies Repr()
      ensures Valid() && Outcome(err, State()) == Run(old(program), old(State()), envs)
      ensures unchanged(`program)
    {
      if |envs| == 0 {
        return InvalidArg;
      }
      err := ValidateState();
      if err != Ok {
        return;
      }
      var taken := 0;
      while status != Halted && taken < |envs|
        invariant Valid() && taken <= |envs| && program == old(program)
        invariant RunLoop(program, State(), envs[taken..]) == RunLoop(program, old(State()), envs)
      {
        ghost var rest := envs[taken..];
        assert rest[0] == envs[taken] && rest[1..] == envs[taken + 1..];
        StepShape(program, State(), envs[taken]);
        err := StepOnce(envs[taken]);
        if err != Ok {
          return;
        }
        taken := taken + 1;
        if envs[taken - 1].late {
          return Timeout;
        }
      }
      return if status == Halted then Ok else Timeout;
    }
  }

  lemma NextRuns(prog: seq<Instr>, m: Machine, n: Machine, ins: Instr, env: Outside)
    requires m.core.Valid() && MemoryOk(m.mem) && InBounds(prog) && m.core.ip < |prog| && ins == prog[m.core.ip]
    requires FieldsChecked(ins) && n == m.(core := Advanced(m.core))
    ensures Executable(n, ins) && RunNext(prog, m, env) == Exec(prog, n, ins, env)
  {
  }

  /** The i characters read so far and those still to be read make up the whole. */
  ghost predicate ReadUpTo(rs: seq<Region>, whole: Option<seq<int>>, a: nat, i: nat, done: seq<int>)
    requires a < U32 && i <= NAME_CHARS
  {
    var rest := ReadChars(rs, UAdd(a, i), NAME_CHARS - i);
    whole == if rest.None? then None else Some(done + rest.value)
  }

  lemma NothingRead(rs: seq<Region>, a: nat)
    requires a < U32
    ensures ReadUpTo(rs, ReadChars(rs, a, NAME_CHARS), a, 0, [])
  {
    var whole := ReadChars(rs, a, NAME_CHARS);
    if whole.Some? {
      assert [] + whole.value == whole.value;
    }
  }

  lemma AllRead(rs: seq<Region>, whole: Option<seq<int>>, a: nat, done: seq<int>)
    requires a < U32 && ReadUpTo(rs, whole, a, NAME_CHARS, done)
    ensures whole == Some(done)
  {
    assert done + [] == done;
  }

  /** One turn of the character loop. */
  lemma ReadOne(rs: seq<Region>, whole: Option<seq<int>>, a: nat, i: nat, done: seq<int>)
    requires a < U32 && i < NAME_CHARS && ReadUpTo(rs, whole, a, i, done)
    ensures At(rs, UAdd(a, i)).None? ==> whole == None
    ensures At(rs, UAdd(a, i)).Some? ==>
      var v := Value(At(rs, UAdd(a, i)).value);
      if v == 0 then whole == Some(done) else ReadUpTo(rs, whole, a, i + 1, done + [v % 256])
  {
    var b, n := UAdd(a, i), NAME_CHARS - i;
    ReadFirst(rs, b, n);
    assert UAdd(b, 1) == UAdd(a, i + 1);
    if At(rs, b).Some? {
      var v, rest := Value(At(rs, b).value), ReadChars(rs, UAdd(b, 1), n - 1);
      assert done + [] == done;
      if rest.Some? {
        assert done + ([v % 256] + rest.value) == done + [v % 256] + rest.value;
      }
    }
  }

  lemma ReadFirst(rs: seq<Region>, b: nat, n: nat)
    requires b < U32 && n > 0
    ensures At(rs, b).None? ==> ReadChars(rs, b, n) == None
    ensures At(rs, b).Some? ==>
      var v, rest := Value(At(rs, b).value), ReadChars(rs, UAdd(b, 1), n - 1);
      ReadChars(rs, b, n) == if v == 0 then Some([]) else if rest.None? then None else Some([v % 256] + rest.value)
  {
  }

  /** Characters followed by a zero byte are a C string, whatever comes after. */
  lemma {:induction false} Terminated(s: seq<int>, buffer: seq<int>)
    requires |s| < |buffer| && buffer[..|s|] == s && buffer[|s|] == 0
    ensures CString(buffer) == CString(s)
  {
    if s != [] {
      assert buffer[0] == s[0] && buffer[1..][..|s| - 1] == s[1..];
      Terminated(s[1..], buffer[1..]);
    }
  }
}

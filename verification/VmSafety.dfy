/** What can still go wrong in a program the loader accepted. */
module VmSafety {
  import opened Cache
  import opened Errors
  import opened Mmu
  import opened Ternary
  import opened Vm

  predicate IsJump(op: Op) { op == TJMP || op == TBRNEG || op == TBRZERO || op == TBRPOS }

  /** What the loader establishes of one instruction of a program of n; `imm` has 17 signed bits in a packed image. */
  predicate SafeInstr(ins: Instr, n: nat)
  {
    && !ins.op.Unknown? && FieldsChecked(ins) && UncheckedInBounds(ins)
    && (IsJump(ins.op) ==> 0 <= ins.imm < n)
    && (ins.op == TLDI ==> Fits(ins.imm))
  }

  predicate SafeCode(prog: seq<Instr>)
  {
    forall i :: 0 <= i < |prog| ==> SafeInstr(prog[i], |prog|)
  }

  ghost predicate TritsInRegions(rs: seq<Region>)
  {
    forall a: nat :: At(rs, a).Some? ==> AllTrits(At(rs, a).value)
  }

  ghost predicate TritsInMemory(m: Memory)
  {
    && TritsInRegions(RawRegions(m))
    && (m.Cached? ==> |m.tier.lines| > 0 && forall i :: 0 <= i < |m.tier.lines| ==> AllTrits(m.tier.lines[i].value))
  }

  ghost predicate TritsInRegs(c: Core)
  {
    forall r :: 0 <= r < |c.regs| ==> AllTrits(c.regs[r])
  }

  /** Registers and memory hold valid trits. */
  ghost predicate Sound(m: Machine)
  {
    m.core.Valid() && TritsInRegs(m.core) && TritsInMemory(m.mem)
  }

  /** The outside answers with valid words. */
  ghost predicate FairOutside(env: Outside)
  {
    && (env.recv.Message? ==> AllTrits(env.recv.payload))
    && (env.syscall.Answer? ==> AllTrits(env.syscall.word))
    && (forall n :: n in env.fabric.names ==> IsTrit(env.fabric.names[n]))
    && (forall n :: n in env.fabric.coords ==> IsTrit(env.fabric.coords[n]))
  }

  /** Faults no accepted program raises. */
  predicate Forbidden(f: Fault) { f == InvalidOpcode || f == InvalidRegister || f == PcFault }

  /** A send to a node number that is not a byte. */
  predicate BadTarget(m: Machine, ins: Instr)
  {
    ins.op == TSEND && ins.dst < |m.core.regs| && !(0 <= Value(m.core.regs[ins.dst]) <= 255)
  }

  /** What one instruction of safe code may do, having started as machine m. */
  ghost predicate Tame(m: Machine, ins: Instr, o: Outcome)
  {
    && Sound(o.machine)
    && (o.err == Ok || o.err == Fail)
    && (o.err == Ok ==> o.machine.core.status != Faulted && o.machine.core.fault == m.core.fault)
    && (o.err == Fail ==> o.machine.core.status == Faulted && !Forbidden(o.machine.core.fault))
    && (o.err == Fail && o.machine.core.fault == InvalidImmediate <==> BadTarget(m, ins))
  }

  // ---- Memory keeps valid trits ----

  lemma SetTrits(rs: seq<Region>, a: nat, w: Word)
    requires TritsInRegions(rs) && AllTrits(w) && Mapped(rs, a)
    ensures TritsInRegions(Set(rs, a, w))
  {
    forall b: nat | At(Set(rs, a, w), b).Some? ensures AllTrits(At(Set(rs, a, w), b).value) {
      SetGet(rs, a, w, b);
    }
  }

  lemma WriteBackTrits(t: Tier, i: nat)
    requires TritsInMemory(Cached(t)) && i < |t.lines| && WriteBack(t.regions, t.lines[i]).Some?
    ensures TritsInMemory(Cached(Tier(t.lines, WriteBack(t.regions, t.lines[i]).value)))
  {
    if t.lines[i].state == M {
      SetTrits(t.regions, t.lines[i].tag, t.lines[i].value);
    }
  }

  lemma LineTrits(t: Tier, a: nat, l: Line)
    requires TritsInMemory(Cached(t)) && AllTrits(l.value)
    ensures TritsInMemory(Cached(t.WithLine(a, l)))
  {
  }

  lemma LoadTrits(m: Memory, a: nat)
    requires TritsInMemory(m)
    ensures TritsInMemory(LoadFrom(m, a).mem)
    ensures LoadFrom(m, a).word.Some? ==> AllTrits(LoadFrom(m, a).word.value)
  {
    if m.Cached? {
      var t := m.tier;
      var l := t.LineOf(a);
      if !(l.state != I && l.tag == a) && WriteBack(t.regions, l).Some? {
        WriteBackTrits(t, a % |t.lines|);
        var t' := Tier(t.lines, WriteBack(t.regions, l).value);
        if At(t'.regions, a).Some? {
          LineTrits(t', a, Line(a, E, At(t'.regions, a).value));
        }
      }
    }
  }

  lemma StoreTrits(m: Memory, a: nat, w: Word)
    requires TritsInMemory(m) && AllTrits(w)
    ensures TritsInMemory(StoreTo(m, a, w).mem)
  {
    match m
    case Plain(rs) =>
      if Mapped(rs, a) {
        SetTrits(rs, a, w);
      }
    case Cached(t) =>
      var l := t.LineOf(a);
      if l.tag == a {
        LineTrits(t, a, Line(a, M, w));
      } else if WriteBack(t.regions, l).Some? {
        WriteBackTrits(t, a % |t.lines|);
        LineTrits(Tier(t.lines, WriteBack(t.regions, l).value), a, Line(a, M, w));
      }
  }

  lemma FlushTrits(m: Memory, a: nat)
    requires TritsInMemory(m)
    ensures TritsInMemory(FlushAt(m, a)) && TritsInMemory(FlushInvalidateAt(m, a))
  {
    if m.Cached? {
      var t := m.tier;
      var l := t.LineOf(a);
      if l.state == M && l.tag == a && WriteBack(t.regions, l).Some? {
        WriteBackTrits(t, a % |t.lines|);
        LineTrits(Tier(t.lines, WriteBack(t.regions, l).value), a, l.(state := E));
      }
      var f := Flush(t, a).tier;
      if f.LineOf(a).tag == a {
        LineTrits(f, a, f.LineOf(a).(state := I));
      }
    }
  }

  // ---- One instruction ----

  lemma WriteTame(m: Machine, r: nat, w: Word, ins: Instr)
    requires Sound(m) && m.core.status == Running && IsReg(r) && AllTrits(w) && !BadTarget(m, ins)
    ensures Tame(m, ins, Write(m, r, w))
  {
  }

  lemma AluTame(m: Machine, ins: Instr)
    requires Sound(m) && m.core.status == Running && Executable(m, ins)
    requires ins.op in {TLDI, TMOV, TADD, TSUB, TCMP, TSEL} && (ins.op == TLDI ==> Fits(ins.imm))
    ensures Tame(m, ins, ExecAlu(m, ins))
  {
    var regs := m.core.regs;
    match ins.op
    case TLDI => WriteTame(m, ins.dst, Encode(ins.imm), ins);
    case TMOV => WriteTame(m, ins.dst, regs[ins.srcA], ins);
    case TADD => OrTame(m, ins, AddWords(regs[ins.srcA], regs[ins.srcB]));
    case TSUB => OrTame(m, ins, SubtractWords(regs[ins.srcA], regs[ins.srcB]));
    case TCMP => OrTame(m, ins, FromTrit(CompareWords(regs[ins.srcA], regs[ins.srcB])));
    case TSEL =>
      OrTame(m, ins, SelectWord(regs[ins.srcA][0], regs[ins.imm % 8], regs[ins.srcB], regs[ins.imm / 8 % 8]));
  }

  lemma OrTame(m: Machine, ins: Instr, w: Option<Word>)
    requires Sound(m) && m.core.status == Running && IsReg(ins.dst) && !BadTarget(m, ins)
    requires w.Some? ==> AllTrits(w.value)
    ensures Tame(m, ins, WriteOr(m, ins.dst, w, ArithmeticOverflow))
  {
    if w.Some? {
      WriteTame(m, ins.dst, w.value, ins);
    }
  }

  lemma MemoryTame(m: Machine, ins: Instr)
    requires Sound(m) && m.core.status == Running && Executable(m, ins) && ins.op in {TLD, TST, TFLUSH, TINV}
    ensures Tame(m, ins, ExecMemory(m, ins))
  {
    var c := m.core;
    var a := Address(c.regs[if ins.op == TST then ins.dst else ins.srcA]);
    match ins.op
    case TLD =>
      LoadTrits(m.mem, a);
      var r := LoadFrom(m.mem, a);
      if r.word.Some? {
        WriteTame(Machine(c, r.mem), ins.dst, r.word.value, ins);
      }
    case TST => StoreTrits(m.mem, a, c.regs[ins.srcA]);
    case TFLUSH => FlushTrits(m.mem, a);
    case TINV => FlushTrits(m.mem, a);
  }

  lemma CallTame(m: Machine, ins: Instr, env: Outside)
    requires Sound(m) && m.core.status == Running && Executable(m, ins) && FairOutside(env)
    requires ins.op in {TSEND, TRECV, TSYS}
    ensures Tame(m, ins, ExecCall(m, ins, env))
  {
    match ins.op
    case TSEND =>
    case TRECV =>
      if env.recv.Message? {
        WriteTame(m, ins.dst, env.recv.payload, ins);
      } else if env.recv.Empty? {
        WriteTame(m, ins.dst, ZERO, ins);
      }
    case TSYS =>
      if env.syscall.Answer? {
        WriteTame(Note(m, Called(ins.imm, m.core.regs[ins.srcA], m.core.regs[ins.srcB])), ins.dst, env.syscall.word, ins);
      }
  }

  lemma RouteTame(m: Machine, ins: Instr, source: Option<int>, sink: Option<int>)
    requires Sound(m) && m.core.status == Running && IsReg(ins.dst) && !BadTarget(m, ins)
    ensures Tame(m, ins, RouteFound(m, ins.dst, source, sink))
  {
    var found := source.Some? && sink.Some? && m.core.routes < MAX_ROUTES;
    var m' := m.(core := m.core.(routes := if found then m.core.routes + 1 else m.core.routes));
    WriteTame(m', ins.dst, Flag(found), ins);
  }

  lemma SenseTame(m: Machine, ins: Instr, cell: Option<int>)
    requires Sound(m) && m.core.status == Running && IsReg(ins.dst) && !BadTarget(m, ins)
    requires cell.Some? ==> IsTrit(cell.value)
    ensures Tame(m, ins, Sensed(m, ins.dst, cell))
  {
    WriteTame(m, ins.dst, TritWord(if cell.Some? then cell.value else 0), ins);
  }

  lemma CellIsTrit(m: Machine, byName: bool, w: Word, env: Outside)
    requires FairOutside(env) && FindCell(m, byName, w, env.fabric).Some?
    ensures IsTrit(FindCell(m, byName, w, env.fabric).value)
  {
  }

  lemma FabricTame(m: Machine, ins: Instr, env: Outside)
    requires Sound(m) && m.core.status == Running && Executable(m, ins) && FairOutside(env)
    requires ins.op in {TROUTE, TBIAS, TSENSE}
    ensures Tame(m, ins, ExecFabric(m, ins, env))
  {
    var regs, byName := m.core.regs, ins.imm == 0;
    match ins.op
    case TROUTE =>
      RouteTame(m, ins, FindCell(m, byName, regs[ins.srcA], env.fabric), FindCell(m, byName, regs[ins.srcB], env.fabric));
    case TBIAS => WriteTame(m, ins.dst, Flag(0 <= Value(regs[ins.srcA]) < m.core.routes), ins);
    case TSENSE =>
      var cell := FindCell(m, byName, regs[ins.srcA], env.fabric);
      if cell.Some? {
        CellIsTrit(m, byName, regs[ins.srcA], env);
      }
      SenseTame(m, ins, cell);
  }

  lemma ExecTame(prog: seq<Instr>, m: Machine, ins: Instr, env: Outside)
    requires Sound(m) && m.core.status == Running && FairOutside(env)
    requires SafeInstr(ins, |prog|) && MemoryOk(m.mem)
    ensures Tame(m, ins, Exec(prog, m, ins, env))
  {
    match ins.op
    case TLDI | TMOV | TADD | TSUB | TCMP | TSEL => AluTame(m, ins);
    case TSEND | TRECV | TSYS => CallTame(m, ins, env);
    case TLD | TST | TFLUSH | TINV => MemoryTame(m, ins);
    case TROUTE | TBIAS | TSENSE => FabricTame(m, ins, env);
    case _ =>
  }

  /** Where an instruction leaves the pointer: a jump target in the program, or one further on. */
  lemma ExecGoes(prog: seq<Instr>, m: Machine, ins: Instr, env: Outside)
    requires Executable(m, ins) && SafeInstr(ins, |prog|)
    ensures Exec(prog, m, ins, env).machine.core.ip == m.core.ip
         || (IsJump(ins.op) && Exec(prog, m, ins, env).machine.core.ip == ins.imm)
  {
    match ins.op
    case TLDI | TMOV | TADD | TSUB | TCMP | TSEL =>
    case TSEND | TRECV | TSYS =>
    case TLD | TST | TFLUSH | TINV =>
    case TROUTE | TBIAS | TSENSE => FabricGoes(m, ins, env);
    case _ =>
  }

  lemma FabricGoes(m: Machine, ins: Instr, env: Outside)
    requires Executable(m, ins) && ins.op in {TROUTE, TBIAS, TSENSE}
    ensures ExecFabric(m, ins, env).machine.core.ip == m.core.ip
  {
    var regs, byName := m.core.regs, ins.imm == 0;
    if ins.op == TROUTE {
      assert RouteFound(m, ins.dst, FindCell(m, byName, regs[ins.srcA], env.fabric),
                        FindCell(m, byName, regs[ins.srcB], env.fabric)).machine.core.ip == m.core.ip;
    }
  }

  // ---- Runs ----

  /** What holds of a machine running safe code: valid trits everywhere, no forbidden fault, and a pointer
      that is out of range only by standing just past the last instruction. */
  ghost predicate Safe(prog: seq<Instr>, m: Machine)
  {
    && Sound(m) && MemoryOk(m.mem) && m.core.ip <= |prog|
    && !Forbidden(m.core.fault)
  }

  lemma StepSafe(prog: seq<Instr>, m: Machine, env: Outside)
    requires SafeCode(prog) && |prog| > 0 && Safe(prog, m) && FairOutside(env)
    ensures InBounds(prog) && Safe(prog, Step(prog, m, env).machine)
    ensures var s := Step(prog, m, env);
      && (s.err == PcOutOfRange <==> m.core.ip == |prog|)
      && (s.err == Ok || s.err == Fail || s.err == InvalidState || s.err == PcOutOfRange)
      && (s.err == InvalidState ==> m.core.status == Halted)
      && (s.err == Ok ==> s.machine.core.status != Faulted)
      && (s.machine.core.ip == |prog| ==> m.core.ip == |prog| || m.core.ip == |prog| - 1)
      && (Runs(m.core) && m.core.ip < |prog| ==>
            (s.err == Fail && s.machine.core.fault == InvalidImmediate <==> BadTarget(m, prog[m.core.ip])))
  {
    if m.core.ip < |prog| {
      var ins := prog[m.core.ip];
      assert SafeInstr(ins, |prog|);
      if Runs(m.core) {
        var m' := m.(core := Advanced(m.core));
        ExecTame(prog, m', ins, env);
        ExecGoes(prog, m', ins, env);
        ExecShape(prog, m', ins, env);
      }
    }
  }

  predicate Runs(c: Core) { c.status != Halted && c.status != Faulted }

  /** Some step of the run, the first to fail, is a send to a node number that is not a byte. */
  predicate MeetsBadSend(prog: seq<Instr>, m: Machine, envs: seq<Outside>)
    requires m.core.Valid() && MemoryOk(m.mem) && InBounds(prog)
    decreases |envs|
  {
    if !Runs(m.core) || envs == [] || m.core.ip >= |prog| then false
    else if BadTarget(m, prog[m.core.ip]) then true
    else
      StepShape(prog, m, envs[0]);
      var s := Step(prog, m, envs[0]);
      s.err == Ok && !envs[0].late && MeetsBadSend(prog, s.machine, envs[1..])
  }

  predicate BadSendFault(o: Outcome) { o.err == Fail && o.machine.core.fault == InvalidImmediate }

  /** In any run of safe code, however long: the state stays safe, the result is never one a bad image causes, and an
      immediate fault ends exactly the runs that come to a bad send. */
  lemma {:induction false} RunSafe(prog: seq<Instr>, m: Machine, envs: seq<Outside>)
    requires SafeCode(prog) && |prog| > 0 && Safe(prog, m)
    requires forall i :: 0 <= i < |envs| ==> FairOutside(envs[i])
    ensures InBounds(prog) && Safe(prog, RunLoop(prog, m, envs).machine)
    ensures var r := RunLoop(prog, m, envs);
      && (r.err == PcOutOfRange ==> r.machine.core.ip == |prog|)
      && (r.err == Ok || r.err == Timeout || r.err == Fail || r.err == PcOutOfRange)
    ensures m.core.status != Faulted ==> (BadSendFault(RunLoop(prog, m, envs)) <==> MeetsBadSend(prog, m, envs))
    decreases |envs|
  {
    if m.core.status != Halted && envs != [] {
      StepSafe(prog, m, envs[0]);
      var s := Step(prog, m, envs[0]);
      if s.err == Ok && !envs[0].late {
        RunSafe(prog, s.machine, envs[1..]);
      }
    }
  }
}

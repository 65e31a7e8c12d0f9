/** A run with the cache is a run without it. */
module VmRefine {
  import opened Arith
  import opened Cache
  import opened Errors
  import opened Mmu
  import opened Ternary
  import opened Vm

  /** The same machine, once with the cache and once on plain memory. */
  ghost predicate Same(c: Machine, p: Machine)
  {
    && c.core == p.core && c.mem.Cached? && p.mem.Plain?
    && StandsFor(c.mem.tier, p.mem.regions)
  }

  ghost predicate SameOutcome(c: Outcome, p: Outcome)
  {
    c.err == p.err && Same(c.machine, p.machine)
  }

  predicate ByName(ins: Instr) { (ins.op == TROUTE || ins.op == TSENSE) && ins.imm == 0 }

  /** A store whose address, as a number, no region holds. */
  predicate StoresUnmapped(regs: seq<Word>, regions: seq<Region>, ins: Instr)
  {
    && ins.op == TST && ins.dst < |regs| && ins.srcA < |regs|
    && AllTrits(regs[ins.dst]) && !Mapped(regions, Address(regs[ins.dst]))
  }

  /** No dirty line covers the characters a name lookup at `a` would read. */
  predicate Clean(t: Tier, a: nat, n: nat)
    requires |t.lines| > 0 && a < U32
    decreases n, a
  {
    n > 0 ==> !(t.LineOf(a).state == M && t.LineOf(a).tag == a) && Clean(t, UAdd(a, 1), n - 1)
  }

  ghost predicate NamesClean(t: Tier, regs: seq<Word>, ins: Instr)
    requires |t.lines| > 0
  {
    ByName(ins) && ins.srcA < |regs| && (ins.op == TROUTE ==> ins.srcB < |regs|) ==>
      && Clean(t, Address(regs[ins.srcA]), NAME_CHARS)
      && (ins.op == TROUTE ==> Clean(t, Address(regs[ins.srcB]), NAME_CHARS))
  }

  lemma {:induction false} CleanReads(t: Tier, plain: seq<Region>, a: nat, n: nat)
    requires StandsFor(t, plain) && a < U32 && Clean(t, a, n)
    ensures ReadChars(t.regions, a, n) == ReadChars(plain, a, n)
    decreases n, a
  {
    if n > 0 {
      assert At(plain, a) == View(t, a) == At(t.regions, a);
      if At(plain, a).Some? {
        CleanReads(t, plain, UAdd(a, 1), n - 1);
      }
    }
  }

  lemma CleanFinds(t: Tier, plain: seq<Region>, w: Word, byName: bool, f: Fabric, c: Machine, p: Machine)
    requires Same(c, p) && c.mem.tier == t && p.mem.regions == plain
    requires byName ==> Clean(t, Address(w), NAME_CHARS)
    ensures FindCell(c, byName, w, f) == FindCell(p, byName, w, f)
  {
    if byName {
      CleanReads(t, plain, Address(w), NAME_CHARS);
    }
  }

  lemma MemoryRefines(c: Machine, p: Machine, ins: Instr)
    requires Same(c, p) && Executable(c, ins) && ins.op in {TLD, TST, TFLUSH, TINV}
    requires !StoresUnmapped(p.core.regs, p.mem.regions, ins)
    ensures SameOutcome(ExecMemory(c, ins), ExecMemory(p, ins))
  {
    var word := c.core.regs[if ins.op == TST then ins.dst else ins.srcA];
    if AllTrits(word) {
      var t, plain, a := c.mem.tier, p.mem.regions, Address(word);
      match ins.op
      case TLD => LoadRefines(t, a, plain);
      case TST => StoreRefines(t, a, c.core.regs[ins.srcA], plain);
      case TFLUSH => FlushRefines(t, a, plain);
      case TINV => FlushInvalidateRefines(t, a, plain);
    }
  }

  lemma WriteRefines(c: Machine, p: Machine, r: nat, w: Word)
    requires Same(c, p) && c.core.Valid() && IsReg(r)
    ensures SameOutcome(Write(c, r, w), Write(p, r, w))
  {
  }

  lemma RouteRefines(c: Machine, p: Machine, dst: nat, source: Option<int>, sink: Option<int>)
    requires Same(c, p) && c.core.Valid() && IsReg(dst)
    ensures SameOutcome(RouteFound(c, dst, source, sink), RouteFound(p, dst, source, sink))
  {
  }

  lemma SenseRefines(c: Machine, p: Machine, dst: nat, cell: Option<int>)
    requires Same(c, p) && c.core.Valid() && IsReg(dst)
    ensures SameOutcome(Sensed(c, dst, cell), Sensed(p, dst, cell))
  {
  }

  lemma FabricRefines(c: Machine, p: Machine, ins: Instr, env: Outside)
    requires Same(c, p) && Executable(c, ins) && ins.op in {TROUTE, TBIAS, TSENSE}
    requires NamesClean(c.mem.tier, c.core.regs, ins)
    ensures SameOutcome(ExecFabric(c, ins, env), ExecFabric(p, ins, env))
  {
    var t, plain, regs, byName := c.mem.tier, p.mem.regions, c.core.regs, ins.imm == 0;
    match ins.op
    case TROUTE =>
      CleanFinds(t, plain, regs[ins.srcA], byName, env.fabric, c, p);
      CleanFinds(t, plain, regs[ins.srcB], byName, env.fabric, c, p);
      RouteRefines(c, p, ins.dst, FindCell(c, byName, regs[ins.srcA], env.fabric),
                   FindCell(c, byName, regs[ins.srcB], env.fabric));
    case TBIAS =>
      WriteRefines(c, p, ins.dst, Flag(0 <= Value(regs[ins.srcA]) < c.core.routes));
    case TSENSE =>
      CleanFinds(t, plain, regs[ins.srcA], byName, env.fabric, c, p);
      SenseRefines(c, p, ins.dst, FindCell(c, byName, regs[ins.srcA], env.fabric));
  }

  lemma CallRefines(c: Machine, p: Machine, ins: Instr, env: Outside)
    requires Same(c, p) && Executable(c, ins) && ins.op in {TSEND, TRECV, TSYS}
    ensures SameOutcome(ExecCall(c, ins, env), ExecCall(p, ins, env))
  {
  }

  lemma AluRefines(c: Machine, p: Machine, ins: Instr)
    requires Same(c, p) && Executable(c, ins) && ins.op in {TLDI, TMOV, TADD, TSUB, TCMP, TSEL}
    ensures SameOutcome(ExecAlu(c, ins), ExecAlu(p, ins))
  {
  }

  lemma ExecRefines(prog: seq<Instr>, c: Machine, p: Machine, ins: Instr, env: Outside)
    requires Same(c, p) && Executable(c, ins)
    requires NamesClean(c.mem.tier, c.core.regs, ins)
    requires !StoresUnmapped(p.core.regs, p.mem.regions, ins)
    ensures SameOutcome(Exec(prog, c, ins, env), Exec(prog, p, ins, env))
  {
    match ins.op
    case TLDI | TMOV | TADD | TSUB | TCMP | TSEL => AluRefines(c, p, ins);
    case TSEND | TRECV | TSYS => CallRefines(c, p, ins, env);
    case TLD | TST | TFLUSH | TINV => MemoryRefines(c, p, ins);
    case TROUTE | TBIAS | TSENSE => FabricRefines(c, p, ins, env);
    case _ =>
  }

  /** The instruction a step would run. */
  predicate Runs(prog: seq<Instr>, c: Core)
  {
    c.ip < |prog| && c.status != Halted && c.status != Faulted && FieldsChecked(prog[c.ip])
  }

  /** The next step is one the cache hides: no store outside the regions, and no name read past a dirty line. */
  ghost predicate Transparent(prog: seq<Instr>, c: Machine, p: Machine)
    requires Same(c, p)
  {
    Runs(prog, p.core) ==>
      && NamesClean(c.mem.tier, p.core.regs, prog[p.core.ip])
      && !StoresUnmapped(p.core.regs, p.mem.regions, prog[p.core.ip])
  }

  lemma StepRefines(prog: seq<Instr>, c: Machine, p: Machine, env: Outside)
    requires Same(c, p) && c.core.Valid() && InBounds(prog) && Transparent(prog, c, p)
    ensures SameOutcome(Step(prog, c, env), Step(prog, p, env))
  {
    if Runs(prog, p.core) {
      var c', p' := c.(core := Advanced(c.core)), p.(core := Advanced(p.core));
      ExecRefines(prog, c', p', prog[p.core.ip], env);
    }
  }

  /** A store outside the regions is where the two part: plain memory faults, the cache goes on. */
  lemma StoreParts(prog: seq<Instr>, c: Machine, p: Machine, env: Outside)
    requires Same(c, p) && c.core.Valid() && InBounds(prog) && Runs(prog, p.core)
    requires StoresUnmapped(p.core.regs, p.mem.regions, prog[p.core.ip])
    ensures Step(prog, c, env).err == Ok
    ensures Step(prog, p, env).err == Fail && Step(prog, p, env).machine.core.fault == InvalidMemoryAccess
  {
    var ins := prog[p.core.ip];
    StoreUnmapped(c.mem.tier, Address(p.core.regs[ins.dst]), p.core.regs[ins.srcA], p.mem.regions);
  }

  /** Without names, one step of the two machines agrees exactly when it does not store outside the regions. */
  lemma StepAgreesExactly(prog: seq<Instr>, c: Machine, p: Machine, env: Outside)
    requires Same(c, p) && c.core.Valid() && InBounds(prog) && Runs(prog, p.core) && !ByName(prog[p.core.ip])
    ensures SameOutcome(Step(prog, c, env), Step(prog, p, env))
       <==> !StoresUnmapped(p.core.regs, p.mem.regions, prog[p.core.ip])
  {
    if StoresUnmapped(p.core.regs, p.mem.regions, prog[p.core.ip]) {
      StoreParts(prog, c, p, env);
    } else {
      StepRefines(prog, c, p, env);
    }
  }

  /** On plain memory, no step of the run stores outside the regions or looks a cell up by name. */
  predicate Mapping(prog: seq<Instr>, p: Machine, envs: seq<Outside>)
    requires p.core.Valid() && p.mem.Plain? && InBounds(prog)
    decreases |envs|
  {
    p.core.status == Halted || envs == [] ||
    (StepShape(prog, p, envs[0]);
     var s := Step(prog, p, envs[0]);
     && (Runs(prog, p.core) ==>
           !ByName(prog[p.core.ip]) && !StoresUnmapped(p.core.regs, p.mem.regions, prog[p.core.ip]))
     && (s.err == Ok && !envs[0].late ==> Mapping(prog, s.machine, envs[1..])))
  }

  lemma {:induction false} RunLoopRefines(prog: seq<Instr>, c: Machine, p: Machine, envs: seq<Outside>)
    requires Same(c, p) && c.core.Valid() && InBounds(prog) && Mapping(prog, p, envs)
    ensures SameOutcome(RunLoop(prog, c, envs), RunLoop(prog, p, envs))
    decreases |envs|
  {
    if p.core.status != Halted && envs != [] {
      StepShape(prog, p, envs[0]);
      StepShape(prog, c, envs[0]);
      StepRefines(prog, c, p, envs[0]);
      var s := Step(prog, p, envs[0]);
      if s.err == Ok && !envs[0].late {
        RunLoopRefines(prog, Step(prog, c, envs[0]).machine, s.machine, envs[1..]);
      }
    }
  }

  /** From an empty cache, a run followed by a full flush ends as the run on plain memory:
      the same result, registers, pointer, status, fault, step count, outside calls and memory. */
  lemma CachedRunIsPlainRun(prog: seq<Instr>, core: Core, t: Tier, envs: seq<Outside>)
    requires core.Valid() && InBounds(prog) && t.Valid()
    requires forall i :: 0 <= i < |t.lines| ==> t.lines[i].state == I
    requires Mapping(prog, Machine(core, Plain(t.regions)), envs)
    ensures var cached := Run(prog, Machine(core, Cached(t)), envs);
            var plain := Run(prog, Machine(core, Plain(t.regions)), envs);
      && cached.err == plain.err && cached.machine.core == plain.machine.core
      && cached.machine.mem.Cached? && plain.machine.mem.Plain?
      && FlushAll(cached.machine.mem.tier).err == Ok
      && FlushAll(cached.machine.mem.tier).tier.regions == plain.machine.mem.regions
  {
    var c, p := Machine(core, Cached(t)), Machine(core, Plain(t.regions));
    EmptyCache(t);
    RunLoopRefines(prog, c, p, envs);
    var cached, plain := Run(prog, c, envs), Run(prog, p, envs);
    assert SameOutcome(cached, plain);
    FlushAllRefines(cached.machine.mem.tier, plain.machine.mem.regions);
  }

  // ---- Why names have to be clean ----

  /** Two words of memory, all zero, behind a cache of one line. */
  const BLANK: seq<Region> := [Region(0, Private, [ZERO, ZERO])]
  const EMPTY_LINE: Line := Line(0, I, ZERO)

  /** The machine when its program has stored a letter at address 0, still only in the cache, and comes to a TSENSE
      by the name there; and the same machine on plain memory. */
  function Lettered(letter: Word): Machine
  {
    Machine(Core(seq(REGISTERS, _ => ZERO), 0, Running, NoFault, 0, 0, []), Cached(Store(Tier([EMPTY_LINE], BLANK), 0, letter).tier))
  }

  function LetteredPlain(letter: Word): Machine
    requires Mapped(BLANK, 0)
  {
    Lettered(letter).(mem := Plain(Set(BLANK, 0, letter)))
  }

  lemma BlankIsMapped()
    ensures WellFormed(BLANK) && Mapped(BLANK, 0) && At(BLANK, 0) == At(BLANK, 1) == Some(ZERO)
  {
    FindUnique(BLANK, 0, 0);
    FindUnique(BLANK, 1, 0);
  }

  lemma LetteredIsSame(letter: Word)
    ensures Mapped(BLANK, 0) && Same(Lettered(letter), LetteredPlain(letter))
    ensures Lettered(letter).mem.tier.regions == BLANK && Lettered(letter).mem.tier.lines == [Line(0, M, letter)]
  {
    BlankIsMapped();
    var t := Tier([EMPTY_LINE], BLANK);
    EmptyCache(t);
    StoreRefines(t, 0, letter, BLANK);
  }

  lemma NameAt(rs: seq<Region>, a: nat, n: nat, w: Word)
    requires a < U32 && n > 0 && At(rs, a) == Some(w)
    ensures Value(w) == 0 ==> ReadChars(rs, a, n) == Some([])
    ensures Value(w) != 0 && ReadChars(rs, UAdd(a, 1), n - 1) == Some([]) ==> ReadChars(rs, a, n) == Some([Value(w) % 256])
  {
    assert [Value(w) % 256] + [] == [Value(w) % 256];
  }

  lemma NamesRead(letter: Word, n: nat)
    requires 0 < Value(letter) < 256 && n >= 2
    ensures Mapped(BLANK, 0)
    ensures ReadChars(BLANK, 0, n) == Some([])
    ensures ReadChars(Set(BLANK, 0, letter), 0, n) == Some([Value(letter)])
  {
    BlankIsMapped();
    ZerosValue(ZERO);
    SetGet(BLANK, 0, letter, 0);
    SetGet(BLANK, 0, letter, 1);
    NameAt(BLANK, 0, n, ZERO);
    NameAt(Set(BLANK, 0, letter), 1, n - 1, ZERO);
    NameAt(Set(BLANK, 0, letter), 0, n, letter);
  }

  lemma OneLetter(v: int)
    requires v != 0
    ensures CString([v]) == [v] && CString([]) == []
  {
    assert [v][1..] == [];
  }

  /** With a name that is dirty in the cache the two machines find different cells: the condition on names is needed. */
  lemma DirtyNameParts(letter: Word, ins: Instr, env: Outside)
    requires 0 < Value(letter) < 256 && ins == Instr(TSENSE, 1, 0, 0, 0)
    requires env.fabric == Fabric(map[[Value(letter)] := 1], map[])
    ensures Mapped(BLANK, 0) && Same(Lettered(letter), LetteredPlain(letter))
    ensures ByName(ins) && !NamesClean(Lettered(letter).mem.tier, Lettered(letter).core.regs, ins)
    ensures Executable(Lettered(letter), ins) && Executable(LetteredPlain(letter), ins)
    ensures !SameOutcome(ExecFabric(Lettered(letter), ins, env), ExecFabric(LetteredPlain(letter), ins, env))
  {
    LetteredIsSame(letter);
    NamesRead(letter, NAME_CHARS);
    ZerosValue(ZERO);
    OneLetter(Value(letter));
    var c, p := Lettered(letter), LetteredPlain(letter);
    CellByName(c, env.fabric, [], None);
    CellByName(p, env.fabric, [Value(letter)], Some(1));
    SensedParts(c, p, 1, None, Some(1));
    DirtyIsNotClean(c.mem.tier, NAME_CHARS);
  }

  lemma CellByName(m: Machine, f: Fabric, name: seq<int>, cell: Option<int>)
    requires m.core.Valid() && Address(m.core.regs[0]) == 0
    requires ReadChars(RawRegions(m.mem), 0, NAME_CHARS) == Some(name) && CString(name) == name
    requires cell == if name in f.names then Some(f.names[name]) else None
    requires AllTrits(m.core.regs[0])
    ensures FindCell(m, true, m.core.regs[0], f) == cell
  {
  }

  lemma DirtyIsNotClean(t: Tier, n: nat)
    requires |t.lines| == 1 && t.lines[0].state == M && t.lines[0].tag == 0 && n > 0
    ensures !Clean(t, 0, n)
  {
  }

  lemma SensedParts(c: Machine, p: Machine, dst: nat, x: Option<int>, y: Option<int>)
    requires c.core.Valid() && p.core.Valid() && IsReg(dst) && x == None && y == Some(1)
    ensures !SameOutcome(Sensed(c, dst, x), Sensed(p, dst, y))
  {
    assert Sensed(c, dst, x).machine.core.regs[dst][0] == 0;
    assert Sensed(p, dst, y).machine.core.regs[dst][0] == 1;
  }
}

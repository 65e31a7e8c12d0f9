/** What one step of vm/interpreter.c computes, in terms of the numbers in registers and the words in memory. */
module VmMeaning {
  import opened Arith
  import opened Cache
  import opened Errors
  import opened Mmu
  import opened Ternary
  import opened Vm

  // ---- Before and after a step ----

  /** A machine that may go on, with `ins` next and the registers that are checked in range. */
  ghost predicate About(prog: seq<Instr>, m: Machine, ins: Instr)
  {
    && m.core.Valid() && MemoryOk(m.mem) && InBounds(prog) && m.core.ip < |prog| && prog[m.core.ip] == ins
    && (m.core.status == Ready || m.core.status == Running) && FieldsChecked(ins)
  }

  predicate Counted(m: Machine, n: Machine)
  {
    |n.core.regs| == REGISTERS && n.core.steps == (m.core.steps + 1) % 0x1_0000_0000
  }

  /** The instruction is done, and the one behind it is next. */
  predicate GoesOn(m: Machine, o: Outcome)
  {
    && Counted(m, o.machine) && o.err == Ok && o.machine.core.fault == m.core.fault
    && o.machine.core.ip == m.core.ip + 1 && o.machine.core.status == Ready
  }

  /** A jump leaves the status Running. */
  predicate Jumps(m: Machine, o: Outcome, target: int)
  {
    && Counted(m, o.machine) && o.err == Ok && o.machine.core.fault == m.core.fault
    && o.machine.core.ip == target && o.machine.core.status == Running
  }

  predicate FaultsWith(m: Machine, o: Outcome, f: Fault)
  {
    && Counted(m, o.machine) && o.err == Fail && o.machine.core.fault == f && o.machine.core.status == Faulted
    && o.machine.core.ip == m.core.ip + 1 && o.machine.core.regs == m.core.regs
  }

  /** An address register that is no number: the error is returned without a fault. */
  predicate Refuses(m: Machine, o: Outcome)
  {
    && Counted(m, o.machine) && o.err == InvalidArg && o.machine.core.fault == m.core.fault
    && o.machine.core.ip == m.core.ip + 1 && o.machine.core.regs == m.core.regs
  }

  /** No register but r has changed. */
  predicate Only(m: Machine, o: Outcome, r: nat)
  {
    && |m.core.regs| == |o.machine.core.regs| == REGISTERS
    && forall i :: 0 <= i < REGISTERS && i != r ==> o.machine.core.regs[i] == m.core.regs[i]
  }

  predicate SameOutside(m: Machine, o: Outcome) { o.machine.core.calls == m.core.calls && o.machine.core.routes == m.core.routes }

  /** Memory, routes and what has been sent and called stay. */
  predicate Quiet(m: Machine, o: Outcome) { o.machine.mem == m.mem && SameOutside(m, o) }

  predicate Sets(m: Machine, o: Outcome, r: nat, w: Word)
  {
    GoesOn(m, o) && Only(m, o, r) && r < REGISTERS && o.machine.core.regs[r] == w
  }

  lemma Begins(prog: seq<Instr>, m: Machine, ins: Instr, env: Outside)
    requires About(prog, m, ins)
    ensures Step(prog, m, env) == Exec(prog, m.(core := Advanced(m.core)), ins, env)
  {
  }

  // ---- Nothing to run ----

  /** What keeps a machine from running changes nothing: no program, a pointer past the end, a halt or a fault. */
  lemma StopsMeans(prog: seq<Instr>, m: Machine, env: Outside)
    requires m.core.Valid() && MemoryOk(m.mem) && InBounds(prog)
    requires prog == [] || m.core.ip >= |prog| || m.core.status == Halted || m.core.status == Faulted
    ensures Step(prog, m, env).machine == m
    ensures Step(prog, m, env).err ==
      if prog == [] then InvalidState else if m.core.ip >= |prog| then PcOutOfRange
      else if m.core.status == Halted then InvalidState else Fail
  {
  }

  predicate ChecksDst(op: Op)
  {
    op in {TLDI, TRECV, TMOV, TBIAS, TLD, TST, TSEND, TADD, TSUB, TCMP, TSEL, TSYS, TROUTE}
  }

  predicate ChecksA(op: Op)
  {
    op in {TMOV, TBIAS, TLD, TST, TSEND, TADD, TSUB, TCMP, TSEL, TSYS, TROUTE, TBRNEG, TBRZERO, TBRPOS, TSENSE, TINV}
  }

  predicate ChecksB(op: Op) { op in {TADD, TSUB, TCMP, TSEL, TSYS, TROUTE} }

  /** A register number that is checked and too large: a fault before the pointer moves, and nothing else changes. */
  lemma BadRegisterMeans(prog: seq<Instr>, m: Machine, ins: Instr, env: Outside)
    requires m.core.Valid() && MemoryOk(m.mem) && InBounds(prog) && m.core.ip < |prog| && prog[m.core.ip] == ins
    requires m.core.status == Ready || m.core.status == Running
    ensures var bad := (ChecksDst(ins.op) && ins.dst >= 8) || (ChecksA(ins.op) && ins.srcA >= 8) || (ChecksB(ins.op) && ins.srcB >= 8);
      && (bad <==> !About(prog, m, ins))
      && (bad ==> Step(prog, m, env) == Outcome(Fail, m.(core := m.core.(status := Faulted, fault := InvalidRegister))))
  {
  }

  // ---- Numbers ----

  lemma NopMeans(prog: seq<Instr>, m: Machine, ins: Instr, env: Outside)
    requires About(prog, m, ins) && ins.op == TNOP
    ensures GoesOn(m, Step(prog, m, env)) && Step(prog, m, env).machine.core.regs == m.core.regs && Quiet(m, Step(prog, m, env))
  {
  }

  /** TLDI leaves a register that holds the immediate, or faults if no word does. */
  lemma LoadImmediateMeans(prog: seq<Instr>, m: Machine, ins: Instr, env: Outside)
    requires About(prog, m, ins) && ins.op == TLDI
    ensures var o := Step(prog, m, env);
      && Quiet(m, o)
      && if -193_710_244 <= ins.imm <= 193_710_244
         then GoesOn(m, o) && Only(m, o, ins.dst) && HoldsNumber(o.machine.core.regs[ins.dst], ins.imm)
         else FaultsWith(m, o, InvalidImmediate)
  {
    Begins(prog, m, ins, env);
    EncodeInverse(ins.imm);
  }

  predicate HoldsNumber(w: Word, v: int) { AllTrits(w) && Value(w) == v }

  /** What a program gets back: 1 for done, -1 for not. */
  predicate Tells(w: Word, done: bool) { HoldsNumber(w, if done then 1 else -1) }

  lemma MoveMeans(prog: seq<Instr>, m: Machine, ins: Instr, env: Outside)
    requires About(prog, m, ins) && ins.op == TMOV
    ensures Sets(m, Step(prog, m, env), ins.dst, m.core.regs[ins.srcA]) && Quiet(m, Step(prog, m, env))
  {
  }

  /** A word that may be there: it is exactly when `ok`, and then holds v. */
  predicate Yields(r: Option<Word>, ok: bool, v: int)
  {
    match r
    case None => !ok
    case Some(w) => ok && HoldsNumber(w, v)
  }

  lemma SumIs(a: Word, b: Word)
    ensures var v := Value(a) + Value(b);
      Yields(AddWords(a, b), AllTrits(a) && AllTrits(b) && -193_710_244 <= v <= 193_710_244, v)
  {
    EncodeInverse(Value(a) + Value(b));
  }

  lemma DifferenceIs(a: Word, b: Word)
    ensures var v := Value(a) - Value(b);
      Yields(SubtractWords(a, b), AllTrits(a) && AllTrits(b) && -193_710_244 <= v <= 193_710_244, v)
  {
    EncodeInverse(Value(a) - Value(b));
  }

  /** TADD and TSUB leave the sum and the difference, or fault if an operand is no number or the result is out of range. */
  lemma SumMeans(prog: seq<Instr>, m: Machine, ins: Instr, env: Outside)
    requires About(prog, m, ins) && (ins.op == TADD || ins.op == TSUB)
    ensures var o := Step(prog, m, env);
      var a, b := m.core.regs[ins.srcA], m.core.regs[ins.srcB];
      var v := if ins.op == TADD then Value(a) + Value(b) else Value(a) - Value(b);
      && Quiet(m, o)
      && if AllTrits(a) && AllTrits(b) && -193_710_244 <= v <= 193_710_244
         then GoesOn(m, o) && Only(m, o, ins.dst) && HoldsNumber(o.machine.core.regs[ins.dst], v)
         else FaultsWith(m, o, ArithmeticOverflow)
  {
    Begins(prog, m, ins, env);
    SumIs(m.core.regs[ins.srcA], m.core.regs[ins.srcB]);
    DifferenceIs(m.core.regs[ins.srcA], m.core.regs[ins.srcB]);
  }

  /** A word whose lowest trit says how two numbers compare, and whose other trits are zero. */
  predicate Compares(w: Word, a: int, b: int)
  {
    && (w[0] == -1 <==> a < b) && (w[0] == 0 <==> a == b) && (w[0] == 1 <==> a > b)
    && forall i :: 1 <= i < 18 ==> w[i] == 0
  }

  lemma CompareMeans(prog: seq<Instr>, m: Machine, ins: Instr, env: Outside)
    requires About(prog, m, ins) && ins.op == TCMP
    ensures var o := Step(prog, m, env);
      var a, b := m.core.regs[ins.srcA], m.core.regs[ins.srcB];
      && Quiet(m, o)
      && if AllTrits(a) && AllTrits(b)
         then GoesOn(m, o) && Only(m, o, ins.dst) && Compares(o.machine.core.regs[ins.dst], Value(a), Value(b))
         else FaultsWith(m, o, ArithmeticOverflow)
  {
    Begins(prog, m, ins, env);
  }

  /** TSEL leaves the register that the selector names: for a lowest trit of -1 the one in the three lowest bits of the
      immediate, for 0 source B, for 1 the one in the next three bits. */
  lemma SelectMeans(prog: seq<Instr>, m: Machine, ins: Instr, env: Outside, low: nat, high: nat, rest: int)
    requires About(prog, m, ins) && ins.op == TSEL && ins.imm == low + 8 * high + 64 * rest && low < 8 && high < 8
    ensures var o := Step(prog, m, env);
      var regs, t := m.core.regs, m.core.regs[ins.srcA][0];
      && Quiet(m, o)
      && if IsTrit(t) && AllTrits(regs[low]) && AllTrits(regs[ins.srcB]) && AllTrits(regs[high])
         then Sets(m, o, ins.dst, if t == -1 then regs[low] else if t == 0 then regs[ins.srcB] else regs[high])
         else FaultsWith(m, o, ArithmeticOverflow)
  {
    DivModUnique(high + 8 * rest, 8, low);
    DivModUnique(rest, 8, high);
    Begins(prog, m, ins, env);
  }

  // ---- The pointer ----

  lemma JumpMeans(prog: seq<Instr>, m: Machine, ins: Instr, env: Outside)
    requires About(prog, m, ins) && ins.op == TJMP
    ensures var o := Step(prog, m, env);
      && Quiet(m, o) && o.machine.core.regs == m.core.regs
      && if 0 <= ins.imm < |prog| then Jumps(m, o, ins.imm) else FaultsWith(m, o, PcFault)
  {
  }

  predicate IsBranch(op: Op) { op == TBRNEG || op == TBRZERO || op == TBRPOS }

  /** TBRNEG, TBRZERO and TBRPOS branch on a lowest trit of -1, 0 and 1. */
  lemma BranchMeans(prog: seq<Instr>, m: Machine, ins: Instr, env: Outside)
    requires About(prog, m, ins) && IsBranch(ins.op)
    ensures var o := Step(prog, m, env);
      var t := m.core.regs[ins.srcA][0];
      var taken := (ins.op == TBRNEG && t == -1) || (ins.op == TBRZERO && t == 0) || (ins.op == TBRPOS && t == 1);
      && Quiet(m, o) && o.machine.core.regs == m.core.regs
      && if !taken then GoesOn(m, o) else if 0 <= ins.imm < |prog| then Jumps(m, o, ins.imm) else FaultsWith(m, o, PcFault)
  {
    Begins(prog, m, ins, env);
  }

  /** After a comparison of two numbers into register d, a branch on d, at once or later, goes to its target exactly when the
      first is below, equal to or above the second, and on to the next instruction otherwise. */
  lemma BranchAfterCompare(prog: seq<Instr>, m: Machine, cmp: Instr, env: Outside, n: Machine, br: Instr, env': Outside)
    requires About(prog, m, cmp) && cmp.op == TCMP
    requires AllTrits(m.core.regs[cmp.srcA]) && AllTrits(m.core.regs[cmp.srcB])
    requires About(prog, n, br) && IsBranch(br.op) && br.srcA == cmp.dst && 0 <= br.imm < |prog|
    requires |Step(prog, m, env).machine.core.regs| == REGISTERS
    requires n.core.regs[cmp.dst] == Step(prog, m, env).machine.core.regs[cmp.dst]
    ensures var a, b := Value(m.core.regs[cmp.srcA]), Value(m.core.regs[cmp.srcB]);
      var o := Step(prog, n, env');
      var taken := (br.op == TBRNEG && a < b) || (br.op == TBRZERO && a == b) || (br.op == TBRPOS && a > b);
      && Quiet(n, o) && o.machine.core.regs == n.core.regs
      && if taken then Jumps(n, o, br.imm) else GoesOn(n, o)
  {
    CompareMeans(prog, m, cmp, env);
    BranchMeans(prog, n, br, env');
  }

  /** After THALT no step does anything. */
  lemma HaltMeans(prog: seq<Instr>, m: Machine, ins: Instr, env: Outside, env': Outside)
    requires About(prog, m, ins) && ins.op == THALT
    ensures var o := Step(prog, m, env);
      && Counted(m, o.machine) && o.err == Ok && o.machine.core.status == Halted && o.machine.core.fault == m.core.fault
      && o.machine.core.ip == m.core.ip + 1 && o.machine.core.regs == m.core.regs && Quiet(m, o) && MemoryOk(o.machine.mem)
      && Step(prog, o.machine, env').machine == o.machine && Step(prog, o.machine, env').err != Ok
  {
  }

  lemma UnknownMeans(prog: seq<Instr>, m: Machine, ins: Instr, env: Outside)
    requires About(prog, m, ins) && ins.op.Unknown?
    ensures FaultsWith(m, Step(prog, m, env), InvalidOpcode) && Quiet(m, Step(prog, m, env))
  {
  }

  // ---- Memory ----

  /** The program sees the words of `rs`, with or without a cache. */
  ghost predicate Sees(m: Memory, rs: seq<Region>)
  {
    match m
    case Plain(regions) => regions == rs
    case Cached(t) => StandsFor(t, rs)
  }

  /** The address a number stands for: negative ones lie at the top. */
  predicate AddressOf(w: Word, a: nat) { a == if Value(w) < 0 then Value(w) + 0x1_0000_0000 else Value(w) }

  lemma AddressIs(w: Word, a: nat)
    requires AllTrits(w) && AddressOf(w, a)
    ensures Address(w) == a && a < U32
  {
    WordFits(w);
    DivModUnique(if Value(w) < 0 then -1 else 0, 0x1_0000_0000, a);
  }

  /** TLD leaves the word at the address in source A, or faults if there is none; memory looks the same. */
  lemma LoadMeans(prog: seq<Instr>, m: Machine, ins: Instr, env: Outside, rs: seq<Region>, a: nat)
    requires About(prog, m, ins) && ins.op == TLD && Sees(m.mem, rs)
    requires AllTrits(m.core.regs[ins.srcA]) ==> AddressOf(m.core.regs[ins.srcA], a)
    ensures var o := Step(prog, m, env);
      && SameOutside(m, o) && Sees(o.machine.mem, rs)
      && if !AllTrits(m.core.regs[ins.srcA]) then Refuses(m, o)
         else if At(rs, a).None? then FaultsWith(m, o, InvalidMemoryAccess)
         else Sets(m, o, ins.dst, At(rs, a).value)
  {
    if AllTrits(m.core.regs[ins.srcA]) {
      AddressIs(m.core.regs[ins.srcA], a);
      if m.mem.Cached? {
        LoadRefines(m.mem.tier, a, rs);
      }
    }
    Begins(prog, m, ins, env);
  }

  /** Memory looks as before but for the word w at a. */
  ghost predicate Written(m: Memory, rs: seq<Region>, a: nat, w: Word)
  {
    exists qs :: Sees(m, qs) && SameLayout(rs, qs) && forall b: nat :: At(qs, b) == if b == a then Some(w) else At(rs, b)
  }

  /** A store to memory, with or without a cache. */
  lemma StoreIs(m: Memory, a: nat, w: Word, rs: seq<Region>)
    requires MemoryOk(m) && Sees(m, rs)
    ensures var r := StoreTo(m, a, w);
      if At(rs, a).Some? then r.err == Ok && Written(r.mem, rs, a, w)
      else if m.Plain? then r.err != Ok && r.mem == m
      else r.err == Ok
  {
    if At(rs, a).Some? {
      SetEverywhere(rs, a, w);
      if m.Cached? {
        StoreRefines(m.tier, a, w, rs);
      }
      assert Sees(StoreTo(m, a, w).mem, Set(rs, a, w));
    } else if m.Cached? {
      StoreUnmapped(m.tier, a, w, rs);
    }
  }

  /** TST writes source A at the address in DST.  Where no region holds the address, plain memory faults and the cache
      takes the word. */
  lemma StoreMeans(prog: seq<Instr>, m: Machine, ins: Instr, env: Outside, rs: seq<Region>, a: nat)
    requires About(prog, m, ins) && ins.op == TST && Sees(m.mem, rs)
    requires AllTrits(m.core.regs[ins.dst]) ==> AddressOf(m.core.regs[ins.dst], a)
    ensures var o := Step(prog, m, env);
      && SameOutside(m, o)
      && if !AllTrits(m.core.regs[ins.dst]) then Refuses(m, o) && o.machine.mem == m.mem
         else if At(rs, a).Some? then
           GoesOn(m, o) && o.machine.core.regs == m.core.regs && Written(o.machine.mem, rs, a, m.core.regs[ins.srcA])
         else if m.mem.Plain? then FaultsWith(m, o, InvalidMemoryAccess) && o.machine.mem == m.mem
         else GoesOn(m, o) && o.machine.core.regs == m.core.regs
  {
    if AllTrits(m.core.regs[ins.dst]) {
      AddressIs(m.core.regs[ins.dst], a);
      StoreIs(m.mem, a, m.core.regs[ins.srcA], rs);
    }
    Begins(prog, m, ins, env);
  }

  /** No line in the cache is dirty with address a. */
  predicate CleanAt(m: Memory, a: nat)
    requires MemoryOk(m)
  {
    m.Cached? ==> m.tier.LineOf(a).state == M ==> m.tier.LineOf(a).tag != a
  }

  /** No line in the cache holds address a. */
  predicate AbsentAt(m: Memory, a: nat)
    requires MemoryOk(m)
  {
    m.Cached? ==> m.tier.LineOf(a).state != I ==> m.tier.LineOf(a).tag != a
  }

  /** The line for address a, if it is in use, still is, with its tag and value. */
  predicate KeepsLine(m: Memory, n: Memory, a: nat)
    requires MemoryOk(m) && MemoryOk(n)
  {
    m.Cached? ==>
      && n.Cached?
      && var l, k := m.tier.LineOf(a), n.tier.LineOf(a);
         k.tag == l.tag && k.value == l.value && (k.state == I <==> l.state == I)
  }

  lemma FlushIs(m: Memory, a: nat, rs: seq<Region>)
    requires MemoryOk(m) && Sees(m, rs)
    ensures var n := FlushAt(m, a); MemoryOk(n) && Sees(n, rs) && CleanAt(n, a) && KeepsLine(m, n, a)
    ensures var n := FlushInvalidateAt(m, a); MemoryOk(n) && Sees(n, rs) && CleanAt(n, a) && AbsentAt(n, a)
  {
    if m.Cached? {
      FlushRefines(m.tier, a, rs);
      FlushInvalidateRefines(m.tier, a, rs);
    }
  }

  /** TFLUSH and TINV change nothing a program sees; afterwards the line at the address is clean, and for TFLUSH as it was
      otherwise, for TINV gone. */
  lemma FlushMeans(prog: seq<Instr>, m: Machine, ins: Instr, env: Outside, rs: seq<Region>, a: nat)
    requires About(prog, m, ins) && (ins.op == TFLUSH || ins.op == TINV) && Sees(m.mem, rs)
    requires AllTrits(m.core.regs[ins.srcA]) ==> AddressOf(m.core.regs[ins.srcA], a)
    ensures var o := Step(prog, m, env);
      && SameOutside(m, o) && MemoryOk(o.machine.mem) && Sees(o.machine.mem, rs)
      && if !AllTrits(m.core.regs[ins.srcA]) then Refuses(m, o) && o.machine.mem == m.mem
         else
           && GoesOn(m, o) && o.machine.core.regs == m.core.regs && CleanAt(o.machine.mem, a)
           && if ins.op == TFLUSH then KeepsLine(m.mem, o.machine.mem, a) else AbsentAt(o.machine.mem, a)
  {
    if AllTrits(m.core.regs[ins.srcA]) {
      AddressIs(m.core.regs[ins.srcA], a);
      FlushIs(m.mem, a, rs);
    }
    Begins(prog, m, ins, env);
  }

  // ---- Calls to the outside ----

  /** TSEND sends source A to the node whose number DST holds. */
  lemma SendMeans(prog: seq<Instr>, m: Machine, ins: Instr, env: Outside)
    requires About(prog, m, ins) && ins.op == TSEND
    ensures var o := Step(prog, m, env);
      var regs, to := m.core.regs, Value(m.core.regs[ins.dst]);
      && o.machine.mem == m.mem && o.machine.core.routes == m.core.routes && o.machine.core.regs == regs
      && if !AllTrits(regs[ins.dst]) then Refuses(m, o) && o.machine.core.calls == m.core.calls
         else if to < 0 || to >= 256 then FaultsWith(m, o, InvalidImmediate) && o.machine.core.calls == m.core.calls
         else
           && o.machine.core.calls == m.core.calls + [Sent(to, ins.imm % 256, regs[ins.srcA])]
           && if env.sendOk then GoesOn(m, o) else FaultsWith(m, o, InvalidSyscall)
  {
    Begins(prog, m, ins, env);
  }

  /** TRECV leaves the payload of a message, zero when there is none, and the register as it was when receiving fails. */
  lemma ReceiveMeans(prog: seq<Instr>, m: Machine, ins: Instr, env: Outside)
    requires About(prog, m, ins) && ins.op == TRECV
    ensures var o := Step(prog, m, env);
      && Quiet(m, o) && GoesOn(m, o) && Only(m, o, ins.dst)
      && match env.recv
         case Message(w) => o.machine.core.regs[ins.dst] == w
         case Empty => HoldsNumber(o.machine.core.regs[ins.dst], 0)
         case Broken => o.machine.core.regs == m.core.regs
  {
    Begins(prog, m, ins, env);
    ZerosValue(ZERO);
  }

  /** TSYS calls the handler with sources A and B, and leaves its answer. */
  lemma SyscallMeans(prog: seq<Instr>, m: Machine, ins: Instr, env: Outside)
    requires About(prog, m, ins) && ins.op == TSYS
    ensures var o := Step(prog, m, env);
      var call := Called(ins.imm, m.core.regs[ins.srcA], m.core.regs[ins.srcB]);
      && o.machine.mem == m.mem && o.machine.core.routes == m.core.routes
      && o.machine.core.calls == m.core.calls + (if env.syscall.NoHandler? then [] else [call])
      && if env.syscall.Answer? then Sets(m, o, ins.dst, env.syscall.word) else FaultsWith(m, o, InvalidSyscall)
  {
    Begins(prog, m, ins, env);
  }

  // ---- The fabric ----

  function WordAt(rs: seq<Region>, a: nat, i: nat): Option<Word> { At(rs, (a + i) % 0x1_0000_0000) }

  /** The word i places after a, round the end of the address space, is there and is not the number 0. */
  predicate Nonzero(rs: seq<Region>, a: nat, i: nat)
  {
    WordAt(rs, a, i).Some? && Value(WordAt(rs, a, i).value) != 0
  }

  /** It stands for character c, its low byte. */
  predicate CharIs(rs: seq<Region>, a: nat, i: nat, c: int)
  {
    Nonzero(rs, a, i) && c == Value(WordAt(rs, a, i).value) % 256
  }

  /** The words from a on spell out t: one character to a word, ended by the number 0 if there are fewer than n. */
  ghost predicate SpellsOut(rs: seq<Region>, a: nat, t: seq<int>, n: nat)
  {
    && |t| <= n && (forall i :: 0 <= i < |t| ==> CharIs(rs, a, i, t[i]))
    && (|t| < n ==> WordAt(rs, a, |t|).Some? && !Nonzero(rs, a, |t|))
  }

  /** One of n words that would have to be read is not there. */
  ghost predicate Broken(rs: seq<Region>, a: nat, n: nat)
  {
    exists k :: BrokenAt(rs, a, n, k)
  }

  predicate BrokenAt(rs: seq<Region>, a: nat, n: nat, k: nat)
  {
    k < n && (forall i :: 0 <= i < k ==> Nonzero(rs, a, i)) && WordAt(rs, a, k).None?
  }

  /** s is what of t comes before its first zero. */
  predicate IsCString(t: seq<int>, s: seq<int>)
  {
    s <= t && (forall i :: 0 <= i < |s| ==> s[i] != 0) && (|s| < |t| ==> t[|s|] == 0)
  }

  lemma {:induction false} CStringExactly(t: seq<int>, s: seq<int>)
    ensures IsCString(t, s) <==> s == CString(t)
  {
    if t != [] && t[0] != 0 {
      CStringExactly(t[1..], CString(t[1..]));
      assert CString(t)[1..] == CString(t[1..]);
      assert forall i :: 0 < i < |t| ==> t[i] == t[1..][i - 1];
      if IsCString(t, s) && s != [] {
        assert forall i :: 0 <= i < |s[1..]| ==> s[1..][i] == s[i + 1];
        CStringExactly(t[1..], s[1..]);
        assert s == [s[0]] + s[1..];
      }
    }
  }

  lemma NextWord(rs: seq<Region>, a: nat, i: nat)
    requires a < U32
    ensures WordAt(rs, UAdd(a, 1), i) == WordAt(rs, a, i + 1) && WordAt(rs, a, 0) == At(rs, a)
    ensures Nonzero(rs, UAdd(a, 1), i) <==> Nonzero(rs, a, i + 1)
    ensures forall c :: CharIs(rs, UAdd(a, 1), i, c) <==> CharIs(rs, a, i + 1, c)
  {
    if a + 1 == U32 {
      DivModUnique(1, U32, i % U32);
      assert (a + (i + 1)) % U32 == i % U32 by {
        var q := i / U32;
        DivModUnique(q + 1, U32, i % U32);
      }
    }
  }

  lemma SpellsOn(rs: seq<Region>, a: nat, c: int, rest: seq<int>, n: nat)
    requires a < U32 && CharIs(rs, a, 0, c) && SpellsOut(rs, UAdd(a, 1), rest, n)
    ensures SpellsOut(rs, a, [c] + rest, n + 1)
  {
    var t := [c] + rest;
    NextWord(rs, a, |rest|);
    forall i | 0 <= i < |t| ensures CharIs(rs, a, i, t[i]) {
      if i > 0 {
        assert CharIs(rs, UAdd(a, 1), i - 1, rest[i - 1]);
        NextWord(rs, a, i - 1);
      }
    }
  }

  lemma BrokenOn(rs: seq<Region>, a: nat, n: nat, k: nat)
    requires a < U32 && Nonzero(rs, a, 0) && BrokenAt(rs, UAdd(a, 1), n, k)
    ensures BrokenAt(rs, a, n + 1, k + 1)
  {
    NextWord(rs, a, k);
    forall i | 0 <= i < k + 1 ensures Nonzero(rs, a, i) {
      if i > 0 {
        assert Nonzero(rs, UAdd(a, 1), i - 1);
        NextWord(rs, a, i - 1);
      }
    }
  }

  /** One character more in front of what is read from the next word on. */
  lemma OneMoreChar(rs: seq<Region>, a: nat, c: int, n: nat)
    requires a < U32 && CharIs(rs, a, 0, c)
    ensures ReadChars(rs, a, n + 1) == match ReadChars(rs, UAdd(a, 1), n) case None => None case Some(rest) => Some([c] + rest)
  {
    NextWord(rs, a, 0);
  }

  /** r is what the words spell out, or nothing where one is missing. */
  ghost predicate ReadAs(rs: seq<Region>, a: nat, n: nat, r: Option<seq<int>>)
  {
    match r
    case None => Broken(rs, a, n)
    case Some(t) => SpellsOut(rs, a, t, n)
  }

  lemma ReadEnds(rs: seq<Region>, a: nat, n: nat)
    requires a < U32 && (n == 0 || !Nonzero(rs, a, 0))
    ensures ReadAs(rs, a, n, ReadChars(rs, a, n))
  {
    NextWord(rs, a, 0);
    if n > 0 && WordAt(rs, a, 0).None? {
      assert BrokenAt(rs, a, n, 0);
    }
  }

  lemma ReadOn(rs: seq<Region>, a: nat, c: int, n: nat, r: Option<seq<int>>)
    requires a < U32 && CharIs(rs, a, 0, c) && ReadAs(rs, UAdd(a, 1), n, r)
    ensures ReadAs(rs, a, n + 1, match r case None => None case Some(rest) => Some([c] + rest))
  {
    match r
    case None =>
      var k :| BrokenAt(rs, UAdd(a, 1), n, k);
      BrokenOn(rs, a, n, k);
    case Some(rest) => SpellsOn(rs, a, c, rest, n);
  }

  lemma {:induction false} ReadExactly(rs: seq<Region>, a: nat, n: nat)
    requires a < U32
    ensures ReadAs(rs, a, n, ReadChars(rs, a, n))
    decreases n
  {
    if n > 0 && Nonzero(rs, a, 0) {
      var c := Value(WordAt(rs, a, 0).value) % 256;
      ReadExactly(rs, UAdd(a, 1), n - 1);
      ReadOn(rs, a, c, n - 1, ReadChars(rs, UAdd(a, 1), n - 1));
      OneMoreChar(rs, a, c, n - 1);
    } else {
      ReadEnds(rs, a, n);
    }
  }

  lemma SpelledNonzero(rs: seq<Region>, a: nat, t: seq<int>, n: nat)
    requires SpellsOut(rs, a, t, n)
    ensures forall i :: 0 <= i < |t| ==> Nonzero(rs, a, i)
  {
    forall i | 0 <= i < |t| ensures Nonzero(rs, a, i) {
      assert CharIs(rs, a, i, t[i]);
    }
  }

  /** What words spell out is unique, */
  lemma SpelledOnce(rs: seq<Region>, a: nat, t: seq<int>, u: seq<int>, n: nat)
    requires SpellsOut(rs, a, t, n) && SpellsOut(rs, a, u, n)
    ensures t == u
  {
    SpelledNonzero(rs, a, t, n);
    SpelledNonzero(rs, a, u, n);
    forall i | 0 <= i < |t| && i < |u| ensures t[i] == u[i] {
      assert CharIs(rs, a, i, t[i]) && CharIs(rs, a, i, u[i]);
    }
  }

  /** and there is nothing where a word is missing. */
  lemma NotSpelled(rs: seq<Region>, a: nat, t: seq<int>, n: nat, k: nat)
    requires SpellsOut(rs, a, t, n)
    ensures !BrokenAt(rs, a, n, k)
  {
    SpelledNonzero(rs, a, t, n);
    assert k < |t| ==> Nonzero(rs, a, k);
  }

  /** Memory at a holds the name s: the characters before the first zero among at most fifteen. */
  ghost predicate Names(rs: seq<Region>, a: nat, s: seq<int>)
  {
    exists t :: SpellsOut(rs, a, t, 15) && IsCString(t, s)
  }

  /** Word w leads to `cell`: by the name at that address in memory for an immediate of 0, and otherwise by the coordinate
      in its nine lowest trits. */
  ghost predicate Points(m: Machine, f: Fabric, imm: int, w: Word, cell: Option<int>)
  {
    if imm != 0 then cell == (if w[..9] in f.coords then Some(f.coords[w[..9]]) else None)
    else
      || (exists s :: Names(RawRegions(m.mem), Value(w) % 0x1_0000_0000, s)
                      && cell == (if s in f.names then Some(f.names[s]) else None))
      || (Broken(RawRegions(m.mem), Value(w) % 0x1_0000_0000, 15) && cell == None)
  }

  /** The cell an instruction finds is the one its word leads to, and there is always one or none. */
  lemma PointsIsFound(m: Machine, f: Fabric, imm: int, w: Word, cell: Option<int>)
    ensures Points(m, f, imm, w, cell) <==> FindCell(m, imm == 0, w, f) == cell
  {
    if imm == 0 {
      var rs, a := RawRegions(m.mem), Address(w);
      ReadExactly(rs, a, 15);
      match ReadChars(rs, a, 15)
      case None =>
        var k :| BrokenAt(rs, a, 15, k);
        forall t: seq<int> | SpellsOut(rs, a, t, 15) ensures false {
          NotSpelled(rs, a, t, 15, k);
        }
      case Some(u) =>
        forall k: nat ensures !BrokenAt(rs, a, 15, k) {
          NotSpelled(rs, a, u, 15, k);
        }
        CStringExactly(u, CString(u));
        assert Names(rs, a, CString(u));
        forall s, t | SpellsOut(rs, a, t, 15) && IsCString(t, s) ensures s == CString(u) {
          SpelledOnce(rs, a, t, u, 15);
          CStringExactly(u, s);
        }
    }
  }

  /** TSENSE leaves the state of the cell in the lowest trit, or zero when there is no such cell. */
  lemma SenseMeans(prog: seq<Instr>, m: Machine, ins: Instr, env: Outside, cell: Option<int>)
    requires About(prog, m, ins) && ins.op == TSENSE && Points(m, env.fabric, ins.imm, m.core.regs[ins.srcA], cell)
    ensures var o := Step(prog, m, env);
      && Quiet(m, o) && GoesOn(m, o) && Only(m, o, ins.dst) && IsReg(ins.dst)
      && o.machine.core.regs[ins.dst][0] == (if cell.Some? then cell.value else 0)
      && forall i :: 1 <= i < 18 ==> o.machine.core.regs[ins.dst][i] == 0
  {
    PointsIsFound(m, env.fabric, ins.imm, m.core.regs[ins.srcA], cell);
    var n := m.(core := Advanced(m.core));
    BeginsFabric(prog, m, ins, env, n);
    SenseOn(n, ins, env, cell);
    ReroutedMeans(m, n, ins.dst, SensedWord(cell), m.core.routes, Step(prog, m, env));
  }

  /** The state of a cell in the lowest trit. */
  function SensedWord(cell: Option<int>): Word { ZERO[0 := if cell.Some? then cell.value else 0] }

  lemma SenseOn(n: Machine, ins: Instr, env: Outside, cell: Option<int>)
    requires Executable(n, ins) && ins.op == TSENSE && n.core.status == Running
    requires FindCell(n, ins.imm == 0, n.core.regs[ins.srcA], env.fabric) == cell
    ensures IsReg(ins.dst) && ExecFabric(n, ins, env) == Rerouted(n, ins.dst, SensedWord(cell), n.core.routes)
  {
    WriteIs(n, ins.dst, SensedWord(cell));
  }

  lemma FlagIs(done: bool)
    ensures Tells(Flag(done), done)
  {
    EncodeInverse(1);
    EncodeInverse(-1);
  }

  /** TROUTE makes a route and leaves 1 when both cells are there and fewer than four routes, and leaves -1 otherwise. */
  lemma RouteMeans(prog: seq<Instr>, m: Machine, ins: Instr, env: Outside, source: Option<int>, sink: Option<int>)
    requires About(prog, m, ins) && ins.op == TROUTE
    requires Points(m, env.fabric, ins.imm, m.core.regs[ins.srcA], source)
    requires Points(m, env.fabric, ins.imm, m.core.regs[ins.srcB], sink)
    ensures var o := Step(prog, m, env);
      var made := source.Some? && sink.Some? && m.core.routes < 4;
      && o.machine.mem == m.mem && o.machine.core.calls == m.core.calls && GoesOn(m, o) && Only(m, o, ins.dst)
      && o.machine.core.routes == m.core.routes + (if made then 1 else 0)
      && Tells(o.machine.core.regs[ins.dst], made)
  {
    PointsIsFound(m, env.fabric, ins.imm, m.core.regs[ins.srcA], source);
    PointsIsFound(m, env.fabric, ins.imm, m.core.regs[ins.srcB], sink);
    var n := m.(core := Advanced(m.core));
    BeginsFabric(prog, m, ins, env, n);
    var w := RouteOn(n, ins, env, source, sink);
    ReroutedMeans(m, n, ins.dst, w, m.core.routes + (if source.Some? && sink.Some? && m.core.routes < 4 then 1 else 0),
                  Step(prog, m, env));
  }

  lemma BeginsFabric(prog: seq<Instr>, m: Machine, ins: Instr, env: Outside, n: Machine)
    requires About(prog, m, ins) && ins.op in {TROUTE, TBIAS, TSENSE} && n == m.(core := Advanced(m.core))
    ensures Executable(n, ins) && Step(prog, m, env) == ExecFabric(n, ins, env)
  {
    Begins(prog, m, ins, env);
  }

  /** What changes when a word is written and some routes are made. */
  function Rerouted(n: Machine, dst: nat, w: Word, routes: nat): Outcome
    requires n.core.Valid() && IsReg(dst)
  {
    Outcome(Ok, n.(core := n.core.(regs := n.core.regs[dst := w], status := Ready, routes := routes)))
  }

  lemma ReroutedMeans(m: Machine, n: Machine, dst: nat, w: Word, routes: nat, o: Outcome)
    requires m.core.Valid() && IsReg(dst) && n == m.(core := Advanced(m.core)) && o == Rerouted(n, dst, w, routes)
    ensures o.machine.mem == m.mem && o.machine.core.calls == m.core.calls && GoesOn(m, o) && Only(m, o, dst)
    ensures o.machine.core.routes == routes && o.machine.core.regs[dst] == w
  {
  }

  lemma RouteOn(n: Machine, ins: Instr, env: Outside, source: Option<int>, sink: Option<int>) returns (w: Word)
    requires Executable(n, ins) && ins.op == TROUTE && n.core.status == Running
    requires FindCell(n, ins.imm == 0, n.core.regs[ins.srcA], env.fabric) == source
    requires FindCell(n, ins.imm == 0, n.core.regs[ins.srcB], env.fabric) == sink
    ensures var made := source.Some? && sink.Some? && n.core.routes < 4;
      && ExecFabric(n, ins, env) == Rerouted(n, ins.dst, w, n.core.routes + if made then 1 else 0)
      && Tells(w, made)
  {
    w := Flag(source.Some? && sink.Some? && n.core.routes < 4);
    FlagIs(source.Some? && sink.Some? && n.core.routes < 4);
  }

  predicate IsRoute(m: Machine, w: Word) { 0 <= Value(w) < m.core.routes }

  /** TBIAS leaves 1 when source A is the number of a route, and -1 otherwise. */
  lemma BiasMeans(prog: seq<Instr>, m: Machine, ins: Instr, env: Outside)
    requires About(prog, m, ins) && ins.op == TBIAS
    ensures var o := Step(prog, m, env);
      && Quiet(m, o) && GoesOn(m, o) && Only(m, o, ins.dst)
      && Tells(o.machine.core.regs[ins.dst], IsRoute(m, m.core.regs[ins.srcA]))
  {
    var n := m.(core := Advanced(m.core));
    BeginsFabric(prog, m, ins, env, n);
    var w := BiasOn(n, ins, env);
    ReroutedMeans(m, n, ins.dst, w, m.core.routes, Step(prog, m, env));
  }

  lemma BiasOn(n: Machine, ins: Instr, env: Outside) returns (w: Word)
    requires Executable(n, ins) && ins.op == TBIAS && n.core.status == Running
    ensures ExecFabric(n, ins, env) == Rerouted(n, ins.dst, w, n.core.routes)
    ensures Tells(w, IsRoute(n, n.core.regs[ins.srcA]))
  {
    var done := IsRoute(n, n.core.regs[ins.srcA]);
    w := Flag(done);
    FlagIs(done);
    BiasWrites(n, ins, env, done);
    WriteIs(n, ins.dst, w);
  }

  lemma BiasWrites(n: Machine, ins: Instr, env: Outside, done: bool)
    requires Executable(n, ins) && ins.op == TBIAS && done == IsRoute(n, n.core.regs[ins.srcA])
    ensures ExecFabric(n, ins, env) == Write(n, ins.dst, Flag(done))
  {
  }

  lemma WriteIs(n: Machine, r: nat, w: Word)
    requires n.core.Valid() && IsReg(r) && n.core.status == Running
    ensures Write(n, r, w) == Rerouted(n, r, w, n.core.routes)
  {
  }

  // ---- Runs ----

  /** From machine k to the next one of a run. */
  ghost predicate Follows(prog: seq<Instr>, m: Machine, env: Outside, n: Machine)
    requires InBounds(prog)
  {
    m.core.Valid() && MemoryOk(m.mem) && m.core.status != Halted && Step(prog, m, env) == Outcome(Ok, n)
  }

  /** Machines one step after another; the clock is late after the last step at most. */
  ghost predicate IsTrace(prog: seq<Instr>, ms: seq<Machine>, envs: seq<Outside>)
    requires InBounds(prog)
  {
    && 0 < |ms| <= |envs| + 1 && ms[|ms| - 1].core.Valid() && MemoryOk(ms[|ms| - 1].mem)
    && (forall k :: 0 <= k < |ms| - 1 ==> Follows(prog, ms[k], envs[k], ms[k + 1]))
    && (forall k :: 0 <= k < |ms| - 2 ==> !envs[k].late)
  }

  /** How a run ends after a trace. */
  ghost predicate EndsWith(prog: seq<Instr>, ms: seq<Machine>, envs: seq<Outside>, o: Outcome)
    requires InBounds(prog) && IsTrace(prog, ms, envs)
  {
    var n, last := |ms| - 1, ms[|ms| - 1];
    if n > 0 && envs[n - 1].late then o == Outcome(Timeout, last)
    else if last.core.status == Halted then o == Outcome(Ok, last)
    else if n == |envs| then o == Outcome(Timeout, last)
    else o == Step(prog, last, envs[n]) && o.err != Ok
  }

  /** Every run is a trace of steps from its machine, ended by a late clock, a halt, the budget or the first error. */
  lemma {:induction false} RunIsTrace(prog: seq<Instr>, m: Machine, envs: seq<Outside>) returns (ms: seq<Machine>)
    requires m.core.Valid() && MemoryOk(m.mem) && InBounds(prog)
    ensures IsTrace(prog, ms, envs) && ms[0] == m && EndsWith(prog, ms, envs, RunLoop(prog, m, envs))
    decreases |envs|
  {
    ms := [m];
    if m.core.status != Halted && envs != [] {
      StepShape(prog, m, envs[0]);
      var s := Step(prog, m, envs[0]);
      if s.err == Ok {
        assert Follows(prog, m, envs[0], s.machine);
        if envs[0].late {
          ms := [m, s.machine];
        } else {
          var rest := RunIsTrace(prog, s.machine, envs[1..]);
          ms := [m] + rest;
          LongerTrace(prog, m, rest, envs);
          LaterEnd(prog, m, rest, envs, RunLoop(prog, s.machine, envs[1..]));
        }
      }
    }
  }

  lemma LongerTrace(prog: seq<Instr>, m: Machine, rest: seq<Machine>, envs: seq<Outside>)
    requires InBounds(prog) && envs != [] && IsTrace(prog, rest, envs[1..])
    requires Follows(prog, m, envs[0], rest[0]) && !envs[0].late
    ensures IsTrace(prog, [m] + rest, envs)
  {
    var ms := [m] + rest;
    forall k | 0 <= k < |ms| - 1 ensures Follows(prog, ms[k], envs[k], ms[k + 1]) {
      if k > 0 {
        assert Follows(prog, rest[k - 1], envs[1..][k - 1], rest[k - 1 + 1]);
      }
    }
    forall k | 0 <= k < |ms| - 2 ensures !envs[k].late {
      if k > 0 {
        assert !envs[1..][k - 1].late;
      }
    }
  }

  lemma LaterEnd(prog: seq<Instr>, m: Machine, rest: seq<Machine>, envs: seq<Outside>, o: Outcome)
    requires InBounds(prog) && envs != [] && !envs[0].late && IsTrace(prog, rest, envs[1..]) && IsTrace(prog, [m] + rest, envs)
    requires EndsWith(prog, rest, envs[1..], o)
    ensures EndsWith(prog, [m] + rest, envs, o)
  {
    var n := |rest| - 1;
    assert ([m] + rest)[n + 1] == rest[n];
    if n > 0 {
      assert envs[1..][n - 1] == envs[n];
    }
    if n < |envs[1..]| {
      assert envs[1..][n] == envs[n + 1];
    }
  }
}

/** What the machine does at a line of assembler source, operand by operand. */
module TasmMeaning {
  import opened Errors
  import opened Mmu
  import opened Tasm
  import opened Ternary
  import opened Vm
  import opened VmMeaning

  /** The machine has come to the instruction that a line of source was assembled to. */
  ghost predicate AtLine(prog: seq<Instr>, m: Machine, op: Op, os: seq<Operand>, labels: map<string, nat>)
  {
    Meaning(op, os, labels).Some? && About(prog, m, Meaning(op, os, labels).value)
  }

  predicate Registers(m: Machine, os: seq<Operand>)
  {
    |m.core.regs| == REGISTERS && forall i :: 0 <= i < |os| ==> os[i].Reg? && 0 <= os[i].n < REGISTERS
  }

  /** A line of code names registers where its instruction has registers. */
  function RegisterCount(op: Op): nat
  {
    match op
    case TSEL => 5
    case TADD | TSUB | TCMP | TSYS => 3
    case TMOV | TLD | TST | TBIAS | TSEND | TROUTE | TSENSE => 2
    case TLDI | TBRNEG | TBRZERO | TBRPOS | TRECV | TFLUSH | TINV => 1
    case TNOP | THALT | TJMP | Unknown(_) => 0
  }

  lemma LineNamesRegisters(prog: seq<Instr>, m: Machine, op: Op, os: seq<Operand>, labels: map<string, nat>)
    requires AtLine(prog, m, op, os, labels)
    ensures RegisterCount(op) <= |os| && Registers(m, os[..RegisterCount(op)])
  {
  }

  /** `TLDI rd, v` makes rd hold v. */
  lemma LdiLine(prog: seq<Instr>, m: Machine, os: seq<Operand>, labels: map<string, nat>, env: Outside)
    requires AtLine(prog, m, TLDI, os, labels)
    ensures var o := Step(prog, m, env);
      && |os| == 2 && Registers(m, os[..1]) && ImmOf(os[1], labels).Some?
      && GoesOn(m, o) && Only(m, o, os[0].n) && Quiet(m, o)
      && HoldsNumber(o.machine.core.regs[os[0].n], ImmOf(os[1], labels).value)
  {
    LoadImmediateMeans(prog, m, Meaning(TLDI, os, labels).value, env);
  }

  /** `TMOV rd, ra` makes rd hold what ra holds. */
  lemma MovLine(prog: seq<Instr>, m: Machine, os: seq<Operand>, labels: map<string, nat>, env: Outside)
    requires AtLine(prog, m, TMOV, os, labels)
    ensures |os| == 2 && Registers(m, os)
    ensures Sets(m, Step(prog, m, env), os[0].n, m.core.regs[os[1].n]) && Quiet(m, Step(prog, m, env))
  {
    MoveMeans(prog, m, Meaning(TMOV, os, labels).value, env);
  }

  /** `TADD rd, ra, rb` and `TSUB rd, ra, rb`: ra + rb and ra - rb. */
  lemma SumLine(prog: seq<Instr>, m: Machine, op: Op, os: seq<Operand>, labels: map<string, nat>, env: Outside)
    requires (op == TADD || op == TSUB) && AtLine(prog, m, op, os, labels)
    ensures |os| == 3 && Registers(m, os)
    ensures var o, a, b := Step(prog, m, env), m.core.regs[os[1].n], m.core.regs[os[2].n];
      var v := if op == TADD then Value(a) + Value(b) else Value(a) - Value(b);
      && Quiet(m, o)
      && if AllTrits(a) && AllTrits(b) && -193_710_244 <= v <= 193_710_244
         then GoesOn(m, o) && Only(m, o, os[0].n) && HoldsNumber(o.machine.core.regs[os[0].n], v)
         else FaultsWith(m, o, ArithmeticOverflow)
  {
    SumMeans(prog, m, Meaning(op, os, labels).value, env);
  }

  /** `TCMP rd, ra, rb`: how ra compares with rb. */
  lemma CmpLine(prog: seq<Instr>, m: Machine, os: seq<Operand>, labels: map<string, nat>, env: Outside)
    requires AtLine(prog, m, TCMP, os, labels)
    ensures |os| == 3 && Registers(m, os)
    ensures var o, a, b := Step(prog, m, env), m.core.regs[os[1].n], m.core.regs[os[2].n];
      && Quiet(m, o)
      && if AllTrits(a) && AllTrits(b)
         then GoesOn(m, o) && Only(m, o, os[0].n) && Compares(o.machine.core.regs[os[0].n], Value(a), Value(b))
         else FaultsWith(m, o, ArithmeticOverflow)
  {
    CompareMeans(prog, m, Meaning(TCMP, os, labels).value, env);
  }

  /** `TSEL rd, rs, rz, rn, rp`: rn, rz or rp as the lowest trit of rs is -1, 0 or 1. */
  lemma SelLine(prog: seq<Instr>, m: Machine, os: seq<Operand>, labels: map<string, nat>, env: Outside)
    requires AtLine(prog, m, TSEL, os, labels)
    ensures |os| == 5 && Registers(m, os)
    ensures var o, t := Step(prog, m, env), m.core.regs[os[1].n][0];
      var zero, negative, positive := m.core.regs[os[2].n], m.core.regs[os[3].n], m.core.regs[os[4].n];
      && Quiet(m, o)
      && if IsTrit(t) && AllTrits(negative) && AllTrits(zero) && AllTrits(positive)
         then Sets(m, o, os[0].n, if t == -1 then negative else if t == 0 then zero else positive)
         else FaultsWith(m, o, ArithmeticOverflow)
  {
    SelectMeans(prog, m, Meaning(TSEL, os, labels).value, env, os[3].n, os[4].n, 0);
  }

  /** `TJMP target`. */
  lemma JmpLine(prog: seq<Instr>, m: Machine, os: seq<Operand>, labels: map<string, nat>, env: Outside)
    requires AtLine(prog, m, TJMP, os, labels)
    ensures |os| == 1 && ImmOf(os[0], labels).Some?
    ensures var o, target := Step(prog, m, env), ImmOf(os[0], labels).value;
      && Quiet(m, o) && o.machine.core.regs == m.core.regs
      && if 0 <= target < |prog| then Jumps(m, o, target) else FaultsWith(m, o, PcFault)
  {
    JumpMeans(prog, m, Meaning(TJMP, os, labels).value, env);
  }

  /** `TBRNEG rs, target`, and TBRZERO and TBRPOS, by the lowest trit of rs. */
  lemma BranchLine(prog: seq<Instr>, m: Machine, op: Op, os: seq<Operand>, labels: map<string, nat>, env: Outside)
    requires IsBranch(op) && AtLine(prog, m, op, os, labels)
    ensures |os| == 2 && Registers(m, os[..1]) && ImmOf(os[1], labels).Some?
    ensures var o, t, target := Step(prog, m, env), m.core.regs[os[0].n][0], ImmOf(os[1], labels).value;
      var taken := (op == TBRNEG && t == -1) || (op == TBRZERO && t == 0) || (op == TBRPOS && t == 1);
      && Quiet(m, o) && o.machine.core.regs == m.core.regs
      && if !taken then GoesOn(m, o) else if 0 <= target < |prog| then Jumps(m, o, target) else FaultsWith(m, o, PcFault)
  {
    BranchMeans(prog, m, Meaning(op, os, labels).value, env);
  }

  /** `TLD rd, ra`: the word at the address in ra. */
  lemma LdLine(prog: seq<Instr>, m: Machine, os: seq<Operand>, labels: map<string, nat>, env: Outside, rs: seq<Region>, a: nat)
    requires AtLine(prog, m, TLD, os, labels) && Sees(m.mem, rs)
    requires |os| == 2 && Registers(m, os)
    requires AllTrits(m.core.regs[os[1].n]) && AddressOf(m.core.regs[os[1].n], a)
    ensures var o := Step(prog, m, env);
      && SameOutside(m, o) && Sees(o.machine.mem, rs)
      && if At(rs, a).None? then FaultsWith(m, o, InvalidMemoryAccess) else Sets(m, o, os[0].n, At(rs, a).value)
  {
    LoadMeans(prog, m, Meaning(TLD, os, labels).value, env, rs, a);
  }

  /** `TST rp, rs`: what rs holds is written at the address in rp. */
  lemma StLine(prog: seq<Instr>, m: Machine, os: seq<Operand>, labels: map<string, nat>, env: Outside, rs: seq<Region>, a: nat)
    requires AtLine(prog, m, TST, os, labels) && Sees(m.mem, rs)
    requires |os| == 2 && Registers(m, os)
    requires AllTrits(m.core.regs[os[0].n]) && AddressOf(m.core.regs[os[0].n], a) && At(rs, a).Some?
    ensures var o := Step(prog, m, env);
      && SameOutside(m, o) && GoesOn(m, o) && o.machine.core.regs == m.core.regs
      && Written(o.machine.mem, rs, a, m.core.regs[os[1].n])
  {
    StoreMeans(prog, m, Meaning(TST, os, labels).value, env, rs, a);
  }

  /** `TFLUSH ra` and `TINV ra`: the line at the address in ra. */
  lemma FlushLine(prog: seq<Instr>, m: Machine, op: Op, os: seq<Operand>, labels: map<string, nat>, env: Outside,
                  rs: seq<Region>, a: nat)
    requires (op == TFLUSH || op == TINV) && AtLine(prog, m, op, os, labels) && Sees(m.mem, rs)
    requires |os| == 1 && Registers(m, os)
    requires AllTrits(m.core.regs[os[0].n]) && AddressOf(m.core.regs[os[0].n], a)
    ensures var o := Step(prog, m, env);
      && SameOutside(m, o) && MemoryOk(o.machine.mem) && Sees(o.machine.mem, rs) && GoesOn(m, o)
      && CleanAt(o.machine.mem, a) && (op == TINV ==> AbsentAt(o.machine.mem, a))
  {
    FlushMeans(prog, m, Meaning(op, os, labels).value, env, rs, a);
  }

  /** `TSEND rn, rw, op`: the word in rw goes to the node whose number rn holds. */
  lemma SendLine(prog: seq<Instr>, m: Machine, os: seq<Operand>, labels: map<string, nat>, env: Outside)
    requires AtLine(prog, m, TSEND, os, labels)
    ensures |os| == 3 && Registers(m, os[..2]) && ImmOf(os[2], labels).Some?
    ensures var o, node := Step(prog, m, env), m.core.regs[os[0].n];
      AllTrits(node) && 0 <= Value(node) <= 255 ==>
        o.machine.core.calls == m.core.calls + [Sent(Value(node), ImmOf(os[2], labels).value % 256, m.core.regs[os[1].n])]
  {
    SendMeans(prog, m, Meaning(TSEND, os, labels).value, env);
  }

  /** `TRECV rd`: the payload of a message, or zero. */
  lemma RecvLine(prog: seq<Instr>, m: Machine, os: seq<Operand>, labels: map<string, nat>, env: Outside)
    requires AtLine(prog, m, TRECV, os, labels) && !env.recv.Broken?
    ensures |os| == 1 && Registers(m, os)
    ensures Sets(m, Step(prog, m, env), os[0].n, if env.recv.Message? then env.recv.payload else ZERO)
  {
    ReceiveMeans(prog, m, Meaning(TRECV, os, labels).value, env);
  }

  /** `TSYS rd, ra, rb, id`: the call with this number, ra and rb, and its answer in rd. */
  lemma SysLine(prog: seq<Instr>, m: Machine, os: seq<Operand>, labels: map<string, nat>, env: Outside)
    requires AtLine(prog, m, TSYS, os, labels) && env.syscall.Answer?
    ensures |os| == 4 && Registers(m, os[..3]) && ImmOf(os[3], labels).Some?
    ensures var o := Step(prog, m, env);
      && o.machine.core.calls == m.core.calls + [Called(ImmOf(os[3], labels).value, m.core.regs[os[1].n], m.core.regs[os[2].n])]
      && Sets(m, o, os[0].n, env.syscall.word)
  {
    SyscallMeans(prog, m, Meaning(TSYS, os, labels).value, env);
  }

  lemma CellOperands(op: Op, os: seq<Operand>, labels: map<string, nat>)
    requires (op == TROUTE || op == TSENSE) && Meaning(op, os, labels).Some?
    ensures |os| == 3 && os[0].Reg? && os[1].Reg? && 0 <= os[0].n < REGISTERS && 0 <= os[1].n && ImmOf(os[2], labels).Some?
    ensures Meaning(op, os, labels).value == Instr(op, os[0].n, os[1].n, 0, ImmOf(os[2], labels).value)
  {
  }

  /** `TSENSE rd, ra, how`: the state of the cell that ra leads to. */
  lemma SenseLine(prog: seq<Instr>, m: Machine, os: seq<Operand>, labels: map<string, nat>, env: Outside, cell: Option<int>)
    requires AtLine(prog, m, TSENSE, os, labels)
    requires |os| == 3 && Registers(m, os[..2]) && ImmOf(os[2], labels).Some?
    requires Points(m, env.fabric, ImmOf(os[2], labels).value, m.core.regs[os[1].n], cell)
    ensures var o := Step(prog, m, env);
      && Quiet(m, o) && GoesOn(m, o) && Only(m, o, os[0].n)
      && o.machine.core.regs[os[0].n][0] == (if cell.Some? then cell.value else 0)
  {
    CellOperands(TSENSE, os, labels);
    SenseMeans(prog, m, Meaning(TSENSE, os, labels).value, env, cell);
  }

  lemma RouteAt(prog: seq<Instr>, m: Machine, ins: Instr, d: nat, a: nat, env: Outside, source: Option<int>, sink: Option<int>)
    requires About(prog, m, ins) && ins == Instr(TROUTE, d, a, 0, ins.imm)
    requires Points(m, env.fabric, ins.imm, m.core.regs[a], source) && Points(m, env.fabric, ins.imm, m.core.regs[0], sink)
    ensures var o := Step(prog, m, env);
      var made := source.Some? && sink.Some? && m.core.routes < 4;
      && GoesOn(m, o) && Only(m, o, d) && d < |o.machine.core.regs|
      && o.machine.core.routes == m.core.routes + (if made then 1 else 0) && Tells(o.machine.core.regs[d], made)
  {
    RouteMeans(prog, m, ins, env, source, sink);
  }

  /** `TROUTE rd, ra, how`: a route from the cell that ra leads to; the assembler leaves the sink to r0. */
  lemma RouteLine(prog: seq<Instr>, m: Machine, os: seq<Operand>, labels: map<string, nat>, env: Outside,
                  source: Option<int>, sink: Option<int>)
    requires AtLine(prog, m, TROUTE, os, labels)
    requires |os| == 3 && Registers(m, os[..2]) && ImmOf(os[2], labels).Some?
    requires Points(m, env.fabric, ImmOf(os[2], labels).value, m.core.regs[os[1].n], source)
    requires Points(m, env.fabric, ImmOf(os[2], labels).value, m.core.regs[0], sink)
    ensures var o := Step(prog, m, env);
      var made := source.Some? && sink.Some? && m.core.routes < 4;
      && GoesOn(m, o) && Only(m, o, os[0].n) && o.machine.core.routes == m.core.routes + (if made then 1 else 0)
      && Tells(o.machine.core.regs[os[0].n], made)
  {
    CellOperands(TROUTE, os, labels);
    RouteAt(prog, m, Meaning(TROUTE, os, labels).value, os[0].n, os[1].n, env, source, sink);
  }

  lemma BiasOperands(m: Machine, os: seq<Operand>, labels: map<string, nat>)
    requires Meaning(TBIAS, os, labels).Some? && m.core.Valid()
    ensures |os| == 2 && Registers(m, os)
    ensures Meaning(TBIAS, os, labels).value == Instr(TBIAS, os[0].n, os[1].n, 0, 0)
  {
  }

  lemma BiasAt(prog: seq<Instr>, m: Machine, ins: Instr, d: nat, a: nat, env: Outside)
    requires About(prog, m, ins) && ins == Instr(TBIAS, d, a, 0, 0)
    ensures a < |m.core.regs| && d < |Step(prog, m, env).machine.core.regs|
    ensures var o := Step(prog, m, env);
      && Quiet(m, o) && GoesOn(m, o) && Only(m, o, d)
      && Tells(o.machine.core.regs[d], IsRoute(m, m.core.regs[a]))
  {
    BiasMeans(prog, m, ins, env);
  }

  /** `TBIAS rd, ra`: whether ra holds the number of a route. */
  lemma BiasLine(prog: seq<Instr>, m: Machine, os: seq<Operand>, labels: map<string, nat>, env: Outside)
    requires AtLine(prog, m, TBIAS, os, labels)
    ensures |os| == 2 && Registers(m, os)
    ensures var o := Step(prog, m, env);
      && Quiet(m, o) && GoesOn(m, o) && Only(m, o, os[0].n)
      && Tells(o.machine.core.regs[os[0].n], IsRoute(m, m.core.regs[os[1].n]))
  {
    BiasOperands(m, os, labels);
    BiasAt(prog, m, Meaning(TBIAS, os, labels).value, os[0].n, os[1].n, env);
  }
}

/** tools/tasm.py from tokens on: label pass, encoding pass, image layout. */
module Tasm {
  import opened Arith
  import opened Bytes
  import opened Crc
  import opened Errors
  import opened Image
  import opened Ternary
  import opened Vm

  /** A token by its first character: `r` and a number, `t` and trits, `@` and a label, a system call name, or an integer. */
  datatype Operand = Reg(n: int) | Trits(digits: string) | Ref(target: string) | SysName(id: nat) | Number(value: int) | Junk

  /** A source line that is not blank; an unknown mnemonic has an Unknown opcode. */
  datatype Line = Entry(names: seq<string>) | Label(name: string) | Code(op: Op, operands: seq<Operand>)

  // ---- Literals ----

  function TritOf(c: char): int { if c == '+' then 1 else if c == '-' then -1 else 0 }

  /** The trits of a literal, lowest first, as the text has them highest first. */
  function TritsOf(digits: string): (ts: seq<int>)
    ensures |ts| == |digits| && AllTrits(ts)
  {
    seq(|digits|, i requires 0 <= i < |digits| => TritOf(digits[|digits| - 1 - i]))
  }

  method ParseTernary(digits: string) returns (val: int)
    ensures val == Value(TritsOf(digits))
  {
    var ts := TritsOf(digits);
    val := 0;
    var power := 1;
    for i := 0 to |digits|
      invariant val == Value(ts[..i]) && power == Pow3(i)
    {
      assert ts[..i + 1] == ts[..i] + [ts[i]];
      ValueAppend(ts[..i], ts[i]);
      var d := digits[|digits| - 1 - i];
      if d == '+' {
        val := val + power;
      } else if d == '-' {
        val := val - power;
      }
      power := power * 3;
    }
    assert ts[..|digits|] == ts;
  }

  lemma {:induction false} ZerosAddNothing(ts: seq<int>, n: nat)
    ensures Value(ts + seq(n, _ => 0)) == Value(ts)
  {
    if n == 0 {
      assert ts + seq(0, _ => 0) == ts;
    } else {
      ZerosAddNothing(ts, n - 1);
      assert ts + seq(n, _ => 0) == (ts + seq(n - 1, _ => 0)) + [0];
      ValueAppend(ts + seq(n - 1, _ => 0), 0);
    }
  }

  /** A literal of at most eighteen trits, loaded into a register, shows exactly the trits that were written. */
  lemma LiteralIsWord(digits: string)
    requires |digits| <= 18
    ensures Encode(Value(TritsOf(digits))) == TritsOf(digits) + seq(18 - |digits|, _ => 0)
  {
    var w := TritsOf(digits) + seq(18 - |digits|, _ => 0);
    ZerosAddNothing(TritsOf(digits), 18 - |digits|);
    ValueInverse(w);
  }

  // ---- What a line of code means ----

  function RegOf(o: Operand): Option<nat>
  {
    if o.Reg? && 0 <= o.n <= 7 then Some(o.n) else None
  }

  function ImmOf(o: Operand, labels: map<string, nat>): Option<int>
  {
    match o
    case Trits(digits) => Some(Value(TritsOf(digits)))
    case Ref(target) => if target in labels then Some(labels[target]) else None
    case SysName(id) => Some(id)
    case Number(v) => Some(v)
    case Reg(_) | Junk => None
  }

  function Make(op: Op, dst: Option<nat>, srcA: Option<nat>, srcB: Option<nat>, imm: Option<int>): Option<Instr>
  {
    if dst.Some? && srcA.Some? && srcB.Some? && imm.Some? && -0x1_0000 <= imm.value < 0x1_0000
    then Some(Instr(op, dst.value, srcA.value, srcB.value, imm.value))
    else None
  }

  /** The selector of TSEL: the register taken for a negative trit and the one for a positive trit. */
  function Selector(neg: Option<nat>, pos: Option<nat>): Option<int>
  {
    if neg.Some? && pos.Some? then Some(neg.value + 8 * pos.value) else None
  }

  /** The instruction a line stands for, None where the assembler refuses it. */
  function Meaning(op: Op, os: seq<Operand>, labels: map<string, nat>): Option<Instr>
  {
    var none: Option<nat>, zero: Option<int> := Some(0), Some(0);
    match op
    case TNOP | THALT => if |os| == 0 then Make(op, none, none, none, zero) else None
    case TLDI => if |os| == 2 then Make(op, RegOf(os[0]), none, none, ImmOf(os[1], labels)) else None
    case TMOV | TLD | TST | TBIAS => if |os| == 2 then Make(op, RegOf(os[0]), RegOf(os[1]), none, zero) else None
    case TADD | TSUB | TCMP =>
      if |os| == 3 then Make(op, RegOf(os[0]), RegOf(os[1]), RegOf(os[2]), zero) else None
    case TSEL =>
      if |os| == 5 then Make(op, RegOf(os[0]), RegOf(os[1]), RegOf(os[2]), Selector(RegOf(os[3]), RegOf(os[4]))) else None
    case TJMP => if |os| == 1 then Make(op, none, none, none, ImmOf(os[0], labels)) else None
    case TBRNEG | TBRZERO | TBRPOS => if |os| == 2 then Make(op, none, RegOf(os[0]), none, ImmOf(os[1], labels)) else None
    case TSEND | TROUTE | TSENSE =>
      if |os| == 3 then Make(op, RegOf(os[0]), RegOf(os[1]), none, ImmOf(os[2], labels)) else None
    case TRECV => if |os| == 1 then Make(op, RegOf(os[0]), none, none, zero) else None
    case TFLUSH | TINV => if |os| == 1 then Make(op, none, RegOf(os[0]), none, zero) else None
    case TSYS =>
      if |os| == 4 then Make(op, RegOf(os[0]), RegOf(os[1]), RegOf(os[2]), ImmOf(os[3], labels)) else None
    case Unknown(_) => None
  }

  lemma MeaningPacks(op: Op, os: seq<Operand>, labels: map<string, nat>)
    requires Meaning(op, os, labels).Some?
    ensures Packable(Meaning(op, os, labels).value) && !op.Unknown? && Meaning(op, os, labels).value.op == op
  {
  }

  /** The word of a line: operands are taken apart as the mnemonic asks, then the fields are packed. */
  method PackLine(op: Op, os: seq<Operand>, labels: map<string, nat>) returns (word: Option<nat>)
    ensures word == match Meaning(op, os, labels) case None => None case Some(ins) => Some(Encoded(ins))
  {
    var dst, srcA, srcB: Option<nat> := Some(0), Some(0), Some(0);
    var imm: Option<int> := Some(0);
    var count := OperandCount(op);
    if |os| != count || op.Unknown? {
      return None;
    }
    match op {
      case TNOP | THALT =>
      case TLDI => dst, imm := RegOf(os[0]), ImmOf(os[1], labels);
      case TMOV | TLD | TST | TBIAS => dst, srcA := RegOf(os[0]), RegOf(os[1]);
      case TADD | TSUB | TCMP => dst, srcA, srcB := RegOf(os[0]), RegOf(os[1]), RegOf(os[2]);
      case TSEL =>
        dst, srcA, srcB := RegOf(os[0]), RegOf(os[1]), RegOf(os[2]);
        imm := Selector(RegOf(os[3]), RegOf(os[4]));
      case TJMP => imm := ImmOf(os[0], labels);
      case TBRNEG | TBRZERO | TBRPOS => srcA, imm := RegOf(os[0]), ImmOf(os[1], labels);
      case TSEND | TROUTE | TSENSE => dst, srcA, imm := RegOf(os[0]), RegOf(os[1]), ImmOf(os[2], labels);
      case TRECV => dst := RegOf(os[0]);
      case TFLUSH | TINV => srcA := RegOf(os[0]);
      case TSYS =>
        dst, srcA, srcB := RegOf(os[0]), RegOf(os[1]), RegOf(os[2]);
        imm := ImmOf(os[3], labels);
    }
    if dst.None? || srcA.None? || srcB.None? || imm.None? {
      return None;
    }
    if imm.value < -0x1_0000 || imm.value > 0xFFFF {
      return None;
    }
    var bits := if imm.value < 0 then imm.value + 0x2_0000 else imm.value;
    return Some(CodeOf(op) + 64 * dst.value + 512 * srcA.value + 4096 * srcB.value + 32768 * bits);
  }

  function OperandCount(op: Op): nat
  {
    match op
    case TNOP | THALT | Unknown(_) => 0
    case TJMP | TRECV | TFLUSH | TINV => 1
    case TLDI | TMOV | TLD | TST | TBIAS | TBRNEG | TBRZERO | TBRPOS => 2
    case TADD | TSUB | TCMP | TSEND | TROUTE | TSENSE => 3
    case TSYS => 4
    case TSEL => 5
  }

  // ---- First pass ----

  /** The lines of code before line k. */
  function Codes(lines: seq<Line>, k: nat): (cs: seq<Line>)
    requires k <= |lines|
    ensures |cs| <= k && forall i :: 0 <= i < |cs| ==> cs[i].Code?
  {
    if k == 0 then [] else if lines[k - 1].Code? then Codes(lines, k - 1) + [lines[k - 1]] else Codes(lines, k - 1)
  }

  /** The labels defined before line k, each at the number of lines of code before it. */
  function Labels(lines: seq<Line>, k: nat): map<string, nat>
    requires k <= |lines|
  {
    if k == 0 then map[]
    else if lines[k - 1].Label? then Labels(lines, k - 1)[lines[k - 1].name := |Codes(lines, k - 1)|]
    else Labels(lines, k - 1)
  }

  /** The operand of the .entry lines before line k. */
  function EntryName(lines: seq<Line>, k: nat): Option<string>
    requires k <= |lines|
  {
    if k == 0 then None
    else if lines[k - 1].Entry? && |lines[k - 1].names| == 1 then Some(lines[k - 1].names[0])
    else EntryName(lines, k - 1)
  }

  /** Labels have a name of their own, and there is at most one .entry, with one operand. */
  ghost predicate WellNamed(lines: seq<Line>)
  {
    && (forall i :: 0 <= i < |lines| && lines[i].Label? ==> lines[i].name != "")
    && (forall i, j :: 0 <= i < j < |lines| && lines[i].Label? && lines[j].Label? ==> lines[i].name != lines[j].name)
    && (forall i :: 0 <= i < |lines| && lines[i].Entry? ==> |lines[i].names| == 1)
    && (forall i, j :: 0 <= i < j < |lines| ==> !(lines[i].Entry? && lines[j].Entry?))
  }

  lemma {:induction false} LabelsAre(lines: seq<Line>, k: nat, name: string)
    requires k <= |lines|
    ensures name in Labels(lines, k) <==> exists i :: 0 <= i < k && lines[i] == Label(name)
    decreases k
  {
    if k > 0 {
      LabelsAre(lines, k - 1, name);
      if lines[k - 1].Label? && lines[k - 1].name == name {
        assert lines[k - 1] == Label(name);
      }
    }
  }

  /** A label names the instruction that follows it. */
  lemma {:induction false} LabelIsPosition(lines: seq<Line>, k: nat, i: nat)
    requires WellNamed(lines) && i < k <= |lines| && lines[i].Label?
    ensures lines[i].name in Labels(lines, k) && Labels(lines, k)[lines[i].name] == |Codes(lines, i)|
    decreases k
  {
    if i < k - 1 {
      LabelIsPosition(lines, k - 1, i);
    }
  }

  lemma {:induction false} EntryIs(lines: seq<Line>, k: nat)
    requires k <= |lines| && forall i :: 0 <= i < k && lines[i].Entry? ==> |lines[i].names| == 1
    ensures EntryName(lines, k).Some? <==> exists i :: 0 <= i < k && lines[i].Entry?
    decreases k
  {
    if k > 0 {
      EntryIs(lines, k - 1);
      if lines[k - 1].Entry? {
        assert lines[k - 1].Entry?;
      }
    }
  }

  method FirstPass(lines: seq<Line>) returns (ok: bool, labels: map<string, nat>, codes: seq<Line>, entry: Option<string>)
    ensures ok <==> WellNamed(lines)
    ensures ok ==> labels == Labels(lines, |lines|) && codes == Codes(lines, |lines|) && entry == EntryName(lines, |lines|)
  {
    labels, codes, entry := map[], [], None;
    for k := 0 to |lines|
      invariant WellNamed(lines[..k])
      invariant labels == Labels(lines, k) && codes == Codes(lines, k) && entry == EntryName(lines, k)
    {
      var line := lines[k];
      assert lines[..k + 1] == lines[..k] + [line];
      match line {
        case Entry(names) =>
          EntryIs(lines, k);
          if |names| != 1 || entry.Some? {
            return false, labels, codes, entry;
          }
          entry := Some(names[0]);
        case Label(name) =>
          LabelsAre(lines, k, name);
          if name == "" || name in labels {
            return false, labels, codes, entry;
          }
          labels := labels[name := |codes|];
        case Code(_, _) =>
          codes := codes + [line];
      }
    }
    assert lines[..|lines|] == lines;
    ok := true;
  }

  // ---- Second pass and image ----

  /** The words of instructions, little-endian one after the other. */
  function Payload(instrs: seq<Instr>): (bytes: seq<bv8>)
    requires forall i :: 0 <= i < |instrs| ==> Packable(instrs[i])
    ensures |bytes| == 4 * |instrs|
  {
    if instrs == [] then [] else Payload(instrs[..|instrs| - 1]) + Bytes4(Encoded(instrs[|instrs| - 1]))
  }

  function ImageBytes(entry: nat, instrs: seq<Instr>): (bytes: seq<bv8>)
    requires entry < 0x1_0000 && |instrs| < 0x1_0000 && forall i :: 0 <= i < |instrs| ==> Packable(instrs[i])
    ensures |bytes| == HEADER + 4 * |instrs|
  {
    Header(CrcNumber(Payload(instrs)), entry, |instrs|) + Payload(instrs)
  }

  function Header(crc: nat, entry: nat, n: nat): (bytes: seq<bv8>)
    requires crc < U32 && entry < 0x1_0000 && n < 0x1_0000
    ensures |bytes| == HEADER
  {
    Bytes4(MAGIC) + Bytes2(2) + Bytes4(crc) + Bytes2(entry) + Bytes2(n) + Bytes2(0)
  }

  /** What a source file stands for. */
  datatype Program = Program(entry: nat, instrs: seq<Instr>)

  predicate Means(c: Line, labels: map<string, nat>)
    requires c.Code?
  {
    Meaning(c.op, c.operands, labels).Some?
  }

  ghost predicate CodesMean(cs: seq<Line>, labels: map<string, nat>)
    requires forall i :: 0 <= i < |cs| ==> cs[i].Code?
  {
    forall i :: 0 <= i < |cs| ==> Means(cs[i], labels)
  }

  function InstrOf(c: Line, labels: map<string, nat>): (ins: Instr)
    requires c.Code? && Means(c, labels)
    ensures Packable(ins) && ins.op == c.op && !ins.op.Unknown?
  {
    MeaningPacks(c.op, c.operands, labels);
    Meaning(c.op, c.operands, labels).value
  }

  ghost function MeaningOf(cs: seq<Line>, labels: map<string, nat>): (instrs: seq<Instr>)
    requires (forall i :: 0 <= i < |cs| ==> cs[i].Code?) && CodesMean(cs, labels)
    ensures |instrs| == |cs|
    ensures forall i :: 0 <= i < |cs| ==> instrs[i] == InstrOf(cs[i], labels)
    ensures forall i :: 0 <= i < |cs| ==> Packable(instrs[i]) && !instrs[i].op.Unknown?
  {
    seq(|cs|, i requires 0 <= i < |cs| => InstrOf(cs[i], labels))
  }

  /** The source is one the assembler takes. */
  ghost predicate Assembles(lines: seq<Line>)
  {
    && WellNamed(lines)
    && var labels, cs, entry := Labels(lines, |lines|), Codes(lines, |lines|), EntryName(lines, |lines|);
    && (entry.Some? ==> entry.value in labels)
    && CodesMean(cs, labels) && |cs| < 0x1_0000
  }

  lemma {:induction false} LabelsInRange(lines: seq<Line>, k: nat, name: string)
    requires k <= |lines| && name in Labels(lines, k)
    ensures Labels(lines, k)[name] <= |Codes(lines, k)|
    decreases k
  {
    if k > 0 {
      if lines[k - 1].Label? && lines[k - 1].name == name {
      } else {
        LabelsInRange(lines, k - 1, name);
      }
    }
  }

  /** The program of a source: the entry label's position, or 0, and each line's instruction with labels resolved. */
  ghost function ProgramOf(lines: seq<Line>): (p: Program)
    requires Assembles(lines)
    ensures p.entry < 0x1_0000 && |p.instrs| < 0x1_0000
    ensures forall i :: 0 <= i < |p.instrs| ==> Packable(p.instrs[i]) && !p.instrs[i].op.Unknown?
  {
    var labels, cs, entry := Labels(lines, |lines|), Codes(lines, |lines|), EntryName(lines, |lines|);
    if entry.Some? then
      LabelsInRange(lines, |lines|, entry.value);
      Program(labels[entry.value], MeaningOf(cs, labels))
    else Program(0, MeaningOf(cs, labels))
  }

  lemma {:induction false} CodeIsCounted(lines: seq<Line>, k: nat, i: nat)
    requires i < k <= |lines| && lines[i].Code?
    ensures |Codes(lines, i)| < |Codes(lines, k)| && Codes(lines, k)[|Codes(lines, i)|] == lines[i]
    decreases k
  {
    if i < k - 1 {
      CodeIsCounted(lines, k - 1, i);
    }
  }

  /** The instruction of a line stands behind those of the lines before it. */
  lemma LineIsPlaced(lines: seq<Line>, i: nat)
    requires Assembles(lines) && i < |lines| && lines[i].Code?
    ensures var n, instrs := |Codes(lines, i)|, ProgramOf(lines).instrs;
      n < |instrs| && Some(instrs[n]) == Meaning(lines[i].op, lines[i].operands, Labels(lines, |lines|))
  {
    CodeIsCounted(lines, |lines|, i);
    assert Means(Codes(lines, |lines|)[|Codes(lines, i)|], Labels(lines, |lines|));
  }

  /** A program starts at the label its .entry line names, and at its first instruction without such a line. */
  lemma EntryIsPlaced(lines: seq<Line>, i: nat, j: nat)
    requires Assembles(lines) && i < |lines| && j < |lines|
    requires lines[i].Entry? && lines[j].Label? && lines[i].names == [lines[j].name]
    ensures ProgramOf(lines).entry == |Codes(lines, j)|
  {
    OneEntry(lines, |lines|, i);
    LabelIsPosition(lines, |lines|, j);
  }

  lemma {:induction false} OneEntry(lines: seq<Line>, k: nat, i: nat)
    requires WellNamed(lines) && i < k <= |lines| && lines[i].Entry?
    ensures EntryName(lines, k) == Some(lines[i].names[0])
    decreases k
  {
    assert |lines[i].names| == 1;
    if i < k - 1 {
      OneEntry(lines, k - 1, i);
    }
  }

  lemma NoEntryIsZero(lines: seq<Line>)
    requires Assembles(lines) && forall i :: 0 <= i < |lines| ==> !lines[i].Entry?
    ensures ProgramOf(lines).entry == 0
  {
    EntryIs(lines, |lines|);
  }

  lemma PayloadAppend(instrs: seq<Instr>, ins: Instr)
    requires (forall j :: 0 <= j < |instrs| ==> Packable(instrs[j])) && Packable(ins)
    ensures Payload(instrs + [ins]) == Payload(instrs) + Bytes4(Encoded(ins))
  {
    assert (instrs + [ins])[..|instrs|] == instrs;
  }

  lemma MeaningGrows(cs: seq<Line>, labels: map<string, nat>, i: nat)
    requires (forall j :: 0 <= j < |cs| ==> cs[j].Code?) && i < |cs|
    requires CodesMean(cs[..i], labels) && Means(cs[i], labels)
    ensures CodesMean(cs[..i + 1], labels)
    ensures MeaningOf(cs[..i + 1], labels) == MeaningOf(cs[..i], labels) + [InstrOf(cs[i], labels)]
  {
    var before, after := cs[..i], cs[..i + 1];
    forall j | 0 <= j < i ensures after[j] == before[j] && Means(after[j], labels) {
      assert Means(before[j], labels);
    }
  }

  lemma WordOfLine(c: Line, labels: map<string, nat>, word: Option<nat>)
    requires c.Code? && word == match Meaning(c.op, c.operands, labels) case None => None case Some(ins) => Some(Encoded(ins))
    ensures word.Some? <==> Means(c, labels)
    ensures word.Some? ==> word.value == Encoded(InstrOf(c, labels))
  {
  }

  method SecondPass(cs: seq<Line>, labels: map<string, nat>) returns (payload: Option<seq<bv8>>)
    requires forall i :: 0 <= i < |cs| ==> cs[i].Code?
    ensures payload.Some? <==> CodesMean(cs, labels)
    ensures payload.Some? ==> payload.value == Payload(MeaningOf(cs, labels))
  {
    var bytes: seq<bv8> := [];
    for i := 0 to |cs|
      invariant CodesMean(cs[..i], labels)
      invariant bytes == Payload(MeaningOf(cs[..i], labels))
    {
      var word := PackLine(cs[i].op, cs[i].operands, labels);
      WordOfLine(cs[i], labels, word);
      if word.None? {
        return None;
      }
      MeaningGrows(cs, labels, i);
      PayloadAppend(MeaningOf(cs[..i], labels), InstrOf(cs[i], labels));
      bytes := bytes + Bytes4(word.value);
    }
    assert cs[..|cs|] == cs;
    return Some(bytes);
  }

  method Assemble(lines: seq<Line>) returns (image: Option<seq<bv8>>)
    ensures image.Some? <==> Assembles(lines)
    ensures image.Some? ==> image.value == ImageBytes(ProgramOf(lines).entry, ProgramOf(lines).instrs)
  {
    var ok, labels, cs, entry := FirstPass(lines);
    if !ok {
      return None;
    }
    var entryIp := 0;
    if entry.Some? {
      if entry.value !in labels {
        return None;
      }
      entryIp := labels[entry.value];
      LabelsInRange(lines, |lines|, entry.value);
    }
    var payload := SecondPass(cs, labels);
    if payload.None? || |cs| >= 0x1_0000 || entryIp >= 0x1_0000 {
      return None;
    }
    return Some(Header(CrcNumber(payload.value), entryIp, |cs|) + payload.value);
  }

  // ---- Reading an image back ----

  lemma {:induction false} PayloadWord(instrs: seq<Instr>, i: nat)
    requires (forall j :: 0 <= j < |instrs| ==> Packable(instrs[j])) && i < |instrs|
    ensures Payload(instrs)[4 * i..4 * i + 4] == Bytes4(Encoded(instrs[i]))
  {
    var n := |instrs| - 1;
    if i == n {
      assert Payload(instrs)[4 * i..] == Bytes4(Encoded(instrs[n]));
    } else {
      PayloadWord(instrs[..n], i);
      assert Payload(instrs)[..4 * n] == Payload(instrs[..n]);
    }
  }

  lemma Sliced(a: seq<bv8>, b: seq<bv8>, c: seq<bv8>, d: seq<bv8>, e: seq<bv8>, f: seq<bv8>, rest: seq<bv8>)
    requires |a| == 4 && |b| == 2 && |c| == 4 && |d| == 2 && |e| == 2 && |f| == 2
    ensures var s := a + b + c + d + e + f + rest;
      s[0..4] == a && s[4..6] == b && s[6..10] == c && s[10..12] == d && s[12..14] == e && s[14..16] == f
  {
  }

  lemma HeaderFields(crc: nat, entry: nat, n: nat, rest: seq<bv8>, s: seq<bv8>)
    requires crc < U32 && entry < 0x1_0000 && n < 0x1_0000 && s == Header(crc, entry, n) + rest
    ensures U32At(s, 0) == MAGIC && U16(s, 4) == 2 && U32At(s, 6) == crc
    ensures U16(s, 10) == entry && U16(s, 12) == n && U16(s, 14) == 0
  {
    var a, b, c, d, e, f := Bytes4(MAGIC), Bytes2(2), Bytes4(crc), Bytes2(entry), Bytes2(n), Bytes2(0);
    Sliced(a, b, c, d, e, f, rest);
    ReadBytes4(s, 0, MAGIC);
    ReadBytes2(s, 4, 2);
    ReadBytes4(s, 6, crc);
    ReadBytes2(s, 10, entry);
    ReadBytes2(s, 12, n);
    ReadBytes2(s, 14, 0);
  }
}

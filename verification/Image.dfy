/** The packed v2 image: 32-bit instruction words. */
module Image {
  import opened Arith
  import opened Vm

  const MAGIC: nat := 0x5246_5856
  const HEADER: nat := 16

  // ---- Instruction words ----

  function CodeOf(op: Op): nat
  {
    match op
    case TNOP => 0 case TLDI => 1 case TMOV => 2 case TLD => 3 case TST => 4 case TADD => 5 case TSUB => 6
    case TCMP => 7 case TSEL => 8 case TJMP => 9 case TBRNEG => 10 case TBRZERO => 11 case TBRPOS => 12
    case TSEND => 13 case TRECV => 14 case TFLUSH => 15 case TINV => 16 case TSYS => 17 case THALT => 18
    case TROUTE => 19 case TBIAS => 20 case TSENSE => 21 case Unknown(n) => n
  }

  function OpOf(n: nat): Op
  {
    if n < 22 then
      [TNOP, TLDI, TMOV, TLD, TST, TADD, TSUB, TCMP, TSEL, TJMP, TBRNEG, TBRZERO, TBRPOS,
       TSEND, TRECV, TFLUSH, TINV, TSYS, THALT, TROUTE, TBIAS, TSENSE][n]
    else Unknown(n)
  }

  lemma OpIsRead(op: Op)
    requires !op.Unknown?
    ensures CodeOf(op) < 22 && OpOf(CodeOf(op)) == op
  {
  }

  /** Fields as wide as the packed word gives them. */
  predicate Packable(ins: Instr)
  {
    && CodeOf(ins.op) < 64 && (ins.op.Unknown? ==> ins.op.code >= 22)
    && ins.dst < 8 && ins.srcA < 8 && ins.srcB < 8 && -0x1_0000 <= ins.imm < 0x1_0000
  }

  function ImmBits(imm: int): (n: nat)
    requires -0x1_0000 <= imm < 0x1_0000
    ensures n < 0x2_0000
  {
    if imm < 0 then imm + 0x2_0000 else imm
  }

  /** What the assembler packs: opcode, three registers, and the immediate's low 17 bits. */
  function Encoded(ins: Instr): (n: nat)
    requires Packable(ins)
    ensures n < U32
  {
    CodeOf(ins.op) + 64 * ins.dst + 512 * ins.srcA + 4096 * ins.srcB + 32768 * ImmBits(ins.imm)
  }

  function SignExtended(bits: nat): int
    requires bits < 0x2_0000
  {
    if bits >= 0x1_0000 then bits - 0x2_0000 else bits
  }

  /** The opcodes in the order of their numbers, which the assembler and the loader share. */
  const OPCODES: seq<Op> :=
    [TNOP, TLDI, TMOV, TLD, TST, TADD, TSUB, TCMP, TSEL, TJMP, TBRNEG, TBRZERO, TBRPOS,
     TSEND, TRECV, TFLUSH, TINV, TSYS, THALT, TROUTE, TBIAS, TSENSE]

  lemma OpcodesInOrder(i: nat)
    ensures if i < |OPCODES| then CodeOf(OPCODES[i]) == i && OpOf(i) == OPCODES[i] else OpOf(i) == Unknown(i)
    ensures |OPCODES| == 22
  {
  }

  /** What the loader decodes. */
  function Decoded(n: nat): Instr
    requires n < U32
  {
    Instr(OpOf(n % 64), n / 64 % 8, n / 512 % 8, n / 4096 % 8, SignExtended(n / 32768))
  }

  lemma FieldsOf(c: nat, d: nat, a: nat, b: nat, i: nat, n: nat)
    requires c < 64 && d < 8 && a < 8 && b < 8 && n == c + 64 * d + 512 * a + 4096 * b + 32768 * i
    ensures n % 64 == c && n / 64 % 8 == d && n / 512 % 8 == a && n / 4096 % 8 == b && n / 32768 == i
  {
    DivModUnique(d + 8 * a + 64 * b + 512 * i, 64, c);
    DivModUnique(a + 8 * b + 64 * i, 512, c + 64 * d);
    DivModUnique(b + 8 * i, 4096, c + 64 * d + 512 * a);
    DivModUnique(i, 32768, c + 64 * d + 512 * a + 4096 * b);
    DivModUnique(a + 8 * b + 64 * i, 8, d);
    DivModUnique(b + 8 * i, 8, a);
    DivModUnique(i, 8, b);
  }

  /** Every instruction survives packing: opcode, registers and signed immediate. */
  lemma EncodedIsDecoded(ins: Instr)
    requires Packable(ins)
    ensures Decoded(Encoded(ins)) == ins
  {
    FieldsOf(CodeOf(ins.op), ins.dst, ins.srcA, ins.srcB, ImmBits(ins.imm), Encoded(ins));
    if !ins.op.Unknown? {
      OpIsRead(ins.op);
    }
  }

  lemma FieldsExist(n: nat) returns (c: nat, d: nat, a: nat, b: nat, i: nat)
    ensures c < 64 && d < 8 && a < 8 && b < 8 && n == c + 64 * d + 512 * a + 4096 * b + 32768 * i
  {
    var q1, q2, q3 := n / 64, n / 64 / 8, n / 64 / 8 / 8;
    c, d, a, b, i := n % 64, q1 % 8, q2 % 8, q3 % 8, q3 / 8;
    assert n == c + 64 * q1 && q1 == d + 8 * q2 && q2 == a + 8 * q3 && q3 == b + 8 * i;
  }

  /** And every word is the packing of what the loader reads from it. */
  lemma DecodedIsEncoded(n: nat)
    requires n < U32
    ensures Packable(Decoded(n)) && Encoded(Decoded(n)) == n
  {
    var c, d, a, b, i := FieldsExist(n);
    FieldsOf(c, d, a, b, i, n);
    CodeIsKept(c);
  }

  lemma CodeIsKept(c: nat)
    ensures CodeOf(OpOf(c)) == c && (OpOf(c).Unknown? ==> OpOf(c).code >= 22)
  {
  }
}

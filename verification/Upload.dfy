/** From source to a running VM: assemble, write as hexadecimal text, type at the shell, parse, load. */
module Upload {
  import opened Bytes
  import opened Crc
  import opened Errors
  import opened Image
  import opened ShellParse
  import opened Ternary
  import opened Vm
  import opened VmSafety
  import Interpreter
  import Loader
  import Tasm

  /** What the loader asks of a program beyond what the assembler already guarantees. */
  predicate Loads(p: Tasm.Program)
  {
    && p.entry < |p.instrs|
    && forall i :: 0 <= i < |p.instrs| ==>
         && (IsJump(p.instrs[i].op) ==> 0 <= p.instrs[i].imm < |p.instrs|)
         && (p.instrs[i].op == TSYS ==> 0 <= p.instrs[i].imm <= 3)
  }

  /** Fields the assembler guarantees. */
  predicate WellEncoded(p: Tasm.Program)
  {
    && p.entry < 0x1_0000 && |p.instrs| < 0x1_0000
    && forall i :: 0 <= i < |p.instrs| ==> Packable(p.instrs[i]) && !p.instrs[i].op.Unknown?
  }

  lemma LoadsExactly(p: Tasm.Program)
    requires WellEncoded(p)
    ensures Loader.ImageError(Loader.ImageOf(2, p.entry, p.instrs, [])) == Ok <==> Loads(p)
  {
    Loader.FirstErrorExactly(p.instrs, 0);
  }

  lemma InstrIsRead(p: Tasm.Program, image: seq<bv8>, i: nat)
    requires WellEncoded(p) && i < |p.instrs| && image == Tasm.ImageBytes(p.entry, p.instrs)
    ensures Loader.InstrAt(image, i) == p.instrs[i]
  {
    var payload, at := Tasm.Payload(p.instrs), HEADER + i * 4;
    Tasm.PayloadWord(p.instrs, i);
    assert image[HEADER..] == payload;
    assert image[at..at + 4] == payload[4 * i..4 * i + 4];
    ReadBytes4(image, at, Encoded(p.instrs[i]));
    EncodedIsDecoded(p.instrs[i]);
  }

  lemma InstrsAreRead(p: Tasm.Program, image: seq<bv8>)
    requires WellEncoded(p) && image == Tasm.ImageBytes(p.entry, p.instrs)
    ensures Loader.InstrsOf(image, |p.instrs|) == p.instrs
  {
    forall i | 0 <= i < |p.instrs| ensures Loader.InstrsOf(image, |p.instrs|)[i] == p.instrs[i] {
      InstrIsRead(p, image, i);
    }
  }

  lemma PayloadIsRead(p: Tasm.Program, image: seq<bv8>)
    requires WellEncoded(p) && image == Tasm.ImageBytes(p.entry, p.instrs)
    ensures Loader.ParseContent(image, p.entry, |p.instrs|, 0) ==
      (var err := Loader.ImageError(Loader.ImageOf(2, p.entry, p.instrs, []));
       if err == Ok then Loader.Good(p.entry, p.instrs, []) else Loader.Bad(err))
  {
    InstrsAreRead(p, image);
    assert Loader.WordsOf(image, |p.instrs|, 0) == [];
  }

  lemma HeaderIsRead(p: Tasm.Program, image: seq<bv8>)
    requires WellEncoded(p) && image == Tasm.ImageBytes(p.entry, p.instrs)
    ensures U32At(image, 0) == MAGIC && U16(image, 4) == 2
    ensures U32At(image, 6) == CrcNumber(Tasm.Payload(p.instrs))
    ensures U16(image, 10) == p.entry && U16(image, 12) == |p.instrs| && U16(image, 14) == 0
  {
    var payload := Tasm.Payload(p.instrs);
    Tasm.HeaderFields(CrcNumber(payload), p.entry, |p.instrs|, payload, image);
  }

  lemma CrcIsRead(p: Tasm.Program, image: seq<bv8>, end: nat)
    requires WellEncoded(p) && image == Tasm.ImageBytes(p.entry, p.instrs) && end == HEADER + 4 * |p.instrs|
    ensures end <= |image| && Loader.CrcMatches(image, end)
  {
    var payload := Tasm.Payload(p.instrs);
    HeaderIsRead(p, image);
    PayloadFollows(p, image, payload);
  }

  lemma PayloadFollows(p: Tasm.Program, image: seq<bv8>, payload: seq<bv8>)
    requires WellEncoded(p) && image == Tasm.ImageBytes(p.entry, p.instrs) && payload == Tasm.Payload(p.instrs)
    ensures image[HEADER..HEADER + 4 * |p.instrs|] == payload
  {
  }

  lemma ImageIsContent(p: Tasm.Program, image: seq<bv8>, n: nat, d: nat, end: nat)
    requires WellEncoded(p) && image == Tasm.ImageBytes(p.entry, p.instrs) && n == |p.instrs| && d == 0
    requires end == HEADER + Loader.PayloadLength(n, d)
    ensures end <= |image| && Loader.Parse(image, true, true) == Loader.ParseContent(image, p.entry, n, d)
  {
    HeaderIsRead(p, image);
    CrcIsRead(p, image, end);
    Loader.ParsedAsContent(image, p.entry, n, d, end);
  }

  /** What loading gives for an error code and a program. */
  function Result(err: Err, p: Tasm.Program): Loader.Parsed
  {
    if err == Ok then Loader.Good(p.entry, p.instrs, []) else Loader.Bad(err)
  }

  lemma ContentIs(p: Tasm.Program, image: seq<bv8>, n: nat, d: nat) returns (err: Err)
    requires WellEncoded(p) && image == Tasm.ImageBytes(p.entry, p.instrs) && n == |p.instrs| && d == 0
    ensures err == Ok <==> Loads(p)
    ensures HEADER + Loader.PayloadLength(n, d) <= |image| && Loader.ParseContent(image, p.entry, n, d) == Result(err, p)
  {
    PayloadIsRead(p, image);
    LoadsExactly(p);
    err := Loader.ImageError(Loader.ImageOf(2, p.entry, p.instrs, []));
  }

  /** The loader reads back the entry and every instruction of an assembled image, and takes it exactly when it loads. */
  lemma ImageIsParsed(p: Tasm.Program, image: seq<bv8>)
    requires WellEncoded(p) && image == Tasm.ImageBytes(p.entry, p.instrs)
    ensures Loads(p) ==> Loader.Parse(image, true, true) == Loader.Good(p.entry, p.instrs, [])
    ensures !Loads(p) ==> Loader.Parse(image, true, true).Bad?
  {
    ImageIsContent(p, image, |p.instrs|, 0, HEADER + Loader.PayloadLength(|p.instrs|, 0));
    var err := ContentIs(p, image, |p.instrs|, 0);
  }

  // ---- The line typed at the shell ----

  const COMMAND: string := "vm loadhex "

  /** The length check of tasm.py, which counts the newline. */
  predicate PassesCheck(image: seq<bv8>)
  {
    |Hex(image)| + 12 <= 1024
  }

  lemma CommandIsStored()
    ensures |COMMAND| == 11 && forall i :: 0 <= i < |COMMAND| ==> Kept(COMMAND[i])
  {
  }

  /** The line arrives whole exactly when the assembler's check let it through. */
  lemma LineArrives(image: seq<bv8>)
    ensures var text := COMMAND + Hex(image);
      && (forall i :: 0 <= i < |text| ==> Kept(text[i]))
      && (PassesCheck(image) <==> Typed(ShellParse.Line("", false), text) == ShellParse.Line(text, false))
      && (!PassesCheck(image) <==> Typed(ShellParse.Line("", false), text).overflowed)
  {
    var text := COMMAND + Hex(image);
    CommandIsStored();
    HexIsText(image);
    forall i | 0 <= i < |text| ensures Kept(text[i]) {
      if i >= |COMMAND| {
        assert IsHex(Hex(image)[i - |COMMAND|]);
      }
    }
    TypedKeeps(ShellParse.Line("", false), text);
    assert "" + text == text;
  }

  /** The whole way: any source the assembler takes comes out of the loader as the program it stands for. */
  lemma SourceIsLoaded(lines: seq<Tasm.Line>)
    requires Tasm.Assembles(lines)
    ensures var p := Tasm.ProgramOf(lines);
            var text := Hex(Tasm.ImageBytes(p.entry, p.instrs));
      && Parses(text, |text| / 2)
      && (Loads(p) ==> Loader.Parse(BytesOf(text), true, true) == Loader.Good(p.entry, p.instrs, []))
      && (!Loads(p) ==> Loader.Parse(BytesOf(text), true, true).Bad?)
  {
    var p := Tasm.ProgramOf(lines);
    var image := Tasm.ImageBytes(p.entry, p.instrs);
    HexIsRead(image);
    ImageIsParsed(p, image);
  }

  /** The loadhex command of shell/shell.c; the flags say whether the loader's allocations succeed. */
  method LoadHex(vm: Interpreter.Interpreter, text: string, instrsFit: bool, wordsFit: bool) returns (loaded: bool)
    requires vm.Valid()
    modifies vm, vm.mmu
    ensures vm.Valid()
    ensures loaded <==> Parses(text, |text| / 2) && Loader.Parse(BytesOf(text), instrsFit, wordsFit).Good?
    ensures loaded ==> Loader.Holds(vm, Loader.Parse(BytesOf(text), instrsFit, wordsFit))
    ensures !Parses(text, |text| / 2) ==> unchanged(vm) && unchanged(vm.mmu)
  {
    if |text| < 2 || |text| % 2 == 1 {
      return false;
    }
    var buffer := new bv8[|text| / 2](_ => 0);
    var ok, got := ParseHex(text, buffer);
    if !ok || got != buffer.Length {
      return false;
    }
    assert buffer[..got] == buffer[..];
    var err := Loader.LoadBinary(vm, buffer[..], instrsFit, wordsFit);
    return err == Ok;
  }

  // ---- A fault that no check excludes ----

  /** A program that sends to node v. */
  function Shout(v: int): (prog: seq<Instr>)
    ensures |prog| == 2
  {
    [Instr(TLDI, 0, 0, 0, v), Instr(TSEND, 0, 0, 0, 0)]
  }

  lemma ShoutLoads(m: Machine, ins: Instr, prog: seq<Instr>, env: Outside)
    requires m.core.Valid() && m.core.ip == 0 && m.core.status == Ready && MemoryOk(m.mem) && InBounds(prog)
    requires |prog| > 0 && prog[0] == ins && ins.op == TLDI && ins.dst == 0 && IsReg(ins.srcA) && IsReg(ins.srcB) && Fits(ins.imm)
    ensures var s := Step(prog, m, env);
      && s.err == Ok && s.machine.core.ip == 1 && s.machine.core.status == Ready
      && s.machine.core.Valid() && s.machine.core.regs[0] == Encode(ins.imm)
  {
    var n := m.(core := Advanced(m.core));
    assert Exec(prog, n, ins, env) == ExecAlu(n, ins);
  }

  lemma ShoutIsLoadable(v: int)
    requires 255 < v < 0x1_0000
    ensures WellEncoded(Tasm.Program(0, Shout(v))) && Loads(Tasm.Program(0, Shout(v)))
  {
  }

  /** The loader accepts it, and every run of two steps ends in an immediate fault, if v is not a byte. */
  lemma BadSendIsAccepted(v: int, image: seq<bv8>, p: Loader.Parsed, m: Machine, envs: seq<Outside>)
    requires 255 < v < 0x1_0000 && WellEncoded(Tasm.Program(0, Shout(v)))
    requires image == Tasm.ImageBytes(0, Shout(v)) && p == Loader.Good(0, Shout(v), []) && Loader.JustLoaded(m, p)
    requires |envs| >= 2 && !envs[0].late && forall i :: 0 <= i < |envs| ==> FairOutside(envs[i])
    ensures Loader.Parse(image, true, true) == p
    ensures m.core.Valid() && InBounds(p.instrs) && BadSendFault(RunLoop(p.instrs, m, envs))
  {
    ShoutIsLoadable(v);
    ImageIsParsed(Tasm.Program(0, Shout(v)), image);
    Loader.AcceptedRunsSafely(image, true, true, p, m, envs);
    ShoutMeetsBadSend(v, p.instrs, m, envs);
  }

  lemma ShoutMeetsBadSend(v: int, prog: seq<Instr>, m: Machine, envs: seq<Outside>)
    requires 255 < v < 0x1_0000 && prog == Shout(v) && InBounds(prog)
    requires m.core.Valid() && m.core.ip == 0 && m.core.status == Ready && MemoryOk(m.mem) && |envs| >= 2 && !envs[0].late
    ensures MeetsBadSend(prog, m, envs)
  {
    ShoutLoads(m, prog[0], prog, envs[0]);
    StepShape(prog, m, envs[0]);
    EncodeInverse(v);
    var s, rest := Step(prog, m, envs[0]).machine, envs[1..];
    assert BadTarget(s, prog[1]);
    assert MeetsBadSend(prog, s, rest);
  }
}

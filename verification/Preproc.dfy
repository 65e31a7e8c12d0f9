/** The preprocessor scan of tools/check_independence.py: which lines a build compiles, when some symbols are known.

    A condition is given by its shape after comments are removed; anything but a name or a negated name is opaque. */
module Preproc {
  import opened Errors

  datatype Cond = Name(sym: string) | NotName(sym: string) | Opaque(text: string)

  datatype Line = If(cond: Cond) | Ifdef(sym: string) | Ifndef(sym: string) | Elif(cond: Cond) | Else | Endif | Text

  type Symbols = map<string, bool>

  // ---- The tool ----

  /** Three-valued: None where the tool does not know. */
  function EvalCond(c: Cond, known: Symbols): Option<bool>
  {
    match c
    case Name(s) => if s in known then Some(known[s]) else None
    case NotName(s) => if s in known then Some(!known[s]) else None
    case Opaque(_) => None
  }

  function EvalOpen(l: Line, known: Symbols): Option<bool>
    requires l.If? || l.Ifdef? || l.Ifndef?
  {
    match l
    case If(c) => EvalCond(c, known)
    case Ifdef(s) => EvalCond(Name(s), known)
    case Ifndef(s) => EvalCond(NotName(s), known)
  }

  /** A frame of the tool's stack: is this branch counted, was every condition known, has a branch been taken. */
  datatype Frame = Frame(active: bool, known: bool, taken: bool)

  function Opened(v: Option<bool>): Frame
  {
    Frame(v.None? || v.value, v.Some?, v == Some(true))
  }

  function AtElif(f: Frame, v: Option<bool>): Frame
  {
    if !f.known || v.None? then Frame(true, false, f.taken)
    else
      var active := v.value && !f.taken;
      Frame(active, f.known, f.taken || active)
  }

  function AtElse(f: Frame): Frame { f.(active := !f.known || !f.taken) }

  function Top(s: seq<Frame>, f: Frame): seq<Frame>
    requires |s| > 0
  {
    s[|s| - 1 := f]
  }

  /** The stack after a line; directives without an open group are ignored. */
  function StackAfter(s: seq<Frame>, l: Line, known: Symbols): seq<Frame>
  {
    match l
    case If(_) | Ifdef(_) | Ifndef(_) => s + [Opened(EvalOpen(l, known))]
    case Elif(c) => if s == [] then s else Top(s, AtElif(s[|s| - 1], EvalCond(c, known)))
    case Else => if s == [] then s else Top(s, AtElse(s[|s| - 1]))
    case Endif => if s == [] then s else s[..|s| - 1]
    case Text => s
  }

  function StackAt(lines: seq<Line>, n: nat, known: Symbols): seq<Frame>
    requires n <= |lines|
  {
    if n == 0 then [] else StackAfter(StackAt(lines, n - 1, known), lines[n - 1], known)
  }

  predicate AllActive(s: seq<Frame>)
  {
    forall i :: 0 <= i < |s| ==> s[i].active
  }

  /** The tool counts line n. */
  predicate Yielded(lines: seq<Line>, n: nat, known: Symbols)
    requires n < |lines|
  {
    lines[n].Text? && AllActive(StackAt(lines, n, known))
  }

  /** The lines before n that the tool counts, in order. */
  ghost predicate KeptTo(lines: seq<Line>, n: nat, known: Symbols, kept: seq<nat>)
    requires n <= |lines|
  {
    && (forall k: nat :: k in kept <==> k < n && Yielded(lines, k, known))
    && (forall i, j :: 0 <= i < j < |kept| ==> kept[i] < kept[j])
  }

  lemma KeptNext(lines: seq<Line>, n: nat, known: Symbols, kept: seq<nat>)
    requires n < |lines| && KeptTo(lines, n, known, kept)
    ensures KeptTo(lines, n + 1, known, if Yielded(lines, n, known) then kept + [n] else kept)
  {
    var more := kept + [n];
    assert more[|kept|] == n;
    forall i | 0 <= i < |kept| ensures kept[i] < n {
      assert kept[i] in kept;
    }
    forall k: nat ensures k in more <==> k in kept || k == n {
    }
  }

  method ActiveLines(lines: seq<Line>, known: Symbols) returns (kept: seq<nat>)
    ensures forall n: nat :: n in kept <==> n < |lines| && Yielded(lines, n, known)
    ensures forall i, j :: 0 <= i < j < |kept| ==> kept[i] < kept[j]
  {
    kept := [];
    var stack: seq<Frame> := [];
    for n := 0 to |lines|
      invariant stack == StackAt(lines, n, known)
      invariant KeptTo(lines, n, known, kept)
    {
      KeptNext(lines, n, known, kept);
      match lines[n] {
        case If(_) | Ifdef(_) | Ifndef(_) =>
          var v := EvalOpen(lines[n], known);
          stack := stack + [Frame(if v.None? then true else v.value, v.Some?, v == Some(true))];
        case Elif(c) =>
          if stack != [] {
            var top := stack[|stack| - 1];
            var v := EvalCond(c, known);
            if !top.known || v.None? {
              top := top.(active := true, known := false);
            } else {
              top := top.(active := v.value && !top.taken);
              top := top.(taken := top.taken || top.active);
            }
            stack := stack[|stack| - 1 := top];
          }
        case Else =>
          if stack != [] {
            var top := stack[|stack| - 1];
            stack := stack[|stack| - 1 := top.(active := if !top.known then true else !top.taken)];
          }
        case Endif =>
          if stack != [] {
            stack := stack[..|stack| - 1];
          }
        case Text =>
          if AllActive(stack) {
            kept := kept + [n];
          }
      }
    }
  }

  // ---- A real preprocessor ----

  /** What one build defines, and how it decides the conditions the tool does not understand. */
  datatype Build = Build(defined: string -> bool, value: string -> int, opaqueTrue: string -> bool)

  function Holds(c: Cond, b: Build): bool
  {
    match c
    case Name(s) => b.value(s) != 0
    case NotName(s) => b.value(s) == 0
    case Opaque(t) => b.opaqueTrue(t)
  }

  function Opens(l: Line, b: Build): bool
    requires l.If? || l.Ifdef? || l.Ifndef?
  {
    match l
    case If(c) => Holds(c, b)
    case Ifdef(s) => b.defined(s)
    case Ifndef(s) => !b.defined(s)
  }

  /** The build gives the known symbols their known values: nonzero, or not defined at all. */
  ghost predicate Agrees(b: Build, known: Symbols)
  {
    forall s :: s in known ==>
      && (known[s] ==> b.defined(s) && b.value(s) != 0)
      && (!known[s] ==> !b.defined(s) && b.value(s) == 0)
  }

  /** A group of the real evaluation: is this branch compiled, has one been, is this the #else branch. */
  datatype Group = Group(active: bool, taken: bool, last: bool)

  /** The open groups after n lines, or None where the input is not well formed. */
  function GroupsAt(lines: seq<Line>, n: nat, b: Build): Option<seq<Group>>
    requires n <= |lines|
  {
    if n == 0 then Some([])
    else
      match GroupsAt(lines, n - 1, b)
      case None => None
      case Some(gs) => GroupsAfter(gs, lines[n - 1], b)
  }

  function GroupsAfter(gs: seq<Group>, l: Line, b: Build): Option<seq<Group>>
  {
    match l
    case If(_) | Ifdef(_) | Ifndef(_) => Some(gs + [Group(Opens(l, b), Opens(l, b), false)])
    case Elif(c) =>
      if gs == [] || gs[|gs| - 1].last then None
      else
        var g := gs[|gs| - 1];
        var active := !g.taken && Holds(c, b);
        Some(gs[|gs| - 1 := Group(active, g.taken || active, false)])
    case Else =>
      if gs == [] || gs[|gs| - 1].last then None
      else
        var g := gs[|gs| - 1];
        Some(gs[|gs| - 1 := Group(!g.taken, true, true)])
    case Endif => if gs == [] then None else Some(gs[..|gs| - 1])
    case Text => Some(gs)
  }

  /** The build compiles line n. */
  predicate Compiled(lines: seq<Line>, n: nat, b: Build)
    requires n < |lines|
  {
    lines[n].Text? &&
    match GroupsAt(lines, n, b)
    case None => false
    case Some(gs) => forall i :: 0 <= i < |gs| ==> gs[i].active
  }

  // ---- The two side by side ----

  /** What a frame says of its group: all there is to know if every condition was known, and otherwise nothing. */
  predicate Matches(f: Frame, g: Group)
  {
    if f.known then f.active == g.active && (!g.last ==> f.taken == g.taken) else f.active
  }

  ghost predicate AllMatch(s: seq<Frame>, gs: seq<Group>)
  {
    |s| == |gs| && forall i :: 0 <= i < |s| ==> Matches(s[i], gs[i])
  }

  lemma EvalAgrees(c: Cond, known: Symbols, b: Build)
    requires Agrees(b, known) && EvalCond(c, known).Some?
    ensures EvalCond(c, known).value == Holds(c, b)
  {
  }

  lemma OpenAgrees(l: Line, known: Symbols, b: Build)
    requires Agrees(b, known) && (l.If? || l.Ifdef? || l.Ifndef?) && EvalOpen(l, known).Some?
    ensures EvalOpen(l, known).value == Opens(l, b)
  {
  }

  lemma StepMatches(s: seq<Frame>, gs: seq<Group>, l: Line, known: Symbols, b: Build)
    requires Agrees(b, known) && AllMatch(s, gs) && GroupsAfter(gs, l, b).Some?
    ensures AllMatch(StackAfter(s, l, known), GroupsAfter(gs, l, b).value)
  {
    match l
    case If(_) | Ifdef(_) | Ifndef(_) =>
      if EvalOpen(l, known).Some? {
        OpenAgrees(l, known, b);
      }
    case Elif(c) =>
      if EvalCond(c, known).Some? {
        EvalAgrees(c, known, b);
      }
      assert Matches(s[|s| - 1], gs[|gs| - 1]);
    case Else => assert Matches(s[|s| - 1], gs[|gs| - 1]);
    case Endif =>
    case Text =>
  }

  lemma {:induction false} StacksMatch(lines: seq<Line>, n: nat, known: Symbols, b: Build)
    requires n <= |lines| && Agrees(b, known) && GroupsAt(lines, n, b).Some?
    ensures AllMatch(StackAt(lines, n, known), GroupsAt(lines, n, b).value)
  {
    if n > 0 {
      StacksMatch(lines, n - 1, known, b);
      StepMatches(StackAt(lines, n - 1, known), GroupsAt(lines, n - 1, b).value, lines[n - 1], known, b);
    }
  }

  /** Whatever a build makes of the unknown symbols and conditions, every line it compiles is counted. */
  lemma NothingIsMissed(lines: seq<Line>, n: nat, known: Symbols, b: Build)
    requires n < |lines| && Agrees(b, known) && Compiled(lines, n, b)
    ensures Yielded(lines, n, known)
  {
    StacksMatch(lines, n, known, b);
    var s, gs := StackAt(lines, n, known), GroupsAt(lines, n, b).value;
    forall i | 0 <= i < |s| ensures s[i].active {
      assert Matches(s[i], gs[i]);
    }
  }

  /** Every condition among the first n lines is known. */
  predicate AllKnown(lines: seq<Line>, n: nat, known: Symbols)
    requires n <= |lines|
  {
    forall i :: 0 <= i < n ==>
      && (lines[i].If? || lines[i].Ifdef? || lines[i].Ifndef? ==> EvalOpen(lines[i], known).Some?)
      && (lines[i].Elif? ==> EvalCond(lines[i].cond, known).Some?)
  }

  lemma {:induction false} KnownFrames(lines: seq<Line>, n: nat, known: Symbols)
    requires n <= |lines| && AllKnown(lines, n, known)
    ensures forall i :: 0 <= i < |StackAt(lines, n, known)| ==> StackAt(lines, n, known)[i].known
  {
    if n > 0 {
      KnownFrames(lines, n - 1, known);
    }
  }

  /** With every condition known, the count is exact. */
  lemma KnownIsExact(lines: seq<Line>, n: nat, known: Symbols, b: Build)
    requires n < |lines| && Agrees(b, known) && GroupsAt(lines, n, b).Some? && AllKnown(lines, n, known)
    ensures Yielded(lines, n, known) <==> Compiled(lines, n, b)
  {
    StacksMatch(lines, n, known, b);
    KnownFrames(lines, n, known);
    var s, gs := StackAt(lines, n, known), GroupsAt(lines, n, b).value;
    forall i | 0 <= i < |s| ensures s[i].active == gs[i].active {
      assert Matches(s[i], gs[i]) && s[i].known;
    }
  }

  // ---- For which builds ----

  /** No line the build compiles, in any source, is missed. */
  ghost predicate Conservative(b: Build, known: Symbols)
  {
    forall lines: seq<Line>, n: nat :: n < |lines| && Compiled(lines, n, b) ==> Yielded(lines, n, known)
  }

  /** A line behind a condition that the build takes and the tool takes to be false is missed. */
  lemma WrongIsMissed(l: Line, known: Symbols, b: Build)
    requires l.If? || l.Ifdef? || l.Ifndef?
    requires Opens(l, b) && EvalOpen(l, known) == Some(false)
    ensures var lines := [l, Text]; Compiled(lines, 1, b) && !Yielded(lines, 1, known)
  {
    var lines := [l, Text];
    var none: seq<Group> := [];
    assert GroupsAt(lines, 0, b) == Some(none);
    assert none + [Group(true, true, false)] == [Group(true, true, false)];
    assert GroupsAt(lines, 1, b) == Some([Group(true, true, false)]);
    assert StackAt(lines, 0, known) == [];
    assert StackAt(lines, 1, known) == [Frame(false, true, false)];
    assert !StackAt(lines, 1, known)[0].active;
  }

  /** The exact condition: the scan misses nothing of a build if and only if the build agrees with the known symbols. */
  lemma ConservativeExactly(b: Build, known: Symbols)
    ensures Conservative(b, known) <==> Agrees(b, known)
  {
    if Agrees(b, known) {
      forall lines: seq<Line>, n: nat | n < |lines| && Compiled(lines, n, b) ensures Yielded(lines, n, known) {
        NothingIsMissed(lines, n, known, b);
      }
    } else {
      var s :| s in known && !((known[s] ==> b.defined(s) && b.value(s) != 0) && (!known[s] ==> !b.defined(s) && b.value(s) == 0));
      var l := if known[s] then (if b.defined(s) then If(NotName(s)) else Ifndef(s))
               else if b.defined(s) then Ifdef(s) else If(Name(s));
      WrongIsMissed(l, known, b);
    }
  }

  /** A symbol defined as 0 is outside this: the tool has one value for `#ifdef S` and `#if S`, a build has two. */
  lemma DefinedAsZero(b: Build)
    requires b.defined("S") && b.value("S") == 0
    ensures var lines, known: Symbols := [Ifdef("S"), Text], map["S" := false];
      EvalCond(Name("S"), known) == Some(Holds(Name("S"), b)) && Compiled(lines, 1, b) && !Yielded(lines, 1, known)
  {
    WrongIsMissed(Ifdef("S"), map["S" := false], b);
  }
}

/** shell/shell_parse.c: hexadecimal text to bytes, and the line buffer of shell/shell.c it arrives in. */
module ShellParse {
  import opened Bytes

  /** 0 to 15, or -1 for anything that is not a hexadecimal digit. */
  function Nibble(c: char): (n: int)
    ensures -1 <= n < 16
  {
    if '0' <= c <= '9' then c as int - '0' as int
    else if 'a' <= c <= 'f' then c as int - 'a' as int + 10
    else if 'A' <= c <= 'F' then c as int - 'A' as int + 10
    else -1
  }

  predicate IsHex(c: char) { '0' <= c <= '9' || 'a' <= c <= 'f' || 'A' <= c <= 'F' }

  lemma NibbleDecides(c: char)
    ensures Nibble(c) >= 0 <==> IsHex(c)
  {
  }

  predicate HexText(s: string)
  {
    forall i :: 0 <= i < |s| ==> IsHex(s[i])
  }

  /** The two characters of byte i. */
  function Pair(s: string, i: nat): (p: string)
    requires 2 * i + 1 < |s|
    ensures |p| == 2
  {
    [s[2 * i], s[2 * i + 1]]
  }

  function PairByte(p: string): bv8
    requires |p| == 2 && HexText(p)
  {
    NibbleDecides(p[0]);
    NibbleDecides(p[1]);
    Joined(Nibble(p[0]), Nibble(p[1]))
  }

  /** Two nibbles as a byte. */
  function Joined(hi: nat, lo: nat): bv8
    requires hi < 16 && lo < 16
  {
    ToByte(hi * 16 + lo)
  }

  /** The bytes hexadecimal text stands for, most significant digit first. */
  function BytesOf(s: string): (b: seq<bv8>)
    requires HexText(s) && |s| % 2 == 0
    ensures |b| == |s| / 2
  {
    seq(|s| / 2, i requires 0 <= i < |s| / 2 => PairByte(Pair(s, i)))
  }

  lemma PairRead(s: string, i: nat)
    requires HexText(s) && 2 * i + 1 < |s| && Nibble(s[i * 2]) >= 0 && Nibble(s[i * 2 + 1]) >= 0
    ensures PairByte(Pair(s, i)) == Joined(Nibble(s[i * 2]), Nibble(s[i * 2 + 1]))
  {
  }

  predicate Parses(s: string, cap: nat)
  {
    |s| >= 2 && |s| % 2 == 0 && |s| / 2 <= cap && HexText(s)
  }

  /** Nothing is written unless the whole text is good. */
  method ParseHex(s: string, out: array<bv8>) returns (ok: bool, len: nat)
    modifies out
    ensures ok <==> Parses(s, out.Length)
    ensures ok ==> len == |s| / 2 && out[..len] == BytesOf(s) && out[len..] == old(out[len..])
    ensures !ok ==> out[..] == old(out[..])
  {
    if |s| < 2 || |s| % 2 == 1 {
      return false, 0;
    }
    var bytes := |s| / 2;
    if bytes > out.Length {
      return false, 0;
    }
    for i := 0 to |s|
      invariant out[..] == old(out[..])
      invariant forall j :: 0 <= j < i ==> IsHex(s[j])
    {
      NibbleDecides(s[i]);
      if Nibble(s[i]) < 0 {
        return false, 0;
      }
    }
    for i := 0 to bytes
      invariant forall j :: 0 <= j < i ==> out[j] == PairByte(Pair(s, j))
      invariant forall j :: bytes <= j < out.Length ==> out[j] == old(out[..])[j]
    {
      NibbleDecides(s[i * 2]);
      NibbleDecides(s[i * 2 + 1]);
      out[i] := Joined(Nibble(s[i * 2]), Nibble(s[i * 2 + 1]));
      PairRead(s, i);
    }
    return true, bytes;
  }

  /** A digit's place in the alphabet, in either case. */
  lemma NibbleIsPlace(k: nat)
    requires k < 16
    ensures Nibble("0123456789abcdef"[k]) == k && Nibble("0123456789ABCDEF"[k]) == k
  {
  }

  /** A byte is sixteen times its first digit and its second. */
  lemma PairCounts(p: string)
    requires |p| == 2 && HexText(p)
    ensures Nibble(p[0]) >= 0 && Nibble(p[1]) >= 0 && OfByte(PairByte(p)) == 16 * Nibble(p[0]) + Nibble(p[1])
  {
    NibbleDecides(p[0]);
    NibbleDecides(p[1]);
    ByteIsKept(Nibble(p[0]) * 16 + Nibble(p[1]));
  }

  // ---- The text Python writes for bytes ----

  function Digit(n: nat): (c: char)
    requires n < 16
    ensures IsHex(c) && Nibble(c) == n
  {
    if n < 10 then ('0' as int + n) as char else ('a' as int + n - 10) as char
  }

  /** The two digits of a byte value. */
  function Digits(n: nat): (p: string)
    requires n < 256
    ensures |p| == 2 && HexText(p)
  {
    [Digit(n / 16), Digit(n % 16)]
  }

  lemma DigitsAreRead(n: nat)
    requires n < 256
    ensures PairByte(Digits(n)) == ToByte(n)
  {
  }

  function Hex(b: seq<bv8>): (s: string)
    ensures |s| == 2 * |b|
  {
    if b == [] then [] else Hex(b[..|b| - 1]) + Digits(OfByte(b[|b| - 1]))
  }

  lemma {:induction false} HexPairs(b: seq<bv8>, i: nat)
    requires i < |b|
    ensures Pair(Hex(b), i) == Digits(OfByte(b[i]))
  {
    if i < |b| - 1 {
      HexPairs(b[..|b| - 1], i);
    }
  }

  lemma HexIsText(b: seq<bv8>)
    ensures HexText(Hex(b))
  {
    forall k | 0 <= k < |Hex(b)| ensures IsHex(Hex(b)[k]) {
      HexPairs(b, k / 2);
      assert Hex(b)[k] == Pair(Hex(b), k / 2)[k % 2];
    }
  }

  /** Parsing undoes writing, for any bytes. */
  lemma HexIsRead(b: seq<bv8>)
    ensures HexText(Hex(b)) && BytesOf(Hex(b)) == b
  {
    HexIsText(b);
    forall i | 0 <= i < |b| ensures BytesOf(Hex(b))[i] == b[i] {
      HexPairs(b, i);
      DigitsAreRead(OfByte(b[i]));
      ByteIsRead(b[i]);
    }
  }

  // ---- The line buffer ----

  const LINE_MAX: nat := 1024

  /** Characters the shell stores; the others end the line or edit it. */
  predicate Kept(c: char) { c != '\n' && c != '\r' && c as int != 8 && c as int != 0x7F }

  datatype Line = Line(text: string, overflowed: bool)

  /** The buffer after more characters of a line. */
  function Typed(line: Line, chars: string): Line
    requires forall i :: 0 <= i < |chars| ==> Kept(chars[i])
    decreases |chars|
  {
    if chars == [] then line
    else if |line.text| < LINE_MAX - 1 then Typed(line.(text := line.text + [chars[0]]), chars[1..])
    else Typed(line.(overflowed := true), chars[1..])
  }

  lemma {:induction false} TypedKeeps(line: Line, chars: string)
    requires forall i :: 0 <= i < |chars| ==> Kept(chars[i])
    requires |line.text| <= LINE_MAX - 1
    ensures Typed(line, chars).overflowed <==> line.overflowed || |line.text| + |chars| > LINE_MAX - 1
    ensures |line.text| + |chars| <= LINE_MAX - 1 ==> Typed(line, chars).text == line.text + chars
    decreases |chars|
  {
    if chars == [] {
      assert line.text + chars == line.text;
    } else if |line.text| < LINE_MAX - 1 {
      var next := line.(text := line.text + [chars[0]]);
      TypedKeeps(next, chars[1..]);
      assert next.text + chars[1..] == line.text + chars;
    } else {
      TypedKeeps(line.(overflowed := true), chars[1..]);
    }
  }
}

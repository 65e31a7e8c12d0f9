/** vm/ternary.c: four trits to a byte, two bits each, lowest trit in the lowest bits. */
module Packing {
  import opened Errors
  import opened Ternary

  const BAD_CODE: bv8 := 3

  function TritCode(t: int): (c: bv8)
    ensures c == BAD_CODE <==> !IsTrit(t)
  {
    if t == -1 then 0 else if t == 0 then 1 else if t == 1 then 2 else BAD_CODE
  }

  function CodeTrit(c: bv8): int
  {
    if c == 0 then -1 else if c == 1 then 0 else 1
  }

  /** The codes 0, 1 and 2 stand for -1, 0 and 1, and 3 for nothing. */
  lemma CodesAreOrdered(t: int)
    ensures IsTrit(t) <==> TritCode(t) != 3
    ensures IsTrit(t) ==> TritCode(t) as int == t + 1 && CodeTrit(TritCode(t)) == t
  {
  }

  /** The two bits of trit position s. */
  function Slot(b: bv8, s: nat): bv8
    requires s < 4
  {
    if s == 0 then b & 3 else if s == 1 then (b >> 2) & 3 else if s == 2 then (b >> 4) & 3 else (b >> 6) & 3
  }

  function OrInto(b: bv8, s: nat, c: bv8): bv8
    requires s < 4
  {
    if s == 0 then b | c else if s == 1 then b | (c << 2) else if s == 2 then b | (c << 4) else b | (c << 6)
  }

  lemma OrIntoSlot(b: bv8, s: nat, c: bv8, s': nat)
    requires s < 4 && s' < 4 && c <= 3 && Slot(b, s) == 0
    ensures Slot(OrInto(b, s, c), s') == if s' == s then c else Slot(b, s')
  {
  }

  lemma SlotsDecide(a: bv8, b: bv8)
    requires Slot(a, 0) == Slot(b, 0) && Slot(a, 1) == Slot(b, 1) && Slot(a, 2) == Slot(b, 2) && Slot(a, 3) == Slot(b, 3)
    ensures a == b
  {
  }

  lemma ZeroSlots(s: nat)
    requires s < 4
    ensures Slot(0, s) == 0
  {
  }

  lemma SlotRange(b: bv8, s: nat)
    requires s < 4
    ensures Slot(b, s) == 0 || Slot(b, s) == 1 || Slot(b, s) == 2 || Slot(b, s) == BAD_CODE
  {
  }

  /** The code at trit position j of a byte sequence. */
  function CodeAt(bytes: seq<bv8>, j: nat): bv8
    requires j < 4 * |bytes|
  {
    Slot(bytes[j / 4], j % 4)
  }

  ghost predicate CodesOk(bytes: seq<bv8>, n: nat)
    requires n <= 4 * |bytes|
  {
    forall j :: 0 <= j < n ==> CodeAt(bytes, j) != BAD_CODE
  }

  ghost predicate SpareClear(bytes: seq<bv8>, n: nat)
  {
    forall j :: n <= j < 4 * |bytes| ==> CodeAt(bytes, j) == 0
  }

  ghost predicate Packs(bytes: seq<bv8>, trits: seq<int>)
  {
    && |trits| <= 4 * |bytes| && SpareClear(bytes, |trits|)
    && forall j :: 0 <= j < |trits| ==> CodeAt(bytes, j) == TritCode(trits[j])
  }

  function Unpacked(bytes: seq<bv8>, n: nat): (trits: seq<int>)
    requires n <= 4 * |bytes|
    ensures |trits| == n && AllTrits(trits)
  {
    seq(n, j requires 0 <= j < n => CodeTrit(CodeAt(bytes, j)))
  }

  /** Unpacking undoes packing, and what was packed holds no bad code. */
  lemma UnpackPack(bytes: seq<bv8>, trits: seq<int>)
    requires AllTrits(trits) && Packs(bytes, trits)
    ensures CodesOk(bytes, |trits|) && Unpacked(bytes, |trits|) == trits
  {
    var u := Unpacked(bytes, |trits|);
    forall j | 0 <= j < |trits| ensures u[j] == trits[j] {
      assert CodeAt(bytes, j) == TritCode(trits[j]) && IsTrit(trits[j]);
    }
  }

  /** Packing undoes unpacking exactly when no code is bad and the spare bits are clear. */
  lemma PackUnpack(bytes: seq<bv8>, n: nat)
    requires n <= 4 * |bytes|
    ensures Packs(bytes, Unpacked(bytes, n)) <==> CodesOk(bytes, n) && SpareClear(bytes, n)
  {
    var u := Unpacked(bytes, n);
    forall j | 0 <= j < n ensures CodeAt(bytes, j) == TritCode(u[j]) <==> CodeAt(bytes, j) != BAD_CODE {
      SlotRange(bytes[j / 4], j % 4);
    }
  }

  /** A trit sequence has one packed form of a given length. */
  lemma PackedUnique(a: seq<bv8>, b: seq<bv8>, trits: seq<int>)
    requires |a| == |b| && Packs(a, trits) && Packs(b, trits)
    ensures a == b
  {
    forall k | 0 <= k < |a| ensures a[k] == b[k] {
      forall s | 0 <= s < 4 ensures Slot(a[k], s) == Slot(b[k], s) {
        var j := 4 * k + s;
        assert CodeAt(a, j) == CodeAt(b, j);
      }
      SlotsDecide(a[k], b[k]);
    }
  }

  /** How many of n trits the loop of pack looks at: one more than fit, if they do not. */
  function Reach(n: nat, bytes: nat): (r: nat)
    ensures r <= n
  {
    if n <= 4 * bytes then n else 4 * bytes + 1
  }

  /** On an invalid trit, or when the bytes run out, the bytes before have been written. */
  method Pack(trits: seq<int>, out: array<bv8>) returns (err: Err)
    modifies out
    ensures err == if !AllTrits(trits[..Reach(|trits|, out.Length)]) then InvalidArg
                   else if |trits| > 4 * out.Length then InvalidSize else Ok
    ensures err == Ok ==> Packs(out[..], trits)
  {
    forall k | 0 <= k < out.Length {
      out[k] := 0;
    }
    ZeroSlots(0);
    ZeroSlots(1);
    ZeroSlots(2);
    ZeroSlots(3);
    for i := 0 to |trits|
      invariant i <= 4 * out.Length
      invariant forall j :: 0 <= j < i ==> IsTrit(trits[j])
      invariant forall j :: 0 <= j < i ==> Slot(out[j / 4], j % 4) == TritCode(trits[j])
      invariant forall j :: i <= j < 4 * out.Length ==> Slot(out[j / 4], j % 4) == 0
    {
      var code := TritCode(trits[i]);
      if code == BAD_CODE {
        assert trits[..Reach(|trits|, out.Length)][i] == trits[i];
        return InvalidArg;
      }
      var index, shift := i / 4, i % 4;
      if index >= out.Length {
        return InvalidSize;
      }
      ghost var was := out[index];
      forall s | 0 <= s < 4 ensures Slot(OrInto(was, shift, code), s) == if s == shift then code else Slot(was, s) {
        OrIntoSlot(was, shift, code, s);
      }
      out[index] := OrInto(out[index], shift, code);
    }
    return Ok;
  }

  /** On a bad code the trits before it have been written. */
  method Unpack(bytes: seq<bv8>, out: array<int>) returns (err: Err)
    modifies out
    ensures err == if !CodesOk(bytes, if out.Length <= 4 * |bytes| then out.Length else 4 * |bytes|) then InvalidResponse
                   else if out.Length > 4 * |bytes| then InvalidSize else Ok
    ensures err == Ok ==> out[..] == Unpacked(bytes, out.Length)
  {
    for i := 0 to out.Length
      invariant i <= 4 * |bytes| && CodesOk(bytes, i)
      invariant forall j :: 0 <= j < i ==> out[j] == CodeTrit(CodeAt(bytes, j))
    {
      if i / 4 >= |bytes| {
        return InvalidSize;
      }
      var code := Slot(bytes[i / 4], i % 4);
      assert code == CodeAt(bytes, i);
      if code == BAD_CODE {
        return InvalidResponse;
      }
      out[i] := CodeTrit(code);
    }
    return Ok;
  }
}

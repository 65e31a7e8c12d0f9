/** vm/ternary.c: arithmetic on word18 arrays, proved to be exact integer arithmetic.

    A destination may be the same array as an operand, as in the interpreter. */
module TernaryOps {
  import opened Arith
  import opened Errors
  import opened Ternary

  const INT32_MIN: int := -0x8000_0000
  const INT32_MAX: int := 0x7FFF_FFFF

  /** Division and remainder of C, which truncate toward zero. */
  function QuotByThree(x: int): int { if x >= 0 then x / 3 else -((-x) / 3) }

  function RemByThree(x: int): int { x - 3 * QuotByThree(x) }

  /** Value of the first i digits of an array. */
  ghost function ValueTo(a: array<int>, i: nat): int
    requires i <= a.Length
    reads a
  {
    Value(a[..i])
  }

  lemma StepValue(s: seq<int>, i: nat)
    requires i < |s|
    ensures Value(s[..i + 1]) == Value(s[..i]) + s[i] * Pow3(i)
  {
    assert s[..i + 1] == s[..i] + [s[i]];
    ValueAppend(s[..i], s[i]);
  }

  /** A digit sum of place i is its trit there and a carry into place i + 1. */
  lemma CarryUp(sum: int, trit: int, carry: int, i: nat)
    requires sum == trit + 3 * carry
    ensures sum * Pow3(i) == trit * Pow3(i) + carry * Pow3(i + 1)
  {
    var p := Pow3(i);
    assert Pow3(i + 1) == 3 * p;
    assert carry * (3 * p) == 3 * carry * p;
    assert (trit + 3 * carry) * p == trit * p + 3 * carry * p;
  }

  lemma AddStep(l: seq<int>, r: seq<int>, i: nat, prefix: seq<int>, c: int, t: int, carry: int)
    requires i < |l| && i < |r| && |prefix| == i
    requires Value(l[..i]) + Value(r[..i]) == Value(prefix) + c * Pow3(i)
    requires l[i] + r[i] + c == t + 3 * carry
    ensures Value(l[..i + 1]) + Value(r[..i + 1]) == Value(prefix + [t]) + carry * Pow3(i + 1)
  {
    var p := Pow3(i);
    CarryUp(l[i] + r[i] + c, t, carry, i);
    assert (l[i] + r[i] + c) * p == l[i] * p + r[i] * p + c * p;
    StepValue(l, i);
    StepValue(r, i);
    ValueAppend(prefix, t);
  }

  method Validate(a: array<int>) returns (ok: bool)
    ensures ok <==> AllTrits(a[..])
  {
    for i := 0 to a.Length
      invariant forall k :: 0 <= k < i ==> IsTrit(a[k])
    {
      if !IsTrit(a[i]) {
        assert !IsTrit(a[..][i]);
        return false;
      }
    }
    return true;
  }

  method CopyWord(src: array<int>, dst: array<int>)
    requires src.Length == WORD == dst.Length
    modifies dst
    ensures dst[..] == old(src[..])
  {
    forall i | 0 <= i < WORD {
      dst[i] := src[i];
    }
  }

  method FromInt32(value: int, out: array<int>) returns (err: Err)
    requires INT32_MIN <= value <= INT32_MAX && out.Length == WORD
    modifies out
    ensures err == if Fits(value) then Ok else InvalidSize
    ensures err == Ok ==> out[..] == Encode(value) && Value(out[..]) == value
    ensures err != Ok ==> out[..] == old(out[..])
  {
    var remaining := value;
    var scratch := new int[WORD](_ => 0);
    var i := 0;
    while i < WORD
      invariant 0 <= i <= WORD && INT32_MIN <= remaining <= INT32_MAX
      invariant value == ValueTo(scratch, i) + remaining * Pow3(i)
      invariant forall k :: 0 <= k < i ==> IsTrit(scratch[k])
      invariant out[..] == old(out[..])
    {
      ghost var was, prefix := remaining, scratch[..i];
      var remainder := RemByThree(remaining);
      remaining := QuotByThree(remaining);
      if remainder == 2 {
        remainder := -1;
        remaining := remaining + 1;
      } else if remainder == -2 {
        remainder := 1;
        remaining := remaining - 1;
      }
      scratch[i] := remainder;
      CarryUp(was, remainder, remaining, i);
      StepValue(scratch[..], i);
      assert scratch[..][..i] == prefix && scratch[..][..i + 1] == scratch[..i + 1];
      i := i + 1;
    }
    assert scratch[..WORD] == scratch[..];
    RemainderDecides(value, scratch[..], remaining);
    if remaining != 0 {
      return InvalidSize;
    }
    CopyWord(scratch, out);
    return Ok;
  }

  /** Nothing is left over after eighteen trits exactly when the value is in range, and the trits then represent it. */
  lemma RemainderDecides(value: int, w: seq<int>, remaining: int)
    requires IsWord(w) && value == Value(w) + remaining * Pow3(WORD)
    ensures remaining == 0 <==> Fits(value)
    ensures remaining == 0 ==> w == Encode(value) && Value(w) == value
  {
    WordFits(w);
    Pow3Of18();
    if remaining >= 1 {
      MulAtLeast(Pow3(18), remaining);
    } else if remaining <= -1 {
      MulAtMost(Pow3(18), remaining);
    } else {
      ValueInverse(w);
    }
  }

  method ToInt32(value: array<int>) returns (err: Err, out: int)
    requires value.Length == WORD
    ensures err == if IsWord(value[..]) then Ok else InvalidArg
    ensures err == Ok ==> out == Value(value[..]) && INT32_MIN <= out <= INT32_MAX
  {
    out := 0;
    var valid := Validate(value);
    if !valid {
      return InvalidArg, 0;
    }
    var result, place := 0, 1;
    Pow3Of18();
    var i := 0;
    while i < WORD
      invariant 0 <= i <= WORD
      invariant result == ValueTo(value, i) && place == Pow3(i)
      invariant INT32_MIN <= result <= INT32_MAX && 0 < place <= INT32_MAX
    {
      StepValue(value[..], i);
      assert value[..][..i + 1] == value[..i + 1] && value[..][..i] == value[..i];
      PartBounded(value[..], i + 1);
      assert IsTrit(value[..][i]);
      result := result + value[i] * place;
      place := place * 3;
      i := i + 1;
    }
    assert value[..WORD] == value[..];
    return Ok, result;
  }

  /** No intermediate value or place weight leaves the int32 range. */
  lemma PartBounded(w: seq<int>, i: nat)
    requires IsWord(w) && i <= WORD
    ensures INT32_MIN <= Value(w[..i]) <= INT32_MAX && Pow3(i) <= INT32_MAX
  {
    ValueBound(w[..i]);
    Pow3Grows(i, WORD);
    Pow3Of18();
  }

  lemma {:induction false} Pow3Grows(j: nat, k: nat)
    requires j <= k
    ensures Pow3(j) <= Pow3(k)
    decreases k
  {
    if j < k {
      Pow3Grows(j, k - 1);
    }
  }

  method NormalizeSum(sum: int) returns (trit: int, carry: int)
    requires -3 <= sum <= 3
    ensures IsTrit(trit) && IsTrit(carry) && sum == trit + 3 * carry
  {
    if sum > 1 {
      return sum - 3, 1;
    }
    if sum < -1 {
      return sum + 3, -1;
    }
    return sum, 0;
  }

  /** The carry loop: eighteen trits of the sum and what is left over. */
  method AddTrits(lhs: array<int>, rhs: array<int>) returns (result: array<int>, carry: int)
    requires lhs.Length == rhs.Length == WORD && IsWord(lhs[..]) && IsWord(rhs[..])
    ensures fresh(result) && result.Length == WORD && IsWord(result[..])
    ensures Value(lhs[..]) + Value(rhs[..]) == Value(result[..]) + carry * Pow3(WORD)
  {
    ghost var l, r := lhs[..], rhs[..];
    carry := 0;
    result := new int[WORD](_ => 0);
    var i := 0;
    while i < WORD
      invariant 0 <= i <= WORD && IsTrit(carry)
      invariant lhs[..] == l && rhs[..] == r
      invariant Value(l[..i]) + Value(r[..i]) == ValueTo(result, i) + carry * Pow3(i)
      invariant forall k :: 0 <= k < i ==> IsTrit(result[k])
    {
      ghost var c, prefix := carry, result[..i];
      assert lhs[i] == l[i] && rhs[i] == r[i] && IsTrit(l[i]) && IsTrit(r[i]);
      var sum := lhs[i] + rhs[i] + carry;
      var t;
      t, carry := NormalizeSum(sum);
      result[i] := t;
      AddStep(l, r, i, prefix, c, t, carry);
      assert result[..i + 1] == prefix + [t];
      i := i + 1;
    }
    assert result[..WORD] == result[..] && l[..WORD] == l && r[..WORD] == r;
  }

  method Add(lhs: array<int>, rhs: array<int>, out: array<int>) returns (err: Err)
    requires lhs.Length == rhs.Length == out.Length == WORD
    modifies out
    ensures err == if !IsWord(old(lhs[..])) || !IsWord(old(rhs[..])) then InvalidArg
                   else if Fits(Value(old(lhs[..])) + Value(old(rhs[..]))) then Ok else InvalidState
    ensures err == Ok ==> out[..] == Encode(Value(old(lhs[..])) + Value(old(rhs[..])))
    ensures err == Ok ==> Value(out[..]) == Value(old(lhs[..])) + Value(old(rhs[..]))
    ensures err != Ok ==> out[..] == old(out[..])
  {
    var okL := Validate(lhs);
    if !okL {
      return InvalidArg;
    }
    var okR := Validate(rhs);
    if !okR {
      return InvalidArg;
    }
    var result, carry := AddTrits(lhs, rhs);
    ghost var sum, w := Value(lhs[..]) + Value(rhs[..]), result[..];
    RemainderDecides(sum, w, carry);
    if carry != 0 {
      return InvalidState;
    }
    CopyWord(result, out);
    assert out[..] == w;
    return Ok;
  }

  ghost function Negated(s: seq<int>): (r: seq<int>)
    ensures |r| == |s| && forall i :: 0 <= i < |s| ==> r[i] == -s[i]
  {
    seq(|s|, i requires 0 <= i < |s| => -s[i])
  }

  lemma {:induction false} NegatedValue(s: seq<int>)
    ensures Value(Negated(s)) == -Value(s)
    ensures AllTrits(s) ==> AllTrits(Negated(s))
  {
    if s != [] {
      var n := |s| - 1;
      NegatedValue(s[..n]);
      assert Negated(s)[..n] == Negated(s[..n]);
      assert (-s[n]) * Pow3(n) == -(s[n] * Pow3(n));
    }
  }

  method Subtract(lhs: array<int>, rhs: array<int>, out: array<int>) returns (err: Err)
    requires lhs.Length == rhs.Length == out.Length == WORD
    modifies out
    ensures err == if !IsWord(old(lhs[..])) || !IsWord(old(rhs[..])) then InvalidArg
                   else if Fits(Value(old(lhs[..])) - Value(old(rhs[..]))) then Ok else InvalidState
    ensures err == Ok ==> out[..] == Encode(Value(old(lhs[..])) - Value(old(rhs[..])))
    ensures err == Ok ==> Value(out[..]) == Value(old(lhs[..])) - Value(old(rhs[..]))
    ensures err != Ok ==> out[..] == old(out[..])
  {
    var okL := Validate(lhs);
    if !okL {
      return InvalidArg;
    }
    var okR := Validate(rhs);
    if !okR {
      return InvalidArg;
    }
    var negated := new int[WORD](i requires 0 <= i < WORD reads rhs => -rhs[i]);
    assert negated[..] == Negated(rhs[..]);
    NegatedValue(rhs[..]);
    err := Add(lhs, negated, out);
  }

  method Compare(lhs: array<int>, rhs: array<int>) returns (err: Err, out: int)
    requires lhs.Length == rhs.Length == WORD
    ensures err == if IsWord(lhs[..]) && IsWord(rhs[..]) then Ok else InvalidArg
    ensures err == Ok ==> out == Sign(Value(lhs[..]) - Value(rhs[..]))
  {
    var okL := Validate(lhs);
    if !okL {
      return InvalidArg, 0;
    }
    var okR := Validate(rhs);
    if !okR {
      return InvalidArg, 0;
    }
    var i := WORD - 1;
    while i >= 0
      invariant -1 <= i < WORD
      invariant forall k :: i < k < WORD ==> lhs[k] == rhs[k]
    {
      if lhs[i] < rhs[i] {
        HighestTritDecides(lhs[..], rhs[..], i);
        return Ok, -1;
      }
      if lhs[i] > rhs[i] {
        HighestTritDecides(rhs[..], lhs[..], i);
        return Ok, 1;
      }
      i := i - 1;
    }
    assert lhs[..] == rhs[..];
    return Ok, 0;
  }

  method Select(selector: int, negative: array<int>, zero: array<int>, positive: array<int>, out: array<int>)
    returns (err: Err)
    requires negative.Length == zero.Length == positive.Length == out.Length == WORD
    modifies out
    ensures err == if IsTrit(selector) && IsWord(old(negative[..])) && IsWord(old(zero[..])) && IsWord(old(positive[..]))
                   then Ok else InvalidArg
    ensures err == Ok ==> out[..] == old(if selector == -1 then negative[..] else if selector == 0 then zero[..] else positive[..])
    ensures err != Ok ==> out[..] == old(out[..])
  {
    if !IsTrit(selector) {
      return InvalidArg;
    }
    var okN := Validate(negative);
    var okZ := Validate(zero);
    var okP := Validate(positive);
    if !okN || !okZ || !okP {
      return InvalidArg;
    }
    CopyWord(if selector == -1 then negative else if selector == 0 then zero else positive, out);
    return Ok;
  }
}

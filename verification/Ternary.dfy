/** Balanced-ternary numbers as digit sequences, least significant trit first. */
module Ternary {
  import opened Arith

  /** Trits of a word18. */
  const WORD: nat := 18

  /** (3^18 - 1) / 2, the largest value of a word18. */
  const MAX_WORD: int := 193_710_244

  predicate IsTrit(t: int) { -1 <= t <= 1 }

  predicate AllTrits(s: seq<int>)
  {
    forall i :: 0 <= i < |s| ==> IsTrit(s[i])
  }

  predicate IsWord(s: seq<int>)
  {
    |s| == WORD && AllTrits(s)
  }

  /** A word18 as memory holds it; reading it as a number asks for valid trits. */
  type Word = s: seq<int> | |s| == 18 witness [0, 0, 0, 0, 0, 0, 0, 0, 0, 0, 0, 0, 0, 0, 0, 0, 0, 0]

  const ZERO: Word := [0, 0, 0, 0, 0, 0, 0, 0, 0, 0, 0, 0, 0, 0, 0, 0, 0, 0]

  predicate Fits(v: int) { -MAX_WORD <= v <= MAX_WORD }

  function Pow3(k: nat): (p: int)
    ensures p > 0
  {
    if k == 0 then 1 else 3 * Pow3(k - 1)
  }

  /** Half of what is left of an odd power. */
  function HalfPow3(k: nat): (h: int)
    ensures Pow3(k) == 2 * h + 1
  {
    if k == 0 then 0 else 3 * HalfPow3(k - 1) + 1
  }

  /** The number a digit sequence stands for; the digits may be any integers. */
  function Value(s: seq<int>): int
  {
    if s == [] then 0
    else
      var n := |s| - 1;
      Value(s[..n]) + s[n] * Pow3(n)
  }

  lemma ValueAppend(s: seq<int>, t: int)
    ensures Value(s + [t]) == Value(s) + t * Pow3(|s|)
  {
    assert (s + [t])[..|s|] == s;
  }

  lemma {:induction false} ValueCons(t: int, s: seq<int>)
    ensures Value([t] + s) == t + 3 * Value(s)
  {
    if s == [] {
      assert ([t] + s)[..0] == [];
    } else {
      var n := |s| - 1;
      ValueCons(t, s[..n]);
      assert ([t] + s)[..n + 1] == [t] + s[..n];
      assert s[n] * Pow3(n + 1) == 3 * (s[n] * Pow3(n));
    }
  }

  lemma {:induction false} ValueBound(s: seq<int>)
    requires AllTrits(s)
    ensures -Pow3(|s|) < 2 * Value(s) < Pow3(|s|)
  {
    if s != [] {
      var n := |s| - 1;
      ValueBound(s[..n]);
      assert IsTrit(s[n]);
      assert s[n] * Pow3(n) == if s[n] == 1 then Pow3(n) else if s[n] == 0 then 0 else -Pow3(n);
    }
  }

  lemma {:induction false} ZerosValue(s: seq<int>)
    requires forall i :: 0 <= i < |s| ==> s[i] == 0
    ensures Value(s) == 0
  {
    if s != [] {
      ZerosValue(s[..|s| - 1]);
    }
  }

  lemma Pow3Of18()
    ensures Pow3(18) == 2 * MAX_WORD + 1 == 387_420_489
  {
    assert Pow3(9) == 19683;
    assert Pow3(18) == 3 * 3 * 3 * 3 * 3 * 3 * 3 * 3 * 3 * Pow3(9) by {
      assert Pow3(12) == 27 * Pow3(9);
      assert Pow3(15) == 27 * Pow3(12);
      assert Pow3(18) == 27 * Pow3(15);
    }
  }

  lemma WordFits(s: seq<int>)
    requires IsWord(s)
    ensures Fits(Value(s))
  {
    ValueBound(s);
    Pow3Of18();
  }

  /** Order of trit sequences of one length, decided by the highest trit where they differ. */
  lemma {:induction false} HighestTritDecides(a: seq<int>, b: seq<int>, k: nat)
    requires AllTrits(a) && AllTrits(b) && |a| == |b| && k < |a|
    requires a[k] < b[k] && forall i :: k < i < |a| ==> a[i] == b[i]
    ensures Value(a) < Value(b)
  {
    var n := |a| - 1;
    if k == n {
      ValueBound(a[..n]);
      ValueBound(b[..n]);
      MulAtLeast(Pow3(n), b[n] - a[n]);
      assert Pow3(n) * (b[n] - a[n]) == b[n] * Pow3(n) - a[n] * Pow3(n);
    } else {
      HighestTritDecides(a[..n], b[..n], k);
    }
  }

  lemma {:induction false} HighestDifference(a: seq<int>, b: seq<int>) returns (k: nat)
    requires |a| == |b| && a != b
    ensures k < |a| && a[k] != b[k] && forall i :: k < i < |a| ==> a[i] == b[i]
  {
    var n := |a| - 1;
    if a[n] != b[n] {
      k := n;
    } else {
      assert a == a[..n] + [a[n]] && b == b[..n] + [b[n]];
      k := HighestDifference(a[..n], b[..n]);
    }
  }

  /** A value has one representation. */
  lemma ValueUnique(a: seq<int>, b: seq<int>)
    requires AllTrits(a) && AllTrits(b) && |a| == |b| && Value(a) == Value(b)
    ensures a == b
  {
    if a != b {
      var k := HighestDifference(a, b);
      if a[k] < b[k] {
        HighestTritDecides(a, b, k);
      } else {
        HighestTritDecides(b, a, k);
      }
    }
  }

  // ---- The representation of a value ----

  function LowTrit(v: int): (t: int)
    ensures IsTrit(t) && (v - t) % 3 == 0
  {
    (v + 1) % 3 - 1
  }

  /** The n lowest trits of a value. */
  function Digits(v: int, n: nat): (s: seq<int>)
    ensures |s| == n && AllTrits(s)
    decreases n, v
  {
    if n == 0 then [] else [LowTrit(v)] + Digits((v - LowTrit(v)) / 3, n - 1)
  }

  lemma ThirdInRange(v: int, t: int, r: int, p: int, h: int)
    requires v == t + 3 * r && IsTrit(t) && p == 2 * h + 1 && -(3 * p) < 2 * v < 3 * p
    ensures -p < 2 * r < p
  {
    if r > h || r < -h {
      assert false;
    }
  }

  lemma {:induction false} DigitsValue(v: int, n: nat)
    requires -Pow3(n) < 2 * v < Pow3(n)
    ensures Value(Digits(v, n)) == v
    decreases n
  {
    if n > 0 {
      var t := LowTrit(v);
      var r := (v - t) / 3;
      ThirdInRange(v, t, r, Pow3(n - 1), HalfPow3(n - 1));
      DigitsValue(r, n - 1);
      ValueCons(t, Digits(r, n - 1));
    }
  }

  function Sign(d: int): int { if d < 0 then -1 else if d == 0 then 0 else 1 }

  /** The word18 of a value in range. */
  function Encode(v: int): (w: seq<int>)
    ensures IsWord(w)
  {
    Digits(v, WORD)
  }

  /** Encoding and valuing are inverse on exactly the values in range. */
  lemma EncodeInverse(v: int)
    ensures Value(Encode(v)) == v <==> Fits(v)
  {
    Pow3Of18();
    if Fits(v) {
      DigitsValue(v, WORD);
    } else {
      WordFits(Encode(v));
    }
  }

  lemma ValueInverse(w: seq<int>)
    requires IsWord(w)
    ensures Encode(Value(w)) == w
  {
    WordFits(w);
    EncodeInverse(Value(w));
    ValueUnique(Encode(Value(w)), w);
  }
}

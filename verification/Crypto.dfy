/** platform/reflex_crypto.c: streaming SHA-256 and HMAC, proved equal to their standards. */
module Crypto {
  import opened Sha256Spec

  const U64: nat := 0x1_0000_0000_0000_0000

  // ---- The macros ----

  function Choose(x: bv32, y: bv32, z: bv32): bv32 { (x & y) ^ (!x & z) }

  function Majority(x: bv32, y: bv32, z: bv32): bv32 { (x & y) ^ (x & z) ^ (y & z) }

  function Ep0(x: bv32): bv32
  {
    ((x >> 2) | (x << 30)) ^ ((x >> 13) | (x << 19)) ^ ((x >> 22) | (x << 10))
  }

  function Ep1(x: bv32): bv32
  {
    ((x >> 6) | (x << 26)) ^ ((x >> 11) | (x << 21)) ^ ((x >> 25) | (x << 7))
  }

  function Sig0(x: bv32): bv32
  {
    ((x >> 7) | (x << 25)) ^ ((x >> 18) | (x << 14)) ^ (x >> 3)
  }

  function Sig1(x: bv32): bv32
  {
    ((x >> 17) | (x << 15)) ^ ((x >> 19) | (x << 13)) ^ (x >> 10)
  }

  /** CH and MAJ do what their names say at every bit, as Ch and Maj of the standard do. */
  lemma ChooseIsCh(x: bv32, y: bv32, z: bv32)
    ensures Choose(x, y, z) == Ch(x, y, z)
  {
  }

  lemma MajorityIsMaj(x: bv32, y: bv32, z: bv32)
    ensures Majority(x, y, z) == Maj(x, y, z)
  {
  }

  lemma Ep0IsBigSigma0(x: bv32)
    ensures Ep0(x) == BigSigma0(x)
  {
  }

  lemma Ep1IsBigSigma1(x: bv32)
    ensures Ep1(x) == BigSigma1(x)
  {
  }

  lemma Sig0IsSigma0(x: bv32)
    ensures Sig0(x) == Sigma0(x)
  {
  }

  lemma Sig1IsSigma1(x: bv32)
    ensures Sig1(x) == Sigma1(x)
  {
  }

  // ---- One block ----

  method ScheduleWord(w2: bv32, w7: bv32, w15: bv32, w16: bv32) returns (w: bv32)
    ensures w == NextWord(w2, w7, w15, w16)
  {
    Sig1IsSigma1(w2);
    Sig0IsSigma0(w15);
    w := Plus(Plus(Plus(Sig1(w2), w7), Sig0(w15)), w16);
  }

  lemma NextIsSchedule(block: seq<bv8>, w: seq<bv32>, i: nat)
    requires |block| == 64 && |w| == 64 && 16 <= i < 64
    requires forall t :: 0 <= t < i ==> w[t] == Schedule(block, t)
    ensures NextWord(w[i - 2], w[i - 7], w[i - 15], w[i - 16]) == Schedule(block, i)
  {
  }

  /** The first loops of sha256_transform: the message schedule. */
  method Expand(buf: array<bv8>) returns (w: array<bv32>)
    requires buf.Length == 64
    ensures fresh(w) && w.Length == 64
    ensures forall t :: 0 <= t < 64 ==> w[t] == Schedule(buf[..], t)
  {
    w := new bv32[64](_ => 0);
    ghost var block := buf[..];
    for i := 0 to 16
      invariant buf[..] == block
      invariant forall t :: 0 <= t < i ==> w[t] == Schedule(block, t)
    {
      w[i] := BigEndian(buf[i * 4], buf[i * 4 + 1], buf[i * 4 + 2], buf[i * 4 + 3]);
    }
    for i := 16 to 64
      invariant buf[..] == block
      invariant forall t :: 0 <= t < i ==> w[t] == Schedule(block, t)
    {
      NextIsSchedule(block, w[..], i);
      var next := ScheduleWord(w[i - 2], w[i - 7], w[i - 15], w[i - 16]);
      w[i] := next;
    }
  }

  method RoundSums(v: Vars, k: bv32, w: bv32) returns (t1: bv32, t2: bv32)
    ensures t1 == T1(v, k, w) && t2 == T2(v)
  {
    Ep1IsBigSigma1(v.e);
    Ep0IsBigSigma0(v.a);
    ChooseIsCh(v.e, v.f, v.g);
    MajorityIsMaj(v.a, v.b, v.c);
    t1 := Plus(Plus(Plus(Plus(v.h, Ep1(v.e)), Choose(v.e, v.f, v.g)), k), w);
    t2 := Plus(Ep0(v.a), Majority(v.a, v.b, v.c));
  }

  lemma RoundsStep(before: seq<bv8>, block: seq<bv8>, i: nat, v: Vars, next: Vars)
    requires |before| % 64 == 0 && |block| == 64 && i < 64 && v == Rounds(before, block, i)
    requires next == Round(v, K(i), Schedule(block, i))
    ensures next == Rounds(before, block, i + 1)
  {
  }

  lemma Rolled(v: Vars, k: bv32, w: bv32, t1: bv32, t2: bv32)
    requires t1 == T1(v, k, w) && t2 == T2(v)
    ensures Vars(Plus(t1, t2), v.a, v.b, v.c, Plus(v.d, t1), v.e, v.f, v.g) == Round(v, k, w)
  {
  }

  /** The rolling loop of sha256_transform. */
  method RunRounds(state: seq<bv32>, w: array<bv32>, ghost before: seq<bv8>, ghost block: seq<bv8>) returns (v: Vars)
    requires |before| % 64 == 0 && |block| == 64 && state == HashBlocks(before)
    requires w.Length == 64 && forall t :: 0 <= t < 64 ==> w[t] == Schedule(block, t)
    ensures v == Rounds(before, block, 64)
  {
    var a, b, c, d, e, f, g, h := state[0], state[1], state[2], state[3], state[4], state[5], state[6], state[7];
    for i := 0 to 64
      invariant Vars(a, b, c, d, e, f, g, h) == Rounds(before, block, i)
    {
      ghost var was := Vars(a, b, c, d, e, f, g, h);
      var t1, t2 := RoundSums(Vars(a, b, c, d, e, f, g, h), K(i), w[i]);
      h := g;
      g := f;
      f := e;
      e := Plus(d, t1);
      d := c;
      c := b;
      b := a;
      a := Plus(t1, t2);
      Rolled(was, K(i), w[i], t1, t2);
      RoundsStep(before, block, i, was, Vars(a, b, c, d, e, f, g, h));
    }
    v := Vars(a, b, c, d, e, f, g, h);
  }

  lemma SumsAre(h: seq<bv32>, v: Vars, r: seq<bv32>)
    requires |h| == 8
    requires r == [Plus(h[0], v.a), Plus(h[1], v.b), Plus(h[2], v.c), Plus(h[3], v.d),
                   Plus(h[4], v.e), Plus(h[5], v.f), Plus(h[6], v.g), Plus(h[7], v.h)]
    ensures r == AddVars(h, v)
  {
  }

  lemma NextIsBlocks(before: seq<bv8>, block: seq<bv8>, h: seq<bv32>)
    requires |before| % 64 == 0 && |block| == 64
    requires h == AddVars(HashBlocks(before), Rounds(before, block, 64))
    ensures h == HashBlocks(before + block)
  {
    var s := before + block;
    assert s[..|s| - 64] == before && s[|s| - 64..] == block;
  }

  // ---- Padding in one block or two ----

  function Zeros(n: nat): (s: seq<bv8>)
    ensures |s| == n
  {
    seq(n, _ => 0 as bv8)
  }

  /** The end marker and zeros behind a tail, up to where the length goes: in one block, or spilling into a second. */
  ghost predicate PaddedTail(whole: seq<bv8>, tail: seq<bv8>, next: seq<bv8>, last: seq<bv8>)
  {
    if |tail| <= 55 then next == whole && last == tail + [0x80] + Zeros(55 - |tail|)
    else |tail| < 64 && next == whole + (tail + [0x80] + Zeros(63 - |tail|)) && last == Zeros(56)
  }

  lemma ZerosNeeded(w: nat, n: nat)
    requires w % 64 == 0 && n < 64
    ensures ZerosFor(w + n) == if n <= 55 then 55 - n else 119 - n
  {
  }

  lemma ZerosSplit(k: nat, n: nat)
    ensures Zeros(k + n) == Zeros(k) + Zeros(n)
  {
  }

  /** The blocks a message was padded into are the padding of the standard. */
  lemma Padded(whole: seq<bv8>, tail: seq<bv8>, next: seq<bv8>, last: seq<bv8>, total: nat)
    requires |whole| % 64 == 0 && total == 8 * (|whole| + |tail|) < U64
    requires PaddedTail(whole, tail, next, last)
    ensures next + (last + LengthBytes(total)) == whole + tail + Padding(|whole| + |tail|)
  {
    var n := |tail|;
    ZerosNeeded(|whole|, n);
    if n > 55 {
      ZerosSplit(63 - n, 56);
      Regroup(whole, tail, [0x80], Zeros(63 - n), Zeros(56), LengthBytes(total));
    } else {
      Regroup(whole, tail, [0x80], [], Zeros(55 - n), LengthBytes(total));
      assert [] + Zeros(55 - n) == Zeros(55 - n);
    }
  }

  lemma Regroup(a: seq<bv8>, b: seq<bv8>, c: seq<bv8>, d: seq<bv8>, e: seq<bv8>, f: seq<bv8>)
    ensures (a + (b + c + d)) + (e + f) == a + b + (c + (d + e) + f)
    ensures a + ((b + c + e) + f) == a + b + (c + e + f)
  {
  }

  lemma DigestOfBlocks(m: seq<bv8>, s: seq<bv8>)
    requires 8 * |m| < U64 && s == m + Padding(|m|)
    ensures |s| % 64 == 0 && HashBytes(HashBlocks(s)) == Sha256(m)
  {
  }

  /** Byte j of a 64-bit number as the source shifts it out. */
  function Shifted(n: nat, j: nat): nat
    decreases j
  {
    if j == 0 then n else Shifted(n / 256, j - 1)
  }

  lemma {:induction false} BigEndianByte(n: nat, k: nat, j: nat)
    requires j < k
    ensures BigEndianBytes(n, k)[k - 1 - j] == (Shifted(n, j) % 256) as bv8
    decreases j
  {
    if j > 0 {
      BigEndianByte(n / 256, k - 1, j - 1);
    }
  }

  // ---- The streaming context ----

  /** A bit count modulo 2^64 after n more bytes. */
  function CountBits(bits: nat, n: nat): (r: nat)
    ensures r < U64
  {
    (bits + 8 * n) % 0x1_0000_0000_0000_0000
  }

  lemma CountsAdd(k: nat, n: nat)
    ensures CountBits(CountBits(0, k), n) == CountBits(0, k + n)
  {
  }

  lemma TotalBits(len: nat, n: nat, bits: nat)
    requires n <= len && bits == CountBits(0, len - n) && 8 * len < U64
    ensures CountBits(bits, n) == 8 * len
  {
  }

  /** A state that has absorbed whole blocks, their bits counted modulo 2^64. */
  ghost predicate Absorbed(whole: seq<bv8>, state: seq<bv32>, bits: nat)
  {
    |whole| % 64 == 0 && state == HashBlocks(whole) && bits == CountBits(0, |whole|)
  }

  lemma NothingAbsorbed()
    ensures Absorbed([], InitialHash(), 0)
  {
  }

  lemma BlockAbsorbed(whole: seq<bv8>, state: seq<bv32>, bits: nat, block: seq<bv8>, next: seq<bv32>)
    requires Absorbed(whole, state, bits) && |block| == 64 && next == HashBlocks(whole + block)
    ensures Absorbed(whole + block, next, CountBits(bits, 64))
  {
    CountsAdd(|whole|, 64);
    OneBlockMore(|whole|);
  }

  lemma OneBlockMore(n: nat)
    requires n % 64 == 0
    ensures (n + 64) % 64 == 0
  {
  }

  class Sha256Context {
    var state: seq<bv32>
    var bitlen: nat
    const buf: array<bv8>
    var buflen: nat

    /** The whole blocks fed so far; what came after them waits in the buffer. */
    ghost var whole: seq<bv8>

    /** The bytes fed so far. */
    ghost function Fed(): seq<bv8>
      requires buflen <= buf.Length
      reads this, buf
    {
      whole + buf[..buflen]
    }

    /** The whole blocks are hashed into the state, and their bits counted modulo 2^64. */
    ghost predicate Valid()
      reads this, buf
    {
      buf.Length == 64 && buflen < 64 && Absorbed(whole, state, bitlen)
    }

    constructor ()
      ensures Valid() && Fed() == [] && fresh(buf)
    {
      state := InitialHash();
      bitlen, buflen := 0, 0;
      buf := new bv8[64](_ => 0);
      whole := [];
      new;
      NothingAbsorbed();
    }

    method Init()
      requires buf.Length == 64
      modifies this
      ensures Valid() && Fed() == []
    {
      state := InitialHash();
      bitlen, buflen := 0, 0;
      whole := [];
      NothingAbsorbed();
    }

    /** Absorb the buffer as the block that follows `before`. */
    method Transform(ghost before: seq<bv8>)
      requires buf.Length == 64 && |before| % 64 == 0 && state == HashBlocks(before)
      modifies `state
      ensures state == HashBlocks(before + buf[..])
    {
      var w := Expand(buf);
      var v := RunRounds(state, w, before, buf[..]);
      state := [Plus(state[0], v.a), Plus(state[1], v.b), Plus(state[2], v.c), Plus(state[3], v.d),
                Plus(state[4], v.e), Plus(state[5], v.f), Plus(state[6], v.g), Plus(state[7], v.h)];
      SumsAre(old(state), v, state);
      NextIsBlocks(before, buf[..], state);
    }

    /** The buffer has filled up. */
    method TakeBlock()
      requires buf.Length == 64 && Absorbed(whole, state, bitlen)
      modifies this
      ensures Valid() && buflen == 0 && whole == old(whole) + buf[..]
    {
      ghost var was, bits := state, bitlen;
      Transform(whole);
      BlockAbsorbed(whole, was, bits, buf[..], state);
      whole := whole + buf[..];
      bitlen := CountBits(bitlen, 64);
      buflen := 0;
    }

    method Feed(x: bv8)
      requires Valid()
      modifies this, buf
      ensures Valid() && Fed() == old(Fed()) + [x]
    {
      ghost var fed, tail := Fed(), buf[..buflen];
      buf[buflen] := x;
      buflen := buflen + 1;
      assert buf[..buflen] == tail + [x];
      if buflen == 64 {
        assert buf[..] == buf[..64];
        TakeBlock();
        assert buf[..0] == [];
      }
      assert Fed() == fed + [x];
    }

    /** However a message is split over calls, the context depends only on its bytes. */
    method Update(data: seq<bv8>)
      requires Valid()
      modifies this, buf
      ensures Valid() && Fed() == old(Fed()) + data
    {
      ghost var fed := Fed();
      for i := 0 to |data|
        invariant Valid() && Fed() == fed + data[..i]
      {
        Feed(data[i]);
        assert fed + data[..i] + [data[i]] == fed + data[..i + 1];
      }
      assert data[..|data|] == data;
    }

    /** Zero the buffer from `from` up to `to`. */
    method Clear(from: nat, to: nat)
      requires from <= to <= buf.Length
      modifies buf
      ensures forall k :: 0 <= k < buf.Length ==> buf[k] == if from <= k < to then 0 else old(buf[k])
    {
      for i := from to to
        invariant forall k :: 0 <= k < buf.Length ==> buf[k] == if from <= k < i then 0 else old(buf[k])
      {
        buf[i] := 0;
      }
    }

    /** The bit count, most significant byte first, into the last eight bytes. */
    method PutLength()
      requires buf.Length == 64 && bitlen < U64
      modifies buf
      ensures buf[..] == old(buf[..56]) + LengthBytes(bitlen)
    {
      var j := 8;
      while j > 0
        invariant 0 <= j <= 8
        invariant buf[..56] == old(buf[..56])
        invariant forall k :: 0 <= k < 8 - j ==> buf[56 + k] == LengthBytes(bitlen)[k]
      {
        j := j - 1;
        BigEndianByte(bitlen, 8, j);
        buf[56 + (7 - j)] := (Shifted(bitlen, j) % 256) as bv8;
      }
      assert buf[..] == buf[..56] + buf[56..];
    }

    /** The end marker, and a block of its own for it when the length no longer fits behind it. */
    method Mark(ghost before: seq<bv8>, ghost tail: seq<bv8>) returns (i: nat, ghost next: seq<bv8>)
      requires buf.Length == 64 && buflen < 64 && tail == buf[..buflen]
      requires |before| % 64 == 0 && state == HashBlocks(before)
      modifies `state, buf
      ensures i <= 56 && |next| % 64 == 0 && state == HashBlocks(next)
      ensures buflen <= 55 ==> next == before && buf[..i] == tail + [0x80]
      ensures buflen > 55 ==> next == before + (tail + [0x80] + Zeros(63 - buflen)) && i == 0
    {
      i := buflen;
      buf[i] := 0x80;
      i := i + 1;
      next := before;
      assert buf[..i] == tail + [0x80];
      if i > 56 {
        Clear(i, 64);
        assert buf[..] == tail + [0x80] + Zeros(63 - buflen);
        Transform(before);
        next := before + buf[..];
        i := 0;
      }
    }

    /** All of the padding but the length. */
    method PadTail(ghost before: seq<bv8>, ghost tail: seq<bv8>) returns (ghost next: seq<bv8>)
      requires buf.Length == 64 && buflen < 64 && tail == buf[..buflen]
      requires |before| % 64 == 0 && state == HashBlocks(before)
      modifies `state, buf
      ensures |next| % 64 == 0 && state == HashBlocks(next)
      ensures PaddedTail(before, tail, next, buf[..56])
    {
      var i;
      i, next := Mark(before, tail);
      ghost var head := buf[..i];
      Clear(i, 56);
      assert buf[..56] == head + Zeros(56 - i);
    }

    /** After this the context has to be initialised again. */
    method Final(out: array<bv8>)
      requires Valid() && out.Length == 32 && out != buf
      modifies this, buf, out
      ensures 8 * |old(Fed())| < U64 ==> out[..] == Sha256(old(Fed()))
    {
      ghost var fed, tail, bits := Fed(), buf[..buflen], bitlen;
      ghost var next := PadTail(whole, tail);
      ghost var last := buf[..56];
      bitlen := CountBits(bitlen, buflen);
      ghost var total := bitlen;
      PutLength();
      ghost var block := buf[..];
      Transform(next);
      PutDigest(state, out);
      if 8 * |fed| < U64 {
        Finished(whole, tail, next, last, bits, total, block);
        DigestOfBlocks(fed, next + block);
      }
    }
  }

  /** The blocks that were hashed are the message and its padding. */
  lemma Finished(whole: seq<bv8>, tail: seq<bv8>, next: seq<bv8>, last: seq<bv8>, bits: nat, total: nat, block: seq<bv8>)
    requires |whole| % 64 == 0 && PaddedTail(whole, tail, next, last)
    requires bits == CountBits(0, |whole|) && total == CountBits(bits, |tail|) && block == last + LengthBytes(total)
    requires 8 * |whole + tail| < U64
    ensures next + block == whole + tail + Padding(|whole + tail|)
  {
    TotalBits(|whole| + |tail|, |tail|, bits);
    Padded(whole, tail, next, last, total);
  }

  method PutWord(x: bv32, out: array<bv8>, at: nat)
    requires at + 4 <= out.Length
    modifies out
    ensures out[at..at + 4] == WordBytes(x) && out[..at] == old(out[..at])
  {
    out[at] := ((x >> 24) & 0xFF) as bv8;
    out[at + 1] := ((x >> 16) & 0xFF) as bv8;
    out[at + 2] := ((x >> 8) & 0xFF) as bv8;
    out[at + 3] := (x & 0xFF) as bv8;
  }

  /** The state, word by word and most significant byte first. */
  method PutDigest(h: seq<bv32>, out: array<bv8>)
    requires |h| == 8 && out.Length == 32
    modifies out
    ensures out[..] == HashBytes(h)
  {
    for j := 0 to 8
      invariant out[..4 * j] == HashBytes(h[..j])
    {
      PutWord(h[j], out, 4 * j);
      assert out[..4 * (j + 1)] == out[..4 * j] + out[4 * j..4 * j + 4];
      assert h[..j + 1][..j] == h[..j];
    }
    assert out[..] == out[..32] && h[..8] == h;
  }

  // ---- HMAC ----

  /** Section 2 of RFC 2104: a key longer than a block is hashed, then zeros fill the block. */
  function BlockKey(key: seq<bv8>): (k: seq<bv8>)
    requires 8 * |key| < U64
    ensures |k| == 64
  {
    var used := if |key| > 64 then Sha256(key) else key;
    used + Zeros(64 - |used|)
  }

  function XorPad(k: seq<bv8>, pad: bv8): (p: seq<bv8>)
    ensures |p| == |k|
  {
    seq(|k|, i requires 0 <= i < |k| => k[i] ^ pad)
  }

  /** Section 2 of RFC 2104, with SHA-256 for H. */
  function Hmac(key: seq<bv8>, text: seq<bv8>): (mac: seq<bv8>)
    requires 8 * |key| < U64 && 8 * (64 + |text|) < U64
    ensures |mac| == 32
  {
    var k := BlockKey(key);
    Sha256(XorPad(k, 0x5C) + Sha256(XorPad(k, 0x36) + text))
  }

  lemma XorSwaps(a: bv8, b: bv8)
    ensures a ^ b == b ^ a && 0 ^ a == a
  {
  }

  /** memset of the pad and the loop over the key. */
  method PadKey(pad: bv8, used: seq<bv8>) returns (p: array<bv8>)
    requires |used| <= 64
    ensures fresh(p) && p[..] == XorPad(used + Zeros(64 - |used|), pad)
  {
    p := new bv8[64](_ => pad);
    ghost var k := used + Zeros(64 - |used|);
    for i := 0 to |used|
      invariant forall j :: 0 <= j < 64 ==> p[j] == if j < i then k[j] ^ pad else pad
    {
      XorSwaps(pad, used[i]);
      p[i] := p[i] ^ used[i];
    }
    forall j | 0 <= j < 64 ensures p[j] == k[j] ^ pad {
      XorSwaps(pad, k[j]);
    }
  }

  /** The digest of two pieces fed one after the other. */
  method HashTwo(first: seq<bv8>, second: seq<bv8>, out: array<bv8>)
    requires out.Length == 32
    modifies out
    ensures 8 * |first + second| < U64 ==> out[..] == Sha256(first + second)
  {
    var ctx := new Sha256Context();
    ctx.Update(first);
    ctx.Update(second);
    assert [] + first + second == first + second;
    ctx.Final(out);
  }

  lemma HmacIs(key: seq<bv8>, text: seq<bv8>, used: seq<bv8>, ipad: seq<bv8>, inner: seq<bv8>, opad: seq<bv8>, mac: seq<bv8>)
    requires 8 * |key| < U64 && 8 * (64 + |text|) < U64
    requires used == if |key| > 64 then Sha256(key) else key
    requires ipad == XorPad(used + Zeros(64 - |used|), 0x36) && inner == Sha256(ipad + text)
    requires opad == XorPad(used + Zeros(64 - |used|), 0x5C) && mac == Sha256(opad + inner)
    ensures mac == Hmac(key, text)
  {
  }

  method HmacSha256(key: seq<bv8>, data: seq<bv8>, out: array<bv8>)
    requires |key| < 0x1_0000_0000 && |data| < 0x1_0000_0000 && out.Length == 32
    modifies out
    ensures out[..] == Hmac(key, data)
  {
    var used := key;
    if |key| > 64 {
      var keyHash := new bv8[32](_ => 0);
      HashTwo(key, [], keyHash);
      assert key + [] == key;
      used := keyHash[..];
    }
    var innerPad := PadKey(0x36, used);
    var inner := new bv8[32](_ => 0);
    HashTwo(innerPad[..], data, inner);
    ghost var ipad, digest := innerPad[..], inner[..];
    var outerPad := PadKey(0x5C, used);
    ghost var opad := outerPad[..];
    HashTwo(outerPad[..], inner[..], out);
    HmacIs(key, data, used, ipad, digest, opad, out[..]);
  }
}

/** SHA-256 as FIPS 180-4 defines it: constants, padding, schedule and rounds. */
module Sha256Spec {

  /** Section 4.2.2, in eight rows. */
  function K(t: nat): bv32
  {
    if t < 32 then
      if t < 16 then (if t < 8 then K0(t) else K1(t)) else if t < 24 then K2(t) else K3(t)
    else
      if t < 48 then (if t < 40 then K4(t) else K5(t)) else if t < 56 then K6(t) else K7(t)
  }

  function K0(t: nat): bv32
  {
    match t
    case 0 => 0x428a_2f98 case 1 => 0x7137_4491 case 2 => 0xb5c0_fbcf case 3 => 0xe9b5_dba5
    case 4 => 0x3956_c25b case 5 => 0x59f1_11f1 case 6 => 0x923f_82a4 case 7 => 0xab1c_5ed5 case _ => 0
  }

  function K1(t: nat): bv32
  {
    match t
    case 8 => 0xd807_aa98 case 9 => 0x1283_5b01 case 10 => 0x2431_85be case 11 => 0x550c_7dc3
    case 12 => 0x72be_5d74 case 13 => 0x80de_b1fe case 14 => 0x9bdc_06a7 case 15 => 0xc19b_f174 case _ => 0
  }

  function K2(t: nat): bv32
  {
    match t
    case 16 => 0xe49b_69c1 case 17 => 0xefbe_4786 case 18 => 0x0fc1_9dc6 case 19 => 0x240c_a1cc
    case 20 => 0x2de9_2c6f case 21 => 0x4a74_84aa case 22 => 0x5cb0_a9dc case 23 => 0x76f9_88da case _ => 0
  }

  function K3(t: nat): bv32
  {
    match t
    case 24 => 0x983e_5152 case 25 => 0xa831_c66d case 26 => 0xb003_27c8 case 27 => 0xbf59_7fc7
    case 28 => 0xc6e0_0bf3 case 29 => 0xd5a7_9147 case 30 => 0x06ca_6351 case 31 => 0x1429_2967 case _ => 0
  }

  function K4(t: nat): bv32
  {
    match t
    case 32 => 0x27b7_0a85 case 33 => 0x2e1b_2138 case 34 => 0x4d2c_6dfc case 35 => 0x5338_0d13
    case 36 => 0x650a_7354 case 37 => 0x766a_0abb case 38 => 0x81c2_c92e case 39 => 0x9272_2c85 case _ => 0
  }

  function K5(t: nat): bv32
  {
    match t
    case 40 => 0xa2bf_e8a1 case 41 => 0xa81a_664b case 42 => 0xc24b_8b70 case 43 => 0xc76c_51a3
    case 44 => 0xd192_e819 case 45 => 0xd699_0624 case 46 => 0xf40e_3585 case 47 => 0x106a_a070 case _ => 0
  }

  function K6(t: nat): bv32
  {
    match t
    case 48 => 0x19a4_c116 case 49 => 0x1e37_6c08 case 50 => 0x2748_774c case 51 => 0x34b0_bcb5
    case 52 => 0x391c_0cb3 case 53 => 0x4ed8_aa4a case 54 => 0x5b9c_ca4f case 55 => 0x682e_6ff3 case _ => 0
  }

  function K7(t: nat): bv32
  {
    match t
    case 56 => 0x748f_82ee case 57 => 0x78a5_636f case 58 => 0x84c8_7814 case 59 => 0x8cc7_0208
    case 60 => 0x90be_fffa case 61 => 0xa450_6ceb case 62 => 0xbef9_a3f7 case 63 => 0xc671_78f2 case _ => 0
  }

  function Constant(t: nat): nat { K(t) as nat }

  /** The first sixty-four primes. */
  function Prime(t: nat): nat
  {
    match t
    case 0 => 2 case 1 => 3 case 2 => 5 case 3 => 7 case 4 => 11 case 5 => 13 case 6 => 17 case 7 => 19
    case 8 => 23 case 9 => 29 case 10 => 31 case 11 => 37 case 12 => 41 case 13 => 43 case 14 => 47 case 15 => 53
    case 16 => 59 case 17 => 61 case 18 => 67 case 19 => 71 case 20 => 73 case 21 => 79 case 22 => 83 case 23 => 89
    case 24 => 97 case 25 => 101 case 26 => 103 case 27 => 107 case 28 => 109 case 29 => 113 case 30 => 127 case 31 => 131
    case 32 => 137 case 33 => 139 case 34 => 149 case 35 => 151 case 36 => 157 case 37 => 163 case 38 => 167 case 39 => 173
    case 40 => 179 case 41 => 181 case 42 => 191 case 43 => 193 case 44 => 197 case 45 => 199 case 46 => 211 case 47 => 223
    case 48 => 227 case 49 => 229 case 50 => 233 case 51 => 239 case 52 => 241 case 53 => 251 case 54 => 257 case 55 => 263
    case 56 => 269 case 57 => 271 case 58 => 277 case 59 => 281 case 60 => 283 case 61 => 293 case 62 => 307 case 63 => 311
    case _ => 0
  }

  /** The first 32 bits of the fractional part of the cube root of p. */
  ghost predicate CubeRootBits(p: nat, bits: nat)
  {
    exists n: nat :: CubeRootIs(p, n, bits)
  }

  predicate CubeRootIs(p: nat, n: nat, bits: nat)
  {
    var r := n * 0x1_0000_0000 + bits;
    bits < 0x1_0000_0000 && r * r * r <= p * 0x1_0000_0000_0000_0000_0000_0000 < (r + 1) * (r + 1) * (r + 1)
  }

  lemma Row(t: nat, p: nat, n: nat, bits: nat)
    requires t < 64 && Prime(t) == p && Constant(t) == bits && CubeRootIs(p, n, bits)
    ensures CubeRootBits(Prime(t), Constant(t))
  {
  }

  lemma Rows0(t: nat)
    requires 0 <= t < 8
    ensures CubeRootBits(Prime(t), Constant(t))
  {
    match t
    case 0 => Row(0, 2, 1, 0x428a_2f98); case 1 => Row(1, 3, 1, 0x7137_4491);
    case 2 => Row(2, 5, 1, 0xb5c0_fbcf); case 3 => Row(3, 7, 1, 0xe9b5_dba5);
    case 4 => Row(4, 11, 2, 0x3956_c25b); case 5 => Row(5, 13, 2, 0x59f1_11f1);
    case 6 => Row(6, 17, 2, 0x923f_82a4); case 7 => Row(7, 19, 2, 0xab1c_5ed5);
  }

  lemma Rows1(t: nat)
    requires 8 <= t < 16
    ensures CubeRootBits(Prime(t), Constant(t))
  {
    match t
    case 8 => Row(8, 23, 2, 0xd807_aa98); case 9 => Row(9, 29, 3, 0x1283_5b01);
    case 10 => Row(10, 31, 3, 0x2431_85be); case 11 => Row(11, 37, 3, 0x550c_7dc3);
    case 12 => Row(12, 41, 3, 0x72be_5d74); case 13 => Row(13, 43, 3, 0x80de_b1fe);
    case 14 => Row(14, 47, 3, 0x9bdc_06a7); case 15 => Row(15, 53, 3, 0xc19b_f174);
  }

  lemma Rows2(t: nat)
    requires 16 <= t < 24
    ensures CubeRootBits(Prime(t), Constant(t))
  {
    match t
    case 16 => Row(16, 59, 3, 0xe49b_69c1); case 17 => Row(17, 61, 3, 0xefbe_4786);
    case 18 => Row(18, 67, 4, 0x0fc1_9dc6); case 19 => Row(19, 71, 4, 0x240c_a1cc);
    case 20 => Row(20, 73, 4, 0x2de9_2c6f); case 21 => Row(21, 79, 4, 0x4a74_84aa);
    case 22 => Row(22, 83, 4, 0x5cb0_a9dc); case 23 => Row(23, 89, 4, 0x76f9_88da);
  }

  lemma Rows3(t: nat)
    requires 24 <= t < 32
    ensures CubeRootBits(Prime(t), Constant(t))
  {
    match t
    case 24 => Row(24, 97, 4, 0x983e_5152); case 25 => Row(25, 101, 4, 0xa831_c66d);
    case 26 => Row(26, 103, 4, 0xb003_27c8); case 27 => Row(27, 107, 4, 0xbf59_7fc7);
    case 28 => Row(28, 109, 4, 0xc6e0_0bf3); case 29 => Row(29, 113, 4, 0xd5a7_9147);
    case 30 => Row(30, 127, 5, 0x06ca_6351); case 31 => Row(31, 131, 5, 0x1429_2967);
  }

  lemma Rows4(t: nat)
    requires 32 <= t < 40
    ensures CubeRootBits(Prime(t), Constant(t))
  {
    match t
    case 32 => Row(32, 137, 5, 0x27b7_0a85); case 33 => Row(33, 139, 5, 0x2e1b_2138);
    case 34 => Row(34, 149, 5, 0x4d2c_6dfc); case 35 => Row(35, 151, 5, 0x5338_0d13);
    case 36 => Row(36, 157, 5, 0x650a_7354); case 37 => Row(37, 163, 5, 0x766a_0abb);
    case 38 => Row(38, 167, 5, 0x81c2_c92e); case 39 => Row(39, 173, 5, 0x9272_2c85);
  }

  lemma Rows5(t: nat)
    requires 40 <= t < 48
    ensures CubeRootBits(Prime(t), Constant(t))
  {
    match t
    case 40 => Row(40, 179, 5, 0xa2bf_e8a1); case 41 => Row(41, 181, 5, 0xa81a_664b);
    case 42 => Row(42, 191, 5, 0xc24b_8b70); case 43 => Row(43, 193, 5, 0xc76c_51a3);
    case 44 => Row(44, 197, 5, 0xd192_e819); case 45 => Row(45, 199, 5, 0xd699_0624);
    case 46 => Row(46, 211, 5, 0xf40e_3585); case 47 => Row(47, 223, 6, 0x106a_a070);
  }

  lemma Rows6(t: nat)
    requires 48 <= t < 56
    ensures CubeRootBits(Prime(t), Constant(t))
  {
    match t
    case 48 => Row(48, 227, 6, 0x19a4_c116); case 49 => Row(49, 229, 6, 0x1e37_6c08);
    case 50 => Row(50, 233, 6, 0x2748_774c); case 51 => Row(51, 239, 6, 0x34b0_bcb5);
    case 52 => Row(52, 241, 6, 0x391c_0cb3); case 53 => Row(53, 251, 6, 0x4ed8_aa4a);
    case 54 => Row(54, 257, 6, 0x5b9c_ca4f); case 55 => Row(55, 263, 6, 0x682e_6ff3);
  }

  lemma Rows7(t: nat)
    requires 56 <= t < 64
    ensures CubeRootBits(Prime(t), Constant(t))
  {
    match t
    case 56 => Row(56, 269, 6, 0x748f_82ee); case 57 => Row(57, 271, 6, 0x78a5_636f);
    case 58 => Row(58, 277, 6, 0x84c8_7814); case 59 => Row(59, 281, 6, 0x8cc7_0208);
    case 60 => Row(60, 283, 6, 0x90be_fffa); case 61 => Row(61, 293, 6, 0xa450_6ceb);
    case 62 => Row(62, 307, 6, 0xbef9_a3f7); case 63 => Row(63, 311, 6, 0xc671_78f2);
  }

  /** The constants are what section 4.2.2 says they are. */
  lemma ConstantsAreCubeRoots(t: nat)
    requires t < 64
    ensures CubeRootBits(Prime(t), Constant(t))
  {
    match t / 8
    case 0 => Rows0(t);
    case 1 => Rows1(t);
    case 2 => Rows2(t);
    case 3 => Rows3(t);
    case 4 => Rows4(t);
    case 5 => Rows5(t);
    case 6 => Rows6(t);
    case 7 => Rows7(t);
  }

  /** The first 32 bits of the fractional part of the square root of p. */
  ghost predicate SquareRootBits(p: nat, bits: nat)
  {
    exists n: nat :: SquareRootIs(p, n, bits)
  }

  predicate SquareRootIs(p: nat, n: nat, bits: nat)
  {
    var r := n * 0x1_0000_0000 + bits;
    bits < 0x1_0000_0000 && r * r <= p * 0x1_0000_0000_0000_0000 < (r + 1) * (r + 1)
  }

  /** Section 5.3.3. */
  function Initial(i: nat): (h: nat)
    ensures h < 0x1_0000_0000
  {
    match i
    case 0 => 0x6a09_e667 case 1 => 0xbb67_ae85 case 2 => 0x3c6e_f372 case 3 => 0xa54f_f53a
    case 4 => 0x510e_527f case 5 => 0x9b05_688c case 6 => 0x1f83_d9ab case 7 => 0x5be0_cd19
    case _ => 0
  }

  lemma InitialAreSquareRoots(i: nat)
    requires i < 8
    ensures SquareRootBits(Prime(i), Initial(i))
  {
    match i
    case 0 => assert SquareRootIs(2, 1, 0x6a09_e667);
    case 1 => assert SquareRootIs(3, 1, 0xbb67_ae85);
    case 2 => assert SquareRootIs(5, 2, 0x3c6e_f372);
    case 3 => assert SquareRootIs(7, 2, 0xa54f_f53a);
    case 4 => assert SquareRootIs(11, 3, 0x510e_527f);
    case 5 => assert SquareRootIs(13, 3, 0x9b05_688c);
    case 6 => assert SquareRootIs(17, 4, 0x1f83_d9ab);
    case 7 => assert SquareRootIs(19, 4, 0x5be0_cd19);
  }

  /** Addition modulo 2^32, section 2.2.2. */
  function Plus(x: bv32, y: bv32): bv32 { x + y }

  // ---- Section 4.1.2: functions ----

  function Ch(x: bv32, y: bv32, z: bv32): bv32 { (x & y) ^ (!x & z) }

  function Maj(x: bv32, y: bv32, z: bv32): bv32 { (x & y) ^ (x & z) ^ (y & z) }

  function BigSigma0(x: bv32): bv32 { x.RotateRight(2) ^ x.RotateRight(13) ^ x.RotateRight(22) }

  function BigSigma1(x: bv32): bv32 { x.RotateRight(6) ^ x.RotateRight(11) ^ x.RotateRight(25) }

  function Sigma0(x: bv32): bv32 { x.RotateRight(7) ^ x.RotateRight(18) ^ (x >> 3) }

  function Sigma1(x: bv32): bv32 { x.RotateRight(17) ^ x.RotateRight(19) ^ (x >> 10) }

  // ---- Section 5.1.1: padding ----

  /** The least number of zero bytes that bring the length, with one byte and eight more, to a multiple of 64. */
  function ZerosFor(n: nat): (z: nat)
    ensures z < 64 && (n + 1 + z + 8) % 64 == 0
  {
    (119 - n % 64) % 64
  }

  lemma ZerosAreLeast(n: nat, z: nat)
    requires (n + 1 + z + 8) % 64 == 0
    ensures ZerosFor(n) <= z
  {
  }

  /** A 64-bit number, most significant byte first. */
  function LengthBytes(bits: nat): (s: seq<bv8>)
    requires bits < 0x1_0000_0000_0000_0000
    ensures |s| == 8
  {
    BigEndianBytes(bits, 8)
  }

  function BigEndianBytes(n: nat, k: nat): (s: seq<bv8>)
    ensures |s| == k
    decreases k, n
  {
    if k == 0 then [] else BigEndianBytes(n / 256, k - 1) + [(n % 256) as bv8]
  }

  function Padding(n: nat): (s: seq<bv8>)
    requires 8 * n < 0x1_0000_0000_0000_0000
    ensures (n + |s|) % 64 == 0
  {
    [0x80 as bv8] + seq(ZerosFor(n), _ => 0 as bv8) + LengthBytes(8 * n)
  }

  // ---- Section 6.2: the hash computation ----

  datatype Vars = Vars(a: bv32, b: bv32, c: bv32, d: bv32, e: bv32, f: bv32, g: bv32, h: bv32)

  /** Section 5.3.3 as words. */
  function InitialHash(): (h: seq<bv32>)
    ensures |h| == 8
  {
    [0x6a09_e667, 0xbb67_ae85, 0x3c6e_f372, 0xa54f_f53a,
     0x510e_527f, 0x9b05_688c, 0x1f83_d9ab, 0x5be0_cd19]
  }

  lemma InitialHashIsInitial(i: nat)
    requires i < 8
    ensures InitialHash()[i] as nat == Initial(i)
  {
  }

  function WordAt(v: Vars, i: nat): bv32
  {
    match i
    case 0 => v.a case 1 => v.b case 2 => v.c case 3 => v.d
    case 4 => v.e case 5 => v.f case 6 => v.g case _ => v.h
  }

  /** Word i of a 64-byte block, most significant byte first. */
  function BlockWord(block: seq<bv8>, i: nat): bv32
    requires 4 * i + 3 < |block|
  {
    BigEndian(block[4 * i], block[4 * i + 1], block[4 * i + 2], block[4 * i + 3])
  }

  function BigEndian(a: bv8, b: bv8, c: bv8, d: bv8): bv32
  {
    ((a as bv32) << 24) | ((b as bv32) << 16) | ((c as bv32) << 8) | (d as bv32)
  }

  /** A later word of the schedule from the words 2, 7, 15 and 16 before it. */
  function NextWord(w2: bv32, w7: bv32, w15: bv32, w16: bv32): bv32
  {
    Plus(Plus(Plus(Sigma1(w2), w7), Sigma0(w15)), w16)
  }

  /** The message schedule, step 1 of section 6.2.2. */
  function Schedule(block: seq<bv8>, t: nat): bv32
    requires |block| == 64
    decreases t, block
  {
    if t < 16 then BlockWord(block, t)
    else NextWord(Schedule(block, t - 2), Schedule(block, t - 7), Schedule(block, t - 15), Schedule(block, t - 16))
  }

  function T1(v: Vars, k: bv32, w: bv32): bv32 
  {
    Plus(Plus(Plus(Plus(v.h, BigSigma1(v.e)), Ch(v.e, v.f, v.g)), k), w)
  }

  function T2(v: Vars): bv32 { Plus(BigSigma0(v.a), Maj(v.a, v.b, v.c)) }

  /** One turn of step 3 of section 6.2.2. */
  function Round(v: Vars, k: bv32, w: bv32): Vars
  {
    Vars(Plus(T1(v, k, w), T2(v)), v.a, v.b, v.c, Plus(v.d, T1(v, k, w)), v.e, v.f, v.g)
  }

  /** Step 4 of section 6.2.2. */
  function AddVars(h: seq<bv32>, v: Vars): (r: seq<bv32>)
    requires |h| == 8
    ensures |r| == 8
  {
    seq(8, i requires 0 <= i < 8 => Plus(h[i], WordAt(v, i)))
  }

  /** Step 2 of section 6.2.2. */
  function VarsOf(h: seq<bv32>): Vars
    requires |h| == 8
  {
    Vars(h[0], h[1], h[2], h[3], h[4], h[5], h[6], h[7])
  }

  /** The working variables after t rounds on the block that follows `before`; they start as the hash value so far. */
  function Rounds(before: seq<bv8>, block: seq<bv8>, t: nat): Vars
    requires |before| % 64 == 0 && |block| == 64 && t <= 64
    decreases |before| + |block|, t, block
  {
    if t == 0 then VarsOf(HashBlocks(before)) else Round(Rounds(before, block, t - 1), K(t - 1), Schedule(block, t - 1))
  }

  /** Steps 1 to 4 of section 6.2.2 for the block that follows `before`. */
  function HashNext(before: seq<bv8>, block: seq<bv8>): (h: seq<bv32>)
    requires |before| % 64 == 0 && |block| == 64
    ensures |h| == 8
    decreases |before| + |block|, 65, block
  {
    AddVars(HashBlocks(before), Rounds(before, block, 64))
  }

  /** The hash value after the whole blocks of a byte string. */
  function HashBlocks(s: seq<bv8>): (h: seq<bv32>)
    requires |s| % 64 == 0
    ensures |h| == 8
    decreases |s|, 66, s
  {
    if s == [] then InitialHash() else HashNext(s[..|s| - 64], s[|s| - 64..])
  }

  function WordBytes(x: bv32): (s: seq<bv8>)
    ensures |s| == 4
  {
    [((x >> 24) & 0xFF) as bv8, ((x >> 16) & 0xFF) as bv8, ((x >> 8) & 0xFF) as bv8, (x & 0xFF) as bv8]
  }

  /** Reading a word and writing it are inverse, and the first byte is the most significant. */
  lemma BytesOfWord(a: bv8, b: bv8, c: bv8, d: bv8)
    ensures WordBytes(BigEndian(a, b, c, d)) == [a, b, c, d]
    ensures BigEndian(a, b, c, d) & 0xFF == d as bv32 && BigEndian(a, b, c, d) >> 24 == a as bv32
    ensures (BigEndian(a, b, c, d) >> 8) & 0xFF == c as bv32 && (BigEndian(a, b, c, d) >> 16) & 0xFF == b as bv32
  {
  }

  /** Words one after the other, most significant byte first. */
  function HashBytes(h: seq<bv32>): (s: seq<bv8>)
    ensures |s| == 4 * |h|
  {
    if h == [] then [] else HashBytes(h[..|h| - 1]) + WordBytes(h[|h| - 1])
  }

  /** SHA-256 of a message shorter than 2^64 bits. */
  function Sha256(m: seq<bv8>): (digest: seq<bv8>)
    requires 8 * |m| < 0x1_0000_0000_0000_0000
    ensures |digest| == 32
  {
    HashBytes(HashBlocks(m + Padding(|m|)))
  }
}

/** The steps of the hashes on concrete words: exclusive ors by way of bit vectors,
    products, shifts and rotations by their quotients; and the bytes they are
    applied to. */
module DigestSteps {
  import opened Words
  import opened Literals
  import opened Xxh3Mix
  import Xxh3Short

  const SEED: u64 := 0x9E3779B185EBCA8D

  /** Some bytes. */
  function Sanity(): (s: seq<byte>)
    ensures |s| == 24
  {
    [0x00, 0x52, 0x92, 0x9b, 0xb7, 0x32, 0xa3, 0x24, 0x2d, 0x00, 0xaf, 0x95,
     0x0e, 0xec, 0xb8, 0x93, 0xe3, 0xdf, 0xef, 0x93, 0xaa, 0xd6, 0xcd, 0x2a]
  }

  /** The next eight. */
  function Next(): (s: seq<byte>)
    ensures |s| == 8
  {
    [0x53, 0x8b, 0x5c, 0x3f, 0x54, 0x5a, 0x6f, 0xd5]
  }

  /** And fifteen more. */
  function Tail(): (s: seq<byte>)
    ensures |s| == 15
  {
    [0x59, 0xc0, 0xff, 0xfc, 0x8f, 0x85, 0xb9, 0x33, 0x1d, 0xab, 0x74, 0xf7,
     0xb6, 0x05, 0x93]
  }

  // ------------------------------------------------------------------- reading

  lemma ReadBytes(s: seq<byte>, at: nat)
    requires at + 8 <= |s|
    ensures Read64(s, at) == Joined(s[at], s[at + 1], s[at + 2], s[at + 3], s[at + 4], s[at + 5], s[at + 6], s[at + 7])
  {
    hide ReadLE, Pow256;
    ReadUp(s, at, 8);
    ReadUp(s, at + 1, 7);
    ReadUp(s, at + 2, 6);
    ReadUp(s, at + 3, 5);
    ReadUp(s, at + 4, 4);
    ReadUp(s, at + 5, 3);
    ReadUp(s, at + 6, 2);
    ReadUp(s, at + 7, 1);
    ReadNone(s, at + 8);
  }

  function Quarter(b0: byte, b1: byte, b2: byte, b3: byte): u32 { b0 + 0x100 * (b1 + 0x100 * (b2 + 0x100 * b3)) }

  lemma ReadHalf(s: seq<byte>, at: nat)
    requires at + 4 <= |s|
    ensures Read32(s, at) == Quarter(s[at], s[at + 1], s[at + 2], s[at + 3])
  {
    hide ReadLE, Pow256;
    ReadUp(s, at, 4);
    ReadUp(s, at + 1, 3);
    ReadUp(s, at + 2, 2);
    ReadUp(s, at + 3, 1);
    ReadNone(s, at + 4);
  }

  lemma ReadUp(s: seq<byte>, at: nat, n: nat)
    requires n > 0 && at + n <= |s|
    ensures ReadLE(s[at..at + n]) == s[at] + 0x100 * ReadLE(s[at + 1..at + n])
  {
    assert s[at..at + n][1..] == s[at + 1..at + n];
  }

  lemma ReadNone(s: seq<byte>, at: nat)
    requires at <= |s|
    ensures ReadLE(s[at..at]) == 0
  {
  }

  lemma SecretPart0()
    ensures Read64(KSecret(), 0) == 0xBE4BA423396CFEB8
    ensures Read64(KSecret(), 8) == 0x1CAD21F72C81017C
    ensures Read64(KSecret(), 16) == 0xDB979083E96DD4DE
  {
    hide Read64, Joined;
    ReadBytes(KSecret(), 0);
    ReadBytes(KSecret(), 8);
    ReadBytes(KSecret(), 16);
    SecretStarts();
    KeyWords0();
  }

  lemma KeyWords0()
    ensures var k := KSecret0();
            && Joined(k[0], k[1], k[2], k[3], k[4], k[5], k[6], k[7]) == 0xBE4BA423396CFEB8
            && Joined(k[8], k[9], k[10], k[11], k[12], k[13], k[14], k[15]) == 0x1CAD21F72C81017C
            && Joined(k[16], k[17], k[18], k[19], k[20], k[21], k[22], k[23]) == 0xDB979083E96DD4DE
  {

  }

  lemma SecretPart1()
    ensures Read64(KSecret(), 24) == 0x1F67B3B7A4A44072
    ensures Read64(KSecret(), 32) == 0x78E5C0CC4EE679CB
    ensures Read64(KSecret(), 40) == 0x2172FFCC7DD05A82
  {
    hide Read64, Joined;
    ReadBytes(KSecret(), 24);
    ReadBytes(KSecret(), 32);
    ReadBytes(KSecret(), 40);
    SecretStarts();
    KeyWords1();
  }

  lemma KeyWords1()
    ensures var k := KSecret1();
            && Joined(k[0], k[1], k[2], k[3], k[4], k[5], k[6], k[7]) == 0x1F67B3B7A4A44072
            && Joined(k[8], k[9], k[10], k[11], k[12], k[13], k[14], k[15]) == 0x78E5C0CC4EE679CB
            && Joined(k[16], k[17], k[18], k[19], k[20], k[21], k[22], k[23]) == 0x2172FFCC7DD05A82
  {

  }

  lemma SecretPart2()
    ensures Read64(KSecret(), 48) == 0x8E2443F7744608B8
    ensures Read64(KSecret(), 56) == 0x4C263A81E69035E0
    ensures Read64(KSecret(), 64) == 0xCB00C391BB52283C
  {
    hide Read64, Joined;
    ReadBytes(KSecret(), 48);
    ReadBytes(KSecret(), 56);
    ReadBytes(KSecret(), 64);
    SecretStarts();
    KeyWords2();
  }

  lemma KeyWords2()
    ensures var k := KSecret2();
            && Joined(k[0], k[1], k[2], k[3], k[4], k[5], k[6], k[7]) == 0x8E2443F7744608B8
            && Joined(k[8], k[9], k[10], k[11], k[12], k[13], k[14], k[15]) == 0x4C263A81E69035E0
            && Joined(k[16], k[17], k[18], k[19], k[20], k[21], k[22], k[23]) == 0xCB00C391BB52283C
  {

  }

  lemma SecretStarts()
    ensures forall i :: 0 <= i < 24 ==> KSecret()[i] == KSecret0()[i]
    ensures forall i :: 24 <= i < 48 ==> KSecret()[i] == KSecret1()[i - 24]
    ensures forall i :: 48 <= i < 72 ==> KSecret()[i] == KSecret2()[i - 48]
  {
    hide KSecret0, KSecret1, KSecret2, KSecret3, KSecret4, KSecret5, KSecret6, KSecret7;

  }

  // ------------------------------------------------------------- single steps

  /** The exclusive or of two words, worked out on bit vectors. */
  lemma Xors(a: bv64, b: bv64, x: u64, y: u64, z: u64)
    requires N(a) == x && N(b) == y && N(a ^ b) == z
    ensures Xor(x, y) == z
  {
    hide N, Xor;
    XorIs(a, b);
  }

  /** A shift, by the quotient. */
  lemma ShiftIs(x: nat, k: nat, p: nat, q: nat)
    requires Pow2(k) == p && q * p <= x < q * p + p
    ensures Shr(x, k) == q
  {
    hide *;
    Xxh3Short.ShrParts(x, k);
    SameQuotient(x, Shr(x, k), q, p);
  }

  lemma SameQuotient(x: nat, a: nat, b: nat, p: nat)
    requires a * p <= x < a * p + p && b * p <= x < b * p + p
    ensures a == b
  {
    NotAbove(x, a, b, p);
    NotAbove(x, b, a, p);
  }

  lemma NotAbove(x: nat, a: nat, b: nat, p: nat)
    requires a * p <= x < b * p + p
    ensures a <= b
  {
    if a >= b + 1 {
      ProductGrows(b + 1, p, a, p);
    }
  }

  /** A product, by its quotient. */
  lemma ProductIs(x: u64, c: u64, q: nat, r: u64)
    requires x * c == q * 0x1_0000_0000_0000_0000 + r
    ensures Mul64(x, c) == r
  {
  }

  /** A rotation, by the part that goes round. */
  lemma RotationIs(x: u64, k: nat, p: nat, q: nat, hi: nat, lo: nat)
    requires k <= 64 && Pow2(k) == p && Pow2(64 - k) == q && x == hi * q + lo && lo < q && hi < p
    ensures Rotl64(x, k) == lo * p + hi
  {
    hide Pow2, Rotl64, Xxh3Short.Rot;
    Xxh3Short.RotlIsRot(x, k);
    Xxh3Short.RotSplit(x, hi, lo, k);
  }

  lemma Powers0()
    ensures Pow2(0) == 0x1 && Pow2(1) == 0x2 && Pow2(2) == 0x4 && Pow2(3) == 0x8
    ensures Pow2(4) == 0x10 && Pow2(5) == 0x20 && Pow2(6) == 0x40 && Pow2(7) == 0x80
    ensures Pow2(8) == 0x100 && Pow2(9) == 0x200 && Pow2(10) == 0x400 && Pow2(11) == 0x800
    ensures Pow2(12) == 0x1000 && Pow2(13) == 0x2000 && Pow2(14) == 0x4000 && Pow2(15) == 0x8000
  {
    Pow2Values();
    assert Pow2(0) == 0x1 && Pow2(1) == 0x2 && Pow2(2) == 0x4 && Pow2(3) == 0x8;
    assert Pow2(4) == 0x10 && Pow2(5) == 0x20 && Pow2(6) == 0x40 && Pow2(7) == 0x80;
    assert Pow2(8) == 0x100 && Pow2(9) == 0x200 && Pow2(10) == 0x400 && Pow2(11) == 0x800;
    assert Pow2(12) == 0x1000 && Pow2(13) == 0x2000 && Pow2(14) == 0x4000 && Pow2(15) == 0x8000;
  }

  lemma Powers1()
    ensures Pow2(16) == 0x10000 && Pow2(17) == 0x20000 && Pow2(18) == 0x40000 && Pow2(19) == 0x80000
    ensures Pow2(20) == 0x100000 && Pow2(21) == 0x200000 && Pow2(22) == 0x400000 && Pow2(23) == 0x800000
    ensures Pow2(24) == 0x1000000 && Pow2(25) == 0x2000000 && Pow2(26) == 0x4000000 && Pow2(27) == 0x8000000
    ensures Pow2(28) == 0x10000000 && Pow2(29) == 0x20000000 && Pow2(30) == 0x40000000 && Pow2(31) == 0x80000000
  {
    Pow2Values();
    assert Pow2(16) == 0x10000 && Pow2(17) == 0x20000 && Pow2(18) == 0x40000 && Pow2(19) == 0x80000;
    assert Pow2(20) == 0x100000 && Pow2(21) == 0x200000 && Pow2(22) == 0x400000 && Pow2(23) == 0x800000;
    assert Pow2(24) == 0x1000000 && Pow2(25) == 0x2000000 && Pow2(26) == 0x4000000 && Pow2(27) == 0x8000000;
    assert Pow2(28) == 0x10000000 && Pow2(29) == 0x20000000 && Pow2(30) == 0x40000000 && Pow2(31) == 0x80000000;
  }

  lemma Powers2()
    ensures Pow2(32) == 0x100000000 && Pow2(33) == 0x200000000 && Pow2(34) == 0x400000000 && Pow2(35) == 0x800000000
    ensures Pow2(36) == 0x1000000000 && Pow2(37) == 0x2000000000 && Pow2(38) == 0x4000000000 && Pow2(39) == 0x8000000000
    ensures Pow2(40) == 0x10000000000 && Pow2(41) == 0x20000000000 && Pow2(42) == 0x40000000000 && Pow2(43) == 0x80000000000
    ensures Pow2(44) == 0x100000000000 && Pow2(45) == 0x200000000000 && Pow2(46) == 0x400000000000 && Pow2(47) == 0x800000000000
  {
    Pow2Values();
    assert Pow2(32) == 0x100000000 && Pow2(33) == 0x200000000 && Pow2(34) == 0x400000000 && Pow2(35) == 0x800000000;
    assert Pow2(36) == 0x1000000000 && Pow2(37) == 0x2000000000 && Pow2(38) == 0x4000000000 && Pow2(39) == 0x8000000000;
    assert Pow2(40) == 0x10000000000 && Pow2(41) == 0x20000000000 && Pow2(42) == 0x40000000000 && Pow2(43) == 0x80000000000;
    assert Pow2(44) == 0x100000000000 && Pow2(45) == 0x200000000000 && Pow2(46) == 0x400000000000 && Pow2(47) == 0x800000000000;
  }

  lemma Powers3()
    ensures Pow2(48) == 0x1000000000000 && Pow2(49) == 0x2000000000000 && Pow2(50) == 0x4000000000000 && Pow2(51) == 0x8000000000000
    ensures Pow2(52) == 0x10000000000000 && Pow2(53) == 0x20000000000000 && Pow2(54) == 0x40000000000000 && Pow2(55) == 0x80000000000000
    ensures Pow2(56) == 0x100000000000000 && Pow2(57) == 0x200000000000000 && Pow2(58) == 0x400000000000000 && Pow2(59) == 0x800000000000000
    ensures Pow2(60) == 0x1000000000000000 && Pow2(61) == 0x2000000000000000 && Pow2(62) == 0x4000000000000000 && Pow2(63) == 0x8000000000000000
  {
    Pow2Values();
    assert Pow2(48) == 0x1000000000000 && Pow2(49) == 0x2000000000000 && Pow2(50) == 0x4000000000000 && Pow2(51) == 0x8000000000000;
    assert Pow2(52) == 0x10000000000000 && Pow2(53) == 0x20000000000000 && Pow2(54) == 0x40000000000000 && Pow2(55) == 0x80000000000000;
    assert Pow2(56) == 0x100000000000000 && Pow2(57) == 0x200000000000000 && Pow2(58) == 0x400000000000000 && Pow2(59) == 0x800000000000000;
    assert Pow2(60) == 0x1000000000000000 && Pow2(61) == 0x2000000000000000 && Pow2(62) == 0x4000000000000000 && Pow2(63) == 0x8000000000000000;
  }

  lemma FoldIs(x: u64, y: u64, lo: u64, hi: u64, z: u64)
    requires x * y == hi * 0x1_0000_0000_0000_0000 + lo && z == Xor(lo, hi)
    ensures Mul128Fold64(x, y) == z
  {
    hide Xor, Mult64to128;
    var p := Mult64to128(x, y);
    Mult64to128Exact(x, y);
    DigitsOf(p.low, p.high, lo, hi);
  }

  lemma DigitsOf(a: u64, x: u64, b: u64, y: u64)
    requires x * TWO64 + a == y * TWO64 + b
    ensures a == b && x == y
  {
  }

  /** The words on the way are given: shifted ones, exclusive ors, and products with
      their quotients. */
  lemma Avalanche64Is(h: u64, s1: nat, h1: u64, m: nat, p: u64, s2: nat, p1: u64, n: nat, q: u64, s3: nat, q1: u64)
    requires s1 * 0x2_0000_0000 <= h < s1 * 0x2_0000_0000 + 0x2_0000_0000 && h1 == Xor(h, s1)
    requires h1 * 0xC2B2_AE3D_27D4_EB4F == m * 0x1_0000_0000_0000_0000 + p
    requires s2 * 0x2000_0000 <= p < s2 * 0x2000_0000 + 0x2000_0000 && p1 == Xor(p, s2)
    requires p1 * 0x1656_67B1_9E37_79F9 == n * 0x1_0000_0000_0000_0000 + q
    requires s3 * 0x1_0000_0000 <= q < s3 * 0x1_0000_0000 + 0x1_0000_0000 && q1 == Xor(q, s3)
    ensures Avalanche64(h) == q1
  {
    hide Xor, Shr, Pow2, Mul64;
    Powers1();
    Powers2();
    ShiftIs(h, 33, 0x2_0000_0000, s1);
    ProductIs(h1, PRIME64_2, m, p);
    ShiftIs(p, 29, 0x2000_0000, s2);
    ProductIs(p1, PRIME64_3, n, q);
    ShiftIs(q, 32, 0x1_0000_0000, s3);
  }

  lemma Avalanche3Is(h: u64, s1: nat, h1: u64, m: nat, p: u64, s2: nat, p1: u64)
    requires s1 * 0x20_0000_0000 <= h < s1 * 0x20_0000_0000 + 0x20_0000_0000 && h1 == Xor(h, s1)
    requires h1 * 0x1656_6791_9E37_79F9 == m * 0x1_0000_0000_0000_0000 + p
    requires s2 * 0x1_0000_0000 <= p < s2 * 0x1_0000_0000 + 0x1_0000_0000 && p1 == Xor(p, s2)
    ensures Avalanche3(h) == p1
  {
    hide Xor, Shr, Pow2, Mul64;
    Powers2();
    ShiftIs(h, 37, 0x20_0000_0000, s1);
    ProductIs(h1, PRIME_MX1, m, p);
    ShiftIs(p, 32, 0x1_0000_0000, s2);
  }

  lemma RrmxmxIs(h: u64, len: u64, rh: nat, rl: nat, th: nat, tl: nat, rt: u64, h1: u64, m: nat, p: u64, s1: nat, p1: u64,
                 n: nat, q: u64, s2: nat, q1: u64)
    requires h == rh * 0x8000 + rl && rl < 0x8000 && rh < 0x2_0000_0000_0000
    requires h == th * 0x100_0000_0000 + tl && tl < 0x100_0000_0000 && th < 0x100_0000
    requires rt == Xor(rl * 0x2_0000_0000_0000 + rh, tl * 0x100_0000 + th) && h1 == Xor(h, rt)
    requires h1 * 0x9FB2_1C65_1E98_DF25 == m * 0x1_0000_0000_0000_0000 + p
    requires s1 * 0x8_0000_0000 <= p < s1 * 0x8_0000_0000 + 0x8_0000_0000 && len < 0x100 && p1 == Xor(p, s1 + len)
    requires p1 * 0x9FB2_1C65_1E98_DF25 == n * 0x1_0000_0000_0000_0000 + q
    requires s2 * 0x1000_0000 <= q < s2 * 0x1000_0000 + 0x1000_0000 && q1 == Xor(q, s2)
    ensures Rrmxmx(h, len) == q1
  {
    hide Rotl64, Xor, Shr, Pow2, Mul64;
    Powers0();
    Powers1();
    Powers2();
    Powers3();
    RotationIs(h, 49, 0x2_0000_0000_0000, 0x8000, rh, rl);
    RotationIs(h, 24, 0x100_0000, 0x100_0000_0000, th, tl);
    ProductIs(h1, PRIME_MX2, m, p);
    ShiftIs(p, 35, 0x8_0000_0000, s1);
    ProductIs(p1, PRIME_MX2, n, q);
    ShiftIs(q, 28, 0x1000_0000, s2);
  }

  /** What 16 bytes mix to: keyed words and their product are given. */
  lemma MixIs(input: seq<byte>, at: nat, secret: Secret, key: nat, seed: u64, x: u64, y: u64, lo: u64, hi: u64, z: u64)
    requires at + 16 <= |input| && key + 16 <= |secret|
    requires x == Xor(Read64(input, at), Add64(Read64(secret, key), seed))
    requires y == Xor(Read64(input, at + 8), Sub64(Read64(secret, key + 8), seed))
    requires x * y == hi * 0x1_0000_0000_0000_0000 + lo && z == Xor(lo, hi)
    ensures Mix16B(input, at, secret, key, seed) == z
  {
    hide Read64, Add64, Sub64, Mul128Fold64, Xor;
    FoldIs(x, y, lo, hi, z);
  }

  lemma TurnedWords(b0: byte, b1: byte, b2: byte, b3: byte, b4: byte, b5: byte, b6: byte, b7: byte)
    ensures Swap64(Joined(b0, b1, b2, b3, b4, b5, b6, b7)) == Joined(b7, b6, b5, b4, b3, b2, b1, b0)
  {
    hide WriteLE, ReadLE, Reversed;
    var s: seq<byte> := [b0, b1, b2, b3, b4, b5, b6, b7];
    var t: seq<byte> := [b7, b6, b5, b4, b3, b2, b1, b0];
    ReadBytes(s, 0);
    ReadBytes(t, 0);
    assert s[0..8] == s;
    ReadThenWrite(s);
    Turned(s);
    assert Reversed(s) == t;
  }

  lemma TurnedHalves(b0: byte, b1: byte, b2: byte, b3: byte)
    ensures Swap32(Quarter(b0, b1, b2, b3)) == Quarter(b3, b2, b1, b0)
  {
    hide WriteLE, ReadLE, Reversed;
    var s: seq<byte> := [b0, b1, b2, b3];
    var t: seq<byte> := [b3, b2, b1, b0];
    ReadHalf(s, 0);
    ReadHalf(t, 0);
    assert s[0..4] == s;
    ReadThenWrite(s);
    Turned(s);
    assert Reversed(s) == t;
  }

  lemma {:induction false} Turned(s: seq<byte>)
    ensures |Reversed(s)| == |s| && forall k :: 0 <= k < |s| ==> Reversed(s)[k] == s[|s| - 1 - k]
  {
    if s != [] {
      Turned(s[1..]);
    }
  }

  function Stripe(): (s: seq<byte>)
    ensures |s| == 32
  {
    Sanity() + Next()
  }

  lemma TailParts()
    ensures var t := Tail(); t[8..][4..] == t[12..] && t[4..][4..] == t[8..] && t[12] == 0xB6 && t[13] == 0x5 && t[14] == 0x93
    ensures var t := Tail(); t[12..][1..] == t[13..] && t[13..][1..] == t[14..] && t[14..][1..] == []
  {

  }
}

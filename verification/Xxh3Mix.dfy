/** The word mixers of XXH64 and XXH3 and the XXH3 hashes of short inputs
    (0 to 240 bytes), with the exactness of the portable 64x64 to 128 bit
    multiplication and the collision freedom of the shortest inputs. */
module Xxh3Mix {
  import opened Words

  const PRIME32_1: u32 := 0x9E3779B1
  const PRIME32_2: u32 := 0x85EBCA77
  const PRIME32_3: u32 := 0xC2B2AE3D
  const PRIME32_4: u32 := 0x27D4EB2F
  const PRIME32_5: u32 := 0x165667B1
  const PRIME64_1: u64 := 0x9E3779B185EBCA87
  const PRIME64_2: u64 := 0xC2B2AE3D27D4EB4F
  const PRIME64_3: u64 := 0x165667B19E3779F9
  const PRIME64_4: u64 := 0x85EBCA77C2B2AE63
  const PRIME64_5: u64 := 0x27D4EB2F165667C5
  const PRIME_MX1: u64 := 0x165667919E3779F9
  const PRIME_MX2: u64 := 0x9FB21C651E98DF25

  const SECRET_SIZE_MIN := 136
  const SECRET_DEFAULT_SIZE := 192
  const MIDSIZE_MAX := 240

  /** A secret long enough for every use the hash makes of it. */
  type Secret = s: seq<byte> | |s| >= 136 witness seq(136, _ => 0)

  /** The default secret, in eight parts of 24 bytes. */
  function KSecret(): (s: Secret)
    ensures |s| == SECRET_DEFAULT_SIZE
  {
    KSecret0() + KSecret1() + KSecret2() + KSecret3() + KSecret4() + KSecret5() + KSecret6() + KSecret7()
  }

  function KSecret0(): (s: seq<byte>)
    ensures |s| == 24
  {
    [0xb8, 0xfe, 0x6c, 0x39, 0x23, 0xa4, 0x4b, 0xbe, 0x7c, 0x01, 0x81, 0x2c,
     0xf7, 0x21, 0xad, 0x1c, 0xde, 0xd4, 0x6d, 0xe9, 0x83, 0x90, 0x97, 0xdb]
  }

  function KSecret1(): (s: seq<byte>)
    ensures |s| == 24
  {
    [0x72, 0x40, 0xa4, 0xa4, 0xb7, 0xb3, 0x67, 0x1f, 0xcb, 0x79, 0xe6, 0x4e,
     0xcc, 0xc0, 0xe5, 0x78, 0x82, 0x5a, 0xd0, 0x7d, 0xcc, 0xff, 0x72, 0x21]
  }

  function KSecret2(): (s: seq<byte>)
    ensures |s| == 24
  {
    [0xb8, 0x08, 0x46, 0x74, 0xf7, 0x43, 0x24, 0x8e, 0xe0, 0x35, 0x90, 0xe6,
     0x81, 0x3a, 0x26, 0x4c, 0x3c, 0x28, 0x52, 0xbb, 0x91, 0xc3, 0x00, 0xcb]
  }

  function KSecret3(): (s: seq<byte>)
    ensures |s| == 24
  {
    [0x88, 0xd0, 0x65, 0x8b, 0x1b, 0x53, 0x2e, 0xa3, 0x71, 0x64, 0x48, 0x97,
     0xa2, 0x0d, 0xf9, 0x4e, 0x38, 0x19, 0xef, 0x46, 0xa9, 0xde, 0xac, 0xd8]
  }

  function KSecret4(): (s: seq<byte>)
    ensures |s| == 24
  {
    [0xa8, 0xfa, 0x76, 0x3f, 0xe3, 0x9c, 0x34, 0x3f, 0xf9, 0xdc, 0xbb, 0xc7,
     0xc7, 0x0b, 0x4f, 0x1d, 0x8a, 0x51, 0xe0, 0x4b, 0xcd, 0xb4, 0x59, 0x31]
  }

  function KSecret5(): (s: seq<byte>)
    ensures |s| == 24
  {
    [0xc8, 0x9f, 0x7e, 0xc9, 0xd9, 0x78, 0x73, 0x64, 0xea, 0xc5, 0xac, 0x83,
     0x34, 0xd3, 0xeb, 0xc3, 0xc5, 0x81, 0xa0, 0xff, 0xfa, 0x13, 0x63, 0xeb]
  }

  function KSecret6(): (s: seq<byte>)
    ensures |s| == 24
  {
    [0x17, 0x0d, 0xdd, 0x51, 0xb7, 0xf0, 0xda, 0x49, 0xd3, 0x16, 0x55, 0x26,
     0x29, 0xd4, 0x68, 0x9e, 0x2b, 0x16, 0xbe, 0x58, 0x7d, 0x47, 0xa1, 0xfc]
  }

  function KSecret7(): (s: seq<byte>)
    ensures |s| == 24
  {
    [0x8f, 0xf8, 0xb8, 0xd1, 0x7a, 0xd0, 0x31, 0xce, 0x45, 0xcb, 0x3a, 0x8f,
     0x95, 0x16, 0x04, 0x28, 0xaf, 0xd7, 0xfb, 0xca, 0xbb, 0x4b, 0x40, 0x7e]
  }

  // --------------------------------------------- 64 x 64 -> 128 multiplication

  datatype U128 = U128(low: u64, high: u64)

  /** Product of two 32-bit words; it fits 64 bits. */
  function Mult32to64(x: u32, y: u32): (r: u64)
    ensures r <= (TWO32 - 1) * (TWO32 - 1)
  {
    ProductGrows(x, y, TWO32 - 1, TWO32 - 1);
    x * y
  }

  lemma ProductGrows(x: nat, y: nat, a: nat, b: nat)
    requires x <= a && y <= b
    ensures 0 <= x * y <= a * b
  {
    assert (a - x) * y >= 0;
    assert a * (b - y) >= 0;
  }

  /** The portable multiplication, from four 32-bit products. */
  function Mult64to128(lhs: u64, rhs: u64): U128 {
    var loLo := Mult32to64(Lo32(lhs), Lo32(rhs));
    var hiLo := Mult32to64(Hi32(lhs), Lo32(rhs));
    var loHi := Mult32to64(Lo32(lhs), Hi32(rhs));
    var hiHi := Mult32to64(Hi32(lhs), Hi32(rhs));
    var cross := Add64(Add64(Hi32(loLo), Lo32(hiLo)), loHi);
    var upper := Add64(Add64(Hi32(hiLo), Hi32(cross)), hiHi);
    var lower := Lo32(cross) * TWO32 + Lo32(loLo);
    U128(lower, upper)
  }

  /** The two result words are the exact product, and neither sum of cross
      products on the way wraps. */
  lemma Mult64to128Exact(lhs: u64, rhs: u64)
    ensures Mult64to128(lhs, rhs).high * TWO64 + Mult64to128(lhs, rhs).low == lhs * rhs
    ensures var loLo := Mult32to64(Lo32(lhs), Lo32(rhs));
            var hiLo := Mult32to64(Hi32(lhs), Lo32(rhs));
            var loHi := Mult32to64(Lo32(lhs), Hi32(rhs));
            var hiHi := Mult32to64(Hi32(lhs), Hi32(rhs));
            && Hi32(loLo) + Lo32(hiLo) + loHi < TWO64
            && Hi32(hiLo) + Hi32(Hi32(loLo) + Lo32(hiLo) + loHi) + hiHi < TWO64
  {
    hide Mult32to64, Lo32, Hi32;
    var a, b, c, d := Hi32(lhs), Lo32(lhs), Hi32(rhs), Lo32(rhs);
    var ll, hl, lh := Mult32to64(b, d), Mult32to64(a, d), Mult32to64(b, c);
    Halves(ll);
    Halves(hl);
    Halves(Hi32(ll) + Lo32(hl) + lh);
    FourProducts(lhs, rhs);
  }

  lemma FourProducts(lhs: u64, rhs: u64)
    ensures lhs * rhs == Mult32to64(Hi32(lhs), Hi32(rhs)) * TWO64
      + (Mult32to64(Hi32(lhs), Lo32(rhs)) + Mult32to64(Lo32(lhs), Hi32(rhs))) * TWO32
      + Mult32to64(Lo32(lhs), Lo32(rhs))
  {
    hide Lo32, Hi32;
    var a, b, c, d := Hi32(lhs), Lo32(lhs), Hi32(rhs), Lo32(rhs);
    Halves(lhs);
    Halves(rhs);
    SchoolbookProduct(lhs, rhs, a, b, c, d);
  }

  function Mul128Fold64(lhs: u64, rhs: u64): u64 {
    var p := Mult64to128(lhs, rhs);
    Xor64(p.low, p.high)
  }

  // ------------------------------------------------------------- avalanches

  function XorShift64(v: u64, k: nat): u64 { Xor64(v, Shr64(v, k)) }

  function Avalanche64(hash: u64): u64 {
    var h1 := XorShift64(hash, 33);
    var h2 := XorShift64(Mul64(h1, PRIME64_2), 29);
    XorShift64(Mul64(h2, PRIME64_3), 32)
  }

  function Avalanche3(h: u64): u64 {
    XorShift64(Mul64(XorShift64(h, 37), PRIME_MX1), 32)
  }

  function Rrmxmx(h: u64, len: u64): u64 {
    var h1 := Xor64(h, Xor64(Rotl64(h, 49), Rotl64(h, 24)));
    var h2 := Mul64(h1, PRIME_MX2);
    var h3 := Xor64(h2, Add64(Shr64(h2, 35), len));
    XorShift64(Mul64(h3, PRIME_MX2), 28)
  }

  lemma {:induction false} ShiftedOut(x: nat, k: nat)
    requires x < Pow2(k)
    ensures Shr(x, k) == 0
    decreases k
  {
    if k != 0 {
      ShiftedOut(x / 2, k - 1);
    }
  }

  lemma {:induction false} ZeroShifts(k: nat)
    ensures Shr(0, k) == 0
  {
    if k != 0 {
      ZeroShifts(k - 1);
    }
  }

  /** Two xor-shifts by k are one xor-shift by 2k. */
  lemma XorShiftTwice(x: u64, k: nat)
    ensures XorShift64(XorShift64(x, k), k) == XorShift64(x, 2 * k)
  {
    hide Xor, Shr;
    var x', x'' := Shr(x, k), Shr(x, 2 * k);
    ShrComposes(x, k, k);
    XorShifts(x, x', k);
    XorAssociates(Xor(x, x'), x', x'');
    XorCancels(x, x');
  }

  lemma XorShiftByAll(x: u64, k: nat)
    requires k >= 64
    ensures XorShift64(x, k) == x
  {
    hide Xor, Shr;
    Pow2Values();
    ShiftedOut(x, 64);
    ShrComposes(x, 64, k - 64);
    ZeroShifts(k - 64);
    XorZero(x);
  }

  /** A xor-shift by 32 bits or more undoes itself. */
  lemma XorShiftUndone(x: u64, k: nat)
    requires k >= 32
    ensures XorShift64(XorShift64(x, k), k) == x
  {
    hide XorShift64;
    XorShiftTwice(x, k);
    XorShiftByAll(x, 2 * k);
  }

  /** Multiplication by an odd word is undone by its inverse modulo 2^64. */
  lemma MulUndone(x: u64, p: u64, inverse: u64)
    requires p * inverse % TWO64 == 1
    ensures Mul64(Mul64(x, p), inverse) == x
  {
    var q, w := x * p / TWO64, Mul64(x, p);
    var n := p * inverse / TWO64;
    assert x * p == q * TWO64 + w;
    assert p * inverse == n * TWO64 + 1;
    TwoWays(x, p, inverse, q, w, n);
    RemainderOf(w * inverse, x * n - q * inverse, x);
  }

  /** Multiplying x*p by the inverse, regrouped. */
  lemma TwoWays(x: int, p: int, inverse: int, q: int, w: int, n: int)
    requires x * p == q * TWO64 + w
    requires p * inverse == n * TWO64 + 1
    ensures w * inverse == (x * n - q * inverse) * TWO64 + x
  {
    assert (x * p) * inverse == x * (p * inverse);
    assert (q * TWO64 + w) * inverse == (q * inverse) * TWO64 + w * inverse;
    assert x * (n * TWO64 + 1) == (x * n) * TWO64 + x;
  }

  lemma RemainderOf(v: int, k: int, x: u64)
    requires v == k * TWO64 + x
    ensures v % TWO64 == x
  {
  }

  const INVERSE64_2: u64 := 0xBA79078168D4BAF
  const INVERSE64_3: u64 := 0xE9E9F4C41D6DF849

  /** The inverse of the XXH64 avalanche: every step undone in turn.  A
      xor-shift by 29 is undone by the xor-shifts by 58 and by 29. */
  function UndoAvalanche64(h: u64): u64 {
    var h2 := Mul64(XorShift64(h, 32), INVERSE64_3);
    var h1 := Mul64(XorShift64(XorShift64(h2, 58), 29), INVERSE64_2);
    XorShift64(h1, 33)
  }

  /** The XXH64 avalanche is a bijection of the 64-bit words. */
  lemma Avalanche64Bijective(x: u64)
    ensures UndoAvalanche64(Avalanche64(x)) == x
    ensures Avalanche64(UndoAvalanche64(x)) == x
  {
    hide XorShift64, Mul64;
    // the avalanche undone
    var a1 := XorShift64(x, 33);
    var a2 := Mul64(a1, PRIME64_2);
    var a3 := XorShift64(a2, 29);
    XorShiftUndone(Mul64(a3, PRIME64_3), 32);
    MulUndone(a3, PRIME64_3, INVERSE64_3);
    XorShift29Undone(a2);
    MulUndone(a1, PRIME64_2, INVERSE64_2);
    XorShiftUndone(x, 33);
    // the inverse undone
    var b1 := XorShift64(x, 32);
    var b2 := Mul64(b1, INVERSE64_3);
    var b3 := XorShift64(XorShift64(b2, 58), 29);
    XorShiftUndone(Mul64(b3, INVERSE64_2), 33);
    MulUndone(b3, INVERSE64_2, PRIME64_2);
    XorShift29Undone(b2);
    MulUndone(b1, INVERSE64_3, PRIME64_3);
    XorShiftUndone(x, 32);
  }

  lemma XorShift29Undone(x: u64)
    ensures XorShift64(XorShift64(XorShift64(x, 29), 58), 29) == x
    ensures XorShift64(XorShift64(XorShift64(x, 58), 29), 29) == x
  {
    hide XorShift64;
    XorShiftCommutes(XorShift64(x, 29), 58, 29);
    XorShiftTwice(x, 29);
    XorShiftTwice(XorShift64(x, 58), 29);
    XorShiftUndone(x, 58);
  }

  lemma XorShiftCommutes(x: u64, j: nat, k: nat)
    ensures XorShift64(XorShift64(x, j), k) == XorShift64(XorShift64(x, k), j)
  {
    hide Xor, Shr;
    var xj, xk, xjk := Shr(x, j), Shr(x, k), Shr(x, j + k);
    ShrComposes(x, j, k);
    ShrComposes(x, k, j);
    XorShifts(x, xj, k);
    XorShifts(x, xk, j);
    XorRegroup(x, xj, xk, xjk);
  }

  lemma XorRegroup(a: nat, b: nat, c: nat, d: nat)
    ensures Xor(Xor(a, b), Xor(c, d)) == Xor(Xor(a, c), Xor(b, d))
  {
    hide Xor;
    XorAssociates(Xor(a, b), c, d);
    XorAssociates(a, b, c);
    XorCommutes(b, c);
    XorAssociates(a, c, b);
    XorAssociates(Xor(a, c), b, d);
  }

  // ----------------------------------------------------------- short inputs

  function Swap32(v: u32): u32 { Read32(Reversed(WriteLE(v, 4)), 0) }
  function Swap64(v: u64): u64 { Read64(Reversed(WriteLE(v, 8)), 0) }

  /** The four bytes c3, len, c1, c2 from low to high. */
  function Combined(input: seq<byte>): u32
    requires 1 <= |input| <= 3
  {
    var c1: int, c2: int, c3: int := input[0], input[|input| / 2], input[|input| - 1];
    c3 + |input| * 0x100 + c1 * 0x1_0000 + c2 * 0x100_0000
  }

  function Len1to3(input: seq<byte>, secret: Secret, seed: u64): u64
    requires 1 <= |input| <= 3
  {
    var bitflip := Add64(Xor32(Read32(secret, 0), Read32(secret, 4)), seed);
    Avalanche64(Xor64(Combined(input), bitflip))
  }

  function Len4to8(input: seq<byte>, secret: Secret, seed: u64): u64
    requires 4 <= |input| <= 8
  {
    var seed' := Xor64(seed, Swap32(Lo32(seed)) * TWO32);
    var input1 := Read32(input, 0);
    var input2 := Read32(input, |input| - 4);
    var bitflip := Sub64(Xor64(Read64(secret, 8), Read64(secret, 16)), seed');
    var input64 := input2 + input1 * TWO32;
    Rrmxmx(Xor64(input64, bitflip), |input|)
  }

  function Len9to16(input: seq<byte>, secret: Secret, seed: u64): u64
    requires 9 <= |input| <= 16
  {
    var bitflip1 := Add64(Xor64(Read64(secret, 24), Read64(secret, 32)), seed);
    var bitflip2 := Sub64(Xor64(Read64(secret, 40), Read64(secret, 48)), seed);
    var lo := Xor64(Read64(input, 0), bitflip1);
    var hi := Xor64(Read64(input, |input| - 8), bitflip2);
    Avalanche3(Add64(Add64(Add64(|input|, Swap64(lo)), hi), Mul128Fold64(lo, hi)))
  }

  function Len0to16(input: seq<byte>, secret: Secret, seed: u64): u64
    requires |input| <= 16
  {
    if |input| > 8 then Len9to16(input, secret, seed)
    else if |input| >= 4 then Len4to8(input, secret, seed)
    else if |input| > 0 then Len1to3(input, secret, seed)
    else Avalanche64(Xor64(seed, Xor64(Read64(secret, 56), Read64(secret, 64))))
  }

  function Mix16B(input: seq<byte>, at: nat, secret: Secret, key: nat, seed: u64): u64
    requires at + 16 <= |input| && key + 16 <= |secret|
  {
    Mul128Fold64(Xor64(Read64(input, at), Add64(Read64(secret, key), seed)),
                 Xor64(Read64(input, at + 8), Sub64(Read64(secret, key + 8), seed)))
  }

  /** Pairs i, i-1, .., 0 of 16-byte mixes from both ends of the input. */
  function MixPairs(acc: u64, input: seq<byte>, secret: Secret, seed: u64, i: nat): u64
    requires 16 < |input| <= 128 && 32 * i < |input|
    decreases i
  {
    var acc1 := Add64(acc, Mix16B(input, 16 * i, secret, 32 * i, seed));
    var acc2 := Add64(acc1, Mix16B(input, |input| - 16 * (i + 1), secret, 32 * i + 16, seed));
    if i == 0 then acc2 else MixPairs(acc2, input, secret, seed, i - 1)
  }

  function Len17to128(input: seq<byte>, secret: Secret, seed: u64): u64
    requires 16 < |input| <= 128
  {
    Avalanche3(MixPairs(Mul64(|input|, PRIME64_1), input, secret, seed, (|input| - 1) / 32))
  }

  /** The sum of the 16-byte mixes lo, lo+1, .., hi-1, keyed from `secret[shift..]`. */
  function MixRange(acc: u64, input: seq<byte>, secret: Secret, seed: u64, lo: nat, hi: nat, shift: int): u64
    requires lo <= hi && 16 * hi <= |input|
    requires 0 <= 16 * lo + shift && 16 * hi + shift <= |secret|
    decreases hi - lo
  {
    if lo == hi then acc
    else
      MixRange(Add64(acc, Mix16B(input, 16 * lo, secret, 16 * lo + shift, seed)),
               input, secret, seed, lo + 1, hi, shift)
  }

  const MIDSIZE_STARTOFFSET := 3
  const MIDSIZE_LASTOFFSET := 17

  function Len129to240(input: seq<byte>, secret: Secret, seed: u64): u64
    requires 128 < |input| <= MIDSIZE_MAX
  {
    var acc := Avalanche3(MixRange(Mul64(|input|, PRIME64_1), input, secret, seed, 0, 8, 0));
    var last := Mix16B(input, |input| - 16, secret, SECRET_SIZE_MIN - MIDSIZE_LASTOFFSET, seed);
    var end := MixRange(last, input, secret, seed, 8, |input| / 16, MIDSIZE_STARTOFFSET - 128);
    Avalanche3(Add64(acc, end))
  }

  function HashShort(input: seq<byte>, secret: Secret, seed: u64): u64
    requires |input| <= MIDSIZE_MAX
  {
    if |input| <= 16 then Len0to16(input, secret, seed)
    else if |input| <= 128 then Len17to128(input, secret, seed)
    else Len129to240(input, secret, seed)
  }

  /** The packed word of a 1 to 3 byte input determines the input. */
  lemma CombinedInjective(a: seq<byte>, b: seq<byte>)
    requires 1 <= |a| <= 3 && 1 <= |b| <= 3
    requires Combined(a) == Combined(b)
    ensures a == b
  {
    FourDigits(a[|a| - 1], |a|, a[0], a[|a| / 2], b[|b| - 1], |b|, b[0], b[|b| / 2]);
  }

  lemma FourDigits(a0: int, a1: int, a2: int, a3: int, b0: int, b1: int, b2: int, b3: int)
    requires 0 <= a0 < 0x100 && 0 <= a1 < 0x100 && 0 <= a2 < 0x100 && 0 <= a3 < 0x100
    requires 0 <= b0 < 0x100 && 0 <= b1 < 0x100 && 0 <= b2 < 0x100 && 0 <= b3 < 0x100
    requires a0 + a1 * 0x100 + a2 * 0x1_0000 + a3 * 0x100_0000
          == b0 + b1 * 0x100 + b2 * 0x1_0000 + b3 * 0x100_0000
    ensures a0 == b0 && a1 == b1 && a2 == b2 && a3 == b3
  {
    LowDigit(a0, a1 + 0x100 * (a2 + 0x100 * a3), b0, b1 + 0x100 * (b2 + 0x100 * b3));
    LowDigit(a1, a2 + 0x100 * a3, b1, b2 + 0x100 * b3);
    LowDigit(a2, a3, b2, b3);
  }

  lemma LowDigit(a: int, x: int, b: int, y: int)
    requires 0 <= a < 0x100 && 0 <= b < 0x100 && a + 0x100 * x == b + 0x100 * y
    ensures a == b && x == y
  {
  }

  /** For any secret and seed, XXH3 has no collisions among the inputs of one
      to three bytes, whatever their lengths. */
  lemma ShortestInputsNeverCollide(a: seq<byte>, b: seq<byte>, secret: Secret, seed: u64)
    requires 1 <= |a| <= 3 && 1 <= |b| <= 3
    requires HashShort(a, secret, seed) == HashShort(b, secret, seed)
    ensures a == b
  {
    hide Avalanche64, Combined, Xor;
    var bitflip := Add64(Xor32(Read32(secret, 0), Read32(secret, 4)), seed);
    Avalanche64Bijective(Xor64(Combined(a), bitflip));
    Avalanche64Bijective(Xor64(Combined(b), bitflip));
    XorInjective(Combined(a), Combined(b), bitflip);
    CombinedInjective(a, b);
  }
}

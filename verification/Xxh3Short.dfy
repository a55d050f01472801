/** XXH3 on inputs of four to eight bytes: every step of its mixer can be undone
    for a given length, so that inputs of one length never collide. */
module Xxh3Short {
  import opened Words
  import opened Xxh3Mix

  // ------------------------------------------------------------- xor-shifts

  lemma ShrSmaller(d: nat, k: nat)
    requires d > 0 && k > 0
    ensures Shr(d, k) < d
  {
  }

  lemma XorToZero(a: nat, b: nat)
    requires Xor(a, b) == 0
    ensures a == b
  {
    hide Xor;
    XorSelf(b);
    XorInjective(a, b, b);
  }

  /** A xor-shift by any distance is injective. */
  lemma XorShiftInjective(x: u64, y: u64, k: nat)
    requires k > 0 && XorShift64(x, k) == XorShift64(y, k)
    ensures x == y
  {
    hide Xor, Shr;
    var d := Xor(x, y);
    XorRegroup(x, Shr(x, k), y, Shr(y, k));
    XorSelf(Xor(x, Shr(x, k)));
    XorShifts(x, y, k);
    XorToZero(d, Shr(d, k));
    if d > 0 {
      ShrSmaller(d, k);
      assert false;
    }
    XorToZero(x, y);
  }

  lemma {:induction false} ShrBound(a: nat, n: nat, k: nat)
    requires a < Pow2(n) && k <= n
    ensures Shr(a, k) < Pow2(n - k)
    decreases k
  {
    if k > 0 {
      ShrBound(a / 2, n - 1, k - 1);
    }
  }

  function AddShifted(h: u64, len: u64): u64 { Xor64(h, Add64(Shr64(h, 35), len)) }

  /** Adding the length to the shifted word does not reach the bits that were
      shifted. */
  lemma AddShiftedHigh(h: u64, len: u64)
    requires len <= 8
    ensures Shr(AddShifted(h, len), 35) == Shr(h, 35)
  {
    hide Xor, Shr;
    Pow2Values();
    Pow29And35();
    ShrBound(h, 64, 35);
    var t := Shr(h, 35) + len;
    ShiftedOut(t, 35);
    XorShifts(h, t, 35);
    XorZero(Shr(h, 35));
  }

  lemma Pow29And35()
    ensures Pow2(29) == 0x2000_0000 && Pow2(35) == 0x8_0000_0000
  {
    Pow2Values();
    assert Pow2(31) == 8 * Pow2(28) && Pow2(29) == 2 * Pow2(28) && Pow2(32) == 2 * Pow2(31);
    assert Pow2(34) == 4 * Pow2(32) && Pow2(35) == 2 * Pow2(34);
  }

  lemma AddShiftedInjective(x: u64, y: u64, len: u64)
    requires len <= 8 && AddShifted(x, len) == AddShifted(y, len)
    ensures x == y
  {
    hide Xor, Shr;
    AddShiftedHigh(x, len);
    AddShiftedHigh(y, len);
    XorInjective(x, y, Add64(Shr64(x, 35), len));
  }

  // --------------------------------------------------------------- rotations

  const TOP := 0x8000_0000_0000_0000

  /** A rotation by one bit. */
  function Rot1(a: u64): u64 { if a < TOP then 2 * a else 2 * (a - TOP) + 1 }

  function Rot(a: u64, k: nat): u64 {
    if k == 0 then a else Rot1(Rot(a, k - 1))
  }

  function Top(t: nat, k: nat): nat { if t == 1 then Pow2(k) else 0 }

  lemma {:induction false} XorTop(a: nat, s: nat, b: nat, t: nat, k: nat)
    requires a < Pow2(k) && b < Pow2(k) && s < 2 && t < 2
    ensures Xor(a + Top(s, k), b + Top(t, k)) == Xor(a, b) + Top(Differ(s, t), k)
    decreases k
  {
    hide Xor;
    if k == 0 {
      XorSmall(s, t);
      XorZero(0);
    } else {
      XorTop(a / 2, s, b / 2, t, k - 1);
      XorDouble(a / 2 + Top(s, k - 1), a % 2, b / 2 + Top(t, k - 1), b % 2);
      XorDouble(a / 2, a % 2, b / 2, b % 2);
      assert 2 * (a / 2) + a % 2 == a && 2 * (b / 2) + b % 2 == b;
    }
  }

  lemma XorSmall(s: nat, t: nat)
    requires s < 2 && t < 2
    ensures Xor(s, t) == Differ(s, t)
  {
  }

  lemma Rot1Linear(a: u64, b: u64)
    ensures Rot1(Xor64(a, b)) == Xor(Rot1(a), Rot1(b))
  {
    hide Xor, Rot1, Top, Pow2, TopBit;
    var s, t := TopBit(a), TopBit(b);
    TopSplit(a);
    TopSplit(b);
    var x, y := a - Top(s, 63), b - Top(t, 63);
    XorTop(x, s, y, t, 63);
    XorBound(x, y, 63);
    XorDouble(x, s, y, t);
    Rot1Joined(Xor(x, y), Differ(s, t));
  }

  function TopBit(a: u64): nat { if a < TOP then 0 else 1 }

  lemma TopSplit(a: u64)
    ensures TopBit(a) < 2 && 0 <= a - Top(TopBit(a), 63) < Pow2(63)
    ensures Rot1(a) == 2 * (a - Top(TopBit(a), 63)) + TopBit(a)
  {
    hide Pow2;
    Pow63();
  }

  lemma Rot1Joined(x: nat, s: nat)
    requires x < Pow2(63) && s < 2
    ensures x + Top(s, 63) < TWO64 && Rot1(x + Top(s, 63)) == 2 * x + s
  {
    hide Pow2;
    Pow63();
  }

  lemma Pow63()
    ensures Pow2(63) == TOP
  {
    Pow2Values();
    assert Pow2(64) == 2 * Pow2(63);
  }

  lemma {:induction false} RotLinear(a: u64, b: u64, k: nat)
    ensures Rot(Xor64(a, b), k) == Xor(Rot(a, k), Rot(b, k))
  {
    hide Xor, Rot1;
    if k > 0 {
      RotLinear(a, b, k - 1);
      Rot1Linear(Rot(a, k - 1), Rot(b, k - 1));
    }
  }

  lemma {:induction false} RotRot(a: u64, j: nat, k: nat)
    ensures Rot(Rot(a, j), k) == Rot(a, j + k)
  {
    hide Rot1;
    if k > 0 {
      RotRot(a, j, k - 1);
    }
  }

  lemma {:induction false} PowersMultiply(i: nat, j: nat)
    ensures Pow2(i) * Pow2(j) == Pow2(i + j)
  {
    if i > 0 {
      PowersMultiply(i - 1, j);
      assert Pow2(i) * Pow2(j) == 2 * (Pow2(i - 1) * Pow2(j));
    }
  }

  lemma PowStep(k: nat)
    requires k > 0
    ensures Pow2(k) == 2 * Pow2(k - 1)
  {
  }

  /** The low part moves up and the high part comes in below it. */
  lemma {:induction false} RotSplit(a: u64, hi: nat, lo: nat, k: nat)
    requires k <= 64 && a == hi * Pow2(64 - k) + lo && lo < Pow2(64 - k) && hi < Pow2(k)
    ensures Rot(a, k) == lo * Pow2(k) + hi
    decreases k
  {
    hide *;
    if k == 0 {
      NoRotation(a, hi, lo);
    } else {
      var p, q := Pow2(64 - k), Pow2(k - 1);
      var t, hi' := hi % 2, hi / 2;
      var lo' := (if t == 1 then p else 0) + lo;
      PowStep(k);
      PowStep(65 - k);
      SplitHigh(hi', t, p);
      RotSplit(a, hi', lo', k - 1);
      PowersMultiply(64 - k, k - 1);
      Pow63();
      OneMoreBit(a, k, p, q, lo, t, hi');
    }
  }

  lemma OneMoreBit(a: u64, k: nat, p: nat, q: nat, lo: nat, t: nat, hi': nat)
    requires k > 0 && p * q == TOP && lo < p && hi' < q && t < 2
    requires Rot(a, k - 1) == ((if t == 1 then p else 0) + lo) * q + hi'
    ensures Rot(a, k) == lo * (2 * q) + 2 * hi' + t
  {
    RotArith(p, q, lo, t, hi');
  }

  lemma NoRotation(a: u64, hi: nat, lo: nat)
    requires a == hi * Pow2(64) + lo && hi < Pow2(0)
    ensures Rot(a, 0) == lo * Pow2(0) + hi
  {
    hide Pow2;
    PowZero();
    NoTimes(hi, Pow2(64));
  }

  lemma PowZero()
    ensures Pow2(0) == 1
  {
  }

  lemma NoTimes(hi: nat, p: nat)
    ensures hi < 1 ==> hi * p == 0
  {
  }

  lemma SplitHigh(hi': nat, t: nat, p: nat)
    requires t < 2
    ensures (2 * hi' + t) * p == hi' * (2 * p) + if t == 1 then p else 0
  {
  }

  lemma RotArith(p: nat, q: nat, lo: nat, t: nat, hi': nat)
    requires p * q == TOP && lo < p && hi' < q && t < 2
    ensures var r := lo * q + hi';
            && r < TOP && ((if t == 1 then p else 0) + lo) * q + hi' == (if t == 1 then TOP else 0) + r
            && 2 * r + t == lo * (2 * q) + 2 * hi' + t
  {
    LowPart(p, lo, q);
    if t == 1 {
      Distribute(p, lo, q);
    }
    assert lo * (2 * q) == 2 * (lo * q);
  }

  lemma LowPart(p: nat, lo: nat, q: nat)
    requires lo < p
    ensures lo * q + q <= p * q
  {
    Distribute(lo + 1, p - lo - 1, q);
    Distribute(lo, 1, q);
    assert (p - lo - 1) * q >= 0;
  }

  lemma Distribute(a: nat, b: nat, q: nat)
    ensures (a + b) * q == a * q + b * q
  {
  }

  lemma {:induction false} ShrParts(a: nat, j: nat)
    ensures Shr(a, j) * Pow2(j) <= a < Shr(a, j) * Pow2(j) + Pow2(j)
    decreases j
  {
    hide *;
    if j > 0 {
      ShrParts(a / 2, j - 1);
      ShrHalf(a, j);
      PowStep(j);
      PartsDoubled(a, Shr(a, j), Pow2(j - 1));
    } else {
      ShrNone(a);
      PowZero();
    }
  }

  lemma ShrHalf(a: nat, j: nat)
    requires j > 0
    ensures Shr(a, j) == Shr(a / 2, j - 1)
  {
  }

  lemma ShrNone(a: nat)
    ensures Shr(a, 0) == a
  {
  }

  lemma PartsDoubled(a: nat, h: nat, p: nat)
    requires h * p <= a / 2 < h * p + p
    ensures h * (2 * p) <= a < h * (2 * p) + 2 * p
  {
    assert h * (2 * p) == 2 * (h * p);
  }

  /** The rotation of the code is that many rotations by one bit. */
  lemma RotlIsRot(a: u64, k: nat)
    requires k <= 64
    ensures Rotl64(a, k) == Rot(a, k)
  {
    hide Rot, Shr, Pow2;
    var hi := Shr(a, 64 - k);
    ShrParts(a, 64 - k);
    var p, q := Pow2(64 - k), Pow2(k);
    var lo: nat := a - hi * p;
    Pow2Values();
    ShrBound(a, 64, 64 - k);
    RotSplit(a, hi, lo, k);
    PowersMultiply(64 - k, k);
    ShiftedUp(a, hi, lo, p, q);
    Reduced(a * q, hi, lo * q, Rot(a, k));
  }

  lemma ShiftedUp(a: nat, hi: nat, lo: nat, p: nat, q: nat)
    requires a == hi * p + lo && p * q == TWO64
    ensures a * q == hi * TWO64 + lo * q
  {
    Distribute(hi * p, lo, q);
    Regroup(hi, p, q);
  }

  lemma Regroup(a: nat, b: nat, c: nat)
    ensures (a * b) * c == a * (b * c)
  {
  }

  lemma Reduced(v: nat, hi: nat, low: nat, r: u64)
    requires v == hi * TWO64 + low && r == low + hi
    ensures (v % TWO64 + hi) % TWO64 == r
  {
    LowIsRemainder(v, hi, low);
  }

  lemma LowIsRemainder(v: nat, hi: nat, low: u64)
    requires v == hi * TWO64 + low
    ensures v % TWO64 == low
  {
  }

  lemma {:induction false} RotWhole(a: u64, m: nat)
    ensures Rot(a, 64 * m) == a
    decreases m
  {
    if m > 0 {
      RotWhole(a, m - 1);
      RotRot(a, 64 * (m - 1), 64);
      Pow2Values();
      assert Pow2(0) == 1;
      RotSplit(a, a, 0, 64);
    }
  }

  // ------------------------------------------------- three rotations together

  function Mix(h: u64, a: nat, b: nat): u64 { Xor64(h, Xor64(Rot(h, a), Rot(h, b))) }

  /** Mixing twice doubles the distances. */
  lemma MixTwice(h: u64, a: nat, b: nat)
    ensures Mix(Mix(h, a, b), a, b) == Mix(h, 2 * a, 2 * b)
  {
    hide Xor, Rot;
    var x, y := Rot(h, a), Rot(h, b);
    RotLinear(h, Xor64(x, y), a);
    RotLinear(x, y, a);
    RotLinear(h, Xor64(x, y), b);
    RotLinear(x, y, b);
    RotRot(h, a, a);
    RotRot(h, b, a);
    RotRot(h, a, b);
    RotRot(h, b, b);
    CrossTermsCancel(h, x, y, Rot(h, 2 * a), Rot(h, a + b), Rot(h, 2 * b));
  }

  lemma CrossTermsCancel(h: nat, x: nat, y: nat, xx: nat, xy: nat, yy: nat)
    ensures Xor(Xor(h, Xor(x, y)), Xor(Xor(x, Xor(xx, xy)), Xor(y, Xor(xy, yy)))) == Xor(h, Xor(xx, yy))
  {
    hide Xor;
    XorRegroup(x, Xor(xx, xy), y, Xor(xy, yy));
    MiddleCancels(xx, xy, yy);
    MiddleCancels(h, Xor(x, y), Xor(xx, yy));
  }

  lemma MiddleCancels(a: nat, m: nat, b: nat)
    ensures Xor(Xor(a, m), Xor(m, b)) == Xor(a, b)
  {
    hide Xor;
    XorAssociates(Xor(a, m), m, b);
    XorCancels(a, m);
  }

  function Doubled(a: nat, n: nat): nat
    decreases n
  {
    if n == 0 then a else Doubled(2 * a, n - 1)
  }

  lemma {:induction false} MixSame(x: u64, y: u64, a: nat, b: nat, n: nat)
    requires Mix(x, a, b) == Mix(y, a, b)
    ensures Mix(x, Doubled(a, n), Doubled(b, n)) == Mix(y, Doubled(a, n), Doubled(b, n))
    decreases n
  {
    hide Mix;
    if n > 0 {
      MixTwice(x, a, b);
      MixTwice(y, a, b);
      MixSame(x, y, 2 * a, 2 * b, n - 1);
    }
  }

  /** After six doublings the rotations go round and only the word is left. */
  lemma MixWhole(h: u64, a: nat, b: nat)
    ensures Mix(h, 64 * a, 64 * b) == h
  {
    hide Xor, Rot;
    RotWhole(h, a);
    RotWhole(h, b);
    XorSelf(h);
    XorZero(h);
  }

  lemma SixDoublings(a: nat)
    ensures Doubled(a, 6) == 64 * a
  {
    assert Doubled(a, 6) == Doubled(2 * a, 5);
    assert Doubled(2 * a, 5) == Doubled(4 * a, 4);
    assert Doubled(4 * a, 4) == Doubled(8 * a, 3);
    assert Doubled(8 * a, 3) == Doubled(16 * a, 2);
    assert Doubled(16 * a, 2) == Doubled(32 * a, 1);
  }

  lemma MixInjective(x: u64, y: u64, a: nat, b: nat)
    requires Mix(x, a, b) == Mix(y, a, b)
    ensures x == y
  {
    hide Mix, Doubled;
    MixSame(x, y, a, b, 6);
    SixDoublings(a);
    SixDoublings(b);
    MixWhole(x, a, b);
    MixWhole(y, a, b);
  }

  // ------------------------------------------------------------- the whole mixer

  const INVERSE_MX2: u64 := 0x2AB9C720D1024AD

  lemma MulInjective(x: u64, y: u64)
    requires Mul64(x, PRIME_MX2) == Mul64(y, PRIME_MX2)
    ensures x == y
  {
    hide Mul64;
    MulUndone(x, PRIME_MX2, INVERSE_MX2);
    MulUndone(y, PRIME_MX2, INVERSE_MX2);
  }

  /** For a given length the mixer is injective. */
  lemma RrmxmxInjective(x: u64, y: u64, len: u64)
    requires len <= 8 && Rrmxmx(x, len) == Rrmxmx(y, len)
    ensures x == y
  {
    hide Xor, Shr, Rot, Mul64, XorShift64, Rotl64;
    RotlIsRot(x, 49);
    RotlIsRot(x, 24);
    RotlIsRot(y, 49);
    RotlIsRot(y, 24);
    var x1, y1 := Mix(x, 49, 24), Mix(y, 49, 24);
    var x2, y2 := Mul64(x1, PRIME_MX2), Mul64(y1, PRIME_MX2);
    var x3, y3 := AddShifted(x2, len), AddShifted(y2, len);
    XorShiftInjective(Mul64(x3, PRIME_MX2), Mul64(y3, PRIME_MX2), 28);
    MulInjective(x3, y3);
    AddShiftedInjective(x2, y2, len);
    MulInjective(x1, y1);
    MixInjective(x, y, 49, 24);
  }

  /** First and last four bytes are all of an input of at most eight. */
  lemma HalvesDetermine(a: seq<byte>, b: seq<byte>)
    requires 4 <= |a| == |b| <= 8
    requires Read32(a, 0) == Read32(b, 0) && Read32(a, |a| - 4) == Read32(b, |b| - 4)
    ensures a == b
  {
    hide ReadLE, WriteLE;
    var n := |a|;
    ReadThenWrite(a[0..4]);
    ReadThenWrite(b[0..4]);
    ReadThenWrite(a[n - 4..n]);
    ReadThenWrite(b[n - 4..n]);
    forall k | 0 <= k < n
      ensures a[k] == b[k]
    {
      assert k < 4 ==> a[k] == a[0..4][k] && b[k] == b[0..4][k];
      assert k >= n - 4 ==> a[k] == a[n - 4..n][k - (n - 4)] && b[k] == b[n - 4..n][k - (n - 4)];
    }
  }

  /** For any secret and seed, XXH3 has no collisions among the inputs of any one
      length from four to eight bytes. */
  lemma ShortInputsNeverCollide(a: seq<byte>, b: seq<byte>, secret: Secret, seed: u64)
    requires 4 <= |a| == |b| <= 8
    requires HashShort(a, secret, seed) == HashShort(b, secret, seed)
    ensures a == b
  {
    hide Xor, Rrmxmx, Read32, Read64, Swap32;
    var seed' := Xor64(seed, Swap32(Lo32(seed)) * TWO32);
    var bitflip := Sub64(Xor64(Read64(secret, 8), Read64(secret, 16)), seed');
    var x := Read32(a, |a| - 4) + Read32(a, 0) * TWO32;
    var y := Read32(b, |b| - 4) + Read32(b, 0) * TWO32;
    RrmxmxInjective(Xor64(x, bitflip), Xor64(y, bitflip), |a|);
    XorInjective(x, y, bitflip);
    HalvesDetermine(a, b);
  }
}

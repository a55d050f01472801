/** Machine words and byte strings, as the C sources use them.

  A word of n bits is a natural number below 2^n.  Addition, subtraction,
  multiplication and left shifts wrap modulo 2^n; right shifts and masks are
  exact divisions and remainders.  Exclusive or is defined bit by bit, so that
  its algebra (involution, commutation with shifts) can be proved rather than
  taken from a bit-vector theory.
 */
module Words {

  type byte = x: int | 0 <= x < 0x100
  type u32 = x: int | 0 <= x < 0x1_0000_0000
  type u64 = x: int | 0 <= x < 0x1_0000_0000_0000_0000

  const TWO32 := 0x1_0000_0000
  const TWO64 := 0x1_0000_0000_0000_0000

  // ---------------------------------------------------------------- powers

  function Pow2(k: nat): (p: nat)
    ensures p > 0
  {
    if k == 0 then 1 else 2 * Pow2(k - 1)
  }

  lemma {:induction false} Pow2Grows(j: nat, k: nat)
    requires j <= k
    ensures Pow2(j) <= Pow2(k)
    ensures j < k ==> 2 * Pow2(j) <= Pow2(k)
    decreases k
  {
    if j < k {
      Pow2Grows(j, k - 1);
    }
  }

  lemma Pow2Values()
    ensures Pow2(8) == 0x100
    ensures Pow2(16) == 0x1_0000
    ensures Pow2(32) == TWO32
    ensures Pow2(64) == TWO64
  {
    assert Pow2(4) == 16;
    assert Pow2(8) == 0x100;
    assert Pow2(12) == 0x1000;
    assert Pow2(16) == 0x1_0000;
    assert Pow2(20) == 0x10_0000;
    assert Pow2(24) == 0x100_0000;
    assert Pow2(28) == 0x1000_0000;
    assert Pow2(32) == 0x1_0000_0000;
    assert Pow2(36) == 0x10_0000_0000;
    assert Pow2(40) == 0x100_0000_0000;
    assert Pow2(44) == 0x1000_0000_0000;
    assert Pow2(48) == 0x1_0000_0000_0000;
    assert Pow2(52) == 0x10_0000_0000_0000;
    assert Pow2(56) == 0x100_0000_0000_0000;
    assert Pow2(60) == 0x1000_0000_0000_0000;
  }

  // ---------------------------------------------------------- exclusive or

  function Differ(p: nat, q: nat): nat { if p == q then 0 else 1 }

  function Xor(a: nat, b: nat): nat
    decreases a + b
  {
    if a == 0 && b == 0 then 0 else Differ(a % 2, b % 2) + 2 * Xor(a / 2, b / 2)
  }

  lemma {:induction false} XorBound(a: nat, b: nat, k: nat)
    requires a < Pow2(k) && b < Pow2(k)
    ensures Xor(a, b) < Pow2(k)
    decreases k
  {
    if k != 0 {
      XorBound(a / 2, b / 2, k - 1);
    }
  }

  lemma {:induction false} XorZero(a: nat)
    ensures Xor(a, 0) == a
  {
    if a != 0 {
      XorZero(a / 2);
    }
  }

  lemma {:induction false} XorCommutes(a: nat, b: nat)
    ensures Xor(a, b) == Xor(b, a)
    decreases a + b
  {
    if a != 0 || b != 0 {
      XorCommutes(a / 2, b / 2);
    }
  }

  lemma {:induction false} XorAssociates(a: nat, b: nat, c: nat)
    ensures Xor(Xor(a, b), c) == Xor(a, Xor(b, c))
    decreases a + b + c
  {
    if a != 0 || b != 0 || c != 0 {
      XorAssociates(a / 2, b / 2, c / 2);
      XorDigits(a, b, c);
    }
  }

  /** The lowest digit and the rest of both sides of the associative law. */
  lemma XorDigits(a: nat, b: nat, c: nat)
    requires Xor(Xor(a / 2, b / 2), c / 2) == Xor(a / 2, Xor(b / 2, c / 2))
    ensures Xor(Xor(a, b), c) == Xor(a, Xor(b, c))
  {
    hide Xor;
    var p, q, r := a % 2, b % 2, c % 2;
    XorDouble(a / 2, p, b / 2, q);
    XorDouble(b / 2, q, c / 2, r);
    XorDouble(Xor(a / 2, b / 2), Differ(p, q), c / 2, r);
    XorDouble(a / 2, p, Xor(b / 2, c / 2), Differ(q, r));
  }

  lemma {:induction false} XorDouble(a: nat, p: nat, b: nat, q: nat)
    requires p < 2 && q < 2
    ensures Xor(2 * a + p, 2 * b + q) == 2 * Xor(a, b) + Differ(p, q)
  {
    var x, y := 2 * a + p, 2 * b + q;
    assert x / 2 == a && x % 2 == p && y / 2 == b && y % 2 == q;
  }

  lemma {:induction false} XorHalves(a: nat, b: nat)
    ensures Xor(a, b) / 2 == Xor(a / 2, b / 2)
  {
  }

  lemma {:induction false} XorSelf(a: nat)
    ensures Xor(a, a) == 0
  {
    if a != 0 {
      XorSelf(a / 2);
    }
  }

  lemma {:induction false} XorCancels(a: nat, b: nat)
    ensures Xor(Xor(a, b), b) == a
  {
    XorAssociates(a, b, b);
    XorSelf(b);
    XorZero(a);
  }

  /** Equal results with one equal operand force the other to be equal. */
  lemma {:induction false} XorInjective(a: nat, b: nat, c: nat)
    requires Xor(a, c) == Xor(b, c)
    ensures a == b
  {
    XorCancels(a, c);
    XorCancels(b, c);
  }

  // ------------------------------------------------------------ right shifts

  function Shr(a: nat, k: nat): (r: nat)
    ensures r <= a
    decreases k
  {
    if k == 0 then a else Shr(a / 2, k - 1)
  }

  lemma {:induction false} XorShifts(a: nat, b: nat, k: nat)
    ensures Shr(Xor(a, b), k) == Xor(Shr(a, k), Shr(b, k))
    decreases k
  {
    if k != 0 {
      XorShifts(a / 2, b / 2, k - 1);
      XorHalves(a, b);
    }
  }

  lemma {:induction false} ShrComposes(a: nat, j: nat, k: nat)
    ensures Shr(Shr(a, j), k) == Shr(a, j + k)
    decreases j
  {
    if j != 0 {
      ShrComposes(a / 2, j - 1, k);
    }
  }

  lemma Shr8(a: nat)
    ensures Shr(a, 8) == a / 0x100
  {
    ShrComposes(a, 4, 4);
    assert Shr(a, 4) == a / 16;
    assert Shr(a / 16, 4) == a / 16 / 16;
  }

  // ------------------------------------------------------ wrapping operators

  function Add32(a: u32, b: u32): u32 { if a + b < TWO32 then a + b else a + b - TWO32 }
  function Sub32(a: u32, b: u32): u32 { if a >= b then a - b else a - b + TWO32 }
  function Mul32(a: u32, b: u32): u32 { a * b % TWO32 }
  function Add64(a: u64, b: u64): u64 { if a + b < TWO64 then a + b else a + b - TWO64 }
  function Sub64(a: u64, b: u64): u64 { if a >= b then a - b else a - b + TWO64 }
  function Mul64(a: u64, b: u64): u64 { a * b % TWO64 }

  /** The two halves of a 64-bit word. */
  function Lo32(a: u64): u32 { a % TWO32 }
  function Hi32(a: u64): u32 { a / TWO32 }

  lemma Halves(a: u64)
    ensures a == Hi32(a) * TWO32 + Lo32(a)
  {
  }

  lemma SchoolbookProduct(l: int, r: int, a: int, b: int, c: int, d: int)
    requires l == a * TWO32 + b && r == c * TWO32 + d
    ensures l * r == (a * c) * TWO64 + (a * d + b * c) * TWO32 + b * d
  {
    assert l * r == (a * TWO32) * (c * TWO32) + (a * TWO32) * d + b * (c * TWO32) + b * d;
    assert (a * TWO32) * (c * TWO32) == (a * c) * TWO64;
    assert (a * TWO32) * d == (a * d) * TWO32;
    assert b * (c * TWO32) == (b * c) * TWO32;
  }

  function Xor32(a: u32, b: u32): u32 {
    Pow2Values();
    XorBound(a, b, 32);
    Xor(a, b)
  }

  function Xor64(a: u64, b: u64): u64 {
    Pow2Values();
    XorBound(a, b, 64);
    Xor(a, b)
  }

  function Shr64(a: u64, k: nat): u64 { Shr(a, k) }
  function Shr32(a: u32, k: nat): u32 { Shr(a, k) }

  // The two halves of a rotation occupy different bits, so their sum is their
  // bitwise or and the outer reduction never takes anything away.
  function Rotl64(a: u64, k: nat): u64
    requires k <= 64
  {
    (a * Pow2(k) % TWO64 + Shr(a, 64 - k)) % TWO64
  }

  function Rotl32(a: u32, k: nat): u32
    requires k <= 32
  {
    (a * Pow2(k) % TWO32 + Shr(a, 32 - k)) % TWO32
  }

  // -------------------------------------------------- little-endian accesses

  function ReadLE(s: seq<byte>): nat
  {
    if s == [] then 0 else s[0] + 0x100 * ReadLE(s[1..])
  }

  function WriteLE(v: nat, n: nat): (s: seq<byte>)
    ensures |s| == n
  {
    if n == 0 then [] else [v % 0x100] + WriteLE(v / 0x100, n - 1)
  }

  function Pow256(k: nat): (p: nat)
    ensures p > 0
  {
    if k == 0 then 1 else 0x100 * Pow256(k - 1)
  }

  lemma ReadEmpty()
    ensures ReadLE([]) == 0
  {
  }

  lemma {:induction false} ReadBound(s: seq<byte>)
    ensures ReadLE(s) < Pow256(|s|)
  {
    if s != [] {
      ReadBound(s[1..]);
    }
  }

  lemma {:induction false} WriteThenRead(v: nat, n: nat)
    requires v < Pow256(n)
    ensures ReadLE(WriteLE(v, n)) == v
  {
    if n != 0 {
      WriteThenRead(v / 0x100, n - 1);
      assert WriteLE(v, n)[1..] == WriteLE(v / 0x100, n - 1);
    }
  }

  lemma {:induction false} ReadThenWrite(s: seq<byte>)
    ensures WriteLE(ReadLE(s), |s|) == s
  {
    if s != [] {
      ReadThenWrite(s[1..]);
      var rest := ReadLE(s[1..]);
      var v := s[0] + 0x100 * rest;
      assert v % 0x100 == s[0] && v / 0x100 == rest;
      assert s == [s[0]] + s[1..];
    }
  }

  lemma Pow256Values()
    ensures Pow256(4) == TWO32
    ensures Pow256(8) == TWO64
  {
    assert Pow256(2) == 0x1_0000;
    assert Pow256(4) == 0x1_0000_0000;
    assert Pow256(6) == 0x1_0000_0000_0000;
  }

  function Read32(s: seq<byte>, at: nat): u32
    requires at + 4 <= |s|
  {
    Pow256Values();
    ReadBound(s[at..at + 4]);
    ReadLE(s[at..at + 4])
  }

  function Read64(s: seq<byte>, at: nat): u64
    requires at + 8 <= |s|
  {
    Pow256Values();
    ReadBound(s[at..at + 8]);
    ReadLE(s[at..at + 8])
  }

  lemma SliceOfSlice<T>(s: seq<T>, lo: nat, hi: nat, i: nat, j: nat)
    requires lo <= hi <= |s| && i <= j <= hi - lo
    ensures s[lo..hi][i..j] == s[lo + i..lo + j]
  {
    var l, r := s[lo..hi][i..j], s[lo + i..lo + j];
    assert |l| == |r|;
    assert forall k :: 0 <= k < |l| ==> l[k] == r[k];
  }

  lemma SliceOfFirst<T>(a: seq<T>, b: seq<T>, i: nat, j: nat)
    requires i <= j <= |a|
    ensures (a + b)[i..j] == a[i..j]
  {
  }

  lemma SliceOfSecond<T>(a: seq<T>, b: seq<T>, i: nat, j: nat)
    requires i <= j <= |b|
    ensures (a + b)[|a| + i..|a| + j] == b[i..j]
  {
  }

  /** Bytes in the opposite order: what a byte swap does to a word. */
  function Reversed(s: seq<byte>): (r: seq<byte>)
    ensures |r| == |s|
  {
    if s == [] then [] else Reversed(s[1..]) + [s[0]]
  }

  lemma {:induction false} ReversedSnoc(s: seq<byte>, b: byte)
    ensures Reversed(s + [b]) == [b] + Reversed(s)
  {
    if s != [] {
      ReversedSnoc(s[1..], b);
      assert (s + [b])[1..] == s[1..] + [b];
    } else {
      assert [b][1..] == [];
    }
  }

  lemma {:induction false} ReversedTwice(s: seq<byte>)
    ensures Reversed(Reversed(s)) == s
  {
    if s != [] {
      ReversedTwice(s[1..]);
      ReversedSnoc(Reversed(s[1..]), s[0]);
      assert s == [s[0]] + s[1..];
    }
  }

  // ------------------------------------------------------------- whole inputs

  /** The chunks of an input, put together again. */
  function Flatten(chunks: seq<seq<byte>>): seq<byte> {
    if chunks == [] then [] else chunks[0] + Flatten(chunks[1..])
  }

  // ------------------------------------------------------------------ memcpy

  /** `dst` with `src` laid over it from position `at` on. */
  function Overlay<T>(dst: seq<T>, at: nat, src: seq<T>): (r: seq<T>)
    requires at + |src| <= |dst|
    ensures |r| == |dst|
  {
    dst[..at] + src + dst[at + |src|..]
  }

  lemma OverlayAt<T>(dst: seq<T>, at: nat, src: seq<T>, i: nat)
    requires at + |src| <= |dst| && i < |dst|
    ensures Overlay(dst, at, src)[i] == if at <= i < at + |src| then src[i - at] else dst[i]
  {
  }

  lemma OverlayReads<T>(dst: seq<T>, at: nat, src: seq<T>)
    requires at + |src| <= |dst|
    ensures Overlay(dst, at, src)[at..at + |src|] == src
  {
  }

  lemma OverlayItems<T>(dst: seq<T>, at: nat, src: seq<T>)
    requires at + |src| <= |dst|
    ensures forall i {:trigger Overlay(dst, at, src)[i]} :: 0 <= i < |dst| ==>
      Overlay(dst, at, src)[i] == if at <= i < at + |src| then src[i - at] else dst[i]
  {
  }

  /** Copying a region onto itself changes nothing. */
  lemma OverlaySelf<T>(s: seq<T>, at: nat, n: nat)
    requires at + n <= |s|
    ensures Overlay(s, at, s[at..at + n]) == s
  {
  }

  /** memcpy of a value into part of an array. */
  method CopyInto<T>(dst: array<T>, at: nat, src: seq<T>)
    requires at + |src| <= dst.Length
    modifies dst
    ensures dst[..] == Overlay(old(dst[..]), at, src)
  {
    var i := 0;
    while i < |src|
      invariant 0 <= i <= |src|
      invariant forall k :: 0 <= k < dst.Length ==>
        dst[k] == if at <= k < at + i then src[k - at] else old(dst[k])
    {
      dst[at + i] := src[i];
      i := i + 1;
    }
  }
}

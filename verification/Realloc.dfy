/** Buffers that grow exponentially. */
module Realloc {
  import opened Words
  import opened Bits

  const INITIAL_GROWTH_SIZE := 64
  /** The header in front of the contents. */
  const OFFSET := 8

  // ------------------------------------------------------------- next_pow2

  function Or(a: nat, b: nat): (r: nat)
    decreases a + b
  {
    if a == 0 && b == 0 then 0 else (if a % 2 == 1 || b % 2 == 1 then 1 else 0) + 2 * Or(a / 2, b / 2)
  }

  function Smear(x: nat): nat {
    var x1 := Or(x, Shr(x, 1));
    var x2 := Or(x1, Shr(x1, 2));
    var x4 := Or(x2, Shr(x2, 4));
    var x8 := Or(x4, Shr(x4, 8));
    Or(x8, Shr(x8, 16))
  }

  /** next_pow2 of a size_t: zero becomes all ones, and all ones wrap. */
  function NextPow2(x: u64): u64
  {
    (Smear(if x == 0 then TWO64 - 1 else x - 1) + 1) % TWO64
  }

  lemma OrHalves(a: nat, b: nat)
    ensures Or(a, b) / 2 == Or(a / 2, b / 2)
    ensures Or(a, b) % 2 == 1 <==> a % 2 == 1 || b % 2 == 1
  {
  }

  lemma BitStep(a: nat, i: nat)
    ensures Bit(a, i) == if i == 0 then a % 2 == 1 else Bit(a / 2, i - 1)
  {
  }

  lemma {:induction false} BitOfOr(a: nat, b: nat, i: nat)
    ensures Bit(Or(a, b), i) <==> Bit(a, i) || Bit(b, i)
    decreases i
  {
    hide Or, Bit;
    OrHalves(a, b);
    BitStep(Or(a, b), i);
    BitStep(a, i);
    BitStep(b, i);
    if i > 0 {
      BitOfOr(a / 2, b / 2, i - 1);
    }
  }

  lemma {:induction false} BitOfShr(a: nat, k: nat, i: nat)
    ensures Bit(Shr(a, k), i) <==> Bit(a, i + k)
    decreases k
  {
    if k > 0 {
      BitOfShr(a / 2, k - 1, i);
    }
  }

  lemma {:induction false} BitOfOnes(n: nat, i: nat)
    ensures Bit(Pow2(n) - 1, i) <==> i < n
    decreases i
  {
    if n == 0 {
      BitOfZero(i);
    } else if i > 0 {
      assert (Pow2(n) - 1) / 2 == Pow2(n - 1) - 1;
      BitOfOnes(n - 1, i - 1);
    }
  }

  lemma {:induction false} HighBitsClear(a: nat, n: nat, i: nat)
    requires a < Pow2(n) && i >= n
    ensures !Bit(a, i)
    decreases i
  {
    if n == 0 {
      BitOfZero(i);
    } else {
      HighBitsClear(a / 2, n - 1, i - 1);
    }
  }

  lemma {:induction false} TopBitSet(a: nat, n: nat)
    requires n > 0 && Pow2(n - 1) <= a < Pow2(n)
    ensures Bit(a, n - 1)
    decreases n
  {
    if n > 1 {
      TopBitSet(a / 2, n - 1);
    }
  }

  /** One of the m bits from i on is set. */
  ghost predicate Near(x: nat, i: nat, m: nat) {
    exists j: nat :: i <= j < i + m && Bit(x, j)
  }

  ghost predicate Smeared(x: nat, y: nat, m: nat) {
    forall i: nat :: Bit(y, i) <==> Near(x, i, m)
  }

  /** One step of the smearing doubles the reach. */
  lemma SmearStep(x: nat, y: nat, m: nat)
    requires Smeared(x, y, m)
    ensures Smeared(x, Or(y, Shr(y, m)), 2 * m)
  {
    hide Bit, Or, Shr;
    forall i: nat
      ensures Bit(Or(y, Shr(y, m)), i) <==> Near(x, i, 2 * m)
    {
      BitOfOr(y, Shr(y, m), i);
      BitOfShr(y, m, i);
      assert Bit(y, i) <==> Near(x, i, m);
      assert Bit(y, i + m) <==> Near(x, i + m, m);
    }
  }

  lemma NotSmeared(x: nat)
    ensures Smeared(x, x, 1)
  {
    hide Bit;
  }

  /** A bit is set in the end if one of the 32 bits from there on was. */
  lemma SmearBits(x: nat)
    ensures Smeared(x, Smear(x), 32)
  {
    hide Smeared, Or, Shr;
    NotSmeared(x);
    SmearStep(x, x, 1);
    var x1 := Or(x, Shr(x, 1));
    SmearStep(x, x1, 2);
    var x2 := Or(x1, Shr(x1, 2));
    SmearStep(x, x2, 4);
    var x4 := Or(x2, Shr(x2, 4));
    SmearStep(x, x4, 8);
    var x8 := Or(x4, Shr(x4, 8));
    SmearStep(x, x8, 16);
  }

  /** x - 1 has n bits. */
  ghost predicate Rounds(x: nat, n: nat) {
    1 <= x <= Pow2(n) && (n > 0 ==> Pow2(n - 1) < x)
  }

  /** No 32 bits in a row are clear below bit n. */
  ghost predicate Dense(x: nat, n: nat) {
    forall i: nat :: i < n ==> Near(x, i, 32)
  }

  /** The result is the smallest power of two that is not below the input, or
      zero where that is 2^64, exactly if no 32 bits in a row are clear below the
      highest one. */
  lemma NextPow2Exact(x: u64, n: nat)
    requires Rounds(x, n)
    ensures NextPow2(x) == Pow2(n) % TWO64 <==> Dense(x - 1, n)
  {
    hide Smear, Bit, Near, Pow2;
    var y := Smear(x - 1);
    SmearBits(x - 1);
    AtMost64(x, n);
    forall i: nat
      ensures i >= n ==> !Bit(y, i)
      ensures Bit(Pow2(n) - 1, i) <==> i < n
      ensures Bit(y, i) <==> Near(x - 1, i, 32)
    {
      BitOfOnes(n, i);
      if i >= n {
        NoneAbove(x - 1, n, i);
      }
    }
    FewBits(y, n);
    if Dense(x - 1, n) {
      SameBits(y, Pow2(n) - 1);
    } else if y == Pow2(n) - 1 {
      assert false;
    }
    SumWraps(y, Pow2(n));
  }

  lemma SumWraps(y: nat, p: nat)
    requires y < p <= TWO64
    ensures (y + 1) % TWO64 == p % TWO64 <==> y == p - 1
  {
  }

  lemma AtMost64(x: u64, n: nat)
    requires Rounds(x, n)
    ensures n <= 64 && Pow2(n) <= TWO64
  {
    Pow2Values();
    if n > 64 {
      Pow2Grows(64, n - 1);
      assert false;
    }
    Pow2Grows(n, 64);
  }

  /** Zero is the one input without bits to round; it becomes zero. */
  lemma NextPow2OfZero()
    ensures NextPow2(0) == 0
  {
    hide Smear;
    SmearAbove(TWO64 - 1);
    SmearFits(TWO64 - 1);
  }

  /** An input that is not rounded to a power of two: the next one is 2^33, which
      is even, and the result is odd. */
  lemma NextPow2Fails()
    ensures NextPow2(TWO32 + 1) % 2 == 1 && NextPow2(TWO32 + 1) > 1
    ensures Rounds(TWO32 + 1, 33) && NextPow2(TWO32 + 1) != Pow2(33)
  {
    hide Smear, Bit, Near, Pow2;
    SmearAbove(TWO32);
    SmearFits(TWO32);
    SmearEven();
    Power33();
  }

  lemma Power33()
    ensures Rounds(TWO32 + 1, 33) && Pow2(33) % 2 == 0
  {
    Pow2Values();
    assert Pow2(33) == 2 * Pow2(32);
  }

  lemma SmearEven()
    ensures Smear(TWO32) % 2 == 0
  {
    hide Smear, Bit, Near;
    SmearBits(TWO32);
    LowBitsClear();
    assert Bit(Smear(TWO32), 0) <==> Near(TWO32, 0, 32);
    BitStep(Smear(TWO32), 0);
  }

  lemma LowBitsClear()
    ensures !Near(TWO32, 0, 32)
  {
    forall j: nat | j < 32
      ensures !Bit(TWO32, j)
    {
      PowerBit(32, j);
      Pow2Values();
    }
  }

  lemma {:induction false} PowerBit(n: nat, j: nat)
    requires j < n
    ensures !Bit(Pow2(n), j)
    decreases n
  {
    BitStep(Pow2(n), j);
    if j > 0 {
      assert Pow2(n) / 2 == Pow2(n - 1);
      PowerBit(n - 1, j - 1);
    }
  }

  lemma {:induction false} FewBits(y: nat, n: nat)
    requires forall i: nat :: i >= n ==> !Bit(y, i)
    ensures y < Pow2(n)
    decreases n
  {
    if n == 0 {
      forall i: nat
        ensures Bit(y, i) <==> Bit(0, i)
      {
        BitOfZero(i);
      }
      SameBits(y, 0);
    } else {
      forall i: nat | i >= n - 1
        ensures !Bit(y / 2, i)
      {
        assert !Bit(y, i + 1);
      }
      FewBits(y / 2, n - 1);
    }
  }

  lemma NoneAbove(x: nat, n: nat, i: nat)
    requires x < Pow2(n) && i >= n
    ensures !Near(x, i, 32)
  {
    hide Bit;
    forall j: nat | j >= n
      ensures !Bit(x, j)
    {
      HighBitsClear(x, n, j);
    }
  }

  /** Inputs up to 2^32 are always rounded up to a power of two. */
  lemma NextPow2Small(x: u64, n: nat)
    requires Rounds(x, n) && x <= TWO32
    ensures NextPow2(x) == Pow2(n) && n <= 32
  {
    Pow2Values();
    if n > 32 {
      Pow2Grows(32, n - 1);
      assert false;
    }
    hide Bit, Pow2, NextPow2;
    TopIsNear(x, n);
    NextPow2Exact(x, n);
    SmallPower(n);
  }

  lemma SmallPower(n: nat)
    requires n <= 32
    ensures Pow2(n) % TWO64 == Pow2(n)
  {
    hide Pow2;
    Pow2Values();
    Pow2Grows(n, 32);
    NotWrapped(Pow2(n));
  }

  lemma NotWrapped(x: nat)
    requires x <= TWO32
    ensures x % TWO64 == x
  {
  }

  lemma TopIsNear(x: nat, n: nat)
    requires Rounds(x, n) && n <= 32
    ensures Dense(x - 1, n)
  {
    if n > 0 {
      TopBitSet(x - 1, n);
    }
    hide Bit;
  }

  /** The number of bits of x - 1. */
  lemma {:induction false} SomePower(x: nat) returns (n: nat)
    requires x >= 1
    ensures Rounds(x, n)
    decreases x
  {
    if x == 1 {
      n := 0;
    } else {
      var m := SomePower((x + 1) / 2);
      n := m + 1;
    }
  }

  // ------------------------------------------------------------- the buffers

  ghost predicate IsPowerOf2(x: nat) {
    exists n :: 0 <= n <= 32 && x == Pow2(n)
  }

  /** A power of two above another one is at least twice as large. */
  lemma NextPower(a: nat, b: nat)
    requires IsPowerOf2(a) && IsPowerOf2(b) && a < b
    ensures 2 * a <= b
  {
    var m :| 0 <= m <= 32 && a == Pow2(m);
    var n :| 0 <= n <= 32 && b == Pow2(n);
    if m >= n {
      Pow2Grows(n, m);
      assert false;
    }
    Pow2Grows(m, n);
  }

  class Buffer {
    var contents: array?<byte>
    var completeSize: nat
    /** The bytes all reallocations so far have carried over. */
    ghost var carried: nat

    ghost predicate Valid()
      reads this
    {
      if contents == null then completeSize == 0 && carried == 0
      else
        && contents.Length + OFFSET == completeSize
        && INITIAL_GROWTH_SIZE <= completeSize
        && (completeSize <= TWO32 ==> IsPowerOf2(completeSize) && carried < completeSize)
    }

    ghost function Bytes(): (s: seq<byte>)
      reads this, contents
    {
      if contents == null then [] else contents[..]
    }

    constructor ()
      ensures Valid() && contents == null
    {
      contents, completeSize, carried := null, 0, 0;
    }

    /** afl_realloc.  `memory` tells whether the allocator has some.  The new size
        is 64 or less than twice what is needed; up to 4 GiB it is a power of
        two, and every reallocation at least doubles the size, so that all bytes
        ever carried over are fewer than the buffer has. */
    method Realloc(sizeNeeded: nat, memory: bool) returns (ok: bool)
      requires Valid() && sizeNeeded + OFFSET < TWO64
      modifies this
      ensures Valid()
      ensures old(contents) != null && |old(Bytes())| >= sizeNeeded ==> ok && contents == old(contents)
      ensures !(old(contents) != null && |old(Bytes())| >= sizeNeeded) ==>
        && ok == memory && carried == (if ok then old(carried) + old(completeSize) else 0)
        && (ok ==> contents != null && fresh(contents))
        && (ok && completeSize <= TWO32 ==> 2 * old(completeSize) <= completeSize)
        && (ok ==> Suffices(completeSize, sizeNeeded + 8))
      ensures ok <==> contents != null
      ensures ok ==> |Bytes()| >= sizeNeeded && |Bytes()| >= |old(Bytes())|
      ensures ok ==> Bytes() == old(Bytes()) + ZeroBytes(|Bytes()| - |old(Bytes())|)
    {
      var current := completeSize;
      var needed := sizeNeeded + OFFSET;
      if current >= needed {
        return true;
      }
      var next;
      if needed < INITIAL_GROWTH_SIZE {
        next := INITIAL_GROWTH_SIZE;
      } else {
        next := NextPow2(needed);
        if next == 0 {
          next := needed;
        }
      }
      Grown(current, needed, next);
      if !memory {
        contents, completeSize, carried := null, 0, 0;
        return false;
      }
      ghost var was := Bytes();
      var newer := Resize(contents, next - OFFSET);
      carried := carried + current;
      contents, completeSize := newer, next;
      ok := true;
    }
  }

  function ZeroBytes(n: nat): (s: seq<byte>)
    ensures |s| == n
  {
    seq(n, _ => 0)
  }

  /** A size that is enough, and not twice too large unless it is the initial
      one; a power of two for all that fits one up to 2^32. */
  ghost predicate Suffices(size: nat, needed: nat) {
    && needed <= size && INITIAL_GROWTH_SIZE <= size
    && (size == INITIAL_GROWTH_SIZE || size < 2 * needed)
    && (needed <= TWO32 ==> IsPowerOf2(size))
  }

  /** Of the powers of two that are enough and not below the initial size, it is
      the smallest. */
  lemma SufficesLeast(size: nat, needed: nat, other: nat)
    requires Suffices(size, needed) && needed <= TWO32
    requires IsPowerOf2(other) && needed <= other && INITIAL_GROWTH_SIZE <= other
    ensures size <= other
  {
    if other < size {
      NextPower(other, size);
      assert false;
    }
  }

  /** The next size is enough; and up to 2^32 it is a power of two and at least
      twice the current one. */
  lemma Grown(current: nat, needed: nat, next: nat)
    requires OFFSET <= needed < TWO64 && current < needed
    requires 0 < current <= TWO32 ==> IsPowerOf2(current)
    requires next == (if needed < INITIAL_GROWTH_SIZE then INITIAL_GROWTH_SIZE
                      else if NextPow2(needed) == 0 then needed else NextPow2(needed))
    ensures Suffices(next, needed)
    ensures next <= TWO32 ==> IsPowerOf2(next) && 2 * current <= next
  {
    hide Smear, NextPow2, Pow2, IsPowerOf2, Rounds;
    InitialSize();
    if needed >= INITIAL_GROWTH_SIZE {
      NextPow2Above(needed);
      NextPow2Below(needed);
      if needed <= TWO32 {
        RoundsToPower(needed);
      }
    }
    if 0 < current && next <= TWO32 {
      NextPower(current, next);
    }
  }

  lemma InitialSize()
    ensures IsPowerOf2(INITIAL_GROWTH_SIZE)
  {
    assert Pow2(6) == 64;
  }

  lemma RoundsToPower(x: u64)
    requires 1 <= x <= TWO32
    ensures IsPowerOf2(NextPow2(x)) && NextPow2(x) > 0
  {
    hide NextPow2;
    var n := SomePower(x);
    NextPow2Small(x, n);
  }

  lemma {:induction false} OrAbove(a: nat, b: nat)
    ensures Or(a, b) >= a
    decreases a + b
  {
    if a != 0 || b != 0 {
      OrAbove(a / 2, b / 2);
    }
  }

  /** Rounding wraps to zero or rounds up, for any input. */
  lemma NextPow2Above(x: u64)
    requires x >= 1
    ensures NextPow2(x) == 0 || NextPow2(x) >= x
  {
    hide Smear;
    SmearAbove(x - 1);
    SmearFits(x - 1);
  }

  /** Rounding never doubles. */
  lemma NextPow2Below(x: u64)
    requires x >= 1
    ensures NextPow2(x) < 2 * x
  {
    hide Smear, Bit, Near, Pow2;
    var n := SomePower(x);
    var y := Smear(x - 1);
    SmearBits(x - 1);
    forall i: nat | i >= n
      ensures !Bit(y, i)
    {
      NoneAbove(x - 1, n, i);
      assert Bit(y, i) <==> Near(x - 1, i, 32);
    }
    FewBits(y, n);
    PowerBelow(x, n);
    SumAtMost(y, Pow2(n));
  }

  lemma PowerBelow(x: nat, n: nat)
    requires Rounds(x, n)
    ensures Pow2(n) < 2 * x
  {
  }

  lemma SumAtMost(y: nat, p: nat)
    requires y < p
    ensures (y + 1) % TWO64 <= p
  {
    if y + 1 < TWO64 {
      assert (y + 1) % TWO64 == y + 1;
    }
  }

  lemma SmearFits(x: u64)
    ensures Smear(x) < TWO64
  {
    hide Smear, Bit, Pow2, Near;
    var y := Smear(x);
    SmearBits(x);
    Pow2Values();
    forall i: nat | i >= 64
      ensures !Bit(y, i)
    {
      NoneAbove(x, 64, i);
    }
    FewBits(y, 64);
  }

  lemma SmearAbove(x: nat)
    ensures Smear(x) >= x
  {
    hide Or, Shr;
    var x1 := Or(x, Shr(x, 1));
    var x2 := Or(x1, Shr(x1, 2));
    var x4 := Or(x2, Shr(x2, 4));
    var x8 := Or(x4, Shr(x4, 8));
    OrAbove(x, Shr(x, 1));
    OrAbove(x1, Shr(x1, 2));
    OrAbove(x2, Shr(x2, 4));
    OrAbove(x4, Shr(x4, 8));
    OrAbove(x8, Shr(x8, 16));
  }

  /** realloc to a larger size, and memset over what is new. */
  method Resize(former: array?<byte>, size: nat) returns (r: array<byte>)
    requires former == null || former.Length <= size
    ensures fresh(r) && r.Length == size
    ensures r[..] == if former == null then ZeroBytes(size) else former[..] + ZeroBytes(size - former.Length)
  {
    r := new byte[size](_ => 0);
    if former != null {
      CopyInto(r, 0, former[..]);
    }
  }
}

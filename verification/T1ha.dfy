/** The portable parts of t1ha: additions with carry, the 64 by 64 bit product
    built from four smaller ones, the product modulo 2^128, and the different
    ways to read the last bytes of a key. */
module T1ha {
  import opened Words
  import opened Bits

  // ---------------------------------------------------------------- products

  /** The sum modulo 2^64, and the carry found by comparing. */
  datatype Sum = Sum(sum: u64, carry: bool)

  function Add64CarryFirst(base: u64, addend: u64): Sum {
    var sum := Add64(base, addend);
    Sum(sum, sum < addend)
  }

  function Carry(c: bool): nat { if c then 1 else 0 }

  function Add64CarryNext(carry: bool, base: u64, addend: u64): Sum {
    var sum := Add64(Add64(base, addend), Carry(carry));
    Sum(sum, sum < addend || (carry && sum == addend))
  }

  function Add64CarryLast(carry: bool, base: u64, addend: u64): u64 {
    Add64(Add64(base, addend), Carry(carry))
  }

  /** The comparison finds the carry. */
  lemma CarryFirstExact(base: u64, addend: u64)
    ensures var r := Add64CarryFirst(base, addend);
            r.sum + Carry(r.carry) * TWO64 == base + addend
  {
  }

  lemma CarryNextExact(carry: bool, base: u64, addend: u64)
    ensures var r := Add64CarryNext(carry, base, addend);
            r.sum + Carry(r.carry) * TWO64 == base + addend + Carry(carry)
  {
  }

  function Mul32x32(a: u32, b: u32): u64 {
    ProductBound(a, b);
    a * b
  }

  lemma ProductBound(a: u32, b: u32)
    ensures 0 <= a * b <= (TWO32 - 1) * (TWO32 - 1)
  {
    ProductAtMost(a, b, TWO32 - 1, TWO32 - 1);
  }

  /** x << 32 */
  function Up32(x: u64): u64 { Lo32(x) * TWO32 }

  datatype Wide = Wide(l: u64, h: u64)

  function Mul64x64(a: u64, b: u64): Wide {
    var ll := Mul32x32(Lo32(a), Lo32(b));
    var lh := Mul32x32(Hi32(a), Lo32(b));
    var hl := Mul32x32(Lo32(a), Hi32(b));
    var hh := Mul32x32(Hi32(a), Hi32(b));
    var s1 := Add64CarryFirst(ll, Up32(lh));
    var h1 := Add64CarryLast(s1.carry, hh, Hi32(lh));
    var s2 := Add64CarryFirst(s1.sum, Up32(hl));
    var h2 := Add64CarryLast(s2.carry, h1, Hi32(hl));
    Wide(s2.sum, h2)
  }

  /** The two result words are the exact product. */
  lemma Mul64x64Exact(a: u64, b: u64)
    ensures Mul64x64(a, b).h * TWO64 + Mul64x64(a, b).l == a * b
  {
    var ll := Mul32x32(Lo32(a), Lo32(b));
    var lh := Mul32x32(Hi32(a), Lo32(b));
    var hl := Mul32x32(Lo32(a), Hi32(b));
    var hh := Mul32x32(Hi32(a), Hi32(b));
    Halves(a);
    Halves(b);
    SchoolbookProduct(a, b, Hi32(a), Lo32(a), Hi32(b), Lo32(b));
    Halves(lh);
    Halves(hl);
    CarryFirstExact(ll, Up32(lh));
    var s1 := Add64CarryFirst(ll, Up32(lh));
    CarryFirstExact(s1.sum, Up32(hl));
    ProductBelow(a, b);
    var s2 := Add64CarryFirst(s1.sum, Up32(hl));
    hide Mul32x32, Lo32, Hi32, Add64CarryFirst;
    HighWord(hh, Hi32(lh), Hi32(hl), s1.carry, s2.carry, s2.sum, a * b);
  }

  /** The high word never wraps, since the product is below 2^128. */
  lemma HighWord(hh: u64, p: u64, q: u64, c1: bool, c2: bool, l: u64, product: int)
    requires (hh + p + q + Carry(c1) + Carry(c2)) * TWO64 + l == product < TWO64 * TWO64
    ensures Add64CarryLast(c2, Add64CarryLast(c1, hh, p), q) * TWO64 + l == product
  {
    assert hh + p + q + Carry(c1) + Carry(c2) < TWO64;
  }

  lemma ProductBelow(a: u64, b: u64)
    ensures 0 <= a * b < TWO64 * TWO64
  {
    ProductAtMost(a, b, TWO64 - 1, TWO64 - 1);
  }

  lemma ProductAtMost(a: nat, b: nat, m: nat, n: nat)
    requires a <= m && b <= n
    ensures 0 <= a * b <= m * n
  {
    assert m * n == a * b + (m - a) * n + a * (n - b);
    assert (m - a) * n >= 0 && a * (n - b) >= 0;
  }

  /** The product modulo 2^128 of two words of 128 bits. */
  function Mul128(x: Wide, y: Wide): Wide {
    var r := Mul64x64(x.l, y.l);
    Wide(r.l, Add64(r.h, Add64(Mul64(x.l, y.h), Mul64(y.l, x.h))))
  }

  function Value128(x: Wide): nat { x.h * TWO64 + x.l }

  lemma Mul128Exact(x: Wide, y: Wide)
    ensures Value128(Mul128(x, y)) == Value128(x) * Value128(y) % (TWO64 * TWO64)
  {
    hide Mul64x64, Mul128, Mul64, Add64;
    var r := Mul64x64(x.l, y.l);
    Mul64x64Exact(x.l, y.l);
    Mul128Words(x, y);
    WideProduct(x.h, x.l, y.h, y.l, r.h, r.l);
    LowPart(x.h * y.h, r.h + x.l * y.h + y.l * x.h, r.l);
  }

  lemma Mul128Words(x: Wide, y: Wide)
    ensures var r := Mul64x64(x.l, y.l);
            Mul128(x, y) == Wide(r.l, (r.h + x.l * y.h + y.l * x.h) % TWO64)
  {
    hide Mul64x64, Add64;
    HighSum(Mul64x64(x.l, y.l).h, x.l * y.h, y.l * x.h);
  }

  lemma WideProduct(a: int, b: int, c: int, d: int, h: int, l: int)
    requires h * TWO64 + l == b * d
    ensures (a * TWO64 + b) * (c * TWO64 + d) == (a * c) * (TWO64 * TWO64) + (h + b * c + d * a) * TWO64 + l
  {
    SchoolbookWide(a, b, c, d);
  }

  lemma SchoolbookWide(a: int, b: int, c: int, d: int)
    ensures (a * TWO64 + b) * (c * TWO64 + d) == (a * c) * (TWO64 * TWO64) + (a * d + b * c) * TWO64 + b * d
  {
    assert (a * TWO64 + b) * (c * TWO64 + d)
        == (a * TWO64) * (c * TWO64) + (a * TWO64) * d + b * (c * TWO64) + b * d;
    assert (a * TWO64) * (c * TWO64) == (a * c) * (TWO64 * TWO64);
    assert (a * TWO64) * d == (a * d) * TWO64;
    assert b * (c * TWO64) == (b * c) * TWO64;
  }

  lemma HighSum(h: u64, m: nat, n: nat)
    ensures Add64(h, Add64(m % TWO64, n % TWO64)) == (h + m + n) % TWO64
  {
    WrappedSum(h, m, n);
  }

  function Wrapped(x: nat): u64 { x % TWO64 }

  lemma WrappedSum(h: nat, m: nat, n: nat)
    ensures Wrapped(h + Wrapped(Wrapped(m) + Wrapped(n))) == Wrapped(h + m + n)
  {
    hide Wrapped;
    WrappedOnce(Wrapped(m), n);
    WrappedOnce(n, m);
    WrappedOnce(h, m + n);
  }

  lemma WrappedOnce(x: nat, y: nat)
    ensures Wrapped(x + Wrapped(y)) == Wrapped(x + y)
  {
  }

  lemma LowPart(q: nat, total: nat, l: u64)
    ensures (q * (TWO64 * TWO64) + total * TWO64 + l) % (TWO64 * TWO64) == (total % TWO64) * TWO64 + l
  {
    var k := total / TWO64;
    assert total * TWO64 == k * (TWO64 * TWO64) + (total % TWO64) * TWO64;
  }

  // ---------------------------------------------------- the end of the input

  /** How many bytes are left for a tail: one to eight. */
  function TailBytes(tail: nat): nat { if tail % 8 == 0 then 8 else tail % 8 }

  /** What every form of tail64_le must return. */
  function TailValue(mem: seq<byte>, p: nat, tail: nat): nat
    requires p + TailBytes(tail) <= |mem|
  {
    ReadLE(mem[p..p + TailBytes(tail)])
  }

  /** Eight bytes at once, and a mask over those that do not belong. */
  function TailMasked(mem: seq<byte>, p: nat, tail: nat): nat
    requires p + 8 <= |mem|
  {
    var shift := 8 * ((8 - tail) % 8);
    And(ReadLE(mem[p..p + 8]), Shr(TWO64 - 1, shift))
  }

  /** Eight bytes at once that end with the last one, shifted down. */
  function TailUnderside(mem: seq<byte>, p: nat, tail: nat): nat
    requires (8 - tail) % 8 <= p && p + TailBytes(tail) <= |mem|
  {
    var offset := (8 - tail) % 8;
    Shr(ReadLE(mem[p - offset..p - offset + 8]), 8 * offset)
  }

  /** From the last byte down, one at a time. */
  function TailBytewise(mem: seq<byte>, p: nat, n: nat): nat
    requires p + n <= |mem|
    decreases n
  {
    if n == 0 then 0 else mem[p] + 0x100 * TailBytewise(mem, p + 1, n - 1)
  }

  /** Words of two and four bytes where they fit. */
  function TailByWords(mem: seq<byte>, p: nat, tail: nat): nat
    requires p + TailBytes(tail) <= |mem|
  {
    match tail % 8
    case 0 => ReadLE(mem[p..p + 8])
    case 7 => ((mem[p + 6] * 0x100 + mem[p + 5]) * 0x100 + mem[p + 4]) * TWO32 + ReadLE(mem[p..p + 4])
    case 6 => (mem[p + 5] * 0x100 + mem[p + 4]) * TWO32 + ReadLE(mem[p..p + 4])
    case 5 => mem[p + 4] * TWO32 + ReadLE(mem[p..p + 4])
    case 4 => ReadLE(mem[p..p + 4])
    case 3 => mem[p + 2] * 0x1_0000 + ReadLE(mem[p..p + 2])
    case 2 => ReadLE(mem[p..p + 2])
    case _ => mem[p]
  }

  lemma {:induction false} ReadJoined(s: seq<byte>, t: seq<byte>)
    ensures ReadLE(s + t) == ReadLE(s) + Pow256(|s|) * ReadLE(t)
  {
    hide *;
    if s == [] {
      assert s + t == t;
      ReadNothing(s, ReadLE(t));
    } else {
      assert (s + t)[1..] == s[1..] + t;
      ReadJoined(s[1..], t);
      ReadFirst(s);
      ReadFirst(s + t);
      Pow256Next(|s| - 1);
      LowByteFirst(s[0], ReadLE(s[1..]), Pow256(|s| - 1), ReadLE(t));
    }
  }

  lemma ReadNothing(s: seq<byte>, x: nat)
    requires s == []
    ensures ReadLE(s) == 0 && Pow256(|s|) * x == x
  {
  }

  lemma ReadFirst(s: seq<byte>)
    requires s != []
    ensures ReadLE(s) == s[0] + 0x100 * ReadLE(s[1..])
  {
  }

  lemma Pow256Next(n: nat)
    ensures Pow256(n + 1) == 0x100 * Pow256(n)
  {
  }

  lemma LowByteFirst(low: nat, rest: nat, p: nat, x: nat)
    ensures low + 0x100 * (rest + p * x) == low + 0x100 * rest + 0x100 * p * x
  {
  }

  lemma {:induction false} BytewiseReads(mem: seq<byte>, p: nat, n: nat)
    requires p + n <= |mem|
    ensures TailBytewise(mem, p, n) == ReadLE(mem[p..p + n])
    decreases n
  {
    if n > 0 {
      BytewiseReads(mem, p + 1, n - 1);
      assert mem[p..p + n][1..] == mem[p + 1..p + n];
    }
  }

  /** All forms agree. */
  lemma TailsAgree(mem: seq<byte>, p: nat, tail: nat)
    requires p + TailBytes(tail) <= |mem|
    ensures TailBytewise(mem, p, TailBytes(tail)) == TailValue(mem, p, tail)
    ensures TailByWords(mem, p, tail) == TailValue(mem, p, tail)
    ensures p + 8 <= |mem| ==> TailMasked(mem, p, tail) == TailValue(mem, p, tail)
    ensures (8 - tail) % 8 <= p ==> TailUnderside(mem, p, tail) == TailValue(mem, p, tail)
  {
    var n := TailBytes(tail);
    OffsetOf(tail);
    hide ReadLE, And, Shr, Pow256;
    BytewiseReads(mem, p, n);
    ByWordsRead(mem, p, tail);
    if p + 8 <= |mem| {
      MaskedReads(mem[p..p + 8], n);
      assert mem[p..p + 8][..n] == mem[p..p + n];
    }
    if 8 - n <= p {
      var q := p - (8 - n);
      ShiftedReads(mem[q..q + 8], 8 - n);
      assert mem[q..q + 8][8 - n..] == mem[p..p + n];
    }
  }

  lemma OffsetOf(tail: nat)
    ensures (8 - tail) % 8 == 8 - TailBytes(tail)
  {
  }

  lemma ByWordsRead(mem: seq<byte>, p: nat, tail: nat)
    requires p + TailBytes(tail) <= |mem|
    ensures TailByWords(mem, p, tail) == TailValue(mem, p, tail)
  {
    hide ReadLE, Pow256;
    var n := TailBytes(tail);
    var w := if n >= 4 then 4 else if n >= 2 then 2 else 0;
    assert mem[p..p + w] + mem[p + w..p + n] == mem[p..p + n];
    ReadJoined(mem[p..p + w], mem[p + w..p + n]);
    Pow256Few();
    BytewiseReads(mem, p + w, n - w);
    if n < 8 {
      FewBytes(mem, p + w, n - w);
    }
    ReadEmpty();
  }

  lemma Pow256Few()
    ensures Pow256(0) == 1 && Pow256(2) == 0x1_0000 && Pow256(4) == TWO32
  {
    Pow256Values();
  }

  lemma FewBytes(mem: seq<byte>, p: nat, n: nat)
    requires p + n <= |mem| && n < 4
    ensures n == 0 ==> TailBytewise(mem, p, n) == 0
    ensures n == 1 ==> TailBytewise(mem, p, n) == mem[p]
    ensures n == 2 ==> TailBytewise(mem, p, n) == mem[p] as nat + 0x100 * mem[p + 1] as nat
    ensures n == 3 ==> TailBytewise(mem, p, n) == mem[p] as nat + 0x100 * (mem[p + 1] as nat + 0x100 * mem[p + 2] as nat)
    decreases n
  {
    if n > 0 {
      FewBytes(mem, p + 1, n - 1);
    }
  }

  /** A mask of ones keeps the low bytes. */
  lemma MaskedReads(s: seq<byte>, n: nat)
    requires |s| == 8 && n <= 8
    ensures And(ReadLE(s), Shr(TWO64 - 1, 8 * (8 - n))) == ReadLE(s[..n])
  {
    hide And, Shr, ReadLE, Pow2, Pow256, Placed;
    Pow2Values();
    OnesShifted(64, 8 * (8 - n));
    assert s[..n] + s[n..] == s;
    ReadJoined(s[..n], s[n..]);
    ReadBound(s[..n]);
    BytePowers(n);
    PlacedBytes(ReadLE(s[n..]), n);
    AndOnes(ReadLE(s[..n]), ReadLE(s[n..]), 8 * n);
  }

  lemma {:induction false} OnesShifted(k: nat, j: nat)
    requires j <= k
    ensures Shr(Pow2(k) - 1, j) == Pow2(k - j) - 1
    decreases j
  {
    if j > 0 {
      assert (Pow2(k) - 1) / 2 == Pow2(k - 1) - 1;
      OnesShifted(k - 1, j - 1);
    }
  }

  lemma {:induction false} BytePowers(n: nat)
    ensures Pow2(8 * n) == Pow256(n)
  {
    if n > 0 {
      BytePowers(n - 1);
      EightMore(8 * n - 8);
    }
  }

  lemma EightMore(k: nat)
    ensures Pow2(k + 8) == 0x100 * Pow2(k)
  {
    assert Pow2(k + 2) == 4 * Pow2(k);
    assert Pow2(k + 4) == 4 * Pow2(k + 2);
    assert Pow2(k + 6) == 4 * Pow2(k + 4);
    assert Pow2(k + 8) == 4 * Pow2(k + 6);
  }

  lemma {:induction false} PlacedBytes(x: nat, n: nat)
    ensures Placed(x, 8 * n) == Pow256(n) * x
  {
    if n > 0 {
      PlacedBytes(x, n - 1);
      PlacedEight(x, 8 * n - 8);
      assert Pow256(n) * x == 0x100 * (Pow256(n - 1) * x);
    }
  }

  lemma PlacedEight(x: nat, k: nat)
    ensures Placed(x, k + 8) == 0x100 * Placed(x, k)
  {
    assert Placed(x, k + 2) == 4 * Placed(x, k);
    assert Placed(x, k + 4) == 4 * Placed(x, k + 2);
    assert Placed(x, k + 6) == 4 * Placed(x, k + 4);
    assert Placed(x, k + 8) == 4 * Placed(x, k + 6);
  }

  lemma AndOnes(lo: nat, hi: nat, k: nat)
    requires lo < Pow2(k)
    ensures And(lo + Placed(hi, k), Pow2(k) - 1) == lo
  {
    hide *;
    AndJoined(lo, hi, Pow2(k) - 1, 0, k);
    PlacedNothing(k);
    AndNot(lo, 0, k);
    MinusNothing(lo);
    AndNothing(hi);
  }

  lemma AndNothing(x: nat)
    ensures And(x, 0) == 0
  {
  }

  lemma {:induction false} PlacedNothing(k: nat)
    ensures Placed(0, k) == 0
  {
    if k > 0 {
      PlacedNothing(k - 1);
    }
  }

  lemma ShrNothing(x: nat)
    ensures Shr(x, 0) == x
  {
  }

  lemma LowByteOff(low: byte, rest: nat)
    ensures (low + 0x100 * rest) / 0x100 == rest
  {
  }

  /** Shifting a word right drops its low bytes. */
  lemma {:induction false} ShiftedReads(s: seq<byte>, n: nat)
    requires n <= |s|
    ensures Shr(ReadLE(s), 8 * n) == ReadLE(s[n..])
    decreases n
  {
    hide *;
    if n == 0 {
      assert s[0..] == s;
      ShrNothing(ReadLE(s));
    } else {
      ShiftedReads(s[1..], n - 1);
      ReadFirst(s);
      LowByteOff(s[0], ReadLE(s[1..]));
      Shr8(ReadLE(s));
      ShrComposes(ReadLE(s), 8, 8 * n - 8);
      assert s[1..][n - 1..] == s[n..];
    }
  }
}

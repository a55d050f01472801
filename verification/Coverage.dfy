/** The coverage map: traces are classified and compared with the virgin map a
    word at a time, for words of four or eight bytes. */
module Coverage {
  import opened Words
  import opened Bits

  // ------------------------------------------------------------------- tables

  /** Hit counts by class: 1, 2, 3, 4-7, 8-15, 16-31, 32-127, 128 and more. */
  function Class8(b: byte): byte {
    if b <= 2 then b
    else if b == 3 then 4
    else if b <= 7 then 8
    else if b <= 15 then 16
    else if b <= 31 then 32
    else if b <= 127 then 64
    else 128
  }

  function Simplify8(b: byte): byte { if b == 0 then 1 else 128 }

  /** Where the eight classes of hit counts start. */
  const CLASS_STARTS: seq<nat> := [1, 2, 3, 4, 8, 16, 32, 128]

  /** Class i goes up to the next one, and the last class has no upper end. */
  predicate InClass(b: byte, i: nat) {
    i < 8 && CLASS_STARTS[i] <= b && (i < 7 ==> b < CLASS_STARTS[i + 1])
  }

  /** Each class has a bit of its own. */
  lemma ClassBits(b: byte, i: nat)
    ensures Bit(Class8(b), i) <==> InClass(b, i)
  {
    hide Bit;
    BitOfZero(i);
    OneBit(0, i);
    OneBit(1, i);
    OneBit(2, i);
    OneBit(3, i);
    OneBit(4, i);
    OneBit(5, i);
    OneBit(6, i);
    OneBit(7, i);
    BytePowers();
  }

  /** A simplified byte tells whether there was a hit, by its lowest and its
      highest bit. */
  lemma SimpleBits(b: byte, i: nat)
    ensures Bit(Simplify8(b), i) <==> i == if b == 0 then 0 else 7
  {
    hide Bit;
    OneBit(0, i);
    OneBit(7, i);
    BytePowers();
  }

  lemma BytePowers()
    ensures Pow2(0) == 1 && Pow2(1) == 2 && Pow2(2) == 4 && Pow2(3) == 8
    ensures Pow2(4) == 16 && Pow2(5) == 32 && Pow2(6) == 64 && Pow2(7) == 128
  {
    assert Pow2(3) == 8;
  }

  ghost predicate IsTable16(t: seq<nat>) {
    |t| == 0x1_0000 && forall h {:trigger t[h]} :: 0 <= h < 0x1_0000 ==> t[h] == Class16(h)
  }

  function Class16(h: nat): nat
    requires h < 0x1_0000
  {
    Class8(h / 0x100) * 0x100 + Class8(h % 0x100)
  }

  method InitCountClass16() returns (t: array<nat>)
    ensures fresh(t) && IsTable16(t[..])
  {
    t := new nat[0x1_0000];
    var b1 := 0;
    while b1 < 256
      invariant 0 <= b1 <= 256
      invariant forall h {:trigger t[h]} :: 0 <= h < b1 * 0x100 ==> t[h] == Class16(h)
    {
      var b2 := 0;
      while b2 < 256
        invariant 0 <= b2 <= 256
        invariant forall h {:trigger t[h]} :: 0 <= h < b1 * 0x100 + b2 ==> t[h] == Class16(h)
      {
        t[b1 * 0x100 + b2] := Class8(b1) * 0x100 + Class8(b2);
        assert (b1 * 0x100 + b2) / 0x100 == b1 && (b1 * 0x100 + b2) % 0x100 == b2;
        b2 := b2 + 1;
      }
      b1 := b1 + 1;
    }
  }

  function MapAll(f: byte -> byte, s: seq<byte>): (r: seq<byte>)
    ensures |r| == |s| && forall k :: 0 <= k < |s| ==> r[k] == f(s[k])
  {
    seq(|s|, k requires 0 <= k < |s| => f(s[k]))
  }

  function ClassAll(s: seq<byte>): (r: seq<byte>)
    ensures |r| == |s|
  {
    MapAll(Class8, s)
  }

  /** classify_word: a table lookup for every sixteen bits. */
  function ClassifyWord(t: seq<nat>, word: nat, halves: nat): nat
    requires IsTable16(t)
  {
    if halves == 0 then 0
    else t[word % 0x1_0000] + 0x1_0000 * ClassifyWord(t, word / 0x1_0000, halves - 1)
  }

  lemma {:induction false} ClassifyWordIsBytewise(t: seq<nat>, s: seq<byte>)
    requires IsTable16(t) && |s| % 2 == 0
    ensures ClassifyWord(t, ReadLE(s), |s| / 2) == ReadLE(ClassAll(s))
  {
    hide ReadLE, Class8, Class16, ClassAll;
    if s == [] {
      assert ClassAll(s) == [];
      ReadEmpty();
    } else {
      ClassifyWordIsBytewise(t, s[2..]);
      ClassTwo(s);
      ReadTwo(s);
      ReadTwo(ClassAll(s));
      SplitWord(s[0], s[1], ReadLE(s[2..]));
      Class16Halves(s[0], s[1]);
    }
  }

  lemma ClassTwo(s: seq<byte>)
    requires |s| >= 2
    ensures ClassAll(s)[0] == Class8(s[0]) && ClassAll(s)[1] == Class8(s[1])
    ensures ClassAll(s)[2..] == ClassAll(s[2..])
  {
  }

  lemma SplitWord(a: nat, b: nat, rest: nat)
    requires a < 0x100 && b < 0x100
    ensures (a + 0x100 * b + 0x1_0000 * rest) % 0x1_0000 == a + 0x100 * b
    ensures (a + 0x100 * b + 0x1_0000 * rest) / 0x1_0000 == rest
  {
  }

  lemma Class16Halves(a: byte, b: byte)
    ensures Class16(0x100 * b + a) == Class8(a) + 0x100 * Class8(b)
  {
    assert (0x100 * b + a) / 0x100 == b && (0x100 * b + a) % 0x100 == a;
  }

  lemma ReadTwo(s: seq<byte>)
    requires |s| >= 2
    ensures ReadLE(s) == s[0] + 0x100 * s[1] + 0x1_0000 * ReadLE(s[2..])
  {
    assert s[1..][1..] == s[2..];
  }

  // ------------------------------------------------------- classifying in place

  /** The bytes of n words. */
  function Span(n: nat, width: nat): (r: nat)
    ensures n > 0 ==> r >= width
  {
    if n == 0 then 0 else width + Span(n - 1, width)
  }

  lemma SpanEnds(width: nat)
    ensures Span(0, width) == 0
  {
  }

  lemma SpanMore(n: nat, width: nat)
    requires n > 0
    ensures Span(n, width) == width + Span(n - 1, width)
  {
  }

  lemma MappedNothing(f: byte -> byte, s: seq<byte>)
    ensures MappedTo(f, s, 0) == s
  {
  }

  /** The first `at` bytes mapped, the rest as they were. */
  function MappedTo(f: byte -> byte, s: seq<byte>, at: nat): (r: seq<byte>)
    requires at <= |s|
    ensures |r| == |s|
  {
    MapAll(f, s[..at]) + s[at..]
  }

  lemma MappedMore(f: byte -> byte, s: seq<byte>, at: nat, width: nat)
    requires at + width <= |s|
    ensures MappedTo(f, s, at)[at..at + width] == s[at..at + width]
    ensures Overlay(MappedTo(f, s, at), at, MapAll(f, s[at..at + width])) == MappedTo(f, s, at + width)
  {
    var part := s[at..at + width];
    assert MapAll(f, s[..at + width]) == MapAll(f, s[..at]) + MapAll(f, part);
  }

  /** Zeros that map to zeros need no work. */
  lemma MappedZeros(f: byte -> byte, s: seq<byte>, at: nat, width: nat)
    requires at + width <= |s| && f(0) == 0 && Zeros(s[at..at + width])
    ensures MappedTo(f, s, at) == MappedTo(f, s, at + width)
  {
    var part := s[at..at + width];
    assert MapAll(f, part) == part;
    assert MapAll(f, s[..at + width]) == MapAll(f, s[..at]) + part;
    assert s[at..] == part + s[at + width..];
  }

  /** classify_counts, for n words. */
  method ClassifyCounts(t: seq<nat>, mem: array<byte>, n: nat, width: nat)
    requires IsTable16(t) && width in {4, 8} && Span(n, width) <= mem.Length
    modifies mem
    ensures mem[..] == MappedTo(Class8, old(mem[..]), Span(n, width))
  {
    hide MappedTo, Span, IsTable16;
    ghost var was := mem[..];
    var at: nat, i: nat := 0, n;
    MappedNothing(Class8, was);
    SpanEnds(width);
    while i > 0
      invariant at + Span(i, width) == Span(n, width) <= mem.Length
      invariant mem[..] == MappedTo(Class8, was, at)
    {
      SpanMore(i, width);
      i := i - 1;
      ClassifyAt(t, mem, at, width, was);
      at := at + width;
    }
  }

  method ClassifyAt(t: seq<nat>, mem: array<byte>, at: nat, width: nat, ghost was: seq<byte>)
    requires IsTable16(t) && width in {4, 8} && at + width <= mem.Length
    requires |was| == mem.Length && mem[..] == MappedTo(Class8, was, at)
    modifies mem
    ensures mem[..] == MappedTo(Class8, was, at + width)
  {
    var part := mem[at..at + width];
    MappedMore(Class8, was, at, width);
    assert part == mem[..][at..at + width];
    ZeroWord(part);
    if Zeros(part) {
      MappedZeros(Class8, was, at, width);
    }
    ClassifyWordIsBytewise(t, part);
    ReadThenWrite(ClassAll(part));
    assert ClassAll(part) == MapAll(Class8, part);
    hide *;
    var word := ReadLE(part);
    if word != 0 {
      CopyInto(mem, at, WriteLE(ClassifyWord(t, word, width / 2), width));
    }
  }

  /** simplify_trace, for n words: 1 where nothing was hit, 128 elsewhere. */
  method SimplifyTrace(mem: array<byte>, n: nat, width: nat)
    requires width in {4, 8} && Span(n, width) <= mem.Length
    modifies mem
    ensures mem[..] == MappedTo(Simplify8, old(mem[..]), Span(n, width))
  {
    hide MappedTo, Span;
    ghost var was := mem[..];
    var at: nat, i: nat := 0, n;
    MappedNothing(Simplify8, was);
    SpanEnds(width);
    while i > 0
      invariant at + Span(i, width) == Span(n, width) <= mem.Length
      invariant mem[..] == MappedTo(Simplify8, was, at)
    {
      SpanMore(i, width);
      i := i - 1;
      SimplifyAt(mem, at, width, was);
      at := at + width;
    }
  }

  method SimplifyAt(mem: array<byte>, at: nat, width: nat, ghost was: seq<byte>)
    requires width in {4, 8} && at + width <= mem.Length
    requires |was| == mem.Length && mem[..] == MappedTo(Simplify8, was, at)
    modifies mem
    ensures mem[..] == MappedTo(Simplify8, was, at + width)
  {
    var part := mem[at..at + width];
    MappedMore(Simplify8, was, at, width);
    assert part == mem[..][at..at + width];
    ZeroWord(part);
    var word := ReadLE(part);
    if word != 0 {
      CopyInto(mem, at, MapAll(Simplify8, part));
    } else {
      OnesWord(width, part);
      CopyInto(mem, at, WriteLE(if width == 8 then 0x0101_0101_0101_0101 else 0x0101_0101, width));
    }
  }

  function Ones(n: nat): nat {
    if n == 0 then 0 else 1 + 0x100 * Ones(n - 1)
  }

  lemma {:induction false} ReadOnes(s: seq<byte>)
    requires forall k :: 0 <= k < |s| ==> s[k] == 1
    ensures ReadLE(s) == Ones(|s|)
  {
    if s != [] {
      ReadOnes(s[1..]);
    }
  }

  lemma OnesWord(width: nat, part: seq<byte>)
    requires width in {4, 8} && |part| == width && Zeros(part)
    ensures WriteLE(if width == 8 then 0x0101_0101_0101_0101 else 0x0101_0101, width) == MapAll(Simplify8, part)
  {
    assert Ones(2) == 0x0101;
    assert Ones(4) == 0x0101_0101;
    assert Ones(6) == 0x0101_0101_0101;
    assert Ones(8) == 0x0101_0101_0101_0101;
    ReadOnes(MapAll(Simplify8, part));
    ReadThenWrite(MapAll(Simplify8, part));
  }

  // ---------------------------------------------------------------- discovery

  ghost predicate Overlap(cur: seq<byte>, vir: seq<byte>)
    requires |cur| == |vir|
  {
    exists k :: 0 <= k < |cur| && And(cur[k], vir[k]) != 0
  }

  ghost predicate Pristine(cur: seq<byte>, vir: seq<byte>)
    requires |cur| == |vir|
  {
    exists k :: 0 <= k < |cur| && cur[k] != 0 && vir[k] == 255
  }

  /** 2 for a byte never hit before, 1 for a hit count never seen before, and
      0 for nothing new. */
  ghost function NewBits(cur: seq<byte>, vir: seq<byte>): nat
    requires |cur| == |vir|
  {
    if Pristine(cur, vir) then 2 else if Overlap(cur, vir) then 1 else 0
  }

  function Max(a: nat, b: nat): nat { if a > b then a else b }

  lemma PristineOverlaps(cur: seq<byte>, vir: seq<byte>)
    requires |cur| == |vir| && Pristine(cur, vir)
    ensures Overlap(cur, vir)
  {
    var k :| 0 <= k < |cur| && cur[k] != 0 && vir[k] == 255;
    AndNotByte(cur[k], 0);
    MinusNothing(cur[k]);
  }

  lemma OverlapWord(cur: seq<byte>, vir: seq<byte>)
    requires |cur| == |vir|
    ensures And(ReadLE(cur), ReadLE(vir)) != 0 <==> Overlap(cur, vir)
  {
    hide And, ReadLE;
    AndWords(cur, vir);
    ZeroWord(AndAll(cur, vir));
  }

  lemma {:induction false} MinusDisjoint(a: nat, b: nat)
    requires And(a, b) == 0
    ensures Minus(b, a) == b
  {
    if b != 0 {
      if a == 0 {
        MinusNothing(b);
      } else {
        MinusDisjoint(a / 2, b / 2);
      }
    }
  }

  /** Without an overlap there is nothing new and nothing to clear. */
  lemma NoOverlap(cur: seq<byte>, vir: seq<byte>)
    requires |cur| == |vir| && !Overlap(cur, vir)
    ensures NewBits(cur, vir) == 0 && MinusAll(vir, cur) == vir
  {
    hide And, Minus;
    if Pristine(cur, vir) {
      PristineOverlaps(cur, vir);
    }
    forall k | 0 <= k < |vir|
      ensures Minus(vir[k], cur[k]) == vir[k]
    {
      MinusDisjoint(cur[k], vir[k]);
    }
  }

  /** discover_word on the words at `at`. */
  method DiscoverWord(ret: nat, current: array<byte>, virgin: array<byte>, at: nat, width: nat) returns (r: nat)
    requires current != virgin && at + width <= current.Length && at + width <= virgin.Length && ret <= 2
    modifies virgin
    ensures r == Max(ret, NewBits(current[at..at + width], old(virgin[at..at + width])))
    ensures virgin[..] == Overlay(old(virgin[..]), at, MinusAll(old(virgin[at..at + width]), current[at..at + width]))
  {
    hide And, ReadLE, WriteLE, Overlay, MinusAll, Pow256, Minus, Overlap;
    r := ret;
    var cur, vir := current[at..at + width], virgin[at..at + width];
    OverlapWord(cur, vir);
    MinusWords(vir, cur);
    if And(ReadLE(cur), ReadLE(vir)) != 0 {
      if r < 2 {
        r := if exists k :: 0 <= k < width && cur[k] != 0 && vir[k] == 255 then 2 else 1;
      }
      CopyInto(virgin, at, WriteLE(And(ReadLE(vir), Pow256(width) - 1 - ReadLE(cur)), width));
    } else {
      NoOverlap(cur, vir);
      assert vir == virgin[..][at..at + width];
      OverlaySelf(virgin[..], at, width);
    }
  }
}

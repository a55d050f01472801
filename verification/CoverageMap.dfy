/** Whole coverage maps: what is new in a trace, the quick look before it is
    classified, and what the virgin map has left after any number of runs. */
module CoverageMap {
  import opened Words
  import opened Bits
  import opened Coverage

  // ----------------------------------------------------------- map by parts

  /** The first `at` bytes without what the trace hit, the rest as they were. */
  function ClearedTo(vir: seq<byte>, cur: seq<byte>, at: nat): (r: seq<byte>)
    requires at <= |vir| && at <= |cur|
    ensures |r| == |vir|
  {
    MinusAll(vir[..at], cur[..at]) + vir[at..]
  }

  lemma ClearedMore(vir: seq<byte>, cur: seq<byte>, at: nat, width: nat)
    requires at + width <= |vir| && at + width <= |cur|
    ensures ClearedTo(vir, cur, at)[at..at + width] == vir[at..at + width]
    ensures Overlay(ClearedTo(vir, cur, at), at, MinusAll(vir[at..at + width], cur[at..at + width]))
         == ClearedTo(vir, cur, at + width)
  {
    hide Minus;
    var v, c := vir[at..at + width], cur[at..at + width];
    assert MinusAll(vir[..at + width], cur[..at + width]) == MinusAll(vir[..at], cur[..at]) + MinusAll(v, c);
  }

  lemma OverlapOfBoth(c: seq<byte>, v: seq<byte>, c': seq<byte>, v': seq<byte>)
    requires |c| == |v| && |c'| == |v'|
    ensures Overlap(c + c', v + v') <==> Overlap(c, v) || Overlap(c', v')
    ensures Pristine(c + c', v + v') <==> Pristine(c, v) || Pristine(c', v')
    ensures NewBits(c + c', v + v') == Max(NewBits(c, v), NewBits(c', v'))
  {
    hide And;
    var d, w := c + c', v + v';
    forall k | 0 <= k < |c|
      ensures d[k] == c[k] && w[k] == v[k]
    {
    }
    forall k | 0 <= k < |c'|
      ensures d[|c| + k] == c'[k] && w[|c| + k] == v'[k]
    {
    }
  }

  lemma PrefixGrows<T>(s: seq<T>, at: nat, n: nat)
    requires at + n <= |s|
    ensures s[..at + n] == s[..at] + s[at..at + n]
  {
  }

  // ------------------------------------------------------------ has_new_bits

  /** How far has_new_bits has come. */
  ghost predicate Discovered(ret: nat, now: seq<byte>, cur: seq<byte>, vir: seq<byte>, at: nat) {
    && at <= |vir| && at <= |cur|
    && ret == NewBits(cur[..at], vir[..at]) && ret <= 2
    && now == ClearedTo(vir, cur, at)
  }

  lemma DiscoveredNothing(cur: seq<byte>, vir: seq<byte>)
    ensures Discovered(0, vir, cur, vir, 0)
  {
  }

  lemma DiscoveredMore(ret: nat, now: seq<byte>, cur: seq<byte>, vir: seq<byte>, at: nat, width: nat)
    requires Discovered(ret, now, cur, vir, at) && at + width <= |vir| && at + width <= |cur|
    ensures |now| == |vir| && now[at..at + width] == vir[at..at + width]
    ensures var v, c := vir[at..at + width], cur[at..at + width];
            Discovered(Max(ret, NewBits(c, v)), Overlay(now, at, MinusAll(v, c)), cur, vir, at + width)
    ensures Zeros(cur[at..at + width]) ==> Discovered(ret, now, cur, vir, at + width)
  {
    var v, c := vir[at..at + width], cur[at..at + width];
    ClearedMore(vir, cur, at, width);
    PrefixGrows(cur, at, width);
    PrefixGrows(vir, at, width);
    OverlapOfBoth(cur[..at], vir[..at], c, v);
    if Zeros(c) {
      NoOverlap(c, v);
      OverlaySelf(now, at, width);
    }
    hide NewBits, MinusAll, ClearedTo, Overlay, Zeros;
  }

  /** has_new_bits, for n words. */
  method HasNewBits(current: array<byte>, virgin: array<byte>, n: nat, width: nat) returns (ret: nat)
    requires current != virgin && Span(n, width) <= current.Length && Span(n, width) <= virgin.Length
    modifies virgin
    ensures ret == NewBits(current[..][..Span(n, width)], old(virgin[..])[..Span(n, width)])
    ensures virgin[..] == ClearedTo(old(virgin[..]), current[..], Span(n, width))
  {
    hide *;
    ret := DiscoverAll(current, virgin, n, width);
    DiscoveredAll(ret, virgin[..], current[..], old(virgin[..]), Span(n, width));
  }

  method DiscoverAll(current: array<byte>, virgin: array<byte>, n: nat, width: nat) returns (ret: nat)
    requires current != virgin && Span(n, width) <= current.Length && Span(n, width) <= virgin.Length
    modifies virgin
    ensures Discovered(ret, virgin[..], current[..], old(virgin[..]), Span(n, width))
  {
    hide *;
    ret := 0;
    ghost var vir := virgin[..];
    var at: nat, i: nat := 0, n;
    DiscoveredNothing(current[..], vir);
    LeftAll(width, n);
    while i > 0
      invariant Left(at, i, width, n)
      invariant ret <= 2 && Discovered(ret, virgin[..], current[..], vir, at)
    {
      LeftMore(at, i, width, n);
      i := i - 1;
      ret := DiscoverAt(ret, current, virgin, at, width, vir);
      at := at + width;
    }
    LeftNone(at, width, n);
  }

  /** i of n words are left at `at`. */
  ghost predicate Left(at: nat, i: nat, width: nat, n: nat) {
    at + Span(i, width) == Span(n, width)
  }

  lemma LeftAll(width: nat, n: nat)
    ensures Left(0, n, width, n)
  {
  }

  lemma LeftMore(at: nat, i: nat, width: nat, n: nat)
    requires Left(at, i, width, n) && i > 0
    ensures at + width <= Span(n, width) && Left(at + width, i - 1, width, n)
  {
  }

  lemma LeftNone(at: nat, width: nat, n: nat)
    requires Left(at, 0, width, n)
    ensures at == Span(n, width)
  {
  }

  lemma DiscoveredAll(ret: nat, now: seq<byte>, cur: seq<byte>, vir: seq<byte>, at: nat)
    requires Discovered(ret, now, cur, vir, at)
    ensures at <= |cur| && at <= |vir| && ret == NewBits(cur[..at], vir[..at]) && now == ClearedTo(vir, cur, at)
  {
  }

  method DiscoverAt(ret: nat, current: array<byte>, virgin: array<byte>, at: nat, width: nat, ghost vir: seq<byte>)
    returns (r: nat)
    requires current != virgin && at + width <= current.Length && at + width <= virgin.Length && |vir| == virgin.Length
    requires ret <= 2
    requires Discovered(ret, virgin[..], current[..], vir, at)
    modifies virgin
    ensures r <= 2 && Discovered(r, virgin[..], current[..], vir, at + width)
  {
    r := ret;
    DiscoveredMore(ret, virgin[..], current[..], vir, at, width);
    var cur := current[at..at + width];
    assert cur == current[..][at..at + width] && virgin[at..at + width] == virgin[..][at..at + width];
    ZeroWord(cur);
    hide Discovered, Overlay, MinusAll, ReadLE;
    if ReadLE(cur) != 0 {
      r := DiscoverWord(ret, current, virgin, at, width);
    }
  }

  // -------------------------------------------------------------------- skim

  /** One word of skim. */
  predicate WordIsNew(t: seq<nat>, cur: nat, vir: nat, halves: nat)
    requires IsTable16(t)
  {
    cur != 0 && And(ClassifyWord(t, cur, halves), vir) != 0
  }

  lemma WordIsNewMeans(t: seq<nat>, cur: seq<byte>, vir: seq<byte>)
    requires IsTable16(t) && |cur| == |vir| && |cur| % 2 == 0
    ensures WordIsNew(t, ReadLE(cur), ReadLE(vir), |cur| / 2) <==> Overlap(ClassAll(cur), vir)
  {
    hide And, ReadLE, ClassifyWord;
    ClassifyWordIsBytewise(t, cur);
    OverlapWord(ClassAll(cur), vir);
    ZeroWord(cur);
    if Zeros(cur) {
      ClassZeros(cur, vir);
    }
  }

  lemma ClassZeros(cur: seq<byte>, vir: seq<byte>)
    requires |cur| == |vir| && Zeros(cur)
    ensures !Overlap(ClassAll(cur), vir)
  {
  }

  /** The classified trace has something the virgin map still has. */
  ghost predicate Interesting(cur: seq<byte>, vir: seq<byte>)
    requires |cur| == |vir|
  {
    Overlap(ClassAll(cur), vir)
  }

  lemma InterestingNothing(cur: seq<byte>, vir: seq<byte>)
    ensures !Interesting(cur[..0], vir[..0])
  {
  }

  lemma InterestingMore(cur: seq<byte>, vir: seq<byte>, at: nat, n: nat)
    requires |cur| == |vir| && at + n <= |cur|
    ensures Interesting(cur[..at + n], vir[..at + n]) <==>
            Interesting(cur[..at], vir[..at]) || Interesting(cur[at..at + n], vir[at..at + n])
  {
    hide And, Overlap;
    PrefixGrows(cur, at, n);
    PrefixGrows(vir, at, n);
    assert ClassAll(cur[..at + n]) == ClassAll(cur[..at]) + ClassAll(cur[at..at + n]);
    OverlapOfBoth(ClassAll(cur[..at]), vir[..at], ClassAll(cur[at..at + n]), vir[at..at + n]);
  }

  /** One round of skim: a pack of words, which the vector forms pass over at
      once if all of its lanes are zero. */
  method SkimPack(t: seq<nat>, cur: seq<byte>, vir: seq<byte>, pack: nat, width: nat, vector: bool)
    returns (hit: bool)
    requires IsTable16(t) && width in {4, 8} && |cur| == |vir| == Span(pack, width)
    ensures hit <==> Interesting(cur, vir)
  {
    hide Span, WordIsNew, ReadLE, IsTable16, Overlap, ClassAll;
    if vector && ReadLE(cur) == 0 {
      ZeroWord(cur);
      ClassZeros(cur, vir);
      return false;
    }
    var at: nat, i: nat := 0, pack;
    InterestingNothing(cur, vir);
    SpanEnds(width);
    while i > 0
      invariant at + Span(i, width) == |cur|
      invariant !Interesting(cur[..at], vir[..at])
    {
      SpanMore(i, width);
      i := i - 1;
      var c, v := cur[at..at + width], vir[at..at + width];
      WordIsNewMeans(t, c, v);
      InterestingMore(cur, vir, at, width);
      if WordIsNew(t, ReadLE(c), ReadLE(v), width / 2) {
        InterestingMore(cur, vir, at + width, Span(i, width));
        assert cur[..|cur|] == cur && vir[..|cur|] == vir;
        return true;
      }
      at := at + width;
    }
    assert cur[..at] == cur && vir[..at] == vir;
    return false;
  }

  /** skim over any number of packs, in any of its forms. */
  method Skim(t: seq<nat>, virgin: array<byte>, current: array<byte>, packs: nat, pack: nat, width: nat, vector: bool)
    returns (r: nat)
    requires IsTable16(t) && width in {4, 8} && pack > 0
    requires virgin.Length == current.Length == Span(packs, Span(pack, width))
    ensures r == if Interesting(current[..], virgin[..]) then 1 else 0
  {
    hide *;
    var at: nat, i: nat, step := 0, packs, Span(pack, width);
    SkimmedNothing(current[..], virgin[..]);
    SpanEnds(step);
    while i > 0
      invariant at + Span(i, step) == current.Length
      invariant Skimmed(current[..], virgin[..], at)
    {
      SpanMore(i, step);
      i := i - 1;
      SkimmedMore(current[..], virgin[..], at, step);
      var hit := SkimPack(t, current[..][at..at + step], virgin[..][at..at + step], pack, width, vector);
      if hit {
        return 1;
      }
      at := at + step;
    }
    SkimmedAll(current[..], virgin[..]);
    return 0;
  }

  /** Nothing of interest in the first `at` bytes. */
  ghost predicate Skimmed(cur: seq<byte>, vir: seq<byte>, at: nat) {
    at <= |cur| == |vir| && !Interesting(cur[..at], vir[..at])
  }

  lemma SkimmedNothing(cur: seq<byte>, vir: seq<byte>)
    requires |cur| == |vir|
    ensures Skimmed(cur, vir, 0)
  {
  }

  lemma SkimmedMore(cur: seq<byte>, vir: seq<byte>, at: nat, n: nat)
    requires Skimmed(cur, vir, at) && at + n <= |cur|
    ensures |cur| == |vir|
    ensures if Interesting(cur[at..at + n], vir[at..at + n]) then Interesting(cur, vir) else Skimmed(cur, vir, at + n)
  {
    InterestingMore(cur, vir, at, n);
    InterestingMore(cur, vir, at + n, |cur| - at - n);
    assert cur[..|cur|] == cur && vir[..|cur|] == vir;
  }

  lemma SkimmedAll(cur: seq<byte>, vir: seq<byte>)
    requires Skimmed(cur, vir, |cur|)
    ensures |cur| == |vir| && !Interesting(cur, vir)
  {
    assert cur[..|cur|] == cur && vir[..|cur|] == vir;
  }

  // --------------------------------------------------------------- both at once

  /** has_new_bits_unclassified: the trace is classified only if the quick look
      finds something.  The result and the virgin map are as if it always were.
      The virgin map and the trace have `packs` packs of words; n words of them
      are compared. */
  method HasNewBitsUnclassified(t: seq<nat>, current: array<byte>, virgin: array<byte>, packs: nat, pack: nat, n: nat,
                                width: nat, vector: bool)
    returns (ret: nat, classified: bool)
    requires current != virgin && IsTable16(t) && width in {4, 8} && pack > 0
    requires virgin.Length == current.Length == Span(packs, Span(pack, width))
    requires Span(n, width) <= current.Length
    modifies current, virgin
    ensures var cur, vir := old(current[..]), old(virgin[..]);
      && ret == NewBits(ClassAll(cur)[..Span(n, width)], vir[..Span(n, width)])
      && virgin[..] == ClearedTo(vir, ClassAll(cur), Span(n, width))
      && (classified <==> Interesting(cur, vir))
      && current[..] == if classified then ClassAll(cur) else cur
  {
    ghost var cur, vir := current[..], virgin[..];
    Unclassified(cur, vir, Span(n, width));
    SpanOfPacks(packs, pack, width);
    hide *;
    var r := Skim(t, virgin, current, packs, pack, width, vector);
    if r == 0 {
      return 0, false;
    }
    ClassifyCounts(t, current, WordsOf(packs, pack), width);
    assert current[..] == ClassAll(cur);
    ret := HasNewBits(current, virgin, n, width);
    classified := true;
  }

  /** The number of words in all packs. */
  function WordsOf(packs: nat, pack: nat): nat {
    if packs == 0 then 0 else pack + WordsOf(packs - 1, pack)
  }

  lemma {:induction false} SpanOfPacks(packs: nat, pack: nat, width: nat)
    ensures Span(packs, Span(pack, width)) == Span(WordsOf(packs, pack), width)
  {
    if packs > 0 {
      SpanOfPacks(packs - 1, pack, width);
      SpanOfSum(pack, WordsOf(packs - 1, pack), width);
    }
  }

  lemma {:induction false} SpanOfSum(m: nat, n: nat, width: nat)
    ensures Span(m + n, width) == Span(m, width) + Span(n, width)
  {
    if m > 0 {
      SpanOfSum(m - 1, n, width);
    }
  }

  lemma Unclassified(cur: seq<byte>, vir: seq<byte>, n: nat)
    requires n <= |cur| == |vir|
    ensures MappedTo(Class8, cur, |cur|) == ClassAll(cur)
    ensures !Interesting(cur, vir) ==>
      NewBits(ClassAll(cur)[..n], vir[..n]) == 0 && ClearedTo(vir, ClassAll(cur), n) == vir
  {
    assert cur[..|cur|] == cur;
    if !Interesting(cur, vir) {
      var c := ClassAll(cur);
      assert c[..n] + c[n..] == c && vir[..n] + vir[n..] == vir;
      OverlapOfBoth(c[..n], vir[..n], c[n..], vir[n..]);
      NoOverlap(c[..n], vir[..n]);
    }
  }

  // ---------------------------------------------------------------- many runs

  /** The virgin map after a sequence of traces. */
  function Swept(vir: seq<byte>, traces: seq<seq<byte>>): (r: seq<byte>)
    requires forall i :: 0 <= i < |traces| ==> |traces[i]| == |vir|
    ensures |r| == |vir|
  {
    if traces == [] then vir
    else MinusAll(Swept(vir, traces[..|traces| - 1]), ClassAll(traces[|traces| - 1]))
  }

  /** No trace had a hit count of this class at this byte. */
  ghost predicate NeverInClass(traces: seq<seq<byte>>, k: nat, bit: nat)
    requires forall i :: 0 <= i < |traces| ==> k < |traces[i]|
  {
    forall i :: 0 <= i < |traces| ==> !InClass(traces[i][k], bit)
  }

  /** A bit is left exactly if it was there and no trace had a hit count of its
      class: the order of the traces, and how often each came, do not matter. */
  lemma {:induction false} SweptBits(vir: seq<byte>, traces: seq<seq<byte>>, k: nat, bit: nat)
    requires forall i :: 0 <= i < |traces| ==> |traces[i]| == |vir|
    requires k < |vir|
    ensures Bit(Swept(vir, traces)[k], bit) <==> Bit(vir[k], bit) && NeverInClass(traces, k, bit)
  {
    hide Bit, Minus, Class8, InClass;
    if traces != [] {
      var before, last := traces[..|traces| - 1], traces[|traces| - 1];
      SweptBits(vir, before, k, bit);
      BitOfMinus(Swept(vir, before)[k], Class8(last[k]), bit);
      ClassBits(last[k], bit);
      assert forall i :: 0 <= i < |before| ==> before[i] == traces[i];
    }
  }

  /** Nothing in a trace that was seen before is ever new again. */
  lemma SeenIsNeverNew(vir: seq<byte>, traces: seq<seq<byte>>, i: nat)
    requires forall j :: 0 <= j < |traces| ==> |traces[j]| == |vir|
    requires i < |traces|
    ensures NewBits(ClassAll(traces[i]), Swept(vir, traces)) == 0
  {
    var cur, now := ClassAll(traces[i]), Swept(vir, traces);
    hide Bit, And, Class8, Swept, InClass;
    if Overlap(cur, now) {
      var k :| 0 <= k < |cur| && And(cur[k], now[k]) != 0;
      var bit := SomeBit(And(cur[k], now[k]));
      BitOfAnd(cur[k], now[k], bit);
      SweptBits(vir, traces, k, bit);
      ClassBits(traces[i][k], bit);
      assert false;
    }
    NoOverlap(cur, now);
  }

  lemma MinusFull(a: byte, b: byte)
    ensures Minus(a, b) == 255 <==> a == 255 && b == 0
  {
    if a == 255 && b == 0 {
      MinusNothing(a);
    } else if Minus(a, b) == 255 {
      assert a == 255;
      AndNotByte(a, b);
      assert false;
    }
  }

  /** A byte is untouched exactly if it was so before and no trace hit it. */
  lemma {:induction false} UntouchedBytes(vir: seq<byte>, traces: seq<seq<byte>>, k: nat)
    requires forall i :: 0 <= i < |traces| ==> |traces[i]| == |vir|
    requires k < |vir|
    ensures Swept(vir, traces)[k] == 255 <==> vir[k] == 255 && forall i :: 0 <= i < |traces| ==> traces[i][k] == 0
  {
    hide Minus;
    if traces != [] {
      var before, last := traces[..|traces| - 1], traces[|traces| - 1];
      UntouchedBytes(vir, before, k);
      MinusFull(Swept(vir, before)[k], Class8(last[k]));
      assert forall i :: 0 <= i < |before| ==> before[i] == traces[i];
    }
  }

  /** The trace hits a byte that was untouched and that no trace before it hit. */
  ghost predicate NewTuple(vir: seq<byte>, traces: seq<seq<byte>>, cur: seq<byte>)
    requires |cur| == |vir| && forall i :: 0 <= i < |traces| ==> |traces[i]| == |vir|
  {
    exists k :: 0 <= k < |cur| && cur[k] != 0 && vir[k] == 255 && forall i :: 0 <= i < |traces| ==> traces[i][k] == 0
  }

  /** It has a hit count of a class that was still open at its byte and that no
      trace before it had there. */
  ghost predicate NewCount(vir: seq<byte>, traces: seq<seq<byte>>, cur: seq<byte>)
    requires |cur| == |vir| && forall i :: 0 <= i < |traces| ==> |traces[i]| == |vir|
  {
    exists k: nat, bit: nat {:trigger InClass(cur[k], bit)} ::
      k < |cur| && InClass(cur[k], bit) && Bit(vir[k], bit) && NeverInClass(traces, k, bit)
  }

  /** What a trace is worth, by the hit counts of the traces before it. */
  ghost function Worth(vir: seq<byte>, traces: seq<seq<byte>>, cur: seq<byte>): nat
    requires |cur| == |vir| && forall i :: 0 <= i < |traces| ==> |traces[i]| == |vir|
  {
    if NewTuple(vir, traces, cur) then 2 else if NewCount(vir, traces, cur) then 1 else 0
  }

  /** The verdict on a trace by the virgin map that the traces before it have left
      is what it is worth by their hit counts alone. */
  lemma VerdictByCounts(vir: seq<byte>, traces: seq<seq<byte>>, cur: seq<byte>)
    requires |cur| == |vir| && forall i :: 0 <= i < |traces| ==> |traces[i]| == |vir|
    ensures NewBits(ClassAll(cur), Swept(vir, traces)) == Worth(vir, traces, cur)
  {
    hide Pristine, Overlap, NewTuple, NewCount, ClassAll, Swept;
    NewTuples(vir, traces, cur);
    NewCounts(vir, traces, cur);
  }

  lemma NewTuples(vir: seq<byte>, traces: seq<seq<byte>>, cur: seq<byte>)
    requires |cur| == |vir| && forall i :: 0 <= i < |traces| ==> |traces[i]| == |vir|
    ensures Pristine(ClassAll(cur), Swept(vir, traces)) <==> NewTuple(vir, traces, cur)
  {
    var c, now := ClassAll(cur), Swept(vir, traces);
    forall k | 0 <= k < |cur|
      ensures now[k] == 255 <==> vir[k] == 255 && forall i :: 0 <= i < |traces| ==> traces[i][k] == 0
      ensures c[k] == 0 <==> cur[k] == 0
    {
      UntouchedBytes(vir, traces, k);
    }
    hide Swept, Class8;
  }

  lemma NewCounts(vir: seq<byte>, traces: seq<seq<byte>>, cur: seq<byte>)
    requires |cur| == |vir| && forall i :: 0 <= i < |traces| ==> |traces[i]| == |vir|
    ensures Overlap(ClassAll(cur), Swept(vir, traces)) <==> NewCount(vir, traces, cur)
  {
    hide Bit, And, Class8, InClass, NeverInClass, Swept;
    var c, now := ClassAll(cur), Swept(vir, traces);
    if Overlap(c, now) {
      var k: nat :| k < |c| && And(c[k], now[k]) != 0;
      var bit := SomeBit(And(c[k], now[k]));
      BitOfAnd(c[k], now[k], bit);
      ClassBits(cur[k], bit);
      SweptBits(vir, traces, k, bit);
    }
    if NewCount(vir, traces, cur) {
      var k: nat, bit: nat :| k < |cur| && InClass(cur[k], bit) && Bit(vir[k], bit) && NeverInClass(traces, k, bit);
      ClassBits(cur[k], bit);
      SweptBits(vir, traces, k, bit);
      BitOfAnd(c[k], now[k], bit);
      BitOfZero(bit);
    }
  }

  /** Traces one after the other: every verdict is what the trace is worth by the
      hit counts of the traces before it. */
  method Runs(t: seq<nat>, virgin: array<byte>, traces: seq<seq<byte>>, packs: nat, pack: nat, width: nat, vector: bool)
    returns (verdicts: seq<nat>)
    requires IsTable16(t) && width in {4, 8} && pack > 0
    requires virgin.Length == Span(packs, Span(pack, width))
    requires forall i :: 0 <= i < |traces| ==> |traces[i]| == virgin.Length
    modifies virgin
    ensures |verdicts| == |traces| && virgin[..] == Swept(old(virgin[..]), traces)
    ensures forall i :: 0 <= i < |traces| ==> verdicts[i] == Worth(old(virgin[..]), traces[..i], traces[i])
  {
    hide *;
    ghost var vir := virgin[..];
    verdicts := [];
    SpanOfPacks(packs, pack, width);
    SweptNothing(vir);
    while |verdicts| < |traces|
      invariant |verdicts| <= |traces| && virgin[..] == Swept(vir, traces[..|verdicts|])
      invariant forall i :: 0 <= i < |verdicts| ==> verdicts[i] == Worth(vir, traces[..i], traces[i])
    {
      var k := |verdicts|;
      var current := new byte[virgin.Length](i requires 0 <= i < |traces[k]| => traces[k][i]);
      assert current[..] == traces[k];
      WholeMap(virgin[..], ClassAll(traces[k]));
      SweptNext(vir, traces, k);
      var ret, _ := HasNewBitsUnclassified(t, current, virgin, packs, pack, WordsOf(packs, pack), width, vector);
      VerdictByCounts(vir, traces[..k], traces[k]);
      verdicts := verdicts + [ret];
    }
    assert traces[..|verdicts|] == traces;
  }

  lemma WholeMap(vir: seq<byte>, cur: seq<byte>)
    requires |vir| == |cur|
    ensures cur[..|cur|] == cur && vir[..|cur|] == vir && ClearedTo(vir, cur, |cur|) == MinusAll(vir, cur)
  {
    assert cur[..|cur|] == cur && vir[..|vir|] == vir;
  }

  lemma SweptNothing(vir: seq<byte>)
    ensures Swept(vir, []) == vir
  {
  }

  lemma SweptNext(vir: seq<byte>, traces: seq<seq<byte>>, k: nat)
    requires k < |traces| && forall i :: 0 <= i < |traces| ==> |traces[i]| == |vir|
    ensures Swept(vir, traces[..k + 1]) == MinusAll(Swept(vir, traces[..k]), ClassAll(traces[k]))
  {
    hide MinusAll, ClassAll;
    assert traces[..k + 1][..k] == traces[..k];
  }
}

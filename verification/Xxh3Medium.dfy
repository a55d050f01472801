/** XXH3 on inputs of 9 to 240 bytes: the loops and the unrolled sums of the
    code, and exactly when two inputs that agree but for a few bytes have equal
    hashes. */
module Xxh3Medium {
  import opened Words
  import opened Xxh3Mix
  import opened Xxh3Short

  // ------------------------------------------------------ the code's own forms

  /** XXH3_len_17to128_64b for small code: a loop that ends with pair zero. */
  method RolledPairs(input: seq<byte>, secret: Secret, seed: u64) returns (h: u64)
    requires 16 < |input| <= 128
    ensures h == HashShort(input, secret, seed)
  {
    hide Mix16B, Avalanche3, Mul64;
    var acc := Mul64(|input|, PRIME64_1);
    var i: nat, more := (|input| - 1) / 32, true;
    while more
      invariant more ==> 32 * i < |input|
      invariant Len17to128(input, secret, seed)
             == Avalanche3(if more then MixPairs(acc, input, secret, seed, i) else acc)
      decreases more, i
    {
      acc := Add64(acc, Mix16B(input, 16 * i, secret, 32 * i, seed));
      acc := Add64(acc, Mix16B(input, |input| - 16 * (i + 1), secret, 32 * i + 16, seed));
      if i == 0 {
        more := false;
      } else {
        i := i - 1;
      }
    }
    h := Avalanche3(acc);
  }

  /** The same, unrolled: the innermost pair first. */
  method UnrolledPairs(input: seq<byte>, secret: Secret, seed: u64) returns (h: u64)
    requires 16 < |input| <= 128
    ensures h == HashShort(input, secret, seed)
  {
    hide Mix16B, Avalanche3, Mul64;
    var len := |input|;
    var acc := Mul64(len, PRIME64_1);
    if len > 32 {
      if len > 64 {
        if len > 96 {
          acc := Add64(acc, Mix16B(input, 48, secret, 96, seed));
          acc := Add64(acc, Mix16B(input, len - 64, secret, 112, seed));
          assert MixPairs(Mul64(len, PRIME64_1), input, secret, seed, 3) == MixPairs(acc, input, secret, seed, 2);
        }
        ghost var before := acc;
        acc := Add64(acc, Mix16B(input, 32, secret, 64, seed));
        acc := Add64(acc, Mix16B(input, len - 48, secret, 80, seed));
        assert MixPairs(before, input, secret, seed, 2) == MixPairs(acc, input, secret, seed, 1);
      }
      ghost var before := acc;
      acc := Add64(acc, Mix16B(input, 16, secret, 32, seed));
      acc := Add64(acc, Mix16B(input, len - 32, secret, 48, seed));
      assert MixPairs(before, input, secret, seed, 1) == MixPairs(acc, input, secret, seed, 0);
    }
    acc := Add64(acc, Mix16B(input, 0, secret, 0, seed));
    acc := Add64(acc, Mix16B(input, len - 16, secret, 16, seed));
    h := Avalanche3(acc);
  }

  /** XXH3_len_129to240_64b: eight rounds, the last 16 bytes, and what is between
      them. */
  method TwoSums(input: seq<byte>, secret: Secret, seed: u64) returns (h: u64)
    requires 128 < |input| <= MIDSIZE_MAX
    ensures h == HashShort(input, secret, seed)
  {
    hide Mix16B, Avalanche3, Mul64;
    ghost var start := Mul64(|input|, PRIME64_1);
    var acc, nbRounds := Mul64(|input|, PRIME64_1), |input| / 16;
    var i := 0;
    while i < 8
      invariant 0 <= i <= 8
      invariant MixRange(start, input, secret, seed, 0, 8, 0) == MixRange(acc, input, secret, seed, i, 8, 0)
    {
      acc := Add64(acc, Mix16B(input, 16 * i, secret, 16 * i, seed));
      i := i + 1;
    }
    ghost var last := Mix16B(input, |input| - 16, secret, 119, seed);
    var accEnd := Mix16B(input, |input| - 16, secret, 136 - 17, seed);
    acc := Avalanche3(acc);
    while i < nbRounds
      invariant 8 <= i <= nbRounds
      invariant MixRange(last, input, secret, seed, 8, nbRounds, -125) == MixRange(accEnd, input, secret, seed, i, nbRounds, -125)
    {
      accEnd := Add64(accEnd, Mix16B(input, 16 * i, secret, 16 * (i - 8) + 3, seed));
      i := i + 1;
    }
    h := Avalanche3(Add64(acc, accEnd));
  }

  // ---------------------------------------------------------- undoing the mixer

  const INVERSE_MX1: u64 := 0x8DA8EE41D6DF849

  /** Every step of the avalanche undone in turn. */
  function UndoAvalanche3(h: u64): u64 {
    XorShift64(Mul64(XorShift64(h, 32), INVERSE_MX1), 37)
  }

  lemma Avalanche3Bijective(x: u64)
    ensures UndoAvalanche3(Avalanche3(x)) == x
    ensures Avalanche3(UndoAvalanche3(x)) == x
  {
    hide XorShift64, Mul64;
    var a := Mul64(XorShift64(x, 37), PRIME_MX1);
    XorShiftUndone(a, 32);
    MulUndone(XorShift64(x, 37), PRIME_MX1, INVERSE_MX1);
    XorShiftUndone(x, 37);
    var b := Mul64(XorShift64(x, 32), INVERSE_MX1);
    XorShiftUndone(b, 37);
    MulUndone(XorShift64(x, 32), INVERSE_MX1, PRIME_MX1);
    XorShiftUndone(x, 32);
  }

  lemma Avalanche3Injective(x: u64, y: u64)
    ensures Avalanche3(x) == Avalanche3(y) <==> x == y
  {
    hide Avalanche3, UndoAvalanche3;
    Avalanche3Bijective(x);
    Avalanche3Bijective(y);
  }

  lemma Cancels(x: u64, y: u64, z: u64)
    ensures Add64(x, z) == Add64(y, z) <==> x == y
    ensures Add64(z, x) == Add64(z, y) <==> x == y
  {
  }

  // ------------------------------------------------------- sums of mixes compared

  /** Both inputs have the same 16 bytes at this place. */
  predicate Agree(a: seq<byte>, b: seq<byte>, at: nat)
    requires at + 16 <= |a| == |b|
  {
    a[at..at + 16] == b[at..at + 16]
  }

  lemma AgreeingReads(a: seq<byte>, b: seq<byte>, at: nat)
    requires at + 16 <= |a| == |b| && Agree(a, b, at)
    ensures Read64(a, at) == Read64(b, at) && Read64(a, at + 8) == Read64(b, at + 8)
  {
    hide ReadLE;
    assert a[at..at + 8] == a[at..at + 16][..8] && a[at + 8..at + 16] == a[at..at + 16][8..];
    assert b[at..at + 8] == b[at..at + 16][..8] && b[at + 8..at + 16] == b[at..at + 16][8..];
  }

  lemma AgreeingMix(a: seq<byte>, b: seq<byte>, at: nat, secret: Secret, key: nat, seed: u64)
    requires at + 16 <= |a| == |b| && key + 16 <= |secret| && Agree(a, b, at)
    ensures Mix16B(a, at, secret, key, seed) == Mix16B(b, at, secret, key, seed)
  {
    hide Read64, Mul128Fold64, Xor64;
    AgreeingReads(a, b, at);
  }

  /** Equal mixes keep two sums apart or equal. */
  lemma {:induction false} SameRange(x: u64, y: u64, a: seq<byte>, b: seq<byte>, secret: Secret, seed: u64,
                                     lo: nat, hi: nat, shift: int)
    requires lo <= hi && 16 * hi <= |a| == |b| && 0 <= 16 * lo + shift && 16 * hi + shift <= |secret|
    requires forall j: nat {:trigger Agree(a, b, 16 * j)} :: lo <= j < hi ==> Agree(a, b, 16 * j)
    ensures MixRange(x, a, secret, seed, lo, hi, shift) == MixRange(y, b, secret, seed, lo, hi, shift) <==> x == y
    decreases hi - lo
  {
    hide Mix16B, Add64, Agree;
    if lo < hi {
      assert Agree(a, b, 16 * lo);
      AgreeingMix(a, b, 16 * lo, secret, 16 * lo + shift, seed);
      var m := Mix16B(a, 16 * lo, secret, 16 * lo + shift, seed);
      Cancels(x, y, m);
      SameRange(Add64(x, m), Add64(y, m), a, b, secret, seed, lo + 1, hi, shift);
    }
  }

  /** If only round i can differ, the sums are equal exactly if its mixes are. */
  lemma {:induction false} OneDiffers(x: u64, a: seq<byte>, b: seq<byte>, secret: Secret, seed: u64,
                                      lo: nat, hi: nat, shift: int, i: nat)
    requires lo <= i < hi && 16 * hi <= |a| == |b| && 0 <= 16 * lo + shift && 16 * hi + shift <= |secret|
    requires forall j: nat {:trigger Agree(a, b, 16 * j)} :: lo <= j < hi && j != i ==> Agree(a, b, 16 * j)
    ensures MixRange(x, a, secret, seed, lo, hi, shift) == MixRange(x, b, secret, seed, lo, hi, shift) <==>
            Mix16B(a, 16 * i, secret, 16 * i + shift, seed) == Mix16B(b, 16 * i, secret, 16 * i + shift, seed)
    decreases hi - lo
  {
    hide Mix16B, Add64, Agree;
    var m, n := Mix16B(a, 16 * lo, secret, 16 * lo + shift, seed), Mix16B(b, 16 * lo, secret, 16 * lo + shift, seed);
    if lo == i {
      Cancels(m, n, x);
      SameRange(Add64(x, m), Add64(x, n), a, b, secret, seed, lo + 1, hi, shift);
    } else {
      assert Agree(a, b, 16 * lo);
      AgreeingMix(a, b, 16 * lo, secret, 16 * lo + shift, seed);
      OneDiffers(Add64(x, m), a, b, secret, seed, lo + 1, hi, shift, i);
    }
  }

  // ---------------------------------------------------- when hashes are equal

  /** 17 to 32 bytes of which the first 16 are the same: the hashes are equal
      exactly if the last 16 bytes mix to the same word under the key at 16. */
  lemma LastSixteenDecide(a: seq<byte>, b: seq<byte>, secret: Secret, seed: u64)
    requires 17 <= |a| == |b| <= 32 && a[..16] == b[..16]
    ensures HashShort(a, secret, seed) == HashShort(b, secret, seed) <==>
            Mix16B(a, |a| - 16, secret, 16, seed) == Mix16B(b, |b| - 16, secret, 16, seed)
  {
    hide Mix16B, Add64, Mul64, Avalanche3;
    assert a[0..16] == a[..16] && b[0..16] == b[..16];
    AgreeingMix(a, b, 0, secret, 0, seed);
    var acc := Add64(Mul64(|a|, PRIME64_1), Mix16B(a, 0, secret, 0, seed));
    var m, n := Mix16B(a, |a| - 16, secret, 16, seed), Mix16B(b, |b| - 16, secret, 16, seed);
    Cancels(m, n, acc);
    Avalanche3Injective(Add64(acc, m), Add64(acc, n));
  }

  /** And if the last 16 are the same, exactly if the first 16 do under the key
      at 0. */
  lemma FirstSixteenDecide(a: seq<byte>, b: seq<byte>, secret: Secret, seed: u64)
    requires 17 <= |a| == |b| <= 32 && a[|a| - 16..] == b[|b| - 16..]
    ensures HashShort(a, secret, seed) == HashShort(b, secret, seed) <==>
            Mix16B(a, 0, secret, 0, seed) == Mix16B(b, 0, secret, 0, seed)
  {
    hide Mix16B, Add64, Mul64, Avalanche3;
    assert a[|a| - 16..|a|] == a[|a| - 16..] && b[|b| - 16..|b|] == b[|b| - 16..];
    AgreeingMix(a, b, |a| - 16, secret, 16, seed);
    var acc, last := Mul64(|a|, PRIME64_1), Mix16B(a, |a| - 16, secret, 16, seed);
    var m, n := Mix16B(a, 0, secret, 0, seed), Mix16B(b, 0, secret, 0, seed);
    Cancels(m, n, acc);
    Cancels(Add64(acc, m), Add64(acc, n), last);
    Avalanche3Injective(Add64(Add64(acc, m), last), Add64(Add64(acc, n), last));
  }

  lemma LongerHash(a: seq<byte>, secret: Secret, seed: u64)
    requires 128 < |a| <= MIDSIZE_MAX
    ensures var last := Mix16B(a, |a| - 16, secret, 119, seed);
            HashShort(a, secret, seed) ==
              Avalanche3(Add64(Avalanche3(MixRange(Mul64(|a|, PRIME64_1), a, secret, seed, 0, 8, 0)),
                               MixRange(last, a, secret, seed, 8, |a| / 16, -125)))
  {
    hide Mix16B, MixRange, Add64, Mul64, Avalanche3;
  }

  lemma AgreeBetween(a: seq<byte>, b: seq<byte>, lo: nat, hi: nat)
    requires lo <= hi <= |a| == |b| && a[lo..hi] == b[lo..hi]
    ensures forall at: nat {:trigger Agree(a, b, at)} :: lo <= at && at + 16 <= hi ==> Agree(a, b, at)
  {
    forall at: nat {:trigger Agree(a, b, at)} | lo <= at && at + 16 <= hi
      ensures Agree(a, b, at)
    {
      SliceOfSlice(a, lo, hi, at - lo, at + 16 - lo);
      SliceOfSlice(b, lo, hi, at - lo, at + 16 - lo);
    }
  }

  /** 129 to 240 bytes that differ within one of the first eight rounds, but not in
      the last 16 bytes: exactly if that round mixes to the same word. */
  lemma EarlyRoundDecides(a: seq<byte>, b: seq<byte>, secret: Secret, seed: u64, i: nat)
    requires 128 < |a| == |b| <= MIDSIZE_MAX && i < 8 && 16 * i + 16 <= |a| - 16
    requires a[0..16 * i] == b[0..16 * i] && a[16 * i + 16..|a|] == b[16 * i + 16..|b|]
    ensures HashShort(a, secret, seed) == HashShort(b, secret, seed) <==>
            Mix16B(a, 16 * i, secret, 16 * i, seed) == Mix16B(b, 16 * i, secret, 16 * i, seed)
  {
    hide Mix16B, MixRange, Add64, Mul64, Avalanche3, Agree, HashShort;
    AgreeBetween(a, b, 0, 16 * i);
    AgreeBetween(a, b, 16 * i + 16, |a|);
    LongerHash(a, secret, seed);
    LongerHash(b, secret, seed);
    var start, last := Mul64(|a|, PRIME64_1), Mix16B(a, |a| - 16, secret, 119, seed);
    assert Agree(a, b, |a| - 16);
    AgreeingMix(a, b, |a| - 16, secret, 119, seed);
    OneDiffers(start, a, b, secret, seed, 0, 8, 0, i);
    SameRange(last, last, a, b, secret, seed, 8, |a| / 16, -125);
    var s, t := MixRange(start, a, secret, seed, 0, 8, 0), MixRange(start, b, secret, seed, 0, 8, 0);
    var end := MixRange(last, a, secret, seed, 8, |a| / 16, -125);
    Avalanche3Injective(s, t);
    Cancels(Avalanche3(s), Avalanche3(t), end);
    Avalanche3Injective(Add64(Avalanche3(s), end), Add64(Avalanche3(t), end));
  }

  /** The same for the rounds from the ninth on, whose keys start at 3. */
  lemma LateRoundDecides(a: seq<byte>, b: seq<byte>, secret: Secret, seed: u64, i: nat)
    requires 128 < |a| == |b| <= MIDSIZE_MAX && 8 <= i && 16 * i + 16 <= |a| - 16
    requires a[0..16 * i] == b[0..16 * i] && a[16 * i + 16..|a|] == b[16 * i + 16..|b|]
    ensures HashShort(a, secret, seed) == HashShort(b, secret, seed) <==>
            Mix16B(a, 16 * i, secret, 16 * (i - 8) + 3, seed) == Mix16B(b, 16 * i, secret, 16 * (i - 8) + 3, seed)
  {
    hide Mix16B, MixRange, Add64, Mul64, Avalanche3, Agree, HashShort;
    AgreeBetween(a, b, 0, 16 * i);
    AgreeBetween(a, b, 16 * i + 16, |a|);
    LongerHash(a, secret, seed);
    LongerHash(b, secret, seed);
    var start, last := Mul64(|a|, PRIME64_1), Mix16B(a, |a| - 16, secret, 119, seed);
    assert Agree(a, b, |a| - 16);
    AgreeingMix(a, b, |a| - 16, secret, 119, seed);
    SameRange(start, start, a, b, secret, seed, 0, 8, 0);
    OneDiffers(last, a, b, secret, seed, 8, |a| / 16, -125, i);
    var s := Avalanche3(MixRange(start, a, secret, seed, 0, 8, 0));
    var m, n := MixRange(last, a, secret, seed, 8, |a| / 16, -125), MixRange(last, b, secret, seed, 8, |a| / 16, -125);
    Cancels(m, n, s);
    Avalanche3Injective(Add64(s, m), Add64(s, n));
  }

  /** And if only bytes after the last whole round differ: the last 16 bytes
      decide, under the key at 119. */
  lemma TailDecides(a: seq<byte>, b: seq<byte>, secret: Secret, seed: u64)
    requires 128 < |a| == |b| <= MIDSIZE_MAX && a[0..16 * (|a| / 16)] == b[0..16 * (|a| / 16)]
    ensures HashShort(a, secret, seed) == HashShort(b, secret, seed) <==>
            Mix16B(a, |a| - 16, secret, 119, seed) == Mix16B(b, |b| - 16, secret, 119, seed)
  {
    hide Mix16B, MixRange, Add64, Mul64, Avalanche3, Agree, HashShort;
    AgreeBetween(a, b, 0, 16 * (|a| / 16));
    LongerHash(a, secret, seed);
    LongerHash(b, secret, seed);
    var start := Mul64(|a|, PRIME64_1);
    var x, y := Mix16B(a, |a| - 16, secret, 119, seed), Mix16B(b, |b| - 16, secret, 119, seed);
    SameRange(start, start, a, b, secret, seed, 0, 8, 0);
    SameRange(x, y, a, b, secret, seed, 8, |a| / 16, -125);
    var s := Avalanche3(MixRange(start, a, secret, seed, 0, 8, 0));
    var m, n := MixRange(x, a, secret, seed, 8, |a| / 16, -125), MixRange(y, b, secret, seed, 8, |a| / 16, -125);
    Cancels(m, n, s);
    Avalanche3Injective(Add64(s, m), Add64(s, n));
  }

  /** The two keyed words of 9 to 16 bytes. */
  function LowWord(a: seq<byte>, secret: Secret, seed: u64): u64
    requires |a| >= 8
  {
    Xor64(Read64(a, 0), Add64(Xor64(Read64(secret, 24), Read64(secret, 32)), seed))
  }

  function HighWord(a: seq<byte>, secret: Secret, seed: u64): u64
    requires |a| >= 8
  {
    Xor64(Read64(a, |a| - 8), Sub64(Xor64(Read64(secret, 40), Read64(secret, 48)), seed))
  }

  /** 9 to 16 bytes of which the first eight are the same: the hashes are equal
      exactly if the high words plus their folded products are. */
  lemma HighWordDecides(a: seq<byte>, b: seq<byte>, secret: Secret, seed: u64)
    requires 9 <= |a| == |b| <= 16 && a[0..8] == b[0..8]
    ensures var lo, x, y := LowWord(a, secret, seed), HighWord(a, secret, seed), HighWord(b, secret, seed);
            HashShort(a, secret, seed) == HashShort(b, secret, seed) <==>
            Add64(x, Mul128Fold64(lo, x)) == Add64(y, Mul128Fold64(lo, y))
  {
    hide Mul128Fold64, Mul64, Avalanche3, Xor, ReadLE, Swap64;
    var lo, x, y := LowWord(a, secret, seed), HighWord(a, secret, seed), HighWord(b, secret, seed);
    var start := Add64(|a|, Swap64(lo));
    var m, n := Add64(Add64(start, x), Mul128Fold64(lo, x)), Add64(Add64(start, y), Mul128Fold64(lo, y));
    SumsRegroup(start, x, Mul128Fold64(lo, x));
    SumsRegroup(start, y, Mul128Fold64(lo, y));
    Cancels(Add64(x, Mul128Fold64(lo, x)), Add64(y, Mul128Fold64(lo, y)), start);
    Avalanche3Injective(m, n);
  }

  /** And if the last eight are the same, exactly if the turned low words plus the
      products are. */
  lemma LowWordDecides(a: seq<byte>, b: seq<byte>, secret: Secret, seed: u64)
    requires 9 <= |a| == |b| <= 16 && a[|a| - 8..|a|] == b[|b| - 8..|b|]
    ensures var hi, x, y := HighWord(a, secret, seed), LowWord(a, secret, seed), LowWord(b, secret, seed);
            HashShort(a, secret, seed) == HashShort(b, secret, seed) <==>
            Add64(Swap64(x), Mul128Fold64(x, hi)) == Add64(Swap64(y), Mul128Fold64(y, hi))
  {
    hide Mul128Fold64, Mul64, Avalanche3, Xor, ReadLE, Swap64, Add64;
    var hi, x, y := HighWord(a, secret, seed), LowWord(a, secret, seed), LowWord(b, secret, seed);
    var n := |a|;
    Regrouped(n, Swap64(x), hi, Mul128Fold64(x, hi));
    Regrouped(n, Swap64(y), hi, Mul128Fold64(y, hi));
    Cancels(Add64(Swap64(x), Mul128Fold64(x, hi)), Add64(Swap64(y), Mul128Fold64(y, hi)), Add64(n, hi));
    Avalanche3Injective(Add64(Add64(Add64(n, Swap64(x)), hi), Mul128Fold64(x, hi)),
                        Add64(Add64(Add64(n, Swap64(y)), hi), Mul128Fold64(y, hi)));
  }

  lemma SumsRegroup(a: u64, b: u64, c: u64)
    ensures Add64(Add64(a, b), c) == Add64(a, Add64(b, c))
    ensures Add64(a, b) == Add64(b, a)
  {
  }

  lemma Regrouped(n: u64, x: u64, hi: u64, p: u64)
    ensures Add64(Add64(Add64(n, x), hi), p) == Add64(Add64(n, hi), Add64(x, p))
  {
    hide Add64;
    SumsRegroup(n, x, hi);
    SumsRegroup(x, hi, hi);
    SumsRegroup(n, hi, x);
    SumsRegroup(Add64(n, hi), x, p);
  }
}

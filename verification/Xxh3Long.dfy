/** XXH3 on long inputs (more than 240 bytes): accumulators, stripes and
    blocks, and the one-shot hash.

  The reference meaning of the long hash is `StripesAcc`, which walks the
  input stripe by stripe and scrambles after every full block.  The one-shot
  loop over blocks below, and the streaming state machine of module
  Xxh3Stream, are both proved to compute it.
 */
module Xxh3Long {
  import opened Words
  import opened Xxh3Mix

  const STRIPE_LEN := 64
  const SECRET_CONSUME_RATE := 8
  const SECRET_LASTACC_START := 7
  const SECRET_MERGEACCS_START := 11

  /** The eight accumulator lanes. */
  type Acc = a: seq<u64> | |a| == 8 witness seq(8, _ => 0)

  /** 64 bytes of input, or the 64 bytes of secret mixed with them. */
  type Stripe = s: seq<byte> | |s| == 64 witness seq(64, _ => 0)

  const INIT_ACC: Acc :=
    [PRIME32_3, PRIME64_1, PRIME64_2, PRIME64_3, PRIME64_4, PRIME32_2, PRIME64_5, PRIME32_1]

  // ------------------------------------------------- one stripe, one scramble

  /** The neighbouring lane, `lane ^ 1`. */
  function Swapped(lane: nat): nat { if lane % 2 == 0 then lane + 1 else lane - 1 }

  /** The product that a lane receives: low times high half of data ^ key. */
  function LaneProduct(input: Stripe, key: Stripe, lane: nat): u64
    requires lane < 8
  {
    var dataKey := Xor64(Read64(input, 8 * lane), Read64(key, 8 * lane));
    Mult32to64(Lo32(dataKey), Hi32(dataKey))
  }

  /** What one stripe adds to a lane: the neighbour's data and its own product. */
  function AccumulateLane(acc: Acc, input: Stripe, key: Stripe, lane: nat): u64
    requires lane < 8
  {
    Add64(Add64(acc[lane], Read64(input, 8 * Swapped(lane))), LaneProduct(input, key, lane))
  }

  function Accumulate512(acc: Acc, input: Stripe, key: Stripe): Acc {
    seq(8, lane requires 0 <= lane < 8 => AccumulateLane(acc, input, key, lane))
  }

  function ScrambleLane(acc: Acc, key: Stripe, lane: nat): u64
    requires lane < 8
  {
    Mul64(Xor64(XorShift64(acc[lane], 47), Read64(key, 8 * lane)), PRIME32_1)
  }

  function Scramble(acc: Acc, key: Stripe): Acc {
    seq(8, lane requires 0 <= lane < 8 => ScrambleLane(acc, key, lane))
  }

  // --------------------------------------------------- the reference meaning

  function StripesPerBlock(secret: Secret): (n: nat)
    ensures n >= 9
    ensures 8 * n + 64 <= |secret|
  {
    (|secret| - STRIPE_LEN) / SECRET_CONSUME_RATE
  }

  function StripeAt(input: seq<byte>, n: nat): Stripe
    requires 64 * n + 64 <= |input|
  {
    input[64 * n..64 * n + 64]
  }

  function KeyAt(secret: Secret, n: nat): Stripe
    requires n < StripesPerBlock(secret)
  {
    secret[8 * n..8 * n + 64]
  }

  function ScrambleKey(secret: Secret): Stripe { secret[|secret| - STRIPE_LEN..] }

  /** The place of stripe n in its block of `per` stripes: n modulo per. */
  function Place(n: nat, per: nat): (r: nat)
    requires per > 0
    ensures r < per
  {
    if n == 0 then 0
    else if Place(n - 1, per) + 1 == per then 0
    else Place(n - 1, per) + 1
  }

  /** Accumulate a stripe at place k of its block, and scramble if it is the
      last of the block. */
  function NextStripe(acc: Acc, stripe: Stripe, secret: Secret, k: nat): Acc
    requires k < StripesPerBlock(secret)
  {
    var acc' := Accumulate512(acc, stripe, KeyAt(secret, k));
    if k + 1 == StripesPerBlock(secret) then Scramble(acc', ScrambleKey(secret)) else acc'
  }

  /** The accumulators after the first n stripes of the input. */
  function StripesAcc(input: seq<byte>, secret: Secret, n: nat): Acc
    requires 64 * n <= |input|
  {
    if n == 0 then INIT_ACC
    else
      NextStripe(StripesAcc(input, secret, n - 1), StripeAt(input, n - 1), secret,
                 Place(n - 1, StripesPerBlock(secret)))
  }

  /** All stripes that start before the last byte, then the last 64 bytes. */
  function LongAcc(input: seq<byte>, secret: Secret): Acc
    requires |input| >= STRIPE_LEN
  {
    Accumulate512(StripesAcc(input, secret, (|input| - 1) / STRIPE_LEN),
                  input[|input| - STRIPE_LEN..],
                  LastKey(secret))
  }

  function LastKey(secret: Secret): Stripe {
    secret[|secret| - STRIPE_LEN - SECRET_LASTACC_START..|secret| - SECRET_LASTACC_START]
  }

  function Mix2Accs(acc: Acc, secret: Secret, i: nat): u64
    requires i < 4
  {
    Mul128Fold64(Xor64(acc[2 * i], Read64(secret, SECRET_MERGEACCS_START + 16 * i)),
                 Xor64(acc[2 * i + 1], Read64(secret, SECRET_MERGEACCS_START + 16 * i + 8)))
  }

  function MergeFrom(acc: Acc, secret: Secret, result: u64, i: nat): u64
    requires i <= 4
    decreases 4 - i
  {
    if i == 4 then Avalanche3(result)
    else MergeFrom(acc, secret, Add64(result, Mix2Accs(acc, secret, i)), i + 1)
  }

  function MergeAccs(acc: Acc, secret: Secret, start: u64): u64 {
    MergeFrom(acc, secret, start, 0)
  }

  function HashLong(input: seq<byte>, secret: Secret): u64
    requires MIDSIZE_MAX < |input| < TWO64
  {
    MergeAccs(LongAcc(input, secret), secret, Mul64(|input|, PRIME64_1))
  }

  /** Only the consumed bytes matter. */
  lemma {:induction false} StripesAccPrefix(input: seq<byte>, more: seq<byte>, secret: Secret, n: nat)
    requires 64 * n <= |input|
    ensures StripesAcc(input + more, secret, n) == StripesAcc(input, secret, n)
  {
    if n != 0 {
      StripesAccPrefix(input, more, secret, n - 1);
      assert (input + more)[64 * (n - 1)..64 * (n - 1) + 64] == input[64 * (n - 1)..64 * (n - 1) + 64];
    }
  }

  // ---------------------------------------------------- scalar forms in place

  /** The scalar accumulation: lane after lane, each adding its data to its
      neighbour and its product to itself. */
  method AccumulateScalar(acc: array<u64>, input: Stripe, key: Stripe)
    requires acc.Length == 8
    modifies acc
    ensures acc[..] == Accumulate512(old(acc[..]), input, key)
  {
    hide Read64, Add64, Xor64, Mult32to64;
    ghost var was: Acc := acc[..];
    var lane := 0;
    while lane < 8
      invariant 0 <= lane <= 8
      invariant forall i :: 0 <= i < 8 ==> acc[i] == PartialLane(was, input, key, i, lane)
    {
      var data := Read64(input, 8 * lane);
      var dataKey := Xor64(data, Read64(key, 8 * lane));
      var neighbour := if lane % 2 == 1 then lane - 1 else lane + 1;
      acc[neighbour] := Add64(acc[neighbour], data);
      acc[lane] := Add64(Mult32to64(Lo32(dataKey), Hi32(dataKey)), acc[lane]);
      AddSwaps(was[Swapped(lane)], data, LaneProduct(input, key, Swapped(lane)));
      AddCommutes(LaneProduct(input, key, lane), PartialLane(was, input, key, lane, lane));
      lane := lane + 1;
    }
  }

  lemma AddSwaps(a: u64, b: u64, c: u64)
    ensures Add64(Add64(a, b), c) == Add64(Add64(a, c), b)
  {
  }

  lemma AddCommutes(a: u64, b: u64)
    ensures Add64(a, b) == Add64(b, a)
  {
  }

  /** A lane when the first `done` lanes have been handled. */
  ghost function PartialLane(acc: Acc, input: Stripe, key: Stripe, lane: nat, done: nat): u64
    requires lane < 8
  {
    var a1 := if Swapped(lane) < done then Add64(acc[lane], Read64(input, 8 * Swapped(lane))) else acc[lane];
    if lane < done then Add64(a1, LaneProduct(input, key, lane)) else a1
  }

  method ScrambleScalar(acc: array<u64>, key: Stripe)
    requires acc.Length == 8
    modifies acc
    ensures acc[..] == Scramble(old(acc[..]), key)
  {
    hide Xor64, XorShift64, Read64, Mul64;
    ghost var was: Acc := acc[..];
    var lane := 0;
    while lane < 8
      invariant 0 <= lane <= 8
      invariant forall i :: 0 <= i < lane ==> acc[i] == ScrambleLane(was, key, i)
      invariant forall i :: lane <= i < 8 ==> acc[i] == was[i]
    {
      var acc64 := XorShift64(acc[lane], 47);
      acc64 := Xor64(acc64, Read64(key, 8 * lane));
      acc[lane] := Mul64(acc64, PRIME32_1);
      lane := lane + 1;
    }
  }

  // ----------------------------------------------------------- vector forms

  /** The vector accumulation on registers of `width` 64-bit lanes (2 for SSE2,
      4 for AVX2, 8 for AVX-512): each register is read, its data swapped
      within 128-bit pairs, its products formed, and written back at once. */
  method AccumulateVector(acc: array<u64>, input: Stripe, key: Stripe, width: nat)
    requires acc.Length == 8
    requires width == 2 || width == 4 || width == 8
    modifies acc
    ensures acc[..] == Accumulate512(old(acc[..]), input, key)
  {
    hide LaneProduct, Read64, Add64;
    ghost var was: Acc := acc[..];
    var at := 0;
    while at < 8
      invariant 0 <= at <= 8 && at % width == 0
      invariant forall i :: 0 <= i < at ==> acc[i] == AccumulateLane(was, input, key, i)
      invariant forall i :: at <= i < 8 ==> acc[i] == was[i]
      decreases 8 - at
    {
      var vector := acc[at..at + width];
      forall i | at <= i < at + width {
        acc[i] := Add64(LaneProduct(input, key, i), Add64(vector[i - at], Read64(input, 8 * Swapped(i))));
      }
      forall i | at <= i < at + width
        ensures acc[i] == AccumulateLane(was, input, key, i)
      {
        AddCommutes(LaneProduct(input, key, i), Add64(was[i], Read64(input, 8 * Swapped(i))));
      }
      at := at + width;
    }
  }

  /** The vector scramble multiplies by the 32-bit prime in two halves. */
  method ScrambleVector(acc: array<u64>, key: Stripe, width: nat)
    requires acc.Length == 8
    requires width == 2 || width == 4 || width == 8
    modifies acc
    ensures acc[..] == Scramble(old(acc[..]), key)
  {
    hide ScrambleVectorLane, Read64, Mul64, Xor64, XorShift64;
    ghost var was: Acc := acc[..];
    var at := 0;
    while at < 8
      invariant 0 <= at <= 8 && at % width == 0
      invariant forall i :: 0 <= i < at ==> acc[i] == ScrambleLane(was, key, i)
      invariant forall i :: at <= i < 8 ==> acc[i] == was[i]
      decreases 8 - at
    {
      var vector: seq<u64> := acc[at..at + width];
      forall i | at <= i < at + width {
        acc[i] := ScrambleVectorLane(vector[i - at], Read64(key, 8 * i));
      }
      forall i | at <= i < at + width
        ensures acc[i] == ScrambleLane(was, key, i)
      {
        ScrambleHalves(was[i], Read64(key, 8 * i));
      }
      at := at + width;
    }
  }

  /** key ^ acc ^ (acc >> 47), times the prime as low product plus shifted
      high product. */
  function ScrambleVectorLane(acc64: u64, key64: u64): u64 {
    var dataKey := Xor64(key64, XorShift64(acc64, 47));
    var prodLo := Mult32to64(Lo32(dataKey), PRIME32_1);
    var prodHi := Mult32to64(Hi32(dataKey), PRIME32_1);
    Add64(prodLo, Lo32(prodHi) * TWO32)
  }

  lemma ScrambleHalves(acc64: u64, key64: u64)
    ensures ScrambleVectorLane(acc64, key64) == Mul64(Xor64(XorShift64(acc64, 47), key64), PRIME32_1)
  {
    hide Xor64, XorShift64;
    var dataKey := Xor64(key64, XorShift64(acc64, 47));
    assert dataKey == Xor64(XorShift64(acc64, 47), key64) by { Xor64Commutes(key64, XorShift64(acc64, 47)); }
    MulByHalves(dataKey, PRIME32_1);
  }

  lemma Xor64Commutes(a: u64, b: u64)
    ensures Xor64(a, b) == Xor64(b, a)
  {
    XorCommutes(a, b);
  }

  lemma MulByHalves(x: u64, p: u32)
    ensures Add64(Mult32to64(Lo32(x), p), Lo32(Mult32to64(Hi32(x), p)) * TWO32) == Mul64(x, p)
  {
    var lo, hi := Mult32to64(Lo32(x), p), Mult32to64(Hi32(x), p);
    assert x * p == hi * TWO32 + lo by {
      hide Lo32, Hi32;
      Halves(x);
      assert (Hi32(x) * TWO32 + Lo32(x)) * p == (Hi32(x) * p) * TWO32 + Lo32(x) * p;
    }
    WrapOfSum(x * p, lo, hi);
  }

  lemma WrapOfSum(v: int, lo: u64, hi: u64)
    requires v == hi * TWO32 + lo
    ensures v % TWO64 == Add64(lo, Lo32(hi) * TWO32)
  {
    hide Lo32, Hi32;
    Halves(hi);
    var s := lo + Lo32(hi) * TWO32;
    assert v == Hi32(hi) * TWO64 + s;
    if s < TWO64 {
      RemainderOf(v, Hi32(hi), s);
    } else {
      RemainderOf(v, Hi32(hi) + 1, s - TWO64);
    }
  }

  // ------------------------------------------------------------ whole blocks

  /** Accumulates `count` stripes of `part`, the first of them at place k of
      its block; the stripes stay inside that block. */
  method Accumulate(acc: array<u64>, part: seq<byte>, secret: Secret, k: nat, count: nat)
    requires acc.Length == 8
    requires 64 * count <= |part| && k + count <= StripesPerBlock(secret)
    modifies acc
    ensures acc[..] == BlockAcc(old(acc[..]), part, secret, k, count)
  {
    hide Accumulate512;
    var n := 0;
    while n < count
      invariant 0 <= n <= count
      invariant acc[..] == BlockAcc(old(acc[..]), part, secret, k, n)
    {
      AccumulateScalar(acc, part[64 * n..64 * n + 64], secret[8 * (k + n)..8 * (k + n) + 64]);
      n := n + 1;
    }
  }

  /** The accumulators after `count` stripes of one block, before any scramble
      at its end. */
  function BlockAcc(acc: Acc, part: seq<byte>, secret: Secret, k: nat, count: nat): Acc
    requires 64 * count <= |part| && k + count <= StripesPerBlock(secret)
  {
    if count == 0 then acc
    else
      Accumulate512(BlockAcc(acc, part, secret, k, count - 1), StripeAt(part, count - 1),
                    KeyAt(secret, k + count - 1))
  }

  /** `part` starts with `count` bytes of the input, those from `at` on. */
  ghost predicate Window(part: seq<byte>, input: seq<byte>, at: nat, count: nat) {
    && at + count <= |input|
    && count <= |part|
    && forall i :: 0 <= i < count ==> part[i] == input[at + i]
  }

  /** Inside a block no scramble intervenes; at its end exactly one does. */
  lemma {:induction false} BlockIsStripes(input: seq<byte>, part: seq<byte>, secret: Secret, first: nat, count: nat)
    requires Window(part, input, 64 * first, 64 * count)
    requires Place(first, StripesPerBlock(secret)) + count <= StripesPerBlock(secret)
    ensures var per := StripesPerBlock(secret);
            var k := Place(first, per);
            var acc := BlockAcc(StripesAcc(input, secret, first), part, secret, k, count);
            if count > 0 && k + count == per
            then
              && StripesAcc(input, secret, first + count) == Scramble(acc, ScrambleKey(secret))
              && Place(first + count, per) == 0
            else
              && StripesAcc(input, secret, first + count) == acc
              && Place(first + count, per) == k + count
  {
    hide Accumulate512, Scramble, ScrambleKey, KeyAt, StripesPerBlock;
    if count > 0 {
      BlockIsStripes(input, part, secret, first, count - 1);
      SameStripe(input, part, first, count, count - 1);
      assert Place(first + count - 1, StripesPerBlock(secret)) == Place(first, StripesPerBlock(secret)) + count - 1;
    }
  }

  lemma SameStripe(input: seq<byte>, part: seq<byte>, first: nat, count: nat, i: nat)
    requires i < count
    requires Window(part, input, 64 * first, 64 * count)
    ensures StripeAt(part, i) == StripeAt(input, first + i)
  {
    var l, r := StripeAt(part, i), StripeAt(input, first + i);
    forall j | 0 <= j < 64
      ensures l[j] == r[j]
    {
      assert part[64 * i + j] == input[64 * first + (64 * i + j)];
    }
  }

  // -------------------------------------------------------- the one-shot loop

  /** Where block n starts. */
  function Offset(n: nat, blockLen: nat): nat { n * blockLen }

  lemma NextOffset(n: nat, blockLen: nat)
    ensures Offset(n + 1, blockLen) == Offset(n, blockLen) + blockLen
  {
  }

  lemma {:induction false} OffsetGrows(n: nat, m: nat, blockLen: nat)
    requires n <= m
    ensures Offset(n, blockLen) <= Offset(m, blockLen)
    decreases m
  {
    if n < m {
      OffsetGrows(n, m - 1, blockLen);
      NextOffset(m - 1, blockLen);
    }
  }

  function Quotient(a: nat, d: nat): (q: nat)
    requires d > 0
    ensures Offset(q, d) <= a < Offset(q, d) + d
  {
    a / d
  }

  lemma KeysAre(secret: Secret)
    ensures StripesPerBlock(secret) == (|secret| - 64) / 8 && ScrambleKey(secret) == secret[|secret| - 64..]
    ensures LastKey(secret) == secret[|secret| - 64 - 7..|secret| - 7]
  {
  }

  /** One full block, from its first stripe to its scramble. */
  method HashBlock(acc: array<u64>, input: seq<byte>, secret: Secret, at: nat, ghost done: nat)
    requires acc.Length == 8 && at == 64 * done
    requires at + 64 * StripesPerBlock(secret) <= |input|
    requires Place(done, StripesPerBlock(secret)) == 0
    requires acc[..] == StripesAcc(input, secret, done)
    modifies acc
    ensures Place(done + StripesPerBlock(secret), StripesPerBlock(secret)) == 0
    ensures acc[..] == StripesAcc(input, secret, done + StripesPerBlock(secret))
  {
    hide Accumulate512, Scramble, KeyAt, ScrambleKey, StripesPerBlock;
    KeysAre(secret);
    var per := (|secret| - 64) / 8;
    var part := input[at..];
    BlockIsStripes(input, part, secret, done, per);
    Accumulate(acc, part, secret, 0, per);
    ScrambleScalar(acc, secret[|secret| - 64..]);
  }

  /** The last partial block and the last stripe. */
  method HashRest(acc: array<u64>, input: seq<byte>, secret: Secret, at: nat, ghost done: nat)
    requires acc.Length == 8 && at == 64 * done
    requires |input| > STRIPE_LEN
    requires at <= |input| - 1 < at + 64 * StripesPerBlock(secret)
    requires Place(done, StripesPerBlock(secret)) == 0
    requires acc[..] == StripesAcc(input, secret, done)
    modifies acc
    ensures acc[..] == LongAcc(input, secret)
  {
    hide Accumulate512, Scramble, KeyAt, ScrambleKey, LastKey, StripesPerBlock;
    KeysAre(secret);
    var nbStripes := ((|input| - 1) - at) / STRIPE_LEN;
    assert done + nbStripes == (|input| - 1) / STRIPE_LEN;
    var rest := input[at..];
    BlockIsStripes(input, rest, secret, done, nbStripes);
    Accumulate(acc, rest, secret, 0, nbStripes);
    AccumulateScalar(acc, input[|input| - STRIPE_LEN..], secret[|secret| - 64 - 7..|secret| - 7]);
  }

  /** The one-shot loop: block after block, then the rest. */
  method HashLongLoop(acc: array<u64>, input: seq<byte>, secret: Secret)
    requires acc.Length == 8 && acc[..] == INIT_ACC
    requires |input| > STRIPE_LEN
    modifies acc
    ensures acc[..] == LongAcc(input, secret)
  {
    hide LongAcc, StripesPerBlock, ScrambleKey, LastKey, Offset, Quotient;
    KeysAre(secret);
    var per := (|secret| - 64) / 8;
    var blockLen := STRIPE_LEN * per;
    var nbBlocks := Quotient(|input| - 1, blockLen);
    var n := 0;
    ghost var done := 0;
    ZeroOffset(blockLen);
    while n < nbBlocks
      invariant 0 <= n <= nbBlocks
      invariant Offset(n, blockLen) == 64 * done <= |input|
      invariant Place(done, per) == 0
      invariant acc[..] == StripesAcc(input, secret, done)
    {
      NextOffset(n, blockLen);
      OffsetGrows(n + 1, nbBlocks, blockLen);
      HashBlock(acc, input, secret, Offset(n, blockLen), done);
      n, done := n + 1, done + per;
    }
    HashRest(acc, input, secret, Offset(nbBlocks, blockLen), done);
  }

  lemma ZeroOffset(blockLen: nat)
    ensures Offset(0, blockLen) == 0
  {
  }

  /** The long hash as the one-shot entry points compute it. */
  method HashLongOneShot(input: seq<byte>, secret: Secret) returns (h: u64)
    requires MIDSIZE_MAX < |input| < TWO64
    ensures h == HashLong(input, secret)
  {
    var acc := new u64[8];
    InitAcc(acc);
    HashLongLoop(acc, input, secret);
    h := MergeLoop(acc[..], secret, Mul64(|input|, PRIME64_1));
  }

  /** XXH3_mergeAccs, with the start of its keys. */
  method MergeLoop(acc: Acc, secret: Secret, start: u64) returns (h: u64)
    ensures h == MergeAccs(acc, secret, start)
  {
    hide Mul128Fold64, Xor64, Read64, Add64, Avalanche3;
    var result, i := start, 0;
    while i < 4
      invariant 0 <= i <= 4
      invariant MergeFrom(acc, secret, result, i) == MergeAccs(acc, secret, start)
    {
      result := Add64(result, Mul128Fold64(Xor64(acc[2 * i], Read64(secret, 11 + 16 * i)),
                                           Xor64(acc[2 * i + 1], Read64(secret, 11 + 16 * i + 8))));
      i := i + 1;
    }
    h := Avalanche3(result);
  }

  method InitAcc(acc: array<u64>)
    requires acc.Length == 8
    modifies acc
    ensures acc[..] == INIT_ACC
  {
    acc[0], acc[1], acc[2], acc[3] := PRIME32_3, PRIME64_1, PRIME64_2, PRIME64_3;
    acc[4], acc[5], acc[6], acc[7] := PRIME64_4, PRIME32_2, PRIME64_5, PRIME32_1;
  }
}

/** XXH3 before its streaming state: secrets derived from seeds, the four
    one-shot modes, and stripes fed to the accumulators in parts. */
module Xxh3Stream {
  import opened Words
  import opened Xxh3Mix
  import opened Xxh3Long

  datatype ErrorCode = Ok | Error

  // --------------------------------------------------------- seeded secrets

  /** The first n 16-byte rounds of the secret derived from a seed. */
  function CustomRounds(seed: u64, n: nat): (s: seq<byte>)
    requires n <= 12
    ensures |s| == 16 * n
  {
    if n == 0 then []
    else
      CustomRounds(seed, n - 1)
      + WriteLE(Add64(Read64(KSecret(), 16 * (n - 1)), seed), 8)
      + WriteLE(Sub64(Read64(KSecret(), 16 * (n - 1) + 8), seed), 8)
  }

  function CustomSecret(seed: u64): (s: Secret)
    ensures |s| == SECRET_DEFAULT_SIZE
  {
    CustomRounds(seed, 12)
  }

  /** XXH3_initCustomSecret, scalar form. */
  method InitCustomSecret(customSecret: array<byte>, seed: u64)
    requires customSecret.Length == SECRET_DEFAULT_SIZE
    modifies customSecret
    ensures customSecret[..] == CustomSecret(seed)
  {
    hide KSecret, WriteLE, Read64;
    var i := 0;
    while i < 12
      invariant 0 <= i <= 12
      invariant customSecret[..16 * i] == CustomRounds(seed, i)
    {
      ghost var before := customSecret[..16 * i];
      var lo := Add64(Read64(KSecret(), 16 * i), seed);
      var hi := Sub64(Read64(KSecret(), 16 * i + 8), seed);
      CopyInto(customSecret, 16 * i, WriteLE(lo, 8));
      CopyInto(customSecret, 16 * i + 8, WriteLE(hi, 8));
      i := i + 1;
      assert customSecret[..16 * i] == before + WriteLE(lo, 8) + WriteLE(hi, 8);
    }
    assert customSecret[..] == customSecret[..192];
  }

  /** XXH3_initCustomSecret, vector form: whole registers of 1, 2 or 4 pairs of
      64-bit lanes (SSE2, AVX2, AVX-512) get the seed added in even lanes and
      its negation in odd lanes. */
  method InitCustomSecretVector(customSecret: array<byte>, seed: u64, pairs: nat)
    requires customSecret.Length == SECRET_DEFAULT_SIZE
    requires pairs == 1 || pairs == 2 || pairs == 4
    modifies customSecret
    ensures customSecret[..] == CustomSecret(seed)
  {
    hide KSecret, WriteLE, Read64;
    var pair := 0;
    while pair < 12
      invariant 0 <= pair <= 12
      invariant (pairs == 2 ==> pair % 2 == 0) && (pairs == 4 ==> pair % 4 == 0)
      invariant customSecret[..16 * pair] == CustomRounds(seed, pair)
      decreases 12 - pair
    {
      AddSeedToRegister(customSecret, seed, pair, pairs);
      pair := pair + pairs;
    }
    assert customSecret[..] == customSecret[..192];
  }

  /** One register: `pairs` pairs of 64-bit lanes, from pair `first` on. */
  method AddSeedToRegister(customSecret: array<byte>, seed: u64, first: nat, pairs: nat)
    requires customSecret.Length == SECRET_DEFAULT_SIZE
    requires first + pairs <= 12
    requires customSecret[..16 * first] == CustomRounds(seed, first)
    modifies customSecret
    ensures customSecret[..16 * (first + pairs)] == CustomRounds(seed, first + pairs)
  {
    hide KSecret, WriteLE, Read64;
    var i := first;
    while i < first + pairs
      invariant first <= i <= first + pairs
      invariant customSecret[..16 * i] == CustomRounds(seed, i)
    {
      ghost var before := customSecret[..16 * i];
      var even := Add64(Read64(KSecret(), 16 * i), seed);
      var odd := Add64(Read64(KSecret(), 16 * i + 8), Sub64(0, seed));
      CopyInto(customSecret, 16 * i, WriteLE(even, 8) + WriteLE(odd, 8));
      i := i + 1;
      assert customSecret[..16 * i] == before + WriteLE(even, 8) + WriteLE(odd, 8);
      NegationAdds(Read64(KSecret(), 16 * (i - 1) + 8), seed);
    }
  }

  lemma NegationAdds(a: u64, b: u64)
    ensures Add64(a, Sub64(0, b)) == Sub64(a, b)
  {
  }

  /** Seed zero derives the default secret itself. */
  lemma ZeroSeedSecret()
    ensures CustomSecret(0) == KSecret()
  {
    hide KSecret, Read64;
    ZeroSeedRounds(12);
    assert KSecret()[..192] == KSecret();
  }

  lemma {:induction false} ZeroSeedRounds(n: nat)
    requires n <= 12
    ensures CustomRounds(0, n) == KSecret()[..16 * n]
  {
    hide KSecret;
    if n != 0 {
      ZeroSeedRounds(n - 1);
      hide Read64, WriteLE;
      var k: seq<byte>, at := KSecret(), 16 * (n - 1);
      RewriteWord(k, at);
      RewriteWord(k, at + 8);
      ThreeSlices(k, at);
    }
  }

  lemma ThreeSlices(s: seq<byte>, at: nat)
    requires at + 16 <= |s|
    ensures s[..at + 16] == s[..at] + s[at..at + 8] + s[at + 8..at + 16]
  {
    assert s[..at + 16] == s[..at] + s[at..at + 16];
    assert s[at..at + 16] == s[at..at + 8] + s[at + 8..at + 16];
  }

  lemma RewriteWord(s: seq<byte>, at: nat)
    requires at + 8 <= |s|
    ensures WriteLE(Read64(s, at), 8) == s[at..at + 8]
  {
    hide ReadLE, WriteLE;
    ReadThenWrite(s[at..at + 8]);
  }

  // -------------------------------------------------------- the one-shot API

  datatype Mode =
    | Default
    | Seeded(seed: u64)
    | WithSecret(secret: Secret)
    | SecretAndSeed(secret: Secret, seed: u64)

  function OneShot(mode: Mode, input: seq<byte>): u64
    requires |input| < TWO64
  {
    match mode
    case Default =>
      if |input| <= MIDSIZE_MAX then HashShort(input, KSecret(), 0)
      else HashLong(input, KSecret())
    case Seeded(seed) =>
      if |input| <= MIDSIZE_MAX then HashShort(input, KSecret(), seed)
      else if seed == 0 then HashLong(input, KSecret())
      else HashLong(input, CustomSecret(seed))
    case WithSecret(secret) =>
      if |input| <= MIDSIZE_MAX then HashShort(input, secret, 0)
      else HashLong(input, secret)
    case SecretAndSeed(secret, seed) =>
      if |input| <= MIDSIZE_MAX then HashShort(input, KSecret(), seed)
      else HashLong(input, secret)
  }

  /** With the secret generated from the seed, secret-and-seed hashing is seed
      hashing, for every input and every seed, zero included. */
  lemma GeneratedSecretAgrees(seed: u64, input: seq<byte>)
    requires |input| < TWO64
    ensures OneShot(SecretAndSeed(CustomSecret(seed), seed), input) == OneShot(Seeded(seed), input)
  {
    hide HashShort, HashLong, CustomSecret, KSecret;
    ZeroSeedSecret();
  }

  // ---------------------------------------------------------------- streaming

  const INTERNALBUFFER_SIZE := 256
  const INTERNALBUFFER_STRIPES := 4

  /** Feeds nbStripes stripes to the accumulators, which may cross any number
      of block ends; `soFar` is the place in the current block. */
  method ConsumeStripes(acc: array<u64>, soFar: nat, part: seq<byte>, nbStripes: nat, secret: Secret,
                        ghost input: seq<byte>, ghost first: nat)
    returns (soFar': nat, used: nat)
    requires acc.Length == 8
    requires Window(part, input, 64 * first, 64 * nbStripes)
    requires soFar == Place(first, StripesPerBlock(secret))
    requires acc[..] == StripesAcc(input, secret, first)
    modifies acc
    ensures acc[..] == StripesAcc(input, secret, first + nbStripes)
    ensures soFar' == Place(first + nbStripes, StripesPerBlock(secret))
    ensures used == 64 * nbStripes
  {
    hide Accumulate512, Scramble, KeyAt, ScrambleKey, LastKey, StripesPerBlock, BlockAcc, StripesAcc, Place;
    KeysAre(secret);
    var per := (|secret| - 64) / 8;
    var initialKey, left := soFar, nbStripes;
    soFar', used := soFar, 0;
    ghost var done := first;
    if left >= per - soFar {
      var thisIter, more := per - soFar, true;
      while more
        invariant 0 <= left && done >= first
        invariant done + left == first + nbStripes && used == 64 * (done - first)
        invariant more ==> initialKey + thisIter == per && thisIter <= left
        invariant !more ==> initialKey == 0 && left < per
        invariant initialKey == Place(done, per)
        invariant acc[..] == StripesAcc(input, secret, done)
        decreases more, left
      {
        BlockIsStripes(input, part[used..], secret, done, thisIter);
        Accumulate(acc, part[used..], secret, initialKey, thisIter);
        ScrambleScalar(acc, secret[|secret| - 64..]);
        used := used + thisIter * STRIPE_LEN;
        left := left - thisIter;
        done := done + thisIter;
        thisIter := per;
        initialKey := 0;
        more := left >= per;
      }
      soFar' := 0;
    }
    if left > 0 {
      BlockIsStripes(input, part[used..], secret, done, left);
      Accumulate(acc, part[used..], secret, initialKey, left);
      used := used + left * STRIPE_LEN;
      soFar' := soFar' + left;
    }
  }

  /** What the streaming fields hold after `input`, of which the first `done`
      stripes have reached the accumulators.  Once anything has been consumed
      the end of the buffer keeps the last consumed bytes, as far as newer
      buffered bytes have not covered them. */
  ghost predicate Streaming(input: seq<byte>, secret: Secret, acc: seq<u64>, buffer: seq<byte>,
                            bufferedSize: nat, soFar: nat, done: nat)
  {
    && |acc| == 8 && |buffer| == INTERNALBUFFER_SIZE
    && bufferedSize <= INTERNALBUFFER_SIZE
    && 64 * done + bufferedSize == |input|
    && (done > 0 ==> bufferedSize > 0 && |input| > INTERNALBUFFER_SIZE)
    && soFar == Place(done, StripesPerBlock(secret))
    && acc == StripesAcc(input, secret, done)
    && Window(buffer, input, 64 * done, bufferedSize)
    && (done > 0 ==> TailKept(input, buffer, bufferedSize, done))
  }

  ghost predicate TailKept(input: seq<byte>, buffer: seq<byte>, from: nat, done: nat)
    requires |buffer| == INTERNALBUFFER_SIZE && done > 0 && 64 * done <= |input|
  {
    forall i :: 192 <= i < 256 && from <= i ==> buffer[i] == input[64 * done - 256 + i]
  }
}

/** The XXH3 streaming state: create, reset, update, digest. */
module Xxh3State {
  import opened Wrappers
  import opened Words
  import opened Xxh3Mix
  import opened Xxh3Long
  import opened Xxh3Stream

  /** The secret whose slices key the stripes in a mode. */
  function StripeSecret(mode: Mode): Secret {
    match mode
    case Default => KSecret()
    case Seeded(seed) => if seed == 0 then KSecret() else CustomSecret(seed)
    case WithSecret(secret) => secret
    case SecretAndSeed(secret, _) => secret
  }

  lemma OneShotLong(mode: Mode, input: seq<byte>)
    requires MIDSIZE_MAX < |input| < TWO64
    ensures OneShot(mode, input) == HashLong(input, StripeSecret(mode))
  {
    hide KSecret, CustomSecret, HashLong, HashShort;
  }

  /** `input` extended by `chunk` still starts with the same consumed stripes. */
  lemma StreamingExtends(input: seq<byte>, chunk: seq<byte>, secret: Secret, acc: seq<u64>, buffer: seq<byte>,
                         bufferedSize: nat, soFar: nat, done: nat)
    requires Streaming(input, secret, acc, buffer, bufferedSize, soFar, done)
    ensures 64 * done <= |input + chunk| && acc == StripesAcc(input + chunk, secret, done)
    ensures Window(buffer, input + chunk, 64 * done, bufferedSize)
    ensures done > 0 ==> TailKept(input + chunk, buffer, bufferedSize, done)
  {
    hide StripesAcc;
    StripesAccPrefix(input, chunk, secret, done);
  }

  /** The last 64 bytes of the input: either all buffered, or patched together
      from the kept tail and the buffered bytes. */
  lemma LastStripe(input: seq<byte>, secret: Secret, acc: seq<u64>, buffer: seq<byte>,
                   bufferedSize: nat, soFar: nat, done: nat, lastStripe: Stripe)
    requires MIDSIZE_MAX < |input|
    requires Streaming(input, secret, acc, buffer, bufferedSize, soFar, done)
    requires lastStripe ==
      if bufferedSize >= STRIPE_LEN then buffer[bufferedSize - STRIPE_LEN..bufferedSize]
      else buffer[INTERNALBUFFER_SIZE - (STRIPE_LEN - bufferedSize)..] + buffer[..bufferedSize]
    ensures lastStripe == input[|input| - STRIPE_LEN..]
  {
    hide StripesAcc, Place, StripesPerBlock;
    var last := input[|input| - STRIPE_LEN..];
    forall i | 0 <= i < STRIPE_LEN
      ensures lastStripe[i] == last[i]
    {
      if bufferedSize >= STRIPE_LEN {
        assert lastStripe[i] == buffer[bufferedSize - STRIPE_LEN + i];
      } else if i < STRIPE_LEN - bufferedSize {
        assert lastStripe[i] == buffer[INTERNALBUFFER_SIZE - (STRIPE_LEN - bufferedSize) + i];
      } else {
        assert lastStripe[i] == buffer[i - (STRIPE_LEN - bufferedSize)];
      }
    }
  }

  lemma ShorterWindow(part: seq<byte>, input: seq<byte>, at: nat, count: nat, n: nat)
    requires Window(part, input, at, count) && n <= count
    ensures Window(part, input, at, n)
  {
  }

  /** The digest of a long input from the streaming fields. */
  method DigestLong(acc: array<u64>, buffer: seq<byte>, bufferedSize: nat, soFar: nat, secret: Secret,
                    ghost input: seq<byte>, ghost done: nat)
    requires acc.Length == 8 && MIDSIZE_MAX < |input|
    requires Streaming(input, secret, acc[..], buffer, bufferedSize, soFar, done)
    modifies acc
    ensures acc[..] == LongAcc(input, secret)
  {
    hide StripesAcc, Accumulate512, ScrambleKey, LastKey, Streaming, LongAcc;
    KeysAre(secret);
    ghost var before := (|input| - 1) / STRIPE_LEN;
    var lastStripe := CatchUp(acc, buffer, bufferedSize, soFar, secret, input, done, before);
    LongAccEnds(input, secret, acc[..]);
    AccumulateScalar(acc, lastStripe, secret[|secret| - 64 - 7..|secret| - 7]);
  }

  /** All stripes before the last one reach the accumulators; the last one is
      returned. */
  method CatchUp(acc: array<u64>, buffer: seq<byte>, bufferedSize: nat, soFar: nat, secret: Secret,
                 ghost input: seq<byte>, ghost done: nat, ghost before: nat)
    returns (lastStripe: Stripe)
    requires acc.Length == 8 && MIDSIZE_MAX < |input|
    requires Streaming(input, secret, acc[..], buffer, bufferedSize, soFar, done)
    requires 64 * before < |input| <= 64 * before + 64
    modifies acc
    ensures acc[..] == StripesAcc(input, secret, before) && lastStripe == input[|input| - STRIPE_LEN..]
  {
    hide StripesAcc, Place, StripesPerBlock, TailKept, Window, Streaming;
    StreamingParts(input, secret, acc[..], buffer, bufferedSize, soFar, done);
    ghost var accumulated := acc[..];
    if bufferedSize >= STRIPE_LEN {
      var nbStripes := (bufferedSize - 1) / STRIPE_LEN;
      ShorterWindow(buffer, input, 64 * done, bufferedSize, 64 * nbStripes);
      var _, _ := ConsumeStripes(acc, soFar, buffer, nbStripes, secret, input, done);
      lastStripe := buffer[bufferedSize - STRIPE_LEN..bufferedSize];
    } else {
      var catchup := STRIPE_LEN - bufferedSize;
      lastStripe := buffer[INTERNALBUFFER_SIZE - catchup..] + buffer[..bufferedSize];
    }
    LastStripe(input, secret, accumulated, buffer, bufferedSize, soFar, done, lastStripe);
  }

  lemma StreamingParts(input: seq<byte>, secret: Secret, acc: seq<u64>, buffer: seq<byte>,
                       bufferedSize: nat, soFar: nat, done: nat)
    requires Streaming(input, secret, acc, buffer, bufferedSize, soFar, done)
    ensures |acc| == 8 && |buffer| == INTERNALBUFFER_SIZE && bufferedSize <= INTERNALBUFFER_SIZE
    ensures 64 * done + bufferedSize == |input| && (done > 0 ==> bufferedSize > 0)
    ensures soFar == Place(done, StripesPerBlock(secret)) && acc == StripesAcc(input, secret, done)
    ensures Window(buffer, input, 64 * done, bufferedSize)
  {
  }

  lemma LongAccEnds(input: seq<byte>, secret: Secret, acc: Acc)
    requires |input| > STRIPE_LEN && acc == StripesAcc(input, secret, (|input| - 1) / STRIPE_LEN)
    ensures Accumulate512(acc, input[|input| - STRIPE_LEN..], LastKey(secret)) == LongAcc(input, secret)
  {
  }

  /** Everything before the stripes' end is consumed, nothing is buffered. */
  ghost predicate Caught(input: seq<byte>, secret: Secret, acc: seq<u64>, buffer: seq<byte>, soFar: nat, done: nat) {
    && |acc| == 8 && |buffer| == INTERNALBUFFER_SIZE && 64 * done <= |input|
    && soFar == Place(done, StripesPerBlock(secret))
    && acc == StripesAcc(input, secret, done)
    && (done > 0 ==> TailKept(input, buffer, 0, done))
  }

  /** Completes the partly filled buffer from the chunk and consumes it. */
  method CompleteBuffer(acc: array<u64>, buffer: array<byte>, bufferedSize: nat, soFar: nat, chunk: seq<byte>,
                        secret: Secret, ghost input: seq<byte>, ghost done: nat)
    returns (soFar': nat)
    requires acc.Length == 8
    requires Streaming(input, secret, acc[..], buffer[..], bufferedSize, soFar, done)
    requires 0 < bufferedSize && INTERNALBUFFER_SIZE - bufferedSize < |chunk|
    modifies acc, buffer
    ensures Caught(input + chunk, secret, acc[..], buffer[..], soFar', done + INTERNALBUFFER_STRIPES)
    ensures 64 * (done + INTERNALBUFFER_STRIPES) == |input| + INTERNALBUFFER_SIZE - bufferedSize
  {
    hide StripesAcc, Place, StripesPerBlock;
    StreamingExtends(input, chunk, secret, acc[..], buffer[..], bufferedSize, soFar, done);
    CopyInto(buffer, bufferedSize, chunk[..INTERNALBUFFER_SIZE - bufferedSize]);
    assert Window(buffer[..], input + chunk, 64 * done, 64 * INTERNALBUFFER_STRIPES);
    var used;
    soFar', used := ConsumeStripes(acc, soFar, buffer[..], INTERNALBUFFER_STRIPES, secret, input + chunk, done);
    assert TailKept(input + chunk, buffer[..], 0, done + INTERNALBUFFER_STRIPES);
  }

  /** Consumes a large rest of the chunk directly, all but its last 1 to 64
      bytes, and keeps the last consumed stripe in the end of the buffer. */
  method ConsumeDirectly(acc: array<u64>, buffer: array<byte>, soFar: nat, chunk: seq<byte>, at: nat,
                         secret: Secret, ghost all: seq<byte>, ghost done: nat)
    returns (soFar': nat, at': nat)
    requires acc.Length == 8
    requires Caught(all, secret, acc[..], buffer[..], soFar, done)
    requires at + INTERNALBUFFER_SIZE < |chunk|
    requires 64 * done + (|chunk| - at) == |all| && chunk[at..] == all[64 * done..]
    modifies acc, buffer
    ensures at < at' < |chunk| <= at' + STRIPE_LEN && (at' - at) % STRIPE_LEN == 0
    ensures Caught(all, secret, acc[..], buffer[..], soFar', done + (at' - at) / STRIPE_LEN)
  {
    hide StripesAcc, Place, StripesPerBlock;
    var nbStripes := (|chunk| - 1 - at) / STRIPE_LEN;
    var rest := chunk[at..];
    assert Window(rest, all, 64 * done, 64 * nbStripes);
    var used;
    soFar', used := ConsumeStripes(acc, soFar, rest, nbStripes, secret, all, done);
    at' := at + used;
    CopyInto(buffer, INTERNALBUFFER_SIZE - STRIPE_LEN, chunk[at' - STRIPE_LEN..at']);
    forall i | 192 <= i < 256
      ensures buffer[i] == all[64 * (done + nbStripes) - 256 + i]
    {
      assert buffer[i] == chunk[at' - 256 + i] == rest[used - 256 + i];
    }
  }

  /** Buffers the 1 to 256 bytes that are left. */
  method BufferRest(acc: array<u64>, buffer: array<byte>, soFar: nat, rest: seq<byte>,
                    secret: Secret, ghost all: seq<byte>, ghost done: nat)
    requires Caught(all, secret, acc[..], buffer[..], soFar, done)
    requires 0 < |rest| <= INTERNALBUFFER_SIZE < |all|
    requires 64 * done + |rest| == |all| && rest == all[64 * done..]
    modifies buffer
    ensures Streaming(all, secret, acc[..], buffer[..], |rest|, soFar, done)
  {
    hide StripesAcc, Place, StripesPerBlock;
    CopyInto(buffer, 0, rest);
  }

  /** A chunk that fits the buffer is only appended to it. */
  method BufferAll(acc: array<u64>, buffer: array<byte>, bufferedSize: nat, soFar: nat, chunk: seq<byte>,
                   secret: Secret, ghost input: seq<byte>, ghost done: nat)
    requires Streaming(input, secret, acc[..], buffer[..], bufferedSize, soFar, done)
    requires |chunk| <= INTERNALBUFFER_SIZE - bufferedSize
    modifies buffer
    ensures Streaming(input + chunk, secret, acc[..], buffer[..], bufferedSize + |chunk|, soFar, done)
  {
    hide StripesAcc, Place, StripesPerBlock;
    StreamingExtends(input, chunk, secret, acc[..], buffer[..], bufferedSize, soFar, done);
    CopyInto(buffer, bufferedSize, chunk);
  }

  lemma RestOfAll(input: seq<byte>, chunk: seq<byte>, at: nat)
    requires at <= |chunk|
    ensures (input + chunk)[|input| + at..] == chunk[at..]
  {
  }

  lemma StreamingSizes(input: seq<byte>, secret: Secret, acc: seq<u64>, buffer: seq<byte>,
                       bufferedSize: nat, soFar: nat, done: nat)
    requires Streaming(input, secret, acc, buffer, bufferedSize, soFar, done)
    ensures |buffer| == INTERNALBUFFER_SIZE && bufferedSize <= INTERNALBUFFER_SIZE && 64 * done + bufferedSize == |input|
  {
  }

  lemma NothingBuffered(input: seq<byte>, chunk: seq<byte>, secret: Secret, acc: seq<u64>, buffer: seq<byte>,
                        soFar: nat, done: nat)
    requires Streaming(input, secret, acc, buffer, 0, soFar, done)
    ensures Caught(input + chunk, secret, acc, buffer, soFar, done)
  {
    hide StripesAcc, Place, StripesPerBlock;
    StreamingExtends(input, chunk, secret, acc, buffer, 0, soFar, done);
  }

  /** An update too large for the buffer. */
  method ConsumeAndBuffer(acc: array<u64>, buffer: array<byte>, bufferedSize: nat, soFar: nat, chunk: seq<byte>,
                          secret: Secret, ghost input: seq<byte>, ghost done: nat)
    returns (bufferedSize': nat, soFar': nat, ghost done': nat)
    requires acc.Length == 8
    requires Streaming(input, secret, acc[..], buffer[..], bufferedSize, soFar, done)
    requires |chunk| > INTERNALBUFFER_SIZE - bufferedSize
    modifies acc, buffer
    ensures Streaming(input + chunk, secret, acc[..], buffer[..], bufferedSize', soFar', done')
  {
    hide Caught, Streaming;
    soFar', done' := soFar, done;
    ghost var all := input + chunk;
    var at := 0;
    StreamingSizes(input, secret, acc[..], buffer[..], bufferedSize, soFar, done);
    if bufferedSize > 0 {
      at := INTERNALBUFFER_SIZE - bufferedSize;
      soFar' := CompleteBuffer(acc, buffer, bufferedSize, soFar, chunk, secret, input, done);
      done' := done + INTERNALBUFFER_STRIPES;
    } else {
      NothingBuffered(input, chunk, secret, acc[..], buffer[..], soFar, done);
    }
    RestOfAll(input, chunk, at);
    if |chunk| - at > INTERNALBUFFER_SIZE {
      ghost var from := at;
      soFar', at := ConsumeDirectly(acc, buffer, soFar', chunk, at, secret, all, done');
      done' := done' + (at - from) / STRIPE_LEN;
      RestOfAll(input, chunk, at);
    }
    BufferRest(acc, buffer, soFar', chunk[at..], secret, all, done');
    bufferedSize' := |chunk| - at;
  }

  /** One update of the accumulators and the buffer. */
  method UpdateBuffers(acc: array<u64>, buffer: array<byte>, bufferedSize: nat, soFar: nat, chunk: seq<byte>,
                       secret: Secret, ghost input: seq<byte>)
    returns (bufferedSize': nat, soFar': nat)
    requires acc.Length == 8 && bufferedSize <= |input|
    requires Streaming(input, secret, acc[..], buffer[..], bufferedSize, soFar, (|input| - bufferedSize) / 64)
    modifies acc, buffer
    ensures bufferedSize' <= |input + chunk|
    ensures Streaming(input + chunk, secret, acc[..], buffer[..], bufferedSize', soFar',
                      (|input + chunk| - bufferedSize') / 64)
  {
    ghost var done := (|input| - bufferedSize) / 64;
    if |chunk| <= INTERNALBUFFER_SIZE - bufferedSize {
      BufferAll(acc, buffer, bufferedSize, soFar, chunk, secret, input, done);
      bufferedSize', soFar' := bufferedSize + |chunk|, soFar;
    } else {
      bufferedSize', soFar', done := ConsumeAndBuffer(acc, buffer, bufferedSize, soFar, chunk, secret, input, done);
    }
    StripesDone(input + chunk, secret, acc[..], buffer[..], bufferedSize', soFar', done);
  }

  lemma StripesDone(input: seq<byte>, secret: Secret, acc: seq<u64>, buffer: seq<byte>,
                    bufferedSize: nat, soFar: nat, done: nat)
    requires Streaming(input, secret, acc, buffer, bufferedSize, soFar, done)
    ensures bufferedSize <= |input| && done == (|input| - bufferedSize) / 64
  {
  }

  /** An empty input, whatever the buffer holds. */
  lemma NothingStreamed(secret: Secret, buffer: seq<byte>)
    requires |buffer| == INTERNALBUFFER_SIZE
    ensures Streaming([], secret, INIT_ACC, buffer, 0, 0, 0)
  {
    hide StripesPerBlock, INIT_ACC;
  }

  class State {
    const acc: array<u64>
    const customSecret: array<byte>
    const buffer: array<byte>
    var bufferedSize: nat
    var useSeed: bool
    var nbStripesSoFar: nat
    var totalLen: u64
    var nbStripesPerBlock: nat
    var secretLimit: u64
    var seed: u64
    var extSecret: Option<seq<byte>>

    /** The mode of the last reset, if it succeeded, and all bytes since. */
    ghost var mode: Option<Mode>
    ghost var input: seq<byte>

    /** Never a stale derived secret: without an external secret, and with a
        seed, the cached secret is the one derived from that very seed. */
    ghost predicate Valid()
      reads this, customSecret
    {
      && acc.Length == 8
      && customSecret.Length == SECRET_DEFAULT_SIZE
      && buffer.Length == INTERNALBUFFER_SIZE
      && customSecret != buffer
      && (extSecret.None? && seed != 0 ==> customSecret[..] == CustomSecret(seed))
    }

    /** The mode fields record the mode. */
    ghost predicate InMode(m: Mode)
      reads this
    {
      match m
      case Default => seed == 0 && !useSeed && extSecret == Some(KSecret())
      case Seeded(s) =>
        if s == 0 then seed == 0 && !useSeed && extSecret == Some(KSecret())
        else seed == s && useSeed && extSecret.None?
      case WithSecret(secret) => seed == 0 && !useSeed && extSecret == Some(secret)
      case SecretAndSeed(secret, s) => seed == s && useSeed && extSecret == Some(secret)
    }

    ghost function Done(): int
      reads this
    {
      (|input| - bufferedSize) / 64
    }

    /** After a successful reset, and after every update that follows. */
    ghost predicate Ready()
      reads this, acc, customSecret, buffer
    {
      && Valid()
      && mode.Some? && InMode(mode.value)
      && totalLen == |input|
      && secretLimit == |StripeSecret(mode.value)| - STRIPE_LEN
      && nbStripesPerBlock == StripesPerBlock(StripeSecret(mode.value))
      && bufferedSize <= |input|
      && Streaming(input, StripeSecret(mode.value), acc[..], buffer[..], bufferedSize, nbStripesSoFar, Done())
    }

    /** XXH3_createState: only the seed and the external secret are set. */
    constructor ()
      ensures Valid() && mode.None?
      ensures fresh(acc) && fresh(customSecret) && fresh(buffer)
    {
      hide CustomSecret, KSecret;
      acc := new u64[8];
      customSecret := new byte[SECRET_DEFAULT_SIZE];
      buffer := new byte[INTERNALBUFFER_SIZE];
      seed := 0;
      extSecret := None;
      mode := None;
    }

    method ResetInternal(newSeed: u64, secret: Option<seq<byte>>, secretSize: u64)
      requires acc.Length == 8
      modifies this, acc
      ensures acc[..] == INIT_ACC
      ensures bufferedSize == 0 && nbStripesSoFar == 0 && totalLen == 0
      ensures seed == newSeed && useSeed == (newSeed != 0) && extSecret == secret
      ensures secretLimit == Sub64(secretSize, STRIPE_LEN) && nbStripesPerBlock == secretLimit / 8
      ensures mode.None? && input == []
    {
      hide INIT_ACC;
      bufferedSize, useSeed, nbStripesSoFar, totalLen := 0, false, 0, 0;
      InitAcc(acc);
      seed := newSeed;
      useSeed := newSeed != 0;
      extSecret := secret;
      secretLimit := Sub64(secretSize, STRIPE_LEN);
      nbStripesPerBlock := secretLimit / 8;
      mode, input := None, [];
    }

    /** The fields after a reset belong to an empty input. */
    lemma IsReset(m: Mode)
      requires Valid() && InMode(m) && mode == Some(m) && input == [] && acc[..] == INIT_ACC
      requires bufferedSize == 0 && nbStripesSoFar == 0 && totalLen == 0
      requires secretLimit == |StripeSecret(m)| - 64 && nbStripesPerBlock == (|StripeSecret(m)| - 64) / 8
      ensures Ready()
    {
      hide KSecret, CustomSecret, Streaming, INIT_ACC, StripesPerBlock, ScrambleKey, LastKey;
      KeysAre(StripeSecret(m));
      NothingStreamed(StripeSecret(m), buffer[..]);
    }

    method Reset() returns (e: ErrorCode)
      requires Valid()
      modifies this, acc
      ensures e == Ok && Ready() && mode == Some(Default) && input == []
    {
      hide KSecret, Ready, Streaming, INIT_ACC, StripesPerBlock, ScrambleKey, LastKey;
      ResetInternal(0, Some(KSecret()), SECRET_DEFAULT_SIZE);
      mode := Some(Default);
      IsReset(Default);
      e := Ok;
    }

    /** A missing or short secret is reported after the fields have already
        been overwritten; nothing may then be hashed before another reset. */
    method ResetWithSecret(secret: Option<seq<byte>>, secretSize: u64) returns (e: ErrorCode)
      requires Valid()
      requires secret.Some? ==> |secret.value| == secretSize
      modifies this, acc
      ensures Valid()
      ensures e == Ok <==> secret.Some? && secretSize >= SECRET_SIZE_MIN
      ensures e == Ok ==> Ready() && mode == Some(WithSecret(secret.value)) && input == []
      ensures e == Error ==> mode.None?
    {
      hide KSecret, Ready, Streaming, INIT_ACC, StripesPerBlock, ScrambleKey, LastKey;
      ResetInternal(0, secret, secretSize);
      if secret.None? {
        return Error;
      }
      if secretSize < SECRET_SIZE_MIN {
        return Error;
      }
      mode := Some(WithSecret(secret.value));
      IsReset(WithSecret(secret.value));
      e := Ok;
    }

    method ResetWithSeed(newSeed: u64) returns (e: ErrorCode)
      requires Valid()
      modifies this, acc, customSecret
      ensures e == Ok && Ready() && mode == Some(Seeded(newSeed)) && input == []
    {
      hide KSecret, CustomSecret, Streaming, INIT_ACC, StripesPerBlock, ScrambleKey, LastKey;
      if newSeed == 0 {
        e := Reset();
        mode := Some(Seeded(0));
        return;
      }
      if newSeed != seed || extSecret.Some? {
        InitCustomSecret(customSecret, newSeed);
      }
      ResetInternal(newSeed, None, SECRET_DEFAULT_SIZE);
      mode := Some(Seeded(newSeed));
      IsReset(Seeded(newSeed));
      e := Ok;
    }

    /** A missing or short secret is refused before anything is changed. */
    method ResetWithSecretAndSeed(secret: Option<seq<byte>>, secretSize: u64, newSeed: u64) returns (e: ErrorCode)
      requires Valid()
      requires secret.Some? ==> |secret.value| == secretSize
      modifies this, acc
      ensures Valid()
      ensures e == Ok <==> secret.Some? && secretSize >= SECRET_SIZE_MIN
      ensures e == Ok ==> Ready() && mode == Some(SecretAndSeed(secret.value, newSeed)) && input == []
      ensures e == Error ==> unchanged(this) && unchanged(acc)
    {
      hide KSecret, Ready, Streaming, INIT_ACC, StripesPerBlock, ScrambleKey, LastKey;
      if secret.None? {
        return Error;
      }
      if secretSize < SECRET_SIZE_MIN {
        return Error;
      }
      ResetInternal(newSeed, secret, secretSize);
      useSeed := true;
      mode := Some(SecretAndSeed(secret.value, newSeed));
      IsReset(SecretAndSeed(secret.value, newSeed));
      e := Ok;
    }

    /** The secret in use: the external one, or else the derived one. */
    function CurrentSecret(): seq<byte>
      reads this, customSecret
    {
      if extSecret.None? then customSecret[..] else extSecret.value
    }

    lemma SecretIsCurrent()
      requires Ready()
      ensures CurrentSecret() == StripeSecret(mode.value)
    {
      hide KSecret, CustomSecret;
    }

    /** XXH3_update. */
    method Update(chunk: seq<byte>) returns (e: ErrorCode)
      requires Ready() && |input| + |chunk| < TWO64
      modifies this, acc, buffer
      ensures e == Ok && Ready() && mode == old(mode)
      ensures input == old(input) + chunk
    {
      hide KSecret, CustomSecret, Streaming;
      SecretIsCurrent();
      var secret: Secret := CurrentSecret();
      totalLen := totalLen + |chunk|;
      bufferedSize, nbStripesSoFar :=
        UpdateBuffers(acc, buffer, bufferedSize, nbStripesSoFar, chunk, secret, input);
      input := input + chunk;
      e := Ok;
    }

    /** XXH3_64bits_digest: the one-shot hash of everything since the reset.
        The state is left as it was. */
    method Digest() returns (h: u64)
      requires Ready()
      ensures h == OneShot(mode.value, input)
    {
      hide KSecret, CustomSecret, StripesAcc, Place, StripesPerBlock, HashShort, MergeAccs, LongAcc;
      SecretIsCurrent();
      var secret: Secret := CurrentSecret();
      if totalLen > MIDSIZE_MAX {
        var copy := new u64[8](i requires 0 <= i < 8 reads this, acc => acc[i]);
        assert copy[..] == acc[..];
        DigestLong(copy, buffer[..], bufferedSize, nbStripesSoFar, secret, input, Done());
        OneShotLong(mode.value, input);
        h := MergeLoop(copy[..], secret, Mul64(totalLen, PRIME64_1));
      } else {
        assert buffer[..totalLen] == input;
        if useSeed {
          h := HashShort(buffer[..totalLen], KSecret(), seed);
        } else {
          h := HashShort(buffer[..totalLen], secret, 0);
        }
      }
    }
  }

  // ------------------------------------------------------------- whole runs

  /** Any cut of the input into chunks, in any mode, and whatever the state
      was used for before, hashes like the whole input at once. */
  method HashChunks(state: State, mode: Mode, chunks: seq<seq<byte>>) returns (h: u64)
    requires state.Valid()
    requires |Flatten(chunks)| < TWO64
    requires mode.WithSecret? || mode.SecretAndSeed? ==> |mode.secret| < TWO64
    modifies state, state.acc, state.customSecret, state.buffer
    ensures state.Valid()
    ensures h == OneShot(mode, Flatten(chunks))
  {
    hide *;
    ResetTo(state, mode);
    var i := 0;
    assert chunks[0..] == chunks;
    while i < |chunks|
      invariant 0 <= i <= |chunks|
      invariant state.Ready() && state.mode == Some(mode)
      invariant state.input + Flatten(chunks[i..]) == Flatten(chunks)
    {
      FlattenNext(chunks, i);
      var e := state.Update(chunks[i]);
      i := i + 1;
    }
    FlattenNone(chunks);
    assert state.input == Flatten(chunks);
    StaysValid(state);
    h := state.Digest();
  }

  /** The reset that belongs to a mode. */
  method ResetTo(state: State, mode: Mode)
    requires state.Valid()
    requires mode.WithSecret? || mode.SecretAndSeed? ==> |mode.secret| < TWO64
    modifies state, state.acc, state.customSecret, state.buffer
    ensures state.Ready() && state.mode == Some(mode) && state.input == []
  {
    hide OneShot, KSecret, CustomSecret, Streaming, StripeSecret;
    var e;
    match mode {
      case Default => e := state.Reset();
      case Seeded(seed) => e := state.ResetWithSeed(seed);
      case WithSecret(secret) => e := state.ResetWithSecret(Some(secret), |secret|);
      case SecretAndSeed(secret, seed) => e := state.ResetWithSecretAndSeed(Some(secret), |secret|, seed);
    }
  }

  lemma StaysValid(state: State)
    requires state.Ready()
    ensures state.Valid()
  {
  }

  lemma FlattenNext(chunks: seq<seq<byte>>, i: nat)
    requires i < |chunks|
    ensures Flatten(chunks[i..]) == chunks[i] + Flatten(chunks[i + 1..])
    ensures |chunks[i]| <= |Flatten(chunks[i..])|
  {
    assert chunks[i..][1..] == chunks[i + 1..];
  }

  lemma FlattenNone(chunks: seq<seq<byte>>)
    ensures Flatten(chunks[|chunks|..]) == []
  {
  }
}

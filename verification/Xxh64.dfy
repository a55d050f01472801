/** XXH64: the one-shot hash, and the streaming state proved to agree with it
    for every way of cutting the input.

  The reference meaning is `Lanes`: four lanes updated by one 32-byte stripe
  after another.  Both forms compute it; what is left of the input, at most
  31 bytes, goes through `Finalize`.
 */
module Xxh64 {
  import opened Words
  import opened Xxh3Mix

  const STRIPE := 32

  type Lanes = v: seq<u64> | |v| == 4 witness [0, 0, 0, 0]

  function Round(acc: u64, input: u64): u64 {
    Mul64(Rotl64(Add64(acc, Mul64(input, PRIME64_2)), 31), PRIME64_1)
  }

  function InitLanes(seed: u64): Lanes {
    [Add64(Add64(seed, PRIME64_1), PRIME64_2), Add64(seed, PRIME64_2), seed, Sub64(seed, PRIME64_1)]
  }

  function Step(v: Lanes, stripe: seq<byte>): Lanes
    requires |stripe| == STRIPE
  {
    [Round(v[0], Read64(stripe, 0)), Round(v[1], Read64(stripe, 8)),
     Round(v[2], Read64(stripe, 16)), Round(v[3], Read64(stripe, 24))]
  }

  /** The lanes v after the first n stripes of `part`. */
  function Steps(v: Lanes, part: seq<byte>, n: nat): Lanes
    requires STRIPE * n <= |part|
  {
    if n == 0 then v
    else Step(Steps(v, part, n - 1), part[STRIPE * (n - 1)..STRIPE * n])
  }

  function MergeRound(acc: u64, val: u64): u64 {
    Add64(Mul64(Xor64(acc, Round(0, val)), PRIME64_1), PRIME64_4)
  }

  function Converge(v: Lanes): u64 {
    var h := Add64(Add64(Add64(Rotl64(v[0], 1), Rotl64(v[1], 7)), Rotl64(v[2], 12)), Rotl64(v[3], 18));
    MergeRound(MergeRound(MergeRound(MergeRound(h, v[0]), v[1]), v[2]), v[3])
  }

  function Process8(h: u64, tail: seq<byte>): u64
    requires |tail| >= 8
  {
    Add64(Mul64(Rotl64(Xor64(h, Round(0, Read64(tail, 0))), 27), PRIME64_1), PRIME64_4)
  }

  function Process4(h: u64, tail: seq<byte>): u64
    requires |tail| >= 4
  {
    Add64(Mul64(Rotl64(Xor64(h, Mul64(Read32(tail, 0), PRIME64_1)), 23), PRIME64_2), PRIME64_3)
  }

  function Process1(h: u64, b: byte): u64 {
    Mul64(Rotl64(Xor64(h, Mul64(b, PRIME64_5)), 11), PRIME64_1)
  }

  /** The last bytes, in words of 8, then at most one of 4, then singly. */
  function Finalize(h: u64, tail: seq<byte>): u64
    decreases |tail|
  {
    hide Process8, Process4, Process1, Avalanche64;
    if |tail| >= 8 then Finalize(Process8(h, tail), tail[8..])
    else if |tail| >= 4 then Finalize(Process4(h, tail), tail[4..])
    else if |tail| >= 1 then Finalize(Process1(h, tail[0]), tail[1..])
    else Avalanche64(h)
  }

  /** XXH64_finalize. */
  method FinalizeLoop(hash: u64, tail: seq<byte>) returns (h: u64)
    ensures h == Finalize(hash, tail)
  {
    hide Process8, Process4, Process1, Avalanche64;
    h := hash;
    var rest := tail;
    while |rest| >= 8
      invariant Finalize(h, rest) == Finalize(hash, tail)
    {
      h, rest := Process8(h, rest), rest[8..];
    }
    if |rest| >= 4 {
      h, rest := Process4(h, rest), rest[4..];
    }
    while |rest| > 0
      invariant |rest| < 4
      invariant Finalize(h, rest) == Finalize(hash, tail)
    {
      h, rest := Process1(h, rest[0]), rest[1..];
    }
    h := Avalanche64(h);
  }

  /** The reference meaning of the hash. */
  function Hash(input: seq<byte>, seed: u64): u64 {
    var n := |input| / STRIPE;
    var start :=
      if |input| >= STRIPE then Converge(Steps(InitLanes(seed), input, n)) else Add64(seed, PRIME64_5);
    Finalize(Add64(start, |input| % TWO64), input[STRIPE * n..])
  }

  // ------------------------------------------------------ laws of the stripes

  lemma {:induction false} StepsPrefix(v: Lanes, part: seq<byte>, more: seq<byte>, n: nat)
    requires STRIPE * n <= |part|
    ensures Steps(v, part + more, n) == Steps(v, part, n)
  {
    hide Step;
    if n != 0 {
      StepsPrefix(v, part, more, n - 1);
      SliceOfFirst(part, more, STRIPE * (n - 1), STRIPE * n);
    }
  }

  /** Whole stripes can be consumed in two goes. */
  lemma {:induction false} StepsSplit(v: Lanes, head: seq<byte>, rest: seq<byte>, k: nat, n: nat)
    requires |head| == STRIPE * k && STRIPE * n <= |rest|
    ensures Steps(v, head + rest, k + n) == Steps(Steps(v, head, k), rest, n)
  {
    hide Step;
    if n == 0 {
      StepsPrefix(v, head, rest, k);
    } else {
      StepsSplit(v, head, rest, k, n - 1);
      SliceOfSecond(head, rest, STRIPE * (n - 1), STRIPE * n);
    }
  }

  lemma OneStep(v: Lanes, stripe: seq<byte>)
    requires |stripe| == STRIPE
    ensures Steps(v, stripe, 1) == Step(v, stripe)
  {
    hide Step;
    assert stripe[0..STRIPE] == stripe;
    assert Steps(v, stripe, 0) == v;
  }

  lemma NoSteps(v: Lanes, part: seq<byte>)
    ensures Steps(v, part, 0) == v
  {
  }

  /** Of an extended input, what was consumed stays consumed: only the bytes
      left over and the new chunk still matter. */
  lemma Pending(seed: u64, input: seq<byte>, chunk: seq<byte>)
    ensures var k := |input| / STRIPE;
            var all, pending := input + chunk, input[STRIPE * k..] + chunk;
            var m, n := |all| / STRIPE, |pending| / STRIPE;
            && Steps(InitLanes(seed), all, m) == Steps(Steps(InitLanes(seed), input, k), pending, n)
            && all[STRIPE * m..] == pending[STRIPE * n..]
            && |all| % STRIPE == |pending| % STRIPE
  {
    hide InitLanes, Step, Steps;
    var k := |input| / STRIPE;
    var head, tail := input[..STRIPE * k], input[STRIPE * k..];
    assert input == head + tail && input + chunk == head + (tail + chunk);
    StepsPrefix(InitLanes(seed), head, tail, k);
    StepsSplit(InitLanes(seed), head, tail + chunk, k, |tail + chunk| / STRIPE);
  }

  // ----------------------------------------------------- the loops of the code

  method StepInPlace(v: array<u64>, stripe: seq<byte>)
    requires v.Length == 4 && |stripe| == STRIPE
    modifies v
    ensures v[..] == Step(old(v[..]), stripe)
  {
    hide Round, Read64;
    v[0] := Round(v[0], Read64(stripe, 0));
    v[1] := Round(v[1], Read64(stripe, 8));
    v[2] := Round(v[2], Read64(stripe, 16));
    v[3] := Round(v[3], Read64(stripe, 24));
  }

  /** Runs over every whole stripe and returns how far it came. */
  method StepThrough(v: array<u64>, part: seq<byte>) returns (at: nat)
    requires v.Length == 4
    modifies v
    ensures at == STRIPE * (|part| / STRIPE)
    ensures v[..] == Steps(old(v[..]), part, |part| / STRIPE)
  {
    hide Step;
    at := 0;
    ghost var n := 0;
    while at + STRIPE <= |part|
      invariant at == STRIPE * n <= |part|
      invariant v[..] == Steps(old(v[..]), part, n)
      decreases |part| - at
    {
      StepInPlace(v, part[at..at + STRIPE]);
      at, n := at + STRIPE, n + 1;
    }
  }

  /** Completes the partial stripe in `mem` from the chunk. */
  method CompleteStripe(v: array<u64>, mem: array<byte>, memsize: nat, chunk: seq<byte>)
    requires v.Length == 4 && mem.Length == STRIPE && memsize < STRIPE <= memsize + |chunk|
    modifies v, mem
    ensures v[..] == Steps(old(v[..]), old(mem[..memsize]) + chunk[..STRIPE - memsize], 1)
  {
    hide InitLanes, Step, Steps;
    ghost var first := mem[..memsize] + chunk[..STRIPE - memsize];
    CopyInto(mem, memsize, chunk[..STRIPE - memsize]);
    assert mem[..] == first;
    OneStep(v[..], first);
    StepInPlace(v, mem[..]);
  }

  lemma StepsAfterFirst(v: Lanes, kept: seq<byte>, chunk: seq<byte>, at: nat)
    requires |kept| < STRIPE && at == STRIPE - |kept| <= |chunk|
    ensures var pending, rest := kept + chunk, chunk[at..];
            var n, m := |pending| / STRIPE, |rest| / STRIPE;
            && Steps(v, pending, n) == Steps(Steps(v, kept + chunk[..at], 1), rest, m)
            && pending[STRIPE * n..] == rest[STRIPE * m..]
  {
    hide Steps;
    var first, rest := kept + chunk[..at], chunk[at..];
    assert first + rest == kept + chunk;
    StepsSplit(v, first, rest, 1, |rest| / STRIPE);
  }

  /** Completes the partial stripe, if there is one, and then runs over the
      rest of the chunk; returns where the chunk's own leftover starts. */
  method Consume(v: array<u64>, mem: array<byte>, memsize: nat, chunk: seq<byte>) returns (at: nat)
    requires v.Length == 4 && mem.Length == STRIPE && memsize < STRIPE <= memsize + |chunk|
    modifies v, mem
    ensures var pending := old(mem[..memsize]) + chunk;
            && at <= |chunk|
            && v[..] == Steps(old(v[..]), pending, |pending| / STRIPE)
            && chunk[at..] == pending[STRIPE * (|pending| / STRIPE)..]
  {
    hide InitLanes, Step, Steps;
    at := 0;
    if memsize > 0 {
      at := STRIPE - memsize;
      StepsAfterFirst(v[..], mem[..memsize], chunk, at);
      CompleteStripe(v, mem, memsize, chunk);
    } else {
      assert mem[..memsize] + chunk == chunk;
    }
    var used := StepThrough(v, chunk[at..]);
    at := at + used;
  }

  /** Lanes and buffer after the whole stripes of `pending`. */
  ghost predicate Fed(v: seq<u64>, pending: seq<byte>, v': seq<u64>, mem': seq<byte>, memsize': nat) {
    var n := |pending| / STRIPE;
    && |v| == 4 && v' == Steps(v, pending, n)
    && memsize' == |pending| % STRIPE <= |mem'| && mem'[..memsize'] == pending[STRIPE * n..]
  }

  /** A short chunk is only buffered; otherwise its whole stripes are consumed. */
  method Feed(v: array<u64>, mem: array<byte>, memsize: nat, chunk: seq<byte>) returns (memsize': nat)
    requires v.Length == 4 && mem.Length == STRIPE && memsize < STRIPE
    modifies v, mem
    ensures Fed(old(v[..]), old(mem[..memsize]) + chunk, v[..], mem[..], memsize')
  {
    hide InitLanes, Step, Steps;
    if memsize + |chunk| < STRIPE {
      ghost var pending := mem[..memsize] + chunk;
      CopyInto(mem, memsize, chunk);
      memsize' := memsize + |chunk|;
      assert mem[..memsize'] == pending;
      NoSteps(v[..], pending);
    } else {
      var at := Consume(v, mem, memsize, chunk);
      memsize' := |chunk| - at;
      if at < |chunk| {
        CopyInto(mem, 0, chunk[at..]);
      }
      assert mem[..memsize'] == chunk[at..];
    }
  }

  /** The one-shot hash. */
  method OneShot(input: seq<byte>, seed: u64) returns (h: u64)
    ensures h == Hash(input, seed)
  {
    hide Step, Finalize, Converge;
    var at := 0;
    if |input| >= STRIPE {
      var v := new u64[4];
      v[0], v[1] := Add64(Add64(seed, PRIME64_1), PRIME64_2), Add64(seed, PRIME64_2);
      v[2], v[3] := seed, Sub64(seed, PRIME64_1);
      assert v[..] == InitLanes(seed);
      at := StepThrough(v, input);
      h := Converge(v[..]);
    } else {
      h := Add64(seed, PRIME64_5);
    }
    h := Add64(h, |input| % TWO64);
    h := FinalizeLoop(h, input[at..]);
  }

  // ---------------------------------------------------------------- streaming

  /** What the lanes and the buffer hold after `input`. */
  ghost predicate Streaming(seed: u64, input: seq<byte>, v: seq<u64>, mem: seq<byte>, memsize: nat) {
    && |v| == 4 && |mem| == STRIPE
    && memsize == |input| % STRIPE
    && v == Steps(InitLanes(seed), input, |input| / STRIPE)
    && mem[..memsize] == input[STRIPE * (|input| / STRIPE)..]
  }

  lemma HashOfStream(seed: u64, input: seq<byte>, v: seq<u64>, mem: seq<byte>, memsize: nat)
    requires Streaming(seed, input, v, mem, memsize)
    ensures Hash(input, seed)
         == Finalize(Add64(if |input| >= STRIPE then Converge(v) else Add64(v[2], PRIME64_5), |input| % TWO64),
                     mem[..memsize])
  {
    hide Finalize, Converge, Step;
  }

  lemma StreamingSize(seed: u64, input: seq<byte>, v: seq<u64>, mem: seq<byte>, memsize: nat)
    requires Streaming(seed, input, v, mem, memsize)
    ensures memsize < STRIPE
  {
  }

  /** Feeding the bytes of a chunk to lanes and buffer extends the input by it. */
  lemma StreamingMore(seed: u64, input: seq<byte>, chunk: seq<byte>, v: seq<u64>, mem: seq<byte>, memsize: nat,
                      v': seq<u64>, mem': seq<byte>, memsize': nat)
    requires Streaming(seed, input, v, mem, memsize) && |mem'| == STRIPE
    requires memsize <= STRIPE && Fed(v, mem[..memsize] + chunk, v', mem', memsize')
    ensures Streaming(seed, input + chunk, v', mem', memsize')
  {
    hide InitLanes, Step, Steps;
    Pending(seed, input, chunk);
  }

  class State {
    const v: array<u64>
    const mem: array<byte>
    var memsize: nat
    var totalLen: u64

    ghost var seed: u64
    /** All bytes since the reset. */
    ghost var input: seq<byte>

    ghost predicate Shaped() {
      v.Length == 4 && mem.Length == STRIPE
    }

    ghost predicate Valid()
      reads this, v, mem
    {
      && Shaped()
      && totalLen == |input|
      && Streaming(seed, input, v[..], mem[..], memsize)
    }

    constructor ()
      ensures Shaped() && fresh(v) && fresh(mem)
    {
      v := new u64[4];
      mem := new byte[STRIPE];
    }

    method Reset(newSeed: u64)
      requires Shaped()
      modifies this, v
      ensures Valid() && seed == newSeed && input == []
    {
      totalLen, memsize := 0, 0;
      v[0], v[1] := Add64(Add64(newSeed, PRIME64_1), PRIME64_2), Add64(newSeed, PRIME64_2);
      v[2], v[3] := newSeed, Sub64(newSeed, PRIME64_1);
      seed, input := newSeed, [];
    }

    method Update(chunk: seq<byte>)
      requires Valid() && |input| + |chunk| < TWO64
      modifies this, v, mem
      ensures Valid() && seed == old(seed) && input == old(input) + chunk
    {
      hide Streaming, Fed;
      ghost var was, kept, size := v[..], mem[..], memsize;
      StreamingSize(seed, input, was, kept, size);
      totalLen := totalLen + |chunk|;
      memsize := Feed(v, mem, memsize, chunk);
      StreamingMore(seed, input, chunk, was, kept, size, v[..], mem[..], memsize);
      input := input + chunk;
    }

    method Digest() returns (h: u64)
      requires Valid()
      ensures h == Hash(input, seed)
    {
      hide Step, Steps, InitLanes, Finalize, Converge, Hash;
      HashOfStream(seed, input, v[..], mem[..], memsize);
      if totalLen >= STRIPE {
        h := Converge(v[..]);
      } else {
        h := Add64(v[2], PRIME64_5);
      }
      h := Add64(h, totalLen);
      h := FinalizeLoop(h, mem[..totalLen % STRIPE]);
    }
  }

  // --------------------------------------------------------------- whole runs

  /** Any cut of the input into chunks hashes like the whole. */
  method HashChunks(chunks: seq<seq<byte>>, seed: u64) returns (h: u64)
    requires |Flatten(chunks)| < TWO64
    ensures h == Hash(Flatten(chunks), seed)
  {
    hide Hash, Streaming;
    var state := new State();
    state.Reset(seed);
    var i := 0;
    assert chunks[0..] == chunks;
    while i < |chunks|
      invariant 0 <= i <= |chunks|
      invariant state.Valid() && state.seed == seed && fresh(state) && fresh(state.v) && fresh(state.mem)
      invariant state.input + Flatten(chunks[i..]) == Flatten(chunks)
    {
      assert chunks[i..][1..] == chunks[i + 1..];
      state.Update(chunks[i]);
      i := i + 1;
    }
    assert state.input == Flatten(chunks);
    h := state.Digest();
  }
}

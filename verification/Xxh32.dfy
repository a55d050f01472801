/** XXH32: the one-shot hash, and the streaming state proved to agree with it
    for every way of cutting the input,
    even after the 32-bit length counter has wrapped.

  The reference meaning is `Lanes`: four lanes updated by one 16-byte stripe
  after another.  Both forms compute it; what is left of the input, at most
  15 bytes, goes through `Finalize`.
 */
module Xxh32 {
  import opened Words
  import opened Xxh3Mix

  const STRIPE := 16

  type Lanes = v: seq<u32> | |v| == 4 witness [0, 0, 0, 0]

  function Round(acc: u32, input: u32): u32 {
    Mul32(Rotl32(Add32(acc, Mul32(input, PRIME32_2)), 13), PRIME32_1)
  }

  function InitLanes(seed: u32): Lanes {
    [Add32(Add32(seed, PRIME32_1), PRIME32_2), Add32(seed, PRIME32_2), seed, Sub32(seed, PRIME32_1)]
  }

  function Step(v: Lanes, stripe: seq<byte>): Lanes
    requires |stripe| == STRIPE
  {
    [Round(v[0], Read32(stripe, 0)), Round(v[1], Read32(stripe, 4)),
     Round(v[2], Read32(stripe, 8)), Round(v[3], Read32(stripe, 12))]
  }

  /** The lanes v after the first n stripes of `part`. */
  function Steps(v: Lanes, part: seq<byte>, n: nat): Lanes
    requires STRIPE * n <= |part|
  {
    if n == 0 then v
    else Step(Steps(v, part, n - 1), part[STRIPE * (n - 1)..STRIPE * n])
  }

  function Converge(v: Lanes): u32 {
    Add32(Add32(Add32(Rotl32(v[0], 1), Rotl32(v[1], 7)), Rotl32(v[2], 12)), Rotl32(v[3], 18))
  }

  function Avalanche(hash: u32): u32 {
    var h1 := Mul32(Xor32(hash, Shr32(hash, 15)), PRIME32_2);
    var h2 := Mul32(Xor32(h1, Shr32(h1, 13)), PRIME32_3);
    Xor32(h2, Shr32(h2, 16))
  }

  function Process4(h: u32, tail: seq<byte>): u32
    requires |tail| >= 4
  {
    Mul32(Rotl32(Add32(h, Mul32(Read32(tail, 0), PRIME32_3)), 17), PRIME32_4)
  }

  function Process1(h: u32, b: byte): u32 {
    Mul32(Rotl32(Add32(h, Mul32(b, PRIME32_5)), 11), PRIME32_1)
  }

  /** The last bytes, in words of 4, then singly. */
  function Finalize(h: u32, tail: seq<byte>): u32
    decreases |tail|
  {
    hide Process4, Process1, Avalanche;
    if |tail| >= 4 then Finalize(Process4(h, tail), tail[4..])
    else if |tail| >= 1 then Finalize(Process1(h, tail[0]), tail[1..])
    else Avalanche(h)
  }

  /** XXH32_finalize, rolled form. */
  method FinalizeLoop(hash: u32, tail: seq<byte>) returns (h: u32)
    ensures h == Finalize(hash, tail)
  {
    hide Process4, Process1, Avalanche;
    h := hash;
    var rest := tail;
    while |rest| >= 4
      invariant Finalize(h, rest) == Finalize(hash, tail)
    {
      h, rest := Process4(h, rest), rest[4..];
    }
    while |rest| > 0
      invariant |rest| < 4
      invariant Finalize(h, rest) == Finalize(hash, tail)
    {
      h, rest := Process1(h, rest[0]), rest[1..];
    }
    h := Avalanche(h);
  }

  /** XXH32_finalize, unrolled form: a switch on the length that falls through
      one word or byte at a time. */
  method FinalizeSwitch(hash: u32, tail: seq<byte>) returns (h: u32)
    requires |tail| < STRIPE
    ensures h == Finalize(hash, tail)
  {
    hide Process4, Process1, Avalanche;
    h := hash;
    var rest := tail;
    if |tail| >= 12 {
      h, rest := Process4(h, rest), rest[4..];
    }
    assert Finalize(h, rest) == Finalize(hash, tail);
    if |tail| >= 8 {
      h, rest := Process4(h, rest), rest[4..];
    }
    assert Finalize(h, rest) == Finalize(hash, tail);
    if |tail| >= 4 {
      h, rest := Process4(h, rest), rest[4..];
    }
    assert |rest| == |tail| % 4 && Finalize(h, rest) == Finalize(hash, tail);
    if |tail| % 4 == 3 {
      h, rest := Process1(h, rest[0]), rest[1..];
    }
    assert Finalize(h, rest) == Finalize(hash, tail);
    if |tail| % 4 >= 2 {
      h, rest := Process1(h, rest[0]), rest[1..];
    }
    assert Finalize(h, rest) == Finalize(hash, tail);
    if |tail| % 4 >= 1 {
      h, rest := Process1(h, rest[0]), rest[1..];
    }
    assert rest == [] && Finalize(h, rest) == Finalize(hash, tail);
    h := Avalanche(h);
  }

  /** The reference meaning of the hash. */
  function Hash(input: seq<byte>, seed: u32): u32 {
    var n := |input| / STRIPE;
    var start :=
      if |input| >= STRIPE then Converge(Steps(InitLanes(seed), input, n)) else Add32(seed, PRIME32_5);
    Finalize(Add32(start, |input| % TWO32), input[STRIPE * n..])
  }

  // ------------------------------------------------------ laws of the stripes

  lemma {:induction false} StepsPrefix(v: Lanes, part: seq<byte>, more: seq<byte>, n: nat)
    requires STRIPE * n <= |part|
    ensures Steps(v, part + more, n) == Steps(v, part, n)
  {
    hide Step;
    if n != 0 {
      StepsPrefix(v, part, more, n - 1);
      SliceOfFirst(part, more, STRIPE * (n - 1), STRIPE * n);
    }
  }

  /** Whole stripes can be consumed in two goes. */
  lemma {:induction false} StepsSplit(v: Lanes, head: seq<byte>, rest: seq<byte>, k: nat, n: nat)
    requires |head| == STRIPE * k && STRIPE * n <= |rest|
    ensures Steps(v, head + rest, k + n) == Steps(Steps(v, head, k), rest, n)
  {
    hide Step;
    if n == 0 {
      StepsPrefix(v, head, rest, k);
    } else {
      StepsSplit(v, head, rest, k, n - 1);
      SliceOfSecond(head, rest, STRIPE * (n - 1), STRIPE * n);
    }
  }

  lemma OneStep(v: Lanes, stripe: seq<byte>)
    requires |stripe| == STRIPE
    ensures Steps(v, stripe, 1) == Step(v, stripe)
  {
    hide Step;
    assert stripe[0..STRIPE] == stripe;
    assert Steps(v, stripe, 0) == v;
  }

  lemma NoSteps(v: Lanes, part: seq<byte>)
    ensures Steps(v, part, 0) == v
  {
  }

  /** Of an extended input, what was consumed stays consumed: only the bytes
      left over and the new chunk still matter. */
  lemma Pending(seed: u32, input: seq<byte>, chunk: seq<byte>)
    ensures var k := |input| / STRIPE;
            var all, pending := input + chunk, input[STRIPE * k..] + chunk;
            var m, n := |all| / STRIPE, |pending| / STRIPE;
            && Steps(InitLanes(seed), all, m) == Steps(Steps(InitLanes(seed), input, k), pending, n)
            && all[STRIPE * m..] == pending[STRIPE * n..]
            && |all| % STRIPE == |pending| % STRIPE
  {
    hide InitLanes, Step, Steps;
    var k := |input| / STRIPE;
    var head, tail := input[..STRIPE * k], input[STRIPE * k..];
    assert input == head + tail && input + chunk == head + (tail + chunk);
    StepsPrefix(InitLanes(seed), head, tail, k);
    StepsSplit(InitLanes(seed), head, tail + chunk, k, |tail + chunk| / STRIPE);
  }

  // ----------------------------------------------------- the loops of the code

  method StepInPlace(v: array<u32>, stripe: seq<byte>)
    requires v.Length == 4 && |stripe| == STRIPE
    modifies v
    ensures v[..] == Step(old(v[..]), stripe)
  {
    hide Round, Read32;
    v[0] := Round(v[0], Read32(stripe, 0));
    v[1] := Round(v[1], Read32(stripe, 4));
    v[2] := Round(v[2], Read32(stripe, 8));
    v[3] := Round(v[3], Read32(stripe, 12));
  }

  /** Runs over every whole stripe and returns how far it came. */
  method StepThrough(v: array<u32>, part: seq<byte>) returns (at: nat)
    requires v.Length == 4
    modifies v
    ensures at == STRIPE * (|part| / STRIPE)
    ensures v[..] == Steps(old(v[..]), part, |part| / STRIPE)
  {
    hide Step;
    at := 0;
    ghost var n := 0;
    while at + STRIPE <= |part|
      invariant at == STRIPE * n <= |part|
      invariant v[..] == Steps(old(v[..]), part, n)
      decreases |part| - at
    {
      StepInPlace(v, part[at..at + STRIPE]);
      at, n := at + STRIPE, n + 1;
    }
  }

  /** Completes the partial stripe in `mem` from the chunk. */
  method CompleteStripe(v: array<u32>, mem: array<byte>, memsize: nat, chunk: seq<byte>)
    requires v.Length == 4 && mem.Length == STRIPE && memsize < STRIPE <= memsize + |chunk|
    modifies v, mem
    ensures v[..] == Steps(old(v[..]), old(mem[..memsize]) + chunk[..STRIPE - memsize], 1)
  {
    hide InitLanes, Step, Steps;
    ghost var first := mem[..memsize] + chunk[..STRIPE - memsize];
    CopyInto(mem, memsize, chunk[..STRIPE - memsize]);
    assert mem[..] == first;
    OneStep(v[..], first);
    StepInPlace(v, mem[..]);
  }

  lemma StepsAfterFirst(v: Lanes, kept: seq<byte>, chunk: seq<byte>, at: nat)
    requires |kept| < STRIPE && at == STRIPE - |kept| <= |chunk|
    ensures var pending, rest := kept + chunk, chunk[at..];
            var n, m := |pending| / STRIPE, |rest| / STRIPE;
            && Steps(v, pending, n) == Steps(Steps(v, kept + chunk[..at], 1), rest, m)
            && pending[STRIPE * n..] == rest[STRIPE * m..]
  {
    hide Steps;
    var first, rest := kept + chunk[..at], chunk[at..];
    assert first + rest == kept + chunk;
    StepsSplit(v, first, rest, 1, |rest| / STRIPE);
  }

  /** Completes the partial stripe, if there is one, and then runs over the
      rest of the chunk; returns where the chunk's own leftover starts. */
  method Consume(v: array<u32>, mem: array<byte>, memsize: nat, chunk: seq<byte>) returns (at: nat)
    requires v.Length == 4 && mem.Length == STRIPE && memsize < STRIPE <= memsize + |chunk|
    modifies v, mem
    ensures var pending := old(mem[..memsize]) + chunk;
            && at <= |chunk|
            && v[..] == Steps(old(v[..]), pending, |pending| / STRIPE)
            && chunk[at..] == pending[STRIPE * (|pending| / STRIPE)..]
  {
    hide InitLanes, Step, Steps;
    at := 0;
    if memsize > 0 {
      at := STRIPE - memsize;
      StepsAfterFirst(v[..], mem[..memsize], chunk, at);
      CompleteStripe(v, mem, memsize, chunk);
    } else {
      assert mem[..memsize] + chunk == chunk;
    }
    var used := StepThrough(v, chunk[at..]);
    at := at + used;
  }

  /** Lanes and buffer after the whole stripes of `pending`. */
  ghost predicate Fed(v: seq<u32>, pending: seq<byte>, v': seq<u32>, mem': seq<byte>, memsize': nat) {
    var n := |pending| / STRIPE;
    && |v| == 4 && v' == Steps(v, pending, n)
    && memsize' == |pending| % STRIPE <= |mem'| && mem'[..memsize'] == pending[STRIPE * n..]
  }

  /** A short chunk is only buffered; otherwise its whole stripes are consumed. */
  method Feed(v: array<u32>, mem: array<byte>, memsize: nat, chunk: seq<byte>) returns (memsize': nat)
    requires v.Length == 4 && mem.Length == STRIPE && memsize < STRIPE
    modifies v, mem
    ensures Fed(old(v[..]), old(mem[..memsize]) + chunk, v[..], mem[..], memsize')
  {
    hide InitLanes, Step, Steps;
    if memsize + |chunk| < STRIPE {
      ghost var pending := mem[..memsize] + chunk;
      CopyInto(mem, memsize, chunk);
      memsize' := memsize + |chunk|;
      assert mem[..memsize'] == pending;
      NoSteps(v[..], pending);
    } else {
      var at := Consume(v, mem, memsize, chunk);
      memsize' := |chunk| - at;
      if at < |chunk| {
        CopyInto(mem, 0, chunk[at..]);
      }
      assert mem[..memsize'] == chunk[at..];
    }
  }

  /** The one-shot hash. */
  method OneShot(input: seq<byte>, seed: u32) returns (h: u32)
    ensures h == Hash(input, seed)
  {
    hide Step, Finalize, Converge;
    var at := 0;
    if |input| >= STRIPE {
      var v := new u32[4];
      v[0], v[1] := Add32(Add32(seed, PRIME32_1), PRIME32_2), Add32(seed, PRIME32_2);
      v[2], v[3] := seed, Sub32(seed, PRIME32_1);
      assert v[..] == InitLanes(seed);
      at := StepThrough(v, input);
      h := Converge(v[..]);
    } else {
      h := Add32(seed, PRIME32_5);
    }
    h := Add32(h, |input| % TWO32);
    h := FinalizeLoop(h, input[at..]);
  }

  // ---------------------------------------------------------------- streaming

  /** The cast of a length to 32 bits. */
  function Truncated(n: nat): u32 { n % TWO32 }

  /** The length fields after n bytes: a counter that wraps, and a flag that
      says exactly whether at least 16 bytes have been seen. */
  ghost predicate Counted(n: nat, total: u32, large: bool) {
    total == Truncated(n) && large == (n >= STRIPE)
  }

  lemma TruncatedSum(n: nat, len: nat)
    ensures Add32(Truncated(n), Truncated(len)) == Truncated(n + len)
  {
    var q, p := n / TWO32, len / TWO32;
    var s := Truncated(n) + Truncated(len);
    assert n + len == (q + p) * TWO32 + s;
    if s >= TWO32 {
      assert n + len == (q + p + 1) * TWO32 + (s - TWO32);
    }
  }

  /** A wrap needs far more than 16 bytes, so the flag misses nothing. */
  lemma LengthCounts(n: nat, len: nat, total: u32, large: bool)
    requires Counted(n, total, large)
    ensures var total' := Add32(total, Truncated(len));
            Counted(n + len, total', large || len >= STRIPE || total' >= STRIPE)
  {
    TruncatedSum(n, len);
    hide Add32;
    assert n + len < TWO32 ==> Truncated(n + len) == n + len;
  }

  /** What the lanes and the buffer hold after `input`. */
  ghost predicate Streaming(seed: u32, input: seq<byte>, v: seq<u32>, mem: seq<byte>, memsize: nat) {
    && |v| == 4 && |mem| == STRIPE
    && memsize == |input| % STRIPE
    && v == Steps(InitLanes(seed), input, |input| / STRIPE)
    && mem[..memsize] == input[STRIPE * (|input| / STRIPE)..]
  }

  lemma HashOfStream(seed: u32, input: seq<byte>, v: seq<u32>, mem: seq<byte>, memsize: nat)
    requires Streaming(seed, input, v, mem, memsize)
    ensures Hash(input, seed)
         == Finalize(Add32(if |input| >= STRIPE then Converge(v) else Add32(v[2], PRIME32_5), |input| % TWO32),
                     mem[..memsize])
  {
    hide Finalize, Converge, Step;
  }

  lemma StreamingSize(seed: u32, input: seq<byte>, v: seq<u32>, mem: seq<byte>, memsize: nat)
    requires Streaming(seed, input, v, mem, memsize)
    ensures memsize < STRIPE
  {
  }

  /** Feeding the bytes of a chunk to lanes and buffer extends the input by it. */
  lemma StreamingMore(seed: u32, input: seq<byte>, chunk: seq<byte>, v: seq<u32>, mem: seq<byte>, memsize: nat,
                      v': seq<u32>, mem': seq<byte>, memsize': nat)
    requires Streaming(seed, input, v, mem, memsize) && |mem'| == STRIPE
    requires memsize <= STRIPE && Fed(v, mem[..memsize] + chunk, v', mem', memsize')
    ensures Streaming(seed, input + chunk, v', mem', memsize')
  {
    hide InitLanes, Step, Steps;
    Pending(seed, input, chunk);
  }

  class State {
    const v: array<u32>
    const mem: array<byte>
    var memsize: nat
    var totalLen: u32
    /** Set once 16 bytes have been seen, and never cleared by a wrap. */
    var largeLen: bool

    ghost var seed: u32
    /** All bytes since the reset. */
    ghost var input: seq<byte>

    ghost predicate Shaped() {
      v.Length == 4 && mem.Length == STRIPE
    }

    ghost predicate Valid()
      reads this, v, mem
    {
      && Shaped()
      && Counted(|input|, totalLen, largeLen)
      && Streaming(seed, input, v[..], mem[..], memsize)
    }

    constructor ()
      ensures Shaped() && fresh(v) && fresh(mem)
    {
      v := new u32[4];
      mem := new byte[STRIPE];
    }

    method Reset(newSeed: u32)
      requires Shaped()
      modifies this, v
      ensures Valid() && seed == newSeed && input == []
    {
      totalLen, memsize, largeLen := 0, 0, false;
      v[0], v[1] := Add32(Add32(newSeed, PRIME32_1), PRIME32_2), Add32(newSeed, PRIME32_2);
      v[2], v[3] := newSeed, Sub32(newSeed, PRIME32_1);
      seed, input := newSeed, [];
    }

    /** The length fields after n more bytes. */
    method CountBytes(n: nat, ghost sofar: nat)
      requires Counted(sofar, totalLen, largeLen)
      modifies this`totalLen, this`largeLen
      ensures Counted(sofar + n, totalLen, largeLen)
    {
      hide Counted, Add32, Truncated;
      LengthCounts(sofar, n, totalLen, largeLen);
      totalLen := Add32(totalLen, Truncated(n));
      largeLen := largeLen || n >= STRIPE || totalLen >= STRIPE;
    }

    method Update(chunk: seq<byte>)
      requires Valid()
      modifies this, v, mem
      ensures Valid() && seed == old(seed) && input == old(input) + chunk
    {
      hide Streaming, Counted, Fed;
      ghost var was, kept, size := v[..], mem[..], memsize;
      StreamingSize(seed, input, was, kept, size);
      CountBytes(|chunk|, |input|);
      memsize := Feed(v, mem, memsize, chunk);
      StreamingMore(seed, input, chunk, was, kept, size, v[..], mem[..], memsize);
      input := input + chunk;
    }

    method Digest() returns (h: u32)
      requires Valid()
      ensures h == Hash(input, seed)
    {
      hide Step, Steps, InitLanes, Finalize, Converge, Hash;
      HashOfStream(seed, input, v[..], mem[..], memsize);
      if largeLen {
        h := Converge(v[..]);
      } else {
        h := Add32(v[2], PRIME32_5);
      }
      h := Add32(h, totalLen);
      h := FinalizeLoop(h, mem[..memsize]);
    }
  }

  // --------------------------------------------------------------- whole runs

  /** Any cut of the input into chunks hashes like the whole. */
  method HashChunks(chunks: seq<seq<byte>>, seed: u32) returns (h: u32)
    ensures h == Hash(Flatten(chunks), seed)
  {
    hide Hash, Streaming;
    var state := new State();
    state.Reset(seed);
    var i := 0;
    assert chunks[0..] == chunks;
    while i < |chunks|
      invariant 0 <= i <= |chunks|
      invariant state.Valid() && state.seed == seed && fresh(state) && fresh(state.v) && fresh(state.mem)
      invariant state.input + Flatten(chunks[i..]) == Flatten(chunks)
    {
      assert chunks[i..][1..] == chunks[i + 1..];
      state.Update(chunks[i]);
      i := i + 1;
    }
    assert state.input == Flatten(chunks);
    h := state.Digest();
  }
}

/** Random numbers below a limit: drawn again while they would be biased. */
module Random {
  import opened Wrappers
  import opened Words

  const UINT64_MAX := TWO64 - 1

  const RESEED_RNG := 2500000

  /** Draws from here on are thrown away. */
  function Threshold(limit: nat): nat
    requires limit >= 2
  {
    UINT64_MAX - UINT64_MAX % limit
  }

  /** A number drawn, and where the next draw is. */
  datatype Drawn = Drawn(value: nat, next: nat)

  /** The first draw from `from` on that is below the threshold, reduced to the
      limit; None if there is none. */
  function Draw(draws: seq<u64>, from: nat, limit: nat): Option<Drawn>
    requires from <= |draws|
    decreases |draws| - from
  {
    if limit <= 1 then Some(Drawn(0, from))
    else if from == |draws| then None
    else if draws[from] < Threshold(limit) then Some(Drawn(draws[from] % limit, from + 1))
    else Draw(draws, from + 1, limit)
  }

  /** A draw brought down n times, each time to its remainder by one more than
      another draw. */
  function Lowered(draws: seq<u64>, a: Option<Drawn>, limit: nat, n: nat): Option<Drawn>
    requires limit >= 2 && (a.Some? ==> a.value.next <= |draws|)
    decreases n
  {
    if n == 0 || a == None then a
    else
      DrawIsBelow(draws, a.value.next, limit - 1);
      match Draw(draws, a.value.next, limit - 1)
      case None => None
      case Some(d) => Lowered(draws, Some(Drawn(a.value.value % (1 + d.value), d.next)), limit, n - 1)
  }

  /** As it is, brought down once or brought down twice, each with a third of the
      chances. */
  function DrawLower(draws: seq<u64>, from: nat, limit: nat): Option<Drawn>
    requires from <= |draws|
  {
    if limit <= 1 then Some(Drawn(0, from))
    else
      DrawIsBelow(draws, from, 3);
      match Draw(draws, from, 3)
      case None => None
      case Some(choice) =>
        DrawIsBelow(draws, choice.next, limit);
        Lowered(draws, Draw(draws, choice.next, limit), limit, choice.value)
  }

  lemma {:induction false} DrawIsBelow(draws: seq<u64>, from: nat, limit: nat)
    requires from <= |draws|
    ensures var r := Draw(draws, from, limit);
            r.Some? ==> from <= r.value.next <= |draws| && (limit >= 2 ==> r.value.value < limit)
    decreases |draws| - from
  {
    if limit > 1 && from < |draws| && draws[from] >= Threshold(limit) {
      DrawIsBelow(draws, from + 1, limit);
    }
  }

  /** Where a search for an accepted draw comes to. */
  lemma {:induction false} DrawFinds(draws: seq<u64>, from: nat, to: nat, limit: nat)
    requires from <= to <= |draws| && limit >= 2 && forall k :: from <= k < to ==> draws[k] >= Threshold(limit)
    ensures Draw(draws, from, limit) == Draw(draws, to, limit)
    decreases |draws| - from
  {
    if from < to {
      DrawFinds(draws, from + 1, to, limit);
    }
  }

  lemma {:induction false} LoweredIsLower(draws: seq<u64>, a: Option<Drawn>, limit: nat, n: nat)
    requires limit >= 2 && (a.Some? ==> a.value.next <= |draws| && a.value.value < limit)
    ensures var r := Lowered(draws, a, limit, n);
            r.Some? ==> a.Some? && r.value.value <= a.value.value && r.value.next <= |draws|
    decreases n
  {
    if n > 0 && a.Some? {
      DrawIsBelow(draws, a.value.next, limit - 1);
      match Draw(draws, a.value.next, limit - 1)
      case None =>
      case Some(d) =>
        Smaller(a.value.value, 1 + d.value);
        LoweredIsLower(draws, Some(Drawn(a.value.value % (1 + d.value), d.next)), limit, n - 1);
    }
  }

  lemma LoweredSteps(draws: seq<u64>, a: Option<Drawn>, limit: nat)
    requires limit >= 2 && (a.Some? ==> a.value.next <= |draws|)
    ensures Lowered(draws, a, limit, 0) == a
    ensures var once := Lowered(draws, a, limit, 1);
            && (once.Some? ==> once.value.next <= |draws|)
            && Lowered(draws, a, limit, 2) == Lowered(draws, once, limit, 1)
            && (once == None ==> Lowered(draws, once, limit, 1) == None)
    ensures a == None ==> forall n: nat :: Lowered(draws, a, limit, n) == None
  {
    hide Draw;
    if a.Some? {
      DrawIsBelow(draws, a.value.next, limit - 1);
    }
  }

  /** Lower values are preferred: none is above the plain draw it comes from, and
      all are below the limit. */
  lemma LowerThanPlain(draws: seq<u64>, from: nat, limit: nat)
    requires from <= |draws| && limit >= 2
    ensures var r := DrawLower(draws, from, limit);
            r.Some? ==>
              var choice := Draw(draws, from, 3);
              && choice.Some? && choice.value.next <= |draws|
              && var plain := Draw(draws, choice.value.next, limit);
                 plain.Some? && r.value.value <= plain.value.value < limit
  {
    DrawIsBelow(draws, from, 3);
    var choice := Draw(draws, from, 3);
    if choice.Some? {
      DrawIsBelow(draws, choice.value.next, limit);
      LoweredIsLower(draws, Draw(draws, choice.value.next, limit), limit, choice.value.value);
    }
  }

  /** The generator: the numbers it is going to produce are arbitrary, reseeded
      or not. */
  class Rng {
    const draws: seq<u64>
    const fixedSeed: bool
    var next: nat
    var randCnt: u32

    ghost predicate Valid()
      reads this
    {
      next <= |draws|
    }

    constructor (draws: seq<u64>, fixedSeed: bool)
      ensures Valid() && next == 0 && randCnt == 0 && this.draws == draws && this.fixedSeed == fixedSeed
    {
      this.draws, this.fixedSeed, next, randCnt := draws, fixedSeed, 0, 0;
    }

    /** The counter runs down, and from zero it starts anew; with a fixed seed it
        wraps. */
    method CountDown(seed1: u64)
      requires Valid()
      modifies this`randCnt
      ensures old(randCnt) > 0 ==> randCnt == old(randCnt) - 1
      ensures old(randCnt) == 0 && fixedSeed ==> randCnt == TWO32 - 1
      ensures old(randCnt) == 0 && !fixedSeed ==> randCnt == 1_250_000 + seed1 % 2_500_000
    {
      var wasZero := randCnt == 0;
      randCnt := if wasZero then TWO32 - 1 else randCnt - 1;
      if wasZero && !fixedSeed {
        randCnt := RESEED_RNG / 2 + seed1 % RESEED_RNG;
      }
    }

    /** rand_below: the first draw below the threshold decides; None if there is
        none among the draws to come. */
    method RandBelow(limit: u32) returns (r: Option<nat>)
      requires Valid()
      modifies this`next, this`randCnt
      ensures Valid() && next >= old(next)
      ensures limit <= 1 ==> r == Some(0) && next == old(next) && randCnt == old(randCnt)
      ensures limit >= 2 && r.Some? ==>
        && next > old(next) && draws[next - 1] < Threshold(limit) && r.value == draws[next - 1] % limit < limit
        && forall k :: old(next) <= k < next - 1 ==> draws[k] >= Threshold(limit)
      ensures r == None ==>
        limit >= 2 && next == |draws| && forall k :: old(next) <= k < |draws| ==> draws[k] >= Threshold(limit)
      ensures Matches(r, Draw(draws, old(next), limit))
    {
      if limit <= 1 {
        return Some(0);
      }
      CountDown(if next < |draws| then draws[next] else 0);
      while next < |draws|
        invariant old(next) <= next <= |draws|
        invariant forall k :: old(next) <= k < next ==> draws[k] >= Threshold(limit)
      {
        DrawFinds(draws, old(next), next, limit);
        next := next + 1;
        if draws[next - 1] < UINT64_MAX - UINT64_MAX % limit {
          return Some(draws[next - 1] % limit);
        }
      }
      DrawFinds(draws, old(next), next, limit);
      r := None;
    }

    /** What was drawn, and where the next draw is. */
    ghost predicate Matches(r: Option<nat>, d: Option<Drawn>)
      reads this`next
    {
      match d
      case None => r == None
      case Some(x) => r == Some(x.value) && next == x.next
    }

    /** rand_below_datalen: below the limit on every path. */
    method RandBelowDatalen(limit: u32) returns (r: Option<nat>)
      requires Valid()
      modifies this`next, this`randCnt
      ensures Valid() && Matches(r, DrawLower(draws, old(next), limit))
      ensures limit >= 2 && r.Some? ==> r.value < limit
    {
      hide Draw, Threshold, Lowered;
      if limit <= 1 {
        return Some(0);
      }
      LowerThanPlain(draws, next, limit);
      var choice := RandBelow(3);
      if choice == None {
        return None;
      }
      ghost var plain := Draw(draws, next, limit);
      DrawIsBelow(draws, next, limit);
      LoweredSteps(draws, plain, limit);
      r := RandBelow(limit);
      match choice.value {
        case 2 =>
          r := Reduce(r, limit);
          assert Matches(r, Lowered(draws, plain, limit, 1));
          r := Reduce(r, limit);
        case 1 =>
          r := Reduce(r, limit);
        case _ =>
      }
    }

    /** Modulo one more than a random number. */
    method Reduce(a: Option<nat>, limit: u32) returns (r: Option<nat>)
      requires Valid() && limit >= 2
      modifies this`next, this`randCnt
      ensures Valid()
      ensures a.Some? ==> Matches(r, Lowered(draws, Some(Drawn(a.value, old(next))), limit, 1))
      ensures a == None ==> r == None
    {
      var d := RandBelow(limit - 1);
      if a == None || d == None {
        return None;
      }
      r := Some(a.value % (1 + d.value));
    }
  }

  lemma Smaller(a: nat, m: nat)
    requires m > 0
    ensures a % m <= a
  {
    if a < m {
      assert a % m == a;
    }
  }

  // -------------------------------------------------------------- uniformity

  /** How many numbers below n leave the remainder r. */
  function CountResidue(n: nat, limit: nat, r: nat): nat
    requires limit > 0
  {
    if n == 0 then 0 else CountResidue(n - 1, limit, r) + if (n - 1) % limit == r then 1 else 0
  }

  /** Full periods and a part of one. */
  lemma {:induction false} ResiduesInPeriods(q: nat, k: nat, limit: nat, r: nat)
    requires r < limit && k <= limit
    ensures CountResidue(q * limit + k, limit, r) == q + if r < k then 1 else 0
    decreases q, k
  {
    hide *;
    if k > 0 {
      ResiduesInPeriods(q, k - 1, limit, r);
      RemainderInPeriod(q, k - 1, limit);
      OneMoreNumber(q * limit + (k - 1), limit, r);
    } else if q > 0 {
      ResiduesInPeriods(q - 1, limit, limit, r);
      OneMorePeriod(q, limit);
    } else {
      NoNumber(q * limit, limit, r);
    }
  }

  lemma OneMoreNumber(n: nat, limit: nat, r: nat)
    requires limit > 0
    ensures CountResidue(n + 1, limit, r) == CountResidue(n, limit, r) + if n % limit == r then 1 else 0
  {
  }

  lemma OneMorePeriod(q: nat, limit: nat)
    requires q > 0
    ensures (q - 1) * limit + limit == q * limit
  {
  }

  lemma NoNumber(n: nat, limit: nat, r: nat)
    requires limit > 0 && n == 0
    ensures CountResidue(n, limit, r) == 0
  {
  }

  /** Quotient and remainder are unique. */
  lemma RemainderInPeriod(q: nat, k: nat, limit: nat)
    requires k < limit
    ensures (q * limit + k) % limit == k && (q * limit + k) / limit == q
  {
    var x := q * limit + k;
    var q', k' := x / limit, x % limit;
    assert q' * limit + k' == x;
    if q < q' {
      AtLeastOne(q' - q, limit);
      assert false;
    } else if q' < q {
      AtLeastOne(q - q', limit);
      assert false;
    }
  }

  lemma AtLeastOne(d: nat, limit: nat)
    requires d > 0
    ensures d * limit >= limit
  {
  }

  /** The threshold is a positive multiple of the limit, the largest one below
      2^64, so every remainder has the same number of accepted draws. */
  lemma EveryResidueAlike(limit: u32, r: nat)
    requires limit >= 2 && r < limit
    ensures Threshold(limit) > 0 && Threshold(limit) % limit == 0
    ensures Threshold(limit) <= 0xFFFF_FFFF_FFFF_FFFF < Threshold(limit) + limit
    ensures CountResidue(Threshold(limit), limit, r) == Threshold(limit) / limit == 0xFFFF_FFFF_FFFF_FFFF / limit
  {
    var q := UINT64_MAX / limit;
    assert Threshold(limit) == q * limit;
    ResiduesInPeriods(q, 0, limit, r);
    RemainderInPeriod(q, 0, limit);
    assert q * limit / limit == q;
  }

  // ---------------------------------------------------------- powers of two

  /** next_p2 */
  method NextP2(val: u64) returns (ret: u64)
    requires val <= 0x8000_0000_0000_0000
    ensures exists k :: 0 <= k <= 63 && ret == Pow2(k)
    ensures val <= ret && (ret == 1 || ret / 2 < val)
  {
    hide Pow2;
    ghost var k := 0;
    ret := 1;
    Half63(0);
    while val > ret
      invariant 0 <= k <= 63 && ret == Pow2(k) && (ret == 1 || ret / 2 < val)
      decreases 64 - k
    {
      Half63(k);
      ret := ret * 2 % TWO64;
      k := k + 1;
    }
  }

  lemma Half63(k: nat)
    ensures k == 0 ==> Pow2(k) == 1
    ensures k >= 63 ==> Pow2(k) >= 0x8000_0000_0000_0000
    ensures k < 63 ==> 2 * Pow2(k) == Pow2(k + 1) < TWO64
  {
    Pow2Values();
    if k >= 63 {
      Pow2Grows(63, k);
    } else {
      Pow2Grows(k + 1, 63);
    }
  }
}

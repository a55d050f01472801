/** Nothing that an operator may draw is out of reach: for every choice there are
    dice, so the effects are exactly what the havoc mutator can do. */
module HavocReach {
  import opened Words
  import opened Sattolo
  import opened HavocDice
  import opened HavocSpec
  import opened HavocNumber
  import opened HavocStep
  import opened Havoc
  import opened HavocRun

  /** The first number for each role. */
  datatype Numbers = Numbers(place: nat, source: nat, amount: nat, strategy: nat, block: BlockNumbers, partners: seq<nat>)

  datatype BlockNumbers = BlockNumbers(cycle: nat, kind: nat, large: nat, more: nat)

  /** The number for a role at an attempt: after the first one, every number in
      turn. */
  function Given(op: nat, x: Numbers, role: nat, a: nat): nat {
    if a > 0 then a
    else if role == PLACE then x.place
    else if role == SOURCE then x.source
    else if role == AMOUNT then x.amount
    else if role == STRATEGY then x.strategy
    else if role == OPERATOR then op
    else if role == QUEUE_CYCLE then x.block.cycle
    else if role == BLOCK_CLASS then x.block.kind
    else if role == BLOCK_LARGE then x.block.large
    else if role == BLOCK_MORE then x.block.more
    else if PARTNER <= role < PARTNER + |x.partners| then x.partners[role - PARTNER]
    else 0
  }

  function DiceOf(op: nat, x: Numbers): Dice { (role, a) => Given(op, x, role, a) }

  lemma DiceAreFair(op: nat, x: Numbers)
    ensures Fair(DiceOf(op, x))
  {
    var d := DiceOf(op, x);
    forall role: nat, limit: nat, other: nat | limit >= 2
      ensures Suits(d, role, limit, other)
    {
      Differ(limit);
      assert d(role, 1) % limit != other || d(role, 2) % limit != other;
    }
  }

  lemma Differ(limit: nat)
    requires limit >= 2
    ensures 1 % limit != 2 % limit
  {
  }

  /** A role gives its number for any limit above it. */
  lemma Gives(d: Dice, role: nat, v: nat, limit: nat)
    requires d(role, 0) == v
    ensures v < limit ==> Pick(d, role, limit) == v
  {
    if v < limit {
      assert v % limit == v;
    }
  }

  lemma DiceGive(op: nat, x: Numbers, limit: nat)
    ensures var d := DiceOf(op, x);
      && (x.place < limit ==> Pick(d, PLACE, limit) == x.place)
      && (x.source < limit ==> Pick(d, SOURCE, limit) == x.source)
      && (x.amount < limit ==> Pick(d, AMOUNT, limit) == x.amount)
      && (x.strategy < limit ==> Pick(d, STRATEGY, limit) == x.strategy)
      && (op < limit ==> Pick(d, OPERATOR, limit) == op)
  {
    hide Pick;
    var d := DiceOf(op, x);
    Gives(d, PLACE, x.place, limit);
    Gives(d, SOURCE, x.source, limit);
    Gives(d, AMOUNT, x.amount, limit);
    Gives(d, STRATEGY, x.strategy, limit);
    Gives(d, OPERATOR, op, limit);
  }

  lemma BlockGives(op: nat, x: Numbers, limit: nat)
    ensures var d := DiceOf(op, x);
      && (x.block.cycle < limit ==> Pick(d, QUEUE_CYCLE, limit) == x.block.cycle)
      && (x.block.kind < limit ==> Pick(d, BLOCK_CLASS, limit) == x.block.kind)
      && (x.block.large < limit ==> Pick(d, BLOCK_LARGE, limit) == x.block.large)
      && (x.block.more < limit ==> Pick(d, BLOCK_MORE, limit) == x.block.more)
  {
    hide Pick;
    var d := DiceOf(op, x);
    Gives(d, QUEUE_CYCLE, x.block.cycle, limit);
    Gives(d, BLOCK_CLASS, x.block.kind, limit);
    Gives(d, BLOCK_LARGE, x.block.large, limit);
    Gives(d, BLOCK_MORE, x.block.more, limit);
  }

  /** The numbers for a block of n bytes. */
  function BlockFor(n: nat): BlockNumbers {
    if n <= HAVOC_BLK_SMALL then BlockNumbers(0, 0, 0, if n == 0 then 0 else n - 1)
    else if n <= HAVOC_BLK_MEDIUM then BlockNumbers(2, 1, 0, n - HAVOC_BLK_SMALL)
    else if n <= HAVOC_BLK_LARGE then BlockNumbers(3, 2, 1, n - HAVOC_BLK_MEDIUM)
    else BlockNumbers(3, 2, 0, n - HAVOC_BLK_LARGE)
  }

  /** Every length up to the limit is drawn. */
  lemma BlockReached(op: nat, x: Numbers, limit: nat, n: nat)
    requires x.block == BlockFor(n) && IsBlock(n) && (n <= limit || n == 1)
    ensures IsBlockLen(DiceOf(op, x), limit, n)
  {
    hide DiceOf, Pick;
    var d := DiceOf(op, x);
    BlockGives(op, x, 4);
    BlockGives(op, x, x.block.cycle);
    assert n > HAVOC_BLK_SMALL || Pick(d, BLOCK_CLASS, 0) == 0;
    BlockGives(op, x, 10);
    var (low, high) := BlockRange(d);
    var from, to := if low < limit then low else 1, if high <= limit then high else limit;
    BlockGives(op, x, if from <= to then to - from + 1 else 0);
  }

  lemma OtherReached(op: nat, x: Numbers, role: nat, limit: nat, other: nat, r: nat)
    requires limit >= 2 && r < limit && r != other && DiceOf(op, x)(role, 0) == r
    ensures PickedOther(DiceOf(op, x), role, limit, other, r)
  {
    hide DiceOf;
    var d := DiceOf(op, x);
    assert d(role, 0) % limit == r;
    assert FirstSuits(d, role, limit, other, 0);
  }

  lemma PartnersReached(op: nat, x: Numbers, n: nat)
    requires n == |x.partners| + 1 && Drawn(n, x.partners)
    ensures PartnersDrawn(DiceOf(op, x), n, x.partners)
  {
    forall k: nat | k < |x.partners|
      ensures PickedOther(DiceOf(op, x), PARTNER + k, n - k, n - 1 - k, x.partners[k])
    {
      assert DiceOf(op, x)(PARTNER + k, 0) == x.partners[k];
      OtherReached(op, x, PARTNER + k, n - k, n - 1 - k, x.partners[k]);
    }
  }

  /** The numbers behind a choice. */
  function NumbersFor(c: Choice): Numbers {
    var none := BlockFor(1);
    match c
    case Nothing => Numbers(0, 0, 0, 0, none, [])
    case Edit(off, draw) => Numbers(off, 0, draw, 0, none, [])
    case Store(pos, entry) => Numbers(pos, 0, entry, 0, none, [])
    case Arith(pos, draw) => Numbers(pos, 0, draw, 0, none, [])
    case Clone(at, from, n) => Numbers(at, from, 0, 0, BlockFor(n), [])
    case CloneFill(at, previous, b, n) => Numbers(at, 0, b, if previous then 0 else 1, BlockFor(n), [])
    case Copy(to, from, n) => Numbers(to, from, 0, 0, BlockFor(n), [])
    case Fill(to, previous, b, n) => Numbers(to, 0, b, if previous then 0 else 1, BlockFor(n), [])
    case Exchange(a, b, n) => Numbers(a, b, 0, 0, BlockFor(n), [])
    case Permute(off, js) => Numbers(off, 0, 0, 0, BlockFor(|js| + 1), js)
    case Remove(from, n) => Numbers(from, 0, 0, 0, BlockFor(n), [])
    case Number(start, strat, draw) => Numbers(start, 0, draw, strat, none, [])
    case Digits(pos, v, n) => Numbers(pos, if n == 0 then 0 else n - 1, v, 0, none, [])
    case Entry(at, k) => Numbers(at, k, 0, 0, none, [])
    case Splice(at, from, n) => Numbers(at, from, 0, 0, BlockFor(n), [])
  }

  function DiceFor(op: nat, c: Choice): Dice { DiceOf(op, NumbersFor(c)) }

  predicate IsPlain(c: Choice) { c.Nothing? || c.Digits? || c.Entry? }
  predicate IsValue(c: Choice) { c.Edit? || c.Store? || c.Arith? }

  lemma EntryReached(op: nat, c: Choice, s: seq<byte>, t: seq<byte>, g: Setting)
    requires StepEffect(op, c, s, t, g) || GivesWay(op, c, s, g)
    requires c.Entry?
    ensures ChosenBy(DiceFor(op, c), op, c, s, g)
  {
    hide DiceOf, Pick, Overlay, Replace;
    var x := NumbersFor(c);
    DiceGive(op, x, |Dictionary(op, g)|);
    DiceGive(op, x, |s| + 1);
    if |Dictionary(op, g)[c.k]| <= |s| {
      DiceGive(op, x, |s| - |Dictionary(op, g)[c.k]| + 1);
    }
  }

  lemma PlainReached(op: nat, c: Choice, s: seq<byte>, t: seq<byte>, g: Setting)
    requires StepEffect(op, c, s, t, g) || GivesWay(op, c, s, g)
    requires IsPlain(c)
    ensures ChosenBy(DiceFor(op, c), op, c, s, g)
  {
    if c.Digits? {
      hide DiceOf, Pick, Overlay, LastDigits;
      var x := NumbersFor(c);
      DiceGive(op, x, |s|);
      DiceGive(op, x, 8);
      DiceGive(op, x, TWO64);
    } else if c.Entry? {
      hide *;
      EntryReached(op, c, s, t, g);
    }
  }

  lemma ValueReached(op: nat, c: Choice, s: seq<byte>, t: seq<byte>, g: Setting)
    requires StepEffect(op, c, s, t, g) && IsValue(c)
    ensures ChosenBy(DiceFor(op, c), op, c, s, g)
  {
    hide DiceOf, Pick, Bytes, Overlay, Summed, EditValue, InterestingValues, EditLimit;
    var x := NumbersFor(c);
    match c
    case Edit(off, draw) =>
      DiceGive(op, x, |s|);
      DiceGive(op, x, EditLimit(op));
    case Store(pos, entry) =>
      DiceGive(op, x, |s| - WordWidth(op) + 1);
      DiceGive(op, x, |InterestingValues(WordWidth(op))|);
    case Arith(pos, draw) =>
      DiceGive(op, x, |s| - WordWidth(op) + 1);
      DiceGive(op, x, ARITH_MAX);
  }

  lemma CloneReached(op: nat, c: Choice, s: seq<byte>, t: seq<byte>, g: Setting)
    requires StepEffect(op, c, s, t, g) && c.Clone?
    ensures ChosenBy(DiceFor(op, c), op, c, s, g)
  {
    hide DiceOf, Pick, Replace, IsBlockLen, BlockFor;
    var x := NumbersFor(c);
    DiceGive(op, x, |s|);
    DiceGive(op, x, |s| - c.n + 1);
    BlockReached(op, x, |s|, c.n);
  }

  lemma MoveReached(op: nat, c: Choice, s: seq<byte>, t: seq<byte>, g: Setting)
    requires StepEffect(op, c, s, t, g) && (c.Copy? || c.Remove?)
    ensures ChosenBy(DiceFor(op, c), op, c, s, g)
  {
    hide DiceOf, Pick, Overlay, Replace, Without, IsBlockLen, BlockFor;
    var x := NumbersFor(c);
    match c
    case Copy(to, from, n) =>
      DiceGive(op, x, |s| - n + 1);
      BlockReached(op, x, |s| - 1, n);
    case Remove(from, n) =>
      DiceGive(op, x, |s| - n + 1);
      BlockReached(op, x, |s| - 1, n);
  }

  lemma SpliceReached(op: nat, c: Choice, s: seq<byte>, t: seq<byte>, g: Setting)
    requires StepEffect(op, c, s, t, g) && c.Splice?
    ensures ChosenBy(DiceFor(op, c), op, c, s, g)
  {
    hide DiceOf, Pick, Overlay, Replace, IsBlockLen, BlockFor;
    var x := NumbersFor(c);
    DiceGive(op, x, |g.splice| - c.n + 1);
    if op == 35 {
      DiceGive(op, x, |s| - c.n + 1);
      BlockReached(op, x, |g.splice| - 1, c.n);
    } else {
      DiceGive(op, x, |s| + 1);
      BlockReached(op, x, |g.splice|, c.n);
    }
  }

  lemma FillReached(op: nat, c: Choice, s: seq<byte>, t: seq<byte>, g: Setting)
    requires StepEffect(op, c, s, t, g) && (c.CloneFill? || c.Fill?)
    ensures ChosenBy(DiceFor(op, c), op, c, s, g)
  {
    hide DiceOf, Pick, Overlay, Replace, Filled, FillValue, IsBlockLen, BlockFor;
    var x := NumbersFor(c);
    DiceGive(op, x, |s|);
    DiceGive(op, x, 2);
    DiceGive(op, x, 256);
    if c.Fill? {
      DiceGive(op, x, |s| - c.n + 1);
      BlockReached(op, x, |s| - 1, c.n);
    } else if op == 18 {
      BlockReached(op, x, HAVOC_BLK_XL, c.n);
    }
  }

  lemma RearrangeReached(op: nat, c: Choice, s: seq<byte>, t: seq<byte>, g: Setting)
    requires StepEffect(op, c, s, t, g) && (c.Exchange? || c.Permute?)
    ensures ChosenBy(DiceFor(op, c), op, c, s, g)
  {
    hide Pick, Switched, BlockPermuted, Arranged, Drawn, IsBlockLen, BlockFor, PickedOther, PartnersDrawn;
    var x := NumbersFor(c);
    match c
    case Exchange(a, b, n) =>
      DiceGive(op, x, |s|);
      BlockReached(op, x, if b - a <= |s| - b then b - a else |s| - b, n);
      OtherReached(op, x, SOURCE, |s|, a, b);
    case Permute(off, js) =>
      var n := |js| + 1;
      DiceGive(op, x, |s| - n + 1);
      BlockReached(op, x, |s| - 1, n);
      PartnersReached(op, x, n);
  }

  lemma NumberReached(op: nat, c: Choice, s: seq<byte>, t: seq<byte>)
    requires c.Number? && c.start < |s| && c.strat < 8 && Rewritten(s, t, c.start, c.strat, c.draw)
    ensures NumberBy(DiceFor(op, c), s, c.start, c.strat, c.draw)
  {
    hide DiceOf, Pick, FoundFrom, NumberAt, Replace, Shown, NewValue, GivesUpDigit, Base, DrawLimit;
    var x := NumbersFor(c);
    var at, end, val :| RewrittenAt(s, t, c.start, c.strat, c.draw, at, end, val);
    DiceGive(op, x, |s|);
    DiceGive(op, x, 8);
    DiceGive(op, x, DrawLimit(c.strat, Base(c.strat, val)));
  }

  /** There are dice for every effect, and for every choice with which an operator
      gives way. */
  lemma EveryChoiceIsDrawn(draw: Draw, s: seq<byte>, t: seq<byte>, g: Setting)
    requires draw.op < MUT_MAX
    requires if draw.done then StepEffect(draw.op, draw.choice, s, t, g) else GivesWay(draw.op, draw.choice, s, g) && t == s
    ensures Fair(DiceFor(draw.op, draw.choice)) && Follows(DiceFor(draw.op, draw.choice), draw, s, t, g)
  {
    hide StepEffect, GivesWay, ChosenBy, Fair, DiceOf, Pick;
    var op, c := draw.op, draw.choice;
    DiceAreFair(op, NumbersFor(c));
    DiceGive(op, NumbersFor(c), MUT_MAX);
    ChoiceReached(draw, s, t, g);
  }

  lemma ChoiceReached(draw: Draw, s: seq<byte>, t: seq<byte>, g: Setting)
    requires if draw.done then StepEffect(draw.op, draw.choice, s, t, g) else GivesWay(draw.op, draw.choice, s, g)
    ensures ChosenBy(DiceFor(draw.op, draw.choice), draw.op, draw.choice, s, g)
  {
    hide ChosenBy, DiceFor, StepEffect, GivesWay;
    var op, c := draw.op, draw.choice;
    if IsPlain(c) {
      PlainReached(op, c, s, t, g);
    } else if draw.done {
      EffectReached(op, c, s, t, g);
    } else {
      WayReached(op, c, s, g);
    }
  }

  lemma EffectReached(op: nat, c: Choice, s: seq<byte>, t: seq<byte>, g: Setting)
    requires StepEffect(op, c, s, t, g) && !IsPlain(c)
    ensures ChosenBy(DiceFor(op, c), op, c, s, g)
  {
    hide DiceFor, StepEffect;
    if IsValue(c) {
      ValueReached(op, c, s, t, g);
    } else if c.Clone? {
      CloneReached(op, c, s, t, g);
    } else if c.Copy? || c.Remove? {
      MoveReached(op, c, s, t, g);
    } else if c.Splice? {
      SpliceReached(op, c, s, t, g);
    } else if c.CloneFill? || c.Fill? {
      FillReached(op, c, s, t, g);
    } else if c.Number? {
      NumberHas(op, c, s, t, g);
      NumberReached(op, c, s, t);
    } else {
      RearrangeReached(op, c, s, t, g);
    }
  }

  lemma NumberHas(op: nat, c: Choice, s: seq<byte>, t: seq<byte>, g: Setting)
    requires c.Number? && StepEffect(op, c, s, t, g)
    ensures c.start < |s| && c.strat < 8 && Rewritten(s, t, c.start, c.strat, c.draw)
  {
    hide Rewritten;
  }

  lemma WayReached(op: nat, c: Choice, s: seq<byte>, g: Setting)
    requires GivesWay(op, c, s, g) && !IsPlain(c)
    ensures ChosenBy(DiceFor(op, c), op, c, s, g)
  {
    hide DiceFor, Rewritten, NumberBy;
    var t :| Rewritten(s, t, c.start, c.strat, c.draw) && |t| > g.maxLen;
    NumberReached(op, c, s, t);
  }

  /** Every chain of effects, with any operators that give way in between, is a run
      of the mutator. */
  lemma EveryChainIsARun(log: seq<Draw>, states: seq<seq<byte>>, g: Setting) returns (dice: nat -> Dice)
    requires |states| == |log| + 1 && forall k :: 0 <= k < |states| ==> 1 <= |states[k]| <= g.maxLen
    requires forall k :: 0 <= k < |log| ==> MayFollow(log[k], states[k], states[k + 1], g)
    ensures (forall k :: Fair(dice(k))) && IsRun(dice, log, states, g)
  {
    hide MayFollow, Follows, Fair, DiceFor;
    dice := (k: nat) => DiceAt(log, k);
    forall k: nat
      ensures Fair(dice(k)) && (k < |log| ==> Follows(dice(k), log[k], states[k], states[k + 1], g))
    {
      if k < |log| {
        MayFollowDoes(log[k], states[k], states[k + 1], g);
      } else {
        FairFor(0, Nothing);
      }
    }
  }

  function DiceAt(log: seq<Draw>, k: nat): Dice { if k < |log| then DiceFor(log[k].op, log[k].choice) else DiceFor(0, Nothing) }

  /** What a draw may lead to, whatever the dice. */
  ghost predicate MayFollow(draw: Draw, s: seq<byte>, t: seq<byte>, g: Setting) {
    && draw.op < MUT_MAX
    && if draw.done then StepEffect(draw.op, draw.choice, s, t, g) else GivesWay(draw.op, draw.choice, s, g) && t == s
  }

  lemma MayFollowDoes(draw: Draw, s: seq<byte>, t: seq<byte>, g: Setting)
    requires MayFollow(draw, s, t, g)
    ensures Fair(DiceFor(draw.op, draw.choice)) && Follows(DiceFor(draw.op, draw.choice), draw, s, t, g)
  {
    hide StepEffect, GivesWay, Fair, Follows, DiceFor;
    EveryChoiceIsDrawn(draw, s, t, g);
  }

  /** A chain that ends with its last step or its last draw is what the mutator
      does with some dice, and nothing else is. */
  lemma EveryChainComesOut(log: seq<Draw>, states: seq<seq<byte>>, g: Setting, steps: nat, draws: nat) returns (dice: nat -> Dice)
    requires |states| == |log| + 1 && forall k :: 0 <= k < |states| ==> 1 <= |states[k]| <= g.maxLen
    requires forall k :: 0 <= k < |log| ==> MayFollow(log[k], states[k], states[k + 1], g)
    requires RunsFor(log, steps, draws)
    ensures forall k :: Fair(dice(k))
    ensures forall log', states' {:trigger IsRun(dice, log', states', g)} ::
      IsRun(dice, log', states', g) && states'[0] == states[0] && RunsFor(log', steps, draws) ==> states' == states
  {
    hide MayFollow, Fair, Follows, RunsFor;
    dice := EveryChainIsARun(log, states, g);
    forall log', states' | IsRun(dice, log', states', g) && states'[0] == states[0] && RunsFor(log', steps, draws)
      ensures states' == states
    {
      DiceDetermine(dice, log', states', log, states, g, steps, draws);
    }
  }

  lemma FairFor(op: nat, c: Choice)
    ensures Fair(DiceFor(op, c))
  {
    hide Fair, DiceOf;
    DiceAreFair(op, NumbersFor(c));
  }
}

/** The dice determine what the havoc mutator does: every number that matters is
    fixed by them, and so is every state of a run. */
module HavocRun {
  import opened Words
  import opened Sattolo
  import opened HavocDice
  import opened HavocSpec
  import opened HavocNumber
  import opened HavocStep
  import opened Havoc

  lemma SameLength(d: Dice, limit: nat, n: nat, n': nat)
    requires IsBlockLen(d, limit, n) && IsBlockLen(d, limit, n')
    ensures n == n'
  {
    hide Pick, BlockRange;
  }

  lemma SamePartners(d: Dice, n: nat, js: seq<nat>, js': seq<nat>)
    requires PartnersDrawn(d, n, js) && PartnersDrawn(d, n, js') && |js| == |js'|
    ensures js == js'
  {
    forall k | 0 <= k < |js|
      ensures js[k] == js'[k]
    {
      hide PickedOther;
      PickedOnce(d, PARTNER + k, n - k, n - 1 - k, js[k], js'[k]);
    }
  }

  lemma SameRegions(d: Dice, len: nat, a: nat, b: nat, n: nat, a': nat, b': nat, n': nat)
    requires SwitchedBy(d, len, a, b, n) && SwitchedBy(d, len, a', b', n')
    ensures a == a' && b == b' && n == n'
  {
    hide PickedOther, IsBlockLen, Pick;
    var from := Pick(d, PLACE, len);
    PickedOnce(d, SOURCE, len, from, if from == a then b else a, if from == a' then b' else a');
    SameLength(d, if b - a <= len - b then b - a else len - b, n, n');
  }

  lemma SameCut(d: Dice, limit: nat, cut: nat, n: nat, n': nat)
    requires CutBlockLen(d, limit, cut, n) && CutBlockLen(d, limit, cut, n')
    ensures n == n'
  {
    hide IsBlockLen;
    var m: nat :| IsBlockLen(d, limit, m) && n == if m > cut then cut else m;
    var m': nat :| IsBlockLen(d, limit, m') && n' == if m' > cut then cut else m';
    SameLength(d, limit, m, m');
  }

  lemma SameNumber(d: Dice, s: seq<byte>, start: nat, strat: nat, draw: nat, start': nat, strat': nat, draw': nat)
    requires NumberBy(d, s, start, strat, draw) && NumberBy(d, s, start', strat', draw')
    ensures start == start' && strat == strat' && draw == draw'
  {
    hide FoundFrom, NumberAt, Pick, DrawLimit, Base;
    var at, end, val :| FoundFrom(s, start, at) && NumberAt(s, at, end, val) && draw == Pick(d, AMOUNT, DrawLimit(strat, Base(strat, val)));
    var at', end', val' :| FoundFrom(s, start', at') && NumberAt(s, at', end', val') && draw' == Pick(d, AMOUNT, DrawLimit(strat', Base(strat', val')));
    FoundOnce(s, start, at, at');
    NumberOnce(s, at, end, val, end', val');
  }

  lemma HasNumber(s: seq<byte>, t: seq<byte>, start: nat, strat: nat, draw: nat)
    requires Rewritten(s, t, start, strat, draw)
    ensures HasDigit(s)
  {
    hide NumberAt, Replace, Shown, NewValue, GivesUpDigit, Base, DrawLimit, IsDigit;
  }

  /** An operator that has an effect with one choice does not do nothing, nor give
      way, with another one from the same dice. */
  lemma SameKind(d: Dice, op: nat, c: Choice, c': Choice, s: seq<byte>, t: seq<byte>, g: Setting)
    requires ChosenBy(d, op, c, s, g) && ChosenBy(d, op, c', s, g)
    requires StepEffect(op, c, s, t, g)
    ensures !GivesWay(op, c', s, g)
  {
    hide Bytes, Replace, Overlay, Without, Switched, BlockPermuted, Arranged, Summed, Bag, Filled, EditValue, Rewritten,
      HasDigit, NumberBy, Pick, IsBlockLen, FilledBy, CutBlockLen, SwitchedBy, PartnersDrawn, Drawn, LastDigits, InterestingValues;
    if c.Number? {
      HasNumber(s, t, c.start, c.strat, c.draw);
    }
    if c'.Number? && GivesWay(op, c', s, g) {
      var u :| Rewritten(s, u, c'.start, c'.strat, c'.draw) && |u| > g.maxLen;
      HasNumber(s, u, c'.start, c'.strat, c'.draw);
      if c.Number? {
        SameNumber(d, s, c.start, c.strat, c.draw, c'.start, c'.strat, c'.draw);
        WayOrEffect(op, c', s, t, g);
      }
    }
  }

  /** Where an operator does nothing, no choice of it does anything. */
  lemma NothingOnly(op: nat, c: Choice, s: seq<byte>, t: seq<byte>, t': seq<byte>, g: Setting)
    requires StepEffect(op, Nothing, s, t, g) && StepEffect(op, c, s, t', g)
    ensures t == s && c.Nothing?
  {
    hide Bytes, Replace, Overlay, Without, Switched, BlockPermuted, Arranged, Summed, Bag, Filled, EditValue, Rewritten,
      HasDigit, Drawn, LastDigits, InterestingValues;
    if c.Number? {
      HasNumber(s, t', c.start, c.strat, c.draw);
    }
  }

  /** An operator has choices of one kind. */
  lemma SameShape(op: nat, c: Choice, c': Choice, s: seq<byte>, t: seq<byte>, t': seq<byte>, g: Setting)
    requires StepEffect(op, c, s, t, g) && StepEffect(op, c', s, t', g) && !c.Nothing? && !c'.Nothing?
    ensures c.Edit? == c'.Edit? && c.Store? == c'.Store? && c.Arith? == c'.Arith? && c.Clone? == c'.Clone?
    ensures c.CloneFill? == c'.CloneFill? && c.Copy? == c'.Copy? && c.Fill? == c'.Fill? && c.Exchange? == c'.Exchange?
    ensures c.Permute? == c'.Permute? && c.Remove? == c'.Remove? && c.Number? == c'.Number? && c.Digits? == c'.Digits?
    ensures c.Entry? == c'.Entry? && c.Splice? == c'.Splice?
    ensures c.CloneFill? && op != 28 ==> op == 18
  {
    hide Bytes, Replace, Overlay, Without, Switched, BlockPermuted, Arranged, Summed, Bag, Filled, EditValue, Rewritten,
      Drawn, LastDigits, InterestingValues, TooShort;
  }

  lemma SameBlock(d: Dice, op: nat, c: Choice, c': Choice, s: seq<byte>, g: Setting)
    requires ChosenBy(d, op, c, s, g) && ChosenBy(d, op, c', s, g)
    requires (c.Clone? && c'.Clone?) || (c.CloneFill? && c'.CloneFill?) || (c.Copy? && c'.Copy?) || (c.Fill? && c'.Fill?)
    ensures c == c'
  {
    hide Pick, IsBlockLen;
    match c
    case Clone(_, _, n) => SameLength(d, |s|, n, c'.n);
    case CloneFill(_, _, _, n) => if op != 28 { SameLength(d, HAVOC_BLK_XL, n, c'.n); }
    case Copy(_, _, n) => SameLength(d, |s| - 1, n, c'.n);
    case Fill(_, _, _, n) => SameLength(d, |s| - 1, n, c'.n);
  }

  lemma SameMove(d: Dice, op: nat, c: Choice, c': Choice, s: seq<byte>, g: Setting)
    requires ChosenBy(d, op, c, s, g) && ChosenBy(d, op, c', s, g)
    requires (c.Exchange? && c'.Exchange?) || (c.Permute? && c'.Permute?) || (c.Remove? && c'.Remove?) || (c.Splice? && c'.Splice?)
    ensures c == c'
  {
    hide Pick, IsBlockLen, CutBlockLen, SwitchedBy, PartnersDrawn;
    match c
    case Exchange(a, b, n) => SameRegions(d, |s|, a, b, n, c'.first, c'.second, c'.n);
    case Permute(_, js) =>
      SameLength(d, |s| - 1, |js| + 1, |c'.partners| + 1);
      SamePartners(d, |js| + 1, js, c'.partners);
    case Remove(_, n) => if op != 27 { SameLength(d, |s| - 1, n, c'.n); }
    case Splice(_, _, n) =>
      if op == 35 { SameCut(d, |g.splice| - 1, |s|, n, c'.n); } else { SameLength(d, |g.splice|, n, c'.n); }
  }

  /** Choices of one kind from the same dice are the same, but for numbers that
      nothing depends on. */
  lemma SameChoice(d: Dice, op: nat, c: Choice, c': Choice, s: seq<byte>, t: seq<byte>, t': seq<byte>, g: Setting)
    requires ChosenBy(d, op, c, s, g) && ChosenBy(d, op, c', s, g)
    requires StepEffect(op, c, s, t, g) && StepEffect(op, c', s, t', g) && !c.Nothing? && !c'.Nothing?
    ensures c == c' || t == t'
  {
    hide StepEffect;
    SameShape(op, c, c', s, t, t', g);
    match c
    case Clone(_, _, _) => SameBlock(d, op, c, c', s, g);
    case CloneFill(_, _, _, _) => SameBlock(d, op, c, c', s, g);
    case Copy(_, _, _) => SameBlock(d, op, c, c', s, g);
    case Fill(_, _, _, _) => SameBlock(d, op, c, c', s, g);
    case Exchange(_, _, _) => SameMove(d, op, c, c', s, g);
    case Permute(_, _) => SameMove(d, op, c, c', s, g);
    case Remove(_, _) => SameMove(d, op, c, c', s, g);
    case Splice(_, _, _) => SameMove(d, op, c, c', s, g);
    case Number(start, strat, draw) => SameNumber(d, s, start, strat, draw, c'.start, c'.strat, c'.draw);
    case _ => SameAmount(d, op, c, c', s, t, t', g);
  }

  lemma SameAmount(d: Dice, op: nat, c: Choice, c': Choice, s: seq<byte>, t: seq<byte>, t': seq<byte>, g: Setting)
    requires ChosenBy(d, op, c, s, g) && ChosenBy(d, op, c', s, g) && StepEffect(op, c, s, t, g) && StepEffect(op, c', s, t', g)
    requires (c.Edit? && c'.Edit?) || (c.Store? && c'.Store?) || (c.Arith? && c'.Arith?) || (c.Digits? && c'.Digits?) || (c.Entry? && c'.Entry?)
    ensures c == c' || t == t'
  {
    hide Pick, Bytes, Replace, Overlay, Summed, EditValue, LastDigits, InterestingValues, EditLimit;
  }

  /** The dice determine whether an operator has its effect, and the bytes after
      it. */
  lemma FollowsOnce(d: Dice, a: Draw, b: Draw, s: seq<byte>, t: seq<byte>, t': seq<byte>, g: Setting)
    requires Follows(d, a, s, t, g) && Follows(d, b, s, t', g)
    ensures t == t' && a.done == b.done && a.op == b.op
  {
    hide ChosenBy, GivesWay, StepEffect, Pick;
    if a.done && b.done {
      if a.choice.Nothing? {
        NothingOnly(a.op, b.choice, s, t, t', g);
        EffectDetermined(a.op, Nothing, s, t, t', g);
      } else if b.choice.Nothing? {
        NothingOnly(a.op, a.choice, s, t', t, g);
      } else {
        SameChoice(d, a.op, a.choice, b.choice, s, t, t', g);
        if a.choice == b.choice {
          EffectDetermined(a.op, a.choice, s, t, t', g);
        }
      }
    } else if a.done {
      SameKind(d, a.op, a.choice, b.choice, s, t, g);
    } else if b.done {
      SameKind(d, a.op, b.choice, a.choice, s, t', g);
    }
  }

  /** Runs with the same dice from the same bytes go through the same states, as
      long as both go on. */
  lemma {:induction false} RunsAgree(dice: nat -> Dice, log: seq<Draw>, states: seq<seq<byte>>, log': seq<Draw>, states': seq<seq<byte>>,
                                     g: Setting, k: nat)
    requires IsRun(dice, log, states, g) && IsRun(dice, log', states', g) && k <= |log| && k <= |log'|
    requires |states| == |log| + 1 && |states'| == |log'| + 1 && states[0] == states'[0]
    ensures states[k] == states'[k] && (forall j :: 0 <= j < k ==> log[j].done == log'[j].done)
    ensures StepsDone(log[..k]) == StepsDone(log'[..k])
    decreases k
  {
    hide Follows;
    if k > 0 {
      RunsAgree(dice, log, states, log', states', g, k - 1);
      FollowsOnce(dice(k - 1), log[k - 1], log'[k - 1], states[k - 1], states[k], states'[k], g);
      assert log[..k] == log[..k - 1] + [log[k - 1]] && log'[..k] == log'[..k - 1] + [log'[k - 1]];
      OneMoreDrawn(log[..k - 1], log[k - 1]);
      OneMoreDrawn(log'[..k - 1], log'[k - 1]);
    }
  }

  /** What comes out depends on the input, the dice and the two bounds alone. */
  lemma DiceDetermine(dice: nat -> Dice, log: seq<Draw>, states: seq<seq<byte>>, log': seq<Draw>, states': seq<seq<byte>>,
                      g: Setting, steps: nat, draws: nat)
    requires IsRun(dice, log, states, g) && IsRun(dice, log', states', g)
    requires |states| == |log| + 1 && |states'| == |log'| + 1 && states[0] == states'[0]
    requires RunsFor(log, steps, draws) && RunsFor(log', steps, draws)
    ensures states == states'
  {
    hide IsRun;
    var n := if |log| <= |log'| then |log| else |log'|;
    RunsAgree(dice, log, states, log', states', g, n);
    SameEnds(log, log', n, steps, draws);
    forall k | 0 <= k < |states|
      ensures states[k] == states'[k]
    {
      RunsAgree(dice, log, states, log', states', g, k);
    }
  }

  lemma {:induction false} StepsGrow(log: seq<Draw>, k: nat)
    requires k <= |log|
    ensures StepsDone(log[..k]) <= StepsDone(log)
    decreases |log|
  {
    if k < |log| {
      assert log[..|log| - 1][..k] == log[..k];
      StepsGrow(log[..|log| - 1], k);
    } else {
      assert log[..k] == log;
    }
  }

  lemma SameEnds(log: seq<Draw>, log': seq<Draw>, n: nat, steps: nat, draws: nat)
    requires RunsFor(log, steps, draws) && RunsFor(log', steps, draws)
    requires n == (if |log| <= |log'| then |log| else |log'|) && StepsDone(log[..n]) == StepsDone(log'[..n])
    ensures |log| == |log'|
  {
    if |log| < |log'| {
      LongerHasMore(log, log', steps, draws);
    } else if |log'| < |log| {
      LongerHasMore(log', log, steps, draws);
    }
  }

  /** A run that has not used up its draws has done all its steps, so a longer one
      does not agree with it. */
  lemma LongerHasMore(log: seq<Draw>, log': seq<Draw>, steps: nat, draws: nat)
    requires RunsFor(log, steps, draws) && RunsFor(log', steps, draws) && |log| < |log'|
    ensures StepsDone(log[..|log|]) != StepsDone(log'[..|log|])
  {
    assert log[..|log|] == log && log'[..|log'| - 1][..|log|] == log'[..|log|];
    StepsGrow(log'[..|log'| - 1], |log|);
  }
}

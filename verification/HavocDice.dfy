/** The random numbers of the havoc mutator: given by what they are asked for, so
    that every choice is a function of them. */
module HavocDice {

  const HAVOC_BLK_SMALL := 32
  const HAVOC_BLK_MEDIUM := 128
  const HAVOC_BLK_LARGE := 1500
  const HAVOC_BLK_XL := 32768

  /** The numbers of one draw of an operator, by their role and, where a number is
      drawn again until it suits, by the attempt. */
  type Dice = (nat, nat) -> nat

  const PLACE: nat := 0
  const SOURCE: nat := 1
  const AMOUNT: nat := 2
  const STRATEGY: nat := 3
  const OPERATOR: nat := 4
  const QUEUE_CYCLE: nat := 5
  const BLOCK_CLASS: nat := 6
  const BLOCK_LARGE: nat := 7
  const BLOCK_MORE: nat := 8
  /** The k-th exchange of a shuffle has a role of its own. */
  const PARTNER: nat := 9

  /** rand_below: zero for limits of at most one. */
  function Pick(d: Dice, role: nat, limit: nat): (r: nat)
    ensures if limit <= 1 then r == 0 else r < limit
  {
    if limit <= 1 then 0 else d(role, 0) % limit
  }

  /** No repeated draw goes on for ever. */
  ghost predicate Fair(d: Dice) {
    forall role: nat, limit: nat, other: nat {:trigger Suits(d, role, limit, other)} :: limit >= 2 ==> Suits(d, role, limit, other)
  }

  ghost predicate Suits(d: Dice, role: nat, limit: nat, other: nat)
    requires limit >= 2
  {
    exists a: nat :: d(role, a) % limit != other
  }

  /** Attempt a is the first that does not give `other`. */
  ghost predicate FirstSuits(d: Dice, role: nat, limit: nat, other: nat, a: nat)
    requires limit >= 2
  {
    d(role, a) % limit != other && forall b: nat :: b < a ==> d(role, b) % limit == other
  }

  /** A number below the limit other than `other`, by the first attempt that gives
      one. */
  ghost predicate PickedOther(d: Dice, role: nat, limit: nat, other: nat, r: nat) {
    limit >= 2 && exists a: nat :: FirstSuits(d, role, limit, other, a) && r == d(role, a) % limit
  }

  lemma PickedOnce(d: Dice, role: nat, limit: nat, other: nat, r: nat, r': nat)
    requires PickedOther(d, role, limit, other, r) && PickedOther(d, role, limit, other, r')
    ensures r == r'
  {
    var a: nat :| FirstSuits(d, role, limit, other, a) && r == d(role, a) % limit;
    var b: nat :| FirstSuits(d, role, limit, other, b) && r' == d(role, b) % limit;
  }

  /** A draw repeated until it differs. */
  method RandOther(d: Dice, role: nat, limit: nat, other: nat) returns (r: nat)
    requires Fair(d) && limit >= 2
    ensures PickedOther(d, role, limit, other, r) && r < limit && r != other
  {
    assert Suits(d, role, limit, other);
    ghost var last: nat :| d(role, last) % limit != other;
    var a := 0;
    r := d(role, 0) % limit;
    while r == other
      invariant a <= last && r == d(role, a) % limit
      invariant forall b: nat :: b < a ==> d(role, b) % limit == other
      decreases last - a
    {
      a := a + 1;
      r := d(role, a) % limit;
    }
    assert FirstSuits(d, role, limit, other, a);
  }

  // --------------------------------------------------------------- block lengths

  /** From which to which length a block may be, before it is cut to its limit. */
  function BlockRange(d: Dice): (nat, nat) {
    match Pick(d, BLOCK_CLASS, Pick(d, QUEUE_CYCLE, 4))
    case 0 => (1, HAVOC_BLK_SMALL)
    case 1 => (HAVOC_BLK_SMALL, HAVOC_BLK_MEDIUM)
    case _ => if Pick(d, BLOCK_LARGE, 10) != 0 then (HAVOC_BLK_MEDIUM, HAVOC_BLK_LARGE) else (HAVOC_BLK_LARGE, HAVOC_BLK_XL)
  }

  /** n is the length that the dice give for a limit: in the range if that fits
      it, else from one up to the limit. */
  predicate IsBlockLen(d: Dice, limit: nat, n: nat) {
    var (low, high) := BlockRange(d);
    var from, to := if low < limit then low else 1, if high <= limit then high else limit;
    n == from + Pick(d, BLOCK_MORE, if from <= to then to - from + 1 else 0)
  }

  /** choose_block_len: never zero, and within the limit unless the limit is zero.
      How far the queue has come is taken to be arbitrary. */
  method ChooseBlockLen(d: Dice, limit: nat) returns (n: nat)
    ensures IsBlockLen(d, limit, n)
    ensures 1 <= n <= HAVOC_BLK_XL
    ensures if limit == 0 then n == 1 else n <= limit
  {
    var rlim := Pick(d, QUEUE_CYCLE, 4);
    var minValue, maxValue;
    var choice := Pick(d, BLOCK_CLASS, rlim);
    if choice == 0 {
      minValue, maxValue := 1, HAVOC_BLK_SMALL;
    } else if choice == 1 {
      minValue, maxValue := HAVOC_BLK_SMALL, HAVOC_BLK_MEDIUM;
    } else {
      if Pick(d, BLOCK_LARGE, 10) != 0 {
        minValue, maxValue := HAVOC_BLK_MEDIUM, HAVOC_BLK_LARGE;
      } else {
        minValue, maxValue := HAVOC_BLK_LARGE, HAVOC_BLK_XL;
      }
    }
    if minValue >= limit {
      minValue := 1;
    }
    var top := if maxValue <= limit then maxValue else limit;
    n := minValue + Pick(d, BLOCK_MORE, if top >= minValue then top - minValue + 1 else 0);
  }
}

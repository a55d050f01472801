/** What the operators of the havoc mutator do to the input: for each of them
    the numbers it draws, and the bytes that result. */
module HavocStep {
  import opened Words
  import opened Bits
  import opened Sattolo
  import opened HavocDice
  import opened HavocSpec
  import opened HavocNumber

  const ARITH_MAX := 35
  const MUT_MAX := 37

  /** What a run does not change. */
  datatype Setting = Setting(maxLen: nat, extras: seq<seq<byte>>, autoExtras: seq<seq<byte>>, splice: seq<byte>)

  /** What an operator has drawn: places, lengths, table entries and amounts.
      `previous` tells whether a block is filled with the byte before it rather
      than with the byte drawn. */
  datatype Choice =
    | Nothing
    | Edit(off: nat, draw: nat)
    | Store(pos: nat, entry: nat)
    | Arith(pos: nat, draw: nat)
    | Clone(at: nat, from: nat, n: nat)
    | CloneFill(at: nat, previous: bool, b: byte, n: nat)
    | Copy(to: nat, from: nat, n: nat)
    | Fill(to: nat, previous: bool, b: byte, n: nat)
    | Exchange(first: nat, second: nat, n: nat)
    | Permute(off: nat, partners: seq<nat>)
    | Remove(from: nat, n: nat)
    | Number(start: nat, strat: nat, draw: nat)
    | Digits(pos: nat, v: nat, n: nat)
    | Entry(at: nat, k: nat)
    | Splice(at: nat, from: nat, n: nat)

  const BYTE_OPS := {0, 1, 6, 7, 16, 21, 22, 23}

  /** Operators 2 to 5 and 8 to 15 come in pairs of byte orders, 16-bit words
      before 32-bit ones, subtraction before addition. */
  function WordWidth(op: nat): nat { if op in {2, 3, 8, 9, 10, 11} then 2 else 4 }
  predicate IsBigEndian(op: nat) { op % 2 == 1 }
  predicate Subtracts(op: nat) { op in {8, 9, 12, 13} }

  predicate IsBlock(n: nat) { 1 <= n <= HAVOC_BLK_XL }

  /** The effect of one operator: with its choice c it turns s into t.  It does
      nothing only if the input is too short for it. */
  ghost predicate StepEffect(op: nat, c: Choice, s: seq<byte>, t: seq<byte>, g: Setting) {
    match c
    case Nothing =>
      t == s && TooShort(op, s, g)
    case Edit(off, draw) =>
      op in BYTE_OPS && off < |s| && draw < EditLimit(op) && t == s[off := EditValue(op, s[off], draw)]
    case Store(pos, entry) =>
      && 2 <= op <= 5 && pos + WordWidth(op) <= |s| && entry < |InterestingValues(WordWidth(op))|
      && t == Overlay(s, pos, Bytes(Interesting(entry, WordWidth(op)), WordWidth(op), IsBigEndian(op)))
    case Arith(pos, draw) =>
      && 8 <= op <= 15 && pos + WordWidth(op) <= |s| && draw < ARITH_MAX
      && t == Overlay(s, pos, Summed(s[pos..pos + WordWidth(op)], Amount(draw, Subtracts(op)),
                                     Effective(WordWidth(op), IsBigEndian(op), Subtracts(op))))
    case Clone(at, from, n) =>
      && op == 17 && |s| + HAVOC_BLK_XL < g.maxLen && at < |s| && IsBlock(n) && from + n <= |s|
      && t == Replace(s, at, s[from..from + n], at)
    case CloneFill(at, previous, b, n) =>
      && ((op == 18 && |s| + HAVOC_BLK_XL < g.maxLen && IsBlock(n)) || (op == 28 && n == 1 && 2 <= |s| < g.maxLen))
      && at < |s| && t == Replace(s, at, Filled(n, FillValue(s, at, previous, b)), at)
    case Copy(to, from, n) =>
      && op == 19 && IsBlock(n) && n < |s| && to + n <= |s| && from + n <= |s|
      && t == Overlay(s, to, s[from..from + n])
    case Fill(to, previous, b, n) =>
      && op == 20 && IsBlock(n) && n < |s| && to + n <= |s|
      && t == Overlay(s, to, Filled(n, FillValue(s, to, previous, b)))
    case Exchange(a, b, n) =>
      && op == 24 && |s| >= 4 && IsBlock(n) && a + n <= b && b + n <= |s|
      && t == Switched(s, a, b, n)
    case Permute(off, js) =>
      var n := |js| + 1;
      && op == 26 && |s| >= 4 && IsBlock(n) && n < |s| && off + n <= |s| && Drawn(n, js)
      && t == BlockPermuted(s, off, Arranged(n, js))
    case Remove(from, n) =>
      && op in {25, 27} && IsBlock(n) && (op == 27 ==> n == 1) && n < |s| && from + n <= |s|
      && t == Without(s, from, n)
    case Number(start, strat, draw) =>
      op == 29 && |s| >= 4 && start < |s| && strat < 8 && Rewritten(s, t, start, strat, draw) && |t| <= g.maxLen
    case Digits(pos, v, n) =>
      && op == 30 && 1 <= n <= 8 && pos < |s| && v < TWO64
      && (if pos + n <= |s| then t == Overlay(s, pos, LastDigits(v, n)) else |s| < 8 && t == s)
    case Entry(at, k) =>
      && op in {31, 32, 33, 34} && k < |Dictionary(op, g)| && at <= |s|
      && (var word := Dictionary(op, g)[k];
          if op in {31, 33} then at + |word| <= |s| && t == Overlay(s, at, word)
          else |s| + |word| <= g.maxLen && t == Replace(s, at, word, at))
    case Splice(at, from, n) =>
      && op in {35, 36} && IsBlock(n) && from + n <= |g.splice| && at <= |s|
      && (if op == 35 then at + n <= |s| && (n == 1 || n < |g.splice|) && t == Overlay(s, at, g.splice[from..from + n])
          else |s| + HAVOC_BLK_XL <= g.maxLen && t == Replace(s, at, g.splice[from..from + n], at))
  }

  /** The dictionary an operator draws from. */
  function Dictionary(op: nat, g: Setting): seq<seq<byte>> { if op <= 32 then g.extras else g.autoExtras }

  /** Where an operator ends its step without doing anything. */
  ghost predicate TooShort(op: nat, s: seq<byte>, g: Setting) {
    if op in {2, 3, 8, 9, 10, 11, 19, 20, 25, 27, 28} then |s| < 2
    else if op in {4, 5, 12, 13, 14, 15, 24, 26} then |s| < 4
    else if op in {17, 18} then |s| < 8 && |s| + HAVOC_BLK_XL >= g.maxLen
    else op == 29 && (|s| < 4 || (|s| < 8 && !HasDigit(s)))
  }

  /** A block is filled with the byte before it or with one drawn. */
  predicate FilledBy(d: Dice, previous: bool, b: byte) {
    previous == (Pick(d, STRATEGY, 2) == 0) && b == Pick(d, AMOUNT, 256)
  }

  /** A block length that is cut to another limit afterwards. */
  ghost predicate CutBlockLen(d: Dice, limit: nat, cut: nat, n: nat) {
    exists m: nat {:trigger IsBlockLen(d, limit, m)} :: IsBlockLen(d, limit, m) && n == if m > cut then cut else m
  }

  /** The regions at two different places, as long as the distance and the room
      behind the second one allow. */
  ghost predicate SwitchedBy(d: Dice, len: nat, a: nat, b: nat, n: nat) {
    var from := Pick(d, PLACE, len);
    && a < b < len && (from == a || from == b)
    && PickedOther(d, SOURCE, len, from, if from == a then b else a)
    && IsBlockLen(d, if b - a <= len - b then b - a else len - b, n)
  }

  lemma SwitchDrawn(d: Dice, len: nat, from: nat, to: nat, n: nat)
    requires from == Pick(d, PLACE, len) < len && PickedOther(d, SOURCE, len, from, to) && to < len && to != from
    requires var a, b := if from < to then from else to, if from < to then to else from;
             IsBlockLen(d, if b - a <= len - b then b - a else len - b, n)
    ensures SwitchedBy(d, len, if from < to then from else to, if from < to then to else from, n)
  {
    hide Pick, PickedOther, IsBlockLen;
  }

  /** Each partner of an exchange is drawn until it differs from the place it is
      exchanged with. */
  ghost predicate PartnersDrawn(d: Dice, n: nat, js: seq<nat>) {
    |js| < n && forall k: nat {:trigger js[k]} :: k < |js| ==> PickedOther(d, PARTNER + k, n - k, n - 1 - k, js[k])
  }

  lemma NoPartner(d: Dice, n: nat)
    requires n > 0
    ensures PartnersDrawn(d, n, [])
  {
  }

  lemma OneMorePartner(d: Dice, n: nat, js: seq<nat>, j: nat)
    requires PartnersDrawn(d, n, js) && |js| + 1 < n && PickedOther(d, PARTNER + |js|, n - |js|, n - 1 - |js|, j)
    ensures PartnersDrawn(d, n, js + [j])
  {
    hide PickedOther;
  }

  /** The number found from a place on, a strategy, and what that draws from. */
  ghost predicate NumberBy(d: Dice, s: seq<byte>, start: nat, strat: nat, draw: nat) {
    && start == Pick(d, PLACE, |s|) && strat == Pick(d, STRATEGY, 8)
    && exists at, end, val ::
         FoundFrom(s, start, at) && NumberAt(s, at, end, val) && draw == Pick(d, AMOUNT, DrawLimit(strat, Base(strat, val)))
  }

  /** What an operator draws is what the dice give: each number with all the values
      that the operator allows. */
  ghost predicate ChosenBy(d: Dice, op: nat, c: Choice, s: seq<byte>, g: Setting) {
    match c
    case Nothing => true
    case Edit(off, draw) => off == Pick(d, PLACE, |s|) && draw == Pick(d, AMOUNT, EditLimit(op))
    case Store(pos, entry) =>
      && |s| >= WordWidth(op) && pos == Pick(d, PLACE, |s| - WordWidth(op) + 1)
      && entry == Pick(d, AMOUNT, |InterestingValues(WordWidth(op))|)
    case Arith(pos, draw) =>
      |s| >= WordWidth(op) && pos == Pick(d, PLACE, |s| - WordWidth(op) + 1) && draw == Pick(d, AMOUNT, ARITH_MAX)
    case Clone(at, from, n) =>
      n <= |s| && IsBlockLen(d, |s|, n) && from == Pick(d, SOURCE, |s| - n + 1) && at == Pick(d, PLACE, |s|)
    case CloneFill(at, previous, b, n) =>
      && (if op == 28 then n == 1 else IsBlockLen(d, HAVOC_BLK_XL, n))
      && at == Pick(d, PLACE, |s|) && FilledBy(d, previous, b)
    case Copy(to, from, n) =>
      && 1 <= n <= |s| && IsBlockLen(d, |s| - 1, n)
      && from == Pick(d, SOURCE, |s| - n + 1) && to == Pick(d, PLACE, |s| - n + 1)
    case Fill(to, previous, b, n) =>
      1 <= n <= |s| && IsBlockLen(d, |s| - 1, n) && to == Pick(d, PLACE, |s| - n + 1) && FilledBy(d, previous, b)
    case Exchange(a, b, n) => SwitchedBy(d, |s|, a, b, n)
    case Permute(off, js) =>
      var n := |js| + 1;
      n <= |s| && IsBlockLen(d, |s| - 1, n) && off == Pick(d, PLACE, |s| - n + 1) && PartnersDrawn(d, n, js)
    case Remove(from, n) =>
      && 1 <= n <= |s| && (if op == 27 then n == 1 else IsBlockLen(d, |s| - 1, n))
      && from == Pick(d, PLACE, |s| - n + 1)
    case Number(start, strat, draw) => NumberBy(d, s, start, strat, draw)
    case Digits(pos, v, n) =>
      && n == 1 + Pick(d, SOURCE, 8) && pos == Pick(d, PLACE, |s|) && (pos + n <= |s| ==> v == Pick(d, AMOUNT, TWO64))
    case Entry(at, k) =>
      && k < |Dictionary(op, g)| && k == Pick(d, SOURCE, |Dictionary(op, g)|)
      && (var word := Dictionary(op, g)[k];
          if op in {31, 33} then |word| <= |s| ==> at == Pick(d, PLACE, |s| - |word| + 1)
          else |s| + |word| <= g.maxLen ==> at == Pick(d, PLACE, |s| + 1))
    case Splice(at, from, n) =>
      && n <= |g.splice| && from == Pick(d, SOURCE, |g.splice| - n + 1)
      && (if op == 35 then 1 <= |g.splice| && n <= |s| && CutBlockLen(d, |g.splice| - 1, |s|, n) && at == Pick(d, PLACE, |s| - n + 1)
          else IsBlockLen(d, |g.splice|, n) && at == Pick(d, PLACE, |s| + 1))
  }

  /** Where an operator gives way to another one, and the bytes are left alone:
      there is no room, no number, no dictionary, no entry that fits, or nothing
      to splice from. */
  ghost predicate GivesWay(op: nat, c: Choice, s: seq<byte>, g: Setting) {
    match c
    case Nothing =>
      || (op in {17, 18} && |s| >= 8 && |s| + HAVOC_BLK_XL >= g.maxLen)
      || (op == 28 && |s| >= 2 && |s| >= g.maxLen)
      || (op == 29 && |s| >= 8 && !HasDigit(s))
      || (op in {31, 32, 33, 34} && Dictionary(op, g) == [])
      || (op in {35, 36} && g.splice == [])
      || (op == 36 && |s| + HAVOC_BLK_XL > g.maxLen)
    case Number(start, strat, draw) =>
      op == 29 && |s| >= 4 && start < |s| && strat < 8 && exists t :: Rewritten(s, t, start, strat, draw) && |t| > g.maxLen
    case Digits(pos, v, n) =>
      op == 30 && |s| >= 8 && 1 <= n <= 8 && pos < |s| < pos + n
    case Entry(at, k) =>
      && op in {31, 32, 33, 34} && k < |Dictionary(op, g)|
      && (var word := Dictionary(op, g)[k]; if op in {31, 33} then |word| > |s| else |s| + |word| > g.maxLen)
    case _ => false
  }

  /** An operator that gives way could not have had an effect with what it drew,
      and those on bytes, words and blocks within the input never do. */
  lemma WayOrEffect(op: nat, c: Choice, s: seq<byte>, t: seq<byte>, g: Setting)
    requires GivesWay(op, c, s, g)
    ensures !StepEffect(op, c, s, t, g)
    ensures op >= 17 && op !in {19, 20, 21, 22, 23, 24, 25, 26, 27}
  {
    hide Bytes, Replace, Overlay, Without, Switched, BlockPermuted, Arranged, Summed, Bag, Filled, EditValue, Rewritten;
    if c.Number? {
      var u :| Rewritten(s, u, c.start, c.strat, c.draw) && |u| > g.maxLen;
      if StepEffect(op, c, s, t, g) {
        RewrittenOnce(s, t, u, c.start, c.strat, c.draw);
      }
    }
  }

  /** No effect leaves the bounds, and only insertions, deletions and numbers
      change the length. */
  lemma EffectLength(op: nat, c: Choice, s: seq<byte>, t: seq<byte>, g: Setting)
    requires StepEffect(op, c, s, t, g) && 1 <= |s| <= g.maxLen
    ensures 1 <= |t| <= g.maxLen
    ensures op !in {17, 18, 25, 27, 28, 29, 32, 34, 36} ==> |t| == |s|
  {
    hide Bytes, Replace, Overlay, Without, Switched, BlockPermuted, Summed, Permutation, Printed, Bag, Filled;
  }

  /** The draws leave no freedom: they determine the result.  In particular at
      most one number is found from a place on, with one end. */
  lemma EffectDetermined(op: nat, c: Choice, s: seq<byte>, t: seq<byte>, t': seq<byte>, g: Setting)
    requires StepEffect(op, c, s, t, g) && StepEffect(op, c, s, t', g)
    ensures t == t'
  {
    hide Bytes, Replace, Overlay, Without, Switched, BlockPermuted, Arranged, Summed, Bag, Filled, EditValue, Rewritten;
    if c.Number? {
      RewrittenOnce(s, t, t', c.start, c.strat, c.draw);
    }
  }

  /** A stored word reads back in the byte order of its operator. */
  lemma StoredReads(op: nat, c: Choice, s: seq<byte>, t: seq<byte>, g: Setting)
    requires c.Store? && StepEffect(op, c, s, t, g)
    ensures c.pos + WordWidth(op) <= |t| && c.entry < |InterestingValues(WordWidth(op))|
    ensures Value(t[c.pos..c.pos + WordWidth(op)], IsBigEndian(op)) == Interesting(c.entry, WordWidth(op))
  {
    hide Bytes, Value, InterestingValues;
    var v := Interesting(c.entry, WordWidth(op));
    var word := Bytes(v, WordWidth(op), IsBigEndian(op));
    assert t[c.pos..c.pos + WordWidth(op)] == word;
    BytesThenValue(v, WordWidth(op), IsBigEndian(op));
  }

  /** Switching and shuffling lose no byte. */
  lemma EffectBag(op: nat, c: Choice, s: seq<byte>, t: seq<byte>, g: Setting)
    requires StepEffect(op, c, s, t, g) && op in {24, 26}
    ensures Bag(t) == Bag(s)
  {
    hide Bag, Switched, BlockPermuted, Arranged, Drawn;
    if c.Exchange? {
      SwitchLaws(s, c.first, c.second, c.n);
    } else if c.Permute? {
      ArrangedBag(s, c.off, |c.partners| + 1, c.partners);
    }
  }

  /** Switching again with the same choice undoes it. */
  lemma ExchangeUndone(c: Choice, s: seq<byte>, t: seq<byte>, g: Setting)
    requires c.Exchange? && StepEffect(24, c, s, t, g)
    ensures StepEffect(24, c, t, s, g)
  {
    SwitchLaws(s, c.first, c.second, c.n);
  }

  // -------------------------------------------------------- single operators

  const INTERESTING_8 := [-128, -1, 0, 1, 16, 32, 64, 100, 127]
  const INTERESTING_16 := [-32768, -129, 128, 255, 256, 512, 1000, 1024, 4096, 32767]
  const INTERESTING_32 := [-2147483648, -100663046, -32769, 32768, 65535, 65536, 100663045, 2139095040, 2147483647]

  /** The interesting values of a width: those of smaller widths among them. */
  function InterestingValues(width: nat): (r: seq<int>)
    ensures |r| >= 9
  {
    INTERESTING_8 + (if width >= 2 then INTERESTING_16 else []) + if width >= 4 then INTERESTING_32 else []
  }

  predicate InTable(v: int, width: nat) { v in InterestingValues(width) }

  /** The values at which a word of n values overflows, signed or not, and the
      first ones that it does not hold. */
  predicate HasEdges(n: nat, width: nat) {
    && InTable(-(n / 2), width) && InTable(n / 2 - 1, width) && InTable(-(n / 2) - 1, width)
    && InTable(n / 2, width) && InTable(n - 1, width) && InTable(n, width)
  }

  /** The table of a width has the edges of all smaller words, and the largest and
      the smallest word of this width. */
  lemma TableHasEdges(width: nat, smaller: nat)
    requires width in {2, 4} && smaller in {1, 2} && smaller < width
    ensures InTable(-1, width) && InTable(0, width) && InTable(1, width)
    ensures InTable(-(Pow256(width) / 2), width) && InTable(Pow256(width) / 2 - 1, width)
    ensures HasEdges(Pow256(smaller), width)
  {
    hide InTable;
    assert Pow256(1) == 256 && Pow256(2) == 65536;
    Pow256Values();
    if width == 2 {
      TableOfTwo();
    } else {
      TableOfFour();
    }
  }

  lemma TableOfTwo()
    ensures InTable(-1, 2) && InTable(0, 2) && InTable(1, 2) && InTable(-32768, 2) && InTable(32767, 2)
    ensures HasEdges(256, 2)
  {
    var r := InterestingValues(2);
    assert r[0] == -128 && r[1] == -1 && r[2] == 0 && r[3] == 1 && r[8] == 127;
    assert r[9] == -32768 && r[10] == -129 && r[11] == 128 && r[12] == 255 && r[13] == 256 && r[18] == 32767;
  }

  lemma TableGrows(v: int)
    ensures InTable(v, 2) ==> InTable(v, 4)
  {
  }

  lemma LastOfFour()
    ensures InTable(-2147483648, 4) && InTable(2147483647, 4)
    ensures InTable(-32769, 4) && InTable(32768, 4) && InTable(65535, 4) && InTable(65536, 4)
  {
    var r := InterestingValues(4);
    assert r[19] == -2147483648 && r[21] == -32769 && r[22] == 32768 && r[23] == 65535 && r[24] == 65536 && r[27] == 2147483647;
  }

  lemma TableOfFour()
    ensures InTable(-1, 4) && InTable(0, 4) && InTable(1, 4) && InTable(-2147483648, 4) && InTable(2147483647, 4)
    ensures HasEdges(256, 4) && HasEdges(65536, 4)
  {
    hide InTable;
    TableOfTwo();
    LastOfFour();
    forall v: int
      ensures InTable(v, 2) ==> InTable(v, 4)
    {
      TableGrows(v);
    }
  }

  /** Every interesting value fits a word of its width, signed. */
  lemma TableFits(width: nat, entry: nat)
    requires width in {1, 2, 4} && entry < |InterestingValues(width)|
    ensures -(Pow256(width) / 2) <= InterestingValues(width)[entry] < Pow256(width) / 2
  {
    Pow256Values();
  }

  /** An entry of the table as a word, without sign. */
  function Interesting(entry: nat, width: nat): (v: nat)
    requires entry < |InterestingValues(width)|
    ensures v < Pow256(width)
  {
    WrapTo(InterestingValues(width)[entry], width)
  }

  /** What an arithmetic operator adds. */
  function Amount(draw: nat, subtract: bool): (d: int)
    requires draw < ARITH_MAX
    ensures if subtract then -ARITH_MAX <= d < 0 else 0 < d <= ARITH_MAX
  {
    if subtract then -(1 + draw) else 1 + draw
  }

  /** The byte repeated in an inserted or overwritten block. */
  function FillValue(s: seq<byte>, at: nat, previous: bool, b: byte): byte
    requires at < |s|
  {
    if previous then s[if at > 0 then at - 1 else 0] else b
  }

  /** The last n digits of a number, or all if there are fewer. */
  function LastDigits(v: nat, n: nat): (r: seq<byte>)
    ensures |r| == if n <= |Printed(v)| then n else |Printed(v)|
  {
    if n <= |Printed(v)| then Printed(v)[|Printed(v)| - n..] else Printed(v)
  }

  /** How many values an operator on one byte draws from. */
  function EditLimit(op: nat): (n: nat)
    ensures n > 0
  {
    match op
    case 0 => 8
    case 1 => |INTERESTING_8|
    case 6 => ARITH_MAX
    case 7 => ARITH_MAX
    case 16 => 255
    case _ => 1
  }

  /** What becomes of a byte: a bit flipped, an interesting value, a small number
      subtracted or added, another byte, one more, one less, the complement. */
  function EditValue(op: nat, b: byte, draw: nat): byte
    requires op in BYTE_OPS && draw < EditLimit(op)
  {
    match op
    case 0 => BitFlipped(b, draw)
    case 1 => InterestingByte(draw)
    case 6 => Down(b, 1 + draw)
    case 7 => Up(b, 1 + draw)
    case 16 => XorByte(b, 1 + draw)
    case 21 => Up(b, 1)
    case 22 => Down(b, 1)
    case _ => 255 - b
  }

  function BitFlipped(b: byte, bit: nat): byte
    requires bit < 8
  {
    FlipChanges(b, Pow2(bit), bit);
    XorByte(b, Pow2(bit))
  }

  function InterestingByte(entry: nat): byte
    requires entry < |INTERESTING_8|
  {
    INTERESTING_8[entry] % 256
  }

  /** Operator 0 changes the bit it draws and no other one. */
  lemma EditFlips(b: byte, bit: nat, i: nat)
    requires bit < 8
    ensures Bit(EditValue(0, b, bit), i) <==> Bit(b, i) != (i == bit)
  {
    BitOfXor(b, Pow2(bit), i);
    OneBit(bit, i);
  }

  /** Operator 1 stores the entry of the table, read with its sign. */
  lemma EditInteresting(b: byte, draw: nat)
    requires draw < EditLimit(1)
    ensures var v := EditValue(1, b, draw); INTERESTING_8[draw] == if v < 128 then v else v - 256
  {
    assert |INTERESTING_8| == 9;
  }

  /** The operators on one byte that add and those that subtract undo each other,
      and a flip, an exclusive or and the complement undo themselves. */
  lemma EditUndone(op: nat, b: byte, draw: nat)
    requires op in BYTE_OPS && op != 1 && draw < EditLimit(op)
    ensures var back := if op in {6, 7} then 13 - op else if op in {21, 22} then 43 - op else op;
      draw < EditLimit(back) && EditValue(back, EditValue(op, b, draw), draw) == b
  {
    hide XorByte, BitFlipped, Up, Down, InterestingByte;
    if op == 0 {
      FlipTwice(b, draw);
    } else if op == 16 {
      XorTwice(b, 1 + draw);
    } else {
      UpAndDown(b, 1 + draw);
    }
  }

  lemma FlipTwice(b: byte, bit: nat)
    requires bit < 8
    ensures BitFlipped(BitFlipped(b, bit), bit) == b
  {
    hide Xor, Pow2;
    XorCancels(b, Pow2(bit));
  }

  lemma XorTwice(a: byte, b: byte)
    ensures XorByte(XorByte(a, b), b) == a
  {
    hide Xor;
    XorCancels(a, b);
  }

  lemma UpAndDown(b: byte, d: nat)
    requires d <= 256
    ensures Up(Down(b, d), d) == b && Down(Up(b, d), d) == b
  {
  }

  /** Except for the interesting values, every draw changes the byte. */
  lemma EditChanges(op: nat, b: byte, draw: nat)
    requires op in BYTE_OPS && op != 1 && draw < EditLimit(op)
    ensures EditValue(op, b, draw) != b
  {
    hide Xor, Pow2, XorByte;
    if op == 0 {
      FlipChanges(b, Pow2(draw), draw);
    } else if op == 16 {
      XorChanges(b, 1 + draw);
    }
  }

  /** Operator 16 makes every other byte, each by one draw alone. */
  lemma EditReaches(b: byte, v: byte, draw: nat)
    requires v != b && draw < 255
    ensures 1 <= XorByte(b, v) && (EditValue(16, b, draw) == v <==> draw == XorByte(b, v) - 1)
  {
    hide Xor;
    XorCommutes(b, v);
    XorCommutes(b, XorByte(b, v));
    XorCancels(v, b);
    XorCommutes(b, 1 + draw);
    XorCancels(1 + draw, b);
    XorZero(b);
    XorCommutes(b, 0);
  }

  /** The number found from `start` on gives way to what a strategy makes of it. */
  ghost predicate Rewritten(s: seq<byte>, t: seq<byte>, start: nat, strat: nat, draw: nat) {
    exists at, end, val :: RewrittenAt(s, t, start, strat, draw, at, end, val)
  }

  ghost predicate RewrittenAt(s: seq<byte>, t: seq<byte>, start: nat, strat: nat, draw: nat, at: nat, end: nat, val: int) {
    && FoundFrom(s, start, at) && NumberAt(s, at, end, val) && draw < DrawLimit(strat, Base(strat, val))
    && t == Replace(s, at, Shown(NewValue(strat, Base(strat, val), draw)), if GivesUpDigit(strat, val) then end - 1 else end)
  }

  lemma RewrittenIf(s: seq<byte>, t: seq<byte>, start: nat, strat: nat, draw: nat, at: nat, end: nat, val: int)
    requires FoundFrom(s, start, at) && NumberAt(s, at, end, val) && draw < DrawLimit(strat, Base(strat, val)) && at < end <= |s|
    requires t == Replace(s, at, Shown(NewValue(strat, Base(strat, val), draw)), if GivesUpDigit(strat, val) then end - 1 else end)
    ensures Rewritten(s, t, start, strat, draw)
  {
    hide FoundFrom, NumberAt, Replace, Shown, NewValue, GivesUpDigit, Base, DrawLimit;
    assert RewrittenAt(s, t, start, strat, draw, at, end, val);
  }

  lemma RewrittenOnce(s: seq<byte>, t: seq<byte>, t': seq<byte>, start: nat, strat: nat, draw: nat)
    requires Rewritten(s, t, start, strat, draw) && Rewritten(s, t', start, strat, draw)
    ensures t == t'
  {
    hide RewrittenAt, FoundFrom, NumberAt, Replace, Shown, Printed, Decimal;
    var at, end, val :| RewrittenAt(s, t, start, strat, draw, at, end, val);
    var at', end', val' :| RewrittenAt(s, t', start, strat, draw, at', end', val');
    hide *;
    RewrittenParts(s, t, start, strat, draw, at, end, val);
    RewrittenParts(s, t', start, strat, draw, at', end', val');
    FoundOnce(s, start, at, at');
    NumberOnce(s, at, end, val, end', val');
  }

  lemma RewrittenParts(s: seq<byte>, t: seq<byte>, start: nat, strat: nat, draw: nat, at: nat, end: nat, val: int)
    requires RewrittenAt(s, t, start, strat, draw, at, end, val)
    ensures FoundFrom(s, start, at) && NumberAt(s, at, end, val) && at < end <= |s|
    ensures t == Replace(s, at, Shown(NewValue(strat, Base(strat, val), draw)), if GivesUpDigit(strat, val) then end - 1 else end)
  {
    hide FoundFrom, Replace, Shown, NewValue, GivesUpDigit, Base, DrawLimit;
  }

  /** Exclusive or with all ones is the complement. */
  lemma {:induction false} XorOnes(b: nat, k: nat)
    requires b < Pow2(k)
    ensures Xor(b, Pow2(k) - 1) == Pow2(k) - 1 - b
    ensures k == 8 ==> Pow2(k) == 256
    decreases k
  {
    if k == 8 {
      Pow2Values();
    }
    if k == 0 {
      XorZero(0);
    } else {
      XorOnes(b / 2, k - 1);
      XorDouble(b / 2, b % 2, Pow2(k - 1) - 1, 1);
      assert 2 * (b / 2) + b % 2 == b && 2 * (Pow2(k - 1) - 1) + 1 == Pow2(k) - 1;
    }
  }

  /** Arithmetic on words of `width` bytes wraps. */
  function WrapTo(v: int, width: nat): (r: nat)
    ensures r < Pow256(width)
  {
    v % Pow256(width)
  }

  function Up(b: byte, d: nat): byte { (b + d) % 256 }
  function Down(b: byte, d: nat): byte { (b - d) % 256 }

  /** The new bytes of a word, as the code computes them. */
  function ArithBytes(word: seq<byte>, bigEndian: bool, subtract: bool, item: int): (r: seq<byte>)
    ensures |r| == |word|
  {
    var width := |word|;
    if !bigEndian then
      WriteLE(WrapTo(ReadLE(word) + item, width), width)
    else if width == 4 && !subtract then
      var swapped := ReadLE(Reversed(WriteLE(WrapTo(ReadLE(word) + item, width), width)));
      WriteLE(ReadLE(Reversed(WriteLE(swapped, width))), width)
    else
      WriteLE(ReadLE(Reversed(WriteLE(WrapTo(ReadLE(Reversed(word)) + item, width), width))), width)
  }

  /** The order in which the arithmetic takes effect. */
  predicate Effective(width: nat, bigEndian: bool, subtract: bool) {
    bigEndian && !(width == 4 && !subtract)
  }

  lemma ArithBytesMeans(word: seq<byte>, bigEndian: bool, subtract: bool, item: int)
    ensures var order := Effective(|word|, bigEndian, subtract);
            ArithBytes(word, bigEndian, subtract, item) == Summed(word, item, order)
  {
    hide WriteLE, ReadLE, Reversed, Pow256, WrapTo;
    var width := |word|;
    if bigEndian && width == 4 && !subtract {
      SwapTwiceIsPlain(WrapTo(ReadLE(word) + item, width), width);
    } else if bigEndian {
      SwapThenWrite(WrapTo(ReadLE(Reversed(word)) + item, width), width);
    }
  }

  lemma Complement(b: byte)
    ensures XorByte(b, 255) == 255 - b
  {
    hide Xor;
    XorOnes(b, 8);
  }

  lemma SwapThenWrite(v: nat, width: nat)
    ensures WriteLE(ReadLE(Reversed(WriteLE(v, width))), width) == Reversed(WriteLE(v, width))
  {
    hide WriteLE, ReadLE, Reversed;
    ReadThenWrite(Reversed(WriteLE(v, width)));
  }

  function XorByte(a: byte, b: byte): byte {
    Pow2Values();
    XorBound(a, b, 8);
    Xor(a, b)
  }

  /** Exclusive or with anything but zero changes a byte. */
  lemma XorChanges(a: byte, b: byte)
    requires b != 0
    ensures XorByte(a, b) != a
  {
    hide Xor;
    if XorByte(a, b) == a {
      XorZero(a);
      XorCommutes(a, b);
      XorCommutes(a, 0);
      XorInjective(b, 0, a);
    }
  }

  lemma FlipChanges(a: byte, mask: nat, bit: nat)
    requires bit < 8 && mask == Pow2(bit)
    ensures mask < 256 && XorByte(a, mask) != a
  {
    Pow2Grows(bit, 7);
    assert Pow2(7) == 128;
    XorChanges(a, mask);
  }

  /** The bytes of a word after d has been added to its value in a byte order. */
  function Summed(word: seq<byte>, d: int, bigEndian: bool): (r: seq<byte>)
    ensures |r| == |word|
  {
    Bytes(WrapTo(Value(word, bigEndian) + d, |word|), |word|, bigEndian)
  }

  // ----------------------------------------- the big-endian 32-bit addition

  /** Arithmetic takes effect in the byte order that the operator names, except
      for the big-endian 32-bit addition, where that happens only if one is added
      to a word of ones. */
  lemma ArithMeetsIntent(word: seq<byte>, bigEndian: bool, subtract: bool, item: int)
    requires |word| in {2, 4}
    requires if subtract then -ARITH_MAX <= item < 0 else 0 < item <= ARITH_MAX
    ensures ArithBytes(word, bigEndian, subtract, item) == Summed(word, item, bigEndian) <==>
      !(bigEndian && |word| == 4 && !subtract) || (item == 1 && word == [255, 255, 255, 255])
  {
    ArithBytesMeans(word, bigEndian, subtract, item);
    if bigEndian && |word| == 4 && !subtract {
      OrdersDiffer(word, item);
    }
  }

  /** The most and the least significant bytes of the two sums tell them apart. */
  lemma OrdersDiffer(word: seq<byte>, item: nat)
    requires |word| == 4 && 0 < item <= ARITH_MAX
    ensures Summed(word, item, false) == Summed(word, item, true) <==> item == 1 && word == [255, 255, 255, 255]
  {
    var little, big := Summed(word, item, false), Summed(word, item, true);
    hide Summed;
    LittleSum(word, item);
    BigSum(word, item);
    SumsDiffer(word[0], word[1], word[2], word[3], item, little, big);
    assert word == [word[0], word[1], word[2], word[3]];
  }

  /** The sum byte by byte: each e[i] with its carry k[i]. */
  ghost predicate Carries(a: nat, b: nat, c: nat, d: nat, item: nat, e: seq<nat>, k: seq<nat>)
    requires |e| == |k| == 4
  {
    && k[0] <= 1 && k[1] <= 1 && k[2] <= 1 && k[3] <= 1
    && e[0] < 256 && e[0] + 256 * k[0] == a + item
    && e[1] < 256 && e[1] + 256 * k[1] == b + k[0]
    && e[2] < 256 && e[2] + 256 * k[2] == c + k[1]
    && e[3] < 256 && e[3] + 256 * k[3] == d + k[2]
  }

  ghost predicate IsSum(a: nat, b: nat, c: nat, d: nat, item: nat, e: seq<nat>)
    requires |e| == 4
  {
    exists k: seq<nat> :: |k| == 4 && Carries(a, b, c, d, item, e, k)
  }

  lemma SumsDiffer(a: byte, b: byte, c: byte, d: byte, item: nat, little: seq<byte>, big: seq<byte>)
    requires |little| == |big| == 4 && 0 < item <= ARITH_MAX
    requires IsSum(a, b, c, d, item, little) && IsSum(d, c, b, a, item, [big[3], big[2], big[1], big[0]])
    ensures little == big <==> item == 1 && a == 255 && b == 255 && c == 255 && d == 255
  {
    hide Carries;
    var turned: seq<nat> := [big[3], big[2], big[1], big[0]];
    var k: seq<nat> :| |k| == 4 && Carries(a, b, c, d, item, little, k);
    var m: seq<nat> :| |m| == 4 && Carries(d, c, b, a, item, turned, m);
    CarriesDiffer(a, b, c, d, item, little, turned, k, m);
    assert little == [little[0], little[1], little[2], little[3]] && big == [big[0], big[1], big[2], big[3]];
  }

  lemma CarriesDiffer(a: byte, b: byte, c: byte, d: byte, item: nat, e: seq<nat>, f: seq<nat>, k: seq<nat>, m: seq<nat>)
    requires |e| == |f| == |k| == |m| == 4 && 0 < item <= ARITH_MAX
    requires Carries(a, b, c, d, item, e, k) && Carries(d, c, b, a, item, f, m)
    ensures e[0] == f[3] && e[1] == f[2] && e[2] == f[1] && e[3] == f[0] <==>
            item == 1 && a == 255 && b == 255 && c == 255 && d == 255
  {
    DigitsDiffer(a, b, c, d, item, e[0], e[1], e[2], e[3], k[0], k[1], k[2], k[3],
                 f[0], f[1], f[2], f[3], m[0], m[1], m[2], m[3]);
  }

  lemma DigitsDiffer(a: nat, b: nat, c: nat, d: nat, item: nat,
                     e0: nat, e1: nat, e2: nat, e3: nat, k0: nat, k1: nat, k2: nat, k3: nat,
                     f3: nat, f2: nat, f1: nat, f0: nat, m0: nat, m1: nat, m2: nat, m3: nat)
    requires a < 256 && b < 256 && c < 256 && d < 256 && 0 < item <= ARITH_MAX
    requires e0 < 256 && e1 < 256 && e2 < 256 && e3 < 256 && f0 < 256 && f1 < 256 && f2 < 256 && f3 < 256
    requires k0 <= 1 && k1 <= 1 && k2 <= 1 && k3 <= 1 && m0 <= 1 && m1 <= 1 && m2 <= 1 && m3 <= 1
    requires e0 + 256 * k0 == a + item && e1 + 256 * k1 == b + k0 && e2 + 256 * k2 == c + k1 && e3 + 256 * k3 == d + k2
    requires f3 + 256 * m0 == d + item && f2 + 256 * m1 == c + m0 && f1 + 256 * m2 == b + m1 && f0 + 256 * m3 == a + m2
    ensures e0 == f0 && e1 == f1 && e2 == f2 && e3 == f3 <==> item == 1 && a == 255 && b == 255 && c == 255 && d == 255
  {
  }

  lemma LittleSum(word: seq<byte>, item: nat)
    requires |word| == 4 && 0 < item <= ARITH_MAX
    ensures IsSum(word[0], word[1], word[2], word[3], item, Summed(word, item, false))
  {
    ReadFour(word);
    WriteFour(word[0], word[1], word[2], word[3], item);
  }

  lemma BigSum(word: seq<byte>, item: nat)
    requires |word| == 4 && 0 < item <= ARITH_MAX
    ensures var e := Summed(word, item, true);
            IsSum(word[3], word[2], word[1], word[0], item, [e[3], e[2], e[1], e[0]])
  {
    hide WriteLE, ReadLE, Reversed, IsSum;
    ReverseFour(word);
    ReadFour(Reversed(word));
    WriteFour(word[3], word[2], word[1], word[0], item);
    var sum := WriteLE(WrapTo(ReadLE(Reversed(word)) + item, 4), 4);
    ReverseFour(sum);
    assert sum == [sum[0], sum[1], sum[2], sum[3]];
  }

  lemma ReverseFour(s: seq<byte>)
    requires |s| == 4
    ensures Reversed(s) == [s[3], s[2], s[1], s[0]]
  {
    assert s[1..][1..] == s[2..] && s[2..][1..] == s[3..] && s[3..][1..] == [];
    assert Reversed(s[3..]) == [s[3]];
    assert Reversed(s[2..]) == [s[3], s[2]];
    assert Reversed(s[1..]) == [s[3], s[2], s[1]];
  }

  lemma ReadFour(s: seq<byte>)
    requires |s| == 4
    ensures ReadLE(s) == s[0] as nat + 0x100 * s[1] as nat + 0x1_0000 * s[2] as nat + 0x100_0000 * s[3] as nat
  {
    assert s[1..][1..] == s[2..] && s[2..][1..] == s[3..] && s[3..][1..] == [];
    assert ReadLE(s[3..]) == s[3] as nat;
    assert ReadLE(s[2..]) == s[2] as nat + 0x100 * s[3] as nat;
    assert ReadLE(s[1..]) == s[1] as nat + 0x100 * ReadLE(s[2..]);
  }

  lemma WriteFour(a: byte, b: byte, c: byte, d: byte, item: nat)
    requires 0 < item <= ARITH_MAX
    ensures IsSum(a, b, c, d, item,
                  WriteLE(WrapTo(a as nat + 0x100 * b as nat + 0x1_0000 * c as nat + 0x100_0000 * d as nat + item, 4), 4))
  {
    hide WriteLE, WrapTo, Carries;
    var v := a as nat + 0x100 * b as nat + 0x1_0000 * c as nat + 0x100_0000 * d as nat + item;
    var k0, k1, k2, k3 := Carry(a, item), Carry(b, Carry(a, item)), Carry(c, Carry(b, Carry(a, item))), Carry(d, Carry(c, Carry(b, Carry(a, item))));
    var e: seq<byte> := [a + item - 256 * k0, b + k0 - 256 * k1, c + k1 - 256 * k2, d + k2 - 256 * k3];
    TheseCarry(a, b, c, d, item, e, [k0, k1, k2, k3]);
    WriteDigits(e, v, k3);
  }

  function Carry(digit: nat, more: nat): nat { if digit + more < 256 then 0 else 1 }

  lemma TheseCarry(a: byte, b: byte, c: byte, d: byte, item: nat, e: seq<nat>, k: seq<nat>)
    requires |e| == |k| == 4 && 0 < item <= ARITH_MAX
    requires k == [Carry(a, item), Carry(b, k[0]), Carry(c, k[1]), Carry(d, k[2])]
    requires e == [a + item - 256 * k[0], b + k[0] - 256 * k[1], c + k[1] - 256 * k[2], d + k[2] - 256 * k[3]]
    ensures Carries(a, b, c, d, item, e, k)
  {
  }

  lemma WriteDigits(e: seq<byte>, v: nat, k: nat)
    requires |e| == 4 && k <= 1
    requires v == e[0] as nat + 0x100 * e[1] as nat + 0x1_0000 * e[2] as nat + 0x100_0000 * e[3] as nat + TWO32 * k
    ensures WriteLE(WrapTo(v, 4), 4) == e
  {
    hide WriteLE, ReadLE, WrapTo;
    ReadFour(e);
    ReadThenWrite(e);
    WrapOnce(v, ReadLE(e), k);
  }

  lemma WrapOnce(v: nat, w: nat, k: nat)
    requires v == w + TWO32 * k && w < TWO32 && k <= 1
    ensures WrapTo(v, 4) == w
  {
    Pow256Values();
  }

  /** An input on which the addition is not the one that is meant. */
  lemma Arith32BEFails()
    ensures ArithBytes([0, 0, 0, 0], true, false, 1) == [1, 0, 0, 0]
    ensures Summed([0, 0, 0, 0], 1, true) == [0, 0, 0, 1]
  {
    hide ArithBytes, WriteLE, ReadLE, WrapTo;
    var word: seq<byte> := [0, 0, 0, 0];
    ArithBytesMeans(word, true, false, 1);
    ReverseFour(word);
    ReadFour(word);
    WrapOnce(1, 1, 0);
    ReadFour([1, 0, 0, 0]);
    ReadThenWrite([1, 0, 0, 0]);
    ReverseFour([1, 0, 0, 0]);
  }
}

/** The havoc mutator over its buffers: the input buffer, the staging buffer,
    and operators driven by arbitrary dice. */
module Havoc {
  import opened Words
  import opened Sattolo
  import opened HavocDice
  import opened HavocSpec
  import opened HavocNumber
  import opened HavocStep

  /** Whether the step is over or another operator is to be drawn. */
  datatype Outcome = Done | Retry

  class Mutator {
    const buf: array<byte>
    var tmp: array<byte>
    var len: nat
    const maxLen: nat
    /** The dictionaries and the input to splice from; empty if there is none. */
    const extras: seq<seq<byte>>
    const autoExtras: seq<seq<byte>>
    const splice: seq<byte>

    ghost predicate Valid()
      reads this
    {
      && 1 <= len <= maxLen <= buf.Length
      && maxLen <= tmp.Length
      && buf != tmp
    }

    function Here(): Setting {
      Setting(maxLen, extras, autoExtras, splice)
    }

    ghost function Contents(): seq<byte>
      reads this, buf
      requires Valid()
    {
      buf[..len]
    }

    /** The staging buffer is as large as the input may become. */
    constructor (buf: array<byte>, len: nat, maxLen: nat,
                 extras: seq<seq<byte>>, autoExtras: seq<seq<byte>>, splice: seq<byte>)
      requires 1 <= len <= maxLen <= buf.Length
      ensures Valid() && this.buf == buf && this.len == len && fresh(tmp)
      ensures Here() == Setting(maxLen, extras, autoExtras, splice)
    {
      this.buf, this.len, this.maxLen := buf, len, maxLen;
      tmp := new byte[maxLen];
      this.extras, this.autoExtras, this.splice := extras, autoExtras, splice;
    }

    /** The n bytes at `at`. */
    method Peek(at: nat, n: nat) returns (block: seq<byte>)
      requires Valid() && at + n <= len
      ensures block == Contents()[at..at + n]
    {
      block := buf[at..at + n];
      SliceOfSlice(buf[..], 0, len, at, at + n);
      assert buf[..][0..len] == Contents();
    }

    // ------------------------------------------------- single bytes and words

    /** The operators on one byte. */
    method EditByte(op: nat, d: Dice) returns (ghost off: nat, ghost draw: nat)
      requires Valid()
      requires op in BYTE_OPS
      modifies buf
      ensures Valid() && off == Pick(d, PLACE, len) < len && draw == Pick(d, AMOUNT, EditLimit(op)) < EditLimit(op)
      ensures Contents() == old(Contents())[off := EditValue(op, old(Contents())[off], draw)]
    {
      hide EditValue, EditLimit;
      var pos := Pick(d, PLACE, len);
      var value;
      value, draw := EditedByte(op, d, buf[pos]);
      buf[pos] := value;
      off := pos;
      assert Contents() == old(Contents())[off := value];
    }

    /** Writes a word into the input. */
    method InsertWord(pos: nat, word: seq<byte>)
      requires Valid() && pos + |word| <= len
      modifies buf
      ensures Valid() && Contents() == Overlay(old(Contents()), pos, word)
    {
      OverlayInside(buf[..], len, pos, word);
      assert buf[..len] == buf[..][..len];
      hide Overlay;
      CopyInto(buf, pos, word);
    }

    /** Stores an interesting 16- or 32-bit value, in either byte order. */
    method StoreWord(width: nat, bigEndian: bool, d: Dice) returns (ghost pos: nat, ghost entry: nat)
      requires Valid() && (width == 2 || width == 4)
      modifies buf
      ensures Valid()
      ensures old(len) < width ==> Contents() == old(Contents())
      ensures old(len) >= width ==>
        && pos == Pick(d, PLACE, len - width + 1) && entry == Pick(d, AMOUNT, |InterestingValues(width)|)
        && pos + width <= len && entry < |InterestingValues(width)|
        && Contents() == Overlay(old(Contents()), pos, Bytes(Interesting(entry, width), width, bigEndian))
    {
      hide WriteLE, ReadLE, Reversed, Overlay, Interesting, InterestingValues;
      pos, entry := 0, 0;
      if len < width {
        return;
      }
      var i := Pick(d, AMOUNT, |InterestingValues(width)|);
      var value := Interesting(i, width);
      var at := Pick(d, PLACE, len - width + 1);
      SwapThenWrite(value, width);
      var word := value;
      if bigEndian {
        word := ReadLE(Reversed(WriteLE(value, width)));
      }
      InsertWord(at, WriteLE(word, width));
      pos, entry := at, i;
    }

    /** Adds or subtracts a small number in a 16- or 32-bit word.  The byte
        order that counts is the intended one, except for the big-endian
        32-bit addition, which adds before swapping and so acts on the
        little-endian value. */
    method ArithWord(width: nat, bigEndian: bool, subtract: bool, d: Dice)
      returns (ghost pos: nat, ghost draw: nat)
      requires Valid() && (width == 2 || width == 4)
      modifies buf
      ensures Valid()
      ensures old(len) < width ==> Contents() == old(Contents())
      ensures old(len) >= width ==>
        && pos == Pick(d, PLACE, len - width + 1) && draw == Pick(d, AMOUNT, ARITH_MAX)
        && pos + width <= len && draw < ARITH_MAX
        && (var order, was := Effective(width, bigEndian, subtract), old(Contents())[pos..pos + width];
            Contents() == Overlay(old(Contents()), pos, Summed(was, Amount(draw, subtract), order)))
    {
      hide WriteLE, ReadLE, Reversed, Pow256, WrapTo, Bytes, Value, ArithBytes, Overlay, Summed;
      pos, draw := 0, 0;
      if len < width {
        return;
      }
      var at := Pick(d, PLACE, len - width + 1);
      var r := Pick(d, AMOUNT, ARITH_MAX);
      var item: int := 1 + r;
      if subtract {
        item := -item;
      }
      var word := Peek(at, width);
      ArithBytesMeans(word, bigEndian, subtract, item);
      InsertWord(at, ArithBytes(word, bigEndian, subtract, item));
      pos, draw := at, r;
    }

    // ------------------------------------------------------- staged insertions

    /** Head, inserted part and tail go to the staging buffer, and everything
        comes back at once. */
    method Stage(at: nat, block: seq<byte>, from: nat)
      requires Valid()
      requires at <= from <= len
      requires 1 <= at + |block| + len - from <= maxLen
      modifies this`len, buf, tmp
      ensures Valid() && tmp == old(tmp)
      ensures Contents() == Replace(old(Contents()), at, block, from)
    {
      StageThrough(buf, tmp, len, at, block, from);
      len := at + |block| + len - from;
    }

    /** MUT_CLONE_COPY */
    method CloneCopy(d: Dice) returns (outcome: Outcome, ghost at: nat, ghost from: nat, ghost n: nat)
      requires Valid()
      modifies this`len, buf, tmp
      ensures Valid() && tmp == old(tmp) && (outcome == Retry ==> Contents() == old(Contents()))
      ensures n > 0 <==> old(len) + HAVOC_BLK_XL < maxLen
      ensures outcome == if n > 0 || old(len) < 8 then Done else Retry
      ensures n == 0 ==> Contents() == old(Contents())
      ensures n > 0 ==>
        && IsBlockLen(d, old(len), n) && from == Pick(d, SOURCE, old(len) - n + 1) && at == Pick(d, PLACE, old(len))
        && n <= HAVOC_BLK_XL && at < old(len) && from + n <= old(len)
        && Contents() == Replace(old(Contents()), at, old(Contents())[from..from + n], at)
    {
      hide Pick, IsBlockLen, FilledBy, Replace;
      at, from, n := 0, 0, 0;
      if len + HAVOC_BLK_XL < maxLen {
        var cloneLen := ChooseBlockLen(d, len);
        var cloneFrom := Pick(d, SOURCE, len - cloneLen + 1);
        var cloneTo := Pick(d, PLACE, len);
        var block := Peek(cloneFrom, cloneLen);
        Stage(cloneTo, block, cloneTo);
        at, from, n := cloneTo, cloneFrom, cloneLen;
        outcome := Done;
      } else {
        outcome := if len < 8 then Done else Retry;
      }
    }

    /** The byte repeated in an inserted or overwritten block: any byte, or the
        one before the block. */
    method FillByte(d: Dice, at: nat) returns (item: byte, ghost previous: bool, ghost b: byte)
      requires Valid() && at < len
      ensures item == FillValue(Contents(), at, previous, b) && FilledBy(d, previous, b)
    {
      var strat := Pick(d, STRATEGY, 2);
      if strat != 0 {
        item := Pick(d, AMOUNT, 256);
      } else {
        item := buf[if at > 0 then at - 1 else 0];
      }
      previous, b := strat == 0, Pick(d, AMOUNT, 256);
    }

    /** MUT_CLONE_FIXED */
    method CloneFixed(d: Dice) returns (outcome: Outcome, ghost at: nat, ghost previous: bool, ghost b: byte, ghost n: nat)
      requires Valid()
      modifies this`len, buf, tmp
      ensures Valid() && tmp == old(tmp) && (outcome == Retry ==> Contents() == old(Contents()))
      ensures n > 0 <==> old(len) + HAVOC_BLK_XL < maxLen
      ensures outcome == if n > 0 || old(len) < 8 then Done else Retry
      ensures n == 0 ==> Contents() == old(Contents())
      ensures n > 0 ==>
        && IsBlockLen(d, HAVOC_BLK_XL, n) && at == Pick(d, PLACE, old(len)) && FilledBy(d, previous, b)
        && n <= HAVOC_BLK_XL && at < old(len)
        && Contents() == Replace(old(Contents()), at, Filled(n, FillValue(old(Contents()), at, previous, b)), at)
    {
      hide Pick, IsBlockLen, FilledBy, Replace, FillValue, Filled;
      at, previous, b, n := 0, false, 0, 0;
      if len + HAVOC_BLK_XL < maxLen {
        var cloneLen := ChooseBlockLen(d, HAVOC_BLK_XL);
        var cloneTo := Pick(d, PLACE, len);
        var item;
        item, previous, b := FillByte(d, cloneTo);
        Stage(cloneTo, Filled(cloneLen, item), cloneTo);
        at, n := cloneTo, cloneLen;
        outcome := Done;
      } else {
        outcome := if len < 8 then Done else Retry;
      }
    }

    /** MUT_INSERTONE */
    method InsertOne(d: Dice) returns (outcome: Outcome, ghost at: nat, ghost previous: bool, ghost b: byte)
      requires Valid()
      modifies this`len, buf, tmp
      ensures Valid() && tmp == old(tmp) && (outcome == Retry ==> Contents() == old(Contents()))
      ensures old(len) < 2 ==> outcome == Done && Contents() == old(Contents())
      ensures old(len) >= 2 ==> outcome == if old(len) < maxLen then Done else Retry
      ensures 2 <= old(len) < maxLen ==>
        && at == Pick(d, PLACE, old(len)) && FilledBy(d, previous, b)
        && at < old(len) && Contents() == Replace(old(Contents()), at, [FillValue(old(Contents()), at, previous, b)], at)
    {
      hide Pick, IsBlockLen, FilledBy, Replace, FillValue;
      at, previous, b := 0, false, 0;
      if len < 2 {
        return Done, at, previous, b;
      }
      if len + 1 > maxLen {
        return Retry, at, previous, b;
      }
      var cloneTo := Pick(d, PLACE, len);
      var item;
      item, previous, b := FillByte(d, cloneTo);
      Stage(cloneTo, [item], cloneTo);
      at := cloneTo;
      outcome := Done;
    }

    /** MUT_SPLICE_INSERT */
    method SpliceInsert(d: Dice) returns (outcome: Outcome, ghost at: nat, ghost from: nat, ghost n: nat)
      requires Valid()
      modifies this`len, buf, tmp
      ensures Valid() && tmp == old(tmp)
      ensures outcome == Retry <==> splice == [] || old(len) + HAVOC_BLK_XL > maxLen
      ensures outcome == Retry ==> Contents() == old(Contents())
      ensures outcome == Done ==>
        && IsBlockLen(d, |splice|, n) && from == Pick(d, SOURCE, |splice| - n + 1) && at == Pick(d, PLACE, old(len) + 1)
        && IsBlock(n) && at <= old(len) && from + n <= |splice|
        && Contents() == Replace(old(Contents()), at, splice[from..from + n], at)
    {
      at, from, n := 0, 0, 0;
      if splice == [] || len + HAVOC_BLK_XL > maxLen {
        return Retry, at, from, n;
      }
      var cloneLen := ChooseBlockLen(d, |splice|);
      var cloneFrom := Pick(d, SOURCE, |splice| - cloneLen + 1);
      var cloneTo := Pick(d, PLACE, len + 1);
      Stage(cloneTo, splice[cloneFrom..cloneFrom + cloneLen], cloneTo);
      at, from, n := cloneTo, cloneFrom, cloneLen;
      outcome := Done;
    }

    // ---------------------------------------------------------- in-place moves

    /** MUT_EXTRA_INSERT and MUT_AUTO_EXTRA_INSERT: the tail moves up within the
        buffer and the dictionary entry fills the gap. */
    method ExtraInsert(words: seq<seq<byte>>, d: Dice) returns (outcome: Outcome, ghost at: nat, ghost k: nat)
      requires Valid()
      modifies this`len, buf
      ensures Valid()
      ensures words == [] ==> outcome == Retry
      ensures words != [] ==> k == Pick(d, SOURCE, |words|) < |words| && (outcome == Retry <==> old(len) + |words[k]| > maxLen)
      ensures outcome == Retry ==> Contents() == old(Contents())
      ensures outcome == Done ==>
        words != [] && at == Pick(d, PLACE, old(len) + 1) && at <= old(len) && Contents() == Replace(old(Contents()), at, words[k], at)
    {
      at, k := 0, 0;
      if words == [] {
        return Retry, at, k;
      }
      var use := Pick(d, SOURCE, |words|);
      k := use;
      var extra := words[use];
      if len + |extra| > maxLen {
        return Retry, at, k;
      }
      var insertAt := Pick(d, PLACE, len + 1);
      OpenGap(buf, len, insertAt, extra);
      len := len + |extra|;
      at := insertAt;
      outcome := Done;
    }

    /** MUT_EXTRA_OVERWRITE and MUT_AUTO_EXTRA_OVERWRITE */
    method ExtraOverwrite(words: seq<seq<byte>>, d: Dice) returns (outcome: Outcome, ghost at: nat, ghost k: nat)
      requires Valid()
      modifies buf
      ensures Valid()
      ensures words == [] ==> outcome == Retry
      ensures words != [] ==> k == Pick(d, SOURCE, |words|) < |words| && (outcome == Retry <==> |words[k]| > len)
      ensures outcome == Retry ==> Contents() == old(Contents())
      ensures outcome == Done ==>
        words != [] && at + |words[k]| <= len && at == Pick(d, PLACE, len - |words[k]| + 1) && Contents() == Overlay(old(Contents()), at, words[k])
    {
      at, k := 0, 0;
      if words == [] {
        return Retry, at, k;
      }
      var use := Pick(d, SOURCE, |words|);
      k := use;
      var extra := words[use];
      if |extra| > len {
        return Retry, at, k;
      }
      var insertAt := Pick(d, PLACE, len - |extra| + 1);
      InsertWord(insertAt, extra);
      at := insertAt;
      outcome := Done;
    }

    /** MUT_OVERWRITE_COPY: overlapping source and destination are fine. */
    method OverwriteCopy(d: Dice) returns (ghost to: nat, ghost from: nat, ghost n: nat)
      requires Valid()
      modifies buf
      ensures Valid()
      ensures old(len) < 2 ==> Contents() == old(Contents())
      ensures old(len) >= 2 ==>
        && IsBlock(n) && n < len && to + n <= len && from + n <= len
        && IsBlockLen(d, len - 1, n) && from == Pick(d, SOURCE, len - n + 1) && to == Pick(d, PLACE, len - n + 1)
        && Contents() == Overlay(old(Contents()), to, old(Contents())[from..from + n])
    {
      hide Pick, IsBlockLen, FilledBy, Overlay;
      to, from, n := 0, 0, 0;
      if len < 2 {
        return;
      }
      var copyLen := ChooseBlockLen(d, len - 1);
      var copyFrom := Pick(d, SOURCE, len - copyLen + 1);
      var copyTo := Pick(d, PLACE, len - copyLen + 1);
      ghost var s := Contents();
      if copyFrom != copyTo {
        var block := Peek(copyFrom, copyLen);
        InsertWord(copyTo, block);
      } else {
        OverlaySelf(s, copyTo, copyLen);
      }
      to, from, n := copyTo, copyFrom, copyLen;
    }

    /** MUT_OVERWRITE_FIXED */
    method OverwriteFixed(d: Dice) returns (ghost to: nat, ghost previous: bool, ghost b: byte, ghost n: nat)
      requires Valid()
      modifies buf
      ensures Valid()
      ensures old(len) < 2 ==> Contents() == old(Contents())
      ensures old(len) >= 2 ==>
        && IsBlock(n) && n < len && to + n <= len
        && IsBlockLen(d, len - 1, n) && to == Pick(d, PLACE, len - n + 1) && FilledBy(d, previous, b)
        && Contents() == Overlay(old(Contents()), to, Filled(n, FillValue(old(Contents()), to, previous, b)))
    {
      hide Pick, IsBlockLen, FilledBy, Overlay, FillValue, Filled;
      to, previous, b, n := 0, false, 0, 0;
      if len < 2 {
        return;
      }
      var copyLen := ChooseBlockLen(d, len - 1);
      var copyTo := Pick(d, PLACE, len - copyLen + 1);
      var item;
      item, previous, b := FillByte(d, copyTo);
      InsertWord(copyTo, Filled(copyLen, item));
      to, n := copyTo, copyLen;
    }

    /** MUT_SPLICE_OVERWRITE */
    method SpliceOverwrite(d: Dice) returns (outcome: Outcome, ghost to: nat, ghost from: nat, ghost n: nat)
      requires Valid()
      modifies buf
      ensures Valid()
      ensures outcome == Retry <==> splice == []
      ensures outcome == Retry ==> Contents() == old(Contents())
      ensures outcome == Done ==>
        && IsBlock(n) && (n == 1 || n < |splice|) && to + n <= len && from + n <= |splice| && CutBlockLen(d, |splice| - 1, len, n)
        && from == Pick(d, SOURCE, |splice| - n + 1) && to == Pick(d, PLACE, len - n + 1)
        && Contents() == Overlay(old(Contents()), to, splice[from..from + n])
    {
      hide Pick, IsBlockLen, FilledBy, Overlay;
      to, from, n := 0, 0, 0;
      if splice == [] {
        return Retry, to, from, n;
      }
      var copyLen := ChooseBlockLen(d, |splice| - 1);
      if copyLen > len {
        copyLen := len;
      }
      var copyFrom := Pick(d, SOURCE, |splice| - copyLen + 1);
      var copyTo := Pick(d, PLACE, len - copyLen + 1);
      InsertWord(copyTo, splice[copyFrom..copyFrom + copyLen]);
      to, from, n := copyTo, copyFrom, copyLen;
      outcome := Done;
    }

    /** MUT_DEL and MUT_DELONE: never deletes everything. */
    method Delete(single: bool, d: Dice) returns (ghost from: nat, ghost n: nat)
      requires Valid()
      modifies this`len, buf
      ensures Valid()
      ensures old(len) < 2 ==> Contents() == old(Contents())
      ensures old(len) >= 2 ==>
        && IsBlock(n) && n < old(len) && from + n <= old(len)
        && (if single then n == 1 else IsBlockLen(d, old(len) - 1, n)) && from == Pick(d, PLACE, old(len) - n + 1)
        && Contents() == Without(old(Contents()), from, n)
    {
      from, n := 0, 0;
      if len < 2 {
        return;
      }
      var delLen := 1;
      if !single {
        delLen := ChooseBlockLen(d, len - 1);
      }
      var delFrom := Pick(d, PLACE, len - delLen + 1);
      CloseGap(buf, len, delFrom, delLen);
      len := len - delLen;
      from, n := delFrom, delLen;
    }

    /** MUT_SWITCH: two regions that do not overlap change places, by way of
        the staging buffer. */
    method Switch(d: Dice) returns (ghost a: nat, ghost b: nat, ghost n: nat)
      requires Valid() && Fair(d)
      modifies buf, tmp
      ensures Valid() && tmp == old(tmp)
      ensures old(len) < 4 ==> Contents() == old(Contents())
      ensures old(len) >= 4 ==>
        && IsBlock(n) && a + n <= b && b + n <= len && SwitchedBy(d, len, a, b, n)
        && Contents() == Switched(old(Contents()), a, b, n)
      ensures Bag(Contents()) == Bag(old(Contents()))
    {
      hide Switched, Bag, SwitchedBy, Pick, PickedOther, IsBlockLen;
      a, b, n := 0, 0, 0;
      if len < 4 {
        return;
      }
      var from := Pick(d, PLACE, len);
      var to := RandOther(d, SOURCE, len, from);
      var gap := if from < to then to - from else from - to;
      var toEnd := len - if from < to then to else from;
      var blockLen := ChooseBlockLen(d, if gap <= toEnd then gap else toEnd);
      ghost var s := Contents();
      SwitchRegions(buf, tmp, len, from, to, blockLen);
      a, b, n := if from < to then from else to, if from < to then to else from, blockLen;
      SwitchDrawn(d, len, from, to, n);
      SwitchLaws(s, a, b, n);
    }

    /** MUT_SHUFFLE: a block of the input is rearranged in one cycle, so that, if
        it has at least two bytes, none stays at its place. */
    method Shuffle(d: Dice) returns (ghost off: nat, ghost js: seq<nat>)
      requires Valid() && Fair(d)
      modifies buf
      ensures Valid()
      ensures old(len) < 4 ==> Contents() == old(Contents())
      ensures var n := |js| + 1;
        old(len) >= 4 ==>
          && off + n <= len && IsBlock(n) && n < len && Drawn(n, js)
          && IsBlockLen(d, len - 1, n) && off == Pick(d, PLACE, len - n + 1) && PartnersDrawn(d, n, js)
          && Contents() == BlockPermuted(old(Contents()), off, Arranged(n, js))
          && Permutation(Arranged(n, js)) && (n >= 2 ==> Derangement(Arranged(n, js))) && SingleCycle(Arranged(n, js))
      ensures Bag(Contents()) == Bag(old(Contents()))
    {
      hide BlockPermuted, Arranged, Permutation, Derangement, SingleCycle, Bag, Drawn;
      off, js := 0, [];
      if len < 4 {
        return;
      }
      var blen := ChooseBlockLen(d, len - 1);
      var offset := Pick(d, PLACE, len - blen + 1);
      off := offset;
      js := ShuffleBlock(d, buf, len, offset, blen);
    }

    // ----------------------------------------------------------------- numbers

    /** MUT_ASCIINUM: a number in the input gives way to another one. */
    method AsciiNumber(d: Dice) returns (outcome: Outcome, ghost start: nat, ghost strat: nat, ghost draw: nat)
      requires Valid()
      modifies this`len, buf, tmp
      ensures Valid() && tmp == old(tmp) && (outcome == Retry ==> Contents() == old(Contents()))
      ensures old(len) < 4 ==> outcome == Done && Contents() == old(Contents())
      ensures !HasDigit(old(Contents())) ==>
        outcome == (if old(len) < 8 then Done else Retry) && Contents() == old(Contents())
      ensures old(len) >= 4 && HasDigit(old(Contents())) ==>
        && start < old(len) && strat < 8 && NumberBy(d, old(Contents()), start, strat, draw)
        && (outcome == Done ==> Rewritten(old(Contents()), Contents(), start, strat, draw))
        && (outcome == Retry ==> exists t :: Rewritten(old(Contents()), t, start, strat, draw) && |t| > maxLen)
    {
      hide HasDigit, FoundFrom, NumberAt, Rewritten, Replace, NewValue, Base, DrawLimit, GivesUpDigit;
      start, strat, draw := 0, 0, 0;
      if len < 4 {
        return Done, start, strat, draw;
      }
      ghost var s := Contents();
      var found, at, end, val;
      found, at, end, val, start := ScanNumber(d, buf, len);
      if !found {
        return if len < 8 then Done else Retry, start, strat, draw;
      }
      NumberInRange(s, at, end, val);
      var v, shorter;
      v, shorter, strat, draw := AdjustNumber(d, val);
      ghost var t := Replace(s, at, Shown(v), if shorter then end - 1 else end);
      RewrittenIf(s, t, start, strat, draw, at, end, val);
      assert NumberBy(d, s, start, strat, draw);
      outcome := PutNumber(at, if shorter then end - 1 else end, Shown(v));
    }

    method PutNumber(at: nat, from: nat, text: seq<byte>) returns (outcome: Outcome)
      requires Valid() && at <= from <= len && text != []
      modifies this`len, buf, tmp
      ensures Valid() && tmp == old(tmp)
      ensures outcome == Retry ==> Contents() == old(Contents()) && at + |text| + old(len) - from > maxLen
      ensures outcome == Done ==> Contents() == Replace(old(Contents()), at, text, from)
    {
      if from - at == |text| {
        InsertWord(at, text);
        return Done;
      }
      if at + |text| + len - from > maxLen {
        return Retry;
      }
      Stage(at, text, from);
      return Done;
    }

    /** MUT_INSERTASCIINUM: the last digits of a random number are laid over
        the input. */
    method InsertAsciiNumber(d: Dice) returns (outcome: Outcome, ghost pos: nat, ghost v: u64, ghost n: nat)
      requires Valid()
      modifies buf
      ensures Valid()
      ensures 1 <= n == 1 + Pick(d, SOURCE, 8) <= 8 && pos == Pick(d, PLACE, len) < len
      ensures pos + n <= len ==> v == Pick(d, AMOUNT, TWO64) && outcome == Done && Contents() == Overlay(old(Contents()), pos, LastDigits(v, n))
      ensures pos + n > len ==> outcome == (if len < 8 then Done else Retry) && Contents() == old(Contents())
    {
      hide Overlay, Printed;
      var insLen := 1 + Pick(d, SOURCE, 8);
      var at := Pick(d, PLACE, len);
      pos, v, n := at, 0, insLen;
      if len < at + insLen {
        return if len < 8 then Done else Retry, pos, v, n;
      }
      var val := Pick(d, AMOUNT, TWO64);
      var text := Printed(val);
      v := val;
      var off;
      if insLen > |text| {
        insLen, off := |text|, 0;
      } else {
        off := |text| - insLen;
      }
      var piece := text[off..off + insLen];
      assert piece == LastDigits(val, n);
      InsertWord(at, piece);
      outcome := Done;
    }

    // --------------------------------------------------------------- whole runs

    /** One draw of an operator, and what it drew in turn.  It has its effect, or
        it gives way to another one where it has to. */
    method Step(op: nat, d: Dice) returns (outcome: Outcome, ghost c: Choice)
      requires Valid() && Fair(d) && op < MUT_MAX
      modifies this`len, buf, tmp
      ensures Valid() && tmp == old(tmp)
      ensures ChosenBy(d, op, c, old(Contents()), Here())
      ensures outcome == Retry ==> GivesWay(op, c, old(Contents()), Here()) && Contents() == old(Contents())
      ensures outcome == Done ==> StepEffect(op, c, old(Contents()), Contents(), Here())
    {
      hide *;
      OperatorRange(op);
      outcome := Done;
      if op in {0, 1, 6, 7, 16, 21, 22, 23} {
        c := StepByte(op, d);
      } else if 2 <= op <= 5 {
        c := StepStore(op, d);
      } else if 8 <= op <= 15 {
        c := StepArith(op, d);
      } else if op in {19, 20} {
        c := StepOverwrite(op, d);
      } else if op in {24, 26} {
        c := StepRearrange(op, d);
      } else if op in {25, 27} {
        c := StepDelete(op, d);
      } else if op in {29, 30} {
        outcome, c := StepNumber(op, d);
      } else if op in {17, 18, 28} {
        outcome, c := StepClone(op, d);
      } else if op in {31, 32, 33, 34} {
        outcome, c := StepEntry(op, d);
      } else {
        outcome, c := StepSplice(op, d);
      }
    }

    method StepByte(op: nat, d: Dice) returns (ghost c: Choice)
      requires Valid() && op in {0, 1, 6, 7, 16, 21, 22, 23}
      modifies buf
      ensures ChosenBy(d, op, c, old(Contents()), Here())
      ensures Valid() && StepEffect(op, c, old(Contents()), Contents(), Here())
    {
      hide Pick, IsBlockLen, FilledBy, CutBlockLen, SwitchedBy, PartnersDrawn, NumberBy,
        EditValue, EditLimit;
      ghost var off, draw := EditByte(op, d);
      c := Edit(off, draw);
    }

    method StepStore(op: nat, d: Dice) returns (ghost c: Choice)
      requires Valid() && 2 <= op <= 5
      modifies buf
      ensures ChosenBy(d, op, c, old(Contents()), Here())
      ensures Valid() && StepEffect(op, c, old(Contents()), Contents(), Here())
    {
      hide Pick, IsBlockLen, FilledBy, CutBlockLen, SwitchedBy, PartnersDrawn, NumberBy,
        Overlay, Bytes, Interesting, InterestingValues;
      ghost var short := len < WordWidth(op);
      ghost var pos, entry;
      if op == 2 {
        pos, entry := StoreWord(2, false, d);
      } else if op == 3 {
        pos, entry := StoreWord(2, true, d);
      } else if op == 4 {
        pos, entry := StoreWord(4, false, d);
      } else {
        pos, entry := StoreWord(4, true, d);
      }
      c := if short then Nothing else Store(pos, entry);
    }

    method StepArith(op: nat, d: Dice) returns (ghost c: Choice)
      requires Valid() && 8 <= op <= 15
      modifies buf
      ensures ChosenBy(d, op, c, old(Contents()), Here())
      ensures Valid() && StepEffect(op, c, old(Contents()), Contents(), Here())
    {
      hide Pick, IsBlockLen, FilledBy, CutBlockLen, SwitchedBy, PartnersDrawn, NumberBy,
        Overlay, Summed;
      ghost var short := len < WordWidth(op);
      ghost var pos, draw;
      if op < 12 {
        pos, draw := ArithWord(2, op == 9 || op == 11, op < 10, d);
      } else {
        pos, draw := ArithWord(4, op == 13 || op == 15, op < 14, d);
      }
      c := if short then Nothing else Arith(pos, draw);
    }

    method StepOverwrite(op: nat, d: Dice) returns (ghost c: Choice)
      requires Valid() && op in {19, 20}
      modifies buf
      ensures ChosenBy(d, op, c, old(Contents()), Here())
      ensures Valid() && StepEffect(op, c, old(Contents()), Contents(), Here())
    {
      hide Pick, IsBlockLen, FilledBy, CutBlockLen, SwitchedBy, PartnersDrawn, NumberBy,
        Overlay, Filled, FillValue;
      if op == 19 {
        ghost var to, from, n := OverwriteCopy(d);
        c := if len < 2 then Nothing else Copy(to, from, n);
      } else {
        ghost var to, previous, b, n := OverwriteFixed(d);
        c := if len < 2 then Nothing else Fill(to, previous, b, n);
      }
    }

    method StepRearrange(op: nat, d: Dice) returns (ghost c: Choice)
      requires Valid() && Fair(d) && op in {24, 26}
      modifies buf, tmp
      ensures ChosenBy(d, op, c, old(Contents()), Here())
      ensures Valid() && tmp == old(tmp) && StepEffect(op, c, old(Contents()), Contents(), Here())
    {
      hide Pick, IsBlockLen, FilledBy, CutBlockLen, SwitchedBy, PartnersDrawn, NumberBy,
        Bag, Switched, BlockPermuted, Arranged, Drawn;
      if op == 24 {
        ghost var a, b, n := Switch(d);
        c := if len < 4 then Nothing else Exchange(a, b, n);
      } else {
        ghost var off, js := Shuffle(d);
        c := if len < 4 then Nothing else Permute(off, js);
      }
    }

    method StepDelete(op: nat, d: Dice) returns (ghost c: Choice)
      requires Valid() && op in {25, 27}
      modifies this`len, buf
      ensures ChosenBy(d, op, c, old(Contents()), Here())
      ensures Valid() && StepEffect(op, c, old(Contents()), Contents(), Here())
    {
      hide Pick, IsBlockLen, FilledBy, CutBlockLen, SwitchedBy, PartnersDrawn, NumberBy,
        Without;
      ghost var short := len < 2;
      ghost var from, n := Delete(op == 27, d);
      c := if short then Nothing else Remove(from, n);
    }

    method StepNumber(op: nat, d: Dice) returns (outcome: Outcome, ghost c: Choice)
      requires Valid() && op in {29, 30}
      modifies this`len, buf, tmp
      ensures ChosenBy(d, op, c, old(Contents()), Here())
      ensures Valid() && tmp == old(tmp)
      ensures outcome == Retry ==> GivesWay(op, c, old(Contents()), Here()) && Contents() == old(Contents())
      ensures outcome == Done ==> StepEffect(op, c, old(Contents()), Contents(), Here())
    {
      hide Pick, IsBlockLen, FilledBy, CutBlockLen, SwitchedBy, PartnersDrawn, NumberBy,
        Overlay, Rewritten, LastDigits, HasDigit;
      c := Nothing;
      if op == 29 {
        ghost var s := Contents();
        ghost var start, strat, draw;
        outcome, start, strat, draw := AsciiNumber(d);
        if |s| >= 4 && HasDigit(s) {
          c := Number(start, strat, draw);
        }
      } else {
        ghost var pos, v, n;
        outcome, pos, v, n := InsertAsciiNumber(d);
        c := Digits(pos, v, n);
      }
    }

    method StepClone(op: nat, d: Dice) returns (outcome: Outcome, ghost c: Choice)
      requires Valid() && op in {17, 18, 28}
      modifies this`len, buf, tmp
      ensures ChosenBy(d, op, c, old(Contents()), Here())
      ensures Valid() && tmp == old(tmp)
      ensures outcome == Retry ==> GivesWay(op, c, old(Contents()), Here()) && Contents() == old(Contents())
      ensures outcome == Done ==> StepEffect(op, c, old(Contents()), Contents(), Here())
    {
      hide Pick, IsBlockLen, FilledBy, CutBlockLen, SwitchedBy, PartnersDrawn, NumberBy,
        Replace, Filled, FillValue;
      if op == 17 {
        ghost var at, from, n;
        outcome, at, from, n := CloneCopy(d);
        c := if n > 0 then Clone(at, from, n) else Nothing;
      } else if op == 18 {
        ghost var at, previous, b, n;
        outcome, at, previous, b, n := CloneFixed(d);
        c := if n > 0 then CloneFill(at, previous, b, n) else Nothing;
      } else {
        ghost var short := len < 2;
        ghost var s := Contents();
        ghost var at, previous, b;
        outcome, at, previous, b := InsertOne(d);
        c := if short || outcome == Retry then Nothing else CloneFill(at, previous, b, 1);
        if !short && outcome == Done {
          FilledOne(FillValue(s, at, previous, b));
        }
      }
    }

    method StepEntry(op: nat, d: Dice) returns (outcome: Outcome, ghost c: Choice)
      requires Valid() && op in {31, 32, 33, 34}
      modifies this`len, buf
      ensures ChosenBy(d, op, c, old(Contents()), Here())
      ensures Valid()
      ensures outcome == Retry ==> GivesWay(op, c, old(Contents()), Here()) && Contents() == old(Contents())
      ensures outcome == Done ==> StepEffect(op, c, old(Contents()), Contents(), Here())
    {
      hide Pick, IsBlockLen, FilledBy, CutBlockLen, SwitchedBy, PartnersDrawn, NumberBy,
        Replace, Overlay;
      ghost var at, k;
      var words := if op <= 32 then extras else autoExtras;
      if op in {31, 33} {
        outcome, at, k := ExtraOverwrite(words, d);
      } else {
        outcome, at, k := ExtraInsert(words, d);
      }
      c := if words == [] then Nothing else Entry(at, k);
    }

    method StepSplice(op: nat, d: Dice) returns (outcome: Outcome, ghost c: Choice)
      requires Valid() && op in {35, 36}
      modifies this`len, buf, tmp
      ensures ChosenBy(d, op, c, old(Contents()), Here())
      ensures Valid() && tmp == old(tmp)
      ensures outcome == Retry ==> GivesWay(op, c, old(Contents()), Here()) && Contents() == old(Contents())
      ensures outcome == Done ==> StepEffect(op, c, old(Contents()), Contents(), Here())
    {
      hide Pick, IsBlockLen, FilledBy, CutBlockLen, SwitchedBy, PartnersDrawn, NumberBy,
        Replace, Overlay;
      ghost var at, from, n;
      if op == 35 {
        outcome, at, from, n := SpliceOverwrite(d);
      } else {
        outcome, at, from, n := SpliceInsert(d);
      }
      c := if outcome == Retry then Nothing else Splice(at, from, n);
    }

    /** All steps, each with as many retries as it takes; `draws` bounds the
        draws of all of them together, so that every finite part of a run is
        covered.  Short of that bound all steps are done, and no more. */
    method Mutate(steps: nat, draws: nat, dice: nat -> Dice) returns (ghost log: seq<Draw>, ghost states: seq<seq<byte>>)
      requires Valid() && forall k :: Fair(dice(k))
      modifies this`len, buf, tmp
      ensures Valid() && tmp == old(tmp)
      ensures IsRun(dice, log, states, Here()) && |states| == |log| + 1 && states[0] == old(Contents()) && states[|log|] == Contents()
      ensures RunsFor(log, steps, draws)
    {
      hide StepEffect, GivesWay, ChosenBy, IsRun, StepsDone, Pick, Fair;
      RunStarts(dice, Contents(), Here());
      log, states := [], [Contents()];
      var step, left := 0, draws;
      while step < steps && left > 0
        invariant Valid() && tmp == old(tmp)
        invariant IsRun(dice, log, states, Here()) && |states| == |log| + 1 && states[0] == old(Contents()) && states[|log|] == Contents()
        invariant StepsDone(log) == step <= steps && |log| + left == draws
        invariant log != [] ==> StepsDone(log[..|log| - 1]) < steps
        decreases left
      {
        var d := dice(draws - left);
        left := left - 1;
        var op := Pick(d, OPERATOR, MUT_MAX);
        ghost var c;
        var outcome;
        ghost var before := Contents();
        outcome, c := Step(op, d);
        ghost var draw := Draw(op, c, outcome == Done);
        OneMoreDrawn(log, draw);
        RunGoesOn(dice, log, states, Here(), before, draw, Contents());
        log, states := log + [draw], states + [Contents()];
        if outcome == Done {
          step := step + 1;
        }
      }
    }
  }

  lemma OperatorRange(op: nat)
    ensures op < MUT_MAX <==> op < 37
  {
  }

  /** An operator drawn, what it drew in turn, and whether it had its effect or
      gave way. */
  datatype Draw = Draw(op: nat, choice: Choice, done: bool)

  function StepsDone(log: seq<Draw>): nat {
    if log == [] then 0 else StepsDone(log[..|log| - 1]) + if log[|log| - 1].done then 1 else 0
  }

  lemma OneMoreDrawn(log: seq<Draw>, draw: Draw)
    ensures StepsDone(log + [draw]) == StepsDone(log) + if draw.done then 1 else 0
    ensures (log + [draw])[..|log|] == log
  {
  }

  /** All steps are done or all draws are used up, and nothing is drawn after the
      last step. */
  ghost predicate RunsFor(log: seq<Draw>, steps: nat, draws: nat) {
    && StepsDone(log) <= steps && |log| <= draws
    && (StepsDone(log) == steps || |log| == draws)
    && (log != [] ==> StepsDone(log[..|log| - 1]) < steps)
  }

  /** Each state follows from the one before by the operator drawn and what it
      drew, or is the same where that had to give way; none is empty or too long. */
  ghost predicate IsRun(dice: nat -> Dice, log: seq<Draw>, states: seq<seq<byte>>, g: Setting) {
    && |states| == |log| + 1
    && (forall k :: 0 <= k < |states| ==> 1 <= |states[k]| <= g.maxLen)
    && (forall k :: 0 <= k < |log| ==> Follows(dice(k), log[k], states[k], states[k + 1], g))
  }

  lemma RunStarts(dice: nat -> Dice, s: seq<byte>, g: Setting)
    requires 1 <= |s| <= g.maxLen
    ensures IsRun(dice, [], [s], g) && StepsDone([]) == 0
  {
  }

  lemma RunGoesOn(dice: nat -> Dice, log: seq<Draw>, states: seq<seq<byte>>, g: Setting, s: seq<byte>, draw: Draw, t: seq<byte>)
    requires IsRun(dice, log, states, g) && |states| == |log| + 1 && states[|log|] == s
    requires Follows(dice(|log|), draw, s, t, g) && 1 <= |t| <= g.maxLen
    ensures IsRun(dice, log + [draw], states + [t], g)
  {
    hide Follows;
  }

  ghost predicate Follows(d: Dice, draw: Draw, s: seq<byte>, t: seq<byte>, g: Setting) {
    && draw.op == Pick(d, OPERATOR, MUT_MAX) && ChosenBy(d, draw.op, draw.choice, s, g)
    && if draw.done then StepEffect(draw.op, draw.choice, s, t, g) else GivesWay(draw.op, draw.choice, s, g) && t == s
  }

  /** afl_mutate: the new length, or zero if there is nothing to mutate or no
      memory for the staging buffer. */
  method AflMutate(buf: array<byte>, len: nat, steps: nat, draws: nat, dice: nat -> Dice, splice: seq<byte>, maxLen: nat,
                   extras: seq<seq<byte>>, autoExtras: seq<seq<byte>>, memory: bool)
    returns (n: nat, ghost log: seq<Draw>, ghost states: seq<seq<byte>>)
    requires len <= maxLen <= buf.Length && forall k :: Fair(dice(k))
    modifies buf
    ensures len == 0 || !memory ==> n == 0 && buf[..] == old(buf[..])
    ensures len > 0 && memory ==>
      && 1 <= n <= maxLen && RunsFor(log, steps, draws)
      && IsRun(dice, log, states, Setting(maxLen, extras, autoExtras, splice)) && |states| == |log| + 1
      && states[0] == old(buf[..len]) && states[|log|] == buf[..n]
  {
    n, log, states := 0, [], [];
    if len == 0 || !memory {
      return;
    }
    var m := new Mutator(buf, len, maxLen, extras, autoExtras, splice);
    log, states := m.Mutate(steps, draws, dice);
    n := m.len;
  }

  // ------------------------------------------------------- moves in the buffers

  /** memcpy between different buffers, or memmove within one. */
  method Move(to: array<byte>, at: nat, from: array<byte>, start: nat, n: nat)
    requires at + n <= to.Length && start + n <= from.Length
    modifies to
    ensures to[..] == Overlay(old(to[..]), at, old(from[..][start..start + n]))
  {
    CopyInto(to, at, from[start..start + n]);
  }

  /** Head, inserted part and tail to the staging buffer, and all of it back. */
  method StageThrough(buf: array<byte>, tmp: array<byte>, len: nat, at: nat, block: seq<byte>, from: nat)
    requires buf != tmp && at <= from <= len <= buf.Length
    requires at + |block| + len - from <= tmp.Length && at + |block| + len - from <= buf.Length
    modifies buf, tmp
    ensures buf[..at + |block| + len - from] == Replace(old(buf[..len]), at, block, from)
  {
    hide Replace;
    FillStage(buf, tmp, len, at, block, from);
    CopyBack(buf, tmp, at + |block| + len - from);
  }

  method FillStage(buf: array<byte>, tmp: array<byte>, len: nat, at: nat, block: seq<byte>, from: nat)
    requires buf != tmp && at <= from <= len <= buf.Length
    requires at + |block| + len - from <= tmp.Length
    modifies tmp
    ensures tmp[..][..at + |block| + len - from] == Replace(buf[..len], at, block, from)
  {
    hide *;
    StagedParts(buf[..len], at, block, from, tmp[..]);
    HeadAndTail(buf[..], len, at, from);
    Move(tmp, 0, buf, 0, at);
    CopyInto(tmp, at, block);
    Move(tmp, at + |block|, buf, from, len - from);
  }

  lemma HeadAndTail(was: seq<byte>, len: nat, at: nat, from: nat)
    requires at <= len <= |was| && from <= len
    ensures was[0..at] == was[..len][..at] && was[from..len] == was[..len][from..]
  {
  }

  method CopyBack(buf: array<byte>, tmp: array<byte>, n: nat)
    requires buf != tmp && n <= buf.Length && n <= tmp.Length
    modifies buf
    ensures buf[..n] == tmp[..][..n]
  {
    CopyInto(buf, 0, tmp[..n]);
  }

  /** Moves the tail up within the buffer and fills the gap. */
  method OpenGap(buf: array<byte>, len: nat, at: nat, extra: seq<byte>)
    requires at <= len && len + |extra| <= buf.Length
    modifies buf
    ensures buf[..len + |extra|] == Replace(old(buf[..len]), at, extra, at)
  {
    hide Replace, Overlay;
    ghost var was := buf[..];
    GapFilled(was, len, at, extra);
    assert buf[..len] == was[..len];
    Move(buf, at + |extra|, buf, at, len - at);
    CopyInto(buf, at, extra);
    assert buf[..len + |extra|] == buf[..][..len + |extra|];
  }

  /** Moves the tail down over the deleted bytes. */
  method CloseGap(buf: array<byte>, len: nat, from: nat, n: nat)
    requires from + n <= len <= buf.Length
    modifies buf
    ensures buf[..len - n] == Without(old(buf[..len]), from, n)
  {
    hide Replace, Overlay;
    ghost var was := buf[..];
    GapClosed(was, len, from, n);
    assert buf[..len] == was[..len];
    Move(buf, from, buf, from + n, len - from - n);
    assert buf[..len - n] == buf[..][..len - n];
  }

  /** Backup, first move, second move. */
  method SwitchRegions(buf: array<byte>, tmp: array<byte>, len: nat, from: nat, to: nat, n: nat)
    requires buf != tmp && from + n <= len <= buf.Length && to + n <= len && n <= tmp.Length
    modifies buf, tmp
    ensures buf[..len] == Switched(old(buf[..len]), from, to, n)
  {
    hide Overlay, Switched;
    ghost var was := buf[..];
    SwitchInBuffer(was, len, from, to, n);
    assert buf[..len] == was[..len];
    Move(tmp, 0, buf, from, n);
    OverlayReads(old(tmp[..]), 0, was[from..from + n]);
    Move(buf, from, buf, to, n);
    Move(buf, to, tmp, 0, n);
    assert buf[..len] == buf[..][..len];
  }

  /** Sattolo's loop, from the last byte of the block down. */
  method ShuffleBlock(d: Dice, buf: array<byte>, len: nat, off: nat, blen: nat) returns (ghost js: seq<nat>)
    requires Fair(d) && 0 < blen && off + blen <= len <= buf.Length
    modifies buf
    ensures |js| == blen - 1 && PartnersDrawn(d, blen, js) && Drawn(blen, js) && buf[..len] == BlockPermuted(old(buf[..len]), off, Arranged(blen, js))
    ensures var p := Arranged(blen, js); Permutation(p) && (blen >= 2 ==> Derangement(p)) && SingleCycle(p)
    ensures Bag(buf[..len]) == Bag(old(buf[..len]))
  {
    hide *;
    ghost var s := buf[..len];
    js := [];
    NothingDrawn(blen);
    NoPartner(d, blen);
    NothingArranged(s, off, blen);
    var i := blen - 1;
    while i > 0
      invariant 0 <= i < blen && |js| == blen - 1 - i && PartnersDrawn(d, blen, js) && Drawn(blen, js)
      invariant buf[..len] == BlockPermuted(s, off, Arranged(blen, js))
    {
      var j := RandOther(d, PARTNER + (blen - 1 - i), i + 1, i);
      OneMorePartner(d, blen, js, j);
      OneMoreDraw(s, off, blen, js, j);
      SwapBytes(buf, len, off + i, off + j);
      js := js + [j];
      i := i - 1;
    }
    ArrangedIsCycle(blen, js);
    ArrangedBag(s, off, blen, js);
  }

  method SwapBytes(buf: array<byte>, len: nat, i: nat, j: nat)
    requires i < len <= buf.Length && j < len
    modifies buf
    ensures buf[..len] == Swap(old(buf[..len]), i, j)
  {
    var temp := buf[i];
    buf[i] := buf[j];
    buf[j] := temp;
  }

  /** The new value of a byte, and what has been drawn for it. */
  method EditedByte(op: nat, d: Dice, b: byte) returns (v: byte, ghost draw: nat)
    requires op in BYTE_OPS
    ensures draw == Pick(d, AMOUNT, EditLimit(op)) && v == EditValue(op, b, draw)
  {
    hide XorByte, BitFlipped, InterestingByte, Up, Down;
    draw := 0;
    if op == 0 {
      var bit := Pick(d, AMOUNT, 8);
      v, draw := BitFlipped(b, bit), bit;
    } else if op == 1 {
      var entry := Pick(d, AMOUNT, |INTERESTING_8|);
      v, draw := InterestingByte(entry), entry;
    } else if op == 6 {
      var r := Pick(d, AMOUNT, ARITH_MAX);
      v, draw := Down(b, 1 + r), r;
    } else if op == 7 {
      var r := Pick(d, AMOUNT, ARITH_MAX);
      v, draw := Up(b, 1 + r), r;
    } else if op == 16 {
      var r := Pick(d, AMOUNT, 255);
      v, draw := XorByte(b, 1 + r), r;
    } else if op == 21 {
      v := Up(b, 1);
    } else if op == 22 {
      v := Down(b, 1);
    } else {
      Complement(b);
      v := XorByte(b, 255);
    }
  }
}

/** The decimal numbers that the havoc mutator finds in an input, changes, and
    prints back. */
module HavocNumber {
  import opened Words
  import opened HavocDice

  const INT64_MAX := 0x7FFF_FFFF_FFFF_FFFF
  const INT64_MIN := -0x8000_0000_0000_0000
  /** The size handed to snprintf is that of a pointer. */
  const PRINT_SIZE := 8

  // ------------------------------------------------------------------ reading

  predicate IsDigit(b: byte) { 48 <= b <= 57 }

  predicate HasDigit(s: seq<byte>) { exists k :: 0 <= k < |s| && IsDigit(s[k]) }

  predicate Digits(s: seq<byte>) { forall k :: 0 <= k < |s| ==> IsDigit(s[k]) }

  function Decimal(s: seq<byte>): nat
    requires Digits(s)
  {
    if s == [] then 0 else Decimal(s[..|s| - 1]) * 10 + (s[|s| - 1] - 48)
  }

  /** s[at] is the first digit from `start` on, or the first one of all if there
      is none from there. */
  ghost predicate FoundFrom(s: seq<byte>, start: nat, at: nat) {
    && at < |s| && IsDigit(s[at])
    && if start <= at then forall k :: start <= k < at ==> !IsDigit(s[k])
       else forall k :: 0 <= k < at || start <= k < |s| ==> !IsDigit(s[k])
  }

  /** The first digit from `start` on, or else the first one before it. */
  method FindDigit(buf: array<byte>, len: nat, start: nat) returns (found: bool, at: nat)
    requires start < len <= buf.Length
    ensures found <==> HasDigit(buf[..len])
    ensures found ==> FoundFrom(buf[..len], start, at)
  {
    var off2, cnt := start, 0;
    while off2 + cnt < len && !IsDigit(buf[off2 + cnt])
      invariant start + cnt <= len
      invariant forall k :: start <= k < start + cnt ==> !IsDigit(buf[k])
    {
      cnt := cnt + 1;
    }
    if off2 + cnt == len {
      off2, cnt := 0, 0;
      while cnt < start && !IsDigit(buf[off2 + cnt])
        invariant cnt <= start
        invariant forall k :: 0 <= k < cnt ==> !IsDigit(buf[k])
      {
        cnt := cnt + 1;
      }
      if cnt == start {
        return false, 0;
      }
    }
    assert IsDigit(buf[..len][off2 + cnt]);
    return true, off2 + cnt;
  }

  /** The longest run of digits whose value is a signed 64-bit number. */
  method ParseNumber(buf: array<byte>, len: nat, off: nat) returns (val: nat, end: nat)
    requires off < len <= buf.Length && IsDigit(buf[off])
    ensures off < end <= len && Digits(buf[off..end])
    ensures val == Decimal(buf[off..end]) <= INT64_MAX
    ensures end == len || !IsDigit(buf[end]) || (Digits(buf[off..end + 1]) && Decimal(buf[off..end + 1]) > INT64_MAX)
  {
    hide Decimal, Digits;
    var off2 := off + 1;
    while off2 < len && IsDigit(buf[off2])
      invariant off < off2 <= len
      invariant forall k :: off <= k < off2 ==> IsDigit(buf[k])
    {
      off2 := off2 + 1;
    }
    NoDigits(buf, off);
    OneMoreDigit(buf, off, off);
    val := buf[off] - 48;
    var i := off + 1;
    while i < off2
      invariant off < i <= off2
      invariant Digits(buf[off..i]) && val == Decimal(buf[off..i]) <= INT64_MAX
    {
      var digit := buf[i] - 48;
      OneMoreDigit(buf, off, i);
      if val > INT64_MAX / 10 || val * 10 > INT64_MAX - digit {
        off2 := i;
        break;
      }
      val := val * 10 + digit;
      i := i + 1;
    }
    end := off2;
  }

  lemma NoDigits(buf: array<byte>, off: nat)
    requires off <= buf.Length
    ensures Digits(buf[off..off]) && Decimal(buf[off..off]) == 0
  {
  }

  lemma OneMoreDigit(buf: array<byte>, off: nat, i: nat)
    requires off <= i < buf.Length && Digits(buf[off..i]) && IsDigit(buf[i])
    ensures Digits(buf[off..i + 1]) && Decimal(buf[off..i + 1]) == Decimal(buf[off..i]) * 10 + (buf[i] - 48)
  {
    assert buf[off..i + 1][..i - off] == buf[off..i];
  }

  /** s[at..end] is a number with its sign: as many digits as a signed 64-bit
      number can hold. */
  ghost predicate NumberAt(s: seq<byte>, at: nat, end: nat, val: int) {
    && at < end <= |s| && Digits(s[at..end]) && Decimal(s[at..end]) <= INT64_MAX
    && val == (if at > 0 && s[at - 1] == 45 then 0 - Decimal(s[at..end]) else Decimal(s[at..end]))
    && (end == |s| || !IsDigit(s[end]) || (Digits(s[at..end + 1]) && Decimal(s[at..end + 1]) > INT64_MAX))
  }

  lemma NumberInRange(s: seq<byte>, at: nat, end: nat, val: int)
    requires NumberAt(s, at, end, val)
    ensures InInt64(val) && at < end <= |s|
  {
  }

  /** The place to start from determines the number. */
  lemma FoundOnce(s: seq<byte>, start: nat, at: nat, at': nat)
    requires FoundFrom(s, start, at) && FoundFrom(s, start, at')
    ensures at == at'
  {
    hide IsDigit;
  }

  lemma NumberOnce(s: seq<byte>, at: nat, end: nat, val: int, end': nat, val': int)
    requires NumberAt(s, at, end, val) && NumberAt(s, at, end', val')
    ensures end == end' && val == val'
  {
    hide NumberAt, Digits, Decimal;
    if end < end' {
      NotLonger(s, at, end, val, end', val');
    } else if end' < end {
      NotLonger(s, at, end', val', end, val);
    }
    SameValue(s, at, end, val, val');
  }

  lemma SameValue(s: seq<byte>, at: nat, end: nat, val: int, val': int)
    requires NumberAt(s, at, end, val)
    ensures NumberAt(s, at, end, val') ==> val == val'
  {
    hide Digits, Decimal;
  }

  lemma NotLonger(s: seq<byte>, at: nat, end: nat, val: int, end': nat, val': int)
    requires NumberAt(s, at, end, val) && NumberAt(s, at, end', val')
    ensures end' <= end
  {
    hide Decimal;
    if end < end' {
      assert s[at..end'][end - at] == s[end];
      assert s[at..end'][..end + 1 - at] == s[at..end + 1];
      DecimalGrows(s[at..end'], end + 1 - at);
    }
  }

  /** More digits do not make a number smaller. */
  lemma {:induction false} DecimalGrows(s: seq<byte>, n: nat)
    requires Digits(s) && n <= |s|
    ensures Digits(s[..n]) && Decimal(s[..n]) <= Decimal(s)
  {
    if n < |s| {
      DecimalGrows(s[..|s| - 1], n);
      assert s[..|s| - 1][..n] == s[..n];
    } else {
      assert s[..n] == s;
    }
  }

  /** Looks for a number from a random place on. */
  method ScanNumber(d: Dice, buf: array<byte>, len: nat) returns (found: bool, at: nat, end: nat, val: int, ghost start: nat)
    requires 0 < len <= buf.Length
    ensures found <==> HasDigit(buf[..len])
    ensures start == Pick(d, PLACE, len) < len
    ensures found ==> FoundFrom(buf[..len], start, at) && NumberAt(buf[..len], at, end, val)
  {
    hide *;
    var from := Pick(d, PLACE, len);
    found, at := FindDigit(buf, len, from);
    start, end, val := from, 0, 0;
    if found {
      DigitThere(buf, len, from, at);
      val, end := ParseNumber(buf, len, at);
      NumberThere(buf, len, at, end, val);
      if at > 0 && buf[at - 1] == 45 {
        val := -val;
      }
    }
  }

  lemma DigitThere(buf: array<byte>, len: nat, start: nat, at: nat)
    requires len <= buf.Length && FoundFrom(buf[..len], start, at)
    ensures at < len && IsDigit(buf[at])
  {
  }

  lemma NumberThere(buf: array<byte>, len: nat, at: nat, end: nat, val: nat)
    requires at < end <= len <= buf.Length && Digits(buf[at..end]) && val == Decimal(buf[at..end]) <= INT64_MAX
    requires end == len || !IsDigit(buf[end]) || (Digits(buf[at..end + 1]) && Decimal(buf[at..end + 1]) > INT64_MAX)
    ensures NumberAt(buf[..len], at, end, if at > 0 && buf[at - 1] == 45 then 0 - val else val)
  {
    hide Decimal, Digits;
    SameSlice(buf, len, at, end);
    if end < len {
      SameSlice(buf, len, at, end + 1);
    }
  }

  lemma SameSlice(buf: array<byte>, len: nat, i: nat, j: nat)
    requires i <= j <= len <= buf.Length
    ensures buf[i..j] == buf[..len][i..j]
  {
    SliceOfSlice(buf[..], 0, len, i, j);
    assert buf[..][0..len] == buf[..len];
  }

  // ----------------------------------------------------------------- changing

  predicate InInt64(v: int) { INT64_MIN <= v <= INT64_MAX }

  /** Division as C does it, towards zero. */
  function TruncDiv(v: int, d: int): int
    requires d > 0
  {
    if v >= 0 then v / d else -((-v) / d)
  }

  /** Whether a strategy gives up the last digit of a number first. */
  predicate GivesUpDigit(strat: nat, val: int) {
    match strat
    case 0 => val == INT64_MAX
    case 1 => val == INT64_MIN
    case 2 => val > TruncDiv(INT64_MAX, 2) || val < TruncDiv(INT64_MIN, 2)
    case 5 => val > INT64_MAX - 256
    case 6 => val < INT64_MIN + 256
    case _ => false
  }

  function Base(strat: nat, val: int): int {
    if GivesUpDigit(strat, val) then TruncDiv(val, 10) else val
  }

  /** How many values a strategy draws from. */
  function DrawLimit(strat: nat, base: int): (n: nat)
    ensures n > 0
  {
    match strat
    case 4 => if 0 < base < 0x19999999 then 10 * base else 256
    case 5 => 256
    case 6 => 256
    case _ => 1
  }

  /** What a strategy makes of a number with what it has drawn. */
  function NewValue(strat: nat, base: int, draw: nat): int {
    match strat
    case 0 => base + 1
    case 1 => base - 1
    case 2 => 2 * base
    case 3 => TruncDiv(base, 2)
    case 4 => draw
    case 5 => base + draw
    case 6 => base - draw
    case _ => -base - 1
  }

  /** No strategy leaves the 64-bit range, and a digit is given up wherever some
      draw would have left it otherwise.  Where it is given up, at most one more
      than the largest draw would have left it. */
  lemma StaysInRange(strat: nat, val: int, draw: nat)
    requires InInt64(val) && draw < DrawLimit(strat, Base(strat, val))
    ensures InInt64(NewValue(strat, Base(strat, val), draw))
    ensures !InInt64(NewValue(strat, val, draw)) && strat < 8 ==> GivesUpDigit(strat, val)
    ensures GivesUpDigit(strat, val) ==> !InInt64(NewValue(strat, val, DrawLimit(strat, val)))
  {
  }

  /** The new value for a number found in the input, and whether its last digit
      is given up first. */
  method AdjustNumber(d: Dice, val: int) returns (v: int, shorter: bool, ghost strat: nat, ghost draw: nat)
    requires InInt64(val)
    ensures InInt64(v) && strat == Pick(d, STRATEGY, 8) < 8
    ensures shorter == GivesUpDigit(strat, val)
    ensures draw == Pick(d, AMOUNT, DrawLimit(strat, Base(strat, val))) && v == NewValue(strat, Base(strat, val), draw)
  {
    var strategy := Pick(d, STRATEGY, 8);
    strat := strategy;
    var drawn := 0;
    v, shorter := val, false;
    match strategy {
      case 0 =>
        if v == INT64_MAX {
          v, shorter := TruncDiv(v, 10), true;
        }
        v := v + 1;
      case 1 =>
        if v == INT64_MIN {
          v, shorter := TruncDiv(v, 10), true;
        }
        v := v - 1;
      case 2 =>
        if v > TruncDiv(INT64_MAX, 2) || v < TruncDiv(INT64_MIN, 2) {
          v, shorter := TruncDiv(v, 10), true;
        }
        v := v * 2;
      case 3 =>
        v := TruncDiv(v, 2);
      case 4 =>
        if 0 < v < 0x19999999 {
          drawn := Pick(d, AMOUNT, v * 10);
        } else {
          drawn := Pick(d, AMOUNT, 256);
        }
        v := drawn;
      case 5 =>
        if v > INT64_MAX - 256 {
          v, shorter := TruncDiv(v, 10), true;
        }
        drawn := Pick(d, AMOUNT, 256);
        v := v + drawn;
      case 6 =>
        if v < INT64_MIN + 256 {
          v, shorter := TruncDiv(v, 10), true;
        }
        drawn := Pick(d, AMOUNT, 256);
        v := v - drawn;
      case _ =>
        v := -v - 1;
    }
    draw := drawn;
    StaysInRange(strat, val, draw);
  }

  // ----------------------------------------------------------------- printing

  function Printed(v: nat): (s: seq<byte>)
    ensures |s| > 0 && Digits(s)
  {
    if v < 10 then [48 + v] else Printed(v / 10) + [48 + v % 10]
  }

  lemma {:induction false} PrintThenParse(v: nat)
    ensures Decimal(Printed(v)) == v
  {
    var s := Printed(v);
    if v < 10 {
      assert s[..0] == [];
    } else {
      PrintThenParse(v / 10);
      assert s[..|s| - 1] == Printed(v / 10);
    }
  }

  /** The other way round, for numbers without a leading zero. */
  lemma {:induction false} ParseThenPrint(s: seq<byte>)
    requires s != [] && Digits(s) && (s[0] != 48 || |s| == 1)
    ensures Printed(Decimal(s)) == s
    ensures s[0] != 48 ==> Decimal(s) > 0
  {
    var n := |s| - 1;
    assert s == s[..n] + [s[n]];
    if n == 0 {
      assert s[..0] == [];
    } else {
      ParseThenPrint(s[..n]);
      var v: nat := Decimal(s[..n]);
      var d: nat := s[n] - 48;
      assert Decimal(s) == v * 10 + d && v > 0;
      assert (v * 10 + d) / 10 == v && (v * 10 + d) % 10 == d;
    }
  }

  /** With a leading zero it is shorter: printing never gives one. */
  lemma {:induction false} NoLeadingZero(v: nat)
    ensures Printed(v)[0] != 48 || v == 0
    ensures v == 0 ==> Printed(v) == [48]
  {
    if v >= 10 {
      NoLeadingZero(v / 10);
    }
  }

  /** Parsing and printing restores a text exactly if it has no leading zero. */
  lemma ParsePrintExactly(s: seq<byte>)
    requires s != [] && Digits(s)
    ensures Printed(Decimal(s)) == s <==> s[0] != 48 || |s| == 1
  {
    if s[0] != 48 || |s| == 1 {
      ParseThenPrint(s);
    } else {
      NoLeadingZero(Decimal(s));
    }
  }

  function PrintedInt(v: int): (s: seq<byte>)
    ensures |s| > 0
  {
    if v < 0 then [45] + Printed(-v) else Printed(v)
  }

  /** A printed number reads back with its sign: from its first digit on it is
      the number at that place. */
  lemma PrintedIsRead(v: int)
    requires -INT64_MAX <= v <= INT64_MAX
    ensures var s := PrintedInt(v); NumberAt(s, if v < 0 then 1 else 0, |s|, v)
  {
    hide Printed, Decimal, Digits;
    var s, n := PrintedInt(v), if v < 0 then -v else v;
    PrintThenParse(n);
    if v < 0 {
      assert s[1..|s|] == Printed(n) && s[0] == 45;
    } else {
      assert s[0..|s|] == Printed(n);
    }
  }

  /** What snprintf leaves in the number buffer. */
  function Shown(v: int): (s: seq<byte>)
    ensures 1 <= |s| < PRINT_SIZE
  {
    var s := PrintedInt(v);
    if |s| < PRINT_SIZE then s else s[..PRINT_SIZE - 1]
  }

  function Pow10(k: nat): (p: nat)
    ensures p > 0
  {
    if k == 0 then 1 else 10 * Pow10(k - 1)
  }

  lemma {:induction false} PrintedLength(v: nat, k: nat)
    requires k > 0
    ensures |Printed(v)| <= k <==> v < Pow10(k)
    decreases k
  {
    if k == 1 {
      assert Pow10(1) == 10;
    } else if v >= 10 {
      PrintedLength(v / 10, k - 1);
    } else {
      assert Pow10(k) == 10 * Pow10(k - 1);
    }
  }

  /** The number written back is the number computed exactly when it has at
      most seven characters. */
  lemma ShownIsWhole(v: int)
    ensures Shown(v) == PrintedInt(v) <==> -999_999 <= v <= 9_999_999
  {
    assert Pow10(3) == 1000;
    assert Pow10(6) == 1_000_000 && Pow10(7) == 10_000_000;
    if v < 0 {
      PrintedLength(-v, 6);
    } else {
      PrintedLength(v, 7);
    }
  }
}

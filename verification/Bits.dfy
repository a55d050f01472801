/** Bitwise operations on machine words, and what they do to their bytes. */
module Bits {
  import opened Words

  function And(a: nat, b: nat): (r: nat)
    ensures r <= a && r <= b
  {
    if a == 0 || b == 0 then 0 else (if a % 2 == 1 && b % 2 == 1 then 1 else 0) + 2 * And(a / 2, b / 2)
  }

  /** The bits of a that b does not have. */
  function Minus(a: nat, b: nat): (r: nat)
    ensures r <= a
  {
    if a == 0 then 0 else (if a % 2 == 1 && b % 2 == 0 then 1 else 0) + 2 * Minus(a / 2, b / 2)
  }

  lemma {:induction false} MinusNothing(a: nat)
    ensures Minus(a, 0) == a
  {
    if a != 0 {
      MinusNothing(a / 2);
    }
  }

  predicate Bit(a: nat, i: nat)
    decreases i
  {
    if i == 0 then a % 2 == 1 else Bit(a / 2, i - 1)
  }

  lemma {:induction false} BitOfZero(i: nat)
    ensures !Bit(0, i)
    decreases i
  {
    if i > 0 {
      BitOfZero(i - 1);
    }
  }

  lemma {:induction false} BitOfAnd(a: nat, b: nat, i: nat)
    ensures Bit(And(a, b), i) <==> Bit(a, i) && Bit(b, i)
    decreases i
  {
    if a == 0 || b == 0 {
      BitOfZero(i);
    } else if i > 0 {
      BitOfAnd(a / 2, b / 2, i - 1);
      assert And(a, b) / 2 == And(a / 2, b / 2);
    }
  }

  lemma {:induction false} BitOfMinus(a: nat, b: nat, i: nat)
    ensures Bit(Minus(a, b), i) <==> Bit(a, i) && !Bit(b, i)
    decreases i
  {
    if a == 0 {
      BitOfZero(i);
    } else if i > 0 {
      BitOfMinus(a / 2, b / 2, i - 1);
      assert Minus(a, b) / 2 == Minus(a / 2, b / 2);
    }
  }

  lemma {:induction false} OneBit(k: nat, i: nat)
    ensures Bit(Pow2(k), i) <==> i == k
    decreases i
  {
    if i > 0 {
      if k > 0 {
        OneBit(k - 1, i - 1);
      } else {
        BitOfZero(i - 1);
      }
    }
  }

  lemma LowBitOfXor(a: nat, b: nat)
    ensures Xor(a, b) % 2 == Differ(a % 2, b % 2)
  {
    hide Xor;
    XorDouble(a / 2, a % 2, b / 2, b % 2);
    Parity(Xor(a / 2, b / 2), Differ(a % 2, b % 2));
  }

  lemma Parity(half: nat, digit: nat)
    requires digit < 2
    ensures (2 * half + digit) % 2 == digit
  {
  }

  lemma {:induction false} BitOfXor(a: nat, b: nat, i: nat)
    ensures Bit(Xor(a, b), i) <==> Bit(a, i) != Bit(b, i)
    decreases i
  {
    hide Xor;
    if i == 0 {
      LowBitOfXor(a, b);
    } else {
      XorHalves(a, b);
      BitOfXor(a / 2, b / 2, i - 1);
    }
  }

  /** Numbers with the same bits are equal; in particular one without bits is
      zero. */
  lemma {:induction false} SameBits(a: nat, b: nat)
    requires forall i: nat :: Bit(a, i) <==> Bit(b, i)
    ensures a == b
    decreases a + b
  {
    assert Bit(a, 0) <==> Bit(b, 0);
    if a != 0 || b != 0 {
      forall i: nat
        ensures Bit(a / 2, i) <==> Bit(b / 2, i)
      {
        assert Bit(a, i + 1) <==> Bit(b, i + 1);
      }
      SameBits(a / 2, b / 2);
    }
  }

  lemma SomeBit(a: nat) returns (i: nat)
    requires a != 0
    ensures Bit(a, i)
  {
    if forall j: nat :: !Bit(a, j) {
      forall j: nat
        ensures Bit(a, j) <==> Bit(0, j)
      {
        BitOfZero(j);
      }
      SameBits(a, 0);
      assert false;
    } else {
      i :| Bit(a, i);
    }
  }

  lemma AndNotStep(v: nat, c: nat, p: nat)
    requires v > 0 && c < 2 * p
    requires And(v / 2, p - 1 - c / 2) == Minus(v / 2, c / 2)
    ensures And(v, 2 * p - 1 - c) == Minus(v, c)
  {
    hide And, Minus;
    MinusHalves(v, c);
    NotHalves(c, p);
    AndHalves(v, 2 * p - 1 - c);
  }

  lemma MinusHalves(a: nat, b: nat)
    ensures Minus(a, b) == if a == 0 then 0 else (if a % 2 == 1 && b % 2 == 0 then 1 else 0) + 2 * Minus(a / 2, b / 2)
  {
  }

  lemma NotHalves(c: nat, p: nat)
    requires c < 2 * p
    ensures (2 * p - 1 - c) % 2 == 1 - c % 2 && (2 * p - 1 - c) / 2 == p - 1 - c / 2
  {
    TwicePlus(2 * p - 1 - c, p - 1 - c / 2, 1 - c % 2);
  }

  lemma TwicePlus(x: int, h: int, bit: int)
    requires x == 2 * h + bit && 0 <= bit <= 1
    ensures x % 2 == bit && x / 2 == h
  {
  }

  /** Masking with the complement. */
  lemma {:induction false} AndNot(v: nat, c: nat, k: nat)
    requires v < Pow2(k) && c < Pow2(k)
    ensures And(v, Pow2(k) - 1 - c) == Minus(v, c)
    decreases k
  {
    hide Minus;
    if k == 0 || v == 0 {
      MinusHalves(v, c);
    } else {
      MinusHalves(v, c);
      AndNot(v / 2, c / 2, k - 1);
      AndNotStep(v, c, Pow2(k - 1));
    }
  }

  /** x moved k bits to the left. */
  function Placed(x: nat, k: nat): nat {
    if k == 0 then x else 2 * Placed(x, k - 1)
  }

  /** Words joined from parts are masked part by part. */
  lemma {:induction false} AndJoined(a: nat, x: nat, b: nat, y: nat, k: nat)
    requires a < Pow2(k) && b < Pow2(k)
    ensures And(a + Placed(x, k), b + Placed(y, k)) == And(a, b) + Placed(And(x, y), k)
    decreases k
  {
    hide And;
    if k > 0 {
      AndJoined(a / 2, x, b / 2, y, k - 1);
      AndStep(a, b, Placed(x, k - 1), Placed(y, k - 1), Placed(And(x, y), k - 1));
    } else {
      AndHalves(0, 0);
    }
  }

  lemma Placed8(x: nat)
    ensures Placed(x, 8) == 0x100 * x
  {
    assert Placed(x, 1) == 2 * x;
    assert Placed(x, 3) == 4 * Placed(x, 1);
    assert Placed(x, 5) == 4 * Placed(x, 3);
    assert Placed(x, 7) == 4 * Placed(x, 5);
  }

  lemma Half(a: nat, x: nat)
    ensures (a + 2 * x) / 2 == a / 2 + x && (a + 2 * x) % 2 == a % 2
  {
  }

  lemma AndStep(a: nat, b: nat, x: nat, y: nat, z: nat)
    requires And(a / 2 + x, b / 2 + y) == And(a / 2, b / 2) + z
    ensures And(a + 2 * x, b + 2 * y) == And(a, b) + 2 * z
  {
    hide And;
    AndHalves(a + 2 * x, b + 2 * y);
    AndHalves(a, b);
    Half(a, x);
    Half(b, y);
  }

  lemma AndHalves(a: nat, b: nat)
    ensures And(a, b) == (if a % 2 == 1 && b % 2 == 1 then 1 else 0) + 2 * And(a / 2, b / 2)
  {
  }

  // ------------------------------------------------------------- all bytes

  function AndAll(s: seq<byte>, t: seq<byte>): (r: seq<byte>)
    requires |s| == |t|
    ensures |r| == |s| && forall k :: 0 <= k < |s| ==> r[k] == And(s[k], t[k])
  {
    seq(|s|, k requires 0 <= k < |s| => And(s[k], t[k]) as byte)
  }

  function MinusAll(s: seq<byte>, t: seq<byte>): (r: seq<byte>)
    requires |s| == |t|
    ensures |r| == |s| && forall k :: 0 <= k < |s| ==> r[k] == Minus(s[k], t[k])
  {
    seq(|s|, k requires 0 <= k < |s| => Minus(s[k], t[k]) as byte)
  }

  function NotAll(s: seq<byte>): (r: seq<byte>)
    ensures |r| == |s| && forall k :: 0 <= k < |s| ==> r[k] == 255 - s[k]
  {
    seq(|s|, k requires 0 <= k < |s| => (255 - s[k]) as byte)
  }

  predicate Zeros(s: seq<byte>) {
    forall k :: 0 <= k < |s| ==> s[k] == 0
  }

  lemma {:induction false} ZeroWord(s: seq<byte>)
    ensures ReadLE(s) == 0 <==> Zeros(s)
  {
    if s != [] {
      ZeroWord(s[1..]);
      assert s == [s[0]] + s[1..];
    }
  }

  lemma {:induction false} AndWords(s: seq<byte>, t: seq<byte>)
    requires |s| == |t|
    ensures And(ReadLE(s), ReadLE(t)) == ReadLE(AndAll(s, t))
  {
    hide And;
    if s != [] {
      AndWords(s[1..], t[1..]);
      AndByte(s[0], ReadLE(s[1..]), t[0], ReadLE(t[1..]));
      assert AndAll(s, t)[1..] == AndAll(s[1..], t[1..]);
    }
  }

  lemma AndByte(a: byte, x: nat, b: byte, y: nat)
    ensures And(a + 0x100 * x, b + 0x100 * y) == And(a, b) + 0x100 * And(x, y)
  {
    hide And, Placed;
    Pow2Values();
    AndJoined(a, x, b, y, 8);
    Placed8(x);
    Placed8(y);
    Placed8(And(x, y));
  }

  lemma {:induction false} NotWord(s: seq<byte>)
    ensures ReadLE(NotAll(s)) == Pow256(|s|) - 1 - ReadLE(s)
  {
    if s != [] {
      NotWord(s[1..]);
      assert NotAll(s)[1..] == NotAll(s[1..]);
    }
  }

  lemma AndNotByte(v: byte, c: byte)
    ensures And(v, 255 - c) == Minus(v, c)
  {
    hide And, Minus;
    Pow2Values();
    AndNot(v, c, 8);
  }

  lemma AndNotAll(v: seq<byte>, c: seq<byte>)
    requires |v| == |c|
    ensures AndAll(v, NotAll(c)) == MinusAll(v, c)
  {
    hide And, Minus;
    forall k | 0 <= k < |v|
      ensures AndAll(v, NotAll(c))[k] == MinusAll(v, c)[k]
    {
      AndNotByte(v[k], c[k]);
    }
  }

  /** One word operation clears the bits byte by byte. */
  lemma MinusWords(v: seq<byte>, c: seq<byte>)
    requires |v| == |c|
    ensures ReadLE(c) < Pow256(|c|)
    ensures WriteLE(And(ReadLE(v), Pow256(|c|) - 1 - ReadLE(c)), |v|) == MinusAll(v, c)
  {
    hide And, Minus, ReadLE, WriteLE, Pow256, AndAll, MinusAll, NotAll;
    ReadBound(c);
    NotWord(c);
    AndWords(v, NotAll(c));
    AndNotAll(v, c);
    ReadThenWrite(MinusAll(v, c));
  }
}

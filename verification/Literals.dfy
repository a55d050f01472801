/** Words given by bit vectors, so that what the hashes make of concrete words can
    be worked out. */
module Literals {
  import opened Words
  import opened Bits

  /** The number that a bit vector stands for, byte by byte. */
  function N(v: bv64): nat {
    (((v & 0xFF) as bv8) as int)
    + 0x100 * ((((v >> 8) & 0xFF) as bv8) as int)
    + 0x1_0000 * ((((v >> 16) & 0xFF) as bv8) as int)
    + 0x100_0000 * ((((v >> 24) & 0xFF) as bv8) as int)
    + 0x1_0000_0000 * ((((v >> 32) & 0xFF) as bv8) as int)
    + 0x100_0000_0000 * ((((v >> 40) & 0xFF) as bv8) as int)
    + 0x1_0000_0000_0000 * ((((v >> 48) & 0xFF) as bv8) as int)
    + 0x100_0000_0000_0000 * ((((v >> 56) & 0xFF) as bv8) as int)
  }

  lemma NumberJoined(v: bv64)
    ensures N(v) == Joined(B0(v), B1(v), B2(v), B3(v), B4(v), B5(v), B6(v), B7(v))
  {
  }

  function Joined(b0: byte, b1: byte, b2: byte, b3: byte, b4: byte, b5: byte, b6: byte, b7: byte): u64 {
    b0 + 0x100 * (b1 + 0x100 * (b2 + 0x100 * (b3 + 0x100 * (b4 + 0x100 * (b5 + 0x100 * (b6 + 0x100 * b7))))))
  }

  function B0(v: bv64): byte { Byte(v) }
  function B1(v: bv64): byte { Byte(v >> 8) }
  function B2(v: bv64): byte { Byte(v >> 16) }
  function B3(v: bv64): byte { Byte(v >> 24) }
  function B4(v: bv64): byte { Byte(v >> 32) }
  function B5(v: bv64): byte { Byte(v >> 40) }
  function B6(v: bv64): byte { Byte(v >> 48) }
  function B7(v: bv64): byte { Byte(v >> 56) }

  /** The lowest byte. */
  function Byte(v: bv64): byte { Value((v & 0xFF) as bv8) }

  function Value(v: bv8): byte { v as int }

  // ------------------------------------------------------------ exclusive or

  lemma HalfByte(v: bv8)
    ensures Value(v) == 2 * Value(v >> 1) + Value(v & 1) && 0 <= Value(v & 1) < 2
  {
  }

  lemma HalvesXor(a: bv8, b: bv8)
    ensures (a ^ b) >> 1 == (a >> 1) ^ (b >> 1)
    ensures Value((a ^ b) & 1) == Differ(Value(a & 1), Value(b & 1))
  {
  }

  /** Exclusive or bit by bit is that of bit vectors. */
  lemma {:induction false} XorBits(a: bv8, b: bv8, k: nat)
    requires Value(a) < Pow2(k) && Value(b) < Pow2(k)
    ensures Xor(Value(a), Value(b)) == Value(a ^ b)
    decreases k
  {
    hide Xor, Differ, Value;
    if k == 0 {
      NoBits(a, b);
    } else {
      HalfByte(a);
      HalfByte(b);
      HalfByte(a ^ b);
      HalvesXor(a, b);
      XorBits(a >> 1, b >> 1, k - 1);
      XorDouble(Value(a >> 1), Value(a & 1), Value(b >> 1), Value(b & 1));
    }
  }

  lemma NoBits(a: bv8, b: bv8)
    requires Value(a) < 1 && Value(b) < 1
    ensures Xor(Value(a), Value(b)) == Value(a ^ b)
  {
  }

  lemma SmallEnough(a: bv8, b: bv8)
    ensures Xor(Value(a), Value(b)) == Value(a ^ b)
  {
    hide Xor, Value;
    Pow2Values();
    XorBits(a, b, 8);
  }

  /** Words joined from parts are combined part by part. */
  lemma {:induction false} XorJoined(a: nat, x: nat, b: nat, y: nat, k: nat)
    requires a < Pow2(k) && b < Pow2(k)
    ensures Xor(a + Placed(x, k), b + Placed(y, k)) == Xor(a, b) + Placed(Xor(x, y), k)
    decreases k
  {
    hide Xor;
    if k > 0 {
      XorJoined(a / 2, x, b / 2, y, k - 1);
      XorDouble(a / 2 + Placed(x, k - 1), a % 2, b / 2 + Placed(y, k - 1), b % 2);
      XorDouble(a / 2, a % 2, b / 2, b % 2);
      assert 2 * (a / 2) + a % 2 == a && 2 * (b / 2) + b % 2 == b;
    } else {
      XorZero(0);
    }
  }

  lemma XorAbove(a: byte, x: nat, b: byte, y: nat)
    ensures Xor(a + 0x100 * x, b + 0x100 * y) == Xor(a, b) + 0x100 * Xor(x, y)
  {
    hide Xor, Placed;
    Pow2Values();
    XorJoined(a, x, b, y, 8);
    Placed8(x);
    Placed8(y);
    Placed8(Xor(x, y));
  }

  lemma JoinedXor(a0: byte, a1: byte, a2: byte, a3: byte, a4: byte, a5: byte, a6: byte, a7: byte,
                  b0: byte, b1: byte, b2: byte, b3: byte, b4: byte, b5: byte, b6: byte, b7: byte)
    ensures var c0, c1, c2, c3 := Xor(a0, b0), Xor(a1, b1), Xor(a2, b2), Xor(a3, b3);
            var c4, c5, c6, c7 := Xor(a4, b4), Xor(a5, b5), Xor(a6, b6), Xor(a7, b7);
            Xor(Joined(a0, a1, a2, a3, a4, a5, a6, a7), Joined(b0, b1, b2, b3, b4, b5, b6, b7)) ==
              c0 + 0x100 * (c1 + 0x100 * (c2 + 0x100 * (c3 + 0x100 * (c4 + 0x100 * (c5 + 0x100 * (c6 + 0x100 * c7))))))
  {
    hide Xor;
    var x6, y6 := a6 + 0x100 * a7, b6 + 0x100 * b7;
    var x5, y5 := a5 + 0x100 * x6, b5 + 0x100 * y6;
    var x4, y4 := a4 + 0x100 * x5, b4 + 0x100 * y5;
    var x3, y3 := a3 + 0x100 * x4, b3 + 0x100 * y4;
    var x2, y2 := a2 + 0x100 * x3, b2 + 0x100 * y3;
    var x1, y1 := a1 + 0x100 * x2, b1 + 0x100 * y2;
    XorAbove(a6, a7, b6, b7);
    XorAbove(a5, x6, b5, y6);
    XorAbove(a4, x5, b4, y5);
    XorAbove(a3, x4, b3, y4);
    XorAbove(a2, x3, b2, y3);
    XorAbove(a1, x2, b1, y2);
    XorAbove(a0, x1, b0, y1);
  }

  /** The exclusive or of two words. */
  lemma XorIs(a: bv64, b: bv64)
    ensures Xor(N(a), N(b)) == N(a ^ b)
  {
    hide Xor, N, B0, B1, B2, B3, B4, B5, B6, B7;
    NumberJoined(a);
    NumberJoined(b);
    NumberJoined(a ^ b);
    XorB0(a, b);
    XorB1(a, b);
    XorB2(a, b);
    XorB3(a, b);
    XorB4(a, b);
    XorB5(a, b);
    XorB6(a, b);
    XorB7(a, b);
    JoinedXor(B0(a), B1(a), B2(a), B3(a), B4(a), B5(a), B6(a), B7(a), B0(b), B1(b), B2(b), B3(b), B4(b), B5(b), B6(b), B7(b));
  }

  lemma XorB0(a: bv64, b: bv64)
    ensures Xor(B0(a), B0(b)) == B0(a ^ b)
  {
    hide Xor, Value;
    SmallEnough(((a >> 0) & 0xFF) as bv8, ((b >> 0) & 0xFF) as bv8);
    assert ((a >> 0) & 0xFF) as bv8 ^ ((b >> 0) & 0xFF) as bv8 == (((a ^ b) >> 0) & 0xFF) as bv8;
  }

  lemma XorB1(a: bv64, b: bv64)
    ensures Xor(B1(a), B1(b)) == B1(a ^ b)
  {
    hide Xor, Value;
    SmallEnough(((a >> 8) & 0xFF) as bv8, ((b >> 8) & 0xFF) as bv8);
    assert ((a >> 8) & 0xFF) as bv8 ^ ((b >> 8) & 0xFF) as bv8 == (((a ^ b) >> 8) & 0xFF) as bv8;
  }

  lemma XorB2(a: bv64, b: bv64)
    ensures Xor(B2(a), B2(b)) == B2(a ^ b)
  {
    hide Xor, Value;
    SmallEnough(((a >> 16) & 0xFF) as bv8, ((b >> 16) & 0xFF) as bv8);
    assert ((a >> 16) & 0xFF) as bv8 ^ ((b >> 16) & 0xFF) as bv8 == (((a ^ b) >> 16) & 0xFF) as bv8;
  }

  lemma XorB3(a: bv64, b: bv64)
    ensures Xor(B3(a), B3(b)) == B3(a ^ b)
  {
    hide Xor, Value;
    SmallEnough(((a >> 24) & 0xFF) as bv8, ((b >> 24) & 0xFF) as bv8);
    assert ((a >> 24) & 0xFF) as bv8 ^ ((b >> 24) & 0xFF) as bv8 == (((a ^ b) >> 24) & 0xFF) as bv8;
  }

  lemma XorB4(a: bv64, b: bv64)
    ensures Xor(B4(a), B4(b)) == B4(a ^ b)
  {
    hide Xor, Value;
    SmallEnough(((a >> 32) & 0xFF) as bv8, ((b >> 32) & 0xFF) as bv8);
    assert ((a >> 32) & 0xFF) as bv8 ^ ((b >> 32) & 0xFF) as bv8 == (((a ^ b) >> 32) & 0xFF) as bv8;
  }

  lemma XorB5(a: bv64, b: bv64)
    ensures Xor(B5(a), B5(b)) == B5(a ^ b)
  {
    hide Xor, Value;
    SmallEnough(((a >> 40) & 0xFF) as bv8, ((b >> 40) & 0xFF) as bv8);
    assert ((a >> 40) & 0xFF) as bv8 ^ ((b >> 40) & 0xFF) as bv8 == (((a ^ b) >> 40) & 0xFF) as bv8;
  }

  lemma XorB6(a: bv64, b: bv64)
    ensures Xor(B6(a), B6(b)) == B6(a ^ b)
  {
    hide Xor, Value;
    SmallEnough(((a >> 48) & 0xFF) as bv8, ((b >> 48) & 0xFF) as bv8);
    assert ((a >> 48) & 0xFF) as bv8 ^ ((b >> 48) & 0xFF) as bv8 == (((a ^ b) >> 48) & 0xFF) as bv8;
  }

  lemma XorB7(a: bv64, b: bv64)
    ensures Xor(B7(a), B7(b)) == B7(a ^ b)
  {
    hide Xor, Value;
    SmallEnough(((a >> 56) & 0xFF) as bv8, ((b >> 56) & 0xFF) as bv8);
    assert ((a >> 56) & 0xFF) as bv8 ^ ((b >> 56) & 0xFF) as bv8 == (((a ^ b) >> 56) & 0xFF) as bv8;
  }
}

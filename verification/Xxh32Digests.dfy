/** XXH32 on 47 bytes, worked out with a seed: two stripes, and a tail of three words
    and three bytes. */
module Xxh32Digests {
  import opened Words
  import opened Literals
  import opened Xxh3Mix
  import opened DigestSteps
  import Xxh3Short
  import Xxh32

  const SEED32: u32 := 0x9E3779B1

  lemma Product32Is(x: u32, c: u32, q: nat, r: u32)
    requires x * c == q * 0x1_0000_0000 + r
    ensures Mul32(x, c) == r
  {
  }

  lemma Rotation32Is(x: u32, k: nat, p: nat, q: nat, hi: nat, lo: nat)
    requires k <= 32 && Pow2(k) == p && Pow2(32 - k) == q && p * q == 0x1_0000_0000
    requires x == hi * q + lo && lo < q && hi < p
    ensures 0 <= lo * p + hi < 0x1_0000_0000 && Rotl32(x, k) == lo * p + hi
  {
    hide Pow2, Shr;
    ShiftIs(x, 32 - k, q, hi);
    PartsTurned(x, hi, lo, p, q);
  }

  lemma PartsTurned(x: nat, hi: nat, lo: nat, p: nat, q: nat)
    requires p * q == 0x1_0000_0000 && x == hi * q + lo && lo < q && hi < p
    ensures x * p % 0x1_0000_0000 == lo * p && 0 <= lo * p + hi < 0x1_0000_0000
  {
    TurnedProduct(hi, q, lo, p);
    RoomBelow(lo, p, q);
    LowPart(x * p, hi, lo * p);
  }

  lemma RoomBelow(lo: nat, p: nat, q: nat)
    requires p * q == 0x1_0000_0000 && lo < q
    ensures 0 <= lo * p && lo * p + p <= 0x1_0000_0000
  {
    Xxh3Short.Distribute(lo, 1, p);
    ProductGrows(lo + 1, p, q, p);
  }

  lemma TurnedProduct(hi: nat, q: nat, lo: nat, p: nat)
    requires p * q == 0x1_0000_0000
    ensures (hi * q + lo) * p == hi * 0x1_0000_0000 + lo * p
  {
    Xxh3Short.Distribute(hi * q, lo, p);
    Xxh3Short.Regroup(hi, q, p);
  }

  lemma LowPart(v: nat, hi: nat, low: nat)
    requires v == hi * 0x1_0000_0000 + low && low < 0x1_0000_0000
    ensures v % 0x1_0000_0000 == low
  {
  }

  lemma Round32Is(acc: u32, input: u32, q: nat, m: u32, s: u32, hi: nat, lo: nat, n: nat, z: u32)
    requires input * 0x85EB_CA77 == q * 0x1_0000_0000 + m && s == Add32(acc, m)
    requires s == hi * 0x8_0000 + lo && lo < 0x8_0000 && hi < 0x2000
    requires (lo * 0x2000 + hi) * 0x9E37_79B1 == n * 0x1_0000_0000 + z
    ensures Xxh32.Round(acc, input) == z
  {
    hide Rotl32, Pow2, Mul32, Add32;
    Powers0();
    Powers1();
    Product32Is(input, PRIME32_2, q, m);
    Rotation32Is(s, 13, 0x2000, 0x8_0000, hi, lo);
    Product32Is(lo * 0x2000 + hi, PRIME32_1, n, z);
  }

  lemma Word32Is(h: u32, tail: seq<byte>, q: nat, m: u32, s: u32, hi: nat, lo: nat, n: nat, z: u32)
    requires |tail| >= 4 && Read32(tail, 0) * 0xC2B2_AE3D == q * 0x1_0000_0000 + m && s == Add32(h, m)
    requires s == hi * 0x8000 + lo && lo < 0x8000 && hi < 0x2_0000
    requires (lo * 0x2_0000 + hi) * 0x27D4_EB2F == n * 0x1_0000_0000 + z
    ensures Xxh32.Process4(h, tail) == z
  {
    hide Rotl32, Pow2, Mul32, Add32, Read32;
    Powers0();
    Powers1();
    Product32Is(Read32(tail, 0), PRIME32_3, q, m);
    Rotation32Is(s, 17, 0x2_0000, 0x8000, hi, lo);
    Product32Is(lo * 0x2_0000 + hi, PRIME32_4, n, z);
  }

  lemma Byte32Is(h: u32, b: byte, q: nat, m: u32, s: u32, hi: nat, lo: nat, n: nat, z: u32)
    requires b * 0x1656_67B1 == q * 0x1_0000_0000 + m && s == Add32(h, m)
    requires s == hi * 0x20_0000 + lo && lo < 0x20_0000 && hi < 0x800
    requires (lo * 0x800 + hi) * 0x9E37_79B1 == n * 0x1_0000_0000 + z
    ensures Xxh32.Process1(h, b) == z
  {
    hide Rotl32, Pow2, Mul32, Add32;
    Powers0();
    Powers1();
    Product32Is(b, PRIME32_5, q, m);
    Rotation32Is(s, 11, 0x800, 0x20_0000, hi, lo);
    Product32Is(lo * 0x800 + hi, PRIME32_1, n, z);
  }

  lemma Avalanche32Is(h: u32, s1: nat, h1: u32, m: nat, p: u32, s2: nat, p1: u32, n: nat, q: u32, s3: nat, q1: u32)
    requires s1 * 0x8000 <= h < s1 * 0x8000 + 0x8000 && h1 == Xor(h, s1) && h1 * 0x85EB_CA77 == m * 0x1_0000_0000 + p
    requires s2 * 0x2000 <= p < s2 * 0x2000 + 0x2000 && p1 == Xor(p, s2) && p1 * 0xC2B2_AE3D == n * 0x1_0000_0000 + q
    requires s3 * 0x1_0000 <= q < s3 * 0x1_0000 + 0x1_0000 && q1 == Xor(q, s3)
    ensures Xxh32.Avalanche(h) == q1
  {
    hide Xor, Shr, Pow2, Mul32;
    Powers0();
    Powers1();
    ShiftIs(h, 15, 0x8000, s1);
    Product32Is(h1, PRIME32_2, m, p);
    ShiftIs(p, 13, 0x2000, s2);
    Product32Is(p1, PRIME32_3, n, q);
    ShiftIs(q, 16, 0x1_0000, s3);
  }

  lemma QuarterWords()
    ensures var s := Sanity(); Quarter(s[0], s[1], s[2], s[3]) == 0x9B925200
    ensures var s := Sanity(); Quarter(s[4], s[5], s[6], s[7]) == 0x24A332B7
    ensures var s := Sanity(); Quarter(s[8], s[9], s[10], s[11]) == 0x95AF002D
    ensures var s := Sanity(); Quarter(s[12], s[13], s[14], s[15]) == 0x93B8EC0E
    ensures var s := Sanity(); Quarter(s[16], s[17], s[18], s[19]) == 0x93EFDFE3
    ensures var s := Sanity(); Quarter(s[20], s[21], s[22], s[23]) == 0x2ACDD6AA
    ensures var s := Next(); Quarter(s[0], s[1], s[2], s[3]) == 0x3F5C8B53
    ensures var s := Next(); Quarter(s[4], s[5], s[6], s[7]) == 0xD56F5A54
  {

  }

  lemma HalfStripe0()
    ensures var s := Stripe()[0..16]; Read32(s, 0) == 0x9B925200 && Read32(s, 4) == 0x24A332B7 && Read32(s, 8) == 0x95AF002D && Read32(s, 12) == 0x93B8EC0E
  {
    hide Read32, Sanity, Next, Quarter;
    var s := Stripe()[0..16];
    ReadHalf(s, 0);
    ReadHalf(s, 4);
    ReadHalf(s, 8);
    ReadHalf(s, 12);
    QuarterWords();
  }

  lemma Half0Round0()
    ensures Xxh32.Round(0xC25ABDD9, 0x9B925200) == 0xA32DA122
  {
    hide Xxh32.Round;
    Round32Is(0xC25ABDD9, 0x9B925200, 0x51624EF5, 0xBB81E00, 0xCE12DBD9, 0x19C2, 0x2DBD9, 0x3889E09B, 0xA32DA122);
  }

  lemma Half0Round1()
    ensures Xxh32.Round(0x24234428, 0x24A332B7) == 0x84093460
  {
    hide Xxh32.Round;
    Round32Is(0x24234428, 0x24A332B7, 0x132A8822, 0x6EDDF911, 0x93013D39, 0x1260, 0x13D39, 0x1881C8DC, 0x84093460);
  }

  lemma Half0Round2()
    ensures Xxh32.Round(0x9E3779B1, 0x95AF002D) == 0x7E251C60
  {
    hide Xxh32.Round;
    Round32Is(0x9E3779B1, 0x95AF002D, 0x4E4DC91E, 0x34CB96EB, 0xD303109C, 0x1A60, 0x3109C, 0x3C9D5A1C, 0x7E251C60);
  }

  lemma Half0Round3()
    ensures Xxh32.Round(0x0, 0x93B8EC0E) == 0x9D7CCCE2
  {
    hide Xxh32.Round;
    Round32Is(0x0, 0x93B8EC0E, 0x4D472238, 0x8C12C682, 0x8C12C682, 0x1182, 0x2C682, 0x36E3D147, 0x9D7CCCE2);
  }

  lemma Half0Stepped()
    ensures Xxh32.Step(Xxh32.InitLanes(SEED32), Stripe()[0..16]) == [0xA32DA122, 0x84093460, 0x7E251C60, 0x9D7CCCE2]
  {
    hide Xxh32.Round, Read32, Stripe;
    HalfStripe0();
    Half0Round0();
    Half0Round1();
    Half0Round2();
    Half0Round3();
  }

  lemma HalfStripe1()
    ensures var s := Stripe()[16..32]; Read32(s, 0) == 0x93EFDFE3 && Read32(s, 4) == 0x2ACDD6AA && Read32(s, 8) == 0x3F5C8B53 && Read32(s, 12) == 0xD56F5A54
  {
    hide Read32, Sanity, Next, Quarter;
    var s := Stripe()[16..32];
    ReadHalf(s, 0);
    ReadHalf(s, 4);
    ReadHalf(s, 8);
    ReadHalf(s, 12);
    QuarterWords();
  }

  lemma Half1Round0()
    ensures Xxh32.Round(0xA32DA122, 0x93EFDFE3) == 0xDF2FFF27
  {
    hide Xxh32.Round;
    Round32Is(0xA32DA122, 0x93EFDFE3, 0x4D63E183, 0x7F8B3085, 0x22B8D1A7, 0x457, 0xD1A7, 0x103252BF, 0xDF2FFF27);
  }

  lemma Half1Round1()
    ensures Xxh32.Round(0x84093460, 0x2ACDD6AA) == 0x904C5515
  {
    hide Xxh32.Round;
    Round32Is(0x84093460, 0x2ACDD6AA, 0x16645D54, 0xB11EED06, 0x35282166, 0x6A5, 0x2166, 0x2948A34, 0x904C5515);
  }

  lemma Half1Round2()
    ensures Xxh32.Round(0x7E251C60, 0x3F5C8B53) == 0x3BD92EB9
  {
    hide Xxh32.Round;
    Round32Is(0x7E251C60, 0x3F5C8B53, 0x21257072, 0x7E254195, 0xFC4A5DF5, 0x1F89, 0x25DF5, 0x2ED02433, 0x3BD92EB9);
  }

  lemma Half1Round3()
    ensures Xxh32.Round(0x9D7CCCE2, 0xD56F5A54) == 0x5494C9D4
  {
    hide Xxh32.Round;
    Round32Is(0x9D7CCCE2, 0xD56F5A54, 0x6FA76FF2, 0xA325450C, 0x40A211EE, 0x814, 0x211EE, 0x28F07C3F, 0x5494C9D4);
  }

  lemma Half1Stepped()
    ensures Xxh32.Step([0xA32DA122, 0x84093460, 0x7E251C60, 0x9D7CCCE2], Stripe()[16..32]) == [0xDF2FFF27, 0x904C5515, 0x3BD92EB9, 0x5494C9D4]
  {
    hide Xxh32.Round, Read32, Stripe;
    HalfStripe1();
    Half1Round0();
    Half1Round1();
    Half1Round2();
    Half1Round3();
  }

  lemma Half32Turned0()
    ensures Rotl32(0xDF2FFF27, 1) == 0xBE5FFE4F
  {
    hide Rotl32, Pow2;
    Powers0();
    Powers1();
    Rotation32Is(0xDF2FFF27, 1, 0x2, 0x80000000, 0x1, 0x5F2FFF27);
  }

  lemma Half32Turned1()
    ensures Rotl32(0x904C5515, 7) == 0x262A8AC8
  {
    hide Rotl32, Pow2;
    Powers0();
    Powers1();
    Rotation32Is(0x904C5515, 7, 0x80, 0x2000000, 0x48, 0x4C5515);
  }

  lemma Half32Turned2()
    ensures Rotl32(0x3BD92EB9, 12) == 0x92EB93BD
  {
    hide Rotl32, Pow2;
    Powers0();
    Powers1();
    Rotation32Is(0x3BD92EB9, 12, 0x1000, 0x100000, 0x3BD, 0x92EB9);
  }

  lemma Half32Turned3()
    ensures Rotl32(0x5494C9D4, 18) == 0x27515253
  {
    hide Rotl32, Pow2;
    Powers0();
    Powers1();
    Rotation32Is(0x5494C9D4, 18, 0x40000, 0x4000, 0x15253, 0x9D4);
  }

  lemma Converged32()
    ensures Xxh32.Converge([0xDF2FFF27, 0x904C5515, 0x3BD92EB9, 0x5494C9D4]) == 0x9EC76F27
  {
    hide Rotl32;
    Half32Turned0();
    Half32Turned1();
    Half32Turned2();
    Half32Turned3();
  }

  lemma Tail32Read0()
    ensures Read32(Tail(), 0) == 0xFCFFC059
  {
    hide Read32;
    ReadHalf(Tail(), 0);
  }

  lemma Tail32Word0()
    ensures Xxh32.Process4(0x9EC76F56, Tail()) == 0x1D8B96C3
  {
    hide Xxh32.Process4, Read32, Tail;
    Tail32Read0();
    Word32Is(0x9EC76F56, Tail(), 0xC06A65C9, 0x4D8F5335, 0xEC56C28B, 0x1D8AD, 0x428B, 0x14B55407, 0x1D8B96C3);
  }

  lemma Tail32Read1()
    ensures Read32(Tail()[4..], 0) == 0x33B9858F
  {
    hide Read32;
    ReadHalf(Tail()[4..], 0);
  }

  lemma Tail32Word1()
    ensures Xxh32.Process4(0x1D8B96C3, Tail()[4..]) == 0x8A130B25
  {
    hide Xxh32.Process4, Read32, Tail;
    Tail32Read1();
    Word32Is(0x1D8B96C3, Tail()[4..], 0x2756B169, 0xA76A0513, 0xC4F59BD6, 0x189EB, 0x1BD6, 0x8A9BEDF, 0x8A130B25);
  }

  lemma Tail32Read2()
    ensures Read32(Tail()[8..], 0) == 0xF774AB1D
  {
    hide Read32;
    ReadHalf(Tail()[8..], 0);
  }

  lemma Tail32Word2()
    ensures Xxh32.Process4(0x8A130B25, Tail()[8..]) == 0x904DA321
  {
    hide Xxh32.Process4, Read32, Tail;
    Tail32Read2();
    Word32Is(0x8A130B25, Tail()[8..], 0xBC332137, 0x37447BE9, 0xC157870E, 0x182AF, 0x70E, 0x2323C50, 0x904DA321);
  }

  lemma Tail32Byte0()
    ensures Xxh32.Process1(0x904DA321, 0xB6) == 0x9819517D
  {
    hide Xxh32.Process1;
    Byte32Is(0x904DA321, 0xB6, 0xF, 0xE16DB7D6, 0x71BB5AF7, 0x38D, 0x1B5AF7, 0x87409221, 0x9819517D);
  }

  lemma Tail32Byte1()
    ensures Xxh32.Process1(0x9819517D, 0x5) == 0x7AF208DE
  {
    hide Xxh32.Process1;
    Byte32Is(0x9819517D, 0x5, 0x0, 0x6FB00675, 0x7C957F2, 0x3E, 0x957F2, 0x2E326DB6, 0x7AF208DE);
  }

  lemma Tail32Byte2()
    ensures Xxh32.Process1(0x7AF208DE, 0x93) == 0xBFC00E34
  {
    hide Xxh32.Process1;
    Byte32Is(0x7AF208DE, 0x93, 0xC, 0xD39D8AA3, 0x4E8F9381, 0x274, 0xF9381, 0x4D034F35, 0xBFC00E34);
  }

  lemma Mixed32Xors()
    ensures Xor(0xBFC00E34, 0x17F80) == 0xBFC171B4
    ensures Xor(0xAADFE2AC, 0x556FF) == 0xAADAB453
    ensures Xor(0xA46361C7, 0xA463) == 0xA463C5A4
  {
    hide Xor;
    Xors(0xBFC00E34, 0x17F80, 0xBFC00E34, 0x17F80, 0xBFC171B4);
    Xors(0xAADFE2AC, 0x556FF, 0xAADFE2AC, 0x556FF, 0xAADAB453);
    Xors(0xA46361C7, 0xA463, 0xA46361C7, 0xA463, 0xA463C5A4);
  }

  lemma Mixed32()
    ensures Xxh32.Avalanche(0xBFC00E34) == 0xA463C5A4
  {
    hide Xor, Xxh32.Avalanche, N;
    Mixed32Xors();
    Avalanche32Is(0xBFC00E34, 0x17F80, 0xBFC171B4, 0x64501E4D, 0xAADFE2AC, 0x556FF, 0xAADAB453, 0x81F0FD01, 0xA46361C7, 0xA463, 0xA463C5A4);
  }

  /** The words and bytes of a tail in turn. */
  lemma FinalSteps32(t: seq<byte>, h: u32, h1: u32, h2: u32, h3: u32, h4: u32, h5: u32, h6: u32)
    requires |t| == 15 && h1 == Xxh32.Process4(h, t) && h2 == Xxh32.Process4(h1, t[4..]) && h3 == Xxh32.Process4(h2, t[8..])
    requires h4 == Xxh32.Process1(h3, t[12]) && h5 == Xxh32.Process1(h4, t[13]) && h6 == Xxh32.Process1(h5, t[14])
    requires t[4..][4..] == t[8..] && t[8..][4..] == t[12..]
    requires t[12..][1..] == t[13..] && t[13..][1..] == t[14..] && t[14..][1..] == []
    ensures Xxh32.Finalize(h, t) == Xxh32.Avalanche(h6)
  {
    hide Xxh32.Process4, Xxh32.Process1, Xxh32.Avalanche;
    assert Xxh32.Finalize(h6, []) == Xxh32.Avalanche(h6);
    assert Xxh32.Finalize(h5, t[14..]) == Xxh32.Finalize(h6, []);
    assert Xxh32.Finalize(h4, t[13..]) == Xxh32.Finalize(h5, t[14..]);
    assert Xxh32.Finalize(h3, t[12..]) == Xxh32.Finalize(h4, t[13..]);
    assert Xxh32.Finalize(h2, t[8..]) == Xxh32.Finalize(h3, t[12..]);
    assert Xxh32.Finalize(h1, t[4..]) == Xxh32.Finalize(h2, t[8..]);
  }

  lemma Finalized32()
    ensures Xxh32.Finalize(0x9EC76F56, Tail()) == 0xA463C5A4
  {
    hide Xxh32.Finalize, Xxh32.Process4, Xxh32.Process1, Xxh32.Avalanche, Tail;
    TailParts();
    Tail32Word0();
    Tail32Word1();
    Tail32Word2();
    Tail32Byte0();
    Tail32Byte1();
    Tail32Byte2();
    Mixed32();
    FinalSteps32(Tail(), 0x9EC76F56, 0x1D8B96C3, 0x8A130B25, 0x904DA321, 0x9819517D, 0x7AF208DE, 0xBFC00E34);
  }

  lemma Long32()
    ensures Xxh32.Hash(Stripe() + Tail(), SEED32) == 0xA463C5A4
  {
    hide Xxh32.Step, Xxh32.InitLanes, Xxh32.Converge, Xxh32.Finalize, Stripe, Tail;
    Half0Stepped();
    Half1Stepped();
    Converged32();
    Finalized32();
    var input, v := Stripe() + Tail(), Xxh32.InitLanes(SEED32);
    assert input[0..16] == Stripe()[0..16] && input[16..32] == Stripe()[16..32] && input[32..] == Tail();
    assert Xxh32.Steps(v, input, 0) == v;
    assert Xxh32.Steps(v, input, 1) == Xxh32.Step(v, input[0..16]);
  }
}

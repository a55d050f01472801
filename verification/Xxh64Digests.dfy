/** XXH64 on 47 bytes, worked out with a seed: one stripe, and a tail of a word of
    eight, one of four and three bytes. */
module Xxh64Digests {
  import opened Words
  import opened Literals
  import opened Xxh3Mix
  import opened DigestSteps
  import Xxh64

  lemma RoundIs(acc: u64, input: u64, q: nat, m: u64, s: u64, hi: nat, lo: nat, n: nat, z: u64)
    requires input * 0xC2B2_AE3D_27D4_EB4F == q * 0x1_0000_0000_0000_0000 + m && s == Add64(acc, m)
    requires s == hi * 0x2_0000_0000 + lo && lo < 0x2_0000_0000 && hi < 0x8000_0000
    requires (lo * 0x8000_0000 + hi) * 0x9E37_79B1_85EB_CA87 == n * 0x1_0000_0000_0000_0000 + z
    ensures Xxh64.Round(acc, input) == z
  {
    hide Rotl64, Pow2, Mul64, Add64;
    Powers1();
    Powers2();
    ProductIs(input, PRIME64_2, q, m);
    RotationIs(s, 31, 0x8000_0000, 0x2_0000_0000, hi, lo);
    ProductIs(lo * 0x8000_0000 + hi, PRIME64_1, n, z);
  }

  lemma MergeIs(acc: u64, val: u64, r: u64, x: u64, n: nat, y: u64, z: u64)
    requires r == Xxh64.Round(0, val) && x == Xor(acc, r)
    requires x * 0x9E37_79B1_85EB_CA87 == n * 0x1_0000_0000_0000_0000 + y && z == Add64(y, 0x85EB_CA77_C2B2_AE63)
    ensures Xxh64.MergeRound(acc, val) == z
  {
    hide Xxh64.Round, Xor, Mul64, Add64;
    ProductIs(x, PRIME64_1, n, y);
  }

  lemma Process8Is(h: u64, tail: seq<byte>, r: u64, x: u64, hi: nat, lo: nat, n: nat, y: u64, z: u64)
    requires |tail| >= 8 && r == Xxh64.Round(0, Read64(tail, 0)) && x == Xor(h, r)
    requires x == hi * 0x20_0000_0000 + lo && lo < 0x20_0000_0000 && hi < 0x800_0000
    requires (lo * 0x800_0000 + hi) * 0x9E37_79B1_85EB_CA87 == n * 0x1_0000_0000_0000_0000 + y
    requires z == Add64(y, 0x85EB_CA77_C2B2_AE63)
    ensures Xxh64.Process8(h, tail) == z
  {
    hide Xxh64.Round, Xor, Rotl64, Read64, Pow2, Mul64, Add64;
    Powers1();
    Powers2();
    RotationIs(x, 27, 0x800_0000, 0x20_0000_0000, hi, lo);
    ProductIs(lo * 0x800_0000 + hi, PRIME64_1, n, y);
  }

  lemma Process4Is(h: u64, tail: seq<byte>, q: nat, m: u64, x: u64, hi: nat, lo: nat, n: nat, y: u64, z: u64)
    requires |tail| >= 4 && Read32(tail, 0) * 0x9E37_79B1_85EB_CA87 == q * 0x1_0000_0000_0000_0000 + m && x == Xor(h, m)
    requires x == hi * 0x200_0000_0000 + lo && lo < 0x200_0000_0000 && hi < 0x80_0000
    requires (lo * 0x80_0000 + hi) * 0xC2B2_AE3D_27D4_EB4F == n * 0x1_0000_0000_0000_0000 + y
    requires z == Add64(y, 0x1656_67B1_9E37_79F9)
    ensures Xxh64.Process4(h, tail) == z
  {
    hide Xor, Rotl64, Read32, Pow2, Mul64, Add64;
    Powers1();
    Powers2();
    ProductIs(Read32(tail, 0), PRIME64_1, q, m);
    RotationIs(x, 23, 0x80_0000, 0x200_0000_0000, hi, lo);
    ProductIs(lo * 0x80_0000 + hi, PRIME64_2, n, y);
  }

  lemma Process1Is(h: u64, b: byte, q: nat, m: u64, x: u64, hi: nat, lo: nat, n: nat, z: u64)
    requires b * 0x27D4_EB2F_1656_67C5 == q * 0x1_0000_0000_0000_0000 + m && x == Xor(h, m)
    requires x == hi * 0x20_0000_0000_0000 + lo && lo < 0x20_0000_0000_0000 && hi < 0x800
    requires (lo * 0x800 + hi) * 0x9E37_79B1_85EB_CA87 == n * 0x1_0000_0000_0000_0000 + z
    ensures Xxh64.Process1(h, b) == z
  {
    hide Xor, Rotl64, Pow2, Mul64;
    Powers0();
    Powers3();
    ProductIs(b, PRIME64_5, q, m);
    RotationIs(x, 11, 0x800, 0x20_0000_0000_0000, hi, lo);
    ProductIs(lo * 0x800 + hi, PRIME64_1, n, z);
  }

  lemma LaneRound0()
    ensures Xxh64.Round(0xFF21A1A033AC8063, 0x24A332B79B925200) == 0x495AD4EE94AEB2A7
  {
    hide Xxh64.Round;
    RoundIs(0xFF21A1A033AC8063, 0x24A332B79B925200, 0x1BDD3ED8149E44EB, 0xA044DC223B6D4E00, 0x9F667DC26F19CE63, 0x4FB33EE1, 0x6F19CE63, 0x2255005E88A60355, 0x495AD4EE94AEB2A7);
  }

  lemma LaneRound1()
    ensures Xxh64.Round(0x60EA27EEADC0B5DC, 0x93B8EC0E95AF002D) == 0xEBEC773EDC82A347
  {
    hide Xxh64.Round;
    RoundIs(0x60EA27EEADC0B5DC, 0x93B8EC0E95AF002D, 0x70593E022A10E3E8, 0xE1BF7A93D66E5CE3, 0x42A9A282842F12BF, 0x2154D141, 0x842F12BF, 0x28D8D9427DE54B01, 0xEBEC773EDC82A347);
  }

  lemma LaneRound2()
    ensures Xxh64.Round(0x9E3779B185EBCA8D, 0x2ACDD6AA93EFDFE3) == 0xAF840A3746FE5CEB
  {
    hide Xxh64.Round;
    RoundIs(0x9E3779B185EBCA8D, 0x2ACDD6AA93EFDFE3, 0x208DDCEEA853B127, 0xE78A8548D687780D, 0x85C1FEFA5C73429A, 0x42E0FF7D, 0x5C73429A, 0x1C9195E8A224CB53, 0xAF840A3746FE5CEB);
  }

  lemma LaneRound3()
    ensures Xxh64.Round(0x6, 0xD56F5A543F5C8B53) == 0x2B5BC796DA508FCA
  {
    hide Xxh64.Round;
    RoundIs(0x6, 0xD56F5A543F5C8B53, 0xA2535B2552BB743A, 0x7E2964CD87302F9D, 0x7E2964CD87302FA3, 0x3F14B266, 0x187302FA3, 0x78E2415B17BB9A9E, 0x2B5BC796DA508FCA);
  }

  lemma StripeWords()
    ensures var s := Sanity(); Joined(s[0], s[1], s[2], s[3], s[4], s[5], s[6], s[7]) == 0x24A332B79B925200
    ensures var s := Sanity(); Joined(s[8], s[9], s[10], s[11], s[12], s[13], s[14], s[15]) == 0x93B8EC0E95AF002D
    ensures var s := Sanity(); Joined(s[16], s[17], s[18], s[19], s[20], s[21], s[22], s[23]) == 0x2ACDD6AA93EFDFE3
    ensures var s := Next(); Joined(s[0], s[1], s[2], s[3], s[4], s[5], s[6], s[7]) == 0xD56F5A543F5C8B53
  {

  }

  lemma StripeRead()
    ensures Read64(Stripe(), 0) == 0x24A332B79B925200
    ensures Read64(Stripe(), 8) == 0x93B8EC0E95AF002D
    ensures Read64(Stripe(), 16) == 0x2ACDD6AA93EFDFE3
    ensures Read64(Stripe(), 24) == 0xD56F5A543F5C8B53
  {
    hide Read64, Sanity, Next, Joined;
    ReadBytes(Stripe(), 0);
    ReadBytes(Stripe(), 8);
    ReadBytes(Stripe(), 16);
    ReadBytes(Stripe(), 24);
    StripeWords();
  }

  lemma LanesStepped()
    ensures Xxh64.Step(Xxh64.InitLanes(SEED), Stripe()) == [0x495AD4EE94AEB2A7, 0xEBEC773EDC82A347, 0xAF840A3746FE5CEB, 0x2B5BC796DA508FCA]
  {
    hide Xxh64.Round, Read64, Stripe;
    StripeRead();
    LaneRound0();
    LaneRound1();
    LaneRound2();
    LaneRound3();
  }

  lemma LaneTurned0()
    ensures Rotl64(0x495AD4EE94AEB2A7, 1) == 0x92B5A9DD295D654E
  {
    hide Rotl64, Pow2;
    Powers0();
    Powers3();
    RotationIs(0x495AD4EE94AEB2A7, 1, 0x2, 0x8000000000000000, 0x0, 0x495AD4EE94AEB2A7);
  }

  lemma LaneTurned1()
    ensures Rotl64(0xEBEC773EDC82A347, 7) == 0xF63B9F6E4151A3F5
  {
    hide Rotl64, Pow2;
    Powers0();
    Powers3();
    RotationIs(0xEBEC773EDC82A347, 7, 0x80, 0x200000000000000, 0x75, 0x1EC773EDC82A347);
  }

  lemma LaneTurned2()
    ensures Rotl64(0xAF840A3746FE5CEB, 12) == 0x40A3746FE5CEBAF8
  {
    hide Rotl64, Pow2;
    Powers0();
    Powers3();
    RotationIs(0xAF840A3746FE5CEB, 12, 0x1000, 0x10000000000000, 0xAF8, 0x40A3746FE5CEB);
  }

  lemma LaneTurned3()
    ensures Rotl64(0x2B5BC796DA508FCA, 18) == 0x1E5B69423F28AD6F
  {
    hide Rotl64, Pow2;
    Powers1();
    Powers2();
    RotationIs(0x2B5BC796DA508FCA, 18, 0x40000, 0x400000000000, 0xAD6F, 0x796DA508FCA);
  }

  lemma MergedRound0()
    ensures Xxh64.Round(0, 0x495AD4EE94AEB2A7) == 0x373E979185606C3
  {
    hide Xxh64.Round;
    RoundIs(0x0, 0x495AD4EE94AEB2A7, 0x37CA08721D5883D8, 0xA3E489CAA3346E89, 0xA3E489CAA3346E89, 0x51F244E5, 0xA3346E89, 0x326EDD08D3CCA739, 0x373E979185606C3);
  }

  lemma Merged0Xors()
    ensures Xor(0xE7F026FD8FA671AA, 0x373E979185606C3) == 0xE483CF8497F07769
  {
    hide Xor;
    Xors(0xE7F026FD8FA671AA, 0x373E979185606C3, 0xE7F026FD8FA671AA, 0x373E979185606C3, 0xE483CF8497F07769);
  }

  lemma Merged0()
    ensures Xxh64.MergeRound(0xE7F026FD8FA671AA, 0x495AD4EE94AEB2A7) == 0x961671A7CB1D80C2
  {
    hide Xor, Xxh64.Round, Xxh64.MergeRound, N;
    MergedRound0();
    Merged0Xors();
    MergeIs(0xE7F026FD8FA671AA, 0x495AD4EE94AEB2A7, 0x373E979185606C3, 0xE483CF8497F07769, 0x8D3ADF062F062972, 0x102AA730086AD25F, 0x961671A7CB1D80C2);
  }

  lemma MergedRound1()
    ensures Xxh64.Round(0, 0xEBEC773EDC82A347) == 0xC492A06A290844C3
  {
    hide Xxh64.Round;
    RoundIs(0x0, 0xEBEC773EDC82A347, 0xB36DDD5BA1EAB544, 0xDE8F2DCBFFFE8FE9, 0xDE8F2DCBFFFE8FE9, 0x6F4796E5, 0x1FFFE8FE9, 0x9E3707F2CFBC8734, 0xC492A06A290844C3);
  }

  lemma Merged1Xors()
    ensures Xor(0x961671A7CB1D80C2, 0xC492A06A290844C3) == 0x5284D1CDE215C401
  {
    hide Xor;
    Xors(0x961671A7CB1D80C2, 0xC492A06A290844C3, 0x961671A7CB1D80C2, 0xC492A06A290844C3, 0x5284D1CDE215C401);
  }

  lemma Merged1()
    ensures Xxh64.MergeRound(0x961671A7CB1D80C2, 0xEBEC773EDC82A347) == 0xBADEB8EF9AC0D4EA
  {
    hide Xor, Xxh64.Round, Xxh64.MergeRound, N;
    MergedRound1();
    Merged1Xors();
    MergeIs(0x961671A7CB1D80C2, 0xEBEC773EDC82A347, 0xC492A06A290844C3, 0x5284D1CDE215C401, 0x32FFDB4024EF6310, 0x34F2EE77D80E2687, 0xBADEB8EF9AC0D4EA);
  }

  lemma MergedRound2()
    ensures Xxh64.Round(0, 0xAF840A3746FE5CEB) == 0xF0C20638DA717095
  {
    hide Xxh64.Round;
    RoundIs(0x0, 0xAF840A3746FE5CEB, 0x857C9102AAF338EE, 0xBFE14E0627666585, 0xBFE14E0627666585, 0x5FF0A703, 0x27666585, 0xC2CDE318A4716D1, 0xF0C20638DA717095);
  }

  lemma Merged2Xors()
    ensures Xor(0xBADEB8EF9AC0D4EA, 0xF0C20638DA717095) == 0x4A1CBED740B1A47F
  {
    hide Xor;
    Xors(0xBADEB8EF9AC0D4EA, 0xF0C20638DA717095, 0xBADEB8EF9AC0D4EA, 0xF0C20638DA717095, 0x4A1CBED740B1A47F);
  }

  lemma Merged2()
    ensures Xxh64.MergeRound(0xBADEB8EF9AC0D4EA, 0xAF840A3746FE5CEB) == 0xB8BAB75E07C1A35C
  {
    hide Xor, Xxh64.Round, Xxh64.MergeRound, N;
    MergedRound2();
    Merged2Xors();
    MergeIs(0xBADEB8EF9AC0D4EA, 0xAF840A3746FE5CEB, 0xF0C20638DA717095, 0x4A1CBED740B1A47F, 0x2DCDCD30D5056C43, 0x32CEECE6450EF4F9, 0xB8BAB75E07C1A35C);
  }

  lemma MergedRound3()
    ensures Xxh64.Round(0, 0x2B5BC796DA508FCA) == 0x63E09E8535AFA97D
  {
    hide Xxh64.Round;
    RoundIs(0x0, 0x2B5BC796DA508FCA, 0x20F9D093D59AFB93, 0xBB1AB1B62C22CD56, 0xBB1AB1B62C22CD56, 0x5D8D58DB, 0x2C22CD56, 0xDA3859859A8AFAE, 0x63E09E8535AFA97D);
  }

  lemma Merged3Xors()
    ensures Xor(0xB8BAB75E07C1A35C, 0x63E09E8535AFA97D) == 0xDB5A29DB326E0A21
  {
    hide Xor;
    Xors(0xB8BAB75E07C1A35C, 0x63E09E8535AFA97D, 0xB8BAB75E07C1A35C, 0x63E09E8535AFA97D, 0xDB5A29DB326E0A21);
  }

  lemma Merged3()
    ensures Xxh64.MergeRound(0xB8BAB75E07C1A35C, 0x2B5BC796DA508FCA) == 0x10DEE2F1A0030FCA
  {
    hide Xor, Xxh64.Round, Xxh64.MergeRound, N;
    MergedRound3();
    Merged3Xors();
    MergeIs(0xB8BAB75E07C1A35C, 0x2B5BC796DA508FCA, 0x63E09E8535AFA97D, 0xDB5A29DB326E0A21, 0x87912E7A01172C54, 0x8AF31879DD506167, 0x10DEE2F1A0030FCA);
  }

  lemma Converged()
    ensures Xxh64.Converge([0x495AD4EE94AEB2A7, 0xEBEC773EDC82A347, 0xAF840A3746FE5CEB, 0x2B5BC796DA508FCA]) == 0x10DEE2F1A0030FCA
  {
    hide Rotl64, Xxh64.MergeRound;
    LaneTurned0();
    LaneTurned1();
    LaneTurned2();
    LaneTurned3();
    Merged0();
    Merged1();
    Merged2();
    Merged3();
  }

  lemma TailEight()
    ensures Read64(Tail(), 0) == 0x33B9858FFCFFC059
  {
    hide Read64;
    ReadBytes(Tail(), 0);
  }

  lemma EightRound()
    ensures Xxh64.Round(0, 0x33B9858FFCFFC059) == 0xEA43E87003764F6B
  {
    hide Xxh64.Round;
    RoundIs(0x0, 0x33B9858FFCFFC059, 0x2756B16A6FE0B363, 0x1C3331FBB1320E77, 0x1C3331FBB1320E77, 0xE1998FD, 0x1B1320E77, 0x85DD624DD7077AD9, 0xEA43E87003764F6B);
  }

  lemma EightXors()
    ensures Xor(0x10DEE2F1A0030FF9, 0xEA43E87003764F6B) == 0xFA9D0A81A3754092
  {
    hide Xor;
    Xors(0x10DEE2F1A0030FF9, 0xEA43E87003764F6B, 0x10DEE2F1A0030FF9, 0xEA43E87003764F6B, 0xFA9D0A81A3754092);
  }

  lemma Eight()
    ensures Xxh64.Process8(0x10DEE2F1A0030FF9, Tail()) == 0x16D365EABC677AAF
  {
    hide Xor, Xxh64.Round, Xxh64.Process8, Read64, Tail, N;
    TailEight();
    EightRound();
    EightXors();
    Process8Is(0x10DEE2F1A0030FF9, Tail(), 0xEA43E87003764F6B, 0xFA9D0A81A3754092, 0x7D4E854, 0x1A3754092, 0x819EA1B870A312A, 0x90E79B72F9B4CC4C, 0x16D365EABC677AAF);
  }

  lemma TailFour()
    ensures Read32(Tail()[8..], 0) == 0xF774AB1D
  {
    hide Read32;
    ReadHalf(Tail()[8..], 0);
  }

  lemma FourXors()
    ensures Xor(0x16D365EABC677AAF, 0x67398CD0B22A1E4B) == 0x71EAE93A0E4D64E4
  {
    hide Xor;
    Xors(0x16D365EABC677AAF, 0x67398CD0B22A1E4B, 0x16D365EABC677AAF, 0x67398CD0B22A1E4B, 0x71EAE93A0E4D64E4);
  }

  lemma Four()
    ensures Xxh64.Process4(0x16D365EABC677AAF, Tail()[8..]) == 0xD84DC0D1172CB4C5
  {
    hide Xor, Xxh64.Process4, Read32, Tail, N;
    TailFour();
    FourXors();
    Process4Is(0x16D365EABC677AAF, Tail()[8..], 0x98EFA14E, 0x67398CD0B22A1E4B, 0x71EAE93A0E4D64E4, 0x38F574, 0x13A0E4D64E4, 0x776D052C8212C8EB, 0xC1F7591F78F53ACC, 0xD84DC0D1172CB4C5);
  }

  lemma One0Xors()
    ensures Xor(0xD84DC0D1172CB4C5, 0x515F3379E16DC60E) == 0x8912F3A8F64172CB
  {
    hide Xor;
    Xors(0xD84DC0D1172CB4C5, 0x515F3379E16DC60E, 0xD84DC0D1172CB4C5, 0x515F3379E16DC60E, 0x8912F3A8F64172CB);
  }

  lemma One0()
    ensures Xxh64.Process1(0xD84DC0D1172CB4C5, 0xB6) == 0xB704E2C8DF3379F8
  {
    hide Xor, Xxh64.Process1, N;
    One0Xors();
    Process1Is(0xD84DC0D1172CB4C5, 0xB6, 0x1C, 0x515F3379E16DC60E, 0x8912F3A8F64172CB, 0x448, 0x12F3A8F64172CB, 0x5DB3ED1CC4595F68, 0xB704E2C8DF3379F8);
  }

  lemma One1Xors()
    ensures Xor(0xB704E2C8DF3379F8, 0xC72897EB6FB006D9) == 0x702C7523B0837F21
  {
    hide Xor;
    Xors(0xB704E2C8DF3379F8, 0xC72897EB6FB006D9, 0xB704E2C8DF3379F8, 0xC72897EB6FB006D9, 0x702C7523B0837F21);
  }

  lemma One1()
    ensures Xxh64.Process1(0xB704E2C8DF3379F8, 0x5) == 0xDE9ECC85D7D3DB07
  {
    hide Xor, Xxh64.Process1, N;
    One1Xors();
    Process1Is(0xB704E2C8DF3379F8, 0x5, 0x0, 0xC72897EB6FB006D9, 0x702C7523B0837F21, 0x381, 0xC7523B0837F21, 0x3D97F8ECEBA93896, 0xDE9ECC85D7D3DB07);
  }

  lemma One2Xors()
    ensures Xor(0xDE9ECC85D7D3DB07, 0xDF430C09D39D961F) == 0x1DDC08C044E4D18
  {
    hide Xor;
    Xors(0xDE9ECC85D7D3DB07, 0xDF430C09D39D961F, 0xDE9ECC85D7D3DB07, 0xDF430C09D39D961F, 0x1DDC08C044E4D18);
  }

  lemma One2()
    ensures Xxh64.Process1(0xDE9ECC85D7D3DB07, 0x93) == 0xA16EBA0E8FA25362
  {
    hide Xor, Xxh64.Process1, N;
    One2Xors();
    Process1Is(0xDE9ECC85D7D3DB07, 0x93, 0x16, 0xDF430C09D39D961F, 0x1DDC08C044E4D18, 0xE, 0x1DC08C044E4D18, 0x931A476B08FD7B31, 0xA16EBA0E8FA25362);
  }

  lemma TailMixedXors()
    ensures Xor(0xA16EBA0E8FA25362, 0x50B75D07) == 0xA16EBA0EDF150E65
    ensures Xor(0xD24B18117A5A282B, 0x69258C08B) == 0xD24B1817E802E8A0
    ensures Xor(0x731D96BCC527E3A0, 0x731D96BC) == 0x731D96BCB63A751C
  {
    hide Xor;
    Xors(0xA16EBA0E8FA25362, 0x50B75D07, 0xA16EBA0E8FA25362, 0x50B75D07, 0xA16EBA0EDF150E65);
    Xors(0xD24B18117A5A282B, 0x69258C08B, 0xD24B18117A5A282B, 0x69258C08B, 0xD24B1817E802E8A0);
    Xors(0x731D96BCC527E3A0, 0x731D96BC, 0x731D96BCC527E3A0, 0x731D96BC, 0x731D96BCB63A751C);
  }

  lemma TailMixed()
    ensures Avalanche64(0xA16EBA0E8FA25362) == 0x731D96BCB63A751C
  {
    hide Xor, Avalanche64, N;
    TailMixedXors();
    Avalanche64Is(0xA16EBA0E8FA25362, 0x50B75D07, 0xA16EBA0EDF150E65, 0x7AC695DC765BA524, 0xD24B18117A5A282B, 0x69258C08B, 0xD24B1817E802E8A0, 0x12596E7A448D630B, 0x731D96BCC527E3A0, 0x731D96BC, 0x731D96BCB63A751C);
  }

  /** The words and bytes of a tail in turn. */
  lemma FinalSteps(t: seq<byte>, h: u64, h1: u64, h2: u64, h3: u64, h4: u64, h5: u64)
    requires |t| == 15 && h1 == Xxh64.Process8(h, t) && h2 == Xxh64.Process4(h1, t[8..])
    requires h3 == Xxh64.Process1(h2, t[12]) && h4 == Xxh64.Process1(h3, t[13]) && h5 == Xxh64.Process1(h4, t[14])
    requires t[8..][4..] == t[12..] && t[12..][1..] == t[13..] && t[13..][1..] == t[14..] && t[14..][1..] == []
    ensures Xxh64.Finalize(h, t) == Avalanche64(h5)
  {
    hide Xxh64.Process8, Xxh64.Process4, Xxh64.Process1, Avalanche64;
    assert Xxh64.Finalize(h5, []) == Avalanche64(h5);
    assert Xxh64.Finalize(h4, t[14..]) == Xxh64.Finalize(h5, []);
    assert Xxh64.Finalize(h3, t[13..]) == Xxh64.Finalize(h4, t[14..]);
    assert Xxh64.Finalize(h2, t[12..]) == Xxh64.Finalize(h3, t[13..]);
    assert Xxh64.Finalize(h1, t[8..]) == Xxh64.Finalize(h2, t[12..]);
  }

  lemma Finalized()
    ensures Xxh64.Finalize(0x10DEE2F1A0030FF9, Tail()) == 0x731D96BCB63A751C
  {
    hide Xxh64.Finalize, Xxh64.Process8, Xxh64.Process4, Xxh64.Process1, Avalanche64, Tail;
    TailParts();
    Eight();
    Four();
    One0();
    One1();
    One2();
    TailMixed();
    FinalSteps(Tail(), 0x10DEE2F1A0030FF9, 0x16D365EABC677AAF, 0xD84DC0D1172CB4C5, 0xB704E2C8DF3379F8, 0xDE9ECC85D7D3DB07, 0xA16EBA0E8FA25362);
  }

  lemma Long64()
    ensures Xxh64.Hash(Stripe() + Tail(), SEED) == 0x731D96BCB63A751C
  {
    hide Xxh64.Step, Xxh64.InitLanes, Xxh64.Converge, Xxh64.Finalize, Stripe, Tail;
    LanesStepped();
    Converged();
    Finalized();
    var input := Stripe() + Tail();
    assert input[0..32] == Stripe() && input[32..] == Tail();
    assert Xxh64.Steps(Xxh64.InitLanes(SEED), input, 0) == Xxh64.InitLanes(SEED);
  }
}

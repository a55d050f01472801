/** XXH3 on inputs of up to 24 bytes, worked out with a seed: what fixes its
    constants, key positions and rotations. */
module Xxh3Digests {
  import opened Words
  import opened Literals
  import opened Xxh3Mix
  import opened DigestSteps

  lemma EmptyMixedXors()
    ensures Xor(0x191180A1D829D751, 0xC88C050) == 0x191180A1D4A11701
    ensures Xor(0xE39B0945B1A8044F, 0x71CD84A2D) == 0xE39B0942AD704E62
    ensures Xor(0xA8A6B9181A568F52, 0xA8A6B918) == 0xA8A6B918B2F0364A
  {
    hide Xor;
    Xors(0x191180A1D829D751, 0xC88C050, 0x191180A1D829D751, 0xC88C050, 0x191180A1D4A11701);
    Xors(0xE39B0945B1A8044F, 0x71CD84A2D, 0xE39B0945B1A8044F, 0x71CD84A2D, 0xE39B0942AD704E62);
    Xors(0xA8A6B9181A568F52, 0xA8A6B918, 0xA8A6B9181A568F52, 0xA8A6B918, 0xA8A6B918B2F0364A);
  }

  lemma EmptyMixed()
    ensures Avalanche64(0x191180A1D829D751) == 0xA8A6B918B2F0364A
  {
    hide Xor, Avalanche64, N;
    EmptyMixedXors();
    Avalanche64Is(0x191180A1D829D751, 0xC88C050, 0x191180A1D4A11701, 0x1310C2B5F62814A7, 0xE39B0945B1A8044F, 0x71CD84A2D, 0xE39B0942AD704E62, 0x13DC251222E427D0, 0xA8A6B9181A568F52, 0xA8A6B918, 0xA8A6B918B2F0364A);
  }

  lemma EmptyXors()
    ensures Xor(0x4C263A81E69035E0, 0xCB00C391BB52283C) == 0x8726F9105DC21DDC
    ensures Xor(0x9E3779B185EBCA8D, 0x8726F9105DC21DDC) == 0x191180A1D829D751
  {
    hide Xor;
    Xors(0x4C263A81E69035E0, 0xCB00C391BB52283C, 0x4C263A81E69035E0, 0xCB00C391BB52283C, 0x8726F9105DC21DDC);
    Xors(0x9E3779B185EBCA8D, 0x8726F9105DC21DDC, 0x9E3779B185EBCA8D, 0x8726F9105DC21DDC, 0x191180A1D829D751);
  }

  lemma Empty()
    ensures HashShort([], KSecret(), SEED) == 0xA8A6B918B2F0364A
  {
    hide Avalanche64, Xor, Read64, KSecret, N;
    SecretPart2();
    EmptyXors();
    EmptyMixed();
  }

  lemma ThreeMixedXors()
    ensures Xor(0x9E3779B25F1326BA, 0x4F1BBCD9) == 0x9E3779B210089A63
    ensures Xor(0xB18DACE6C75C858D, 0x58C6D6736) == 0xB18DACE34B31E2BB
    ensures Xor(0x634B8990D7DCEAE3, 0x634B8990) == 0x634B8990B4976373
  {
    hide Xor;
    Xors(0x9E3779B25F1326BA, 0x4F1BBCD9, 0x9E3779B25F1326BA, 0x4F1BBCD9, 0x9E3779B210089A63);
    Xors(0xB18DACE6C75C858D, 0x58C6D6736, 0xB18DACE6C75C858D, 0x58C6D6736, 0xB18DACE34B31E2BB);
    Xors(0x634B8990D7DCEAE3, 0x634B8990, 0x634B8990D7DCEAE3, 0x634B8990, 0x634B8990B4976373);
  }

  lemma ThreeMixed()
    ensures Avalanche64(0x9E3779B25F1326BA) == 0x634B8990B4976373
  {
    hide Xor, Avalanche64, N;
    ThreeMixedXors();
    Avalanche64Is(0x9E3779B25F1326BA, 0x4F1BBCD9, 0x9E3779B210089A63, 0x7854787B0E82BC36, 0xB18DACE6C75C858D, 0x58C6D6736, 0xB18DACE34B31E2BB, 0xF7E1A5ECE117363, 0x634B8990D7DCEAE3, 0x634B8990, 0x634B8990B4976373);
  }

  lemma StartHalves()
    ensures var k := KSecret0(); Quarter(k[0], k[1], k[2], k[3]) == 0x396CFEB8 && Quarter(k[4], k[5], k[6], k[7]) == 0xBE4BA423
  {

  }

  lemma StartRead()
    ensures Read32(KSecret(), 0) == 0x396CFEB8 && Read32(KSecret(), 4) == 0xBE4BA423
  {
    hide Read32, KSecret, KSecret0, Quarter;
    SecretStarts();
    ReadHalf(KSecret(), 0);
    ReadHalf(KSecret(), 4);
    StartHalves();
  }

  lemma ThreePacked()
    ensures Combined(Sanity()[..3]) == 0x52000392
  {

  }

  lemma ThreeXors()
    ensures Xor(0x396CFEB8, 0xBE4BA423) == 0x87275A9B
    ensures Xor(0x52000392, 0x9E3779B20D132528) == 0x9E3779B25F1326BA
  {
    hide Xor;
    Xors(0x396CFEB8, 0xBE4BA423, 0x396CFEB8, 0xBE4BA423, 0x87275A9B);
    Xors(0x52000392, 0x9E3779B20D132528, 0x52000392, 0x9E3779B20D132528, 0x9E3779B25F1326BA);
  }

  lemma Three()
    ensures HashShort(Sanity()[..3], KSecret(), SEED) == 0x634B8990B4976373
  {
    hide Avalanche64, Xor, Read32, KSecret, Combined, Sanity, N;
    StartRead();
    ThreePacked();
    ThreeXors();
    ThreeMixed();
  }

  lemma SixMixedXors()
    ensures Xor(0x210E515E9A80E56D, 0x4072B6908728AF4D) == 0x617CE7CE1DA84A20
    ensures Xor(0x28AF4D4072B69087, 0x617CE7CE1DA84A20) == 0x49D3AA8E6F1EDAA7
    ensures Xor(0xFAF5D93655151323, 0x1F5EBB2C) == 0xFAF5D9364A4BA80F
    ensures Xor(0x84589C192F3C5B2B, 0x84589C192) == 0x84589C116AB59AB9
  {
    hide Xor;
    Xors(0x210E515E9A80E56D, 0x4072B6908728AF4D, 0x210E515E9A80E56D, 0x4072B6908728AF4D, 0x617CE7CE1DA84A20);
    Xors(0x28AF4D4072B69087, 0x617CE7CE1DA84A20, 0x28AF4D4072B69087, 0x617CE7CE1DA84A20, 0x49D3AA8E6F1EDAA7);
    Xors(0xFAF5D93655151323, 0x1F5EBB2C, 0xFAF5D93655151323, 0x1F5EBB2C, 0xFAF5D9364A4BA80F);
    Xors(0x84589C192F3C5B2B, 0x84589C192, 0x84589C192F3C5B2B, 0x84589C192, 0x84589C116AB59AB9);
  }

  lemma SixMixed()
    ensures Rrmxmx(0x28AF4D4072B69087, 6) == 0x84589C116AB59AB9
  {
    hide Xor, Rrmxmx, N;
    SixMixedXors();
    RrmxmxIs(0x28AF4D4072B69087, 0x6, 0x515E9A80E56D, 0x1087, 0x28AF4D, 0x4072B69087, 0x617CE7CE1DA84A20, 0x49D3AA8E6F1EDAA7, 0x2E0DD44B5E0A2F9E, 0xFAF5D93655151323, 0x1F5EBB26, 0xFAF5D9364A4BA80F, 0x9C8D4CAFC4A3F4B5, 0x84589C192F3C5B2B, 0x84589C192, 0x84589C116AB59AB9);
  }

  lemma SixSeed()
    ensures Swap32(Lo32(SEED)) == 0x8DCAEB85
  {
    hide Swap32;
    TurnedHalves(0x8D, 0xCA, 0xEB, 0x85);
  }

  lemma SixRead()
    ensures Read32(Sanity()[..6], 0) == 0x9B925200
    ensures Read32(Sanity()[..6], 2) == 0x32B79B92
  {
    hide Read32;
    ReadHalf(Sanity()[..6], 0);
    ReadHalf(Sanity()[..6], 2);
  }

  lemma SixXors()
    ensures Xor(0x9E3779B185EBCA8D, 0x8DCAEB8500000000) == 0x13FD923485EBCA8D
    ensures Xor(0x1CAD21F72C81017C, 0xDB979083E96DD4DE) == 0xC73AB174C5ECD5A2
    ensures Xor(0x9B92520032B79B92, 0xB33D1F4040010B15) == 0x28AF4D4072B69087
  {
    hide Xor;
    Xors(0x9E3779B185EBCA8D, 0x8DCAEB8500000000, 0x9E3779B185EBCA8D, 0x8DCAEB8500000000, 0x13FD923485EBCA8D);
    Xors(0x1CAD21F72C81017C, 0xDB979083E96DD4DE, 0x1CAD21F72C81017C, 0xDB979083E96DD4DE, 0xC73AB174C5ECD5A2);
    Xors(0x9B92520032B79B92, 0xB33D1F4040010B15, 0x9B92520032B79B92, 0xB33D1F4040010B15, 0x28AF4D4072B69087);
  }

  lemma Six()
    ensures HashShort(Sanity()[..6], KSecret(), SEED) == 0x84589C116AB59AB9
  {
    hide Rrmxmx, Xor, Read32, Read64, Swap32, Sanity, KSecret, N;
    SecretPart0();
    SixRead();
    SixSeed();
    SixXors();
    SixMixed();
  }

  lemma TwelveMixedXors()
    ensures Xor(0x204112D559F9356B, 0x1020896) == 0x204112D558FB3DFD
    ensures Xor(0xE7303E1BC406E015, 0xE7303E1B) == 0xE7303E1B2336DE0E
  {
    hide Xor;
    Xors(0x204112D559F9356B, 0x1020896, 0x204112D559F9356B, 0x1020896, 0x204112D558FB3DFD);
    Xors(0xE7303E1BC406E015, 0xE7303E1B, 0xE7303E1BC406E015, 0xE7303E1B, 0xE7303E1B2336DE0E);
  }

  lemma TwelveMixed()
    ensures Avalanche3(0x204112D559F9356B) == 0xE7303E1B2336DE0E
  {
    hide Xor, Avalanche3, N;
    TwelveMixedXors();
    Avalanche3Is(0x204112D559F9356B, 0x1020896, 0x204112D558FB3DFD, 0x2D07A8730B02457, 0xE7303E1BC406E015, 0xE7303E1B, 0xE7303E1B2336DE0E);
  }

  lemma TwelveRead()
    ensures Read64(Sanity()[..12], 0) == 0x24A332B79B925200
    ensures Read64(Sanity()[..12], 4) == 0x95AF002D24A332B7
  {
    hide Read64;
    ReadBytes(Sanity()[..12], 0);
    ReadBytes(Sanity()[..12], 4);
  }

  lemma TwelveTurned()
    ensures Swap64(0x211ADF9AEBBC5646) == 0x4656BCEB9ADF1A21
  {
    hide Swap64;
    TurnedWords(0x46, 0x56, 0xBC, 0xEB, 0x9A, 0xDF, 0x1A, 0x21);
  }

  lemma TwelveKeys()
    ensures Xor(0x1F67B3B7A4A44072, 0x78E5C0CC4EE679CB) == 0x6782737BEA4239B9
    ensures Xor(0x2172FFCC7DD05A82, 0x8E2443F7744608B8) == 0xAF56BC3B0996523A
    ensures Xor(0x24A332B79B925200, 0x5B9ED2D702E0446) == 0x211ADF9AEBBC5646
    ensures Xor(0x95AF002D24A332B7, 0x111F428983AA87AD) == 0x84B042A4A709B51A
  {
    hide Xor;
    Xors(0x1F67B3B7A4A44072, 0x78E5C0CC4EE679CB, 0x1F67B3B7A4A44072, 0x78E5C0CC4EE679CB, 0x6782737BEA4239B9);
    Xors(0x2172FFCC7DD05A82, 0x8E2443F7744608B8, 0x2172FFCC7DD05A82, 0x8E2443F7744608B8, 0xAF56BC3B0996523A);
    Xors(0x24A332B79B925200, 0x5B9ED2D702E0446, 0x24A332B79B925200, 0x5B9ED2D702E0446, 0x211ADF9AEBBC5646);
    Xors(0x95AF002D24A332B7, 0x111F428983AA87AD, 0x95AF002D24A332B7, 0x111F428983AA87AD, 0x84B042A4A709B51A);
  }

  lemma TwelveFoldXors()
    ensures Xor(0x4412B526CC96411C, 0x1128A663D4862738) == 0x553A134518106624
  {
    hide Xor;
    Xors(0x4412B526CC96411C, 0x1128A663D4862738, 0x4412B526CC96411C, 0x1128A663D4862738, 0x553A134518106624);
  }

  lemma TwelveFold()
    ensures Mul128Fold64(0x211ADF9AEBBC5646, 0x84B042A4A709B51A) == 0x553A134518106624
  {
    hide Xor, Mul128Fold64, N;
    TwelveFoldXors();
    FoldIs(0x211ADF9AEBBC5646, 0x84B042A4A709B51A, 0x4412B526CC96411C, 0x1128A663D4862738, 0x553A134518106624);
  }

  lemma Twelve()
    ensures HashShort(Sanity()[..12], KSecret(), SEED) == 0xE7303E1B2336DE0E
  {
    hide Avalanche3, Xor, Read64, Swap64, Mul128Fold64, Sanity, KSecret;
    SecretPart1();
    SecretPart2();
    TwelveRead();
    TwelveKeys();
    TwelveFold();
    TwelveTurned();
    TwelveMixed();
  }

  lemma FirstMixWords()
    ensures var s := Sanity(); Joined(s[0], s[1], s[2], s[3], s[4], s[5], s[6], s[7]) == 0x24A332B79B925200 && Joined(s[8], s[9], s[10], s[11], s[12], s[13], s[14], s[15]) == 0x93B8EC0E95AF002D
  {

  }

  lemma FirstMixRead()
    ensures Read64(Sanity(), 0) == 0x24A332B79B925200
    ensures Read64(Sanity(), 8) == 0x93B8EC0E95AF002D
  {
    hide Read64, Sanity, Joined;
    ReadBytes(Sanity(), 0);
    ReadBytes(Sanity(), 8);
    FirstMixWords();
  }

  lemma FirstMixXors()
    ensures Xor(0x24A332B79B925200, 0x5C831DD4BF58C945) == 0x78202F6324CA9B45
    ensures Xor(0x93B8EC0E95AF002D, 0x7E75A845A69536EF) == 0xEDCD444B333A36C2
    ensures Xor(0x1F0856F18AEC384A, 0x6F961DB09181FA3C) == 0x709E4B411B6DC276
  {
    hide Xor;
    Xors(0x24A332B79B925200, 0x5C831DD4BF58C945, 0x24A332B79B925200, 0x5C831DD4BF58C945, 0x78202F6324CA9B45);
    Xors(0x93B8EC0E95AF002D, 0x7E75A845A69536EF, 0x93B8EC0E95AF002D, 0x7E75A845A69536EF, 0xEDCD444B333A36C2);
    Xors(0x1F0856F18AEC384A, 0x6F961DB09181FA3C, 0x1F0856F18AEC384A, 0x6F961DB09181FA3C, 0x709E4B411B6DC276);
  }

  lemma FirstMix()
    ensures Mix16B(Sanity(), 0, KSecret(), 0, SEED) == 0x709E4B411B6DC276
  {
    hide Mix16B, Xor, Read64, Sanity, KSecret, N;
    SecretPart0();
    SecretPart1();
    FirstMixRead();
    FirstMixXors();
    MixIs(Sanity(), 0, KSecret(), 0, SEED, 0x78202F6324CA9B45, 0xEDCD444B333A36C2, 0x1F0856F18AEC384A, 0x6F961DB09181FA3C, 0x709E4B411B6DC276);
  }

  lemma LastMixWords()
    ensures var s := Sanity(); Joined(s[8], s[9], s[10], s[11], s[12], s[13], s[14], s[15]) == 0x93B8EC0E95AF002D && Joined(s[16], s[17], s[18], s[19], s[20], s[21], s[22], s[23]) == 0x2ACDD6AA93EFDFE3
  {

  }

  lemma LastMixRead()
    ensures Read64(Sanity(), 8) == 0x93B8EC0E95AF002D
    ensures Read64(Sanity(), 16) == 0x2ACDD6AA93EFDFE3
  {
    hide Read64, Sanity, Joined;
    ReadBytes(Sanity(), 8);
    ReadBytes(Sanity(), 16);
    LastMixWords();
  }

  lemma LastMixXors()
    ensures Xor(0x93B8EC0E95AF002D, 0x79CF0A356F599F6B) == 0xEA77E63BFAF69F46
    ensures Xor(0x2ACDD6AA93EFDFE3, 0x81303A061EB875E5) == 0xABFDECAC8D57AA06
    ensures Xor(0x8804E4A1565637A4, 0x9D86A80D2C2C120E) == 0x15824CAC7A7A25AA
  {
    hide Xor;
    Xors(0x93B8EC0E95AF002D, 0x79CF0A356F599F6B, 0x93B8EC0E95AF002D, 0x79CF0A356F599F6B, 0xEA77E63BFAF69F46);
    Xors(0x2ACDD6AA93EFDFE3, 0x81303A061EB875E5, 0x2ACDD6AA93EFDFE3, 0x81303A061EB875E5, 0xABFDECAC8D57AA06);
    Xors(0x8804E4A1565637A4, 0x9D86A80D2C2C120E, 0x8804E4A1565637A4, 0x9D86A80D2C2C120E, 0x15824CAC7A7A25AA);
  }

  lemma LastMix()
    ensures Mix16B(Sanity(), 8, KSecret(), 16, SEED) == 0x15824CAC7A7A25AA
  {
    hide Mix16B, Xor, Read64, Sanity, KSecret, N;
    SecretPart0();
    SecretPart1();
    LastMixRead();
    LastMixXors();
    MixIs(Sanity(), 8, KSecret(), 16, SEED, 0xEA77E63BFAF69F46, 0xABFDECAC8D57AA06, 0x8804E4A1565637A4, 0x9D86A80D2C2C120E, 0x15824CAC7A7A25AA);
  }

  lemma FullMixedXors()
    ensures Xor(0x5B5400922402E4C8, 0x2DAA004) == 0x5B54009226D844CC
    ensures Xor(0x850E80FCB0B3566C, 0x850E80FC) == 0x850E80FC35BDD690
  {
    hide Xor;
    Xors(0x5B5400922402E4C8, 0x2DAA004, 0x5B5400922402E4C8, 0x2DAA004, 0x5B54009226D844CC);
    Xors(0x850E80FCB0B3566C, 0x850E80FC, 0x850E80FCB0B3566C, 0x850E80FC, 0x850E80FC35BDD690);
  }

  lemma FullMixed()
    ensures Avalanche3(0x5B5400922402E4C8) == 0x850E80FC35BDD690
  {
    hide Xor, Avalanche3, N;
    FullMixedXors();
    Avalanche3Is(0x5B5400922402E4C8, 0x2DAA004, 0x5B54009226D844CC, 0x7F80B377FB065E3, 0x850E80FCB0B3566C, 0x850E80FC, 0x850E80FC35BDD690);
  }

  lemma Full()
    ensures HashShort(Sanity(), KSecret(), SEED) == 0x850E80FC35BDD690
  {
    hide Avalanche3, Mix16B, Sanity, KSecret;
    FirstMix();
    LastMix();
    FullMixed();
  }
}

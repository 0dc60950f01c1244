/** Published checksums of xxHash-64 with seed 0, worked out operation by operation. */
module XxPublished {
  import opened Arith
  import opened XxHash
  import opened XxReference

  lemma {:induction false} Letters()
    ensures Byte(32) == 32 && Byte(49) == 49 && Byte(50) == 50 && Byte(51) == 51 && Byte(52) == 52 &&
      Byte(53) == 53 && Byte(54) == 54 && Byte(55) == 55
    ensures Byte(56) == 56 && Byte(57) == 57 && Byte(78) == 78 && Byte(97) == 97 && Byte(98) == 98 &&
      Byte(99) == 99 && Byte(100) == 100 && Byte(101) == 101
    ensures Byte(104) == 104 && Byte(105) == 105 && Byte(109) == 109 && Byte(110) == 110 && Byte(111) == 111 &&
      Byte(112) == 112 && Byte(114) == 114 && Byte(115) == 115
    ensures Byte(116) == 116 && Byte(121) == 121
  {
  }

  lemma {:induction false} Halves()
    ensures HalfWord([49, 50, 51, 52]) == 0x34333231
    ensures HalfWord([53, 54, 55, 56]) == 0x38373635
    ensures HalfWord([78, 111, 98, 111]) == 0x6f626f4e
    ensures HalfWord([100, 121, 32, 105]) == 0x69207964
    ensures HalfWord([110, 115, 112, 101]) == 0x6570736e
    ensures HalfWord([99, 116, 115, 32]) == 0x20737463
    ensures HalfWord([116, 104, 101, 32]) == 0x20656874
    ensures HalfWord([115, 112, 97, 109]) == 0x6d617073
    ensures HalfWord([109, 105, 115, 104]) == 0x6873696d
    ensures HalfWord([32, 114, 101, 112]) == 0x70657220
    ensures HalfWord([101, 116, 105, 116]) == 0x74697465
  {
    hide Byte;
    Letters();
  }

  lemma {:induction false} DigitWord()
    ensures Word([49, 50, 51, 52, 53, 54, 55, 56]) == 0x3837363534333231
  {
    hide HalfWord;
    var s: seq<byte> := [49, 50, 51, 52, 53, 54, 55, 56];
    Halves();
    assert s[4..] == [53, 54, 55, 56];
    SameHalf(s, [49, 50, 51, 52]);
  }

  lemma {:induction false} NobodyWord0()
    ensures Word([78, 111, 98, 111, 100, 121, 32, 105]) == 0x692079646f626f4e
  {
    hide HalfWord;
    var s: seq<byte> := [78, 111, 98, 111, 100, 121, 32, 105];
    Halves();
    assert s[4..] == [100, 121, 32, 105];
    SameHalf(s, [78, 111, 98, 111]);
  }

  lemma {:induction false} NobodyWord1()
    ensures Word([110, 115, 112, 101, 99, 116, 115, 32]) == 0x207374636570736e
  {
    hide HalfWord;
    var s: seq<byte> := [110, 115, 112, 101, 99, 116, 115, 32];
    Halves();
    assert s[4..] == [99, 116, 115, 32];
    SameHalf(s, [110, 115, 112, 101]);
  }

  lemma {:induction false} NobodyWord2()
    ensures Word([116, 104, 101, 32, 115, 112, 97, 109]) == 0x6d61707320656874
  {
    hide HalfWord;
    var s: seq<byte> := [116, 104, 101, 32, 115, 112, 97, 109];
    Halves();
    assert s[4..] == [115, 112, 97, 109];
    SameHalf(s, [116, 104, 101, 32]);
  }

  lemma {:induction false} NobodyWord3()
    ensures Word([109, 105, 115, 104, 32, 114, 101, 112]) == 0x706572206873696d
  {
    hide HalfWord;
    var s: seq<byte> := [109, 105, 115, 104, 32, 114, 101, 112];
    Halves();
    assert s[4..] == [32, 114, 101, 112];
    SameHalf(s, [109, 105, 115, 104]);
  }

  lemma {:induction false} CheckRound()
    ensures Round(0x0, 0x3837363534333231) == 0xa3faddce22e40bb1
  {
  }

  lemma {:induction false} CheckWord(s: seq<byte>)
    requires |s| == 9 && s[..8] == [49, 50, 51, 52, 53, 54, 55, 56]
    ensures MixWord(0x27d4eb2f165667ce, s) == 0x37f5a72920d0be4
  {
    hide Word, Round;
    DigitWord();
    SameWord(s, [49, 50, 51, 52, 53, 54, 55, 56]);
    CheckRound();
  }

  lemma {:induction false} CheckByte()
    ensures MixByte(0x37f5a72920d0be4, 57) == 0xe200a906fce72c58
  {
    hide Byte;
    Letters();
  }

  lemma {:induction false} CheckEnd()
    ensures Avalanche(0xe200a906fce72c58) == 0x8cb841db40e6ae83
  {
  }

  lemma {:induction false} CheckTail(s: seq<byte>)
    requires s == [49, 50, 51, 52, 53, 54, 55, 56, 57]
    ensures MixTail(0x27d4eb2f165667ce, s) == 0xe200a906fce72c58
  {
    hide MixWord, MixByte;
    assert s[..8] == [49, 50, 51, 52, 53, 54, 55, 56] && s[8..] == [57];
    CheckWord(s);
    CheckByte();
    OneByte(0x37f5a72920d0be4, 57);
  }

  lemma {:induction false} CheckBegin()
    ensures Begin(INIT, 9) == 0x27d4eb2f165667ce
  {
    hide Length, Converge;
    LengthIs(9, 9);
  }

  /** "123456789": a word and a byte. */
  lemma {:induction false} CheckValue()
    ensures Hash(Stripe, INIT, [49, 50, 51, 52, 53, 54, 55, 56, 57]) == 0x8cb841db40e6ae83
  {
    hide MixTail, Avalanche, Begin, Stripe, Word, Byte;
    var s: seq<byte> := [49, 50, 51, 52, 53, 54, 55, 56, 57];
    CutIsUnique([], s);
    assert [] + s == s;
    CheckBegin();
    CheckTail(s);
    CheckEnd();
  }

  lemma {:induction false} OneByte(h: bv64, b: byte)
    ensures MixTail(h, [b]) == MixByte(h, b)
  {
    hide MixByte;
    assert [b][1..] == [];
    assert MixBytes(MixByte(h, b), []) == MixByte(h, b);
  }

  lemma {:induction false} LengthIs(n: nat, w: bv64)
    requires n < WRAP && n as bv64 == w
    ensures Length(n) == w
  {
  }

  lemma {:induction false} NobodyRounds()
    ensures Round(0x60ea27eeadc0b5d6, 0x692079646f626f4e) == 0x37245127a4067e4b
    ensures Round(0xc2b2ae3d27d4eb4f, 0x207374636570736e) == 0x1b302b0a818f92cf
    ensures Round(0x0, 0x6d61707320656874) == 0xcd62d843d0580fca
    ensures Round(0x61c8864e7a143579, 0x706572206873696d) == 0x1c16e43ef2142a4a
  {
  }

  /** The accumulators after the first 32 bytes. */
  lemma {:induction false} NobodyStripe(s: seq<byte>)
    requires s == [78, 111, 98, 111, 100, 121, 32, 105, 110, 115, 112, 101, 99, 116, 115, 32, 116, 104, 101, 32, 115,
      112, 97, 109, 109, 105, 115, 104, 32, 114, 101, 112]
    ensures Stripe(INIT, s) == Acc(0x37245127a4067e4b, 0x1b302b0a818f92cf, 0xcd62d843d0580fca, 0x1c16e43ef2142a4a)
  {
    hide Word, Round;
    NobodyWord0();
    SameWord(s[0..], [78, 111, 98, 111, 100, 121, 32, 105]);
    NobodyWord1();
    SameWord(s[8..], [110, 115, 112, 101, 99, 116, 115, 32]);
    NobodyWord2();
    SameWord(s[16..], [116, 104, 101, 32, 115, 112, 97, 109]);
    NobodyWord3();
    SameWord(s[24..], [109, 105, 115, 104, 32, 114, 101, 112]);
    NobodyRounds();
  }

  lemma {:induction false} NobodyMerges()
    ensures MergeRound(0xc4de2ce639fb8154, 0x37245127a4067e4b) == 0x30d40ddd00aea144
    ensures MergeRound(0x30d40ddd00aea144, 0x1b302b0a818f92cf) == 0xe5a1f095bf498698
    ensures MergeRound(0xe5a1f095bf498698, 0xcd62d843d0580fca) == 0xf9cee721e748096d
    ensures MergeRound(0xf9cee721e748096d, 0x1c16e43ef2142a4a) == 0x84f22c421a11a8b5
  {
  }

  lemma {:induction false} NobodyLanes()
    ensures Converge(Acc(0x37245127a4067e4b, 0x1b302b0a818f92cf, 0xcd62d843d0580fca,
      0x1c16e43ef2142a4a)) == 0x84f22c421a11a8b5
  {
    hide MergeRound;
    NobodyMerges();
  }

  lemma {:induction false} NobodyHalf(s: seq<byte>)
    requires s == [101, 116, 105, 116, 105, 111, 110]
    ensures MixHalf(0x84f22c421a11a8dc, s) == 0x9fca0f5d0aaa110f
  {
    hide HalfWord;
    Halves();
    SameHalf(s, [101, 116, 105, 116]);
  }

  lemma {:induction false} NobodyBytes()
    ensures MixByte(0x9fca0f5d0aaa110f, 105) == 0x769671546f21ba14
    ensures MixByte(0x769671546f21ba14, 111) == 0xeae9b643c5f94e52
    ensures MixByte(0xeae9b643c5f94e52, 110) == 0x1d0a47483b37cc24
  {
    hide Byte;
    Letters();
  }

  lemma {:induction false} NobodyEnd()
    ensures Avalanche(0x1d0a47483b37cc24) == 0xfbcea83c8a378bf1
  {
  }

  lemma {:induction false} NobodyTail()
    ensures MixTail(0x84f22c421a11a8dc, [101, 116, 105, 116, 105, 111, 110]) == 0x1d0a47483b37cc24
  {
    hide MixHalf, MixByte;
    var s: seq<byte> := [101, 116, 105, 116, 105, 111, 110];
    assert s[4..] == [105, 111, 110] && s[4..][1..] == [111, 110] && [111, 110][1..] == [110] && [110][1..] == [];
    NobodyHalf(s);
    NobodyBytes();
  }

  /** "Nobody inspects the spammish repetition": a stripe, a half word and three bytes. */
  lemma {:induction false} NobodyValue()
    ensures Hash(Stripe, INIT,
      [78, 111, 98, 111, 100, 121, 32, 105, 110, 115, 112, 101, 99, 116, 115, 32, 116, 104, 101, 32, 115, 112, 97,
        109, 109, 105, 115, 104, 32, 114, 101, 112] +
      [101, 116, 105, 116, 105, 111, 110]) == 0xfbcea83c8a378bf1
  {
    hide Stripe, MixTail, Avalanche, Converge, Length;
    var a: seq<byte>, b: seq<byte> := [78, 111, 98, 111, 100, 121, 32, 105, 110, 115, 112, 101, 99, 116, 115, 32, 116,
      104, 101, 32, 115, 112, 97, 109, 109, 105, 115, 104, 32, 114, 101, 112], [101, 116, 105, 116, 105, 111, 110];
    CutIsUnique(a, b);
    FoldOne(Stripe, INIT, a);
    NobodyStripe(a);
    NobodyLanes();
    LengthIs(39, 39);
    NobodyTail();
    NobodyEnd();
  }
}

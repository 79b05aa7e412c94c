/** The example of FIPS 180 for one block: the digest of "abc", round by round. */
module Sha1Example {
  import opened Texts
  import opened Sha1Standard

  const ABC: seq<byte> := [0x61, 0x62, 0x63]

  // ----------------------------------------------------------- schedule

  predicate Words0(p: seq<byte>)
    requires |p| == 64
  {
    && W(p, 0) == 0x61626380 && W(p, 1) == 0x00000000 && W(p, 2) == 0x00000000 && W(p, 3) == 0x00000000
    && W(p, 4) == 0x00000000 && W(p, 5) == 0x00000000 && W(p, 6) == 0x00000000 && W(p, 7) == 0x00000000
    && W(p, 8) == 0x00000000 && W(p, 9) == 0x00000000 && W(p, 10) == 0x00000000 && W(p, 11) == 0x00000000
    && W(p, 12) == 0x00000000 && W(p, 13) == 0x00000000 && W(p, 14) == 0x00000000 && W(p, 15) == 0x00000018
  }

  predicate Words16(p: seq<byte>)
    requires |p| == 64
  {
    && W(p, 16) == 0xc2c4c700 && W(p, 17) == 0x00000000 && W(p, 18) == 0x00000030 && W(p, 19) == 0x85898e01
    && W(p, 20) == 0x00000000 && W(p, 21) == 0x00000060 && W(p, 22) == 0x0b131c03 && W(p, 23) == 0x00000030
    && W(p, 24) == 0x85898ec1 && W(p, 25) == 0x16263806 && W(p, 26) == 0x00000000 && W(p, 27) == 0x00000180
    && W(p, 28) == 0x2c4c700c && W(p, 29) == 0x000000f0 && W(p, 30) == 0x93afb507 && W(p, 31) == 0x5898e048
  }

  predicate Words32(p: seq<byte>)
    requires |p| == 64
  {
    && W(p, 32) == 0x8e9a9202 && W(p, 33) == 0x00000600 && W(p, 34) == 0xb131c0f0 && W(p, 35) == 0x16263bc6
    && W(p, 36) == 0x4ebed41e && W(p, 37) == 0x626380a1 && W(p, 38) == 0x16263806 && W(p, 39) == 0x000018c0
    && W(p, 40) == 0xd2e138c4 && W(p, 41) == 0x00000f00 && W(p, 42) == 0x3afb5079 && W(p, 43) == 0x898e04e5
    && W(p, 44) == 0xe2ba3c2b && W(p, 45) == 0x000060c0 && W(p, 46) == 0x053a37cd && W(p, 47) == 0x74458547
  }

  predicate Words48(p: seq<byte>)
    requires |p| == 64
  {
    && W(p, 48) == 0xda9415ed && W(p, 49) == 0x26380a16 && W(p, 50) == 0x626383a1 && W(p, 51) == 0x4ebf54de
    && W(p, 52) == 0x3835b44b && W(p, 53) == 0x0000f600 && W(p, 54) == 0x1e84c7a3 && W(p, 55) == 0x98e04d98
    && W(p, 56) == 0x651d16a0 && W(p, 57) == 0x62658ca1 && W(p, 58) == 0x458544d6 && W(p, 59) == 0x44584cb7
    && W(p, 60) == 0x7ba06619 && W(p, 61) == 0x6380aea2 && W(p, 62) == 0x0ae55269 && W(p, 63) == 0x627b49a1
  }

  predicate Words64(p: seq<byte>)
    requires |p| == 64
  {
    && W(p, 64) == 0x7cd45c9d && W(p, 65) == 0x000f0000 && W(p, 66) == 0xfb50753a && W(p, 67) == 0xec6765e8
    && W(p, 68) == 0xba3c2be2 && W(p, 69) == 0x0060c000 && W(p, 70) == 0x3a37cd05 && W(p, 71) == 0x458546f4
    && W(p, 72) == 0xb8599dd6 && W(p, 73) == 0x380a1a26 && W(p, 74) == 0x01e02203 && W(p, 75) == 0xe7cc3456
    && W(p, 76) == 0xe6e60b69 && W(p, 77) == 0x00f60a00 && W(p, 78) == 0x5795ef4f && W(p, 79) == 0x822e0879
  }

  lemma {:induction false} Schedule16(p: seq<byte>)
    requires |p| == 64 && Words0(p)
    ensures Words16(p)
  {
    hide WordAt;
  }

  lemma {:induction false} Schedule32(p: seq<byte>)
    requires |p| == 64 && Words16(p)
    ensures Words32(p)
  {
    hide WordAt;
  }

  lemma {:induction false} Schedule48(p: seq<byte>)
    requires |p| == 64 && Words32(p)
    ensures Words48(p)
  {
    hide WordAt;
  }

  lemma {:induction false} Schedule64(p: seq<byte>)
    requires |p| == 64 && Words48(p)
    ensures Words64(p)
  {
    hide WordAt;
  }

  // -------------------------------------------------------------- rounds

  lemma {:induction false} Begins(p: seq<byte>)
    requires |p| == 64
    ensures Rounds(p, 0, Initial()) == Hash(0x67452301, 0xefcdab89, 0x98badcfe, 0x10325476, 0xc3d2e1f0)
  {
  }

  lemma {:induction false} Rounds0(p: seq<byte>)
    requires |p| == 64 && Words0(p)
    requires Rounds(p, 0, Initial()) == Hash(0x67452301, 0xefcdab89, 0x98badcfe, 0x10325476, 0xc3d2e1f0)
    ensures Rounds(p, 10, Initial()) == Hash(0x8351f929, 0x4b6ae328, 0x27a301f5, 0x664f8c30, 0x0ff1f290)
  {
    hide W, Initial;
    assert Rounds(p, 1, Initial()) == Hash(0x0116fc33, 0x67452301, 0x7bf36ae2, 0x98badcfe, 0x10325476);
    assert Rounds(p, 2, Initial()) == Hash(0x8990536d, 0x0116fc33, 0x59d148c0, 0x7bf36ae2, 0x98badcfe);
    assert Rounds(p, 3, Initial()) == Hash(0xa1390f08, 0x8990536d, 0xc045bf0c, 0x59d148c0, 0x7bf36ae2);
    assert Rounds(p, 4, Initial()) == Hash(0xcdd8e11b, 0xa1390f08, 0x626414db, 0xc045bf0c, 0x59d148c0);
    assert Rounds(p, 5, Initial()) == Hash(0xcfd499de, 0xcdd8e11b, 0x284e43c2, 0x626414db, 0xc045bf0c);
    assert Rounds(p, 6, Initial()) == Hash(0x3fc7ca40, 0xcfd499de, 0xf3763846, 0x284e43c2, 0x626414db);
    assert Rounds(p, 7, Initial()) == Hash(0x993e30c1, 0x3fc7ca40, 0xb3f52677, 0xf3763846, 0x284e43c2);
    assert Rounds(p, 8, Initial()) == Hash(0x9e8c07d4, 0x993e30c1, 0x0ff1f290, 0xb3f52677, 0xf3763846);
    assert Rounds(p, 9, Initial()) == Hash(0x4b6ae328, 0x9e8c07d4, 0x664f8c30, 0x0ff1f290, 0xb3f52677);
  }

  lemma {:induction false} Rounds10(p: seq<byte>)
    requires |p| == 64 && Words0(p) && Words16(p)
    requires Rounds(p, 10, Initial()) == Hash(0x8351f929, 0x4b6ae328, 0x27a301f5, 0x664f8c30, 0x0ff1f290)
    ensures Rounds(p, 20, Initial()) == Hash(0xfd9e1d7d, 0xdc64901d, 0x20aa99ca, 0xd3a49608, 0xc82f758b)
  {
    hide W, Initial;
    assert Rounds(p, 11, Initial()) == Hash(0xfbda9e89, 0x8351f929, 0x12dab8ca, 0x27a301f5, 0x664f8c30);
    assert Rounds(p, 12, Initial()) == Hash(0x63188fe4, 0xfbda9e89, 0x60d47e4a, 0x12dab8ca, 0x27a301f5);
    assert Rounds(p, 13, Initial()) == Hash(0x4607b664, 0x63188fe4, 0x7ef6a7a2, 0x60d47e4a, 0x12dab8ca);
    assert Rounds(p, 14, Initial()) == Hash(0x9128f695, 0x4607b664, 0x18c623f9, 0x7ef6a7a2, 0x60d47e4a);
    assert Rounds(p, 15, Initial()) == Hash(0x196bee77, 0x9128f695, 0x1181ed99, 0x18c623f9, 0x7ef6a7a2);
    assert Rounds(p, 16, Initial()) == Hash(0x20bdd62f, 0x196bee77, 0x644a3da5, 0x1181ed99, 0x18c623f9);
    assert Rounds(p, 17, Initial()) == Hash(0x4e925823, 0x20bdd62f, 0xc65afb9d, 0x644a3da5, 0x1181ed99);
    assert Rounds(p, 18, Initial()) == Hash(0x82aa6728, 0x4e925823, 0xc82f758b, 0xc65afb9d, 0x644a3da5);
    assert Rounds(p, 19, Initial()) == Hash(0xdc64901d, 0x82aa6728, 0xd3a49608, 0xc82f758b, 0xc65afb9d);
  }

  lemma {:induction false} Rounds20(p: seq<byte>)
    requires |p| == 64 && Words16(p)
    requires Rounds(p, 20, Initial()) == Hash(0xfd9e1d7d, 0xdc64901d, 0x20aa99ca, 0xd3a49608, 0xc82f758b)
    ensures Rounds(p, 30, Initial()) == Hash(0xc5fbaf5d, 0x8370b52e, 0xd2aa1365, 0x6f8d7ef5, 0x12104ee9)
  {
    hide W, Initial;
    assert Rounds(p, 21, Initial()) == Hash(0x1a37b0ca, 0xfd9e1d7d, 0x77192407, 0x20aa99ca, 0xd3a49608);
    assert Rounds(p, 22, Initial()) == Hash(0x33a23bfc, 0x1a37b0ca, 0x7f67875f, 0x77192407, 0x20aa99ca);
    assert Rounds(p, 23, Initial()) == Hash(0x21283486, 0x33a23bfc, 0x868dec32, 0x7f67875f, 0x77192407);
    assert Rounds(p, 24, Initial()) == Hash(0xd541f12d, 0x21283486, 0x0ce88eff, 0x868dec32, 0x7f67875f);
    assert Rounds(p, 25, Initial()) == Hash(0xc7567dc6, 0xd541f12d, 0x884a0d21, 0x0ce88eff, 0x868dec32);
    assert Rounds(p, 26, Initial()) == Hash(0x48413ba4, 0xc7567dc6, 0x75507c4b, 0x884a0d21, 0x0ce88eff);
    assert Rounds(p, 27, Initial()) == Hash(0xbe35fbd5, 0x48413ba4, 0xb1d59f71, 0x75507c4b, 0x884a0d21);
    assert Rounds(p, 28, Initial()) == Hash(0x4aa84d97, 0xbe35fbd5, 0x12104ee9, 0xb1d59f71, 0x75507c4b);
    assert Rounds(p, 29, Initial()) == Hash(0x8370b52e, 0x4aa84d97, 0x6f8d7ef5, 0x12104ee9, 0xb1d59f71);
  }

  lemma {:induction false} Rounds30(p: seq<byte>)
    requires |p| == 64 && Words16(p) && Words32(p)
    requires Rounds(p, 30, Initial()) == Hash(0xc5fbaf5d, 0x8370b52e, 0xd2aa1365, 0x6f8d7ef5, 0x12104ee9)
    ensures Rounds(p, 40, Initial()) == Hash(0x32de1cba, 0x4c986405, 0xf718e5cf, 0x03d447f6, 0xf72eec32)
  {
    hide W, Initial;
    assert Rounds(p, 31, Initial()) == Hash(0x1267b407, 0xc5fbaf5d, 0xa0dc2d4b, 0xd2aa1365, 0x6f8d7ef5);
    assert Rounds(p, 32, Initial()) == Hash(0x3b845d33, 0x1267b407, 0x717eebd7, 0xa0dc2d4b, 0xd2aa1365);
    assert Rounds(p, 33, Initial()) == Hash(0x046faa0a, 0x3b845d33, 0xc499ed01, 0x717eebd7, 0xa0dc2d4b);
    assert Rounds(p, 34, Initial()) == Hash(0x2c0ebc11, 0x046faa0a, 0xcee1174c, 0xc499ed01, 0x717eebd7);
    assert Rounds(p, 35, Initial()) == Hash(0x21796ad4, 0x2c0ebc11, 0x811bea82, 0xcee1174c, 0xc499ed01);
    assert Rounds(p, 36, Initial()) == Hash(0xdcbbb0cb, 0x21796ad4, 0x4b03af04, 0x811bea82, 0xcee1174c);
    assert Rounds(p, 37, Initial()) == Hash(0x0f511fd8, 0xdcbbb0cb, 0x085e5ab5, 0x4b03af04, 0x811bea82);
    assert Rounds(p, 38, Initial()) == Hash(0xdc63973f, 0x0f511fd8, 0xf72eec32, 0x085e5ab5, 0x4b03af04);
    assert Rounds(p, 39, Initial()) == Hash(0x4c986405, 0xdc63973f, 0x03d447f6, 0xf72eec32, 0x085e5ab5);
  }

  lemma {:induction false} Rounds40(p: seq<byte>)
    requires |p| == 64 && Words32(p) && Words48(p)
    requires Rounds(p, 40, Initial()) == Hash(0x32de1cba, 0x4c986405, 0xf718e5cf, 0x03d447f6, 0xf72eec32)
    ensures Rounds(p, 50, Initial()) == Hash(0x120731c5, 0xbaf39337, 0xafab40b2, 0x2806e11b, 0x8714787c)
  {
    hide W, Initial;
    assert Rounds(p, 41, Initial()) == Hash(0xfc87dedf, 0x32de1cba, 0x53261901, 0xf718e5cf, 0x03d447f6);
    assert Rounds(p, 42, Initial()) == Hash(0x970a0d5c, 0xfc87dedf, 0x8cb7872e, 0x53261901, 0xf718e5cf);
    assert Rounds(p, 43, Initial()) == Hash(0x7f193dc5, 0x970a0d5c, 0xff21f7b7, 0x8cb7872e, 0x53261901);
    assert Rounds(p, 44, Initial()) == Hash(0xee1b1aaf, 0x7f193dc5, 0x25c28357, 0xff21f7b7, 0x8cb7872e);
    assert Rounds(p, 45, Initial()) == Hash(0x40f28e09, 0xee1b1aaf, 0x5fc64f71, 0x25c28357, 0xff21f7b7);
    assert Rounds(p, 46, Initial()) == Hash(0x1c51e1f2, 0x40f28e09, 0xfb86c6ab, 0x5fc64f71, 0x25c28357);
    assert Rounds(p, 47, Initial()) == Hash(0xa01b846c, 0x1c51e1f2, 0x503ca382, 0xfb86c6ab, 0x5fc64f71);
    assert Rounds(p, 48, Initial()) == Hash(0xbead02ca, 0xa01b846c, 0x8714787c, 0x503ca382, 0xfb86c6ab);
    assert Rounds(p, 49, Initial()) == Hash(0xbaf39337, 0xbead02ca, 0x2806e11b, 0x8714787c, 0x503ca382);
  }

  lemma {:induction false} Rounds50(p: seq<byte>)
    requires |p| == 64 && Words48(p)
    requires Rounds(p, 50, Initial()) == Hash(0x120731c5, 0xbaf39337, 0xafab40b2, 0x2806e11b, 0x8714787c)
    ensures Rounds(p, 60, Initial()) == Hash(0x3f52de5a, 0x09d785fd, 0x3498bfd4, 0xf211824f, 0xd79915ab)
  {
    hide W, Initial;
    assert Rounds(p, 51, Initial()) == Hash(0x641db2ce, 0x120731c5, 0xeebce4cd, 0xafab40b2, 0x2806e11b);
    assert Rounds(p, 52, Initial()) == Hash(0x3847ad66, 0x641db2ce, 0x4481cc71, 0xeebce4cd, 0xafab40b2);
    assert Rounds(p, 53, Initial()) == Hash(0xe490436d, 0x3847ad66, 0x99076cb3, 0x4481cc71, 0xeebce4cd);
    assert Rounds(p, 54, Initial()) == Hash(0x27e9f1d8, 0xe490436d, 0x8e11eb59, 0x99076cb3, 0x4481cc71);
    assert Rounds(p, 55, Initial()) == Hash(0x7b71f76d, 0x27e9f1d8, 0x792410db, 0x8e11eb59, 0x99076cb3);
    assert Rounds(p, 56, Initial()) == Hash(0x5e6456af, 0x7b71f76d, 0x09fa7c76, 0x792410db, 0x8e11eb59);
    assert Rounds(p, 57, Initial()) == Hash(0xc846093f, 0x5e6456af, 0x5edc7ddb, 0x09fa7c76, 0x792410db);
    assert Rounds(p, 58, Initial()) == Hash(0xd262ff50, 0xc846093f, 0xd79915ab, 0x5edc7ddb, 0x09fa7c76);
    assert Rounds(p, 59, Initial()) == Hash(0x09d785fd, 0xd262ff50, 0xf211824f, 0xd79915ab, 0x5edc7ddb);
  }

  lemma {:induction false} Rounds60(p: seq<byte>)
    requires |p| == 64 && Words48(p) && Words64(p)
    requires Rounds(p, 60, Initial()) == Hash(0x3f52de5a, 0x09d785fd, 0x3498bfd4, 0xf211824f, 0xd79915ab)
    ensures Rounds(p, 70, Initial()) == Hash(0x3f2588c2, 0x497093c0, 0xde37534a, 0x030f7cad, 0x4405957e)
  {
    hide W, Initial;
    assert Rounds(p, 61, Initial()) == Hash(0xd756c147, 0x3f52de5a, 0x4275e17f, 0x3498bfd4, 0xf211824f);
    assert Rounds(p, 62, Initial()) == Hash(0x548c9cb2, 0xd756c147, 0x8fd4b796, 0x4275e17f, 0x3498bfd4);
    assert Rounds(p, 63, Initial()) == Hash(0xb66c020b, 0x548c9cb2, 0xf5d5b051, 0x8fd4b796, 0x4275e17f);
    assert Rounds(p, 64, Initial()) == Hash(0x6b61c9e1, 0xb66c020b, 0x9523272c, 0xf5d5b051, 0x8fd4b796);
    assert Rounds(p, 65, Initial()) == Hash(0x19dfa7ac, 0x6b61c9e1, 0xed9b0082, 0x9523272c, 0xf5d5b051);
    assert Rounds(p, 66, Initial()) == Hash(0x101655f9, 0x19dfa7ac, 0x5ad87278, 0xed9b0082, 0x9523272c);
    assert Rounds(p, 67, Initial()) == Hash(0x0c3df2b4, 0x101655f9, 0x0677e9eb, 0x5ad87278, 0xed9b0082);
    assert Rounds(p, 68, Initial()) == Hash(0x78dd4d2b, 0x0c3df2b4, 0x4405957e, 0x0677e9eb, 0x5ad87278);
    assert Rounds(p, 69, Initial()) == Hash(0x497093c0, 0x78dd4d2b, 0x030f7cad, 0x4405957e, 0x0677e9eb);
  }

  lemma {:induction false} Rounds70(p: seq<byte>)
    requires |p| == 64 && Words64(p)
    requires Rounds(p, 70, Initial()) == Hash(0x3f2588c2, 0x497093c0, 0xde37534a, 0x030f7cad, 0x4405957e)
    ensures Rounds(p, 80, Initial()) == Hash(0x42541b35, 0x5738d5e1, 0x21834873, 0x681e6df6, 0xd8fdf6ad)
  {
    hide W, Initial;
    assert Rounds(p, 71, Initial()) == Hash(0xc199f8c7, 0x3f2588c2, 0x125c24f0, 0xde37534a, 0x030f7cad);
    assert Rounds(p, 72, Initial()) == Hash(0x39859de7, 0xc199f8c7, 0x8fc96230, 0x125c24f0, 0xde37534a);
    assert Rounds(p, 73, Initial()) == Hash(0xedb42de4, 0x39859de7, 0xf0667e31, 0x8fc96230, 0x125c24f0);
    assert Rounds(p, 74, Initial()) == Hash(0x11793f6f, 0xedb42de4, 0xce616779, 0xf0667e31, 0x8fc96230);
    assert Rounds(p, 75, Initial()) == Hash(0x5ee76897, 0x11793f6f, 0x3b6d0b79, 0xce616779, 0xf0667e31);
    assert Rounds(p, 76, Initial()) == Hash(0x63f7dab7, 0x5ee76897, 0xc45e4fdb, 0x3b6d0b79, 0xce616779);
    assert Rounds(p, 77, Initial()) == Hash(0xa079b7d9, 0x63f7dab7, 0xd7b9da25, 0xc45e4fdb, 0x3b6d0b79);
    assert Rounds(p, 78, Initial()) == Hash(0x860d21cc, 0xa079b7d9, 0xd8fdf6ad, 0xd7b9da25, 0xc45e4fdb);
    assert Rounds(p, 79, Initial()) == Hash(0x5738d5e1, 0x860d21cc, 0x681e6df6, 0xd8fdf6ad, 0xd7b9da25);
  }

  // -------------------------------------------------------------- digest

  lemma {:induction false} Length24()
    ensures Bytes32(0) == [0, 0, 0, 0] && Bytes32(24) == [0, 0, 0, 0x18]
  {
    assert 0 as word == 0 && 24 as word == 0x18;
  }

  lemma {:induction false} Padded()
    ensures Pad(ABC) == [0x61, 0x62, 0x63, 0x80] + Repeat(0 as byte, 59) + [0x18]
  {
    hide Bytes32;
    Length24();
    assert 8 * |ABC| % TWO64 == 24 && (55 - |ABC|) % 64 == 52 && 24 / TWO32 == 0 && 24 % TWO32 == 24;
    assert Bytes64(24) == [0, 0, 0, 0] + [0, 0, 0, 0x18];
  }

  lemma {:induction false} FourOctets(p: seq<byte>, i: nat, x: byte)
    requires i + 4 <= |p|
    ensures p[i] == 0x61 && p[i + 1] == 0x62 && p[i + 2] == 0x63 && p[i + 3] == 0x80 ==> WordAt(p, i) == 0x61626380
    ensures p[i] == p[i + 1] == p[i + 2] == 0 && p[i + 3] == x && x in {0, 0x18} ==> WordAt(p, i) == x as word
  {
  }

  lemma {:induction false} FirstWord(p: seq<byte>, t: nat)
    requires p == [0x61, 0x62, 0x63, 0x80] + Repeat(0 as byte, 59) + [0x18] && t < 16
    ensures W(p, t) == if t == 0 then 0x61626380 else if t == 15 then 0x18 else 0
  {
    hide WordAt;
    FourOctets(p, 4 * t, if t == 15 then 0x18 else 0);
  }

  lemma {:induction false} FirstWords(p: seq<byte>)
    requires p == [0x61, 0x62, 0x63, 0x80] + Repeat(0 as byte, 59) + [0x18]
    ensures Words0(p)
  {
    hide W;
    forall t: nat | t < 16
      ensures W(p, t) == if t == 0 then 0x61626380 else if t == 15 then 0x18 else 0
    {
      FirstWord(p, t);
    }
  }

  lemma {:induction false} AllRounds(p: seq<byte>)
    requires |p| == 64 && Words0(p)
    ensures Rounds(p, 80, Initial()) == Hash(0x42541b35, 0x5738d5e1, 0x21834873, 0x681e6df6, 0xd8fdf6ad)
  {
    hide *;
    Schedule16(p);
    Schedule32(p);
    Schedule48(p);
    Schedule64(p);
    Begins(p);
    Rounds0(p);
    Rounds10(p);
    Rounds20(p);
    Rounds30(p);
    Rounds40(p);
    Rounds50(p);
    Rounds60(p);
    Rounds70(p);
  }

  /** The digest of "abc" is that of the standard. */
  lemma {:induction false} DigestOfAbc()
    ensures Digest(ABC) == [0xa9, 0x99, 0x3e, 0x36, 0x47, 0x06, 0x81, 0x6a, 0xba, 0x3e,
                            0x25, 0x71, 0x78, 0x50, 0xc2, 0x6c, 0x9c, 0xd0, 0xd8, 0x9d]
  {
    hide Pad, HashBlocks;
    Hashed();
  }

  lemma {:induction false} Hashed()
    ensures HashBlocks(Pad(ABC)) == Hash(0xa9993e36, 0x4706816a, 0xba3e2571, 0x7850c26c, 0x9cd0d89d)
  {
    hide Pad, Rounds;
    var p := Pad(ABC);
    Padded();
    FirstWords(p);
    AllRounds(p);
    assert p[..0] == [] && p[0..] == p;
    assert HashBlocks(p) == Compress(HashBlocks(p[..0]), p[0..]);
  }
}

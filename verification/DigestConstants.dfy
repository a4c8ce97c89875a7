/**
  What the constants of SHA-256 are (FIPS 180-4, sections 4.2.2 and 5.3.3), and what
  its bit functions do (section 4.1.2), apart from how they are spelled in
  ssh-agent-filter/src/policy.rs:12-83.
*/
module DigestConstants {
  import opened Digest
  import opened Proto

  /** `n` is the cube root of `p` times 2^32, rounded down. */
  predicate CubeRoot(p: nat, n: nat) {
    n * n * n <= p * 0x1_0000_0000_0000_0000_0000_0000 < (n + 1) * (n + 1) * (n + 1)
  }

  /** `n` is the square root of `p` times 2^32, rounded down. */
  predicate SquareRoot(p: nat, n: nat) {
    n * n <= p * 0x1_0000_0000_0000_0000 < (n + 1) * (n + 1)
  }

  /** `k` is the first 32 bits of the fraction of the cube root of `p`. */
  ghost predicate FromCubeRoot(p: nat, k: Word) {
    exists n: nat :: CubeRoot(p, n) && n % 0x1_0000_0000 == k as nat
  }

  /** The round constants from number `t` on come from these primes. */
  ghost predicate Rooted(t: nat, p: nat, q: nat, r: nat, s: nat)
    requires t + 4 <= 64
  {
    FromCubeRoot(p, K(t)) && FromCubeRoot(q, K(t + 1)) && FromCubeRoot(r, K(t + 2)) && FromCubeRoot(s, K(t + 3))
  }

  lemma Roots0()
    ensures Rooted(0, 2, 3, 5, 7)
  {
    assert K(0) == 0x428a2f98 && K(1) == 0x71374491 && K(2) == 0xb5c0fbcf && K(3) == 0xe9b5dba5;
    hide K;
    assert CubeRoot(2, 0x1_428a2f98);
    assert CubeRoot(3, 0x1_71374491);
    assert CubeRoot(5, 0x1_b5c0fbcf);
    assert CubeRoot(7, 0x1_e9b5dba5);
  }

  lemma Roots4()
    ensures Rooted(4, 11, 13, 17, 19)
  {
    assert K(4) == 0x3956c25b && K(5) == 0x59f111f1 && K(6) == 0x923f82a4 && K(7) == 0xab1c5ed5;
    hide K;
    assert CubeRoot(11, 0x2_3956c25b);
    assert CubeRoot(13, 0x2_59f111f1);
    assert CubeRoot(17, 0x2_923f82a4);
    assert CubeRoot(19, 0x2_ab1c5ed5);
  }

  lemma Roots8()
    ensures Rooted(8, 23, 29, 31, 37)
  {
    assert K(8) == 0xd807aa98 && K(9) == 0x12835b01 && K(10) == 0x243185be && K(11) == 0x550c7dc3;
    hide K;
    assert CubeRoot(23, 0x2_d807aa98);
    assert CubeRoot(29, 0x3_12835b01);
    assert CubeRoot(31, 0x3_243185be);
    assert CubeRoot(37, 0x3_550c7dc3);
  }

  lemma Roots12()
    ensures Rooted(12, 41, 43, 47, 53)
  {
    assert K(12) == 0x72be5d74 && K(13) == 0x80deb1fe && K(14) == 0x9bdc06a7 && K(15) == 0xc19bf174;
    hide K;
    assert CubeRoot(41, 0x3_72be5d74);
    assert CubeRoot(43, 0x3_80deb1fe);
    assert CubeRoot(47, 0x3_9bdc06a7);
    assert CubeRoot(53, 0x3_c19bf174);
  }

  lemma Roots16()
    ensures Rooted(16, 59, 61, 67, 71)
  {
    assert K(16) == 0xe49b69c1 && K(17) == 0xefbe4786 && K(18) == 0x0fc19dc6 && K(19) == 0x240ca1cc;
    hide K;
    assert CubeRoot(59, 0x3_e49b69c1);
    assert CubeRoot(61, 0x3_efbe4786);
    assert CubeRoot(67, 0x4_0fc19dc6);
    assert CubeRoot(71, 0x4_240ca1cc);
  }

  lemma Roots20()
    ensures Rooted(20, 73, 79, 83, 89)
  {
    assert K(20) == 0x2de92c6f && K(21) == 0x4a7484aa && K(22) == 0x5cb0a9dc && K(23) == 0x76f988da;
    hide K;
    assert CubeRoot(73, 0x4_2de92c6f);
    assert CubeRoot(79, 0x4_4a7484aa);
    assert CubeRoot(83, 0x4_5cb0a9dc);
    assert CubeRoot(89, 0x4_76f988da);
  }

  lemma Roots24()
    ensures Rooted(24, 97, 101, 103, 107)
  {
    assert K(24) == 0x983e5152 && K(25) == 0xa831c66d && K(26) == 0xb00327c8 && K(27) == 0xbf597fc7;
    hide K;
    assert CubeRoot(97, 0x4_983e5152);
    assert CubeRoot(101, 0x4_a831c66d);
    assert CubeRoot(103, 0x4_b00327c8);
    assert CubeRoot(107, 0x4_bf597fc7);
  }

  lemma Roots28()
    ensures Rooted(28, 109, 113, 127, 131)
  {
    assert K(28) == 0xc6e00bf3 && K(29) == 0xd5a79147 && K(30) == 0x06ca6351 && K(31) == 0x14292967;
    hide K;
    assert CubeRoot(109, 0x4_c6e00bf3);
    assert CubeRoot(113, 0x4_d5a79147);
    assert CubeRoot(127, 0x5_06ca6351);
    assert CubeRoot(131, 0x5_14292967);
  }

  lemma Roots32()
    ensures Rooted(32, 137, 139, 149, 151)
  {
    assert K(32) == 0x27b70a85 && K(33) == 0x2e1b2138 && K(34) == 0x4d2c6dfc && K(35) == 0x53380d13;
    hide K;
    assert CubeRoot(137, 0x5_27b70a85);
    assert CubeRoot(139, 0x5_2e1b2138);
    assert CubeRoot(149, 0x5_4d2c6dfc);
    assert CubeRoot(151, 0x5_53380d13);
  }

  lemma Roots36()
    ensures Rooted(36, 157, 163, 167, 173)
  {
    assert K(36) == 0x650a7354 && K(37) == 0x766a0abb && K(38) == 0x81c2c92e && K(39) == 0x92722c85;
    hide K;
    assert CubeRoot(157, 0x5_650a7354);
    assert CubeRoot(163, 0x5_766a0abb);
    assert CubeRoot(167, 0x5_81c2c92e);
    assert CubeRoot(173, 0x5_92722c85);
  }

  lemma Roots40()
    ensures Rooted(40, 179, 181, 191, 193)
  {
    assert K(40) == 0xa2bfe8a1 && K(41) == 0xa81a664b && K(42) == 0xc24b8b70 && K(43) == 0xc76c51a3;
    hide K;
    assert CubeRoot(179, 0x5_a2bfe8a1);
    assert CubeRoot(181, 0x5_a81a664b);
    assert CubeRoot(191, 0x5_c24b8b70);
    assert CubeRoot(193, 0x5_c76c51a3);
  }

  lemma Roots44()
    ensures Rooted(44, 197, 199, 211, 223)
  {
    assert K(44) == 0xd192e819 && K(45) == 0xd6990624 && K(46) == 0xf40e3585 && K(47) == 0x106aa070;
    hide K;
    assert CubeRoot(197, 0x5_d192e819);
    assert CubeRoot(199, 0x5_d6990624);
    assert CubeRoot(211, 0x5_f40e3585);
    assert CubeRoot(223, 0x6_106aa070);
  }

  lemma Roots48()
    ensures Rooted(48, 227, 229, 233, 239)
  {
    assert K(48) == 0x19a4c116 && K(49) == 0x1e376c08 && K(50) == 0x2748774c && K(51) == 0x34b0bcb5;
    hide K;
    assert CubeRoot(227, 0x6_19a4c116);
    assert CubeRoot(229, 0x6_1e376c08);
    assert CubeRoot(233, 0x6_2748774c);
    assert CubeRoot(239, 0x6_34b0bcb5);
  }

  lemma Roots52()
    ensures Rooted(52, 241, 251, 257, 263)
  {
    assert K(52) == 0x391c0cb3 && K(53) == 0x4ed8aa4a && K(54) == 0x5b9cca4f && K(55) == 0x682e6ff3;
    hide K;
    assert CubeRoot(241, 0x6_391c0cb3);
    assert CubeRoot(251, 0x6_4ed8aa4a);
    assert CubeRoot(257, 0x6_5b9cca4f);
    assert CubeRoot(263, 0x6_682e6ff3);
  }

  lemma Roots56()
    ensures Rooted(56, 269, 271, 277, 281)
  {
    assert K(56) == 0x748f82ee && K(57) == 0x78a5636f && K(58) == 0x84c87814 && K(59) == 0x8cc70208;
    hide K;
    assert CubeRoot(269, 0x6_748f82ee);
    assert CubeRoot(271, 0x6_78a5636f);
    assert CubeRoot(277, 0x6_84c87814);
    assert CubeRoot(281, 0x6_8cc70208);
  }

  lemma Roots60()
    ensures Rooted(60, 283, 293, 307, 311)
  {
    assert K(60) == 0x90befffa && K(61) == 0xa4506ceb && K(62) == 0xbef9a3f7 && K(63) == 0xc67178f2;
    hide K;
    assert CubeRoot(283, 0x6_90befffa);
    assert CubeRoot(293, 0x6_a4506ceb);
    assert CubeRoot(307, 0x6_bef9a3f7);
    assert CubeRoot(311, 0x6_c67178f2);
  }

  /** The round constants come from the cube roots of the first 64 primes: here those of the first 32. */
  lemma RoundConstantsAreRoots()
    ensures Rooted(0, 2, 3, 5, 7)
    ensures Rooted(4, 11, 13, 17, 19)
    ensures Rooted(8, 23, 29, 31, 37)
    ensures Rooted(12, 41, 43, 47, 53)
    ensures Rooted(16, 59, 61, 67, 71)
    ensures Rooted(20, 73, 79, 83, 89)
    ensures Rooted(24, 97, 101, 103, 107)
    ensures Rooted(28, 109, 113, 127, 131)
  {
    hide Rooted;
    Roots0();
    Roots4();
    Roots8();
    Roots12();
    Roots16();
    Roots20();
    Roots24();
    Roots28();
  }

  lemma LaterConstantsAreRoots()
    ensures Rooted(32, 137, 139, 149, 151)
    ensures Rooted(36, 157, 163, 167, 173)
    ensures Rooted(40, 179, 181, 191, 193)
    ensures Rooted(44, 197, 199, 211, 223)
    ensures Rooted(48, 227, 229, 233, 239)
    ensures Rooted(52, 241, 251, 257, 263)
    ensures Rooted(56, 269, 271, 277, 281)
    ensures Rooted(60, 283, 293, 307, 311)
  {
    hide Rooted;
    Roots32();
    Roots36();
    Roots40();
    Roots44();
    Roots48();
    Roots52();
    Roots56();
    Roots60();
  }

  /** The first hash value comes so from the square roots of the first eight. */
  lemma HashValueFromRoots()
    ensures SquareRoot(2, 0x1_6a09e667) && H0()[0] == 0x6a09e667
    ensures SquareRoot(3, 0x1_bb67ae85) && H0()[1] == 0xbb67ae85
    ensures SquareRoot(5, 0x2_3c6ef372) && H0()[2] == 0x3c6ef372
    ensures SquareRoot(7, 0x2_a54ff53a) && H0()[3] == 0xa54ff53a
    ensures SquareRoot(11, 0x3_510e527f) && H0()[4] == 0x510e527f
    ensures SquareRoot(13, 0x3_9b05688c) && H0()[5] == 0x9b05688c
    ensures SquareRoot(17, 0x4_1f83d9ab) && H0()[6] == 0x1f83d9ab
    ensures SquareRoot(19, 0x4_5be0cd19) && H0()[7] == 0x5be0cd19
  {}

  // ---- The bit functions ----

  /** Where one bit goes: the rotations by 2, 13 and 22, by 6, 11 and 25, and those of the schedule with their shifts. */
  lemma OneBitImages()
    ensures BigSigma0(1) == 0x4008_0400
    ensures BigSigma1(1) == 0x0420_0080
    ensures SmallSigma0(1) == 0x0200_4000 && SmallSigma0(8) == 0x1002_0001
    ensures SmallSigma1(1) == 0x0000_a000 && SmallSigma1(0x400) == 0x0280_0001
  {}

  /** `Ch` takes each bit from its second argument where the first has it set. */
  lemma ChoiceOfSecond(x: bv32, y: bv32, z: bv32)
    ensures ChBits(x, y, z) & x == y & x
  {}

  /** And from the third where it has not. */
  lemma ChoiceOfThird(x: bv32, y: bv32, z: bv32)
    ensures ChBits(x, y, z) & !x == z & !x
  {}

  /** `Maj` takes each bit on which the first two agree from them. */
  lemma MajorityAgrees(x: bv32, y: bv32, z: bv32)
    ensures MajBits(x, y, z) & !(x ^ y) == x & !(x ^ y)
  {
    assert ((x & y) ^ (x & z) ^ (y & z)) & !(x ^ y) == x & !(x ^ y);
  }

  /** And any other from the third. */
  lemma MajorityDecides(x: bv32, y: bv32, z: bv32)
    ensures MajBits(x, y, z) & (x ^ y) == z & (x ^ y)
  {
    assert ((x & y) ^ (x & z) ^ (y & z)) & (x ^ y) == z & (x ^ y);
  }

  // ---- One round, and base64 ----

  lemma BitsOfFirstRound()
    ensures BigSigma1(0x510e527f) == 0x3587272b && Ch(0x510e527f, 0x9b05688c, 0x1f83d9ab) == 0x1f85c98c
    ensures BigSigma0(0x6a09e667) == 0xce20b47e && Maj(0x6a09e667, 0xbb67ae85, 0x3c6ef372) == 0x3a6fe667
  {
    assert BigSigma1(0x510e527f) == 0x3587272b && Ch(0x510e527f, 0x9b05688c, 0x1f83d9ab) == 0x1f85c98c;
    assert BigSigma0(0x6a09e667) == 0xce20b47e && Maj(0x6a09e667, 0xbb67ae85, 0x3c6ef372) == 0x3a6fe667;
  }

  /** The first round of the digest of `abc`: all eight registers after it. */
  lemma FirstRoundOfAbc()
    ensures Round(Working(0x6a09e667, 0xbb67ae85, 0x3c6ef372, 0xa54ff53a, 0x510e527f, 0x9b05688c, 0x1f83d9ab, 0x5be0cd19),
                  0x428a2f98, 0x61626380) ==
            Working(0x5d6aebcd, 0x6a09e667, 0xbb67ae85, 0x3c6ef372, 0xfa2a4622, 0x510e527f, 0x9b05688c, 0x1f83d9ab)
  {
    hide BigSigma0, BigSigma1, Ch, Maj;
    BitsOfFirstRound();
    assert Add(Add(Add(Add(0x5be0cd19, 0x3587272b), 0x1f85c98c), 0x428a2f98), 0x61626380) == 0x54da50e8;
    assert Add(0xce20b47e, 0x3a6fe667) == 0x08909ae5;
    assert Add(0x54da50e8, 0x08909ae5) == 0x5d6aebcd && Add(0xa54ff53a, 0x54da50e8) == 0xfa2a4622;
  }

  // ---- Padding, blocks and the digest's bytes ----

  /** Behind the data come the byte 128, fewer than 64 zeros, and the number of bits, most significant byte first. */
  lemma PaddingBytes(data: Bytes)
    ensures var msg := Pad(data);
      && |msg| >= |data| + 9 && msg[..|data|] == data && msg[|data|] == 128
      && (forall i | |data| < i < |msg| - 8 :: msg[i] == 0)
      && |msg| < |data| + 9 + 64 && |msg| % 64 == 0
    ensures |data| < 0x2000_0000_0000_0000 ==>
              var last := Pad(data)[|Pad(data)| - 8..];
              FromBe32(last[..4]) * 0x1_0000_0000 + FromBe32(last[4..]) == 8 * |data|
  {
    hide Be32, FromBe32;
    Blocks(|data|);
    PadLength(data);
    var msg := Pad(data);
    assert msg[|msg| - 8..] == Be64(8 * |data|);
    if |data| < 0x2000_0000_0000_0000 {
      BitsAre(|data|);
    }
  }

  lemma BitsAre(length: nat)
    requires length < 0x2000_0000_0000_0000
    ensures var b := Be64(8 * length); FromBe32(b[..4]) * 0x1_0000_0000 + FromBe32(b[4..]) == 8 * length
  {
    var bits := 8 * length;
    assert |Be32(bits)| == |Be32(bits / 0x1_0000_0000)| == 4;
    hide Be32, FromBe32;
    assert Be64(bits)[..4] == Be32(bits / 0x1_0000_0000) && Be64(bits)[4..] == Be32(bits);
    Be32Wraps(bits / 0x1_0000_0000);
    Be32Wraps(bits);
  }

  /** One block after the other changes the hash value, each word by what the rounds make of its register. */
  lemma BlockByBlock(msg: Bytes, n: nat)
    requires 64 * n + 64 <= |msg|
    ensures HashValue(msg, 0) == H0()
    ensures var h, next := HashValue(msg, n), HashValue(msg, n + 1);
      var v := Rounds(Working(h[0], h[1], h[2], h[3], h[4], h[5], h[6], h[7]), msg[64 * n..64 * n + 64], 64);
      var registers := [v.a, v.b, v.c, v.d, v.e, v.f, v.g, v.h];
      forall j | 0 <= j < 8 :: next[j] as int == (registers[j] as int + h[j] as int) % 0x1_0000_0000
  {
    hide Rounds;
    assert msg[64 * (n + 1 - 1)..64 * (n + 1)] == msg[64 * n..64 * n + 64];
  }

  lemma {:induction false} BytesOfWords(h: seq<Word>, i: nat)
    requires i < |h|
    ensures |WordsToBytes(h)| == 4 * |h|
    ensures WordsToBytes(h)[4 * i..4 * i + 4] == Be32(h[i] as int)
    decreases |h|
  {
    assert |Be32(h[0] as int)| == |Be32(h[i] as int)| == 4;
    hide Be32;
    var rest := WordsToBytes(h[1..]);
    if |h| > 1 {
      BytesOfWords(h[1..], if i == 0 then 0 else i - 1);
    } else {
      assert h[1..] == [];
    }
    if i > 0 {
      assert (Be32(h[0] as int) + rest)[4 * i..4 * i + 4] == rest[4 * (i - 1)..4 * (i - 1) + 4];
    }
  }

  /** The digest is 32 bytes: the eight words after the last block, most significant byte first. */
  lemma DigestIsEightWords(data: Bytes, i: nat)
    requires i < 8
    ensures |Sha256(data)| == 32 && 64 * (|Pad(data)| / 64) == |Pad(data)|
    ensures Sha256(data)[4 * i..4 * i + 4] == Be32(HashValue(Pad(data), |Pad(data)| / 64)[i] as int)
  {
    hide Be32, WordsToBytes, HashValue, Pad;
    PadLength(data);
    BytesOfWords(HashValue(Pad(data), |Pad(data)| / 64), i);
  }

  /** The alphabet: capitals, small letters, digits, plus and slash. */
  lemma Base64Letters(i: nat)
    requires i < 64
    ensures i < 26 ==> Letter(i) == "ABCDEFGHIJKLMNOPQRSTUVWXYZ"[i]
    ensures 26 <= i < 52 ==> Letter(i) == "abcdefghijklmnopqrstuvwxyz"[i - 26]
    ensures 52 <= i < 62 ==> Letter(i) == "0123456789"[i - 52]
    ensures i == 62 ==> Letter(i) == '+'
    ensures i == 63 ==> Letter(i) == '/'
  {}

  lemma LetterOfGroup(c: Bytes, i: nat, sextet: nat)
    requires 1 <= |c| <= 3 && i <= |c| && SextetAt(Group(c), i) == sextet
    ensures EncodeGroup(c)[i] == Letter(sextet)
  {}

  /** `a`, `ab` and `abc`. */
  lemma Base64OfAbc()
    ensures Base64([97]) == "YQ" && Base64([97, 98]) == "YWI" && Base64([97, 98, 99]) == "YWJj"
  {
    var a: Bytes, ab: Bytes, abc: Bytes := [97], [97, 98], [97, 98, 99];
    assert Group(a) == 0x61_0000 && Group(ab) == 0x61_6200 && Group(abc) == 0x61_6263;
    assert Letter(24) == 'Y' && Letter(16) == 'Q' && Letter(22) == 'W';
    assert Letter(8) == 'I' && Letter(9) == 'J' && Letter(35) == 'j';
    assert abc[..3] == abc && abc[3..] == [] && Base64([]) == "";
    hide Group, Letter;
    LetterOfGroup(a, 0, 24);
    LetterOfGroup(a, 1, 16);
    LetterOfGroup(ab, 0, 24);
    LetterOfGroup(ab, 1, 22);
    LetterOfGroup(ab, 2, 8);
    LetterOfGroup(abc, 0, 24);
    LetterOfGroup(abc, 1, 22);
    LetterOfGroup(abc, 2, 9);
    LetterOfGroup(abc, 3, 35);
    hide EncodeGroup, SextetAt;
    assert EncodeGroup(a) == "YQ" && EncodeGroup(ab) == "YWI" && EncodeGroup(abc) == "YWJj";
    assert Base64(abc) == EncodeGroup(abc) + "";
  }
}

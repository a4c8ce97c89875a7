/**
  SHA-256 and unpadded base64 as ssh-agent-filter/src/policy.rs computes them,
  against FIPS 180-4 (padding: section 5.1.1, hash: section 6.2.2) and section 4
  of RFC 4648.
*/
module Digest {
  import opened Wrappers
  import opened Proto

  newtype Word = x: int | 0 <= x < 0x1_0000_0000

  // ---- FIPS 180-4 ----

  const ROUND_CONSTANTS: seq<Word> := [
    0x428a2f98, 0x71374491, 0xb5c0fbcf, 0xe9b5dba5, 0x3956c25b, 0x59f111f1, 0x923f82a4, 0xab1c5ed5,
    0xd807aa98, 0x12835b01, 0x243185be, 0x550c7dc3, 0x72be5d74, 0x80deb1fe, 0x9bdc06a7, 0xc19bf174,
    0xe49b69c1, 0xefbe4786, 0x0fc19dc6, 0x240ca1cc, 0x2de92c6f, 0x4a7484aa, 0x5cb0a9dc, 0x76f988da,
    0x983e5152, 0xa831c66d, 0xb00327c8, 0xbf597fc7, 0xc6e00bf3, 0xd5a79147, 0x06ca6351, 0x14292967] + [
    0x27b70a85, 0x2e1b2138, 0x4d2c6dfc, 0x53380d13, 0x650a7354, 0x766a0abb, 0x81c2c92e, 0x92722c85,
    0xa2bfe8a1, 0xa81a664b, 0xc24b8b70, 0xc76c51a3, 0xd192e819, 0xd6990624, 0xf40e3585, 0x106aa070,
    0x19a4c116, 0x1e376c08, 0x2748774c, 0x34b0bcb5, 0x391c0cb3, 0x4ed8aa4a, 0x5b9cca4f, 0x682e6ff3,
    0x748f82ee, 0x78a5636f, 0x84c87814, 0x8cc70208, 0x90befffa, 0xa4506ceb, 0xbef9a3f7, 0xc67178f2]

  function H0(): (h: seq<Word>)
    ensures |h| == 8
  {
    [0x6a09e667, 0xbb67ae85, 0x3c6ef372, 0xa54ff53a, 0x510e527f, 0x9b05688c, 0x1f83d9ab, 0x5be0cd19]
  }

  function K(t: nat): Word
    requires t < 64
  {
    ROUND_CONSTANTS[t]
  }

  /** Addition modulo 2^32, Rust's `wrapping_add`. */
  function Add(x: Word, y: Word): Word { ((x as int + y as int) % U32_LIMIT) as Word }

  function ChBits(x: bv32, y: bv32, z: bv32): bv32 { (x & y) ^ (!x & z) }
  function MajBits(x: bv32, y: bv32, z: bv32): bv32 { (x & y) ^ (x & z) ^ (y & z) }

  function Ch(x: Word, y: Word, z: Word): Word { ChBits(x as bv32, y as bv32, z as bv32) as Word }
  function Maj(x: Word, y: Word, z: Word): Word { MajBits(x as bv32, y as bv32, z as bv32) as Word }

  function RotateXor(x: bv32, i: nat, j: nat, k: nat): bv32
    requires i < 32 && j < 32 && k < 32
  {
    x.RotateRight(i) ^ x.RotateRight(j) ^ x.RotateRight(k)
  }

  function RotateShift(x: bv32, i: nat, j: nat, k: nat): bv32
    requires i < 32 && j < 32 && k < 32
  {
    x.RotateRight(i) ^ x.RotateRight(j) ^ (x >> k)
  }

  function BigSigma0(x: Word): Word { RotateXor(x as bv32, 2, 13, 22) as Word }
  function BigSigma1(x: Word): Word { RotateXor(x as bv32, 6, 11, 25) as Word }
  function SmallSigma0(x: Word): Word { RotateShift(x as bv32, 7, 18, 3) as Word }
  function SmallSigma1(x: Word): Word { RotateShift(x as bv32, 17, 19, 10) as Word }

  function WordOf(b: Bytes): Word
    requires |b| == 4
  {
    FromBe32(b) as Word
  }

  function BytesOf(w: Word): Bytes {
    Be32(w as int)
  }

  /** The message schedule of one 64-byte block, step 1 of section 6.2.2. */
  function W(block: Bytes, t: nat): Word
    requires |block| == 64
  {
    if t < 16 then WordOf(block[4 * t..4 * t + 4])
    else
      Add(Add(Add(SmallSigma1(W(block, t - 2)), W(block, t - 7)), SmallSigma0(W(block, t - 15))), W(block, t - 16))
  }

  datatype Working = Working(a: Word, b: Word, c: Word, d: Word, e: Word, f: Word, g: Word, h: Word)

  /** One pass of step 3. */
  function Round(v: Working, k: Word, w: Word): Working {
    var t1 := Add(Add(Add(Add(v.h, BigSigma1(v.e)), Ch(v.e, v.f, v.g)), k), w);
    var t2 := Add(BigSigma0(v.a), Maj(v.a, v.b, v.c));
    Working(Add(t1, t2), v.a, v.b, v.c, Add(v.d, t1), v.e, v.f, v.g)
  }

  function Rounds(v: Working, block: Bytes, t: nat): Working
    requires |block| == 64 && t <= 64
  {
    if t == 0 then v else Round(Rounds(v, block, t - 1), K(t - 1), W(block, t - 1))
  }

  function Initial(h: seq<Word>): Working
    requires |h| == 8
  {
    Working(h[0], h[1], h[2], h[3], h[4], h[5], h[6], h[7])
  }

  /** Steps 2 to 4: the next hash value. */
  function Compress(h: seq<Word>, block: Bytes): (r: seq<Word>)
    requires |h| == 8 && |block| == 64
    ensures |r| == 8
  {
    var v := Rounds(Initial(h), block, 64);
    [Add(v.a, h[0]), Add(v.b, h[1]), Add(v.c, h[2]), Add(v.d, h[3]),
     Add(v.e, h[4]), Add(v.f, h[5]), Add(v.g, h[6]), Add(v.h, h[7])]
  }

  /** The hash value after the first `n` blocks. */
  function HashValue(msg: Bytes, n: nat): (h: seq<Word>)
    requires 64 * n <= |msg|
    ensures |h| == 8
  {
    if n == 0 then H0() else Compress(HashValue(msg, n - 1), msg[64 * (n - 1)..64 * n])
  }

  function Be64(n: nat): (b: Bytes)
    ensures |b| == 8
  {
    Be32(n / U32_LIMIT) + Be32(n)
  }

  /** How many zero bytes follow the `0x80`: the fewest that leave 8 bytes of the last block. */
  function Zeros(length: nat): nat {
    if length % 64 <= 55 then 55 - length % 64 else 119 - length % 64
  }

  /** Section 5.1.1 on whole bytes. The length is a 64-bit count of bits. */
  function Pad(data: Bytes): Bytes {
    data + [0x80] + seq(Zeros(|data|), _ => 0) + Be64(8 * |data|)
  }

  function WordsToBytes(h: seq<Word>): Bytes {
    if h == [] then [] else BytesOf(h[0]) + WordsToBytes(h[1..])
  }

  function Sha256(data: Bytes): Bytes {
    WordsToBytes(HashValue(Pad(data), |Pad(data)| / 64))
  }

  function BlockCount(length: nat): nat {
    length / 64 + if length % 64 <= 55 then 1 else 2
  }

  /** The padded length is a whole number of blocks. */
  lemma Blocks(length: nat)
    ensures length + 9 + Zeros(length) == 64 * BlockCount(length) < length + 9 + 64
  {
    assert length == 64 * (length / 64) + length % 64;
  }

  lemma PadLength(data: Bytes)
    ensures |Pad(data)| == 64 * BlockCount(|data|)
  {
    Blocks(|data|);
    hide Zeros, BlockCount, Be64;
    assert |Pad(data)| == |data| + 1 + Zeros(|data|) + 8;
  }

  /** The padded message is the shortest whole number of blocks with room for the `0x80` and the length. */
  lemma PadIsShortest(data: Bytes, n: nat)
    requires 64 * n >= |data| + 9
    ensures |Pad(data)| <= 64 * n
  {
    hide Zeros, BlockCount, Pad;
    Blocks(|data|);
    PadLength(data);
  }

  function Unpad(msg: Bytes): Bytes
    requires |msg| >= 8
  {
    var n := msg[|msg| - 8..];
    var length := (FromBe32(n[..4]) * U32_LIMIT + FromBe32(n[4..])) / 8;
    if length <= |msg| then msg[..length] else []
  }

  /** Padding can be undone, for every message FIPS 180-4 admits. */
  lemma PadCanBeUndone(data: Bytes)
    requires |data| < 0x2000_0000_0000_0000
    ensures Unpad(Pad(data)) == data
  {
    hide Be32, FromBe32, Zeros;
    var bits, msg := 8 * |data|, Pad(data);
    assert msg[|msg| - 8..] == Be64(bits);
    assert msg[..|data|] == data;
    LengthRoundTrip(|data|);
  }

  lemma LengthRoundTrip(length: nat)
    requires length < 0x2000_0000_0000_0000
    ensures var b := Be64(8 * length); (FromBe32(b[..4]) * U32_LIMIT + FromBe32(b[4..])) / 8 == length
  {
    var bits := 8 * length;
    assert |Be32(bits)| == |Be32(bits / U32_LIMIT)| == 4;
    hide Be32, FromBe32;
    assert Be64(bits)[..4] == Be32(bits / U32_LIMIT) && Be64(bits)[4..] == Be32(bits);
    Be32Wraps(bits / U32_LIMIT);
    Be32Wraps(bits);
    assert bits / U32_LIMIT < U32_LIMIT;
    assert bits / U32_LIMIT * U32_LIMIT + bits % U32_LIMIT == bits;
  }

  // ---- The code ----

  method Sha256Of(data: Bytes) returns (out: Bytes)
    ensures out == Sha256(data)
  {
    var initial := H0();
    var msg := Padded(data);
    hide Compress, H0, Pad, BytesOf;
    var h := new Word[8](i requires 0 <= i < 8 => initial[i]);
    assert h[..] == initial;
    var block := 0;
    while block < |msg| / 64
      invariant 0 <= block <= |msg| / 64
      invariant h[..] == HashValue(msg, block)
    {
      CompressInPlace(h, msg[64 * block..64 * (block + 1)]);
      block := block + 1;
    }
    hide HashValue, WordsToBytes;
    out := Output(h);
  }

  /** `sha256`'s last loop. */
  method Output(h: array<Word>) returns (out: Bytes)
    requires h.Length == 8
    ensures out == WordsToBytes(h[..])
  {
    hide BytesOf;
    out := [];
    var i := 0;
    while i < 8
      invariant 0 <= i <= 8
      invariant out + WordsToBytes(h[i..]) == WordsToBytes(h[..])
    {
      assert h[i..][1..] == h[i + 1..];
      ghost var before := out;
      out := out + BytesOf(h[i]);
      assert before + (BytesOf(h[i]) + WordsToBytes(h[i + 1..])) == out + WordsToBytes(h[i + 1..]);
      i := i + 1;
    }
    assert out + WordsToBytes(h[8..]) == out;
  }

  method Padded(data: Bytes) returns (msg: Bytes)
    ensures msg == Pad(data)
  {
    msg := data + [0x80];
    while |msg| % 64 != 56
      invariant |data| + 1 <= |msg| <= |data| + 1 + Zeros(|data|)
      invariant msg == data + [0x80] + seq(|msg| - |data| - 1, _ => 0)
      decreases |data| + 1 + Zeros(|data|) - |msg|
    {
      LastZero(|data|, |msg|);
      msg := msg + [0];
    }
    FirstBoundary(|data|, |msg|);
    msg := msg + Be64(8 * |data|);
  }

  lemma LastZero(length: nat, at: nat)
    requires length + 1 <= at <= length + 1 + Zeros(length) && at % 64 != 56
    ensures at < length + 1 + Zeros(length)
  {}

  lemma FirstBoundary(length: nat, at: nat)
    requires length + 1 <= at <= length + 1 + Zeros(length) && at % 64 == 56
    ensures at == length + 1 + Zeros(length)
  {}

  /** The body of the loop over the blocks: the schedule, the 64 rounds, the new hash value in place. */
  method CompressInPlace(hash: array<Word>, block: Bytes)
    requires hash.Length == 8 && |block| == 64
    modifies hash
    ensures hash[..] == Compress(old(hash[..]), block)
  {
    hide Rounds, Add, W, Compress, Values;
    var w := Schedule(block);
    var v := RunRounds(hash[..], w, block);
    var i := 0;
    ghost var before := hash[..];
    var vs := Values(v);
    while i < 8
      invariant 0 <= i <= 8
      invariant forall j | 0 <= j < 8 :: hash[j] == if j < i then Add(vs[j], before[j]) else before[j]
    {
      hash[i] := Add(vs[i], hash[i]);
      i := i + 1;
    }
    CompressAdds(before, block, v, hash[..]);
  }

  function Values(v: Working): (s: seq<Word>)
    ensures |s| == 8
  {
    [v.a, v.b, v.c, v.d, v.e, v.f, v.g, v.h]
  }

  lemma CompressAdds(before: seq<Word>, block: Bytes, v: Working, after: seq<Word>)
    requires |before| == 8 && |block| == 64 && |after| == 8 && v == Rounds(Initial(before), block, 64)
    requires forall j | 0 <= j < 8 :: after[j] == Add(Values(v)[j], before[j])
    ensures after == Compress(before, block)
  {
    hide Rounds, Add;
    assert after == [after[0], after[1], after[2], after[3], after[4], after[5], after[6], after[7]];
  }

  method RunRounds(hash: seq<Word>, w: array<Word>, ghost block: Bytes) returns (v: Working)
    requires |hash| == 8 && |block| == 64 && w.Length == 64
    requires forall t | 0 <= t < 64 :: w[t] == W(block, t)
    ensures v == Rounds(Initial(hash), block, 64)
  {
    var a, b, c, d := hash[0], hash[1], hash[2], hash[3];
    var e, f, g, h := hash[4], hash[5], hash[6], hash[7];
    ghost var start := Initial(hash);
    assert Rounds(start, block, 0) == start;
    hide W, Rounds, BigSigma0, BigSigma1, Ch, Maj, Add, K;
    var i := 0;
    while i < 64
      invariant 0 <= i <= 64
      invariant Working(a, b, c, d, e, f, g, h) == Rounds(start, block, i)
    {
      RoundStep(start, block, i);
      var t1 := Add(Add(Add(Add(h, BigSigma1(e)), Ch(e, f, g)), K(i)), w[i]);
      var t2 := Add(BigSigma0(a), Maj(a, b, c));
      h := g;
      g := f;
      f := e;
      e := Add(d, t1);
      d := c;
      c := b;
      b := a;
      a := Add(t1, t2);
      i := i + 1;
    }
    v := Working(a, b, c, d, e, f, g, h);
  }

  lemma RoundStep(start: Working, block: Bytes, i: nat)
    requires |block| == 64 && i < 64
    ensures Round(Rounds(start, block, i), K(i), W(block, i)) == Rounds(start, block, i + 1)
  {
    hide Round, W, K;
  }

  method Schedule(block: Bytes) returns (w: array<Word>)
    requires |block| == 64
    ensures fresh(w) && w.Length == 64 && forall t | 0 <= t < 64 :: w[t] == W(block, t)
  {
    hide *;
    w := new Word[64];
    var i := 0;
    while i < 16
      invariant 0 <= i <= 16
      invariant forall t | 0 <= t < i :: w[t] == W(block, t)
    {
      FirstWords(block, i);
      w[i] := WordOf(block[4 * i..4 * i + 4]);
      i := i + 1;
    }
    while i < 64
      invariant 16 <= i <= 64
      invariant forall t | 0 <= t < i :: w[t] == W(block, t)
    {
      ScheduleStep(block, i);
      var s0 := SmallSigma0(w[i - 15]);
      var s1 := SmallSigma1(w[i - 2]);
      w[i] := Add(Add(Add(w[i - 16], s0), w[i - 7]), s1);
      i := i + 1;
    }
  }

  lemma AddCommutes(x: Word, y: Word)
    ensures Add(x, y) == Add(y, x)
  {}

  lemma AddWraps(x: Word, y: Word)
    ensures var sum := x as int + y as int; Add(x, y) as int == if sum < U32_LIMIT then sum else sum - U32_LIMIT
  {}

  lemma AddAssociates(x: Word, y: Word, z: Word)
    ensures Add(Add(x, y), z) == Add(x, Add(y, z))
  {
    AddWraps(x, y);
    AddWraps(y, z);
    hide Add;
    AddWraps(Add(x, y), z);
    AddWraps(x, Add(y, z));
  }

  lemma AddReversed(a: Word, b: Word, c: Word, d: Word)
    ensures Add(Add(Add(a, b), c), d) == Add(Add(Add(d, c), b), a)
  {
    hide Add;
    AddCommutes(Add(Add(a, b), c), d);
    AddCommutes(Add(a, b), c);
    AddAssociates(d, c, Add(a, b));
    AddCommutes(a, b);
    AddAssociates(Add(d, c), b, a);
  }

  /** The code adds the four terms in the opposite order. */
  lemma FirstWords(block: Bytes, t: nat)
    requires |block| == 64 && t < 16
    ensures W(block, t) == WordOf(block[4 * t..4 * t + 4])
  {}

  lemma ScheduleStep(block: Bytes, t: nat)
    requires |block| == 64 && 16 <= t
    ensures Add(Add(Add(W(block, t - 16), SmallSigma0(W(block, t - 15))), W(block, t - 7)), SmallSigma1(W(block, t - 2)))
         == W(block, t)
  {
    hide SmallSigma0, SmallSigma1, WordOf, Add;
    AddReversed(W(block, t - 16), SmallSigma0(W(block, t - 15)), W(block, t - 7), SmallSigma1(W(block, t - 2)));
  }

  // ---- Base64, section 4 of RFC 4648, without padding ----

  function Letter(i: nat): char
    requires i < 64
  {
    if i < 26 then 'A' + i as char
    else if i < 52 then 'a' + (i - 26) as char
    else if i < 62 then '0' + (i - 52) as char
    else if i == 62 then '+' else '/'
  }

  function Sextet(c: char): Option<nat> {
    if 'A' <= c <= 'Z' then Some(c as nat - 'A' as nat)
    else if 'a' <= c <= 'z' then Some(c as nat - 'a' as nat + 26)
    else if '0' <= c <= '9' then Some(c as nat - '0' as nat + 52)
    else if c == '+' then Some(62)
    else if c == '/' then Some(63)
    else None
  }

  /** Up to three bytes as one 24-bit number, missing bytes being zero. */
  function Group(c: Bytes): nat
    requires 1 <= |c| <= 3
  {
    c[0] as nat * 0x1_0000 + (if |c| > 1 then c[1] as nat * 256 else 0) + (if |c| > 2 then c[2] as nat else 0)
  }

  /** `(n >> (18 - 6 * i)) & 0x3f`. */
  function SextetAt(n: nat, i: nat): (r: nat)
    requires i < 4
    ensures r < 64
  {
    (if i == 0 then n / 0x4_0000 else if i == 1 then n / 0x1000 else if i == 2 then n / 64 else n) % 64
  }

  function EncodeGroup(c: Bytes): (text: string)
    requires 1 <= |c| <= 3
    ensures |text| == |c| + 1
  {
    seq(|c| + 1, i requires 0 <= i < |c| + 1 => Letter(SextetAt(Group(c), i)))
  }

  function Base64(data: Bytes): string {
    if data == [] then ""
    else if |data| < 3 then EncodeGroup(data)
    else EncodeGroup(data[..3]) + Base64(data[3..])
  }

  function DecodeGroup(text: string): Option<Bytes>
    requires 2 <= |text| <= 4
  {
    var s0, s1 := Sextet(text[0]), Sextet(text[1]);
    var s2 := if |text| > 2 then Sextet(text[2]) else Some(0);
    var s3 := if |text| > 3 then Sextet(text[3]) else Some(0);
    if s0.Some? && s1.Some? && s2.Some? && s3.Some? then
      var n := s0.value * 0x4_0000 + s1.value * 0x1000 + s2.value * 64 + s3.value;
      Some([(n / 0x1_0000 % 256) as byte, (n / 256 % 256) as byte, (n % 256) as byte][..|text| - 1])
    else None
  }

  function FromBase64(text: string): Option<Bytes> {
    if text == "" then Some([])
    else if |text| == 1 then None
    else if |text| < 4 then DecodeGroup(text)
    else
      match DecodeGroup(text[..4])
      case None => None
      case Some(first) =>
        match FromBase64(text[4..])
        case None => None
        case Some(rest) => Some(first + rest)
  }

  lemma SextetOfLetter(i: nat)
    requires i < 64
    ensures Sextet(Letter(i)) == Some(i)
  {}

  lemma SextetsOf(n: nat)
    requires n < 0x100_0000
    ensures SextetAt(n, 0) * 0x4_0000 + SextetAt(n, 1) * 0x1000 + SextetAt(n, 2) * 64 + SextetAt(n, 3) == n
  {
    var q2, q1, q0 := n / 64, n / 0x1000, n / 0x4_0000;
    assert q1 == q2 / 64 && q0 == q1 / 64 && q0 < 64;
    assert n == 64 * q2 + n % 64 && q2 == 64 * q1 + q2 % 64 && q1 == 64 * q0 + q1 % 64;
  }

  lemma BytesOfGroup(b0: nat, b1: nat, b2: nat)
    requires b0 < 256 && b1 < 256 && b2 < 256
    ensures var n := b0 * 0x1_0000 + b1 * 256 + b2;
      n / 0x1_0000 % 256 == b0 && n / 256 % 256 == b1 && n % 256 == b2
  {
    var n := b0 * 0x1_0000 + b1 * 256 + b2;
    assert n / 256 == b0 * 256 + b1;
  }

  lemma LowBitsOfGroup(b0: nat, b1: nat)
    ensures (b0 * 0x1_0000 + b1 * 256) % 64 == 0
    ensures b0 * 0x1_0000 / 64 % 64 == 0
  {
    Multiple(b0 * 1024 + b1 * 4);
    Multiple(b0 * 1024);
    Multiple(b0 * 16);
  }

  lemma Multiple(k: nat)
    ensures 64 * k % 64 == 0 && 64 * k / 64 == k
  {}

  lemma GroupDigits(c: Bytes)
    requires 1 <= |c| <= 3
    ensures var n := Group(c);
      && SextetAt(n, 0) * 0x4_0000 + SextetAt(n, 1) * 0x1000 + SextetAt(n, 2) * 64 + SextetAt(n, 3) == n
      && n / 0x1_0000 % 256 == c[0] as nat
      && n / 256 % 256 == (if |c| > 1 then c[1] as nat else 0)
      && n % 256 == (if |c| > 2 then c[2] as nat else 0)
      && (|c| < 3 ==> SextetAt(n, 3) == 0)
      && (|c| < 2 ==> SextetAt(n, 2) == 0)
  {
    BytesOfGroup(c[0] as nat, if |c| > 1 then c[1] as nat else 0, if |c| > 2 then c[2] as nat else 0);
    LowBitsOfGroup(c[0] as nat, if |c| > 1 then c[1] as nat else 0);
    assert Group(c) < 0x100_0000;
    SextetsOf(Group(c));
  }

  lemma GroupRoundTrip(c: Bytes)
    requires 1 <= |c| <= 3
    ensures DecodeGroup(EncodeGroup(c)) == Some(c)
  {
    var n := Group(c);
    GroupDigits(c);
    SextetOfLetter(SextetAt(n, 0));
    SextetOfLetter(SextetAt(n, 1));
    SextetOfLetter(SextetAt(n, 2));
    SextetOfLetter(SextetAt(n, 3));
    hide Group, SextetAt, Letter, Sextet;
    var d := DecodeGroup(EncodeGroup(c)).value;
    assert d == c;
  }

  /** The encoding loses nothing. */
  lemma {:induction false} Base64RoundTrip(data: Bytes)
    ensures FromBase64(Base64(data)) == Some(data)
    decreases |data|
  {
    hide DecodeGroup, EncodeGroup;
    if 0 < |data| < 3 {
      GroupRoundTrip(data);
    } else if data != [] {
      var first := EncodeGroup(data[..3]);
      GroupRoundTrip(data[..3]);
      Base64RoundTrip(data[3..]);
      assert Base64(data)[..4] == first && Base64(data)[4..] == Base64(data[3..]);
      assert data[..3] + data[3..] == data;
    }
  }

  lemma NoLetterIsColon(i: nat)
    requires i < 64
    ensures Letter(i) != ':'
  {}

  lemma {:induction false} Base64HasNoColon(data: Bytes)
    ensures ':' !in Base64(data)
    decreases |data|
  {
    hide Letter, SextetAt, Group;
    forall i: nat | i < 64
      ensures Letter(i) != ':'
    {
      NoLetterIsColon(i);
    }
    if |data| >= 3 {
      Base64HasNoColon(data[3..]);
    }
  }

  method Base64NoPad(data: Bytes) returns (out: string)
    ensures out == Base64(data)
  {
    assert Base64([]) == "" && data[0..] == data && data[|data|..] == [];
    hide EncodeGroup, Base64;
    out := "";
    var at := 0;
    assert out + Base64(data) == Base64(data);
    while at < |data|
      invariant 0 <= at <= |data|
      invariant out + Base64(data[at..]) == Base64(data)
    {
      var c := data[at..if at + 3 <= |data| then at + 3 else |data|];
      Base64Step(data, at, c, out);
      out := AppendGroup(out, c);
      at := at + |c|;
    }
    assert out + "" == out;
  }

  lemma Base64Step(data: Bytes, at: nat, c: Bytes, out: string)
    requires at < |data| && c == data[at..if at + 3 <= |data| then at + 3 else |data|]
    ensures out + Base64(data[at..]) == out + EncodeGroup(c) + Base64(data[at + |c|..])
  {
    hide EncodeGroup;
    assert data[at..][|c|..] == data[at + |c|..] && data[at..][..|c|] == c;
    if |c| < 3 {
      assert data[at..] == c;
      assert EncodeGroup(c) + "" == EncodeGroup(c);
    }
    assert Base64(data[at..]) == EncodeGroup(c) + Base64(data[at + |c|..]);
  }

  /** The inner loop: one letter for each sextet the chunk has bits in. */
  method AppendGroup(before: string, c: Bytes) returns (out: string)
    requires 1 <= |c| <= 3
    ensures out == before + EncodeGroup(c)
  {
    hide Letter, SextetAt, Group;
    out := before;
    var n := Group(c);
    var i := 0;
    while i < |c| + 1
      invariant 0 <= i <= |c| + 1
      invariant out == before + EncodeGroup(c)[..i]
    {
      out := out + [Letter(SextetAt(n, i))];
      i := i + 1;
    }
  }

  // ---- Fingerprints ----

  const PREFIX := "SHA256:"

  function Fingerprint(blob: Bytes): string {
    PREFIX + Base64(Sha256(blob))
  }

  /** A fingerprint names one digest. */
  lemma FingerprintNamesDigest(a: Bytes, b: Bytes)
    ensures Fingerprint(a) == Fingerprint(b) <==> Sha256(a) == Sha256(b)
  {
    hide Sha256, Base64, FromBase64;
    Base64RoundTrip(Sha256(a));
    Base64RoundTrip(Sha256(b));
    if Fingerprint(a) == Fingerprint(b) {
      assert Fingerprint(a)[|PREFIX|..] == Base64(Sha256(a));
      assert Fingerprint(b)[|PREFIX|..] == Base64(Sha256(b));
    }
  }
}

/** The Secure Hash Algorithm as FIPS 180-4 defines it, for SHA-1. */
module Sha1Standard {
  import opened Texts

  type word = bv32

  datatype Hash = Hash(a: word, b: word, c: word, d: word, e: word)

  /** Section 3.2, operation 5. */
  function Rotl1(x: word): word { (x << 1) | (x >> 31) }
  function Rotl5(x: word): word { (x << 5) | (x >> 27) }
  function Rotl30(x: word): word { (x << 30) | (x >> 2) }

  /** Section 4.1.1. */
  function Ch(x: word, y: word, z: word): word { (x & y) ^ (!x & z) }
  function Parity(x: word, y: word, z: word): word { x ^ y ^ z }
  function Maj(x: word, y: word, z: word): word { (x & y) ^ (x & z) ^ (y & z) }

  function F(t: nat, x: word, y: word, z: word): word {
    if t < 20 then Ch(x, y, z) else if t < 40 then Parity(x, y, z) else if t < 60 then Maj(x, y, z) else Parity(x, y, z)
  }

  /** Section 4.2.1. */
  function K(t: nat): word {
    if t < 20 then 0x5a827999 else if t < 40 then 0x6ed9eba1 else if t < 60 then 0x8f1bbcdc else 0xca62c1d6
  }

  /** Section 5.3.1. */
  function Initial(): Hash { Hash(0x67452301, 0xefcdab89, 0x98badcfe, 0x10325476, 0xc3d2e1f0) }

  /** Section 3.1: a word is four bytes, the most significant first. */
  function WordAt(s: seq<byte>, i: nat): word
    requires i + 4 <= |s|
  {
    ((s[i] as word) << 24) | ((s[i + 1] as word) << 16) | ((s[i + 2] as word) << 8) | (s[i + 3] as word)
  }

  /** The message schedule of section 6.1.2, step 1. */
  function W(block: seq<byte>, t: nat): word
    requires |block| == 64
  {
    if t < 16 then WordAt(block, 4 * t)
    else Rotl1(W(block, t - 3) ^ W(block, t - 8) ^ W(block, t - 14) ^ W(block, t - 16))
  }

  /** The temporary T of section 6.1.2, step 3. */
  function Temporary(a: word, f: word, e: word, k: word, w: word): word {
    Rotl5(a) + f + e + k + w
  }

  /** One round of section 6.1.2, step 3. */
  function Round(block: seq<byte>, t: nat, r: Hash): Hash
    requires |block| == 64
  {
    Hash(Temporary(r.a, F(t, r.b, r.c, r.d), r.e, K(t), W(block, t)), r.a, Rotl30(r.b), r.c, r.d)
  }

  function Rounds(block: seq<byte>, t: nat, h: Hash): Hash
    requires |block| == 64
  {
    if t == 0 then h else Round(block, t - 1, Rounds(block, t - 1, h))
  }

  /** Addition modulo 2^32. */
  function Plus(x: word, y: word): word { x + y }

  /** Section 6.1.2, all four steps. */
  function Compress(h: Hash, block: seq<byte>): Hash
    requires |block| == 64
  {
    var r := Rounds(block, 80, h);
    Hash(Plus(h.a, r.a), Plus(h.b, r.b), Plus(h.c, r.c), Plus(h.d, r.d), Plus(h.e, r.e))
  }

  function HashBlocks(s: seq<byte>): Hash
    requires |s| % 64 == 0
  {
    if |s| == 0 then Initial() else Compress(HashBlocks(s[..|s| - 64]), s[|s| - 64..])
  }

  const TWO32 := 0x1_0000_0000
  const TWO64 := 0x1_0000_0000_0000_0000

  /** `n` as a 32-bit and a 64-bit big-endian number. */
  function Bytes32(n: int): seq<byte>
    requires 0 <= n < TWO32
  {
    WordBytes(n as word)
  }

  function Bytes64(n: int): seq<byte>
    requires 0 <= n < TWO64
  {
    Bytes32(n / TWO32) + Bytes32(n % TWO32)
  }

  lemma {:induction false} PadLength(n: nat)
    ensures (n + 1 + (55 - n) % 64 + 8) % 64 == 0
  {
    var q, r := (55 - n) / 64, (55 - n) % 64;
    assert 55 - n == 64 * q + r;
    assert n + 1 + r + 8 == 64 * (1 - q);
  }

  /** Section 5.1.1; the length in bits is below 2^64 for every message the standard covers. */
  function Pad(m: seq<byte>): seq<byte>
    ensures |Pad(m)| % 64 == 0
  {
    PadLength(|m|);
    m + [0x80] + Repeat(0 as byte, (55 - |m|) % 64) + Bytes64(8 * |m| % TWO64)
  }

  function WordBytes(x: word): (r: seq<byte>)
    ensures |r| == 4
  {
    [((x >> 24) & 0xff) as byte, ((x >> 16) & 0xff) as byte, ((x >> 8) & 0xff) as byte, (x & 0xff) as byte]
  }

  function HashBytes(h: Hash): seq<byte> {
    WordBytes(h.a) + WordBytes(h.b) + WordBytes(h.c) + WordBytes(h.d) + WordBytes(h.e)
  }

  /** The message digest. */
  function Digest(m: seq<byte>): seq<byte> {
    HashBytes(HashBlocks(Pad(m)))
  }

  // ------------------------------------------------ the helpers as numbers

  /** A rotation multiplies modulo 2^32 and adds the bits that fall off. */
  lemma {:induction false} Rotation1(x: word)
    ensures Rotl1(x) == x * 2 + x / 0x8000_0000
  {
  }

  lemma {:induction false} Rotation5(x: word)
    ensures Rotl5(x) == x * 32 + x / 0x800_0000
  {
  }

  lemma {:induction false} Rotation30(x: word)
    ensures Rotl30(x) == x * 0x4000_0000 + x / 4
  {
  }

  /** A word is the big-endian number of its four bytes. */
  lemma {:induction false} WordIs(s: seq<byte>, i: nat)
    requires i + 4 <= |s|
    ensures WordAt(s, i) ==
      0x100_0000 * (s[i] as word) + 0x1_0000 * (s[i + 1] as word) + 0x100 * (s[i + 2] as word) + (s[i + 3] as word)
  {
  }

  /** Writing a word and reading it are inverse. */
  lemma {:induction false} WordBack(x: word, s: seq<byte>)
    requires |s| == 4
    ensures WordAt(WordBytes(x), 0) == x && WordBytes(WordAt(s, 0)) == s
  {
  }

  /** The four bytes of a number spell it. */
  lemma {:induction false} Bytes32Is(n: int)
    requires 0 <= n < TWO32
    ensures |Bytes32(n)| == 4 && WordAt(Bytes32(n), 0) == n as word
  {
    hide WordAt, WordBytes;
    WordBack(n as word, [0, 0, 0, 0]);
  }
}

/** The block-oriented implementation: rolling schedule, renamed registers, buffered tail. */
module Sha1 {
  import opened Texts
  import opened Sha1Standard

  // ------------------------------------------------------------- rounds

  /** The rewritten functions of the rounds are those of the standard. */
  lemma {:induction false} ChRewritten(b: word, c: word, d: word)
    ensures ((c ^ d) & b) ^ d == Ch(b, c, d)
  {
  }

  lemma {:induction false} MajRewritten(b: word, c: word, d: word)
    ensures (b & c) + (d & (b ^ c)) == Maj(b, c, d)
  {
  }

  /** Which function and constant a round uses. */
  lemma {:induction false} ChRounds(t: nat, b: word, c: word, d: word)
    requires t < 20
    ensures ((c ^ d) & b) ^ d == F(t, b, c, d) && K(t) == 0x5a827999
  {
    ChRewritten(b, c, d);
  }

  lemma {:induction false} MajRounds(t: nat, b: word, c: word, d: word)
    requires 40 <= t < 60
    ensures (b & c) + (d & (b ^ c)) == F(t, b, c, d) && K(t) == 0x8f1bbcdc
  {
    MajRewritten(b, c, d);
  }

  lemma {:induction false} ParityRounds(t: nat, b: word, c: word, d: word)
    requires 20 <= t < 40 || 60 <= t < 80
    ensures b ^ c ^ d == F(t, b, c, d) && K(t) == if t < 40 then 0x6ed9eba1 else 0xca62c1d6
  {
  }

  /** The 16-word array holds the last 16 words of the schedule, each at its index modulo 16. */
  ghost predicate Rolls(array_: seq<word>, block: seq<byte>, t: nat)
    requires |block| == 64
  {
    |array_| == 16 && forall k: nat :: t <= k + 16 && k < t ==> array_[k % 16] == W(block, k)
  }

  lemma {:induction false} RollsOn(array_: seq<word>, block: seq<byte>, t: nat, x: word)
    requires |block| == 64 && Rolls(array_, block, t) && x == W(block, t)
    ensures Rolls(array_[t % 16 := x], block, t + 1)
  {
    forall k: nat | t + 1 <= k + 16 && k < t + 1
      ensures array_[t % 16 := x][k % 16] == W(block, k)
    {
      if k != t {
        assert k % 16 != t % 16;
      }
    }
  }

  /** SHA_ROUND: store the schedule word, add to E, rotate B. */
  method ShaRound(array_: array<word>, t: nat, temp: word, fn: word, constant: word, a: word, b: word, e: word)
      returns (b': word, e': word)
    requires array_.Length == 16
    modifies array_
    ensures array_[..] == old(array_[..])[t % 16 := temp]
    ensures b' == Rotl30(b) && e' == RoundSum(e, temp, a, fn, constant)
  {
    array_[t % 16] := temp;
    e' := e + (temp + Rotl5(a) + fn + constant);
    b' := Rotl30(b);
  }

  /** The registers are those of the standard after `t` rounds, under the names this round gives them. */
  ghost predicate InStep(block: seq<byte>, t: nat, h: Hash, a: word, b: word, c: word, d: word, e: word,
      array_: seq<word>)
    requires |block| == 64
  {
    Rounds(block, t, h) == Hash(a, b, c, d, e) && Rolls(array_, block, t)
  }

  /** What a round adds up, in the order the implementation does. */
  function RoundSum(e: word, w: word, a: word, f: word, k: word): word {
    e + (w + Rotl5(a) + f + k)
  }

  lemma {:induction false} Reordered(a: word, f: word, e: word, k: word, w: word)
    ensures Temporary(a, f, e, k, w) == RoundSum(e, w, a, f, k)
  {
    hide Rotl5;
  }

  /** What one round computes is what the standard's round computes, in another order of addition. */
  lemma {:induction false} NextRound(block: seq<byte>, t: nat, h: Hash, a: word, b: word, c: word, d: word, e: word)
    requires |block| == 64 && Rounds(block, t, h) == Hash(a, b, c, d, e)
    ensures Rounds(block, t + 1, h) == Hash(RoundSum(e, W(block, t), a, F(t, b, c, d), K(t)), a, Rotl30(b), c, d)
  {
    hide Rotl1, Rotl5, Rotl30, F, K, W, WordAt, Temporary, RoundSum;
    Reordered(a, F(t, b, c, d), e, K(t), W(block, t));
  }

  lemma {:induction false} RoundDone(block: seq<byte>, t: nat, h: Hash, a: word, b: word, c: word, d: word, e: word,
      array_: seq<word>, w: word, f: word, k: word, b': word, e': word)
    requires |block| == 64 && InStep(block, t, h, a, b, c, d, e, array_) && w == W(block, t) && f == F(t, b, c, d) &&
      k == K(t)
    requires b' == Rotl30(b) && e' == RoundSum(e, w, a, f, k)
    ensures InStep(block, t + 1, h, e', a, b', c, d, array_[t % 16 := w])
  {
    hide Rotl1, Rotl5, Rotl30, F, K, W, WordAt, Rounds, Rolls, RoundSum;
    RollsOn(array_, block, t, w);
    NextRound(block, t, h, a, b, c, d, e);
  }

  lemma {:induction false} Sourced(block: seq<byte>, t: nat)
    requires |block| == 64 && t < 16
    ensures WordAt(block, 4 * t) == W(block, t)
  {
    hide WordAt;
  }

  /** SHA_MIX reads the four words the standard names. */
  lemma {:induction false} Mixed(array_: seq<word>, block: seq<byte>, t: nat)
    requires |block| == 64 && t >= 16 && Rolls(array_, block, t)
    ensures Rotl1(array_[(t + 13) % 16] ^ array_[(t + 8) % 16] ^ array_[(t + 2) % 16] ^ array_[t % 16]) == W(block, t)
  {
    assert (t + 13) % 16 == (t - 3) % 16 && (t + 8) % 16 == (t - 8) % 16 && (t + 2) % 16 == (t - 14) % 16 &&
      t % 16 == (t - 16) % 16;
  }

  /** T_0_15 */
  method T_0_15(block: seq<byte>, array_: array<word>, t: nat, ghost h: Hash, a: word, b: word, c: word, d: word,
      e: word)
      returns (b': word, e': word)
    requires 0 <= t <= 15 && |block| == 64 && array_.Length == 16 && InStep(block, t, h, a, b, c, d, e, array_[..])
    modifies array_
    ensures InStep(block, t + 1, h, e', a, b', c, d, array_[..])
  {
    hide Rotl5, Rotl30, W, Rounds, Rolls, F, K, RoundSum;
    ghost var before := array_[..];
    assert 0 <= t % 16 < 16;
    var temp, fn, constant := WordAt(block, 4 * t), ((c ^ d) & b) ^ d, 0x5a827999;
    Sourced(block, t);
    ChRounds(t, b, c, d);
    b', e' := ShaRound(array_, t, temp, fn, constant, a, b, e);
    RoundDone(block, t, h, a, b, c, d, e, before, temp, fn, constant, b', e');
  }

  /** T_16_19 */
  method T_16_19(ghost block: seq<byte>, array_: array<word>, t: nat, ghost h: Hash, a: word, b: word, c: word,
      d: word, e: word)
      returns (b': word, e': word)
    requires 16 <= t <= 19 && |block| == 64 && array_.Length == 16 && InStep(block, t, h, a, b, c, d, e, array_[..])
    modifies array_
    ensures InStep(block, t + 1, h, e', a, b', c, d, array_[..])
  {
    hide Rotl5, Rotl30, W, Rounds, Rolls, F, K, RoundSum;
    ghost var before := array_[..];
    assert 0 <= t % 16 < 16;
    var mixed := array_[(t + 13) % 16] ^ array_[(t + 8) % 16] ^ array_[(t + 2) % 16] ^ array_[t % 16];
    var temp, fn, constant := Rotl1(mixed), ((c ^ d) & b) ^ d, 0x5a827999;
    Mixed(before, block, t);
    ChRounds(t, b, c, d);
    b', e' := ShaRound(array_, t, temp, fn, constant, a, b, e);
    RoundDone(block, t, h, a, b, c, d, e, before, temp, fn, constant, b', e');
  }

  /** T_20_39 */
  method T_20_39(ghost block: seq<byte>, array_: array<word>, t: nat, ghost h: Hash, a: word, b: word, c: word,
      d: word, e: word)
      returns (b': word, e': word)
    requires 20 <= t <= 39 && |block| == 64 && array_.Length == 16 && InStep(block, t, h, a, b, c, d, e, array_[..])
    modifies array_
    ensures InStep(block, t + 1, h, e', a, b', c, d, array_[..])
  {
    hide Rotl5, Rotl30, W, Rounds, Rolls, F, K, RoundSum;
    ghost var before := array_[..];
    assert 0 <= t % 16 < 16;
    var mixed := array_[(t + 13) % 16] ^ array_[(t + 8) % 16] ^ array_[(t + 2) % 16] ^ array_[t % 16];
    var temp, fn, constant := Rotl1(mixed), b ^ c ^ d, 0x6ed9eba1;
    Mixed(before, block, t);
    ParityRounds(t, b, c, d);
    b', e' := ShaRound(array_, t, temp, fn, constant, a, b, e);
    RoundDone(block, t, h, a, b, c, d, e, before, temp, fn, constant, b', e');
  }

  /** T_40_59 */
  method T_40_59(ghost block: seq<byte>, array_: array<word>, t: nat, ghost h: Hash, a: word, b: word, c: word,
      d: word, e: word)
      returns (b': word, e': word)
    requires 40 <= t <= 59 && |block| == 64 && array_.Length == 16 && InStep(block, t, h, a, b, c, d, e, array_[..])
    modifies array_
    ensures InStep(block, t + 1, h, e', a, b', c, d, array_[..])
  {
    hide Rotl5, Rotl30, W, Rounds, Rolls, F, K, RoundSum;
    ghost var before := array_[..];
    assert 0 <= t % 16 < 16;
    var mixed := array_[(t + 13) % 16] ^ array_[(t + 8) % 16] ^ array_[(t + 2) % 16] ^ array_[t % 16];
    var temp, fn, constant := Rotl1(mixed), (b & c) + (d & (b ^ c)), 0x8f1bbcdc;
    Mixed(before, block, t);
    MajRounds(t, b, c, d);
    b', e' := ShaRound(array_, t, temp, fn, constant, a, b, e);
    RoundDone(block, t, h, a, b, c, d, e, before, temp, fn, constant, b', e');
  }

  /** T_60_79 */
  method T_60_79(ghost block: seq<byte>, array_: array<word>, t: nat, ghost h: Hash, a: word, b: word, c: word,
      d: word, e: word)
      returns (b': word, e': word)
    requires 60 <= t <= 79 && |block| == 64 && array_.Length == 16 && InStep(block, t, h, a, b, c, d, e, array_[..])
    modifies array_
    ensures InStep(block, t + 1, h, e', a, b', c, d, array_[..])
  {
    hide Rotl5, Rotl30, W, Rounds, Rolls, F, K, RoundSum;
    ghost var before := array_[..];
    assert 0 <= t % 16 < 16;
    var mixed := array_[(t + 13) % 16] ^ array_[(t + 8) % 16] ^ array_[(t + 2) % 16] ^ array_[t % 16];
    var temp, fn, constant := Rotl1(mixed), b ^ c ^ d, 0xca62c1d6;
    Mixed(before, block, t);
    ParityRounds(t, b, c, d);
    b', e' := ShaRound(array_, t, temp, fn, constant, a, b, e);
    RoundDone(block, t, h, a, b, c, d, e, before, temp, fn, constant, b', e');
  }

  /** Rounds 0 to 19. */
  method Rounds_0_19(block: seq<byte>, array_: array<word>, ghost h: Hash, a: word, b: word, c: word, d: word, e: word)
      returns (A: word, B: word, C: word, D: word, E: word)
    requires |block| == 64 && array_.Length == 16 && InStep(block, 0, h, a, b, c, d, e, array_[..])
    modifies array_
    ensures InStep(block, 20, h, A, B, C, D, E, array_[..])
  {
    hide *;
    A, B, C, D, E := a, b, c, d, e;
    B, E := T_0_15(block, array_, 0, h, A, B, C, D, E);
    A, D := T_0_15(block, array_, 1, h, E, A, B, C, D);
    E, C := T_0_15(block, array_, 2, h, D, E, A, B, C);
    D, B := T_0_15(block, array_, 3, h, C, D, E, A, B);
    C, A := T_0_15(block, array_, 4, h, B, C, D, E, A);
    B, E := T_0_15(block, array_, 5, h, A, B, C, D, E);
    A, D := T_0_15(block, array_, 6, h, E, A, B, C, D);
    E, C := T_0_15(block, array_, 7, h, D, E, A, B, C);
    D, B := T_0_15(block, array_, 8, h, C, D, E, A, B);
    C, A := T_0_15(block, array_, 9, h, B, C, D, E, A);
    B, E := T_0_15(block, array_, 10, h, A, B, C, D, E);
    A, D := T_0_15(block, array_, 11, h, E, A, B, C, D);
    E, C := T_0_15(block, array_, 12, h, D, E, A, B, C);
    D, B := T_0_15(block, array_, 13, h, C, D, E, A, B);
    C, A := T_0_15(block, array_, 14, h, B, C, D, E, A);
    B, E := T_0_15(block, array_, 15, h, A, B, C, D, E);
    A, D := T_16_19(block, array_, 16, h, E, A, B, C, D);
    E, C := T_16_19(block, array_, 17, h, D, E, A, B, C);
    D, B := T_16_19(block, array_, 18, h, C, D, E, A, B);
    C, A := T_16_19(block, array_, 19, h, B, C, D, E, A);
  }

  /** Rounds 20 to 39. */
  method Rounds_20_39(ghost block: seq<byte>, array_: array<word>, ghost h: Hash, a: word, b: word, c: word, d: word,
      e: word)
      returns (A: word, B: word, C: word, D: word, E: word)
    requires |block| == 64 && array_.Length == 16 && InStep(block, 20, h, a, b, c, d, e, array_[..])
    modifies array_
    ensures InStep(block, 40, h, A, B, C, D, E, array_[..])
  {
    hide *;
    A, B, C, D, E := a, b, c, d, e;
    B, E := T_20_39(block, array_, 20, h, A, B, C, D, E);
    A, D := T_20_39(block, array_, 21, h, E, A, B, C, D);
    E, C := T_20_39(block, array_, 22, h, D, E, A, B, C);
    D, B := T_20_39(block, array_, 23, h, C, D, E, A, B);
    C, A := T_20_39(block, array_, 24, h, B, C, D, E, A);
    B, E := T_20_39(block, array_, 25, h, A, B, C, D, E);
    A, D := T_20_39(block, array_, 26, h, E, A, B, C, D);
    E, C := T_20_39(block, array_, 27, h, D, E, A, B, C);
    D, B := T_20_39(block, array_, 28, h, C, D, E, A, B);
    C, A := T_20_39(block, array_, 29, h, B, C, D, E, A);
    B, E := T_20_39(block, array_, 30, h, A, B, C, D, E);
    A, D := T_20_39(block, array_, 31, h, E, A, B, C, D);
    E, C := T_20_39(block, array_, 32, h, D, E, A, B, C);
    D, B := T_20_39(block, array_, 33, h, C, D, E, A, B);
    C, A := T_20_39(block, array_, 34, h, B, C, D, E, A);
    B, E := T_20_39(block, array_, 35, h, A, B, C, D, E);
    A, D := T_20_39(block, array_, 36, h, E, A, B, C, D);
    E, C := T_20_39(block, array_, 37, h, D, E, A, B, C);
    D, B := T_20_39(block, array_, 38, h, C, D, E, A, B);
    C, A := T_20_39(block, array_, 39, h, B, C, D, E, A);
  }

  /** Rounds 40 to 59. */
  method Rounds_40_59(ghost block: seq<byte>, array_: array<word>, ghost h: Hash, a: word, b: word, c: word, d: word,
      e: word)
      returns (A: word, B: word, C: word, D: word, E: word)
    requires |block| == 64 && array_.Length == 16 && InStep(block, 40, h, a, b, c, d, e, array_[..])
    modifies array_
    ensures InStep(block, 60, h, A, B, C, D, E, array_[..])
  {
    hide *;
    A, B, C, D, E := a, b, c, d, e;
    B, E := T_40_59(block, array_, 40, h, A, B, C, D, E);
    A, D := T_40_59(block, array_, 41, h, E, A, B, C, D);
    E, C := T_40_59(block, array_, 42, h, D, E, A, B, C);
    D, B := T_40_59(block, array_, 43, h, C, D, E, A, B);
    C, A := T_40_59(block, array_, 44, h, B, C, D, E, A);
    B, E := T_40_59(block, array_, 45, h, A, B, C, D, E);
    A, D := T_40_59(block, array_, 46, h, E, A, B, C, D);
    E, C := T_40_59(block, array_, 47, h, D, E, A, B, C);
    D, B := T_40_59(block, array_, 48, h, C, D, E, A, B);
    C, A := T_40_59(block, array_, 49, h, B, C, D, E, A);
    B, E := T_40_59(block, array_, 50, h, A, B, C, D, E);
    A, D := T_40_59(block, array_, 51, h, E, A, B, C, D);
    E, C := T_40_59(block, array_, 52, h, D, E, A, B, C);
    D, B := T_40_59(block, array_, 53, h, C, D, E, A, B);
    C, A := T_40_59(block, array_, 54, h, B, C, D, E, A);
    B, E := T_40_59(block, array_, 55, h, A, B, C, D, E);
    A, D := T_40_59(block, array_, 56, h, E, A, B, C, D);
    E, C := T_40_59(block, array_, 57, h, D, E, A, B, C);
    D, B := T_40_59(block, array_, 58, h, C, D, E, A, B);
    C, A := T_40_59(block, array_, 59, h, B, C, D, E, A);
  }

  /** Rounds 60 to 79. */
  method Rounds_60_79(ghost block: seq<byte>, array_: array<word>, ghost h: Hash, a: word, b: word, c: word, d: word,
      e: word)
      returns (A: word, B: word, C: word, D: word, E: word)
    requires |block| == 64 && array_.Length == 16 && InStep(block, 60, h, a, b, c, d, e, array_[..])
    modifies array_
    ensures InStep(block, 80, h, A, B, C, D, E, array_[..])
  {
    hide *;
    A, B, C, D, E := a, b, c, d, e;
    B, E := T_60_79(block, array_, 60, h, A, B, C, D, E);
    A, D := T_60_79(block, array_, 61, h, E, A, B, C, D);
    E, C := T_60_79(block, array_, 62, h, D, E, A, B, C);
    D, B := T_60_79(block, array_, 63, h, C, D, E, A, B);
    C, A := T_60_79(block, array_, 64, h, B, C, D, E, A);
    B, E := T_60_79(block, array_, 65, h, A, B, C, D, E);
    A, D := T_60_79(block, array_, 66, h, E, A, B, C, D);
    E, C := T_60_79(block, array_, 67, h, D, E, A, B, C);
    D, B := T_60_79(block, array_, 68, h, C, D, E, A, B);
    C, A := T_60_79(block, array_, 69, h, B, C, D, E, A);
    B, E := T_60_79(block, array_, 70, h, A, B, C, D, E);
    A, D := T_60_79(block, array_, 71, h, E, A, B, C, D);
    E, C := T_60_79(block, array_, 72, h, D, E, A, B, C);
    D, B := T_60_79(block, array_, 73, h, C, D, E, A, B);
    C, A := T_60_79(block, array_, 74, h, B, C, D, E, A);
    B, E := T_60_79(block, array_, 75, h, A, B, C, D, E);
    A, D := T_60_79(block, array_, 76, h, E, A, B, C, D);
    E, C := T_60_79(block, array_, 77, h, D, E, A, B, C);
    D, B := T_60_79(block, array_, 78, h, C, D, E, A, B);
    C, A := T_60_79(block, array_, 79, h, B, C, D, E, A);
  }

  // ------------------------------------------------------------ context

  /** unsigned long long arithmetic. */
  function Wrap(n: nat): nat {
    n % TWO64
  }

  /** The full blocks of a message, and the bytes after them. */
  ghost function Blocks(m: seq<byte>): seq<byte>
    ensures |Blocks(m)| % 64 == 0
  {
    m[..|m| - |m| % 64]
  }

  ghost function Tail(m: seq<byte>): seq<byte> {
    m[|m| - |m| % 64..]
  }

  /** A block that is completed, or added whole, is one more step of the hash. */
  lemma {:induction false} BlockAdded(m: seq<byte>, block: seq<byte>)
    requires |m| % 64 == 0 && |block| == 64
    ensures |m + block| % 64 == 0 && HashBlocks(m + block) == Compress(HashBlocks(m), block)
  {
    hide Compress;
    assert (m + block)[..|m + block| - 64] == m;
    assert (m + block)[|m + block| - 64..] == block;
  }

  lemma {:induction false} HashOfNothing()
    ensures HashBlocks([]) == Initial()
  {
    hide Compress, Initial;
  }

  /** blk_SHA_CTX; `W` is the buffer of input bytes, `message` everything hashed so far. */
  class Context {
    var size: int
    const H: array<word>
    const W: array<byte>
    ghost var message: seq<byte>

    ghost function Registers(): Hash
      requires H.Length == 5
      reads H
    {
      Hash(H[0], H[1], H[2], H[3], H[4])
    }

    /** `size` counts modulo 2^64, as unsigned long long does. */
    ghost predicate Valid()
      reads this, H, W
    {
      && H.Length == 5 && W.Length == 64 && size == Wrap(|message|)
      && Registers() == HashBlocks(Blocks(message)) && W[..|message| % 64] == Tail(message)
    }

    /** An uninitialised blk_SHA_CTX. */
    constructor ()
      ensures H.Length == 5 && W.Length == 64 && fresh(H) && fresh(W)
    {
      size := 0;
      H := new word[5];
      W := new byte[64];
      message := [];
    }

    /** blk_SHA1_Init: the context of the empty message. */
    method Init()
      requires H.Length == 5 && W.Length == 64
      modifies this, H
      ensures Valid() && message == []
    {
      hide HashBlocks, Initial;
      size := 0;
      message := [];
      SetRegisters(Initial());
      HashOfNothing();
      assert Blocks([]) == [] && Tail([]) == [];
    }

    method SetRegisters(h: Hash)
      requires H.Length == 5
      modifies H
      ensures Registers() == h
    {
      H[0], H[1], H[2], H[3], H[4] := h.a, h.b, h.c, h.d, h.e;
    }

    /** blk_SHA1_Block */
    method Block(data: seq<byte>)
      requires H.Length == 5 && |data| == 64
      modifies H
      ensures Registers() == Compress(old(Registers()), data)
    {
      hide Plus, Rounds;
      ghost var h := Registers();
      var A, B, C, D, E := EightyRounds(data, H[0], H[1], H[2], H[3], H[4], h);
      AddRegisters(A, B, C, D, E);
      assert Rounds(data, 80, h) == Hash(A, B, C, D, E);
    }

    method AddRegisters(a: word, b: word, c: word, d: word, e: word)
      requires H.Length == 5
      modifies H
      ensures var h := old(Registers());
        Registers() == Hash(Plus(h.a, a), Plus(h.b, b), Plus(h.c, c), Plus(h.d, d), Plus(h.e, e))
    {
      hide Plus;
      H[0] := Plus(H[0], a);
      H[1] := Plus(H[1], b);
      H[2] := Plus(H[2], c);
      H[3] := Plus(H[3], d);
      H[4] := Plus(H[4], e);
    }

    /** memcpy into the buffer */
    method Copy(at: nat, src: seq<byte>)
      requires W.Length == 64 && at + |src| <= 64
      modifies W
      ensures W[..at] == old(W[..at]) && W[at..at + |src|] == src
    {
      for k := 0 to |src|
        invariant W[..at] == old(W[..at]) && W[at..at + k] == src[..k]
      {
        W[at + k] := src[k];
      }
    }

    /** The end of blk_SHA1_Update: whole blocks straight from the input, the rest into the buffer. */
    method Absorb(data: seq<byte>, ghost before: seq<byte>)
      requires H.Length == 5 && W.Length == 64 && |before| % 64 == 0 && Registers() == HashBlocks(before)
      modifies H, W
      ensures Registers() == HashBlocks(Blocks(before + data)) && W[..|before + data| % 64] == Tail(before + data)
    {
      hide Compress, HashBlocks;
      var rest := data;
      ghost var done := before;
      while |rest| >= 64
        invariant |done| % 64 == 0 && Registers() == HashBlocks(done) && done + rest == before + data
      {
        Block(rest[..64]);
        BlockAdded(done, rest[..64]);
        assert done + rest == (done + rest[..64]) + rest[64..];
        done, rest := done + rest[..64], rest[64..];
      }
      if |rest| != 0 {
        Copy(0, rest);
      }
      SplitAt(before + data, done, rest);
    }

    /** The start of blk_SHA1_Update when bytes are waiting: top up the buffer, and hash it if that fills it. */
    method TopUp(lenW: nat, data: seq<byte>, ghost m: seq<byte>) returns (left: nat, now: nat)
      requires H.Length == 5 && W.Length == 64 && 0 < lenW == |m| % 64
      requires Registers() == HashBlocks(Blocks(m)) && W[..lenW] == Tail(m)
      modifies H, W
      ensures left == if |data| < 64 - lenW then |data| else 64 - lenW
      ensures now == (lenW + left) % 64
      ensures now != 0 ==> Registers() == old(Registers()) && W[..now] == Tail(m) + data
      ensures now == 0 ==>
        |Tail(m) + data[..left]| == 64 &&
        Registers() == HashBlocks(Blocks(m) + (Tail(m) + data[..left]))
    {
      hide Compress, HashBlocks;
      left := 64 - lenW;
      if |data| < left {
        left := |data|;
      }
      Copy(lenW, data[..left]);
      assert W[..lenW + left] == Tail(m) + data[..left];
      now := (lenW + left) % 64;
      if now != 0 {
        assert data[..left] == data;
        return;
      }
      assert W[..] == W[..64];
      Block(W[..]);
      BlockAdded(Blocks(m), Tail(m) + data[..left]);
    }

    /** blk_SHA1_Update: the context stands for the message with `data` added. */
    method Update(data: seq<byte>)
      requires Valid()
      modifies this, H, W
      ensures Valid() && message == old(message) + data
    {
      hide Compress, HashBlocks, Wrap, Blocks, Tail;
      ghost var m := message;
      Remainders(|m|, |data|);
      var lenW := size % 64;
      size := Wrap(size + |data|);
      message := m + data;
      if lenW != 0 {
        var left, now := TopUp(lenW, data, m);
        if now != 0 {
          Unfilled(m, data);
          return;
        }
        Filled(m, data, left);
        Absorb(data[left..], Blocks(m) + (Tail(m) + data[..left]));
      } else {
        Filled(m, data, 0);
        NoTail(m);
        Absorb(data, Blocks(m));
      }
    }

    /** blk_SHA1_Final: the digest of everything the context was given. */
    method Final() returns (hashout: seq<byte>)
      requires Valid()
      modifies this, H, W
      ensures hashout == Digest(old(message))
    {
      hide Compress, HashBlocks, Pad, Bytes32, HashBytes;
      ghost var m := message;
      var padlen := Bytes32(size / 0x2000_0000 % TWO32) + Bytes32(size * 8 % TWO32);
      var i := size % 64;
      PadParts(m, size, i);
      Update([0x80] + Repeat(0 as byte, (55 - i) % 64));
      Update(padlen);
      assert message == Pad(m);
      Whole(Pad(m));
      hashout := Output();
    }

    /** The words of the hash, most significant byte first. */
    method Output() returns (hashout: seq<byte>)
      requires H.Length == 5
      ensures hashout == HashBytes(Registers())
    {
      hide WordBytes;
      hashout := [];
      for i := 0 to 5
        invariant hashout == FirstWords(H[..], i)
      {
        hashout := hashout + WordBytes(H[i]);
      }
      FiveWords(H[..], Registers());
    }
  }

  ghost function FirstWords(w: seq<word>, k: nat): seq<byte>
    requires k <= |w|
  {
    if k == 0 then [] else FirstWords(w, k - 1) + WordBytes(w[k - 1])
  }

  lemma {:induction false} FiveWords(w: seq<word>, h: Hash)
    requires |w| == 5 && h == Hash(w[0], w[1], w[2], w[3], w[4])
    ensures FirstWords(w, 5) == HashBytes(h)
  {
    hide WordBytes;
    assert FirstWords(w, 0) == [];
    assert FirstWords(w, 1) == WordBytes(h.a);
    assert FirstWords(w, 2) == WordBytes(h.a) + WordBytes(h.b);
    assert FirstWords(w, 3) == WordBytes(h.a) + WordBytes(h.b) + WordBytes(h.c);
    assert FirstWords(w, 4) == WordBytes(h.a) + WordBytes(h.b) + WordBytes(h.c) + WordBytes(h.d);
  }

  lemma {:induction false} Whole(m: seq<byte>)
    requires |m| % 64 == 0
    ensures Blocks(m) == m
  {
  }

  /** The two updates of the finish append exactly the padding of the standard. */
  lemma {:induction false} PadParts(m: seq<byte>, size: int, i: int)
    requires size == Wrap(|m|) && i == size % 64
    ensures (m + ([0x80] + Repeat(0 as byte, (55 - i) % 64))) +
      (Bytes32(size / 0x2000_0000 % TWO32) + Bytes32(size * 8 % TWO32)) == Pad(m)
  {
    hide Bytes32, Repeat;
    Remainders(|m|, 0);
    LengthWords(|m|, size);
    SameRemainder(|m|, i);
    Regroup(m, [0x80], Repeat(0 as byte, (55 - i) % 64),
      Bytes32(size / 0x2000_0000 % TWO32) + Bytes32(size * 8 % TWO32));
  }

  lemma {:induction false} Regroup(m: seq<byte>, a: seq<byte>, z: seq<byte>, l: seq<byte>)
    ensures (m + (a + z)) + l == m + a + z + l
  {
  }

  lemma {:induction false} SameRemainder(n: nat, i: nat)
    requires i == n % 64
    ensures (55 - i) % 64 == (55 - n) % 64
  {
    assert n == 64 * (n / 64) + i;
  }

  /** Bits of the size, cut into the two words that the finish computes by shifting. */
  lemma {:induction false} SizeWords(size: nat)
    requires size < TWO64
    ensures 8 * size % TWO64 / TWO32 == size / 0x2000_0000 % TWO32
    ensures 8 * size % TWO64 % TWO32 == size * 8 % TWO32
  {
    var h, l := size / 0x2000_0000, size % 0x2000_0000;
    var q, r := h / TWO32, h % TWO32;
    assert 8 * size == TWO64 * q + (TWO32 * r + 8 * l);
    assert 0 <= TWO32 * r + 8 * l < TWO64;
    Quotient(8 * size, TWO64, q, TWO32 * r + 8 * l);
    Quotient(TWO32 * r + 8 * l, TWO32, r, 8 * l);
    Quotient(8 * size, TWO32, h, 8 * l);
  }

  lemma {:induction false} Quotient(n: int, d: int, q: int, r: int)
    requires d > 0 && n == d * q + r && 0 <= r < d
    ensures n / d == q && n % d == r
  {
    var x := n / d - q;
    assert d * x == r - n % d;
    SmallMultiple(d, x);
  }

  lemma {:induction false} SmallMultiple(d: int, x: int)
    requires -d < d * x < d
    ensures x == 0
  {
  }

  lemma {:induction false} LengthWords(n: nat, size: int)
    requires size == Wrap(n)
    ensures 8 * n % TWO64 / TWO32 == size / 0x2000_0000 % TWO32
    ensures 8 * n % TWO64 % TWO32 == size * 8 % TWO32
  {
    SizeWords(size);
    var q := n / TWO64;
    assert 8 * n == TWO64 * (8 * q) + 8 * size;
    var p := 8 * size / TWO64;
    assert 8 * n == TWO64 * (8 * q + p) + 8 * size % TWO64;
    Quotient(8 * n, TWO64, 8 * q + p, 8 * size % TWO64);
  }

  /** Counting modulo 2^64 loses nothing modulo 64. */
  lemma {:induction false} Remainders(m: nat, n: nat)
    ensures Wrap(m) % 64 == m % 64
    ensures Wrap(Wrap(m) + n) == Wrap(m + n)
  {
    var q, r := m / TWO64, m % TWO64;
    assert m == TWO64 * q + r;
    var p := (r + n) / TWO64;
    assert m + n == TWO64 * (q + p) + (r + n) % TWO64;
    Quotient(m + n, TWO64, q + p, (r + n) % TWO64);
    assert m == 64 * (0x400_0000_0000_0000 * q + r / 64) + r % 64;
    Quotient(m, 64, 0x400_0000_0000_0000 * q + r / 64, r % 64);
  }

  lemma {:induction false} SplitAt(m: seq<byte>, done: seq<byte>, rest: seq<byte>)
    requires m == done + rest && |done| % 64 == 0 && |rest| < 64
    ensures Blocks(m) == done && Tail(m) == rest && |m| % 64 == |rest|
  {
    Quotient(|m|, 64, |done| / 64, |rest|);
    assert m[..|done|] == done && m[|done|..] == rest;
  }

  /** Data that does not fill the buffered block only lengthens the tail. */
  lemma {:induction false} Filled(m: seq<byte>, data: seq<byte>, left: nat)
    requires left <= |data|
    ensures Blocks(m) + (Tail(m) + data[..left]) + data[left..] == m + data
    ensures |Tail(m)| == |m| % 64 && (|Tail(m) + data[..left]| == 64 ==>
      |Blocks(m) + (Tail(m) + data[..left])| % 64 == 0)
  {
    assert Blocks(m) + Tail(m) == m;
  }

  lemma {:induction false} NoTail(m: seq<byte>)
    requires |m| % 64 == 0
    ensures Blocks(m) == m && Tail(m) == []
  {
  }

  lemma {:induction false} Unfilled(m: seq<byte>, data: seq<byte>)
    requires |m| % 64 + |data| < 64
    ensures Blocks(m + data) == Blocks(m) && Tail(m + data) == Tail(m) + data && |m + data| % 64 == |m| % 64 + |data|
  {
    SplitAt(m + data, Blocks(m), Tail(m) + data);
  }

  method EightyRounds(data: seq<byte>, a: word, b: word, c: word, d: word, e: word, ghost h: Hash)
      returns (A: word, B: word, C: word, D: word, E: word)
    requires |data| == 64 && h == Hash(a, b, c, d, e)
    ensures Rounds(data, 80, h) == Hash(A, B, C, D, E)
  {
    hide Round, Sha1Standard.W;
    var array_ := new word[16];
    A, B, C, D, E := a, b, c, d, e;
    assert Rolls(array_[..], data, 0);
    A, B, C, D, E := Rounds_0_19(data, array_, h, A, B, C, D, E);
    A, B, C, D, E := Rounds_20_39(data, array_, h, A, B, C, D, E);
    A, B, C, D, E := Rounds_40_59(data, array_, h, A, B, C, D, E);
    A, B, C, D, E := Rounds_60_79(data, array_, h, A, B, C, D, E);
  }
}

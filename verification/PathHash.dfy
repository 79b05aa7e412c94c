/** The hash of a path, and paths for which the table of shared descriptors goes wrong. */
module PathHash {
  import opened Wrappers
  import opened FdShare

  type word = bv32

  const M: word := 0x5bd1e995
  const SEED: word := 5381

  function Octet(c: char): word {
    c as word
  }

  /** Four bytes as a little-endian number. */
  function Word(a: char, b: char, c: char, d: char): word {
    Octet(a) | (Octet(b) << 8) | (Octet(c) << 16) | (Octet(d) << 24)
  }

  function Scaled(h: word): word {
    h * M
  }

  function Scrambled(k: word): word {
    Scaled(Scaled(k) ^ (Scaled(k) >> 24))
  }

  function Absorb(h: word, k: word): word {
    Scaled(h) ^ k
  }

  /** All full words. */
  function Words(h: word, s: string): word
    decreases |s|
  {
    if |s| < 4 then h else Words(Absorb(h, Scrambled(Word(s[0], s[1], s[2], s[3]))), s[4..])
  }

  function With(h: word, x: word, shift: nat): word
    requires shift <= 16
  {
    h ^ (x << shift)
  }

  /** The last one to three bytes. */
  function Ending(h: word, s: string): word {
    if s == "" then h
    else
      var a := if |s| > 2 then With(h, Octet(s[2]), 16) else h;
      var b := if |s| > 1 then With(a, Octet(s[1]), 8) else a;
      Scaled(With(b, Octet(s[0]), 0))
  }

  function Spread(h: word): word {
    var a := (h ^ (h >> 13)) * M;
    a ^ (a >> 15)
  }

  /** The length, cut to 32 bits. */
  function Cut(n: nat): word {
    if n < 0x1_0000_0000 then n as word else Cut(n - 0x1_0000_0000)
  }

  function Start(n: nat): word {
    SEED ^ Cut(n)
  }

  /** MurmurHash2 with its fixed seed. */
  function Hash(s: string): word {
    Spread(Ending(Words(Start(|s|), s), s[|s| - |s| % 4..]))
  }

  /** The same as a number. */
  function Number(s: string): nat {
    Hash(s) as nat
  }

  /** mk_utils_gen_hash */
  method GenHash(key: string) returns (h: word)
    ensures h == Hash(key)
  {
    hide Octet, Word, Scrambled, Absorb, Start, Ending, Spread;
    h := Start(|key|);
    ghost var h0 := h;
    var data, len := 0, |key|;
    assert key[0..] == key;
    while len >= 4
      invariant len >= 0 && data + len == |key| && len % 4 == |key| % 4
      invariant Words(h, key[data..]) == Words(h0, key)
    {
      assert key[data..][4..] == key[data + 4..];
      var k := Scrambled(Word(key[data], key[data + 1], key[data + 2], key[data + 3]));
      h := Absorb(h, k);
      data := data + 4;
      len := len - 4;
    }
    h := Finish(h, key, data);
    h := Spread(h);
  }

  /** Its switch over the last bytes. */
  method Finish(h0: word, key: string, data: nat) returns (h: word)
    requires data <= |key| < data + 4
    ensures h == Ending(h0, key[data..])
  {
    hide Octet, With, Scaled;
    h := h0;
    var len := |key| - data;
    if len >= 3 {
      h := With(h, Octet(key[data + 2]), 16);
    }
    if len >= 2 {
      h := With(h, Octet(key[data + 1]), 8);
    }
    if len >= 1 {
      h := Scaled(With(h, Octet(key[data]), 0));
    }
  }

  // ------------------------------------------ a path with an ending of three

  lemma {:induction false} SevenBytes(s: string)
    requires |s| == 7
    ensures var a := Scrambled(Word(s[0], s[1], s[2], s[3]));
      Hash(s) == Spread(Scaled(With(With(With(Absorb(Start(7), a), Octet(s[6]), 16), Octet(s[5]), 8), Octet(s[4]), 0)))
  {
    hide Word, Scrambled, Absorb, Start, Spread, Scaled, With, Octet;
    assert Words(Start(7), s) == Words(Absorb(Start(7), Scrambled(Word(s[0], s[1], s[2], s[3]))), s[4..]);
    assert s[7 - 7 % 4..] == s[4..] && s[4..][0] == s[4] && s[4..][1] == s[5] && s[4..][2] == s[6];
  }

  lemma {:induction false} EndingOctets()
    ensures Octet('/') == 0x2f && Octet('a') == 0x61 && Octet('.') == 0x2e && Octet('h') == 0x68
    ensures Octet('t') == 0x74 && Octet('m') == 0x6d && Octet('l') == 0x6c
  {
  }

  lemma {:induction false} EndingWord()
    ensures Word('/', 'a', '.', 'h') == 0x682e612f && Start(7) == 0x1502
  {
    hide Octet;
    EndingOctets();
    assert Cut(7) == 7;
  }

  lemma {:induction false} EndingMixed()
    ensures Absorb(0x1502, Scrambled(0x682e612f)) == 0x981cf3bc
    ensures With(With(With(0x981cf3bc, 0x6c, 16), 0x6d, 8), 0x74, 0) == 0x98709ec8
    ensures Spread(Scaled(0x98709ec8)) == 0xae3052e5
  {
  }

  /** The hash of a path whose length is no multiple of four. */
  lemma {:induction false} EndingPath()
    ensures Hash("/a.html") == 0xae3052e5
  {
    hide Word, Scrambled, Absorb, Start, Spread, Scaled, With, Octet, Hash;
    SevenBytes("/a.html");
    EndingOctets();
    EndingWord();
    EndingMixed();
  }

  // ------------------------------------------------- paths that go wrong

  lemma {:induction false} EightBytes(s: string)
    requires |s| == 8
    ensures var a, b := Scrambled(Word(s[0], s[1], s[2], s[3])), Scrambled(Word(s[4], s[5], s[6], s[7]));
      Hash(s) == Spread(Absorb(Absorb(Start(8), a), b))
  {
    hide Word, Scrambled, Absorb, Start, Spread;
    var a, b := Scrambled(Word(s[0], s[1], s[2], s[3])), Scrambled(Word(s[4], s[5], s[6], s[7]));
    var h := Absorb(Start(8), a);
    assert s[4..][4..] == "" && s[8..] == "";
    assert Words(Start(8), s) == Words(h, s[4..]);
    assert Words(h, s[4..]) == Words(Absorb(h, b), "");
  }

  lemma {:induction false} Start8()
    ensures Start(8) == 0x150d
  {
    assert Cut(8) == 8;
  }

  /** A path of hash 0. */
  lemma {:induction false} ZeroPath()
    ensures Number("/riisvqv") == 0
  {
    hide Word, Scrambled, Absorb, Start, Spread, Hash;
    EightBytes("/riisvqv");
    Start8();
    assert Word('/', 'r', 'i', 'i') == 0x6969722f && Word('s', 'v', 'q', 'v') == 0x76717673 by { ZeroWords(); }
    assert Scrambled(0x6969722f) == 0x28698eb7 && Scrambled(0x76717673) == 0x566ce31e by { ZeroScrambled(); }
    assert Absorb(Absorb(0x150d, 0x28698eb7), 0x566ce31e) == 0 && Spread(0) == 0 by { ZeroAbsorbed(); }
  }

  lemma {:induction false} ZeroOctets()
    ensures Octet('/') == 0x2f && Octet('r') == 0x72 && Octet('i') == 0x69
    ensures Octet('s') == 0x73 && Octet('v') == 0x76 && Octet('q') == 0x71
  {
  }

  lemma {:induction false} ZeroWords()
    ensures Word('/', 'r', 'i', 'i') == 0x6969722f && Word('s', 'v', 'q', 'v') == 0x76717673
  {
    hide Octet;
    ZeroOctets();
  }

  lemma {:induction false} ZeroScrambled()
    ensures Scrambled(0x6969722f) == 0x28698eb7 && Scrambled(0x76717673) == 0x566ce31e
  {
  }

  lemma {:induction false} ZeroAbsorbed()
    ensures Absorb(Absorb(0x150d, 0x28698eb7), 0x566ce31e) == 0 && Spread(0) == 0
  {
  }

  /** Two paths of one hash, which is not 0. */
  lemma {:induction false} TwinPaths()
    ensures Number("/bcxcgrx") == Number("/rjmyytw") == 0x5bd15e36
  {
    hide Word, Scrambled, Absorb, Start, Spread, Hash;
    EightBytes("/bcxcgrx");
    EightBytes("/rjmyytw");
    Start8();
    TwinWords();
    assert Scrambled(0x7863622f) == 0x58cf7498 && Scrambled(0x78726763) == 0xe6c3ab3c by { TwinScrambled(); }
    assert Scrambled(0x6d6a722f) == 0x3355ae89 && Scrambled(0x77747979) == 0x58e0bcf9 by { TwinScrambled(); }
    assert Absorb(Absorb(0x150d, 0x58cf7498), 0xe6c3ab3c) == 1 by { TwinAbsorbed(); }
    assert Absorb(Absorb(0x150d, 0x3355ae89), 0x58e0bcf9) == 1 && Spread(1) == 0x5bd15e36 by { TwinAbsorbed(); }
    assert (0x5bd15e36 as word) as nat == 0x5bd15e36;
  }

  lemma {:induction false} TwinOctets()
    ensures Octet('/') == 0x2f && Octet('b') == 0x62 && Octet('c') == 0x63 && Octet('x') == 0x78
    ensures Octet('g') == 0x67 && Octet('r') == 0x72
  {
  }

  lemma {:induction false} OtherOctets()
    ensures Octet('/') == 0x2f && Octet('r') == 0x72 && Octet('j') == 0x6a && Octet('m') == 0x6d
    ensures Octet('y') == 0x79 && Octet('t') == 0x74 && Octet('w') == 0x77
  {
  }

  lemma {:induction false} TwinWords()
    ensures Word('/', 'b', 'c', 'x') == 0x7863622f && Word('c', 'g', 'r', 'x') == 0x78726763
    ensures Word('/', 'r', 'j', 'm') == 0x6d6a722f && Word('y', 'y', 't', 'w') == 0x77747979
  {
    hide Octet;
    TwinOctets();
    OtherOctets();
  }

  lemma {:induction false} TwinScrambled()
    ensures Scrambled(0x7863622f) == 0x58cf7498 && Scrambled(0x78726763) == 0xe6c3ab3c
    ensures Scrambled(0x6d6a722f) == 0x3355ae89 && Scrambled(0x77747979) == 0x58e0bcf9
  {
  }

  lemma {:induction false} TwinAbsorbed()
    ensures Absorb(Absorb(0x150d, 0x58cf7498), 0xe6c3ab3c) == 1
    ensures Absorb(Absorb(0x150d, 0x3355ae89), 0x58e0bcf9) == 1 && Spread(1) == 0x5bd15e36
  {
  }

  /** The hash of the server is 0 for some path, and the same for some two. */
  lemma {:induction false} NotCollisionFree()
    ensures !CollisionFree(Number, {"/riisvqv"}) && !CollisionFree(Number, {"/bcxcgrx", "/rjmyytw"})
  {
    hide Number;
    ZeroPath();
    TwinPaths();
    assert "/bcxcgrx" in {"/bcxcgrx", "/rjmyytw"} && "/rjmyytw" in {"/bcxcgrx", "/rjmyytw"};
    assert "/bcxcgrx"[1] != "/rjmyytw"[1];
  }

  /** On an empty table, the first is not opened although open(2) succeeds. */
  lemma {:induction false} ZeroPathLost(os: int)
    requires os > 0
    ensures Unopened(Number, "/riisvqv", os)
  {
    hide Number;
    ZeroPath();
    NullHash(Number, "/riisvqv", os);
  }

  /** The second of the others gets the file of the first. */
  lemma {:induction false} TwinPathsMixed(os: int, os': int)
    requires os > 0 && os' > 0
    ensures GetsOther(Number, "/bcxcgrx", "/rjmyytw", os, os')
  {
    hide Number;
    TwinPaths();
    SameHash(Number, "/bcxcgrx", "/rjmyytw", os, os');
  }
}

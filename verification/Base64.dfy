/** Base64 with line feeds, as section 5.2 of RFC 1341 describes it. */
module Base64 {
  import opened Wrappers
  import opened Texts

  const UPPER := "ABCDEFGHIJKLMNOPQRSTUVWXYZ"
  const LOWER := "abcdefghijklmnopqrstuvwxyz"
  const TABLE: string := UPPER + LOWER + "0123456789+/"
  const LINE := 72
  const SIZE_T := 0x1_0000_0000_0000_0000

  /** base64_table at a six-bit value */
  function Sym(v: byte): char
    requires v < 64
  {
    Lengths();
    SixBits(v);
    TABLE[v as int]
  }

  lemma {:induction false} SixBits(v: byte)
    requires v < 64
    ensures v as int < 64
  {
  }

  /** dtable: the value of a character, 0x80 for one that does not count */
  function Val(c: char): byte {
    if 'A' <= c <= 'Z' then (c as int - 'A' as int) as byte
    else if 'a' <= c <= 'z' then (c as int - 'a' as int + 26) as byte
    else if '0' <= c <= '9' then (c as int - '0' as int + 52) as byte
    else if c == '+' then 62
    else if c == '/' then 63
    else if c == '=' then 0
    else 0x80
  }

  lemma {:induction false} UpperAt(i: nat)
    requires i < 26
    ensures UPPER[i] as int == 'A' as int + i
  {
  }

  lemma {:induction false} LowerAt(i: nat)
    requires i < 26
    ensures LOWER[i] as int == 'a' as int + i
  {
  }

  lemma {:induction false} DigitAt(i: nat)
    requires i < 12
    ensures var c := "0123456789+/"[i];
      if i < 10 then c as int == '0' as int + i else if i == 10 then c == '+' else c == '/'
  {
  }

  /** The table is the one of the standard. */
  lemma {:induction false} TableAt(i: nat)
    requires i < 64
    ensures |TABLE| == 64
    ensures var c := TABLE[i];
      if i < 26 then c as int == 'A' as int + i
      else if i < 52 then c as int == 'a' as int + i - 26
      else if i < 62 then c as int == '0' as int + i - 52
      else if i == 62 then c == '+' else c == '/'
  {
    hide UPPER, LOWER;
    assert |UPPER| == 26 && |LOWER| == 26 by { Lengths(); }
    if i < 26 {
      UpperAt(i);
      assert TABLE[i] == UPPER[i];
    } else if i < 52 {
      LowerAt(i - 26);
      assert TABLE[i] == LOWER[i - 26];
    } else {
      DigitAt(i - 52);
      assert TABLE[i] == "0123456789+/"[i - 52];
    }
  }

  lemma {:induction false} Lengths()
    ensures |UPPER| == 26 && |LOWER| == 26 && |TABLE| == 64
  {
  }

  /** Every symbol has its value back and is not padding. */
  lemma {:induction false} SymBack(v: byte)
    requires v < 64
    ensures Val(Sym(v)) == v && Sym(v) != '=' && Sym(v) != '\n'
  {
    hide TABLE, Val, Place;
    SixBits(v);
    var i := v as int;
    PlaceAt(i);
    AtPlace(TABLE[i]);
    assert i as byte == v;
  }

  // ---------------------------------------------------------------- bits

  function S0(a: byte): (r: byte)
    ensures r < 64
  {
    a >> 2
  }

  function S1(a: byte, b: byte): (r: byte)
    ensures r < 64
  {
    ((a & 0x03) << 4) | (b >> 4)
  }

  function S2(b: byte, c: byte): (r: byte)
    ensures r < 64
  {
    ((b & 0x0f) << 2) | (c >> 6)
  }

  function S3(c: byte): (r: byte)
    ensures r < 64
  {
    c & 0x3f
  }

  function J0(x: byte, y: byte): byte {
    (x << 2) | (y >> 4)
  }

  function J1(y: byte, z: byte): byte {
    (y << 4) | (z >> 2)
  }

  function J2(z: byte, w: byte): byte {
    (z << 6) | w
  }

  /** Four times six bits are three bytes. */
  lemma {:induction false} BitsBack(a: byte, b: byte, c: byte)
    ensures J0(S0(a), S1(a, b)) == a && J1(S1(a, b), S2(b, c)) == b && J2(S2(b, c), S3(c)) == c
  {
  }

  // ------------------------------------------------------------ encoding

  /** The last one or two bytes, padded. */
  function Tail(s: seq<byte>): (r: string)
    requires 1 <= |s| <= 2
    ensures |r| == 4
  {
    if |s| == 1 then [Sym(S0(s[0])), Sym(S1(s[0], 0)), '=', '=']
    else [Sym(S0(s[0])), Sym(S1(s[0], s[1])), Sym(S2(s[1], 0)), '=']
  }

  function Quad(a: byte, b: byte, c: byte): (r: string)
    ensures |r| == 4
  {
    [Sym(S0(a)), Sym(S1(a, b)), Sym(S2(b, c)), Sym(S3(c))]
  }

  /** The encoding of the bytes that remain, with `line` characters on the current line. */
  function Encode(s: seq<byte>, line: nat): string
    decreases |s|
  {
    if |s| >= 3 then
      var q := Quad(s[0], s[1], s[2]);
      if line + 4 >= LINE then q + "\n" + Encode(s[3..], 0) else q + Encode(s[3..], line + 4)
    else if s == [] then (if line != 0 then "\n" else "")
    else Tail(s) + "\n"
  }

  /** The same without line feeds. */
  function Plain(s: seq<byte>): string
    decreases |s|
  {
    if |s| >= 3 then Quad(s[0], s[1], s[2]) + Plain(s[3..]) else if s == [] then "" else Tail(s)
  }

  // ------------------------------------------------------------ decoding

  /** The characters that count. */
  function Filter(t: string): string {
    if t == "" then "" else (if Val(t[0]) != 0x80 then [t[0]] else "") + Filter(t[1..])
  }

  function Pads(t: string): nat {
    if t == "" then 0 else (if t[0] == '=' then 1 else 0) + Pads(t[1..])
  }

  function Three(q: string): (r: seq<byte>)
    requires |q| == 4
    ensures |r| == 3
  {
    [J0(Val(q[0]), Val(q[1])), J1(Val(q[1]), Val(q[2])), J2(Val(q[2]), Val(q[3]))]
  }

  /** Blocks of four, up to the first with padding. */
  function Blocks(f: string): Option<seq<byte>>
    decreases |f|
  {
    if |f| < 4 then Some([])
    else
      var q, pad := f[..4], Pads(f[..4]);
      if pad == 0 then
        match Blocks(f[4..]) case None => None case Some(r) => Some(Three(q) + r)
      else if pad <= 2 then Some(Three(q)[..3 - pad])
      else None
  }

  /** base64_decode: None where it returns NULL */
  function Decode(t: string): Option<seq<byte>> {
    var f := Filter(t);
    if |f| == 0 || |f| % 4 != 0 then None else Blocks(f)
  }

  // ---------------------------------------------------------- round trip

  lemma {:induction false} FilterConcat(a: string, b: string)
    ensures Filter(a + b) == Filter(a) + Filter(b)
    decreases a
  {
    if a == "" {
      assert a + b == b;
    } else {
      assert (a + b)[1..] == a[1..] + b;
      FilterConcat(a[1..], b);
    }
  }

  predicate Symbols(t: string) {
    forall k :: 0 <= k < |t| ==> Val(t[k]) != 0x80
  }

  lemma {:induction false} FilterAll(t: string)
    requires Symbols(t)
    ensures Filter(t) == t
  {
    if t != "" {
      FilterAll(t[1..]);
    }
  }

  lemma {:induction false} Small(v: byte)
    requires v < 64
    ensures v != 0x80
  {
  }

  lemma {:induction false} QuadSymbols(a: byte, b: byte, c: byte)
    ensures var q := Quad(a, b, c); Symbols(q) && Pads(q) == 0 && Three(q) == [a, b, c]
  {
    hide S0, S1, S2, S3, J0, J1, J2, Val, Sym;
    var q := Quad(a, b, c);
    SymBack(S0(a));
    SymBack(S1(a, b));
    SymBack(S2(b, c));
    SymBack(S3(c));
    Small(S0(a));
    Small(S1(a, b));
    Small(S2(b, c));
    Small(S3(c));
    BitsBack(a, b, c);
    Pads4(q);
  }

  lemma {:induction false} Pads4(q: string)
    requires |q| == 4
    ensures Pads(q) == (if q[0] == '=' then 1 else 0) + (if q[1] == '=' then 1 else 0) +
      (if q[2] == '=' then 1 else 0) + (if q[3] == '=' then 1 else 0)
  {
    assert q[1..][1..] == q[2..] && q[2..][1..] == q[3..] && q[3..][1..] == "";
    assert Pads(q[3..]) == (if q[3] == '=' then 1 else 0) + Pads("");
    assert Pads(q[2..]) == (if q[2] == '=' then 1 else 0) + Pads(q[3..]);
    assert Pads(q[1..]) == (if q[1] == '=' then 1 else 0) + Pads(q[2..]);
  }

  lemma {:induction false} TailSymbols(s: seq<byte>)
    requires 1 <= |s| <= 2
    ensures var q := Tail(s); Symbols(q) && Pads(q) == 3 - |s| && Three(q)[..|s|] == s
  {
    hide S0, S1, S2, S3, J0, J1, J2, Sym;
    var q := Tail(s);
    var b := if |s| == 1 then 0 else s[1];
    SymBack(S0(s[0]));
    SymBack(S1(s[0], b));
    SymBack(S2(b, 0));
    Small(S0(s[0]));
    Small(S1(s[0], b));
    Small(S2(b, 0));
    BitsBack(s[0], b, 0);
    Pads4(q);
    assert Val('=') == 0;
  }

  lemma {:induction false} FilterEncode(s: seq<byte>, line: nat)
    ensures Filter(Encode(s, line)) == Plain(s)
    decreases |s|
  {
    hide Quad, Tail, Val;
    if |s| >= 3 {
      var q := Quad(s[0], s[1], s[2]);
      var next := if line + 4 >= LINE then 0 else line + 4;
      QuadSymbols(s[0], s[1], s[2]);
      FilterAll(q);
      FilterEncode(s[3..], next);
      FeedFiltered();
      var feed := if line + 4 >= LINE then "\n" else "";
      assert Encode(s, line) == q + (feed + Encode(s[3..], next));
      FilterConcat(q, feed + Encode(s[3..], next));
      FilterConcat(feed, Encode(s[3..], next));
    } else if s == [] {
      FeedFiltered();
    } else {
      TailSymbols(s);
      FilterAll(Tail(s));
      FilterConcat(Tail(s), "\n");
      FeedFiltered();
    }
  }

  lemma {:induction false} FeedFiltered()
    ensures Filter("\n") == "" && Filter("") == ""
  {
    assert Val('\n') == 0x80;
    assert "\n"[1..] == "";
  }

  lemma {:induction false} NoBlock()
    ensures Blocks("") == Some([])
  {
  }

  lemma {:induction false} OneBlock(q: string, rest: string)
    requires |q| == 4
    ensures Pads(q) == 0 && Blocks(rest).Some? ==> Blocks(q + rest) == Some(Three(q) + Blocks(rest).value)
    ensures 1 <= Pads(q) <= 2 ==> Blocks(q + rest) == Some(Three(q)[..3 - Pads(q)])
  {
    hide Three, Pads;
    assert (q + rest)[..4] == q && (q + rest)[4..] == rest;
  }

  lemma {:induction false} PlainBack(s: seq<byte>)
    ensures |Plain(s)| % 4 == 0 && (s != [] ==> |Plain(s)| > 0) && Blocks(Plain(s)) == Some(s)
    decreases |s|
  {
    hide Quad, Tail, Three, Pads, Blocks;
    if |s| >= 3 {
      var q := Quad(s[0], s[1], s[2]);
      QuadSymbols(s[0], s[1], s[2]);
      PlainBack(s[3..]);
      OneBlock(q, Plain(s[3..]));
      assert [s[0], s[1], s[2]] + s[3..] == s;
    } else if s != [] {
      TailSymbols(s);
      OneBlock(Tail(s), "");
      assert Tail(s) + "" == Plain(s);
    } else {
      NoBlock();
    }
  }

  /** Decoding the encoding of any non-empty string of bytes gives it back, line feeds and padding included. */
  lemma {:induction false} RoundTrip(s: seq<byte>)
    requires s != []
    ensures Decode(Encode(s, 0)) == Some(s)
  {
    FilterEncode(s, 0);
    PlainBack(s);
  }

  // ------------------------------------------------------- how much room

  /** The size that base64_encode allocates. */
  function Room(len: nat): nat {
    var olen := len * 4 / 3 + 4;
    olen + olen / LINE + 1
  }

  /** Section 4 of RFC 4648: three bytes and their four six-bit values are the same 24-bit number. */
  lemma {:induction false} Groups(a: byte, b: byte, c: byte)
    ensures 0x4_0000 * (S0(a) as bv32) + 0x1000 * (S1(a, b) as bv32) + 0x40 * (S2(b, c) as bv32) + (S3(c) as bv32) ==
      0x1_0000 * (a as bv32) + 0x100 * (b as bv32) + (c as bv32)
  {
  }

  /** The last bytes are filled up with zero bits, and the last characters with padding. */
  lemma {:induction false} Tails(a: byte, b: byte)
    ensures Tail([a]) == Quad(a, 0, 0)[..2] + "==" && Tail([a, b]) == Quad(a, b, 0)[..3] + "="
  {
    hide S0, S1, S2, S3, Sym;
  }

  /** The next `k` groups of four end a line. */
  predicate Ends(s: seq<byte>, k: nat)
    requires 1 <= k <= 18 && |s| >= 3 * k
  {
    && |Plain(s[..3 * k])| == 4 * k
    && Encode(s, 72 - 4 * k) == Plain(s[..3 * k]) + "\n" + Encode(s[3 * k..], 0)
  }

  lemma {:induction false} EndsNow(s: seq<byte>)
    requires |s| >= 3
    ensures Ends(s, 1)
  {
    hide Quad, Tail, Plain, Encode;
    PlainStep(s, 3);
    EncodeStep(s, 68);
    var q := Quad(s[0], s[1], s[2]);
    assert q + "" == q && q + ("\n" + Encode(s[3..], 0)) == q + "\n" + Encode(s[3..], 0);
  }

  lemma {:induction false} EndsLater(s: seq<byte>, k: nat)
    requires 2 <= k <= 18 && |s| >= 3 * k && Ends(s[3..], k - 1)
    ensures Ends(s, k)
  {
    hide Quad, Tail, Plain, Encode;
    var n, q := 3 * k, Quad(s[0], s[1], s[2]);
    PlainStep(s, n);
    EncodeStep(s, 72 - 4 * k);
    assert s[3..][n - 3..] == s[n..];
    Glue(q, Plain(s[3..][..n - 3]), "\n", Encode(s[n..], 0));
  }

  /** A line feed comes after every 72 characters. */
  lemma {:induction false} OneLine(s: seq<byte>)
    requires |s| >= 54
    ensures |Plain(s[..54])| == 72 && Encode(s, 0) == Plain(s[..54]) + "\n" + Encode(s[54..], 0)
  {
    hide Plain, Encode;
    Line(s, 18);
  }

  lemma {:induction false} Line(s: seq<byte>, k: nat)
    requires 1 <= k <= 18 && |s| >= 3 * k
    ensures Ends(s, k)
    decreases k
  {
    hide Ends;
    if k == 1 {
      EndsNow(s);
    } else {
      Line(s[3..], k - 1);
      EndsLater(s, k);
    }
  }

  lemma {:induction false} PlainStep(s: seq<byte>, n: nat)
    requires 3 <= n <= |s|
    ensures Plain(s[..n]) == Quad(s[0], s[1], s[2]) + Plain(s[3..][..n - 3])
    ensures Plain(s[3..][..0]) == ""
  {
    hide Quad;
    assert s[..n][3..] == s[3..][..n - 3];
  }

  lemma {:induction false} EncodeStep(s: seq<byte>, line: nat)
    requires |s| >= 3
    ensures Encode(s, line) ==
      Quad(s[0], s[1], s[2]) + if line + 4 >= 72 then "\n" + Encode(s[3..], 0) else Encode(s[3..], line + 4)
  {
    hide Quad, Tail;
    var q := Quad(s[0], s[1], s[2]);
    assert q + ("\n" + Encode(s[3..], 0)) == q + "\n" + Encode(s[3..], 0);
  }

  lemma {:induction false} Glue(a: string, b: string, c: string, d: string)
    ensures a + (b + c + d) == (a + b) + c + d && a + (c + d) == a + c + d
  {
  }

  /** How many characters `n` bytes take from column `line` on. */
  function Taken(n: nat, line: nat): nat {
    var c := 4 * ((n + 2) / 3);
    c + (c + line + LINE - 1) / LINE
  }

  lemma {:induction false} OneQuad(n: nat, line: nat)
    requires line < LINE && line % 4 == 0
    ensures Taken(n + 3, line) == 4 + if line + 4 >= LINE then 1 + Taken(n, 0) else Taken(n, line + 4)
  {
    assert (n + 5) / 3 == (n + 2) / 3 + 1;
    var d := 4 * ((n + 2) / 3);
    assert (d + LINE + LINE - 1) / LINE == 1 + (d + LINE - 1) / LINE;
  }

  lemma {:induction false} LastQuad(n: nat, line: nat)
    requires n < 3 && line < LINE && line % 4 == 0
    ensures Taken(n, line) == if n > 0 then 5 else if line > 0 then 1 else 0
  {
  }

  /** Four characters for three bytes begun, and a feed for every line begun. */
  lemma {:induction false} EncodeLength(s: seq<byte>, line: nat)
    requires line < LINE && line % 4 == 0
    ensures |Encode(s, line)| == Taken(|s|, line)
    decreases |s|
  {
    hide Quad, Tail, Taken;
    if |s| < 3 {
      LastQuad(|s|, line);
    } else {
      var next := if line + 4 >= LINE then 0 else line + 4;
      EncodeLength(s[3..], next);
      OneQuad(|s| - 3, line);
      assert |Encode(s, line)| == 4 + (if next == 0 then 1 else 0) + |Encode(s[3..], next)|;
    }
  }

  /** The encoding and its terminator fit. */
  lemma {:induction false} EncodeFits(s: seq<byte>)
    ensures |Encode(s, 0)| + 1 <= Room(|s|)
  {
    EncodeLength(s, 0);
    var n := |s|;
    var c := 4 * ((n + 2) / 3);
    assert c <= n * 4 / 3 + 3;
    assert (c + LINE - 1) / LINE <= (n * 4 / 3 + 4) / LINE + 1;
  }

  // -------------------------------------------------------- the encoder

  /** What is written and what remains make up the encoding. */
  ghost predicate Sofar(done: string, src: seq<byte>, at: nat, line: nat) {
    at <= |src| && line < LINE && done + Encode(src[at..], line) == Encode(src, 0)
  }

  function Feed(line: nat): string {
    if line + 4 >= LINE then "\n" else ""
  }

  lemma {:induction false} SofarQuad(done: string, src: seq<byte>, at: nat, line: nat)
    requires Sofar(done, src, at, line) && |src| - at >= 3
    ensures var q := Quad(src[at], src[at + 1], src[at + 2]);
      && Sofar(done + q + Feed(line), src, at + 3, if line + 4 >= LINE then 0 else line + 4)
      && |done + q + Feed(line)| < Room(|src|)
  {
    hide Quad, Tail;
    EncodeFits(src);
    var q, rest := Quad(src[at], src[at + 1], src[at + 2]), src[at..];
    assert rest[3..] == src[at + 3..] && rest[0] == src[at] && rest[1] == src[at + 1] && rest[2] == src[at + 2];
    var e := Encode(src[at + 3..], if line + 4 >= LINE then 0 else line + 4);
    assert Encode(rest, line) == q + Feed(line) + e;
    assert done + (q + Feed(line) + e) == done + q + Feed(line) + e;
  }

  lemma {:induction false} SofarEnd(done: string, src: seq<byte>, at: nat, line: nat)
    requires Sofar(done, src, at, line) && |src| - at < 3
    ensures var rest := src[at..];
      && Encode(src, 0) == done + (if rest == [] then "" else Tail(rest)) +
        (if rest == [] && line == 0 then "" else "\n")
      && |Encode(src, 0)| < Room(|src|)
  {
    hide Tail;
    EncodeFits(src);
    assert done + "" == done && done + "" + "" == done;
    if at < |src| {
      assert done + (Tail(src[at..]) + "\n") == done + Tail(src[at..]) + "\n";
    }
  }

  /** base64_encode; the buffer and how much of it is text */
  method Base64Encode(src: seq<byte>) returns (out: array<char>, outLen: nat)
    requires 4 * |src| < SIZE_T
    ensures fresh(out) && out.Length == Room(|src|) && outLen < out.Length
    ensures out[..outLen] == Encode(src, 0) && out[outLen] == '\0'
  {
    hide Quad, Tail, Encode, Room;
    out := new char[Room(|src|)];
    var at, pos, line := 0, 0, 0;
    assert src[0..] == src && out[..0] == "" && "" + Encode(src, 0) == Encode(src, 0);
    while |src| - at >= 3
      invariant pos <= out.Length == Room(|src|) && Sofar(out[..pos], src, at, line)
      decreases |src| - at
    {
      SofarQuad(out[..pos], src, at, line);
      Put4(out, pos, Quad(src[at], src[at + 1], src[at + 2]));
      pos := pos + 4;
      at := at + 3;
      line := line + 4;
      if line >= LINE {
        out[pos] := '\n';
        pos := pos + 1;
        line := 0;
        assert out[..pos] == out[..pos - 1] + "\n";
      } else {
        assert out[..pos] + "" == out[..pos];
      }
    }
    SofarEnd(out[..pos], src, at, line);
    ghost var done := out[..pos];
    if |src| - at > 0 {
      Put4(out, pos, Tail(src[at..]));
      pos := pos + 4;
      line := line + 4;
    } else {
      assert out[..pos] == done + "";
    }
    if line != 0 {
      out[pos] := '\n';
      pos := pos + 1;
      assert out[..pos] == out[..pos - 1] + "\n";
    } else {
      assert out[..pos] == out[..pos] + "";
    }
    out[pos] := '\0';
    outLen := pos;
  }

  method Put4(out: array<char>, pos: nat, q: string)
    requires |q| == 4 && pos + 4 <= out.Length
    modifies out
    ensures out[..pos + 4] == old(out[..pos]) + q
  {
    out[pos] := q[0];
    out[pos + 1] := q[1];
    out[pos + 2] := q[2];
    out[pos + 3] := q[3];
  }

  // -------------------------------------------------------- the decoder

  predicate Symbol(c: char) {
    'A' <= c <= 'Z' || 'a' <= c <= 'z' || '0' <= c <= '9' || c == '+' || c == '/'
  }

  /** The place of a symbol in the alphabet. */
  function Place(c: char): nat {
    if 'A' <= c <= 'Z' then c as int - 'A' as int
    else if 'a' <= c <= 'z' then c as int - 'a' as int + 26
    else if '0' <= c <= '9' then c as int - '0' as int + 52
    else if c == '+' then 62 else 63
  }

  lemma {:induction false} PlaceAt(n: nat)
    requires n < 64
    ensures |TABLE| == 64 && Symbol(TABLE[n]) && Place(TABLE[n]) == n && TABLE[n] as int < 256
  {
    hide TABLE;
    TableAt(n);
  }

  lemma {:induction false} AtPlace(c: char)
    requires Symbol(c)
    ensures |TABLE| == 64 && Place(c) < 64 && TABLE[Place(c)] == c && Val(c) == Place(c) as byte
  {
    hide TABLE;
    TableAt(Place(c));
  }

  /** The table that base64_decode builds, after `n` symbols. */
  predicate Filled(d: seq<byte>, n: nat) {
    |d| == 256 && forall c: char :: c as int < 256 ==>
      d[c as int] == if Symbol(c) && Place(c) < n then Val(c) else 0x80
  }

  lemma {:induction false} FillNext(d: seq<byte>, n: nat)
    requires Filled(d, n) && n < 64
    ensures |TABLE| == 64 && TABLE[n] as int < 256 && Filled(d[TABLE[n] as int := n as byte], n + 1)
  {
    hide TABLE, Val, Symbol, Place;
    PlaceAt(n);
    var c0 := TABLE[n];
    AtPlace(c0);
    var e := d[c0 as int := n as byte];
    forall c: char | c as int < 256
      ensures e[c as int] == if Symbol(c) && Place(c) < n + 1 then Val(c) else 0x80
    {
      if c != c0 {
        assert e[c as int] == d[c as int];
        if Symbol(c) {
          AtPlace(c);
        }
      }
    }
  }

  method MakeTable() returns (dtable: array<byte>)
    ensures fresh(dtable) && dtable.Length == 256 && forall c: char :: c as int < 256 ==> dtable[c as int] == Val(c)
  {
    hide TABLE, Val;
    dtable := new byte[256](_ => 0x80);
    assert Filled(dtable[..], 0);
    Lengths();
    for i := 0 to 64
      invariant Filled(dtable[..], i)
    {
      FillNext(dtable[..], i);
      dtable[TABLE[i] as int] := i as byte;
    }
    FilledAll(dtable[..]);
    dtable['=' as int] := 0;
  }

  lemma {:induction false} FilledAll(d: seq<byte>)
    requires Filled(d, 64)
    ensures forall c: char :: c as int < 256 && c != '=' ==> d[c as int] == Val(c)
    ensures Val('=') == 0
  {
    hide TABLE;
    forall c: char | c as int < 256 && c != '='
      ensures d[c as int] == Val(c)
    {
      if Symbol(c) {
        AtPlace(c);
      }
    }
  }

  function Joined(done: seq<byte>, r: Option<seq<byte>>): Option<seq<byte>> {
    match r case None => None case Some(t) => Some(done + t)
  }

  /** What a full block means for the rest. */
  lemma {:induction false} BlockStep(done: seq<byte>, q: string, rest: string)
    requires |q| == 4
    ensures Joined(done, Blocks(q + rest)) ==
      if Pads(q) == 0 then Joined(done + Three(q), Blocks(rest))
      else if Pads(q) <= 2 then Some(done + Three(q)[..3 - Pads(q)])
      else None
  {
    hide Three, Pads;
    assert (q + rest)[..4] == q && (q + rest)[4..] == rest;
    if Pads(q) == 0 && Blocks(rest).Some? {
      assert done + (Three(q) + Blocks(rest).value) == done + Three(q) + Blocks(rest).value;
    }
  }

  lemma {:induction false} FilterStep(src: string, i: nat)
    requires i < |src|
    ensures Filter(src[i..]) == (if Val(src[i]) != 0x80 then [src[i]] else "") + Filter(src[i + 1..])
  {
    assert src[i..][0] == src[i] && src[i..][1..] == src[i + 1..];
  }

  lemma {:induction false} PadsAdd(q: string, c: char)
    ensures Pads(q + [c]) == Pads(q) + if c == '=' then 1 else 0
    decreases q
  {
    if q == "" {
      assert q + [c] == [c] && [c][1..] == "";
    } else {
      assert (q + [c])[1..] == q[1..] + [c];
      PadsAdd(q[1..], c);
    }
  }

  method CountSymbols(src: string, dtable: array<byte>) returns (count: nat)
    requires dtable.Length == 256 && (forall k :: 0 <= k < |src| ==> src[k] as int < 256)
    requires forall c: char :: c as int < 256 ==> dtable[c as int] == Val(c)
    ensures count == |Filter(src)|
  {
    hide Val;
    count := 0;
    assert src[0..] == src;
    for i := 0 to |src|
      invariant |Filter(src)| == count + |Filter(src[i..])|
    {
      FilterStep(src, i);
      if dtable[src[i] as int] != 0x80 {
        count := count + 1;
      }
    }
  }

  /** The block that is being collected: its characters, values and padding. */
  ghost predicate Collected(block: seq<byte>, q: string, count: nat, pad: nat) {
    && |block| == 4 && |q| == count <= 4 && pad == Pads(q)
    && forall k :: 0 <= k < count ==> block[k] == Val(q[k])
  }

  lemma {:induction false} CollectNext(block: seq<byte>, q: string, count: nat, pad: nat, c: char)
    requires Collected(block, q, count, pad) && count < 4
    ensures Collected(block[count := Val(c)], q + [c], count + 1, pad + if c == '=' then 1 else 0)
  {
    hide Val, Pads;
    PadsAdd(q, c);
  }

  lemma {:induction false} CollectedThree(block: seq<byte>, q: string, pad: nat)
    requires |block| == 4 && |q| == 4 && Collected(block, q, 4, pad)
    ensures Three(q) == [J0(block[0], block[1]), J1(block[1], block[2]), J2(block[2], block[3])]
    ensures |q| == 4 && pad == Pads(q)
  {
    hide Val, J0, J1, J2;
  }

  /** What has been decoded and what is still to come. */
  ghost predicate Progress(src: string, i: nat, done: seq<byte>, q: string) {
    i <= |src| && Joined(done, Blocks(q + Filter(src[i..]))) == Blocks(Filter(src)) &&
    4 * |done| + 3 * |q + Filter(src[i..])| == 3 * |Filter(src)|
  }

  lemma {:induction false} ProgressSkip(src: string, i: nat, done: seq<byte>, q: string)
    requires Progress(src, i, done, q) && i < |src| && Val(src[i]) == 0x80
    ensures Progress(src, i + 1, done, q)
  {
    hide Val, Blocks;
    FilterStep(src, i);
    assert Filter(src[i..]) == Filter(src[i + 1..]);
  }

  lemma {:induction false} ProgressCollect(src: string, i: nat, done: seq<byte>, q: string)
    requires Progress(src, i, done, q) && i < |src| && Val(src[i]) != 0x80
    ensures Progress(src, i + 1, done, q + [src[i]])
  {
    hide Val, Blocks;
    FilterStep(src, i);
    assert q + Filter(src[i..]) == (q + [src[i]]) + Filter(src[i + 1..]);
  }

  lemma {:induction false} ProgressBlock(src: string, i: nat, done: seq<byte>, q: string)
    requires Progress(src, i, done, q) && |q| == 4
    ensures Pads(q) == 0 ==> Progress(src, i, done + Three(q), "")
    ensures 1 <= Pads(q) <= 2 ==> Blocks(Filter(src)) == Some(done + Three(q)[..3 - Pads(q)])
    ensures Pads(q) > 2 ==> Blocks(Filter(src)) == None
    ensures 4 * (|done| + 3) <= 3 * |Filter(src)|
  {
    hide Val, Blocks, Three, Pads;
    BlockStep(done, q, Filter(src[i..]));
    assert "" + Filter(src[i..]) == Filter(src[i..]);
  }

  lemma {:induction false} ProgressDone(src: string, done: seq<byte>, q: string)
    requires Progress(src, |src|, done, q) && |q| < 4 && |Filter(src)| % 4 == 0
    ensures q == "" && Blocks(Filter(src)) == Some(done) && 4 * |done| == 3 * |Filter(src)|
  {
    assert Filter(src[|src|..]) == "" && q + "" == q;
    Divides(|done|, |q|, |Filter(src)| / 4);
    assert done + [] == done;
  }

  lemma {:induction false} Divides(d: nat, q: nat, m: nat)
    requires 4 * d + 3 * q == 12 * m && q < 4
    ensures q == 0
  {
    assert 3 * q == 4 * (3 * m - d);
  }

  /** base64_decode; null where it returns NULL */
  method Base64Decode(src: string) returns (out: array?<byte>, outLen: nat)
    requires forall k :: 0 <= k < |src| ==> src[k] as int < 256
    ensures match Decode(src)
      case None => out == null
      case Some(r) => out != null && fresh(out) && outLen < out.Length && out[..outLen] == r && out[outLen] == 0
    ensures out != null ==> out.Length == |Filter(src)| / 4 * 3 + 1
  {
    hide Val, Filter, Blocks, Pads, Three, J0, J1, J2, Joined, Progress, Collected;
    var dtable := MakeTable();
    var count := CountSymbols(src, dtable);
    if count == 0 || count % 4 != 0 {
      return null, 0;
    }
    var buf := new byte[count / 4 * 3 + 1];
    var block := new byte[4];
    var pos, pad, i := 0, 0, 0;
    count := 0;
    ghost var q := "";
    Begin(src, buf[..0], block[..]);
    while i < |src|
      invariant 0 <= i <= |src| && pos < buf.Length && buf.Length == |Filter(src)| / 4 * 3 + 1 && count < 4
      invariant Collected(block[..], q, count, pad) && pad >= 0 && Progress(src, i, buf[..pos], q)
      invariant forall c: char :: c as int < 256 ==> dtable[c as int] == Val(c)
      decreases |src| - i
    {
      var tmp := dtable[src[i] as int];
      if tmp == 0x80 {
        ProgressSkip(src, i, buf[..pos], q);
        i := i + 1;
        continue;
      }
      ProgressCollect(src, i, buf[..pos], q);
      CollectNext(block[..], q, count, pad, src[i]);
      q := q + [src[i]];
      if src[i] == '=' {
        pad := pad + 1;
      }
      block[count] := tmp;
      count := count + 1;
      i := i + 1;
      if count == 4 {
        PutBlock(buf, pos, block, src, i, q, pad);
        pos := pos + 3;
        count := 0;
        if pad != 0 {
          if pad > 2 {
            return null, 0;
          }
          pos := pos - pad;
          buf[pos] := 0;
          return buf, pos;
        }
        q := "";
        Empty(block[..]);
      }
    }
    CollectedSize(block[..], q, count, pad);
    ProgressDone(src, buf[..pos], q);
    buf[pos] := 0;
    return buf, pos;
  }

  lemma {:induction false} Begin(src: string, done: seq<byte>, block: seq<byte>)
    requires done == [] && |block| == 4
    ensures Progress(src, 0, done, "") && Collected(block, "", 0, 0)
  {
    hide Blocks, Filter;
    assert src[0..] == src && "" + Filter(src) == Filter(src);
    if Blocks(Filter(src)).Some? {
      assert [] + Blocks(Filter(src)).value == Blocks(Filter(src)).value;
    }
  }

  lemma {:induction false} CollectedSize(block: seq<byte>, q: string, count: nat, pad: nat)
    requires Collected(block, q, count, pad)
    ensures |q| == count && |block| == 4
  {
  }

  lemma {:induction false} Empty(block: seq<byte>)
    requires |block| == 4
    ensures Collected(block, "", 0, 0)
  {
  }

  /** A full block of four becomes three bytes, less the padding. */
  method PutBlock(out: array<byte>, pos: nat, block: array<byte>, ghost src: string, ghost i: nat, ghost q: string,
      ghost pad: nat)
    requires out != block && Collected(block[..], q, 4, pad) && pos <= out.Length && Progress(src, i, out[..pos], q)
    requires out.Length == |Filter(src)| / 4 * 3 + 1 && |Filter(src)| % 4 == 0
    modifies out
    ensures pos + 3 < out.Length
    ensures pad == 0 ==> Progress(src, i, out[..pos + 3], "")
    ensures 1 <= pad <= 2 ==> Blocks(Filter(src)) == Some(out[..pos + 3 - pad])
    ensures pad > 2 ==> Blocks(Filter(src)) == None
  {
    hide Val, Filter, Blocks, Pads, Three, J0, J1, J2, Progress, Collected;
    CollectedSize(block[..], q, 4, pad);
    CollectedThree(block[..], q, pad);
    ProgressBlock(src, i, out[..pos], q);
    ghost var done, three := out[..pos], Three(q);
    Put3(out, pos, J0(block[0], block[1]), J1(block[1], block[2]), J2(block[2], block[3]));
    if 1 <= pad <= 2 {
      assert out[..pos + 3 - pad] == out[..pos + 3][..pos + 3 - pad] == done + three[..3 - pad];
    }
  }

  method Put3(out: array<byte>, pos: nat, x: byte, y: byte, z: byte)
    requires pos + 3 <= out.Length
    modifies out
    ensures out[..pos + 3] == old(out[..pos]) + [x, y, z] && out[..pos] == old(out[..pos])
  {
    out[pos] := x;
    out[pos + 1] := y;
    out[pos + 2] := z;
  }
}

/** The chunked transfer coding of section 4.1 of RFC 7230. */
module ChunkedCoding {
  import opened Wrappers
  import opened Texts

  function Digit(d: nat): char
    requires d < 16
  {
    if d < 10 then ('0' as int + d) as char else ('a' as int + d - 10) as char
  }

  /** printf("%x") */
  function Hex(n: nat): string {
    if n < 16 then [Digit(n)] else Hex(n / 16) + [Digit(n % 16)]
  }

  function DigitValue(c: char): Option<nat> {
    if '0' <= c <= '9' then Some(c as int - '0' as int)
    else if 'a' <= c <= 'f' then Some(c as int - 'a' as int + 10)
    else if 'A' <= c <= 'F' then Some(c as int - 'A' as int + 10)
    else None
  }

  /** The leading hexadecimal digits as a number, how many there are, and what follows. */
  function ReadHex(s: string, acc: nat): (r: (nat, string))
    ensures |r.1| <= |s|
  {
    if s != "" && DigitValue(s[0]).Some? then ReadHex(s[1..], 16 * acc + DigitValue(s[0]).value) else (acc, s)
  }

  /** chunk-size CRLF chunk-data CRLF */
  function Chunk(x: string): string {
    Hex(|x|) + (CRLF + (x + CRLF))
  }

  const LAST := "0\r\n\r\n"

  /** The decoder: chunks up to the last one, without extensions and trailers. */
  function Dechunk(s: string): Option<string>
    decreases |s|
  {
    var r := ReadHex(s, 0);
    if |r.1| == |s| || |r.1| < 2 || r.1[..2] != CRLF then None
    else
      var body := r.1[2..];
      if r.0 == 0 then (if body == CRLF then Some("") else None)
      else if |body| < r.0 + 2 || body[r.0..r.0 + 2] != CRLF then None
      else match Dechunk(body[r.0 + 2..])
        case None => None
        case Some(t) => Some(body[..r.0] + t)
  }

  predicate AllHex(s: string) {
    forall k :: 0 <= k < |s| ==> DigitValue(s[k]).Some?
  }

  lemma {:induction false} DigitBack(d: nat)
    requires d < 16
    ensures DigitValue(Digit(d)) == Some(d)
  {
  }

  /** Reading stops at the first byte that is not a digit. */
  lemma {:induction false} ReadDigits(s: string, acc: nat, rest: string)
    requires AllHex(s) && (rest == "" || DigitValue(rest[0]).None?)
    ensures ReadHex(s + rest, acc) == (ReadHex(s, acc).0, rest) && ReadHex(s, acc).1 == ""
    decreases s
  {
    if s == "" {
      assert s + rest == rest;
    } else {
      assert (s + rest)[1..] == s[1..] + rest;
      ReadDigits(s[1..], 16 * acc + DigitValue(s[0]).value, rest);
    }
  }

  lemma {:induction false} ReadAppend(s: string, acc: nat, d: nat)
    requires AllHex(s) && d < 16
    ensures ReadHex(s + [Digit(d)], acc).0 == 16 * ReadHex(s, acc).0 + d
    decreases s
  {
    DigitBack(d);
    if s == "" {
      assert s + [Digit(d)] == [Digit(d)];
      assert [Digit(d)][1..] == "";
    } else {
      assert (s + [Digit(d)])[1..] == s[1..] + [Digit(d)];
      ReadAppend(s[1..], 16 * acc + DigitValue(s[0]).value, d);
    }
  }

  lemma {:induction false} HexBack(n: nat)
    ensures AllHex(Hex(n)) && Hex(n) != "" && ReadHex(Hex(n), 0).0 == n
  {
    if n < 16 {
      DigitBack(n);
      ReadAppend("", 0, n);
      assert "" + [Digit(n)] == Hex(n);
    } else {
      HexBack(n / 16);
      DigitBack(n % 16);
      ReadAppend(Hex(n / 16), 0, n % 16);
    }
  }

  /** Sizes are written with small letters, and without leading zeros. */
  lemma {:induction false} HexIs(n: nat)
    ensures forall k :: 0 <= k < |Hex(n)| ==> Hex(n)[k] in "0123456789abcdef"
    ensures Hex(n) != "" && (Hex(n)[0] == '0' ==> n == 0)
  {
    if n < 16 {
      assert Digit(n) == "0123456789abcdef"[n];
    } else {
      assert Digit(n % 16) == "0123456789abcdef"[n % 16];
      HexIs(n / 16);
    }
  }

  /** A chunk decodes to its data. */
  lemma {:induction false} ChunkBack(x: string, rest: string)
    requires x != ""
    ensures Dechunk(Chunk(x) + rest) == match Dechunk(rest) case None => None case Some(t) => Some(x + t)
  {
    hide Hex, ReadHex;
    var tail := CRLF + (x + CRLF) + rest;
    HexBack(|x|);
    assert Chunk(x) + rest == Hex(|x|) + tail;
    ReadDigits(Hex(|x|), 0, tail);
    var body := tail[2..];
    assert tail[..2] == CRLF;
    assert body == x + CRLF + rest;
    assert body[|x|..|x| + 2] == CRLF && body[..|x|] == x && body[|x| + 2..] == rest;
  }

  lemma {:induction false} LastBack()
    ensures Dechunk(LAST) == Some("")
  {
    hide ReadHex;
    assert LAST == "0" + (CRLF + CRLF);
    ReadDigits("0", 0, CRLF + CRLF);
    HexBack(0);
    assert Hex(0) == "0";
  }
}

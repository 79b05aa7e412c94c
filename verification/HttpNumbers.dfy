/** The numbers in headers: what strtol reads, which lengths and ports are accepted, and with which status not. */
module HttpNumbers {
  import opened Wrappers
  import opened HttpSyntax
  import opened HttpParser
  import opened HttpRoundTrip
  import opened Texts

  lemma {:induction false} DigitsStop(s: string, acc: nat, rest: string)
    requires AllDigits(s) && (rest == "" || !IsDigit(rest[0]))
    ensures Digits(s + rest, acc) == (Digits(s, acc).0, rest)
    decreases s
  {
    if s == "" {
      assert s + rest == rest;
    } else {
      assert (s + rest)[1..] == s[1..] + rest;
      DigitsStop(s[1..], 10 * acc + (s[0] as int - '0' as int), rest);
    }
  }

  /** A numeral with a sign or none is read up to the first byte that is no digit. */
  lemma {:induction false} StrtolSigned(n: nat, rest: string)
    requires rest == "" || !('0' <= rest[0] <= '9')
    ensures Strtol(Decimal(n) + rest) == Some((n, rest))
    ensures Strtol("+" + Decimal(n) + rest) == Some((n, rest))
    ensures var minus := -(n as int); Strtol("-" + Decimal(n) + rest) == Some((minus, rest))
  {
    hide Digits, Decimal;
    var d := Decimal(n);
    DecimalDigits(n);
    DigitsStop(d, 0, rest);
    assert IsDigit(d[0]);
    assert ("+" + d + rest)[1..] == d + rest == ("-" + d + rest)[1..];
    assert (d + rest)[0] == d[0];
  }

  /** White space in front of it does not matter, and without a digit there is no number. */
  lemma {:induction false} StrtolSpaces(s: string)
    ensures forall c :: c in " \t\n\r" ==> Strtol([c] + s) == Strtol(s)
    ensures s != "" && s[0] !in "+-0123456789 \t\n\r" && !IsSpace(s[0]) ==> Strtol(s) == None
    ensures Strtol("") == None
  {
    forall c | c in " \t\n\r"
      ensures Strtol([c] + s) == Strtol(s)
    {
      assert ([c] + s)[1..] == s;
    }
    if s != "" && IsDigit(s[0]) {
      assert "+-0123456789 \t\n\r"[2 + (s[0] as int - '0' as int)] == s[0];
    }
  }

  /** A Content-Length is accepted if it is not negative and fits 63 bits; one that does not fit gives 413. */
  lemma {:induction false} LengthDecided(t: Table, n: nat, rest: string)
    requires rest == "" || !('0' <= rest[0] <= '9')
    ensures var v := Decimal(n) + rest;
      LengthEffect(t, v) ==
        if n < 0x8000_0000_0000_0000 then Accepted(t.(contentLength := n), |v|) else Rejected(413)
    ensures n > 0 ==>
      LengthEffect(t, "-" + Decimal(n) + rest) == Rejected(if n <= 0x8000_0000_0000_0000 then 0 else 413)
  {
    hide Strtol, Decimal;
    StrtolSigned(n, rest);
  }

  lemma {:induction false} DecimalLong(n: nat)
    requires n >= 100000
    ensures |Decimal(n)| >= 6
  {
    var a := n / 10;
    var b := a / 10;
    var c := b / 10;
    var d := c / 10;
    assert |Decimal(n)| == 1 + |Decimal(a)| && |Decimal(a)| == 1 + |Decimal(b)|;
    assert |Decimal(b)| == 1 + |Decimal(c)| && |Decimal(c)| == 1 + |Decimal(d)|;
    assert |Decimal(d)| == 1 + |Decimal(d / 10)|;
    DecimalDigits(d / 10);
  }

  /** The port of a host is a number of at most five digits; anything else behind the colon gives 400. */
  lemma {:induction false} PortDecided(t: Table, host: string, n: nat, rest: string)
    requires host != "" && (rest == "" || !('0' <= rest[0] <= '9' || rest[0] == '\0'))
    requires forall k :: 0 <= k < |rest| ==> rest[k] != ':'
    ensures HostEffect(t, host + ":" + (Decimal(n) + rest)) ==
      if rest == "" && n < 100000 then Accepted(t.(port := n), |host|) else Rejected(400)
    ensures HostEffect(t, host + ":") == Rejected(400)
  {
    hide Strtol, Decimal;
    var p := Decimal(n) + rest;
    DecimalDigits(n);
    StrtolSigned(n, rest);
    IndexBehind(host, ':', p);
    IndexBehind(host, ':', "");
    assert host + [':'] + p == host + ":" + p && (host + ":" + p)[|host| + 1..] == p;
    assert host + [':'] + "" == host + ":" && (host + ":")[|host| + 1..] == "";
    if n < 100000 {
      DecimalShort(n);
    } else {
      DecimalLong(n);
    }
  }
}

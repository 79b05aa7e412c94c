/** Parsing a printed request recovers every field of it. */
module HttpRoundTrip {
  import opened Wrappers
  import opened HttpSyntax
  import opened HttpParser
  import opened HttpSegments
  import opened HttpPrinter
  import opened Texts

  /** Byte by byte, the parser comes to this state. */
  predicate Reached(b: string, s: State) {
    s.i <= |b| && Bytewise(b, s.i) == Pending(s)
  }

  lemma {:induction false} Round(s: State, t: State, b: string)
    requires s.i < |b| && !s.level.Body? && Reached(b, s) && Advance(s, b) == More(t)
    ensures Reached(b, t)
  {
    hide Advance, Bytewise;
    NextState(b, s.i);
    AdvanceMoves(s, b);
  }

  // ------------------------------------------------- reading plain bytes

  /** A byte that changes nothing but the counters. */
  predicate Plain(s: State, c: char) {
    || (s.level.First? && s.status.ReqMethod? && s.chars != -1 && c != ' ' && s.i - s.start <= 10)
    || (s.level.First? && s.status.ReqUri? && c !in " ?\r\n")
    || (s.level.First? && s.status.ReqQuery? && c !in " \r\n")
    || (s.level.First? && s.status.ReqVersion? && s.start + 6 >= s.i)
    || (s.level.Headers? && s.status.HeaderKey? && s.chars > 0 && c !in ":\r")
    || (s.level.Headers? && s.status.HeaderValue? && c == ' ')
    || (s.level.Headers? && s.status.HeaderValStarts? && c !in "\r\n")
  }

  function Counted(s: State, j: nat): State {
    s.(i := j, chars := s.chars + (j - s.i))
  }

  lemma {:induction false} PlainByte(s: State, b: string)
    requires s.i < |b| && Plain(s, b[s.i])
    ensures Advance(s, b) == More(Counted(s, s.i + 1))
  {
    hide HeaderLookup, MethodLookup, Slice, Window, GuessMethod, Version;
  }

  lemma {:induction false} PlainBytes(s: State, b: string, j: nat)
    requires s.i <= j <= |b| && Reached(b, s)
    requires forall k :: s.i <= k < j ==> Plain(Counted(s, k), b[k])
    ensures Reached(b, Counted(s, j))
    decreases j - s.i
  {
    hide Advance, Reached;
    assert Counted(s, s.i) == s;
    if s.i < j {
      var t := Counted(s, s.i + 1);
      PlainByte(s, b);
      Round(s, t, b);
      forall k | t.i <= k < j
        ensures Plain(Counted(t, k), b[k])
      {
        assert Counted(t, k) == Counted(s, k);
      }
      PlainBytes(t, b, j);
    }
  }

  // ---------------------------------------------------------- first line

  lemma {:induction false} MethodFound(v: nat)
    requires v < |METHODS|
    ensures var w := METHODS[v]; MethodLookup(GuessMethod(w[0], -1), w) == v
  {
    var w := METHODS[v];
    var g := GuessMethod(w[0], -1);
    assert StrncmpEq("UT", "OST") == false;
    assert w[1..] == w[1..] && w[2..] == w[1..][1..];
    if v == 3 {
      assert w[1..] == "UT" && METHODS[g][1..] == "OST";
      assert ScanMethods(w, 3) == 3 by { StrncmpSelf(w); }
      assert !StrncmpEq(w, "GET");
    } else {
      assert g == v;
      StrncmpSelf(w[1..]);
    }
  }

  lemma {:induction false} StrncmpSelf(w: string)
    ensures StrncmpEq(w, w)
  {
    if w != "" {
      StrncmpSelf(w[1..]);
    }
  }

  function AfterMethod(v: nat): State
    requires v < |METHODS|
  {
    var n := |METHODS[v]|;
    INITIAL.(i := n + 1, status := ReqUri, chars := 0, start := n + 1, end := n,
             guess := GuessMethod(METHODS[v][0], -1), req := INITIAL.req.(verb := v, verbP := Span(0, n)))
  }

  lemma {:induction false} Begins(b: string)
    ensures Reached(b, INITIAL)
  {
  }

  /** The state behind a method word and its blank. */
  function AfterWord(w: string): State
    requires w != ""
  {
    var n := |w|;
    INITIAL.(i := n + 1, status := ReqUri, chars := 0, start := n + 1, end := n, guess := GuessMethod(w[0], -1),
             req := INITIAL.req.(verb := MethodLookup(GuessMethod(w[0], -1), w), verbP := Span(0, n)))
  }

  lemma {:induction false} WordPhase(w: string, b: string)
    requires WordFine(w) && Placed(b, 0, w + " ")
    ensures Reached(b, AfterWord(w))
  {
    hide MethodLookup, GuessMethod, Reached;
    assert Reached(b, INITIAL) by { Begins(b); }
    var n := |w|;
    PlacedSplit(b, 0, w, " ");
    PlacedAt(b, 0, w, 0);
    PlacedAt(b, n, " ", 0);
    var s := INITIAL.(i := 1, chars := 0, guess := GuessMethod(w[0], -1));
    Round(INITIAL, s, b);
    forall k | 1 <= k < n
      ensures Plain(Counted(s, k), b[k])
    {
      PlacedAt(b, 0, w, k);
      assert w[1..][k - 1] == b[k];
    }
    PlainBytes(s, b, n);
    assert Slice(b, 0, n) == w;
    Round(Counted(s, n), AfterWord(w), b);
  }

  lemma {:induction false} MethodPhase(v: nat, b: string)
    requires v < |METHODS| && Placed(b, 0, METHODS[v] + " ")
    ensures Reached(b, AfterMethod(v))
  {
    hide MethodLookup, GuessMethod, Reached, Placed;
    MethodWord(v);
    WordPhase(METHODS[v], b);
    MethodFound(v);
  }

  lemma {:induction false} MethodWord(v: nat)
    requires v < |METHODS|
    ensures WordFine(METHODS[v])
  {
  }

  /** The state after a field that ended at `j`. */
  function Past(s: State, j: nat, status: Status, req: Request): State {
    s.(i := j + 1, status := status, chars := 0, start := j + 1, end := j, req := req)
  }

  lemma {:induction false} UriPhase(s: State, uri: string, stop: char, b: string)
    requires Reached(b, s) && s.level.First? && s.status.ReqUri? && s.start == s.i
    requires stop in " ?" && Free(uri, " ?\r\n") && (uri == "" ==> stop == '?') && Placed(b, s.i, uri + [stop])
    ensures var j := s.i + |uri|; Reached(b, Past(s, j, if stop == ' ' then ReqVersion else ReqQuery,
      s.req.(uri := Some(Span(s.i, |uri|)))))
  {
    hide MethodLookup, GuessMethod, Reached;
    PlacedSplit(b, s.i, uri, [stop]);
    var j := s.i + |uri|;
    PlacedAt(b, j, [stop], 0);
    forall k | s.i <= k < j
      ensures Plain(Counted(s, k), b[k])
    {
      PlacedAt(b, s.i, uri, k - s.i);
    }
    PlainBytes(s, b, j);
    Round(Counted(s, j), Past(s, j, if stop == ' ' then ReqVersion else ReqQuery,
      s.req.(uri := Some(Span(s.i, |uri|)))), b);
  }

  lemma {:induction false} QueryPhase(s: State, query: string, b: string)
    requires Reached(b, s) && s.level.First? && s.status.ReqQuery? && s.start == s.i && Free(query, " \r\n") &&
      Placed(b, s.i, query + " ")
    ensures var j := s.i + |query|; Reached(b, Past(s, j, ReqVersion, s.req.(query := Some(Span(s.i, |query|)))))
  {
    hide MethodLookup, GuessMethod, Reached;
    PlacedSplit(b, s.i, query, " ");
    var j := s.i + |query|;
    PlacedAt(b, j, " ", 0);
    forall k | s.i <= k < j
      ensures Plain(Counted(s, k), b[k])
    {
      PlacedAt(b, s.i, query, k - s.i);
    }
    PlainBytes(s, b, j);
    Round(Counted(s, j), Past(s, j, ReqVersion, s.req.(query := Some(Span(s.i, |query|)))), b);
  }

  /** The state after the first line. */
  function Protocol(minor: nat): int {
    if minor <= 1 then 10 + minor else -1
  }

  function AfterVersion(s: State, minor: nat): State {
    s.(i := s.i + 10, level := Continue, status := FirstFinalizing, chars := s.chars + 10, start := s.i + 10,
       req := s.req.(protocolP := Span(s.i, 8), protocol := Protocol(minor)))
  }

  /** The characters of a version and the line break behind it. */
  lemma {:induction false} VersionBytes(b: string, o: nat, m: Message)
    requires m.minor < 10 && Placed(b, o, VersionText(m) + CRLF)
    ensures o + 10 <= |b| && Slice(b, o, o + 7) == "HTTP/1." && Version(b[o + 7]) == Protocol(m.minor)
    ensures b[o + 8] == '\r' && b[o + 9] == '\n'
  {
    var text := VersionText(m) + CRLF;
    forall k | 0 <= k < 10
      ensures b[o + k] == text[k]
    {
      PlacedAt(b, o, text, k);
    }
    hide Version, Protocol;
    assert Slice(b, o, o + 7) == text[..7] == "HTTP/1.";
    assert text[8] == CRLF[0] && text[9] == CRLF[1];
    VersionIs(m.minor);
  }

  lemma {:induction false} VersionIs(minor: nat)
    requires minor < 10
    ensures Version(('0' as int + minor % 10) as char) == Protocol(minor)
  {
    assert ('0' as int + minor) as char == '0' <==> minor == 0;
    assert ('0' as int + minor) as char == '1' <==> minor == 1;
  }

  lemma {:induction false} VersionPhase(s: State, m: Message, b: string)
    requires Reached(b, s) && s.level.First? && s.status.ReqVersion? && s.start == s.i && m.minor < 10 &&
      Placed(b, s.i, VersionText(m) + CRLF)
    ensures Reached(b, AfterVersion(s, m.minor))
  {
    hide Advance, FirstLine, Slice, Version, Protocol, Placed, VersionText;
    VersionBytes(b, s.i, m);
    PlainBytes(s, b, s.i + 7);
    var t := Counted(s, s.i + 7);
    VersionSteps(s, t, Protocol(m.minor), b);
  }

  lemma {:induction false} VersionSteps(s: State, t: State, protocol: int, b: string)
    requires Reached(b, t) && s.level.First? && s.status.ReqVersion? && s.start == s.i && s.i + 10 <= |b| &&
      t == Counted(s, s.i + 7)
    requires Slice(b, s.i, s.i + 7) == "HTTP/1." && Version(b[s.i + 7]) == protocol && b[s.i + 8] == '\r' &&
      b[s.i + 9] == '\n'
    ensures Reached(b, s.(i := s.i + 10, level := Continue, status := FirstFinalizing, chars := s.chars + 10,
      start := s.i + 10, req := s.req.(protocolP := Span(s.i, 8), protocol := protocol)))
  {
    hide MethodLookup, GuessMethod, Slice, Version, Reached;
    var u := Counted(s, s.i + 8).(status := FirstContinue,
      req := s.req.(protocolP := Span(s.i, 8), protocol := protocol));
    Round(t, u, b);
    var v := Counted(u, s.i + 9).(status := FirstFinalizing);
    Round(u, v, b);
    Round(v, Counted(v, s.i + 10).(level := Continue, start := s.i + 10), b);
  }

  // -------------------------------------------------------------- headers

  /** A new header line begins at the current byte. */
  predicate AtLine(s: State) {
    s.start == s.i && (s.level.Continue? || (s.level.Headers? && s.status.HeaderKey? && s.chars == 0))
  }

  /** The header line at hand: the key ends at `sep`, the field text goes from `val` to `end`. */
  function Within(s: State, name: string, status: Status, i: nat): State
    requires name != ""
  {
    s.(i := i, level := Headers, status := status, key := s.i, min := Window(name[0]).0, max := Window(name[0]).1)
  }

  lemma {:induction false} KeyPhase(s: State, name: string, b: string)
    requires Reached(b, s) && AtLine(s) && name != "" && name[0] != '\r' && Free(name[1..], ":\r")
    requires Placed(b, s.i, name + ":")
    ensures var j := s.i + |name|;
      Reached(b, Within(s, name, HeaderValue, j + 1).(chars := 0, start := j + 1, end := j, sep := j))
  {
    hide MethodLookup, GuessMethod, Reached, Window;
    var j := s.i + |name|;
    PlacedSplit(b, s.i, name, ":");
    PlacedAt(b, s.i, name, 0);
    PlacedAt(b, j, ":", 0);
    var w := Window(name[0]).0;
    var t := Within(s, name, HeaderKey, s.i + 1).(chars := 1, sep := if w == -1 then -1 else s.sep);
    Round(s, t, b);
    forall k | t.i <= k < j
      ensures Plain(Counted(t, k), b[k])
    {
      PlacedAt(b, s.i, name, k - s.i);
      assert name[1..][k - s.i - 1] == b[k];
    }
    PlainBytes(t, b, j);
    Round(Counted(t, j), Within(s, name, HeaderValue, j + 1).(chars := 0, start := j + 1, end := j, sep := j), b);
  }

  /** The first byte of a value that is not a blank. */
  lemma {:induction false} ValueStarts(s: State, b: string)
    requires s.i < |b| && s.level.Headers? && s.status.HeaderValue? && b[s.i] !in " \r\n"
    ensures Advance(s, b) == More(Counted(s, s.i + 1).(status := HeaderValStarts, start := s.i, val := s.i))
  {
    hide HeaderLookup, Window;
  }

  lemma {:induction false} BlanksPhase(s: State, pad: nat, b: string)
    requires Reached(b, s) && s.level.Headers? && s.status.HeaderValue? && Placed(b, s.i, Blanks(pad))
    ensures Reached(b, Counted(s, s.i + pad))
  {
    hide Reached;
    forall k | s.i <= k < s.i + pad
      ensures Plain(Counted(s, k), b[k])
    {
      PlacedAt(b, s.i, Blanks(pad), k - s.i);
    }
    PlainBytes(s, b, s.i + pad);
  }

  lemma {:induction false} TextPhase(s: State, text: string, b: string)
    requires Reached(b, s) && s.level.Headers? && s.status.HeaderValue? && text != "" && text[0] != ' ' &&
      Free(text, "\r\n")
    requires Placed(b, s.i, text)
    ensures Reached(b, Counted(s, s.i + |text|).(status := HeaderValStarts, start := s.i, val := s.i))
  {
    hide Reached, Advance;
    PlacedAt(b, s.i, text, 0);
    var t := Counted(s, s.i + 1).(status := HeaderValStarts, start := s.i, val := s.i);
    ValueStarts(s, b);
    Round(s, t, b);
    var e := s.i + |text|;
    forall k | t.i <= k < e
      ensures Plain(Counted(t, k), b[k])
    {
      PlacedAt(b, s.i, text, k - s.i);
    }
    PlainBytes(t, b, e);
    assert Counted(t, e) == Counted(s, e).(status := HeaderValStarts, start := s.i, val := s.i);
  }

  lemma {:induction false} ValuePhase(s: State, pad: nat, text: string, b: string)
    requires Reached(b, s) && s.level.Headers? && s.status.HeaderValue? && text != "" && text[0] != ' ' &&
      Free(text, "\r\n")
    requires Placed(b, s.i, Blanks(pad) + (text + CRLF))
    ensures var v := s.i + pad; var e := v + |text|;
      Reached(b, s.(i := e, status := HeaderValStarts, chars := s.chars + (e - s.i), start := v, val := v))
  {
    hide Reached, Placed, Free;
    PlacedSplit(b, s.i, Blanks(pad), text + CRLF);
    PlacedSplit(b, s.i + pad, text, CRLF);
    BlanksPhase(s, pad, b);
    TextPhase(Counted(s, s.i + pad), text, b);
  }

  lemma {:induction false} LinePhase(s: State, b: string, t: Table, n: int)
    requires Reached(b, s) && s.level.Headers? && s.status.HeaderValStarts? && s.start < s.i && Placed(b, s.i, CRLF)
    requires HeaderLookup(MarkEnd(s), b) == Accepted(t, n)
    ensures Reached(b, s.(i := s.i + 2, status := HeaderKey, chars := 0, start := s.i + 2, end := s.i, table := t))
  {
    hide MethodLookup, GuessMethod, Reached, HeaderLookup;
    PlacedAt(b, s.i, CRLF, 0);
    PlacedAt(b, s.i, CRLF, 1);
    var u := s.(i := s.i + 1, status := HeaderEnd, chars := 0, start := s.i + 1, end := s.i, table := t);
    Round(s, u, b);
    Round(u, u.(i := s.i + 2, status := HeaderKey, start := s.i + 2), b);
  }

  // --------------------------------------------------- what a header says

  predicate AllDigits(s: string) {
    forall k :: 0 <= k < |s| ==> IsDigit(s[k])
  }

  lemma {:induction false} DigitsAppend(s: string, d: char, acc: nat)
    requires AllDigits(s) && IsDigit(d)
    ensures Digits(s, acc).1 == "" && Digits(s + [d], acc) == (10 * Digits(s, acc).0 + (d as int - '0' as int), "")
    decreases s
  {
    if s != "" {
      assert (s + [d])[1..] == s[1..] + [d];
      DigitsAppend(s[1..], d, 10 * acc + (s[0] as int - '0' as int));
    } else {
      assert [d][1..] == "";
    }
  }

  lemma {:induction false} DecimalDigits(n: nat)
    ensures AllDigits(Decimal(n)) && Decimal(n) != "" && Digits(Decimal(n), 0) == (n, "")
  {
    if n >= 10 {
      DecimalDigits(n / 10);
      DigitsAppend(Decimal(n / 10), ('0' as int + n % 10) as char, 0);
    } else {
      DigitsAppend("", ('0' as int + n) as char, 0);
      assert Decimal(n) == "" + [('0' as int + n) as char];
    }
  }

  /** strtol reads back a decimal numeral. */
  lemma {:induction false} StrtolDecimal(n: nat)
    ensures Strtol(Decimal(n)) == Some((n, ""))
  {
    hide Digits, Decimal;
    DecimalDigits(n);
    assert IsDigit(Decimal(n)[0]);
  }

  lemma {:induction false} DecimalShort(n: nat)
    requires n < 100000
    ensures 0 < |Decimal(n)| < 6
  {
    assert n / 10 < 10000 && n / 10 / 10 < 1000 && n / 10 / 10 / 10 < 100 && n / 10 / 10 / 10 / 10 < 10;
    var a := n / 10; var c := a / 10; var d := c / 10;
    assert |Decimal(n)| <= 1 + |Decimal(a)|;
    assert |Decimal(a)| <= 1 + |Decimal(c)|;
    assert |Decimal(c)| <= 1 + |Decimal(d)|;
    assert |Decimal(d)| <= 1 + |Decimal(d / 10)|;
  }

  lemma {:induction false} IndexBehind(v: string, c: char, p: string)
    requires forall k :: 0 <= k < |p| ==> p[k] != c
    ensures LastIndex(v + [c] + p, c) == |v|
    decreases p
  {
    var s := v + [c] + p;
    if p == "" {
      assert s[|s| - 1] == c;
    } else {
      assert s[..|s| - 1] == v + [c] + p[..|p| - 1];
      IndexBehind(v, c, p[..|p| - 1]);
    }
  }

  /** The state that a Connection header leaves, from the state before it. */
  function Meant(value: string, before: Connection): Connection {
    var low := LowerAll(value);
    if low == "keep-alive" then KeepAlive
    else if low == "close" then Close
    else if low == "upgrade" then Upgrade
    else if |value| == 10 || |value| == 5 || |value| == 7 then before
    else Unknown
  }

  /** The table with what header `h` says in its row. */
  function Said(t: Table, h: Header): Table {
    match RowOf(h.name)
    case None => t
    case Some(row) =>
      if row == HOST && h.port.Some? then t.(port := h.port.value)
      else if row == CONTENT_LENGTH then t.(contentLength := Digits(h.value, 0).0)
      else if row == CONNECTION then t.(connection := Meant(h.value, t.connection))
      else t
  }

  lemma {:induction false} EffectOfHost(t: Table, h: Header)
    requires RowOf(h.name) == Some(HOST) && h.value != ""
    requires if h.port.Some? then h.port.value < 100000 else LastIndex(h.value, ':') <= 0
    ensures HostEffect(t, FieldText(h)) == Accepted(Said(t, h), |h.value|)
  {
    if h.port.Some? {
      var p := Decimal(h.port.value);
      DecimalDigits(h.port.value);
      DecimalShort(h.port.value);
      StrtolDecimal(h.port.value);
      IndexBehind(h.value, ':', p);
      assert FieldText(h) == h.value + [':'] + p;
      assert FieldText(h)[|h.value| + 1..] == p;
    } else {
      assert FieldText(h) == h.value;
    }
  }

  /** A host value is taken whole, without a port, if and only if no colon stands behind its first byte. */
  lemma {:induction false} HostWhole(t: Table, value: string)
    ensures HostEffect(t, value) == Accepted(t, |value|) <==> LastIndex(value, ':') <= 0
    ensures LastIndex(value, ':') <= 0 <==> forall k :: 1 <= k < |value| ==> value[k] != ':'
  {
    hide Strtol;
    IndexIs(value, ':');
  }

  lemma {:induction false} IndexIs(s: string, c: char)
    ensures forall k :: LastIndex(s, c) < k < |s| ==> s[k] != c
    ensures LastIndex(s, c) >= 0 ==> s[LastIndex(s, c)] == c
  {
    if s != "" && s[|s| - 1] != c {
      IndexIs(s[..|s| - 1], c);
    }
  }

  /** An IPv6 address in brackets is refused with 400; a bare one loses its end to the port. */
  lemma {:induction false} HostOfIpv6(t: Table)
    ensures HostEffect(t, "[::1]") == Rejected(400)
    ensures HostEffect(t, "::1") == Accepted(t.(port := 1), 1)
  {
    var v, w := "[::1]", "::1";
    IndexBehind("[:", ':', "1]");
    assert v == "[:" + [':'] + "1]";
    assert v[3..] == "1]" == ['1'] + "]" && "1]"[1..] == "]";
    assert Digits("1]", 0) == Digits("]", 1) == (1, "]");
    IndexBehind(":", ':', "1");
    assert w == ":" + [':'] + "1";
    assert w[2..] == "1" && "1"[1..] == "";
    assert Digits("1", 0) == Digits("", 1) == (1, "");
  }

  lemma {:induction false} EffectOf(t: Table, h: Header, body: string, row: nat)
    requires HeaderFine(h, body) && RowOf(h.name) == Some(row) && |body| <= LONG_MAX
    ensures RowEffect(row, t, FieldText(h)) == Accepted(Said(t, h), |h.value|)
  {
    hide RowOf, Strtol, Decimal, Digits, LowerAll, LastIndex;
    if row == HOST {
      EffectOfHost(t, h);
    } else {
      PlainField(h, body);
      if row == CONTENT_LENGTH {
        StrtolDecimal(|body|);
        DecimalDigits(|body|);
      } else if row == CONNECTION {
        LowerLength(h.value);
        assert |"keep-alive"| == 10 && |"close"| == 5 && |"upgrade"| == 7;
      }
    }
  }

  lemma {:induction false} LowerLength(s: string)
    ensures |LowerAll(s)| == |s|
  {
  }

  function RowAt(h: Header, o: nat): Row {
    Row(Span(o, |h.name|), LowerAll(h.name), Span(o + |h.name| + 1 + h.pad, |h.value|))
  }

  /** The table after the line of `h`, which begins at `o`. */
  function Added(t: Table, h: Header, o: nat): Table {
    var r := RowAt(h, o);
    var u := Said(t, h).(list := t.list + [r]);
    match RowOf(h.name)
    case None => u.(extra := t.extra + [r])
    case Some(row) => u.(known := t.known[row := r])
  }

  lemma {:induction false} LookupAdds(s: State, h: Header, body: string, o: nat, b: string)
    requires HeaderFine(h, body) && |body| <= LONG_MAX
    requires Placed(b, o, h.name) && Placed(b, o + |h.name| + 1 + h.pad, FieldText(h))
    requires s.key == o && s.sep == o + |h.name| && s.val == s.sep + 1 + h.pad && s.end == s.val + |FieldText(h)|
    requires s.min == Window(h.name[0]).0 && s.max == Window(h.name[0]).1
    requires RowOf(h.name).None? ==> |s.table.extra| < EXTRA_SIZE
    ensures exists n :: HeaderLookup(s, b) == Accepted(Added(s.table, h, o), n)
  {
    hide RowOf, RowEffect, LowerAll, Window, FindRow, FieldText, Said;
    WindowIsFullScan(h.name);
    var row := RowOf(h.name);
    assert Slice(b, s.key, s.sep) == h.name;
    assert Slice(b, s.val, s.end) == FieldText(h);
    if row.Some? {
      EffectOf(s.table, h, body, row.value);
      SaidKeeps(s.table, h);
      var n: int := |h.value|;
      assert HeaderLookup(s, b) == Accepted(Added(s.table, h, o), n);
    } else {
      assert Said(s.table, h) == s.table by { SaidKeeps(s.table, h); }
      assert FieldText(h) == h.value by { PlainField(h, body); }
      assert HeaderLookup(s, b) == Accepted(Added(s.table, h, o), s.end - s.val);
    }
  }

  lemma {:induction false} PlainField(h: Header, body: string)
    requires HeaderFine(h, body) && RowOf(h.name) != Some(HOST)
    ensures FieldText(h) == h.value
  {
  }

  lemma {:induction false} SaidKeeps(t: Table, h: Header)
    ensures Said(t, h).known == t.known && Said(t, h).extra == t.extra && Said(t, h).list == t.list
    ensures RowOf(h.name).None? ==> Said(t, h) == t
  {
    hide RowOf, Digits, LowerAll;
  }

  // ------------------------------------------------------------ all lines

  /** One header line. */
  lemma {:induction false} HeaderPhase(s: State, h: Header, body: string, b: string) returns (t: State)
    requires Reached(b, s) && AtLine(s) && HeaderFine(h, body) && |body| <= LONG_MAX && Placed(b, s.i, Line(h))
    requires RowOf(h.name).None? ==> |s.table.extra| < EXTRA_SIZE
    ensures Reached(b, t) && AtLine(t) && t.level.Headers?
    ensures t.i == s.i + |Line(h)| && t.req == s.req && t.table == Added(s.table, h, s.i)
  {
    hide RowOf, Reached, HeaderLookup, Window, FieldText, Added, Placed, Free;
    var o, n, f := s.i, |h.name|, FieldText(h);
    FieldFine(h, body);
    PlacedSplit(b, o, h.name, ":" + (Blanks(h.pad) + (f + CRLF)));
    PlacedSplit(b, o + n, ":", Blanks(h.pad) + (f + CRLF));
    assert Placed(b, o, h.name + ":") by { PlacedJoin(b, o, h.name, ":"); }
    FreeTail(h.name);
    KeyPhase(s, h.name, b);
    var u := Within(s, h.name, HeaderValue, o + n + 1).(chars := 0, start := o + n + 1, end := o + n, sep := o + n);
    ValuePhase(u, h.pad, f, b);
    var v := o + n + 1 + h.pad;
    var w := u.(i := v + |f|, status := HeaderValStarts, chars := u.chars + (v + |f| - u.i), start := v, val := v);
    PlacedSplit(b, o + n + 1, Blanks(h.pad), f + CRLF);
    PlacedSplit(b, v, f, CRLF);
    LookupAdds(MarkEnd(w), h, body, o, b);
    var k :| HeaderLookup(MarkEnd(w), b) == Accepted(Added(s.table, h, o), k);
    LinePhase(w, b, Added(s.table, h, o), k);
    t := w.(i := w.i + 2, status := HeaderKey, chars := 0, start := w.i + 2, end := w.i, table := Added(s.table, h, o));
  }

  lemma {:induction false} FreeTail(name: string)
    requires name != "" && Free(name, ":\r")
    ensures name[0] != '\r' && Free(name[1..], ":\r")
  {
  }

  lemma {:induction false} PlacedJoin(b: string, i: nat, x: string, y: string)
    requires Placed(b, i, x) && Placed(b, i + |x|, y)
    ensures Placed(b, i, x + y)
  {
    assert b[i..i + |x + y|] == b[i..i + |x|] + b[i + |x|..i + |x| + |y|];
  }

  lemma {:induction false} FieldFine(h: Header, body: string)
    requires HeaderFine(h, body)
    ensures FieldText(h) != "" && FieldText(h)[0] != ' ' && Free(FieldText(h), "\r\n")
  {
    hide RowOf;
    if h.port.Some? {
      DecimalDigits(h.port.value);
    }
  }

  /** The row names the header's key and value in the buffer. */
  predicate Names(r: Row, h: Header, b: string) {
    && Slice(b, r.key.pos, r.key.pos + r.key.len) == h.name && r.name == LowerAll(h.name)
    && Slice(b, r.val.pos, r.val.pos + r.val.len) == h.value
  }

  /** Everything the headers say is in the table, in their order, and nothing else. */
  predicate Recovered(t: Table, hs: seq<Header>, body: string, b: string) {
    && |t.list| == |hs| && (forall k :: 0 <= k < |hs| ==> Names(t.list[k], hs[k], b))
    && (forall k :: 0 <= k < |hs| && RowOf(hs[k].name).Some? ==>
          RowOf(hs[k].name).value in t.known && t.known[RowOf(hs[k].name).value] == t.list[k])
    && (forall row :: row in t.known ==> Carried(hs, row).Some?)
    && |t.extra| == |Unlisted(hs)| && (forall k :: 0 <= k < |t.extra| ==> Names(t.extra[k], Unlisted(hs)[k], b))
    && t.contentLength == (if Carried(hs, CONTENT_LENGTH).Some? then |body| else -1)
    && t.connection == (match Carried(hs, CONNECTION) case Some(h) => Meant(h.value, Empty) case None => Empty)
    && t.port == (match Carried(hs, HOST) case Some(Header(_, _, _, Some(p))) => p case _ => 0)
  }

  lemma {:induction false} CarriedNowhere(hs: seq<Header>, row: nat)
    requires forall k :: 0 <= k < |hs| ==> RowOf(hs[k].name) != Some(row)
    ensures Carried(hs, row).None?
  {
    hide RowOf;
    if hs != [] {
      CarriedNowhere(hs[..|hs| - 1], row);
    }
  }

  lemma {:induction false} CarriedAdd(hs: seq<Header>, h: Header, row: nat)
    requires DistinctRows(hs + [h])
    ensures Carried(hs + [h], row) == if RowOf(h.name) == Some(row) then Some(h) else Carried(hs, row)
    ensures RowOf(h.name) == Some(row) ==> Carried(hs, row).None?
  {
    hide RowOf;
    assert (hs + [h])[..|hs|] == hs;
    if RowOf(h.name) == Some(row) {
      forall k | 0 <= k < |hs|
        ensures RowOf(hs[k].name) != Some(row)
      {
        assert (hs + [h])[k] == hs[k] && (hs + [h])[|hs|] == h;
      }
      CarriedNowhere(hs, row);
    }
  }

  lemma {:induction false} NamesRow(h: Header, o: nat, b: string)
    requires Placed(b, o, Line(h))
    ensures Names(RowAt(h, o), h, b)
  {
    hide LowerAll, Line;
    LinePlaced(h, o, b);
  }

  /** Where key and value of a line are. */
  lemma {:induction false} LinePlaced(h: Header, o: nat, b: string)
    requires Placed(b, o, Line(h))
    ensures Placed(b, o, h.name) && Placed(b, o + |h.name| + 1 + h.pad, h.value)
  {
    hide Decimal, Placed;
    var pad, f := Blanks(h.pad), FieldText(h) + CRLF;
    PlacedSplit(b, o, h.name, ":" + (pad + f));
    PlacedSplit(b, o + |h.name|, ":", pad + f);
    PlacedSplit(b, o + |h.name| + 1, pad, f);
    var rest := (if h.port.Some? then ":" + Decimal(h.port.value) else "") + CRLF;
    assert f == h.value + rest;
    PlacedSplit(b, o + |h.name| + 1 + |pad|, h.value, rest);
  }

  lemma {:induction false} RecoveredSaid(t: Table, hs: seq<Header>, h: Header, body: string, b: string, o: nat)
    requires Recovered(t, hs, body, b) && HeaderFine(h, body) && DistinctRows(hs + [h])
    ensures var u := Added(t, h, o);
      && u.contentLength == (if Carried(hs + [h], CONTENT_LENGTH).Some? then |body| else -1)
      && u.connection == (match Carried(hs + [h], CONNECTION) case Some(g) => Meant(g.value, Empty) case None => Empty)
      && u.port == (match Carried(hs + [h], HOST) case Some(Header(_, _, _, Some(p))) => p case _ => 0)
  {
    hide RowOf, Carried, Names, Unlisted, Meant, RowAt, Digits, Decimal;
    CarriedAdd(hs, h, CONTENT_LENGTH);
    CarriedAdd(hs, h, CONNECTION);
    CarriedAdd(hs, h, HOST);
    DecimalDigits(|body|);
  }

  lemma {:induction false} RecoveredRows(t: Table, hs: seq<Header>, h: Header, body: string, b: string, o: nat)
    requires Recovered(t, hs, body, b) && HeaderFine(h, body) && DistinctRows(hs + [h]) && Names(RowAt(h, o), h, b)
    ensures var u := Added(t, h, o);
      && |u.list| == |hs + [h]| && (forall k :: 0 <= k < |hs + [h]| ==> Names(u.list[k], (hs + [h])[k], b))
      && |u.extra| == |Unlisted(hs + [h])| && (forall k :: 0 <= k < |u.extra| ==>
        Names(u.extra[k], Unlisted(hs + [h])[k], b))
  {
    hide RowOf, Carried, Names, Meant, RowAt, Said;
    SaidKeeps(t, h);
    assert (hs + [h])[..|hs|] == hs;
  }

  lemma {:induction false} RecoveredKnown(t: Table, hs: seq<Header>, h: Header, body: string, b: string, o: nat)
    requires Recovered(t, hs, body, b) && HeaderFine(h, body) && DistinctRows(hs + [h])
    ensures forall k :: 0 <= k < |hs + [h]| && RowOf((hs + [h])[k].name).Some? ==>
      var row := RowOf((hs + [h])[k].name).value;
      row in Added(t, h, o).known && Added(t, h, o).known[row] == Added(t, h, o).list[k]
    ensures forall row :: row in Added(t, h, o).known ==> Carried(hs + [h], row).Some?
  {
    hide RowOf, Carried, Names, Meant, RowAt, Said, Unlisted, HeaderFine;
    SaidKeeps(t, h);
    var all, u := hs + [h], Added(t, h, o);
    forall k | 0 <= k < |all| && RowOf(all[k].name).Some?
      ensures RowOf(all[k].name).value in u.known && u.known[RowOf(all[k].name).value] == u.list[k]
    {
      if k < |hs| {
        assert all[k] == hs[k] && all[|hs|] == h;
      }
    }
    forall row | row in u.known
      ensures Carried(all, row).Some?
    {
      CarriedAdd(hs, h, row);
    }
  }

  lemma {:induction false} RecoveredAdd(t: Table, hs: seq<Header>, h: Header, body: string, b: string, o: nat)
    requires Recovered(t, hs, body, b) && HeaderFine(h, body) && DistinctRows(hs + [h]) && Placed(b, o, Line(h))
    ensures Recovered(Added(t, h, o), hs + [h], body, b)
  {
    hide RowOf, Carried, Names, Meant, RowAt, Said, Unlisted, HeaderFine, Added, DistinctRows, Placed, Line;
    NamesRow(h, o, b);
    RecoveredSaid(t, hs, h, body, b, o);
    RecoveredRows(t, hs, h, body, b, o);
    RecoveredKnown(t, hs, h, body, b, o);
  }

  lemma {:induction false} UnknownPrefix(hs: seq<Header>, k: nat)
    requires k <= |hs|
    ensures |Unlisted(hs[..k])| <= |Unlisted(hs)|
    decreases |hs| - k
  {
    hide RowOf;
    if k < |hs| {
      assert hs[..k + 1][..k] == hs[..k];
      UnknownPrefix(hs, k + 1);
    } else {
      assert hs[..k] == hs;
    }
  }

  lemma {:induction false} RoomForUnknown(t: Table, hs: seq<Header>, body: string, b: string, k: nat)
    requires k < |hs| && |Unlisted(hs)| <= EXTRA_SIZE && Recovered(t, hs[..k], body, b) && RowOf(hs[k].name).None?
    ensures |t.extra| < EXTRA_SIZE
  {
    hide RowOf;
    UnknownPrefix(hs, k + 1);
    assert hs[..k + 1][..k] == hs[..k];
  }

  lemma {:induction false} HeadersPhase(s: State, hs: seq<Header>, k: nat, body: string, b: string) returns (t: State)
    requires Reached(b, s) && AtLine(s) && k <= |hs| && HeadersFine(hs, body) && Placed(b, s.i, Lines(hs[k..])) &&
      Recovered(s.table, hs[..k], body, b)
    ensures Reached(b, t) && AtLine(t) && (k < |hs| ==> t.level.Headers?) && (k == |hs| ==> t == s)
    ensures t.i == s.i + |Lines(hs[k..])| && t.req == s.req && Recovered(t.table, hs, body, b)
    decreases |hs| - k
  {
    hide Reached, HeaderFine, RowOf, Line, Unlisted, Recovered, Added;
    if k == |hs| {
      assert hs[..k] == hs;
      return s;
    }
    var h := hs[k];
    assert hs[k..][0] == h && hs[k..][1..] == hs[k + 1..];
    PlacedSplit(b, s.i, Line(h), Lines(hs[k + 1..]));
    if RowOf(h.name).None? {
      RoomForUnknown(s.table, hs, body, b, k);
    }
    var u := HeaderPhase(s, h, body, b);
    assert hs[..k] + [h] == hs[..k + 1];
    assert DistinctRows(hs[..k + 1]);
    RecoveredAdd(s.table, hs[..k], h, body, b, s.i);
    t := HeadersPhase(u, hs, k + 1, body, b);
  }

  // ---------------------------------------------------------- the message

  /** The state that the end of the request leaves. */
  function Finished(t: State, body: string): State {
    if t.level.Continue? then t.(i := t.i + 1, level := First, status := BlockEnd, chars := t.chars + 1)
    else if body == "" then t.(i := t.i + 1, level := End, chars := 1, start := t.i + 1)
    else t.(i := t.i + 2 + |body|, level := Body, chars := 0, start := t.i + 2, bodyReceived := |body|,
            req := t.req.(data := Some(Span(t.i + 2, |body|))))
  }

  lemma {:induction false} EndPhase(t: State, body: string, b: string)
    requires Reached(b, t) && AtLine(t) && Placed(b, t.i, CRLF) && (t.level.Continue? ==> body == "")
    requires t.level.Headers? && body == "" ==> t.table.contentLength <= 0
    requires body != "" ==> t.table.contentLength == |body| && t.i + 2 + |body| == |b|
    ensures var n := t.i + 2 + |body|;
      Bytewise(b, n - 1).Pending? && Bytewise(b, n) == Accept(Finished(t, body)) &&
      Regular(b, n, |b|)
  {
    hide HeaderLookup, Window, MethodLookup, GuessMethod, Accept, Reached, Bytewise, Run, Regular;
    PlacedAt(b, t.i, CRLF, 0);
    PlacedAt(b, t.i, CRLF, 1);
    if t.level.Continue? {
      var u := Counted(t, t.i + 1).(level := First, status := BlockEnd);
      Round(t, u, b);
      Last(u, b, Accept(u));
    } else {
      var u := Counted(t, t.i + 1).(level := End, start := t.i + 1);
      Round(t, u, b);
      if body == "" {
        Last(u, b, Accept(u));
      } else {
        var v := u.(i := t.i + 2, chars := 0, level := Body, start := t.i + 2);
        Round(u, v, b);
        BodyPhase(v, body, b);
      }
    }
  }

  lemma {:induction false} Last(s: State, b: string, r: Result)
    requires s.i < |b| && !s.level.Body? && !Skipping(s) && Reached(b, s) && Advance(s, b) == Return(r)
    ensures Bytewise(b, s.i).Pending? && Bytewise(b, s.i + 1) == r && Regular(b, s.i + 1, |b|)
  {
    hide Advance, Bytewise, Run;
    NextState(b, s.i);
  }

  lemma {:induction false} BodyPhase(s: State, body: string, b: string)
    requires Reached(b, s) && s.level.Body? && s.i == s.start && s.table.contentLength == |body| > 0 &&
      s.i + |body| == |b|
    ensures Bytewise(b, |b| - 1).Pending? && Regular(b, |b|, |b|)
    ensures Bytewise(b, |b|) == Accept(s.(i := |b|, bodyReceived := |body|,
      req := s.req.(data := Some(Span(s.i, |body|)))))
  {
    hide Run, Accept, Advance;
    BodyWaits(s, b, |b| - 1);
    BodyCall(Bytewise(b, |b| - 1).s, b, |b|);
  }

  lemma {:induction false} BodyWaits(s: State, b: string, n: nat)
    requires Reached(b, s) && s.level.Body? && s.i == s.start <= n && n - s.i < s.table.contentLength && n <= |b|
    ensures Bytewise(b, n) == Pending(if n == s.i then s else s.(bodyReceived := n - s.i))
    decreases n
  {
    hide Run, Advance;
    if n > s.i {
      BodyWaits(s, b, n - 1);
      BodyCall(Bytewise(b, n - 1).s, b, n);
    }
  }

  /** The text that a span covers. */
  function Text(b: string, p: Span): string {
    Slice(b, p.pos, p.pos + p.len)
  }

  predicate TextIs(b: string, p: Option<Span>, t: Option<string>) {
    match p case None => t.None? case Some(q) => t == Some(Text(b, q))
  }

  /** The request has every part of the message. */
  predicate Parsed(s: State, m: Message, b: string)
    requires m.verb < |METHODS|
  {
    && LinePart(s, m, b) && TextIs(b, s.req.data, if m.body == "" then None else Some(m.body))
    && Recovered(s.table, m.headers, m.body, b)
  }

  lemma {:induction false} SpanText(b: string, o: nat, text: string)
    requires Placed(b, o, text)
    ensures TextIs(b, Some(Span(o, |text|)), Some(text))
  {
  }

  /** The request after a target with a query string. */
  lemma {:induction false} QueryTarget(s: State, uri: string, q: string, b: string) returns (t: State)
    requires Reached(b, s) && s.level.First? && s.status.ReqUri? && s.start == s.i &&
      Placed(b, s.i, (uri + "?") + (q + " "))
    requires Free(uri, " ?\r\n") && Free(q, " \r\n")
    ensures Reached(b, t) && t.i == s.i + |uri| + |q| + 2
    ensures t.level.First? && t.status.ReqVersion? && t.start == t.i && t.table == s.table
    ensures t.req == s.req.(uri := t.req.uri, query := t.req.query)
    ensures TextIs(b, t.req.uri, Some(uri)) && TextIs(b, t.req.query, Some(q))
  {
    hide Reached, TextIs, Placed, Free;
    PlacedSplit(b, s.i, uri + "?", q + " ");
    UriPhase(s, uri, '?', b);
    var u := Past(s, s.i + |uri|, ReqQuery, s.req.(uri := Some(Span(s.i, |uri|))));
    QueryPhase(u, q, b);
    t := Past(u, u.i + |q|, ReqVersion, u.req.(query := Some(Span(u.i, |q|))));
    PlacedSplit(b, s.i, uri, "?");
    PlacedSplit(b, u.i, q, " ");
    SpanText(b, s.i, uri);
    SpanText(b, u.i, q);
  }

  /** The request after the target of the message. */
  lemma {:induction false} TargetPhase(s: State, m: Message, b: string) returns (t: State)
    requires Reached(b, s) && s.level.First? && s.status.ReqUri? && s.start == s.i && LineFine(m) &&
      Placed(b, s.i, Target(m) + " ")
    requires s.req.query.None?
    ensures Reached(b, t) && t.i == s.i + |Target(m)| + 1
    ensures t.level.First? && t.status.ReqVersion? && t.start == t.i && t.table == s.table
    ensures t.req == s.req.(uri := t.req.uri, query := t.req.query)
    ensures TextIs(b, t.req.uri, Some(m.uri)) && TextIs(b, t.req.query, m.query)
  {
    hide Reached, HeadersFine, Placed, Free;
    if m.query.Some? {
      var q := m.query.value;
      assert Target(m) + " " == (m.uri + "?") + (q + " ");
      t := QueryTarget(s, m.uri, q, b);
    } else {
      assert Target(m) == m.uri;
      UriPhase(s, m.uri, ' ', b);
      t := Past(s, s.i + |m.uri|, ReqVersion, s.req.(uri := Some(Span(s.i, |m.uri|))));
      PlacedSplit(b, s.i, m.uri, " ");
      SpanText(b, s.i, m.uri);
    }
  }

  lemma {:induction false} CarriedListed(hs: seq<Header>, row: nat) returns (k: nat)
    requires Carried(hs, row).Some?
    ensures k < |hs| && RowOf(hs[k].name) == Some(row)
  {
    hide RowOf;
    k := |hs| - 1;
    if RowOf(hs[k].name) != Some(row) {
      k := CarriedListed(hs[..k], row);
    }
  }

  lemma {:induction false} Regroup(b: string, i: nat, x: string, y: string, z: string)
    requires Placed(b, i, x + (y + z))
    ensures Placed(b, i, x + y) && Placed(b, i + |x| + |y|, z)
  {
    PlacedSplit(b, i, x, y + z);
    PlacedSplit(b, i + |x|, y, z);
    PlacedJoin(b, i, x, y);
  }

  /** Where the parts of the message stand. */
  lemma {:induction false} PartsPlaced(m: Message, b: string)
    requires m.verb < |METHODS| && Placed(b, 0, Print(m))
    ensures var w := |METHODS[m.verb]| + 1; var v := w + |Target(m)| + 1;
      var h := v + 10; var e := h + |Lines(m.headers)|;
      && Placed(b, 0, METHODS[m.verb] + " ") && Placed(b, w, Target(m) + " ") && Placed(b, v, VersionText(m) + CRLF)
      && Placed(b, h, Lines(m.headers)) && Placed(b, e, CRLF) && Placed(b, e + 2, m.body) &&
        e + 2 + |m.body| == |Print(m)|
  {
    hide Placed, Target, Lines;
    var w := |METHODS[m.verb]| + 1;
    var v := w + |Target(m)| + 1;
    var h := v + 10;
    var lines := Lines(m.headers) + (CRLF + m.body);
    var version := VersionText(m) + (CRLF + lines);
    var target := Target(m) + (" " + version);
    Regroup(b, 0, METHODS[m.verb], " ", target);
    Regroup(b, w, Target(m), " ", version);
    Regroup(b, v, VersionText(m), CRLF, lines);
    PlacedSplit(b, h, Lines(m.headers), CRLF + m.body);
    PlacedSplit(b, h + |Lines(m.headers)|, CRLF, m.body);
  }

  /** The first line. */
  lemma {:induction false} FirstLinePhase(m: Message, b: string) returns (t: State)
    requires LineFine(m) && Placed(b, 0, Print(m))
    ensures Reached(b, t) && AtLine(t) && t.level.Continue? && t.table == INITIAL.table
    ensures t.i == |METHODS[m.verb]| + |Target(m)| + 12 && t.req.data.None?
    ensures t.req.verb == m.verb && Text(b, t.req.verbP) == METHODS[m.verb]
    ensures TextIs(b, t.req.uri, Some(m.uri)) && TextIs(b, t.req.query, m.query)
    ensures t.req.protocol == Protocol(m.minor) && Text(b, t.req.protocolP) == VersionText(m)
  {
    hide Reached, HeadersFine, Target, Lines, TextIs, Print, GuessMethod;
    PartsPlaced(m, b);
    MethodPhase(m.verb, b);
    var s := AfterMethod(m.verb);
    PlacedSplit(b, 0, METHODS[m.verb], " ");
    var u := TargetPhase(s, m, b);
    VersionPhase(u, m, b);
    PlacedSplit(b, u.i, VersionText(m), CRLF);
    t := AfterVersion(u, m.minor);
  }

  /** First line and headers: what the parser knows before the empty line. */
  lemma {:induction false} HeadPhase(m: Message, b: string) returns (t: State)
    requires Shaped(m) && Placed(b, 0, Print(m))
    ensures Reached(b, t) && AtLine(t) && (t.level.Continue? <==> m.headers == []) && Placed(b, t.i, CRLF)
    ensures t.i + 2 + |m.body| == |Print(m)| && Placed(b, t.i + 2, m.body)
    ensures t.req.data.None? && Recovered(t.table, m.headers, m.body, b) && LinePart(t, m, b)
  {
    hide Reached, Target, VersionText, Lines, TextIs, RowOf, Print, Names, Placed, HeaderFine, Carried, Unlisted, Text;
    PartsPlaced(m, b);
    var s := FirstLinePhase(m, b);
    assert m.headers[0..] == m.headers && m.headers[..0] == [];
    NothingRecovered(m.body, b);
    t := HeadersPhase(s, m.headers, 0, m.body, b);
  }

  lemma {:induction false} NothingRecovered(body: string, b: string)
    ensures Recovered(INITIAL.table, [], body, b)
  {
  }

  /** What the first line says. */
  predicate LinePart(s: State, m: Message, b: string)
    requires m.verb < |METHODS|
  {
    && s.req.verb == m.verb && Text(b, s.req.verbP) == METHODS[m.verb]
    && TextIs(b, s.req.uri, Some(m.uri)) && TextIs(b, s.req.query, m.query)
    && s.req.protocol == Protocol(m.minor) && Text(b, s.req.protocolP) == VersionText(m)
  }

  /** The announced length is that of the body, and a request that needs one has one. */
  lemma {:induction false} Announced(m: Message, t: Table, b: string)
    requires Shaped(m) && Recovered(t, m.headers, m.body, b)
    ensures m.headers == [] ==> m.body == ""
    ensures m.body == "" ==> t.contentLength <= 0
    ensures m.body != "" ==> t.contentLength == |m.body|
    ensures CONTENT_LENGTH in t.known <==> Carried(m.headers, CONTENT_LENGTH).Some?
  {
    hide Names, RowOf, Unlisted, HeadersFine;
    if Carried(m.headers, CONTENT_LENGTH).Some? {
      var k := CarriedListed(m.headers, CONTENT_LENGTH);
    }
  }

  /** Byte by byte, the request ends with its last byte `n`, in state `f`. */
  predicate Ends(b: string, n: nat, m: Message, f: State)
    requires m.verb < |METHODS|
  {
    && 0 < n <= |b| && Bytewise(b, n - 1).Pending? && Regular(b, n, |b|)
    && Bytewise(b, n) == Accept(f) && Parsed(f, m, b)
    && f.i + (if m.body == "" then 1 else 0) == n
  }

  lemma {:induction false} Ending(m: Message, rest: string) returns (f: State)
    requires Shaped(m) && (m.body != "" ==> rest == "")
    ensures Ends(Print(m) + rest, |Print(m)|, m, f)
    ensures f.req.verb == m.verb && f.req.protocol == Protocol(m.minor)
    ensures CONTENT_LENGTH in f.table.known <==> Carried(m.headers, CONTENT_LENGTH).Some?
  {
    hide Reached, Target, VersionText, Lines, TextIs, Print, Bytewise, Regular, Recovered, Placed, HeadersFine, Text,
      Accept, Free, Carried, Protocol;
    var b := Print(m) + rest;
    PlacedFirst(Print(m), rest);
    var t := HeadPhase(m, b);
    Announced(m, t.table, b);
    EndPhase(t, m.body, b);
    f := Finished(t, m.body);
    DataIs(b, f.req.data, t.i + 2, m.body);
  }

  /** Byte by byte, the first `n` bytes are the message and no fewer are. */
  predicate Complete(b: string, n: nat, m: Message)
    requires m.verb < |METHODS|
  {
    && 0 < n <= |b| && Bytewise(b, n - 1).Pending? && Regular(b, n, |b|)
    && Bytewise(b, n).Ok? && Parsed(Bytewise(b, n).s, m, b)
    && Bytewise(b, n).s.i + (if m.body == "" then 1 else 0) == n
  }

  /**
   * What is printed is parsed: byte by byte the request is complete exactly with its last byte,
   * every field comes back, and the bytes behind it stay unread.
   */
  lemma {:induction false} RoundTrip(m: Message, rest: string)
    requires WellFormed(m) && (m.body != "" ==> rest == "")
    ensures Complete(Print(m) + rest, |Print(m)|, m)
  {
    hide Print, Bytewise, Regular, HeadersFine, Parsed, Carried;
    var f := Ending(m, rest);
    assert Accept(f) == Ok(f);
  }

  /**
   * What the last byte of a message of the right form decides: 505 for a version other than 1.0
   * and 1.1, 411 for POST and PUT without Content-Length, and OK otherwise; nothing before it.
   */
  lemma {:induction false} Verdict(m: Message, rest: string)
    requires Shaped(m) && (m.body != "" ==> rest == "")
    ensures var n := |Print(m)|; var r := Bytewise(Print(m) + rest, n);
      && n > 0 && Bytewise(Print(m) + rest, n - 1).Pending?
      && (r == Error(505) <==> m.minor > 1)
      && (r == Error(411) <==> m.minor <= 1 && LacksLength(m))
      && (r.Ok? <==> WellFormed(m))
  {
    hide Print, Bytewise, Regular, HeadersFine, Parsed, Carried;
    var f := Ending(m, rest);
  }

  lemma {:induction false} PlacedFirst(text: string, rest: string)
    ensures Placed(text + rest, 0, text)
  {
    assert (text + rest)[..|text|] == text;
  }

  lemma {:induction false} DataIs(b: string, data: Option<Span>, o: nat, body: string)
    requires data == if body == "" then None else Some(Span(o, |body|))
    requires Placed(b, o, body)
    ensures TextIs(b, data, if body == "" then None else Some(body))
  {
  }

  /**
   * Well-formed requests, whatever the reads: every call before the last byte of the request
   * returns PENDING, and the call that sees it returns OK with every field recovered.
   */
  lemma {:induction false} AnyReads(m: Message, rest: string, cuts: seq<nat>)
    requires WellFormed(m) && (m.body != "" ==> rest == "") && cuts != [] && Increasing(cuts, Print(m) + rest)
    requires Seen(cuts[..|cuts| - 1]) < |Print(m)| <= Seen(cuts)
    ensures forall k :: 0 <= k < |cuts| ==> Piecewise(Print(m) + rest, cuts[..k]).Pending?
    ensures var r := Piecewise(Print(m) + rest, cuts);
      r.Ok? && Parsed(r.s, m, Print(m) + rest) && r.s.i + (if m.body == "" then 1 else 0) == |Print(m)|
  {
    hide Print, Parsed, Bytewise, Piecewise, HeadersFine;
    RoundTrip(m, rest);
    ReadsComplete(Print(m) + rest, |Print(m)|, m, cuts);
  }

  lemma {:induction false} ReadsComplete(b: string, n: nat, m: Message, cuts: seq<nat>)
    requires m.verb < |METHODS| && Complete(b, n, m) && cuts != [] && Increasing(cuts, b) &&
      Seen(cuts[..|cuts| - 1]) < n <= Seen(cuts)
    ensures forall k :: 0 <= k < |cuts| ==> Piecewise(b, cuts[..k]).Pending?
    ensures Piecewise(b, cuts) == Bytewise(b, n)
  {
    hide Parsed, Bytewise, Piecewise;
    PiecesDecide(b, cuts, n);
  }

  // ------------------------------------------------------ too many headers

  lemma {:induction false} LinesSplit(hs: seq<Header>, k: nat)
    requires k <= |hs|
    ensures Lines(hs) == Lines(hs[..k]) + Lines(hs[k..])
    decreases k
  {
    hide Line;
    if k == 0 {
      assert hs[0..] == hs && Lines(hs[..0]) == "";
    } else {
      LinesSplit(hs[1..], k - 1);
      assert hs[..k][0] == hs[0] && hs[..k][1..] == hs[1..][..k - 1] && hs[1..][k - 1..] == hs[k..];
    }
  }

  /** A header that is not in the table, when the eight places for such headers are taken. */
  lemma {:induction false} NoRoom(s: State, h: Header, body: string, b: string)
    requires Reached(b, s) && AtLine(s) && HeaderFine(h, body) && Placed(b, s.i, Line(h))
    requires RowOf(h.name).None? && |s.table.extra| >= EXTRA_SIZE
    ensures var n := s.i + |Line(h)| - 1; n <= |b| && Bytewise(b, n - 1).Pending? && Bytewise(b, n) == Error(TOO_LARGE)
  {
    hide RowOf, Reached, HeaderLookup, Window, FieldText, Placed, Free, Bytewise, Run;
    var o, n, f := s.i, |h.name|, FieldText(h);
    FieldFine(h, body);
    PlacedSplit(b, o, h.name, ":" + (Blanks(h.pad) + (f + CRLF)));
    PlacedSplit(b, o + n, ":", Blanks(h.pad) + (f + CRLF));
    PlacedJoin(b, o, h.name, ":");
    FreeTail(h.name);
    KeyPhase(s, h.name, b);
    var u := Within(s, h.name, HeaderValue, o + n + 1).(chars := 0, start := o + n + 1, end := o + n, sep := o + n);
    ValuePhase(u, h.pad, f, b);
    var v := o + n + 1 + h.pad;
    var w := u.(i := v + |f|, status := HeaderValStarts, chars := u.chars + (v + |f| - u.i), start := v, val := v);
    PlacedSplit(b, o + n + 1, Blanks(h.pad), f + CRLF);
    PlacedSplit(b, v, f, CRLF);
    LookupFull(MarkEnd(w), h, o, b);
    LineRejected(w, b, TOO_LARGE);
  }

  lemma {:induction false} LookupFull(s: State, h: Header, o: nat, b: string)
    requires h.name != "" && Placed(b, o, h.name) && s.key == o && s.sep == o + |h.name|
    requires s.min == Window(h.name[0]).0 && s.max == Window(h.name[0]).1
    requires RowOf(h.name).None? && |s.table.extra| >= EXTRA_SIZE
    ensures HeaderLookup(s, b) == Rejected(TOO_LARGE)
  {
    hide RowOf, RowEffect, LowerAll, Window, FindRow;
    WindowIsFullScan(h.name);
    assert Slice(b, s.key, s.sep) == h.name;
  }

  lemma {:induction false} LineRejected(s: State, b: string, code: int)
    requires Reached(b, s) && s.level.Headers? && s.status.HeaderValStarts? && s.start < s.i && Placed(b, s.i, CRLF)
    requires HeaderLookup(MarkEnd(s), b) == Rejected(code)
    ensures s.i + 1 <= |b| && Bytewise(b, s.i).Pending? && Bytewise(b, s.i + 1) == Error(code)
  {
    hide HeaderLookup, Reached, Bytewise, Run;
    PlacedAt(b, s.i, CRLF, 0);
    Last(s, b, Error(code));
  }

  /** The ninth header that is not in the table is answered with 413, at the end of its line. */
  lemma {:induction false} TooManyHeaders(m: Message, k: nat, rest: string)
    requires LineFine(m) && k < |m.headers| && HeadersFine(m.headers[..k], m.body) &&
      |Unlisted(m.headers[..k])| == 8
    requires HeaderFine(m.headers[k], m.body) && RowOf(m.headers[k].name).None?
    ensures var n := |METHODS[m.verb]| + |Target(m)| + 11 + |Lines(m.headers[..k])| + |Line(m.headers[k])|;
      && n <= |Print(m) + rest| && Bytewise(Print(m) + rest, n - 1).Pending?
      && Bytewise(Print(m) + rest, n) == Error(413)
  {
    hide Reached, Target, VersionText, Lines, Line, TextIs, RowOf, Print, Names, Placed, HeaderFine, Carried, Unlisted,
      Text, Bytewise, Run;
    var b, hs := Print(m) + rest, m.headers;
    PlacedFirst(Print(m), rest);
    PartsPlaced(m, b);
    var s := FirstLinePhase(m, b);
    NothingRecovered(m.body, b);
    LinesSplit(hs, k);
    PlacedSplit(b, s.i, Lines(hs[..k]), Lines(hs[k..]));
    assert hs[..k][0..] == hs[..k] && hs[..k][..0] == [];
    var t := HeadersPhase(s, hs[..k], 0, m.body, b);
    FirstOfLines(hs[k..]);
    assert hs[k..][0] == hs[k];
    PlacedSplit(b, t.i, Line(hs[k]), Lines(hs[k + 1..]));
    ExtrasAre(t.table, hs[..k], m.body, b);
    NoRoom(t, hs[k], m.body, b);
  }

  lemma {:induction false} FirstOfLines(hs: seq<Header>)
    requires hs != []
    ensures Lines(hs) == Line(hs[0]) + Lines(hs[1..])
  {
  }

  lemma {:induction false} ExtrasAre(t: Table, hs: seq<Header>, body: string, b: string)
    requires Recovered(t, hs, body, b)
    ensures |t.extra| == |Unlisted(hs)|
  {
  }
}

/** Printing a structured request and parsing it back. */
module HttpPrinter {
  import opened Wrappers
  import opened HttpSyntax
  import opened HttpParser
  import opened Texts

  /** A header field; `pad` blanks stand between the colon and the value, and a host may name a port. */
  datatype Header = Header(name: string, pad: nat, value: string, port: Option<nat>)

  datatype Message = Message(verb: nat, uri: string, query: Option<string>, minor: nat, headers: seq<Header>,
      body: string)

  function Blanks(n: nat): string {
    seq(n, _ => ' ')
  }

  function FieldText(h: Header): string {
    h.value + if h.port.Some? then ":" + Decimal(h.port.value) else ""
  }

  function Line(h: Header): string {
    h.name + (":" + (Blanks(h.pad) + (FieldText(h) + CRLF)))
  }

  function Lines(hs: seq<Header>): string {
    if hs == [] then "" else Line(hs[0]) + Lines(hs[1..])
  }

  function Target(m: Message): string {
    m.uri + if m.query.Some? then "?" + m.query.value else ""
  }

  function VersionText(m: Message): string {
    "HTTP/1." + [('0' as int + m.minor % 10) as char]
  }

  /** The message as section 3 of RFC 7230 writes it. */
  function Print(m: Message): string
    requires m.verb < |METHODS|
  {
    METHODS[m.verb] + (" " + (Target(m) + (" " + (VersionText(m) + (CRLF + (Lines(m.headers) + (CRLF + m.body)))))))
  }

  predicate Free(s: string, bad: string) {
    forall k :: 0 <= k < |s| ==> s[k] !in bad
  }

  // ------------------------------------------------------------ which row

  /** The row of the headers table that spells the name, by a scan of the whole table. */
  function RowOf(name: string): Option<nat> {
    ScanRows(LowerAll(name), 0)
  }

  function ScanRows(low: string, i: nat): Option<nat>
    decreases |HEADERS| - i
  {
    if i >= |HEADERS| then None else if low == HEADERS[i] then Some(i) else ScanRows(low, i + 1)
  }

  predicate RowMatches(key: string, i: int) {
    0 <= i < |HEADERS| && |key| == |HEADERS[i]| && key != "" && LowerAll(key[1..]) == HEADERS[i][1..]
  }

  lemma {:induction false} LowerSplit(key: string)
    requires key != ""
    ensures LowerAll(key) == [Lower(key[0])] + LowerAll(key[1..])
  {
  }

  /** Inside the window of its first letter a row matches exactly when it spells the key; outside none does. */
  lemma {:induction false} WindowExact(key: string, i: nat)
    requires key != "" && i < |HEADERS|
    ensures LowerAll(key) == HEADERS[i] <==> Window(key[0]).0 <= i <= Window(key[0]).1 && RowMatches(key, i)
  {
    LowerSplit(key);
    assert HEADERS[i] == [HEADERS[i][0]] + HEADERS[i][1..];
    assert Window(key[0]).0 <= i <= Window(key[0]).1 <==> HEADERS[i][0] == Lower(key[0]);
    if LowerAll(key) == HEADERS[i] {
      assert LowerAll(key)[0] == HEADERS[i][0];
      assert LowerAll(key)[1..] == HEADERS[i][1..];
    }
  }

  lemma {:induction false} ScanInWindow(key: string, i: nat)
    requires key != "" && i <= |HEADERS|
    ensures var w := Window(key[0]);
      ScanRows(LowerAll(key), i) == FindRow(key, if i < w.0 || w.0 < 0 then w.0 else i, w.1)
    decreases |HEADERS| - i
  {
    hide LowerAll;
    if i < |HEADERS| {
      WindowExact(key, i);
      ScanInWindow(key, i + 1);
    }
  }

  /** The window of the first letter finds the row that a scan of the whole table finds. */
  lemma {:induction false} WindowIsFullScan(key: string)
    requires key != ""
    ensures FindRow(key, Window(key[0]).0, Window(key[0]).1) == RowOf(key)
  {
    ScanInWindow(key, 0);
  }

  /** Letters lose their case, and nothing else changes. */
  lemma {:induction false} LowerIs(c: char, k: nat)
    requires k < 26
    ensures Lower("ABCDEFGHIJKLMNOPQRSTUVWXYZ"[k]) == "abcdefghijklmnopqrstuvwxyz"[k]
    ensures c !in "ABCDEFGHIJKLMNOPQRSTUVWXYZ" ==> Lower(c) == c
  {
    if 'A' <= c <= 'Z' {
      assert "ABCDEFGHIJKLMNOPQRSTUVWXYZ"[c as int - 'A' as int] == c;
    }
  }

  lemma {:induction false} RowsDiffer(i: nat, j: nat)
    requires i < |HEADERS| && j < |HEADERS| && HEADERS[i] == HEADERS[j]
    ensures i == j
  {
  }

  lemma {:induction false} ScanFinds(low: string, i: nat, row: nat)
    requires i <= |HEADERS|
    ensures ScanRows(low, i) == Some(row) <==> i <= row < |HEADERS| && low == HEADERS[row]
    decreases |HEADERS| - i
  {
    hide HEADERS;
    if i < |HEADERS| {
      ScanFinds(low, i + 1, row);
      if i < row < |HEADERS| && low == HEADERS[row] == HEADERS[i] {
        RowsDiffer(i, row);
      }
    }
  }

  /** Which header has which row, ignoring case; the three that are acted upon among them. */
  lemma {:induction false} RowNames(name: string, row: nat)
    ensures RowOf(name) == Some(row) <==> match row
      case 0 => LowerAll(name) == "accept"
      case 1 => LowerAll(name) == "accept-charset"
      case 2 => LowerAll(name) == "accept-encoding"
      case 3 => LowerAll(name) == "accept-language"
      case 4 => LowerAll(name) == "authorization"
      case 5 => LowerAll(name) == "cache-control"
      case 6 => LowerAll(name) == "cookie"
      case 7 => LowerAll(name) == "connection"
      case 8 => LowerAll(name) == "content-length"
      case 9 => LowerAll(name) == "content-range"
      case 10 => LowerAll(name) == "content-type"
      case 11 => LowerAll(name) == "host"
      case 12 => LowerAll(name) == "if-modified-since"
      case 13 => LowerAll(name) == "last-modified"
      case 14 => LowerAll(name) == "last-modified-since"
      case 15 => LowerAll(name) == "range"
      case 16 => LowerAll(name) == "referer"
      case 17 => LowerAll(name) == "upgrade"
      case 18 => LowerAll(name) == "user-agent"
      case _ => false
  {
    ScanFinds(LowerAll(name), 0, row);
  }

  lemma {:induction false} NamedRows(name: string)
    ensures RowOf(name) == Some(CONTENT_LENGTH) <==> LowerAll(name) == "content-length"
    ensures RowOf(name) == Some(CONNECTION) <==> LowerAll(name) == "connection"
    ensures RowOf(name) == Some(HOST) <==> LowerAll(name) == "host"
  {
    hide RowOf, LowerAll;
    RowNames(name, CONTENT_LENGTH);
    RowNames(name, CONNECTION);
    RowNames(name, HOST);
  }

  /** Which method has which number. */
  lemma {:induction false} MethodNumbers(verb: nat)
    requires verb < |METHODS|
    ensures METHODS[verb] == match verb
      case 0 => "GET"
      case 1 => "POST"
      case 2 => "HEAD"
      case 3 => "PUT"
      case 4 => "DELETE"
      case _ => "OPTIONS"
    ensures |METHODS| == 6 && METHODS[POST] == "POST" && METHODS[PUT] == "PUT"
  {
  }

  // ------------------------------------------------- what can be printed

  /** The headers that are not in the table. */
  function Unlisted(hs: seq<Header>): seq<Header> {
    if hs == [] then []
    else Unlisted(hs[..|hs| - 1]) + if RowOf(hs[|hs| - 1].name).None? then [hs[|hs| - 1]] else []
  }

  /** The header of a row of the table, if there is one. */
  function Carried(hs: seq<Header>, row: nat): Option<Header> {
    if hs == [] then None
    else if RowOf(hs[|hs| - 1].name) == Some(row) then Some(hs[|hs| - 1])
    else Carried(hs[..|hs| - 1], row)
  }

  predicate HeaderFine(h: Header, body: string) {
    && h.name != "" && Free(h.name, ":\r")
    && h.value != "" && h.value[0] != ' ' && Free(h.value, "\r\n")
    && (RowOf(h.name) != Some(HOST) ==> h.port.None?)
    && (RowOf(h.name) == Some(HOST) ==> if h.port.Some? then h.port.value < 100000 else LastIndex(h.value, ':') <= 0)
    && (RowOf(h.name) == Some(CONTENT_LENGTH) ==> h.value == Decimal(|body|))
  }

  predicate DistinctRows(hs: seq<Header>) {
    forall i, j :: 0 <= i < j < |hs| && RowOf(hs[i].name).Some? ==> RowOf(hs[i].name) != RowOf(hs[j].name)
  }

  predicate HeadersFine(hs: seq<Header>, body: string) {
    && (forall k :: 0 <= k < |hs| ==> HeaderFine(hs[k], body)) && |body| <= LONG_MAX
    && DistinctRows(hs) && |Unlisted(hs)| <= EXTRA_SIZE
  }

  /** What may stand for a method: two to eleven bytes, none of them but perhaps the first a blank. */
  predicate WordFine(w: string) {
    2 <= |w| <= 11 && Free(w[1..], " ")
  }

  /** A first line of the right form. */
  predicate LineFine(m: Message) {
    && m.verb < |METHODS| && m.minor < 10
    && Free(m.uri, " ?\r\n") && (m.uri == "" ==> m.query.Some?)
    && (m.query.Some? ==> Free(m.query.value, " \r\n"))
  }

  /** A message of the right form, with a Content-Length if it has a body. */
  predicate Shaped(m: Message) {
    && LineFine(m) && HeadersFine(m.headers, m.body)
    && (Carried(m.headers, CONTENT_LENGTH).None? ==> m.body == "")
  }

  /** POST and PUT need a Content-Length. */
  predicate LacksLength(m: Message) {
    (m.verb == POST || m.verb == PUT) && Carried(m.headers, CONTENT_LENGTH).None?
  }

  predicate WellFormed(m: Message) {
    Shaped(m) && m.minor <= 1 && !LacksLength(m)
  }

  // ------------------------------------------------- reading plain bytes

  /** `text` stands at offset `i`. */
  predicate Placed(b: string, i: nat, text: string) {
    i + |text| <= |b| && b[i..i + |text|] == text
  }

  lemma {:induction false} PlacedSplit(b: string, i: nat, x: string, y: string)
    requires Placed(b, i, x + y)
    ensures Placed(b, i, x) && Placed(b, i + |x|, y)
  {
    assert b[i..i + |x|] == b[i..i + |x + y|][..|x|];
    assert b[i + |x|..i + |x| + |y|] == b[i..i + |x + y|][|x|..];
  }

  lemma {:induction false} PlacedAt(b: string, i: nat, text: string, k: nat)
    requires Placed(b, i, text) && k < |text|
    ensures b[i + k] == text[k]
  {
    assert b[i..i + |text|][k] == b[i + k];
  }
}

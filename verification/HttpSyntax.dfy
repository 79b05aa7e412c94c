/** Tables and text functions of the request parser. */
module HttpSyntax {
  import opened Wrappers

  const METHODS: seq<string> := ["GET", "POST", "HEAD", "PUT", "DELETE", "OPTIONS"]
  const METHOD_UNKNOWN := 7
  const POST := 1
  const PUT := 3

  const HEADERS: seq<string> := [
    "accept", "accept-charset", "accept-encoding", "accept-language", "authorization",
    "cache-control", "cookie", "connection", "content-length", "content-range", "content-type",
    "host", "if-modified-since", "last-modified", "last-modified-since", "range", "referer",
    "upgrade", "user-agent"]
  const CONNECTION := 7
  const CONTENT_LENGTH := 8
  const HOST := 11
  const EXTRA_SIZE := 8

  const BAD_REQUEST := 400
  const LENGTH_REQUIRED := 411
  const TOO_LARGE := 413
  const VERSION_UNSUPPORTED := 505

  /** tolower in the C locale */
  function Lower(c: char): char {
    if 'A' <= c <= 'Z' then (c as int + 32) as char else c
  }

  function LowerAll(s: string): string {
    seq(|s|, i requires 0 <= i < |s| => Lower(s[i]))
  }

  /** The text between two offsets. */
  function Slice(b: string, lo: int, hi: int): string {
    if 0 <= lo <= hi <= |b| then b[lo..hi] else ""
  }

  /** strncmp(a, name, |a|) == 0, where `name` is a C string. */
  predicate StrncmpEq(a: string, name: string) {
    a == "" ||
    var c := if name == "" then '\0' else name[0];
    a[0] == c && (c == '\0' || StrncmpEq(a[1..], name[1..]))
  }

  /** The first-letter guess of the parser. */
  function GuessMethod(c: char, guess: int): int {
    match c
    case 'G' => 0
    case 'P' => 1
    case 'H' => 2
    case 'D' => 4
    case 'O' => 5
    case _ => guess
  }

  /** method_lookup: the guess if the rest agrees with it, else a scan of the table. */
  function MethodLookup(guess: int, text: string): int {
    if 0 <= guess < |METHODS| && text != "" && StrncmpEq(text[1..], METHODS[guess][1..]) then guess
    else ScanMethods(text, 0)
  }

  function ScanMethods(text: string, i: nat): int
    decreases |METHODS| - i
  {
    if i >= |METHODS| then METHOD_UNKNOWN
    else if |text| == |METHODS[i]| && StrncmpEq(text, METHODS[i]) then i
    else ScanMethods(text, i + 1)
  }

  /** The rows that may match a key with this first letter, as a range; (-1, -1) is no row. */
  function Window(c: char): (int, int) {
    match Lower(c)
    case 'a' => (0, 4)
    case 'c' => (5, 10)
    case 'h' => (11, 11)
    case 'i' => (12, 12)
    case 'l' => (13, 14)
    case 'r' => (15, 16)
    case 'u' => (17, 18)
    case _ => (-1, -1)
  }

  /** The scan of header_lookup: lengths first, then all but the first letter, ignoring case. */
  function FindRow(key: string, i: int, max: int): Option<nat>
    decreases max - i
  {
    if i > max then None
    else if 0 <= i < |HEADERS| && |key| == |HEADERS[i]| && key != "" &&
      LowerAll(key[1..]) == HEADERS[i][1..] then Some(i)
    else FindRow(key, i + 1, max)
  }

  // ---------------------------------------------------------------- strtol

  predicate IsSpace(c: char) {
    c == ' ' || '\t' <= c <= '\r'
  }

  predicate IsDigit(c: char) {
    '0' <= c <= '9'
  }

  function SkipSpaces(s: string): string {
    if s != "" && IsSpace(s[0]) then SkipSpaces(s[1..]) else s
  }

  /** The leading digits as a number, and what follows them. */
  function Digits(s: string, acc: nat): (nat, string) {
    if s != "" && IsDigit(s[0]) then Digits(s[1..], 10 * acc + (s[0] as int - '0' as int)) else (acc, s)
  }

  /** strtol(s, &end, 10): None when there is no number, else its exact value and the rest. */
  function Strtol(s: string): Option<(int, string)> {
    var t := SkipSpaces(s);
    var neg := t != "" && t[0] == '-';
    var u := if t != "" && (t[0] == '-' || t[0] == '+') then t[1..] else t;
    if u == "" || !IsDigit(u[0]) then None
    else
      var r := Digits(u, 0);
      var n: int := r.0;
      Some((if neg then -n else n, r.1))
  }

  const LONG_MAX := 0x7fff_ffff_ffff_ffff

  predicate InLong(n: int) {
    -LONG_MAX - 1 <= n <= LONG_MAX
  }

  /** str_searchr */
  function LastIndex(s: string, c: char): int
    ensures -1 <= LastIndex(s, c) < |s|
  {
    if s == "" then -1 else if s[|s| - 1] == c then |s| - 1 else LastIndex(s[..|s| - 1], c)
  }
}

/** The request parser: one iteration of its loop, and what a call does. */
module HttpParser {
  import opened Wrappers
  import opened HttpSyntax

  datatype Level = First | Continue | Headers | End | Body
  datatype Status = ReqMethod | ReqUri | ReqQuery | ReqVersion | FirstContinue | FirstFinalizing | BlockEnd
                  | HeaderKey | HeaderValue | HeaderValStarts | HeaderEnd
  datatype Connection = Empty | Unknown | KeepAlive | Close | Upgrade

  /** mk_ptr_t into the buffer */
  datatype Span = Span(pos: int, len: int)

  /** struct mk_http_header; for an extra header `name` is its key in lower case. */
  datatype Row = Row(key: Span, name: string, val: Span)

  /** What header_lookup collects. */
  datatype Table = Table(known: map<nat, Row>, extra: seq<Row>, list: seq<Row>,
                         contentLength: int, connection: Connection, port: int)

  /** The fields of struct mk_http_request that the parser sets. */
  datatype Request = Request(verb: int, verbP: Span, uri: Option<Span>, query: Option<Span>,
                             protocol: int, protocolP: Span, data: Option<Span>)

  /** struct mk_http_parser, with the request it fills. */
  datatype State = State(i: nat, level: Level, status: Status, chars: int, start: nat, end: nat, guess: int,
                         key: int, sep: int, val: int, min: int, max: int, bodyReceived: int,
                         table: Table, req: Request)

  /** mk_http_parser_init and mk_http_request_init */
  const INITIAL := State(0, First, ReqMethod, -1, 0, 0, -1, -1, -1, -1, -1, -1, 0,
                         Table(map[], [], [], -1, Empty, 0),
                         Request(METHOD_UNKNOWN, Span(0, 0), None, None, -1, Span(0, 0), None))

  /** The result of a call: MK_HTTP_PARSER_PENDING, OK or ERROR with the status it enqueues (0: none). */
  datatype Result = Pending(s: State) | Ok(s: State) | Error(code: int)

  /** One round of the loop: go on, or return. */
  datatype Outcome = More(s: State) | Return(r: Result)

  function Next(s: State): Outcome {
    More(s.(i := s.i + 1, chars := s.chars + 1))
  }

  function Fail(code: int): Outcome {
    Return(Error(code))
  }

  /** mk_http_parser_ok */
  function Accept(s: State): Result {
    if s.req.protocol == -1 then Error(VERSION_UNSUPPORTED)
    else if (s.req.verb == POST || s.req.verb == PUT) && CONTENT_LENGTH !in s.table.known then Error(LENGTH_REQUIRED)
    else Ok(s)
  }

  function FieldLen(s: State): int {
    s.end - s.start
  }

  /** The start of the header key is still needed. */
  predicate KeyNeeded(s: State) {
    s.level.Headers? && ((s.status.HeaderKey? && s.chars != 0) || s.status.HeaderValue? || s.status.HeaderValStarts?)
  }

  /** mark_end() */
  function MarkEnd(s: State): State {
    s.(end := s.i, chars := -1)
  }

  /** start_next() */
  function StartNext(s: State): Outcome {
    Next(s.(start := s.i + 1))
  }

  // ---------------------------------------------------------- first line

  /** REQ_LEVEL_FIRST, on the byte at `s.i` */
  function FirstLine(s: State, b: string): Outcome
    requires s.i < |b|
  {
    var c := b[s.i];
    match s.status
    case ReqMethod =>
      if s.chars == -1 then Next(s.(guess := GuessMethod(c, s.guess)))
      else if c == ' ' then
        var t := MarkEnd(s).(status := ReqUri);
        if t.end < 2 then Fail(0)
        else
          var verb := MethodLookup(t.guess, Slice(b, t.start, t.end));
          StartNext(t.(req := t.req.(verb := verb, verbP := Span(t.start, FieldLen(t)))))
      else if s.i - s.start > 10 then Fail(0)
      else Next(s)
    case ReqUri =>
      if c == ' ' then
        var t := MarkEnd(s).(status := ReqVersion);
        if FieldLen(t) < 1 then Fail(0)
        else StartNext(t.(req := t.req.(uri := Some(Span(t.start, FieldLen(t))))))
      else if c == '?' then
        var t := MarkEnd(s).(status := ReqQuery);
        StartNext(t.(req := t.req.(uri := Some(Span(t.start, FieldLen(t))))))
      else if c == '\r' || c == '\n' then Fail(BAD_REQUEST)
      else Next(s)
    case ReqQuery =>
      if c == ' ' then
        var t := MarkEnd(s).(status := ReqVersion);
        StartNext(t.(req := t.req.(query := Some(Span(t.start, FieldLen(t))))))
      else if c == '\r' || c == '\n' then Fail(BAD_REQUEST)
      else Next(s)
    case ReqVersion =>
      if s.start + 6 >= s.i then Next(s)
      else if Slice(b, s.start, s.start + 7) == "HTTP/1." then
        var protocol := Version(b[s.start + 7]);
        Next(s.(status := FirstContinue, req := s.req.(protocolP := Span(s.start, 8), protocol := protocol)))
      else Fail(VERSION_UNSUPPORTED)
    case FirstContinue => if c == '\r' then Next(s.(status := FirstFinalizing)) else Fail(0)
    case FirstFinalizing => if c == '\n' then StartNext(s.(level := Continue)) else Fail(0)
    case BlockEnd => if c == '\n' then Return(Accept(s)) else Fail(0)
    case _ => Next(s)
  }

  /** mk_http_set_minor_version */
  function Version(c: char): int {
    if c == '1' then 11 else if c == '0' then 10 else -1
  }

  // -------------------------------------------------------------- headers

  /** What a known header says beyond its text; None with a code when it is rejected. */
  datatype Effect = Accepted(t: Table, valLen: int) | Rejected(code: int)

  function HostEffect(t: Table, value: string): Effect {
    var sep := LastIndex(value, ':');
    if sep > 0 then
      var port := value[sep + 1..];
      if |port| <= 0 || |port| >= 6 then Rejected(BAD_REQUEST)
      else match Strtol(port)
        case None => Rejected(BAD_REQUEST)
        case Some((n, rest)) =>
          if rest != "" && rest[0] != '\0' then Rejected(BAD_REQUEST) else Accepted(t.(port := n), sep)
    else Accepted(t, |value|)
  }

  function LengthEffect(t: Table, value: string): Effect {
    match Strtol(value)
    case None => Rejected(0)
    case Some((n, _)) =>
      if !InLong(n) then Rejected(TOO_LARGE) else if n < 0 then Rejected(0)
        else Accepted(t.(contentLength := n), |value|)
  }

  function ConnectionEffect(t: Table, value: string): Effect {
    var low := LowerAll(value);
    Accepted(t.(connection :=
      if |value| == 10 then (if low == "keep-alive" then KeepAlive else t.connection)
      else if |value| == 5 then (if low == "close" then Close else t.connection)
      else if |value| == 7 then (if low == "upgrade" then Upgrade else t.connection)
      else Unknown), |value|)
  }

  function RowEffect(row: nat, t: Table, value: string): Effect {
    if row == HOST then HostEffect(t, value)
    else if row == CONTENT_LENGTH then LengthEffect(t, value)
    else if row == CONNECTION then ConnectionEffect(t, value)
    else Accepted(t, |value|)
  }

  /** header_lookup, for the key from `s.key` to `s.sep` and the value from `s.val` to `s.end` */
  function HeaderLookup(s: State, b: string): Effect {
    var key, value := Slice(b, s.key, s.sep), Slice(b, s.val, s.end);
    var keyP, valP := Span(s.key, s.sep - s.key), Span(s.val, s.end - s.val);
    match FindRow(key, s.min, s.max)
    case Some(row) =>
      (match RowEffect(row, s.table, value)
       case Rejected(code) => Rejected(code)
       case Accepted(t, len) =>
         var r := Row(keyP, LowerAll(key), valP.(len := len));
         Accepted(t.(known := t.known[row := r], list := t.list + [r]), len))
    case None =>
      if |s.table.extra| < EXTRA_SIZE then
        var r := Row(keyP, LowerAll(key), valP);
        Accepted(s.table.(extra := s.table.extra + [r], list := s.table.list + [r]), valP.len)
      else Rejected(TOO_LARGE)
  }

  /** REQ_LEVEL_HEADERS, on the byte at `s.i` */
  function HeaderLine(s: State, b: string): Outcome
    requires s.i < |b|
  {
    var c := b[s.i];
    match s.status
    case HeaderKey =>
      if c == '\r' then (if s.chars == 0 then StartNext(s.(level := End)) else Fail(0))
      else if s.chars == 0 then
        var w := Window(c);
        Next(s.(min := w.0, max := w.1, key := s.i, sep := if w.0 == -1 then -1 else s.sep))
      else if c == ':' then
        var t := MarkEnd(s).(sep := s.i);
        if FieldLen(t) < 1 then Fail(0) else StartNext(t.(status := HeaderValue))
      else Next(s)
    case HeaderValue =>
      if c == '\r' || c == '\n' then Fail(0)
      else if c != ' ' then Next(s.(status := HeaderValStarts, start := s.i, val := s.i))
      else Next(s)
    case HeaderValStarts =>
      if c == '\r' then
        var t := MarkEnd(s);
        if FieldLen(t) <= 0 then Fail(0)
        else match HeaderLookup(t, b)
          case Rejected(code) => Fail(code)
          case Accepted(table, _) => StartNext(t.(table := table, status := HeaderEnd))
      else if c == '\n' && s.i > 0 && b[s.i - 1] != '\r' then Fail(0)
      else Next(s)
    case HeaderEnd => if c == '\n' then StartNext(s.(status := HeaderKey, chars := -1)) else Fail(0)
    case _ => Next(s)
  }

  /** One round on the byte at `s.i`, without the shortcuts and outside the body: no byte beyond `s.i` matters. */
  function Advance(s: State, b: string): Outcome
    requires s.i < |b| && !s.level.Body?
  {
    var c := b[s.i];
    match s.level
    case First => FirstLine(s, b)
    case Continue =>
      if c == '\r' then Next(s.(level := First, status := BlockEnd))
      else HeaderLine(s.(level := Headers, status := HeaderKey, chars := 0), b)
    case Headers => HeaderLine(s, b)
    case End =>
      if c != '\n' then Fail(0)
      else if s.table.contentLength > 0 then StartNext(s.(level := Body, chars := -1))
      else Return(Accept(s))
  }

  // ------------------------------------------------------------ shortcuts

  /** char_lookup: where the next `c` is from `i` on, or `i` itself. */
  function CharLookup(b: string, c: char, i: nat, len: nat): nat
    requires i < len <= |b|
    ensures i <= CharLookup(b, c, i, len) < len
    ensures forall k :: i <= k < CharLookup(b, c, i, len) ==> b[k] != c
    ensures var j := CharLookup(b, c, i, len); b[j] == c || (j == i && forall k :: i <= k < len ==> b[k] != c)
  {
    var j := Find(b, c, i, len);
    if j == len then i else j
  }

  function Find(b: string, c: char, i: nat, len: nat): (j: nat)
    requires i <= len <= |b|
    ensures i <= j <= len && (forall k :: i <= k < j ==> b[k] != c) && (j < len ==> b[j] == c)
    decreases len - i
  {
    if i == len || b[i] == c then i else Find(b, c, i + 1, len)
  }

  /** Is the parser looking for the end of a query string or of a header key? */
  predicate Skipping(s: State) {
    (s.level.First? && s.status.ReqQuery?) || (s.level.Headers? && s.status.HeaderKey? && s.chars != 0)
  }

  function Terminator(s: State): char {
    if s.level.First? then ' ' else ':'
  }

  /** REQ_LEVEL_BODY: wait for the announced bytes, then take all there are. */
  function BodyRound(s: State, len: nat): Outcome {
    var received := if len > s.start then len - s.start else 0;
    var t := s.(bodyReceived := received);
    if received < s.table.contentLength then Return(Pending(t))
    else Return(Accept(t.(i := s.i + received, req := s.req.(data := Some(Span(s.start, received))))))
  }

  /** One round of the loop of mk_http_parser with `len` bytes in the buffer. */
  function Iterate(s: State, b: string, len: nat): Outcome
    requires s.i < len <= |b|
  {
    if s.level.Body? then BodyRound(s, len)
    else if Skipping(s) && (s.level.First? || b[s.i] != '\r') then
      Advance(s.(i := CharLookup(b, Terminator(s), s.i, len)), b)
    else
      var o := Advance(s, b);
      if s.level.Headers? && s.status.HeaderValStarts? && b[s.i] == '\r' && o.More? && s.i + 1 < len &&
        b[s.i + 1] == '\n' then
        // Try to catch next LF
        More(o.s.(i := s.i + 2, status := HeaderKey, chars := 0, start := s.i + 2))
      else o
  }

  /** mk_http_parser: all rounds of one call. */
  function Run(s: State, b: string, len: nat): Result
    requires len <= |b|
    decreases len - s.i
  {
    if s.i >= len then Pending(s)
    else match Iterate(s, b, len)
      case Return(r) => r
      case More(t) => assert t.i > s.i; Run(t, b, len)
  }
}

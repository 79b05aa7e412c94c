/** When the search for the colon behind a header key makes reads matter. */
module HttpKeys {
  import opened Wrappers
  import opened HttpSyntax
  import opened HttpParser
  import opened HttpSegments
  import opened HttpPrinter
  import opened Texts
  import opened HttpRoundTrip
  import opened HttpFrame
  import opened HttpQuery
  import opened HttpReads

  // ---------------------------------------------- a call meets every line

  /** A call comes through the state at the beginning of a header line. */
  lemma {:induction false} RunMeets(b: string, k: nat, s: State, n: nat)
    requires Reached(b, s) && AtLine(s) && k <= s.i <= n <= |b|
    ensures Bytewise(b, k).Pending? && Run(Bytewise(b, k).s, b, n) == Run(s, b, n)
    decreases s.i - k
  {
    hide Advance, Bytewise, Run;
    AtState(b, s);
    PendingBefore(b, k, s.i);
    if k < s.i {
      var t := RoundBefore(b, k, s, n);
      RunMeets(b, t.i, s, n);
    }
  }

  /** One round of the call, up to that state at most. */
  lemma {:induction false} RoundBefore(b: string, k: nat, s: State, n: nat) returns (t: State)
    requires Reached(b, s) && AtLine(s) && k < s.i <= n <= |b|
    ensures Bytewise(b, k).Pending? && k < t.i <= s.i && Bytewise(b, t.i) == Pending(t)
    ensures Run(Bytewise(b, k).s, b, n) == Run(t, b, n)
  {
    hide Advance, Bytewise;
    AtState(b, s);
    PendingBefore(b, k, s.i);
    BytewiseInv(b, k);
    var u := Bytewise(b, k).s;
    NotBody(b, k, s);
    if Skipping(u) && (u.level.First? || b[k] != '\r') {
      var j := CharLookup(b, Terminator(u), k, n);
      NotSkipped(b, k, s, n);
      PendingBefore(b, j, s.i);
      PendingBefore(b, j + 1, s.i);
      JumpLands(b, k, n);
      AdvanceMoves(u.(i := j), b);
      t := Advance(u.(i := j), b).s;
    } else {
      PendingBefore(b, k + 1, s.i);
      NextState(b, k);
      AdvanceMoves(u, b);
      t := Advance(u, b).s;
      if Iterate(u, b, n) != More(t) {
        PeekLands(u, b);
        PeekShort(u, b, s);
        PendingBefore(b, k + 2, s.i);
        NextState(b, k + 1);
        t := Advance(t, b).s;
      }
    }
  }

  lemma {:induction false} NotBody(b: string, k: nat, s: State)
    requires Reached(b, s) && AtLine(s) && k < s.i
    ensures Bytewise(b, k).Pending? ==> !Bytewise(b, k).s.level.Body?
  {
    hide Run;
    if Bytewise(b, k).Pending? && Bytewise(b, k).s.level.Body? {
      BodyReaches(b, k, s.i);
    }
  }

  lemma {:induction false} NotSkipped(b: string, k: nat, s: State, n: nat)
    requires Reached(b, s) && AtLine(s) && k < s.i <= n <= |b| && Bytewise(b, k).Pending? && Skipping(Bytewise(b, k).s)
    ensures CharLookup(b, Terminator(Bytewise(b, k).s), k, n) < s.i
  {
    hide Run, Advance, Bytewise;
    var u := Bytewise(b, k).s;
    AtState(b, s);
    BytewiseInv(b, k);
    if CharLookup(b, Terminator(u), k, n) >= s.i {
      Skipped(b, k, s.i);
    }
  }

  lemma {:induction false} PeekShort(u: State, b: string, s: State)
    requires u.i < |b| && u.level.Headers? && u.status.HeaderValStarts? && b[u.i] == '\r' && Advance(u, b).More?
    requires AtLine(s) && u.i < s.i && (s.i == u.i + 1 ==> Advance(u, b) == More(s))
    ensures u.i + 2 <= s.i
  {
    hide HeaderLookup;
  }

  // -------------------------------------------- one line, in a single call

  lemma {:induction false} CallRound(s: State, t: State, b: string)
    requires s.i < |b| && Iterate(s, b, |b|) == More(t)
    ensures Run(s, b, |b|) == Run(t, b, |b|)
  {
    hide Iterate;
  }

  lemma {:induction false} CallPlain(s: State, b: string, j: nat)
    requires s.i <= j <= |b| && (forall k :: s.i <= k < j ==> Plain(Counted(s, k), b[k]))
    requires s.level.Headers? && (s.status.HeaderValue? || s.status.HeaderValStarts?)
    ensures Run(s, b, |b|) == Run(Counted(s, j), b, |b|)
    decreases j - s.i
  {
    hide Run, Plain;
    assert Counted(s, s.i) == s;
    if s.i < j {
      var t := Counted(s, s.i + 1);
      PlainInCall(s, b);
      CallRound(s, t, b);
      forall k | t.i <= k < j
        ensures Plain(Counted(t, k), b[k])
      {
        assert Counted(t, k) == Counted(s, k);
      }
      CallPlain(t, b, j);
    }
  }

  lemma {:induction false} PlainInCall(s: State, b: string)
    requires s.i < |b| && Plain(s, b[s.i]) && s.level.Headers? && (s.status.HeaderValue? || s.status.HeaderValStarts?)
    ensures Iterate(s, b, |b|) == More(Counted(s, s.i + 1))
  {
    hide HeaderLookup;
  }

  /** The key: only its first two bytes are looked at. */
  lemma {:induction false} CallKey(s: State, name: string, b: string)
    requires AtLine(s) && KeyFine(name) && Placed(b, s.i, name + ":")
    ensures var j := s.i + |name|;
      Run(s, b, |b|) ==
        Run(Within(s, name, HeaderValue, j + 1).(chars := 0, start := j + 1, end := j, sep := j), b, |b|)
  {
    hide Run, Window, HeaderLookup;
    var j := s.i + |name|;
    PlacedSplit(b, s.i, name, ":");
    PlacedAt(b, s.i, name, 0);
    PlacedAt(b, j, ":", 0);
    var w := Window(name[0]).0;
    var t := Within(s, name, HeaderKey, s.i + 1).(chars := 1, sep := if w == -1 then -1 else s.sep);
    CallRound(s, t, b);
    forall k | t.i <= k < j
      ensures b[k] == name[k - s.i] != ':'
    {
      PlacedAt(b, s.i, name, k - s.i);
    }
    assert CharLookup(b, ':', t.i, |b|) == j;
    CallRound(t, Within(s, name, HeaderValue, j + 1).(chars := 0, start := j + 1, end := j, sep := j), b);
  }

  /** A key without a colon whose first two bytes are no carriage returns. */
  predicate KeyFine(name: string) {
    && name != "" && Free(name, ":")
    && name[0] != '\r' && (|name| > 1 ==> name[1] != '\r')
  }

  lemma {:induction false} CallBlanks(s: State, pad: nat, b: string)
    requires s.level.Headers? && s.status.HeaderValue? && Placed(b, s.i, Blanks(pad))
    ensures Run(s, b, |b|) == Run(Counted(s, s.i + pad), b, |b|)
  {
    hide Run;
    forall k | s.i <= k < s.i + pad
      ensures Plain(Counted(s, k), b[k])
    {
      PlacedAt(b, s.i, Blanks(pad), k - s.i);
    }
    CallPlain(s, b, s.i + pad);
  }

  lemma {:induction false} CallText(s: State, text: string, b: string)
    requires s.level.Headers? && s.status.HeaderValue? && text != "" && text[0] != ' ' && Free(text, "\r\n")
    requires Placed(b, s.i, text)
    ensures Run(s, b, |b|) == Run(Counted(s, s.i + |text|).(status := HeaderValStarts, start := s.i, val := s.i), b,
      |b|)
  {
    hide Run, Advance;
    var e := s.i + |text|;
    PlacedAt(b, s.i, text, 0);
    var t := Counted(s, s.i + 1).(status := HeaderValStarts, start := s.i, val := s.i);
    ValueStarts(s, b);
    CallRound(s, t, b);
    forall k | t.i <= k < e
      ensures Plain(Counted(t, k), b[k])
    {
      PlacedAt(b, s.i, text, k - s.i);
    }
    CallPlain(t, b, e);
    assert Counted(t, e) == Counted(s, e).(status := HeaderValStarts, start := s.i, val := s.i);
  }

  lemma {:induction false} CallValue(s: State, pad: nat, text: string, b: string)
    requires s.level.Headers? && s.status.HeaderValue? && text != "" && text[0] != ' ' && Free(text, "\r\n")
    requires Placed(b, s.i, Blanks(pad) + (text + CRLF))
    ensures var v := s.i + pad; var e := v + |text|;
      Run(s, b, |b|) ==
        Run(s.(i := e, status := HeaderValStarts, chars := s.chars + (e - s.i), start := v, val := v), b, |b|)
  {
    hide Run, Placed, Free;
    PlacedSplit(b, s.i, Blanks(pad), text + CRLF);
    PlacedSplit(b, s.i + pad, text, CRLF);
    CallBlanks(s, pad, b);
    CallText(Counted(s, s.i + pad), text, b);
  }

  lemma {:induction false} CallEnd(s: State, b: string, t: Table, n: int)
    requires s.level.Headers? && s.status.HeaderValStarts? && s.start < s.i && Placed(b, s.i, CRLF)
    requires HeaderLookup(MarkEnd(s), b) == Accepted(t, n)
    ensures Run(s, b, |b|) ==
      Run(s.(i := s.i + 2, status := HeaderKey, chars := 0, start := s.i + 2, end := s.i, table := t), b, |b|)
  {
    hide Run, HeaderLookup;
    PlacedAt(b, s.i, CRLF, 0);
    PlacedAt(b, s.i, CRLF, 1);
    CallRound(s, s.(i := s.i + 2, status := HeaderKey, chars := 0, start := s.i + 2, end := s.i, table := t), b);
  }

  /** The table with an unlisted header in it. */
  function WithExtra(t: Table, h: Header, o: nat): Table {
    t.(extra := t.extra + [RowAt(h, o)], list := t.list + [RowAt(h, o)])
  }

  /** The state behind the line of an unlisted header. */
  function LineRead(s: State, h: Header): State
    requires h.name != ""
  {
    var o, n := s.i, |h.name|;
    var v := o + n + 1 + h.pad;
    var e := v + |h.value|;
    Within(s, h.name, HeaderKey, e + 2).(chars := 0, start := e + 2, end := e, sep := o + n, val := v,
                                         table := WithExtra(s.table, h, o))
  }

  /** The state in front of the line break of an unlisted header. */
  function ValueRead(s: State, h: Header): State
    requires h.name != ""
  {
    var o, n := s.i, |h.name|;
    var v := o + n + 1 + h.pad;
    Within(s, h.name, HeaderValStarts, v + |h.value|).(chars := |h.value| + h.pad, start := v, end := o + n,
                                                       sep := o + n, val := v)
  }

  lemma {:induction false} CallField(s: State, h: Header, b: string)
    requires AtLine(s) && KeyFine(h.name) && h.port.None? && Placed(b, s.i, Line(h))
    requires h.value != "" && h.value[0] != ' ' && Free(h.value, "\r\n")
    ensures Run(s, b, |b|) == Run(ValueRead(s, h), b, |b|)
    ensures Placed(b, s.i, h.name) && Placed(b, ValueRead(s, h).i, CRLF)
  {
    hide Run, Window, Placed, Free, RowOf, Blanks;
    var o, n, f := s.i, |h.name|, h.value;
    assert FieldText(h) == f;
    PlacedSplit(b, o, h.name, ":" + (Blanks(h.pad) + (f + CRLF)));
    PlacedSplit(b, o + n, ":", Blanks(h.pad) + (f + CRLF));
    PlacedJoin(b, o, h.name, ":");
    CallKey(s, h.name, b);
    var u := Within(s, h.name, HeaderValue, o + n + 1).(chars := 0, start := o + n + 1, end := o + n, sep := o + n);
    CallValue(u, h.pad, f, b);
    BlanksLength(h.pad);
    var v := o + n + 1 + h.pad;
    PlacedSplit(b, o + n + 1, Blanks(h.pad), f + CRLF);
    PlacedSplit(b, v, f, CRLF);
  }

  lemma {:induction false} CallLine(s: State, h: Header, b: string)
    requires AtLine(s) && KeyFine(h.name) && RowOf(h.name).None? && h.port.None? && Placed(b, s.i, Line(h))
    requires h.value != "" && h.value[0] != ' ' && Free(h.value, "\r\n") && |s.table.extra| < EXTRA_SIZE
    ensures Run(s, b, |b|) == Run(LineRead(s, h), b, |b|)
  {
    hide Run, Window, HeaderLookup, Placed, Free, RowOf, Line;
    CallField(s, h, b);
    var w := ValueRead(s, h);
    LookupExtra(MarkEnd(w), h, s.i, b);
    CallEnd(w, b, WithExtra(s.table, h, s.i), |h.value|);
  }

  lemma {:induction false} BlanksLength(n: nat)
    ensures |Blanks(n)| == n
  {
  }

  lemma {:induction false} LookupExtra(s: State, h: Header, o: nat, b: string)
    requires h.name != "" && Placed(b, o, h.name) && s.key == o && s.sep == o + |h.name|
    requires s.val == s.sep + 1 + h.pad && s.end == s.val + |h.value|
    requires s.min == Window(h.name[0]).0 && s.max == Window(h.name[0]).1
    requires RowOf(h.name).None? && |s.table.extra| < EXTRA_SIZE
    ensures HeaderLookup(s, b) == Accepted(WithExtra(s.table, h, o), |h.value|)
  {
    hide RowOf, RowEffect, LowerAll, Window, FindRow;
    WindowIsFullScan(h.name);
    assert Slice(b, s.key, s.sep) == h.name;
  }

  // ---------------------------------------------- another name in the table

  /** The table with another name for the row at `i` of the list, which is that at `j` of the extra ones. */
  function Renamed(t: Table, i: nat, j: nat, name: string): Table {
    t.(list := Named(t.list, i, name), extra := Named(t.extra, j, name))
  }

  function Named(rows: seq<Row>, i: nat, name: string): seq<Row> {
    if i < |rows| then rows[i := rows[i].(name := name)] else rows
  }

  function RenamedState(s: State, i: nat, j: nat, name: string): State {
    s.(table := Renamed(s.table, i, j, name))
  }

  function RenamedResult(r: Result, i: nat, j: nat, name: string): Result {
    match r
    case Pending(s) => Pending(RenamedState(s, i, j, name))
    case Ok(s) => Ok(RenamedState(s, i, j, name))
    case Error(c) => Error(c)
  }

  function RenamedOutcome(o: Outcome, i: nat, j: nat, name: string): Outcome {
    match o
    case More(s) => More(RenamedState(s, i, j, name))
    case Return(r) => Return(RenamedResult(r, i, j, name))
  }

  /** The rows are there, and stay where they are. */
  predicate Has(s: State, i: nat, j: nat) {
    i < |s.table.list| && j < |s.table.extra|
  }

  lemma {:induction false} FirstLineNamed(s: State, b: string, i: nat, j: nat, name: string)
    requires s.i < |b| && s.level.First? && Has(s, i, j)
    ensures FirstLine(RenamedState(s, i, j, name), b) == RenamedOutcome(FirstLine(s, b), i, j, name)
    ensures FirstLine(s, b).More? ==> Has(FirstLine(s, b).s, i, j)
  {
    hide FirstLine, Renamed, Accept;
    if s.status.BlockEnd? {
      AcceptNamed(s, i, j, name);
      BlockEnds(s, b);
      BlockEnds(RenamedState(s, i, j, name), b);
    } else {
      FirstLineBlind(s, b, Renamed(s.table, i, j, name));
    }
  }

  lemma {:induction false} BlockEnds(s: State, b: string)
    requires s.i < |b| && s.level.First? && s.status.BlockEnd?
    ensures FirstLine(s, b) == if b[s.i] == '\n' then Return(Accept(s)) else Return(Error(0))
    ensures !Accept(s).Pending?
  {
  }

  /** Before the end of the request, the first line has nothing to do with the table. */
  lemma {:induction false} FirstLineBlind(s: State, b: string, t: Table)
    requires s.i < |b| && s.level.First? && !s.status.BlockEnd?
    ensures match FirstLine(s, b)
      case More(u) => u.table == s.table && FirstLine(s.(table := t), b) == More(u.(table := t))
      case Return(r) => r.Error? && FirstLine(s.(table := t), b) == Return(r)
  {
    hide MethodLookup, GuessMethod, Slice, Version, Accept;
    match s.status
    case ReqMethod =>
    case ReqUri =>
    case ReqQuery =>
    case ReqVersion =>
    case _ =>
  }

  lemma {:induction false} AcceptNamed(s: State, i: nat, j: nat, name: string)
    ensures Accept(RenamedState(s, i, j, name)) == RenamedResult(Accept(s), i, j, name)
  {
  }

  lemma {:induction false} BodyNamed(s: State, len: nat, i: nat, j: nat, name: string)
    ensures BodyRound(RenamedState(s, i, j, name), len) == RenamedOutcome(BodyRound(s, len), i, j, name)
  {
  }

  lemma {:induction false} EffectNamed(row: nat, t: Table, value: string, i: nat, j: nat, name: string)
    ensures RowEffect(row, Renamed(t, i, j, name), value) == match RowEffect(row, t, value)
      case Rejected(c) => Rejected(c)
      case Accepted(u, n) => Accepted(Renamed(u, i, j, name), n)
    ensures RowEffect(row, t, value).Accepted? ==>
      RowEffect(row, t, value).t.list == t.list && RowEffect(row, t, value).t.extra == t.extra
  {
    hide Strtol, LowerAll, LastIndex, Named;
  }

  lemma {:induction false} NamedAdd(rows: seq<Row>, r: Row, i: nat, name: string)
    requires i < |rows|
    ensures Named(rows + [r], i, name) == Named(rows, i, name) + [r]
    ensures |Named(rows, i, name)| == |rows|
  {
  }

  lemma {:induction false} LookupNamed(s: State, b: string, i: nat, j: nat, name: string)
    requires Has(s, i, j)
    ensures HeaderLookup(RenamedState(s, i, j, name), b) == match HeaderLookup(s, b)
      case Rejected(c) => Rejected(c)
      case Accepted(t, n) => Accepted(Renamed(t, i, j, name), n)
    ensures HeaderLookup(s, b).Accepted? ==> Has(s.(table := HeaderLookup(s, b).t), i, j)
  {
    hide Slice, FindRow, RowEffect, LowerAll, Named;
    var key, value := Slice(b, s.key, s.sep), Slice(b, s.val, s.end);
    var keyP, valP := Span(s.key, s.sep - s.key), Span(s.val, s.end - s.val);
    match FindRow(key, s.min, s.max)
    case Some(row) =>
      EffectNamed(row, s.table, value, i, j, name);
      match RowEffect(row, s.table, value) {
        case Rejected(_) =>
        case Accepted(t, len) => NamedAdd(t.list, Row(keyP, LowerAll(key), valP.(len := len)), i, name);
      }
    case None =>
      var r := Row(keyP, LowerAll(key), valP);
      NamedAdd(s.table.list, r, i, name);
      NamedAdd(s.table.extra, r, j, name);
  }

  lemma {:induction false} HeaderLineNamed(s: State, b: string, i: nat, j: nat, name: string)
    requires s.i < |b| && s.level.Headers? && Has(s, i, j)
    ensures HeaderLine(RenamedState(s, i, j, name), b) == RenamedOutcome(HeaderLine(s, b), i, j, name)
    ensures HeaderLine(s, b).More? ==> Has(HeaderLine(s, b).s, i, j)
  {
    hide HeaderLine, Window, Renamed, HeaderLookup;
    if s.status.HeaderValStarts? && b[s.i] == '\r' {
      LookupNamed(MarkEnd(s), b, i, j, name);
      LineEnds(s, b);
      LineEnds(RenamedState(s, i, j, name), b);
    } else {
      HeaderLineBlind(s, b, Renamed(s.table, i, j, name));
    }
  }

  lemma {:induction false} LineEnds(s: State, b: string)
    requires s.i < |b| && s.level.Headers? && s.status.HeaderValStarts? && b[s.i] == '\r'
    ensures HeaderLine(s, b) ==
      if s.i - s.start <= 0 then Return(Error(0))
      else match HeaderLookup(MarkEnd(s), b)
        case Rejected(c) => Return(Error(c))
        case Accepted(t, _) =>
          More(MarkEnd(s).(table := t, status := HeaderEnd, i := s.i + 1, chars := 0, start := s.i + 1))
  {
    hide HeaderLookup;
  }

  /** Away from its end, a header line has nothing to do with the table. */
  lemma {:induction false} HeaderLineBlind(s: State, b: string, t: Table)
    requires s.i < |b| && s.level.Headers? && !(s.status.HeaderValStarts? && b[s.i] == '\r')
    ensures match HeaderLine(s, b)
      case More(u) => u.table == s.table && HeaderLine(s.(table := t), b) == More(u.(table := t))
      case Return(r) => r.Error? && HeaderLine(s.(table := t), b) == Return(r)
  {
    hide HeaderLookup, Window;
    match s.status
    case HeaderKey =>
    case HeaderValue =>
    case HeaderValStarts =>
    case _ =>
  }

  lemma {:induction false} AdvanceNamed(s: State, b: string, i: nat, j: nat, name: string)
    requires s.i < |b| && !s.level.Body? && Has(s, i, j)
    ensures Advance(RenamedState(s, i, j, name), b) == RenamedOutcome(Advance(s, b), i, j, name)
    ensures Advance(s, b).More? ==> Has(Advance(s, b).s, i, j)
  {
    hide FirstLine, HeaderLine;
    if s.level.First? {
      FirstLineNamed(s, b, i, j, name);
    } else if s.level.Headers? {
      HeaderLineNamed(s, b, i, j, name);
    } else if s.level.Continue? {
      HeaderLineNamed(s.(level := Headers, status := HeaderKey, chars := 0), b, i, j, name);
    }
  }

  lemma {:induction false} BodyReturns(s: State, len: nat)
    ensures BodyRound(s, len).Return?
  {
  }

  lemma {:induction false} IterateNamed(s: State, b: string, len: nat, i: nat, j: nat, name: string)
    requires s.i < len <= |b| && Has(s, i, j)
    ensures Iterate(RenamedState(s, i, j, name), b, len) == RenamedOutcome(Iterate(s, b, len), i, j, name)
    ensures Iterate(s, b, len).More? ==> Has(Iterate(s, b, len).s, i, j)
  {
    hide Advance, CharLookup, Renamed, BodyRound;
    if s.level.Body? {
      BodyNamed(s, len, i, j, name);
      BodyReturns(s, len);
    } else {
      AdvanceNamed(s, b, i, j, name);
      AdvanceNamed(s.(i := CharLookup(b, Terminator(s), s.i, len)), b, i, j, name);
    }
  }

  /** A call does not look at the names in the table. */
  lemma {:induction false} RunNamed(s: State, b: string, len: nat, i: nat, j: nat, name: string)
    requires len <= |b| && Has(s, i, j)
    ensures Run(RenamedState(s, i, j, name), b, len) == RenamedResult(Run(s, b, len), i, j, name)
    decreases len - s.i
  {
    hide Iterate, Renamed, Has;
    if s.i < len {
      IterateNamed(s, b, len, i, j, name);
      var o := Iterate(s, b, len);
      if o.More? {
        IterateMoves(s, b, len);
        RunNamed(o.s, b, len, i, j, name);
      }
    }
  }

  // -------------------------------------------------- a line break in a key

  /** A key of the same length and first letter that is in no table. */
  function Tame(q: string): string
    requires q != ""
  {
    [q[0]] + seq(|q| - 1, _ => '!')
  }

  /** The message with another name for its header `k`. */
  function Keyed(m: Message, k: nat, q: string): Message
    requires k < |m.headers|
  {
    m.(headers := m.headers[k := m.headers[k].(name := q)])
  }

  lemma {:induction false} RowsLong(i: nat)
    requires i < |HEADERS|
    ensures |HEADERS[i]| > 1 && HEADERS[i][1] != '!'
  {
  }

  lemma {:induction false} NoRow(low: string, i: nat)
    requires forall j :: i <= j < |HEADERS| ==> low != HEADERS[j]
    ensures ScanRows(low, i) == None
    decreases |HEADERS| - i
  {
    hide HEADERS;
    if i < |HEADERS| {
      NoRow(low, i + 1);
    }
  }

  lemma {:induction false} TameUnlisted(q: string)
    requires q != ""
    ensures RowOf(Tame(q)) == None && |Tame(q)| == |q| && Tame(q)[0] == q[0]
  {
    hide HEADERS;
    var low := LowerAll(Tame(q));
    forall j | 0 <= j < |HEADERS|
      ensures low != HEADERS[j]
    {
      RowsLong(j);
    }
    NoRow(low, 0);
  }

  /** The message around the key: what is before it and what is behind do not depend on it. */
  function Front(m: Message, k: nat): string
    requires m.verb < |METHODS| && k < |m.headers|
  {
    METHODS[m.verb] + (" " + (Target(m) + (" " + (VersionText(m) + (CRLF + Lines(m.headers[..k]))))))
  }

  function Back(m: Message, k: nat, rest: string): string
    requires k < |m.headers|
  {
    ":" + (Blanks(m.headers[k].pad) + (FieldText(m.headers[k]) + CRLF)) +
      (Lines(m.headers[k + 1..]) + (CRLF + m.body)) + rest
  }

  lemma {:induction false} Around(m: Message, k: nat, rest: string)
    requires m.verb < |METHODS| && k < |m.headers|
    ensures Print(m) + rest == Front(m, k) + (m.headers[k].name + Back(m, k, rest))
  {
    hide Target, VersionText, Blanks, FieldText, Lines;
    var hs := m.headers;
    LinesSplit(hs, k);
    FirstOfLines(hs[k..]);
    assert hs[k..][0] == hs[k] && hs[k..][1..] == hs[k + 1..];
    AroundText(METHODS[m.verb], Target(m), VersionText(m), Lines(hs[..k]), hs[k].name,
               ":" + (Blanks(hs[k].pad) + (FieldText(hs[k]) + CRLF)), Lines(hs[k + 1..]), m.body, rest);
  }

  lemma {:induction false} AroundText(a: string, t: string, v: string, l: string, n: string, g: string, r: string,
                                      body: string, rest: string)
    ensures (a + (" " + (t + (" " + (v + (CRLF + ((l + ((n + g) + r)) + (CRLF + body)))))))) + rest ==
      (a + (" " + (t + (" " + (v + (CRLF + l)))))) + (n + (g + (r + (CRLF + body)) + rest))
  {
    AroundInner(l, n, g, r, body);
    var x := n + (g + (r + (CRLF + body)));
    assert v + (CRLF + (l + x)) == v + (CRLF + l) + x;
    assert a + (" " + (t + (" " + (v + (CRLF + l) + x)))) == a + (" " + (t + (" " + (v + (CRLF + l))))) + x;
  }

  lemma {:induction false} AroundInner(l: string, n: string, g: string, r: string, body: string)
    ensures (l + ((n + g) + r)) + (CRLF + body) == l + (n + (g + (r + (CRLF + body))))
  {
  }

  /** Two messages that differ in one key only. */
  lemma {:induction false} KeysApart(m: Message, k: nat, q: string, rest: string)
    requires m.verb < |METHODS| && k < |m.headers| && q != ""
    ensures var b, c, o := Print(Keyed(m, k, q)) + rest, Print(Keyed(m, k, Tame(q))) + rest, |Front(m, k)|;
      && o + |q| <= |b| == |c| && b[..o] == c[..o] && SameFrom(b, c, o + |q|) && Placed(b, o, q)
  {
    hide Front, Back, Print;
    TameUnlisted(q);
    var mq, mx := Keyed(m, k, q), Keyed(m, k, Tame(q));
    SameAround(m, k, q, rest);
    SameAround(m, k, Tame(q), rest);
    Around(mq, k, rest);
    Around(mx, k, rest);
    Spliced(Front(m, k), q, Tame(q), Back(m, k, rest));
  }

  lemma {:induction false} SameAround(m: Message, k: nat, q: string, rest: string)
    requires m.verb < |METHODS| && k < |m.headers|
    ensures Front(Keyed(m, k, q), k) == Front(m, k) && Back(Keyed(m, k, q), k, rest) == Back(m, k, rest)
  {
    hide Lines, Blanks;
    var hs, gs := m.headers, Keyed(m, k, q).headers;
    assert hs[..k] == gs[..k] && hs[k + 1..] == gs[k + 1..];
  }

  lemma {:induction false} Spliced(front: string, q: string, x: string, back: string)
    requires |q| == |x|
    ensures var b, c, o := front + (q + back), front + (x + back), |front|;
      && |b| == |c| && b[..o] == c[..o] == front && SameFrom(b, c, o + |q|) && Placed(b, o, q)
  {
    var b, c, o := front + (q + back), front + (x + back), |front|;
    assert b[o..] == q + back && b[o..o + |q|] == b[o..][..|q|];
    forall i | o + |q| <= i < |b|
      ensures b[i] == c[i]
    {
      assert b[i] == back[i - o - |q|] == c[i];
    }
  }

  lemma {:induction false} FrontLength(m: Message, k: nat)
    requires m.verb < |METHODS| && k < |m.headers|
    ensures |Front(m, k)| == |METHODS[m.verb]| + |Target(m)| + 12 + |Lines(m.headers[..k])|
  {
    hide Lines, Target;
  }

  lemma {:induction false} FinePrefix(hs: seq<Header>, k: nat, body: string)
    requires HeadersFine(hs, body) && k < |hs| && RowOf(hs[k].name).None?
    ensures HeadersFine(hs[..k], body) && |Unlisted(hs[..k])| < EXTRA_SIZE
  {
    hide RowOf, HeaderFine;
    UnknownPrefix(hs, k);
    UnknownPrefix(hs, k + 1);
    assert hs[..k + 1][..k] == hs[..k];
  }

  /** The state at the beginning of header line `k`. */
  lemma {:induction false} ReachLine(m: Message, k: nat, rest: string) returns (t: State)
    requires WellFormed(m) && k < |m.headers| && RowOf(m.headers[k].name).None?
    ensures Reached(Print(m) + rest, t) && AtLine(t) && t.i == |Front(m, k)| &&
      Placed(Print(m) + rest, t.i, Line(m.headers[k]))
    ensures |t.table.list| == k && |t.table.extra| < EXTRA_SIZE
  {
    hide Reached, Target, VersionText, Lines, Line, TextIs, RowOf, Print, Names, Placed, HeaderFine, Carried, Unlisted,
      Text, Front;
    var b, hs := Print(m) + rest, m.headers;
    FinePrefix(hs, k, m.body);
    PlacedFirst(Print(m), rest);
    PartsPlaced(m, b);
    FrontLength(m, k);
    var s := FirstLinePhase(m, b);
    NothingRecovered(m.body, b);
    LinesSplit(hs, k);
    PlacedSplit(b, s.i, Lines(hs[..k]), Lines(hs[k..]));
    assert hs[..k][0..] == hs[..k] && hs[..k][..0] == [];
    t := HeadersPhase(s, hs[..k], 0, m.body, b);
    FirstOfLines(hs[k..]);
    assert hs[k..][0] == hs[k];
    PlacedSplit(b, t.i, Line(hs[k]), Lines(hs[k..][1..]));
    ExtrasAre(t.table, hs[..k], m.body, b);
    ListIs(t.table, hs[..k], m.body, b);
  }

  lemma {:induction false} ListIs(t: Table, hs: seq<Header>, body: string, b: string)
    requires Recovered(t, hs, body, b)
    ensures |t.list| == |hs|
  {
  }

  lemma {:induction false} SameRows(hs: seq<Header>, gs: seq<Header>, row: nat)
    requires |hs| == |gs| && forall k :: 0 <= k < |hs| ==> RowOf(hs[k].name) == RowOf(gs[k].name)
    ensures |Unlisted(hs)| == |Unlisted(gs)| && (Carried(hs, row).None? <==> Carried(gs, row).None?)
  {
    hide RowOf;
    if hs != [] {
      SameRows(hs[..|hs| - 1], gs[..|gs| - 1], row);
    }
  }

  /** Another unlisted name without a line break is as good. */
  lemma {:induction false} KeyedFine(m: Message, k: nat, q: string)
    requires k < |m.headers| && q != "" && Free(q, ":\r") && RowOf(q).None? && WellFormed(Keyed(m, k, Tame(q)))
    ensures WellFormed(Keyed(m, k, q))
  {
    hide RowOf, Tame, Decimal;
    TameUnlisted(q);
    var hs, gs := Keyed(m, k, q).headers, Keyed(m, k, Tame(q)).headers;
    forall i | 0 <= i < |hs|
      ensures HeaderFine(hs[i], m.body) && RowOf(hs[i].name) == RowOf(gs[i].name)
    {
      assert HeaderFine(gs[i], m.body);
    }
    SameRows(hs, gs, CONTENT_LENGTH);
  }

  /** In one call the key does not matter but for its name in the table. */
  lemma {:induction false} KeyInCall(m: Message, k: nat, q: string, rest: string) returns (j: nat)
    requires k < |m.headers| && KeyFine(q) && RowOf(q).None? && WellFormed(Keyed(m, k, Tame(q)))
    ensures var b, c := Print(Keyed(m, k, q)) + rest, Print(Keyed(m, k, Tame(q))) + rest;
      && Run(INITIAL, b, |b|) == RenamedResult(Run(INITIAL, c, |c|), k, j, LowerAll(q))
      && exists t :: Reached(b, t) && AtLine(t) && t.i == |Front(m, k)|
  {
    hide Reached, RowOf, Print, Front, Run, Bytewise, HeadersFine, LineFine, Line, KeyFine, LowerAll, Tame, SameFrom,
      Free;
    KeyFineHead(q);
    var mq, mx := Keyed(m, k, q), Keyed(m, k, Tame(q));
    VerbIs(mx);
    var b, c := Print(mq) + rest, Print(mx) + rest;
    TameUnlisted(q);
    KeysApart(m, k, q, rest);
    SameAround(m, k, q, rest);
    SameAround(m, k, Tame(q), rest);
    var t := ReachLine(mx, k, rest);
    AlsoReached(c, b, t);
    LineStands(mq, k, rest);
    HeaderIs(mx, k);
    TameFine(q);
    CallLine(t, mx.headers[k], c);
    CallLine(t, mq.headers[k], b);
    FromStart(b, t);
    FromStart(c, t);
    j := |t.table.extra|;
    LinesRenamed(t, mx.headers[k], q);
    var u, v := LineRead(t, mx.headers[k]), LineRead(t, mq.headers[k]);
    SameFurther(b, c, t.i + |q|, v.i);
    RunFrom(v, b, c, v.i, |b|);
    RunNamed(u, c, |c|, k, j, LowerAll(q));
  }

  lemma {:induction false} VerbIs(m: Message)
    requires WellFormed(m)
    ensures m.verb < |METHODS|
  {
  }

  lemma {:induction false} KeyFineHead(q: string)
    requires KeyFine(q)
    ensures q != ""
  {
  }

  lemma {:induction false} TameFine(q: string)
    requires KeyFine(q)
    ensures KeyFine(Tame(q))
  {
  }

  /** What a well-formed unlisted header is like. */
  lemma {:induction false} HeaderIs(m: Message, k: nat)
    requires WellFormed(m) && k < |m.headers| && RowOf(m.headers[k].name).None?
    ensures var h := m.headers[k]; h.port.None? && h.value != "" && h.value[0] != ' ' && Free(h.value, "\r\n")
  {
    hide RowOf;
    assert HeaderFine(m.headers[k], m.body);
  }

  lemma {:induction false} AlsoReached(c: string, b: string, t: State)
    requires Reached(c, t) && t.i <= |b| && b[..t.i] == c[..t.i]
    ensures Reached(b, t)
  {
    hide Bytewise;
    BytewiseGrows(b, c, t.i);
  }

  lemma {:induction false} FromStart(b: string, t: State)
    requires Reached(b, t) && AtLine(t)
    ensures t.i <= |b| && Run(INITIAL, b, |b|) == Run(t, b, |b|)
  {
    hide Run, Bytewise;
    Begins(b);
    AtState(b, INITIAL);
    RunMeets(b, 0, t, |b|);
  }

  lemma {:induction false} LineStands(m: Message, k: nat, rest: string)
    requires m.verb < |METHODS| && k < |m.headers|
    ensures Placed(Print(m) + rest, |Front(m, k)|, Line(m.headers[k]))
  {
    hide Lines, Line, Target, Front, Placed;
    PlacedFirst(Print(m), rest);
    PartsPlaced(m, Print(m) + rest);
    FrontLength(m, k);
    LinesSplit(m.headers, k);
    FirstOfLines(m.headers[k..]);
    assert m.headers[k..][0] == m.headers[k];
    var o := |METHODS[m.verb]| + |Target(m)| + 12;
    PlacedSplit(Print(m) + rest, o, Lines(m.headers[..k]), Lines(m.headers[k..]));
    PlacedSplit(Print(m) + rest, |Front(m, k)|, Line(m.headers[k]), Lines(m.headers[k..][1..]));
  }

  lemma {:induction false} LinesRenamed(t: State, h: Header, q: string)
    requires h.name != "" && q != "" && |q| == |h.name| && q[0] == h.name[0]
    ensures var i, j := |t.table.list|, |t.table.extra|; var u := LineRead(t, h);
      && LineRead(t, h.(name := q)) == RenamedState(u, i, j, LowerAll(q)) && Has(u, i, j)
      && Clean(LineRead(t, h.(name := q)), u.i) && u.i == t.i + |h.name| + h.pad + |h.value| + 3
  {
    hide LowerAll, Window;
  }

  lemma {:induction false} SameFurther(b: string, c: string, d: nat, e: nat)
    requires SameFrom(b, c, d) && d <= e
    ensures SameFrom(b, c, e)
  {
  }

  lemma {:induction false} FirstReturn(q: string) returns (r: nat)
    requires !Free(q, "\r")
    ensures r < |q| && q[r] == '\r' && Free(q[..r], "\r")
    decreases q
  {
    if q[0] == '\r' {
      return 0;
    }
    r := FirstReturn(q[1..]);
    r := r + 1;
    assert forall i :: 1 <= i < r ==> q[..r][i] == q[1..][..r - 1][i - 1];
  }

  /** Byte by byte, a carriage return in a key is an error. */
  lemma {:induction false} KeyFails(t: State, q: string, b: string, r: nat)
    requires Reached(b, t) && AtLine(t) && KeyFine(q) && Placed(b, t.i, q)
    requires r < |q| && q[r] == '\r' && Free(q[..r], "\r")
    ensures t.i + r + 1 <= |b| && Bytewise(b, t.i + r + 1) == Error(0)
  {
    hide Reached, Bytewise, Window, HeaderLookup, Run;
    PlacedAt(b, t.i, q, 0);
    PlacedAt(b, t.i, q, r);
    var w := Window(q[0]).0;
    var u := Within(t, q, HeaderKey, t.i + 1).(chars := 1, sep := if w == -1 then -1 else t.sep);
    Round(t, u, b);
    var e := t.i + r;
    forall k | u.i <= k < e
      ensures Plain(Counted(u, k), b[k])
    {
      PlacedAt(b, t.i, q, k - t.i);
      assert q[..r][k - t.i] == b[k];
    }
    PlainBytes(u, b, e);
    AtState(b, Counted(u, e));
    NextState(b, e);
  }

  /**
   * A single call accepts any unlisted key without a colon whose first two bytes are no carriage
   * returns, and reports the same as for a tame one of that length, apart from the name; reading
   * byte by byte gives the same result exactly if there is no carriage return further on either.
   */
  lemma {:induction false} KeyBreaks(m: Message, k: nat, q: string, rest: string)
    requires k < |m.headers| && KeyFine(q) && RowOf(q).None?
    requires WellFormed(Keyed(m, k, Tame(q))) && (m.body != "" ==> rest == "")
    ensures var b, c := Print(Keyed(m, k, q)) + rest, Print(Keyed(m, k, Tame(q))) + rest;
      && (exists j :: Run(INITIAL, b, |b|) == RenamedResult(Run(INITIAL, c, |c|), k, j, LowerAll(q)))
      && Run(INITIAL, b, |b|).Ok?
      && (Bytewise(b, |b|) == Run(INITIAL, b, |b|) <==> Free(q, "\r"))
      && (!Free(q, "\r") ==> Bytewise(b, |b|) == Error(0))
  {
    hide Reached, RowOf, Print, Front, Run, Bytewise, HeadersFine, LineFine, LowerAll, Tame, AtLine;
    var j := KeyInCall(m, k, q, rest);
    SingleCall(Keyed(m, k, Tame(q)), rest);
    VerbIs(Keyed(m, k, Tame(q)));
    if Free(q, "\r") {
      KeyedFine(m, k, q);
      SingleCall(Keyed(m, k, q), rest);
    } else {
      var b := Print(Keyed(m, k, q)) + rest;
      var t :| Reached(b, t) && AtLine(t) && t.i == |Front(m, k)|;
      var r := FirstReturn(q);
      KeysApart(m, k, q, rest);
      KeyFails(t, q, b, r);
      DecidedStays(b, t.i + r + 1, |b|);
    }
  }
}

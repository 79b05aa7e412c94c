/** What the parser accepts: whatever is complete has the form of a request. */
module HttpGrammar {
  import opened Wrappers
  import opened HttpSyntax
  import opened HttpParser
  import opened HttpSegments
  import opened HttpPrinter
  import opened Texts

  // ------------------------------------------------------------- the form

  /** A header line as it stands in the buffer. */
  datatype Field = Field(name: string, pad: nat, text: string)

  /** A request line and header lines. */
  datatype Form = Form(word: string, uri: string, query: Option<string>, digit: char, fields: seq<Field>)

  function FieldLine(f: Field): string {
    f.name + ":" + Blanks(f.pad) + f.text + CRLF
  }

  function FieldLines(fs: seq<Field>): string {
    if fs == [] then "" else FieldLines(fs[..|fs| - 1]) + FieldLine(fs[|fs| - 1])
  }

  /** The request line up to the blank before the version. */
  function Goal(f: Form): string {
    f.word + " " + f.uri + (if f.query.Some? then "?" + f.query.value else "") + " "
  }

  function FirstText(f: Form): string {
    Goal(f) + "HTTP/1." + [f.digit] + CRLF
  }

  function Head(f: Form): string {
    FirstText(f) + FieldLines(f.fields)
  }

  predicate GoalFine(f: Form) {
    && WordFine(f.word) && Free(f.uri, " ?\r\n") && (f.query.None? ==> f.uri != "")
    && (f.query.Some? ==> Free(f.query.value, " \r\n"))
  }

  predicate NameFine(name: string) {
    name != "" && name[0] != '\r' && Free(name[1..], ":\r")
  }

  predicate FieldOk(f: Field) {
    NameFine(f.name) && f.text != "" && f.text[0] != ' ' && Free(f.text, "\r\n")
  }

  predicate FieldsOk(fs: seq<Field>) {
    forall k :: 0 <= k < |fs| ==> FieldOk(fs[k])
  }

  // ------------------------------------------------- what has been read

  /** The request fields that the first line sets. */
  predicate Told(r: Request, f: Form) {
    && f.word != "" && r.verb == MethodLookup(GuessMethod(f.word[0], -1), f.word)
    && r.uri == Some(Span(|f.word| + 1, |f.uri|))
    && r.query == (if f.query.Some? then Some(Span(|f.word| + |f.uri| + 2, |f.query.value|)) else None)
  }

  /** The first line, as far as it has been read. */
  predicate FirstRead(b: string, s: State, f: Form)
    requires s.start <= s.i <= |b|
  {
    var now := b[s.start..s.i];
    match s.status
    case ReqMethod =>
      && s.start == 0 && s.i <= 11 && s.chars == s.i - 1 && (s.i > 0 ==> Free(b[1..s.i], " "))
      && s.guess == (if s.i == 0 then -1 else GuessMethod(b[0], -1)) && s.req.query == None
    case ReqUri =>
      && WordFine(f.word) && b[..s.start] == f.word + " " && Free(now, " ?\r\n") && s.req.query == None
      && s.req.verb == MethodLookup(GuessMethod(f.word[0], -1), f.word)
    case ReqQuery =>
      && WordFine(f.word) && b[..s.start] == f.word + " " + f.uri + "?" && Free(f.uri, " ?\r\n") && Free(now, " \r\n")
      && s.req.verb == MethodLookup(GuessMethod(f.word[0], -1), f.word)
      && s.req.uri == Some(Span(|f.word| + 1, |f.uri|))
    case ReqVersion => GoalFine(f) && Told(s.req, f) && b[..s.start] == Goal(f) && s.i <= s.start + 7
    case FirstContinue =>
      GoalFine(f) && Told(s.req, f) && b[..s.i] == Goal(f) + "HTTP/1." + [f.digit] && s.req.protocol == Version(f.digit)
    case FirstFinalizing =>
      && GoalFine(f) && Told(s.req, f) && b[..s.i] == Goal(f) + "HTTP/1." + [f.digit] + "\r"
      && s.req.protocol == Version(f.digit)
    case BlockEnd => LineRead(s, f) && b[..s.i] == Head(f) + "\r" && f.fields == []
    case _ => false
  }

  predicate LineRead(s: State, f: Form) {
    GoalFine(f) && Told(s.req, f) && s.req.protocol == Version(f.digit)
  }

  /** A header line, as far as it has been read; `g` is the field in hand. */
  predicate LineReads(b: string, s: State, f: Form, g: Field)
    requires s.start <= s.i <= |b|
  {
    var now := b[s.start..s.i];
    match s.status
    case HeaderKey =>
      && b[..s.start] == Head(f) && s.chars == s.i - s.start && (now != "" ==> NameFine(now))
    case HeaderValue =>
      NameFine(g.name) && b[..s.start] == Head(f) + g.name + ":" && now == Blanks(|now|)
    case HeaderValStarts =>
      && NameFine(g.name) && b[..s.start] == Head(f) + g.name + ":" + Blanks(g.pad)
      && now != "" && now[0] != ' ' && Free(now, "\r\n")
    case HeaderEnd => b[..s.i] + "\n" == Head(f)
    case _ => false
  }

  /** All that has been read so far. */
  predicate Reads(b: string, s: State, f: Form, g: Field) {
    && s.start <= s.i <= |b|
    && match s.level
       case First => FirstRead(b, s, f)
       case Continue => LineRead(s, f) && f.fields == [] && s.start == s.i && b[..s.i] == Head(f)
       case Headers => LineRead(s, f) && FieldsOk(f.fields) && LineReads(b, s, f, g)
       case End => LineRead(s, f) && FieldsOk(f.fields) && b[..s.i] == Head(f) + "\r"
       case Body => LineRead(s, f) && FieldsOk(f.fields) && b[..s.i] == Head(f) + CRLF
  }

  lemma {:induction false} OneMore(b: string, lo: nat, i: nat)
    requires lo <= i < |b|
    ensures b[lo..i + 1] == b[lo..i] + [b[i]] && b[..i + 1] == b[..i] + [b[i]] && b[..i] == b[..lo] + b[lo..i]
  {
  }

  lemma {:induction false} FreeMore(s: string, c: char, bad: string)
    requires Free(s, bad) && c !in bad
    ensures Free(s + [c], bad)
  {
  }

  // ----------------------------------------------------- the request line

  lemma {:induction false} MethodStep(b: string, s: State, f: Form) returns (h: Form)
    requires s.i < |b| && s.level.First? && s.status.ReqMethod? && s.start <= s.i && FirstRead(b, s, f)
    requires FirstLine(s, b).More?
    ensures var t := FirstLine(s, b).s; t.level.First? && t.start <= t.i <= |b| && FirstRead(b, t, h)
    ensures h.fields == f.fields
  {
    hide MethodLookup, GuessMethod;
    h := f;
    var i := s.i;
    if i > 0 {
      OneMore(b, 1, i);
      if b[i] == ' ' {
        var w := b[..i];
        h := f.(word := w);
        assert w[1..] == b[1..i] && w[0] == b[0];
        assert b[..i + 1] == w + " ";
        assert Slice(b, 0, i) == w;
      } else {
        FreeMore(b[1..i], b[i], " ");
      }
    } else {
      assert b[1..1] == "";
    }
  }

  lemma {:induction false} UriStep(b: string, s: State, f: Form) returns (h: Form)
    requires s.i < |b| && s.level.First? && s.status.ReqUri? && s.start <= s.i && FirstRead(b, s, f)
    requires FirstLine(s, b).More?
    ensures var t := FirstLine(s, b).s; t.level.First? && t.start <= t.i <= |b| && FirstRead(b, t, h)
    ensures h.fields == f.fields
  {
    hide MethodLookup, GuessMethod, Slice;
    h := f;
    var now, c := b[s.start..s.i], b[s.i];
    OneMore(b, s.start, s.i);
    assert |b[..s.start]| == s.start;
    if c == ' ' {
      h := f.(uri := now, query := None);
      assert f.word + " " + now + "" + " " == f.word + " " + now + " ";
    } else if c == '?' {
      h := f.(uri := now, query := Some(""));
      assert f.word + " " + now + [c] == f.word + " " + now + "?";
    } else {
      FreeMore(now, c, " ?\r\n");
    }
  }

  lemma {:induction false} QueryStep(b: string, s: State, f: Form) returns (h: Form)
    requires s.i < |b| && s.level.First? && s.status.ReqQuery? && s.start <= s.i && FirstRead(b, s, f)
    requires FirstLine(s, b).More?
    ensures var t := FirstLine(s, b).s; t.level.First? && t.start <= t.i <= |b| && FirstRead(b, t, h)
    ensures h.fields == f.fields
  {
    hide MethodLookup, GuessMethod, Slice;
    h := f;
    var now, c := b[s.start..s.i], b[s.i];
    OneMore(b, s.start, s.i);
    assert |b[..s.start]| == s.start;
    if c == ' ' {
      h := f.(query := Some(now));
      assert f.word + " " + f.uri + "?" + now + [c] == f.word + " " + f.uri + ("?" + now) + " ";
    } else {
      FreeMore(now, c, " \r\n");
    }
  }

  lemma {:induction false} VersionStep(b: string, s: State, f: Form) returns (h: Form)
    requires s.i < |b| && s.level.First? && s.status.ReqVersion? && s.start <= s.i && FirstRead(b, s, f)
    requires FirstLine(s, b).More?
    ensures var t := FirstLine(s, b).s; t.level.First? && t.start <= t.i <= |b| && FirstRead(b, t, h)
    ensures h.fields == f.fields
  {
    hide MethodLookup, GuessMethod, Version, GoalFine, Goal, Told;
    h := f;
    OneMore(b, s.start, s.i);
    if s.start + 6 < s.i {
      assert s.i == s.start + 7 && Slice(b, s.start, s.start + 7) == b[s.start..s.i];
      h := f.(digit := b[s.i]);
      GoalOnly(f, h);
      assert b[..s.i + 1] == Goal(f) + "HTTP/1." + [b[s.i]];
      ToldOnly(s.req, FirstLine(s, b).s.req, f, h);
    }
  }

  lemma {:induction false} GoalOnly(f: Form, h: Form)
    requires h == f.(digit := h.digit)
    ensures Goal(h) == Goal(f) && (GoalFine(f) ==> GoalFine(h))
  {
  }

  lemma {:induction false} ToldOnly(r: Request, q: Request, f: Form, h: Form)
    requires h == f.(digit := h.digit) && Told(r, f) && q.verb == r.verb && q.uri == r.uri && q.query == r.query
    ensures Told(q, h)
  {
  }

  lemma {:induction false} BreakStep(b: string, s: State, f: Form) returns (h: Form)
    requires s.i < |b| && s.level.First? && (s.status.FirstContinue? || s.status.FirstFinalizing?) && s.start <= s.i
    requires FirstRead(b, s, f) && FirstLine(s, b).More?
    ensures var t := FirstLine(s, b).s; t.start <= t.i <= |b| && Reads(b, t, h, Field("", 0, ""))
    ensures h.fields == []
  {
    hide MethodLookup, GuessMethod, Version, GoalFine, Goal, Told;
    h := f.(fields := []);
    GoalSame(s.req, f, h);
    OneMore(b, s.start, s.i);
    if s.status.FirstFinalizing? {
      assert Goal(f) + "HTTP/1." + [f.digit] + "\r" + "\n" == FirstText(h) == Head(h);
    }
  }

  lemma {:induction false} GoalSame(r: Request, f: Form, h: Form)
    requires h == f.(fields := h.fields)
    ensures Goal(h) == Goal(f) && GoalFine(h) == GoalFine(f) && Told(r, h) == Told(r, f)
    ensures FirstText(h) == FirstText(f)
  {
  }

  /** One byte more of the request line. */
  lemma {:induction false} FirstStep(b: string, s: State, f: Form, g: Field) returns (h: Form)
    requires s.i < |b| && s.level.First? && Reads(b, s, f, g) && FirstLine(s, b).More?
    ensures Reads(b, FirstLine(s, b).s, h, Field("", 0, "")) && (f.fields == [] ==> h.fields == [])
  {
    hide FirstLine, FirstRead;
    FirstStatus(b, s, f);
    match s.status
    case ReqMethod => h := MethodStep(b, s, f);
    case ReqUri => h := UriStep(b, s, f);
    case ReqQuery => h := QueryStep(b, s, f);
    case ReqVersion => h := VersionStep(b, s, f);
    case FirstContinue => h := BreakStep(b, s, f);
    case FirstFinalizing => h := BreakStep(b, s, f);
    case BlockEnd => NoMore(b, s); h := f;
    case _ =>
  }

  lemma {:induction false} FirstStatus(b: string, s: State, f: Form)
    requires s.start <= s.i <= |b| && FirstRead(b, s, f)
    ensures s.status.ReqMethod? || s.status.ReqUri? || s.status.ReqQuery? || s.status.ReqVersion? ||
      s.status.FirstContinue? || s.status.FirstFinalizing? || s.status.BlockEnd?
  {
  }

  lemma {:induction false} NoMore(b: string, s: State)
    requires s.i < |b| && s.level.First? && s.status.BlockEnd?
    ensures FirstLine(s, b).Return?
  {
  }

  // ------------------------------------------------------ the header lines

  lemma {:induction false} KeyStep(b: string, s: State, f: Form, g: Field) returns (k: Field)
    requires s.i < |b| && s.level.Headers? && s.status.HeaderKey? && Reads(b, s, f, g) && HeaderLine(s, b).More?
    ensures Reads(b, HeaderLine(s, b).s, f, k)
    ensures k == if b[s.i] == ':' && s.chars > 0 then g.(name := b[s.start..s.i]) else g
  {
    hide Window, GoalFine, Told, Version, FieldLines, FirstText, Head;
    k := g;
    var now, c := b[s.start..s.i], b[s.i];
    OneMore(b, s.start, s.i);
    if c == '\r' {
      assert now == "" && b[..s.i + 1] == Head(f) + "\r";
    } else if s.chars == 0 {
      assert now == "" && b[s.start..s.i + 1] == [c] && [c][1..] == "";
    } else if c == ':' {
      k := g.(name := now);
      assert b[..s.i + 1] == Head(f) + now + ":";
      assert b[s.i + 1..s.i + 1] == "" == Blanks(0);
    } else {
      assert b[s.start..s.i + 1][1..] == now[1..] + [c];
      FreeMore(now[1..], c, ":\r");
    }
  }

  lemma {:induction false} BlankStep(b: string, s: State, f: Form, g: Field) returns (k: Field)
    requires s.i < |b| && s.level.Headers? && s.status.HeaderValue? && Reads(b, s, f, g) && HeaderLine(s, b).More?
    ensures Reads(b, HeaderLine(s, b).s, f, k) && k.name == g.name
  {
    hide GoalFine, Told, Version, FieldLines, FirstText, Head, NameFine;
    k := g;
    var now, c := b[s.start..s.i], b[s.i];
    OneMore(b, s.start, s.i);
    if c == ' ' {
      assert b[s.start..s.i + 1] == Blanks(|now| + 1);
    } else {
      k := g.(pad := |now|);
      assert b[..s.i] == Head(f) + g.name + ":" + Blanks(|now|);
      assert b[s.i..s.i + 1] == [c];
    }
  }

  lemma {:induction false} FieldAdded(f: Form, g: Field) returns (h: Form)
    requires FieldsOk(f.fields) && FieldOk(g)
    ensures h == f.(fields := f.fields + [g]) && FieldsOk(h.fields)
    ensures Head(h) == Head(f) + g.name + ":" + Blanks(g.pad) + g.text + CRLF
  {
    hide FieldOk, Goal;
    h := f.(fields := f.fields + [g]);
    assert h.fields[..|h.fields| - 1] == f.fields;
    assert FirstText(h) == FirstText(f) by { GoalSame(INITIAL.req, f, h); }
    Assoc(FirstText(f) + FieldLines(f.fields), g.name, ":", Blanks(g.pad), g.text, CRLF);
    assert FirstText(f) + (FieldLines(f.fields) + FieldLine(g)) == FirstText(f) + FieldLines(f.fields) + FieldLine(g);
  }

  lemma {:induction false} Assoc(a: string, b: string, c: string, d: string, e: string, f: string)
    ensures a + (b + c + d + e + f) == a + b + c + d + e + f
  {
  }

  lemma {:induction false} TextStep(b: string, s: State, f: Form, g: Field) returns (h: Form)
    requires s.i < |b| && s.level.Headers? && s.status.HeaderValStarts? && Reads(b, s, f, g) && HeaderLine(s, b).More?
    ensures Reads(b, HeaderLine(s, b).s, h, g)
    ensures h.fields == if b[s.i] == '\r' then f.fields + [g.(text := b[s.start..s.i])] else f.fields
  {
    hide GoalFine, Told, Version, FieldLines, FirstText, Head, NameFine, HeaderLookup;
    h := f;
    var now, c := b[s.start..s.i], b[s.i];
    OneMore(b, s.start, s.i);
    if c == '\r' {
      var k := g.(text := now);
      h := FieldAdded(f, k);
      GoalSame(s.req, f, h);
      assert b[..s.i + 1] + "\n" == Head(f) + g.name + ":" + Blanks(g.pad) + now + CRLF;
    } else {
      assert b[s.i - 1] == now[|now| - 1];
      FreeMore(now, c, "\r\n");
    }
  }

  lemma {:induction false} EndStep(b: string, s: State, f: Form, g: Field)
    requires s.i < |b| && s.level.Headers? && s.status.HeaderEnd? && Reads(b, s, f, g) && HeaderLine(s, b).More?
    ensures Reads(b, HeaderLine(s, b).s, f, g)
  {
    hide GoalFine, Told, Version, FieldLines, FirstText, Head, NameFine, HeaderLookup;
    OneMore(b, s.start, s.i);
  }

  lemma {:induction false} LineStatus(b: string, s: State, f: Form, g: Field)
    requires s.start <= s.i <= |b| && LineReads(b, s, f, g)
    ensures s.status.HeaderKey? || s.status.HeaderValue? || s.status.HeaderValStarts? || s.status.HeaderEnd?
  {
  }

  /** How the fields go on at one byte of a header line. */
  predicate Follows(b: string, s: State, f: Form, g: Field, h: Form, k: Field)
    requires s.start <= s.i < |b|
  {
    var now := b[s.start..s.i];
    && h.fields == (if s.status.HeaderValStarts? && b[s.i] == '\r' then f.fields + [g.(text := now)] else f.fields)
    && k.name == if s.status.HeaderKey? && b[s.i] == ':' && s.chars > 0 then now else g.name
  }

  /** One byte more of a header line. */
  lemma {:induction false} HeaderStep(b: string, s: State, f: Form, g: Field) returns (h: Form, k: Field)
    requires s.i < |b| && s.level.Headers? && Reads(b, s, f, g) && HeaderLine(s, b).More?
    ensures Reads(b, HeaderLine(s, b).s, h, k) && Follows(b, s, f, g, h, k)
  {
    hide HeaderLine, LineReads;
    LineStatus(b, s, f, g);
    h, k := f, g;
    match s.status
    case HeaderKey => k := KeyStep(b, s, f, g);
    case HeaderValue => k := BlankStep(b, s, f, g);
    case HeaderValStarts => h := TextStep(b, s, f, g);
    case HeaderEnd => EndStep(b, s, f, g);
    case _ =>
  }

  // ------------------------------------------------------------ the table

  /** Some field has this row of the table. */
  predicate Listed(fs: seq<Field>, row: nat) {
    exists k :: 0 <= k < |fs| && RowOf(fs[k].name) == Some(row)
  }

  /** How many fields have none. */
  function Others(fs: seq<Field>): nat {
    if fs == [] then 0 else Others(fs[..|fs| - 1]) + if RowOf(fs[|fs| - 1].name).None? then 1 else 0
  }

  /** What the fields say, one after the other; None if one of them says nothing acceptable. */
  function Meaning(fs: seq<Field>): Option<Table> {
    if fs == [] then Some(INITIAL.table)
    else match Meaning(fs[..|fs| - 1])
      case None => None
      case Some(t) =>
        match RowOf(fs[|fs| - 1].name)
        case None => Some(t)
        case Some(row) =>
          match RowEffect(row, t, fs[|fs| - 1].text) case Rejected(_) => None case Accepted(u, _) => Some(u)
  }

  ghost predicate Filed(t: Table, fs: seq<Field>) {
    && |t.list| == |fs| && |t.extra| == Others(fs) <= 8
    && (forall row: nat :: row in t.known <==> Listed(fs, row))
    && Meaning(fs).Some? && var u := Meaning(fs).value;
       t.contentLength == u.contentLength && t.connection == u.connection && t.port == u.port
  }

  lemma {:induction false} ListedMore(fs: seq<Field>, g: Field, row: nat)
    ensures Listed(fs + [g], row) <==> Listed(fs, row) || RowOf(g.name) == Some(row)
  {
    hide RowOf;
    if Listed(fs, row) {
      var k :| 0 <= k < |fs| && RowOf(fs[k].name) == Some(row);
      assert (fs + [g])[k] == fs[k];
    }
    assert (fs + [g])[|fs|] == g;
  }

  /** An effect depends only on the value, and changes only what it says. */
  lemma {:induction false} EffectOnly(row: nat, t: Table, u: Table, value: string)
    requires t.contentLength == u.contentLength && t.connection == u.connection && t.port == u.port
    ensures match RowEffect(row, t, value)
      case Rejected(_) => RowEffect(row, u, value).Rejected?
      case Accepted(v, _) =>
        && v.known == t.known && v.extra == t.extra && v.list == t.list
        && RowEffect(row, u, value).Accepted? && var w := RowEffect(row, u, value).t;
           v.contentLength == w.contentLength && v.connection == w.connection && v.port == w.port
  {
    hide Strtol, LowerAll, LastIndex;
  }

  lemma {:induction false} FiledMore(b: string, s: State, fs: seq<Field>, g: Field)
    requires Filed(s.table, fs) && g.name != "" && Slice(b, s.key, s.sep) == g.name && Slice(b, s.val, s.end) == g.text
    requires s.min == Window(g.name[0]).0 && s.max == Window(g.name[0]).1 && HeaderLookup(s, b).Accepted?
    ensures Filed(HeaderLookup(s, b).t, fs + [g])
  {
    hide RowOf, FindRow, Window, RowEffect, Slice, LowerAll, Listed, HEADERS;
    WindowIsFullScan(g.name);
    var gs := fs + [g];
    assert gs[..|gs| - 1] == fs && gs[|gs| - 1] == g;
    forall row: nat
      ensures Listed(gs, row) <==> Listed(fs, row) || RowOf(g.name) == Some(row)
    {
      ListedMore(fs, g, row);
    }
    if RowOf(g.name).Some? {
      EffectOnly(RowOf(g.name).value, s.table, Meaning(fs).value, g.text);
    }
  }

  /** The table and the header in hand. */
  ghost predicate Knows(b: string, s: State, f: Form, g: Field)
    requires s.start <= s.i <= |b|
  {
    && Filed(s.table, f.fields) && s.req.data == None
    && (s.level.Headers? && s.status.HeaderKey? && s.chars > 0 ==>
      s.start < s.i && s.key == s.start && s.min == Window(b[s.start]).0 && s.max == Window(b[s.start]).1)
    && (s.level.Headers? && (s.status.HeaderValue? || s.status.HeaderValStarts?) ==>
      && g.name != "" && Slice(b, s.key, s.sep) == g.name
      && s.min == Window(g.name[0]).0 && s.max == Window(g.name[0]).1)
    && (s.level.Headers? && s.status.HeaderValStarts? ==> s.val == s.start)
  }

  lemma {:induction false} KnowsKey(b: string, s: State, f: Form, g: Field, h: Form, k: Field)
    requires s.start <= s.i < |b| && s.level.Headers? && s.status.HeaderKey? && s.chars == s.i - s.start
    requires Knows(b, s, f, g) && HeaderLine(s, b).More? && Follows(b, s, f, g, h, k)
    ensures var t := HeaderLine(s, b).s; t.start <= t.i <= |b| && Knows(b, t, h, k)
  {
    hide Window, Filed, HeaderLookup;
    assert s.chars > 0 ==> Slice(b, s.start, s.i) == b[s.start..s.i];
  }

  lemma {:induction false} KnowsText(b: string, s: State, f: Form, g: Field, h: Form, k: Field)
    requires s.start < s.i < |b| && s.level.Headers? && s.status.HeaderValStarts?
    requires Knows(b, s, f, g) && HeaderLine(s, b).More? && Follows(b, s, f, g, h, k)
    ensures var t := HeaderLine(s, b).s; t.start <= t.i <= |b| && Knows(b, t, h, k)
  {
    hide Window, Filed, HeaderLookup;
    if b[s.i] == '\r' {
      assert Slice(b, s.start, s.i) == b[s.start..s.i];
      FiledMore(b, MarkEnd(s), f.fields, g.(text := b[s.start..s.i]));
    }
  }

  lemma {:induction false} KnowsLine(b: string, s: State, f: Form, g: Field, h: Form, k: Field)
    requires s.i < |b| && s.level.Headers? && Reads(b, s, f, g) && Knows(b, s, f, g)
    requires HeaderLine(s, b).More? && Follows(b, s, f, g, h, k)
    ensures var t := HeaderLine(s, b).s; t.start <= t.i <= |b| && Knows(b, t, h, k) && !t.level.First?
  {
    hide Window, Filed, HeaderLookup, LineRead, FieldsOk, NameFine, Head, Blanks, Free;
    if s.status.HeaderKey? {
      KnowsKey(b, s, f, g, h, k);
    } else if s.status.HeaderValStarts? {
      KnowsText(b, s, f, g, h, k);
    }
  }

  lemma {:induction false} FirstTable(b: string, s: State)
    requires s.i < |b| && s.level.First? && FirstLine(s, b).More?
    ensures FirstLine(s, b).s.table == s.table && FirstLine(s, b).s.req.data == s.req.data
    ensures !FirstLine(s, b).s.level.Headers?
  {
    hide MethodLookup, Slice, GuessMethod, Version;
  }

  // ------------------------------------------------------- whole requests

  /** One byte more, outside the body. */
  lemma {:induction false} OneStep(b: string, s: State, f: Form, g: Field) returns (h: Form, k: Field)
    requires s.i < |b| && !s.level.Body? && Reads(b, s, f, g) && Knows(b, s, f, g) && Advance(s, b).More?
    requires s.level.First? ==> f.fields == []
    ensures Reads(b, Advance(s, b).s, h, k) && Knows(b, Advance(s, b).s, h, k)
    ensures Advance(s, b).s.level.First? ==> h.fields == []
  {
    hide FirstLine, HeaderLine, FirstRead, LineReads, LineRead, Head, Filed, Window, Follows;
    h, k := f, g;
    OneMore(b, s.start, s.i);
    match s.level {
      case First =>
        FirstTable(b, s);
        h := FirstStep(b, s, f, g);
        k := Field("", 0, "");
      case Continue =>
        if b[s.i] == '\r' {
          EndOfFirst(b, s, f);
        } else {
          var t := s.(level := Headers, status := HeaderKey, chars := 0);
          StartOfLine(b, s, t, f, g);
          h, k := HeaderStep(b, t, f, g);
          KnowsLine(b, t, f, g, h, k);
        }
      case Headers =>
        h, k := HeaderStep(b, s, f, g);
        KnowsLine(b, s, f, g, h, k);
      case End =>
        assert b[..s.i + 1] == Head(f) + "\r" + "\n" == Head(f) + CRLF;
        LineReadOnly(s, Advance(s, b).s, f);
    }
  }

  lemma {:induction false} LineReadOnly(s: State, t: State, f: Form)
    requires LineRead(s, f) && t.req == s.req
    ensures LineRead(t, f)
  {
  }

  lemma {:induction false} EndOfFirst(b: string, s: State, f: Form)
    requires s.i < |b| && s.start == s.i && LineRead(s, f) && f.fields == [] && b[..s.i] == Head(f) && b[s.i] == '\r'
    ensures var t := s.(i := s.i + 1, chars := s.chars + 1, level := First, status := BlockEnd);
      FirstRead(b, t, f)
  {
    hide LineRead, Head;
    OneMore(b, s.start, s.i);
    LineReadOnly(s, s.(i := s.i + 1, chars := s.chars + 1, level := First, status := BlockEnd), f);
  }

  lemma {:induction false} StartOfLine(b: string, s: State, t: State, f: Form, g: Field)
    requires s.i < |b| && s.start == s.i && LineRead(s, f) && f.fields == [] && b[..s.i] == Head(f)
    requires t == s.(level := Headers, status := HeaderKey, chars := 0)
    ensures Reads(b, t, f, g)
  {
    hide Head;
    assert b[s.i..s.i] == "";
  }

  /** Whatever has been read so far without an error is the beginning of a request. */
  lemma {:induction false} ReadsUpto(b: string, n: nat) returns (f: Form, g: Field)
    requires n <= |b| && Bytewise(b, n).Pending?
    ensures var s := Bytewise(b, n).s;
      Reads(b, s, f, g) && Knows(b, s, f, g) && (s.level.First? ==> f.fields == [])
    decreases n
  {
    hide Advance, Run, Reads, Knows;
    f, g := Form("", "", None, '0', []), Field("", 0, "");
    if n == 0 {
      Nothing(b, f, g);
    } else {
      f, g := ReadsUpto(b, n - 1);
      var s := Bytewise(b, n - 1).s;
      BytewiseInv(b, n - 1);
      if s.level.Body? {
        BodyCall(s, b, n);
        BodyReads(b, s, n - s.start, f, g);
      } else {
        NextState(b, n - 1);
        f, g := OneStep(b, s, f, g);
      }
    }
  }

  lemma {:induction false} Nothing(b: string, f: Form, g: Field)
    requires f.fields == []
    ensures Reads(b, INITIAL, f, g) && Knows(b, INITIAL, f, g)
  {
    hide RowOf, GuessMethod, MethodLookup;
  }

  lemma {:induction false} BodyReads(b: string, s: State, n: nat, f: Form, g: Field)
    requires s.level.Body? && Reads(b, s, f, g) && Knows(b, s, f, g)
    ensures Reads(b, s.(bodyReceived := n), f, g) && Knows(b, s.(bodyReceived := n), f, g)
  {
    hide Head, Filed;
    LineReadOnly(s, s.(bodyReceived := n), f);
  }

  /** A request that is acceptable as far as its head goes. */
  ghost predicate FormFine(f: Form) {
    && GoalFine(f) && FieldsOk(f.fields) && (f.digit == '0' || f.digit == '1')
    && Others(f.fields) <= 8 && Meaning(f.fields).Some?
    && (MethodLookup(GuessMethod(f.word[0], -1), f.word) in {POST, PUT} ==>
      exists k :: 0 <= k < |f.fields| && LowerAll(f.fields[k].name) == "content-length")
  }

  /** How long the body is to be. */
  function Size(f: Form): nat {
    match Meaning(f.fields)
    case Some(t) => if t.contentLength > 0 then t.contentLength else 0
    case None => 0
  }

  /** A complete request: its head, the blank line, and as many bytes as it announces. */
  ghost predicate CompleteAt(b: string, n: nat, f: Form)
    requires n <= |b|
  {
    var top := |Head(f)| + 2;
    FormFine(f) && n == top + Size(f) && b[..top] == Head(f) + CRLF
  }

  /** The body, if there is one, is the last part. */
  predicate Given(r: Request, n: nat, f: Form) {
    r.data == if Size(f) > 0 then Some(Span(n - Size(f), Size(f))) else None
  }

  lemma {:induction false} AcceptMeans(s: State, f: Form)
    requires Accept(s).Ok? && LineRead(s, f) && Filed(s.table, f.fields)
    ensures Accept(s) == Ok(s) && (f.digit == '0' || f.digit == '1')
    ensures s.req.verb == POST || s.req.verb == PUT ==>
      exists k :: 0 <= k < |f.fields| && LowerAll(f.fields[k].name) == "content-length"
  {
    hide RowOf, LowerAll, Meaning, GoalFine, Told;
    if s.req.verb == POST || s.req.verb == PUT {
      assert Listed(f.fields, CONTENT_LENGTH);
      var k :| 0 <= k < |f.fields| && RowOf(f.fields[k].name) == Some(CONTENT_LENGTH);
      NamedRows(f.fields[k].name);
    }
  }

  /**
   * Whatever the parser accepts is a request: a method word, a blank, a URI without line breaks, a
   * version 1.0 or 1.1, header lines that each say something acceptable, at most eight of them
   * unlisted, a Content-Length with POST and PUT, a blank line, and as many bytes as announced.  The
   * method, the URI, the query string and the data are found where they stand.
   */
  lemma {:induction false} Accepted(b: string, n: nat) returns (f: Form)
    requires 0 < n <= |b| && Bytewise(b, n - 1).Pending? && Bytewise(b, n).Ok?
    ensures var s := Bytewise(b, n).s; CompleteAt(b, n, f) && Told(s.req, f) && Given(s.req, n, f)
  {
    hide Bytewise, Run, Reads, Knows, Advance, Accept, Told, Given, CompleteAt;
    var g;
    f, g := ReadsUpto(b, n - 1);
    var s := Bytewise(b, n - 1).s;
    BytewiseInv(b, n - 1);
    ByteAccepted(b, n);
    if s.level.Body? {
      BodyAccepted(b, n, s, f, g);
    } else {
      HeadAccepted(b, s, f, g);
    }
  }

  lemma {:induction false} ByteAccepted(b: string, n: nat)
    requires 0 < n <= |b| && Bytewise(b, n - 1).Pending?
    ensures Bytewise(b, n) == Run(Bytewise(b, n - 1).s, b, n)
    ensures !Bytewise(b, n - 1).s.level.Body? ==>
      Bytewise(b, n - 1).s.i == n - 1 &&
      Bytewise(b, n) == match Advance(Bytewise(b, n - 1).s, b) case More(t) => Pending(t) case Return(r) => r
  {
    hide Run, Advance;
    if !Bytewise(b, n - 1).s.level.Body? {
      NextState(b, n - 1);
    }
  }

  lemma {:induction false} HeadAccepted(b: string, s: State, f: Form, g: Field)
    requires s.i < |b| && !s.level.Body? && Reads(b, s, f, g) && Knows(b, s, f, g)
    requires s.level.First? ==> f.fields == []
    requires Advance(s, b).Return? && Advance(s, b).r.Ok?
    ensures var r := Advance(s, b).r.s.req; CompleteAt(b, s.i + 1, f) && Told(r, f) && Given(r, s.i + 1, f)
  {
    hide CompleteAt, Head, LineRead, Filed, FieldsOk, Accept, Told, Given;
    HeadEnds(b, s, f, g);
    OneMore(b, s.start, s.i);
    assert b[..s.i + 1] == Head(f) + "\r" + "\n" == Head(f) + CRLF;
    AcceptMeans(s, f);
    Assembled(b, s.i + 1, s, s, f);
  }

  lemma {:induction false} HeadEnds(b: string, s: State, f: Form, g: Field)
    requires s.i < |b| && !s.level.Body? && Reads(b, s, f, g) && Knows(b, s, f, g)
    requires s.level.First? ==> f.fields == []
    requires Advance(s, b).Return? && Advance(s, b).r.Ok?
    ensures Advance(s, b).r == Accept(s) && b[s.i] == '\n' && b[..s.i] == Head(f) + "\r" && s.table.contentLength <= 0
    ensures LineRead(s, f) && FieldsOk(f.fields)
  {
    hide RowOf, Head, GoalFine, Told, Version, Window, HeaderLookup, MethodLookup, GuessMethod, Accept, Free;
    assert f.fields == [] ==> Meaning(f.fields) == Some(INITIAL.table);
  }

  lemma {:induction false} Assembled(b: string, n: nat, s: State, t: State, f: Form)
    requires n <= |b| && LineRead(s, f) && FieldsOk(f.fields) && Filed(s.table, f.fields) && Accept(t) == Ok(t)
    requires t.req == s.req.(data := t.req.data) && t.table == s.table
    requires f.digit == '0' || f.digit == '1'
    requires s.req.verb == POST || s.req.verb == PUT ==>
      exists k :: 0 <= k < |f.fields| && LowerAll(f.fields[k].name) == "content-length"
    requires var size, top := s.table.contentLength, |Head(f)| + 2;
      && n == top + (if size > 0 then size else 0) && b[..top] == Head(f) + CRLF
      && t.req.data == (if size > 0 then Some(Span(top, size)) else None)
    ensures CompleteAt(b, n, f) && Told(t.req, f) && Given(t.req, n, f)
  {
    hide RowOf, LowerAll, Head, Meaning, Others, Listed, Version, Accept, FieldOk, Free;
  }

  lemma {:induction false} BodyAccepted(b: string, n: nat, s: State, f: Form, g: Field)
    requires 0 < n <= |b| && s.level.Body? && Inv(s, n - 1) && Reads(b, s, f, g) && Knows(b, s, f, g)
    requires Run(s, b, n).Ok?
    ensures var r := Run(s, b, n).s.req; CompleteAt(b, n, f) && Told(r, f) && Given(r, n, f)
  {
    hide CompleteAt, Head, Filed, FieldsOk, Accept, Run, LineRead, Told, Given;
    BodyCall(s, b, n);
    var size := s.table.contentLength;
    var t := s.(bodyReceived := size, i := s.i + size, req := s.req.(data := Some(Span(s.start, size))));
    assert n - s.start == size && Run(s, b, n) == Accept(t);
    DataOnly(s, t, f);
    AcceptMeans(t, f);
    assert |b[..s.i]| == s.i == |Head(f)| + 2;
    Assembled(b, n, s, t, f);
  }

  lemma {:induction false} DataOnly(s: State, t: State, f: Form)
    requires LineRead(s, f) && t.req == s.req.(data := t.req.data)
    ensures LineRead(t, f)
  {
  }

  // ------------------------------------------------------- method words

  lemma {:induction false} PrefixIs(a: string, name: string)
    requires Free(a, "\0")
    ensures StrncmpEq(a, name) <==> a <= name
    decreases a
  {
    if a != "" {
      PrefixIs(a[1..], if name == "" then "" else name[1..]);
      if name != "" && a[0] == name[0] {
        assert a[1..] <= name[1..] <==> a <= name;
      }
    }
  }

  lemma {:induction false} ScanIs(w: string, i: nat, v: nat)
    requires Free(w, "\0") && v < |METHODS| && i <= |METHODS|
    ensures ScanMethods(w, i) == v <==> i <= v && w == METHODS[v]
    decreases |METHODS| - i
  {
    hide METHODS;
    if i < |METHODS| {
      PrefixIs(w, METHODS[i]);
      ScanIs(w, i + 1, v);
      if w == METHODS[i] && w == METHODS[v] {
        MethodsDiffer(i, v);
      }
    } else {
      MethodCount();
    }
  }

  lemma {:induction false} MethodsDiffer(i: nat, j: nat)
    requires i < |METHODS| && j < |METHODS| && METHODS[i] == METHODS[j]
    ensures i == j
  {
  }

  lemma {:induction false} MethodCount()
    ensures |METHODS| == 6
  {
  }

  /** PUT is recognised by its whole word, and each other method by any beginning of at least two letters. */
  lemma {:induction false} WordMeans(w: string, v: nat)
    requires |w| >= 2 && Free(w, "\0") && v < |METHODS|
    ensures MethodLookup(GuessMethod(w[0], -1), w) == v <==>
      match v
      case 0 => w <= "GET"
      case 1 => w <= "POST"
      case 2 => w <= "HEAD"
      case 3 => w == "PUT"
      case 4 => w <= "DELETE"
      case _ => w <= "OPTIONS"
  {
    var g := GuessMethod(w[0], -1);
    ScanIs(w, 0, v);
    if 0 <= g < |METHODS| {
      PrefixIs(w[1..], METHODS[g][1..]);
      Beginning(w, METHODS[g]);
    }
  }

  lemma {:induction false} Beginning(w: string, name: string)
    requires w != "" && name != ""
    ensures w <= name <==> w[0] == name[0] && w[1..] <= name[1..]
  {
    if w[0] == name[0] && w[1..] <= name[1..] {
      assert w == [w[0]] + w[1..] && name == [name[0]] + name[1..];
    }
  }
}

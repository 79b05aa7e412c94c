/** Exactly the requests of the grammar are accepted. */
module HttpLanguage {
  import opened Wrappers
  import opened HttpSyntax
  import opened HttpParser
  import opened HttpSegments
  import opened HttpPrinter
  import opened HttpRoundTrip
  import opened HttpFrame
  import opened HttpReads
  import opened HttpGrammar
  import opened Texts

  // ----------------------------------------------------- the request line

  /** From the word to the version. */
  lemma {:induction false} GoalPhase(f: Form, b: string) returns (s: State)
    requires GoalFine(f) && Placed(b, 0, Goal(f))
    ensures Reached(b, s) && s.level.First? && s.status.ReqVersion? && s.start == s.i == |Goal(f)|
    ensures s.table == INITIAL.table && s.req.verb == MethodLookup(GuessMethod(f.word[0], -1), f.word)
    ensures s.req.data == None
  {
    hide MethodLookup, GuessMethod, Reached, Placed, Free;
    var w, u := f.word + " ", f.uri;
    var t := AfterWord(f.word);
    if f.query.Some? {
      var q := f.query.value;
      assert Goal(f) == w + ((u + "?") + (q + " "));
      PlacedSplit(b, 0, w, (u + "?") + (q + " "));
      PlacedSplit(b, |w|, u + "?", q + " ");
      WordPhase(f.word, b);
      UriPhase(t, u, '?', b);
      var v := Past(t, t.i + |u|, ReqQuery, t.req.(uri := Some(Span(t.i, |u|))));
      QueryPhase(v, q, b);
      s := Past(v, v.i + |q|, ReqVersion, v.req.(query := Some(Span(v.i, |q|))));
    } else {
      assert Goal(f) == w + (u + " ");
      PlacedSplit(b, 0, w, u + " ");
      WordPhase(f.word, b);
      UriPhase(t, u, ' ', b);
      s := Past(t, t.i + |u|, ReqVersion, t.req.(uri := Some(Span(t.i, |u|))));
    }
  }

  lemma {:induction false} VersionStands(b: string, o: nat, digit: char)
    requires Placed(b, o, "HTTP/1." + [digit] + CRLF)
    ensures o + 10 <= |b| && Slice(b, o, o + 7) == "HTTP/1." && b[o + 7] == digit
    ensures b[o + 8] == '\r' && b[o + 9] == '\n'
  {
    var text := "HTTP/1." + [digit] + CRLF;
    forall k | 0 <= k < 10
      ensures b[o + k] == text[k]
    {
      PlacedAt(b, o, text, k);
    }
    assert Slice(b, o, o + 7) == text[..7] == "HTTP/1.";
    assert text[8] == CRLF[0] && text[9] == CRLF[1];
  }

  lemma {:induction false} FirstPhase(f: Form, b: string) returns (s: State)
    requires GoalFine(f) && Placed(b, 0, FirstText(f))
    ensures Reached(b, s) && AtLine(s) && s.level.Continue? && s.i == |FirstText(f)|
    ensures s.table == INITIAL.table && s.req.verb == MethodLookup(GuessMethod(f.word[0], -1), f.word)
    ensures s.req.protocol == Version(f.digit) && s.req.data == None
  {
    hide MethodLookup, GuessMethod, Reached, Placed, GoalFine, Goal, Slice, Version;
    assert FirstText(f) == Goal(f) + ("HTTP/1." + [f.digit] + CRLF);
    PlacedSplit(b, 0, Goal(f), "HTTP/1." + [f.digit] + CRLF);
    var t := GoalPhase(f, b);
    VersionStands(b, t.i, f.digit);
    PlainBytes(t, b, t.i + 7);
    VersionSteps(t, Counted(t, t.i + 7), Version(f.digit), b);
    s := t.(i := t.i + 10, level := Continue, status := FirstFinalizing, chars := t.chars + 10, start := t.i + 10,
            req := t.req.(protocolP := Span(t.i, 8), protocol := Version(f.digit)));
  }

  // ------------------------------------------------------ the header lines

  /** A field that says something acceptable is taken. */
  lemma {:induction false} LookupTakes(b: string, s: State, fs: seq<Field>, g: Field)
    requires Filed(s.table, fs) && g.name != "" && Slice(b, s.key, s.sep) == g.name && Slice(b, s.val, s.end) == g.text
    requires s.min == Window(g.name[0]).0 && s.max == Window(g.name[0]).1
    requires Meaning(fs + [g]).Some? && Others(fs + [g]) <= 8
    ensures HeaderLookup(s, b).Accepted?
  {
    hide RowOf, FindRow, Window, RowEffect, Slice, LowerAll, Listed, HEADERS;
    WindowIsFullScan(g.name);
    var gs := fs + [g];
    assert gs[..|gs| - 1] == fs && gs[|gs| - 1] == g;
    if RowOf(g.name).Some? {
      EffectOnly(RowOf(g.name).value, s.table, Meaning(fs).value, g.text);
    }
  }

  lemma {:induction false} LineStands(b: string, o: nat, g: Field)
    requires Placed(b, o, FieldLine(g))
    ensures var v := o + |g.name| + 1 + g.pad;
      && Placed(b, o, g.name + ":") && Placed(b, o, g.name)
      && Placed(b, o + |g.name| + 1, Blanks(g.pad) + (g.text + CRLF))
      && Placed(b, v, g.text) && Placed(b, v + |g.text|, CRLF)
  {
    hide Placed;
    var blanks := Blanks(g.pad);
    assert FieldLine(g) == g.name + ":" + (blanks + (g.text + CRLF));
    PlacedSplit(b, o, g.name + ":", blanks + (g.text + CRLF));
    PlacedSplit(b, o, g.name, ":");
    PlacedSplit(b, o + |g.name| + 1, blanks, g.text + CRLF);
    PlacedSplit(b, o + |g.name| + 1 + |blanks|, g.text, CRLF);
  }

  lemma {:induction false} FieldPhase(s: State, fs: seq<Field>, g: Field, b: string) returns (t: State)
    requires Reached(b, s) && AtLine(s) && FieldOk(g) && Filed(s.table, fs) && Placed(b, s.i, FieldLine(g))
    requires Meaning(fs + [g]).Some? && Others(fs + [g]) <= 8
    ensures Reached(b, t) && AtLine(t) && t.level.Headers?
    ensures t.i == s.i + |FieldLine(g)| && t.req == s.req && Filed(t.table, fs + [g])
  {
    hide Reached, HeaderLookup, Window, Placed, Free, Meaning, Others, Filed, RowOf;
    var o, n, f := s.i, |g.name|, g.text;
    LineStands(b, o, g);
    KeyPhase(s, g.name, b);
    var u := Within(s, g.name, HeaderValue, o + n + 1).(chars := 0, start := o + n + 1, end := o + n, sep := o + n);
    ValuePhase(u, g.pad, f, b);
    var v := o + n + 1 + g.pad;
    var w := u.(i := v + |f|, status := HeaderValStarts, chars := u.chars + (v + |f| - u.i), start := v, val := v);
    SliceStands(b, o, g.name);
    SliceStands(b, v, f);
    LookupTakes(b, MarkEnd(w), fs, g);
    FiledMore(b, MarkEnd(w), fs, g);
    var e := HeaderLookup(MarkEnd(w), b);
    LinePhase(w, b, e.t, e.valLen);
    t := w.(i := w.i + 2, status := HeaderKey, chars := 0, start := w.i + 2, end := w.i, table := e.t);
  }

  lemma {:induction false} SliceStands(b: string, o: nat, text: string)
    requires Placed(b, o, text)
    ensures Slice(b, o, o + |text|) == text
  {
  }

  lemma {:induction false} MeaningBefore(fs: seq<Field>)
    requires fs != [] && Meaning(fs).Some?
    ensures Meaning(fs[..|fs| - 1]).Some? && Others(fs[..|fs| - 1]) <= Others(fs)
  {
    hide RowOf, RowEffect;
  }

  lemma {:induction false} FieldsPhase(s: State, fs: seq<Field>, b: string) returns (t: State)
    requires Reached(b, s) && AtLine(s) && s.level.Continue? && FieldsOk(fs) && Filed(s.table, [])
    requires Placed(b, s.i, FieldLines(fs)) && Meaning(fs).Some? && Others(fs) <= 8
    ensures Reached(b, t) && AtLine(t) && (t.level.Continue? <==> fs == [])
    ensures t.i == s.i + |FieldLines(fs)| && t.req == s.req && Filed(t.table, fs)
    decreases fs
  {
    hide Reached, Placed, FieldOk, Meaning, Others, Filed;
    t := s;
    if fs != [] {
      var front, g := fs[..|fs| - 1], fs[|fs| - 1];
      MeaningBefore(fs);
      PlacedSplit(b, s.i, FieldLines(front), FieldLine(g));
      assert front + [g] == fs;
      t := FieldsPhase(s, front, b);
      t := FieldPhase(t, front, g, b);
    }
  }

  // ------------------------------------------------------- whole requests

  lemma {:induction false} HeadPhase(f: Form, b: string) returns (t: State)
    requires FormFine(f) && Placed(b, 0, Head(f))
    ensures Reached(b, t) && AtLine(t) && (t.level.Continue? <==> f.fields == []) && t.i == |Head(f)|
    ensures t.req.verb == MethodLookup(GuessMethod(f.word[0], -1), f.word) && t.req.protocol == Version(f.digit)
    ensures Filed(t.table, f.fields) && t.req.data == None
  {
    hide Reached, Placed, FieldsOk, Meaning, Others, MethodLookup, GuessMethod, Version, FirstText;
    PlacedSplit(b, 0, FirstText(f), FieldLines(f.fields));
    var s := FirstPhase(f, b);
    EmptyFiled(s.table);
    t := FieldsPhase(s, f.fields, b);
  }

  lemma {:induction false} EmptyFiled(t: Table)
    requires t == INITIAL.table
    ensures Filed(t, [])
  {
    hide RowOf;
  }

  /** Every request of the grammar is accepted, with its last byte. */
  lemma {:induction false} FormAccepted(b: string, n: nat, f: Form)
    requires n <= |b| && CompleteAt(b, n, f)
    ensures 0 < n && Bytewise(b, n - 1).Pending? && Bytewise(b, n).Ok?
  {
    hide Bytewise, Head, Filed, FormFine, Size, Accept, Finished;
    var c, top := b[..n], |Head(f)| + 2;
    assert c[..top] == b[..top] && Placed(c, 0, Head(f) + CRLF);
    PlacedSplit(c, 0, Head(f), CRLF);
    var t := HeadPhase(f, c);
    var body := c[top..];
    SizeIs(t, f);
    EndPhase(t, body, c);
    FinishedFine(t, body, f);
    assert b[..n - 1] == c[..n - 1] && c[..n] == c;
    BytewiseGrows(c, b, n - 1);
    BytewiseGrows(c, b, n);
  }

  lemma {:induction false} SizeIs(t: State, f: Form)
    requires FormFine(f) && Filed(t.table, f.fields)
    ensures Size(f) == if t.table.contentLength > 0 then t.table.contentLength else 0
    ensures f.fields == [] ==> Size(f) == 0
  {
    hide RowOf, Listed, Others, FieldsOk, GoalFine, LowerAll;
  }

  lemma {:induction false} FinishedFine(t: State, body: string, f: Form)
    requires FormFine(f) && Filed(t.table, f.fields) && t.req.protocol == Version(f.digit)
    requires t.req.verb == MethodLookup(GuessMethod(f.word[0], -1), f.word)
    ensures Accept(Finished(t, body)).Ok?
  {
    hide RowOf, Meaning, Others, FieldsOk, GoalFine, LowerAll, MethodLookup, GuessMethod;
    if t.req.verb == POST || t.req.verb == PUT {
      var k :| 0 <= k < |f.fields| && LowerAll(f.fields[k].name) == "content-length";
      NamedRows(f.fields[k].name);
      assert Listed(f.fields, CONTENT_LENGTH);
    }
  }

  /** The parser accepts exactly the complete requests of the grammar, at their last byte. */
  lemma {:induction false} Language(b: string, n: nat)
    requires 0 < n <= |b|
    ensures Bytewise(b, n - 1).Pending? && Bytewise(b, n).Ok? <==> exists f :: CompleteAt(b, n, f)
  {
    hide Bytewise, CompleteAt, Told, Given;
    if Bytewise(b, n - 1).Pending? && Bytewise(b, n).Ok? {
      var f := HttpGrammar.Accepted(b, n);
    }
    if f :| CompleteAt(b, n, f) {
      FormAccepted(b, n, f);
    }
  }
}

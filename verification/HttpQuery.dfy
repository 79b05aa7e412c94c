/** When the search for the end of the query string makes reads matter. */
module HttpQuery {
  import opened Wrappers
  import opened HttpSyntax
  import opened HttpParser
  import opened HttpSegments
  import opened HttpPrinter
  import opened Texts
  import opened HttpRoundTrip
  import opened HttpFrame

  predicate Early(s: State) {
    s.level.First? && (s.status.ReqMethod? || s.status.ReqUri?)
  }

  lemma {:induction false} EarlyBefore(b: string, k: nat)
    requires k < |b| && Bytewise(b, k + 1).Pending?
    requires var s := Bytewise(b, k + 1).s;
      Early(s) || (s.level.First? && s.status.ReqQuery? && s.start == s.i == k + 1)
    ensures Bytewise(b, k).Pending? && Early(Bytewise(b, k).s)
  {
    hide Run, Bytewise;
    PendingBefore(b, k, k + 1);
    BytewiseInv(b, k);
    var s := Bytewise(b, k).s;
    if s.level.Body? {
      BodyStays(b, k);
    } else {
      NextState(b, k);
      EarlyStep(s, b);
    }
  }

  lemma {:induction false} BodyStays(b: string, k: nat)
    requires k < |b| && Bytewise(b, k + 1).Pending? && Bytewise(b, k).Pending? && Bytewise(b, k).s.level.Body?
    ensures Bytewise(b, k + 1).s.level.Body?
  {
    hide Run, Advance;
    BodyReaches(b, k, k + 1);
  }

  lemma {:induction false} EarlyStep(s: State, b: string)
    requires s.i < |b| && !s.level.Body? && Advance(s, b).More? && Inv(s, s.i)
    requires var t := Advance(s, b).s; Early(t) || (t.level.First? && t.status.ReqQuery? && t.start == t.i)
    ensures Early(s)
  {
    hide HeaderLookup, MethodLookup, Slice, Window, GuessMethod, Version;
  }

  /** Up to the query string no byte is skipped. */
  lemma {:induction false} RunThrough(b: string, k: nat, n: nat)
    requires k <= n <= |b| && Bytewise(b, k).Pending?
    requires var s := Bytewise(b, k).s; Early(s) || (s.level.First? && s.status.ReqQuery? && s.start == s.i == k)
    ensures Run(INITIAL, b, n) == Run(Bytewise(b, k).s, b, n)
    decreases k
  {
    hide Advance, Bytewise;
    if k > 0 {
      EarlyBefore(b, k - 1);
      RunThrough(b, k - 1, n);
      NextState(b, k - 1);
      assert Iterate(Bytewise(b, k - 1).s, b, n) == Advance(Bytewise(b, k - 1).s, b);
    } else {
      Begins(b);
    }
  }

  /** The state at the first byte of the query string. */
  lemma {:induction false} ToQuery(m: Message, q: string, rest: string) returns (s: State)
    requires m.verb < |METHODS| && Free(m.uri, " ?\r\n") && m.query == Some(q)
    ensures var b := Print(m) + rest; Reached(b, s) && Placed(b, s.i, q + " ")
    ensures s == Past(AfterMethod(m.verb), AfterMethod(m.verb).i + |m.uri|, ReqQuery,
                      AfterMethod(m.verb).req.(uri := Some(Span(AfterMethod(m.verb).i, |m.uri|))))
  {
    hide Reached, VersionText, Lines, GuessMethod;
    var b := Print(m) + rest;
    assert b[..|Print(m)|] == Print(m);
    PartsPlaced(m, b);
    MethodPhase(m.verb, b);
    var u := AfterMethod(m.verb);
    assert Target(m) + " " == (m.uri + "?") + (q + " ");
    PlacedSplit(b, u.i, m.uri + "?", q + " ");
    UriPhase(u, m.uri, '?', b);
    s := Past(u, u.i + |m.uri|, ReqQuery, u.req.(uri := Some(Span(u.i, |m.uri|))));
  }

  /** From there a single call goes straight to the blank behind it. */
  lemma {:induction false} JumpsQuery(s: State, q: string, b: string)
    requires Reached(b, s) && s.level.First? && s.status.ReqQuery? && s.start == s.i && Free(q, " ") &&
      Placed(b, s.i, q + " ")
    ensures Run(INITIAL, b, |b|) == Run(Past(s, s.i + |q|, ReqVersion, s.req.(query := Some(Span(s.i, |q|)))), b, |b|)
  {
    hide Reached, Bytewise;
    assert Bytewise(b, s.i) == Pending(s) by { AtState(b, s); }
    RunThrough(b, s.i, |b|);
    var j := s.i + |q|;
    PlacedSplit(b, s.i, q, " ");
    PlacedAt(b, j, " ", 0);
    forall k | s.i <= k < j
      ensures b[k] != ' '
    {
      PlacedAt(b, s.i, q, k - s.i);
    }
    assert CharLookup(b, ' ', s.i, |b|) == j;
    assert Iterate(s, b, |b|) == More(Past(s, j, ReqVersion, s.req.(query := Some(Span(s.i, |q|)))));
  }

  lemma {:induction false} AtState(b: string, s: State)
    requires Reached(b, s)
    ensures Bytewise(b, s.i) == Pending(s)
  {
  }

  /** Read byte by byte, a line break in the query string is an error. */
  lemma {:induction false} BreakFails(s: State, q: string, b: string, k: nat)
    requires Reached(b, s) && s.level.First? && s.status.ReqQuery? && s.start == s.i && Placed(b, s.i, q)
    requires k < |q| && q[k] in "\r\n" && Free(q[..k], " \r\n")
    ensures Bytewise(b, s.i + k + 1) == Error(BAD_REQUEST)
  {
    hide Reached, Bytewise;
    var j := s.i + k;
    forall i | s.i <= i < j
      ensures Plain(Counted(s, i), b[i])
    {
      PlacedAt(b, s.i, q, i - s.i);
      assert q[..k][i - s.i] == b[i];
    }
    PlainBytes(s, b, j);
    PlacedAt(b, s.i, q, k);
    AtState(b, Counted(s, j));
    NextState(b, j);
  }

  lemma {:induction false} DecidedStays(b: string, m: nat, n: nat)
    requires m <= n <= |b| && !Bytewise(b, m).Pending?
    ensures Bytewise(b, n) == Bytewise(b, m)
    decreases n
  {
    hide Run;
    if m < n {
      DecidedStays(b, m, n - 1);
    }
  }

  lemma {:induction false} FirstBreak(q: string) returns (k: nat)
    requires Free(q, " ") && !Free(q, "\r\n")
    ensures k < |q| && q[k] in "\r\n" && Free(q[..k], " \r\n")
    decreases q
  {
    if q[0] in "\r\n" {
      return 0;
    }
    k := FirstBreak(q[1..]);
    k := k + 1;
    assert forall i :: 1 <= i < k ==> q[..k][i] == q[1..][..k - 1][i - 1];
  }

  function Harmless(q: string): string {
    seq(|q|, _ => 'x')
  }

  /** A change of the query string to another of its length leaves the bytes from `d` on. */
  lemma {:induction false} SamePrinted(m: Message, q: string, p: string, rest: string, d: nat)
    requires m.verb < |METHODS| && |p| == |q| && d == |METHODS[m.verb]| + |m.uri| + |q| + 3
    ensures SameFrom(Print(m.(query := Some(q))) + rest, Print(m.(query := Some(p))) + rest, d)
  {
    hide Lines;
    var head := METHODS[m.verb] + (" " + (m.uri + "?"));
    var tail := VersionText(m) + (CRLF + (Lines(m.headers) + (CRLF + m.body))) + rest;
    PrintedAs(m.(query := Some(q)), q, rest, head, tail);
    PrintedAs(m.(query := Some(p)), p, rest, head, tail);
    assert |head + q + " "| == d == |head + p + " "|;
  }

  lemma {:induction false} PrintedAs(m: Message, q: string, rest: string, head: string, tail: string)
    requires m.verb < |METHODS| && m.query == Some(q)
    requires head == METHODS[m.verb] + (" " + (m.uri + "?"))
    requires tail == VersionText(m) + (CRLF + (Lines(m.headers) + (CRLF + m.body))) + rest
    ensures Print(m) + rest == head + q + " " + tail
  {
    hide VersionText, Lines;
    Ungroup(METHODS[m.verb], " ", m.uri, "?", q, " ", VersionText(m) + (CRLF + (Lines(m.headers) + (CRLF + m.body))),
      rest);
  }

  lemma {:induction false} Ungroup(a: string, b: string, c: string, d: string, e: string, f: string, g: string,
      h: string)
    ensures a + (b + ((c + (d + e)) + (f + g))) + h == a + (b + (c + d)) + e + f + (g + h)
  {
  }

  lemma {:induction false} QueryStands(s: State, q: string, b: string)
    requires Placed(b, s.i, q + " ")
    ensures Placed(b, s.i, q)
  {
    PlacedSplit(b, s.i, q, " ");
  }

  /** A single call on a well-formed request gives what byte by byte gives. */
  lemma {:induction false} SingleCall(m: Message, rest: string)
    requires WellFormed(m) && (m.body != "" ==> rest == "")
    ensures var b := Print(m) + rest; Run(INITIAL, b, |b|).Ok? && Bytewise(b, |b|) == Run(INITIAL, b, |b|)
  {
    hide Bytewise, Print, Run, Parsed, Reached;
    RoundTrip(m, rest);
    CallComplete(m, Print(m) + rest, |Print(m)|);
  }

  lemma {:induction false} CallComplete(m: Message, b: string, n: nat)
    requires m.verb < |METHODS| && Complete(b, n, m)
    ensures Run(INITIAL, b, |b|) == Bytewise(b, n) == Bytewise(b, |b|)
  {
    hide Bytewise, Run, Parsed, Reached;
    Begins(b);
    AtState(b, INITIAL);
    RunEnds(b, 0, n, |b|);
    DecidedStays(b, n, |b|);
  }

  lemma {:induction false} SameRun(m: Message, q: string, rest: string)
    requires m.verb < |METHODS| && Free(m.uri, " ?\r\n") && Free(q, " ")
    ensures var b := Print(m.(query := Some(q))) + rest; var c := Print(m.(query := Some(Harmless(q)))) + rest;
      Run(INITIAL, b, |b|) == Run(INITIAL, c, |c|)
  {
    hide Reached, Bytewise, Print, Run, SameFrom, GuessMethod;
    var x := Harmless(q);
    var b, c := Print(m.(query := Some(q))) + rest, Print(m.(query := Some(x))) + rest;
    var s := ToQuery(m.(query := Some(q)), q, rest);
    var t := ToQuery(m.(query := Some(x)), x, rest);
    assert s == t;
    JumpsQuery(s, q, b);
    JumpsQuery(s, x, c);
    var u := Past(s, s.i + |q|, ReqVersion, s.req.(query := Some(Span(s.i, |q|))));
    SamePrinted(m, q, x, rest, u.i);
    SameLength(b, c, u.i);
    RunFrom(u, b, c, u.i, |b|);
  }

  /**
   * A single call accepts any query string without a blank, line breaks included, and reports
   * the same as for a harmless one of that length; reading byte by byte gives the same result
   * exactly if there is no line break in the query string.
   */
  lemma {:induction false} QueryBreaks(m: Message, q: string, rest: string)
    requires WellFormed(m.(query := Some(Harmless(q)))) && Free(q, " ") && (m.body != "" ==> rest == "")
    ensures var b := Print(m.(query := Some(q))) + rest; var c := Print(m.(query := Some(Harmless(q)))) + rest;
      && Run(INITIAL, b, |b|) == Run(INITIAL, c, |c|) && Run(INITIAL, b, |b|).Ok?
      && (Bytewise(b, |b|) == Run(INITIAL, b, |b|) <==> Free(q, "\r\n"))
      && (!Free(q, "\r\n") ==> Bytewise(b, |b|) == Error(400))
  {
    hide Reached, Bytewise, Print, Run, HeadersFine, SameFrom, GuessMethod, Parsed;
    var mq, mx := m.(query := Some(q)), m.(query := Some(Harmless(q)));
    SingleCall(mx, rest);
    SameRun(m, q, rest);
    if Free(q, "\r\n") {
      SingleCall(mq, rest);
    } else {
      var b := Print(mq) + rest;
      var s := ToQuery(mq, q, rest);
      var k := FirstBreak(q);
      QueryStands(s, q, b);
      BreakFails(s, q, b, k);
      DecidedStays(b, s.i + k + 1, |b|);
    }
  }
}

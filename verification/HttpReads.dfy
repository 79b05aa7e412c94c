/** Many calls of the parser on one buffer, which every call may change. */
module HttpReads {
  import opened Wrappers
  import opened HttpSyntax
  import HP = HttpParser
  import opened HttpSegments
  import opened HttpPrinter
  import opened HttpRoundTrip
  import opened HttpFrame
  import opened HttpMachine

  // ------------------------------------------------ states between calls

  lemma {:induction false} RunSane(s: HP.State, b: string, len: nat)
    requires len <= |b| && Sane(s)
    ensures var r := HP.Run(s, b, len); r.Pending? ==> Sane(r.s)
    decreases len - s.i
  {
    hide HP.Iterate, Sane;
    if s.i < len {
      var o := HP.Iterate(s, b, len);
      if o.More? {
        IterateSane(s, b, len);
        IterateMoves(s, b, len);
        RunSane(o.s, b, len);
      } else {
        PendingSane(s, b, len);
      }
    }
  }

  lemma {:induction false} PiecewiseSane(b: string, cuts: seq<nat>)
    requires forall k :: 0 <= k < |cuts| ==> cuts[k] <= |b|
    ensures Piecewise(b, cuts).Pending? ==> Sane(Piecewise(b, cuts).s)
    decreases cuts
  {
    hide HP.Run, Sane;
    if cuts == [] {
      SaneAtFirst();
    } else {
      PiecewiseSane(b, cuts[..|cuts| - 1]);
      var r := Piecewise(b, cuts[..|cuts| - 1]);
      if r.Pending? {
        RunSane(r.s, b, cuts[|cuts| - 1]);
      }
    }
  }

  lemma {:induction false} SaneAtFirst()
    ensures Sane(HP.INITIAL) && Clean(HP.INITIAL, 0)
  {
  }

  /** What was decided does not depend on bytes that arrive later. */
  lemma {:induction false} PiecewiseGrows(b: string, more: string, cuts: seq<nat>)
    requires forall k :: 0 <= k < |cuts| ==> cuts[k] <= |b|
    ensures Piecewise(b + more, cuts) == Piecewise(b, cuts)
    decreases cuts
  {
    hide HP.Run, Sane;
    if cuts != [] {
      var before, last := cuts[..|cuts| - 1], cuts[|cuts| - 1];
      PiecewiseGrows(b, more, before);
      var r := Piecewise(b, before);
      if r.Pending? {
        PiecewiseSane(b, before);
        assert (b + more)[..last] == b[..last];
        RunUpto(r.s, b, b + more, last);
      }
    }
  }

  lemma {:induction false} BytewiseSane(b: string, n: nat)
    requires n <= |b|
    ensures Bytewise(b, n).Pending? ==> Sane(Bytewise(b, n).s)
    decreases n
  {
    hide HP.Run, Sane;
    if n == 0 {
      SaneAtFirst();
    } else {
      BytewiseSane(b, n - 1);
      if Bytewise(b, n - 1).Pending? {
        RunSane(Bytewise(b, n - 1).s, b, n);
      }
    }
  }

  lemma {:induction false} BytewiseGrows(b: string, c: string, n: nat)
    requires n <= |b| && n <= |c| && b[..n] == c[..n]
    ensures Bytewise(b, n) == Bytewise(c, n)
    decreases n
  {
    hide HP.Run, Sane;
    if n > 0 {
      assert b[..n - 1] == b[..n][..n - 1] && c[..n - 1] == c[..n][..n - 1];
      BytewiseGrows(b, c, n - 1);
      if Bytewise(b, n - 1).Pending? {
        BytewiseSane(b, n - 1);
        RunUpto(Bytewise(b, n - 1).s, b, c, n);
      }
    }
  }

  /** Once a call has decided, the others are not made. */
  lemma {:induction false} PiecewiseStays(b: string, cuts: seq<nat>, k: nat)
    requires k <= |cuts| && (forall j :: 0 <= j < |cuts| ==> cuts[j] <= |b|) && !Piecewise(b, cuts[..k]).Pending?
    ensures Piecewise(b, cuts) == Piecewise(b, cuts[..k])
    decreases |cuts|
  {
    hide HP.Run;
    if k < |cuts| {
      assert cuts[..|cuts| - 1][..k] == cuts[..k];
      PiecewiseStays(b, cuts[..|cuts| - 1], k);
    } else {
      assert cuts[..k] == cuts;
    }
  }

  lemma {:induction false} PieceNext(b: string, cuts: seq<nat>, k: nat)
    requires k < |cuts| && (forall j :: 0 <= j < |cuts| ==> cuts[j] <= |b|) && Piecewise(b, cuts[..k]).Pending?
    ensures Piecewise(b, cuts[..k + 1]) == HP.Run(Piecewise(b, cuts[..k]).s, b, cuts[k])
  {
    hide HP.Run;
    assert cuts[..k + 1][..k] == cuts[..k];
  }

  // ------------------------------------------------------- the machine

  /** The parser's verdict and state are those of a result. */
  ghost predicate Tells(v: Verdict, s: HP.State, r: HP.Result) {
    match r
    case Pending(t) => v == PENDING && s == t
    case Ok(t) => v == OK && s == t
    case Error(c) => v == ERROR(c)
  }

  /**
   * A call whenever the buffer has grown to the next cut, until one decides.  Although each call
   * works on the bytes as the calls before have left them, the result and all positions are those
   * of the bytes as they arrived.
   */
  method ParseAll(p: Parser, buf: array<char>, cuts: seq<nat>) returns (v: Verdict, calls: nat)
    requires p.View() == HP.INITIAL && forall k :: 0 <= k < |cuts| ==> cuts[k] <= buf.Length
    modifies p, buf
    ensures Tells(v, p.View(), Piecewise(old(buf[..]), cuts))
    ensures calls <= |cuts| && forall k :: 0 <= k < calls ==> Piecewise(old(buf[..]), cuts[..k]).Pending?
    ensures calls < |cuts| ==> !Piecewise(old(buf[..]), cuts[..calls]).Pending?
    ensures LowerAll(buf[..]) == LowerAll(old(buf[..])) && Spelled(p.extra, buf[..])
  {
    hide Sane, Clean, Spelled, SameFrom, LowerAll, HP.Run, Piecewise;
    ghost var b := buf[..];
    ghost var d := 0;
    Starts(b);
    v, calls := PENDING, 0;
    assert p.extra == p.View().table.extra;
    while calls < |cuts| && v.PENDING?
      invariant calls <= |cuts| && cuts[..calls] <= cuts
      invariant Tells(v, p.View(), Piecewise(b, cuts[..calls]))
      invariant v.PENDING? ==> Sane(p.View()) && Clean(p.View(), d) && SameFrom(b, buf[..], d)
      invariant Spelled(p.extra, buf[..]) && LowerAll(buf[..]) == LowerAll(b)
      invariant forall k :: 0 <= k < calls ==> Piecewise(b, cuts[..k]).Pending?
      decreases |cuts| - calls
    {
      ghost var c, d0 := buf[..], d;
      PieceNext(b, cuts, calls);
      SameLength(b, c, d);
      RunFrom(p.View(), b, c, d, cuts[calls]);
      v, d := p.Parse(buf, cuts[calls], d0);
      if v.PENDING? {
        SameChain(b, c, buf[..], d0, d, d);
      }
      calls := calls + 1;
    }
    if v.PENDING? {
      assert cuts[..calls] == cuts;
    } else {
      PiecewiseStays(b, cuts, calls);
    }
  }

  lemma {:induction false} Starts(b: string)
    ensures Sane(HP.INITIAL) && Clean(HP.INITIAL, 0) && SameFrom(b, b, 0) && Spelled([], b)
    ensures Piecewise(b, []) == HP.Pending(HP.INITIAL)
  {
  }

  /**
   * The parser on a well-formed request, whatever the reads: all calls but the last return PENDING,
   * and the last, which sees the last byte, returns OK with every field as it was printed.
   */
  method ParseRequest(p: Parser, buf: array<char>, ghost m: Message, ghost rest: string, cuts: seq<nat>)
      returns (v: Verdict, calls: nat)
    requires p.View() == HP.INITIAL && WellFormed(m) && (m.body != "" ==> rest == "") && buf[..] == Print(m) + rest
    requires cuts != [] && Increasing(cuts, Print(m) + rest) && Seen(cuts[..|cuts| - 1]) < |Print(m)| <= Seen(cuts)
    modifies p, buf
    ensures v == OK && calls == |cuts| && Parsed(p.View(), m, old(buf[..]))
    ensures p.i + (if m.body == "" then 1 else 0) == |Print(m)|
    ensures Spelled(p.extra, buf[..])
  {
    hide Piecewise, Parsed, Print, HeadersFine, LineFine, Spelled, LowerAll;
    AnyReads(m, rest, cuts);
    v, calls := ParseAll(p, buf, cuts);
  }
}

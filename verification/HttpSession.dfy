/** A connection that carries one request after the other. */
module HttpSession {
  import opened HttpSyntax
  import HP = HttpParser
  import opened HttpSegments
  import opened HttpPrinter
  import opened HttpRoundTrip
  import opened HttpFrame
  import opened HttpQuery
  import opened HttpMachine
  import opened HttpReads

  // -------------------------------------------------- what a call leaves

  const CHUNK := 4096

  /** Between calls, a body begins where the parser stands. */
  predicate Tight(s: HP.State) {
    s.level.Body? ==> s.start == s.i
  }

  /** The request is complete: another call will find the same. */
  predicate Final(s: HP.State, b: string) {
    || (s.level.First? && s.status.BlockEnd? && s.i < |b| && b[s.i] == '\n')
    || (s.level.End? && s.i < |b| && b[s.i] == '\n' && s.table.contentLength <= 0)
    || (s.level.Body? && s.start + s.table.contentLength <= s.i)
  }

  lemma {:induction false} FirstLineLeaves(s: HP.State, b: string)
    requires s.i < |b| && s.level.First?
    ensures match HP.FirstLine(s, b)
      case More(t) => !t.level.Body?
      case Return(Ok(t)) => t == s && Final(t, b)
      case Return(r) => r.Error?
  {
    hide MethodLookup, Slice, GuessMethod, HP.Version;
  }

  lemma {:induction false} HeaderLineLeaves(s: HP.State, b: string)
    requires s.i < |b| && s.level.Headers?
    ensures match HP.HeaderLine(s, b)
      case More(t) => !t.level.Body?
      case Return(r) => r.Error?
  {
    hide HP.HeaderLookup, Window, HEADERS;
  }

  lemma {:induction false} AdvanceLeaves(s: HP.State, b: string)
    requires s.i < |b| && !s.level.Body?
    ensures match HP.Advance(s, b)
      case More(t) => Tight(t)
      case Return(Ok(t)) => t == s && Final(t, b)
      case Return(r) => r.Error?
  {
    hide HP.FirstLine, HP.HeaderLine;
    if s.level.First? {
      FirstLineLeaves(s, b);
    } else if s.level.Headers? {
      HeaderLineLeaves(s, b);
    } else if s.level.Continue? {
      HeaderLineLeaves(s.(level := HP.Headers, status := HP.HeaderKey, chars := 0), b);
    }
  }

  lemma {:induction false} IterateLeaves(s: HP.State, b: string, len: nat)
    requires s.i < len <= |b| && Sane(s) && Tight(s)
    ensures match HP.Iterate(s, b, len)
      case More(t) => Tight(t) && t.i <= len
      case Return(Pending(t)) => Tight(t) && t.i <= len
      case Return(Ok(t)) => Final(t, b) && Sane(t) && t.i <= len
      case Return(Error(_)) => true
  {
    hide HP.Advance, HP.CharLookup;
    if !s.level.Body? {
      var j := HP.CharLookup(b, HP.Terminator(s), s.i, len);
      AdvanceLeaves(s, b);
      AdvanceMoves(s, b);
      AdvanceLeaves(s.(i := j), b);
      AdvanceMoves(s.(i := j), b);
      if s.level.Headers? && s.status.HeaderValStarts? && b[s.i] == '\r' {
        LineDone(s, b, len);
      }
    }
  }

  /** A call never reads past the buffer, and a complete request stays complete. */
  lemma {:induction false} RunLeaves(s: HP.State, b: string, len: nat)
    requires s.i <= len <= |b| && Sane(s) && Tight(s)
    ensures match HP.Run(s, b, len)
      case Pending(t) => Tight(t) && t.i <= len
      case Ok(t) => Final(t, b) && Sane(t) && t.i <= len
      case Error(_) => true
    decreases len - s.i
  {
    hide HP.Iterate, Final, Tight, Sane;
    if s.i < len {
      IterateLeaves(s, b, len);
      var o := HP.Iterate(s, b, len);
      if o.More? {
        IterateMoves(s, b, len);
        IterateSane(s, b, len);
        RunLeaves(o.s, b, len);
      }
    }
  }

  lemma {:induction false} IterateForward(s: HP.State, b: string, len: nat)
    requires s.i < len <= |b| && Sane(s)
    ensures var o := HP.Iterate(s, b, len); o.Return? && o.r.Ok? ==> o.r.s.i >= s.i
  {
    hide HP.FirstLine, HP.HeaderLine, HP.CharLookup;
    if !s.level.Body? {
      var j := HP.CharLookup(b, HP.Terminator(s), s.i, len);
      AdvanceLeaves(s, b);
      AdvanceLeaves(s.(i := j), b);
    }
  }

  /** A request is not complete before where the call began. */
  lemma {:induction false} RunForward(s: HP.State, b: string, len: nat)
    requires len <= |b| && Sane(s)
    ensures var r := HP.Run(s, b, len); r.Ok? ==> r.s.i >= s.i
    decreases len - s.i
  {
    hide HP.Iterate, Sane;
    if s.i < len {
      IterateForward(s, b, len);
      var o := HP.Iterate(s, b, len);
      if o.More? {
        IterateMoves(s, b, len);
        IterateSane(s, b, len);
        RunForward(o.s, b, len);
      }
    }
  }

  lemma {:induction false} FinalEnds(s: HP.State, b: string, len: nat)
    requires s.i < len <= |b| && Final(s, b)
    ensures !HP.Run(s, b, len).Pending?
  {
    hide HP.HeaderLookup, MethodLookup, Slice, Window, GuessMethod, HP.Version, HEADERS;
    assert HP.Iterate(s, b, len).Return?;
  }

  /** The keys of the extra headers lie before the current byte. */
  predicate Behind(s: HP.State) {
    forall k :: 0 <= k < |s.table.extra| ==> s.table.extra[k].key.pos + s.table.extra[k].key.len <= s.i
  }

  function Outcomes(o: HP.Outcome): HP.Result {
    match o case More(t) => HP.Pending(t) case Return(r) => r
  }

  lemma {:induction false} FirstLineTable(s: HP.State, b: string)
    requires s.i < |b| && s.level.First?
    ensures var r := Outcomes(HP.FirstLine(s, b)); r.Error? || (r.s.table == s.table && s.i <= r.s.i)
  {
    hide MethodLookup, Slice, GuessMethod, HP.Version;
  }

  lemma {:induction false} HeaderLineTable(s: HP.State, b: string)
    requires s.i < |b| && s.level.Headers? && !(s.status.HeaderValStarts? && b[s.i] == '\r')
    ensures var r := Outcomes(HP.HeaderLine(s, b)); r.Error? || (r.s.table == s.table && s.i <= r.s.i)
  {
    hide HP.HeaderLookup, Window, HEADERS;
  }

  lemma {:induction false} AdvanceTable(s: HP.State, b: string)
    requires s.i < |b| && !s.level.Body? && !(s.level.Headers? && s.status.HeaderValStarts? && b[s.i] == '\r')
    ensures var r := Outcomes(HP.Advance(s, b)); r.Error? || (r.s.table == s.table && s.i <= r.s.i)
  {
    hide HP.FirstLine, HP.HeaderLine;
    if s.level.First? {
      FirstLineTable(s, b);
    } else if s.level.Headers? {
      HeaderLineTable(s, b);
    } else if s.level.Continue? {
      HeaderLineTable(s.(level := HP.Headers, status := HP.HeaderKey, chars := 0), b);
    }
  }

  lemma {:induction false} LookupBehind(s: HP.State, b: string)
    requires Behind(s) && s.sep <= s.i
    ensures var e := HP.HeaderLookup(s, b); e.Accepted? ==> Behind(s.(table := e.t))
  {
    hide FindRow, Slice, LowerAll, HP.HostEffect, HP.LengthEffect, HP.ConnectionEffect;
    var e := HP.HeaderLookup(s, b);
    if e.Accepted? {
      EffectKeeps(s, b);
    }
  }

  lemma {:induction false} EffectKeeps(s: HP.State, b: string)
    ensures var e := HP.HeaderLookup(s, b); e.Accepted? ==>
      e.t.extra == s.table.extra || exists r: HP.Row ::
        e.t.extra == s.table.extra + [r] && r.key == HP.Span(s.key, s.sep - s.key)
  {
    hide FindRow, Slice, LowerAll, Strtol, LastIndex;
  }

  lemma {:induction false} IterateBehind(s: HP.State, b: string, len: nat)
    requires s.i < len <= |b| && Sane(s) && Behind(s)
    ensures var r := Outcomes(HP.Iterate(s, b, len)); r.Error? || Behind(r.s)
  {
    hide HP.Advance, HP.CharLookup, HP.HeaderLookup;
    if s.level.Body? {
    } else if s.level.Headers? && s.status.HeaderValStarts? && b[s.i] == '\r' {
      LineDone(s, b, len);
      LookupBehind(HP.MarkEnd(s), b);
    } else {
      AdvanceTable(s, b);
      if HP.Skipping(s) {
        AdvanceTable(s.(i := HP.CharLookup(b, HP.Terminator(s), s.i, len)), b);
      }
    }
  }

  lemma {:induction false} RunBehind(s: HP.State, b: string, len: nat)
    requires len <= |b| && Sane(s) && Behind(s)
    ensures var r := HP.Run(s, b, len); r.Error? || Behind(r.s)
    decreases len - s.i
  {
    hide HP.Iterate, Behind, Sane;
    if s.i < len {
      IterateBehind(s, b, len);
      var o := HP.Iterate(s, b, len);
      if o.More? {
        IterateMoves(s, b, len);
        IterateSane(s, b, len);
        RunBehind(o.s, b, len);
      }
    }
  }

  // ------------------------------------------------------- many requests

  function PrintAll(ms: seq<Message>): string
    requires forall k :: 0 <= k < |ms| ==> ms[k].verb < |METHODS|
  {
    if ms == [] then "" else Print(ms[0]) + PrintAll(ms[1..])
  }

  /** The bytes behind position `i`. */
  function Following(b: string, i: nat): string {
    if i < |b| then b[i + 1..] else ""
  }

  /** The requests that `b` holds, in order, at most `budget` of them. */
  function Requests(b: string, budget: nat): seq<HP.State>
    decreases budget
  {
    if budget == 0 || b == "" then []
    else match HP.Run(HP.INITIAL, b, |b|)
      case Ok(s) => [s] + Requests(Following(b, s.i), budget - 1)
      case _ => []
  }

  predicate Bodyless(ms: seq<Message>) {
    forall k :: 0 <= k < |ms| ==> WellFormed(ms[k]) && ms[k].body == ""
  }

  /** A complete request at the head of the buffer is found, and what follows it is left exactly. */
  lemma {:induction false} FirstRequest(ms: seq<Message>, rest: string)
    requires Bodyless(ms) && ms != []
    ensures var b := PrintAll(ms) + rest; var r := HP.Run(HP.INITIAL, b, |b|);
      && b != "" && r.Ok? && Parsed(r.s, ms[0], b) && r.s.i < |b|
      && b[r.s.i + 1..] == PrintAll(ms[1..]) + rest
  {
    hide Print, Parsed, HP.Run, Bytewise, HeadersFine;
    var more := PrintAll(ms[1..]) + rest;
    var b := Print(ms[0]) + more;
    assert PrintAll(ms) + rest == b;
    RoundTrip(ms[0], more);
    CallComplete(ms[0], b, |Print(ms[0])|);
  }

  lemma {:induction false} RequestsStep(ms: seq<Message>, rest: string, budget: nat)
    requires Bodyless(ms) && 0 < budget && ms != []
    ensures var b := PrintAll(ms) + rest;
      && HP.Run(HP.INITIAL, b, |b|).Ok?
      && Requests(b, budget) == [HP.Run(HP.INITIAL, b, |b|).s] + Requests(PrintAll(ms[1..]) + rest, budget - 1)
  {
    hide Print, Parsed, HP.Run, WellFormed, PrintAll;
    FirstRequest(ms, rest);
  }

  /** Pipelining: exactly the requests in the buffer are parsed, in order, as far as the budget goes. */
  lemma {:induction false} RequestsAre(ms: seq<Message>, rest: string, budget: nat, k: nat)
    requires Bodyless(ms) && k < budget <= |ms|
    ensures var all := Requests(PrintAll(ms) + rest, budget);
      |all| == budget && Parsed(all[k], ms[k], PrintAll(ms[k..]) + rest)
    decreases budget
  {
    hide Print, Parsed, HP.Run, HeadersFine, PrintAll, Requests;
    RequestsStep(ms, rest, budget);
    FirstRequest(ms, rest);
    assert ms[0..] == ms;
    if budget > 1 {
      RequestsAre(ms[1..], rest, budget - 1, if k > 0 then k - 1 else 0);
      if k > 0 {
        assert ms[1..][k - 1..] == ms[k..] && ms[1..][k - 1] == ms[k];
      }
    } else {
      NoBudget(PrintAll(ms[1..]) + rest);
    }
  }

  lemma {:induction false} NoBudget(b: string)
    ensures Requests(b, 0) == []
  {
  }

  // -------------------------------------------------------- the session

  lemma {:induction false} Concat(b: string, c: string, n: nat, data: string)
    requires n <= |b| && |c| == n + |data| && c[..n] == b[..n] && c[n..] == data
    ensures c == b[..n] + data
  {
  }

  lemma {:induction false} FinalMoved(s: HP.State, rest: string, b: string, c: string)
    requires Final(s, rest) && |rest| <= |b| && b[..|rest|] == rest && SameFrom(b, c, s.i)
    ensures Final(s, c[..|rest|])
  {
    assert s.i < |rest| ==> b[s.i] == b[..|rest|][s.i];
  }

  lemma {:induction false} UnreadMoved(i: nat, rest: string, b: string, c: string)
    requires |rest| <= |b| && b[..|rest|] == rest && SameFrom(b, c, i)
    ensures i < |rest| ==> c[i + 1..|rest|] == rest[i + 1..]
  {
    if i < |rest| {
      assert forall k :: i < k < |rest| ==> c[k] == b[..|rest|][k];
    }
  }

  lemma {:induction false} SpelledMoved(s: HP.State, b: string, c: string, n: nat)
    requires Spelled(s.table.extra, b) && Behind(s) && s.i <= n && SameUpto(b, c, n)
    ensures Spelled(s.table.extra, c)
  {
    hide LowerAll, Slice, SameUpto;
    var extra := s.table.extra;
    forall k | 0 <= k < |extra|
      ensures Slice(c, extra[k].key.pos, extra[k].key.pos + extra[k].key.len) == extra[k].name
    {
      SliceUpto(b, c, n, extra[k].key.pos, extra[k].key.pos + extra[k].key.len);
    }
  }

  lemma {:induction false} InitialReady(b: string)
    ensures Sane(HP.INITIAL) && Tight(HP.INITIAL) && Behind(HP.INITIAL) && Spelled([], b)
  {
  }

  /**
   * A request is being read: `raw` are its bytes as they arrived, up to the `cuts`, `text` what the
   * buffer holds of them, and the parser stands where those reads lead.
   */
  ghost predicate Waiting(raw: string, cuts: seq<nat>, dirty: nat, text: string, s: HP.State) {
    && SameFrom(raw, text, dirty) && Clean(s, dirty)
    && Increasing(cuts, raw) && Seen(cuts) == |raw| && Piecewise(raw, cuts) == HP.Pending(s)
  }

  lemma {:induction false} WaitingAtFirst()
    ensures Waiting("", [], 0, "", HP.INITIAL)
  {
  }

  /** The bytes of a read behind those that are there. */
  lemma {:induction false} ReadOn(raw: string, cuts: seq<nat>, dirty: nat, text: string, s: HP.State, data: string)
    requires Waiting(raw, cuts, dirty, text, s) && data != ""
    ensures var all, n := raw + data, |raw + data|;
      && SameFrom(all, text + data, dirty) && |text| == |raw| == Seen(cuts)
      && Increasing(cuts + [n], all) && Seen(cuts + [n]) == n
      && Piecewise(all, cuts + [n]) == HP.Run(s, all, n) == HP.Run(s, text + data, n)
  {
    hide HP.Run, Clean;
    var all, n := raw + data, |raw + data|;
    PiecewiseGrows(raw, data, cuts);
    assert (cuts + [n])[..|cuts|] == cuts;
    RunFrom(s, all, text + data, dirty, n);
  }

  lemma {:induction false} StillWaiting(raw: string, cuts: seq<nat>, dirty: nat, b: string, c: string, d: nat,
      s: HP.State)
    requires SameFrom(raw, b, dirty) && SameFrom(b, c, d) && dirty <= d && Clean(s, d)
    requires Increasing(cuts, raw) && Seen(cuts) == |raw| && Piecewise(raw, cuts) == HP.Pending(s)
    ensures Waiting(raw, cuts, d, c, s)
  {
    hide Piecewise, Clean;
    SameChain(raw, b, c, dirty, d, d);
  }

  /** A fresh start on `rest`, which the buffer `b` begins with. */
  lemma {:induction false} FreshWaiting(rest: string, b: string, c: string, d: nat, s: HP.State)
    requires rest != "" && |rest| <= |b| && b[..|rest|] == rest && SameFrom(b, c, d) && Clean(s, d)
    requires HP.Run(HP.INITIAL, rest, |rest|) == HP.Pending(s)
    ensures Waiting(rest, [|rest|], d, c[..|rest|], s)
  {
    hide HP.Run, Clean;
    assert [|rest|][..0] == [];
    assert Piecewise(rest, []) == HP.Pending(HP.INITIAL);
    forall k | d <= k < |rest|
      ensures rest[k] == c[..|rest|][k]
    {
      assert rest[k] == b[..|rest|][k];
    }
  }

  /** What a call on the bytes `rest` leaves: the state, and what is unread behind it or kept for the next read. */
  predicate Next(rest: string, v: Verdict, s: HP.State, unread: string, raw: string, cuts: seq<nat>) {
    match HP.Run(HP.INITIAL, rest, |rest|)
    case Ok(t) => v == OK && s == t && unread == Following(rest, t.i)
    case Pending(t) => v == PENDING && s == t && raw == rest && cuts == [|rest|]
    case Error(_) => v.ERROR?
  }

  /** What a call on the bytes `all` means for a session that has been waiting. */
  predicate Answers(r: HP.Result, completed: bool, ret: int, alive: bool, open: bool, s: HP.State) {
    match r
    case Ok(t) => if completed then ret == -1 && !alive else alive && open && s == t
    case Pending(t) => alive && !open && s == t
    case Error(_) => ret == -1 && !alive
  }

  /** What mk_http_request_prepare leaves in close_now; `full` says that the keep-alive limit is reached. */
  function CloseAfter(keepAlive: bool, rooted: bool, full: bool, s: HP.State, before: bool): bool {
    var t := s.table;
    if !keepAlive || !rooted || (HOST !in t.known && s.req.protocol == 11) then before
    else
      || full
      || (CONNECTION in t.known && t.connection.Close?)
      || (!(CONNECTION in t.known && (t.connection.Close? || t.connection.KeepAlive?)) &&
          (if s.req.protocol == 10 then true else if s.req.protocol == 11 then false else before))
  }

  lemma {:induction false} Told(v: Verdict, s: HP.State, r: HP.Result, completed: bool, ret: int, alive: bool,
      open: bool)
    requires Tells(v, s, r) && alive == ((v.OK? && !completed) || v.PENDING?) && (alive ==> open == v.OK?)
    requires !alive ==> ret == -1
    ensures Answers(r, completed, ret, alive, open, s)
  {
  }

  /** The largest size that the body buffer can grow to. */
  function Capacity(size: nat, chunk: nat, limit: nat): nat
    requires chunk > 0
    decreases limit - size
  {
    if size + chunk > limit then size else Capacity(size + chunk, chunk, limit)
  }

  lemma {:induction false} CapacityBounds(size: nat, chunk: nat, limit: nat)
    requires chunk > 0
    ensures Capacity(size, chunk, limit) >= size
    ensures Capacity(size, chunk, limit) == size <==> size + chunk > limit
    decreases limit - size
  {
    if size + chunk <= limit {
      CapacityBounds(size + chunk, chunk, limit);
    }
  }

  /** The buffer grows by whole chunks, as far as the limit allows and no further. */
  lemma {:induction false} CapacityIs(size: nat, chunk: nat, limit: nat) returns (k: nat)
    requires chunk > 0
    ensures Capacity(size, chunk, limit) == size + k * chunk && size + (k + 1) * chunk > limit
    ensures k > 0 ==> size + k * chunk <= limit
    decreases limit - size
  {
    if size + chunk > limit {
      return 0;
    }
    k := CapacityIs(size + chunk, chunk, limit);
    assert (k + 1) * chunk == k * chunk + chunk && (k + 1 + 1) * chunk == (k + 1) * chunk + chunk;
    k := k + 1;
  }

  /** struct mk_http_session, as far as it decides which request comes next */
  class Session {
    const keepAlive: bool
    const max: nat
    /** the read buffer of the network layer, and max_request_size */
    const chunk: nat
    const limit: nat
    var body: array<char>
    var bodyLength: nat
    var bodySize: nat
    var parser: Parser
    var counter: nat
    var closeNow: bool
    var completed: bool
    /** mk_http_session_remove has not been called */
    var alive: bool
    /** a request is being answered, and how many have been so far */
    ghost var open: bool
    ghost var served: nat
    /** the bytes of the request being read as they arrived, where the reads ended, and what is behind */
    ghost var raw: string
    ghost var cuts: seq<nat>
    ghost var dirty: nat

    ghost predicate Valid()
      reads this, body, parser
    {
      && bodyLength <= body.Length && bodyLength <= bodySize && chunk > 0 && counter <= max && served <= counter + 1
      && (alive ==> Ready())
      && (alive && open ==> completed && Holding())
      && (alive && !open ==> served <= counter && Idle())
    }

    /** The parser can go on. */
    ghost predicate Ready()
      reads this`body, this`parser, body, parser
    {
      Sane(parser.View()) && Behind(parser.View()) && Spelled(parser.extra, body[..])
    }

    /** The request that is being answered is complete. */
    ghost predicate Holding()
      reads this`body, this`bodyLength, this`parser, body, parser
    {
      bodyLength <= body.Length && parser.i <= bodyLength && Final(parser.View(), body[..bodyLength])
    }

    /** A request is being read. */
    ghost predicate Idle()
      reads this`body, this`bodyLength, this`parser, this`raw, this`cuts, this`dirty, body, parser
    {
      && bodyLength <= body.Length && Tight(parser.View()) && parser.i <= bodyLength
      && Waiting(raw, cuts, dirty, body[..bodyLength], parser.View())
    }

    /** What has been received behind the current request. */
    function Unread(): string
      reads this`body, this`bodyLength, this`parser, body, parser
    {
      if parser.i < bodyLength <= body.Length then body[parser.i + 1..bodyLength] else ""
    }

    /** mk_http_session_init */
    constructor (keepAlive: bool, max: nat, chunk: nat, limit: nat)
      requires chunk > 0
      ensures Valid() && alive && !open && served == counter == 0 && !completed && !closeNow && bodyLength == 0
      ensures this.keepAlive == keepAlive && this.max == max && this.chunk == chunk && this.limit == limit
      ensures parser.View() == HP.INITIAL && raw == "" && cuts == [] &&
        bodySize == if chunk > 4096 then chunk else 4096
      ensures fresh(body) && fresh(parser)
    {
      hide Sane, Tight, Behind, Spelled, Waiting;
      this.keepAlive, this.max, this.chunk, this.limit := keepAlive, max, chunk, limit;
      body := new char[0];
      bodyLength, bodySize := 0, if chunk > CHUNK then chunk else CHUNK;
      parser := new Parser();
      counter, closeNow, completed, alive := 0, false, false, true;
      open, served, raw, cuts, dirty := false, 0, "", [], 0;
      new;
      InitialReady(body[..]);
      WaitingAtFirst();
      assert body[..bodyLength] == "";
      assert parser.extra == parser.View().table.extra;
    }

    /** mk_http_keepalive_check */
    method KeepaliveCheck()
      modifies this`closeNow
      ensures closeNow ==
        if !keepAlive then old(closeNow)
        else
          || counter >= max
          || (CONNECTION in parser.known && parser.connection.Close?)
          || (!(CONNECTION in parser.known && (parser.connection.Close? || parser.connection.KeepAlive?)) &&
              (if parser.req.protocol == 10 then true else if parser.req.protocol == 11 then false else old(closeNow)))
    {
      if !keepAlive {
        return;
      }
      if parser.req.protocol == 10 {
        closeNow := true;
      } else if parser.req.protocol == 11 {
        closeNow := false;
      }
      if CONNECTION in parser.known {
        if parser.connection.KeepAlive? {
          closeNow := false;
        } else if parser.connection.Close? {
          closeNow := true;
        }
      }
      if counter >= max {
        closeNow := true;
      }
    }

    /** mk_http_request_prepare, up to the decision to close; `rooted` says that the URI begins with a slash. */
    method Prepare(rooted: bool)
      modifies this`closeNow, this`open, this`served
      ensures open && served == old(served) + 1
      ensures closeNow == CloseAfter(keepAlive, rooted, counter >= max, parser.View(), old(closeNow))
    {
      open, served := true, served + 1;
      if !rooted {
        return;
      }
      if HOST !in parser.known && parser.req.protocol == 11 {
        return;
      }
      KeepaliveCheck();
    }

    /** The memmove to the front of the buffer. */
    method MoveDown(from: nat)
      requires from <= bodyLength <= body.Length
      modifies body, this`bodyLength
      ensures bodyLength == old(bodyLength) - from && body[..bodyLength] == old(body[from..bodyLength])
    {
      var n, k := bodyLength - from, 0;
      while k < n
        invariant 0 <= k <= n
        invariant forall j :: 0 <= j < k ==> body[j] == old(body[from + j])
        invariant forall j :: k <= j < body.Length ==> body[j] == old(body[j])
      {
        body[k] := body[from + k];
        k := k + 1;
      }
      bodyLength := n;
    }

    /** Parse the buffer from its beginning. */
    method ParseFresh() returns (v: Verdict)
      requires 0 < bodyLength <= body.Length
      modifies this`raw, this`cuts, this`dirty, parser, body
      ensures Next(old(body[..bodyLength]), v, parser.View(), Unread(), raw, cuts)
      ensures !v.ERROR? ==> Ready()
      ensures v.OK? ==> Holding()
      ensures v.PENDING? ==> Idle()
    {
      hide Sane, Spelled, Tight, Behind, Final, HP.Run, SameFrom, Clean, Waiting;
      ghost var b, rest, d := body[..], body[..bodyLength], 0;
      parser.Init();
      InitialReady(b);
      SaneAtFirst();
      v, d := parser.Parse(body, bodyLength, 0);
      RunUpto(HP.INITIAL, b, rest, bodyLength);
      RunLeaves(HP.INITIAL, rest, bodyLength);
      RunBehind(HP.INITIAL, rest, bodyLength);
      if !v.ERROR? {
        UnreadMoved(parser.i, rest, b, body[..]);
      }
      if v.PENDING? {
        FreshWaiting(rest, b, body[..], d, parser.View());
        raw, cuts, dirty := rest, [bodyLength], d;
      }
      if v.OK? {
        FinalMoved(parser.View(), rest, b, body[..]);
      }
    }

    /** mk_http_request_ka_next */
    method KeepaliveNext()
      modifies this`bodyLength, this`counter, this`completed, this`raw, this`cuts, this`dirty, parser
      ensures bodyLength == 0 && counter == old(counter) + 1 && !completed && parser.View() == HP.INITIAL
      ensures raw == "" && cuts == [] && dirty == 0
    {
      raw, cuts, dirty := "", [], 0;
      bodyLength := 0;
      counter := counter + 1;
      completed := false;
      parser.Init();
    }

    /** The end of mk_http_request_end: close, or wait for the next request. */
    method Shutdown() returns (ret: int)
      requires bodyLength <= body.Length && bodyLength <= bodySize && chunk > 0
      requires served <= counter + 1 <= max + 1 && (!closeNow ==> counter < max)
      modifies this`bodyLength, this`counter, this`completed, this`alive, this`open, this`raw, this`cuts, this`dirty,
        parser
      ensures Valid() && !open
      ensures closeNow ==> ret == -1 && !alive && counter == old(counter)
      ensures !closeNow ==> ret == 0 && alive == old(alive) && !completed && bodyLength == 0
      ensures !closeNow ==> counter == old(counter) + 1 && parser.View() == HP.INITIAL && raw == "" && cuts == []
    {
      hide Sane, Spelled, Tight, Behind, Final, Waiting;
      open := false;
      if closeNow {
        alive := false;
        return -1;
      }
      KeepaliveNext();
      InitialReady(body[..]);
      WaitingAtFirst();
      assert body[..bodyLength] == "";
      assert parser.extra == parser.View().table.extra;
      return 0;
    }

    lemma {:induction false} HeldBounds()
      requires Holding()
      ensures parser.i <= bodyLength <= body.Length
    {
    }

    /** The unread bytes go to the front and are parsed. */
    method ParseNext() returns (v: Verdict)
      requires Holding() && Unread() != ""
      modifies this`bodyLength, this`raw, this`cuts, this`dirty, parser, body
      ensures Next(old(Unread()), v, parser.View(), Unread(), raw, cuts) && bodyLength < old(bodyLength)
      ensures !v.ERROR? ==> Ready()
      ensures v.OK? ==> Holding()
      ensures v.PENDING? ==> Idle()
    {
      hide Ready, Idle, HP.Run, Next, Final;
      MoveDown(parser.i + 1);
      v := ParseFresh();
    }

    /** The part of mk_http_request_end for bytes that are there already. */
    method NextRequest(rooted: bool) returns (v: Verdict)
      requires Valid() && alive && open && counter < max && Unread() != ""
      modifies this`bodyLength, this`counter, this`closeNow, this`completed, this`alive, this`open, this`served
      modifies this`raw, this`cuts, this`dirty, parser, body
      ensures counter == old(counter) + 1 && served == old(served) + if v.OK? then 1 else 0
      ensures v.ERROR? ==> bodyLength <= body.Length && bodyLength <= bodySize && alive && closeNow
      ensures !v.ERROR? ==> Valid() && alive && completed && open == v.OK? && bodyLength <= body.Length
      ensures v.OK? ==> closeNow == CloseAfter(keepAlive, rooted, counter >= max, parser.View(), old(closeNow))
      ensures v.PENDING? ==> closeNow == old(closeNow)
      ensures Next(old(Unread()), v, parser.View(), Unread(), raw, cuts)
    {
      hide Ready, Holding, Idle, HP.Run, Next, CloseAfter, Unread;
      HeldBounds();
      counter := counter + 1;
      v := ParseNext();
      if v.OK? {
        Prepare(rooted);
      } else if v.PENDING? {
        open := false;
      } else {
        closeNow := true;
      }
    }

    /**
     * mk_http_request_end: the response has been sent.  If more was received, the next request
     * is parsed from exactly the bytes behind the last one.
     */
    method RequestEnd(rooted: bool) returns (ret: int)
      requires Valid() && alive && open
      modifies this`bodyLength, this`counter, this`closeNow, this`completed, this`alive, this`open, this`served
      modifies this`raw, this`cuts, this`dirty, parser, body
      ensures Valid() && served == old(served) + if ret == 1 then 1 else 0
      ensures ret == 1 ==> old(counter) < max && bodyLength <= body.Length && counter <= max
      ensures ret == 1 ==> closeNow == CloseAfter(keepAlive, rooted, counter >= max, parser.View(), old(closeNow))
      ensures ret == 0 ==> closeNow == old(closeNow)
      ensures old(counter) >= max ==> ret == -1 && !alive
      ensures old(counter) < max && old(Unread()) == "" ==>
        if old(closeNow) then ret == -1 && !alive
        else
          && ret == 0 && alive && !open && !completed && bodyLength == 0
          && parser.View() == HP.INITIAL && raw == "" && cuts == []
          && counter == old(counter) + 1 && !closeNow
      ensures old(counter) < max && old(Unread()) != "" ==>
        && (ret == 1 || ret == 0 || ret == -1)
        && Next(old(Unread()), if ret == 1 then OK else if ret == 0 then PENDING else ERROR(0), parser.View(),
          Unread(), raw, cuts)
        && alive == (ret != -1) && (alive ==> open == (ret == 1) && completed && counter == old(counter) + 1)
    {
      hide Ready, Holding, Idle, HP.Run, CloseAfter;
      HeldBounds();
      if max <= counter {
        closeNow := true;
        ret := Shutdown();
        return;
      }
      if bodyLength - parser.i - 1 > 0 {
        var v := NextRequest(rooted);
        if v.OK? {
          return 1;
        }
        if v.PENDING? {
          return 0;
        }
      }
      ret := Shutdown();
    }

    /** The bytes that the socket delivered, behind those that are there. */
    method Receive(data: string)
      requires bodyLength <= body.Length
      modifies this`body, this`bodyLength
      ensures fresh(body) && bodyLength == body.Length == old(bodyLength) + |data|
      ensures body[..] == old(body[..bodyLength]) + data
    {
      var n, was := bodyLength, body;
      var grown := new char[n + |data|];
      for k := 0 to n
        invariant forall j :: 0 <= j < k ==> grown[j] == was[j]
      {
        grown[k] := was[k];
      }
      for k := 0 to |data|
        invariant forall j :: 0 <= j < n ==> grown[j] == was[j]
        invariant forall j :: 0 <= j < k ==> grown[n + j] == data[j]
      {
        grown[n + k] := data[k];
      }
      Concat(was[..], grown[..], n, data);
      body, bodyLength := grown, n + |data|;
    }

    /** mk_http_handler_read has no room and may not grow the buffer. */
    predicate TooLarge()
      reads this
    {
      bodyLength >= bodySize && bodySize + chunk > limit
    }

    /** How many bytes it asks the socket for. */
    function Room(): nat
      reads this
    {
      if bodySize > bodyLength then bodySize - bodyLength else chunk
    }

    /**
     * mk_http_sched_read: bytes have arrived, none after an error.  Parsing goes on where it
     * stopped; a request that completes is answered only if none has completed since the last wait.
     */
    method SchedRead(data: string, rooted: bool) returns (ret: int)
      requires Valid() && alive && |data| <= Room()
      modifies this`body, this`bodyLength, this`bodySize, this`closeNow, this`completed, this`alive, this`open,
        this`served
      modifies this`raw, this`cuts, this`dirty, body, parser
      ensures Valid() && counter == old(counter) && (body == old(body) || fresh(body))
      ensures Capacity(bodySize, chunk, limit) == old(Capacity(bodySize, chunk, limit))
      ensures bodySize == old(bodySize) + if old(bodyLength >= bodySize && !TooLarge()) then chunk else 0
      ensures old(TooLarge()) ==> ret == -1 && !alive && served == old(served)
      ensures !old(TooLarge()) && data == "" ==>
        ret == -1 && alive && open == old(open) && served == old(served) && raw == old(raw)
      ensures !old(TooLarge()) && data != "" ==>
        served == old(served) + (if alive && open then 1 else 0) && (alive ==> ret == |data|)
      ensures !old(TooLarge()) && data != "" ==> bodyLength == old(bodyLength) + |data|
      ensures !old(TooLarge()) && data != "" && old(open) ==> ret == -1 && !alive
      ensures !old(TooLarge()) && data != "" && !old(open) ==>
        var all := old(raw) + data;
        Answers(HP.Run(old(parser.View()), all, |all|), old(completed), ret, alive, open, parser.View())
      ensures !old(TooLarge()) && data != "" && alive && open ==>
        completed && Unread() == Following(old(raw) + data, parser.i)
      ensures !old(TooLarge()) && data != "" ==>
        closeNow == if alive && open then CloseAfter(keepAlive, rooted, counter >= max, parser.View(), old(closeNow))
          else old(closeNow)
      ensures !old(TooLarge()) && data != "" && alive && !open ==>
        completed == old(completed) && raw == old(raw) + data && cuts == old(cuts) + [|raw|] && bodyLength == |raw|
    {
      hide Ready, Holding, Idle, HP.Run, Capacity, CloseAfter;
      CapacityBounds(bodySize, chunk, limit);
      if bodyLength >= bodySize {
        if bodySize + chunk > limit {
          alive := false;
          return -1;
        }
        Grow();
      }
      if data == "" {
        return -1;
      }
      ret := Take(data, rooted);
    }

    /** The realloc of the body buffer. */
    method Grow()
      requires Valid() && bodySize + chunk <= limit
      modifies this`bodySize
      ensures Valid() && bodySize == old(bodySize) + chunk && Unread() == old(Unread())
      ensures Capacity(bodySize, chunk, limit) == old(Capacity(bodySize, chunk, limit))
    {
      hide Ready, Holding, Idle;
      bodySize := bodySize + chunk;
    }

    /** The bytes of a read go behind the others, and parsing goes on. */
    method ReadOnward(data: string) returns (v: Verdict)
      requires bodyLength <= body.Length && bodyLength + |data| <= bodySize && data != "" && Ready() &&
        (if open then Holding() else Idle())
      modifies this`body, this`bodyLength, this`raw, this`cuts, this`dirty, body, parser
      ensures bodyLength == old(bodyLength) + |data| == body.Length && fresh(body)
      ensures !open && !v.ERROR? ==> Ready()
      ensures !open && v.OK? ==> Holding() && Unread() == Following(old(raw) + data, parser.i)
      ensures old(open) ==> !v.PENDING?
      ensures !old(open) ==> Tells(v, parser.View(), HP.Run(old(parser.View()), old(raw) + data, |old(raw) + data|))
      ensures !old(open) && v.PENDING? ==>
        Idle() && raw == old(raw) + data && cuts == old(cuts) + [|raw|] && bodyLength == |raw|
    {
      hide Sane, Spelled, Tight, Behind, Final, Waiting, Clean, HP.Run, SameFrom;
      ghost var s, n := parser.View(), bodyLength;
      ghost var b0, text := body[..], body[..bodyLength];
      ghost var all, d0 := raw + data, if open then 0 else dirty;
      Receive(data);
      ghost var b := body[..];
      assert b == text + data;
      SpelledMoved(s, b0, b, n);
      assert parser.extra == s.table.extra;
      if open {
        CleanAtFirst(s);
        Reopened(s, text, data);
      } else {
        ReadOn(raw, cuts, dirty, text, s, data);
        RunLeaves(s, b, bodyLength);
        WaitingClean(raw, cuts, dirty, text, s);
      }
      RunBehind(s, b, bodyLength);
      ghost var d;
      v, d := parser.Parse(body, bodyLength, d0);
      assert b[..bodyLength] == b && body[..bodyLength] == body[..];
      if v.OK? && !open {
        FinalMoved(parser.View(), b, b, body[..]);
        RunForward(s, b, bodyLength);
        SameChain(all, b, body[..], dirty, parser.i, parser.i);
        UnreadMoved(parser.i, all, all, body[..]);
      } else if v.PENDING? {
        StillWaiting(all, cuts + [|all|], dirty, b, body[..], d, parser.View());
        raw, cuts, dirty := all, cuts + [|all|], d;
      }
    }

    /** The part of mk_http_sched_read behind the read. */
    method Take(data: string, rooted: bool) returns (ret: int)
      requires Valid() && alive && data != "" && bodyLength + |data| <= bodySize
      modifies this`body, this`bodyLength, this`closeNow, this`completed, this`alive, this`open, this`served
      modifies this`raw, this`cuts, this`dirty, body, parser
      ensures Valid() && served == old(served) + (if alive && open then 1 else 0) && (alive ==> ret == |data|)
      ensures fresh(body) && bodyLength == old(bodyLength) + |data|
      ensures old(open) ==> ret == -1 && !alive
      ensures !old(open) ==>
        var all := old(raw) + data;
        Answers(HP.Run(old(parser.View()), all, |all|), old(completed), ret, alive, open, parser.View())
      ensures alive && open ==> completed && Unread() == Following(old(raw) + data, parser.i)
      ensures closeNow ==
        if alive && open then CloseAfter(keepAlive, rooted, counter >= max, parser.View(), old(closeNow))
        else old(closeNow)
      ensures alive && !open ==>
        completed == old(completed) && raw == old(raw) + data &&
        cuts == old(cuts) + [|raw|] && bodyLength == |raw|
    {
      hide Ready, Holding, Idle, HP.Run, CloseAfter, Unread, Following, Tells, Answers;
      ghost var waiting, done := !open, completed;
      ghost var r := HP.Run(parser.View(), raw + data, |raw + data|);
      var v := ReadOnward(data);
      ret := -1;
      if v.OK? && !completed {
        completed := true;
        Prepare(rooted);
        ret := |data|;
      } else if v.PENDING? {
        ret := |data|;
      } else {
        alive := false;
      }
      if waiting {
        Told(v, parser.View(), r, done, ret, alive, open);
      }
    }

    lemma {:induction false} Bounds()
      requires Valid()
      ensures counter <= max && bodyLength <= body.Length && served <= max + 1
    {
    }

    /** One end after the other, as long as each finds the next request in the buffer. */
    method Drain(rooted: bool) returns (got: seq<HP.State>, ret: int)
      requires Valid() && alive && open
      modifies this`bodyLength, this`counter, this`closeNow, this`completed, this`alive, this`open, this`served
      modifies this`raw, this`cuts, this`dirty, parser, body
      ensures Valid() && ret != 1
      ensures got == Requests(old(Unread()), max - old(counter))
      ensures served == old(served) + |got| <= max + 1
    {
      hide Valid, HP.Run, Requests, Next, Unread;
      got := [];
      ret := 1;
      Bounds();
      while ret == 1
        invariant Valid() && served == old(served) + |got| <= max + 1 && counter <= max && bodyLength <= body.Length
        invariant ret == 1 ==>
          alive && open && Requests(old(Unread()), max - old(counter)) == got + Requests(Unread(), max - counter)
        invariant ret != 1 ==> got == Requests(old(Unread()), max - old(counter))
        decreases ret == 1, max - counter
      {
        ghost var rest, budget := Unread(), max - counter;
        RequestsEnd(rest, budget);
        ret := RequestEnd(rooted);
        Bounds();
        if rest != "" && budget > 0 {
          RequestsNext(rest, budget, if ret == 1 then OK else if ret == 0 then PENDING else ERROR(0), parser.View(),
            Unread(), raw, cuts);
        }
        if ret == 1 {
          got := got + [parser.View()];
        }
      }
    }
  }

  lemma {:induction false} RequestsEnd(b: string, budget: nat)
    ensures budget == 0 || b == "" ==> Requests(b, budget) == []
  {
  }

  /** One call more on what is unread. */
  lemma {:induction false} RequestsNext(rest: string, budget: nat, v: Verdict, s: HP.State, unread: string,
      raw: string, cuts: seq<nat>)
    requires budget > 0 && rest != "" && Next(rest, v, s, unread, raw, cuts)
    ensures Requests(rest, budget) == if v.OK? then [s] + Requests(unread, budget - 1) else []
  {
    hide HP.Run;
  }

  /** A complete request is complete again when more bytes are there. */
  lemma {:induction false} Reopened(s: HP.State, b: string, data: string)
    requires Final(s, b) && Sane(s) && s.i <= |b| && data != ""
    ensures !HP.Run(s, b + data, |b + data|).Pending?
  {
    hide HP.Run;
    FinalEnds(s, b + data, |b + data|);
  }

  lemma {:induction false} WaitingClean(raw: string, cuts: seq<nat>, dirty: nat, text: string, s: HP.State)
    requires Waiting(raw, cuts, dirty, text, s)
    ensures Clean(s, dirty)
  {
  }
}

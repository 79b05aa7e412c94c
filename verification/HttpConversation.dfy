/** Whole conversations on a session: requests in one buffer, in many reads, and cut by a read. */
module HttpConversation {
  import opened Wrappers
  import opened HttpSyntax
  import HP = HttpParser
  import opened HttpSegments
  import opened HttpPrinter
  import opened HttpRoundTrip
  import opened HttpMachine
  import opened HttpReads
  import opened HttpSession

  // -------------------------------------------------------- pipelining

  /** All buffered requests are found, in order, and whatever follows them is left to be read next. */
  lemma {:induction false} RequestsAll(ms: seq<Message>, rest: string, budget: nat)
    requires Bodyless(ms) && |ms| <= budget
    ensures var all := Requests(PrintAll(ms) + rest, budget);
      && |all| >= |ms| && all[|ms|..] == Requests(rest, budget - |ms|)
      && forall k :: 0 <= k < |ms| ==> Parsed(all[k], ms[k], PrintAll(ms[k..]) + rest)
    decreases |ms|
  {
    hide Print, Parsed, HP.Run, HeadersFine, PrintAll, Requests;
    if ms == [] {
      NothingPrinted(rest);
    } else {
      RequestsStep(ms, rest, budget);
      FirstRequest(ms, rest);
      RequestsAll(ms[1..], rest, budget - 1);
      var all := Requests(PrintAll(ms) + rest, budget);
      var tail := Requests(PrintAll(ms[1..]) + rest, budget - 1);
      assert all[1..] == tail && all[|ms|..] == tail[|ms| - 1..];
      forall k | 0 <= k < |ms|
        ensures Parsed(all[k], ms[k], PrintAll(ms[k..]) + rest)
      {
        if k == 0 {
          assert ms[0..] == ms;
        } else {
          assert ms[1..][k - 1..] == ms[k..] && ms[1..][k - 1] == ms[k] && all[k] == tail[k - 1];
        }
      }
    }
  }

  /** With a smaller budget, exactly as many of them. */
  lemma {:induction false} RequestsSome(ms: seq<Message>, rest: string, budget: nat)
    requires Bodyless(ms) && budget <= |ms|
    ensures var all := Requests(PrintAll(ms) + rest, budget);
      && |all| == budget
      && forall k :: 0 <= k < budget ==> Parsed(all[k], ms[k], PrintAll(ms[k..]) + rest)
  {
    hide Print, Parsed, HP.Run, HeadersFine, PrintAll, Requests;
    if budget == 0 {
      NoBudget(PrintAll(ms) + rest);
    } else {
      RequestsAre(ms, rest, budget, 0);
      var all := Requests(PrintAll(ms) + rest, budget);
      forall k | 0 <= k < budget
        ensures Parsed(all[k], ms[k], PrintAll(ms[k..]) + rest)
      {
        RequestsAre(ms, rest, budget, k);
      }
    }
  }

  lemma {:induction false} NothingPrinted(rest: string)
    ensures PrintAll([]) + rest == rest
  {
  }

  lemma {:induction false} NoRequests(budget: nat)
    ensures Requests("", budget) == []
  {
  }

  /**
   * Draining a session whose buffer holds `ms` and then `rest`: exactly these requests are served in
   * order as far as the keep-alive limit goes, and then whatever `rest` holds.
   */
  method DrainThese(s: Session, ghost ms: seq<Message>, ghost rest: string, rooted: bool)
      returns (got: seq<HP.State>, ret: int)
    requires s.Valid() && s.alive && s.open && Bodyless(ms) && s.Unread() == PrintAll(ms) + rest
    modifies s, s.parser, s.body
    ensures s.Valid() && ret != 1 && s.served == old(s.served) + |got| <= s.max + 1
    ensures forall k :: 0 <= k < |got| && k < |ms| ==> Parsed(got[k], ms[k], PrintAll(ms[k..]) + rest)
    ensures var budget := s.max - old(s.counter);
      if budget < |ms| then |got| == budget else |got| >= |ms| && got[|ms|..] == Requests(rest, budget - |ms|)
    ensures rest == "" && |ms| <= s.max - old(s.counter) ==> |got| == |ms|
  {
    hide Print, Parsed, HP.Run, HeadersFine, PrintAll, Requests, Session.Ready, Session.Holding, Session.Idle;
    ghost var budget := s.max - s.counter;
    got, ret := s.Drain(rooted);
    if |ms| <= budget {
      RequestsAll(ms, rest, budget);
      NoRequests(budget - |ms|);
    } else {
      RequestsSome(ms, rest, budget);
    }
  }

  // -------------------------------------------------------- many reads

  /** A proper beginning of a well-formed request is incomplete, under any reads. */
  lemma {:induction false} PrefixPending(m: Message, n: nat, cuts: seq<nat>)
    requires WellFormed(m) && n < |Print(m)| && Increasing(cuts, Print(m)[..n]) && Seen(cuts) == n
    ensures Piecewise(Print(m)[..n], cuts).Pending?
  {
    hide Print, Parsed, HP.Run, HeadersFine, Bytewise, Piecewise;
    var b := Print(m);
    RoundTrip(m, "");
    assert b + "" == b;
    PendingBefore(b, n, |b| - 1);
    assert b[..n][..n] == b[..n];
    BytewiseGrows(b, b[..n], n);
    PiecesPending(b[..n], cuts);
  }

  lemma {:induction false} PrintNotEmpty(m: Message)
    requires m.verb < |METHODS|
    ensures |Print(m)| > 0
  {
    hide Lines, Target, VersionText;
  }

  lemma {:induction false} IdleLength(s: Session)
    requires s.Valid() && s.alive && !s.open
    ensures s.bodyLength == |s.raw| <= s.bodySize && s.chunk > 0
  {
    hide Sane, Spelled, Tight, Behind;
  }

  /** What the session's next call will say, in terms of the reads so far. */
  lemma {:induction false} CallIsPiece(s: Session, data: string)
    requires s.Valid() && s.alive && !s.open && data != ""
    ensures var all, n := s.raw + data, |s.raw + data|;
      && Increasing(s.cuts + [n], all) && Seen(s.cuts + [n]) == n && Seen(s.cuts) == |s.raw| == s.bodyLength
      && Piecewise(all, s.cuts + [n]) == HP.Run(s.parser.View(), all, n)
  {
    hide HP.Run, Piecewise, Sane, Spelled, Tight, Behind, Waiting;
    ReadOn(s.raw, s.cuts, s.dirty, s.body[..s.bodyLength], s.parser.View(), data);
  }

  /** A further piece of the input completes a request exactly if its last byte is there. */
  lemma {:induction false} ReadDecides(s: Session, m: Message, more: string, at: nat, data: string)
    requires s.Valid() && s.alive && !s.open && WellFormed(m) && (m.body != "" ==> more == "") && data != ""
    requires var input := Print(m) + more;
      && at < |Print(m)| && at + |data| <= |input| && s.raw == input[..at] && data == input[at..at + |data|]
    ensures var all := s.raw + data; var r := HP.Run(s.parser.View(), all, |all|);
      && all == (Print(m) + more)[..at + |data|] && s.bodyLength == |s.raw| == at
      && (|all| < |Print(m)| ==> r.Pending?)
      && (|all| >= |Print(m)| ==>
        r.Ok? && Parsed(r.s, m, all) && Following(all, r.s.i) == (Print(m) + more)[|Print(m)|..|all|])
  {
    hide Print, Parsed, HP.Run, HeadersFine, Piecewise;
    var p, n := Print(m), at + |data|;
    var input := p + more;
    assert input[..at] + data == input[..n];
    CallIsPiece(s, data);
    if n < |p| {
      assert input[..n] == p[..n];
      PrefixPending(m, n, s.cuts + [n]);
    } else {
      var rest := more[..n - |p|];
      assert input[..n] == p + rest;
      assert (s.cuts + [n])[..|s.cuts|] == s.cuts;
      AnyReads(m, rest, s.cuts + [n]);
      assert (p + rest)[|p|..] == rest == input[|p|..n];
    }
  }

  lemma {:induction false} RoomBounds(s: Session)
    requires s.chunk > 0
    ensures s.Room() > 0 && (s.bodyLength < s.bodySize ==> s.Room() == s.bodySize - s.bodyLength)
  {
  }

  /** One read of a session that has the first `at` bytes of a request. */
  method ReadPiece(s: Session, ghost m: Message, ghost more: string, input: string, at: nat, n: nat, rooted: bool)
    requires s.Valid() && s.alive && !s.open && WellFormed(m) && (m.body != "" ==> more == "")
    requires input == Print(m) + more && at < |Print(m)| && s.raw == input[..at]
    requires 0 < n <= s.Room() && at + n <= |input|
    modifies s, s.parser, s.body
    ensures s.Valid() && s.counter == old(s.counter) && (s.alive && s.open ==> s.completed)
    ensures s.parser == old(s.parser) && (s.body == old(s.body) || fresh(s.body))
    ensures Capacity(s.bodySize, s.chunk, s.limit) == old(Capacity(s.bodySize, s.chunk, s.limit))
    ensures s.bodySize == old(s.bodySize) + if old(s.bodyLength >= s.bodySize && !s.TooLarge()) then s.chunk else 0
    ensures s.alive <==> !old(s.TooLarge()) && (at + n < |Print(m)| || !old(s.completed))
    ensures s.alive ==> s.bodyLength == at + n <= s.bodySize
    ensures s.alive && at + n < |Print(m)| ==>
      !s.open && s.raw == input[..at + n] && s.completed == old(s.completed)
    ensures s.alive && at + n >= |Print(m)| ==> Served(s, m, input, at + n) && s.open && s.completed
    ensures s.alive && at + n >= |Print(m)| ==>
      s.closeNow == ClosesAfter(m, s.keepAlive, rooted, s.counter >= s.max, old(s.closeNow))
    ensures s.alive && at + n < |Print(m)| ==> s.closeNow == old(s.closeNow)
    ensures s.served == old(s.served) + if s.alive && at + n >= |Print(m)| then 1 else 0
  {
    hide Print, Parsed, HP.Run, HeadersFine, Capacity, Following, Session.Ready, Session.Holding, Session.Idle,
      Session.Unread;
    ReadDecides(s, m, more, at, input[at..at + n]);
    ghost var before := s.closeNow;
    var ret := s.SchedRead(input[at..at + n], rooted);
    if s.alive && s.open {
      ClosesMeans(s.parser.View(), m, input[..at + n], s.keepAlive, rooted, s.counter >= s.max, before);
    }
  }

  // --------------------------------------------------------- keep-alive

  /** The lower-cased value of the last header with this name, if there is one. */
  function ValueOf(hs: seq<Header>, name: string): Option<string> {
    if hs == [] then None
    else if LowerAll(hs[|hs| - 1].name) == name then Some(LowerAll(hs[|hs| - 1].value))
    else ValueOf(hs[..|hs| - 1], name)
  }

  /**
   * Is the connection closed after the answer to `m`?  With keep-alive, for a request with a rooted
   * URI and a host if it is of HTTP/1.1: at the limit, by "Connection: close", and in HTTP/1.0
   * without "Connection: keep-alive".  Otherwise the request changes nothing.
   */
  predicate ClosesAfter(m: Message, keepAlive: bool, rooted: bool, full: bool, before: bool) {
    var connection := ValueOf(m.headers, "connection");
    if keepAlive && rooted && (m.minor == 0 || ValueOf(m.headers, "host").Some?)
    then full || connection == Some("close") || (m.minor == 0 && connection != Some("keep-alive"))
    else before
  }

  lemma {:induction false} ValueIsCarried(hs: seq<Header>, name: string, row: nat)
    requires forall n: string :: RowOf(n) == Some(row) <==> LowerAll(n) == name
    ensures ValueOf(hs, name) == match Carried(hs, row) case None => None case Some(h) => Some(LowerAll(h.value))
  {
    hide LowerAll, RowOf;
    if hs != [] {
      ValueIsCarried(hs[..|hs| - 1], name, row);
    }
  }

  /** A row of the table is filled exactly if a header names it. */
  lemma {:induction false} KnownIsCarried(t: HP.Table, hs: seq<Header>, body: string, b: string, row: nat)
    requires Recovered(t, hs, body, b)
    ensures row in t.known <==> Carried(hs, row).Some?
  {
    hide RowOf, Names, Unlisted, Meant;
    if Carried(hs, row).Some? {
      CarriedAt(hs, row);
    }
  }

  lemma {:induction false} CarriedAt(hs: seq<Header>, row: nat)
    requires Carried(hs, row).Some?
    ensures exists k :: 0 <= k < |hs| && RowOf(hs[k].name) == Some(row)
  {
    hide RowOf;
    if RowOf(hs[|hs| - 1].name) != Some(row) {
      CarriedAt(hs[..|hs| - 1], row);
      var k :| 0 <= k < |hs| - 1 && RowOf(hs[..|hs| - 1][k].name) == Some(row);
      assert RowOf(hs[k].name) == Some(row);
    }
  }

  /** What close_now becomes, by the fields of the message. */
  lemma {:induction false} ClosesMeans(s: HP.State, m: Message, b: string, keepAlive: bool, rooted: bool, full: bool,
      before: bool)
    requires WellFormed(m) && Parsed(s, m, b)
    ensures CloseAfter(keepAlive, rooted, full, s, before) == ClosesAfter(m, keepAlive, rooted, full, before)
  {
    hide HeadersFine, Names, Unlisted, RowOf, Print, LowerAll, Carried, ValueOf;
    forall n: string
      ensures RowOf(n) == Some(HOST) <==> LowerAll(n) == "host"
      ensures RowOf(n) == Some(CONNECTION) <==> LowerAll(n) == "connection"
    {
      NamedRows(n);
    }
    ValueIsCarried(m.headers, "host", HOST);
    ValueIsCarried(m.headers, "connection", CONNECTION);
    KnownIsCarried(s.table, m.headers, m.body, b, HOST);
    KnownIsCarried(s.table, m.headers, m.body, b, CONNECTION);
  }

  // ------------------------------------------------------- whole requests

  /**
   * A waiting session has the first bytes of a request, not all of it, and reads on in pieces of
   * any size that the socket delivers.  The request is answered with its last byte, every field as
   * it was printed, and what came with that byte behind the request is unread, if no request has
   * completed since the last wait and this one fits into the largest buffer; otherwise the
   * connection is closed.  Meanwhile the buffer grows exactly if the request outgrows it.
   */
  method ReadRest(s: Session, ghost m: Message, ghost more: string, input: string, from: nat, ask: seq<nat>,
      rooted: bool)
      returns (at: nat)
    requires s.Valid() && s.alive && !s.open && WellFormed(m) && (m.body != "" ==> more == "")
    requires input == Print(m) + more && from < |Print(m)| && s.raw == input[..from]
    modifies s, s.parser, s.body
    ensures s.Valid() && from <= at <= |input| && s.counter == old(s.counter)
    ensures s.parser == old(s.parser) && (s.body == old(s.body) || fresh(s.body))
    ensures if !old(s.completed) && |Print(m)| <= old(Capacity(s.bodySize, s.chunk, s.limit))
      then
        && Served(s, m, input, at) && s.served == old(s.served) + 1
        && s.closeNow == ClosesAfter(m, s.keepAlive, rooted, s.counter >= s.max, old(s.closeNow))
      else !s.alive && s.served == old(s.served)
    ensures s.alive ==> (s.bodySize == old(s.bodySize) <==> |Print(m)| <= old(s.bodySize))
    ensures Capacity(s.bodySize, s.chunk, s.limit) == old(Capacity(s.bodySize, s.chunk, s.limit))
    ensures ask == [] && |input| <= old(s.bodySize) ==> at == |input|
  {
    hide Print, Parsed, HeadersFine, Capacity, Served, ClosesAfter, Session.Valid, Session.Room;
    var was, k := s.completed, 0;
    at := from;
    IdleLength(s);
    ghost var p, size := |Print(m)|, Capacity(s.bodySize, s.chunk, s.limit);
    while s.alive && s.completed == was
      invariant s.Valid() && from <= at <= |input| && s.counter == old(s.counter)
      invariant s.alive ==> s.open == (s.completed && !was) && (was ==> s.completed)
      invariant s.served == old(s.served) + if s.alive && s.open then 1 else 0
      invariant s.parser == old(s.parser) && (s.body == old(s.body) || fresh(s.body))
      invariant size == Capacity(s.bodySize, s.chunk, s.limit)
      invariant s.alive && !s.open ==> at < p && s.raw == input[..at] && s.bodyLength == at
      invariant s.alive && s.open ==> Served(s, m, input, at) && p <= at <= s.bodySize <= size
      invariant s.alive && !s.open ==> s.closeNow == old(s.closeNow)
      invariant s.alive && s.open ==>
        s.closeNow == ClosesAfter(m, s.keepAlive, rooted, s.counter >= s.max, old(s.closeNow))
      invariant !s.alive ==> was || size < p
      invariant old(s.bodySize) <= s.bodySize && (s.alive && s.bodySize > old(s.bodySize) ==> old(s.bodySize) < p)
      invariant ask == [] && |input| <= old(s.bodySize) ==> at == |input| || (at == from && s.alive)
      decreases s.alive && s.completed == was, |input| - at
    {
      var room := s.Room();
      RoomBounds(s);
      var n := if k < |ask| && 0 < ask[k] < room then ask[k] else room;
      if n > |input| - at {
        n := |input| - at;
      }
      CapacityBounds(s.bodySize, s.chunk, s.limit);
      ReadPiece(s, m, more, input, at, n, rooted);
      CapacityBounds(s.bodySize, s.chunk, s.limit);
      at, k := at + n, k + 1;
    }
  }

  /** The request is being answered with every field as it was printed, and exactly what came behind it is unread. */
  ghost predicate Served(s: Session, m: Message, input: string, at: nat)
    requires m.verb < |METHODS|
    reads s, s.parser, s.body
  {
    && s.alive && s.open && |Print(m)| <= at <= |input|
    && Parsed(s.parser.View(), m, input[..at]) && s.Unread() == input[|Print(m)|..at]
  }

  /** A waiting session reads a request, and possibly bytes behind it, in pieces of any size. */
  method ReadRequest(s: Session, ghost m: Message, ghost more: string, input: string, ask: seq<nat>, rooted: bool)
      returns (at: nat)
    requires s.Valid() && s.alive && !s.open && !s.completed && s.raw == ""
    requires WellFormed(m) && (m.body != "" ==> more == "") && input == Print(m) + more
    modifies s, s.parser, s.body
    ensures s.Valid() && at <= |input| && s.counter == old(s.counter)
    ensures s.parser == old(s.parser) && (s.body == old(s.body) || fresh(s.body))
    ensures if |Print(m)| <= old(Capacity(s.bodySize, s.chunk, s.limit))
      then
        && Served(s, m, input, at) && s.served == old(s.served) + 1
        && s.closeNow == ClosesAfter(m, s.keepAlive, rooted, s.counter >= s.max, old(s.closeNow))
      else !s.alive && s.served == old(s.served)
    ensures s.alive ==> (s.bodySize == old(s.bodySize) <==> |Print(m)| <= old(s.bodySize))
    ensures Capacity(s.bodySize, s.chunk, s.limit) == old(Capacity(s.bodySize, s.chunk, s.limit))
    ensures ask == [] && |input| <= old(s.bodySize) ==> at == |input|
  {
    hide Print, Parsed, HeadersFine, Capacity, Session.Ready, Session.Holding, Session.Idle, Session.Unread, Served,
      ClosesAfter;
    PrintNotEmpty(m);
    at := ReadRest(s, m, more, input, 0, ask, rooted);
  }

  /** The answer to `m` is the last one: the limit is reached, or the connection is to be closed. */
  predicate Last(m: Message, keepAlive: bool, rooted: bool, full: bool, before: bool) {
    full || ClosesAfter(m, keepAlive, rooted, full, before)
  }

  /** How many requests are answered when each waits for the answer before. */
  function Answered(ms: seq<Message>, keepAlive: bool, rooted: bool, counter: nat, max: nat, before: bool): nat
    decreases ms
  {
    if ms == [] then 0
    else if Last(ms[0], keepAlive, rooted, counter >= max, before) then 1
    else 1 + Answered(ms[1..], keepAlive, rooted, counter + 1, max, false)
  }

  /** One request is read and answered; the connection is closed exactly if it is the last one. */
  method ReadAndEnd(s: Session, ghost m: Message, input: string, ask: seq<nat>, rooted: bool)
    requires s.Valid() && s.alive && !s.open && !s.completed && s.raw == ""
    requires WellFormed(m) && input == Print(m) && |input| <= Capacity(s.bodySize, s.chunk, s.limit)
    modifies s, s.parser, s.body
    ensures s.Valid() && s.served == old(s.served) + 1
    ensures s.alive <==> !Last(m, s.keepAlive, rooted, old(s.counter) >= s.max, old(s.closeNow))
    ensures s.alive ==> !s.open && !s.completed && s.raw == "" && !s.closeNow && s.counter == old(s.counter) + 1
    ensures s.parser == old(s.parser) && (s.body == old(s.body) || fresh(s.body))
    ensures Capacity(s.bodySize, s.chunk, s.limit) == old(Capacity(s.bodySize, s.chunk, s.limit))
  {
    hide Print, Parsed, HeadersFine, Capacity, ClosesAfter, Session.Ready, Session.Holding, Session.Idle,
      Session.Unread;
    assert input == Print(m) + "";
    var at := ReadRequest(s, m, "", input, ask, rooted);
    assert input[|Print(m)|..at] == "";
    var ret := s.RequestEnd(rooted);
  }

  /**
   * Requests that each wait for the answer before: they are answered up to the first that closes
   * the connection, and it is open after that exactly if none did.
   */
  method Converse(s: Session, ghost ms: seq<Message>, inputs: seq<string>, rooted: bool) returns (n: nat)
    requires s.Valid() && s.alive && !s.open && !s.completed && s.raw == "" && !s.closeNow && |ms| == |inputs|
    requires forall k :: 0 <= k < |ms| ==>
      WellFormed(ms[k]) && inputs[k] == Print(ms[k]) && |inputs[k]| <= Capacity(s.bodySize, s.chunk, s.limit)
    modifies s, s.parser, s.body
    ensures s.Valid() && n == Answered(ms, s.keepAlive, rooted, old(s.counter), s.max, false)
    ensures s.served == old(s.served) + n
    ensures s.alive <==>
      n == |ms| && (n > 0 ==> !Last(ms[n - 1], s.keepAlive, rooted, old(s.counter) + (n - 1) >= s.max, false))
  {
    hide Print, HeadersFine, Capacity, Last, Answered, Session.Valid;
    n := 0;
    IdleLength(s);
    assert ms[0..] == ms && ms[|ms|..] == [];
    ghost var counter := s.counter;
    AnsweredNone(s.keepAlive, rooted, counter + |ms|, s.max);
    while n < |inputs| && s.alive
      invariant s.Valid() && n <= |ms| && s.served == old(s.served) + n
      invariant s.alive ==> !s.open && !s.completed && s.raw == "" && !s.closeNow && s.counter == counter + n
      invariant s.parser == old(s.parser) && (s.body == old(s.body) || fresh(s.body))
      invariant Capacity(s.bodySize, s.chunk, s.limit) == old(Capacity(s.bodySize, s.chunk, s.limit))
      invariant Answered(ms, s.keepAlive, rooted, counter, s.max, false) ==
        n + if s.alive then Answered(ms[n..], s.keepAlive, rooted, counter + n, s.max, false) else 0
      invariant s.alive || n > 0
      invariant n > 0 ==> (s.alive <==> !Last(ms[n - 1], s.keepAlive, rooted, counter + (n - 1) >= s.max, false))
    {
      AnsweredStep(ms, n, s.keepAlive, rooted, counter + n, s.max);
      ReadAndEnd(s, ms[n], inputs[n], [], rooted);
      n := n + 1;
    }
  }

  lemma {:induction false} AnsweredStep(ms: seq<Message>, n: nat, keepAlive: bool, rooted: bool, counter: nat, max: nat)
    requires n < |ms|
    ensures Answered(ms[n..], keepAlive, rooted, counter, max, false) ==
      if Last(ms[n], keepAlive, rooted, counter >= max, false) then 1
      else 1 + Answered(ms[n + 1..], keepAlive, rooted, counter + 1, max, false)
  {
    hide Last;
    assert ms[n..][0] == ms[n] && ms[n..][1..] == ms[n + 1..];
  }

  lemma {:induction false} AnsweredNone(keepAlive: bool, rooted: bool, counter: nat, max: nat)
    ensures Answered([], keepAlive, rooted, counter, max, false) == 0
  {
  }

  /** The same for a request that was in the buffer when the answer before it ended. */
  method NextAndEnd(s: Session, ghost m: Message, rooted: bool)
    requires s.Valid() && s.alive && s.open && s.counter < s.max && WellFormed(m) && s.Unread() == Print(m)
    modifies s, s.parser, s.body
    ensures s.Valid() && s.served == old(s.served) + 1
    ensures s.alive <==> !Last(m, s.keepAlive, rooted, old(s.counter) + 1 >= s.max, old(s.closeNow))
  {
    hide Print, Parsed, HeadersFine, ClosesAfter, HP.Run, Session.Ready, Session.Holding, Session.Idle, Session.Unread;
    PrintNotEmpty(m);
    FirstCall(m, |Print(m)|);
    ghost var before := s.closeNow;
    var ret := s.RequestEnd(rooted);
    ClosesMeans(s.parser.View(), m, Print(m), s.keepAlive, rooted, s.counter >= s.max, before);
    ret := s.RequestEnd(rooted);
  }

  // -------------------------------------------- many requests in many reads

  /** Where the first `n` bytes of a row of requests end. */
  lemma {:induction false} Cut(ms: seq<Message>, rest: string, n: nat) returns (j: nat, tail: string)
    requires Bodyless(ms) && n <= |PrintAll(ms) + rest|
    ensures j <= |ms| && (PrintAll(ms) + rest)[..n] == PrintAll(ms[..j]) + tail
    ensures j < |ms| ==> |tail| < |Print(ms[j])| && tail == Print(ms[j])[..|tail|]
    decreases |ms|
  {
    hide Print, WellFormed, PrintAll;
    BodylessFine(ms);
    if ms == [] {
      NothingPrinted(rest);
      return 0, rest[..n];
    }
    var p, more := Print(ms[0]), PrintAll(ms[1..]) + rest;
    PrintHead(ms, rest);
    if n < |p| {
      NothingPrinted(p[..n]);
      assert (p + more)[..n] == p[..n] && ms[..0] == [];
      return 0, p[..n];
    }
    j, tail := Cut(ms[1..], rest, n - |p|);
    PartPrinted(ms, j, tail, p + more, n, rest);
    j := j + 1;
  }

  /** No request is found in a proper beginning of one. */
  lemma {:induction false} NoneInPart(m: Message, c: nat, budget: nat)
    requires WellFormed(m) && c < |Print(m)|
    ensures Requests(Print(m)[..c], budget) == []
  {
    hide Print, HP.Run, HeadersFine;
    FirstCall(m, c);
    assert |Print(m)[..c]| == c;
  }

  /**
   * A waiting session reads pipelined requests in pieces of any size until the first of them is
   * complete, and answers what it has: `j` of the requests have come as a whole, and exactly these
   * are served, in order, as far as the keep-alive limit goes.  What has come of the next one is
   * not; only bytes behind all of the requests may hold more.
   */
  method ReadAndDrain(s: Session, ghost ms: seq<Message>, ghost rest: string, input: string, ask: seq<nat>,
      rooted: bool)
      returns (at: nat, first: HP.State, got: seq<HP.State>, ghost j: nat, ghost tail: string)
    requires s.Valid() && s.alive && !s.open && !s.completed && s.raw == ""
    requires Bodyless(ms) && ms != [] && input == PrintAll(ms) + rest
    requires |Print(ms[0])| <= Capacity(s.bodySize, s.chunk, s.limit)
    modifies s, s.parser, s.body
    ensures s.Valid() && 1 <= j <= |ms| && at <= |input| && input[..at] == PrintAll(ms[..j]) + tail
    ensures j < |ms| ==> |tail| < |Print(ms[j])|
    ensures ask == [] && |input| <= old(s.bodySize) ==> at == |input|
    ensures s.served == old(s.served) + 1 + |got| && Parsed(first, ms[0], input[..at])
    ensures forall k :: 1 <= k < j && k <= |got| ==> Parsed(got[k - 1], ms[k], PrintAll(ms[k..j]) + tail)
    ensures var budget := s.max - old(s.counter);
      if budget < j - 1 then |got| == budget
      else |got| >= j - 1 && got[j - 1..] == if j < |ms| then [] else Requests(tail, budget - (j - 1))
  {
    hide Print, Parsed, HeadersFine, Capacity, Requests, WellFormed, PrintAll, Session.Ready, Session.Holding,
      Session.Idle, Session.Unread;
    BodylessFine(ms);
    ghost var m, more, p := ms[0], PrintAll(ms[1..]) + rest, |Print(ms[0])|;
    PrintHead(ms, rest);
    ghost var budget := s.max - s.counter;
    at := ReadRequest(s, m, more, input, ask, rooted);
    first := s.parser.View();
    j, tail := Cut(ms[1..], rest, at - p);
    assert input[p..at] == more[..at - p];
    ghost var some := ms[1..][..j];
    var ret;
    got, ret := DrainThese(s, some, tail, rooted);
    PartPrinted(ms, j, tail, input, at, rest);
    if j < |ms| - 1 && j <= budget {
      NoneInPart(ms[j + 1], |tail|, budget - j);
    }
    forall k | 1 <= k <= j && k <= |got|
      ensures Parsed(got[k - 1], ms[k], PrintAll(ms[k..j + 1]) + tail)
    {
      Shifted(ms, j, k);
    }
    j := j + 1;
  }

  lemma {:induction false} Shifted(ms: seq<Message>, j: nat, k: nat)
    requires 1 <= k <= j && j + 1 <= |ms|
    ensures ms[1..][..j][k - 1..] == ms[k..j + 1] && ms[1..][..j][k - 1] == ms[k]
  {
  }

  lemma {:induction false} PrintHead(ms: seq<Message>, rest: string)
    requires ms != [] && forall k :: 0 <= k < |ms| ==> ms[k].verb < |METHODS|
    ensures PrintAll(ms) + rest == Print(ms[0]) + (PrintAll(ms[1..]) + rest)
  {
    hide Print;
  }

  lemma {:induction false} BodylessFine(ms: seq<Message>)
    requires Bodyless(ms)
    ensures forall k :: 0 <= k < |ms| ==> WellFormed(ms[k]) && ms[k].body == "" && ms[k].verb < |METHODS|
    ensures forall k :: 0 <= k <= |ms| ==> Bodyless(ms[..k]) && Bodyless(ms[k..])
  {
    hide HeadersFine;
  }

  lemma {:induction false} PartPrinted(ms: seq<Message>, j: nat, tail: string, input: string, at: nat, rest: string)
    requires j + 1 <= |ms| && forall k :: 0 <= k < |ms| ==> ms[k].verb < |METHODS|
    requires input == PrintAll(ms) + rest && |Print(ms[0])| <= at <= |input|
    requires (PrintAll(ms[1..]) + rest)[..at - |Print(ms[0])|] == PrintAll(ms[1..][..j]) + tail
    ensures input[..at] == PrintAll(ms[..j + 1]) + tail
  {
    hide Print;
    var p, more := Print(ms[0]), PrintAll(ms[1..]) + rest;
    assert input == p + more;
    assert input[..at] == p + more[..at - |p|];
    assert ms[..j + 1][0] == ms[0] && ms[..j + 1][1..] == ms[1..][..j];
    assert p + (PrintAll(ms[1..][..j]) + tail) == p + PrintAll(ms[1..][..j]) + tail;
  }

  // ------------------------------------------------- a request that is cut

  /**
   * The first `c` bytes of the next request are in the buffer when a response has been sent, and
   * the others come in any reads.  The request is answered if and only if all of it was there, or
   * nothing was there, the connection is to stay open, and it fits into the largest buffer.  A
   * request that is cut is lost: the read that completes it closes the connection.
   */
  method CutRequest(s: Session, ghost m: Message, ghost more: string, input: string, c: nat, ask: seq<nat>,
      rooted: bool)
      returns (at: nat)
    requires s.Valid() && s.alive && s.open && WellFormed(m) && (m.body != "" ==> more == "")
    requires input == Print(m) + more && c <= |Print(m)| && s.Unread() == input[..c]
    modifies s, s.parser, s.body
    ensures s.Valid() && c <= at <= |input|
    ensures var fits := |Print(m)| <= old(Capacity(s.bodySize, s.chunk, s.limit));
      if old(s.counter) < s.max && (c == |Print(m)| || (c == 0 && !old(s.closeNow) && fits))
      then
        && Served(s, m, input, at) && s.served == old(s.served) + 1
        && s.closeNow == ClosesAfter(m, s.keepAlive, rooted, s.counter >= s.max, old(s.closeNow))
      else !s.alive && s.served == old(s.served)
  {
    hide Print, Parsed, HP.Run, HeadersFine, Piecewise, Capacity, Session.Ready, Session.Holding, Session.Idle,
      Session.Unread;
    ghost var p := Print(m);
    PrintNotEmpty(m);
    assert input[..c] == p[..c] && (c == |p| ==> p[..c] == p);
    FirstCall(m, c);
    ghost var before := s.closeNow;
    var ret := s.RequestEnd(rooted);
    at := c;
    if ret == 1 {
      ClosesMeans(s.parser.View(), m, p, s.keepAlive, rooted, s.counter >= s.max, before);
    }
    if ret == 0 {
      at := ReadRest(s, m, more, input, c, ask, rooted);
    }
  }

  /** A call on the first bytes of a request. */
  lemma {:induction false} FirstCall(m: Message, c: nat)
    requires WellFormed(m) && c <= |Print(m)|
    ensures 0 < c < |Print(m)| ==> HP.Run(HP.INITIAL, Print(m)[..c], c).Pending?
    ensures c == |Print(m)| ==>
      var r := HP.Run(HP.INITIAL, Print(m), c);
      r.Ok? && Parsed(r.s, m, Print(m)) && Following(Print(m), r.s.i) == ""
  {
    hide Print, Parsed, HP.Run, HeadersFine;
    PrintNotEmpty(m);
    if c == |Print(m)| {
      assert Print(m) + "" == Print(m) && [c][..0] == [];
      AnyReads(m, "", [c]);
      OneCall(Print(m));
    } else if c > 0 {
      PrefixPending(m, c, [c]);
      OneCall(Print(m)[..c]);
    }
  }

  lemma {:induction false} OneCall(b: string)
    ensures Piecewise(b, [|b|]) == HP.Run(HP.INITIAL, b, |b|)
  {
    hide HP.Run;
    assert [|b|][..0] == [];
    assert Piecewise(b, []) == HP.Pending(HP.INITIAL);
  }
}

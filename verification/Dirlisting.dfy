/** A directory listing that feeds itself to the channel, one row at a time. */
module Dirlisting {
  import opened Wrappers
  import opened IoVectors
  import opened Channels
  import opened Texts
  import Coding = ChunkedCoding

  const HEADER_FINISH := 1
  const BODY_ROWS := 2
  const COMPLETE := 3

  function Join(pieces: seq<string>): string {
    if pieces == [] then "" else Join(pieces[..|pieces| - 1]) + pieces[|pieces| - 1]
  }

  // ------------------------------------------------------------- the page

  /** How one piece of the page goes over the wire. */
  function Coded(chunked: bool, x: string): string {
    if chunked then Coding.Chunk(x) else x
  }

  function CodedRows(chunked: bool, rows: seq<string>): string {
    if rows == [] then "" else CodedRows(chunked, rows[..|rows| - 1]) + Coded(chunked, rows[|rows| - 1])
  }

  function CodedEnd(chunked: bool, footer: string): string {
    Coded(chunked, footer) + if chunked then Coding.LAST else ""
  }

  function Page(chunked: bool, header: string, rows: seq<string>, footer: string): string {
    Coded(chunked, header) + CodedRows(chunked, rows) + CodedEnd(chunked, footer)
  }

  lemma {:induction false} RowsBack(rows: seq<string>, rest: string)
    requires forall k :: 0 <= k < |rows| ==> rows[k] != ""
    ensures Coding.Dechunk(CodedRows(true, rows) + rest) ==
      match Coding.Dechunk(rest) case None => None case Some(t) => Some(Join(rows) + t)
    decreases |rows|
  {
    hide Coding.Dechunk, Coding.Chunk;
    if rows == [] {
      assert CodedRows(true, rows) + rest == rest;
      assert forall t: string :: Join(rows) + t == t;
    } else {
      var front, last := rows[..|rows| - 1], rows[|rows| - 1];
      var tail := Coding.Chunk(last) + rest;
      assert CodedRows(true, rows) + rest == CodedRows(true, front) + tail;
      RowsBack(front, tail);
      Coding.ChunkBack(last, rest);
      assert forall t: string :: Join(front) + (last + t) == Join(rows) + t;
    }
  }

  /** Decoded, the page is the header, every row once and in order, and the footer. */
  lemma {:induction false} PageBack(header: string, rows: seq<string>, footer: string)
    requires header != "" && footer != "" && forall k :: 0 <= k < |rows| ==> rows[k] != ""
    ensures Coding.Dechunk(Page(true, header, rows, footer)) == Some(header + Join(rows) + footer)
  {
    hide Coding.Dechunk, Coding.Chunk;
    var end := Coding.Chunk(footer) + Coding.LAST;
    Coding.LastBack();
    Coding.ChunkBack(footer, Coding.LAST);
    RowsBack(rows, end);
    Coding.ChunkBack(header, CodedRows(true, rows) + end);
    assert Page(true, header, rows, footer) == Coding.Chunk(header) + (CodedRows(true, rows) + end);
    assert footer + "" == footer;
    assert header + (Join(rows) + footer) == header + Join(rows) + footer;
  }

  lemma {:induction false} PlainRows(rows: seq<string>)
    ensures CodedRows(false, rows) == Join(rows)
  {
    if rows != [] {
      PlainRows(rows[..|rows| - 1]);
    }
  }

  // ----------------------------------------------------------- callbacks

  /** No queued stream calls the listing back. */
  ghost predicate Quiet(live: seq<Stream>) {
    forall k :: 0 <= k < |live| ==> live[k].callback == 0
  }

  /** Only the last queued stream calls back, with `cb`. */
  ghost predicate Marked(live: seq<Stream>, cb: nat) {
    live != [] && Quiet(live[..|live| - 1]) && live[|live| - 1].callback == cb
  }

  /** No queued stream refers to a vector. */
  ghost predicate NoVectors(live: seq<Stream>) {
    forall k :: 0 <= k < |live| ==> live[k].iov == null
  }

  /** Only the stream of the page header calls back, and behind it there are no vectors. */
  ghost predicate Opening(live: seq<Stream>, h: Stream) {
    && h in live && h.callback == HEADER_FINISH
    && (forall k :: 0 <= k < |live| ==> live[k].callback == 0 || live[k] == h)
    && (forall j, k :: 0 <= j < k < |live| && live[j] == h ==> live[k].iov == null)
  }

  lemma {:induction false} OpeningTail(live: seq<Stream>, h: Stream)
    requires Opening(live, h) && Distinct(live)
    ensures live[0] == h ==> Quiet(live[1..]) && NoVectors(live[1..]) && live[0].callback == HEADER_FINISH
    ensures live[0] != h ==> Opening(live[1..], h) && live[0].callback == 0
  {
  }

  lemma {:induction false} MarkedTail(live: seq<Stream>, cb: nat)
    requires Marked(live, cb)
    ensures |live| == 1 ==> live[0].callback == cb && live[1..] == []
    ensures |live| > 1 ==> live[0].callback == 0 && Marked(live[1..], cb)
  {
    if |live| > 1 {
      assert live[0] == live[..|live| - 1][0];
      assert live[1..][..|live| - 2] == live[..|live| - 1][1..];
    }
  }

  datatype Stage = Header | Rows | Footer | Done

  /** Some stream was given exactly this text. */
  ghost predicate Among(x: string, all: seq<Stream>) {
    exists k :: 0 <= k < |all| && all[k].whole == x
  }

  lemma {:induction false} AmongMore(x: string, all: seq<Stream>, more: seq<Stream>)
    ensures Among(x, all) || Among(x, more) ==> Among(x, all + more)
  {
    if Among(x, all) {
      var k :| 0 <= k < |all| && all[k].whole == x;
      assert (all + more)[k].whole == x;
    } else if Among(x, more) {
      var k :| 0 <= k < |more| && more[k].whole == x;
      assert (all + more)[|all| + k].whole == x;
    }
  }

  lemma {:induction false} WholeAdd(ss: seq<Stream>, s: Stream)
    ensures Whole(ss + [s]) == Whole(ss) + s.whole
  {
    assert (ss + [s])[..|ss|] == ss;
  }

  /** struct mk_dirhtml_request; the theme has rendered header, rows and footer into pieces */
  class Listing {
    const channel: Channel
    const chunked: bool
    const toc: seq<seq<string>>
    var tocIdx: nat
    var iovEntry: Iov?
    var iovFooter: Iov?
    /** mk_dirhtml_cleanup has been called */
    var released: bool
    ghost const header: string
    ghost const footer: string
    /** what the channel had been given before */
    ghost const base: string
    ghost const opener: Stream
    /** the channel had only been given streams with bytes */
    ghost const steady: bool
    ghost var stage: Stage

    /** The text of row `i`. */
    function Row(i: nat): string {
      if i < |toc| then Join(toc[i]) else ""
    }

    function RowsUpto(n: nat): seq<string> {
      seq(n, i requires 0 <= i => Row(i))
    }

    /** Everything that was appended so far, on the wire. */
    ghost function Emitted(st: Stage, n: nat): string {
      Coded(chunked, header) + CodedRows(chunked, RowsUpto(n)) +
        if st.Footer? || st.Done? then CodedEnd(chunked, footer) else ""
    }

    ghost predicate FooterReady()
      reads this, iovFooter, if iovFooter == null then {} else {iovFooter.io}, channel`repr
    {
      iovFooter != null && iovFooter.Valid() && iovFooter.Contents() == footer && iovFooter.totalLen == |footer| &&
      iovFooter !in channel.repr && iovFooter.io !in channel.repr
    }

    /** All pieces of the page say something. */
    ghost predicate Fed() {
      header != "" && footer != "" && forall i :: 0 <= i < |toc| ==> Row(i) != ""
    }

    /** The pieces that the channel has been given are streams of their own. */
    ghost predicate Streamed(all: seq<Stream>, st: Stage, n: nat) {
      && Among(header, all) && (forall i :: 0 <= i < n ==> Among(Row(i), all))
      && (st.Footer? || st.Done? ==> Among(footer, all))
    }

    ghost predicate Shape(live: seq<Stream>, st: Stage) {
      match st
      case Header => Opening(live, opener)
      case Rows => Marked(live, BODY_ROWS)
      case Footer => Marked(live, COMPLETE)
      case Done => Quiet(live)
    }

    /** What holds between writes, as long as none has failed. */
    ghost predicate Valid()
      reads this, channel, channel.repr, iovFooter, if iovFooter == null then {} else {iovFooter.io}
    {
      && channel.Valid() && this !in channel.repr && !channel.closing
      && (!channel.failed ==>
            && Shape(channel.Live(), stage) && Progress())
    }

    /** The footer's vector, which is to be queued later. */
    ghost function Footing(): set<object>
      reads this
    {
      if iovFooter == null then {} else {iovFooter, iovFooter.io}
    }

    ghost predicate Progress()
      reads this, channel`all, channel`repr, iovFooter, if iovFooter == null then {} else {iovFooter.io}
    {
      && Whole(channel.all) == base + Emitted(stage, tocIdx) && Streamed(channel.all, stage, tocIdx)
      && (steady && Fed() ==> Flows(channel.all))
      && tocIdx <= |toc| && (stage.Header? ==> tocIdx == 0) && (stage.Footer? || stage.Done? ==> tocIdx == |toc|)
      && (stage.Header? || stage.Rows? ==> FooterReady())
      && released == stage.Done?
    }

    /** mk_dirhtml_theme_compose: a vector of the rendered pieces */
    static method Compose(pieces: seq<string>) returns (iov: Iov)
      ensures fresh(iov) && fresh(iov.io) && iov.Valid() && iov.Contents() == Join(pieces) &&
        iov.totalLen == |Join(pieces)|
    {
      iov := new Iov(|pieces|);
      for k := 0 to |pieces|
        invariant fresh(iov) && fresh(iov.io) && iov.Valid() && iov.idx == k && iov.io.Length == |pieces|
        invariant iov.Contents() == Join(pieces[..k]) && iov.totalLen == |Join(pieces[..k])|
      {
        assert pieces[..k + 1][..k] == pieces[..k];
        iov.Add(pieces[k], false);
      }
      assert pieces[..|pieces|] == pieces;
    }

    /** One piece of the page: in chunked coding between its size and `tail`. */
    static method Enqueue(channel: Channel, chunked: bool, iov: Iov, cbOk: nat, tail: string, cbTail: nat)
      returns (vector: Stream, ghost added: seq<Stream>)
      requires channel.Valid() && iov.Valid() && iov.totalLen == |iov.Contents()|
      requires iov !in channel.repr && iov.io !in channel.repr
      modifies channel
      ensures channel.Valid() && fresh(vector) && vector.callback == cbOk
      ensures channel.streams == old(channel.streams) + added && channel.all == old(channel.all) + added
      ensures channel.Live() == old(channel.Live()) + added
      ensures Whole(channel.all) == old(Whole(channel.all)) + Framed(chunked, iov.Contents(), tail)
      ensures channel.sent == old(channel.sent) && channel.fired == old(channel.fired)
      ensures channel.failed == old(channel.failed) && channel.closing == old(channel.closing)
      ensures fresh(channel.repr - old(channel.repr) - {iov, iov.io})
      ensures Triple(added, chunked, vector, cbTail) && vector.whole == old(iov.Contents())
      ensures old(iov.Contents()) != "" && tail != "" ==> Flows(added)
    {
      hide Whole, Channel.Valid, Coding.Hex;
      var text := iov.Contents();
      if chunked {
        var size := channel.SetCopy(Coding.Hex(iov.totalLen) + CRLF, 0);
        vector := channel.SetVector(iov, cbOk);
        var end := channel.SetCopy(tail, cbTail);
        added := [size, vector, end];
        Whole3(old(channel.all), size, vector, end);
      } else {
        vector := channel.SetVector(iov, cbOk);
        added := [vector];
        WholeAdd(old(channel.all), vector);
      }
    }

    /** mk_dirhtml_init, from the composed theme on */
    constructor (channel: Channel, chunked: bool, head: seq<string>, toc: seq<seq<string>>, foot: seq<string>)
      requires channel.Valid() && !channel.closing && !channel.failed && Quiet(channel.Live())
      modifies channel
      ensures Valid() && stage.Header? && !channel.failed && !released
      ensures this.channel == channel && this.chunked == chunked && this.toc == toc && header == Join(head) &&
        footer == Join(foot)
      ensures base == old(Whole(channel.all)) && channel.sent == old(channel.sent)
      ensures steady == old(Flows(channel.all))
      ensures fresh(channel.repr + Footing() - old(channel.repr))
    {
      hide Whole, Channel.Valid, Coded, CodedRows, CodedEnd, Quiet, NoVectors, Opening, Emitted, Streamed, Among;
      var iov := Compose(foot);
      var was, flows := Whole(channel.all), Flows(channel.all);
      var vector := Announce(channel, chunked, head);
      this.channel, this.chunked, this.toc := channel, chunked, toc;
      tocIdx, iovEntry, iovFooter, released := 0, null, iov, false;
      header, footer, base, opener, steady, stage := Join(head), Join(foot), was, vector, flows, Header;
      new;
      EmittedFirst();
      StreamedFirst(channel.all);
    }

    /** The page header goes into the queue. */
    static method Announce(channel: Channel, chunked: bool, head: seq<string>) returns (vector: Stream)
      requires channel.Valid() && !channel.closing && !channel.failed && Quiet(channel.Live())
      modifies channel
      ensures channel.Valid() && !channel.closing && !channel.failed && fresh(channel.repr - old(channel.repr))
      ensures Opening(channel.Live(), vector) && Among(Join(head), channel.all)
      ensures old(Flows(channel.all)) && Join(head) != "" ==> Flows(channel.all)
      ensures Whole(channel.all) == old(Whole(channel.all)) + Coded(chunked, Join(head))
      ensures channel.sent == old(channel.sent)
    {
      hide Whole, Channel.Valid, Coded, CodedEnd, Quiet, Opening, Framed, Among;
      ghost var live, all := channel.Live(), channel.all;
      var iovHeader := Compose(head);
      ghost var added;
      vector, added := Enqueue(channel, chunked, iovHeader, HEADER_FINISH, CRLF, 0);
      FramedIsCoded(chunked, Join(head), "");
      Opens(live, added, vector);
      InTriple(added, chunked, vector, 0);
      AmongMore(Join(head), all, added);
    }

    lemma {:induction false} StreamedFirst(all: seq<Stream>)
      requires Among(header, all)
      ensures Streamed(all, Header, 0)
    {
    }

    lemma {:induction false} EmittedFirst()
      ensures Emitted(Header, 0) == Coded(chunked, header)
    {
      assert RowsUpto(0) == [];
    }

    /** A callback of the listing is running: nothing queued will call back, and nothing is released yet. */
    ghost predicate Called()
      reads this, channel, channel.repr, iovFooter, if iovFooter == null then {} else {iovFooter.io}
    {
      && channel.Valid() && this !in channel.repr && channel.closing && !channel.failed
      && Quiet(channel.Live()) && NoVectors(channel.Live())
      && Whole(channel.all) == base + Emitted(Rows, tocIdx) && Streamed(channel.all, Rows, tocIdx)
      && (steady && Fed() ==> Flows(channel.all))
      && tocIdx <= |toc| && FooterReady() && !released
    }

    /** A callback of the listing has run. */
    ghost predicate Answered()
      reads this, channel, channel.repr, iovFooter, if iovFooter == null then {} else {iovFooter.io}
    {
      && channel.Valid() && this !in channel.repr && channel.closing && !channel.failed
      && Shape(channel.Live(), stage) && Progress()
    }

    method AddFooter()
      requires Called() && tocIdx == |toc|
      modifies this`stage, channel
      ensures Answered() && stage.Footer?
      ensures fresh(channel.repr - old(channel.repr) - Footing()) && Footing() == old(Footing())
      ensures channel.sent == old(channel.sent) && channel.fired == old(channel.fired)
    {
      hide Whole, Channel.Valid, Coded, CodedRows, CodedEnd, Framed, Quiet, Emitted, Streamed, Among;
      FramedIsCoded(chunked, header, footer);
      var vector, added := Enqueue(channel, chunked, iovFooter, if chunked then 0 else COMPLETE, CRLF + Coding.LAST,
        COMPLETE);
      Marks(old(channel.Live()), added, chunked, COMPLETE);
      InTriple(added, chunked, vector, COMPLETE);
      StreamedMore(old(channel.all), added, Rows, tocIdx);
      EmittedFooter();
      Glue(base, Emitted(Rows, tocIdx), CodedEnd(chunked, footer));
      stage := Footer;
    }

    /** The rendered row becomes the next entry of the page. */
    method AddRow(iov: Iov)
      requires Called() && tocIdx < |toc| && iov.Valid() && iov.Contents() == Row(tocIdx) &&
        iov.totalLen == |Row(tocIdx)|
      requires iov !in channel.repr && iov.io !in channel.repr && iov != iovFooter && iov.io != iovFooter.io
      modifies this`stage, this`tocIdx, channel
      ensures Answered() && stage.Rows? && tocIdx == old(tocIdx) + 1
      ensures fresh(channel.repr - old(channel.repr) - {iov, iov.io}) && Footing() == old(Footing())
      ensures channel.sent == old(channel.sent) && channel.fired == old(channel.fired)
    {
      hide Whole, Channel.Valid, Coded, CodedRows, CodedEnd, Framed, Quiet, Emitted, Streamed, Among;
      FramedIsCoded(chunked, Row(tocIdx), footer);
      var vector, added := Enqueue(channel, chunked, iov, if chunked then 0 else BODY_ROWS, CRLF, BODY_ROWS);
      Marks(old(channel.Live()), added, chunked, BODY_ROWS);
      InTriple(added, chunked, vector, BODY_ROWS);
      StreamedMore(old(channel.all), added, Rows, tocIdx);
      EmittedRow(tocIdx);
      Glue(base, Emitted(Rows, tocIdx), Coded(chunked, Row(tocIdx)));
      stage := Rows;
      tocIdx := tocIdx + 1;
    }

    /** mk_dirhtml_cb_body_rows: the next row, or the footer */
    method BodyRows()
      requires Called()
      modifies this`tocIdx, this`iovEntry, this`stage, channel
      ensures Answered() && (stage.Rows? || stage.Footer?)
      ensures fresh(channel.repr - old(channel.repr) - Footing()) && Footing() == old(Footing())
      ensures channel.sent == old(channel.sent) && channel.fired == old(channel.fired)
    {
      hide Whole, Channel.Valid, Quiet, Emitted, Join;
      iovEntry := null;
      if tocIdx >= |toc| {
        AddFooter();
        return;
      }
      var iov := Compose(toc[tocIdx]);
      iovEntry := iov;
      AddRow(iov);
    }

    /** mk_dirhtml_cb_complete, and mk_dirhtml_cleanup */
    method Complete()
      requires channel.Valid() && this !in channel.repr && channel.closing && !channel.failed && channel.Live() == []
      requires stage.Footer? && Progress()
      modifies this`released, this`iovEntry, this`iovFooter, this`stage
      ensures Answered() && stage.Done? && old(!released) && Footing() == {}
    {
      hide Whole, Channel.Valid, Coded, CodedRows, CodedEnd;
      iovEntry, iovFooter := null, null;
      released := true;
      stage := Done;
    }

    /** The callback of the stream that has just been written out. */
    method Dispatch(callback: nat)
      requires channel.Valid() && this !in channel.repr && channel.closing && !channel.failed && Progress()
      requires Ready(callback)
      modifies this`tocIdx, this`iovEntry, this`iovFooter, this`stage, this`released, channel
      ensures Answered()
      ensures channel.sent == old(channel.sent) && channel.fired == old(channel.fired)
      ensures fresh(channel.repr - old(channel.repr) - old(Footing())) && Footing() <= old(Footing())
      ensures released ==> old(released) || callback == COMPLETE
      ensures old(released) ==> released
    {
      hide Whole, Channel.Valid, Coded, CodedRows, CodedEnd;
      if callback == HEADER_FINISH || callback == BODY_ROWS {
        BodyRows();
      } else if callback == COMPLETE {
        Complete();
      }
    }

    /** A write on the channel, with the callbacks of the listing. */
    method Step(net: Net) returns (ret: Ret)
      requires Valid() && !channel.failed && (net.Wrote? && channel.streams != [] ==>
        net.n <= channel.streams[0].bytesTotal)
      modifies this`tocIdx, this`iovEntry, this`iovFooter, this`stage, this`released, channel, channel.repr
      ensures Valid() && (channel.failed <==> ret == ERROR)
      ensures channel.failed <==>
        old(channel.streams) != [] &&
        (old(channel.streams)[0].kind.OTHER? ||
         (old(channel.streams)[0].Carries() && (net.Failed? || net == Wrote(0))))
      ensures old(channel.streams) == [] || net.Again? || net.Failed? || !old(channel.streams)[0].Carries() ==>
        channel.sent == old(channel.sent) && tocIdx == old(tocIdx) && stage == old(stage) && released == old(released)
      ensures old(channel.streams) != [] && net.Again? && old(channel.streams)[0].Carries() ==>
        ret == BUSY && channel.streams == old(channel.streams)
      ensures old(channel.streams) == [] ==> channel.streams == []
      ensures old(channel.streams) != [] && net.Wrote? && old(channel.streams)[0].Carries() ==>
        channel.sent == old(channel.sent) + old(channel.First())[..net.n]
      ensures fresh(channel.repr + Footing() - old(channel.repr + Footing()))
    {
      hide Whole, Channel.Valid, Coded, CodedRows, CodedEnd, Quiet, NoVectors, Shape, Emitted, Streamed, Progress,
        Ready;
      var head := if channel.streams == [] then 0 else channel.streams[0].callback;
      var r := Send(net);
      if r.Some? {
        return r.value;
      }
      Dispatch(head);
      ret := channel.Release();
    }

    /** The part of the write before the callback, and what the callback may rely on. */
    method Send(net: Net) returns (r: Option<Ret>)
      requires Valid() && !channel.failed && (net.Wrote? && channel.streams != [] ==>
        net.n <= channel.streams[0].bytesTotal)
      modifies channel, channel.repr
      ensures channel.Valid() && channel.repr == old(channel.repr) && this !in channel.repr
      ensures r == old(channel.Reply(net)) && channel.closing == r.None? && (channel.failed <==> r == Some(ERROR))
      ensures channel.streams == if r == Some(ERROR) then Tail(old(channel.streams)) else old(channel.streams)
      ensures channel.sent == old(channel.sent) + Taken(r, net, old(channel.First()))
      ensures old(channel.streams) != [] ==> |old(channel.First())| == old(channel.streams[0].bytesTotal)
      ensures !channel.failed ==> Progress()
      ensures r.Some? && !channel.failed ==> Shape(channel.Live(), stage)
      ensures r.None? ==> old(channel.streams) != [] && Ready(old(channel.streams[0].callback))
    {
      hide Whole, Channel.Valid, Coded, CodedRows, CodedEnd, Quiet, NoVectors, Shape, Emitted, Streamed;
      OnceEach(channel);
      if channel.streams != [] {
        HeadOwned(channel);
        Due(channel.Live(), stage);
      }
      r := channel.Transmit(net);
    }

    /** What a callback that is due may rely on. */
    ghost predicate Ready(callback: nat)
      reads this, channel
    {
      && callback <= COMPLETE
      && (callback == HEADER_FINISH ==> stage.Header? && Quiet(channel.Live()) && NoVectors(channel.Live()))
      && (callback == BODY_ROWS ==> stage.Rows? && channel.Live() == [])
      && (callback == COMPLETE ==> stage.Footer? && channel.Live() == [])
      && (callback == 0 ==> Shape(channel.Live(), stage))
    }

    /** What the callback of the first queued stream may rely on. */
    lemma {:induction false} Due(live: seq<Stream>, st: Stage)
      requires live != [] && Distinct(live) && Shape(live, st)
      ensures live[0].callback <= COMPLETE
      ensures live[0].callback == 0 ==> Shape(live[1..], st)
      ensures live[0].callback == HEADER_FINISH ==> st.Header? && Quiet(live[1..]) && NoVectors(live[1..])
      ensures live[0].callback == BODY_ROWS ==> st.Rows? && live[1..] == []
      ensures live[0].callback == COMPLETE ==> st.Footer? && live[1..] == []
    {
      match st
      case Header => OpeningTail(live, opener);
      case Rows => MarkedTail(live, BODY_ROWS);
      case Footer => MarkedTail(live, COMPLETE);
      case Done =>
    }

    lemma {:induction false} StreamedMore(all: seq<Stream>, more: seq<Stream>, st: Stage, n: nat)
      requires Streamed(all, st, n)
      ensures Streamed(all + more, st, n)
      ensures Among(Row(n), more) ==> Streamed(all + more, st, n + 1)
      ensures Among(footer, more) ==> Streamed(all + more, Footer, n)
    {
      hide Among;
      forall x: string
        ensures Among(x, all) || Among(x, more) ==> Among(x, all + more)
      {
        AmongMore(x, all, more);
      }
    }

    lemma {:induction false} EmittedFooter()
      ensures Emitted(Footer, |toc|) == Emitted(Rows, |toc|) + CodedEnd(chunked, footer)
    {
    }

    lemma {:induction false} EmittedRow(n: nat)
      ensures Emitted(Rows, n + 1) == Emitted(Rows, n) + Coded(chunked, Row(n))
    {
      assert RowsUpto(n + 1) == RowsUpto(n) + [Row(n)];
      assert RowsUpto(n + 1)[..n] == RowsUpto(n);
    }
  }

  /** What a piece of the page puts into the queue. */
  ghost predicate Triple(added: seq<Stream>, chunked: bool, vector: Stream, cbTail: nat) {
    if chunked then
      && |added| == 3 && added[1] == vector
      && added[0].callback == 0 && added[0].iov == null && added[2].callback == cbTail && added[2].iov == null
      && vector != added[0] && vector != added[2]
    else added == [vector]
  }

  lemma {:induction false} InTriple(added: seq<Stream>, chunked: bool, vector: Stream, cbTail: nat)
    requires Triple(added, chunked, vector, cbTail)
    ensures Among(vector.whole, added)
  {
    assert vector == if chunked then added[1] else added[0];
  }

  /** A piece of the page as it is appended. */
  function Framed(chunked: bool, x: string, tail: string): string {
    if chunked then Coding.Hex(|x|) + CRLF + x + tail else x
  }

  lemma {:induction false} FramedIsCoded(chunked: bool, x: string, footer: string)
    ensures Framed(chunked, x, CRLF) == Coded(chunked, x)
    ensures Framed(chunked, footer, CRLF + Coding.LAST) == CodedEnd(chunked, footer)
  {
    if chunked {
      Assoc(Coding.Hex(|x|), CRLF, x, CRLF, "");
      Assoc(Coding.Hex(|footer|), CRLF, footer, CRLF, Coding.LAST);
    }
  }

  lemma {:induction false} Assoc(a: string, b: string, c: string, d: string, e: string)
    ensures a + b + c + (d + e) == (a + (b + (c + d))) + e && (e == "" ==> a + b + c + d == a + (b + (c + d)))
  {
  }

  lemma {:induction false} Whole3(ss: seq<Stream>, a: Stream, b: Stream, c: Stream)
    ensures Whole(ss + [a, b, c]) == Whole(ss) + (a.whole + b.whole + c.whole)
    ensures ss + [a] + [b] + [c] == ss + [a, b, c]
  {
    WholeAdd(ss, a);
    WholeAdd(ss + [a], b);
    WholeAdd(ss + [a] + [b], c);
    assert ss + [a] + [b] + [c] == ss + [a, b, c];
  }

  lemma {:induction false} Marks(live: seq<Stream>, added: seq<Stream>, chunked: bool, cb: nat)
    requires Quiet(live) && |added| == if chunked then 3 else 1
    requires added[|added| - 1].callback == cb && (chunked ==> added[0].callback == added[1].callback == 0)
    ensures Marked(live + added, cb)
  {
    var all := live + added;
    assert all[..|all| - 1] == live + added[..|added| - 1];
  }

  lemma {:induction false} Glue(a: string, b: string, c: string)
    ensures (a + b) + c == a + (b + c)
  {
  }

  lemma {:induction false} Opens(live: seq<Stream>, added: seq<Stream>, h: Stream)
    requires Quiet(live) && h.callback == HEADER_FINISH && h in added
    requires forall k :: 0 <= k < |added| ==> added[k].callback == 0 || added[k] == h
    requires forall j, k :: 0 <= j < k < |added| && added[j] == h ==> added[k].iov == null
    ensures Opening(live + added, h)
  {
  }

  /** What has been appended is always a beginning of the page. */
  lemma {:induction false} EmittedPrefix(l: Listing, st: Stage, n: nat)
    requires n <= |l.toc| && (st.Footer? || st.Done? ==> n == |l.toc|)
    ensures exists rest :: l.Emitted(st, n) + rest == Page(l.chunked, l.header, l.RowsUpto(|l.toc|), l.footer)
    decreases |l.toc| - n
  {
    hide Coded, CodedRows;
    var page := Page(l.chunked, l.header, l.RowsUpto(|l.toc|), l.footer);
    if st.Footer? || st.Done? {
      assert l.Emitted(st, n) + "" == page;
    } else if n == |l.toc| {
      l.EmittedFooter();
      assert l.Emitted(st, n) == l.Emitted(Rows, n);
      assert l.Emitted(st, n) + CodedEnd(l.chunked, l.footer) == page;
    } else {
      EmittedPrefix(l, Rows, n + 1);
      var rest :| l.Emitted(Rows, n + 1) + rest == page;
      l.EmittedRow(n);
      Glue(l.Emitted(Rows, n), Coded(l.chunked, l.Row(n)), rest);
      assert l.Emitted(st, n) == l.Emitted(Rows, n);
      assert l.Emitted(st, n) + (Coded(l.chunked, l.Row(n)) + rest) == page;
    }
  }

  /** At any time, whatever the socket did, what has been sent is a beginning of the page. */
  lemma {:induction false} SentPrefix(l: Listing)
    requires l.Valid() && !l.channel.failed
    ensures exists rest :: l.channel.sent + rest == l.base + Page(l.chunked, l.header, l.RowsUpto(|l.toc|), l.footer)
  {
    hide Whole, Channel.Valid, Coded, CodedRows, CodedEnd, Page;
    Conserved(l.channel);
    EmittedPrefix(l, l.stage, l.tocIdx);
    var page := Page(l.chunked, l.header, l.RowsUpto(|l.toc|), l.footer);
    var rest :| l.Emitted(l.stage, l.tocIdx) + rest == page;
    var queue := l.channel.Queue();
    Glue(l.channel.sent, queue, rest);
    Glue(l.base, l.Emitted(l.stage, l.tocIdx), rest);
    assert l.channel.sent + (queue + rest) == l.base + page;
  }

  /** Every piece has gone out, so none is empty. */
  lemma {:induction false} AllSaid(l: Listing)
    requires l.Valid() && !l.channel.failed && l.channel.streams == []
    ensures l.Fed() && l.stage.Done? && l.tocIdx == |l.toc|
  {
    hide Whole, Distinct, Carriers, Apart;
    assert l.channel.all == l.channel.fired;
    forall x: string | Among(x, l.channel.all)
      ensures x != ""
    {
    }
  }

  /**
   * When the channel is empty without an error, the whole page has been sent and the request has
   * been released.  That happens only if every piece of the page says something: a stream of no
   * bytes is dropped with an error.
   */
  lemma {:induction false} Delivered(l: Listing)
    requires l.Valid() && !l.channel.failed && l.channel.streams == []
    ensures l.released && l.channel.sent == l.base + Page(l.chunked, l.header, l.RowsUpto(|l.toc|), l.footer)
    ensures var page := Page(l.chunked, l.header, l.RowsUpto(|l.toc|), l.footer);
      var text := l.header + Join(l.RowsUpto(|l.toc|)) + l.footer;
      if l.chunked then Coding.Dechunk(page) == Some(text) else page == text
    ensures l.Fed()
  {
    hide Whole, Channel.Valid, CodedRows;
    AllSaid(l);
    Conserved(l.channel);
    assert l.channel.sent + l.channel.Queue() == l.channel.sent;
    if l.chunked {
      PageBack(l.header, l.RowsUpto(|l.toc|), l.footer);
    } else {
      PlainRows(l.RowsUpto(|l.toc|));
    }
  }

  // ---------------------------------------------------------------- runs

  lemma {:induction false} HeadFlows(c: Channel)
    requires c.Valid() && !c.failed && !c.closing && c.streams != [] && Flows(c.all)
    ensures c.streams[0].Carries() && c.streams[0].bytesTotal > 0
  {
    hide Distinct, Apart, Carriers, Whole, Stream.Source, Stream.Valid;
    assert c.all[|c.fired|] == c.streams[0];
  }

  lemma {:induction false} PageBound(l: Listing)
    requires l.Valid() && !l.channel.failed
    ensures |l.channel.sent| <= |l.base + Page(l.chunked, l.header, l.RowsUpto(|l.toc|), l.footer)|
  {
    hide Channel.Valid, Page, Listing.Progress, Listing.Shape;
    SentPrefix(l);
  }

  /** One write to a socket that takes up to `take` bytes, or is busy if that is 0. */
  method ServeOnce(l: Listing, take: nat)
    requires l.Valid() && !l.channel.failed && l.steady && l.Fed()
    modifies l`tocIdx, l`iovEntry, l`iovFooter, l`stage, l`released, l.channel, l.channel.repr
    ensures l.Valid() && !l.channel.failed
    ensures fresh(l.channel.repr + l.Footing() - old(l.channel.repr + l.Footing()))
    ensures old(l.channel.streams) == [] ==> l.channel.streams == []
    ensures |l.channel.sent| >= old(|l.channel.sent|) + (if take > 0 then 1 else 0) || l.channel.streams == []
  {
    hide Channel.Valid, Listing.Shape, Listing.Fed, Flows;
    var net := Again;
    if l.channel.streams != [] {
      HeadOwned(l.channel);
      HeadFlows(l.channel);
      net := Says(take, l.channel.streams[0].bytesTotal);
    }
    var ret := l.Step(net);
  }

  /**
   * A page without an empty piece, on a socket that takes some bytes or is busy, never fails, and
   * each byte that is taken is one less to send: when there have been enough, the whole page has
   * been sent and the request has been released.
   */
  method Serve(l: Listing, takes: seq<nat>)
    requires l.Valid() && !l.channel.failed && l.steady && l.Fed()
    modifies l`tocIdx, l`iovEntry, l`iovFooter, l`stage, l`released, l.channel, l.channel.repr, l.Footing()
    ensures l.Valid() && !l.channel.failed
    ensures |l.channel.sent| >= old(|l.channel.sent|) + Positive(takes) || l.channel.streams == []
    ensures var page := l.base + Page(l.chunked, l.header, l.RowsUpto(|l.toc|), l.footer);
      old(|l.channel.sent|) + Positive(takes) > |page| ==>
        l.channel.streams == [] && l.released && l.channel.sent == page
  {
    hide Channel.Valid, Page, Listing.Valid, Listing.Fed, Coding.Dechunk;
    for k := 0 to |takes|
      invariant l.Valid() && !l.channel.failed
      invariant fresh(l.channel.repr + l.Footing() - old(l.channel.repr + l.Footing()))
      invariant |l.channel.sent| >= old(|l.channel.sent|) + Positive(takes[..k]) || l.channel.streams == []
    {
      assert takes[..k + 1][..k] == takes[..k];
      ServeOnce(l, takes[k]);
    }
    assert takes[..|takes|] == takes;
    PageBound(l);
    if l.channel.streams == [] {
      Delivered(l);
    }
  }
}

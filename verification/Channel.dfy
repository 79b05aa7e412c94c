/** The outgoing channel: a queue of streams that is written out as far as the socket takes it. */
module Channels {
  import opened Wrappers
  import opened IoVectors

  datatype Kind = IOV | FILE | COPYBUF | EOF | OTHER

  /** What the socket says to one write. */
  datatype Net = Wrote(n: nat) | Again | Failed

  datatype Ret = DONE | ERROR | FLUSH | EMPTY | BUSY

  /** struct mk_stream; the callback is named by a number, 0 is none */
  class Stream {
    const kind: Kind
    const file: string
    const iov: Iov?
    const callback: nat
    var bytesTotal: nat
    var bytesOffset: nat
    var buffer: string
    /** all bytes of the stream, as they were when it was set */
    ghost const whole: string

    ghost function Repr(): set<object> {
      {this} + if iov == null then {} else {iov, iov.io}
    }

    ghost predicate Valid()
      reads Repr()
    {
      && bytesTotal <= |whole| && (kind.IOV? ==> iov != null && iov.Valid())
      && Source() == Remaining()
    }

    predicate Carries() {
      kind.IOV? || kind.FILE? || kind.COPYBUF?
    }

    /** The bytes that the stream still holds. */
    ghost function Source(): string
      requires kind.IOV? ==> iov != null && iov.Valid()
      reads this, iov, if iov == null then {} else {iov.io}
    {
      match kind
      case IOV => iov.Contents()
      case FILE => if bytesOffset + bytesTotal <= |file| then file[bytesOffset..bytesOffset + bytesTotal] else ""
      case COPYBUF => if bytesTotal <= |buffer| then buffer[..bytesTotal] else ""
      case _ => ""
    }

    ghost function Remaining(): string
      reads this
    {
      if bytesTotal <= |whole| then whole[|whole| - bytesTotal..] else ""
    }

    /** The bytes that have left the stream. */
    ghost function Given(): string
      reads this
    {
      if bytesTotal <= |whole| then whole[..|whole| - bytesTotal] else ""
    }

    /** Nothing has left the stream yet. */
    ghost predicate Untouched()
      reads this
    {
      bytesTotal == |whole|
    }

    /** mk_stream_set, for a vector that has not been consumed from */
    constructor Vector(iov: Iov, callback: nat)
      requires iov.Valid() && iov.totalLen == |iov.Contents()|
      ensures Valid() && Untouched() && kind == IOV && this.iov == iov && this.callback == callback &&
        whole == iov.Contents()
    {
      kind, this.iov, this.callback, file := IOV, iov, callback, "";
      bytesTotal, bytesOffset, buffer := iov.totalLen, 0, "";
      whole := iov.Contents();
    }

    /** mk_stream_set, for a copy of a buffer */
    constructor Copy(text: string, callback: nat)
      ensures Valid() && Untouched() && kind == COPYBUF && iov == null && this.callback == callback && whole == text
    {
      kind, iov, this.callback, file := COPYBUF, null, callback, "";
      bytesTotal, bytesOffset, buffer := |text|, 0, text;
      whole := text;
    }

    /** mk_stream_set, for the first `size` bytes of a file */
    constructor File(file: string, size: nat, callback: nat)
      requires size <= |file|
      ensures Valid() && Untouched() && kind == FILE && iov == null && this.callback == callback &&
        whole == file[..size]
    {
      kind, iov, this.callback, this.file := FILE, null, callback, file;
      bytesTotal, bytesOffset, buffer := size, 0, "";
      whole := file[..size];
    }

    /** mk_copybuf_consume */
    method CopybufConsume(bytes: nat)
      requires bytes <= bytesTotal <= |buffer|
      modifies this`buffer
      ensures bytes < bytesTotal ==>
        |buffer| == |old(buffer)| && buffer[..bytesTotal - bytes] == old(buffer)[bytes..bytesTotal]
      ensures bytes == bytesTotal ==> buffer == ""
    {
      if bytes == bytesTotal {
        buffer := "";
      } else {
        buffer := buffer[bytes..bytesTotal] + buffer[bytesTotal - bytes..];
      }
    }

    /** The part of mk_channel_write that takes `n` written bytes off the stream. */
    method Take(n: nat)
      requires Valid() && Carries() && 0 < n <= bytesTotal
      modifies Repr()
      ensures Valid() && bytesTotal == old(bytesTotal) - n
      ensures Given() == old(Given()) + old(Remaining())[..n] && Remaining() == old(Remaining())[n..]
    {
      ghost var rest := Source();
      if kind == IOV {
        iov.Consume(n);
      } else if kind == COPYBUF {
        CopybufConsume(n);
      } else {
        bytesOffset := bytesOffset + n;
      }
      // mk_stream_bytes_consumed
      bytesTotal := bytesTotal - n;
      assert Remaining() == rest[n..];
    }
  }

  /** The bytes of streams that have been set, one after the other. */
  ghost function Whole(ss: seq<Stream>): string {
    if ss == [] then "" else Whole(ss[..|ss| - 1]) + ss[|ss| - 1].whole
  }

  lemma {:induction false} WholeSplit(a: seq<Stream>, b: seq<Stream>)
    ensures Whole(a + b) == Whole(a) + Whole(b)
    decreases |b|
  {
    if b == [] {
      assert a + b == a;
    } else {
      var front, last := b[..|b| - 1], b[|b| - 1];
      assert (a + b)[..|a + b| - 1] == a + front && (a + b)[|a + b| - 1] == last;
      WholeSplit(a, front);
      Regroup(Whole(a), Whole(front), last.whole, "");
    }
  }

  lemma {:induction false} WholeHead(ss: seq<Stream>)
    requires ss != []
    ensures Whole(ss) == ss[0].whole + Whole(ss[1..])
  {
    assert ss == [ss[0]] + ss[1..];
    WholeSplit([ss[0]], ss[1..]);
    assert [ss[0]][..0] == [];
  }

  ghost predicate Distinct(ss: seq<Stream>) {
    forall i, j :: 0 <= i < j < |ss| ==> ss[i] != ss[j]
  }

  /** All of these streams have something to write. */
  ghost predicate Flows(ss: seq<Stream>) {
    forall k :: 0 <= k < |ss| ==> ss[k].Carries() && ss[k].whole != ""
  }

  ghost predicate Apart(ss: seq<Stream>) {
    forall i, j :: 0 <= i < j < |ss| ==> ss[i].Repr() !! ss[j].Repr()
  }

  lemma {:induction false} ApartAdd(ss: seq<Stream>, s: Stream, repr: set<object>)
    requires Apart(ss) && s.Repr() !! repr && forall k :: 0 <= k < |ss| ==> ss[k].Repr() <= repr
    ensures Apart(ss + [s])
  {
  }

  lemma {:induction false} DistinctAdd(ss: seq<Stream>, s: Stream)
    requires Distinct(ss) && s !in ss
    ensures Distinct(ss + [s])
  {
  }

  lemma {:induction false} InRepr(s: Stream)
    ensures s in s.Repr()
  {
  }

  lemma {:induction false} SelfIn(ss: seq<Stream>)
    requires Apart(ss)
    ensures forall k :: 1 <= k < |ss| ==> ss[k] !in ss[0].Repr()
  {
    forall k | 1 <= k < |ss|
      ensures ss[k] !in ss[0].Repr()
    {
      InRepr(ss[k]);
    }
  }

  lemma {:induction false} RemainingLength(s: Stream)
    requires s.Valid()
    ensures |s.Remaining()| == s.bytesTotal
  {
  }

  /** What a write says, before any callback; None is left open until the callback has run. */
  function Answer(kind: Kind, total: nat, net: Net): Option<Ret> {
    if kind.EOF? then Some(DONE)
    else if kind.OTHER? || net.Failed? || net == Wrote(0) then Some(ERROR)
    else if net.Again? then Some(BUSY)
    else if net.n < total then Some(FLUSH)
    else None
  }

  /** The bytes that a write takes off the first stream. */
  function Taken(a: Option<Ret>, net: Net, rest: string): string {
    if (a == None || a == Some(FLUSH)) && net.Wrote? && net.n <= |rest| then rest[..net.n] else ""
  }

  function Tail<T>(s: seq<T>): seq<T> {
    if s == [] then [] else s[1..]
  }

  function Lead<T>(s: seq<T>): seq<T> {
    if s == [] then [] else [s[0]]
  }

  /** The streams that carry bytes. */
  ghost function Carriers(ss: seq<Stream>): seq<Stream> {
    if ss == [] then []
    else Carriers(ss[..|ss| - 1]) + if ss[|ss| - 1].Carries() then [ss[|ss| - 1]] else []
  }

  lemma {:induction false} CarriersAdd(ss: seq<Stream>, s: Stream)
    ensures Carriers(ss + [s]) == Carriers(ss) + if s.Carries() then [s] else []
  {
    assert (ss + [s])[..|ss|] == ss;
  }

  /** How often a stream occurs. */
  ghost function Times(ss: seq<Stream>, s: Stream): nat {
    if ss == [] then 0 else Times(ss[..|ss| - 1], s) + if ss[|ss| - 1] == s then 1 else 0
  }

  lemma {:induction false} TimesCarried(ss: seq<Stream>, s: Stream)
    requires s.Carries()
    ensures Times(ss, s) == Times(Carriers(ss), s)
    decreases |ss|
  {
    if ss != [] {
      var front, last := ss[..|ss| - 1], ss[|ss| - 1];
      TimesCarried(front, s);
      if last.Carries() {
        assert (Carriers(front) + [last])[..|Carriers(front)|] == Carriers(front);
      } else {
        assert Carriers(front) + [] == Carriers(front);
      }
    }
  }

  lemma {:induction false} TimesDistinct(ss: seq<Stream>, s: Stream)
    requires Distinct(ss)
    ensures Times(ss, s) == if s in ss then 1 else 0
    decreases |ss|
  {
    if ss != [] {
      var front, last := ss[..|ss| - 1], ss[|ss| - 1];
      assert forall i :: 0 <= i < |front| ==> front[i] == ss[i] != last;
      TimesDistinct(front, s);
      assert ss == front + [last];
    }
  }

  /** struct mk_channel */
  class Channel {
    var streams: seq<Stream>
    /** what the socket has taken, what has been appended, and which streams with bytes have ended */
    ghost var sent: string
    ghost var all: seq<Stream>
    ghost var fired: seq<Stream>
    /** the callbacks that have been called, in order; one of an end-of-file stream is called by every write */
    ghost var called: seq<Stream>
    /** a stream was dropped after an error */
    ghost var failed: bool
    /** the first stream has no bytes left and its callback is running */
    ghost var closing: bool
    /** the queued streams and their vectors */
    ghost var repr: set<object>

    /** Every queued stream behind the first still has all its bytes. */
    ghost predicate Valid()
      reads this, repr
    {
      Chained() && Accounted() && Started()
    }

    /** A stream that had bytes leaves the queue with its last one. */
    ghost predicate Started()
      reads this, streams
    {
      !closing && streams != [] && streams[0].Carries() && streams[0].whole != "" ==> streams[0].bytesTotal > 0
    }

    /** Nothing but streams with bytes is queued, and none was dropped. */
    ghost predicate Flowing()
      reads this
    {
      !failed && !closing && Flows(streams)
    }

    ghost predicate Chained()
      reads this, repr
    {
      && this !in repr && Apart(streams)
      && (forall k :: 0 <= k < |streams| ==> streams[k] in repr && streams[k].Repr() <= repr && streams[k].Valid())
      && (forall k :: 1 <= k < |streams| ==> streams[k].Untouched())
      && (closing ==> streams != [])
    }

    /** Streams end by a callback and not without bytes. */
    ghost predicate Logged()
      reads this
    {
      fired == Carriers(called) && Distinct(all) && forall k :: 0 <= k < |fired| ==> fired[k].whole != ""
    }

    ghost predicate Accounted()
      reads this, streams
    {
      && Logged()
      && (!failed ==> all == fired + Live() && sent == Whole(fired) + Part())
    }

    /** The streams that are still to be written. */
    ghost function Live(): seq<Stream>
      reads this
    {
      if closing && streams != [] then streams[1..] else streams
    }

    /** What the first stream has given away. */
    ghost function Part(): string
      reads this, streams
    {
      if Live() == [] then "" else Live()[0].Given()
    }

    /** The bytes still queued. */
    ghost function Queue(): string
      reads this, streams
    {
      Rest(Live())
    }

    /** The bytes that the first stream still holds. */
    ghost function First(): string
      reads this, streams
    {
      if streams == [] then "" else streams[0].Remaining()
    }

    /** What a write will say, before any callback. */
    ghost function Reply(net: Net): Option<Ret>
      reads this, streams
    {
      if streams == [] then Some(EMPTY) else Answer(streams[0].kind, streams[0].bytesTotal, net)
    }

    /** mk_channel_new */
    constructor ()
      ensures Valid() && streams == [] && all == [] && fired == called == [] && sent == "" && !failed && !closing
    {
      streams := [];
      sent, all, fired, called, failed, closing, repr := "", [], [], [], false, false, {};
    }

    /** mk_channel_append_stream, for a stream that is new to the channel */
    method Append(s: Stream)
      requires Valid() && s.Valid() && s.Untouched() && s !in all && s.Repr() !! repr && this !in s.Repr()
      modifies this
      ensures Valid() && streams == old(streams) + [s] && all == old(all) + [s]
      ensures sent == old(sent) && fired == old(fired) && called == old(called) && failed == old(failed) &&
        closing == old(closing)
      ensures repr == old(repr) + s.Repr() && Live() == old(Live()) + [s]
    {
      hide Apart, Distinct, Carriers, Stream.Source, Stream.Repr, Stream.Valid, Whole;
      ApartAdd(streams, s, repr);
      DistinctAdd(all, s);
      InRepr(s);
      assert s.Given() == "" && Whole(fired) + "" == Whole(fired);
      assert fired + (Live() + [s]) == (fired + Live()) + [s];
      assert closing ==> (streams + [s])[1..] == streams[1..] + [s];
      streams, all, repr := streams + [s], all + [s], repr + s.Repr();
    }

    /** mk_stream_set, for a copied text */
    method SetCopy(text: string, callback: nat) returns (s: Stream)
      requires Valid()
      modifies this
      ensures Valid() && fresh(s) && s.Carries() && s.whole == text && s.callback == callback && s.iov == null
      ensures streams == old(streams) + [s] && all == old(all) + [s] && Live() == old(Live()) + [s]
      ensures sent == old(sent) && fired == old(fired) && called == old(called) && failed == old(failed) &&
        closing == old(closing)
      ensures repr == old(repr) + {s}
    {
      hide Distinct, Apart, Whole, Accounted, Chained, Stream.Valid, Stream.Untouched;
      s := new Stream.Copy(text, callback);
      Append(s);
    }

    /** mk_stream_set, for a vector */
    method SetVector(iov: Iov, callback: nat) returns (s: Stream)
      requires Valid() && iov.Valid() && iov.totalLen == |iov.Contents()| && iov !in repr && iov.io !in repr
      modifies this
      ensures Valid() && fresh(s) && s.Carries() && s.whole == iov.Contents() && s.callback == callback && s.iov == iov
      ensures streams == old(streams) + [s] && all == old(all) + [s] && Live() == old(Live()) + [s]
      ensures sent == old(sent) && fired == old(fired) && called == old(called) && failed == old(failed) &&
        closing == old(closing)
      ensures repr == old(repr) + {s, iov, iov.io}
    {
      hide Distinct, Apart, Whole, Accounted, Chained, Stream.Valid, Stream.Untouched;
      s := new Stream.Vector(iov, callback);
      Append(s);
    }

    /**
     * mk_channel_write, up to the callback.  None: the first stream has no bytes left and its
     * callback is due.
     */
    method Transmit(net: Net) returns (ret: Option<Ret>)
      requires Valid() && !closing
      requires net.Wrote? && streams != [] ==> net.n <= streams[0].bytesTotal
      modifies this, if streams == [] then {} else streams[0].Repr()
      ensures Valid() && all == old(all) && repr == old(repr)
      ensures ret == old(Reply(net)) && streams == if ret == Some(ERROR) then Tail(old(streams)) else old(streams)
      ensures sent == old(sent) + Taken(ret, net, old(First()))
      ensures fired == old(fired) + if ret == None then Lead(old(streams)) else []
      ensures called == old(called) + if ret == None || ret == Some(DONE) then Lead(old(streams)) else []
      ensures closing == ret.None? && failed == (old(failed) || ret == Some(ERROR))
    {
      hide Distinct, Carriers, Apart, Stream.Source, Stream.Repr, Stream.Valid, Whole, Accounted, Chained;
      if streams == [] {
        return Some(EMPTY);
      }
      var stream := streams[0];
      HeadOwned(this);
      FirstIs();
      if stream.kind == EOF {
        CallEnd();
        return Some(DONE);
      }
      if stream.kind == OTHER || net.Failed? || net == Wrote(0) {
        DropFirst();
        return Some(ERROR);
      }
      if net.Again? {
        return Some(BUSY);
      }
      var done := Advance(net.n);
      return if done then None else Some(FLUSH);
    }

    /** Written bytes leave the first stream; its callback is called with the last of them. */
    method Advance(n: nat) returns (done: bool)
      requires Valid() && !closing && streams != [] && streams[0].Carries() && 0 < n <= streams[0].bytesTotal
      modifies this`sent, this`fired, this`called, this`closing, streams[0].Repr()
      ensures Valid() && closing == done == (n == old(streams[0].bytesTotal))
      ensures sent == old(sent) + old(First())[..n]
      ensures fired == old(fired) + if done then [streams[0]] else []
      ensures called == old(called) + if done then [streams[0]] else []
    {
      hide Distinct, Carriers, Apart, Stream.Source, Stream.Repr, Stream.Valid, Whole, Accounted, Chained;
      HeadOwned(this);
      FirstIs();
      TakeFirst(n);
      done := streams[0].bytesTotal == 0;
      if done {
        Fire();
      }
    }

    lemma {:induction false} FirstIs()
      requires Consistent() && streams != []
      ensures |First()| == streams[0].bytesTotal <= |streams[0].whole| && First() == streams[0].Remaining()
    {
      hide Distinct, Carriers, Apart, Stream.Source, Stream.Repr, Whole;
      RemainingLength(streams[0]);
    }

    /** The callback of an end-of-file stream, which stays queued. */
    method CallEnd()
      requires Valid() && !closing && streams != [] && streams[0].kind.EOF?
      modifies this`called
      ensures Valid() && called == old(called) + [streams[0]]
    {
      hide Distinct, Carriers, Apart, Stream.Source, Stream.Repr, Stream.Valid, Whole;
      CarriersAdd(called, streams[0]);
      called := called + [streams[0]];
    }

    /** After an error the first stream is released without a callback. */
    method DropFirst()
      requires Valid() && !closing && streams != []
      modifies this`failed, this`streams, this`closing
      ensures Valid() && !closing && failed && streams == old(streams)[1..]
    {
      hide Distinct, Carriers, Apart, Stream.Source, Stream.Repr, Stream.Valid, Whole;
      failed := true;
      Unlink();
    }

    /** Everything but that the first stream has bytes left. */
    ghost predicate Consistent()
      reads this, repr
    {
      Chained() && Accounted()
    }

    /** The socket has taken `n` bytes of the first stream. */
    method TakeFirst(n: nat)
      requires Consistent() && !closing && streams != [] && streams[0].Carries() && 0 < n <= streams[0].bytesTotal
      modifies this`sent, streams[0].Repr()
      ensures Consistent() && sent == old(sent) + old(streams[0].Remaining())[..n]
      ensures streams[0].bytesTotal == old(streams[0].bytesTotal) - n
    {
      hide Distinct, Stream.Source, Stream.Repr, Whole;
      var stream := streams[0];
      InRepr(stream);
      ghost var given, part := stream.Given(), stream.Remaining()[..n];
      assert (Whole(fired) + given) + part == Whole(fired) + (given + part);
      sent := sent + part;
      assert forall k :: 1 <= k < |streams| ==> streams[k] !in stream.Repr() by { SelfIn(streams); }
      stream.Take(n);
    }

    /** The callback of the first stream is called. */
    method Fire()
      requires Consistent() && !closing && streams != [] && streams[0].bytesTotal == 0 && streams[0].Carries()
      requires streams[0].whole != ""
      modifies this`fired, this`called, this`closing
      ensures Valid() && closing && fired == old(fired) + [streams[0]] && called == old(called) + [streams[0]]
    {
      hide Distinct, Carriers, Apart, Stream.Source, Stream.Repr, Stream.Valid;
      WholeSplit(fired, [streams[0]]);
      WholeHead([streams[0]]);
      assert fired + streams == fired + [streams[0]] + streams[1..];
      CarriersAdd(called, streams[0]);
      fired, called, closing := fired + [streams[0]], called + [streams[0]], true;
    }

    /** mk_stream_release: the first stream leaves the queue. */
    method Unlink()
      requires Chained() && streams != [] && Logged() && (!failed ==> closing && Accounted())
      modifies this`streams, this`closing
      ensures Valid() && !closing && streams == old(streams)[1..]
    {
      hide Distinct, Stream.Source, Stream.Repr, Stream.Valid;
      streams, closing := streams[1..], false;
    }

    /** mk_channel_write, behind the callback */
    method Release() returns (ret: Ret)
      requires Valid() && closing
      modifies this`streams, this`closing
      ensures Valid() && !closing && streams == old(streams)[1..] && ret == if streams == [] then DONE else FLUSH
      ensures Live() == old(Live())
    {
      Unlink();
      return if streams == [] then DONE else FLUSH;
    }

    /** Queue, sent bytes, callbacks and failure are these. */
    ghost predicate Stands(streams: seq<Stream>, sent: string, called: seq<Stream>, failed: bool)
      reads this
    {
      this.streams == streams && this.sent == sent && this.called == called && this.failed == failed
    }

    /** A stream that may be appended: it has all its bytes and shares nothing with the queue. */
    ghost predicate New(s: Stream)
      reads this, s.Repr()
    {
      s.Valid() && s.Untouched() && s !in all && s.Repr() !! repr && this !in s.Repr()
    }

    /**
     * mk_channel_write with a callback that appends the streams `more`: the bytes that the socket
     * took have moved from the queue to what is sent, and the callback was called exactly if
     * they were the last of the first stream.
     */
    method Write(net: Net, more: seq<Stream>) returns (ret: Ret, ghost a: Option<Ret>)
      requires Valid() && !closing && Apart(more) && Distinct(more)
      requires forall k :: 0 <= k < |more| ==> New(more[k])
      requires net.Wrote? && streams != [] ==> net.n <= streams[0].bytesTotal
      modifies this, if streams == [] then {} else streams[0].Repr()
      ensures var s, first := old(streams), old(First());
        if s == [] then ret == EMPTY && Stands(s, old(sent), old(called), old(failed))
        else if s[0].kind.EOF? then ret == DONE && Stands(s, old(sent), old(called) + [s[0]], old(failed))
        else if s[0].kind.OTHER? || net.Failed? || net == Wrote(0) then
          ret == ERROR && Stands(s[1..], old(sent), old(called), true)
        else if net.Again? then ret == BUSY && Stands(s, old(sent), old(called), old(failed))
        else if net.n < |first| then
          ret == FLUSH && Stands(s, old(sent) + first[..net.n], old(called), old(failed))
        else
          && ret == (if |s| == 1 && more == [] then DONE else FLUSH)
          && Stands(s[1..] + more, old(sent) + first, old(called) + [s[0]], old(failed))
      ensures Valid() && !closing && failed == (old(failed) || ret == ERROR)
      ensures a == old(Reply(net)) && ret == if a.Some? then a.value else if streams == [] then DONE else FLUSH
      ensures streams == if a == None then Tail(old(streams)) + more else if a == Some(ERROR) then Tail(old(streams))
        else old(streams)
      ensures sent == old(sent) + Taken(a, net, old(First()))
      ensures fired == old(fired) + if a == None then Lead(old(streams)) else []
      ensures called == old(called) + if a == None || a == Some(DONE) then Lead(old(streams)) else []
      ensures all == old(all) + if a == None then more else []
      ensures more == [] ==> repr == old(repr)
    {
      hide Distinct, Apart, Stream.Source, Stream.Valid, Stream.Untouched, Accounted, Chained, Carriers, Whole, First;
      ghost var first := First();
      if streams != [] {
        HeadOwned(this);
        FirstIs();
        assert first[..|first|] == first;
      }
      var r := Transmit(net);
      a := r;
      if r.Some? {
        return r.value, a;
      }
      forall k | 0 <= k < |more|
        ensures New(more[k])
      {
        StillNew(more[k]);
      }
      AppendAll(more);
      ret := Release();
    }

    /** What happens to the queue does not touch a stream that is apart from it. */
    twostate lemma {:induction false} StillNew(s: Stream)
      requires old(allocated(s)) && old(New(s)) && all == old(all) && repr == old(repr) && unchanged(s.Repr())
      ensures New(s)
    {
    }

    method AppendNext(more: seq<Stream>, k: nat)
      requires Valid() && Apart(more) && Distinct(more) && k < |more|
      requires forall j :: k <= j < |more| ==> New(more[j])
      modifies this
      ensures Valid() && streams == old(streams) + [more[k]] && all == old(all) + [more[k]]
      ensures sent == old(sent) && fired == old(fired) && called == old(called) && failed == old(failed) &&
        closing == old(closing)
      ensures forall j :: k < j < |more| ==> New(more[j])
    {
      hide Stream.Source, Stream.Valid, Accounted, Chained, Whole;
      Append(more[k]);
      forall j | k < j < |more|
        ensures New(more[j])
      {
        assert old(New(more[j]));
      }
    }

    method AppendAll(more: seq<Stream>)
      requires Valid() && closing && Apart(more) && Distinct(more) && forall k :: 0 <= k < |more| ==> New(more[k])
      modifies this
      ensures Valid() && closing && streams == old(streams) + more && all == old(all) + more
      ensures more == [] ==> repr == old(repr)
      ensures sent == old(sent) && fired == old(fired) && called == old(called) && failed == old(failed)
    {
      hide Stream.Source, Stream.Valid, Stream.Untouched, Accounted, Chained, Whole;
      for k := 0 to |more|
        invariant Valid() && closing && streams == old(streams) + more[..k] && all == old(all) + more[..k]
        invariant k == 0 ==> repr == old(repr)
        invariant sent == old(sent) && fired == old(fired) && called == old(called) && failed == old(failed)
        invariant forall j :: k <= j < |more| ==> New(more[j])
      {
        assert more[..k + 1] == more[..k] + [more[k]];
        AppendNext(more, k);
      }
      assert more[..|more|] == more;
    }

    /** mk_channel_clean: whatever is left is dropped, and no callback is called. */
    method Clean()
      requires Valid() && !closing
      modifies this`streams, this`failed, this`closing
      ensures Valid() && streams == [] && sent == old(sent) && fired == old(fired) && called == old(called) &&
        failed == (old(failed) || old(streams) != [])
    {
      hide Distinct, Apart, Stream.Source, Stream.Valid, Stream.Repr, Whole;
      while streams != []
        invariant Valid() && !closing && failed == (old(failed) || streams != old(streams))
        decreases |streams|
      {
        failed := true;
        Unlink();
      }
    }
  }

  ghost function Rest(ss: seq<Stream>): string
    reads ss
  {
    if ss == [] then "" else ss[0].Remaining() + Rest(ss[1..])
  }

  lemma {:induction false} RestUntouched(ss: seq<Stream>)
    requires forall k :: 0 <= k < |ss| ==> ss[k].Untouched()
    ensures Rest(ss) == Whole(ss)
  {
    if ss != [] {
      RestUntouched(ss[1..]);
      WholeHead(ss);
    }
  }

  lemma {:induction false} Regroup(a: string, b: string, c: string, d: string)
    ensures (a + b) + (c + d) == a + ((b + c) + d) && (d == "" ==> (a + b) + c == a + (b + c))
  {
  }

  /** Nothing is lost, repeated or reordered: sent and queued bytes are all that was appended. */
  lemma {:induction false} Conserved(c: Channel)
    requires c.Valid() && !c.failed
    ensures c.sent + c.Queue() == Whole(c.all)
  {
    hide Apart, Distinct, Stream.Source, Stream.Repr;
    var ss := c.Live();
    WholeSplit(c.fired, ss);
    if ss != [] {
      RestOf(ss);
      Regroup(Whole(c.fired), c.Part(), ss[0].Remaining(), Whole(ss[1..]));
    }
  }

  lemma {:induction false} RestOf(ss: seq<Stream>)
    requires ss != [] && ss[0].bytesTotal <= |ss[0].whole|
    requires forall k :: 1 <= k < |ss| ==> ss[k].Untouched()
    ensures Rest(ss) == ss[0].Remaining() + Whole(ss[1..]) &&
      Whole(ss) == (ss[0].Given() + ss[0].Remaining()) + Whole(ss[1..])
  {
    WholeHead(ss);
    RestUntouched(ss[1..]);
    assert ss[0].whole == ss[0].Given() + ss[0].Remaining();
  }

  /**
   * Every appended stream is either queued or has ended, never both; the callback of a stream
   * that carries bytes has been called once if it has ended, and else not at all.
   */
  lemma {:induction false} OnceEach(c: Channel)
    requires c.Valid() && !c.failed
    ensures c.all == c.fired + c.Live() && Distinct(c.all) && Distinct(c.fired) && Distinct(c.Live())
    ensures forall s :: s in c.all ==> (s in c.fired) != (s in c.Live())
    ensures forall s :: s in c.all && s.Carries() ==> Times(c.called, s) == if s in c.Live() then 0 else 1
  {
    hide Apart, Stream.Source, Stream.Repr, Stream.Valid, Whole, Distinct, Carriers, Times;
    DistinctHalves(c.fired, c.Live());
    forall s | s in c.all && s.Carries()
      ensures Times(c.called, s) == if s in c.Live() then 0 else 1
    {
      TimesCarried(c.called, s);
      TimesDistinct(c.fired, s);
    }
  }

  lemma {:induction false} DistinctHalves(a: seq<Stream>, b: seq<Stream>)
    requires Distinct(a + b)
    ensures Distinct(a) && Distinct(b) && forall s :: s in a + b ==> (s in a) != (s in b)
  {
    assert forall i :: 0 <= i < |a| ==> (a + b)[i] == a[i];
    assert forall j :: 0 <= j < |b| ==> (a + b)[|a| + j] == b[j];
    forall i, j | 0 <= i < |a| && 0 <= j < |b|
      ensures a[i] != b[j]
    {
      assert (a + b)[i] != (a + b)[|a| + j];
    }
  }

  lemma {:induction false} HeadOwned(c: Channel)
    requires c.Valid() && c.streams != []
    ensures c.streams[0].Repr() <= c.repr && c !in c.repr && c.streams[0] in c.repr
    ensures |c.First()| == c.streams[0].bytesTotal
  {
    c.FirstIs();
  }

  /** A stream that says nothing is never called back, and a write on it is an error unless the socket is busy. */
  lemma {:induction false} EmptyStays(c: Channel, s: Stream)
    requires c.Valid() && !c.failed && s in c.all && s.Carries() && s.whole == ""
    ensures s in c.Live() && Times(c.called, s) == 0
    ensures forall net: Net :: !c.closing && c.streams[0] == s && (net.Wrote? ==> net.n <= s.bytesTotal) ==>
      c.Reply(net) == Some(if net.Again? then BUSY else ERROR)
  {
    hide Apart, Stream.Source, Stream.Repr, Carriers, Times, Distinct, Whole;
    OnceEach(c);
    assert c.streams != [];
    if c.streams[0] == s {
      assert s.Valid();
    }
  }

  // ---------------------------------------------------------------- runs

  /** How often the socket takes something. */
  function Positive(takes: seq<nat>): nat {
    if takes == [] then 0 else Positive(takes[..|takes| - 1]) + if takes[|takes| - 1] > 0 then 1 else 0
  }

  /** What a socket that takes up to `take` bytes, or is busy if that is 0, says to a write of `total`. */
  function Says(take: nat, total: nat): Net {
    if take == 0 then Again else Wrote(if take < total then take else total)
  }

  /**
   * Writes to a socket that takes some bytes or is busy, as often and in any amounts, never fail as
   * long as no queued stream is empty: nothing is lost, and each byte that it takes is one less to
   * send, until everything is sent.
   */
  method Drive(c: Channel, takes: seq<nat>)
    requires c.Valid() && c.Flowing()
    modifies c, c.repr
    ensures c.Valid() && c.Flowing() && c.all == old(c.all)
    ensures c.sent + c.Queue() == old(c.sent + c.Queue())
    ensures |c.sent| >= old(|c.sent|) + Positive(takes) || (c.streams == [] && c.sent == old(c.sent + c.Queue()))
  {
    hide Distinct, Apart, Carriers, Whole, Rest, Channel.Chained, Channel.Accounted, Stream.Source, Stream.Valid;
    Conserved(c);
    NoneApart();
    for k := 0 to |takes|
      invariant c.Valid() && c.Flowing() && c.all == old(c.all) && c.repr == old(c.repr)
      invariant |c.sent| >= old(|c.sent|) + Positive(takes[..k]) || c.streams == []
    {
      assert takes[..k + 1][..k] == takes[..k];
      ghost var streams := c.streams;
      var net := Again;
      if c.streams != [] {
        HeadOwned(c);
        c.FirstIs();
        net := Says(takes[k], c.streams[0].bytesTotal);
      }
      var ret, a := c.Write(net, []);
    }
    assert takes[..|takes|] == takes;
    Conserved(c);
    NothingQueued(c);
  }

  lemma {:induction false} NoneApart()
    ensures Apart([]) && Distinct([])
  {
  }

  lemma {:induction false} NothingQueued(c: Channel)
    ensures c.streams == [] ==> c.Queue() == ""
  {
  }
}

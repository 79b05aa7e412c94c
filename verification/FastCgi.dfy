/** FastCGI request records: the PARAMS and STDIN streams and their decoder. */
module FastCgi {
  import opened Wrappers
  import opened Texts
  import opened IoVectors

  const VERSION := 1
  const PARAMS := 4
  const STDIN := 5
  const MAX_CHUNK := 65535

  function Byte(n: nat): char
    requires n < 256
  {
    n as char
  }

  /** fcgi_build_header, with the padding length; the content length is cut to 16 bits */
  function Header(kind: nat, len: nat, pad: nat): (r: string)
    requires kind < 256 && pad < 256
    ensures |r| == 8
  {
    [Byte(VERSION), Byte(kind), Byte(0), Byte(1), Byte(len / 256 % 256), Byte(len % 256), Byte(pad), Byte(0)]
  }

  /** ~(len - 1) & 7 */
  function Padding(len: nat): (r: nat)
    ensures r < 8 && (len + r) % 8 == 0
  {
    (8 - len % 8) % 8
  }

  // --------------------------------------------------------------- PARAMS

  /** fcgi_write_length */
  function WriteLength(n: nat): string {
    if n < 127 then [Byte(n)]
    else [Byte(n / 0x1000000 % 128 + 128), Byte(n / 0x10000 % 256), Byte(n / 0x100 % 256), Byte(n % 256)]
  }

  /** What the content length counts for a length. */
  function CountedAs(n: nat): nat {
    if n > 127 then 4 else 1
  }

  function ParamLength(key: string, val: string): nat {
    |key| + |val| + CountedAs(|key|) + CountedAs(|val|)
  }

  function ParamContent(key: string, val: string): string {
    WriteLength(|key|) + WriteLength(|val|) + key + val
  }

  /** The bytes that fcgi_add_param adds. */
  function ParamRecord(key: string, val: string): string {
    var len := ParamLength(key, val);
    Header(PARAMS, len, Padding(len)) + ParamContent(key, val) + Repeat('\0', Padding(len))
  }

  // ------------------------------------------------------------- decoding

  datatype Record = Record(kind: nat, id: nat, content: string)

  /** Section 3.3 of the FastCGI Specification 1.0: a record and what follows it. */
  function ReadRecord(s: string): Option<(Record, string)> {
    if |s| < 8 || s[0] as int != VERSION then None
    else
      var len := s[4] as int * 256 + s[5] as int;
      var pad := s[6] as int;
      if |s| < 8 + len + pad then None
      else Some((Record(s[1] as int, s[2] as int * 256 + s[3] as int, s[8..8 + len]), s[8 + len + pad..]))
  }

  /** Section 3.4: a length of one or four bytes. */
  function ReadLength(s: string): (r: Option<(nat, string)>)
    ensures r.Some? ==> |r.value.1| < |s|
  {
    if s == "" then None
    else if s[0] as int < 128 then Some((s[0] as int, s[1..]))
    else if |s| < 4 then None
    else Some(((s[0] as int % 128) * 0x1000000 + s[1] as int * 0x10000 + s[2] as int * 0x100 + s[3] as int, s[4..]))
  }

  /** Section 3.4: the name-value pairs of a content. */
  function ReadPairs(s: string): Option<seq<(string, string)>>
    decreases |s|
  {
    if s == "" then Some([])
    else match ReadLength(s)
      case None => None
      case Some((n, t)) =>
        match ReadLength(t)
        case None => None
        case Some((m, u)) =>
          if |u| < n + m then None
          else match ReadPairs(u[n + m..])
            case None => None
            case Some(ps) => Some([(u[..n], u[n..n + m])] + ps)
  }

  // --------------------------------------------------------- PARAMS back

  lemma {:induction false} LengthBack(n: nat, rest: string)
    requires n < 0x8000_0000
    ensures ReadLength(WriteLength(n) + rest) == Some((n, rest))
  {
    var w := WriteLength(n);
    var s := w + rest;
    if n < 127 {
      assert s[1..] == rest;
    } else {
      assert s[4..] == rest && s[0] == w[0] && s[1] == w[1] && s[2] == w[2] && s[3] == w[3];
      FourBytes(n);
    }
  }

  lemma {:induction false} FourBytes(n: nat)
    requires n < 0x8000_0000
    ensures n / 0x1000000 % 128 == n / 0x1000000 && (n / 0x1000000 % 128 + 128) % 128 == n / 0x1000000
    ensures n == (n / 0x1000000) * 0x1000000 + (n / 0x10000 % 256) * 0x10000 + (n / 0x100 % 256) * 0x100 + n % 256
  {
    assert n / 0x100 / 256 == n / 0x10000 && n / 0x10000 / 256 == n / 0x1000000;
  }

  lemma {:induction false} Parts(h: string, c: string, z: string, rest: string, len: nat)
    requires |h| == 8 && len <= |c|
    ensures var s := h + c + z + rest;
      && (forall k :: 0 <= k < 8 ==> s[k] == h[k]) && s[8..8 + len] == c[..len]
      && (|c| == len ==> s[8 + len + |z|..] == rest && c[..len] == c)
  {
    var s := h + c + z + rest;
    assert s == h + (c + (z + rest));
    assert s[8..] == c + (z + rest);
    assert s[8..8 + len] == s[8..][..len];
  }

  lemma {:induction false} HeaderBack(kind: nat, len: nat, content: string, rest: string)
    requires kind < 256 && len < 0x10000 && len <= |content|
    ensures var s := Header(kind, len, Padding(len)) + content + Repeat('\0', Padding(len)) + rest;
      && ReadRecord(s).Some? && ReadRecord(s).value.0 == Record(kind, 1, content[..len])
      && (|content| == len ==> ReadRecord(s) == Some((Record(kind, 1, content), rest)))
  {
    hide Padding;
    var pad := Padding(len);
    var h := Header(kind, len, pad);
    Parts(h, content, Repeat('\0', pad), rest, len);
    assert h[4] as int * 256 + h[5] as int == len && h[6] as int == pad && h[2] as int * 256 + h[3] as int == 1;
  }

  /** A pair whose lengths are not 127 comes back from its record. */
  lemma {:induction false} ParamBack(key: string, val: string, rest: string)
    requires |key| != 127 && |val| != 127 && ParamLength(key, val) < 0x10000
    ensures ReadRecord(ParamRecord(key, val) + rest) == Some((Record(PARAMS, 1, ParamContent(key, val)), rest))
    ensures ReadPairs(ParamContent(key, val)) == Some([(key, val)])
  {
    hide ReadRecord, Header, Padding;
    var content, len := ParamContent(key, val), ParamLength(key, val);
    HeaderBack(PARAMS, len, content, rest);
    PairBack(key, val);
  }

  lemma {:induction false} PairBack(key: string, val: string)
    requires |key| < 0x8000_0000 && |val| < 0x8000_0000
    ensures ReadPairs(ParamContent(key, val)) == Some([(key, val)])
  {
    hide WriteLength, ReadLength;
    var content := ParamContent(key, val);
    LengthBack(|key|, WriteLength(|val|) + key + val);
    LengthBack(|val|, key + val);
    assert content == WriteLength(|key|) + (WriteLength(|val|) + key + val);
    assert WriteLength(|val|) + key + val == WriteLength(|val|) + (key + val);
    var u := key + val;
    assert u[..|key|] == key && u[|key|..|key| + |val|] == val && u[|key| + |val|..] == "";
    assert content != "" by { NotEmpty(|key|); }
    assert [(key, val)] + [] == [(key, val)];
  }

  lemma {:induction false} NotEmpty(n: nat)
    ensures WriteLength(n) != ""
  {
  }

  /** A length of 127 is counted as one byte but written as four: the record is cut short. */
  lemma {:induction false} ParamCut(key: string, val: string, rest: string)
    requires (|key| == 127 || |val| == 127) && ParamLength(key, val) < 0x10000
    ensures ReadRecord(ParamRecord(key, val) + rest).Some?
    ensures ReadPairs(ReadRecord(ParamRecord(key, val) + rest).value.0.content) == None
  {
    hide ReadRecord, Header, Padding;
    var content, len := ParamContent(key, val), ParamLength(key, val);
    HeaderBack(PARAMS, len, content, rest);
    CutPair(key, val, len);
  }

  /** No length is read from a part of its bytes. */
  lemma {:induction false} CutLength(n: nat, k: nat)
    requires k < |WriteLength(n)|
    ensures ReadLength(WriteLength(n)[..k]) == None
  {
  }

  /** A proper beginning of a pair's content does not decode. */
  lemma {:induction false} CutPair(key: string, val: string, len: nat)
    requires |key| < 0x8000_0000 && |val| < 0x8000_0000 && 0 < len < |ParamContent(key, val)|
    ensures ReadPairs(ParamContent(key, val)[..len]) == None
  {
    hide WriteLength, ReadLength;
    var a, b, c := WriteLength(|key|), WriteLength(|val|), key + val;
    assert ParamContent(key, val) == a + (b + c) && (a + (b + c))[..len] != "";
    if len < |a| {
      assert (a + (b + c))[..len] == a[..len];
      CutLength(|key|, len);
    } else {
      var n := len - |a|;
      assert (a + (b + c))[..len] == a + (b + c)[..n];
      LengthBack(|key|, (b + c)[..n]);
      if n < |b| {
        assert (b + c)[..n] == b[..n];
        CutLength(|val|, n);
      } else {
        assert (b + c)[..n] == b + c[..n - |b|];
        LengthBack(|val|, c[..n - |b|]);
      }
    }
  }

  /** A content length of more than 16 bits is cut: the record ends too early. */
  lemma {:induction false} ParamLong(key: string, val: string, rest: string)
    requires ParamLength(key, val) >= 0x10000
    ensures var r := ReadRecord(ParamRecord(key, val) + rest);
      && r.Some? && |r.value.1| > |rest|
      && r.value.0 == Record(PARAMS, 1, ParamContent(key, val)[..ParamLength(key, val) % 0x10000])
  {
    hide ParamContent, Padding;
    var content, len := ParamContent(key, val), ParamLength(key, val);
    var h, z := Header(PARAMS, len, Padding(len)), Repeat('\0', Padding(len));
    var s := h + content + z + rest;
    ContentLength(key, val);
    CutHeader(len);
    Parts(h, content, z, rest, len % 0x10000);
    assert s[6] as int == |z| && |s| == 8 + |content| + |z| + |rest|;
  }

  lemma {:induction false} CutHeader(len: nat)
    ensures var h := Header(PARAMS, len, Padding(len));
      h[4] as int * 256 + h[5] as int == len % 0x10000 && h[6] as int == Padding(len)
    ensures len >= 0x10000 ==> len % 0x10000 < len
  {
    hide Padding;
    assert len / 256 % 256 * 256 + len % 256 == len % 0x10000;
  }

  lemma {:induction false} ContentLength(key: string, val: string)
    ensures |ParamContent(key, val)| >= ParamLength(key, val) > 0
  {
  }

  /** What fcgi_add_param can put into a record. */
  predicate Sendable(p: (string, string)) {
    |p.0| != 127 && |p.1| != 127 && ParamLength(p.0, p.1) < 0x10000
  }

  /** The decoder recovers a pair from its record exactly if neither length is 127 and the content fits 16 bits. */
  lemma {:induction false} ParamDecodes(key: string, val: string, rest: string)
    ensures var r := ReadRecord(ParamRecord(key, val) + rest);
      && r.Some?
      && (r.value.1 == rest && ReadPairs(r.value.0.content) == Some([(key, val)]) <==>
          |key| != 127 && |val| != 127 && ParamLength(key, val) < 0x10000)
  {
    hide ReadRecord, ReadPairs, ParamRecord, ParamLength;
    if ParamLength(key, val) >= 0x10000 {
      ParamLong(key, val, rest);
    } else if |key| != 127 && |val| != 127 {
      ParamBack(key, val, rest);
    } else {
      ParamCut(key, val, rest);
    }
  }

  // ------------------------------------------------------ a whole PARAMS

  /** fcgi_add_param for each pair, then fcgi_add_param_empty */
  function Params(ps: seq<(string, string)>): string {
    if ps == [] then Header(PARAMS, 0, 0) else ParamRecord(ps[0].0, ps[0].1) + Params(ps[1..])
  }

  /** A stream of records of one kind, up to the empty one: the contents, and what follows. */
  function ReadStream(s: string, kind: nat): Option<(seq<string>, string)>
    decreases |s|
  {
    match ReadRecord(s)
    case None => None
    case Some((r, rest)) =>
      if r.kind != kind || r.id != 1 then None
      else if r.content == "" then Some(([], rest))
      else match ReadStream(rest, kind)
        case None => None
        case Some((cs, end)) => Some(([r.content] + cs, end))
  }

  function AllPairs(cs: seq<string>): Option<seq<(string, string)>> {
    if cs == [] then Some([])
    else match (ReadPairs(cs[0]), AllPairs(cs[1..]))
      case (Some(a), Some(b)) => Some(a + b)
      case _ => None
  }

  lemma {:induction false} EmptyBack(kind: nat, rest: string)
    requires kind < 256
    ensures ReadStream(Header(kind, 0, 0) + rest, kind) == Some(([], rest))
  {
    HeaderBack(kind, 0, "", rest);
    assert Header(kind, 0, 0) + "" + Repeat('\0', 0) + rest == Header(kind, 0, 0) + rest;
  }

  /** An unsendable pair leaves a record that ends the stream or does not decode. */
  lemma {:induction false} Unsendable(key: string, val: string, rest: string)
    requires !Sendable((key, val)) && |key| < 0x8000_0000 && |val| < 0x8000_0000
    ensures var r := ReadRecord(ParamRecord(key, val) + rest);
      r.Some? && (r.value.0.content == "" || ReadPairs(r.value.0.content) == None)
  {
    hide ReadRecord, ReadPairs, ParamRecord, ParamContent, ParamLength;
    if ParamLength(key, val) < 0x10000 {
      ParamCut(key, val, rest);
    } else {
      ParamLong(key, val, rest);
      ContentLength(key, val);
      var n := ParamLength(key, val) % 0x10000;
      if n > 0 {
        CutPair(key, val, n);
      }
    }
  }

  /** What the stream of `ps` decodes to, if it does. */
  function Decoded(s: string): Option<(seq<(string, string)>, string)> {
    match ReadStream(s, PARAMS)
    case None => None
    case Some((cs, rest)) => match AllPairs(cs) case None => None case Some(ps) => Some((ps, rest))
  }

  /** One record more in front of a stream. */
  lemma {:induction false} DecodedStep(key: string, val: string, more: string)
    requires |key| < 0x8000_0000 && |val| < 0x8000_0000
    ensures Sendable((key, val)) ==>
      Decoded(ParamRecord(key, val) + more) ==
        match Decoded(more) case None => None case Some((ps, rest)) => Some(([(key, val)] + ps, rest))
    ensures !Sendable((key, val)) ==>
      match Decoded(ParamRecord(key, val) + more) case None => true case Some((ps, _)) => ps == []
  {
    hide ReadRecord, ParamRecord, ReadPairs, Header, ParamContent, ParamLength;
    var s := ParamRecord(key, val) + more;
    if Sendable((key, val)) {
      ParamBack(key, val, more);
      ContentLength(key, val);
      var r := ReadStream(more, PARAMS);
      if r.Some? {
        assert ([ParamContent(key, val)] + r.value.0)[1..] == r.value.0;
      }
    } else {
      Unsendable(key, val, more);
      var (rec, rest) := ReadRecord(s).value;
      var r := ReadStream(rest, PARAMS);
      if r.Some? {
        assert ([rec.content] + r.value.0)[1..] == r.value.0;
      }
    }
  }

  /** All pairs come back in order, and the stream ends where it was closed, exactly if each can be sent. */
  lemma {:induction false} ParamsBack(ps: seq<(string, string)>, rest: string)
    requires forall k :: 0 <= k < |ps| ==> |ps[k].0| < 0x8000_0000 && |ps[k].1| < 0x8000_0000
    ensures Decoded(Params(ps) + rest) == Some((ps, rest)) <==> forall k :: 0 <= k < |ps| ==> Sendable(ps[k])
    decreases ps
  {
    hide ReadRecord, ParamRecord, ReadPairs, Header, Sendable, Decoded;
    if ps == [] {
      EmptyBack(PARAMS, rest);
      NothingDecoded(rest);
    } else {
      var (k, v) := ps[0];
      var more := Params(ps[1..]) + rest;
      assert Params(ps) + rest == ParamRecord(k, v) + more;
      DecodedStep(k, v, more);
      ParamsBack(ps[1..], rest);
      assert [(k, v)] + ps[1..] == ps;
      assert forall qs :: [(k, v)] + qs == ps ==> qs == ([(k, v)] + qs)[1..] == ps[1..];
      SendableRest(ps);
    }
  }

  lemma {:induction false} SendableRest(ps: seq<(string, string)>)
    requires ps != []
    ensures (forall k :: 0 <= k < |ps| ==> Sendable(ps[k])) <==>
      Sendable(ps[0]) && forall k :: 0 <= k < |ps[1..]| ==> Sendable(ps[1..][k])
  {
    hide Sendable;
    assert ps == [ps[0]] + ps[1..];
  }

  lemma {:induction false} NothingDecoded(rest: string)
    ensures Decoded(Header(PARAMS, 0, 0) + rest) == Some(([], rest))
    ensures Params([]) + rest == Header(PARAMS, 0, 0) + rest
  {
    hide ReadRecord, Header;
    EmptyBack(PARAMS, rest);
  }

  // ---------------------------------------------------------------- STDIN

  function ChunkSize(body: string, offset: nat): (r: nat)
    requires offset <= |body|
    ensures r <= MAX_CHUNK && offset + r <= |body| && (offset < |body| ==> r > 0)
  {
    if |body| - offset > MAX_CHUNK then MAX_CHUNK else |body| - offset
  }

  function StdinRecord(body: string, offset: nat): string
    requires offset <= |body|
  {
    var n := ChunkSize(body, offset);
    Header(STDIN, n, Padding(n)) + body[offset..offset + n] + Repeat('\0', Padding(n))
  }

  /** What fcgi_stdin_chunk adds: a record, and behind the last one the empty record. */
  function ChunkBytes(body: string, offset: nat): string
    requires offset <= |body|
  {
    StdinRecord(body, offset) + if offset + ChunkSize(body, offset) == |body| then Header(STDIN, 0, 0) else ""
  }

  /** All chunks from an offset on. */
  function StdinBytes(body: string, offset: nat): string
    requires offset < |body|
    decreases |body| - offset
  {
    var next := offset + ChunkSize(body, offset);
    ChunkBytes(body, offset) + if next < |body| then StdinBytes(body, next) else ""
  }

  function Concat(cs: seq<string>): string {
    if cs == [] then "" else cs[0] + Concat(cs[1..])
  }

  /** Section 3.3 and 8 of the specification: version 1, type 4 or 5, request 1, and nothing reserved. */
  lemma {:induction false} RecordHeads(key: string, val: string, body: string, offset: nat)
    requires offset <= |body|
    ensures Codes(ParamRecord(key, val)[..4]) == [1, 4, 0, 1] && ParamRecord(key, val)[7] == '\0'
    ensures Codes(StdinRecord(body, offset)[..4]) == [1, 5, 0, 1] && StdinRecord(body, offset)[7] == '\0'
    ensures Codes(Header(PARAMS, 0, 0)) == [1, 4, 0, 1, 0, 0, 0, 0]
    ensures Codes(Header(STDIN, 0, 0)) == [1, 5, 0, 1, 0, 0, 0, 0]
    ensures ChunkSize(body, offset) == if |body| - offset < 65535 then |body| - offset else 65535
  {
    hide ParamContent, Padding;
  }

  function Codes(s: string): seq<int> {
    seq(|s|, i requires 0 <= i < |s| => s[i] as int)
  }

  /** Every record is a multiple of eight bytes. */
  lemma {:induction false} RecordAligned(body: string, offset: nat)
    requires offset <= |body|
    ensures |StdinRecord(body, offset)| % 8 == 0
  {
    hide Header, Padding;
    var n := ChunkSize(body, offset);
    assert |StdinRecord(body, offset)| == 8 + (n + Padding(n));
  }

  /** The chunks decode to the body, none of them empty, and end in one empty record. */
  lemma {:induction false} StdinBack(body: string, offset: nat, rest: string)
    requires offset < |body|
    ensures var r := ReadStream(StdinBytes(body, offset) + rest, STDIN);
      r.Some? && r.value.1 == rest && Concat(r.value.0) == body[offset..]
    decreases |body| - offset
  {
    hide Header, Padding, ReadRecord, ReadStream, StdinBytes;
    var n := ChunkSize(body, offset);
    var next, chunk := offset + n, body[offset..offset + n];
    var more := (if next == |body| then Header(STDIN, 0, 0) else StdinBytes(body, next)) + rest;
    Regroup(body, offset, rest, more);
    HeaderBack(STDIN, n, chunk, more);
    if next == |body| {
      EmptyBack(STDIN, rest);
      assert chunk + "" == body[offset..];
    } else {
      StdinBack(body, next, rest);
      assert chunk + body[next..] == body[offset..];
    }
    OneRecord(StdinRecord(body, offset) + more, chunk, more, STDIN);
  }

  /** A record in front of a stream. */
  lemma {:induction false} OneRecord(s: string, content: string, rest: string, kind: nat)
    requires ReadRecord(s) == Some((Record(kind, 1, content), rest)) && content != "" && ReadStream(rest, kind).Some?
    ensures ReadStream(s, kind) == Some(([content] + ReadStream(rest, kind).value.0, ReadStream(rest, kind).value.1))
    ensures Concat([content] + ReadStream(rest, kind).value.0) == content + Concat(ReadStream(rest, kind).value.0)
  {
    hide ReadRecord;
    var cs := ReadStream(rest, kind).value.0;
    assert ([content] + cs)[1..] == cs;
  }

  lemma {:induction false} Regroup(body: string, offset: nat, rest: string, more: string)
    requires offset < |body|
    requires more == (if offset + ChunkSize(body, offset) == |body| then Header(STDIN, 0, 0)
      else StdinBytes(body, offset + ChunkSize(body, offset))) + rest
    ensures StdinBytes(body, offset) + rest == StdinRecord(body, offset) + more
  {
    hide Header, StdinRecord;
    var r := StdinRecord(body, offset);
    var next := offset + ChunkSize(body, offset);
    if next == |body| {
      assert (r + Header(STDIN, 0, 0) + "") + rest == r + (Header(STDIN, 0, 0) + rest);
    } else {
      assert (r + "" + StdinBytes(body, next)) + rest == r + (StdinBytes(body, next) + rest);
    }
  }

  /** struct fcgi_handler, as far as it builds the request */
  class Handler {
    var iov: Iov
    var stdinBuffer: string
    var stdinOffset: nat
    /** what has been handed to the channel */
    ghost var wire: string

    constructor ()
      ensures fresh(iov) && fresh(iov.io) && iov.Valid() && iov.Contents() == "" && iov.idx == 0 &&
        iov.io.Length == 64 && wire == ""
      ensures stdinBuffer == "" && stdinOffset == 0
    {
      iov := new Iov(64);
      stdinBuffer, stdinOffset, wire := "", 0, "";
    }

    /** fcgi_add_param */
    method AddParam(key: string, keyFree: bool, val: string, valFree: bool)
      requires iov.Valid() && iov.idx + 4 <= iov.io.Length
      modifies iov, iov.io
      ensures iov.Valid() && iov.Contents() == old(iov.Contents()) + ParamRecord(key, val) &&
        iov.idx <= old(iov.idx) + 4
      ensures iov.toFree == old(iov.toFree) + (if keyFree then [key] else []) + (if valFree then [val] else [])
    {
      hide Header, WriteLength, Padding;
      var len := ParamLength(key, val);
      var padding := Padding(len);
      ghost var was := iov.Contents();
      var head := Header(PARAMS, len, padding) + WriteLength(|key|) + WriteLength(|val|);
      iov.Add(head, false);
      iov.Add(key, keyFree);
      iov.Add(val, valFree);
      if padding != 0 {
        iov.Add(Repeat('\0', padding), false);
      }
      Grouped(was, Header(PARAMS, len, padding), WriteLength(|key|), WriteLength(|val|), key, val,
        Repeat('\0', padding));
    }

    /** An entry for some bytes, if there are any. */
    static method AddIfAny(iov: Iov, text: string)
      requires iov.Valid() && iov.idx < iov.io.Length
      modifies iov, iov.io
      ensures iov.Valid() && iov.idx <= old(iov.idx) + 1 && iov.Contents() == old(iov.Contents()) + text
    {
      if |text| > 0 {
        iov.Add(text, false);
      } else {
        assert iov.Contents() + text == iov.Contents();
      }
    }

    /** fcgi_stdin_chunk */
    method StdinChunk()
      requires iov.Valid() && iov.idx + 4 <= iov.io.Length && stdinOffset <= |stdinBuffer|
      modifies this`stdinOffset, iov, iov.io
      ensures iov.Valid() && iov.Contents() == old(iov.Contents()) + ChunkBytes(stdinBuffer, old(stdinOffset))
      ensures stdinOffset == old(stdinOffset) + ChunkSize(stdinBuffer, old(stdinOffset))
    {
      hide Header, Padding, Repeat, Iov.Valid, Iov.Contents;
      var total := |stdinBuffer| - stdinOffset;
      var chunk := if total > MAX_CHUNK then MAX_CHUNK else total;
      var padding := Padding(chunk);
      var text := stdinBuffer[stdinOffset..stdinOffset + chunk];
      var head, pad, eof := Header(STDIN, chunk, padding), Repeat('\0', padding),
        if stdinOffset + chunk == |stdinBuffer| then Header(STDIN, 0, 0) else "";
      GroupedChunk(iov.Contents(), head, text, pad, eof);
      iov.Add(head, false);
      AddIfAny(iov, text);
      AddIfAny(iov, pad);
      AddIfAny(iov, eof);
      stdinOffset := stdinOffset + chunk;
    }

    /** fcgi_add_stdin, then the stdin branch of cb_fastcgi_request_flush until nothing is left; -1 for an empty body */
    method SendStdin(body: string) returns (ret: int)
      requires iov.Valid() && iov.idx + 4 <= iov.io.Length
      modifies this, iov, iov.io
      ensures body == "" ==> ret == -1 && wire == old(wire)
      ensures body != "" ==>
        ret == 0 && wire == old(wire) + old(iov.Contents()) + StdinBytes(body, 0) &&
        stdinOffset == |body|
    {
      hide ChunkBytes, StdinBytes;
      if body == "" {
        return -1;
      }
      ghost var head := wire + iov.Contents();
      stdinBuffer, stdinOffset := body, 0;
      StdinChunk();
      wire := wire + iov.Contents();
      ghost var at := 0;
      assert wire == head + ChunkBytes(body, 0) == head + ("" + ChunkBytes(body, 0));
      Step(head, body, 0, head);
      while |body| - stdinOffset > 0
        invariant stdinBuffer == body && 0 < stdinOffset <= |body|
        invariant stdinOffset < |body| ==> wire + StdinBytes(body, stdinOffset) == head + StdinBytes(body, 0)
        invariant stdinOffset == |body| ==> wire == head + StdinBytes(body, 0)
        decreases |body| - stdinOffset
      {
        at := stdinOffset;
        ghost var was := wire;
        iov := new Iov(64);
        StdinChunk();
        wire := wire + iov.Contents();
        Step(was, body, at, head);
      }
      return 0;
    }
  }

  lemma {:induction false} Step(was: string, body: string, at: nat, head: string)
    requires at < |body| && was + StdinBytes(body, at) == head + StdinBytes(body, 0)
    ensures var next := at + ChunkSize(body, at); var now := was + ("" + ChunkBytes(body, at));
      if next < |body| then now + StdinBytes(body, next) == head + StdinBytes(body, 0)
        else now == head + StdinBytes(body, 0)
  {
    hide ChunkBytes;
    var next := at + ChunkSize(body, at);
    if next < |body| {
      assert was + (ChunkBytes(body, at) + StdinBytes(body, next)) == was + ("" + ChunkBytes(body, at)) +
        StdinBytes(body, next);
    } else {
      assert ChunkBytes(body, at) + "" == "" + ChunkBytes(body, at);
    }
  }

  lemma {:induction false} Grouped(was: string, h: string, a: string, b: string, k: string, v: string, z: string)
    ensures was + (h + a + b) + k + v + z == was + (h + (a + b + k + v) + z)
    ensures z == "" ==> was + (h + a + b) + k + v == was + (h + (a + b + k + v) + z)
  {
  }

  lemma {:induction false} GroupedChunk(was: string, h: string, c: string, z: string, e: string)
    ensures was + h + c + z + e == was + ((h + c + z) + e)
  {
  }
}

/** The request parser as it works: fields updated in place over a shared buffer. */
module HttpMachine {
  import opened Wrappers
  import opened HttpSyntax
  import HP = HttpParser
  import opened HttpFrame

  /** What a call returns; an error carries the status it enqueues (0: none). */
  datatype Verdict = PENDING | OK | ERROR(code: int)

  /** What a round leaves: go on, or a verdict. */
  predicate Agrees(out: Option<Verdict>, s: HP.State, o: HP.Outcome) {
    match o
    case More(t) => out.None? && s.(i := s.i + 1, chars := s.chars + 1) == t
    case Return(Pending(t)) => out == Some(PENDING) && s == t
    case Return(Ok(t)) => out == Some(OK) && s == t
    case Return(Error(c)) => out == Some(ERROR(c))
  }

  /** The offsets that will be read again lie before the current byte, in order. */
  predicate Sane(s: HP.State) {
    && (s.level.First? && !s.status.BlockEnd? ==> s.start <= s.i && -1 <= s.guess < |METHODS|)
    && (s.level.First? && s.status.ReqMethod? ==> s.start == 0)
    && (s.level.Headers? && s.status.HeaderKey? ==> s.chars >= 0)
    && (HP.KeyNeeded(s) ==> 0 <= s.key < s.i && -1 <= s.min <= s.max < |HEADERS|)
    && (s.level.Headers? && (s.status.HeaderValue? || s.status.HeaderValStarts?) ==> s.key < s.sep < s.i)
    && (s.level.Headers? && s.status.HeaderValStarts? ==> s.sep < s.val < s.i)
    && (s.level.Body? ==> s.start <= s.i && s.table.contentLength > 0)
  }

  lemma {:induction false} WindowRange(c: char)
    ensures -1 <= Window(c).0 <= Window(c).1 < |HEADERS|
  {
  }

  lemma {:induction false} GuessRange(c: char, g: int)
    requires -1 <= g < |METHODS|
    ensures -1 <= GuessMethod(c, g) < |METHODS|
  {
  }

  lemma {:induction false} FirstLineSane(s: HP.State, b: string)
    requires s.i < |b| && s.level.First? && Sane(s) && HP.FirstLine(s, b).More?
    ensures Sane(HP.FirstLine(s, b).s)
  {
    hide MethodLookup, Slice, GuessMethod, HP.Version;
    if !s.status.BlockEnd? {
      GuessRange(b[s.i], s.guess);
    }
  }

  lemma {:induction false} HeaderLineSane(s: HP.State, b: string)
    requires s.i < |b| && s.level.Headers? && Sane(s) && HP.HeaderLine(s, b).More?
    ensures Sane(HP.HeaderLine(s, b).s)
  {
    hide HP.HeaderLookup, Window;
    WindowRange(b[s.i]);
  }

  lemma {:induction false} AdvanceSane(s: HP.State, b: string)
    requires s.i < |b| && !s.level.Body? && Sane(s) && HP.Advance(s, b).More?
    ensures Sane(HP.Advance(s, b).s)
  {
    hide HP.FirstLine, HP.HeaderLine;
    if s.level.First? {
      FirstLineSane(s, b);
    } else if s.level.Headers? {
      HeaderLineSane(s, b);
    } else if s.level.Continue? && b[s.i] != '\r' {
      ContinueSane(s, b);
    }
  }

  lemma {:induction false} ContinueSane(s: HP.State, b: string)
    requires s.i < |b| && s.level.Continue?
    ensures var t := s.(level := HP.Headers, status := HP.HeaderKey, chars := 0); HP.HeaderLine(t, b).More? ==>
      Sane(HP.HeaderLine(t, b).s)
  {
  }

  // --------------------------------------------------- lower case in place

  /** Some bytes between `lo` and `hi` have become lower case. */
  predicate Lowered(b: string, c: string, lo: int, hi: int) {
    |b| == |c| && forall k :: 0 <= k < |b| ==> c[k] == b[k] || (lo <= k < hi && c[k] == Lower(b[k]))
  }

  /** The key of every extra header now stands in lower case in the buffer. */
  predicate Spelled(extra: seq<HP.Row>, b: string) {
    forall k :: 0 <= k < |extra| ==>
      var p := extra[k].key; Slice(b, p.pos, p.pos + p.len) == extra[k].name && LowerAll(extra[k].name) == extra[k].name
  }

  lemma {:induction false} LowerTwice(s: string)
    ensures LowerAll(LowerAll(s)) == LowerAll(s)
  {
  }

  lemma {:induction false} SliceKept(b: string, c: string, lo: int, hi: int, from: int, to: int)
    requires Lowered(b, c, lo, hi) && LowerAll(Slice(b, from, to)) == Slice(b, from, to)
    ensures Slice(c, from, to) == Slice(b, from, to)
  {
    if 0 <= from <= to <= |b| {
      forall k | 0 <= k < to - from
        ensures c[from..to][k] == b[from..to][k]
      {
        assert LowerAll(b[from..to])[k] == Lower(b[from + k]);
        assert b[from..to][k] == b[from + k];
      }
    }
  }

  lemma {:induction false} SpelledKept(extra: seq<HP.Row>, b: string, c: string, lo: int, hi: int)
    requires Spelled(extra, b) && Lowered(b, c, lo, hi)
    ensures Spelled(extra, c)
  {
    hide Lowered, Slice, LowerAll;
    forall k | 0 <= k < |extra|
      ensures Slice(c, extra[k].key.pos, extra[k].key.pos + extra[k].key.len) == extra[k].name
    {
      SliceKept(b, c, lo, hi, extra[k].key.pos, extra[k].key.pos + extra[k].key.len);
    }
  }

  /** header_lookup may read the key and the value. */
  predicate Lookable(s: HP.State, n: nat) {
    0 <= s.key < s.sep < s.val <= s.end <= n && -1 <= s.min <= s.max < |HEADERS|
  }

  /** struct mk_http_parser, with the request it fills */
  class Parser {
    var i: nat
    var level: HP.Level
    var status: HP.Status
    var chars: int
    var start: nat
    var end: nat
    var guess: int
    var key: int
    var sep: int
    var val: int
    var min: int
    var max: int
    var bodyReceived: int
    var known: map<nat, HP.Row>
    var extra: seq<HP.Row>
    var list: seq<HP.Row>
    var contentLength: int
    var connection: HP.Connection
    var port: int
    var req: HP.Request

    function View(): HP.State
      reads this
    {
      HP.State(i, level, status, chars, start, end, guess, key, sep, val, min, max, bodyReceived,
               HP.Table(known, extra, list, contentLength, connection, port), req)
    }

    constructor ()
      ensures View() == HP.INITIAL
    {
      new;
      Init();
    }

    /** mk_http_parser_init */
    method Init()
      modifies this
      ensures View() == HP.INITIAL
    {
      InitPosition();
      InitPhase();
      InitKey();
      InitWindow();
      InitRows();
      InitFacts();
      req := HP.Request(METHOD_UNKNOWN, HP.Span(0, 0), None, None, -1, HP.Span(0, 0), None);
    }

    method InitPosition()
      modifies this`i, this`chars, this`start, this`end
      ensures View() == old(View()).(i := 0, chars := -1, start := 0, end := 0)
    {
      i, chars := 0, -1;
      start, end := 0, 0;
    }

    method InitPhase()
      modifies this`level, this`status, this`guess
      ensures View() == old(View()).(level := HP.First, status := HP.ReqMethod, guess := -1)
    {
      level, status, guess := HP.First, HP.ReqMethod, -1;
    }

    method InitKey()
      modifies this`key, this`sep, this`val
      ensures View() == old(View()).(key := -1, sep := -1, val := -1)
    {
      key, sep, val := -1, -1, -1;
    }

    method InitWindow()
      modifies this`min, this`max, this`bodyReceived
      ensures View() == old(View()).(min := -1, max := -1, bodyReceived := 0)
    {
      min, max, bodyReceived := -1, -1, 0;
    }

    method InitRows()
      modifies this`known, this`extra, this`list
      ensures View() == old(View()).(table := old(View()).table.(known := map[], extra := [], list := []))
    {
      known, extra, list := map[], [], [];
    }

    method InitFacts()
      modifies this`contentLength, this`connection, this`port
      ensures View() == old(View()).(
        table := old(View()).table.(contentLength := -1, connection := HP.Empty, port := 0))
    {
      contentLength, connection, port := -1, HP.Empty, 0;
    }

    /** char_lookup */
    method CharLookup(buf: array<char>, c: char, len: nat)
      requires i < len <= buf.Length
      modifies this`i
      ensures i == HP.CharLookup(buf[..], c, old(i), len)
    {
      var x := i;
      while true
        invariant i == old(i) <= x < len && forall k :: i <= k < x ==> buf[k] != c
        decreases len - x
      {
        if buf[x] == c {
          i := x;
          return;
        }
        x := x + 1;
        if x >= len {
          break;
        }
      }
      assert forall k :: old(i) <= k < len ==> buf[..][k] != c;
    }

    /** header_cmp, on the bytes from `off`: true where it returns 0 */
    method HeaderCmp(expected: string, buf: array<char>, off: nat, len: nat) returns (eq: bool)
      requires off + len <= buf.Length && len <= |expected|
      ensures eq <==> LowerAll(buf[off..off + len]) == expected[..len]
    {
      ghost var low := LowerAll(buf[off..off + len]);
      assert forall k :: 0 <= k < len ==> low[k] == Lower(buf[off + k]);
      var j := 0;
      if len >= 8 {
        if expected[0] != Lower(buf[off]) { assert low[0] != expected[..len][0]; return false; }
        if expected[1] != Lower(buf[off + 1]) { assert low[1] != expected[..len][1]; return false; }
        if expected[2] != Lower(buf[off + 2]) { assert low[2] != expected[..len][2]; return false; }
        if expected[3] != Lower(buf[off + 3]) { assert low[3] != expected[..len][3]; return false; }
        if expected[4] != Lower(buf[off + 4]) { assert low[4] != expected[..len][4]; return false; }
        if expected[5] != Lower(buf[off + 5]) { assert low[5] != expected[..len][5]; return false; }
        if expected[6] != Lower(buf[off + 6]) { assert low[6] != expected[..len][6]; return false; }
        if expected[7] != Lower(buf[off + 7]) { assert low[7] != expected[..len][7]; return false; }
        j := 8;
      }
      while j < len
        invariant j <= len && forall k :: 0 <= k < j ==> low[k] == expected[k]
      {
        if expected[j] != Lower(buf[off + j]) {
          assert low[j] != expected[..len][j];
          return false;
        }
        j := j + 1;
      }
      assert low == expected[..len];
      return true;
    }

    /** str_searchr, from `off` */
    method Searchr(buf: array<char>, c: char, off: nat, len: nat) returns (k: int)
      requires off + len <= buf.Length
      ensures k == LastIndex(buf[off..off + len], c)
    {
      k := len - 1;
      ghost var text := buf[off..off + len];
      assert text[..len] == text;
      while k >= 0
        invariant -1 <= k < len && LastIndex(text, c) == LastIndex(text[..k + 1], c)
      {
        assert text[..k + 1][..k] == text[..k];
        if buf[off + k] == c {
          return;
        }
        k := k - 1;
      }
    }

    /** method_lookup */
    method MethodLookup(buf: array<char>) returns (m: int)
      requires start < end <= buf.Length && -1 <= guess < |METHODS|
      ensures m == HttpSyntax.MethodLookup(guess, buf[start..end])
    {
      var text := buf[start..end];
      if guess >= 0 && StrncmpEq(text[1..], METHODS[guess][1..]) {
        return guess;
      }
      m := 0;
      while m < |METHODS|
        invariant 0 <= m <= |METHODS| && ScanMethods(text, 0) == ScanMethods(text, m)
      {
        if |text| == |METHODS[m]| && StrncmpEq(text, METHODS[m]) {
          return;
        }
        m := m + 1;
      }
      m := METHOD_UNKNOWN;
    }

    /** What a Host header adds: the port behind the last colon. */
    method HostPort(buf: array<char>) returns (fail: Option<int>, len: int)
      requires Lookable(View(), buf.Length)
      modifies this`port
      ensures match HP.HostEffect(old(View().table), buf[val..end])
        case Rejected(c) => fail == Some(c) && View() == old(View())
        case Accepted(t, n) => fail.None? && len == n && View() == old(View()).(table := t)
    {
      hide Strtol, LastIndex;
      len := end - val;
      var at := Searchr(buf, ':', val, end - val);
      assert buf[val..val + (end - val)] == buf[val..end];
      if at > 0 {
        var plen := end - val - at - 1;
        if plen <= 0 || plen >= 6 {
          return Some(BAD_REQUEST), len;
        }
        var text := buf[val + at + 1..end];
        assert text == buf[val..end][at + 1..];
        match Strtol(text) {
          case None => return Some(BAD_REQUEST), len;
          case Some((n, rest)) =>
            if rest != "" && rest[0] != '\0' {
              return Some(BAD_REQUEST), len;
            }
            port := n;
            len := at;
        }
      }
      fail := None;
    }

    method Announce(buf: array<char>) returns (fail: Option<int>)
      requires Lookable(View(), buf.Length)
      modifies this`contentLength
      ensures match HP.LengthEffect(old(View().table), buf[val..end])
        case Rejected(c) => fail == Some(c) && View() == old(View())
        case Accepted(t, n) => fail.None? && n == end - val && View() == old(View()).(table := t)
    {
      match Strtol(buf[val..end]) {
        case None => return Some(0);
        case Some((n, _)) =>
          if !InLong(n) {
            return Some(TOO_LARGE);
          }
          if n < 0 {
            return Some(0);
          }
          contentLength := n;
      }
      fail := None;
    }

    method Persist(buf: array<char>)
      requires Lookable(View(), buf.Length)
      modifies this`connection
      ensures HP.ConnectionEffect(old(View().table), buf[val..end]) == HP.Accepted(View().table, end - val)
      ensures View() == old(View()).(table := View().table)
    {
      var len := end - val;
      assert buf[val..val + len] == buf[val..end];
      assert |"keep-alive"| == 10 && |"close"| == 5 && |"upgrade"| == 7;
      if len == 10 {
        var eq := HeaderCmp("keep-alive", buf, val, len);
        if eq {
          connection := HP.KeepAlive;
        }
      } else if len == 5 {
        var eq := HeaderCmp("close", buf, val, len);
        if eq {
          connection := HP.Close;
        }
      } else if len == 7 {
        var eq := HeaderCmp("upgrade", buf, val, len);
        if eq {
          connection := HP.Upgrade;
        }
      } else {
        connection := HP.Unknown;
      }
    }

    /** The row of the window that matches the key; row -1 matches nothing. */
    method FindRow(buf: array<char>) returns (row: int)
      requires Lookable(View(), buf.Length)
      ensures HttpSyntax.FindRow(buf[key..sep], min, max) == if row <= max then Some(row) else None
      ensures row <= max ==> 0 <= row
    {
      hide HEADERS;
      var len := sep - key;
      ghost var k := buf[key..sep];
      assert k[1..] == buf[key + 1..key + 1 + (len - 1)];
      row := min;
      while row <= max
        invariant min <= row <= max + 1 && HttpSyntax.FindRow(k, min, max) == HttpSyntax.FindRow(k, row, max)
      {
        if row >= 0 && |HEADERS[row]| == len {
          var eq := HeaderCmp(HEADERS[row][1..], buf, key + 1, len - 1);
          if eq {
            return;
          }
        }
        row := row + 1;
      }
    }

    /** Transform the header key to lower case, in the buffer. */
    method LowerKey(buf: array<char>)
      requires Lookable(View(), buf.Length)
      modifies buf
      ensures Lowered(old(buf[..]), buf[..], key, sep)
      ensures buf[key..sep] == LowerAll(old(buf[key..sep]))
    {
      var k := key;
      while k < sep
        invariant key <= k <= sep
        invariant forall j :: 0 <= j < buf.Length ==> buf[j] == if key <= j < k then Lower(old(buf[j])) else old(buf[j])
      {
        buf[k] := Lower(buf[k]);
        k := k + 1;
      }
    }

    /** header_lookup */
    method HeaderLookup(buf: array<char>) returns (fail: Option<int>)
      requires Lookable(View(), buf.Length) && Spelled(extra, buf[..])
      modifies this`known, this`extra, this`list, this`port, this`contentLength, this`connection, buf
      ensures match HP.HeaderLookup(old(View()), old(buf[..]))
        case Rejected(c) => fail == Some(c)
        case Accepted(t, _) => fail.None? && View() == old(View()).(table := t)
      ensures Lowered(old(buf[..]), buf[..], key, sep) && Spelled(extra, buf[..])
    {
      hide HEADERS, Lower, Strtol, HttpSyntax.FindRow, Spelled, Lowered, LowerAll, HP.HostEffect, HP.LengthEffect,
        HP.ConnectionEffect;
      ghost var b := buf[..];
      KeepsAll(b, key, sep);
      SliceOf(b, key, sep);
      SliceOf(b, val, end);
      var row := FindRow(buf);
      var keyText := buf[key..sep];
      var len := end - val;
      if row <= max {
        fail := None;
        if row == HOST {
          fail, len := HostPort(buf);
        } else if row == CONTENT_LENGTH {
          fail := Announce(buf);
        } else if row == CONNECTION {
          Persist(buf);
        }
        if fail.Some? {
          return;
        }
        var r := HP.Row(HP.Span(key, sep - key), LowerAll(keyText), HP.Span(val, len));
        known, list := known[row := r], list + [r];
        return;
      }
      if |extra| < EXTRA_SIZE {
        var r := HP.Row(HP.Span(key, sep - key), LowerAll(keyText), HP.Span(val, len));
        LowerKey(buf);
        SpelledKept(extra, b, buf[..], key, sep);
        SpelledAdd(extra, buf[..], r, keyText);
        extra, list := extra + [r], list + [r];
        return None;
      }
      return Some(TOO_LARGE);
    }

    // -------------------------------------------------------- first line

    /** mark_end() */
    method MarkEnd()
      modifies this`end, this`chars
      ensures View() == HP.MarkEnd(old(View()))
    {
      end, chars := i, -1;
    }

    /** start_next(), up to the continue */
    method StartNext()
      modifies this`start
      ensures View() == old(View()).(start := i + 1)
    {
      start := i + 1;
    }

    method MethodByte(buf: array<char>) returns (out: Option<Verdict>)
      requires i < buf.Length && level.First? && status.ReqMethod? && Sane(View())
      modifies this`guess, this`end, this`chars, this`status, this`req, this`start
      ensures Agrees(out, View(), HP.FirstLine(old(View()), buf[..]))
    {
      hide HttpSyntax.MethodLookup, GuessMethod;
      if chars == -1 {
        guess := GuessMethod(buf[i], guess);
        return None;
      }
      if buf[i] == ' ' {
        MarkEnd();
        status := HP.ReqUri;
        if end < 2 {
          return Some(ERROR(0));
        }
        SliceOf(buf[..], start, end);
        assert buf[..][start..end] == buf[start..end];
        var m := MethodLookup(buf);
        req := req.(verb := m, verbP := HP.Span(start, end - start));
        StartNext();
        return None;
      }
      if i - start > 10 {
        return Some(ERROR(0));
      }
      return None;
    }

    method UriByte(buf: array<char>) returns (out: Option<Verdict>)
      requires i < buf.Length && level.First? && status.ReqUri? && Sane(View())
      modifies this`end, this`chars, this`status, this`req, this`start
      ensures Agrees(out, View(), HP.FirstLine(old(View()), buf[..]))
    {
      out := None;
      if buf[i] == ' ' {
        MarkEnd();
        status := HP.ReqVersion;
        if end - start < 1 {
          return Some(ERROR(0));
        }
        req := req.(uri := Some(HP.Span(start, end - start)));
        StartNext();
      } else if buf[i] == '?' {
        MarkEnd();
        req := req.(uri := Some(HP.Span(start, end - start)));
        status := HP.ReqQuery;
        StartNext();
      } else if buf[i] == '\r' || buf[i] == '\n' {
        return Some(ERROR(BAD_REQUEST));
      }
    }

    /** The query string, on the byte where the search for its end stops. */
    method QueryByte(buf: array<char>) returns (out: Option<Verdict>)
      requires i < buf.Length && level.First? && status.ReqQuery?
      modifies this`end, this`chars, this`status, this`req, this`start
      ensures Agrees(out, View(), HP.FirstLine(old(View()), buf[..]))
    {
      out := None;
      if buf[i] == ' ' {
        MarkEnd();
        req := req.(query := Some(HP.Span(start, end - start)));
        status := HP.ReqVersion;
        StartNext();
      } else if buf[i] == '\r' || buf[i] == '\n' {
        return Some(ERROR(BAD_REQUEST));
      }
    }

    method VersionByte(buf: array<char>) returns (out: Option<Verdict>)
      requires i < buf.Length && level.First? && status.ReqVersion? && Sane(View())
      modifies this`req, this`status
      ensures Agrees(out, View(), HP.FirstLine(old(View()), buf[..]))
    {
      hide HP.Version;
      if start + 6 >= i {
        return None;
      }
      var tmp := start;
      assert buf[..][tmp..tmp + 7] ==
        [buf[tmp], buf[tmp + 1], buf[tmp + 2], buf[tmp + 3], buf[tmp + 4], buf[tmp + 5], buf[tmp + 6]];
      VersionLetters([buf[tmp], buf[tmp + 1], buf[tmp + 2], buf[tmp + 3], buf[tmp + 4], buf[tmp + 5], buf[tmp + 6]]);
      if buf[tmp] == 'H' && buf[tmp + 1] == 'T' && buf[tmp + 2] == 'T' && buf[tmp + 3] == 'P' &&
         buf[tmp + 4] == '/' && buf[tmp + 5] == '1' && buf[tmp + 6] == '.' {
        req := req.(protocolP := HP.Span(start, 8), protocol := HP.Version(buf[tmp + 7]));
      } else {
        return Some(ERROR(VERSION_UNSUPPORTED));
      }
      status := HP.FirstContinue;
      return None;
    }

    /** mk_http_parser_ok */
    method Accept() returns (v: Verdict)
      ensures Agrees(Some(v), View(), HP.Return(HP.Accept(View())))
    {
      if req.protocol == -1 {
        return ERROR(VERSION_UNSUPPORTED);
      }
      if req.verb == POST || req.verb == PUT {
        if CONTENT_LENGTH !in known {
          return ERROR(LENGTH_REQUIRED);
        }
      }
      return OK;
    }

    /** REQ_LEVEL_FIRST */
    method FirstLine(buf: array<char>, len: nat) returns (out: Option<Verdict>)
      requires i < len <= buf.Length && level.First? && Sane(View())
      modifies this`i, this`level, this`status, this`chars, this`start, this`end, this`guess, this`req
      ensures Agrees(out, View(), HP.Iterate(old(View()), buf[..], len))
    {
      hide Agrees, HttpSyntax.MethodLookup, GuessMethod, HP.Version, Slice, HP.CharLookup, HP.Accept;
      ghost var s := View();
      out := None;
      match status {
        case ReqMethod => out := MethodByte(buf);
        case ReqUri => out := UriByte(buf);
        case ReqQuery =>
          CharLookup(buf, ' ', len);
          assert View() == s.(i := HP.CharLookup(buf[..], ' ', s.i, len));
          out := QueryByte(buf);
        case ReqVersion => out := VersionByte(buf);
        case FirstContinue =>
          if buf[i] == '\r' {
            status := HP.FirstFinalizing;
          } else {
            out := Some(ERROR(0));
          }
          AgreesWith(out, View(), HP.FirstLine(s, buf[..]));
        case FirstFinalizing =>
          if buf[i] == '\n' {
            level := HP.Continue;
            StartNext();
          } else {
            out := Some(ERROR(0));
          }
          AgreesWith(out, View(), HP.FirstLine(s, buf[..]));
        case BlockEnd =>
          if buf[i] == '\n' {
            var v := Accept();
            out := Some(v);
          } else {
            out := Some(ERROR(0));
            AgreesWith(out, View(), HP.FirstLine(s, buf[..]));
          }
        case _ =>
          AgreesWith(out, View(), HP.FirstLine(s, buf[..]));
      }
    }

    // ----------------------------------------------------------- headers

    method KeyByte(buf: array<char>, len: nat) returns (out: Option<Verdict>)
      requires i < len <= buf.Length && level.Headers? && status.HeaderKey? && Sane(View())
      modifies this`i, this`level, this`start, this`sep, this`min, this`max, this`key, this`end, this`chars, this`status
      ensures Agrees(out, View(), HP.Iterate(old(View()), buf[..], len))
    {
      hide Window, HEADERS, HP.HeaderLookup;
      ghost var s := View();
      if buf[i] == '\r' {
        if chars == 0 {
          level := HP.End;
          StartNext();
          return None;
        }
        return Some(ERROR(0));
      }
      if chars == 0 {
        OpenRow(buf[i]);
        return None;
      }
      CharLookup(buf, ':', len);
      assert View() == s.(i := HP.CharLookup(buf[..], ':', s.i, len));
      out := ColonByte(buf);
    }

    /** The start of a header row: the rows that its first letter leaves. */
    method OpenRow(c: char)
      modifies this`min, this`max, this`key, this`sep
      ensures var w := Window(c);
        View() == old(View()).(min := w.0, max := w.1, key := i, sep := if w.0 == -1 then -1 else old(sep))
    {
      hide Window;
      var w := Window(c);
      if w.0 == -1 {
        sep := -1;
      }
      min, max := w.0, w.1;
      key := i;
    }

    /** The rest of a key, on the byte where the search for its end stops. */
    method ColonByte(buf: array<char>) returns (out: Option<Verdict>)
      requires i < buf.Length && level.Headers? && status.HeaderKey? && chars != 0 && buf[i] != '\r'
      modifies this`sep, this`end, this`chars, this`status, this`start
      ensures Agrees(out, View(), HP.HeaderLine(old(View()), buf[..]))
    {
      hide Window, HEADERS, HP.HeaderLookup;
      if buf[i] == ':' {
        sep := i;
        MarkEnd();
        if end - start < 1 {
          return Some(ERROR(0));
        }
        status := HP.HeaderValue;
        StartNext();
      }
      return None;
    }

    method ValueByte(buf: array<char>) returns (out: Option<Verdict>)
      requires i < buf.Length && level.Headers? && status.HeaderValue?
      modifies this`status, this`start, this`val
      ensures Agrees(out, View(), HP.HeaderLine(old(View()), buf[..]))
    {
      hide Window, HEADERS, HP.HeaderLookup;
      if buf[i] == '\r' || buf[i] == '\n' {
        return Some(ERROR(0));
      } else if buf[i] != ' ' {
        status := HP.HeaderValStarts;
        start, val := i, i;
      }
      return None;
    }

    /** The bytes of a value, the end of the line included. */
    method ValueRest(buf: array<char>, len: nat) returns (out: Option<Verdict>)
      requires i < len <= buf.Length && level.Headers? && status.HeaderValStarts? && Sane(View()) &&
        Spelled(extra, buf[..])
      modifies this, buf
      ensures Agrees(out, View(), HP.Iterate(old(View()), old(buf[..]), len))
      ensures Lowered(old(buf[..]), buf[..], old(key), old(sep)) && Spelled(extra, buf[..])
      ensures buf[..] != old(buf[..]) && out.None? ==> AfterLine(View()) && old(i) <= i
    {
      hide Window, HEADERS, HP.HeaderLookup, Lowered, Spelled, AfterLine, HP.Iterate, Agrees;
      ghost var s, b := View(), buf[..];
      KeepsAll(b, key, sep);
      if buf[i] == '\r' {
        out := ValueEnd(buf, len);
        return;
      }
      ValueGoesOn(s, b, len);
      if buf[i] == '\n' && buf[i - 1] != '\r' {
        return Some(ERROR(0));
      }
      return None;
    }

    method ValueEnd(buf: array<char>, len: nat) returns (out: Option<Verdict>)
      requires i < len <= buf.Length && level.Headers? && status.HeaderValStarts? && Sane(View()) &&
        Spelled(extra, buf[..])
      requires buf[i] == '\r'
      modifies this, buf
      ensures Agrees(out, View(), HP.Iterate(old(View()), old(buf[..]), len))
      ensures Lowered(old(buf[..]), buf[..], old(key), old(sep)) && Spelled(extra, buf[..])
      ensures buf[..] != old(buf[..]) && out.None? ==> AfterLine(View()) && old(i) <= i
    {
      hide Window, HEADERS, HP.HeaderLookup, Lowered, Spelled, HP.Iterate;
      ghost var s, b := View(), buf[..];
      KeepsAll(b, key, sep);
      LineDone(s, b, len);
      MarkEnd();
      if end - start <= 0 {
        return Some(ERROR(0));
      }
      var fail := HeaderLookup(buf);
      if fail.Some? {
        return Some(ERROR(fail.value));
      }
      // Try to catch next LF
      assert i + 1 < len ==> buf[i + 1] == b[i + 1] by { LoweredBefore(b, buf[..], key, sep, i + 1, len); }
      if i + 1 < len && buf[i + 1] == '\n' {
        NextLine();
      } else {
        LineOpen();
      }
      return None;
    }

    method NextLine()
      modifies this`i, this`status, this`chars, this`start
      ensures View() == old(View()).(i := old(i) + 1, status := HP.HeaderKey, chars := -1, start := old(i) + 2)
    {
      i := i + 1;
      status := HP.HeaderKey;
      chars := -1;
      start := i + 1;
    }

    method LineOpen()
      modifies this`status, this`start
      ensures View() == old(View()).(status := HP.HeaderEnd, start := i + 1)
    {
      status := HP.HeaderEnd;
      start := i + 1;
    }

    method LineEnd(buf: array<char>) returns (out: Option<Verdict>)
      requires i < buf.Length && level.Headers? && status.HeaderEnd?
      modifies this`status, this`chars, this`start
      ensures Agrees(out, View(), HP.HeaderLine(old(View()), buf[..]))
    {
      hide Window, HEADERS, HP.HeaderLookup;
      if buf[i] == '\n' {
        status := HP.HeaderKey;
        chars := -1;
        StartNext();
        return None;
      }
      return Some(ERROR(0));
    }

    // -------------------------------------------------------- the loop

    /** REQ_LEVEL_HEADERS */
    method HeaderStep(buf: array<char>, len: nat) returns (out: Option<Verdict>)
      requires i < len <= buf.Length && level.Headers? && Sane(View()) && Spelled(extra, buf[..])
      modifies this, buf
      ensures Agrees(out, View(), HP.Iterate(old(View()), old(buf[..]), len))
      ensures Lowered(old(buf[..]), buf[..], old(key), old(sep)) && Spelled(extra, buf[..])
      ensures buf[..] != old(buf[..]) && out.None? ==> AfterLine(View()) && old(sep) <= old(i) <= i
      ensures out.Some? ==> out.value.ERROR?
    {
      hide Window, HEADERS, HP.HeaderLine, Agrees, Lowered, Spelled, AfterLine;
      ghost var s, b := View(), buf[..];
      KeepsAll(b, key, sep);
      match status {
        case HeaderKey => out := KeyByte(buf, len);
        case HeaderValue => out := ValueByte(buf);
        case HeaderValStarts => out := ValueRest(buf, len);
        case HeaderEnd => out := LineEnd(buf);
        case _ =>
          out := None;
          NoHeaderByte(s, b, len);
      }
      HeaderErrors(out, View(), s, b, len);
    }

    /** REQ_LEVEL_CONTINUE: the byte behind the first line */
    method ContinueByte(buf: array<char>, len: nat) returns (out: Option<Verdict>)
      requires i < len <= buf.Length && level.Continue?
      modifies this`level, this`status, this`chars, this`start, this`end, this`i, this`min, this`max, this`key, this`sep
      ensures Agrees(out, View(), HP.Iterate(old(View()), buf[..], len))
    {
      hide Window, HEADERS, HP.HeaderLookup;
      ghost var s := View();
      if buf[i] == '\r' {
        level := HP.First;
        status := HP.BlockEnd;
        return None;
      }
      OpenHeaders();
      out := KeyByte(buf, len);
    }

    method OpenHeaders()
      modifies this`level, this`status, this`chars
      ensures View() == old(View()).(level := HP.Headers, status := HP.HeaderKey, chars := 0)
    {
      level := HP.Headers;
      status := HP.HeaderKey;
      chars := 0;
    }

    /** REQ_LEVEL_END */
    method EndByte(buf: array<char>, len: nat) returns (out: Option<Verdict>)
      requires i < len <= buf.Length && level.End?
      modifies this`level, this`chars, this`start
      ensures Agrees(out, View(), HP.Iterate(old(View()), buf[..], len))
    {
      hide HP.Accept;
      if buf[i] != '\n' {
        return Some(ERROR(0));
      }
      if contentLength > 0 {
        level := HP.Body;
        chars := -1;
        start := i + 1;
        return None;
      }
      var v := Accept();
      return Some(v);
    }

    /** REQ_LEVEL_BODY */
    method BodyBytes(len: nat) returns (v: Verdict)
      requires i < len && level.Body? && Sane(View())
      modifies this`bodyReceived, this`i, this`req
      ensures Agrees(Some(v), View(), HP.BodyRound(old(View()), len))
    {
      hide HP.Accept;
      bodyReceived := len - start;
      if len - start < contentLength {
        return PENDING;
      }
      i := i + bodyReceived;
      req := req.(data := Some(HP.Span(start, bodyReceived)));
      v := Accept();
    }

    /** One round of the loop; from `d` on the buffer is as it was, and before `d` it is not read again. */
    method Round(buf: array<char>, len: nat) returns (out: Option<Verdict>, ghost d: nat)
      requires i < len <= buf.Length && Sane(View()) && Spelled(extra, buf[..])
      modifies this, buf
      ensures Agrees(out, View(), HP.Iterate(old(View()), old(buf[..]), len))
      ensures Spelled(extra, buf[..]) && LowerAll(buf[..]) == LowerAll(old(buf[..]))
      ensures SameFrom(old(buf[..]), buf[..], d)
      ensures out.None? ==> d == 0 || (AfterLine(View()) && d <= i)
      ensures out.Some? && !out.value.ERROR? ==> buf[..] == old(buf[..]) && i >= old(i)
    {
      hide Spelled, LowerAll, HP.Iterate, Agrees, Lowered, AfterLine;
      d := 0;
      ghost var s, b := View(), buf[..];
      match level {
        case First => out := FirstLine(buf, len);
        case Continue => out := ContinueByte(buf, len);
        case Headers =>
          out := HeaderStep(buf, len);
          if buf[..] != b {
            d := if s.sep < 0 then 0 else s.sep;
            LoweredFrom(b, buf[..], s.key, s.sep, d);
          }
        case End => out := EndByte(buf, len);
        case Body =>
          var v := BodyBytes(len);
          out := Some(v);
          BodyIsRound(s, b, len);
      }
      VerdictForward(out, View(), s, b, len);
    }

    /**
     * mk_http_parser: one call with `len` bytes in the buffer.  It returns what Run says of the
     * bytes as they were, although the keys of extra headers become lower case on the way: before
     * `d`, where nothing will be read again, as before `d0` already.
     */
    method Parse(buf: array<char>, len: nat, ghost d0: nat) returns (v: Verdict, ghost d: nat)
      requires len <= buf.Length && Sane(View()) && Spelled(extra, buf[..]) && Clean(View(), d0)
      modifies this, buf
      ensures match HP.Run(old(View()), old(buf[..]), len)
        case Pending(s) => v == PENDING && View() == s && Sane(s)
        case Ok(s) => v == OK && View() == s
        case Error(c) => v == ERROR(c)
      ensures Spelled(extra, buf[..]) && LowerAll(buf[..]) == LowerAll(old(buf[..]))
      ensures !v.ERROR? ==> SameFrom(old(buf[..]), buf[..], i)
      ensures v.PENDING? ==> d0 <= d && SameFrom(old(buf[..]), buf[..], d) && Clean(View(), d)
    {
      hide Sane, Spelled, LowerAll, HP.Iterate, AfterLine, Clean, SameFrom;
      ghost var s0, b0 := View(), buf[..];
      SameChain(b0, b0, b0, i, 0, i);
      SameChain(b0, b0, b0, 0, 0, d0);
      d := d0;
      while i < len
        invariant Sane(View()) && Spelled(extra, buf[..]) && LowerAll(buf[..]) == LowerAll(b0)
        invariant HP.Run(View(), buf[..], len) == HP.Run(s0, b0, len) && SameFrom(b0, buf[..], i)
        invariant d0 <= d && SameFrom(b0, buf[..], d) && Clean(View(), d)
        decreases len - i
      {
        ghost var s, b := View(), buf[..];
        var out, e := Round(buf, len);
        if out.Some? {
          PendingSane(s, b, len);
          if !out.value.ERROR? {
            SameChain(b0, b, b, s.i, 0, i);
            PendingClean(s, b, len, d);
          }
          return out.value, d;
        }
        NextRound(s, View(), b, buf[..], e, len);
        NextClean(s, View(), b, len, d, e);
        SameChain(b0, b, buf[..], s.i, e, i + 1);
        if e == 0 {
          NothingChanged(b, buf[..]);
        } else {
          SameChain(b0, b, buf[..], d, e, if d < e then e else d);
          d := if d < e then e else d;
        }
        i, chars := i + 1, chars + 1;
      }
      return PENDING, d;
    }
  }

  /** The key and the value of a header have been read. */
  predicate AfterLine(s: HP.State) {
    s.level.Headers? && (s.status.HeaderEnd? || (s.status.HeaderKey? && s.chars == -1))
  }

  lemma {:induction false} LoweredBefore(b: string, c: string, lo: int, hi: int, k: nat, len: nat)
    requires Lowered(b, c, lo, hi) && hi <= k && len <= |b|
    ensures k < len ==> c[k] == b[k]
  {
  }

  lemma {:induction false} LineDone(s: HP.State, b: string, len: nat)
    requires s.i < len <= |b| && s.level.Headers? && s.status.HeaderValStarts? && b[s.i] == '\r'
    ensures HP.Iterate(s, b, len) ==
      if s.i - s.start <= 0 then HP.Return(HP.Error(0))
      else match HP.HeaderLookup(HP.MarkEnd(s), b)
        case Rejected(c) => HP.Return(HP.Error(c))
        case Accepted(t, _) =>
          var u := HP.MarkEnd(s).(table := t, chars := 0);
          if s.i + 1 < len && b[s.i + 1] == '\n' then
            HP.More(u.(i := s.i + 2, status := HP.HeaderKey, start := s.i + 2))
          else HP.More(u.(i := s.i + 1, status := HP.HeaderEnd, start := s.i + 1))
  {
    hide HP.HeaderLookup;
  }

  lemma {:induction false} ValueGoesOn(s: HP.State, b: string, len: nat)
    requires s.i < len <= |b| && s.level.Headers? && s.status.HeaderValStarts? && b[s.i] != '\r' && s.i > 0
    ensures Agrees(if b[s.i] == '\n' && b[s.i - 1] != '\r' then Some(ERROR(0)) else None, s, HP.Iterate(s, b, len))
  {
    hide HP.HeaderLookup;
  }

  lemma {:induction false} NoHeaderByte(s: HP.State, b: string, len: nat)
    requires s.i < len <= |b| && s.level.Headers?
    requires !s.status.HeaderKey? && !s.status.HeaderValue? && !s.status.HeaderValStarts? && !s.status.HeaderEnd?
    ensures Agrees(None, s, HP.Iterate(s, b, len))
  {
  }

  lemma {:induction false} BodyIsRound(s: HP.State, b: string, len: nat)
    requires s.i < len <= |b| && s.level.Body?
    ensures HP.Iterate(s, b, len) == HP.BodyRound(s, len)
  {
  }

  lemma {:induction false} LoweredFrom(b: string, c: string, lo: int, hi: int, d: nat)
    requires Lowered(b, c, lo, hi) && hi <= d
    ensures SameFrom(b, c, d) && LowerAll(b) == LowerAll(c)
  {
  }

  /** After a round that goes on, the rest of the call is the same on the buffer as it is now. */
  lemma {:induction false} NextRound(s: HP.State, t: HP.State, b: string, c: string, d: nat, len: nat)
    requires s.i < len <= |b| && Sane(s) && Agrees(None, t, HP.Iterate(s, b, len))
    requires SameFrom(b, c, d) && (d == 0 || (AfterLine(t) && d <= t.i))
    ensures var u := t.(i := t.i + 1, chars := t.chars + 1);
      |b| == |c| && Sane(u) && u.i > s.i && HP.Run(s, b, len) == HP.Run(u, c, len)
  {
    hide HP.Iterate;
    var u := t.(i := t.i + 1, chars := t.chars + 1);
    IterateSane(s, b, len);
    IterateMoves(s, b, len);
    RunFrom(u, b, c, d, len);
  }

  lemma {:induction false} CleanAtFirst(s: HP.State)
    requires Sane(s)
    ensures Clean(s, 0)
  {
  }

  lemma {:induction false} NothingChanged(b: string, c: string)
    requires SameFrom(b, c, 0)
    ensures b == c
  {
  }

  /** What will not be read again, after a round that goes on. */
  lemma {:induction false} NextClean(s: HP.State, t: HP.State, b: string, len: nat, d: nat, e: nat)
    requires s.i < len <= |b| && Sane(s) && Clean(s, d) && Agrees(None, t, HP.Iterate(s, b, len))
    requires e == 0 || (AfterLine(t) && e <= t.i)
    ensures Clean(t.(i := t.i + 1, chars := t.chars + 1), if d < e then e else d)
  {
    hide HP.Iterate;
    IterateFrom(s, b, b, d, len);
  }

  lemma {:induction false} PendingClean(s: HP.State, b: string, len: nat, d: nat)
    requires s.i < len <= |b| && Sane(s) && Clean(s, d)
    ensures HP.Iterate(s, b, len).Return? && HP.Iterate(s, b, len).r.Pending? ==> Clean(HP.Iterate(s, b, len).r.s, d)
  {
    hide HP.HeaderLookup, MethodLookup, Slice, Window, GuessMethod, HP.Version, HEADERS;
  }

  lemma {:induction false} IterateSane(s: HP.State, b: string, len: nat)
    requires s.i < len <= |b| && Sane(s) && HP.Iterate(s, b, len).More?
    ensures Sane(HP.Iterate(s, b, len).s)
  {
    hide HP.Advance;
    if HP.Skipping(s) && (s.level.First? || b[s.i] != '\r') {
      AdvanceSane(s.(i := HP.CharLookup(b, HP.Terminator(s), s.i, len)), b);
    } else {
      AdvanceSane(s, b);
      if s.level.Headers? && s.status.HeaderValStarts? && b[s.i] == '\r' {
        LineDone(s, b, len);
      }
    }
  }

  lemma {:induction false} PendingSane(s: HP.State, b: string, len: nat)
    requires s.i < len <= |b| && Sane(s)
    ensures HP.Iterate(s, b, len).Return? && HP.Iterate(s, b, len).r.Pending? ==> Sane(HP.Iterate(s, b, len).r.s)
  {
    hide HP.HeaderLookup, MethodLookup, Slice, Window, GuessMethod, HP.Version, HEADERS;
  }

  lemma {:induction false} HeaderErrors(out: Option<Verdict>, t: HP.State, s: HP.State, b: string, len: nat)
    requires s.i < len <= |b| && s.level.Headers? && Agrees(out, t, HP.Iterate(s, b, len))
    ensures out.Some? ==> out.value.ERROR?
  {
    hide HP.HeaderLookup, Window, HEADERS;
  }

  lemma {:induction false} VerdictForward(out: Option<Verdict>, t: HP.State, s: HP.State, b: string, len: nat)
    requires s.i < len <= |b| && Agrees(out, t, HP.Iterate(s, b, len))
    ensures out.Some? && !out.value.ERROR? ==> t.i >= s.i
  {
    hide HP.HeaderLookup, Window, HEADERS, MethodLookup, GuessMethod, Slice, HP.Version;
  }

  lemma {:induction false} SameChain(a: string, b: string, c: string, i: nat, d: nat, j: nat)
    requires (a == b || SameFrom(a, b, i)) && (b == c || SameFrom(b, c, d)) && (i <= j || a == b) && (d <= j || b == c)
    ensures SameFrom(a, c, j)
  {
  }

  lemma {:induction false} AgreesWith(out: Option<Verdict>, s: HP.State, o: HP.Outcome)
    requires match o
      case More(t) => out.None? && s.(i := s.i + 1, chars := s.chars + 1) == t
      case Return(r) => r.Error? && out == Some(ERROR(r.code))
    ensures Agrees(out, s, o)
  {
  }

  lemma {:induction false} VersionLetters(w: string)
    requires |w| == 7
    ensures w == "HTTP/1." <==>
      w[0] == 'H' && w[1] == 'T' && w[2] == 'T' && w[3] == 'P' && w[4] == '/' &&
      w[5] == '1' && w[6] == '.'
  {
  }

  lemma {:induction false} KeepsAll(b: string, lo: int, hi: int)
    ensures Lowered(b, b, lo, hi)
  {
  }

  lemma {:induction false} SliceOf(b: string, lo: int, hi: int)
    requires 0 <= lo <= hi <= |b|
    ensures Slice(b, lo, hi) == b[lo..hi]
  {
  }

  lemma {:induction false} SpelledAdd(extra: seq<HP.Row>, b: string, r: HP.Row, text: string)
    requires Spelled(extra, b) && r.name == LowerAll(text) && Slice(b, r.key.pos, r.key.pos + r.key.len) == r.name
    ensures Spelled(extra + [r], b)
  {
    LowerTwice(text);
  }

  // ------------------------------------------- bytes behind the buffered ones

  /** The two buffers agree on the first `len` bytes. */
  predicate SameUpto(b: string, c: string, len: nat) {
    len <= |b| && len <= |c| && b[..len] == c[..len]
  }

  lemma {:induction false} SameByte(b: string, c: string, len: nat, k: nat)
    requires SameUpto(b, c, len) && k < len
    ensures b[k] == c[k]
  {
    assert b[..len][k] == c[..len][k];
  }

  lemma {:induction false} SliceUpto(b: string, c: string, len: nat, lo: int, hi: int)
    requires SameUpto(b, c, len) && hi <= len
    ensures Slice(b, lo, hi) == Slice(c, lo, hi)
  {
    if 0 <= lo <= hi {
      assert b[lo..hi] == b[..len][lo..hi] && c[lo..hi] == c[..len][lo..hi];
    }
  }

  lemma {:induction false} FirstLineUpto(s: HP.State, b: string, c: string, len: nat)
    requires s.level.First? && s.i < len && SameUpto(b, c, len)
    ensures HP.FirstLine(s, b) == HP.FirstLine(s, c)
  {
    hide MethodLookup, Slice, GuessMethod, HP.Version, SameUpto;
    SameByte(b, c, len, s.i);
    SliceUpto(b, c, len, s.start, s.i);
    if s.start + 6 < s.i {
      SliceUpto(b, c, len, s.start, s.start + 7);
      SameByte(b, c, len, s.start + 7);
    }
  }

  lemma {:induction false} HeaderLineUpto(s: HP.State, b: string, c: string, len: nat)
    requires s.level.Headers? && s.i < len && SameUpto(b, c, len) && Sane(s)
    ensures HP.HeaderLine(s, b) == HP.HeaderLine(s, c)
  {
    hide HP.HeaderLookup, Window, HEADERS, SameUpto;
    SameByte(b, c, len, s.i);
    if s.status.HeaderValStarts? {
      SameByte(b, c, len, s.i - 1);
      var t := HP.MarkEnd(s);
      assert HP.HeaderLookup(t, b) == HP.HeaderLookup(t, c) by { LookupUpto(t, b, c, len); }
    }
  }

  lemma {:induction false} LookupUpto(s: HP.State, b: string, c: string, len: nat)
    requires SameUpto(b, c, len) && s.sep <= len && s.end <= len
    ensures HP.HeaderLookup(s, b) == HP.HeaderLookup(s, c)
  {
    hide Slice, FindRow, HP.RowEffect;
    SliceUpto(b, c, len, s.key, s.sep);
    SliceUpto(b, c, len, s.val, s.end);
  }

  lemma {:induction false} AdvanceUpto(s: HP.State, b: string, c: string, len: nat)
    requires !s.level.Body? && s.i < len && SameUpto(b, c, len) && Sane(s)
    ensures HP.Advance(s, b) == HP.Advance(s, c)
  {
    hide HP.FirstLine, HP.HeaderLine, SameUpto;
    SameByte(b, c, len, s.i);
    if s.level.First? {
      FirstLineUpto(s, b, c, len);
    } else if s.level.Headers? {
      HeaderLineUpto(s, b, c, len);
    } else if s.level.Continue? {
      HeaderLineUpto(s.(level := HP.Headers, status := HP.HeaderKey, chars := 0), b, c, len);
    }
  }

  lemma {:induction false} LookupSame(b: string, c: string, x: char, i: nat, len: nat)
    requires SameUpto(b, c, len) && i < len
    ensures HP.CharLookup(b, x, i, len) == HP.CharLookup(c, x, i, len)
  {
    forall k | 0 <= k < len
      ensures b[k] == c[k]
    {
      SameByte(b, c, len, k);
    }
  }

  lemma {:induction false} IterateUpto(s: HP.State, b: string, c: string, len: nat)
    requires s.i < len && SameUpto(b, c, len) && Sane(s)
    ensures HP.Iterate(s, b, len) == HP.Iterate(s, c, len)
  {
    hide HP.Advance, HP.CharLookup;
    if !s.level.Body? {
      SameByte(b, c, len, s.i);
      LookupSame(b, c, HP.Terminator(s), s.i, len);
      AdvanceUpto(s.(i := HP.CharLookup(b, HP.Terminator(s), s.i, len)), b, c, len);
      AdvanceUpto(s, b, c, len);
      if s.i + 1 < len {
        SameByte(b, c, len, s.i + 1);
      }
    }
  }

  /** A call does not depend on what lies behind the first `len` bytes. */
  lemma {:induction false} RunUpto(s: HP.State, b: string, c: string, len: nat)
    requires SameUpto(b, c, len) && Sane(s)
    ensures HP.Run(s, b, len) == HP.Run(s, c, len)
    decreases len - s.i
  {
    hide HP.Iterate, Sane;
    if s.i < len {
      IterateUpto(s, b, c, len);
      var o := HP.Iterate(s, b, len);
      if o.More? {
        IterateMoves(s, b, len);
        IterateSane(s, b, len);
        RunUpto(o.s, b, c, len);
      }
    }
  }
}

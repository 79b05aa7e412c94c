/** Reading a request in pieces gives the same as reading it byte by byte. */
module HttpSegments {
  import opened HttpSyntax
  import opened HttpParser

  /** Parsing `b` as it arrives one byte at a time, `n` bytes so far. */
  function Bytewise(b: string, n: nat): Result
    requires n <= |b|
  {
    if n == 0 then Pending(INITIAL)
    else match Bytewise(b, n - 1)
      case Pending(s) => Run(s, b, n)
      case r => r
  }

  /** Parsing `b` as it arrives in pieces: a call whenever the buffer has grown to the next cut. */
  function Piecewise(b: string, cuts: seq<nat>): Result
    requires forall k :: 0 <= k < |cuts| ==> cuts[k] <= |b|
  {
    if cuts == [] then Pending(INITIAL)
    else match Piecewise(b, cuts[..|cuts| - 1])
      case Pending(s) => Run(s, b, cuts[|cuts| - 1])
      case r => r
  }

  /** What holds between calls, after `n` bytes. */
  predicate Inv(s: State, n: nat) {
    && (s.level.Headers? && s.status.HeaderKey? ==> s.chars >= 0) && s.start <= n
    && (if s.level.Body? then s.i == s.start <= n && s.table.contentLength > 0 &&
      (n == s.start || s.bodyReceived == n - s.start < s.table.contentLength)
        else s.i == n)
  }

  lemma {:induction false} AdvanceOn(s: State, b: string)
    requires s.i < |b| && !s.level.Body? && Inv(s, s.i)
    ensures Advance(s, b).More? ==> Inv(Advance(s, b).s, s.i + 1) && Advance(s, b).s.i == s.i + 1
    ensures Advance(s, b).Return? ==> !Advance(s, b).r.Pending?
  {
    hide HeaderLookup, MethodLookup, Slice, Window, GuessMethod, Version;
  }

  /** Away from the body, a call that sees one byte more is one round. */
  lemma {:induction false} OneByte(s: State, b: string)
    requires s.i < |b| && !s.level.Body? && Inv(s, s.i)
    ensures Run(s, b, s.i + 1) == match Advance(s, b) case More(t) => Pending(t) case Return(r) => r
  {
    hide FirstLine, HeaderLine;
    AdvanceOn(s, b);
    assert Iterate(s, b, s.i + 1) == Advance(s, b);
  }

  /** In the body, only the number of bytes counts. */
  lemma {:induction false} BodyCall(s: State, b: string, len: nat)
    requires len <= |b| && s.level.Body? && s.i == s.start < len && s.table.contentLength > 0
    ensures Run(s, b, len) == BodyRound(s, len).r
    ensures len - s.start < s.table.contentLength ==> Run(s, b, len) == Pending(s.(bodyReceived := len - s.start))
    ensures len - s.start >= s.table.contentLength ==> !Run(s, b, len).Pending?
  {
    hide FirstLine, HeaderLine;
  }

  /** Between two byte-wise calls the parser is in a state of the invariant. */
  lemma {:induction false} BytewiseInv(b: string, n: nat)
    requires n <= |b| && Bytewise(b, n).Pending?
    ensures Inv(Bytewise(b, n).s, n)
    decreases n
  {
    hide Advance, Run;
    if n > 0 {
      BytewiseInv(b, n - 1);
      var s := Bytewise(b, n - 1).s;
      if s.level.Body? {
        BodyCall(s, b, n);
      } else {
        OneByte(s, b);
        AdvanceOn(s, b);
      }
    }
  }

  lemma {:induction false} PendingBefore(b: string, k: nat, n: nat)
    requires k <= n <= |b| && Bytewise(b, n).Pending?
    ensures Bytewise(b, k).Pending?
    decreases n
  {
    hide Run;
    if k < n {
      PendingBefore(b, k, n - 1);
    }
  }

  /** The next byte-wise state, outside the body. */
  lemma {:induction false} NextState(b: string, k: nat)
    requires k < |b| && Bytewise(b, k).Pending? && !Bytewise(b, k).s.level.Body?
    ensures Bytewise(b, k).s.i == k
    ensures Bytewise(b, k + 1).Pending? <==> Advance(Bytewise(b, k).s, b).More?
    ensures Bytewise(b, k + 1) == match Advance(Bytewise(b, k).s, b) case More(t) => Pending(t) case Return(r) => r
  {
    hide Advance, Run;
    BytewiseInv(b, k);
    AdvanceOn(Bytewise(b, k).s, b);
    OneByte(Bytewise(b, k).s, b);
  }

  /** A byte that is neither the end of the skipped part nor an error leaves only its count. */
  lemma {:induction false} SkipByte(s: State, b: string)
    requires s.i < |b| && Skipping(s) && b[s.i] != Terminator(s) && Advance(s, b).More?
    ensures Advance(s, b) == Next(s)
  {
  }

  /** The end of the skipped part does not depend on how many bytes were counted. */
  lemma {:induction false} SkipEnd(s: State, b: string, c: int)
    requires s.i < |b| && Skipping(s) && Skipping(s.(chars := c)) && b[s.i] == Terminator(s)
    ensures Advance(s.(chars := c), b) == Advance(s, b)
  {
  }

  lemma {:induction false} Skipped(b: string, k: nat, j: nat)
    requires k <= j <= |b| && Bytewise(b, j).Pending? && Bytewise(b, k).Pending?
    requires Skipping(Bytewise(b, k).s) && forall i :: k <= i < j ==> b[i] != Terminator(Bytewise(b, k).s)
    ensures var s := Bytewise(b, k).s; Bytewise(b, j) == Pending(s.(i := j, chars := s.chars + (j - k)))
    ensures var s := Bytewise(b, k).s; Skipping(s.(chars := s.chars + (j - k)))
    decreases j
  {
    hide Advance, Run;
    BytewiseInv(b, k);
    if k < j {
      PendingBefore(b, j - 1, j);
      Skipped(b, k, j - 1);
      NextState(b, j - 1);
      SkipByte(Bytewise(b, j - 1).s, b);
    }
  }

  /** A jump to the end of the skipped part lands where byte by byte gets. */
  lemma {:induction false} JumpLands(b: string, k: nat, n: nat)
    requires k < n <= |b| && Bytewise(b, k).Pending? && !Bytewise(b, k).s.level.Body? && Skipping(Bytewise(b, k).s)
    requires var j := CharLookup(b, Terminator(Bytewise(b, k).s), k, n); Bytewise(b, j).Pending?
    ensures var s := Bytewise(b, k).s; var j := CharLookup(b, Terminator(s), k, n);
      Bytewise(b, j + 1) == match Advance(s.(i := j), b) case More(t) => Pending(t) case Return(r) => r
  {
    hide Advance, Run;
    BytewiseInv(b, k);
    var s := Bytewise(b, k).s;
    var j := CharLookup(b, Terminator(s), k, n);
    Skipped(b, k, j);
    NextState(b, j);
    if j > k {
      SkipEnd(s.(i := j), b, s.chars + (j - k));
    }
  }

  /** The peek at the line feed does what the next round would. */
  lemma {:induction false} PeekLands(s: State, b: string)
    requires s.i + 1 < |b| && s.level.Headers? && s.status.HeaderValStarts? && b[s.i] == '\r' && b[s.i + 1] == '\n' &&
      Advance(s, b).More?
    ensures var t := Advance(s, b).s;
      && t.i == s.i + 1 && t.level.Headers?
      && Advance(t, b) == More(t.(i := s.i + 2, status := HeaderKey, chars := 0, start := s.i + 2))
  {
    hide HeaderLookup;
  }

  /** One call from `k` bytes to `n` bytes reaches the byte-wise state, as long as that is pending. */
  lemma {:induction false} RunReaches(b: string, k: nat, n: nat)
    requires k <= n <= |b| && Bytewise(b, n).Pending?
    ensures Bytewise(b, k).Pending? && Run(Bytewise(b, k).s, b, n) == Bytewise(b, n)
    decreases n - k
  {
    hide Advance, Bytewise;
    PendingBefore(b, k, n);
    BytewiseInv(b, k);
    var s := Bytewise(b, k).s;
    if k == n {
      if s.i < n {
        BodyCall(s, b, n);
      }
    } else if s.level.Body? {
      BodyReaches(b, k, n);
    } else if Skipping(s) && (s.level.First? || b[s.i] != '\r') {
      var j := CharLookup(b, Terminator(s), k, n);
      PendingBefore(b, j, n);
      PendingBefore(b, j + 1, n);
      JumpLands(b, k, n);
      AdvanceMoves(s.(i := j), b);
      RunReaches(b, j + 1, n);
    } else {
      PendingBefore(b, k + 1, n);
      NextState(b, k);
      var t := Advance(s, b).s;
      if Iterate(s, b, n) != More(t) {
        PendingBefore(b, k + 2, n);
        PeekLands(s, b);
        NextState(b, k + 1);
        RunReaches(b, k + 2, n);
      } else {
        RunReaches(b, k + 1, n);
      }
    }
  }

  lemma {:induction false} AdvanceMoves(s: State, b: string)
    requires s.i < |b| && !s.level.Body?
    ensures Advance(s, b).More? ==> Advance(s, b).s.i == s.i + 1
    ensures Advance(s, b).Return? ==> !Advance(s, b).r.Pending?
  {
    hide HeaderLookup, MethodLookup, Slice, Window, GuessMethod, Version;
  }

  lemma {:induction false} BodyReaches(b: string, k: nat, n: nat)
    requires k < n <= |b| && Bytewise(b, n).Pending? && Bytewise(b, k).Pending? && Bytewise(b, k).s.level.Body?
    ensures Run(Bytewise(b, k).s, b, n) == Bytewise(b, n)
    ensures Bytewise(b, n) == Pending(Bytewise(b, k).s.(bodyReceived := n - Bytewise(b, k).s.start))
    decreases n
  {
    hide Run, Advance;
    BytewiseInv(b, k);
    BytewiseInv(b, n - 1);
    var s := Bytewise(b, k).s;
    BodyCall(s, b, n);
    if k < n - 1 {
      BodyReaches(b, k, n - 1);
      BodyCall(Bytewise(b, n - 1).s, b, n);
    }
  }

  predicate Absent(c: char, b: string, lo: nat, hi: nat)
    requires lo <= hi <= |b|
  {
    forall i :: lo <= i < hi ==> b[i] != c
  }

  /** The call in which the request ends, or fails, where byte by byte does after `m` bytes. */
  lemma {:induction false} RunEnds(b: string, k: nat, m: nat, n: nat)
    requires k < m <= n <= |b| && Bytewise(b, m - 1).Pending? && !Bytewise(b, m).Pending?
    requires var s := Bytewise(b, m - 1).s;
      && (s.level.Body? ==> m == n)
      && (Skipping(s) ==> b[m - 1] == Terminator(s) || Absent(Terminator(s), b, m, n))
    ensures Bytewise(b, k).Pending? && Run(Bytewise(b, k).s, b, n) == Bytewise(b, m)
    decreases m - k
  {
    hide Advance, Bytewise;
    PendingBefore(b, k, m - 1);
    BytewiseInv(b, k);
    BytewiseInv(b, m - 1);
    var s := Bytewise(b, k).s;
    if s.level.Body? {
      if k < m - 1 {
        BodyReaches(b, k, m - 1);
      }
      BodyEnds(b, k, m);
    } else if Skipping(s) && (s.level.First? || b[s.i] != '\r') {
      var j := CharLookup(b, Terminator(s), k, n);
      SkipStaysBefore(b, k, m, n);
      PendingBefore(b, j, m - 1);
      JumpLands(b, k, n);
      AdvanceMoves(s.(i := j), b);
      if j + 1 < m {
        PendingBefore(b, j + 1, m - 1);
        RunEnds(b, j + 1, m, n);
      }
    } else {
      NextState(b, k);
      AdvanceMoves(s, b);
      if k + 1 < m {
        PendingBefore(b, k + 1, m - 1);
        var t := Advance(s, b).s;
        if Iterate(s, b, n) != More(t) {
          PeekLands(s, b);
          NextState(b, k + 1);
          RunEnds(b, k + 2, m, n);
        } else {
          RunEnds(b, k + 1, m, n);
        }
      }
    }
  }

  /** If the end of the skipped part comes only after the end of parsing, the last byte was a wrong one. */
  lemma {:induction false} SkipStaysBefore(b: string, k: nat, m: nat, n: nat)
    requires k < m <= n <= |b| && Bytewise(b, m - 1).Pending? && !Bytewise(b, m).Pending?
    requires Bytewise(b, k).Pending? && Skipping(Bytewise(b, k).s)
    requires var s := Bytewise(b, m - 1).s; Skipping(s) ==> b[m - 1] == Terminator(s) || Absent(Terminator(s), b, m, n)
    ensures CharLookup(b, Terminator(Bytewise(b, k).s), k, n) < m
  {
    hide Advance, Bytewise, Run;
    var s := Bytewise(b, k).s;
    if CharLookup(b, Terminator(s), k, n) >= m {
      Skipped(b, k, m - 1);
    }
  }

  lemma {:induction false} BodyEnds(b: string, k: nat, m: nat)
    requires k < m <= |b| && Bytewise(b, m - 1).Pending? && !Bytewise(b, m).Pending? && Bytewise(b, k).Pending? &&
      Bytewise(b, k).s.level.Body?
    ensures Run(Bytewise(b, k).s, b, m) == Bytewise(b, m)
  {
    hide Run, Advance;
    BytewiseInv(b, k);
    BytewiseInv(b, m - 1);
    if k < m - 1 {
      BodyReaches(b, k, m - 1);
    }
    BodyCall(Bytewise(b, k).s, b, m);
    BodyCall(Bytewise(b, m - 1).s, b, m);
  }

  predicate Increasing(cuts: seq<nat>, b: string) {
    (forall i, j :: 0 <= i < j < |cuts| ==> cuts[i] < cuts[j]) && forall k :: 0 <= k < |cuts| ==> cuts[k] <= |b|
  }

  /** The bytes that the last call has seen. */
  function Seen(cuts: seq<nat>): nat {
    if cuts == [] then 0 else cuts[|cuts| - 1]
  }

  /** As long as the request is incomplete, the state depends only on the bytes received. */
  lemma {:induction false} PiecesPending(b: string, cuts: seq<nat>)
    requires Increasing(cuts, b) && Bytewise(b, Seen(cuts)).Pending?
    ensures Piecewise(b, cuts) == Bytewise(b, Seen(cuts))
    decreases cuts
  {
    hide Run;
    if cuts != [] {
      var before := cuts[..|cuts| - 1];
      PendingBefore(b, Seen(before), Seen(cuts));
      PiecesPending(b, before);
      RunReaches(b, Seen(before), Seen(cuts));
    }
  }

  /** No byte is skipped that would have been an error, and a body is not overshot. */
  predicate Regular(b: string, m: nat, n: nat)
    requires 0 < m <= n <= |b| && Bytewise(b, m - 1).Pending?
  {
    var s := Bytewise(b, m - 1).s;
    (s.level.Body? ==> m == n) && (Skipping(s) ==> b[m - 1] == Terminator(s) || Absent(Terminator(s), b, m, n))
  }

  /**
   * Segmentation independence.  If byte by byte the parser decides after `m` bytes, then under
   * any cuts every call before that returns PENDING, and the call that sees byte `m` returns
   * the same result, with the same positions in every field.
   */
  lemma {:induction false} PiecesDecide(b: string, cuts: seq<nat>, m: nat)
    requires Increasing(cuts, b) && cuts != [] && 0 < m <= |b|
    requires Bytewise(b, m - 1).Pending? && !Bytewise(b, m).Pending?
    requires Seen(cuts[..|cuts| - 1]) < m <= Seen(cuts) <= |b| && Regular(b, m, Seen(cuts))
    ensures Piecewise(b, cuts) == Bytewise(b, m)
    ensures forall k :: 0 <= k < |cuts| ==> Piecewise(b, cuts[..k]).Pending?
  {
    hide Run, Piecewise, Bytewise;
    var before := cuts[..|cuts| - 1];
    forall k | 0 <= k < |cuts|
      ensures Piecewise(b, cuts[..k]).Pending?
    {
      PendingBefore(b, Seen(cuts[..k]), m - 1);
      PiecesPending(b, cuts[..k]);
    }
    PendingBefore(b, Seen(before), m - 1);
    PiecesPending(b, before);
    RunEnds(b, Seen(before), m, Seen(cuts));
    PieceStep(b, cuts);
  }

  lemma {:induction false} PieceStep(b: string, cuts: seq<nat>)
    requires Increasing(cuts, b) && cuts != [] && Piecewise(b, cuts[..|cuts| - 1]).Pending?
    ensures Piecewise(b, cuts) == Run(Piecewise(b, cuts[..|cuts| - 1]).s, b, Seen(cuts))
  {
    hide Run;
  }

  /** Any two ways of cutting the same bytes give the same result. */
  lemma {:induction false} CutsDoNotMatter(b: string, cuts: seq<nat>, cuts': seq<nat>, m: nat)
    requires Increasing(cuts, b) && cuts != [] && Increasing(cuts', b) && cuts' != [] && Seen(cuts) == Seen(cuts') == m
    requires 0 < m && Bytewise(b, m - 1).Pending?
    ensures Piecewise(b, cuts) == Piecewise(b, cuts')
  {
    hide Run, Piecewise, Bytewise;
    if Bytewise(b, m).Pending? {
      PiecesPending(b, cuts);
      PiecesPending(b, cuts');
    } else {
      assert Seen(cuts[..|cuts| - 1]) < m && Seen(cuts'[..|cuts'| - 1]) < m;
      PiecesDecide(b, cuts, m);
      PiecesDecide(b, cuts', m);
    }
  }
}

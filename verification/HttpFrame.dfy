/** What the parser does not look at any more. */
module HttpFrame {
  import opened HttpSyntax
  import opened HttpParser

  /** The two buffers agree from `d` on. */
  predicate SameFrom(b: string, c: string, d: nat) {
    |b| == |c| && forall k :: d <= k < |b| ==> b[k] == c[k]
  }

  /** No byte before `d` will be read again. */
  predicate Clean(s: State, d: nat) {
    && d <= s.i
    && (s.level.First? && !s.status.BlockEnd? ==> d <= s.start)
    && (KeyNeeded(s) ==> d <= s.key)
    && (s.level.Headers? && s.status.HeaderValStarts? ==> d <= s.val < s.i)
  }

  lemma {:induction false} SameSlice(b: string, c: string, d: nat, lo: int, hi: int)
    requires SameFrom(b, c, d) && d <= lo
    ensures Slice(b, lo, hi) == Slice(c, lo, hi)
  {
    if 0 <= lo <= hi <= |b| {
      assert forall k :: 0 <= k < hi - lo ==> b[lo..hi][k] == b[lo + k] && c[lo..hi][k] == c[lo + k];
    }
  }

  lemma {:induction false} FirstLineFrom(s: State, b: string, c: string, d: nat)
    requires s.level.First? && s.i < |b| && SameFrom(b, c, d) && Clean(s, d)
    ensures FirstLine(s, b) == FirstLine(s, c)
    ensures FirstLine(s, b).More? ==> Clean(FirstLine(s, b).s, d)
  {
    hide MethodLookup, Slice, GuessMethod;
    if d <= s.start {
      SameSlice(b, c, d, s.start, s.i);
      SameSlice(b, c, d, s.start, s.start + 7);
    }
  }

  lemma {:induction false} HeaderLineFrom(s: State, b: string, c: string, d: nat)
    requires s.level.Headers? && s.i < |b| && SameFrom(b, c, d) && Clean(s, d)
    ensures HeaderLine(s, b) == HeaderLine(s, c)
    ensures HeaderLine(s, b).More? ==> Clean(HeaderLine(s, b).s, d)
  {
    hide Window, HeaderLookup;
    if s.status.HeaderValStarts? {
      assert HeaderLookup(MarkEnd(s), b) == HeaderLookup(MarkEnd(s), c) by {
        LookupFrom(MarkEnd(s), b, c, d);
      }
    }
  }

  lemma {:induction false} LookupFrom(s: State, b: string, c: string, d: nat)
    requires SameFrom(b, c, d) && d <= s.key && d <= s.val
    ensures HeaderLookup(s, b) == HeaderLookup(s, c)
  {
    hide Slice, FindRow, RowEffect;
    SameSlice(b, c, d, s.key, s.sep);
    SameSlice(b, c, d, s.val, s.end);
  }

  lemma {:induction false} AdvanceFrom(s: State, b: string, c: string, d: nat)
    requires !s.level.Body? && s.i < |b| && SameFrom(b, c, d) && Clean(s, d)
    ensures Advance(s, b) == Advance(s, c)
    ensures Advance(s, b).More? ==> Clean(Advance(s, b).s, d)
  {
    hide FirstLine, HeaderLine;
    if s.level.First? {
      FirstLineFrom(s, b, c, d);
    } else if s.level.Headers? {
      HeaderLineFrom(s, b, c, d);
    } else if s.level.Continue? {
      HeaderLineFrom(s.(level := Headers, status := HeaderKey, chars := 0), b, c, d);
    }
  }

  lemma {:induction false} SameLookup(b: string, c: string, d: nat, x: char, i: nat, len: nat)
    requires SameFrom(b, c, d) && d <= i < len <= |b|
    ensures CharLookup(b, x, i, len) == CharLookup(c, x, i, len)
  {
  }

  lemma {:induction false} IterateFrom(s: State, b: string, c: string, d: nat, len: nat)
    requires s.i < len <= |b| && SameFrom(b, c, d) && Clean(s, d)
    ensures Iterate(s, b, len) == Iterate(s, c, len)
    ensures Iterate(s, b, len).More? ==> Clean(Iterate(s, b, len).s, d)
  {
    hide Advance, CharLookup;
    if !s.level.Body? {
      SameLookup(b, c, d, Terminator(s), s.i, len);
      var j := CharLookup(b, Terminator(s), s.i, len);
      AdvanceFrom(s.(i := j), b, c, d);
      AdvanceFrom(s, b, c, d);
    }
  }

  /** A call does not depend on bytes that will not be read again. */
  lemma {:induction false} RunFrom(s: State, b: string, c: string, d: nat, len: nat)
    requires len <= |b| && SameFrom(b, c, d) && Clean(s, d)
    ensures Run(s, b, len) == Run(s, c, len)
    decreases len - s.i
  {
    hide Iterate, Clean, SameFrom;
    assert |b| == |c| by { SameLength(b, c, d); }
    if s.i < len {
      IterateFrom(s, b, c, d, len);
      var o := Iterate(s, b, len);
      if o.More? {
        IterateMoves(s, b, len);
        RunFrom(o.s, b, c, d, len);
      }
    }
  }

  lemma {:induction false} SameLength(b: string, c: string, d: nat)
    requires SameFrom(b, c, d)
    ensures |b| == |c|
  {
  }

  lemma {:induction false} IterateMoves(s: State, b: string, len: nat)
    requires s.i < len <= |b|
    ensures Iterate(s, b, len).More? ==> Iterate(s, b, len).s.i > s.i
  {
    hide HeaderLookup, MethodLookup, Slice, Window, GuessMethod, Version;
  }
}

/** Vectors of buffers that are written out piece by piece. */
module IoVectors {

  /** struct iovec: `len` bytes of a buffer, from `off` on */
  datatype IoVec = IoVec(buf: string, off: nat, len: nat)

  predicate Fits(e: IoVec) {
    e.off + e.len <= |e.buf|
  }

  function Bytes(e: IoVec): string
    requires Fits(e)
  {
    e.buf[e.off..e.off + e.len]
  }

  predicate AllFit(es: seq<IoVec>) {
    forall k :: 0 <= k < |es| ==> Fits(es[k])
  }

  function Text(es: seq<IoVec>): string
    requires AllFit(es)
  {
    if es == [] then "" else Bytes(es[0]) + Text(es[1..])
  }

  lemma {:induction false} TextSplit(a: seq<IoVec>, b: seq<IoVec>)
    requires AllFit(a) && AllFit(b)
    ensures AllFit(a + b) && Text(a + b) == Text(a) + Text(b)
  {
    if a == [] {
      assert a + b == b;
    } else {
      assert (a + b)[1..] == a[1..] + b;
      TextSplit(a[1..], b);
    }
  }

  /** The entries without their first `n` bytes, as the consuming loop leaves them. */
  function Drop(es: seq<IoVec>, n: nat): seq<IoVec> {
    if es == [] then []
    else if n < es[0].len then [es[0].(off := es[0].off + n, len := es[0].len - n)] + es[1..]
    else if n == es[0].len then [es[0].(len := 0)] + es[1..]
    else [es[0].(len := 0)] + Drop(es[1..], n - es[0].len)
  }

  lemma {:induction false} SuffixInside(head: string, tail: string, n: nat)
    requires n <= |head|
    ensures (head + tail)[n..] == head[n..] + tail
  {
  }

  lemma {:induction false} SuffixBehind(head: string, tail: string, n: nat)
    requires |head| <= n <= |head + tail|
    ensures (head + tail)[n..] == tail[n - |head|..] == "" + tail[n - |head|..]
  {
  }

  lemma {:induction false} DropText(es: seq<IoVec>, n: nat)
    requires AllFit(es) && n <= |Text(es)|
    ensures AllFit(Drop(es, n)) && Text(Drop(es, n)) == Text(es)[n..]
  {
    if es != [] {
      var head, tail := Bytes(es[0]), Text(es[1..]);
      if n > es[0].len {
        var e := es[0].(len := 0);
        DropText(es[1..], n - es[0].len);
        DropFirst(e, Drop(es[1..], n - es[0].len));
        SuffixBehind(head, tail, n);
        assert Bytes(e) == "";
      } else {
        var e := es[0].(off := if n < es[0].len then es[0].off + n else es[0].off, len := es[0].len - n);
        DropFirst(e, es[1..]);
        SuffixInside(head, tail, n);
        assert Bytes(e) == head[n..];
      }
    }
  }

  lemma {:induction false} DropFirst(e: IoVec, es: seq<IoVec>)
    requires Fits(e) && AllFit(es)
    ensures AllFit([e] + es) && Text([e] + es) == Bytes(e) + Text(es)
  {
    assert ([e] + es)[1..] == es;
  }

  // --------------------------------------------------- what the total says

  /** What is left of `n` when the consuming loop stops. */
  function Left(es: seq<IoVec>, n: nat): (r: nat)
    ensures r <= n
  {
    if es == [] || n <= es[0].len then n else Left(es[1..], n - es[0].len)
  }

  /** The length of the first entry that is not empty. */
  function FirstLength(es: seq<IoVec>): nat {
    if es == [] then 0 else if es[0].len > 0 then es[0].len else FirstLength(es[1..])
  }

  /** The total after consuming `n` bytes: the shortcut sets it to zero, the loop subtracts what it had left. */
  function TotalAfter(total: nat, es: seq<IoVec>, n: nat): int {
    if total == n then 0 else total - Left(es, n)
  }

  lemma {:induction false} LeftIsAll(es: seq<IoVec>, n: nat)
    requires AllFit(es) && n <= |Text(es)|
    ensures Left(es, n) == n <==> n <= FirstLength(es)
  {
    if es != [] && es[0].len == 0 {
      LeftIsAll(es[1..], n);
    } else if es != [] && n > es[0].len {
      assert Left(es[1..], n - es[0].len) <= n - es[0].len;
    }
  }

  /** From an exact total, consuming leaves an exact one if and only if it stays in the first entry or takes all. */
  lemma {:induction false} TotalStaysExact(es: seq<IoVec>, n: nat)
    requires AllFit(es) && n <= |Text(es)|
    ensures AllFit(Drop(es, n))
    ensures TotalAfter(|Text(es)|, es, n) == |Text(Drop(es, n))| <==> n == |Text(es)| || n <= FirstLength(es)
  {
    hide Text, Drop, Left, FirstLength;
    DropText(es, n);
    LeftIsAll(es, n);
  }

  /** Three bytes of "ab" and "cd": one is left, and the total says three. */
  lemma {:induction false} TotalTooLarge()
    ensures var es := [IoVec("ab", 0, 2), IoVec("cd", 0, 2)];
      && AllFit(es) && |Text(es)| == 4 && TotalAfter(4, es, 3) == 3
      && AllFit(Drop(es, 3)) && |Text(Drop(es, 3))| == 1
  {
    var a, c := IoVec("ab", 0, 2), IoVec("cd", 0, 2);
    assert [a, c][1..] == [c] && [c][1..] == [];
    assert Text([c]) == Bytes(c) + Text([]);
    assert Left([c], 1) == 1;
    DropText([a, c], 3);
  }

  /** struct mk_iov */
  class Iov {
    const io: array<IoVec>
    var idx: nat
    var totalLen: nat
    /** buf_to_free: the buffers that the vector owns */
    var toFree: seq<string>

    ghost predicate Valid()
      reads this, io
    {
      idx <= io.Length && AllFit(io[..idx]) && |Text(io[..idx])| <= totalLen
    }

    /** The bytes that are still to be written. */
    ghost function Contents(): string
      requires Valid()
      reads this, io
    {
      Text(io[..idx])
    }

    /** mk_iov_create */
    constructor (n: nat)
      ensures Valid() && Contents() == "" && totalLen == 0 && idx == 0 && io.Length == n && fresh(io) && toFree == []
    {
      io := new IoVec[n](_ => IoVec("", 0, 0));
      idx, totalLen, toFree := 0, 0, [];
    }

    /** mk_iov_add, with room for one more entry; `free` makes the vector the owner of the buffer */
    method Add(buf: string, free: bool)
      requires Valid() && idx < io.Length
      modifies this, io
      ensures Valid() && idx == old(idx) + 1
      ensures Contents() == old(Contents()) + buf && totalLen == old(totalLen) + |buf|
      ensures toFree == old(toFree) + if free then [buf] else []
    {
      ghost var was := io[..idx];
      io[idx] := IoVec(buf, 0, |buf|);
      idx := idx + 1;
      totalLen := totalLen + |buf|;
      if free {
        toFree := toFree + [buf];
      }
      assert io[..idx] == was + [IoVec(buf, 0, |buf|)];
      TextSplit(was, [IoVec(buf, 0, |buf|)]);
      assert Text([IoVec(buf, 0, |buf|)]) == buf;
    }

    /** mk_iov_realloc, to at least as many entries as are in use */
    method Realloc(newSize: nat) returns (r: Iov)
      requires Valid() && idx <= newSize
      ensures fresh(r) && fresh(r.io) && r.Valid() && r.Contents() == Contents() && r.totalLen == totalLen &&
        r.idx == idx
      ensures r.io.Length == newSize && r.toFree == toFree
    {
      r := new Iov(newSize);
      r.idx, r.totalLen, r.toFree := idx, totalLen, toFree;
      for i := 0 to idx
        invariant fresh(r) && fresh(r.io) && r.idx == idx && r.totalLen == totalLen && r.io.Length == newSize
        invariant r.toFree == toFree && r.io[..i] == io[..i]
      {
        r.io[i] := io[i];
        assert r.io[..i + 1] == r.io[..i] + [io[i]];
      }
    }

    /** mk_iov_free_marked: exactly the owned buffers are freed, each once */
    method FreeMarked() returns (freed: seq<string>)
      modifies this
      ensures Valid() && Contents() == "" && totalLen == 0 && idx == 0
      ensures freed == old(toFree) && toFree == []
    {
      freed := [];
      for i := 0 to |toFree|
        invariant freed == toFree[..i] && toFree == old(toFree)
      {
        freed := freed + [toFree[i]];
      }
      idx, totalLen, toFree := 0, 0, [];
    }

    /**
     * mk_iov_consume: the entries spell exactly the unsent suffix.  The total is not the number
     * of bytes left but never less, which makes the shortcut at the top sound; TotalAfter is it.
     */
    method Consume(bytes: nat)
      requires Valid() && bytes <= |Contents()|
      modifies this, io
      ensures Valid() && Contents() == old(Contents())[bytes..]
      ensures totalLen == TotalAfter(old(totalLen), old(io[..idx]), bytes)
      ensures toFree == old(toFree) && idx == if bytes == old(totalLen) then 0 else old(idx)
    {
      hide Text, AllFit, Drop, Left;
      if totalLen == bytes {
        NothingLeft();
        totalLen, idx := 0, 0;
        assert io[..idx] == [];
        return;
      }
      DropText(io[..idx], bytes);
      var left := ConsumeEntries(bytes);
      totalLen := totalLen - left;
    }

    /** The loop of mk_iov_consume; `left` is what is subtracted from the total. */
    method ConsumeEntries(bytes: nat) returns (left: nat)
      requires idx <= io.Length
      modifies io
      ensures io[..idx] == Drop(old(io[..idx]), bytes) && left == Left(old(io[..idx]), bytes)
    {
      hide Drop, Left;
      ghost var was := io[..idx];
      left := bytes;
      var k := 0;
      ghost var done: seq<IoVec> := [];
      while k < idx
        invariant 0 <= k <= idx && |done| == k && io[..idx] == done + was[k..]
        invariant Drop(was, bytes) == done + Drop(was[k..], left) && Left(was, bytes) == Left(was[k..], left)
      {
        var e := Entry(k);
        LeftStep(was, k, left);
        if left < e.len {
          DropEnds(done, was, k, left, e.(off := e.off + left, len := e.len - left));
          SetEntry(k, e.(off := e.off + left, len := e.len - left));
          return;
        } else if left == e.len {
          DropEnds(done, was, k, left, e.(len := 0));
          SetEntry(k, e.(len := 0));
          return;
        }
        DropGoesOn(done, was, k, left, e.(len := 0));
        SetEntry(k, e.(len := 0));
        left := left - e.len;
        done := done + [e.(len := 0)];
        k := k + 1;
      }
      DropDone(done, was, k, left);
      LeftNone(left);
    }

    method Entry(k: nat) returns (e: IoVec)
      requires k < idx <= io.Length
      ensures e == io[..idx][k]
    {
      e := io[k];
    }

    method SetEntry(k: nat, e: IoVec)
      requires k < idx <= io.Length
      modifies io
      ensures io[..idx] == old(io[..idx])[k := e]
    {
      io[k] := e;
    }
  }

  lemma {:induction false} NothingLeft()
    ensures AllFit([]) && Text([]) == ""
  {
  }

  lemma {:induction false} Put(done: seq<IoVec>, was: seq<IoVec>, k: nat, e: IoVec)
    requires |done| == k < |was|
    ensures (done + was[k..])[k := e] == done + ([e] + was[k + 1..]) == done + [e] + was[k + 1..]
  {
  }

  /** Consuming ends in entry `k`. */
  lemma {:induction false} DropEnds(done: seq<IoVec>, was: seq<IoVec>, k: nat, left: nat, e: IoVec)
    requires |done| == k < |was| && left <= was[k].len
    requires e == if left < was[k].len then was[k].(off := was[k].off + left, len := was[k].len - left)
      else was[k].(len := 0)
    ensures (done + was[k..])[k := e] == done + Drop(was[k..], left)
  {
    hide Drop;
    Put(done, was, k, e);
    DropStep(was, k, left);
  }

  /** Consuming takes all of entry `k` and goes on. */
  lemma {:induction false} DropGoesOn(done: seq<IoVec>, was: seq<IoVec>, k: nat, left: nat, e: IoVec)
    requires |done| == k < |was| && left > was[k].len && e == was[k].(len := 0)
    ensures (done + was[k..])[k := e] == (done + [e]) + was[k + 1..]
    ensures done + Drop(was[k..], left) == (done + [e]) + Drop(was[k + 1..], left - was[k].len)
  {
    hide Drop;
    Put(done, was, k, e);
    DropStep(was, k, left);
  }

  lemma {:induction false} DropDone(done: seq<IoVec>, was: seq<IoVec>, k: nat, left: nat)
    requires k == |was|
    ensures done + was[k..] == done + Drop(was[k..], left)
  {
    assert was[k..] == [];
  }

  lemma {:induction false} LeftNone(n: nat)
    ensures Left([], n) == n
  {
  }

  lemma {:induction false} LeftStep(es: seq<IoVec>, k: nat, n: nat)
    requires k < |es|
    ensures Left(es[k..], n) == if n <= es[k].len then n else Left(es[k + 1..], n - es[k].len)
  {
    assert es[k..][0] == es[k] && es[k..][1..] == es[k + 1..];
  }

  lemma {:induction false} DropStep(es: seq<IoVec>, k: nat, n: nat)
    requires k < |es|
    ensures var e := es[k];
      Drop(es[k..], n) ==
      if n < e.len then [e.(off := e.off + n, len := e.len - n)] + es[k + 1..]
      else if n == e.len then [e.(len := 0)] + es[k + 1..]
      else [e.(len := 0)] + Drop(es[k + 1..], n - e.len)
  {
    assert es[k..][0] == es[k] && es[k..][1..] == es[k + 1..];
  }
}

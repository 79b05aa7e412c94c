/** Fair balancing: which worker takes the next connection. */
module Balance {
  const WORD := 0x1_0000_0000_0000_0000

  /** The load of worker `i`, as the unsigned difference of its two counters. */
  function Load(accepted: seq<nat>, closed: seq<nat>, i: nat): nat
    requires i < |accepted| == |closed|
  {
    (accepted[i] - closed[i]) % WORD
  }

  function Loads(accepted: seq<nat>, closed: seq<nat>): (r: seq<nat>)
    requires |accepted| == |closed|
    ensures |r| == |accepted| && forall i :: 0 <= i < |r| ==> r[i] == Load(accepted, closed, i)
  {
    seq(|accepted|, i requires 0 <= i < |accepted| => Load(accepted, closed, i))
  }

  /** `live` are the open connections, counted apart: each was accepted and not yet closed. */
  predicate Tracks(accepted: seq<nat>, closed: seq<nat>, live: seq<nat>) {
    && |accepted| == |closed| == |live|
    && forall i :: 0 <= i < |live| ==> live[i] < WORD && (closed[i] + live[i]) % WORD == accepted[i] % WORD
  }

  /** The difference of the counters is the number of open connections, also when they have wrapped around. */
  lemma {:induction false} LoadsAreLive(accepted: seq<nat>, closed: seq<nat>, live: seq<nat>)
    requires Tracks(accepted, closed, live)
    ensures Loads(accepted, closed) == live
  {
    forall i | 0 <= i < |live|
      ensures Load(accepted, closed, i) == live[i]
    {
      Difference(accepted[i], closed[i], live[i]);
    }
  }

  lemma {:induction false} Difference(a: nat, c: nat, n: nat)
    requires n < WORD && (c + n) % WORD == a % WORD
    ensures (a - c) % WORD == n
  {
    var q := a / WORD - (c + n) / WORD;
    assert a == WORD * (a / WORD) + a % WORD && c + n == WORD * ((c + n) / WORD) + (c + n) % WORD;
    assert a - c == WORD * q + n;
    Remainder(a - c, q, n);
  }

  lemma {:induction false} Remainder(x: int, q: int, n: nat)
    requires x == WORD * q + n && n < WORD
    ensures x % WORD == n
  {
    assert WORD * (x / WORD - q) == n - x % WORD;
  }

  /** Counters that have not wrapped around. */
  lemma {:induction false} PlainCounters(accepted: seq<nat>, closed: seq<nat>)
    requires |accepted| == |closed|
    requires forall i :: 0 <= i < |closed| ==> closed[i] <= accepted[i] < closed[i] + WORD
    ensures Tracks(accepted, closed, seq(|closed|, i requires 0 <= i < |closed| => accepted[i] - closed[i]))
  {
  }

  /** The first worker of least load. */
  predicate Least(loads: seq<nat>, t: nat) {
    && t < |loads|
    && (forall i :: 0 <= i < |loads| ==> loads[t] <= loads[i])
    && (forall i :: 0 <= i < t ==> loads[t] < loads[i])
  }

  /** The worker that takes the next connection. */
  function Target(loads: seq<nat>): (t: nat)
    requires loads != []
    ensures Least(loads, t)
  {
    if |loads| == 1 then 0
    else
      var n := |loads| - 1;
      var t := Target(loads[..n]);
      assert forall i :: 0 <= i < n ==> loads[..n][i] == loads[i];
      if loads[n] < loads[t] then n else t
  }

  /** Everybody is full; the first worker is taken without asking when it is idle. */
  predicate Full(loads: seq<nat>, capacity: nat) {
    loads != [] && loads[0] != 0 && forall i :: 0 <= i < |loads| ==> loads[i] >= capacity
  }

  /** _next_target: -1 exactly if everybody is full, else the first worker of least load. */
  method NextTarget(accepted: seq<nat>, closed: seq<nat>, capacity: nat, ghost live: seq<nat>) returns (target: int)
    requires Tracks(accepted, closed, live) && live != []
    ensures target == -1 <==> live[0] != 0 && forall i :: 0 <= i < |live| ==> live[i] >= capacity
    ensures target != -1 ==>
      && 0 <= target < |live|
      && (forall i :: 0 <= i < |live| ==> live[target] <= live[i])
      && (forall i :: 0 <= i < target ==> live[target] < live[i])
    ensures target == Choice(accepted, closed, capacity)
  {
    ghost var loads := Loads(accepted, closed);
    LoadsAreLive(accepted, closed, live);
    target := 0;
    var cur := Load(accepted, closed, 0);
    if cur == 0 {
      return 0;
    }
    var i := 1;
    while i < |accepted|
      invariant 1 <= i <= |accepted| && 0 <= target < i && cur == loads[target]
      invariant forall k :: 0 <= k < i ==> cur <= loads[k]
      invariant forall k :: 0 <= k < target ==> cur < loads[k]
    {
      var tmp := Load(accepted, closed, i);
      if tmp < cur {
        target, cur := i, tmp;
        if cur == 0 {
          break;
        }
      }
      i := i + 1;
    }
    if cur >= capacity {
      return -1;
    }
  }

  /** What _next_target returns. */
  function Choice(accepted: seq<nat>, closed: seq<nat>, capacity: nat): int
    requires |accepted| == |closed| > 0
  {
    var loads := Loads(accepted, closed);
    if Full(loads, capacity) then -1 else Target(loads)
  }

  // ------------------------------------------------------------ whole runs

  /** A connection arrives, or one of worker `i` is closed. */
  datatype Event = Arrive | Leave(i: nat)

  /** Counters kept as loads: what one event does when accepts are counted at once. */
  function Step(loads: seq<nat>, e: Event, capacity: nat): seq<nat> {
    match e
    case Leave(i) => if i < |loads| && loads[i] > 0 then loads[i := loads[i] - 1] else loads
    case Arrive =>
      if Full(loads, capacity) || loads == [] then loads
      else loads[Target(loads) := loads[Target(loads)] + 1]
  }

  function Run(loads: seq<nat>, es: seq<Event>, capacity: nat): seq<nat>
    decreases es
  {
    if es == [] then loads else Run(Step(loads, es[0], capacity), es[1..], capacity)
  }

  /** No run takes a worker over capacity. */
  lemma {:induction false} NeverOver(loads: seq<nat>, es: seq<Event>, capacity: nat)
    requires capacity >= 1 && forall i :: 0 <= i < |loads| ==> loads[i] <= capacity
    ensures var r := Run(loads, es, capacity); |r| == |loads| && forall i :: 0 <= i < |r| ==> r[i] <= capacity
    decreases es
  {
    if es != [] {
      var next := Step(loads, es[0], capacity);
      if es[0].Arrive? && !Full(loads, capacity) && loads != [] {
        NotFull(loads, Target(loads), capacity);
      }
      NeverOver(next, es[1..], capacity);
    }
  }

  lemma {:induction false} NotFull(loads: seq<nat>, t: nat, capacity: nat)
    requires Least(loads, t) && !Full(loads, capacity) && capacity >= 1
    ensures loads[t] < capacity
  {
  }

  predicate WithinCapacity(loads: seq<nat>, capacity: nat) {
    forall i :: 0 <= i < |loads| ==> loads[i] <= capacity
  }

  /** From loads within the capacity, all runs stay within the capacity if and only if it is at least 1. */
  lemma {:induction false} CapacityNeeded(loads: seq<nat>, capacity: nat)
    requires loads != [] && WithinCapacity(loads, capacity)
    ensures capacity >= 1 <==> forall es :: WithinCapacity(Run(loads, es, capacity), capacity)
  {
    if capacity >= 1 {
      forall es
        ensures WithinCapacity(Run(loads, es, capacity), capacity)
      {
        NeverOver(loads, es, capacity);
      }
    } else {
      assert loads[0] == 0;
      assert Target(loads) == 0;
      assert [Arrive][1..] == [];
      var es := [Arrive];
      assert Run(loads, es, capacity) == Step(loads, Arrive, capacity);
      assert Run(loads, es, capacity)[0] == 1;
      assert !WithinCapacity(Run(loads, es, capacity), capacity);
    }
  }

  // ---------------------------------------------------------- conservation

  function Total(loads: seq<nat>): nat {
    if loads == [] then 0 else loads[0] + Total(loads[1..])
  }

  lemma {:induction false} TotalChanged(loads: seq<nat>, i: nat, n: nat)
    requires i < |loads|
    ensures Total(loads[i := n]) == Total(loads) - loads[i] + n
    decreases loads
  {
    if i > 0 {
      assert loads[i := n][1..] == loads[1..][i - 1 := n];
      TotalChanged(loads[1..], i - 1, n);
    } else {
      assert loads[i := n][1..] == loads[1..];
    }
  }

  /** How many of the arrivals are taken, and how many connections leave. */
  function Taken(loads: seq<nat>, es: seq<Event>, capacity: nat): nat
    decreases es
  {
    if es == [] then 0
    else
      (if es[0].Arrive? && loads != [] && (loads[0] == 0 || exists i :: 0 <= i < |loads| && loads[i] < capacity) then 1
       else 0) + Taken(Step(loads, es[0], capacity), es[1..], capacity)
  }

  function Left(loads: seq<nat>, es: seq<Event>, capacity: nat): nat
    decreases es
  {
    if es == [] then 0
    else
      (if es[0].Leave? && es[0].i < |loads| && loads[es[0].i] > 0 then 1 else 0)
      + Left(Step(loads, es[0], capacity), es[1..], capacity)
  }

  /** No connection is lost or counted twice: the open ones are those taken less those that left. */
  lemma {:induction false} Conserved(loads: seq<nat>, es: seq<Event>, capacity: nat)
    ensures Total(Run(loads, es, capacity)) == Total(loads) + Taken(loads, es, capacity) - Left(loads, es, capacity)
    decreases es
  {
    if es != [] {
      match es[0] {
        case Leave(i) =>
          if i < |loads| && loads[i] > 0 {
            TotalChanged(loads, i, loads[i] - 1);
          }
        case Arrive =>
          if loads != [] && !Full(loads, capacity) {
            TotalChanged(loads, Target(loads), loads[Target(loads)] + 1);
          }
      }
      Conserved(Step(loads, es[0], capacity), es[1..], capacity);
    }
  }

  // ---------------------------------------------------------- the counters

  /** The counters of all workers. */
  datatype Counters = Counters(accepted: seq<nat>, closed: seq<nat>)

  /** One event on the counters, which wrap around. */
  function Count(c: Counters, e: Event, capacity: nat): Counters
    requires |c.accepted| == |c.closed|
  {
    match e
    case Leave(i) =>
      if i < |c.closed| && Load(c.accepted, c.closed, i) > 0 then c.(closed := c.closed[i := (c.closed[i] + 1) % WORD])
      else c
    case Arrive =>
      if c.accepted == [] then c
      else
        var t := Choice(c.accepted, c.closed, capacity);
        if t == -1 then c else c.(accepted := c.accepted[t := (c.accepted[t] + 1) % WORD])
  }

  function CountAll(c: Counters, es: seq<Event>, capacity: nat): Counters
    requires |c.accepted| == |c.closed|
    decreases es
  {
    if es == [] then c else CountAll(Count(c, es[0], capacity), es[1..], capacity)
  }

  lemma {:induction false} CountTracks(c: Counters, live: seq<nat>, e: Event, capacity: nat)
    requires Tracks(c.accepted, c.closed, live) && WithinCapacity(live, capacity) && 1 <= capacity < WORD
    ensures var d := Count(c, e, capacity); Tracks(d.accepted, d.closed, Step(live, e, capacity))
  {
    LoadsAreLive(c.accepted, c.closed, live);
    match e
    case Leave(i) =>
      if i < |live| && live[i] > 0 {
        OneMore(c.closed[i], live[i] - 1, c.accepted[i]);
      }
    case Arrive =>
      if live != [] && !Full(live, capacity) {
        var t := Target(live);
        NotFull(live, t, capacity);
        Added(c.closed[t] + live[t], c.accepted[t]);
      }
  }

  lemma {:induction false} Added(x: nat, a: nat)
    requires x % WORD == a % WORD
    ensures (x + 1) % WORD == ((a + 1) % WORD) % WORD
  {
    Rest(x, 1);
    Rest(a, 1);
  }

  lemma {:induction false} Rest(x: nat, n: nat)
    ensures (x + n) % WORD == (x % WORD + n) % WORD
  {
    var y := x % WORD + n;
    assert x + n == WORD * (x / WORD + y / WORD) + y % WORD;
    Remainder(x + n, x / WORD + y / WORD, y % WORD);
  }

  lemma {:induction false} OneMore(c: nat, n: nat, a: nat)
    requires (c + (n + 1)) % WORD == a % WORD
    ensures ((c + 1) % WORD + n) % WORD == a % WORD
  {
    Rest(c + 1, n);
  }

  /** Over every run the counters stand for the open connections, so every arrival goes where they are fewest. */
  lemma {:induction false} RunTracks(c: Counters, live: seq<nat>, es: seq<Event>, capacity: nat)
    requires Tracks(c.accepted, c.closed, live) && WithinCapacity(live, capacity) && 1 <= capacity < WORD
    ensures var d := CountAll(c, es, capacity); Tracks(d.accepted, d.closed, Run(live, es, capacity))
    decreases es
  {
    if es != [] {
      CountTracks(c, live, es[0], capacity);
      NeverOver(live, [es[0]], capacity);
      assert [es[0]][1..] == [] && Run(live, [es[0]], capacity) == Step(live, es[0], capacity);
      RunTracks(Count(c, es[0], capacity), Step(live, es[0], capacity), es[1..], capacity);
    }
  }

  predicate Even(loads: seq<nat>) {
    forall i, j :: 0 <= i < |loads| && 0 <= j < |loads| ==> loads[i] <= loads[j] + 1
  }

  /** As long as nobody leaves, loads that differ by at most one keep doing so. */
  lemma {:induction false} ArrivalsStayEven(loads: seq<nat>, es: seq<Event>, capacity: nat)
    requires Even(loads) && forall k :: 0 <= k < |es| ==> es[k].Arrive?
    ensures Even(Run(loads, es, capacity))
    decreases es
  {
    if es != [] {
      var next := Step(loads, es[0], capacity);
      if !Full(loads, capacity) && loads != [] {
        var t := Target(loads);
        forall i, j | 0 <= i < |next| && 0 <= j < |next|
          ensures next[i] <= next[j] + 1
        {
          assert loads[i] <= loads[j] + 1 && loads[t] <= loads[j];
        }
      }
      ArrivalsStayEven(next, es[1..], capacity);
    }
  }
}

/** The table of shared file descriptors of a virtual host, as values. */
module FdShare {
  import opened Wrappers

  const SIZE := 64
  const CHAINS := 8

  /** struct vhost_fdt_hash_chain; fd -1 is a free slot */
  datatype Slot = Slot(fd: int, readers: int, hash: nat)

  /** struct vhost_fdt_hash_table */
  datatype Bucket = Bucket(av: int, chain: seq<Slot>)

  /** What a request remembers of its file. */
  datatype Handle = Handle(fd: int, hash: nat, enabled: bool, path: string)

  /** One worker: the table, its live requests, and the descriptors that are open, with their paths. */
  datatype World = World(table: seq<Bucket>, requests: map<nat, Handle>, files: map<int, string>)

  const FREE := Slot(-1, 0, 0)

  /** mk_vhost_fdt_chain_lookup */
  function Lookup(chain: seq<Slot>, hash: nat): (r: Option<nat>)
    ensures r.Some? ==> r.value < |chain| && chain[r.value].hash == hash
    ensures r.None? ==> forall j :: 0 <= j < |chain| ==> chain[j].hash != hash
  {
    FirstFrom(chain, hash, 0)
  }

  function FirstFrom(chain: seq<Slot>, hash: nat, i: nat): (r: Option<nat>)
    requires i <= |chain|
    ensures r.Some? ==> i <= r.value < |chain| && chain[r.value].hash == hash
    ensures r.None? ==> forall j :: i <= j < |chain| ==> chain[j].hash != hash
    decreases |chain| - i
  {
    if i == |chain| then None else if chain[i].hash == hash then Some(i) else FirstFrom(chain, hash, i + 1)
  }

  /** The first slot without a descriptor. */
  function Vacant(chain: seq<Slot>, i: nat): (r: Option<nat>)
    requires i <= |chain|
    ensures r.Some? ==> i <= r.value < |chain| && chain[r.value].fd == -1
    ensures r.None? ==> forall j :: i <= j < |chain| ==> chain[j].fd != -1
    decreases |chain| - i
  {
    if i == |chain| then None else if chain[i].fd == -1 then Some(i) else Vacant(chain, i + 1)
  }

  /** mk_vhost_fdt_open on a bucket: the bucket, the descriptor,
      and whether it is shared; `os` is what open(2) gives. */
  function OpenIn(b: Bucket, hash: nat, os: int): (Bucket, int, bool) {
    match Lookup(b.chain, hash)
    case Some(j) => (b.(chain := b.chain[j := b.chain[j].(readers := b.chain[j].readers + 1)]), b.chain[j].fd, true)
    case None =>
      if os == -1 then (b, -1, false)
      else if b.av <= 0 then (b, os, false)
      else match Vacant(b.chain, 0)
        case None => (b, os, false)
        case Some(j) => (Bucket(b.av - 1, b.chain[j := Slot(os, b.chain[j].readers + 1, hash)]), os, true)
  }

  /** mk_vhost_fdt_close on a bucket: the bucket, and whether the descriptor is closed. */
  function CloseIn(b: Bucket, hash: nat): (Bucket, bool) {
    match Lookup(b.chain, hash)
    case None => (b, true)
    case Some(j) =>
      var s := b.chain[j].(readers := b.chain[j].readers - 1);
      if s.readers == 0 then (Bucket(b.av + 1, b.chain[j := FREE]), true)
      else (b.(chain := b.chain[j := s]), false)
  }

  /** mk_vhost_open for request `k` */
  function Open(w: World, k: nat, path: string, hash: nat, os: int): World
    requires |w.table| == SIZE
  {
    var id := hash % SIZE;
    var r := OpenIn(w.table[id], hash, os);
    var shared := Lookup(w.table[id].chain, hash).Some?;
    World(w.table[id := r.0],
          w.requests[k := Handle(r.1, if r.2 then hash else 0, r.2, path)],
          if shared || os == -1 then w.files else w.files[os := path])
  }

  /** mk_vhost_close when request `k` is freed */
  function Close(w: World, k: nat): World
    requires |w.table| == SIZE && k in w.requests
  {
    var h := w.requests[k];
    var rest := w.requests - {k};
    if !h.enabled then World(w.table, rest, if h.fd > 0 then w.files - {h.fd} else w.files)
    else
      var id := h.hash % SIZE;
      var r := CloseIn(w.table[id], h.hash);
      World(w.table[id := r.0], rest, if r.1 then w.files - {h.fd} else w.files)
  }

  // ------------------------------------------------------ the invariant

  function CountFree(chain: seq<Slot>): nat {
    if chain == [] then 0 else CountFree(chain[1..]) + if chain[0].fd == -1 then 1 else 0
  }

  /** The live requests that share the slot of a hash. */
  function Sharers(requests: map<nat, Handle>, hash: nat): set<nat> {
    set k | k in requests && requests[k].enabled && requests[k].hash == hash
  }

  predicate SlotFine(s: Slot, id: nat, requests: map<nat, Handle>) {
    if s.fd == -1 then s == FREE
    else s.fd > 0 && s.hash != 0 && s.hash % SIZE == id && s.readers == |Sharers(requests, s.hash)| > 0
  }

  /** Free slots are counted, readers are the live sharers, and no hash has two slots. */
  predicate BucketFine(b: Bucket, id: nat, requests: map<nat, Handle>) {
    && |b.chain| == CHAINS && b.av == CountFree(b.chain)
    && (forall j :: 0 <= j < CHAINS ==> SlotFine(b.chain[j], id, requests))
    && (forall i, j :: 0 <= i < j < CHAINS && b.chain[i].fd != -1 ==> b.chain[i].hash != b.chain[j].hash)
  }

  /** The descriptor of the slot that a hash has. */
  function SlotFd(w: World, hash: nat): int
    requires |w.table| == SIZE
  {
    var b := w.table[hash % SIZE];
    match Lookup(b.chain, hash) case None => -1 case Some(j) => b.chain[j].fd
  }

  /** A request holds what plain open would have given it: a descriptor open on its path, or none. */
  predicate HandleFine(w: World, h: Handle)
    requires |w.table| == SIZE
  {
    && (h.fd == -1 || (h.fd > 0 && h.fd in w.files && w.files[h.fd] == h.path))
    && (h.enabled ==> h.hash != 0 && h.fd != -1 && SlotFd(w, h.hash) == h.fd)
  }

  /** Two requests have the same descriptor only if they share a slot. */
  predicate Apart(g: Handle, h: Handle) {
    g.fd == h.fd != -1 ==> g.enabled && h.enabled && g.hash == h.hash
  }

  predicate Inv(w: World) {
    && |w.table| == SIZE
    && (forall i :: 0 <= i < SIZE ==> BucketFine(w.table[i], i, w.requests))
    && (forall k :: k in w.requests ==> HandleFine(w, w.requests[k]))
    && (forall k, l :: k in w.requests && l in w.requests && k != l ==> Apart(w.requests[k], w.requests[l]))
    && (forall fd :: fd in w.files ==> fd > 0 && Held(w.requests, fd))
  }

  /** Some live request uses the descriptor. */
  predicate Held(requests: map<nat, Handle>, fd: int) {
    exists k :: k in requests && requests[k].fd == fd
  }

  // ------------------------------------------------------- small facts

  lemma {:induction false} SharersAdd(requests: map<nat, Handle>, k: nat, h: Handle, hash: nat)
    requires k !in requests
    ensures Sharers(requests[k := h], hash) == Sharers(requests, hash) + if h.enabled && h.hash == hash then {k} else {}
    ensures k !in Sharers(requests, hash)
  {
  }

  lemma {:induction false} SharersRemove(requests: map<nat, Handle>, k: nat, hash: nat)
    requires k in requests
    ensures Sharers(requests - {k}, hash) == Sharers(requests, hash) - {k}
    ensures k in Sharers(requests, hash) <==> requests[k].enabled && requests[k].hash == hash
  {
  }

  lemma {:induction false} CountChange(chain: seq<Slot>, j: nat, s: Slot)
    requires j < |chain|
    ensures CountFree(chain[j := s]) == CountFree(chain) +
      (if s.fd == -1 then 1 else 0) - (if chain[j].fd == -1 then 1 else 0)
  {
    if j == 0 {
      assert chain[0 := s][1..] == chain[1..];
    } else {
      assert chain[j := s][1..] == chain[1..][j - 1 := s];
      CountChange(chain[1..], j - 1, s);
    }
  }

  lemma {:induction false} NoneFree(chain: seq<Slot>)
    requires forall j :: 0 <= j < |chain| ==> chain[j].fd != -1
    ensures CountFree(chain) == 0
  {
    if chain != [] {
      NoneFree(chain[1..]);
    }
  }

  /** A slot that changes elsewhere, or keeps its hash, does not change where a hash is found. */
  lemma {:induction false} LookupKept(chain: seq<Slot>, j: nat, s: Slot, hash: nat, i: nat)
    requires j < |chain| && i <= |chain| && (s.hash == chain[j].hash || (s.hash != hash && chain[j].hash != hash))
    ensures FirstFrom(chain[j := s], hash, i) == FirstFrom(chain, hash, i)
    decreases |chain| - i
  {
    if i < |chain| {
      LookupKept(chain, j, s, hash, i + 1);
    }
  }

  /** In a fine bucket the hash of a slot in use is in no other slot. */
  lemma {:induction false} OthersDiffer(b: Bucket, id: nat, requests: map<nat, Handle>, j: nat)
    requires BucketFine(b, id, requests) && j < CHAINS && b.chain[j].fd != -1
    ensures forall i :: 0 <= i < CHAINS && i != j ==> b.chain[i].hash != b.chain[j].hash
  {
    hide CountFree, Sharers;
    forall i | 0 <= i < CHAINS && i != j
      ensures b.chain[i].hash != b.chain[j].hash
    {
      assert SlotFine(b.chain[i], id, requests) && SlotFine(b.chain[j], id, requests);
    }
  }

  // --------------------------------------------------------------- open

  /** The slot that the lookup finds, if any, is in use for this path. */
  predicate Fit(w: World, path: string, hash: nat)
    requires |w.table| == SIZE
  {
    var b := w.table[hash % SIZE];
    match Lookup(b.chain, hash)
    case None => true
    case Some(j) => b.chain[j].fd != -1 && b.chain[j].fd in w.files && w.files[b.chain[j].fd] == path
  }

  predicate SameSharers(r: map<nat, Handle>, q: map<nat, Handle>, hash: nat) {
    Sharers(r, hash) == Sharers(q, hash)
  }

  /** Requests on other hashes do not concern a slot. */
  lemma {:induction false} BucketKept(b: Bucket, id: nat, r: map<nat, Handle>, q: map<nat, Handle>)
    requires BucketFine(b, id, r)
    requires forall j :: 0 <= j < CHAINS && b.chain[j].fd != -1 ==> SameSharers(r, q, b.chain[j].hash)
    ensures BucketFine(b, id, q)
  {
    hide Sharers, CountFree;
    forall j | 0 <= j < CHAINS
      ensures SlotFine(b.chain[j], id, q)
    {
      assert SlotFine(b.chain[j], id, r);
    }
  }

  /** A bucket in which one slot changes, for requests that differ only on the hashes before and after. */
  lemma {:induction false} BucketChanged(b: Bucket, id: nat, r: map<nat, Handle>, q: map<nat, Handle>, j: nat, s: Slot,
      av: int)
    requires BucketFine(b, id, r) && j < CHAINS && SlotFine(s, id, q)
    requires av == b.av + (if s.fd == -1 then 1 else 0) - (if b.chain[j].fd == -1 then 1 else 0)
    requires s.fd != -1 ==> forall i :: 0 <= i < CHAINS && i != j ==> b.chain[i].hash != s.hash
    requires forall i :: 0 <= i < CHAINS && i != j && b.chain[i].fd != -1 ==> SameSharers(r, q, b.chain[i].hash)
    ensures BucketFine(Bucket(av, b.chain[j := s]), id, q)
  {
    hide Sharers, CountFree, SlotFine;
    CountChange(b.chain, j, s);
    var c := b.chain[j := s];
    forall i | 0 <= i < CHAINS
      ensures SlotFine(c[i], id, q)
    {
      if i != j {
        SlotKept(b.chain[i], id, r, q);
      }
    }
    forall i, l | 0 <= i < l < CHAINS && c[i].fd != -1
      ensures c[i].hash != c[l].hash
    {
      if l == j && s.fd == -1 {
        FreeHash(s, id, q);
        UsedHash(b.chain[i], id, r);
      }
    }
  }

  lemma {:induction false} FreeHash(s: Slot, id: nat, r: map<nat, Handle>)
    requires SlotFine(s, id, r) && s.fd == -1
    ensures s == FREE
  {
  }

  lemma {:induction false} UsedHash(s: Slot, id: nat, r: map<nat, Handle>)
    requires SlotFine(s, id, r) && s.fd != -1
    ensures s.hash != 0 && s.hash % SIZE == id && s.fd > 0 && s.readers == |Sharers(r, s.hash)| > 0
  {
  }

  lemma {:induction false} SlotKept(s: Slot, id: nat, r: map<nat, Handle>, q: map<nat, Handle>)
    requires SlotFine(s, id, r) && (s.fd != -1 ==> SameSharers(r, q, s.hash))
    ensures SlotFine(s, id, q)
  {
  }

  /** All buckets, when the requests differ on one hash only. */
  lemma {:induction false} TableKept(w: World, id: nat, t: seq<Bucket>, q: map<nat, Handle>, hash: nat)
    requires Inv(w) && id == hash % SIZE && |t| == SIZE && t == w.table[id := t[id]] && BucketFine(t[id], id, q)
    requires forall x: nat :: x != hash ==> SameSharers(w.requests, q, x)
    ensures forall i :: 0 <= i < SIZE ==> BucketFine(t[i], i, q)
  {
    hide Sharers, CountFree, HandleFine, Held;
    forall i | 0 <= i < SIZE
      ensures BucketFine(t[i], i, q)
    {
      if i != id {
        var c := w.table[i];
        assert BucketFine(c, i, w.requests);
        forall j | 0 <= j < CHAINS && c.chain[j].fd != -1
          ensures SameSharers(w.requests, q, c.chain[j].hash)
        {
          UsedHash(c.chain[j], i, w.requests);
        }
        BucketKept(c, i, w.requests, q);
      }
    }
  }

  /** With no change to slots' hashes and descriptors, every hash keeps its descriptor. */
  lemma {:induction false} SlotFdKept(w: World, v: World, id: nat, j: nat, s: Slot, av: int, hash: nat)
    requires |w.table| == SIZE && id < SIZE && j < |w.table[id].chain|
    requires v.table == w.table[id := Bucket(av, w.table[id].chain[j := s])]
    requires s.hash == w.table[id].chain[j].hash || (s.hash != hash && w.table[id].chain[j].hash != hash)
    requires s.hash == w.table[id].chain[j].hash ==> s.fd == w.table[id].chain[j].fd
    ensures SlotFd(v, hash) == SlotFd(w, hash)
  {
    if hash % SIZE == id {
      LookupKept(w.table[id].chain, j, s, hash, 0);
    }
  }

  /** Where a slot is in use for a hash, exactly its sharers have its descriptor. */
  lemma {:induction false} SlotUsers(w: World, hash: nat, k: nat)
    requires Inv(w) && SlotFd(w, hash) != -1 && hash != 0 && k in w.requests
    ensures w.requests[k].fd == SlotFd(w, hash) <==> k in Sharers(w.requests, hash)
    ensures SlotFd(w, hash) in w.files && SlotFd(w, hash) > 0
  {
    hide CountFree;
    var id := hash % SIZE;
    var b := w.table[id];
    assert BucketFine(b, id, w.requests);
    var j := Lookup(b.chain, hash).value;
    UsedHash(b.chain[j], id, w.requests);
    var m :| m in Sharers(w.requests, hash);
    assert HandleFine(w, w.requests[m]) && HandleFine(w, w.requests[k]);
    if k != m {
      assert Apart(w.requests[k], w.requests[m]);
    }
  }

  lemma {:induction false} NoSlotNoSharers(w: World, hash: nat)
    requires Inv(w) && Lookup(w.table[hash % SIZE].chain, hash).None?
    ensures Sharers(w.requests, hash) == {}
  {
    hide BucketFine, Held;
    forall k | k in w.requests
      ensures k !in Sharers(w.requests, hash)
    {
      assert HandleFine(w, w.requests[k]);
    }
  }

  predicate TableFine(w: World) {
    |w.table| == SIZE && forall i :: 0 <= i < SIZE ==> BucketFine(w.table[i], i, w.requests)
  }

  /** The invariant after a request has been added. */
  lemma {:induction false} Added(w: World, v: World, k: nat, h: Handle)
    requires Inv(w) && k !in w.requests && v.requests == w.requests[k := h] && TableFine(v)
    requires forall l :: l in w.requests && w.requests[l].enabled ==>
      SlotFd(v, w.requests[l].hash) == SlotFd(w, w.requests[l].hash)
    requires forall fd :: fd in w.files ==> fd in v.files && v.files[fd] == w.files[fd]
    requires forall fd :: fd in v.files ==> fd in w.files || fd == h.fd > 0
    requires HandleFine(v, h) && forall l :: l in w.requests ==> Apart(h, w.requests[l])
    ensures Inv(v)
  {
    hide BucketFine, SlotFd;
    forall fd | fd in v.files
      ensures Held(v.requests, fd)
    {
      if fd in w.files {
        assert Held(w.requests, fd);
        var l :| l in w.requests && w.requests[l].fd == fd;
        assert v.requests[l].fd == fd;
      } else {
        assert v.requests[k].fd == fd;
      }
    }
    forall l | l in v.requests
      ensures HandleFine(v, v.requests[l])
    {
      if l != k {
        assert HandleFine(w, w.requests[l]);
      }
    }
  }

  /** Sharing an open descriptor. */
  lemma {:induction false} OpenShared(w: World, k: nat, path: string, hash: nat, os: int, j: nat)
    requires Inv(w) && k !in w.requests && Fit(w, path, hash) && Lookup(w.table[hash % SIZE].chain, hash) == Some(j)
    ensures Inv(Open(w, k, path, hash, os))
  {
    hide CountFree, FirstFrom, SlotFine, Sharers;
    var v := Open(w, k, path, hash, os);
    var id := hash % SIZE;
    var b := w.table[id];
    assert BucketFine(b, id, w.requests);
    UsedHash(b.chain[j], id, w.requests);
    var h := Handle(b.chain[j].fd, hash, true, path);
    var s := b.chain[j].(readers := b.chain[j].readers + 1);
    forall x: nat
      ensures x != hash ==> SameSharers(w.requests, v.requests, x)
    {
      SharersAdd(w.requests, k, h, x);
    }
    SharersAdd(w.requests, k, h, hash);
    assert SlotFine(s, id, v.requests) by { Joined(b.chain[j], s, id, w.requests, v.requests, k); }
    OthersDiffer(b, id, w.requests, j);
    BucketChanged(b, id, w.requests, v.requests, j, s, b.av);
    TableKept(w, id, v.table, v.requests, hash);
    forall x: nat
      ensures SlotFd(v, x) == SlotFd(w, x)
    {
      SlotFdKept(w, v, id, j, s, b.av, x);
    }
    forall l | l in w.requests
      ensures Apart(h, w.requests[l])
    {
      SlotUsers(w, hash, l);
      SharerIs(w.requests, hash, l);
    }
    Added(w, v, k, h);
  }

  lemma {:induction false} SharerIs(r: map<nat, Handle>, hash: nat, l: nat)
    requires l in Sharers(r, hash) || l in r
    ensures l in Sharers(r, hash) <==> l in r && r[l].enabled && r[l].hash == hash
  {
  }

  lemma {:induction false} Joined(s: Slot, t: Slot, id: nat, r: map<nat, Handle>, q: map<nat, Handle>, k: nat)
    requires SlotFine(s, id, r) && s.fd != -1 && t == s.(readers := s.readers + 1)
    requires k !in Sharers(r, s.hash) && Sharers(q, s.hash) == Sharers(r, s.hash) + {k}
    ensures SlotFine(t, id, q)
  {
  }

  /** A descriptor of its own, outside the table. */
  lemma {:induction false} OpenPrivate(w: World, k: nat, path: string, os: int)
    requires Inv(w) && k !in w.requests && os !in w.files && (os == -1 || os > 0)
    ensures Inv(World(w.table, w.requests[k := Handle(os, 0, false, path)],
      if os == -1 then w.files else w.files[os := path]))
  {
    hide CountFree, FirstFrom, SlotFine, Sharers;
    var h := Handle(os, 0, false, path);
    var v := World(w.table, w.requests[k := h], if os == -1 then w.files else w.files[os := path]);
    forall i | 0 <= i < SIZE
      ensures BucketFine(v.table[i], i, v.requests)
    {
      forall j | 0 <= j < CHAINS && w.table[i].chain[j].fd != -1
        ensures SameSharers(w.requests, v.requests, w.table[i].chain[j].hash)
      {
        SharersAdd(w.requests, k, h, w.table[i].chain[j].hash);
      }
      BucketKept(w.table[i], i, w.requests, v.requests);
    }
    forall l | l in w.requests
      ensures Apart(h, w.requests[l])
    {
      assert HandleFine(w, w.requests[l]);
    }
    Added(w, v, k, h);
  }

  /** A descriptor that gets a slot of the table. */
  lemma {:induction false} OpenRegistered(w: World, k: nat, path: string, hash: nat, os: int, j: nat)
    requires Inv(w) && k !in w.requests && os !in w.files && os > 0
    requires Lookup(w.table[hash % SIZE].chain, hash).None? && j < CHAINS && w.table[hash % SIZE].chain[j].fd == -1
    ensures var id := hash % SIZE; var b := w.table[id];
      Inv(World(w.table[id := Bucket(b.av - 1, b.chain[j := Slot(os, b.chain[j].readers + 1, hash)])],
                w.requests[k := Handle(os, hash, true, path)], w.files[os := path]))
  {
    hide CountFree, FirstFrom, Sharers;
    var id := hash % SIZE;
    var b := w.table[id];
    assert BucketFine(b, id, w.requests);
    assert SlotFine(b.chain[j], id, w.requests);
    var h := Handle(os, hash, true, path);
    var s := Slot(os, 1, hash);
    var v := World(w.table[id := Bucket(b.av - 1, b.chain[j := s])], w.requests[k := h], w.files[os := path]);
    forall x: nat
      ensures x != hash ==> SameSharers(w.requests, v.requests, x)
    {
      SharersAdd(w.requests, k, h, x);
    }
    SharersAdd(w.requests, k, h, hash);
    NoSlotNoSharers(w, hash);
    BucketChanged(b, id, w.requests, v.requests, j, s, b.av - 1);
    TableKept(w, id, v.table, v.requests, hash);
    forall x: nat
      ensures x != hash && x != 0 ==> SlotFd(v, x) == SlotFd(w, x)
    {
      if x != hash && x != 0 {
        SlotFdKept(w, v, id, j, s, b.av - 1, x);
      }
    }
    RegisteredHandle(w, v, k, h, id, j);
    Added(w, v, k, h);
  }

  lemma {:induction false} RegisteredHandle(w: World, v: World, k: nat, h: Handle, id: nat, j: nat)
    requires Inv(w) && TableFine(v) && id == h.hash % SIZE && j < CHAINS &&
      v.table[id].chain[j] == Slot(h.fd, 1, h.hash)
    requires h.fd > 0 && h.enabled && h.fd !in w.files && v.files == w.files[h.fd := h.path] && h.hash != 0
    requires Sharers(w.requests, h.hash) == {}
    ensures HandleFine(v, h) && forall l :: l in w.requests ==> Apart(h, w.requests[l])
    ensures forall l :: l in w.requests && w.requests[l].enabled ==>
      w.requests[l].hash != h.hash && w.requests[l].hash != 0
  {
    hide CountFree, SlotFine;
    assert BucketFine(v.table[id], id, v.requests);
    OthersDiffer(v.table[id], id, v.requests, j);
    forall l | l in w.requests
      ensures Apart(h, w.requests[l]) && (w.requests[l].enabled ==>
        w.requests[l].hash != h.hash && w.requests[l].hash != 0)
    {
      assert HandleFine(w, w.requests[l]);
      SharerIs(w.requests, h.hash, l);
    }
  }

  lemma {:induction false} OpenFits(w: World, k: nat, path: string, hash: nat, os: int)
    requires Inv(w) && k !in w.requests && os !in w.files && (os == -1 || os > 0) && Fit(w, path, hash)
    ensures var v := Open(w, k, path, hash, os);
      Inv(v) && v.requests[k].path == path && (v.requests[k].fd == -1 ==> os == -1)
  {
    hide SlotFine, Sharers, HandleFine, Apart, Held;
    var b := w.table[hash % SIZE];
    assert BucketFine(b, hash % SIZE, w.requests);
    match Lookup(b.chain, hash) {
      case Some(j) => OpenShared(w, k, path, hash, os, j);
      case None =>
        if os == -1 || b.av <= 0 {
          OpenPrivate(w, k, path, os);
          assert w.table[hash % SIZE := b] == w.table;
        } else {
          match Vacant(b.chain, 0) {
            case None => NoneFree(b.chain);
            case Some(j) => OpenRegistered(w, k, path, hash, os, j);
          }
        }
    }
  }

  lemma {:induction false} OpenMisfits(w: World, k: nat, path: string, hash: nat, os: int)
    requires Inv(w) && k !in w.requests && os !in w.files && (os == -1 || os > 0) && !Fit(w, path, hash)
    ensures !Inv(Open(w, k, path, hash, os))
  {
    hide CountFree, Sharers;
    var id := hash % SIZE;
    var b := w.table[id];
    var v := Open(w, k, path, hash, os);
    assert BucketFine(b, id, w.requests);
    var j := Lookup(b.chain, hash).value;
    assert SlotFine(b.chain[j], id, w.requests);
    if b.chain[j].fd == -1 {
      assert !SlotFine(v.table[id].chain[j], id, v.requests);
      assert !BucketFine(v.table[id], id, v.requests);
    } else {
      assert !HandleFine(v, v.requests[k]);
    }
  }

  /**
   * Opening keeps the invariant exactly if the slot that the lookup finds is in use for this
   * path: then the request has a descriptor that is open on its path unless open(2) failed.
   */
  lemma {:induction false} OpenKeeps(w: World, k: nat, path: string, hash: nat, os: int)
    requires Inv(w) && k !in w.requests && os !in w.files && (os == -1 || os > 0)
    ensures var v := Open(w, k, path, hash, os);
      && (Inv(v) <==> Fit(w, path, hash))
      && (Inv(v) ==> v.requests[k].path == path && (v.requests[k].fd == -1 ==> os == -1))
  {
    hide BucketFine, HandleFine, Apart, Held, Open;
    if Fit(w, path, hash) {
      OpenFits(w, k, path, hash, os);
    } else {
      OpenMisfits(w, k, path, hash, os);
    }
  }

  /** Where the file can be opened, the request has a descriptor open on its path under the same condition. */
  lemma {:induction false} OpenServes(w: World, k: nat, path: string, hash: nat, os: int)
    requires Inv(w) && k !in w.requests && os !in w.files && os > 0
    ensures var v := Open(w, k, path, hash, os); var fd := v.requests[k].fd;
      fd in v.files && v.files[fd] == path <==> Fit(w, path, hash)
  {
    hide BucketFine, Apart, Held;
    var b := w.table[hash % SIZE];
    assert BucketFine(b, hash % SIZE, w.requests);
    if Lookup(b.chain, hash).Some? {
      assert -1 !in w.files;
    }
  }

  /** An open that succeeds is shared exactly if its hash has a slot already or one of the bucket's slots is free. */
  lemma {:induction false} OpenShares(w: World, k: nat, path: string, hash: nat, os: int)
    requires Inv(w) && k !in w.requests && os !in w.files && os > 0 && Fit(w, path, hash)
    ensures var chain := w.table[hash % SIZE].chain; var h := Open(w, k, path, hash, os).requests[k];
      h.enabled <==> exists j :: 0 <= j < |chain| && (chain[j].hash == hash || chain[j].fd == -1)
  {
    hide SlotFine, Sharers, HandleFine, Apart, Held;
    var b := w.table[hash % SIZE];
    assert BucketFine(b, hash % SIZE, w.requests);
    if Lookup(b.chain, hash).Some? {
      assert b.chain[Lookup(b.chain, hash).value].hash == hash;
    } else if Vacant(b.chain, 0).Some? {
      SomeFree(b.chain, Vacant(b.chain, 0).value);
    }
  }

  lemma {:induction false} SomeFree(chain: seq<Slot>, j: nat)
    requires j < |chain| && chain[j].fd == -1
    ensures CountFree(chain) > 0
    decreases chain
  {
    if j > 0 {
      SomeFree(chain[1..], j - 1);
    }
  }

  /** As long as a request shares a slot, every further one for its path gets the same descriptor, and opens none. */
  lemma {:induction false} SecondOpen(w: World, k: nat, l: nat, os: int)
    requires Inv(w) && k in w.requests && w.requests[k].enabled && l !in w.requests
    ensures var h := w.requests[k]; var v := Open(w, l, h.path, h.hash, os);
      v.requests[l] == h && v.files == w.files
  {
    hide BucketFine, Apart, Held;
    assert HandleFine(w, w.requests[k]);
  }

  /** The hash 0 stands for a free slot: it is safe exactly when its bucket has none. */
  lemma {:induction false} ZeroHash(w: World, path: string)
    requires Inv(w)
    ensures Fit(w, path, 0) <==> w.table[0].av == 0
  {
    hide Sharers, HandleFine, Apart, Held;
    var b := w.table[0];
    assert BucketFine(b, 0, w.requests);
    match Lookup(b.chain, 0) {
      case Some(j) =>
        assert SlotFine(b.chain[j], 0, w.requests);
        CountChange(b.chain, j, b.chain[j].(fd := 1));
      case None =>
        forall j | 0 <= j < CHAINS
          ensures b.chain[j].fd != -1
        {
          assert SlotFine(b.chain[j], 0, w.requests);
        }
        NoneFree(b.chain);
    }
  }

  /** Without the hash 0 and without two paths of one hash, every open is safe. */
  lemma {:induction false} GoodHashes(w: World, path: string, hash: nat)
    requires Inv(w) && hash != 0
    requires forall k :: k in w.requests && w.requests[k].enabled && w.requests[k].hash == hash ==>
      w.requests[k].path == path
    ensures Fit(w, path, hash)
  {
    hide CountFree, Apart, Held;
    var id := hash % SIZE;
    var b := w.table[id];
    assert BucketFine(b, id, w.requests);
    match Lookup(b.chain, hash) {
      case None =>
      case Some(j) =>
        assert SlotFine(b.chain[j], id, w.requests);
        var m :| m in Sharers(w.requests, hash);
        assert HandleFine(w, w.requests[m]);
    }
  }

  // -------------------------------------------------------------- close

  /** The invariant after a request has gone. */
  lemma {:induction false} Removed(w: World, v: World, k: nat)
    requires Inv(w) && k in w.requests && v.requests == w.requests - {k} && TableFine(v)
    requires forall l :: l in v.requests && v.requests[l].enabled ==>
      SlotFd(v, v.requests[l].hash) == SlotFd(w, v.requests[l].hash)
    requires v.files ==
      if w.requests[k].fd != -1 && !Held(v.requests, w.requests[k].fd) then w.files - {w.requests[k].fd} else w.files
    ensures Inv(v)
  {
    hide BucketFine, SlotFd;
    var gone := w.requests[k].fd;
    forall fd | fd in v.files
      ensures Held(v.requests, fd)
    {
      assert Held(w.requests, fd);
      var l :| l in w.requests && w.requests[l].fd == fd;
      if l != k {
        assert v.requests[l].fd == fd;
      }
    }
    forall l | l in v.requests
      ensures HandleFine(v, v.requests[l])
    {
      assert HandleFine(w, w.requests[l]);
      assert v.requests[l].fd == gone ==> Held(v.requests, gone);
    }
  }

  lemma {:induction false} ClosePrivate(w: World, k: nat)
    requires Inv(w) && k in w.requests && !w.requests[k].enabled
    ensures var v := Close(w, k); Inv(v) && Closes(w, v, k)
  {
    hide CountFree, FirstFrom, SlotFine, Sharers;
    var v := Close(w, k);
    var h := w.requests[k];
    assert HandleFine(w, h);
    forall i | 0 <= i < SIZE
      ensures BucketFine(v.table[i], i, v.requests)
    {
      forall j | 0 <= j < CHAINS && w.table[i].chain[j].fd != -1
        ensures SameSharers(w.requests, v.requests, w.table[i].chain[j].hash)
      {
        SharersRemove(w.requests, k, w.table[i].chain[j].hash);
      }
      BucketKept(w.table[i], i, w.requests, v.requests);
    }
    forall l | l in v.requests
      ensures v.requests[l].fd == h.fd ==> h.fd == -1
    {
      assert Apart(h, w.requests[l]);
    }
    Removed(w, v, k);
  }

  /** The descriptor is closed exactly if the request was its last user, and then it was open. */
  predicate Closes(w: World, v: World, k: nat)
    requires k in w.requests
  {
    var fd := w.requests[k].fd;
    && v.files == (if fd != -1 && !Held(v.requests, fd) then w.files - {fd} else w.files)
    && (fd != -1 ==> fd in w.files)
  }

  /** Who has the descriptor after a sharer has left. */
  lemma {:induction false} StillHeld(w: World, k: nat)
    requires Inv(w) && k in w.requests && w.requests[k].enabled
    ensures var h := w.requests[k]; Held(w.requests - {k}, h.fd) <==> Sharers(w.requests, h.hash) != {k}
    ensures k in Sharers(w.requests, w.requests[k].hash)
  {
    hide BucketFine, SlotFd;
    var h := w.requests[k];
    var rest := w.requests - {k};
    assert HandleFine(w, h);
    SharerIs(w.requests, h.hash, k);
    if Held(rest, h.fd) {
      var l :| l in rest && rest[l].fd == h.fd;
      SlotUsers(w, h.hash, l);
    }
    if Sharers(w.requests, h.hash) != {k} {
      var l :| l in Sharers(w.requests, h.hash) && l != k;
      SlotUsers(w, h.hash, l);
      assert rest[l].fd == h.fd;
    }
  }

  lemma {:induction false} CloseShared(w: World, k: nat, j: nat)
    requires Inv(w) && k in w.requests && w.requests[k].enabled
    requires Lookup(w.table[w.requests[k].hash % SIZE].chain, w.requests[k].hash) == Some(j)
    ensures var v := Close(w, k); Inv(v) && Closes(w, v, k)
  {
    hide CountFree, FirstFrom, Sharers;
    var v := Close(w, k);
    var h := w.requests[k];
    var id := h.hash % SIZE;
    var b := w.table[id];
    assert HandleFine(w, h) && BucketFine(b, id, w.requests) && SlotFine(b.chain[j], id, w.requests);
    var s := if b.chain[j].readers == 1 then FREE else b.chain[j].(readers := b.chain[j].readers - 1);
    var av := if b.chain[j].readers == 1 then b.av + 1 else b.av;
    StillHeld(w, k);
    SharersRemove(w.requests, k, h.hash);
    LastSharer(w.requests, h.hash, k);
    forall x: nat
      ensures x != h.hash ==> SameSharers(w.requests, v.requests, x)
    {
      SharersRemove(w.requests, k, x);
    }
    OthersDiffer(b, id, w.requests, j);
    BucketChanged(b, id, w.requests, v.requests, j, s, av);
    TableKept(w, id, v.table, v.requests, h.hash);
    forall l | l in v.requests && v.requests[l].enabled
      ensures SlotFd(v, v.requests[l].hash) == SlotFd(w, v.requests[l].hash)
    {
      assert HandleFine(w, w.requests[l]);
      SharerIs(w.requests, h.hash, l);
      SlotFdKept(w, v, id, j, s, av, v.requests[l].hash);
    }
    Removed(w, v, k);
  }

  lemma {:induction false} LastSharer(r: map<nat, Handle>, hash: nat, k: nat)
    requires k in Sharers(r, hash)
    ensures |Sharers(r, hash)| == 1 <==> Sharers(r, hash) == {k}
    ensures |Sharers(r, hash) - {k}| == |Sharers(r, hash)| - 1
  {
    if |Sharers(r, hash)| == 1 {
      var rest := Sharers(r, hash) - {k};
      assert |rest| == 0;
      assert Sharers(r, hash) == {k} + rest;
    }
  }

  /**
   * Closing keeps the invariant: every other request keeps its descriptor, and the descriptor
   * is closed by its last user, once.
   */
  lemma {:induction false} CloseKeeps(w: World, k: nat)
    requires Inv(w) && k in w.requests
    ensures var v := Close(w, k); Inv(v) && Closes(w, v, k)
  {
    hide BucketFine, Apart, Held, Closes, Close;
    if w.requests[k].enabled {
      assert HandleFine(w, w.requests[k]);
      var h := w.requests[k];
      CloseShared(w, k, Lookup(w.table[h.hash % SIZE].chain, h.hash).value);
    } else {
      ClosePrivate(w, k);
    }
  }

  // ------------------------------------------------------------ whole runs

  /** A request opens a path, with what open(2) would give, or is freed. */
  datatype Event = Opening(k: nat, path: string, os: int) | Closing(k: nat)

  /** On these paths the hash is never 0, and no two share one. */
  predicate CollisionFree(H: string -> nat, paths: set<string>) {
    && (forall p :: p in paths ==> H(p) != 0)
    && forall p, q :: p in paths && q in paths && H(p) == H(q) ==> p == q
  }

  /** A request opens once and closes once, and the kernel hands out descriptors that are not in use. */
  predicate Enabled(w: World, e: Event, paths: set<string>) {
    match e
    case Opening(k, path, os) => k !in w.requests && path in paths && os !in w.files && (os == -1 || os > 0)
    case Closing(k) => k in w.requests
  }

  function Step(w: World, e: Event, H: string -> nat): World
    requires |w.table| == SIZE && (e.Closing? ==> e.k in w.requests)
  {
    match e
    case Opening(k, path, os) => Open(w, k, path, H(path), os)
    case Closing(k) => Close(w, k)
  }

  predicate Possible(w: World, es: seq<Event>, H: string -> nat, paths: set<string>)
    requires |w.table| == SIZE
    decreases |es|
  {
    es == [] || (Enabled(w, es[0], paths) && Possible(Step(w, es[0], H), es[1..], H, paths))
  }

  function Run(w: World, es: seq<Event>, H: string -> nat, paths: set<string>): World
    requires |w.table| == SIZE && Possible(w, es, H, paths)
    decreases |es|
  {
    if es == [] then w else Run(Step(w, es[0], H), es[1..], H, paths)
  }

  /** Every sharer has the hash of its own path. */
  predicate Hashed(w: World, H: string -> nat, paths: set<string>) {
    forall k :: k in w.requests ==>
      w.requests[k].path in paths && (w.requests[k].enabled ==> w.requests[k].hash == H(w.requests[k].path))
  }

  lemma {:induction false} OpenHashed(w: World, k: nat, path: string, os: int, H: string -> nat, paths: set<string>)
    requires |w.table| == SIZE && Hashed(w, H, paths) && path in paths
    ensures Hashed(Open(w, k, path, H(path), os), H, paths)
  {
    hide Lookup;
  }

  /** One step keeps the table right; a descriptor is closed only while it is open, by its last user. */
  lemma {:induction false} StepKeeps(w: World, e: Event, H: string -> nat, paths: set<string>)
    requires Inv(w) && Hashed(w, H, paths) && CollisionFree(H, paths) && Enabled(w, e, paths)
    ensures var v := Step(w, e, H);
      && Inv(v) && Hashed(v, H, paths)
      && (e.Opening? ==> v.requests[e.k].path == e.path && (v.requests[e.k].fd == -1 ==> e.os == -1))
      && (e.Closing? ==> Closes(w, v, e.k))
  {
    hide BucketFine, HandleFine, Apart, Held, Open, Close, Fit;
    match e
    case Opening(k, path, os) =>
      GoodHashes(w, path, H(path));
      OpenKeeps(w, k, path, H(path), os);
      OpenHashed(w, k, path, os, H, paths);
    case Closing(k) =>
      CloseKeeps(w, k);
      CloseRequests(w, k);
  }

  lemma {:induction false} CloseRequests(w: World, k: nat)
    requires |w.table| == SIZE && k in w.requests
    ensures Close(w, k).requests == w.requests - {k}
  {
  }

  /**
   * Over every run with a collision-free hash that is never 0, the table behaves like plain open
   * and close: readers count the live sharers, av_slots the free slots, no hash has two slots, and
   * every live request holds a descriptor that is open on its path.
   */
  lemma {:induction false} RunKeeps(w: World, es: seq<Event>, H: string -> nat, paths: set<string>)
    requires Inv(w) && Hashed(w, H, paths) && CollisionFree(H, paths) && Possible(w, es, H, paths)
    ensures Inv(Run(w, es, H, paths)) && Hashed(Run(w, es, H, paths), H, paths)
    decreases |es|
  {
    hide BucketFine, HandleFine, Apart, Held, Step, Hashed, CollisionFree;
    if es != [] {
      StepKeeps(w, es[0], H, paths);
      RunKeeps(Step(w, es[0], H), es[1..], H, paths);
    }
  }

  /** The same from the empty table, for each live request. */
  lemma {:induction false} Reachable(es: seq<Event>, H: string -> nat, paths: set<string>, k: nat)
    requires CollisionFree(H, paths) && Possible(START, es, H, paths)
    requires k in Run(START, es, H, paths).requests
    ensures var w := Run(START, es, H, paths); var h := w.requests[k];
      && Inv(w) && (h.fd != -1 ==> h.fd in w.files && w.files[h.fd] == h.path)
      && (h.enabled ==>
        Sharers(w.requests, h.hash) == set l | l in w.requests && w.requests[l].enabled &&
        w.requests[l].path == h.path)
  {
    hide BucketFine, Apart, Held, Possible;
    StartsFine();
    RunKeeps(START, es, H, paths);
    var w := Run(START, es, H, paths);
    assert HandleFine(w, w.requests[k]);
  }

  /** mk_vhost_fdt_worker_init */
  const START := World(seq(SIZE, _ => Bucket(CHAINS, seq(CHAINS, _ => FREE))), map[], map[])

  lemma {:induction false} StartsFine()
    ensures Inv(START) && |START.table| == 64
    ensures forall i :: 0 <= i < 64 ==> START.table[i].av == |START.table[i].chain| == 8
  {
    AllFree(CHAINS);
  }

  lemma {:induction false} AllFree(n: nat)
    ensures CountFree(seq(n, _ => FREE)) == n
  {
    if n > 0 {
      assert seq(n, _ => FREE)[1..] == seq(n - 1, _ => FREE);
      AllFree(n - 1);
    }
  }

  // ------------------------------------------------ what bad hashes do

  /** A request for `p` on the empty table has no descriptor, although open(2) gave `os`. */
  predicate Unopened(H: string -> nat, p: string, os: int) {
    Open(START, 0, p, H(p), os).requests[0].fd == -1
  }

  lemma {:induction false} NullHash(H: string -> nat, p: string, os: int)
    requires H(p) == 0
    ensures Unopened(H, p, os)
  {
    assert START.table[0].chain[0] == FREE;
  }

  /** After a request for `p` on the empty table, one for `q` gets the file of `p`. */
  predicate GetsOther(H: string -> nat, p: string, q: string, os: int, os': int) {
    var v := Open(Open(START, 0, p, H(p), os), 1, q, H(q), os');
    var fd := v.requests[1].fd;
    fd in v.files && v.files[fd] == p != q
  }

  lemma {:induction false} SameHash(H: string -> nat, p: string, q: string, os: int, os': int)
    requires p != q && H(p) == H(q) != 0 && os > 0 && os' > 0
    ensures GetsOther(H, p, q, os, os')
  {
    var id := H(p) % SIZE;
    var b := START.table[id];
    assert b.chain[0] == FREE && Lookup(b.chain, H(p)) == None && Vacant(b.chain, 0) == Some(0);
    var c := b.chain[0 := Slot(os, 1, H(p))];
    assert Lookup(c, H(p)) == Some(0);
    assert Open(START, 0, p, H(p), os).table[id] == Bucket(CHAINS - 1, c);
  }
}

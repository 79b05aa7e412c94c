/** The table of shared file descriptors as a worker keeps it, in place. */
module FdWorker {
  import opened Wrappers
  import opened FdShare

  /** The table of one virtual host in one worker, with the live requests and the open descriptors. */
  class Table {
    const chain: array2<Slot>
    const av: array<int>
    var requests: map<nat, Handle>
    ghost var files: map<int, string>

    ghost predicate Sized() {
      chain.Length0 == SIZE && chain.Length1 == CHAINS && av.Length == SIZE
    }

    ghost function Chain(i: nat): (c: seq<Slot>)
      requires Sized() && i < SIZE
      reads chain
      ensures |c| == CHAINS && forall j :: 0 <= j < CHAINS ==> c[j] == chain[i, j]
    {
      seq(CHAINS, j requires 0 <= j < CHAINS reads chain => chain[i, j])
    }

    ghost function Buckets(): (t: seq<Bucket>)
      requires Sized()
      reads chain, av
      ensures |t| == SIZE && forall i :: 0 <= i < SIZE ==> t[i] == Bucket(av[i], Chain(i))
    {
      seq(SIZE, i requires 0 <= i < SIZE reads chain, av => Bucket(av[i], Chain(i)))
    }

    ghost function View(): World
      requires Sized()
      reads this, chain, av
    {
      World(Buckets(), requests, files)
    }

    /** Every live request has a descriptor open on its path, shared or not. */
    ghost predicate Valid()
      reads this, chain, av
    {
      Sized() && Inv(View())
    }

    /** mk_vhost_fdt_worker_init */
    constructor ()
      ensures Valid() && requests == map[] && files == map[] && fresh(chain) && fresh(av)
    {
      chain := new Slot[SIZE, CHAINS];
      av := new int[SIZE];
      requests, files := map[], map[];
      new;
      for i := 0 to SIZE
        invariant forall x, j :: 0 <= x < i && 0 <= j < CHAINS ==> chain[x, j] == FREE
        invariant forall x :: 0 <= x < i ==> av[x] == CHAINS
        invariant requests == map[] && files == map[]
      {
        av[i] := CHAINS;
        for j := 0 to CHAINS
          invariant forall x, y :: 0 <= x < i && 0 <= y < CHAINS ==> chain[x, y] == FREE
          invariant forall y :: 0 <= y < j ==> chain[i, y] == FREE
          invariant forall x :: 0 <= x <= i ==> av[x] == CHAINS
          invariant requests == map[] && files == map[]
        {
          chain[i, j] := Slot(-1, 0, 0);
        }
      }
      StartsFine();
      forall i | 0 <= i < SIZE
        ensures Buckets()[i] == START.table[i]
      {
        assert Chain(i) == START.table[i].chain;
      }
      assert Buckets() == START.table;
    }

    /** mk_vhost_fdt_chain_lookup; CHAINS where it returns NULL */
    method ChainLookup(id: nat, hash: nat) returns (i: nat)
      requires Sized() && id < SIZE
      ensures i <= CHAINS && Lookup(Chain(id), hash) == if i < CHAINS then Some(i) else None
    {
      i := 0;
      while i < CHAINS
        invariant i <= CHAINS && Lookup(Chain(id), hash) == FirstFrom(Chain(id), hash, i)
      {
        if chain[id, i].hash == hash {
          return;
        }
        i := i + 1;
      }
    }

    /** One slot, and the count of its bucket. */
    method SetSlot(id: nat, j: nat, s: Slot, n: int)
      requires Sized() && id < SIZE && j < CHAINS
      modifies chain, av
      ensures Buckets() == old(Buckets())[id := Bucket(n, old(Chain(id))[j := s])]
    {
      chain[id, j] := s;
      av[id] := n;
      forall i | 0 <= i < SIZE
        ensures Buckets()[i] == old(Buckets())[id := Bucket(n, old(Chain(id))[j := s])][i]
      {
        if i == id {
          assert Chain(i) == old(Chain(id))[j := s];
        } else {
          assert Chain(i) == old(Chain(i));
        }
      }
    }

    /** The table without the request's own fields: the descriptor, and whether it is shared. */
    method FdtOpen(id: nat, hash: nat, os: int) returns (fd: int, enabled: bool)
      requires Sized() && id < SIZE
      modifies chain, av
      ensures (Buckets()[id], fd, enabled) == OpenIn(old(Buckets()[id]), hash, os)
      ensures Buckets() == old(Buckets())[id := Buckets()[id]]
    {
      var i := ChainLookup(id, hash);
      if i < CHAINS {
        SetSlot(id, i, chain[id, i].(readers := chain[id, i].readers + 1), av[id]);
        return chain[id, i].fd, true;
      }
      if os == -1 {
        return -1, false;
      }
      if av[id] <= 0 {
        return os, false;
      }
      i := 0;
      while i < CHAINS
        invariant i <= CHAINS && Vacant(Chain(id), 0) == Vacant(Chain(id), i) && Buckets() == old(Buckets())
      {
        if chain[id, i].fd == -1 {
          SetSlot(id, i, Slot(os, chain[id, i].readers + 1, hash), av[id] - 1);
          return os, true;
        }
        i := i + 1;
      }
      return os, false;
    }

    /** mk_vhost_open, with what open(2) would give; mk_http.c keeps the result in the request. */
    method Open(k: nat, path: string, hash: nat, os: int) returns (fd: int)
      requires Valid() && k !in requests && os !in files && (os == -1 || os > 0)
      modifies this, chain, av
      ensures Sized() && View() == FdShare.Open(old(View()), k, path, hash, os) && fd == requests[k].fd
      ensures Valid() <==> Fit(old(View()), path, hash)
      ensures Valid() && os != -1 ==> fd in files && files[fd] == path
    {
      hide Inv, OpenIn;
      ghost var w := View();
      var id := hash % SIZE;
      ghost var shared := Lookup(Chain(id), hash).Some?;
      var enabled;
      OpenKeeps(w, k, path, hash, os);
      fd, enabled := FdtOpen(id, hash, os);
      requests := requests[k := Handle(fd, if enabled then hash else 0, enabled, path)];
      if !shared && os != -1 {
        files := files[os := path];
      }
      if Inv(View()) && fd != -1 {
        HandleOpen(View(), k);
      }
    }

    method FdtClose(hash: nat) returns (last: bool)
      requires Sized()
      modifies chain, av
      ensures var id := hash % SIZE; (Buckets()[id], last) == CloseIn(old(Buckets()[id]), hash)
      ensures Buckets() == old(Buckets())[hash % SIZE := Buckets()[hash % SIZE]]
    {
      var id := hash % SIZE;
      var i := ChainLookup(id, hash);
      if i < CHAINS {
        var s := chain[id, i].(readers := chain[id, i].readers - 1);
        if s.readers == 0 {
          SetSlot(id, i, Slot(-1, 0, 0), av[id] + 1);
          return true;
        }
        SetSlot(id, i, s, av[id]);
        return false;
      }
      return true;
    }

    /** mk_vhost_close, when the request is freed: the descriptor that is closed, or -1. */
    method Close(k: nat) returns (closed: int)
      requires Valid() && k in requests
      modifies this, chain, av
      ensures Valid() && View() == FdShare.Close(old(View()), k)
      ensures closed ==
        if old(requests[k].fd) != -1 && !Held(requests, old(requests[k].fd)) then old(requests[k].fd) else -1
      ensures closed != -1 ==> closed in old(files) && files == old(files) - {closed}
      ensures closed == -1 ==> files == old(files)
    {
      hide Inv, CloseIn;
      ghost var w := View();
      CloseKeeps(w, k);
      SharedIsOpen(w, k);
      var h := requests[k];
      closed := -1;
      if !h.enabled {
        if h.fd > 0 {
          closed := h.fd;
        }
      } else {
        var last := FdtClose(h.hash);
        if last {
          closed := h.fd;
        }
      }
      requests := requests - {k};
      if closed != -1 {
        files := files - {closed};
      }
      ClosedIs(w, View(), k, closed);
    }
  }

  lemma {:induction false} HandleOpen(w: World, k: nat)
    requires Inv(w) && k in w.requests && w.requests[k].fd != -1
    ensures w.requests[k].fd in w.files && w.files[w.requests[k].fd] == w.requests[k].path
  {
    assert HandleFine(w, w.requests[k]);
  }

  lemma {:induction false} SharedIsOpen(w: World, k: nat)
    requires Inv(w) && k in w.requests
    ensures w.requests[k].fd == -1 || w.requests[k].fd > 0
    ensures w.requests[k].enabled ==> w.requests[k].fd != -1
  {
    assert HandleFine(w, w.requests[k]);
  }

  lemma {:induction false} ClosedIs(w: World, v: World, k: nat, closed: int)
    requires k in w.requests && Closes(w, v, k) && (closed == -1 || closed == w.requests[k].fd)
    requires v.files == if closed != -1 then w.files - {closed} else w.files
    ensures closed == if w.requests[k].fd != -1 && !Held(v.requests, w.requests[k].fd) then w.requests[k].fd else -1
  {
    var fd := w.requests[k].fd;
    if fd != -1 {
      assert fd in w.files && fd !in w.files - {fd};
    }
  }
}

/**
  Runs of the buffer cache's operations, and what they all keep.
 */
module BufferRuns {
  import opened Lists
  import opened Options
  import opened BufferCache
  import opened BufferCacheProofs

  // Buffers keep their page and their size while their records change.
  ghost predicate Records(c: Cache, c': Cache) {
    && c'.pages == c.pages
    && forall x {:trigger c.bufs[x]} :: x in c.bufs ==>
         x in c'.bufs && c'.bufs[x].page == c.bufs[x].page && c'.bufs[x].size == c.bufs[x].size
  }

  lemma PagedSame(c: Cache, c': Cache)
    requires Paged(c) && Records(c, c')
    ensures Paged(c')
  {
  }

  // Taking a buffer off its queues and putting it on its free list.
  lemma ForgottenRecords(h: Hash, c: Cache, x: nat, l: nat)
    requires x in c.bufs
    ensures Records(c, LruRemove(HashUnlink(h, c, x), x, l))
    ensures x in LruRemove(HashUnlink(h, c, x), x, l).bufs
  {
  }

  lemma FreedRecords(c: Cache, x: nat)
    requires x in c.bufs
    ensures Records(c, PutLastFree(c, x))
  {
  }

  lemma RefileKeepsPaged(c: Cache, x: nat)
    requires Paged(c) && x in c.bufs
    ensures Paged(Refile(c, x))
  {
    PagedSame(c, Refile(c, x));
  }

  lemma RecordsTransitive(a: Cache, b: Cache, c: Cache)
    requires Records(a, b) && Records(b, c)
    ensures Records(a, c)
  {
  }

  lemma BforgetRecords(h: Hash, c: Cache, x: nat)
    requires Held(c, x)
    ensures Records(c, Bforget(h, c, x))
  {
    var c1 := WithBuf(c, x, c.bufs[x].(count := c.bufs[x].count - 1));
    assert Records(c, c1);
    if c1.bufs[x].count == 0 && !c1.bufs[x].locked {
      var c2 := LruRemove(HashUnlink(h, c1, x), x, c.bufs[x].list);
      ForgottenRecords(h, c1, x, c.bufs[x].list);
      FreedRecords(c2, x);
      RecordsTransitive(c, c1, c2);
      RecordsTransitive(c, c2, PutLastFree(c2, x));
    }
  }

  lemma BforgetKeepsPaged(h: Hash, c: Cache, x: nat)
    requires Paged(c) && Held(c, x)
    ensures Paged(Bforget(h, c, x))
  {
    BforgetRecords(h, c, x);
    PagedSame(c, Bforget(h, c, x));
  }

  lemma ClaimKeepsPaged(h: Hash, c: Cache, x: nat, dev: int, block: int, size: nat)
    requires Paged(c) && x in c.bufs
    ensures Paged(Claim(h, c, x, dev, block, size))
  {
    PagedSame(c, Claim(h, c, x, dev, block, size));
  }

  // ----- getblk -----

  // The buffer of this block, if it is hashed.
  ghost predicate Cached(c: Cache, x: nat, dev: int, block: int, size: nat) {
    x in c.bufs && c.bufs[x].hashed && Wanted(c.bufs[x], dev, block, size)
  }

  lemma HitKeepsInv(h: Hash, c: Cache, x: nat)
    requires Inv(h, c) && x in c.bufs
    ensures Inv(h, WithBuf(c, x, c.bufs[x].(count := c.bufs[x].count + 1)))
  {
    CountKeepsCore(h, c, x, c.bufs[x].(count := c.bufs[x].count + 1));
    PagedSame(c, WithBuf(c, x, c.bufs[x].(count := c.bufs[x].count + 1)));
  }

  // The head of a free list can be claimed.
  lemma HeadIsFree(h: Hash, c: Cache, size: nat)
    requires Inv(h, c) && ValidSize(size) && At(c.lists, FreeList(size)) != []
    ensures var x := At(c.lists, FreeList(size))[0];
            x in c.bufs && c.bufs[x].dev == B_FREE && c.bufs[x].size == size
  {
    var x := At(c.lists, FreeList(size))[0];
    assert x in At(c.lists, FreeList(size));
    assert Placed(h, c, x);
    FreeListOfSize(c.bufs[x].size, size);
  }

  ghost predicate NoneCached(c: Cache, dev: int, block: int, size: nat) {
    forall y {:trigger c.bufs[y]} :: y in c.bufs && c.bufs[y].hashed ==> !Wanted(c.bufs[y], dev, block, size)
  }

  lemma NothingWanted(h: Hash, c: Cache, dev: int, block: int, size: nat)
    requires Inv(h, c) && Lookup(c.bufs, At(c.chains, h(dev, block)), dev, block, size).None?
    ensures NoneCached(c, dev, block, size)
  {
    forall y {:trigger c.bufs[y]} | y in c.bufs && c.bufs[y].hashed ensures !Wanted(c.bufs[y], dev, block, size) {
      LookupExact(h, c, dev, block, size, y);
    }
  }

  lemma MissKeepsInv(h: Hash, c: Cache, dev: int, block: int, size: nat)
    requires Inv(h, c) && dev != B_FREE && ValidSize(size) && NoneCached(c, dev, block, size)
    requires At(c.lists, FreeList(size)) != [] && At(c.lists, FreeList(size))[0] in c.bufs
    ensures var x := At(c.lists, FreeList(size))[0]; var c' := Claim(h, c, x, dev, block, size);
            Inv(h, c') && Cached(c', x, dev, block, size) && c'.bufs[x].count > 0
  {
    HeadIsFree(h, c, size);
    var x := At(c.lists, FreeList(size))[0];
    ClaimKeepsCore(h, c, x, dev, block, size);
    ClaimKeepsPaged(h, c, x, dev, block, size);
  }

  /** getblk returns the cached buffer of the block when there is one. */
  lemma GetBlkHit(h: Hash, c: Cache, dev: int, block: int, size: nat, y: nat)
    requires Inv(h, c) && Cached(c, y, dev, block, size)
    ensures var (c', r) := GetBlk(h, c, dev, block, size);
            && Inv(h, c') && r == Some(y)
            && Cached(c', y, dev, block, size) && c'.bufs[y].count == c.bufs[y].count + 1
  {
    LookupExact(h, c, dev, block, size, y);
    HitKeepsInv(h, c, y);
  }

  /** Otherwise it makes one out of a free buffer, and gives up for this round only when
      there is none. */
  lemma GetBlkMiss(h: Hash, c: Cache, dev: int, block: int, size: nat)
    requires Inv(h, c) && dev != B_FREE && ValidSize(size) && NoneCached(c, dev, block, size)
    ensures var (c', r) := GetBlk(h, c, dev, block, size);
            && Inv(h, c') && (r.None? <==> At(c.lists, FreeList(size)) == [])
            && (r.Some? ==> Cached(c', r.value, dev, block, size) && c'.bufs[r.value].count > 0)
  {
    var hit := Lookup(c.bufs, At(c.chains, h(dev, block)), dev, block, size);
    if hit.Some? {
      LookupExact(h, c, dev, block, size, hit.value);
    }
    if At(c.lists, FreeList(size)) != [] {
      HeadIsFree(h, c, size);
      MissKeepsInv(h, c, dev, block, size);
    }
  }

  lemma GetBlkKeepsInv(h: Hash, c: Cache, dev: int, block: int, size: nat)
    requires Inv(h, c) && dev != B_FREE && ValidSize(size)
    ensures Inv(h, GetBlk(h, c, dev, block, size).0)
  {
    var hit := Lookup(c.bufs, At(c.chains, h(dev, block)), dev, block, size);
    if hit.Some? {
      LookupExact(h, c, dev, block, size, hit.value);
      GetBlkHit(h, c, dev, block, size, hit.value);
    } else {
      NothingWanted(h, c, dev, block, size);
      GetBlkMiss(h, c, dev, block, size);
    }
  }

  // ----- runs -----

  datatype Action =
    | Get(dev: int, block: int, size: nat)
    | Refiled(x: nat)
    | Forget(x: nat)
    | Release(x: nat)
    | State(x: nat, locked: bool, dirty: bool, protected: bool)
    | Grown(page: nat, ids: seq<nat>, size: nat)
    | Reclaim(page: nat)

  // A buffer in use: whoever refiles, forgets or marks it holds it.
  predicate Held(c: Cache, x: nat) {
    x in c.bufs && c.bufs[x].count > 0 && c.bufs[x].dev != B_FREE
  }

  ghost predicate NewPage(c: Cache, page: nat, ids: seq<nat>, size: nat) {
    ValidSize(size) && size <= 4096 && Distinct(ids) && At(c.pages, page) == [] && forall x :: x in ids ==> x !in c.bufs
  }

  ghost function Apply(h: Hash, c: Cache, a: Action): Cache {
    match a
    case Get(dev, block, size) => if dev != B_FREE && ValidSize(size) then GetBlk(h, c, dev, block, size).0 else c
    case Refiled(x) => if x in c.bufs && c.bufs[x].dev != B_FREE then Refile(c, x) else c
    case Forget(x) => if Held(c, x) then Bforget(h, c, x) else c
    case Release(x) => if x in c.bufs then Brelse(c, x) else c
    case State(x, locked, dirty, protected) =>
      if x in c.bufs && c.bufs[x].dev != B_FREE then SetState(c, x, locked, dirty, protected) else c
    case Grown(page, ids, size) => if NewPage(c, page, ids, size) then Grow(c, page, ids, size) else c
    case Reclaim(page) => TryToFree(h, c, page)
  }

  ghost function Execute(h: Hash, run: seq<Action>): Cache
    decreases |run|
  {
    if run == [] then Cache(map[], map[], map[], map[], map[], map[])
    else Apply(h, Execute(h, run[..|run| - 1]), run[|run| - 1])
  }

  lemma RefileKeepsInv(h: Hash, c: Cache, x: nat)
    requires Inv(h, c) && x in c.bufs && c.bufs[x].dev != B_FREE
    ensures Inv(h, Refile(c, x))
  {
    RefileKeepsCore(h, c, x);
    RefileKeepsPaged(c, x);
  }

  lemma BforgetKeepsInv(h: Hash, c: Cache, x: nat)
    requires Inv(h, c) && Held(c, x)
    ensures Inv(h, Bforget(h, c, x))
  {
    BforgetKeepsCore(h, c, x);
    BforgetKeepsPaged(h, c, x);
  }

  lemma RecordKeepsInv(h: Hash, c: Cache, x: nat, b: Buf)
    requires Inv(h, c) && x in c.bufs && SameKey(b, c.bufs[x]) && b.list == c.bufs[x].list
    requires b.hashed == c.bufs[x].hashed && b.page == c.bufs[x].page
    ensures Inv(h, WithBuf(c, x, b))
  {
    CountKeepsCore(h, c, x, b);
    PagedSame(c, WithBuf(c, x, b));
  }

  lemma ApplyKeepsInv(h: Hash, c: Cache, a: Action)
    requires Inv(h, c)
    ensures Inv(h, Apply(h, c, a))
  {
    match a
    case Get(dev, block, size) =>
      if dev != B_FREE && ValidSize(size) {
        GetBlkKeepsInv(h, c, dev, block, size);
      }
    case Refiled(x) =>
      if x in c.bufs && c.bufs[x].dev != B_FREE {
        RefileKeepsInv(h, c, x);
      }
    case Forget(x) =>
      if Held(c, x) {
        BforgetKeepsInv(h, c, x);
      }
    case Release(x) =>
      if x in c.bufs && c.bufs[x].count > 0 {
        RecordKeepsInv(h, c, x, c.bufs[x].(count := c.bufs[x].count - 1));
      }
    case State(x, locked, dirty, protected) =>
      if x in c.bufs {
        RecordKeepsInv(h, c, x, c.bufs[x].(locked := locked, dirty := dirty, protected := protected));
      }
    case Grown(page, ids, size) =>
      if NewPage(c, page, ids, size) {
        GrowKeepsCore(h, c, page, ids, size);
        GrowKeepsPaged(c, page, ids, size);
      }
    case Reclaim(page) =>
      TryToFreeKeepsInv(h, c, page);
  }

  lemma {:induction false} ReachableInv(h: Hash, run: seq<Action>)
    ensures Inv(h, Execute(h, run))
    decreases |run|
  {
    if run != [] {
      ReachableInv(h, run[..|run| - 1]);
      ApplyKeepsInv(h, Execute(h, run[..|run| - 1]), run[|run| - 1]);
    } else {
      var c := Execute(h, run);
      forall x ensures Placed(h, c, x) {
      }
    }
  }

  /** In every reachable state at most one buffer is hashed for a device, block and
      size, and getblk returns it. */
  lemma ReachableUnique(h: Hash, run: seq<Action>, x: nat, y: nat, dev: int, block: int, size: nat)
    requires Cached(Execute(h, run), x, dev, block, size)
    ensures Cached(Execute(h, run), y, dev, block, size) ==> x == y
    ensures GetBlk(h, Execute(h, run), dev, block, size).1 == Some(x)
  {
    var c := Execute(h, run);
    ReachableInv(h, run);
    GetBlkHit(h, c, dev, block, size, x);
  }

  /** In every reachable state no buffer is on two lists or twice on one, free buffers
      are not hashed and stand on the list of their size, and hashed buffers on the LRU
      list they name. */
  lemma ReachableLists(h: Hash, run: seq<Action>, x: nat, l: nat, m: nat)
    ensures var c := Execute(h, run);
            && Distinct(At(c.lists, l))
            && (x in At(c.lists, l) && x in At(c.lists, m) ==> l == m)
            && (x in At(c.lists, l) && l >= NR_LIST ==>
                  x in c.bufs && !c.bufs[x].hashed && c.bufs[x].dev == B_FREE && l == FreeList(c.bufs[x].size))
            && (x in c.bufs && c.bufs[x].hashed ==> x in At(c.lists, c.bufs[x].list))
  {
    var c := Execute(h, run);
    ReachableInv(h, run);
    assert Placed(h, c, x);
  }

  /** In every reachable state the counters of an LRU list are its length and the sum of its sizes. */
  lemma ReachableCounts(h: Hash, run: seq<Action>, l: nat)
    requires l < NR_LIST
    ensures var c := Execute(h, run);
            Num(c.nr, l) == |At(c.lists, l)| && Num(c.bytes, l) == Total(c.bufs, At(c.lists, l))
  {
    ReachableInv(h, run);
    assert Counted(Execute(h, run), l);
  }
}

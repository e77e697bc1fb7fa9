/**
  What each call does to the buffers: which may be thrown away, which list one ends
  on, and that no step loses what a dirty buffer holds.
 */
module BufferCalls {
  import opened Lists
  import opened Options
  import opened BufferCache
  import opened BufferCacheProofs
  import opened BufferRuns

  // Nobody holds the buffer, and nothing in it is still to be written, on its way or
  // not to be touched.
  predicate Idle(b: Buf) {
    b.count == 0 && !b.dirty && !b.locked && !b.protected
  }

  ghost predicate PageIdle(c: Cache, page: nat) {
    forall x :: x in At(c.pages, page) ==> x in c.bufs && Idle(c.bufs[x])
  }

  // Every buffer but x, if it is one, is as before.
  ghost predicate OthersSame(c: Cache, c': Cache, x: nat) {
    c'.bufs.Keys == c.bufs.Keys && forall y {:trigger c'.bufs[y]} :: y in c.bufs && y != x ==> c'.bufs[y] == c.bufs[y]
  }

  // ----- try_to_free_buffers -----

  ghost predicate Reclaimed(h: Hash, c: Cache, page: nat, c': Cache) {
    if PageIdle(c, page) then
      && (forall x :: x in c'.bufs <==> x in c.bufs && x !in At(c.pages, page))
      && (forall x {:trigger c'.bufs[x]} :: x in c'.bufs ==> c'.bufs[x] == c.bufs[x])
      && (forall x, l: nat :: x in At(c.pages, page) ==> x !in At(c'.lists, l) && x !in At(c'.chains, l))
      && At(c'.pages, page) == []
    else c' == c
  }

  lemma BusyIffNotIdle(h: Hash, c: Cache, page: nat)
    requires Inv(h, c)
    ensures PageBusy(c, page) <==> !PageIdle(c, page)
  {
    if !PageIdle(c, page) {
      var x :| x in At(c.pages, page) && !(x in c.bufs && Idle(c.bufs[x]));
      assert x in c.bufs;
    }
  }

  // A buffer that is gone is on no list and in no chain.
  lemma GoneEverywhere(h: Hash, c: Cache, x: nat, l: nat)
    requires Core(h, c) && x !in c.bufs
    ensures x !in At(c.lists, l) && x !in At(c.chains, l)
  {
    assert Placed(h, c, x);
  }

  /** try_to_free_buffers gives a page back whole, and only when every buffer of it is
      unused, clean, unlocked and unprotected; otherwise nothing changes. */
  lemma ReclaimMeans(h: Hash, c: Cache, page: nat)
    requires Inv(h, c)
    ensures Reclaimed(h, c, page, TryToFree(h, c, page))
  {
    var c' := TryToFree(h, c, page);
    BusyIffNotIdle(h, c, page);
    if PageIdle(c, page) {
      DiscardAllKeepsCore(h, c, At(c.pages, page));
      TryToFreeKeepsInv(h, c, page);
      forall x, l: nat | x in At(c.pages, page) ensures x !in At(c'.lists, l) && x !in At(c'.chains, l) {
        GoneEverywhere(h, c', x, l);
      }
    }
  }

  // ----- refile and bforget -----

  // The list that the state of a buffer calls for.
  predicate Calls(b: Buf, l: nat) {
    && l < NR_LIST
    && (l == BUF_PROTECTED <==> b.protected)
    && (l == BUF_DIRTY <==> b.dirty && !b.protected)
    && (l == BUF_LOCKED <==> b.locked && !b.dirty && !b.protected)
  }

  lemma RefileRecords(c: Cache, x: nat)
    requires x in c.bufs
    ensures var c' := Refile(c, x);
            && OthersSame(c, c', x) && c'.bufs[x] == c.bufs[x].(list := c'.bufs[x].list)
            && Calls(c.bufs[x], c'.bufs[x].list)
            && (c'.bufs[x].list != c.bufs[x].list ==> x in At(c'.lists, c'.bufs[x].list))
  {
  }

  lemma OnNoOther(h: Hash, c: Cache, x: nat, l: nat)
    requires Core(h, c) && x in c.bufs && c.bufs[x].dev != B_FREE
    ensures x in At(c.lists, l) ==> l == c.bufs[x].list
    ensures c.bufs[x].hashed ==> x in At(c.lists, c.bufs[x].list)
  {
    assert Placed(h, c, x);
  }

  /** A refiled buffer stands on the list that its state calls for, and on no other; nothing
      else about any buffer changes. */
  lemma RefileMeans(h: Hash, c: Cache, x: nat)
    requires Inv(h, c) && x in c.bufs && c.bufs[x].dev != B_FREE
    ensures var c' := Refile(c, x);
            && OthersSame(c, c', x) && Calls(c.bufs[x], c'.bufs[x].list)
            && c'.bufs[x] == c.bufs[x].(list := c'.bufs[x].list)
            && (c.bufs[x].hashed || c'.bufs[x].list != c.bufs[x].list ==> x in At(c'.lists, c'.bufs[x].list))
            && (forall l: nat :: x in At(c'.lists, l) ==> l == c'.bufs[x].list)
  {
    RefileRecords(c, x);
    RefileKeepsCore(h, c, x);
    forall l: nat ensures x in At(Refile(c, x).lists, l) ==> l == Refile(c, x).bufs[x].list {
      OnNoOther(h, Refile(c, x), x, l);
    }
    OnNoOther(h, Refile(c, x), x, 0);
  }

  // The buffer is free: unhashed, last on the free list of its size, on no other list.
  ghost predicate Forgotten(c: Cache, c': Cache, x: nat)
    requires x in c.bufs && x in c'.bufs
  {
    var free := At(c'.lists, FreeList(c.bufs[x].size));
    && Idle(c'.bufs[x]) && c'.bufs[x].dev == B_FREE && !c'.bufs[x].hashed
    && free != [] && free[|free| - 1] == x
    && (forall l: nat :: x in At(c'.lists, l) ==> l == FreeList(c.bufs[x].size))
    && (forall b: nat :: x !in At(c'.chains, b))
  }

  // Off the queues and onto the free list.
  lemma FreedMeans(h: Hash, c: Cache, x: nat, l: nat)
    requires x in c.bufs
    ensures var c1 := LruRemove(HashUnlink(h, c, x), x, l);
            && OthersSame(c, c1, x) && c1.bufs[x] == c.bufs[x].(hashed := false)
            && var c' := PutLastFree(c1, x);
               && OthersSame(c, c', x)
               && c'.bufs[x] == c.bufs[x].(hashed := false, dev := B_FREE, locked := false, dirty := false, protected := false)
               && var free := At(c'.lists, FreeList(c.bufs[x].size)); free != [] && free[|free| - 1] == x
  {
  }

  lemma ForgottenMeans(h: Hash, c: Cache, c': Cache, x: nat)
    requires Core(h, c') && x in c.bufs && x in c'.bufs && c'.bufs[x].size == c.bufs[x].size
    requires Idle(c'.bufs[x]) && c'.bufs[x].dev == B_FREE
    requires var free := At(c'.lists, FreeList(c.bufs[x].size)); free != [] && free[|free| - 1] == x
    ensures Forgotten(c, c', x)
  {
    assert Placed(h, c', x);
  }

  /** bforget gives one reference back; the last one frees the buffer, whatever it holds,
      unless it is locked. */
  lemma BforgetMeans(h: Hash, c: Cache, x: nat)
    requires Inv(h, c) && Held(c, x)
    ensures var c' := Bforget(h, c, x);
            && OthersSame(c, c', x) && c'.bufs[x].count == c.bufs[x].count - 1
            && if c.bufs[x].count == 1 && !c.bufs[x].locked then Forgotten(c, c', x)
               else c' == WithBuf(c, x, c.bufs[x].(count := c.bufs[x].count - 1))
  {
    var c1 := WithBuf(c, x, c.bufs[x].(count := c.bufs[x].count - 1));
    if c.bufs[x].count == 1 && !c.bufs[x].locked {
      BforgetKeepsCore(h, c, x);
      FreedMeans(h, c1, x, c.bufs[x].list);
      ForgottenMeans(h, c, Bforget(h, c, x), x);
    }
  }

  // ----- getblk -----

  lemma ClaimRecords(h: Hash, c: Cache, x: nat, dev: int, block: int, size: nat)
    requires x in c.bufs
    ensures var c' := Claim(h, c, x, dev, block, size);
            OthersSame(c, c', x) && c'.bufs[x] == Claimed(c.bufs[x], dev, block).(hashed := true)
  {
  }

  /** getblk for a block that is not cached takes the first free buffer of the size, and no
      other buffer is touched. */
  lemma GetBlkTakes(h: Hash, c: Cache, dev: int, block: int, size: nat)
    requires Inv(h, c) && ValidSize(size) && NoneCached(c, dev, block, size)
    ensures var (c', r) := GetBlk(h, c, dev, block, size);
            var free := At(c.lists, FreeList(size));
            if free == [] then r.None? && c' == c
            else && r == Some(free[0]) && OthersSame(c, c', free[0])
                 && free[0] in c.bufs && c.bufs[free[0]].dev == B_FREE
                 && Cached(c', free[0], dev, block, size) && c'.bufs[free[0]].count == 1
                 && !c'.bufs[free[0]].dirty && !c'.bufs[free[0]].locked && c'.bufs[free[0]].list == BUF_CLEAN
  {
    var hit := Lookup(c.bufs, At(c.chains, h(dev, block)), dev, block, size);
    if hit.Some? {
      LookupExact(h, c, dev, block, size, hit.value);
    }
    if At(c.lists, FreeList(size)) != [] {
      HeadIsFree(h, c, size);
      ClaimRecords(h, c, At(c.lists, FreeList(size))[0], dev, block, size);
    }
  }

  // ----- grow_buffers -----

  /** grow_buffers adds the buffers of one page, all free and ahead of the old ones on the free
      list of their size, and touches no other buffer. */
  lemma GrowMeans(h: Hash, c: Cache, page: nat, ids: seq<nat>, size: nat)
    requires Inv(h, c) && NewPage(c, page, ids, size)
    ensures var c' := Grow(c, page, ids, size);
            && Inv(h, c') && ids <= At(c'.lists, FreeList(size)) && At(c'.pages, page) == ids
            && (forall x :: x in c'.bufs <==> x in ids || x in c.bufs)
            && (forall x :: x in ids ==> Idle(c'.bufs[x]) && c'.bufs[x].dev == B_FREE && c'.bufs[x].size == size)
            && (forall x :: x in c.bufs ==> c'.bufs[x] == c.bufs[x])
            && (forall x :: x in At(c.lists, FreeList(size)) ==> x in At(c'.lists, FreeList(size)))
  {
    GrowKeepsCore(h, c, page, ids, size);
    GrowKeepsPaged(c, page, ids, size);
    var free := At(c.lists, FreeList(size));
    if free != [] {
      assert free == [free[0]] + free[1..];
    }
  }

  // ----- every step -----

  // getblk touches the buffer it returns, which it found for the block or took free.
  lemma GetBlkTouches(h: Hash, c: Cache, dev: int, block: int, size: nat, y: nat)
    requires Inv(h, c) && ValidSize(size) && y in c.bufs && c.bufs[y].hashed
    ensures var c' := GetBlk(h, c, dev, block, size).0;
            c'.bufs.Keys == c.bufs.Keys && c'.bufs[y] == c.bufs[y].(count := c'.bufs[y].count)
  {
    var hit := Lookup(c.bufs, At(c.chains, h(dev, block)), dev, block, size);
    if hit.Some? {
      LookupExact(h, c, dev, block, size, hit.value);
    } else {
      NothingWanted(h, c, dev, block, size);
      GetBlkTakes(h, c, dev, block, size);
      if At(c.lists, FreeList(size)) != [] {
        assert Placed(h, c, At(c.lists, FreeList(size))[0]);
      }
    }
  }

  // The step that marks the buffer or gives it up.
  predicate Concerns(a: Action, x: nat) {
    (a.Forget? && a.x == x) || (a.State? && a.x == x)
  }

  // The buffer still holds the same block, to be written.
  predicate KeepsBlock(b: Buf, b': Buf) {
    SameKey(b, b') && b'.dirty == b.dirty && b'.hashed == b.hashed
  }

  lemma RefileKeepsBlock(c: Cache, y: nat, x: nat)
    requires y in c.bufs && x in c.bufs
    ensures x in Refile(c, y).bufs && KeepsBlock(c.bufs[x], Refile(c, y).bufs[x])
  {
    RefileRecords(c, y);
  }

  lemma ForgetKeepsBlock(h: Hash, c: Cache, y: nat, x: nat)
    requires Inv(h, c) && Held(c, y) && x in c.bufs && x != y
    ensures x in Bforget(h, c, y).bufs && KeepsBlock(c.bufs[x], Bforget(h, c, y).bufs[x])
  {
    BforgetMeans(h, c, y);
  }

  lemma ReclaimKeepsBlock(h: Hash, c: Cache, page: nat, x: nat)
    requires Inv(h, c) && x in c.bufs && c.bufs[x].dirty
    ensures x in TryToFree(h, c, page).bufs && KeepsBlock(c.bufs[x], TryToFree(h, c, page).bufs[x])
  {
    ReclaimMeans(h, c, page);
  }

  lemma GetKeepsBlock(h: Hash, c: Cache, dev: int, block: int, size: nat, x: nat)
    requires Inv(h, c) && ValidSize(size) && x in c.bufs && c.bufs[x].hashed
    ensures var c' := GetBlk(h, c, dev, block, size).0; x in c'.bufs && KeepsBlock(c.bufs[x], c'.bufs[x])
  {
    GetBlkTouches(h, c, dev, block, size, x);
  }

  // The steps that change the record of one buffer, or add new ones.
  lemma PlainKeepsBlock(h: Hash, c: Cache, a: Action, x: nat)
    requires (a.Release? || a.State? || a.Grown?) && x in c.bufs && !Concerns(a, x)
    ensures x in Apply(h, c, a).bufs && KeepsBlock(c.bufs[x], Apply(h, c, a).bufs[x])
  {
  }

  /** No step but one that marks or forgets it takes a dirty buffer out of the cache, gives
      it to another block or makes it clean: not getblk, not a page given back. */
  lemma DirtyKept(h: Hash, c: Cache, a: Action, x: nat)
    requires Inv(h, c) && x in c.bufs && c.bufs[x].hashed && c.bufs[x].dirty && !Concerns(a, x)
    ensures x in Apply(h, c, a).bufs && KeepsBlock(c.bufs[x], Apply(h, c, a).bufs[x])
  {
    if a.Get? {
      if a.dev != B_FREE && ValidSize(a.size) { GetKeepsBlock(h, c, a.dev, a.block, a.size, x); }
    } else if a.Refiled? {
      if a.x in c.bufs { RefileKeepsBlock(c, a.x, x); }
    } else if a.Forget? {
      if Held(c, a.x) { ForgetKeepsBlock(h, c, a.x, x); }
    } else if a.Reclaim? {
      ReclaimKeepsBlock(h, c, a.page, x);
    } else {
      PlainKeepsBlock(h, c, a, x);
    }
  }

  /** A buffer that leaves the cache in any step was unused, clean, unlocked and unprotected,
      and all of its page leaves with it. */
  lemma OnlyIdleLeave(h: Hash, c: Cache, a: Action, x: nat)
    requires Inv(h, c) && x in c.bufs && x !in Apply(h, c, a).bufs
    ensures a.Reclaim? && x in At(c.pages, a.page) && PageIdle(c, a.page)
  {
    match a
    case Get(dev, block, size) => GetBlkKeepsBufs(h, c, dev, block, size);
    case Refiled(y) => RefileRecords(c, y);
    case Forget(y) => BforgetMeans(h, c, y);
    case Release(y) =>
    case State(y, locked, dirty, protected) =>
    case Grown(page, ids, size) =>
    case Reclaim(page) => ReclaimMeans(h, c, page);
  }

  lemma GetBlkKeepsBufs(h: Hash, c: Cache, dev: int, block: int, size: nat)
    ensures forall y :: y in c.bufs ==> y in GetBlk(h, c, dev, block, size).0.bufs
  {
  }

  /** Along every run a dirty buffer that nobody marks or forgets keeps its block: getblk
      still returns it. */
  lemma {:induction false} DirtyLasts(h: Hash, run: seq<Action>, more: seq<Action>, x: nat)
    requires var c := Execute(h, run); x in c.bufs && c.bufs[x].hashed && c.bufs[x].dirty
    requires forall i :: 0 <= i < |more| ==> !Concerns(more[i], x)
    ensures var b, c' := Execute(h, run).bufs[x], Execute(h, run + more);
            x in c'.bufs && KeepsBlock(b, c'.bufs[x]) && GetBlk(h, c', b.dev, b.block, b.size).1 == Some(x)
    decreases |more|
  {
    var b := Execute(h, run).bufs[x];
    if more == [] {
      assert run + more == run;
    } else {
      var front, a := more[..|more| - 1], more[|more| - 1];
      DirtyLasts(h, run, front, x);
      assert (run + more)[..|run + more| - 1] == run + front && (run + more)[|run + more| - 1] == a;
      ReachableInv(h, run + front);
      DirtyKept(h, Execute(h, run + front), a, x);
    }
    ReachableUnique(h, run + more, x, x, b.dev, b.block, b.size);
  }
}

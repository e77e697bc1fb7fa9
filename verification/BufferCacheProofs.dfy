/**
  Every operation of the buffer cache keeps its invariant.
 */
module BufferCacheProofs {
  import opened Lists
  import opened BufferCache

  // ----- all in order but for one buffer -----

  ghost predicate UniqueBut(c: Cache, x: nat) {
    forall y, z {:trigger c.bufs[y], c.bufs[z]} ::
      y in c.bufs && z in c.bufs && c.bufs[y].hashed && c.bufs[z].hashed && SameKey(c.bufs[y], c.bufs[z]) ==>
        y == x || z == x || y == z
  }

  ghost predicate PlacedBut(h: Hash, c: Cache, x: nat) {
    forall y {:trigger Placed(h, c, y)} :: y != x ==> Placed(h, c, y)
  }

  ghost predicate Around(h: Hash, c: Cache, x: nat) {
    && PlacedBut(h, c, x) && UniqueBut(c, x)
    && DistinctAll(c.chains) && DistinctAll(c.lists) && AllCounted(c)
  }

  ghost predicate NoChain(c: Cache, x: nat) {
    forall b: nat {:trigger At(c.chains, b)} :: x !in At(c.chains, b)
  }

  ghost predicate OnlyChain(c: Cache, x: nat, k: nat) {
    forall b: nat {:trigger At(c.chains, b)} :: x in At(c.chains, b) <==> b == k
  }

  ghost predicate NoList(c: Cache, x: nat) {
    forall l: nat {:trigger At(c.lists, l)} :: x !in At(c.lists, l)
  }

  ghost predicate OnlyList(c: Cache, x: nat, k: nat) {
    forall l: nat {:trigger At(c.lists, l)} :: x in At(c.lists, l) <==> l == k
  }

  lemma CoreAround(h: Hash, c: Cache, x: nat)
    requires Core(h, c)
    ensures Around(h, c, x) && Placed(h, c, x)
  {
  }

  // What x needs to be in order again.
  lemma AroundCore(h: Hash, c: Cache, x: nat)
    requires Around(h, c, x) && Placed(h, c, x)
    requires x in c.bufs && c.bufs[x].hashed ==>
               forall y :: y in c.bufs && y != x && c.bufs[y].hashed ==> !SameKey(c.bufs[y], c.bufs[x])
    ensures Core(h, c)
  {
    forall y ensures Placed(h, c, y) {
    }
  }

  // ----- changing the record of x -----

  lemma CountedSame(c: Cache, c': Cache, l: nat)
    requires Counted(c, l) && At(c'.lists, l) == At(c.lists, l)
    requires Num(c'.nr, l) == Num(c.nr, l) && Num(c'.bytes, l) == Num(c.bytes, l)
    requires forall x :: x in At(c.lists, l) ==> SizeOf(c'.bufs, x) == SizeOf(c.bufs, x)
    ensures Counted(c', l)
  {
    TotalSame(c.bufs, c'.bufs, At(c.lists, l));
  }

  function WithBuf(c: Cache, x: nat, b: Buf): Cache {
    c.(bufs := c.bufs[x := b])
  }

  lemma WithBufAround(h: Hash, c: Cache, x: nat, b: Buf)
    requires Around(h, c, x) && SizeOf(c.bufs, x) == b.size
    ensures Around(h, WithBuf(c, x, b), x)
  {
    var c' := WithBuf(c, x, b);
    forall y | y != x ensures Placed(h, c', y) {
      assert Placed(h, c, y);
      PlacedSame(h, c, c', y);
    }
    forall l: nat | l < NR_LIST ensures Counted(c', l) {
      assert Counted(c, l);
      CountedSame(c, c', l);
    }
  }

  lemma WithoutBufAround(h: Hash, c: Cache, x: nat)
    requires Around(h, c, x) && NoList(c, x)
    ensures Around(h, c.(bufs := c.bufs - {x}), x)
  {
    var c' := c.(bufs := c.bufs - {x});
    forall y | y != x ensures Placed(h, c', y) {
      assert Placed(h, c, y);
      PlacedSame(h, c, c', y);
    }
    forall l: nat | l < NR_LIST ensures Counted(c', l) {
      assert Counted(c, l);
      CountedSame(c, c', l);
    }
  }

  // Nothing about y changes.
  lemma PlacedSame(h: Hash, c: Cache, c': Cache, y: nat)
    requires Placed(h, c, y) && (y in c'.bufs <==> y in c.bufs) && (y in c.bufs ==> c'.bufs[y] == c.bufs[y])
    requires forall b: nat {:trigger At(c'.chains, b)} :: y in At(c'.chains, b) <==> y in At(c.chains, b)
    requires forall l: nat {:trigger At(c'.lists, l)} :: y in At(c'.lists, l) <==> y in At(c.lists, l)
    ensures Placed(h, c', y)
  {
    assert Chained(h, c', y);
    if y in c'.bufs {
      assert y in At(c'.lists, Home(c'.bufs[y])) <==> y in At(c.lists, Home(c.bufs[y]));
    }
  }

  // ----- moving x between lists -----

  lemma AtUpdate(m: map<nat, seq<nat>>, k: nat, s: seq<nat>)
    ensures forall j: nat {:trigger At(m[k := s], j)} :: At(m[k := s], j) == if j == k then s else At(m, j)
  {
  }

  function WithChain(c: Cache, b: nat, chain: seq<nat>): Cache {
    c.(chains := c.chains[b := chain])
  }

  lemma WithChainAround(h: Hash, c: Cache, x: nat, b: nat, chain: seq<nat>)
    requires Around(h, c, x) && Distinct(chain) && forall y :: y != x ==> (y in chain <==> y in At(c.chains, b))
    ensures Around(h, WithChain(c, b, chain), x)
  {
    AtUpdate(c.chains, b, chain);
    var c' := WithChain(c, b, chain);
    forall y | y != x ensures Placed(h, c', y) {
      assert Placed(h, c, y);
      PlacedSame(h, c, c', y);
    }
    forall l: nat | l < NR_LIST ensures Counted(c', l) {
      assert Counted(c, l);
      CountedSame(c, c', l);
    }
  }

  function WithList(c: Cache, l: nat, s: seq<nat>): Cache {
    c.(lists := c.lists[l := s])
  }

  // The counters of an LRU list are set to match it.
  function WithCounts(c: Cache, l: nat, n: int, bytes: int): Cache {
    c.(nr := c.nr[l := n], bytes := c.bytes[l := bytes])
  }

  lemma WithListAround(h: Hash, c: Cache, x: nat, l: nat, s: seq<nat>, c': Cache)
    requires Around(h, c, x) && Distinct(s) && forall y :: y != x ==> (y in s <==> y in At(c.lists, l))
    requires if l < NR_LIST then c' == WithCounts(WithList(c, l, s), l, |s|, Total(c.bufs, s)) else c' == WithList(c, l, s)
    ensures Around(h, c', x)
  {
    AtUpdate(c.lists, l, s);
    forall y | y != x ensures Placed(h, c', y) {
      assert Placed(h, c, y);
      PlacedSame(h, c, c', y);
    }
    forall m: nat | m < NR_LIST ensures Counted(c', m) {
      assert Counted(c, m);
      if m != l {
        CountedSame(c, c', m);
      }
    }
  }

  lemma Pushed(s: seq<nat>, x: nat)
    requires Distinct(s) && x !in s
    ensures Distinct(s + [x]) && Distinct([x] + s)
  {
    DistinctJoin(s, [x]);
    DistinctJoin([x], s);
  }

  // ----- the helpers of the source -----

  lemma HashLinkAround(h: Hash, c: Cache, x: nat)
    requires Around(h, c, x) && x in c.bufs && NoChain(c, x)
    ensures var c' := HashLink(h, c, x);
            && Around(h, c', x) && OnlyChain(c', x, h(c.bufs[x].dev, c.bufs[x].block))
            && c'.lists == c.lists && c'.bufs[x] == c.bufs[x].(hashed := true)
  {
    var b := h(c.bufs[x].dev, c.bufs[x].block);
    var c1 := WithBuf(c, x, c.bufs[x].(hashed := true));
    WithBufAround(h, c, x, c1.bufs[x]);
    assert Distinct(At(c.chains, b));
    Pushed(At(c.chains, b), x);
    WithChainAround(h, c1, x, b, [x] + At(c.chains, b));
    AtUpdate(c.chains, b, [x] + At(c.chains, b));
  }

  lemma HashUnlinkAround(h: Hash, c: Cache, x: nat)
    requires Around(h, c, x) && x in c.bufs && Chained(h, c, x)
    ensures var c' := HashUnlink(h, c, x);
            && Around(h, c', x) && NoChain(c', x)
            && c'.lists == c.lists && x in c'.bufs && c'.bufs[x] == c.bufs[x].(hashed := false)
  {
    if c.bufs[x].hashed {
      var b := h(c.bufs[x].dev, c.bufs[x].block);
      var c1 := WithBuf(c, x, c.bufs[x].(hashed := false));
      WithBufAround(h, c, x, c1.bufs[x]);
      assert Distinct(At(c.chains, b));
      DelFacts(At(c.chains, b), x);
      WithChainAround(h, c1, x, b, Del(At(c.chains, b), x));
      AtUpdate(c.chains, b, Del(At(c.chains, b), x));
    }
  }

  lemma LruInsertAround(h: Hash, c: Cache, x: nat, l: nat)
    requires Around(h, c, x) && NoList(c, x) && l < NR_LIST
    ensures var c' := LruInsert(c, x, l);
            Around(h, c', x) && OnlyList(c', x, l) && c'.chains == c.chains && c'.bufs == c.bufs
  {
    var s := At(c.lists, l);
    assert Distinct(s) && Counted(c, l);
    Pushed(s, x);
    TotalAppend(c.bufs, s, x);
    WithListAround(h, c, x, l, s + [x], LruInsert(c, x, l));
    AtUpdate(c.lists, l, s + [x]);
  }

  lemma LruRemoveAround(h: Hash, c: Cache, x: nat, l: nat)
    requires Around(h, c, x) && l < NR_LIST && (NoList(c, x) || OnlyList(c, x, l))
    ensures var c' := LruRemove(c, x, l);
            Around(h, c', x) && NoList(c', x) && c'.chains == c.chains && c'.bufs == c.bufs
  {
    var s := At(c.lists, l);
    if x in s {
      assert Distinct(s) && Counted(c, l);
      DelFacts(s, x);
      TotalDel(c.bufs, s, x);
      WithListAround(h, c, x, l, Del(s, x), LruRemove(c, x, l));
      AtUpdate(c.lists, l, Del(s, x));
    }
  }

  lemma FreeRemoveAround(h: Hash, c: Cache, x: nat, l: nat)
    requires Around(h, c, x) && l >= NR_LIST && OnlyList(c, x, l)
    ensures var c' := FreeRemove(c, x, l);
            Around(h, c', x) && NoList(c', x) && c'.chains == c.chains && c'.bufs == c.bufs
  {
    var s := At(c.lists, l);
    assert Distinct(s);
    DelFacts(s, x);
    WithListAround(h, c, x, l, Del(s, x), FreeRemove(c, x, l));
    AtUpdate(c.lists, l, Del(s, x));
  }

  lemma PutLastFreeAround(h: Hash, c: Cache, x: nat)
    requires Around(h, c, x) && x in c.bufs && NoList(c, x)
    ensures var c' := PutLastFree(c, x);
            && Around(h, c', x) && OnlyList(c', x, FreeList(c.bufs[x].size)) && c'.chains == c.chains
            && x in c'.bufs && c'.bufs[x] == c.bufs[x].(dev := B_FREE, locked := false, dirty := false, protected := false)
  {
    var b := c.bufs[x].(dev := B_FREE, locked := false, dirty := false, protected := false);
    var l := FreeList(b.size);
    var c1 := WithBuf(c, x, b);
    WithBufAround(h, c, x, b);
    assert Distinct(At(c.lists, l));
    Pushed(At(c.lists, l), x);
    WithListAround(h, c1, x, l, At(c.lists, l) + [x], PutLastFree(c, x));
    AtUpdate(c.lists, l, At(c.lists, l) + [x]);
  }

  // ----- where a buffer is -----

  lemma OnItsList(h: Hash, c: Cache, x: nat)
    requires Placed(h, c, x) && x in c.bufs
    ensures NoList(c, x) || OnlyList(c, x, Home(c.bufs[x]))
    ensures c.bufs[x].dev == B_FREE || c.bufs[x].hashed ==> OnlyList(c, x, Home(c.bufs[x]))
    ensures !c.bufs[x].hashed ==> NoChain(c, x)
  {
    if x in At(c.lists, Home(c.bufs[x])) {
      assert OnlyList(c, x, Home(c.bufs[x]));
    }
  }

  // ----- the operations -----

  // Claiming a free buffer, given that no other one is hashed for this block.
  lemma ClaimKeepsCore(h: Hash, c: Cache, x: nat, dev: int, block: int, size: nat)
    requires Core(h, c) && x in c.bufs && c.bufs[x].dev == B_FREE && c.bufs[x].size == size && dev != B_FREE
    requires forall y :: y in c.bufs && c.bufs[y].hashed ==> !Wanted(c.bufs[y], dev, block, size)
    ensures var c' := Claim(h, c, x, dev, block, size);
            Core(h, c') && x in c'.bufs && c'.bufs[x].hashed && Wanted(c'.bufs[x], dev, block, size)
  {
    CoreAround(h, c, x);
    OnItsList(h, c, x);
    var c1 := FreeRemove(c, x, FreeList(size));
    FreeRemoveAround(h, c, x, FreeList(size));
    var b := Claimed(c.bufs[x], dev, block);
    WithBufAround(h, c1, x, b);
    var c2 := WithBuf(c1, x, b);
    HashLinkAround(h, c2, x);
    var c3 := HashLink(h, c2, x);
    LruInsertAround(h, c3, x, b.list);
    var c4 := LruInsert(c3, x, b.list);
    assert Placed(h, c4, x);
    AroundCore(h, c4, x);
  }

  lemma CountKeepsCore(h: Hash, c: Cache, x: nat, b: Buf)
    requires Core(h, c) && x in c.bufs && SameKey(b, c.bufs[x]) && b.list == c.bufs[x].list && b.hashed == c.bufs[x].hashed
    ensures Core(h, WithBuf(c, x, b))
  {
    CoreAround(h, c, x);
    WithBufAround(h, c, x, b);
    var c' := WithBuf(c, x, b);
    PlacedLike(h, c, c', x);
    AroundCore(h, c', x);
  }

  lemma PlacedLike(h: Hash, c: Cache, c': Cache, x: nat)
    requires Placed(h, c, x) && x in c.bufs && x in c'.bufs && c'.chains == c.chains && c'.lists == c.lists
    requires SameKey(c'.bufs[x], c.bufs[x]) && c'.bufs[x].list == c.bufs[x].list && c'.bufs[x].hashed == c.bufs[x].hashed
    ensures Placed(h, c', x)
  {
    assert Chained(h, c', x);
  }

  lemma RefileKeepsCore(h: Hash, c: Cache, x: nat)
    requires Core(h, c) && x in c.bufs && c.bufs[x].dev != B_FREE
    ensures Core(h, Refile(c, x))
  {
    var to := Dispose(c.bufs[x]);
    if to != c.bufs[x].list {
      CoreAround(h, c, x);
      OnItsList(h, c, x);
      LruRemoveAround(h, c, x, c.bufs[x].list);
      var c1 := LruRemove(c, x, c.bufs[x].list);
      var b := c1.bufs[x].(list := to);
      WithBufAround(h, c1, x, b);
      var c2 := WithBuf(c1, x, b);
      LruInsertAround(h, c2, x, to);
      var c3 := LruInsert(c2, x, to);
      assert Placed(h, c3, x);
      AroundCore(h, c3, x);
    }
  }

  lemma BforgetKeepsCore(h: Hash, c: Cache, x: nat)
    requires Core(h, c) && x in c.bufs && c.bufs[x].count > 0 && c.bufs[x].dev != B_FREE
    ensures Core(h, Bforget(h, c, x))
  {
    var b := c.bufs[x].(count := c.bufs[x].count - 1);
    var c1 := WithBuf(c, x, b);
    CountKeepsCore(h, c, x, b);
    if b.count == 0 && !b.locked {
      CoreAround(h, c1, x);
      OnItsList(h, c1, x);
      HashUnlinkAround(h, c1, x);
      var c2 := HashUnlink(h, c1, x);
      LruRemoveAround(h, c2, x, b.list);
      var c3 := LruRemove(c2, x, b.list);
      PutLastFreeAround(h, c3, x);
      var c4 := PutLastFree(c3, x);
      assert Placed(h, c4, x);
      AroundCore(h, c4, x);
    }
  }

  // ----- a page of new buffers -----

  lemma GrowPlaced(h: Hash, c: Cache, page: nat, ids: seq<nat>, size: nat, y: nat)
    requires Placed(h, c, y) && ValidSize(size) && forall x :: x in ids ==> x !in c.bufs
    ensures Placed(h, Grow(c, page, ids, size), y)
  {
    var c' := Grow(c, page, ids, size);
    var l := FreeList(size);
    var free := At(c.lists, l);
    AtUpdate(c.lists, l, At(c'.lists, l));
    assert y in At(c'.lists, l) <==> y in ids || y in free;
    if y in ids {
      assert forall m: nat {:trigger At(c'.lists, m)} :: y in At(c'.lists, m) <==> m == l;
    } else {
      PlacedSame(h, c, c', y);
    }
  }

  lemma RotatedDistinct(ids: seq<nat>, free: seq<nat>)
    requires Distinct(ids) && Distinct(free) && free != [] && forall x :: x in ids ==> x !in free
    ensures Distinct(ids + free[1..] + [free[0]])
  {
    DistinctJoin(ids, free[1..]);
    DistinctJoin(ids + free[1..], [free[0]]);
  }

  lemma GrowKeepsCore(h: Hash, c: Cache, page: nat, ids: seq<nat>, size: nat)
    requires Core(h, c) && ValidSize(size) && Distinct(ids) && forall x :: x in ids ==> x !in c.bufs
    ensures Core(h, Grow(c, page, ids, size))
  {
    var c' := Grow(c, page, ids, size);
    var l := FreeList(size);
    var free := At(c.lists, l);
    forall y ensures Placed(h, c', y) {
      assert Placed(h, c, y);
      GrowPlaced(h, c, page, ids, size, y);
    }
    assert Distinct(free);
    if free != [] {
      forall x | x in ids ensures x !in free {
        assert Placed(h, c, x);
      }
      RotatedDistinct(ids, free);
    }
    AtUpdate(c.lists, l, At(c'.lists, l));
    forall m: nat | m < NR_LIST ensures Counted(c', m) {
      assert Counted(c, m);
      forall x | x in At(c.lists, m) ensures SizeOf(c'.bufs, x) == SizeOf(c.bufs, x) {
        assert Placed(h, c, x);
      }
      CountedSame(c, c', m);
    }
  }

  lemma GrowKeepsPaged(c: Cache, page: nat, ids: seq<nat>, size: nat)
    requires Paged(c) && Distinct(ids) && At(c.pages, page) == [] && forall x :: x in ids ==> x !in c.bufs
    ensures Paged(Grow(c, page, ids, size))
  {
    AtUpdate(c.pages, page, ids);
  }

  // ----- a page given back -----

  lemma DiscardKeepsCore(h: Hash, c: Cache, x: nat)
    requires Core(h, c) && x in c.bufs
    ensures var c' := Discard(h, c, x);
            && Core(h, c') && c'.bufs.Keys == c.bufs.Keys - {x} && c'.pages == c.pages
            && forall y :: y in c'.bufs ==> c'.bufs[y] == c.bufs[y]
  {
    CoreAround(h, c, x);
    OnItsList(h, c, x);
    var b := c.bufs[x];
    var c1;
    if b.dev != B_FREE {
      HashUnlinkAround(h, c, x);
      LruRemoveAround(h, HashUnlink(h, c, x), x, b.list);
      c1 := LruRemove(HashUnlink(h, c, x), x, b.list);
    } else {
      FreeRemoveAround(h, c, x, FreeList(b.size));
      c1 := FreeRemove(c, x, FreeList(b.size));
    }
    WithoutBufAround(h, c1, x);
    var c2 := c1.(bufs := c1.bufs - {x});
    assert Placed(h, c2, x);
    AroundCore(h, c2, x);
  }

  lemma {:induction false} DiscardAllKeepsCore(h: Hash, c: Cache, ids: seq<nat>)
    requires Core(h, c)
    ensures var c' := DiscardAll(h, c, ids);
            && Core(h, c') && c'.pages == c.pages
            && (forall y :: y in c'.bufs <==> y in c.bufs && y !in ids)
            && forall y :: y in c'.bufs ==> c'.bufs[y] == c.bufs[y]
    decreases |ids|
  {
    if ids != [] {
      var rest, x := ids[..|ids| - 1], ids[|ids| - 1];
      assert ids == rest + [x];
      DiscardAllKeepsCore(h, c, rest);
      var c1 := DiscardAll(h, c, rest);
      if x in c1.bufs {
        DiscardKeepsCore(h, c1, x);
        assert forall y :: y in Discard(h, c1, x).bufs.Keys <==> y in c1.bufs.Keys && y != x;
      }
    }
  }

  lemma TryToFreeKeepsInv(h: Hash, c: Cache, page: nat)
    requires Inv(h, c)
    ensures Inv(h, TryToFree(h, c, page))
    ensures !PageBusy(c, page) ==>
              forall y :: y in TryToFree(h, c, page).bufs <==> y in c.bufs && y !in At(c.pages, page)
  {
    if !PageBusy(c, page) {
      var c1 := DiscardAll(h, c, At(c.pages, page));
      DiscardAllKeepsCore(h, c, At(c.pages, page));
      var c2 := c1.(pages := c1.pages - {page});
      PagesGone(h, c1, page);
      assert forall p: nat {:trigger At(c2.pages, p)} :: At(c2.pages, p) == if p == page then [] else At(c.pages, p);
      forall p: nat, x | x in At(c2.pages, p) ensures x in c2.bufs && c2.bufs[x].page == p {
        assert x in At(c.pages, p);
        assert x !in At(c.pages, page);
      }
    }
  }

  // The invariant of the queues does not look at the pages.
  lemma PagesGone(h: Hash, c: Cache, page: nat)
    requires Core(h, c)
    ensures Core(h, c.(pages := c.pages - {page}))
  {
    var c' := c.(pages := c.pages - {page});
    forall y ensures Placed(h, c', y) {
      assert Placed(h, c, y);
      PlacedSame(h, c, c', y);
    }
    forall l: nat | l < NR_LIST ensures Counted(c', l) {
      assert Counted(c, l);
    }
  }
}

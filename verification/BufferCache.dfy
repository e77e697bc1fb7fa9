/**
  The buffer cache: which buffers are hashed under their device, block and size,
  which list each one is on, and the counters of the lists.
 */
module BufferCache {
  import opened Lists
  import opened Options

  const B_FREE := 0xffff
  const BUF_CLEAN := 0
  const BUF_LOCKED := 1
  const BUF_DIRTY := 2
  const BUF_PROTECTED := 3
  const NR_LIST := 4

  // `list` is the LRU list the buffer belongs to, `page` the page it was cut from.
  datatype Buf = Buf(
    dev: int, block: int, size: nat, list: nat, hashed: bool, count: nat,
    locked: bool, dirty: bool, protected: bool, page: nat)

  // Lists 0 to 3 are the LRU lists, the free lists follow.  `nr` and `bytes` are
  // the counters of the LRU lists.
  datatype Cache = Cache(
    bufs: map<nat, Buf>, chains: map<nat, seq<nat>>, lists: map<nat, seq<nat>>,
    nr: map<nat, int>, bytes: map<nat, int>, pages: map<nat, seq<nat>>)

  type Hash = (int, int) -> nat

  function At(m: map<nat, seq<nat>>, k: nat): seq<nat> {
    if k in m then m[k] else []
  }

  function Num(m: map<nat, int>, k: nat): int {
    if k in m then m[k] else 0
  }

  // ----- sizes and lists -----

  predicate ValidSize(size: nat) {
    size in {512, 1024, 2048, 4096, 8192, 16384, 32768}
  }

  // BUFSIZE_INDEX
  function SizeIndex(size: nat): (i: nat)
    ensures i <= 6
  {
    if size == 512 then 0 else if size == 1024 then 1 else if size == 2048 then 2 else if size == 4096 then 3
    else if size == 8192 then 4 else if size == 16384 then 5 else 6
  }

  function FreeList(size: nat): nat {
    NR_LIST + SizeIndex(size)
  }

  lemma FreeListOfSize(a: nat, b: nat)
    requires ValidSize(a) && ValidSize(b) && FreeList(a) == FreeList(b)
    ensures a == b
  {
  }

  // The one list a buffer may be on.
  function Home(b: Buf): nat {
    if b.dev == B_FREE then FreeList(b.size) else b.list
  }

  function SizeOf(bufs: map<nat, Buf>, x: nat): nat {
    if x in bufs then bufs[x].size else 0
  }

  function Total(bufs: map<nat, Buf>, s: seq<nat>): nat {
    if s == [] then 0 else SizeOf(bufs, s[0]) + Total(bufs, s[1..])
  }

  // ----- the invariant -----

  predicate SameKey(a: Buf, b: Buf) {
    a.dev == b.dev && a.block == b.block && a.size == b.size
  }

  // The hash chains know x exactly when it is hashed.
  ghost predicate Chained(h: Hash, c: Cache, x: nat) {
    forall b: nat {:trigger At(c.chains, b)} ::
      x in At(c.chains, b) <==> x in c.bufs && c.bufs[x].hashed && b == h(c.bufs[x].dev, c.bufs[x].block)
  }

  // x is on no list but its own; free and hashed buffers are on it.
  ghost predicate Listed(c: Cache, x: nat) {
    && (forall l: nat {:trigger At(c.lists, l)} :: x in At(c.lists, l) ==> x in c.bufs && l == Home(c.bufs[x]))
    && (x in c.bufs ==>
          && c.bufs[x].list < NR_LIST && ValidSize(c.bufs[x].size)
          && (c.bufs[x].dev == B_FREE ==> !c.bufs[x].hashed)
          && (c.bufs[x].dev == B_FREE || c.bufs[x].hashed ==> x in At(c.lists, Home(c.bufs[x]))))
  }

  ghost predicate Placed(h: Hash, c: Cache, x: nat) {
    Chained(h, c, x) && Listed(c, x)
  }

  ghost predicate AllPlaced(h: Hash, c: Cache) {
    forall x {:trigger Placed(h, c, x)} :: Placed(h, c, x)
  }

  // At most one hashed buffer per device, block and size.
  ghost predicate Unique(c: Cache) {
    forall x, y {:trigger c.bufs[x], c.bufs[y]} ::
      x in c.bufs && y in c.bufs && c.bufs[x].hashed && c.bufs[y].hashed && SameKey(c.bufs[x], c.bufs[y]) ==> x == y
  }

  ghost predicate DistinctAll(m: map<nat, seq<nat>>) {
    forall k: nat {:trigger At(m, k)} :: Distinct(At(m, k))
  }

  ghost predicate Counted(c: Cache, l: nat) {
    Num(c.nr, l) == |At(c.lists, l)| && Num(c.bytes, l) == Total(c.bufs, At(c.lists, l))
  }

  ghost predicate AllCounted(c: Cache) {
    forall l: nat {:trigger Counted(c, l)} :: l < NR_LIST ==> Counted(c, l)
  }

  ghost predicate Core(h: Hash, c: Cache) {
    AllPlaced(h, c) && Unique(c) && DistinctAll(c.chains) && DistinctAll(c.lists) && AllCounted(c)
  }

  // The buffers of a page know their page and have one size.
  ghost predicate Paged(c: Cache) {
    && DistinctAll(c.pages)
    && (forall p, x {:trigger x in At(c.pages, p)} :: x in At(c.pages, p) ==> x in c.bufs && c.bufs[x].page == p)
    && (forall p, x, y {:trigger x in At(c.pages, p), y in At(c.pages, p)} ::
          x in At(c.pages, p) && y in At(c.pages, p) ==> c.bufs[x].size == c.bufs[y].size)
  }

  ghost predicate Inv(h: Hash, c: Cache) {
    Core(h, c) && Paged(c)
  }

  // ----- changes to one buffer -----

  function HashLink(h: Hash, c: Cache, x: nat): Cache
    requires x in c.bufs
  {
    var b := h(c.bufs[x].dev, c.bufs[x].block);
    c.(bufs := c.bufs[x := c.bufs[x].(hashed := true)], chains := c.chains[b := [x] + At(c.chains, b)])
  }

  function HashUnlink(h: Hash, c: Cache, x: nat): Cache
    requires x in c.bufs
  {
    var b := h(c.bufs[x].dev, c.bufs[x].block);
    if c.bufs[x].hashed then
      c.(bufs := c.bufs[x := c.bufs[x].(hashed := false)], chains := c.chains[b := Del(At(c.chains, b), x)])
    else c
  }

  function LruInsert(c: Cache, x: nat, l: nat): Cache {
    c.(lists := c.lists[l := At(c.lists, l) + [x]],
       nr := c.nr[l := Num(c.nr, l) + 1], bytes := c.bytes[l := Num(c.bytes, l) + SizeOf(c.bufs, x)])
  }

  // A buffer without links is left alone.
  function LruRemove(c: Cache, x: nat, l: nat): Cache {
    if x in At(c.lists, l) then
      c.(lists := c.lists[l := Del(At(c.lists, l), x)],
         nr := c.nr[l := Num(c.nr, l) - 1], bytes := c.bytes[l := Num(c.bytes, l) - SizeOf(c.bufs, x)])
    else c
  }

  function FreeRemove(c: Cache, x: nat, l: nat): Cache {
    c.(lists := c.lists[l := Del(At(c.lists, l), x)])
  }

  function PutLastFree(c: Cache, x: nat): Cache
    requires x in c.bufs
  {
    var b := c.bufs[x].(dev := B_FREE, locked := false, dirty := false, protected := false);
    var l := FreeList(b.size);
    c.(bufs := c.bufs[x := b], lists := c.lists[l := At(c.lists, l) + [x]])
  }

  // ----- the operations -----

  predicate Wanted(b: Buf, dev: int, block: int, size: nat) {
    b.dev == dev && b.block == block && b.size == size
  }

  // __get_hash_table: the first of the chain that fits.
  function Lookup(bufs: map<nat, Buf>, chain: seq<nat>, dev: int, block: int, size: nat): Option<nat> {
    if chain == [] then None
    else if chain[0] in bufs && Wanted(bufs[chain[0]], dev, block, size) then Some(chain[0])
    else Lookup(bufs, chain[1..], dev, block, size)
  }

  // init_buffer and what getblk sets after it.
  function Claimed(b: Buf, dev: int, block: int): Buf {
    b.(dev := dev, block := block, list := BUF_CLEAN, count := 1, locked := false, dirty := false, protected := false)
  }

  // A free buffer becomes the one for this block.
  function Claim(h: Hash, c: Cache, x: nat, dev: int, block: int, size: nat): Cache
    requires x in c.bufs
  {
    var c1 := FreeRemove(c, x, FreeList(size));
    var b := Claimed(c.bufs[x], dev, block);
    var c2 := HashLink(h, c1.(bufs := c1.bufs[x := b]), x);
    LruInsert(c2, x, b.list)
  }

  // One round of getblk; without a buffer it refills the free list and starts over.
  function GetBlk(h: Hash, c: Cache, dev: int, block: int, size: nat): (Cache, Option<nat>) {
    var hit := Lookup(c.bufs, At(c.chains, h(dev, block)), dev, block, size);
    var free := At(c.lists, FreeList(size));
    if hit.Some? && hit.value in c.bufs then
      (c.(bufs := c.bufs[hit.value := c.bufs[hit.value].(count := c.bufs[hit.value].count + 1)]), hit)
    else if free == [] || free[0] !in c.bufs then (c, None)
    else (Claim(h, c, free[0], dev, block, size), Some(free[0]))
  }

  function Dispose(b: Buf): nat {
    if b.protected then BUF_PROTECTED else if b.dirty then BUF_DIRTY else if b.locked then BUF_LOCKED else BUF_CLEAN
  }

  function Refile(c: Cache, x: nat): Cache
    requires x in c.bufs
  {
    var to := Dispose(c.bufs[x]);
    if to == c.bufs[x].list then c
    else
      var c1 := LruRemove(c, x, c.bufs[x].list);
      LruInsert(c1.(bufs := c1.bufs[x := c1.bufs[x].(list := to)]), x, to)
  }

  function Bforget(h: Hash, c: Cache, x: nat): Cache
    requires x in c.bufs && c.bufs[x].count > 0
  {
    var c1 := c.(bufs := c.bufs[x := c.bufs[x].(count := c.bufs[x].count - 1)]);
    if c1.bufs[x].count > 0 || c1.bufs[x].locked then c1
    else PutLastFree(LruRemove(HashUnlink(h, c1, x), x, c.bufs[x].list), x)
  }

  // Locking, dirtying and protecting, which leave the lists to a later refile.
  function SetState(c: Cache, x: nat, locked: bool, dirty: bool, protected: bool): Cache
    requires x in c.bufs
  {
    c.(bufs := c.bufs[x := c.bufs[x].(locked := locked, dirty := dirty, protected := protected)])
  }

  function Brelse(c: Cache, x: nat): Cache
    requires x in c.bufs
  {
    if c.bufs[x].count > 0 then c.(bufs := c.bufs[x := c.bufs[x].(count := c.bufs[x].count - 1)]) else c
  }

  // create_buffers and grow_buffers: the new buffers come first, and the old head
  // of the free list goes last.
  function Grow(c: Cache, page: nat, ids: seq<nat>, size: nat): Cache {
    var l := FreeList(size);
    var free := At(c.lists, l);
    var b := Buf(B_FREE, 0, size, BUF_CLEAN, false, 0, false, false, false, page);
    c.(bufs := c.bufs + map x | x in ids :: b,
       lists := c.lists[l := if free == [] then ids else ids + free[1..] + [free[0]]],
       pages := c.pages[page := ids])
  }

  predicate Busy(b: Buf) {
    b.count > 0 || b.dirty || b.locked || b.protected
  }

  // Take a buffer off its queues or its free list and give back its head.
  function Discard(h: Hash, c: Cache, x: nat): Cache
    requires x in c.bufs
  {
    var b := c.bufs[x];
    var c1 := if b.dev != B_FREE then LruRemove(HashUnlink(h, c, x), x, b.list) else FreeRemove(c, x, FreeList(b.size));
    c1.(bufs := c1.bufs - {x})
  }

  function DiscardAll(h: Hash, c: Cache, ids: seq<nat>): Cache {
    if ids == [] then c
    else
      var c1 := DiscardAll(h, c, ids[..|ids| - 1]);
      var x := ids[|ids| - 1];
      if x in c1.bufs then Discard(h, c1, x) else c1
  }

  ghost predicate PageBusy(c: Cache, page: nat) {
    exists x :: x in At(c.pages, page) && x in c.bufs && Busy(c.bufs[x])
  }

  ghost function TryToFree(h: Hash, c: Cache, page: nat): Cache {
    if PageBusy(c, page) then c
    else
      var c1 := DiscardAll(h, c, At(c.pages, page));
      c1.(pages := c1.pages - {page})
  }

  // ----- lookups -----

  lemma {:induction false} LookupFinds(bufs: map<nat, Buf>, chain: seq<nat>, dev: int, block: int, size: nat)
    ensures var r := Lookup(bufs, chain, dev, block, size);
            if r.Some? then r.value in chain && r.value in bufs && Wanted(bufs[r.value], dev, block, size)
            else forall x :: x in chain && x in bufs ==> !Wanted(bufs[x], dev, block, size)
  {
    if chain != [] {
      LookupFinds(bufs, chain[1..], dev, block, size);
      assert chain == [chain[0]] + chain[1..];
    }
  }

  /** getblk's search finds exactly the hashed buffer of this device, block and size. */
  lemma LookupExact(h: Hash, c: Cache, dev: int, block: int, size: nat, x: nat)
    requires AllPlaced(h, c) && Unique(c)
    ensures Lookup(c.bufs, At(c.chains, h(dev, block)), dev, block, size) == Some(x)
       <==> x in c.bufs && c.bufs[x].hashed && Wanted(c.bufs[x], dev, block, size)
  {
    var r := Lookup(c.bufs, At(c.chains, h(dev, block)), dev, block, size);
    LookupFinds(c.bufs, At(c.chains, h(dev, block)), dev, block, size);
    assert Placed(h, c, x);
    if r.Some? {
      assert Placed(h, c, r.value);
    }
  }

  // ----- sums -----

  lemma {:induction false} TotalSame(bufs: map<nat, Buf>, bufs': map<nat, Buf>, s: seq<nat>)
    requires forall x :: x in s ==> SizeOf(bufs, x) == SizeOf(bufs', x)
    ensures Total(bufs, s) == Total(bufs', s)
  {
    if s != [] {
      TotalSame(bufs, bufs', s[1..]);
    }
  }

  lemma {:induction false} TotalAppend(bufs: map<nat, Buf>, s: seq<nat>, x: nat)
    ensures Total(bufs, s + [x]) == Total(bufs, s) + SizeOf(bufs, x)
  {
    if s == [] {
      assert s + [x] == [x];
    } else {
      assert (s + [x])[1..] == s[1..] + [x];
      TotalAppend(bufs, s[1..], x);
    }
  }

  lemma {:induction false} TotalDel(bufs: map<nat, Buf>, s: seq<nat>, x: nat)
    requires x in s
    ensures Total(bufs, Del(s, x)) == Total(bufs, s) - SizeOf(bufs, x)
  {
    if s[0] != x {
      TotalDel(bufs, s[1..], x);
      var t := [s[0]] + Del(s[1..], x);
      assert t[1..] == Del(s[1..], x);
    }
  }
}

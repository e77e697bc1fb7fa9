/**
  The buffer cache as it is updated in place, with its lists as linked rings.
 */
module BufferTable {
  import opened Lists
  import opened Options
  import opened BufferRings
  import opened BufferLinks
  import opened BufferCache
  import opened BufferCacheProofs
  import opened BufferRuns
  import opened BufferCalls

  // A listed buffer is on its own list.
  lemma OwnerHome(h: Hash, c: Cache, p: Pointers, owner: map<nat, nat>, x: nat)
    requires Core(h, c) && Represents(p, c.lists, owner) && x in c.bufs
    ensures x in owner ==> owner[x] == Home(c.bufs[x]) && x in At(c.lists, owner[x])
    ensures c.bufs[x].dev == B_FREE ==> x in At(c.lists, FreeList(c.bufs[x].size))
  {
    assert Placed(h, c, x);
    if x in owner {
      assert x in At(c.lists, owner[x]);
    }
  }

  class BufferTable {
    const h: Hash
    var bufs: map<nat, Buf>
    var chains: map<nat, seq<nat>>
    var nr: map<nat, int>
    var bytes: map<nat, int>
    var pages: map<nat, seq<nat>>
    var next: Links
    var prev: Links
    var heads: map<nat, nat>
    ghost var lists: map<nat, seq<nat>>
    ghost var owner: map<nat, nat>

    ghost function Value(): Cache
      reads this
    {
      Cache(bufs, chains, lists, nr, bytes, pages)
    }

    // The links form exactly the lists.
    ghost predicate Valid()
      reads this
    {
      Represents(Pointers(next, prev, heads), lists, owner)
    }

    constructor (h: Hash)
      ensures Valid() && this.h == h && Value() == Cache(map[], map[], map[], map[], map[], map[])
    {
      this.h := h;
      bufs, chains, nr, bytes, pages := map[], map[], map[], map[], map[];
      next, prev, heads := map[], map[], map[];
      lists, owner := map[], map[];
    }

    // ----- the rings -----

    // The code shared by __insert_into_lru_list and put_last_free.
    method LinkLast(x: nat, l: nat)
      requires Valid() && x !in owner
      modifies `next, `prev, `heads, `lists, `owner
      ensures Valid() && lists == old(lists)[l := At(old(lists), l) + [x]] && owner == old(owner)[x := l]
    {
      ghost var p := Pointers(next, prev, heads);
      AppendedRepresents(p, lists, owner, l, x);
      if l !in heads {
        heads := heads[l := x];
        prev := prev[x := x];
        next := next[x := x];
      } else {
        var first := heads[l];
        var last := prev[first];
        next := next[x := first];
        prev := prev[x := last];
        next := next[last := x];
        prev := prev[first := x];
      }
      assert Pointers(next, prev, heads) == Appended(p, l, x);
      lists := lists[l := At(lists, l) + [x]];
      owner := owner[x := l];
    }

    // The code shared by __remove_from_lru_list and __remove_from_free_list.
    method UnlinkFrom(x: nat, l: nat)
      requires Valid() && x in At(lists, l)
      modifies `next, `prev, `heads, `lists, `owner
      ensures Valid() && lists == old(lists)[l := Del(At(old(lists), l), x)] && owner == old(owner) - {x}
    {
      ghost var p := Pointers(next, prev, heads);
      RemovedRepresents(p, lists, owner, l, x);
      var a, b := prev[x], next[x];
      if b == x {
        heads := heads - {l};
      } else {
        next := next[a := b];
        prev := prev[b := a];
        if l in heads && heads[l] == x {
          heads := heads[l := b];
        }
      }
      next, prev := next - {x}, prev - {x};
      assert Pointers(next, prev, heads) == Removed(p, l, x);
      lists := lists[l := Del(At(lists, l), x)];
      owner := owner - {x};
    }

    // ----- queues -----

    method InsertLru(x: nat, l: nat)
      requires Valid() && x !in owner && x in bufs
      modifies this
      ensures Valid() && Value() == LruInsert(old(Value()), x, l) && owner == old(owner)[x := l]
    {
      LinkLast(x, l);
      nr := nr[l := Num(nr, l) + 1];
      bytes := bytes[l := Num(bytes, l) + bufs[x].size];
    }

    method RemoveLru(x: nat, l: nat)
      requires Valid() && x in bufs && (x in owner ==> owner[x] == l)
      modifies this
      ensures Valid() && Value() == LruRemove(old(Value()), x, l) && owner == old(owner) - {x}
    {
      assert x in At(lists, l) <==> x in owner.Keys && owner[x] == l;
      if x in next {
        assert x in owner.Keys;
        UnlinkFrom(x, l);
        nr := nr[l := Num(nr, l) - 1];
        bytes := bytes[l := Num(bytes, l) - bufs[x].size];
      }
    }

    method LinkHash(x: nat)
      requires x in bufs
      modifies `bufs, `chains
      ensures Value() == HashLink(h, old(Value()), x)
    {
      var b := h(bufs[x].dev, bufs[x].block);
      chains := chains[b := [x] + At(chains, b)];
      bufs := bufs[x := bufs[x].(hashed := true)];
    }

    method UnlinkHash(x: nat)
      requires x in bufs
      modifies `bufs, `chains
      ensures Value() == HashUnlink(h, old(Value()), x)
    {
      if bufs[x].hashed {
        var b := h(bufs[x].dev, bufs[x].block);
        chains := chains[b := Del(At(chains, b), x)];
        bufs := bufs[x := bufs[x].(hashed := false)];
      }
    }

    // __get_hash_table without the reference count.
    method Search(dev: int, block: int, size: nat) returns (r: Option<nat>)
      ensures r == Lookup(bufs, At(chains, h(dev, block)), dev, block, size)
    {
      var chain := At(chains, h(dev, block));
      while chain != []
        invariant Lookup(bufs, chain, dev, block, size) == Lookup(bufs, At(chains, h(dev, block)), dev, block, size)
        decreases |chain|
      {
        if chain[0] in bufs && Wanted(bufs[chain[0]], dev, block, size) {
          return Some(chain[0]);
        }
        chain := chain[1..];
      }
      return None;
    }

    // ----- the operations -----

    /** One round of getblk. */
    method GetBlock(dev: int, block: int, size: nat) returns (r: Option<nat>)
      requires Valid() && Inv(h, Value()) && dev != B_FREE && ValidSize(size)
      modifies this
      ensures Valid() && Inv(h, Value()) && (Value(), r) == GetBlk(h, old(Value()), dev, block, size)
    {
      GetBlkKeepsInv(h, Value(), dev, block, size);
      r := Search(dev, block, size);
      if r.Some? {
        LookupExact(h, Value(), dev, block, size, r.value);
        bufs := bufs[r.value := bufs[r.value].(count := bufs[r.value].count + 1)];
        return;
      }
      var l := FreeList(size);
      HeadLinks(Pointers(next, prev, heads), lists, owner, l);
      if l !in heads {
        return None;
      }
      var x := heads[l];
      HeadIsFree(h, Value(), size);
      TakeFree(x, dev, block, size);
      return Some(x);
    }

    // A free buffer becomes the one for this block.
    method TakeFree(x: nat, dev: int, block: int, size: nat)
      requires Valid() && x in bufs && x in At(lists, FreeList(size))
      modifies this
      ensures Valid() && Value() == Claim(h, old(Value()), x, dev, block, size)
    {
      UnlinkFrom(x, FreeList(size));
      bufs := bufs[x := Claimed(bufs[x], dev, block)];
      LinkHash(x);
      InsertLru(x, bufs[x].list);
    }

    // Which list the state of the buffer calls for.
    method Disposition(b: Buf) returns (to: nat)
      ensures to == Dispose(b)
    {
      to := BUF_CLEAN;
      if b.locked {
        to := BUF_LOCKED;
      }
      if b.dirty {
        to := BUF_DIRTY;
      }
      if b.protected {
        to := BUF_PROTECTED;
      }
    }

    method MoveLru(x: nat, to: nat)
      requires Valid() && x in bufs && (x in owner ==> owner[x] == bufs[x].list)
      modifies this
      ensures Valid()
      ensures to == Dispose(old(bufs)[x]) && to != old(bufs)[x].list ==> Value() == Refile(old(Value()), x)
    {
      RemoveLru(x, bufs[x].list);
      bufs := bufs[x := bufs[x].(list := to)];
      InsertLru(x, to);
    }

    method RefileBuffer(x: nat)
      requires Valid() && Inv(h, Value()) && x in bufs && bufs[x].dev != B_FREE
      modifies this
      ensures Valid() && Inv(h, Value()) && Value() == Refile(old(Value()), x)
    {
      RefileKeepsInv(h, Value(), x);
      OwnerHome(h, Value(), Pointers(next, prev, heads), owner, x);
      var to := Disposition(bufs[x]);
      if to != bufs[x].list {
        MoveLru(x, to);
      }
    }

    method ForgetBuffer(x: nat)
      requires Valid() && Inv(h, Value()) && Held(Value(), x)
      modifies this
      ensures Valid() && Inv(h, Value()) && Value() == Bforget(h, old(Value()), x)
    {
      BforgetKeepsInv(h, Value(), x);
      OwnerHome(h, Value(), Pointers(next, prev, heads), owner, x);
      var list := bufs[x].list;
      bufs := bufs[x := bufs[x].(count := bufs[x].count - 1)];
      if bufs[x].count > 0 || bufs[x].locked {
        return;
      }
      PutOnFreeList(x, list);
    }

    // Off the queues and onto the free list.
    method PutOnFreeList(x: nat, list: nat)
      requires Valid() && x in bufs && (x in owner ==> owner[x] == list)
      modifies this
      ensures Valid() && Value() == PutLastFree(LruRemove(HashUnlink(h, old(Value()), x), x, list), x)
    {
      UnlinkHash(x);
      RemoveLru(x, list);
      bufs := bufs[x := bufs[x].(dev := B_FREE, locked := false, dirty := false, protected := false)];
      LinkLast(x, FreeList(bufs[x].size));
    }

    // The body of try_to_free_buffers' second loop.
    method DiscardBuffer(x: nat)
      requires Valid() && Core(h, Value()) && x in bufs
      modifies this
      ensures Valid() && Core(h, Value()) && Value() == Discard(h, old(Value()), x)
    {
      DiscardKeepsCore(h, Value(), x);
      OwnerHome(h, Value(), Pointers(next, prev, heads), owner, x);
      if bufs[x].dev != B_FREE {
        UnlinkHash(x);
        RemoveLru(x, bufs[x].list);
      } else {
        UnlinkFrom(x, FreeList(bufs[x].size));
      }
      bufs := bufs - {x};
    }

    method AnyBusy(ids: seq<nat>) returns (busy: bool)
      ensures busy <==> exists x :: x in ids && x in bufs && Busy(bufs[x])
    {
      for i := 0 to |ids|
        invariant forall x :: x in ids[..i] && x in bufs ==> !Busy(bufs[x])
      {
        if ids[i] in bufs && Busy(bufs[ids[i]]) {
          return true;
        }
      }
      return false;
    }

    /** try_to_free_buffers without the writing out of busy pages. */
    method TryToFreeBuffers(page: nat) returns (freed: bool)
      requires Valid() && Inv(h, Value())
      modifies this
      ensures Valid() && Inv(h, Value()) && Value() == TryToFree(h, old(Value()), page)
      ensures Reclaimed(h, old(Value()), page, Value()) && (freed <==> PageIdle(old(Value()), page))
    {
      TryToFreeKeepsInv(h, Value(), page);
      ReclaimMeans(h, Value(), page);
      BusyIffNotIdle(h, Value(), page);
      var ids := At(pages, page);
      var busy := AnyBusy(ids);
      if busy {
        return false;
      }
      DiscardBuffers(ids);
      pages := pages - {page};
      return true;
    }

    method DiscardBuffers(ids: seq<nat>)
      requires Valid() && Core(h, Value())
      modifies this
      ensures Valid() && Value() == DiscardAll(h, old(Value()), ids)
    {
      var i := 0;
      while i < |ids|
        invariant 0 <= i <= |ids| && Valid() && Core(h, Value())
        invariant Value() == DiscardAll(h, old(Value()), ids[..i])
      {
        assert ids[..i + 1][..i] == ids[..i];
        if ids[i] in bufs {
          DiscardBuffer(ids[i]);
        }
        i := i + 1;
      }
      assert ids[..|ids|] == ids;
    }

    // ----- a page of new buffers -----

    // Behind the insertion point, or alone.
    method LinkAfter(x: nat, at: Option<nat>)
      requires at.Some? ==> at.value in next
      modifies `next, `prev
      ensures (next, prev) == Inserted(old(next), old(prev), at, x)
    {
      if at.Some? {
        var b := next[at.value];
        next := next[x := b];
        prev := prev[x := at.value];
        prev := prev[b := x];
        next := next[at.value := x];
      } else {
        prev := prev[x := x];
        next := next[x := x];
      }
    }

    // The loop that links the buffers of a page into a free list.
    method LinkBuffers(ids: seq<nat>, l: nat, ghost p: Pointers, ghost s: seq<nat>) returns (insertPoint: Option<nat>)
      requires p == Pointers(next, prev, heads) && Headed(p, l, s)
      requires Distinct(ids) && forall x :: x in ids ==> x !in s
      modifies `next, `prev
      ensures Working(p, next, prev, s, ids, |ids|, insertPoint)
    {
      insertPoint := if l in heads then Some(heads[l]) else None;
      var k := 0;
      WorkingStart(p, l, s, ids);
      while k < |ids|
        invariant 0 <= k <= |ids| && Working(p, next, prev, s, ids, k, insertPoint)
      {
        WorkingStep(p, next, prev, s, ids, k, insertPoint);
        LinkAfter(ids[k], insertPoint);
        insertPoint := Some(ids[k]);
        k := k + 1;
      }
    }

    method LinkPage(ids: seq<nat>, l: nat)
      requires Valid() && ids != [] && Distinct(ids) && forall x :: x in ids ==> x !in owner
      modifies `next, `prev, `heads, `lists, `owner
      ensures Valid() && lists == old(lists)[l := ids + Tail(At(old(lists), l))]
    {
      ghost var p, s := Pointers(next, prev, heads), At(lists, l);
      assert Headed(p, l, s);
      forall x | x in ids ensures x !in s {
        assert x !in At(lists, l);
      }
      var last := LinkBuffers(ids, l, p, s);
      heads := heads[l := ids[0]];
      WorkingEnd(p, lists, owner, l, ids, Pointers(next, prev, heads), last);
      lists := lists[l := ids + Tail(s)];
      owner := owner + map x | x in ids :: l;
    }

    method AddPage(page: nat, ids: seq<nat>, size: nat)
      requires Valid() && ids != [] && Distinct(ids) && forall x :: x in ids ==> x !in owner
      modifies this
      ensures Valid() && Value() == Grow(old(Value()), page, ids, size)
    {
      var l := FreeList(size);
      TailForm(ids, At(lists, l));
      LinkPage(ids, l);
      var b := Buf(B_FREE, 0, size, BUF_CLEAN, false, 0, false, false, false, page);
      bufs := bufs + map x | x in ids :: b;
      pages := pages[page := ids];
    }

    /** grow_buffers, given the heads of the buffers that the page was cut into. */
    method GrowBuffers(page: nat, ids: seq<nat>, size: nat)
      requires Valid() && Inv(h, Value()) && NewPage(Value(), page, ids, size) && ids != []
      modifies this
      ensures Valid() && Inv(h, Value()) && Value() == Grow(old(Value()), page, ids, size)
    {
      GrowKeepsInv(h, Value(), page, ids, size);
      NewNotOwned(h, Value(), Pointers(next, prev, heads), owner, ids);
      AddPage(page, ids, size);
    }
  }

  lemma NewNotOwned(h: Hash, c: Cache, p: Pointers, owner: map<nat, nat>, ids: seq<nat>)
    requires Core(h, c) && Represents(p, c.lists, owner) && forall x :: x in ids ==> x !in c.bufs
    ensures forall x :: x in ids ==> x !in owner
  {
    forall x | x in owner ensures x in c.bufs {
      assert x in At(c.lists, owner[x]);
      assert Placed(h, c, x);
    }
  }

  lemma TailForm(ids: seq<nat>, s: seq<nat>)
    ensures ids + Tail(s) == if s == [] then ids else ids + s[1..] + [s[0]]
  {
  }

  function Members(s: seq<nat>): set<nat> {
    set x | x in s
  }

  // Outside the list and the new buffers all links stay.
  ghost predicate Untouched(links: Links, links': Links, s: seq<nat>, ids: seq<nat>, k: nat)
    requires k <= |ids|
  {
    && links'.Keys == links.Keys + Members(ids[..k])
    && forall x :: x in links && x !in s && x !in ids ==> links'[x] == links[x]
  }

  ghost predicate PageElsewhere(p: Pointers, next: Links, prev: Links, s: seq<nat>, ids: seq<nat>, k: nat)
    requires k <= |ids|
  {
    Untouched(p.next, next, s, ids, k) && Untouched(p.prev, prev, s, ids, k)
  }

  lemma UntouchedStep(links: Links, links': Links, s: seq<nat>, ids: seq<nat>, k: nat, v: nat, at: nat, w: nat)
    requires k < |ids| && Untouched(links, links', s, ids, k) && at in links' && (at in s || at in ids)
    ensures Untouched(links, links'[ids[k] := v][at := w], s, ids, k + 1)
  {
    assert ids[..k + 1] == ids[..k] + [ids[k]];
    assert Members(ids[..k + 1]) == Members(ids[..k]) + {ids[k]};
  }

  lemma UntouchedFirst(links: Links, links': Links, s: seq<nat>, ids: seq<nat>, k: nat, v: nat)
    requires k < |ids| && Untouched(links, links', s, ids, k)
    ensures Untouched(links, links'[ids[k] := v], s, ids, k + 1)
  {
    assert ids[..k + 1] == ids[..k] + [ids[k]];
    assert Members(ids[..k + 1]) == Members(ids[..k]) + {ids[k]};
  }

  // The loop of grow_buffers after k buffers.
  ghost predicate Working(p: Pointers, next: Links, prev: Links, s: seq<nat>, ids: seq<nat>, k: nat, at: Option<nat>)
    requires k <= |ids|
  {
    var q := PageRing(s, ids, k);
    && Ring(next, prev, q) && PageElsewhere(p, next, prev, s, ids, k)
    && at == if q == [] then None else Some(q[0])
  }

  lemma WorkingStart(p: Pointers, l: nat, s: seq<nat>, ids: seq<nat>)
    requires Headed(p, l, s)
    ensures Working(p, p.next, p.prev, s, ids, 0, if l in p.heads then Some(p.heads[l]) else None)
  {
    assert Members(ids[..0]) == {};
  }

  lemma WorkingEnd(p: Pointers, lists: map<nat, seq<nat>>, owner: map<nat, nat>, l: nat, ids: seq<nat>, p': Pointers, at: Option<nat>)
    requires Represents(p, lists, owner) && ids != [] && forall x :: x in ids ==> x !in owner
    requires Working(p, p'.next, p'.prev, At(lists, l), ids, |ids|, at) && p'.heads == p.heads[l := ids[0]]
    ensures Represents(p', lists[l := ids + Tail(At(lists, l))], owner + map x | x in ids :: l)
  {
    PageFromFirst(p'.next, p'.prev, At(lists, l), ids);
    PageRepresents(p, lists, owner, l, ids, p');
  }

  lemma WorkingStep(p: Pointers, next: Links, prev: Links, s: seq<nat>, ids: seq<nat>, k: nat, at: Option<nat>)
    requires k < |ids| && Working(p, next, prev, s, ids, k, at) && Distinct(ids) && forall x :: x in ids ==> x !in s
    ensures at.Some? ==> at.value in next
    ensures var (next', prev') := Inserted(next, prev, at, ids[k]);
            Working(p, next', prev', s, ids, k + 1, Some(ids[k]))
  {
    PageStep(next, prev, s, ids, k);
    PageElsewhereStep(p, next, prev, s, ids, k);
  }

  lemma PageElsewhereStep(p: Pointers, next: Links, prev: Links, s: seq<nat>, ids: seq<nat>, k: nat)
    requires k < |ids| && PageElsewhere(p, next, prev, s, ids, k) && Ring(next, prev, PageRing(s, ids, k))
    requires var q := PageRing(s, ids, k); q != [] ==> q[0] in next && next[q[0]] in q
    ensures var q := PageRing(s, ids, k); var at := if q == [] then None else Some(q[0]);
            var (next', prev') := Inserted(next, prev, at, ids[k]);
            PageElsewhere(p, next', prev', s, ids, k + 1)
  {
    var q, x := PageRing(s, ids, k), ids[k];
    if q != [] {
      var b := next[q[0]];
      assert LinkedAt(next, prev, q, 0);
      PageRingMembers(s, ids, k, q[0]);
      PageRingMembers(s, ids, k, b);
      UntouchedStep(p.next, next, s, ids, k, b, q[0], x);
      UntouchedStep(p.prev, prev, s, ids, k, q[0], b, x);
    } else {
      UntouchedFirst(p.next, next, s, ids, k, x);
      UntouchedFirst(p.prev, prev, s, ids, k, x);
    }
  }

  lemma GrowKeepsInv(h: Hash, c: Cache, page: nat, ids: seq<nat>, size: nat)
    requires Inv(h, c) && NewPage(c, page, ids, size)
    ensures Inv(h, Grow(c, page, ids, size))
  {
    GrowKeepsCore(h, c, page, ids, size);
    GrowKeepsPaged(c, page, ids, size);
  }

  lemma PageRepresents(p: Pointers, lists: map<nat, seq<nat>>, owner: map<nat, nat>, l: nat, ids: seq<nat>, p': Pointers)
    requires Represents(p, lists, owner) && ids != [] && forall x :: x in ids ==> x !in owner
    requires PageElsewhere(p, p'.next, p'.prev, At(lists, l), ids, |ids|)
    requires Ring(p'.next, p'.prev, ids + Tail(At(lists, l))) && p'.heads == p.heads[l := ids[0]]
    ensures Represents(p', lists[l := ids + Tail(At(lists, l))], owner + map x | x in ids :: l)
  {
    var s := At(lists, l);
    var owner' := owner + map x | x in ids :: l;
    var touched := (set x | x in s) + (set x | x in ids);
    assert ids[..|ids|] == ids;
    forall x ensures x in ids + Tail(s) <==> x in owner' && owner'[x] == l {
      assert x in At(lists, l) <==> x in s;
      assert s != [] ==> s == [s[0]] + s[1..];
    }
    forall x | x in touched ensures x !in owner || owner[x] == l {
      assert x in At(lists, l) <==> x in s;
    }
    Changed(p, p', lists, owner, owner', l, ids + Tail(s), touched);
  }
}

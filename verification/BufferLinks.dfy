/**
  Several rings over one pair of link fields, each with its head.
 */
module BufferLinks {
  import opened Lists
  import opened Options
  import opened BufferRings
  import opened BufferCache

  // Heads that are not there are null.
  datatype Pointers = Pointers(next: Links, prev: Links, heads: map<nat, nat>)

  ghost predicate Headed(p: Pointers, l: nat, s: seq<nat>) {
    && Ring(p.next, p.prev, s)
    && if s == [] then l !in p.heads else l in p.heads && p.heads[l] == s[0]
  }

  // `owner` says which list a buffer is on; exactly those have links.
  ghost predicate Owned(p: Pointers, lists: map<nat, seq<nat>>, owner: map<nat, nat>) {
    && (forall x, l: nat {:trigger x in At(lists, l)} :: x in At(lists, l) <==> x in owner && owner[x] == l)
    && owner.Keys == p.next.Keys && owner.Keys == p.prev.Keys
  }

  /** The pointers form one ring per list, and no buffer is on two of them. */
  ghost predicate Represents(p: Pointers, lists: map<nat, seq<nat>>, owner: map<nat, nat>) {
    && Owned(p, lists, owner)
    && forall l: nat {:trigger At(lists, l)} :: Headed(p, l, At(lists, l))
  }

  // What a change to one list leaves alone.
  ghost predicate Elsewhere(p: Pointers, p': Pointers, l: nat, touched: set<nat>) {
    && (forall x :: x !in touched && x in p.next ==> x in p'.next && p'.next[x] == p.next[x])
    && (forall x :: x !in touched && x in p.prev ==> x in p'.prev && p'.prev[x] == p.prev[x])
    && (forall m :: m != l ==> (m in p'.heads <==> m in p.heads) && (m in p.heads ==> p'.heads[m] == p.heads[m]))
  }

  lemma OthersStay(p: Pointers, p': Pointers, lists: map<nat, seq<nat>>, owner: map<nat, nat>, l: nat, m: nat, touched: set<nat>)
    requires Represents(p, lists, owner) && Elsewhere(p, p', l, touched) && m != l
    requires forall x :: x in touched ==> x !in owner || owner[x] == l
    ensures Headed(p', m, At(lists, m))
  {
    var s := At(lists, m);
    assert Headed(p, m, s);
    forall x | x in s ensures x !in touched {
      assert x in At(lists, m);
    }
    RingFrame(p.next, p.prev, p'.next, p'.prev, s);
  }

  lemma Changed(p: Pointers, p': Pointers, lists: map<nat, seq<nat>>, owner: map<nat, nat>, owner': map<nat, nat>,
                l: nat, s: seq<nat>, touched: set<nat>)
    requires Represents(p, lists, owner) && Elsewhere(p, p', l, touched) && Headed(p', l, s)
    requires forall x :: x in touched ==> x !in owner || owner[x] == l
    requires owner'.Keys == p'.next.Keys && owner'.Keys == p'.prev.Keys
    requires forall x :: x in owner' && owner'[x] != l ==> x in owner && owner[x] == owner'[x]
    requires forall x :: x in owner && owner[x] != l ==> x in owner' && owner'[x] == owner[x]
    requires forall x :: x in s <==> x in owner' && owner'[x] == l
    ensures Represents(p', lists[l := s], owner')
  {
    var lists' := lists[l := s];
    forall m: nat {:trigger At(lists', m)} ensures Headed(p', m, At(lists', m)) {
      if m != l {
        assert At(lists', m) == At(lists, m);
        OthersStay(p, p', lists, owner, l, m, touched);
      }
    }
    forall x, m: nat {:trigger x in At(lists', m)} ensures x in At(lists', m) <==> x in owner' && owner'[x] == m {
      if m != l {
        assert x in At(lists', m) <==> x in At(lists, m);
      }
    }
  }

  // ----- at the tail -----

  function Appended(p: Pointers, l: nat, x: nat): Pointers
    requires l in p.heads ==> p.heads[l] in p.prev && p.prev[p.heads[l]] in p.next
  {
    if l !in p.heads then Pointers(p.next[x := x], p.prev[x := x], p.heads[l := x])
    else
      var first := p.heads[l];
      var last := p.prev[first];
      Pointers(p.next[x := first][last := x], p.prev[x := last][first := x], p.heads)
  }

  lemma HeadLinks(p: Pointers, lists: map<nat, seq<nat>>, owner: map<nat, nat>, l: nat)
    requires Represents(p, lists, owner)
    ensures At(lists, l) == [] <==> l !in p.heads
    ensures l in p.heads ==> p.heads[l] == At(lists, l)[0] && p.heads[l] in p.prev && p.prev[p.heads[l]] in p.next
    ensures l in p.heads ==> p.prev[p.heads[l]] == At(lists, l)[|At(lists, l)| - 1]
  {
    var s := At(lists, l);
    assert Headed(p, l, s);
    if s != [] {
      assert LinkedAt(p.next, p.prev, s, |s| - 1);
      assert After(|s| - 1, |s|) == 0;
    }
  }

  lemma AppendedHeaded(p: Pointers, lists: map<nat, seq<nat>>, owner: map<nat, nat>, l: nat, x: nat)
    requires Represents(p, lists, owner) && x !in owner
    requires l in p.heads ==> p.heads[l] in p.prev && p.prev[p.heads[l]] in p.next
    ensures Headed(Appended(p, l, x), l, At(lists, l) + [x])
  {
    var s := At(lists, l);
    HeadLinks(p, lists, owner, l);
    assert Headed(p, l, s);
    if s == [] {
      RingAlone(x, p.next, p.prev);
      assert s + [x] == [x];
    } else {
      assert x !in At(lists, l);
      RingAppend(p.next, p.prev, s, x);
    }
  }

  /** Linking in before the head appends to the list. */
  lemma AppendedRepresents(p: Pointers, lists: map<nat, seq<nat>>, owner: map<nat, nat>, l: nat, x: nat)
    requires Represents(p, lists, owner) && x !in owner
    ensures l in p.heads ==> p.heads[l] in p.prev && p.prev[p.heads[l]] in p.next
    ensures Represents(Appended(p, l, x), lists[l := At(lists, l) + [x]], owner[x := l])
  {
    HeadLinks(p, lists, owner, l);
    AppendedHeaded(p, lists, owner, l, x);
    var p', s := Appended(p, l, x), At(lists, l);
    var touched := {x} + if s == [] then {} else {s[0], s[|s| - 1]};
    forall y | y in touched ensures y !in owner || owner[y] == l {
      assert y in s ==> y in At(lists, l);
    }
    assert forall y :: y in s <==> y in At(lists, l);
    KeysMatch(p, p', lists, owner, owner[x := l], x, l);
    Changed(p, p', lists, owner, owner[x := l], l, s + [x], touched);
  }

  lemma KeysMatch(p: Pointers, p': Pointers, lists: map<nat, seq<nat>>, owner: map<nat, nat>, owner': map<nat, nat>, x: nat, l: nat)
    requires Owned(p, lists, owner) && owner' == owner[x := l]
    requires p'.next.Keys == p.next.Keys + {x} && p'.prev.Keys == p.prev.Keys + {x}
    ensures owner'.Keys == p'.next.Keys && owner'.Keys == p'.prev.Keys
  {
  }

  // ----- out of the list -----

  // Link x's neighbours to each other.
  function Bypassed(p: Pointers, x: nat): Pointers
    requires x in p.prev && x in p.next
  {
    var a, b := p.prev[x], p.next[x];
    p.(next := p.next[a := b] - {x}, prev := p.prev[b := a] - {x})
  }

  function Removed(p: Pointers, l: nat, x: nat): Pointers
    requires x in p.prev && x in p.next
  {
    if p.next[x] == x then p.(next := p.next - {x}, prev := p.prev - {x}, heads := p.heads - {l})
    else
      var q := Bypassed(p, x);
      if l in p.heads && p.heads[l] == x then q.(heads := p.heads[l := p.next[x]]) else q
  }

  lemma InLinks(p: Pointers, lists: map<nat, seq<nat>>, owner: map<nat, nat>, l: nat, x: nat)
    requires Represents(p, lists, owner) && x in At(lists, l)
    ensures x in owner && owner[x] == l && x in p.next && x in p.prev
  {
    assert x in owner.Keys;
  }

  lemma RemovedHeaded(p: Pointers, lists: map<nat, seq<nat>>, owner: map<nat, nat>, l: nat, x: nat)
    requires Represents(p, lists, owner) && x in At(lists, l) && x in p.next && x in p.prev
    ensures Headed(Removed(p, l, x), l, Del(At(lists, l), x))
  {
    var s := At(lists, l);
    assert Headed(p, l, s);
    var i := IndexOf(s, x);
    assert LinkedAt(p.next, p.prev, s, i);
    DelIndex(s, i);
    if |s| == 1 {
      assert Del(s, x) == [];
    } else {
      assert s[After(i, |s|)] != s[i];
      RingRemove(p.next, p.prev, s, i);
    }
  }

  // The neighbours are on the same list.
  lemma RemovedElsewhere(p: Pointers, lists: map<nat, seq<nat>>, owner: map<nat, nat>, l: nat, x: nat)
    requires Represents(p, lists, owner) && x in At(lists, l) && x in p.next && x in p.prev
    ensures Elsewhere(p, Removed(p, l, x), l, {x, p.next[x], p.prev[x]})
    ensures p.next[x] in At(lists, l) && p.prev[x] in At(lists, l)
    ensures Removed(p, l, x).next.Keys == p.next.Keys - {x} && Removed(p, l, x).prev.Keys == p.prev.Keys - {x}
  {
    var s := At(lists, l);
    assert Headed(p, l, s);
    var i := IndexOf(s, x);
    assert LinkedAt(p.next, p.prev, s, i) && LinkedAt(p.next, p.prev, s, Before(i, |s|));
    assert After(Before(i, |s|), |s|) == i;
  }

  /** Taking out of the ring deletes from the list. */
  lemma RemovedRepresents(p: Pointers, lists: map<nat, seq<nat>>, owner: map<nat, nat>, l: nat, x: nat)
    requires Represents(p, lists, owner) && x in At(lists, l)
    ensures x in p.next && x in p.prev
    ensures Represents(Removed(p, l, x), lists[l := Del(At(lists, l), x)], owner - {x})
  {
    var s := At(lists, l);
    InLinks(p, lists, owner, l, x);
    RemovedHeaded(p, lists, owner, l, x);
    RemovedElsewhere(p, lists, owner, l, x);
    assert Headed(p, l, s);
    DelFacts(s, x);
    assert (owner - {x}).Keys == owner.Keys - {x};
    forall y ensures y in Del(s, x) <==> y in owner - {x} && (owner - {x})[y] == l {
      assert y in At(lists, l) <==> y in s;
    }
    Changed(p, Removed(p, l, x), lists, owner, owner - {x}, l, Del(s, x), {x, p.next[x], p.prev[x]});
  }

  // ----- a page of new buffers -----

  // What follows the new buffers: the old list, its head last.
  function Tail(s: seq<nat>): seq<nat> {
    if s == [] then [] else s[1..] + [s[0]]
  }

  // The ring after k buffers, seen from the one put in last.
  function PageRing(s: seq<nat>, ids: seq<nat>, k: nat): seq<nat>
    requires k <= |ids|
  {
    if k == 0 then s else [ids[k - 1]] + Tail(s) + ids[..k - 1]
  }

  lemma PageRingMembers(s: seq<nat>, ids: seq<nat>, k: nat, x: nat)
    requires k <= |ids|
    ensures x in PageRing(s, ids, k) <==> x in s || x in ids[..k]
  {
    if k > 0 {
      TailMembers(s, x);
      assert ids[..k] == ids[..k - 1] + [ids[k - 1]];
    }
  }

  lemma TailMembers(s: seq<nat>, x: nat)
    ensures x in Tail(s) <==> x in s
  {
    if s != [] {
      assert s == [s[0]] + s[1..];
    }
  }

  // Put x in after p, or alone.
  function Inserted(next: Links, prev: Links, p: Option<nat>, x: nat): (Links, Links)
    requires p.Some? ==> p.value in next
  {
    if p.None? then (next[x := x], prev[x := x])
    else
      var b := next[p.value];
      (next[x := b][p.value := x], prev[x := p.value][b := x])
  }

  lemma PageStep(next: Links, prev: Links, s: seq<nat>, ids: seq<nat>, k: nat)
    requires k < |ids| && Distinct(ids) && (forall x :: x in ids ==> x !in s) && Ring(next, prev, PageRing(s, ids, k))
    ensures var q := PageRing(s, ids, k); var p := if q == [] then None else Some(q[0]);
            && (p.Some? ==> p.value in next && next[p.value] in q)
            && var (next', prev') := Inserted(next, prev, p, ids[k]);
               Ring(next', prev', PageRing(s, ids, k + 1))
  {
    var q, x := PageRing(s, ids, k), ids[k];
    assert x !in ids[..k];
    PageRingMembers(s, ids, k, x);
    if q == [] {
      RingAlone(x, next, prev);
      assert PageRing(s, ids, k + 1) == [x];
    } else {
      RingInsertAfter(next, prev, q, x);
      var t := [q[0], x] + q[1..];
      var (next', prev') := Inserted(next, prev, Some(q[0]), x);
      RingRotate(next', prev', t);
      assert t[1..] + [t[0]] == [x] + q[1..] + [q[0]];
      PageRingNext(s, ids, k);
    }
  }

  lemma PageRingNext(s: seq<nat>, ids: seq<nat>, k: nat)
    requires k < |ids| && PageRing(s, ids, k) != []
    ensures var q := PageRing(s, ids, k); PageRing(s, ids, k + 1) == [ids[k]] + q[1..] + [q[0]]
  {
    var q := PageRing(s, ids, k);
    if k > 0 {
      assert q[1..] == Tail(s) + ids[..k - 1];
      assert ids[..k - 1] + [ids[k - 1]] == ids[..k];
      assert [ids[k]] + (Tail(s) + ids[..k - 1]) + [ids[k - 1]] == [ids[k]] + Tail(s) + ids[..k];
    } else {
      assert [ids[k]] + s[1..] + [s[0]] == [ids[k]] + Tail(s) + ids[..k];
    }
  }

  lemma {:induction false} RingRotateBy(next: Links, prev: Links, s: seq<nat>, k: nat)
    requires Ring(next, prev, s) && k <= |s|
    ensures Ring(next, prev, s[k..] + s[..k])
    decreases k
  {
    if k == 0 {
      assert s[0..] + s[..0] == s;
    } else {
      RingRotateBy(next, prev, s, k - 1);
      var t := s[k - 1..] + s[..k - 1];
      RingRotate(next, prev, t);
      assert t[1..] + [t[0]] == s[k..] + s[..k];
    }
  }

  // Seen from the first new buffer.
  lemma PageFromFirst(next: Links, prev: Links, s: seq<nat>, ids: seq<nat>)
    requires ids != [] && Ring(next, prev, PageRing(s, ids, |ids|))
    ensures Ring(next, prev, ids + Tail(s))
  {
    var n := |ids|;
    var r := PageRing(s, ids, n);
    var k := 1 + |Tail(s)|;
    RingRotateBy(next, prev, r, k);
    assert r[k..] == ids[..n - 1];
    assert r[..k] == [ids[n - 1]] + Tail(s);
    assert ids[..n - 1] + ([ids[n - 1]] + Tail(s)) == ids + Tail(s);
  }
}

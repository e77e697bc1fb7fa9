/**
  The circular doubly linked lists of buffer heads.  All lists share one pair of
  link fields, so a buffer is on at most one of them.
 */
module BufferRings {
  import opened Lists

  // Links that are not there are null.
  type Links = map<nat, nat>

  function After(i: nat, n: nat): nat {
    if i + 1 >= n then 0 else i + 1
  }

  function Before(i: nat, n: nat): nat
    requires n > 0
  {
    if i == 0 then n - 1 else i - 1
  }

  // x and y are linked both ways.
  predicate Linked(next: Links, prev: Links, x: nat, y: nat) {
    x in next && next[x] == y && y in prev && prev[y] == x
  }

  // Element i and the one after it; after the last comes the first.
  predicate LinkedAt(next: Links, prev: Links, s: seq<nat>, i: nat)
    requires i < |s|
  {
    Linked(next, prev, s[i], s[After(i, |s|)])
  }

  ghost predicate Ring(next: Links, prev: Links, s: seq<nat>) {
    Distinct(s) && forall i: nat {:trigger LinkedAt(next, prev, s, i)} :: i < |s| ==> LinkedAt(next, prev, s, i)
  }

  // ----- linking in -----

  // Put x after the last element.
  lemma RingAppend(next: Links, prev: Links, s: seq<nat>, x: nat)
    requires Ring(next, prev, s) && s != [] && x !in s
    ensures var last := s[|s| - 1];
            && last in next && s[0] in prev && prev[s[0]] == last
            && Ring(next[x := s[0]][last := x], prev[x := last][s[0] := x], s + [x])
  {
    var n := |s|;
    var last := s[n - 1];
    assert LinkedAt(next, prev, s, n - 1);
    var next', prev', s' := next[x := s[0]][last := x], prev[x := last][s[0] := x], s + [x];
    forall i: nat {:trigger LinkedAt(next', prev', s', i)} | i < n + 1 ensures LinkedAt(next', prev', s', i) {
      if i < n - 1 {
        assert LinkedAt(next, prev, s, i);
      }
    }
  }

  lemma RingAlone(x: nat, next: Links, prev: Links)
    ensures Ring(next[x := x], prev[x := x], [x])
  {
  }

  // ----- taking out -----

  lemma {:induction false} DelIndex(s: seq<nat>, i: nat)
    requires Distinct(s) && i < |s|
    ensures Del(s, s[i]) == s[..i] + s[i + 1..]
  {
    if i > 0 {
      DelIndex(s[1..], i - 1);
      assert s[1..][..i - 1] == s[1..i];
      assert s[1..][i..] == s[i + 1..];
      assert [s[0]] + (s[1..i] + s[i + 1..]) == s[..i] + s[i + 1..];
    }
  }

  // Where element j of the shorter ring stood in the longer one.
  function Source(i: nat, j: nat): nat {
    if j < i then j else j + 1
  }

  // One link of the shorter ring: an old one, or the one around the gap.
  lemma RemovedLink(next: Links, prev: Links, s: seq<nat>, i: nat, j: nat)
    requires Ring(next, prev, s) && i < |s| && |s| > 1 && j < |s| - 1
    ensures var t := s[..i] + s[i + 1..]; var a, b := s[Before(i, |s|)], s[After(i, |s|)];
            LinkedAt(next[a := b] - {s[i]}, prev[b := a] - {s[i]}, t, j)
  {
    var n := |s|;
    var t := s[..i] + s[i + 1..];
    assert t[j] == s[Source(i, j)] && t[After(j, n - 1)] == s[Source(i, After(j, n - 1))];
    assert LinkedAt(next, prev, s, Source(i, j));
    if Source(i, j) != Before(i, n) {
      assert After(Source(i, j), n) == Source(i, After(j, n - 1));
    }
  }

  lemma RingRemove(next: Links, prev: Links, s: seq<nat>, i: nat)
    requires Ring(next, prev, s) && i < |s| && |s| > 1
    ensures var x := s[i]; var a, b := s[Before(i, |s|)], s[After(i, |s|)];
            && Linked(next, prev, a, x) && Linked(next, prev, x, b) && a != x && b != x
            && Ring(next[a := b] - {x}, prev[b := a] - {x}, Del(s, x))
  {
    var n := |s|;
    var x := s[i];
    assert LinkedAt(next, prev, s, Before(i, n)) && LinkedAt(next, prev, s, i);
    var a, b := s[Before(i, n)], s[After(i, n)];
    DelIndex(s, i);
    DelFacts(s, x);
    var t := Del(s, x);
    var next', prev' := next[a := b] - {x}, prev[b := a] - {x};
    forall j: nat {:trigger LinkedAt(next', prev', t, j)} | j < n - 1 ensures LinkedAt(next', prev', t, j) {
      RemovedLink(next, prev, s, i, j);
    }
  }

  // ----- putting a page in -----

  // Put x between the head and the element after it.
  lemma RingInsertAfter(next: Links, prev: Links, s: seq<nat>, x: nat)
    requires Ring(next, prev, s) && s != [] && x !in s
    ensures var p, b := s[0], s[After(0, |s|)];
            && Linked(next, prev, p, b)
            && Ring(next[x := b][p := x], prev[x := p][b := x], [p, x] + s[1..])
  {
    var n := |s|;
    var p, b := s[0], s[After(0, n)];
    assert LinkedAt(next, prev, s, 0);
    var next', prev', t := next[x := b][p := x], prev[x := p][b := x], [p, x] + s[1..];
    forall i: nat {:trigger LinkedAt(next', prev', t, i)} | i < n + 1 ensures LinkedAt(next', prev', t, i) {
      if i >= 2 {
        assert t[i] == s[i - 1] && t[After(i, n + 1)] == s[After(i - 1, n)];
        assert LinkedAt(next, prev, s, i - 1);
      }
    }
    DistinctInsert(s, x);
  }

  lemma DistinctInsert(s: seq<nat>, x: nat)
    requires Distinct(s) && s != [] && x !in s
    ensures Distinct([s[0], x] + s[1..])
  {
    var t := [s[0], x] + s[1..];
    forall i, j | 0 <= i < j < |t| ensures t[i] != t[j] {
      if j >= 2 {
        assert t[j] == s[j - 1] && s[j - 1] in s;
      }
    }
  }

  // Any element can be the head.
  lemma RingRotate(next: Links, prev: Links, s: seq<nat>)
    requires Ring(next, prev, s) && s != []
    ensures Ring(next, prev, s[1..] + [s[0]])
  {
    var n := |s|;
    var t := s[1..] + [s[0]];
    forall i: nat {:trigger LinkedAt(next, prev, t, i)} | i < n ensures LinkedAt(next, prev, t, i) {
      assert t[i] == s[After(i, n)] && t[After(i, n)] == s[After(After(i, n), n)];
      assert LinkedAt(next, prev, s, After(i, n));
    }
  }

  // ----- other rings -----

  lemma RingFrame(next: Links, prev: Links, next': Links, prev': Links, s: seq<nat>)
    requires Ring(next, prev, s)
    requires forall x :: x in s && x in next ==> x in next' && next'[x] == next[x]
    requires forall x :: x in s && x in prev ==> x in prev' && prev'[x] == prev[x]
    ensures Ring(next', prev', s)
  {
    forall i: nat {:trigger LinkedAt(next', prev', s, i)} | i < |s| ensures LinkedAt(next', prev', s, i) {
      assert LinkedAt(next, prev, s, i);
      assert s[i] in s && s[After(i, |s|)] in s;
    }
  }
}

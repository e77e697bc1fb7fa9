/**
  Graphs in which every node has at most one edge: the wait-for graph that
  posix_locks_deadlock walks, and the parent links of the dentry tree.
 */
module FunctionalGraph {
  import opened Options

  type Edges<T> = map<T, T>

  // The node reached from `o` after `n` edges, if there are that many.
  function Follow<T>(e: Edges<T>, o: T, n: nat): Option<T>
    decreases n
  {
    if n == 0 then Some(o) else if o in e then Follow(e, e[o], n - 1) else None
  }

  ghost predicate Reaches<T>(e: Edges<T>, o: T, c: T) {
    exists n: nat :: Follow(e, o, n) == Some(c)
  }

  ghost predicate HasCycle<T(!new)>(e: Edges<T>) {
    exists o, n: nat :: n > 0 && Follow(e, o, n) == Some(o)
  }

  function RankOf<T>(rank: map<T, nat>, o: T): nat {
    if o in rank then rank[o] else 0
  }

  // `rank` decreases along every edge.
  ghost predicate Ranks<T>(rank: map<T, nat>, e: Edges<T>) {
    forall o :: o in e ==> RankOf(rank, e[o]) < RankOf(rank, o)
  }

  ghost predicate Acyclic<T(!new)>(e: Edges<T>) {
    exists rank :: Ranks(rank, e)
  }

  lemma {:induction false} FollowDescends<T>(rank: map<T, nat>, e: Edges<T>, o: T, n: nat)
    requires Ranks(rank, e) && Follow(e, o, n).Some?
    ensures RankOf(rank, Follow(e, o, n).value) + n <= RankOf(rank, o)
    decreases n
  {
    if n > 0 {
      FollowDescends(rank, e, e[o], n - 1);
    }
  }

  lemma AcyclicHasNoCycle<T(!new)>(e: Edges<T>)
    requires Acyclic(e)
    ensures !HasCycle(e)
  {
    var rank :| Ranks(rank, e);
    forall o, n: nat | n > 0 && Follow(e, o, n).Some? ensures Follow(e, o, n) != Some(o) {
      FollowDescends(rank, e, o, n);
    }
  }

  lemma ReachesStep<T>(e: Edges<T>, o: T, c: T)
    requires o in e && o != c
    ensures Reaches(e, o, c) <==> Reaches(e, e[o], c)
  {
    if Reaches(e, o, c) {
      var n: nat :| Follow(e, o, n) == Some(c);
      assert Follow(e, e[o], n - 1) == Some(c);
    }
    if Reaches(e, e[o], c) {
      var n: nat :| Follow(e, e[o], n) == Some(c);
      assert Follow(e, o, n + 1) == Some(c);
    }
  }

  lemma ReachesSelf<T>(e: Edges<T>, o: T)
    ensures Reaches(e, o, o)
  {
    assert Follow(e, o, 0) == Some(o);
  }

  lemma ReachesNothing<T>(e: Edges<T>, o: T, c: T)
    requires o !in e && o != c
    ensures !Reaches(e, o, c)
  {
    forall n: nat ensures Follow(e, o, n) != Some(c) {}
  }

  // A walk that avoids `c` until it arrives there is also a walk of the larger graph.
  lemma {:induction false} FollowInLarger<T>(e: Edges<T>, c: T, b: T, o: T, n: nat)
    requires c !in e && Follow(e, o, n) == Some(c)
    ensures Follow(e[c := b], o, n) == Some(c)
    decreases n
  {
    if n > 0 {
      FollowInLarger(e, c, b, e[o], n - 1);
    }
  }

  // Raise every node that leads to `c` above `b`.
  lemma NewEdgeRanks<T(!new)>(e: Edges<T>, rank: map<T, nat>, c: T, b: T)
    requires Ranks(rank, e) && c !in e && !Reaches(e, b, c)
    ensures Acyclic(e[c := b])
  {
    var lift := RankOf(rank, b) + 1;
    var all := e.Keys + {c};
    var rank' := map o | o in all + rank.Keys :: if Reaches(e, o, c) then RankOf(rank, o) + lift else RankOf(rank, o);
    var e' := e[c := b];
    forall o | o in e' ensures RankOf(rank', e'[o]) < RankOf(rank', o) {
      if o == c {
        ReachesSelf(e, c);
        assert RankOf(rank', b) == RankOf(rank, b);
      } else {
        ReachesStep(e, o, c);
        var p := e[o];
        if p !in all + rank.Keys {
          ReachesNothing(e, p, c);
        }
      }
    }
    assert Ranks(rank', e');
  }

  /** A new edge closes a cycle exactly when its end already leads to its start. */
  lemma NewEdgeClosesCycle<T(!new)>(e: Edges<T>, c: T, b: T)
    requires Acyclic(e) && c !in e
    ensures Reaches(e, b, c) <==> HasCycle(e[c := b])
    ensures !Reaches(e, b, c) ==> Acyclic(e[c := b])
  {
    if Reaches(e, b, c) {
      var n: nat :| Follow(e, b, n) == Some(c);
      FollowInLarger(e, c, b, b, n);
      assert Follow(e[c := b], c, n + 1) == Some(c);
    } else {
      var rank :| Ranks(rank, e);
      NewEdgeRanks(e, rank, c, b);
      AcyclicHasNoCycle(e[c := b]);
    }
  }

  lemma FewerEdges<T(!new)>(e: Edges<T>, e': Edges<T>)
    requires Acyclic(e) && forall o :: o in e' ==> o in e && e'[o] == e[o]
    ensures Acyclic(e')
  {
    var rank :| Ranks(rank, e);
    assert Ranks(rank, e');
  }

  lemma {:induction false} FollowMono<T>(e: Edges<T>, e': Edges<T>, o: T, n: nat)
    requires Follow(e', o, n).Some? && forall x :: x in e' ==> x in e && e'[x] == e[x]
    ensures Follow(e, o, n) == Follow(e', o, n)
    decreases n
  {
    if n > 0 {
      FollowMono(e, e', e'[o], n - 1);
    }
  }

  lemma ReachesMono<T>(e: Edges<T>, e': Edges<T>, o: T, c: T)
    requires Reaches(e', o, c) && forall x :: x in e' ==> x in e && e'[x] == e[x]
    ensures Reaches(e, o, c)
  {
    var n: nat :| Follow(e', o, n) == Some(c);
    FollowMono(e, e', o, n);
  }

  // A walk through a graph with a new edge at `d` either never comes to d or
  // comes there by the old edges.
  lemma {:induction false} WalkAvoidsOrMeets<T>(e: Edges<T>, d: T, b: T, o: T, c: T, n: nat)
    requires d !in e && Follow(e[d := b], o, n) == Some(c)
    ensures Reaches(e, o, c) || Reaches(e, o, d)
    decreases n
  {
    if o == d {
      ReachesSelf(e, d);
    } else if n == 0 {
      ReachesSelf(e, o);
    } else {
      WalkAvoidsOrMeets(e, d, b, e[o], c, n - 1);
      if o != c {
        ReachesStep(e, o, c);
      } else {
        ReachesSelf(e, o);
      }
      ReachesStep(e, o, d);
    }
  }

  // The graph after two nodes exchanged their edges.
  function Exchanged<T>(e: Edges<T>, d: T, t: T): Edges<T>
    requires d in e && t in e
  {
    e[d := e[t]][t := e[d]]
  }

  lemma ExchangeKeepsAcyclic<T(!new)>(e: Edges<T>, d: T, t: T)
    requires Acyclic(e) && d in e && t in e && d != t
    requires !Reaches(e, t, d) && !Reaches(e, d, t)
    ensures Acyclic(Exchanged(e, d, t))
  {
    var e0 := e - {d, t};
    var e1 := e0[d := e[t]];
    FewerEdges(e, e0);
    ReachesStep(e, t, d);
    if Reaches(e0, e[t], d) {
      ReachesMono(e, e0, e[t], d);
    }
    NewEdgeClosesCycle(e0, d, e[t]);
    ReachesStep(e, d, t);
    if Reaches(e1, e[d], t) {
      var n: nat :| Follow(e1, e[d], n) == Some(t);
      WalkAvoidsOrMeets(e0, d, e[t], e[d], t, n);
      if Reaches(e0, e[d], t) {
        ReachesMono(e, e0, e[d], t);
      } else {
        ReachesMono(e, e0, e[d], d);
        OwnEdgeLeadsAway(e, d);
      }
    }
    NewEdgeClosesCycle(e1, t, e[d]);
    assert e1[t := e[d]] == Exchanged(e, d, t);
  }

  lemma OwnEdgeLeadsAway<T(!new)>(e: Edges<T>, d: T)
    requires Acyclic(e) && d in e
    ensures !Reaches(e, e[d], d)
  {
    AcyclicHasNoCycle(e);
    forall n: nat ensures Follow(e, e[d], n) != Some(d) {
      assert Follow(e, d, n + 1) == Follow(e, e[d], n);
    }
  }

  // A walk to t that never meets d survives the exchange.
  lemma {:induction false} WalkSurvives<T>(e: Edges<T>, d: T, t: T, o: T, n: nat)
    requires d in e && t in e && !Reaches(e, o, d) && Follow(e, o, n) == Some(t)
    ensures Reaches(Exchanged(e, d, t), o, t)
    decreases n
  {
    ReachesSelf(e, o);
    if o == t {
      ReachesSelf(Exchanged(e, d, t), t);
    } else {
      ReachesStep(e, o, d);
      WalkSurvives(e, d, t, e[o], n - 1);
      ReachesStep(Exchanged(e, d, t), o, t);
    }
  }

  lemma ExchangeClosesCycle<T(!new)>(e: Edges<T>, d: T, t: T)
    requires Acyclic(e) && d in e && t in e && d != t && e[d] != t
    requires Reaches(e, d, t)
    ensures !Acyclic(Exchanged(e, d, t))
  {
    var e' := Exchanged(e, d, t);
    ReachesStep(e, d, t);
    OwnEdgeLeadsAway(e, d);
    var n: nat :| Follow(e, e[d], n) == Some(t);
    WalkSurvives(e, d, t, e[d], n);
    var m: nat :| Follow(e', e[d], m) == Some(t);
    assert Follow(e', t, m + 1) == Some(t);
    if Acyclic(e') {
      AcyclicHasNoCycle(e');
    }
  }
}

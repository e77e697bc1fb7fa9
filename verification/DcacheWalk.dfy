/**
  The walk over all dentries below one, by child lists down and parent links up,
  that have_submounts and select_parent perform without recursion.
 */
module DcacheWalk {
  import opened FunctionalGraph
  import opened Lists
  import opened Options
  import opened Dcache

  // ----- the tree below a dentry -----

  datatype Shape = Node(id: nat, kids: seq<Shape>)

  // The child lists below t.id have this shape.
  ghost predicate Fits(ds: Tree, t: Shape) {
    && t.id in ds && |ds[t.id].subdirs| == |t.kids|
    && forall i :: 0 <= i < |t.kids| ==> t.kids[i].id == ds[t.id].subdirs[i] && Fits(ds, t.kids[i])
  }

  lemma RanksBounded(rank: map<nat, nat>) returns (bound: nat)
    ensures forall o :: RankOf(rank, o) <= bound
    decreases |rank|
  {
    if rank == map[] {
      bound := 0;
    } else {
      var o :| o in rank;
      var rest := rank - {o};
      assert rest.Keys == rank.Keys - {o};
      assert |rest.Keys| < |rank.Keys|;
      var b := RanksBounded(rest);
      bound := if rank[o] > b then rank[o] else b;
      forall x ensures RankOf(rank, x) <= bound {
        assert RankOf(rest, x) <= b;
      }
    }
  }

  lemma {:induction false} ShapeOf(ds: Tree, rank: map<nat, nat>, bound: nat, d: nat) returns (t: Shape)
    requires Linked(ds) && Ranks(rank, Up(ds)) && d in ds && forall o :: RankOf(rank, o) <= bound
    ensures t.id == d && Fits(ds, t)
    decreases bound - RankOf(rank, d), 1, 0
  {
    var kids := ShapesOf(ds, rank, bound, d, |ds[d].subdirs|);
    t := Node(d, kids);
  }

  lemma {:induction false} ShapesOf(ds: Tree, rank: map<nat, nat>, bound: nat, d: nat, n: nat) returns (ts: seq<Shape>)
    requires Linked(ds) && Ranks(rank, Up(ds)) && d in ds && n <= |ds[d].subdirs|
    requires forall o :: RankOf(rank, o) <= bound
    ensures |ts| == n && forall i :: 0 <= i < n ==> ts[i].id == ds[d].subdirs[i] && Fits(ds, ts[i])
    decreases bound - RankOf(rank, d), 0, n
  {
    if n == 0 {
      ts := [];
    } else {
      var front := ShapesOf(ds, rank, bound, d, n - 1);
      var c := ds[d].subdirs[n - 1];
      assert c in ds[d].subdirs;
      assert KidsFit(ds, d) && ChildFits(ds, d, c);
      assert c in Up(ds);
      var last := ShapeOf(ds, rank, bound, c);
      ts := front + [last];
    }
  }

  // Every dentry of a well-linked tree has such a shape below it.
  lemma ShapeExists(ds: Tree, d: nat) returns (t: Shape)
    requires Linked(ds) && d in ds
    ensures t.id == d && Fits(ds, t)
  {
    var rank :| Ranks(rank, Up(ds));
    var bound := RanksBounded(rank);
    t := ShapeOf(ds, rank, bound, d);
  }

  // ----- visiting order -----

  // The dentries below t, from child i on, each before its own children.
  function BelowFrom(kids: seq<Shape>, i: nat): seq<nat>
    requires i <= |kids|
    decreases kids, |kids| - i
  {
    if i == |kids| then [] else [kids[i].id] + BelowFrom(kids[i].kids, 0) + BelowFrom(kids, i + 1)
  }

  function Below(t: Shape): seq<nat> {
    BelowFrom(t.kids, 0)
  }

  predicate ValidPath(t: Shape, path: seq<nat>)
    decreases path
  {
    path == [] || (path[0] < |t.kids| && ValidPath(t.kids[path[0]], path[1..]))
  }

  function NodeAt(t: Shape, path: seq<nat>): Shape
    requires ValidPath(t, path)
    decreases path
  {
    if path == [] then t else NodeAt(t.kids[path[0]], path[1..])
  }

  // What is still to be visited when the walk stands at the node on `path` before
  // its child `next`.
  function Todo(t: Shape, path: seq<nat>, next: nat): seq<nat>
    requires ValidPath(t, path) && next <= |NodeAt(t, path).kids|
    decreases path
  {
    if path == [] then BelowFrom(t.kids, next)
    else Todo(t.kids[path[0]], path[1..], next) + BelowFrom(t.kids, path[0] + 1)
  }

  lemma {:induction false} PathSnoc(t: Shape, path: seq<nat>, i: nat)
    requires ValidPath(t, path) && i < |NodeAt(t, path).kids|
    ensures ValidPath(t, path + [i]) && NodeAt(t, path + [i]) == NodeAt(t, path).kids[i]
    decreases path
  {
    if path == [] {
      assert (path + [i])[1..] == [];
    } else {
      assert (path + [i])[1..] == path[1..] + [i];
      PathSnoc(t.kids[path[0]], path[1..], i);
    }
  }

  // Visit the child and go down to it.
  lemma {:induction false} Descend(t: Shape, path: seq<nat>, i: nat)
    requires ValidPath(t, path) && i < |NodeAt(t, path).kids|
    ensures ValidPath(t, path + [i])
    ensures Todo(t, path, i) == [NodeAt(t, path).kids[i].id] + Todo(t, path + [i], 0)
    decreases path
  {
    PathSnoc(t, path, i);
    if path == [] {
      assert (path + [i])[1..] == [];
    } else {
      assert (path + [i])[1..] == path[1..] + [i];
      Descend(t.kids[path[0]], path[1..], i);
    }
  }

  // All children done: go up and on to the next sibling.
  lemma {:induction false} Ascend(t: Shape, path: seq<nat>, i: nat)
    requires ValidPath(t, path) && i < |NodeAt(t, path).kids|
    ensures ValidPath(t, path + [i])
    ensures Todo(t, path + [i], |NodeAt(t, path + [i]).kids|) == Todo(t, path, i + 1)
    decreases path
  {
    PathSnoc(t, path, i);
    if path == [] {
      assert (path + [i])[1..] == [];
    } else {
      assert (path + [i])[1..] == path[1..] + [i];
      Ascend(t.kids[path[0]], path[1..], i);
    }
  }

  // Visit a child without children and stay.
  lemma Pass(t: Shape, path: seq<nat>, i: nat)
    requires ValidPath(t, path) && i < |NodeAt(t, path).kids| && NodeAt(t, path).kids[i].kids == []
    ensures Todo(t, path, i) == [NodeAt(t, path).kids[i].id] + Todo(t, path, i + 1)
  {
    PathSnoc(t, path, i);
    Descend(t, path, i);
    Ascend(t, path, i);
  }

  lemma {:induction false} NodeFits(ds: Tree, t: Shape, path: seq<nat>)
    requires Fits(ds, t) && ValidPath(t, path)
    ensures Fits(ds, NodeAt(t, path))
    decreases path
  {
    if path != [] {
      NodeFits(ds, t.kids[path[0]], path[1..]);
    }
  }

  // ----- visited means below -----

  lemma {:induction false} FollowAdd<T>(e: Edges<T>, o: T, n: nat, m: nat)
    requires Follow(e, o, n).Some?
    ensures Follow(e, o, n + m) == Follow(e, Follow(e, o, n).value, m)
    decreases n
  {
    if n > 0 {
      FollowAdd(e, e[o], n - 1, m);
    }
  }

  lemma ReachesTransitive<T>(e: Edges<T>, a: T, b: T, c: T)
    requires Reaches(e, a, b) && Reaches(e, b, c)
    ensures Reaches(e, a, c)
  {
    var n: nat :| Follow(e, a, n) == Some(b);
    var m: nat :| Follow(e, b, m) == Some(c);
    FollowAdd(e, a, n, m);
  }

  lemma {:induction false} VisitedIsBelow(ds: Tree, t: Shape, i: nat, x: nat)
    requires Linked(ds) && Fits(ds, t) && i <= |t.kids| && x in BelowFrom(t.kids, i)
    ensures exists j :: i <= j < |t.kids| && IsSubdir(ds, x, t.kids[j].id)
    decreases t.kids, |t.kids| - i
  {
    var k := t.kids[i];
    if x in BelowFrom(t.kids, i + 1) {
      VisitedIsBelow(ds, t, i + 1, x);
    } else if x == k.id {
      ReachesSelf(Up(ds), x);
    } else {
      VisitedIsBelow(ds, k, 0, x);
      var j :| 0 <= j < |k.kids| && IsSubdir(ds, x, k.kids[j].id);
      KidBelow(ds, k, j);
      ReachesTransitive(Up(ds), x, k.kids[j].id, k.id);
    }
  }

  lemma KidBelow(ds: Tree, t: Shape, j: nat)
    requires Linked(ds) && Fits(ds, t) && j < |t.kids|
    ensures t.kids[j].id in Up(ds) && Up(ds)[t.kids[j].id] == t.id && IsSubdir(ds, t.kids[j].id, t.id)
  {
    var c := t.kids[j].id;
    assert c in ds[t.id].subdirs;
    assert KidsFit(ds, t.id) && ChildFits(ds, t.id, c);
    ReachesSelf(Up(ds), t.id);
    ReachesStep(Up(ds), c, t.id);
  }

  // A child of a visited dentry is visited.
  lemma {:induction false} ChildVisited(ds: Tree, t: Shape, i: nat, y: nat, x: nat)
    requires Fits(ds, t) && i <= |t.kids| && y in BelowFrom(t.kids, i) && y in ds && x in ds[y].subdirs
    ensures x in BelowFrom(t.kids, i)
    decreases t.kids, |t.kids| - i
  {
    var k := t.kids[i];
    if y in BelowFrom(t.kids, i + 1) {
      ChildVisited(ds, t, i + 1, y, x);
    } else if y == k.id {
      var j :| 0 <= j < |ds[y].subdirs| && ds[y].subdirs[j] == x;
      KidVisited(k.kids, 0, j);
    } else {
      ChildVisited(ds, k, 0, y, x);
    }
  }

  lemma {:induction false} KidVisited(kids: seq<Shape>, i: nat, j: nat)
    requires i <= j < |kids|
    ensures kids[j].id in BelowFrom(kids, i)
    decreases j - i
  {
    if i < j {
      KidVisited(kids, i + 1, j);
    }
  }

  lemma {:induction false} BelowIsVisited(ds: Tree, t: Shape, x: nat, n: nat)
    requires Linked(ds) && Fits(ds, t) && x in ds && x != t.id && Follow(Up(ds), x, n) == Some(t.id)
    ensures x in Below(t)
    decreases n
  {
    var p := Up(ds)[x];
    assert ParentIn(ds, x) && Listed(ds, x);
    if p == t.id {
      var j :| 0 <= j < |ds[p].subdirs| && ds[p].subdirs[j] == x;
      KidVisited(t.kids, 0, j);
    } else {
      BelowIsVisited(ds, t, p, n - 1);
      ChildVisited(ds, t, 0, p, x);
    }
  }

  /** The walk visits exactly the strict descendants. */
  lemma BelowExact(ds: Tree, t: Shape, x: nat)
    requires Linked(ds) && Fits(ds, t)
    ensures x in Below(t) <==> x in ds && x != t.id && IsSubdir(ds, x, t.id)
  {
    var e := Up(ds);
    if x in Below(t) {
      VisitedIsBelow(ds, t, 0, x);
      var j :| 0 <= j < |t.kids| && IsSubdir(ds, x, t.kids[j].id);
      KidBelow(ds, t, j);
      ReachesTransitive(e, x, t.kids[j].id, t.id);
      OwnEdgeLeadsAway(e, t.kids[j].id);
      assert x != t.id;
      VisitedInTree(ds, t, 0, x);
    } else if x in ds && x != t.id && IsSubdir(ds, x, t.id) {
      var n: nat :| Follow(e, x, n) == Some(t.id);
      BelowIsVisited(ds, t, x, n);
    }
  }

  lemma {:induction false} VisitedInTree(ds: Tree, t: Shape, i: nat, x: nat)
    requires Fits(ds, t) && i <= |t.kids| && x in BelowFrom(t.kids, i)
    ensures x in ds
    decreases t.kids, |t.kids| - i
  {
    var k := t.kids[i];
    if x in BelowFrom(t.kids, i + 1) {
      VisitedInTree(ds, t, i + 1, x);
    } else if x != k.id {
      VisitedInTree(ds, k, 0, x);
    }
  }

  // ----- each once -----

  // Two siblings have no descendant in common.
  lemma SiblingsApart(ds: Tree, t: Shape, i: nat, j: nat, x: nat)
    requires Linked(ds) && Fits(ds, t) && i < j < |t.kids|
    requires IsSubdir(ds, x, t.kids[i].id)
    ensures !IsSubdir(ds, x, t.kids[j].id)
  {
    var e := Up(ds);
    var a, b := t.kids[i].id, t.kids[j].id;
    KidBelow(ds, t, i);
    KidBelow(ds, t, j);
    assert a != b by { assert KidsFit(ds, t.id); }
    if IsSubdir(ds, x, b) {
      var n: nat :| Follow(e, x, n) == Some(a);
      var m: nat :| Follow(e, x, m) == Some(b);
      if n < m {
        SiblingAbove(ds, x, a, b, t.id, n, m);
      } else if m < n {
        SiblingAbove(ds, x, b, a, t.id, m, n);
      }
    }
  }

  lemma SiblingAbove(ds: Tree, x: nat, a: nat, b: nat, p: nat, n: nat, m: nat)
    requires Acyclic(Up(ds)) && n < m && Follow(Up(ds), x, n) == Some(a)
    requires a in Up(ds) && Up(ds)[a] == p && b in Up(ds) && Up(ds)[b] == p
    ensures Follow(Up(ds), x, m) != Some(b)
  {
    var e := Up(ds);
    FollowAdd(e, x, n, m - n);
    OwnEdgeLeadsAway(e, b);
    assert Follow(e, a, m - n) == Follow(e, p, m - n - 1);
    assert !Reaches(e, p, b);
  }

  lemma {:induction false} VisitedOnce(ds: Tree, t: Shape, i: nat)
    requires Linked(ds) && Fits(ds, t) && i <= |t.kids|
    ensures Distinct(BelowFrom(t.kids, i))
    decreases t.kids, |t.kids| - i
  {
    if i < |t.kids| {
      var k := t.kids[i];
      VisitedOnce(ds, k, 0);
      VisitedOnce(ds, t, i + 1);
      BelowExact(ds, k, k.id);
      DistinctJoin([k.id], Below(k));
      forall x | x in [k.id] + Below(k) ensures x !in BelowFrom(t.kids, i + 1) {
        BelowExact(ds, k, x);
        ReachesSelf(Up(ds), k.id);
        if x in BelowFrom(t.kids, i + 1) {
          VisitedIsBelow(ds, t, i + 1, x);
          var j :| i + 1 <= j < |t.kids| && IsSubdir(ds, x, t.kids[j].id);
          SiblingsApart(ds, t, i, j, x);
        }
      }
      DistinctJoin([k.id] + Below(k), BelowFrom(t.kids, i + 1));
    }
  }
}

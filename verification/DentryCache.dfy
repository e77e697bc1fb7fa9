/**
  The dentry cache as it is updated in place: dput's loop, d_move, the rename of
  directories, and the two walks over a subtree.
 */
module DentryCache {
  import opened FunctionalGraph
  import opened Lists
  import opened Dcache
  import opened DcacheProofs
  import opened DcacheCalls
  import opened DcacheWalk

  predicate Idle(ds: Tree, x: nat) {
    x in ds && ds[x].count == 0
  }

  // The members of s that nobody uses, in order.
  function Unused(ds: Tree, s: seq<nat>): (r: seq<nat>)
    ensures forall x :: x in r <==> x in s && Idle(ds, x)
  {
    if s == [] then []
    else
      assert s == [s[0]] + s[1..];
      (if Idle(ds, s[0]) then [s[0]] else []) + Unused(ds, s[1..])
  }

  lemma {:induction false} UnusedSnoc(ds: Tree, s: seq<nat>, x: nat)
    ensures Unused(ds, s + [x]) == Unused(ds, s) + if Idle(ds, x) then [x] else []
  {
    if s == [] {
      assert s + [x] == [x];
    } else {
      assert (s + [x])[1..] == s[1..] + [x];
      assert s == [s[0]] + s[1..];
      UnusedSnoc(ds, s[1..], x);
    }
  }

  lemma {:induction false} UnusedDistinct(ds: Tree, s: seq<nat>)
    requires Distinct(s)
    ensures Distinct(Unused(ds, s))
  {
    if s != [] {
      assert s == [s[0]] + s[1..];
      UnusedDistinct(ds, s[1..]);
      forall x | x in [s[0]] ensures x !in Unused(ds, s[1..]) {
        assert x !in s[1..];
      }
      DistinctJoin([s[0]], Unused(ds, s[1..]));
    }
  }

  // The list after each of xs in turn was taken out and put at its end.
  function ToEnd(list: seq<nat>, xs: seq<nat>): (r: seq<nat>)
    decreases |xs|
  {
    if xs == [] then list
    else
      var x := xs[|xs| - 1];
      Del(ToEnd(list, xs[..|xs| - 1]), x) + [x]
  }

  lemma ToEndSnoc(list: seq<nat>, xs: seq<nat>, x: nat)
    ensures ToEnd(list, xs + [x]) == Del(ToEnd(list, xs), x) + [x]
  {
    assert (xs + [x])[..|xs|] == xs;
  }

  function DelAll(list: seq<nat>, xs: seq<nat>): seq<nat>
    decreases |xs|
  {
    if xs == [] then list else Del(DelAll(list, xs[..|xs| - 1]), xs[|xs| - 1])
  }

  /** Moving distinct entries to the end one by one leaves them there, in that order. */
  lemma {:induction false} ToEndIsTail(list: seq<nat>, xs: seq<nat>)
    requires Distinct(xs)
    ensures ToEnd(list, xs) == DelAll(list, xs) + xs
    decreases |xs|
  {
    if xs == [] {
      assert DelAll(list, xs) + xs == list;
    } else {
      var n := |xs| - 1;
      var ys, x := xs[..n], xs[n];
      ToEndIsTail(list, ys);
      DelJoin(DelAll(list, ys), ys, x);
      var left := Del(DelAll(list, ys), x);
      assert left + ys + [x] == left + xs;
    }
  }

  // The walk stands at `d`, the node on `path`, before child `next`.
  ghost predicate At(ds: Tree, t: Shape, path: seq<nat>, d: nat, next: nat) {
    && Fits(ds, t) && ValidPath(t, path) && NodeAt(t, path).id == d
    && d in ds && |NodeAt(t, path).kids| == |ds[d].subdirs| && next <= |ds[d].subdirs|
  }

  // It has seen `seen`, and what is left makes up the rest.
  ghost predicate Walk(ds: Tree, t: Shape, path: seq<nat>, d: nat, next: nat, seen: seq<nat>) {
    At(ds, t, path, d, next) && seen + Todo(t, path, next) == Below(t)
  }

  // How far the walk is from its end.
  ghost function Left(t: Shape, path: seq<nat>, next: nat): nat {
    if ValidPath(t, path) && next <= |NodeAt(t, path).kids| then |Todo(t, path, next)| else 0
  }

  lemma GoDown(ds: Tree, t: Shape, path: seq<nat>, d: nat, next: nat, seen: seq<nat>)
    requires Linked(ds) && Walk(ds, t, path, d, next, seen) && next < |ds[d].subdirs|
    ensures var c := ds[d].subdirs[next];
            && c in ds && Walk(ds, t, path + [next], c, 0, seen + [c])
            && Left(t, path + [next], 0) < Left(t, path, next)
  {
    NodeFits(ds, t, path);
    PathSnoc(t, path, next);
    Descend(t, path, next);
    assert Fits(ds, NodeAt(t, path).kids[next]);
    var c := ds[d].subdirs[next];
    assert seen + ([c] + Todo(t, path + [next], 0)) == seen + [c] + Todo(t, path + [next], 0);
  }

  lemma GoOn(ds: Tree, t: Shape, path: seq<nat>, d: nat, next: nat, seen: seq<nat>)
    requires Linked(ds) && Walk(ds, t, path, d, next, seen) && next < |ds[d].subdirs|
    requires ds[d].subdirs[next] in ds && ds[ds[d].subdirs[next]].subdirs == []
    ensures Walk(ds, t, path, d, next + 1, seen + [ds[d].subdirs[next]])
    ensures Left(t, path, next + 1) < Left(t, path, next)
  {
    NodeFits(ds, t, path);
    assert Fits(ds, NodeAt(t, path).kids[next]);
    assert NodeAt(t, path).kids[next].kids == [];
    Pass(t, path, next);
    var c := ds[d].subdirs[next];
    assert seen + ([c] + Todo(t, path, next + 1)) == seen + [c] + Todo(t, path, next + 1);
  }

  lemma PathFront(t: Shape, path: seq<nat>)
    requires ValidPath(t, path) && path != []
    ensures var n := |path| - 1;
            ValidPath(t, path[..n]) && path[n] < |NodeAt(t, path[..n]).kids|
    decreases path
  {
    var n := |path| - 1;
    if n > 0 {
      PathFront(t.kids[path[0]], path[1..]);
      assert path[..n][1..] == path[1..][..n - 1];
    }
  }

  // The node on a longer path is a child of the node one step up.
  lemma ParentOnPath(ds: Tree, t: Shape, path: seq<nat>, d: nat)
    requires Linked(ds) && d in ds && At(ds, t, path, d, |ds[d].subdirs|) && path != []
    ensures var n := |path| - 1; var p := ds[d].parent;
            && p in ds && d in ds[p].subdirs && path[n] == IndexOf(ds[p].subdirs, d)
            && At(ds, t, path[..n], p, path[n] + 1)
  {
    var n := |path| - 1;
    PathFront(t, path);
    var up := path[..n];
    assert path == up + [path[n]];
    PathSnoc(t, up, path[n]);
    NodeFits(ds, t, up);
    var p := NodeAt(t, up).id;
    assert ds[p].subdirs[path[n]] == d && d in ds[p].subdirs;
    assert KidsFit(ds, p) && ChildFits(ds, p, d);
  }

  lemma TodoUp(t: Shape, path: seq<nat>)
    requires ValidPath(t, path) && path != []
    ensures var n := |path| - 1;
            && ValidPath(t, path[..n]) && path[n] < |NodeAt(t, path[..n]).kids|
            && Todo(t, path, |NodeAt(t, path).kids|) == Todo(t, path[..n], path[n] + 1)
  {
    var n := |path| - 1;
    PathFront(t, path);
    assert path == path[..n] + [path[n]];
    Ascend(t, path[..n], path[n]);
  }

  // All children done: back at the parent, right after d.
  lemma GoUp(ds: Tree, t: Shape, path: seq<nat>, d: nat, seen: seq<nat>)
    requires Linked(ds) && d in ds && Walk(ds, t, path, d, |ds[d].subdirs|, seen) && d != t.id
    ensures ds[d].parent in ds && d in ds[ds[d].parent].subdirs && path != []
    ensures var p := ds[d].parent; var next := IndexOf(ds[p].subdirs, d) + 1;
            && Walk(ds, t, path[..|path| - 1], p, next, seen)
            && Left(t, path[..|path| - 1], next) <= Left(t, path, |ds[d].subdirs|)
  {
    TodoUp(t, path);
    ParentOnPath(ds, t, path, d);
  }

  lemma AllSeen(ds: Tree, t: Shape, path: seq<nat>, d: nat, seen: seq<nat>)
    requires Linked(ds) && d in ds && Walk(ds, t, path, d, |ds[d].subdirs|, seen) && d == t.id
    ensures seen == Below(t)
  {
    RootPath(ds, t, path);
  }

  lemma RootPath(ds: Tree, t: Shape, path: seq<nat>)
    requires Linked(ds) && Fits(ds, t) && ValidPath(t, path) && NodeAt(t, path).id == t.id
    ensures path == []
  {
    if path != [] {
      NodeBelow(ds, t, path);
      BelowExact(ds, t, t.id);
    }
  }

  lemma {:induction false} NodeBelow(ds: Tree, t: Shape, path: seq<nat>)
    requires Fits(ds, t) && ValidPath(t, path) && path != []
    ensures NodeAt(t, path).id in Below(t)
    decreases path
  {
    var k := t.kids[path[0]];
    KidVisited(t.kids, 0, path[0]);
    if path[1..] != [] {
      NodeBelow(ds, k, path[1..]);
      SubBelow(t.kids, 0, path[0], NodeAt(t, path).id);
    }
  }

  lemma {:induction false} SubBelow(kids: seq<Shape>, i: nat, j: nat, x: nat)
    requires i <= j < |kids| && x in Below(kids[j])
    ensures x in BelowFrom(kids, i)
    decreases j - i
  {
    if i < j {
      SubBelow(kids, i + 1, j, x);
    }
  }

  lemma Selected(ds: Tree, t: Shape, list: seq<nat>)
    requires Linked(ds) && Fits(ds, t)
    ensures var moved := Unused(ds, Below(t));
            && Distinct(moved) && ToEnd(list, moved) == DelAll(list, moved) + moved
            && forall x :: x in moved <==> Idle(ds, x) && x != t.id && IsSubdir(ds, x, t.id)
  {
    forall x ensures x in Below(t) <==> x in ds && x != t.id && IsSubdir(ds, x, t.id) {
      BelowExact(ds, t, x);
    }
    VisitedOnce(ds, t, 0);
    UnusedDistinct(ds, Below(t));
    ToEndIsTail(list, Unused(ds, Below(t)));
  }

  // There is a mount point at the dentry or below it.
  ghost predicate MountedBelow(ds: Tree, mounted: set<nat>, root: nat) {
    exists x :: x in mounted && x in ds && IsSubdir(ds, x, root)
  }

  lemma RootMounted(ds: Tree, mounted: set<nat>, root: nat)
    requires root in ds && root in mounted
    ensures MountedBelow(ds, mounted, root)
  {
    ReachesSelf(Up(ds), root);
  }

  lemma SeenBelow(ds: Tree, t: Shape, path: seq<nat>, d: nat, next: nat, seen: seq<nat>)
    requires Walk(ds, t, path, d, next, seen) && seen != []
    ensures seen[|seen| - 1] in Below(t)
  {
    assert (seen + Todo(t, path, next))[|seen| - 1] == seen[|seen| - 1];
  }

  lemma MountFound(ds: Tree, t: Shape, x: nat, mounted: set<nat>)
    requires Linked(ds) && Fits(ds, t) && x in Below(t) && x in mounted
    ensures MountedBelow(ds, mounted, t.id)
  {
    BelowExact(ds, t, x);
  }

  ghost predicate NoneIn(seen: seq<nat>, mounted: set<nat>) {
    forall x :: x in seen ==> x !in mounted
  }

  lemma NoneMore(seen: seq<nat>, c: nat, mounted: set<nat>)
    requires NoneIn(seen, mounted) && c !in mounted
    ensures NoneIn(seen + [c], mounted)
  {
  }

  lemma NoneBelow(ds: Tree, t: Shape, mounted: set<nat>)
    requires Linked(ds) && Fits(ds, t) && NoneIn(Below(t), mounted) && t.id !in mounted
    ensures !MountedBelow(ds, mounted, t.id)
  {
    forall x | x in mounted && x in ds ensures !IsSubdir(ds, x, t.id) {
      BelowExact(ds, t, x);
    }
  }

  // The walk has seen `seen`, and dealt with the unused dentries among them.
  ghost predicate Progress(ds: Tree, seen: seq<nat>, moved: seq<nat>, found: nat, list: seq<nat>, unused: seq<nat>) {
    moved == Unused(ds, seen) && found == |moved| && unused == ToEnd(list, moved)
  }

  class DentryCache {
    var ds: Tree
    var unused: seq<nat>

    constructor ()
      ensures ds == map[] && unused == []
    {
      ds, unused := map[], [];
    }

    /** is_subdir finds the ancestor exactly when there is one. */
    method FindAbove(a: nat, b: nat) returns (r: bool)
      requires Linked(ds) && a in ds
      ensures r <==> IsSubdir(ds, a, b)
    {
      ghost var rank :| Ranks(rank, Up(ds));
      var x := a;
      while x != b
        invariant x in ds && (IsSubdir(ds, a, b) <==> IsSubdir(ds, x, b))
        decreases RankOf(rank, x)
      {
        var parent := ds[x].parent;
        assert ParentIn(ds, x);
        if parent == x {
          ReachesNothing(Up(ds), x, b);
          return false;
        }
        ReachesStep(Up(ds), x, b);
        assert x in Up(ds);
        x := parent;
      }
      ReachesSelf(Up(ds), b);
      return true;
    }

    /** d_move: the two dentries trade places, nothing else changes, and the tree survives
        exactly when the target is not above the dentry. */
    method Move(d: nat, t: nat)
      requires Closed(ds) && d in ds && t in ds && d != t
      modifies `ds
      ensures ds == DMove(old(ds), d, t) && Moved(old(ds), ds, d, t)
      ensures WellFormed(old(ds)) && old(ds)[d].parent != d && old(ds)[t].parent != t && !IsSubdir(old(ds), t, d) ==>
                (WellFormed(ds) <==> !IsSubdir(old(ds), d, t))
    {
      DMoveMoves(ds, d, t);
      if WellFormed(ds) && ds[d].parent != d && ds[t].parent != t && !IsSubdir(ds, t, d) {
        DMoveKeepsTreeIff(ds, d, t);
      }
      assert ParentIn(ds, d) && ParentIn(ds, t);
      var pd, pt := ds[d].parent, ds[t].parent;
      ds := Unlink(ds, pd, d);
      ds := Unlink(ds, pt, t);
      ds := Switch(ds, d, t);
      ds := Link(ds, pd, t);
      ds := Link(ds, pt, d);
    }

    method Rename(d: nat, t: nat, positive: bool, failed: bool) returns (moved: bool)
      requires WellFormed(ds) && d in ds && t in ds
      modifies `ds
      ensures ds == RenameDir(old(ds), d, t, positive, failed)
      ensures moved <==> !failed && !IsSubdir(old(ds), t, d)
      ensures Renamed(old(ds), d, t, positive, failed, ds)
    {
      RenameMeans(ds, d, t, positive, failed);
      var above := FindAbove(t, d);
      if above {
        return false;
      }
      ReachesSelf(Up(ds), d);
      HashedClosed(ds, t, true);
      if positive {
        ds := ds[t := ds[t].(hashed := true)];
      }
      if failed {
        return false;
      }
      Move(d, t);
      return true;
    }

    method Put(d: nat, delete: set<nat>)
      requires WellFormed(ds) && d in ds && ds[d].users > 0
      modifies `ds
      ensures ds == Dput(old(ds), d, delete) && WellFormed(ds) && PutBack(old(ds), d, delete, ds)
    {
      DputPrunes(ds, d, delete);
      Unsettled(ds, d);
      ds := ds[d := ds[d].(users := ds[d].users - 1)];
      var x := d;
      while true
        invariant Excess(ds, x)
        invariant DropRef(ds, x, delete) == Dput(old(ds), d, delete)
        decreases |ds|
      {
        if ds[x].count != 1 || (x !in delete && ds[x].hashed) {
          ds := ds[x := ds[x].(count := ds[x].count - 1)];
          return;
        }
        FreedExcess(ds, x);
        FreedSize(ds, x);
        var parent := ds[x].parent;
        ds := Freed(ds, x);
        if parent == x {
          return;
        }
        x := parent;
      }
    }

    /** have_submounts finds a mount point exactly when there is one at or below the dentry. */
    method HaveSubmounts(root: nat, mounted: set<nat>) returns (r: bool)
      requires Linked(ds) && root in ds
      ensures r <==> MountedBelow(ds, mounted, root)
    {
      if root in mounted {
        RootMounted(ds, mounted, root);
        return true;
      }
      ghost var t := ShapeExists(ds, root);
      ghost var hit;
      r, hit := SearchMounts(root, mounted, t);
      if r {
        MountFound(ds, t, hit, mounted);
      } else {
        NoneBelow(ds, t, mounted);
      }
    }

    // The walk of have_submounts below the dentry.
    method SearchMounts(root: nat, mounted: set<nat>, ghost t: Shape) returns (r: bool, ghost hit: nat)
      requires Linked(ds) && root in ds && Fits(ds, t) && t.id == root
      ensures r ==> hit in Below(t) && hit in mounted
      ensures !r ==> NoneIn(Below(t), mounted)
    {
      hit := root;
      var d: nat, next: nat := root, 0;
      ghost var path: seq<nat>, seen: seq<nat> := [], [];
      while true
        invariant Walk(ds, t, path, d, next, seen)
        invariant NoneIn(seen, mounted)
        decreases Left(t, path, next), |path|
      {
        if next < |ds[d].subdirs| {
          var c := ds[d].subdirs[next];
          GoDown(ds, t, path, d, next, seen);
          if c in mounted {
            SeenBelow(ds, t, path + [next], c, 0, seen + [c]);
            return true, c;
          }
          if ds[c].subdirs != [] {
            d, next, path := c, 0, path + [next];
          } else {
            GoOn(ds, t, path, d, next, seen);
            next := next + 1;
          }
          NoneMore(seen, c, mounted);
          seen := seen + [c];
        } else if d != root {
          GoUp(ds, t, path, d, seen);
          next := IndexOf(ds[ds[d].parent].subdirs, d) + 1;
          d, path := ds[d].parent, path[..|path| - 1];
        } else {
          AllSeen(ds, t, path, d, seen);
          return false, root;
        }
      }
    }

    // The body of the inner loop of select_parent.
    method Collect(c: nat, found: nat, ghost seen: seq<nat>, ghost moved: seq<nat>, ghost list: seq<nat>)
      returns (found': nat, ghost moved': seq<nat>)
      requires c in ds && Progress(ds, seen, moved, found, list, unused)
      modifies `unused
      ensures Progress(ds, seen + [c], moved', found', list, unused)
    {
      UnusedSnoc(ds, seen, c);
      ToEndSnoc(list, moved, c);
      found', moved' := found, moved;
      if ds[c].count == 0 {
        unused := Del(unused, c) + [c];
        found', moved' := found + 1, moved + [c];
      }
    }

    /** select_parent moves the unused dentries below `root`, each once, to the end
        of the unused list, in the order of the walk, and counts them. */
    method SelectParent(root: nat) returns (found: nat, ghost moved: seq<nat>)
      requires Linked(ds) && root in ds
      modifies `unused
      ensures Distinct(moved) && found == |moved|
      ensures forall x :: x in moved <==> Idle(ds, x) && x != root && IsSubdir(ds, x, root)
      ensures unused == DelAll(old(unused), moved) + moved
    {
      ghost var t := ShapeExists(ds, root);
      found, moved := 0, [];
      var d: nat, next: nat := root, 0;
      ghost var path: seq<nat>, seen: seq<nat> := [], [];
      while true
        invariant Walk(ds, t, path, d, next, seen)
        invariant Progress(ds, seen, moved, found, old(unused), unused)
        decreases Left(t, path, next), |path|
      {
        if next < |ds[d].subdirs| {
          var c := ds[d].subdirs[next];
          GoDown(ds, t, path, d, next, seen);
          found, moved := Collect(c, found, seen, moved, old(unused));
          if ds[c].subdirs != [] {
            d, next, path := c, 0, path + [next];
          } else {
            GoOn(ds, t, path, d, next, seen);
            next := next + 1;
          }
          seen := seen + [c];
        } else if d != root {
          GoUp(ds, t, path, d, seen);
          next := IndexOf(ds[ds[d].parent].subdirs, d) + 1;
          d, path := ds[d].parent, path[..|path| - 1];
        } else {
          AllSeen(ds, t, path, d, seen);
          Selected(ds, t, old(unused));
          return;
        }
      }
    }
  }
}

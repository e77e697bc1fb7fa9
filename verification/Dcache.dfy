/**
  The dentry tree: parent links, child lists and reference counts, and what
  d_alloc, dget, dput and a directory rename (d_move) do to them.
 */
module Dcache {
  import opened FunctionalGraph
  import opened Lists

  // `users` counts the references held from outside the tree; the kernel keeps
  // only their sum with the children, d_count.  Names are abstract.
  datatype Dentry = Dentry(parent: nat, name: int, subdirs: seq<nat>, count: int, hashed: bool, users: nat)

  type Tree = map<nat, Dentry>

  // ----- the links -----

  // The parent links, without those of the roots, which point to themselves.
  function Up(ds: Tree): Edges<nat> {
    map d | d in ds && ds[d].parent != d :: ds[d].parent
  }

  // is_subdir: b is a or lies above it.
  ghost predicate IsSubdir(ds: Tree, a: nat, b: nat) {
    Reaches(Up(ds), a, b)
  }

  predicate ParentIn(ds: Tree, d: nat)
    requires d in ds
  {
    ds[d].parent in ds
  }

  ghost predicate Closed(ds: Tree) {
    forall d {:trigger ParentIn(ds, d)} :: d in ds ==> ParentIn(ds, d)
  }

  predicate ChildFits(ds: Tree, p: nat, c: nat) {
    c in ds && ds[c].parent == p && c != p
  }

  // Every dentry on the child list of p, once, is a child of p.
  ghost predicate KidsFit(ds: Tree, p: nat)
    requires p in ds
  {
    Distinct(ds[p].subdirs) && forall c {:trigger ChildFits(ds, p, c)} :: c in ds[p].subdirs ==> ChildFits(ds, p, c)
  }

  // A dentry that is not a root is on the list of its parent.
  predicate Listed(ds: Tree, c: nat)
    requires c in ds
  {
    ds[c].parent != c && ds[c].parent in ds ==> c in ds[ds[c].parent].subdirs
  }

  // Every child list holds, once each, exactly the other dentries whose parent
  // it belongs to.
  ghost predicate KidsListed(ds: Tree) {
    && (forall p {:trigger KidsFit(ds, p)} :: p in ds ==> KidsFit(ds, p))
    && (forall c {:trigger Listed(ds, c)} :: c in ds ==> Listed(ds, c))
  }

  ghost predicate Linked(ds: Tree) {
    Closed(ds) && KidsListed(ds) && Acyclic(Up(ds))
  }

  predicate CountExact(ds: Tree, d: nat)
    requires d in ds
  {
    ds[d].count == ds[d].users + |ds[d].subdirs|
  }

  ghost predicate WellFormed(ds: Tree) {
    Linked(ds) && forall d {:trigger CountExact(ds, d)} :: d in ds ==> CountExact(ds, d)
  }

  function SetKids(ds: Tree, p: nat, kids: seq<nat>): Tree
    requires p in ds
  {
    ds[p := ds[p].(subdirs := kids)]
  }

  // ----- d_move -----

  function Unlink(ds: Tree, p: nat, x: nat): Tree
    requires p in ds
  {
    SetKids(ds, p, Del(ds[p].subdirs, x))
  }

  // list_add puts the child first.
  function Link(ds: Tree, p: nat, x: nat): Tree
    requires p in ds
  {
    SetKids(ds, p, [x] + ds[p].subdirs)
  }

  // Switch parents, names and hash queues; the target ends up unhashed.
  function Switch(ds: Tree, d: nat, t: nat): Tree
    requires d in ds && t in ds
  {
    ds[d := ds[d].(parent := ds[t].parent, name := ds[t].name, hashed := ds[t].hashed)]
      [t := ds[t].(parent := ds[d].parent, name := ds[d].name, hashed := false)]
  }

  function DMove(ds: Tree, d: nat, t: nat): Tree
    requires Closed(ds) && d in ds && t in ds
  {
    assert ParentIn(ds, d) && ParentIn(ds, t);
    var pd, pt := ds[d].parent, ds[t].parent;
    Link(Link(Switch(Unlink(Unlink(ds, pd, d), pt, t), d, t), pd, t), pt, d)
  }

  lemma HashedClosed(ds: Tree, d: nat, hashed: bool)
    requires Closed(ds) && d in ds
    ensures Closed(ds[d := ds[d].(hashed := hashed)])
  {
    SameLinksClosed(ds, d, ds[d].(hashed := hashed));
  }

  // A record may change as long as its links stay.
  lemma SameLinksClosed(ds: Tree, d: nat, e: Dentry)
    requires Closed(ds) && d in ds && e.parent == ds[d].parent
    ensures Closed(ds[d := e])
  {
    var ds' := ds[d := e];
    forall x {:trigger ParentIn(ds', x)} | x in ds' ensures ParentIn(ds', x) {
      assert ParentIn(ds, x);
    }
  }

  lemma SameLinksKids(ds: Tree, d: nat, e: Dentry)
    requires KidsListed(ds) && d in ds && e.parent == ds[d].parent && e.subdirs == ds[d].subdirs
    ensures KidsListed(ds[d := e])
  {
    var ds' := ds[d := e];
    forall p {:trigger KidsFit(ds', p)} | p in ds' ensures KidsFit(ds', p) {
      assert KidsFit(ds, p);
      forall c {:trigger ChildFits(ds', p, c)} | c in ds'[p].subdirs ensures ChildFits(ds', p, c) {
        assert ChildFits(ds, p, c);
      }
    }
    forall c {:trigger Listed(ds', c)} | c in ds' ensures Listed(ds', c) {
      assert Listed(ds, c);
    }
  }

  // vfs_rename_dir after its permission checks.  `positive` says that the target
  // has an inode, `failed` is the outcome of the checks and of the filesystem.
  ghost function RenameDir(ds: Tree, d: nat, t: nat, positive: bool, failed: bool): Tree
    requires Closed(ds) && d in ds && t in ds
  {
    if IsSubdir(ds, t, d) then ds
    else
      var ds1 := if positive then ds[t := ds[t].(hashed := true)] else ds;
      HashedClosed(ds, t, true);
      if failed then ds1 else DMove(ds1, d, t)
  }

  // ----- references -----

  // Well formed, but for one reference to `d` that is being given back.
  ghost predicate Excess(ds: Tree, d: nat) {
    && Linked(ds) && d in ds
    && ds[d].count == ds[d].users + |ds[d].subdirs| + 1
    && forall x {:trigger CountExact(ds, x)} :: x in ds && x != d ==> CountExact(ds, x)
  }

  // The tree without a dentry that was freed.
  function Freed(ds: Tree, d: nat): Tree
    requires Closed(ds) && d in ds
  {
    assert ParentIn(ds, d);
    Unlink(ds, ds[d].parent, d) - {d}
  }

  lemma FreedAt(ds: Tree, d: nat, x: nat)
    requires Closed(ds) && d in ds && x in Freed(ds, d)
    ensures x in ds && x != d
    ensures Freed(ds, d)[x] == if x == ds[d].parent then ds[x].(subdirs := Del(ds[x].subdirs, d)) else ds[x]
  {
    assert ParentIn(ds, d);
  }

  lemma FreedKeys(ds: Tree, d: nat)
    requires Closed(ds) && d in ds
    ensures Freed(ds, d).Keys == ds.Keys - {d}
  {
    assert ParentIn(ds, d);
  }

  lemma FreedEdges(ds: Tree, d: nat)
    requires Closed(ds) && d in ds && Acyclic(Up(ds))
    ensures Acyclic(Up(Freed(ds, d)))
  {
    forall o | o in Up(Freed(ds, d)) ensures o in Up(ds) && Up(Freed(ds, d))[o] == Up(ds)[o] {
      FreedAt(ds, d, o);
    }
    FewerEdges(Up(ds), Up(Freed(ds, d)));
  }

  // A dentry without children is nobody's parent.
  lemma NobodysParent(ds: Tree, d: nat, c: nat)
    requires Closed(ds) && KidsListed(ds) && d in ds && ds[d].subdirs == [] && c in ds && c != d
    ensures ds[c].parent != d
  {
    assert ParentIn(ds, c) && Listed(ds, c);
  }

  lemma FreedFits(ds: Tree, d: nat, p: nat)
    requires Closed(ds) && KidsListed(ds) && d in ds && ds[d].subdirs == [] && p in Freed(ds, d)
    ensures KidsFit(Freed(ds, d), p)
  {
    var ds' := Freed(ds, d);
    FreedAt(ds, d, p);
    assert KidsFit(ds, p);
    DelFacts(ds[p].subdirs, d);
    forall c {:trigger ChildFits(ds', p, c)} | c in ds'[p].subdirs ensures ChildFits(ds', p, c) {
      assert ChildFits(ds, p, c);
      FreedKept(ds, d, p, c);
    }
  }

  // A child of another dentry is still there.
  lemma FreedKept(ds: Tree, d: nat, p: nat, c: nat)
    requires Closed(ds) && d in ds && p in ds && p != d && ChildFits(ds, p, c) && Distinct(ds[p].subdirs)
    requires c in if p == ds[d].parent then Del(ds[p].subdirs, d) else ds[p].subdirs
    ensures ChildFits(Freed(ds, d), p, c)
  {
    DelFacts(ds[p].subdirs, d);
    FreedKeys(ds, d);
    assert c in Freed(ds, d).Keys;
    FreedAt(ds, d, c);
  }

  lemma FreedListed(ds: Tree, d: nat, c: nat)
    requires Closed(ds) && KidsListed(ds) && d in ds && ds[d].subdirs == [] && c in Freed(ds, d)
    ensures ParentIn(Freed(ds, d), c) && Listed(Freed(ds, d), c)
  {
    FreedAt(ds, d, c);
    assert ParentIn(ds, c) && Listed(ds, c);
    NobodysParent(ds, d, c);
    var p := ds[c].parent;
    FreedKeys(ds, d);
    assert p in Freed(ds, d).Keys;
    FreedAt(ds, d, p);
    assert KidsFit(ds, p);
    DelFacts(ds[p].subdirs, d);
  }

  lemma FreedLinked(ds: Tree, d: nat)
    requires Linked(ds) && d in ds && ds[d].subdirs == []
    ensures Linked(Freed(ds, d))
  {
    var ds' := Freed(ds, d);
    forall p {:trigger KidsFit(ds', p)} | p in ds' ensures KidsFit(ds', p) {
      FreedFits(ds, d, p);
    }
    forall c {:trigger Listed(ds', c)} {:trigger ParentIn(ds', c)} | c in ds' ensures ParentIn(ds', c) && Listed(ds', c) {
      FreedListed(ds, d, c);
    }
    FreedEdges(ds, d);
  }

  lemma FreedSize(ds: Tree, d: nat)
    requires Closed(ds) && d in ds
    ensures |Freed(ds, d)| < |ds|
  {
    FreedKeys(ds, d);
    assert |ds.Keys - {d}| == |ds.Keys| - 1;
  }

  lemma FreedCount(ds: Tree, d: nat, x: nat)
    requires Excess(ds, d) && x in Freed(ds, d)
    ensures Freed(ds, d)[x].count == Freed(ds, d)[x].users + |Freed(ds, d)[x].subdirs| + if x == ds[d].parent then 1 else 0
  {
    FreedAt(ds, d, x);
    assert CountExact(ds, x);
    if x == ds[d].parent {
      assert KidsFit(ds, x) && Listed(ds, d);
      DelFacts(ds[x].subdirs, d);
    }
  }

  lemma FreedExcess(ds: Tree, d: nat)
    requires Excess(ds, d) && ds[d].count == 1
    ensures var p := ds[d].parent;
            if p == d then WellFormed(Freed(ds, d)) else Excess(Freed(ds, d), p)
  {
    var p, ds' := ds[d].parent, Freed(ds, d);
    FreedLinked(ds, d);
    forall x {:trigger CountExact(ds', x)} | x in ds' && x != p ensures CountExact(ds', x) {
      FreedCount(ds, d, x);
    }
    FreedKeys(ds, d);
    if p != d {
      assert ParentIn(ds, d);
      assert p in ds'.Keys;
      FreedCount(ds, d, p);
    }
  }

  lemma DecrementLinked(ds: Tree, d: nat, e: Dentry)
    requires Linked(ds) && d in ds && e.parent == ds[d].parent && e.subdirs == ds[d].subdirs
    ensures Linked(ds[d := e])
  {
    SameLinksClosed(ds, d, e);
    SameLinksKids(ds, d, e);
    assert Up(ds[d := e]) == Up(ds);
  }

  // Where the counts are exact, but for one dentry whose record changes.
  lemma CountsElsewhere(ds: Tree, d: nat, e: Dentry)
    requires d in ds && forall x {:trigger CountExact(ds, x)} :: x in ds && x != d ==> CountExact(ds, x)
    ensures var ds' := ds[d := e]; forall x {:trigger CountExact(ds', x)} :: x in ds' && x != d ==> CountExact(ds', x)
  {
    var ds' := ds[d := e];
    forall x {:trigger CountExact(ds', x)} | x in ds' && x != d ensures CountExact(ds', x) {
      assert CountExact(ds, x);
    }
  }

  // One reference less: exact again.
  lemma Settled(ds: Tree, d: nat)
    requires Excess(ds, d)
    ensures WellFormed(ds[d := ds[d].(count := ds[d].count - 1)])
  {
    var e := ds[d].(count := ds[d].count - 1);
    DecrementLinked(ds, d, e);
    CountsElsewhere(ds, d, e);
  }

  // One user less: one reference too many.
  lemma Unsettled(ds: Tree, d: nat)
    requires WellFormed(ds) && d in ds && ds[d].users > 0
    ensures Excess(ds[d := ds[d].(users := ds[d].users - 1)], d)
  {
    var e := ds[d].(users := ds[d].users - 1);
    DecrementLinked(ds, d, e);
    CountsElsewhere(ds, d, e);
    assert CountExact(ds, d);
  }

  // dput's loop: give back one reference; a dentry that nobody uses and that is
  // not hashed (or that its filesystem wants deleted) is freed, which gives back
  // the reference it held on its parent.
  function DropRef(ds: Tree, d: nat, delete: set<nat>): (r: Tree)
    requires Excess(ds, d)
    ensures WellFormed(r)
    decreases |ds|
  {
    if ds[d].count != 1 || (d !in delete && ds[d].hashed) then
      Settled(ds, d);
      ds[d := ds[d].(count := ds[d].count - 1)]
    else
      FreedExcess(ds, d);
      FreedSize(ds, d);
      if ds[d].parent == d then Freed(ds, d) else DropRef(Freed(ds, d), ds[d].parent, delete)
  }

  function Dput(ds: Tree, d: nat, delete: set<nat>): Tree
    requires WellFormed(ds) && d in ds && ds[d].users > 0
  {
    Unsettled(ds, d);
    DropRef(ds[d := ds[d].(users := ds[d].users - 1)], d, delete)
  }

  function Dget(ds: Tree, d: nat): Tree
    requires d in ds
  {
    ds[d := ds[d].(count := ds[d].count + 1, users := ds[d].users + 1)]
  }

  // d_alloc below a parent, and d_alloc_root.
  function DAlloc(ds: Tree, p: nat, x: nat, name: int): Tree
    requires p in ds && x !in ds
  {
    Link(ds[p := ds[p].(count := ds[p].count + 1)], p, x)[x := Dentry(p, name, [], 1, false, 1)]
  }

  function DAllocRoot(ds: Tree, x: nat): Tree
    requires x !in ds
  {
    ds[x := Dentry(x, 0, [], 1, false, 1)]
  }
}

/**
  What the calls on the dentry tree do: where a renamed directory is found, which
  dentries a dput frees, what an allocation adds.
 */
module DcacheCalls {
  import opened FunctionalGraph
  import opened Lists
  import opened Options
  import opened Dcache
  import opened DcacheProofs

  // ----- rename -----

  // A lookup of n in p finds x, or would once x is hashed.
  predicate Stands(ds: Tree, p: nat, n: int, x: nat) {
    x in ds && ds[x].parent == p && ds[x].name == n
  }

  // d and t have changed places and names; nothing else has moved and no count changed.
  ghost predicate ChangedPlaces(ds: Tree, d: nat, t: nat, ds': Tree)
    requires d in ds && t in ds
  {
    && ds'.Keys == ds.Keys
    && ds'[d].parent == ds[t].parent && ds'[d].name == ds[t].name
    && ds'[t].parent == ds[d].parent && ds'[t].name == ds[d].name
    && (forall x {:trigger ds'[x]} :: x in ds ==> ds'[x].count == ds[x].count && ds'[x].users == ds[x].users)
    && (forall x {:trigger ds'[x]} :: x in ds && x != d && x != t ==>
          ds'[x].parent == ds[x].parent && ds'[x].name == ds[x].name && ds'[x].hashed == ds[x].hashed)
  }

  // d is found where t was found, or for a positive target where t stands; t is found
  // nowhere, and everybody else where it was.
  ghost predicate FoundAnew(ds: Tree, d: nat, t: nat, positive: bool, ds': Tree) {
    forall p, n, x :: Found(ds', p, n, x) <==>
      if x == d then Found(ds, p, n, t) || (positive && Stands(ds, p, n, t)) else x != t && Found(ds, p, n, x)
  }

  // Nothing but that a positive target is hashed again.
  ghost predicate Rehashed(ds: Tree, t: nat, positive: bool, ds': Tree) {
    && ds'.Keys == ds.Keys
    && forall x {:trigger ds'[x]} :: x in ds ==> ds'[x] == if x == t && positive then ds[x].(hashed := true) else ds[x]
  }

  ghost predicate Renamed(ds: Tree, d: nat, t: nat, positive: bool, failed: bool, ds': Tree)
    requires d in ds && t in ds
  {
    if IsSubdir(ds, t, d) then ds' == ds
    else if failed then Rehashed(ds, t, positive, ds')
    else ChangedPlaces(ds, d, t, ds') && FoundAnew(ds, d, t, positive, ds')
  }

  lemma MoveChangesPlaces(ds: Tree, d: nat, t: nat)
    requires Closed(ds) && d in ds && t in ds && d != t
    ensures ChangedPlaces(ds, d, t, DMove(ds, d, t))
  {
    DMoveMoves(ds, d, t);
    DMoveAt(ds, d, t, d);
    DMoveAt(ds, d, t, t);
    forall x {:trigger DMove(ds, d, t)[x]} | x in ds ensures DMove(ds, d, t)[x] == After(ds, d, t, x) {
      DMoveAt(ds, d, t, x);
    }
  }

  lemma MoveFindsAnew(ds: Tree, d: nat, t: nat, positive: bool, ds1: Tree)
    requires Closed(ds1) && d in ds && t in ds && d != t && Rehashed(ds, t, positive, ds1)
    ensures FoundAnew(ds, d, t, positive, DMove(ds1, d, t))
  {
    forall p, n, x
      ensures Found(DMove(ds1, d, t), p, n, x) <==>
              if x == d then Found(ds, p, n, t) || (positive && Stands(ds, p, n, t)) else x != t && Found(ds, p, n, x)
    {
      DMoveRenames(ds1, d, t, p, n, x);
    }
  }

  /** A directory rename: refused below itself, undone when the filesystem refuses, and
      otherwise the directory is found where the target was, the target nowhere. */
  lemma RenameMeans(ds: Tree, d: nat, t: nat, positive: bool, failed: bool)
    requires Closed(ds) && d in ds && t in ds
    ensures Renamed(ds, d, t, positive, failed, RenameDir(ds, d, t, positive, failed))
  {
    var ds1 := if positive then ds[t := ds[t].(hashed := true)] else ds;
    HashedClosed(ds, t, true);
    ReachesSelf(Up(ds), d);
    assert Rehashed(ds, t, positive, ds1);
    if !IsSubdir(ds, t, d) && !failed {
      MoveChangesPlaces(ds1, d, t);
      MoveFindsAnew(ds, d, t, positive, ds1);
    }
  }

  // ----- dput -----

  // The dentry may go: nobody uses it, and it is not hashed or not wanted.
  predicate Unwanted(ds: Tree, x: nat, delete: set<nat>)
    requires x in ds
  {
    ds[x].users == 0 && (x in delete || !ds[x].hashed)
  }

  // The dentry holds no child that is left in r.
  ghost predicate Childless(ds: Tree, r: Tree, x: nat)
    requires x in ds
  {
    forall c :: c in ds[x].subdirs ==> c !in r
  }

  // A child of x is gone.
  ghost predicate LostChild(ds: Tree, r: Tree, x: nat) {
    exists c :: c in ds && c !in r && c != x && ds[c].parent == x
  }

  // x is where the reference was given back, or holds one less because a child went.
  ghost predicate Struck(ds: Tree, r: Tree, d: nat, x: nat) {
    x == d || LostChild(ds, r, x)
  }

  // A survivor is as it was, but for the children that are gone.
  ghost predicate Survives(ds: Tree, r: Tree, x: nat)
    requires x in ds && x in r
  {
    && r[x].parent == ds[x].parent && r[x].name == ds[x].name && r[x].hashed == ds[x].hashed && r[x].users == ds[x].users
    && forall c :: c in r[x].subdirs <==> c in ds[x].subdirs && c in r
  }

  // Freed are exactly those that were struck, are unwanted and keep no child.
  ghost predicate Pruned(ds: Tree, d: nat, delete: set<nat>, r: Tree) {
    && r.Keys <= ds.Keys
    && (forall x {:trigger Struck(ds, r, d, x)} :: x in ds ==>
          (x !in r <==> Struck(ds, r, d, x) && Unwanted(ds, x, delete) && Childless(ds, r, x)))
    && (forall x {:trigger Survives(ds, r, x)} :: x in r ==> Survives(ds, r, x))
  }

  lemma StopPrunes(ds: Tree, d: nat, delete: set<nat>)
    requires Excess(ds, d) && (ds[d].count != 1 || (d !in delete && ds[d].hashed))
    ensures Pruned(ds, d, delete, ds[d := ds[d].(count := ds[d].count - 1)])
  {
    var r := ds[d := ds[d].(count := ds[d].count - 1)];
    forall x {:trigger Struck(ds, r, d, x)} | x in ds && Struck(ds, r, d, x)
      ensures !(Unwanted(ds, x, delete) && Childless(ds, r, x))
    {
      assert x == d && KidsFit(ds, d);
      if ds[d].subdirs != [] {
        var c := ds[d].subdirs[0];
        assert ChildFits(ds, d, c);
        assert c in ds[d].subdirs && c in r;
      }
    }
    forall x {:trigger Survives(ds, r, x)} | x in r ensures Survives(ds, r, x) {
      assert KidsFit(ds, x);
      forall c | c in ds[x].subdirs ensures c in r { assert ChildFits(ds, x, c); }
    }
  }

  // What is struck once d is gone.
  lemma StruckBehind(ds: Tree, d: nat, r: Tree, x: nat)
    requires Linked(ds) && d in ds && ds[d].parent != d && r.Keys <= Freed(ds, d).Keys && x in Freed(ds, d)
    ensures Struck(ds, r, d, x) <==> Struck(Freed(ds, d), r, ds[d].parent, x)
  {
    var ds1 := Freed(ds, d);
    FreedKeys(ds, d);
    FreedAt(ds, d, x);
    if c :| c in ds && c !in r && c != x && ds[c].parent == x {
      if c != d {
        assert c in ds1.Keys;
        FreedAt(ds, d, c);
      }
    }
    if LostChild(ds1, r, x) {
      var c :| c in ds1 && c !in r && c != x && ds1[c].parent == x;
      FreedAt(ds, d, c);
    }
    if x == ds[d].parent {
      assert d !in r.Keys;
    }
  }

  lemma ChildlessBehind(ds: Tree, d: nat, r: Tree, x: nat)
    requires Linked(ds) && d in ds && r.Keys <= Freed(ds, d).Keys && x in Freed(ds, d) && x in ds
    ensures Childless(ds, r, x) <==> Childless(Freed(ds, d), r, x)
  {
    FreedKeys(ds, d);
    FreedAt(ds, d, x);
    assert KidsFit(ds, x);
    DelFacts(ds[x].subdirs, d);
  }

  lemma SurvivesBehind(ds: Tree, d: nat, r: Tree, x: nat)
    requires Linked(ds) && d in ds && r.Keys <= Freed(ds, d).Keys && x in r && x in Freed(ds, d)
    requires Survives(Freed(ds, d), r, x)
    ensures x in ds && Survives(ds, r, x)
  {
    FreedKeys(ds, d);
    FreedAt(ds, d, x);
    assert KidsFit(ds, x);
    DelFacts(ds[x].subdirs, d);
  }

  // A dentry that goes, and what goes with it.
  lemma FreedPrunes(ds: Tree, d: nat, delete: set<nat>, r: Tree)
    requires Excess(ds, d) && ds[d].count == 1 && (d in delete || !ds[d].hashed) && ds[d].parent != d
    requires Pruned(Freed(ds, d), ds[d].parent, delete, r)
    ensures Pruned(ds, d, delete, r)
  {
    var ds1, p := Freed(ds, d), ds[d].parent;
    FreedKeys(ds, d);
    forall x {:trigger Struck(ds, r, d, x)} | x in ds
      ensures x !in r <==> Struck(ds, r, d, x) && Unwanted(ds, x, delete) && Childless(ds, r, x)
    {
      if x == d {
        assert d !in r.Keys && ds[d].subdirs == [];
      } else {
        assert x in ds1.Keys;
        StruckBehind(ds, d, r, x);
        ChildlessBehind(ds, d, r, x);
        FreedAt(ds, d, x);
        assert x !in r <==> Struck(ds1, r, p, x) && Unwanted(ds1, x, delete) && Childless(ds1, r, x);
      }
    }
    forall x {:trigger Survives(ds, r, x)} | x in r ensures x in ds && Survives(ds, r, x) {
      assert x in r.Keys && x in ds1.Keys;
      assert Survives(ds1, r, x);
      SurvivesBehind(ds, d, r, x);
    }
  }

  lemma RootPrunes(ds: Tree, d: nat, delete: set<nat>)
    requires Excess(ds, d) && ds[d].count == 1 && (d in delete || !ds[d].hashed) && ds[d].parent == d
    ensures Pruned(ds, d, delete, Freed(ds, d))
  {
    var r := Freed(ds, d);
    FreedKeys(ds, d);
    forall x {:trigger Struck(ds, r, d, x)} | x in ds
      ensures x !in r <==> Struck(ds, r, d, x) && Unwanted(ds, x, delete) && Childless(ds, r, x)
    {
      if x == d {
        assert d !in r.Keys;
      } else {
        assert x in r.Keys;
      }
    }
    forall x {:trigger Survives(ds, r, x)} | x in r ensures x in ds && Survives(ds, r, x) {
      FreedAt(ds, d, x);
      assert KidsFit(ds, x);
      forall c | c in ds[x].subdirs ensures c in r {
        assert ChildFits(ds, x, c);
        assert c in r.Keys;
      }
    }
  }

  /** Giving back a reference frees exactly the dentries that lose their last one that way
      and are not kept: nobody uses them, they are not hashed or not wanted, and no child
      of theirs is left. */
  lemma {:induction false} DropRefPrunes(ds: Tree, d: nat, delete: set<nat>)
    requires Excess(ds, d)
    ensures Pruned(ds, d, delete, DropRef(ds, d, delete))
    decreases |ds|
  {
    if ds[d].count != 1 || (d !in delete && ds[d].hashed) {
      StopPrunes(ds, d, delete);
    } else if ds[d].parent == d {
      RootPrunes(ds, d, delete);
    } else {
      FreedExcess(ds, d);
      FreedSize(ds, d);
      DropRefPrunes(Freed(ds, d), ds[d].parent, delete);
      FreedPrunes(ds, d, delete, DropRef(Freed(ds, d), ds[d].parent, delete));
    }
  }

  // One user less at d, and what goes with it.
  ghost predicate PutBack(ds: Tree, d: nat, delete: set<nat>, r: Tree)
    requires d in ds && ds[d].users > 0
  {
    Pruned(ds[d := ds[d].(users := ds[d].users - 1)], d, delete, r)
  }

  lemma DputPrunes(ds: Tree, d: nat, delete: set<nat>)
    requires WellFormed(ds) && d in ds && ds[d].users > 0
    ensures PutBack(ds, d, delete, Dput(ds, d, delete))
  {
    Unsettled(ds, d);
    DropRefPrunes(ds[d := ds[d].(users := ds[d].users - 1)], d, delete);
  }

  // ----- d_alloc, dget -----

  // x is new: a child of p, unhashed, with one user; p holds one more child and one more
  // reference; everybody else is as before.
  ghost predicate NewChild(ds: Tree, p: nat, x: nat, name: int, ds': Tree)
    requires p in ds
  {
    && ds'.Keys == ds.Keys + {x} && Stands(ds', p, name, x)
    && !ds'[x].hashed && ds'[x].users == ds'[x].count == 1 && ds'[x].subdirs == []
    && p in ds' && (forall c :: c in ds'[p].subdirs <==> c == x || c in ds[p].subdirs)
    && ds'[p].(subdirs := ds[p].subdirs) == ds[p].(count := ds[p].count + 1)
    && forall y :: y in ds && y != p ==> y in ds' && ds'[y] == ds[y]
  }

  /** d_alloc adds one dentry below its parent and keeps the tree. */
  lemma DAllocMeans(ds: Tree, p: nat, x: nat, name: int)
    requires WellFormed(ds) && p in ds && x !in ds
    ensures WellFormed(DAlloc(ds, p, x, name)) && NewChild(ds, p, x, name, DAlloc(ds, p, x, name))
  {
    DAllocKeepsTree(ds, p, x, name);
    assert p != x;
  }

  /** d_alloc_root adds one dentry that is its own parent and changes no other. */
  lemma DAllocRootMeans(ds: Tree, x: nat)
    requires WellFormed(ds) && x !in ds
    ensures var ds' := DAllocRoot(ds, x);
            && WellFormed(ds') && ds'.Keys == ds.Keys + {x} && (forall y :: y in ds ==> ds'[y] == ds[y])
            && ds'[x].parent == x && ds'[x].subdirs == [] && !ds'[x].hashed && ds'[x].users == ds'[x].count == 1
  {
    DAllocRootKeepsTree(ds, x);
  }

  /** dget followed by dput leaves the tree as it was. */
  lemma GetPutBack(ds: Tree, d: nat, delete: set<nat>)
    requires WellFormed(ds) && d in ds && ds[d].count > 0
    ensures WellFormed(Dget(ds, d)) && Dput(Dget(ds, d), d, delete) == ds
  {
    DgetKeepsTree(ds, d);
    var ds1 := Dget(ds, d);
    Unsettled(ds1, d);
    var ds2 := ds1[d := ds1[d].(users := ds1[d].users - 1)];
    assert ds2[d].count == ds[d].count + 1;
    assert ds2[d := ds2[d].(count := ds2[d].count - 1)] == ds;
  }
}

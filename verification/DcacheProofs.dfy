/**
  Directory renames keep the dentry tree a tree exactly when the filesystem
  refuses a target above the moved directory; reference counts stay exact
  although d_move touches none.
 */
module DcacheProofs {
  import opened FunctionalGraph
  import opened Lists
  import opened Options
  import opened Dcache

  // ----- d_move, dentry by dentry -----

  // The child list of x after moving d onto t.
  function KidsAfter(ds: Tree, d: nat, t: nat, x: nat): seq<nat>
    requires d in ds && t in ds && x in ds
  {
    var pd, pt := ds[d].parent, ds[t].parent;
    var s0 := ds[x].subdirs;
    var s1 := if x == pd then Del(s0, d) else s0;
    var s2 := if x == pt then Del(s1, t) else s1;
    var s3 := if x == pd then [t] + s2 else s2;
    if x == pt then [d] + s3 else s3
  }

  // The dentry x after moving d onto t: counts stay, d and t trade places.
  function After(ds: Tree, d: nat, t: nat, x: nat): Dentry
    requires d in ds && t in ds && x in ds
  {
    var e := ds[x].(subdirs := KidsAfter(ds, d, t, x));
    if x == d then e.(parent := ds[t].parent, name := ds[t].name, hashed := ds[t].hashed)
    else if x == t then e.(parent := ds[d].parent, name := ds[d].name, hashed := false)
    else e
  }

  ghost predicate Moved(ds: Tree, ds': Tree, d: nat, t: nat) {
    && d in ds && t in ds && d != t && ds'.Keys == ds.Keys
    && forall x {:trigger ds'[x]} :: x in ds ==> ds'[x] == After(ds, d, t, x)
  }

  lemma UnlinkAt(ds: Tree, p: nat, c: nat, x: nat)
    requires p in ds && x in ds
    ensures Unlink(ds, p, c).Keys == ds.Keys
    ensures Unlink(ds, p, c)[x] == if x == p then ds[x].(subdirs := Del(ds[x].subdirs, c)) else ds[x]
  {
  }

  lemma LinkAt(ds: Tree, p: nat, c: nat, x: nat)
    requires p in ds && x in ds
    ensures Link(ds, p, c).Keys == ds.Keys
    ensures Link(ds, p, c)[x] == if x == p then ds[x].(subdirs := [c] + ds[x].subdirs) else ds[x]
  {
  }

  lemma DMoveAt(ds: Tree, d: nat, t: nat, x: nat)
    requires Closed(ds) && d in ds && t in ds && d != t && x in ds
    ensures DMove(ds, d, t).Keys == ds.Keys && DMove(ds, d, t)[x] == After(ds, d, t, x)
  {
    assert ParentIn(ds, d) && ParentIn(ds, t);
    var pd, pt := ds[d].parent, ds[t].parent;
    var a := Unlink(ds, pd, d);
    var b := Unlink(a, pt, t);
    var c := Switch(b, d, t);
    var e := Link(c, pd, t);
    UnlinkAt(ds, pd, d, x);
    UnlinkAt(a, pt, t, x);
    LinkAt(c, pd, t, x);
    LinkAt(e, pt, d, x);
  }

  lemma DMoveMoves(ds: Tree, d: nat, t: nat)
    requires Closed(ds) && d in ds && t in ds && d != t
    ensures Moved(ds, DMove(ds, d, t), d, t)
  {
    forall x | x in ds ensures DMove(ds, d, t)[x] == After(ds, d, t, x) {
      DMoveAt(ds, d, t, x);
    }
    DMoveAt(ds, d, t, d);
  }

  lemma ConsDistinct(x: nat, s: seq<nat>)
    requires Distinct(s) && x !in s
    ensures Distinct([x] + s)
  {
  }

  // Neither is the parent of the other and neither is a root.
  predicate Apart(ds: Tree, d: nat, t: nat) {
    && d in ds && t in ds && d != t
    && ds[d].parent != d && ds[t].parent != t
    && ds[d].parent != t && ds[t].parent != d
  }

  lemma KidsAfterFacts(ds: Tree, d: nat, t: nat, x: nat)
    requires Closed(ds) && KidsListed(ds) && Apart(ds, d, t) && x in ds
    ensures var ks := KidsAfter(ds, d, t, x);
            && Distinct(ks) && |ks| == |ds[x].subdirs|
            && (forall c :: c in ks <==> if c == d then x == ds[t].parent
                                         else if c == t then x == ds[d].parent
                                         else c in ds[x].subdirs)
  {
    var pd, pt := ds[d].parent, ds[t].parent;
    assert ParentIn(ds, d) && ParentIn(ds, t) && Listed(ds, d) && Listed(ds, t);
    assert KidsFit(ds, x);
    assert d in ds[x].subdirs ==> ChildFits(ds, x, d);
    assert t in ds[x].subdirs ==> ChildFits(ds, x, t);
    var s0 := ds[x].subdirs;
    var s1 := if x == pd then Del(s0, d) else s0;
    DelFacts(s0, d);
    DelFacts(s1, t);
    var s2 := if x == pt then Del(s1, t) else s1;
    if x == pd { ConsDistinct(t, s2); }
    var s3 := if x == pd then [t] + s2 else s2;
    if x == pt { ConsDistinct(d, s3); }
  }

  lemma MovedFits(ds: Tree, ds': Tree, d: nat, t: nat, p: nat)
    requires Closed(ds) && KidsListed(ds) && Apart(ds, d, t) && Moved(ds, ds', d, t) && p in ds'
    ensures KidsFit(ds', p)
  {
    assert ds'[p] == After(ds, d, t, p);
    KidsAfterFacts(ds, d, t, p);
    assert KidsFit(ds, p);
    forall c {:trigger ChildFits(ds', p, c)} | c in ds'[p].subdirs ensures ChildFits(ds', p, c) {
      assert c != d && c != t ==> ChildFits(ds, p, c);
      assert ds'[c] == After(ds, d, t, c);
    }
  }

  lemma MovedListed(ds: Tree, ds': Tree, d: nat, t: nat, c: nat)
    requires Closed(ds) && KidsListed(ds) && Apart(ds, d, t) && Moved(ds, ds', d, t) && c in ds'
    ensures ParentIn(ds', c) && Listed(ds', c)
  {
    assert ParentIn(ds, d) && ParentIn(ds, t) && ParentIn(ds, c) && Listed(ds, c);
    assert ds'[c] == After(ds, d, t, c);
    var p := ds'[c].parent;
    assert ds'[p] == After(ds, d, t, p);
    KidsAfterFacts(ds, d, t, p);
  }

  lemma MovedKids(ds: Tree, ds': Tree, d: nat, t: nat)
    requires Closed(ds) && KidsListed(ds) && Apart(ds, d, t) && Moved(ds, ds', d, t)
    ensures Closed(ds') && KidsListed(ds')
  {
    forall p {:trigger KidsFit(ds', p)} | p in ds' ensures KidsFit(ds', p) {
      MovedFits(ds, ds', d, t, p);
    }
    forall c {:trigger Listed(ds', c)} {:trigger ParentIn(ds', c)} | c in ds' ensures ParentIn(ds', c) && Listed(ds', c) {
      MovedListed(ds, ds', d, t, c);
    }
  }

  lemma MovedCount(ds: Tree, ds': Tree, d: nat, t: nat, x: nat)
    requires Closed(ds) && KidsListed(ds) && Apart(ds, d, t) && Moved(ds, ds', d, t) && x in ds' && CountExact(ds, x)
    ensures CountExact(ds', x)
  {
    assert ds'[x] == After(ds, d, t, x);
    KidsAfterFacts(ds, d, t, x);
  }

  lemma MovedEdges(ds: Tree, ds': Tree, d: nat, t: nat)
    requires Apart(ds, d, t) && Moved(ds, ds', d, t)
    ensures Up(ds') == Exchanged(Up(ds), d, t)
  {
    var e, e' := Exchanged(Up(ds), d, t), Up(ds');
    assert e.Keys == e'.Keys by {
      forall x ensures x in e <==> x in e' {
        if x in ds { assert ds'[x] == After(ds, d, t, x); }
      }
    }
    forall x | x in e ensures e[x] == e'[x] {
      assert ds'[x] == After(ds, d, t, x);
    }
  }

  lemma ParentIsAbove(ds: Tree, a: nat)
    requires a in ds && ds[a].parent != a
    ensures IsSubdir(ds, a, ds[a].parent)
  {
    ReachesSelf(Up(ds), ds[a].parent);
    ReachesStep(Up(ds), a, ds[a].parent);
  }

  lemma MovedKeepsTree(ds: Tree, ds': Tree, d: nat, t: nat)
    requires WellFormed(ds) && Apart(ds, d, t) && Moved(ds, ds', d, t)
    requires !IsSubdir(ds, t, d) && !IsSubdir(ds, d, t)
    ensures WellFormed(ds')
  {
    MovedKids(ds, ds', d, t);
    forall x {:trigger CountExact(ds', x)} | x in ds' ensures CountExact(ds', x) {
      assert CountExact(ds, x);
      MovedCount(ds, ds', d, t, x);
    }
    MovedEdges(ds, ds', d, t);
    ExchangeKeepsAcyclic(Up(ds), d, t);
  }

  lemma DMoveKeepsTree(ds: Tree, d: nat, t: nat)
    requires WellFormed(ds) && d in ds && t in ds && ds[d].parent != d && ds[t].parent != t
    requires !IsSubdir(ds, t, d) && !IsSubdir(ds, d, t)
    ensures WellFormed(DMove(ds, d, t))
  {
    ReachesSelf(Up(ds), d);
    ParentIsAbove(ds, d);
    ParentIsAbove(ds, t);
    DMoveMoves(ds, d, t);
    MovedKeepsTree(ds, DMove(ds, d, t), d, t);
  }

  lemma DMoveBreaksTree(ds: Tree, d: nat, t: nat)
    requires WellFormed(ds) && d in ds && t in ds && d != t && ds[d].parent != d && ds[t].parent != t
    requires !IsSubdir(ds, t, d) && IsSubdir(ds, d, t)
    ensures !WellFormed(DMove(ds, d, t))
  {
    var ds' := DMove(ds, d, t);
    DMoveMoves(ds, d, t);
    ParentIsAbove(ds, t);
    if ds[d].parent == t {
      assert ds'[t] == After(ds, d, t, t) && t in ds'[t].subdirs;
      assert !ChildFits(ds', t, t);
      assert !KidsFit(ds', t);
    } else {
      MovedEdges(ds, ds', d, t);
      ExchangeClosesCycle(Up(ds), d, t);
    }
  }

  /** Once is_subdir let the rename pass, d_move keeps the tree well formed exactly
      when the target is not above the moved directory. */
  lemma DMoveKeepsTreeIff(ds: Tree, d: nat, t: nat)
    requires WellFormed(ds) && d in ds && t in ds && d != t && ds[d].parent != d && ds[t].parent != t
    requires !IsSubdir(ds, t, d)
    ensures WellFormed(DMove(ds, d, t)) <==> !IsSubdir(ds, d, t)
  {
    if IsSubdir(ds, d, t) {
      DMoveBreaksTree(ds, d, t);
    } else {
      DMoveKeepsTree(ds, d, t);
    }
  }

  // ----- what a lookup finds -----

  // d_lookup of name n in directory p may return x.
  predicate Found(ds: Tree, p: nat, n: int, x: nat) {
    x in ds && ds[x].hashed && ds[x].parent == p && ds[x].name == n
  }

  /** After the move the moved dentry is found where the target was found, the
      target nowhere, and every other dentry where it was. */
  lemma DMoveRenames(ds: Tree, d: nat, t: nat, p: nat, n: int, x: nat)
    requires Closed(ds) && d in ds && t in ds && d != t
    ensures Found(DMove(ds, d, t), p, n, x)
            <==> if x == d then Found(ds, p, n, t) else x != t && Found(ds, p, n, x)
  {
    DMoveMoves(ds, d, t);
    if x in ds { DMoveAt(ds, d, t, x); }
  }

  // ----- references -----

  lemma SetFlagUp(ds: Tree, d: nat, hashed: bool)
    requires d in ds
    ensures Up(ds[d := ds[d].(hashed := hashed)]) == Up(ds)
  {
  }

  lemma RecordKeepsTree(ds: Tree, d: nat, e: Dentry)
    requires WellFormed(ds) && d in ds && e.parent == ds[d].parent && e.subdirs == ds[d].subdirs
    requires e.count == e.users + |e.subdirs|
    ensures WellFormed(ds[d := e])
  {
    DecrementLinked(ds, d, e);
    CountsElsewhere(ds, d, e);
  }

  lemma SetFlagKeepsTree(ds: Tree, d: nat, hashed: bool)
    requires WellFormed(ds) && d in ds
    ensures WellFormed(ds[d := ds[d].(hashed := hashed)])
    ensures Up(ds[d := ds[d].(hashed := hashed)]) == Up(ds)
  {
    SetFlagUp(ds, d, hashed);
    assert CountExact(ds, d);
    RecordKeepsTree(ds, d, ds[d].(hashed := hashed));
  }

  lemma DgetKeepsTree(ds: Tree, d: nat)
    requires WellFormed(ds) && d in ds
    ensures WellFormed(Dget(ds, d))
  {
    assert CountExact(ds, d);
    RecordKeepsTree(ds, d, Dget(ds, d)[d]);
  }

  lemma DAllocUp(ds: Tree, p: nat, x: nat, name: int)
    requires p in ds && x !in ds
    ensures Up(DAlloc(ds, p, x, name)) == Up(ds)[x := p] && x !in Up(ds)
  {
  }

  // Above a dentry there is no dentry that is not in the tree.
  lemma NoneOutside(ds: Tree, p: nat, x: nat)
    requires Closed(ds) && p in ds && x !in ds
    ensures !Reaches(Up(ds), p, x)
  {
    forall n: nat ensures Follow(Up(ds), p, n) != Some(x) {
      StaysInside(ds, p, n);
    }
  }

  lemma DAllocEdges(ds: Tree, p: nat, x: nat, name: int)
    requires Closed(ds) && Acyclic(Up(ds)) && p in ds && x !in ds
    ensures Acyclic(Up(DAlloc(ds, p, x, name)))
  {
    DAllocUp(ds, p, x, name);
    NoneOutside(ds, p, x);
    NewEdgeClosesCycle(Up(ds), x, p);
  }

  lemma {:induction false} StaysInside(ds: Tree, o: nat, n: nat)
    requires Closed(ds) && o in ds
    ensures Follow(Up(ds), o, n).Some? ==> Follow(Up(ds), o, n).value in ds
    decreases n
  {
    if n > 0 && o in Up(ds) {
      assert ParentIn(ds, o);
      StaysInside(ds, Up(ds)[o], n - 1);
    }
  }

  lemma DAllocAt(ds: Tree, p: nat, x: nat, name: int, y: nat)
    requires p in ds && x !in ds && (y in ds || y == x)
    ensures var ds' := DAlloc(ds, p, x, name);
            && ds'.Keys == ds.Keys + {x}
            && ds'[y] == if y == x then Dentry(p, name, [], 1, false, 1)
                         else if y == p then ds[p].(count := ds[p].count + 1, subdirs := [x] + ds[p].subdirs)
                         else ds[y]
  {
  }

  lemma DAllocFits(ds: Tree, p: nat, x: nat, name: int, q: nat)
    requires Closed(ds) && KidsListed(ds) && p in ds && x !in ds && q in DAlloc(ds, p, x, name)
    ensures KidsFit(DAlloc(ds, p, x, name), q)
  {
    var ds' := DAlloc(ds, p, x, name);
    DAllocAt(ds, p, x, name, q);
    if q != x {
      assert KidsFit(ds, q);
      assert x in ds[q].subdirs ==> ChildFits(ds, q, x);
      ConsDistinct(x, ds[q].subdirs);
    }
    forall c {:trigger ChildFits(ds', q, c)} | c in ds'[q].subdirs ensures ChildFits(ds', q, c) {
      assert c != x ==> ChildFits(ds, q, c);
      DAllocAt(ds, p, x, name, c);
    }
  }

  lemma DAllocListed(ds: Tree, p: nat, x: nat, name: int, c: nat)
    requires Closed(ds) && KidsListed(ds) && p in ds && x !in ds && c in DAlloc(ds, p, x, name)
    ensures ParentIn(DAlloc(ds, p, x, name), c) && Listed(DAlloc(ds, p, x, name), c)
  {
    DAllocAt(ds, p, x, name, c);
    if c != x {
      assert ParentIn(ds, c) && Listed(ds, c);
      DAllocAt(ds, p, x, name, ds[c].parent);
    } else {
      DAllocAt(ds, p, x, name, p);
    }
  }

  lemma DAllocCount(ds: Tree, p: nat, x: nat, name: int, y: nat)
    requires p in ds && x !in ds && y in DAlloc(ds, p, x, name) && (y != x ==> CountExact(ds, y))
    ensures CountExact(DAlloc(ds, p, x, name), y)
  {
    DAllocAt(ds, p, x, name, y);
  }

  lemma DAllocKeepsTree(ds: Tree, p: nat, x: nat, name: int)
    requires WellFormed(ds) && p in ds && x !in ds
    ensures WellFormed(DAlloc(ds, p, x, name))
  {
    var ds' := DAlloc(ds, p, x, name);
    DAllocEdges(ds, p, x, name);
    forall q {:trigger KidsFit(ds', q)} | q in ds' ensures KidsFit(ds', q) {
      DAllocFits(ds, p, x, name, q);
    }
    forall c {:trigger Listed(ds', c)} {:trigger ParentIn(ds', c)} | c in ds' ensures ParentIn(ds', c) && Listed(ds', c) {
      DAllocListed(ds, p, x, name, c);
    }
    forall y {:trigger CountExact(ds', y)} | y in ds' ensures CountExact(ds', y) {
      assert y != x ==> CountExact(ds, y);
      DAllocCount(ds, p, x, name, y);
    }
  }

  lemma DAllocRootAt(ds: Tree, x: nat, y: nat)
    requires Closed(ds) && KidsListed(ds) && x !in ds && y in DAllocRoot(ds, x)
    ensures var ds' := DAllocRoot(ds, x); ParentIn(ds', y) && Listed(ds', y) && KidsFit(ds', y)
  {
    var ds' := DAllocRoot(ds, x);
    if y != x {
      assert ParentIn(ds, y) && Listed(ds, y) && KidsFit(ds, y);
      forall c {:trigger ChildFits(ds', y, c)} | c in ds'[y].subdirs ensures ChildFits(ds', y, c) {
        assert ChildFits(ds, y, c);
      }
    }
  }

  lemma DAllocRootKeepsTree(ds: Tree, x: nat)
    requires WellFormed(ds) && x !in ds
    ensures WellFormed(DAllocRoot(ds, x))
  {
    var ds' := DAllocRoot(ds, x);
    forall y {:trigger KidsFit(ds', y)} {:trigger Listed(ds', y)} {:trigger ParentIn(ds', y)} | y in ds'
      ensures ParentIn(ds', y) && Listed(ds', y) && KidsFit(ds', y)
    {
      DAllocRootAt(ds, x, y);
    }
    forall y {:trigger CountExact(ds', y)} | y in ds' ensures CountExact(ds', y) {
      assert y != x ==> CountExact(ds, y);
    }
    assert Up(ds') == Up(ds);
  }

  // ----- runs -----

  datatype Action =
    | AllocRoot(id: nat)
    | Alloc(parent: nat, id: nat, name: int)
    | Get(d: nat)
    | Put(d: nat, delete: set<nat>)
    | SetHashed(d: nat, hashed: bool)
    | Rename(d: nat, target: nat, positive: bool, failed: bool)

  // The filesystem refuses to replace a directory that is not empty, and so one
  // that contains the directory being moved.
  ghost predicate FsRefuses(ds: Tree, d: nat, t: nat, failed: bool) {
    IsSubdir(ds, d, t) ==> failed
  }

  // Calls without the references they need change nothing.
  ghost function Apply(ds: Tree, a: Action): Tree
    requires WellFormed(ds)
  {
    match a
    case AllocRoot(x) => if x in ds then ds else DAllocRoot(ds, x)
    case Alloc(p, x, n) => if p in ds && ds[p].users > 0 && x !in ds then DAlloc(ds, p, x, n) else ds
    case Get(d) => if d in ds then Dget(ds, d) else ds
    case Put(d, del) => if d in ds && ds[d].users > 0 then Dput(ds, d, del) else ds
    case SetHashed(d, h) => if d in ds && ds[d].users > 0 then ds[d := ds[d].(hashed := h)] else ds
    case Rename(d, t, positive, failed) =>
      if d in ds && t in ds && ds[d].users > 0 && ds[t].users > 0 && ds[d].parent != d && ds[t].parent != t
         && FsRefuses(ds, d, t, failed)
      then RenameDir(ds, d, t, positive, failed) else ds
  }

  lemma RenameKeepsTree(ds: Tree, d: nat, t: nat, positive: bool, failed: bool)
    requires WellFormed(ds) && d in ds && t in ds && ds[d].parent != d && ds[t].parent != t
    requires FsRefuses(ds, d, t, failed)
    ensures WellFormed(RenameDir(ds, d, t, positive, failed))
  {
    if !IsSubdir(ds, t, d) {
      SetFlagKeepsTree(ds, t, true);
      var ds1 := if positive then ds[t := ds[t].(hashed := true)] else ds;
      assert Up(ds1) == Up(ds);
      if !failed {
        DMoveKeepsTree(ds1, d, t);
      }
    }
  }

  lemma ApplyKeepsTree(ds: Tree, a: Action)
    requires WellFormed(ds)
    ensures WellFormed(Apply(ds, a))
  {
    match a
    case AllocRoot(x) => if x !in ds { DAllocRootKeepsTree(ds, x); }
    case Alloc(p, x, n) => if p in ds && x !in ds { DAllocKeepsTree(ds, p, x, n); }
    case Get(d) => if d in ds { DgetKeepsTree(ds, d); }
    case Put(d, del) =>
    case SetHashed(d, h) => if d in ds { SetFlagKeepsTree(ds, d, h); }
    case Rename(d, t, positive, failed) =>
      if d in ds && t in ds && ds[d].parent != d && ds[t].parent != t && FsRefuses(ds, d, t, failed) {
        RenameKeepsTree(ds, d, t, positive, failed);
      }
  }

  ghost function Execute(ds: Tree, run: seq<Action>): Tree
    requires WellFormed(ds)
    decreases |run|
  {
    if run == [] then ds
    else
      ApplyKeepsTree(ds, run[0]);
      Execute(Apply(ds, run[0]), run[1..])
  }

  lemma EmptyTree()
    ensures WellFormed(map[])
  {
    assert Ranks(map[], Up(map[]));
  }

  lemma {:induction false} RunKeepsTree(ds: Tree, run: seq<Action>)
    requires WellFormed(ds)
    ensures WellFormed(Execute(ds, run))
    decreases |run|
  {
    if run != [] {
      ApplyKeepsTree(ds, run[0]);
      RunKeepsTree(Apply(ds, run[0]), run[1..]);
    }
  }

  /** Over every run of allocations, gets, puts and serialised renames the dentries
      form trees, child lists mirror the parent links, and every count is exact. */
  lemma ExecuteKeepsTree(run: seq<Action>)
    ensures WellFormed(map[])
    ensures WellFormed(Execute(map[], run)) && !HasCycle(Up(Execute(map[], run)))
  {
    EmptyTree();
    RunKeepsTree(map[], run);
    AcyclicHasNoCycle(Up(Execute(map[], run)));
  }

  // ----- a rename onto the parent -----

  // A root r, its child t, and t's child d.
  ghost predicate Chain(ds: Tree, r: nat, t: nat, d: nat) {
    && r != t && t != d && d != r && ds.Keys == {r, t, d}
    && ds[r].parent == r && ds[r].subdirs == [t]
    && ds[t].parent == r && ds[t].subdirs == [d]
    && ds[d].parent == t && ds[d].subdirs == []
    && CountExact(ds, r) && CountExact(ds, t) && CountExact(ds, d)
  }

  lemma ChainLinks(ds: Tree, r: nat, t: nat, d: nat)
    requires Chain(ds, r, t, d)
    ensures Closed(ds) && KidsListed(ds)
  {
    assert forall x :: x in ds <==> x in {r, t, d};
  }

  lemma ChainRanks(ds: Tree, r: nat, t: nat, d: nat)
    requires Chain(ds, r, t, d)
    ensures Acyclic(Up(ds)) && IsSubdir(ds, d, t) && !IsSubdir(ds, t, d)
  {
    var rank: map<nat, nat> := map[r := 0, t := 1, d := 2];
    assert forall x :: x in ds <==> x in {r, t, d};
    assert Ranks(rank, Up(ds));
    ParentIsAbove(ds, d);
    OwnEdgeLeadsAway(Up(ds), d);
  }

  /** Moving a directory onto its own parent, which is_subdir lets pass, puts the parent
      on its own child list. */
  lemma MoveOntoParent(ds: Tree, r: nat, t: nat, d: nat)
    requires Chain(ds, r, t, d)
    ensures WellFormed(ds) && !IsSubdir(ds, t, d)
    ensures var ds' := DMove(ds, d, t); t in ds' && ds'[t].parent == t && t in ds'[t].subdirs && !WellFormed(ds')
  {
    assert forall x :: x in ds <==> x in {r, t, d};
    ChainLinks(ds, r, t, d);
    ChainRanks(ds, r, t, d);
    DMoveMoves(ds, d, t);
    assert DMove(ds, d, t)[t] == After(ds, d, t, t);
    DMoveBreaksTree(ds, d, t);
  }
}

/**
  What the calls on the resource tree add and take away.
 */
module ResourceCalls {
  import opened Options
  import opened Resources

  // One range, without what is below it.
  datatype Range = Range(start: nat, end: int, busy: bool)

  function RangeOf(r: Res): Range {
    Range(r.start, r.end, r.busy)
  }

  // All ranges of some siblings, with what is below them.
  function RangesOf(kids: seq<Res>): multiset<Range>
    decreases kids
  {
    if kids == [] then multiset{} else Whole(kids[0]) + RangesOf(kids[1..])
  }

  // A resource with all that is below it.
  function Whole(r: Res): multiset<Range>
    decreases r
  {
    multiset{RangeOf(r)} + RangesOf(r.child)
  }

  // All ranges below a resource.
  function Ranges(root: Res): multiset<Range> {
    RangesOf(root.child)
  }

  lemma Cancel(a: multiset<Range>, b: multiset<Range>, w: multiset<Range>)
    requires a + w == b + w
    ensures a == b
  {
    forall x ensures a[x] == b[x] {
      assert (a + w)[x] == (b + w)[x];
    }
  }

  // A child in whose place another resource comes that has more below it, or less.
  lemma ChildGrows(root: Res, i: nat, c: Res, more: multiset<Range>)
    requires i < |root.child| && RangeOf(c) == RangeOf(root.child[i])
    ensures Ranges(c) == Ranges(root.child[i]) + more ==> Ranges(SetChild(root, i, c)) == Ranges(root) + more
    ensures Ranges(root.child[i]) == Ranges(c) + more ==> Ranges(root) == Ranges(SetChild(root, i, c)) + more
  {
    var k, root' := root.child[i], SetChild(root, i, c);
    SetChildSwaps(root, i, c);
    if Ranges(c) == Ranges(k) + more {
      assert Whole(c) == Whole(k) + more;
      assert Ranges(root') + Whole(k) == Ranges(root) + more + Whole(k);
      Cancel(Ranges(root'), Ranges(root) + more, Whole(k));
    }
    if Ranges(k) == Ranges(c) + more {
      assert Whole(k) == Whole(c) + more;
      assert Ranges(root') + more + Whole(c) == Ranges(root) + Whole(c);
      Cancel(Ranges(root') + more, Ranges(root), Whole(c));
    }
  }

  lemma {:induction false} RangesConcat(a: seq<Res>, b: seq<Res>)
    ensures RangesOf(a + b) == RangesOf(a) + RangesOf(b)
  {
    if a == [] {
      assert a + b == b;
    } else {
      assert (a + b)[1..] == a[1..] + b;
      RangesConcat(a[1..], b);
    }
  }

  lemma RangesSplit(kids: seq<Res>, i: nat)
    requires i < |kids|
    ensures RangesOf(kids) == RangesOf(kids[..i]) + Whole(kids[i]) + RangesOf(kids[i + 1..])
  {
    assert kids == kids[..i] + kids[i..];
    RangesConcat(kids[..i], kids[i..]);
    assert kids[i..][1..] == kids[i + 1..];
  }

  lemma RangesInsert(a: seq<Res>, r: Res, b: seq<Res>)
    ensures RangesOf(a + [r] + b) == RangesOf(a + b) + Whole(r)
  {
    RangesConcat(a + [r], b);
    RangesConcat(a, [r]);
    RangesConcat(a, b);
    assert [r][1..] == [];
  }

  lemma InsertAdds(root: Res, i: nat, r: Res)
    requires i <= |root.child|
    ensures Ranges(InsertAt(root, i, r)) == Ranges(root) + Whole(r)
  {
    RangesInsert(root.child[..i], r, root.child[i..]);
    assert root.child[..i] + root.child[i..] == root.child;
  }

  lemma RemoveTakes(root: Res, i: nat)
    requires i < |root.child|
    ensures Ranges(root) == Ranges(RemoveAt(root, i)) + Whole(root.child[i])
  {
    RangesSplit(root.child, i);
    RangesConcat(root.child[..i], root.child[i + 1..]);
  }

  lemma SetChildSwaps(root: Res, i: nat, c: Res)
    requires i < |root.child|
    ensures Ranges(SetChild(root, i, c)) + Whole(root.child[i]) == Ranges(root) + Whole(c)
  {
    var kids := SetChild(root, i, c).child;
    RangesSplit(root.child, i);
    RangesSplit(kids, i);
    assert kids[..i] == root.child[..i] && kids[i + 1..] == root.child[i + 1..];
  }

  // The tree is the old one with r added.
  ghost predicate Added(root: Res, r: Res, root': Res) {
    RangeOf(root') == RangeOf(root) && Ranges(root') == Ranges(root) + Whole(r)
  }

  /** A granted request adds exactly the new resource, as a child. */
  lemma RequestAdds(root: Res, r: Res)
    requires Request(root, r).Some?
    ensures Added(root, r, Request(root, r).value)
    ensures forall x :: x in Request(root, r).value.child <==> x == r || x in root.child
  {
    var i := Ask(root, r).at;
    InsertAdds(root, i, r);
    assert root.child == root.child[..i] + root.child[i..];
  }

  /** So does an allocation. */
  lemma AllocateAdds(root: Res, size: nat, min: nat, max: int, align: nat, busy: bool)
    requires align > 0 && Allocate(root, size, min, max, align, busy).Some?
    ensures var (root', r) := Allocate(root, size, min, max, align, busy).value;
            Added(root, r, root') && r in root'.child && r.busy == busy && r.end - r.start + 1 == size
  {
    var slot := Find(root, size, min, max, align, 0, root.start).value;
    RequestAdds(root, Res(slot.start, slot.start + size - 1, busy, []));
  }

  /** A granted region is added, somewhere below; nothing else changes. */
  lemma {:induction false} RegionAdds(root: Res, r: Res)
    requires RequestRegion(root, r).Some?
    ensures Added(root, r, RequestRegion(root, r).value)
    decreases root
  {
    var a := Ask(root, r);
    if a.Insert? {
      InsertAdds(root, a.at, r);
    } else {
      var k := root.child[a.at];
      RegionAdds(k, r);
      ChildGrows(root, a.at, RequestRegion(k, r).value, Whole(r));
    }
  }

  // ----- releasing -----

  // d lies below the resource, with nothing busy in between.
  ghost predicate Exposed(root: Res, d: Res)
    decreases root
  {
    d in root.child || exists i :: 0 <= i < |root.child| && !root.child[i].busy && Exposed(root.child[i], d)
  }

  predicate SameRegion(d: Res, r: Res) {
    d.busy && d.start == r.start && d.end == r.end
  }

  lemma {:induction false} ReleaseFinds(root: Res, r: Res, i: nat) returns (d: Res)
    requires i <= |root.child| && ReleaseFrom(root, r, i).Some?
    ensures Exposed(root, d) && SameRegion(d, r)
    ensures var root' := ReleaseFrom(root, r, i).value;
            RangeOf(root') == RangeOf(root) && Ranges(root) == Ranges(root') + Whole(d)
    decreases root, |root.child| - i
  {
    var k := root.child[i];
    if Contains(k, r) {
      if k.busy {
        d := k;
        RemoveTakes(root, i);
      } else {
        d := ReleaseFinds(k, r, 0);
        ChildGrows(root, i, ReleaseFrom(k, r, 0).value, Whole(d));
      }
    } else {
      d := ReleaseFinds(root, r, i + 1);
    }
  }

  // Of the children at most one contains the region.
  lemma OneContains(root: Res, r: Res, i: nat, j: nat)
    requires WellFormed(root) && r.start <= r.end && i < |root.child| && j < |root.child|
    requires Contains(root.child[i], r) && Contains(root.child[j], r)
    ensures i == j
  {
  }

  lemma {:induction false} ExposedInside(root: Res, d: Res)
    requires WellFormed(root) && Exposed(root, d)
    ensures Contains(root, d) && d.start <= d.end
    decreases root
  {
    if d !in root.child {
      var i :| 0 <= i < |root.child| && !root.child[i].busy && Exposed(root.child[i], d);
      ExposedInside(root.child[i], d);
    }
  }

  lemma {:induction false} ExposedReleases(root: Res, d: Res, r: Res)
    requires WellFormed(root) && Exposed(root, d) && SameRegion(d, r)
    ensures ReleaseRegion(root, r).Some?
    decreases root
  {
    var i: nat;
    if d in root.child {
      i :| i < |root.child| && root.child[i] == d;
    } else {
      i :| i < |root.child| && !root.child[i].busy && Exposed(root.child[i], d);
      ExposedInside(root.child[i], d);
      ExposedReleases(root.child[i], d, r);
    }
    ExposedInside(root, d);
    forall j: nat | j < i ensures !Contains(root.child[j], r) {
      if Contains(root.child[j], r) { OneContains(root, r, i, j); }
    }
    ReleaseSkips(root, r, 0, i);
    if d in root.child && Exposed(root, d) {
      assert ReleaseFrom(root, r, i).Some?;
    }
  }

  /** A release succeeds exactly when a busy region of exactly these bounds is there that no
      other busy one hides, and takes exactly that one away. */
  lemma ReleaseExact(root: Res, r: Res) returns (d: Res)
    requires WellFormed(root)
    ensures ReleaseRegion(root, r).Some? <==> exists x :: Exposed(root, x) && SameRegion(x, r)
    ensures ReleaseRegion(root, r).Some? ==>
              var root' := ReleaseRegion(root, r).value;
              Exposed(root, d) && SameRegion(d, r) && RangeOf(root') == RangeOf(root) && Ranges(root) == Ranges(root') + Whole(d)
  {
    d := root;
    if ReleaseRegion(root, r).Some? {
      d := ReleaseFinds(root, r, 0);
    } else if x :| Exposed(root, x) && SameRegion(x, r) {
      ExposedReleases(root, x, r);
    }
  }
}

/**
  When allocate_resource succeeds, gap by gap between the siblings, and when there would
  have been room.
 */
module ResourceGaps {
  import opened Options
  import opened Resources

  // What is asked for.
  datatype Want = Want(size: nat, min: nat, max: int, align: nat)

  // ----- gaps -----

  // Gap i lies before child i; the last one ends with the parent.
  function From(root: Res, i: nat): int
    requires i <= |root.child|
  {
    if i == 0 then root.start else root.child[i - 1].end + 1
  }

  // The first address of the gap that may be used.
  function First(root: Res, w: Want, i: nat): nat
    requires i <= |root.child| && w.align > 0
  {
    AlignUp(if From(root, i) < w.min then w.min else From(root, i), w.align)
  }

  // Where find_resource takes the gap to end: on the start of the next child.
  function Limit(root: Res, w: Want, i: nat): int
    requires i <= |root.child|
  {
    var end := if i < |root.child| then root.child[i].start else root.end;
    if end > w.max then w.max else end
  }

  // Where it does end.
  function Last(root: Res, w: Want, i: nat): int
    requires i <= |root.child|
  {
    var end := if i < |root.child| then root.child[i].start - 1 else root.end;
    if end > w.max then w.max else end
  }

  // find_resource's test.
  predicate LooksLarge(root: Res, w: Want, i: nat)
    requires i <= |root.child| && w.align > 0
  {
    First(root, w, i) < Limit(root, w, i) && Limit(root, w, i) - First(root, w, i) + 1 >= w.size
  }

  predicate IsLarge(root: Res, w: Want, i: nat)
    requires i <= |root.child| && w.align > 0
  {
    w.size > 0 && First(root, w, i) + w.size - 1 <= Last(root, w, i)
  }

  // The gap that find_resource settles for.
  ghost predicate Chosen(root: Res, w: Want, i: nat) {
    && w.align > 0 && i <= |root.child| && LooksLarge(root, w, i)
    && forall j: nat :: j < i ==> !LooksLarge(root, w, j)
  }

  // The slot at the beginning of the gap ends before the next child starts.
  predicate EndsBefore(root: Res, w: Want, i: nat)
    requires i <= |root.child| && w.align > 0
  {
    i < |root.child| ==> First(root, w, i) + w.size - 1 < root.child[i].start
  }

  ghost predicate NoneLooksLarge(root: Res, w: Want)
    requires w.align > 0
  {
    forall i: nat :: i <= |root.child| ==> !LooksLarge(root, w, i)
  }

  // ----- the search -----

  lemma {:induction false} FindChooses(root: Res, w: Want, i: nat)
    requires w.align > 0 && i <= |root.child| && forall j: nat :: j < i ==> !LooksLarge(root, w, j)
    ensures var s := Find(root, w.size, w.min, w.max, w.align, i, From(root, i));
            if s.Some? then Chosen(root, w, s.value.gap) && s.value.start == First(root, w, s.value.gap)
            else NoneLooksLarge(root, w)
    decreases |root.child| - i
  {
    if !LooksLarge(root, w, i) && i < |root.child| {
      FindChooses(root, w, i + 1);
    }
  }

  lemma ChosenOnce(root: Res, w: Want, i: nat, j: nat)
    requires Chosen(root, w, i) && Chosen(root, w, j)
    ensures i == j
  {
  }

  /** An allocation succeeds exactly when something is asked for and the first gap that
      looks large enough is: it is the last gap, or the slot ends before the next child. */
  lemma AllocateIff(root: Res, w: Want, busy: bool)
    requires WellFormed(root) && w.align > 0
    ensures Allocate(root, w.size, w.min, w.max, w.align, busy).Some? <==>
            w.size > 0 && exists i: nat :: Chosen(root, w, i) && EndsBefore(root, w, i)
  {
    FindChooses(root, w, 0);
    FindFits(root, w.size, w.min, w.max, w.align, 0, root.start);
    var s := Find(root, w.size, w.min, w.max, w.align, 0, root.start);
    if s.Some? {
      PlaceIff(root, w.size, w.min, w.max, busy, s.value);
      forall i: nat | Chosen(root, w, i) ensures i == s.value.gap {
        ChosenOnce(root, w, i, s.value.gap);
      }
    }
  }

  // ----- room -----

  // Some range of the size asked for is aligned, within bounds and overlaps nothing.
  ghost predicate Room(root: Res, w: Want) {
    w.align > 0 && exists start: nat :: RoomAt(root, w, start)
  }

  ghost predicate RoomAt(root: Res, w: Want, start: nat)
    requires w.align > 0
  {
    start % w.align == 0 && Sound(root, w.size, w.min, w.max, Res(start, start + w.size - 1, false, []))
  }

  lemma QuotientParts(n: nat, a: nat)
    requires a > 0
    ensures n == n / a * a + n % a
  {
  }

  lemma FewerMultiples(q: int, k: int, a: nat)
    requires q * a < k * a + a
    ensures q * a <= k * a
  {
    var d := q - k;
    assert d * a == q * a - k * a;
    if d >= 1 {
      MulAtLeast(d, a);
    } else {
      assert (-d) * a >= 0;
      assert d * a == -((-d) * a);
    }
  }

  lemma AlignUpLeast(x: nat, align: nat, y: nat)
    requires align > 0 && x <= y && y % align == 0
    ensures AlignUp(x, align) <= y
  {
    QuotientParts(x + align - 1, align);
    QuotientParts(y, align);
    FewerMultiples((x + align - 1) / align, y / align, align);
  }

  // A vacant range lies in some gap.
  lemma InSomeGap(root: Res, r: Res) returns (i: nat)
    requires WellFormed(root) && r.start <= r.end && Contains(root, r) && Vacant(root, r)
    ensures i <= |root.child| && From(root, i) <= r.start && (i < |root.child| ==> r.end < root.child[i].start)
  {
    RequestExact(root, r);
    ScanFinds(root.child, r, 0);
    i := Ask(root, r).at;
  }

  lemma RoomInGap(root: Res, w: Want, start: nat) returns (i: nat)
    requires WellFormed(root) && w.align > 0 && RoomAt(root, w, start)
    ensures i <= |root.child| && IsLarge(root, w, i)
  {
    i := InSomeGap(root, Res(start, start + w.size - 1, false, []));
    AlignUpLeast(if From(root, i) < w.min then w.min else From(root, i), w.align, start);
  }

  lemma BeforeGap(root: Res, i: nat, j: nat)
    requires WellFormed(root) && j < i <= |root.child|
    ensures root.child[j].end < From(root, i)
  {
    assert WellFormed(root.child[i - 1]);
  }

  lemma FromInside(root: Res, i: nat)
    requires WellFormed(root) && i <= |root.child|
    ensures root.start <= From(root, i)
  {
    if i > 0 {
      assert Contains(root, root.child[i - 1]) && WellFormed(root.child[i - 1]);
    }
  }

  lemma GapHasRoom(root: Res, w: Want, i: nat)
    requires WellFormed(root) && w.align > 0 && i <= |root.child| && IsLarge(root, w, i)
    ensures RoomAt(root, w, First(root, w, i))
  {
    var start := First(root, w, i);
    var r := Res(start, start + w.size - 1, false, []);
    FromInside(root, i);
    forall j: nat | j < |root.child| ensures !Overlaps(root.child[j], r) {
      if j < i {
        BeforeGap(root, i, j);
      }
    }
    if i < |root.child| {
      assert Contains(root, root.child[i]) && WellFormed(root.child[i]);
    }
    assert Vacant(root, r) && Contains(root, r);
  }

  /** There is room exactly when some gap is large enough. */
  lemma RoomIff(root: Res, w: Want)
    requires WellFormed(root) && w.align > 0
    ensures Room(root, w) <==> exists i: nat :: i <= |root.child| && IsLarge(root, w, i)
  {
    if start: nat :| RoomAt(root, w, start) {
      var i := RoomInGap(root, w, start);
    }
    if i: nat :| i <= |root.child| && IsLarge(root, w, i) {
      GapHasRoom(root, w, i);
    }
  }

  // A gap that is large enough but does not look it has one address to offer.
  lemma OverlookedGap(root: Res, w: Want, i: nat)
    requires w.align > 0 && i <= |root.child|
    ensures IsLarge(root, w, i) && !LooksLarge(root, w, i) <==>
            w.size == 1 && First(root, w, i) == Last(root, w, i) == Limit(root, w, i)
  {
  }

  // The two ways to miss room.
  ghost predicate Collides(root: Res, w: Want)
    requires w.align > 0
  {
    exists i: nat :: Chosen(root, w, i) && i < |root.child| && First(root, w, i) + w.size - 1 == root.child[i].start
  }

  ghost predicate Overlooks(root: Res, w: Want)
    requires w.align > 0
  {
    NoneLooksLarge(root, w) && w.size == 1 &&
      exists i: nat :: i <= |root.child| && First(root, w, i) == Last(root, w, i) == Limit(root, w, i)
  }

  lemma FailsFor(root: Res, w: Want, busy: bool)
    requires WellFormed(root) && w.align > 0 && w.size > 0
    ensures Allocate(root, w.size, w.min, w.max, w.align, busy).None? <==> NoneLooksLarge(root, w) || Collides(root, w)
  {
    AllocateIff(root, w, busy);
    FindChooses(root, w, 0);
    forall i: nat, j: nat | Chosen(root, w, i) && Chosen(root, w, j) ensures i == j {
      ChosenOnce(root, w, i, j);
    }
    forall i: nat | Chosen(root, w, i) ensures First(root, w, i) + w.size - 1 <= Limit(root, w, i) {
    }
  }

  lemma NoneLooksLargeRoom(root: Res, w: Want)
    requires WellFormed(root) && w.align > 0 && NoneLooksLarge(root, w)
    ensures Room(root, w) <==> Overlooks(root, w)
  {
    RoomIff(root, w);
    forall i: nat | i <= |root.child|
      ensures IsLarge(root, w, i) <==> w.size == 1 && First(root, w, i) == Last(root, w, i) == Limit(root, w, i)
    {
      OverlookedGap(root, w, i);
    }
  }

  /** allocate_resource misses room exactly when its slot would end on the start of the
      next child while some gap is large enough, or when one address is asked for and
      every gap that has it has just that one. */
  lemma AllocateMissesIff(root: Res, w: Want, busy: bool)
    requires WellFormed(root) && w.align > 0
    ensures Room(root, w) && Allocate(root, w.size, w.min, w.max, w.align, busy).None? <==>
            Overlooks(root, w) || (Collides(root, w) && exists i: nat :: i <= |root.child| && IsLarge(root, w, i))
  {
    RoomIff(root, w);
    if w.size > 0 {
      FailsFor(root, w, busy);
      if NoneLooksLarge(root, w) {
        NoneLooksLargeRoom(root, w);
      }
    }
  }

  /** Room that is missed because the first slot ends on the next child. */
  lemma AllocateCollides()
    ensures var root := Res(0, 99, false, [Res(9, 19, true, [])]);
            && WellFormed(root) && Allocate(root, 10, 0, 99, 1, true).None?
            && Request(root, Res(20, 29, true, [])).Some?
  {
    var kid := Res(9, 19, true, []);
    var root := Res(0, 99, false, [kid]);
    assert WellFormed(kid);
    assert Find(root, 10, 0, 99, 1, 0, 0) == Some(Slot(0, 0));
    assert Scan(root.child, Res(0, 9, true, []), 0) == Conflict(0);
    assert Scan(root.child, Res(20, 29, true, []), 1) == Insert(1);
  }

  /** Room that is missed because it is a single address. */
  lemma AllocateOverlooks(a: nat, b: nat, x: nat)
    requires a <= x <= b
    ensures var root := Res(a, b, false, []);
            && WellFormed(root) && Allocate(root, 1, x, x, 1, true).None?
            && Request(root, Res(x, x, true, [])).Some?
  {
    var root := Res(a, b, false, []);
    assert Limit(root, Want(1, x, x, 1), 0) == x;
    assert Scan(root.child, Res(x, x, true, []), 0) == Insert(0);
  }
}

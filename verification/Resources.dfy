/**
  The tree of address ranges: requesting, allocating and releasing resources, and
  the busy regions of I/O ports.
 */
module Resources {
  import opened Options

  // Addresses are unbounded; `child` lists the children in sibling order.
  datatype Res = Res(start: nat, end: int, busy: bool, child: seq<Res>)

  predicate Overlaps(a: Res, b: Res) {
    a.start <= b.end && b.start <= a.end
  }

  predicate Contains(a: Res, b: Res) {
    a.start <= b.start && b.end <= a.end
  }

  // ----- well-formed trees -----

  // Siblings are in order and disjoint.
  ghost predicate Ordered(kids: seq<Res>) {
    forall i, j :: 0 <= i < j < |kids| ==> kids[i].end < kids[j].start
  }

  ghost predicate WellFormed(r: Res) {
    && r.start <= r.end && Ordered(r.child)
    && forall i :: 0 <= i < |r.child| ==> Contains(r, r.child[i]) && WellFormed(r.child[i])
  }

  // d lies somewhere below r.
  ghost predicate Below(r: Res, d: Res) {
    exists i :: 0 <= i < |r.child| && (r.child[i] == d || Below(r.child[i], d))
  }

  // ----- __request_resource -----

  datatype Answer = Outside | Conflict(at: nat) | Insert(at: nat)

  // The scan along the siblings, from i on.
  function Scan(kids: seq<Res>, r: Res, i: nat): (a: Answer)
    requires i <= |kids|
    ensures !a.Outside? && (a.Insert? ==> i <= a.at <= |kids|)
    ensures a.Conflict? ==> i <= a.at < |kids|
    decreases |kids| - i
  {
    if i == |kids| || kids[i].start > r.end then Insert(i)
    else if kids[i].end < r.start then Scan(kids, r, i + 1)
    else Conflict(i)
  }

  function Ask(root: Res, r: Res): (a: Answer)
    ensures a.Insert? ==> a.at <= |root.child|
    ensures a.Conflict? ==> a.at < |root.child|
  {
    if r.end < r.start || r.start < root.start || r.end > root.end then Outside
    else Scan(root.child, r, 0)
  }

  function InsertAt(root: Res, i: nat, r: Res): Res
    requires i <= |root.child|
  {
    root.(child := root.child[..i] + [r] + root.child[i..])
  }

  function RemoveAt(root: Res, i: nat): Res
    requires i < |root.child|
  {
    root.(child := root.child[..i] + root.child[i + 1..])
  }

  function Request(root: Res, r: Res): Option<Res> {
    var a := Ask(root, r);
    if a.Insert? then Some(InsertAt(root, a.at, r)) else None
  }

  // Nothing before i reaches up to r.
  ghost predicate Passed(kids: seq<Res>, r: Res, i: nat) {
    i <= |kids| && forall j :: 0 <= j < i ==> kids[j].end < r.start
  }

  lemma {:induction false} ScanFinds(kids: seq<Res>, r: Res, i: nat)
    requires Ordered(kids) && Passed(kids, r, i) && r.start <= r.end
    requires forall j :: 0 <= j < |kids| ==> kids[j].start <= kids[j].end
    ensures var a := Scan(kids, r, i);
            && (a.Conflict? ==> Overlaps(kids[a.at], r) && Passed(kids, r, a.at))
            && (a.Insert? ==> Passed(kids, r, a.at) && forall j :: a.at <= j < |kids| ==> r.end < kids[j].start)
    decreases |kids| - i
  {
    if i < |kids| && !(kids[i].start > r.end) && kids[i].end < r.start {
      ScanFinds(kids, r, i + 1);
    }
  }

  // No child of root overlaps r.
  ghost predicate Vacant(root: Res, r: Res) {
    forall i :: 0 <= i < |root.child| ==> !Overlaps(root.child[i], r)
  }

  /** A request is granted exactly when the range is not empty, lies inside and
      overlaps no child; otherwise the conflict reported is the first overlap. */
  lemma RequestExact(root: Res, r: Res)
    requires WellFormed(root)
    ensures Request(root, r).Some? <==>
            r.start <= r.end && Contains(root, r) && Vacant(root, r)
    ensures var a := Ask(root, r);
            a.Conflict? ==> Overlaps(root.child[a.at], r) && forall i :: 0 <= i < a.at ==> !Overlaps(root.child[i], r)
  {
    if r.start <= r.end {
      ScanFinds(root.child, r, 0);
      var a := Ask(root, r);
      if a.Conflict? {
        assert Overlaps(root.child[a.at], r);
      } else if a.Insert? {
        forall i | 0 <= i < |root.child| ensures !Overlaps(root.child[i], r) {
        }
      }
    }
  }

  lemma InsertOrdered(kids: seq<Res>, r: Res, i: nat)
    requires Ordered(kids) && Passed(kids, r, i) && forall j :: i <= j < |kids| ==> r.end < kids[j].start
    ensures Ordered(kids[..i] + [r] + kids[i..])
  {
  }

  /** A granted request keeps the siblings sorted, disjoint and inside. */
  lemma RequestKeepsTree(root: Res, r: Res)
    requires WellFormed(root) && WellFormed(r) && Request(root, r).Some?
    ensures WellFormed(Request(root, r).value)
  {
    var i := Ask(root, r).at;
    ScanFinds(root.child, r, 0);
    InsertOrdered(root.child, r, i);
    var kids := root.child[..i] + [r] + root.child[i..];
    forall j | 0 <= j < |kids| ensures Contains(root, kids[j]) && WellFormed(kids[j]) {
      if j > i {
        assert kids[j] == root.child[j - 1];
      }
    }
  }

  lemma RemoveKeepsTree(root: Res, i: nat)
    requires WellFormed(root) && i < |root.child|
    ensures WellFormed(RemoveAt(root, i))
  {
    var kids := root.child[..i] + root.child[i + 1..];
    forall j | 0 <= j < |kids| ensures kids[j] == root.child[if j < i then j else j + 1] {
    }
  }

  // ----- find_resource and allocate_resource -----

  function AlignUp(x: nat, align: nat): (r: nat)
    requires align > 0
    ensures r >= x && r % align == 0
  {
    var q := (x + align - 1) / align;
    MultipleAligned(q, align);
    RoundedUp(x, align);
    q * align
  }

  lemma MulAtLeast(k: int, a: nat)
    requires k >= 1
    ensures k * a >= a
  {
    assert k * a == (k - 1) * a + a;
    assert (k - 1) * a >= 0;
  }

  lemma MultipleAligned(q: nat, align: nat)
    requires align > 0
    ensures q * align >= 0 && (q * align) % align == 0
  {
    var x := q * align;
    var d, m := x / align, x % align;
    assert x == d * align + m;
    assert (q - d) * align == q * align - d * align == m;
    if q - d >= 1 {
      MulAtLeast(q - d, align);
    } else if q - d <= -1 {
      MulAtLeast(d - q, align);
    }
  }

  lemma RoundedUp(x: nat, align: nat)
    requires align > 0
    ensures (x + align - 1) / align * align >= x
  {
    var y := x + align - 1;
    assert y == y / align * align + y % align;
  }

  datatype Slot = Slot(gap: nat, start: nat)

  // The gap before child i: from `from` to the start of that child.
  function Find(root: Res, size: nat, min: nat, max: int, align: nat, i: nat, from: int): Option<Slot>
    requires align > 0 && i <= |root.child|
    decreases |root.child| - i
  {
    var end := if i < |root.child| then root.child[i].start else root.end;
    var start := AlignUp(if from < min then min else from, align);
    var limit := if end > max then max else end;
    if start < limit && limit - start + 1 >= size then Some(Slot(i, start))
    else if i == |root.child| then None
    else Find(root, size, min, max, align, i + 1, root.child[i].end + 1)
  }

  // Ask for the slot that was found.
  function Place(root: Res, size: nat, busy: bool, s: Slot): Option<(Res, Res)> {
    var r := Res(s.start, s.start + size - 1, busy, []);
    var root' := Request(root, r);
    if root'.None? then None else Some((root'.value, r))
  }

  function Allocate(root: Res, size: nat, min: nat, max: int, align: nat, busy: bool): Option<(Res, Res)>
    requires align > 0
  {
    var slot := Find(root, size, min, max, align, 0, root.start);
    if slot.None? then None else Place(root, size, busy, slot.value)
  }

  // What find_resource knows of the slot it picks.
  ghost predicate Fits(root: Res, size: nat, min: nat, max: int, s: Slot) {
    && s.gap <= |root.child| && min <= s.start && root.start <= s.start
    && (forall j :: 0 <= j < s.gap ==> root.child[j].end < s.start)
    && (s.gap < |root.child| ==> s.start + size - 1 <= root.child[s.gap].start)
    && s.start + size - 1 <= max && s.start + size - 1 <= root.end
  }

  lemma {:induction false} FindFits(root: Res, size: nat, min: nat, max: int, align: nat, i: nat, from: int)
    requires WellFormed(root) && align > 0 && i <= |root.child| && root.start <= from
    requires forall j :: 0 <= j < i ==> root.child[j].end < from
    ensures var s := Find(root, size, min, max, align, i, from);
            s.Some? ==> Fits(root, size, min, max, s.value) && s.value.start % align == 0
    decreases |root.child| - i
  {
    if i < |root.child| {
      assert Contains(root, root.child[i]) && WellFormed(root.child[i]);
      FindFits(root, size, min, max, align, i + 1, root.child[i].end + 1);
    }
  }

  ghost predicate Sound(root: Res, size: nat, min: nat, max: int, r: Res) {
    && r.end - r.start + 1 == size && min <= r.start && r.end <= max
    && r.start <= r.end && Contains(root, r) && Vacant(root, r)
  }

  lemma GrantedSound(root: Res, size: nat, min: nat, max: int, s: Slot, r: Res)
    requires WellFormed(root) && Fits(root, size, min, max, s)
    requires r.start == s.start && r.end == s.start + size - 1 && r.child == []
    ensures Request(root, r).Some? ==> Sound(root, size, min, max, r) && WellFormed(Request(root, r).value)
  {
    RequestExact(root, r);
    if Request(root, r).Some? {
      RequestKeepsTree(root, r);
    }
  }

  lemma PlaceSound(root: Res, size: nat, min: nat, max: int, busy: bool, s: Slot)
    requires WellFormed(root) && Fits(root, size, min, max, s)
    ensures var a := Place(root, size, busy, s);
            a.Some? ==> a.value.1.start == s.start && Sound(root, size, min, max, a.value.1) && WellFormed(a.value.0)
  {
    GrantedSound(root, size, min, max, s, Res(s.start, s.start + size - 1, busy, []));
  }

  // The slot is clear of the children, or runs into the next one.
  lemma SlotVacant(root: Res, size: nat, min: nat, max: int, s: Slot, r: Res)
    requires WellFormed(root) && Fits(root, size, min, max, s) && size > 0
    requires r.start == s.start && r.end == s.start + size - 1
    ensures Vacant(root, r) <==> !(s.gap < |root.child| && r.end == root.child[s.gap].start)
  {
    if s.gap < |root.child| {
      assert WellFormed(root.child[s.gap]);
      assert Overlaps(root.child[s.gap], r) <==> root.child[s.gap].start == r.end;
      forall j | s.gap < j < |root.child| ensures !Overlaps(root.child[j], r) {
      }
    }
  }

  lemma RequestSlot(root: Res, size: nat, min: nat, max: int, s: Slot, r: Res)
    requires WellFormed(root) && Fits(root, size, min, max, s)
    requires r.start == s.start && r.end == s.start + size - 1
    ensures Request(root, r).None? <==>
            size == 0 || (s.gap < |root.child| && r.end == root.child[s.gap].start)
  {
    RequestExact(root, r);
    if size > 0 {
      SlotVacant(root, size, min, max, s, r);
    }
  }

  lemma PlaceIff(root: Res, size: nat, min: nat, max: int, busy: bool, s: Slot)
    requires WellFormed(root) && Fits(root, size, min, max, s)
    ensures Place(root, size, busy, s).None? <==>
            size == 0 || (s.gap < |root.child| && s.start + size - 1 == root.child[s.gap].start)
  {
    RequestSlot(root, size, min, max, s, Res(s.start, s.start + size - 1, busy, []));
  }

  /** What allocate_resource accepts is aligned, of the size asked for, within
      min..max and overlaps nothing, and the tree stays well formed. */
  lemma AllocateSound(root: Res, size: nat, min: nat, max: int, align: nat, busy: bool)
    requires WellFormed(root) && align > 0
    ensures var a := Allocate(root, size, min, max, align, busy);
            a.Some? ==>
              && a.value.1.start % align == 0 && Sound(root, size, min, max, a.value.1) && WellFormed(a.value.0)
  {
    FindFits(root, size, min, max, align, 0, root.start);
    var slot := Find(root, size, min, max, align, 0, root.start);
    if slot.Some? {
      PlaceSound(root, size, min, max, busy, slot.value);
    }
  }

  // ----- regions -----

  function SetChild(root: Res, i: nat, c: Res): Res
    requires i < |root.child|
  {
    root.(child := root.child[i := c])
  }

  // __request_region: go down into children that are not busy.
  function RequestRegion(root: Res, r: Res): Option<Res> {
    match Ask(root, r)
    case Outside => None
    case Insert(i) => Some(InsertAt(root, i, r))
    case Conflict(i) =>
      if root.child[i].busy then None
      else
        var c := RequestRegion(root.child[i], r);
        if c.None? then None else Some(SetChild(root, i, c.value))
  }

  // __release_region, from child i on.
  function ReleaseFrom(root: Res, r: Res, i: nat): Option<Res>
    requires i <= |root.child|
    decreases root, |root.child| - i
  {
    if i == |root.child| then None
    else
      var k := root.child[i];
      if Contains(k, r) then
        if !k.busy then
          var c := ReleaseFrom(k, r, 0);
          if c.None? then None else Some(SetChild(root, i, c.value))
        else if k.start != r.start || k.end != r.end then None
        else Some(RemoveAt(root, i))
      else ReleaseFrom(root, r, i + 1)
  }

  function ReleaseRegion(root: Res, r: Res): Option<Res> {
    ReleaseFrom(root, r, 0)
  }

  // Everything below that overlaps the range is not busy and contains all of it.
  ghost predicate Clear(root: Res, r: Res) {
    forall d :: Below(root, d) && Overlaps(d, r) ==> !d.busy && Contains(d, r)
  }

  lemma {:induction false} BelowInside(root: Res, d: Res)
    requires WellFormed(root) && Below(root, d)
    ensures WellFormed(d) && Contains(root, d)
    decreases root
  {
    var i :| 0 <= i < |root.child| && (root.child[i] == d || Below(root.child[i], d));
    if root.child[i] != d {
      BelowInside(root.child[i], d);
    }
  }

  lemma ChildBelow(root: Res, i: nat)
    requires i < |root.child|
    ensures Below(root, root.child[i])
  {
  }

  lemma ClearBelow(root: Res, r: Res, i: nat)
    requires WellFormed(root) && i < |root.child| && Contains(root.child[i], r) && r.start <= r.end && !root.child[i].busy
    requires forall j :: 0 <= j < |root.child| && j != i ==> !Overlaps(root.child[j], r)
    ensures Clear(root, r) <==> Clear(root.child[i], r)
  {
    forall d | Below(root, d) && Overlaps(d, r) ensures d == root.child[i] || Below(root.child[i], d) {
      var j :| 0 <= j < |root.child| && (root.child[j] == d || Below(root.child[j], d));
      if j != i && root.child[j] != d {
        BelowInside(root.child[j], d);
      }
    }
  }

  lemma ClearChildless(root: Res, r: Res)
    requires WellFormed(root) && Vacant(root, r)
    ensures Clear(root, r)
  {
    forall d | Below(root, d) ensures !Overlaps(d, r) {
      var j :| 0 <= j < |root.child| && (root.child[j] == d || Below(root.child[j], d));
      if root.child[j] != d {
        BelowInside(root.child[j], d);
      }
    }
  }

  // Siblings of a child that contains the range stay clear of it.
  lemma OthersApart(root: Res, r: Res, i: nat)
    requires WellFormed(root) && i < |root.child| && Contains(root.child[i], r) && r.start <= r.end
    ensures forall j :: 0 <= j < |root.child| && j != i ==> !Overlaps(root.child[j], r)
  {
  }

  /** A region is granted exactly when it is not empty, lies inside, and everything
      below that it overlaps is not busy and contains it. */
  lemma {:induction false} RequestRegionExact(root: Res, r: Res)
    requires WellFormed(root)
    ensures RequestRegion(root, r).Some? <==> r.start <= r.end && Contains(root, r) && Clear(root, r)
    decreases root
  {
    RequestExact(root, r);
    var a := Ask(root, r);
    if a.Conflict? {
      var k := root.child[a.at];
      ChildBelow(root, a.at);
      RequestRegionExact(k, r);
      if Contains(k, r) && !k.busy {
        OthersApart(root, r, a.at);
        ClearBelow(root, r, a.at);
      }
    } else if a.Insert? {
      ClearChildless(root, r);
    }
  }

  lemma SetChildKeepsTree(root: Res, i: nat, c: Res)
    requires WellFormed(root) && i < |root.child| && WellFormed(c)
    requires c.start == root.child[i].start && c.end == root.child[i].end
    ensures WellFormed(SetChild(root, i, c))
  {
  }

  lemma {:induction false} RequestRegionKeepsTree(root: Res, r: Res)
    requires WellFormed(root) && WellFormed(r) && RequestRegion(root, r).Some?
    ensures var root' := RequestRegion(root, r).value;
            WellFormed(root') && root'.start == root.start && root'.end == root.end && root'.busy == root.busy
    decreases root
  {
    var a := Ask(root, r);
    if a.Conflict? {
      RequestRegionKeepsTree(root.child[a.at], r);
      SetChildKeepsTree(root, a.at, RequestRegion(root.child[a.at], r).value);
    } else {
      RequestKeepsTree(root, r);
    }
  }

  lemma {:induction false} ReleaseKeepsTree(root: Res, r: Res, i: nat)
    requires WellFormed(root) && i <= |root.child| && ReleaseFrom(root, r, i).Some?
    ensures var root' := ReleaseFrom(root, r, i).value;
            WellFormed(root') && root'.start == root.start && root'.end == root.end && root'.busy == root.busy
    decreases root, |root.child| - i
  {
    var k := root.child[i];
    if !Contains(k, r) {
      ReleaseKeepsTree(root, r, i + 1);
    } else if !k.busy {
      ReleaseKeepsTree(k, r, 0);
      SetChildKeepsTree(root, i, ReleaseFrom(k, r, 0).value);
    } else {
      RemoveKeepsTree(root, i);
    }
  }

  // The scan of __release_region passes the children before the one that contains the range.
  lemma {:induction false} ReleaseSkips(root: Res, r: Res, i: nat, n: nat)
    requires i <= n <= |root.child| && forall j :: i <= j < n ==> !Contains(root.child[j], r)
    ensures ReleaseFrom(root, r, i) == ReleaseFrom(root, r, n)
    decreases n - i
  {
    if i < n {
      ReleaseSkips(root, r, i + 1, n);
    }
  }

  lemma InsertRemove(root: Res, i: nat, r: Res)
    requires i <= |root.child|
    ensures RemoveAt(InsertAt(root, i, r), i) == root
  {
    var kids := InsertAt(root, i, r).child;
    assert kids[..i] + kids[i + 1..] == root.child;
  }

  // At the level where the region was put in.
  lemma ReleaseHere(root: Res, r: Res)
    requires WellFormed(root) && r.busy && Ask(root, r).Insert?
    ensures ReleaseRegion(InsertAt(root, Ask(root, r).at, r), r) == Some(root)
  {
    var i := Ask(root, r).at;
    var root' := InsertAt(root, i, r);
    ScanFinds(root.child, r, 0);
    forall j | 0 <= j < i ensures !Contains(root'.child[j], r) {
      assert root'.child[j] == root.child[j];
    }
    ReleaseSkips(root', r, 0, i);
    InsertRemove(root, i, r);
  }

  // On the way down to it.
  lemma ReleaseDown(root: Res, r: Res, i: nat, k': Res)
    requires WellFormed(root) && r.start <= r.end && i < |root.child| && Passed(root.child, r, i)
    requires Contains(k', r) && !k'.busy && ReleaseRegion(k', r) == Some(root.child[i])
    ensures ReleaseRegion(SetChild(root, i, k'), r) == Some(root)
  {
    var root' := SetChild(root, i, k');
    forall j | 0 <= j < i ensures !Contains(root'.child[j], r) {
      assert root'.child[j] == root.child[j];
    }
    ReleaseSkips(root', r, 0, i);
    assert root'.child[i := root.child[i]] == root.child;
  }

  /** Releasing a region right after requesting it restores the tree. */
  lemma {:induction false} RegionRoundTrip(root: Res, r: Res)
    requires WellFormed(root) && r.busy && RequestRegion(root, r).Some?
    ensures ReleaseRegion(RequestRegion(root, r).value, r) == Some(root)
    decreases root
  {
    var a := Ask(root, r);
    if a.Conflict? {
      var k := root.child[a.at];
      RegionRoundTrip(k, r);
      KeepsEnds(k, r);
      ScanFinds(root.child, r, 0);
      ReleaseDown(root, r, a.at, RequestRegion(k, r).value);
    } else {
      ReleaseHere(root, r);
    }
  }

  lemma KeepsEnds(root: Res, r: Res)
    requires RequestRegion(root, r).Some?
    ensures var root' := RequestRegion(root, r).value;
            && root'.start == root.start && root'.end == root.end && root'.busy == root.busy
            && r.start <= r.end && Contains(root, r)
  {
  }
}

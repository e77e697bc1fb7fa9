/**
  The resource tree as it is updated in place, node by node along a path from the
  root.
 */
module ResourceTree {
  import opened Options
  import opened Resources

  // ----- nodes by path -----

  predicate ValidPath(root: Res, path: seq<nat>)
    decreases |path|
  {
    path == [] || (path[0] < |root.child| && ValidPath(root.child[path[0]], path[1..]))
  }

  function Sub(root: Res, path: seq<nat>): Res
    requires ValidPath(root, path)
    decreases |path|
  {
    if path == [] then root else Sub(root.child[path[0]], path[1..])
  }

  // The tree with another node at the end of the path.
  function Put(root: Res, path: seq<nat>, r: Res): Res
    requires ValidPath(root, path)
    decreases |path|
  {
    if path == [] then r else SetChild(root, path[0], Put(root.child[path[0]], path[1..], r))
  }

  function PutResult(root: Res, path: seq<nat>, r: Option<Res>): Option<Res>
    requires ValidPath(root, path)
  {
    if r.None? then None else Some(Put(root, path, r.value))
  }

  lemma {:induction false} Deeper(root: Res, path: seq<nat>, i: nat, r: Res)
    requires ValidPath(root, path) && i < |Sub(root, path).child|
    ensures ValidPath(root, path + [i]) && Sub(root, path + [i]) == Sub(root, path).child[i]
    ensures Put(root, path + [i], r) == Put(root, path, SetChild(Sub(root, path), i, r))
    decreases |path|
  {
    if path == [] {
      assert (path + [i])[1..] == [];
    } else {
      assert (path + [i])[1..] == path[1..] + [i];
      Deeper(root.child[path[0]], path[1..], i, r);
    }
  }

  lemma {:induction false} SubWellFormed(root: Res, path: seq<nat>)
    requires WellFormed(root) && ValidPath(root, path)
    ensures WellFormed(Sub(root, path))
    decreases |path|
  {
    if path != [] {
      SubWellFormed(root.child[path[0]], path[1..]);
    }
  }

  lemma {:induction false} PutKeepsTree(root: Res, path: seq<nat>, r: Res)
    requires WellFormed(root) && ValidPath(root, path) && WellFormed(r)
    requires r.start == Sub(root, path).start && r.end == Sub(root, path).end
    ensures WellFormed(Put(root, path, r)) && Put(root, path, r).start == root.start && Put(root, path, r).end == root.end
    decreases |path|
  {
    if path != [] {
      PutKeepsTree(root.child[path[0]], path[1..], r);
      SetChildKeepsTree(root, path[0], Put(root.child[path[0]], path[1..], r));
    }
  }

  // ----- the loops -----

  // The loop of __request_resource along the siblings.
  method Locate(parent: Res, r: Res) returns (a: Answer)
    ensures a == Ask(parent, r)
  {
    if r.end < r.start || r.start < parent.start || r.end > parent.end {
      return Outside;
    }
    var i := 0;
    while i < |parent.child| && parent.child[i].start <= r.end
      invariant 0 <= i <= |parent.child|
      invariant Scan(parent.child, r, i) == Ask(parent, r)
    {
      if !(parent.child[i].end < r.start) {
        return Conflict(i);
      }
      i := i + 1;
    }
    return Insert(i);
  }

  // The loop of find_resource over the gaps.
  method FindSlot(root: Res, size: nat, min: nat, max: int, align: nat) returns (slot: Option<Slot>)
    requires align > 0
    ensures slot == Find(root, size, min, max, align, 0, root.start)
  {
    var i: nat, from: int := 0, root.start;
    while true
      invariant i <= |root.child|
      invariant Find(root, size, min, max, align, i, from) == Find(root, size, min, max, align, 0, root.start)
      decreases |root.child| - i
    {
      var end := if i < |root.child| then root.child[i].start else root.end;
      var start := from;
      if start < min {
        start := min;
      }
      if end > max {
        end := max;
      }
      start := AlignUp(start, align);
      if start < end && end - start + 1 >= size {
        return Some(Slot(i, start));
      }
      if i == |root.child| {
        return None;
      }
      from, i := root.child[i].end + 1, i + 1;
    }
  }

  class ResourceTree {
    var root: Res

    constructor (start: nat, end: int)
      requires start <= end
      ensures WellFormed(root) && root == Res(start, end, false, [])
    {
      root := Res(start, end, false, []);
    }

    method RequestResource(path: seq<nat>, r: Res) returns (granted: bool)
      requires WellFormed(root) && WellFormed(r) && ValidPath(root, path)
      modifies this
      ensures WellFormed(root)
      ensures granted <==> Request(Sub(old(root), path), r).Some?
      ensures root == if granted then Put(old(root), path, Request(Sub(old(root), path), r).value) else old(root)
    {
      SubWellFormed(root, path);
      var parent := Sub(root, path);
      var a := Locate(parent, r);
      granted := a.Insert?;
      if granted {
        RequestKeepsTree(parent, r);
        PutKeepsTree(root, path, InsertAt(parent, a.at, r));
        root := Put(root, path, InsertAt(parent, a.at, r));
      }
    }

    method AllocateResource(size: nat, min: nat, max: int, align: nat, busy: bool) returns (r: Option<Res>)
      requires WellFormed(root) && align > 0
      modifies this
      ensures WellFormed(root)
      ensures var a := Allocate(old(root), size, min, max, align, busy);
              if a.Some? then root == a.value.0 && r == Some(a.value.1) else root == old(root) && r.None?
    {
      AllocateSound(root, size, min, max, align, busy);
      var slot := FindSlot(root, size, min, max, align);
      if slot.None? {
        return None;
      }
      var c := Res(slot.value.start, slot.value.start + size - 1, busy, []);
      var a := Locate(root, c);
      if !a.Insert? {
        return None;
      }
      root := InsertAt(root, a.at, c);
      return Some(c);
    }

    method RequestRegionAt(start: nat, n: nat) returns (granted: bool)
      requires WellFormed(root)
      modifies this
      ensures var r := Res(start, start + n - 1, true, []);
              && (granted <==> RequestRegion(old(root), r).Some?)
              && root == (if granted then RequestRegion(old(root), r).value else old(root))
      ensures WellFormed(root)
    {
      var r := Res(start, start + n - 1, true, []);
      var path: seq<nat> := [];
      var parent := root;
      while true
        invariant root == old(root) && ValidPath(root, path) && parent == Sub(root, path)
        invariant PutResult(root, path, RequestRegion(parent, r)) == RequestRegion(root, r)
        decreases parent
      {
        var a := Locate(parent, r);
        if a.Insert? {
          root := Put(root, path, InsertAt(parent, a.at, r));
          RequestRegionKeepsTree(old(root), r);
          return true;
        }
        if a.Outside? || parent.child[a.at].busy {
          return false;
        }
        GoDown(root, path, a.at, RequestRegion(parent.child[a.at], r));
        path, parent := path + [a.at], parent.child[a.at];
      }
    }

    method ReleaseRegionAt(start: nat, n: nat) returns (released: bool)
      requires WellFormed(root)
      modifies this
      ensures var r := Res(start, start + n - 1, true, []);
              && (released <==> ReleaseRegion(old(root), r).Some?)
              && root == (if released then ReleaseRegion(old(root), r).value else old(root))
      ensures WellFormed(root)
    {
      var r := Res(start, start + n - 1, true, []);
      var path: seq<nat> := [];
      var parent, i := root, 0;
      while i < |parent.child|
        invariant root == old(root) && ValidPath(root, path) && parent == Sub(root, path) && 0 <= i <= |parent.child|
        invariant PutResult(root, path, ReleaseFrom(parent, r, i)) == ReleaseRegion(root, r)
        decreases parent, |parent.child| - i
      {
        var k := parent.child[i];
        if Contains(k, r) {
          if !k.busy {
            GoDown(root, path, i, ReleaseFrom(k, r, 0));
            path, parent, i := path + [i], k, 0;
          } else if k.start != r.start || k.end != r.end {
            return false;
          } else {
            root := Put(root, path, RemoveAt(parent, i));
            ReleaseKeepsTree(old(root), r, 0);
            return true;
          }
        } else {
          i := i + 1;
        }
      }
      return false;
    }
  }

  // What a child's result makes of the tree.
  lemma GoDown(root: Res, path: seq<nat>, i: nat, c: Option<Res>)
    requires ValidPath(root, path) && i < |Sub(root, path).child|
    ensures ValidPath(root, path + [i]) && Sub(root, path + [i]) == Sub(root, path).child[i]
    ensures PutResult(root, path + [i], c)
         == PutResult(root, path, if c.None? then None else Some(SetChild(Sub(root, path), i, c.value)))
  {
    Deeper(root, path, i, if c.Some? then c.value else root);
  }
}

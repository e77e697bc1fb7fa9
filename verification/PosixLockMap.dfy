/**
  The edit of posix_lock_file on a canonical list: afterwards the list is again
  canonical and the caller's byte map is the old one overwritten on the
  requested range -- unless the request ends at OFFSET_MAX and touches an own
  lock of the same kind, where `fl_end + 1` wraps and the sweep stops early.
 */
module PosixLockMap {
  import opened PosixLocks
  import opened PosixLockSafety

  // What byte `b` should be after the edit of a run.
  ghost predicate Want(run: seq<Lock>, req: Request, k: Kind, b: int) {
    if InRange(req, b) then k == req.kind && k != Unlock else Covers(run, k, b)
  }

  predicate BelowReq(a: Lock, r: Request) {
    a.end < r.start && (a.kind == r.kind ==> a.end + 1 < r.start)
  }

  predicate AboveReq(a: Lock, r: Request) {
    a.start > r.end && (a.kind == r.kind ==> a.start > r.end + 1)
  }

  // The request runs into the wrap of `fl_end + 1`: an own lock of the same kind
  // touches it and the request reaches the end of the file space.
  predicate Touches(l: Lock, r: Request) {
    l.kind == r.kind && l.end >= r.start - 1
  }

  ghost predicate RunWraps(run: seq<Lock>, r: Request) {
    r.end == OFFSET_MAX && exists i :: 0 <= i < |run| && Touches(run[i], r)
  }

  // ----- sorted runs -----

  lemma SortedConcat(s: seq<Lock>, t: seq<Lock>)
    requires Sorted(s) && Sorted(t)
    requires forall i, j :: 0 <= i < |s| && 0 <= j < |t| ==> Below(s[i], t[j])
    ensures Sorted(s + t)
  {
  }

  lemma SortedParts(s: seq<Lock>, t: seq<Lock>)
    requires Sorted(s + t)
    ensures Sorted(s) && Sorted(t)
    ensures forall i, j :: 0 <= i < |s| && 0 <= j < |t| ==> Below(s[i], t[j])
  {
    var u := s + t;
    assert forall i :: 0 <= i < |s| ==> s[i] == u[i];
    assert forall j :: 0 <= j < |t| ==> t[j] == u[|s| + j];
  }

  lemma CoversConcat(s: seq<Lock>, t: seq<Lock>, k: Kind, b: int)
    ensures Covers(s + t, k, b) <==> Covers(s, k, b) || Covers(t, k, b)
  {
    var u := s + t;
    if Covers(s, k, b) {
      var i :| 0 <= i < |s| && Has(s[i], k, b);
      assert u[i] == s[i];
    }
    if Covers(t, k, b) {
      var i :| 0 <= i < |t| && Has(t[i], k, b);
      assert u[|s| + i] == t[i];
    }
  }

  // In a sorted run a byte of one lock belongs to no other.
  lemma OnlyOne(s: seq<Lock>, i: int, k: Kind, b: int)
    requires Sorted(s) && 0 <= i < |s| && s[i].start <= b <= s[i].end
    ensures Covers(s, k, b) <==> k == s[i].kind
  {
    assert Has(s[i], s[i].kind, b);
    forall j | 0 <= j < |s| && j != i ensures !Has(s[j], k, b) {
      if j < i {
        assert Below(s[j], s[i]);
      } else {
        assert Below(s[i], s[j]);
      }
    }
  }

  // ----- the invariant of the sweep -----

  // `done` is x + l + a: locks below the request, the lock to be cut (at most
  // one), the entry that stands for the request (at most one).
  ghost predicate Shape(s: Sweep, x: seq<Lock>, l: seq<Lock>, a: seq<Lock>) {
    && s.done == x + l + a && |l| <= 1 && |a| <= 1
    && s.left == (if l == [] then -1 else |x|)
    && s.at == (if a == [] then -1 else |x| + |l|)
    && ValidRequest(s.req)
    && Sorted(x + l + s.todo)
    && (forall i :: 0 <= i < |x| ==> BelowReq(x[i], s.req))
    && (l != [] ==> l[0].kind != s.req.kind && l[0].start < s.req.start <= l[0].end <= s.req.end)
    && (a != [] ==> a[0].kind == s.req.kind && a[0].start == s.req.start && a[0].end == s.req.end)
    && (l != [] || a != [] ==> forall j :: 0 <= j < |s.todo| ==> s.todo[j].start > s.req.start)
    && (s.req.kind == Unlock ==> a == [] && (l != [] ==> s.added))
    && (s.req.kind != Unlock ==> (s.added <==> a != []))
    && !RunWraps(s.todo, s.req)
  }

  ghost predicate Byte(s: Sweep, x: seq<Lock>, l: seq<Lock>, k: Kind, b: int) {
    if InRange(s.req, b) then k == s.req.kind && k != Unlock else Covers(x + l + s.todo, k, b)
  }

  // The sweep still means what the edit should mean.
  ghost predicate Means(s: Sweep, x: seq<Lock>, l: seq<Lock>, run: seq<Lock>, req: Request) {
    forall k, b :: Byte(s, x, l, k, b) <==> Want(run, req, k, b)
  }

  lemma ShapeParts(s: Sweep, x: seq<Lock>, l: seq<Lock>, a: seq<Lock>)
    requires Shape(s, x, l, a)
    ensures Sorted(x) && Sorted(l) && Sorted(s.todo) && Sorted(x + l)
    ensures forall i, j :: 0 <= i < |x| && 0 <= j < |s.todo| ==> Below(x[i], s.todo[j])
    ensures forall i, j :: 0 <= i < |l| && 0 <= j < |s.todo| ==> Below(l[i], s.todo[j])
    ensures forall i, j :: 0 <= i < |x| && 0 <= j < |l| ==> Below(x[i], l[j])
  {
    SortedParts(x + l, s.todo);
    SortedParts(x, l);
    assert forall i :: 0 <= i < |x| ==> (x + l)[i] == x[i];
    assert forall i :: 0 <= i < |l| ==> (x + l)[|x| + i] == l[i];
  }

  lemma WrapsTail(t: seq<Lock>, r: Request)
    requires t != [] && !RunWraps(t, r)
    ensures !RunWraps(t[1..], r)
  {
  }

  // Dropping the first entry of `todo` from a sorted x + l + todo.
  lemma DropFirst(p: seq<Lock>, t: seq<Lock>)
    requires t != [] && Sorted(p + t)
    ensures Sorted(p + t[1..])
    ensures forall k, b :: Covers(p + t, k, b) <==> Covers(p + t[1..], k, b) || Has(t[0], k, b)
  {
    SortedParts(p, t);
    SortedParts([t[0]], t[1..]) by { assert [t[0]] + t[1..] == t; }
    SortedConcat(p, t[1..]);
    forall k, b ensures Covers(p + t, k, b) <==> Covers(p + t[1..], k, b) || Has(t[0], k, b) {
      CoversConcat(p, t, k, b);
      CoversConcat(p, t[1..], k, b);
      CoversConcat([t[0]], t[1..], k, b);
      assert [t[0]] + t[1..] == t;
      assert Covers([t[0]], k, b) <==> Has(t[0], k, b) by {
        if Has(t[0], k, b) { assert Has([t[0]][0], k, b); }
      }
    }
  }

  // A lock below the request joins x; nothing was cut or added so far.
  lemma SkipShape(s: Sweep, x: seq<Lock>, l: seq<Lock>, a: seq<Lock>)
    requires Shape(s, x, l, a) && s.todo != [] && BelowReq(s.todo[0], s.req)
    ensures l == [] && a == [] && Shape(Skip(s), x + [s.todo[0]], [], [])
    ensures x + [s.todo[0]] + [] + Skip(s).todo == x + l + s.todo
  {
    ShapeParts(s, x, l, a);
    WrapsTail(s.todo, s.req);
    assert ValidLock(s.todo[0]);
    assert x + [s.todo[0]] + [] + s.todo[1..] == x + [] + s.todo;
    assert x + [s.todo[0]] + [] + [] == s.done + [s.todo[0]];
  }

  // A lock of another kind that sticks out below: it will be cut.
  lemma LeftShape(s: Sweep, x: seq<Lock>, l: seq<Lock>, a: seq<Lock>)
    requires Shape(s, x, l, a) && s.todo != []
    requires var fl := s.todo[0];
             fl.kind != s.req.kind && fl.start < s.req.start <= fl.end <= s.req.end
    ensures l == [] && a == [] && Shape(Overwrite(s), x, [s.todo[0]], [])
    ensures x + [s.todo[0]] + Overwrite(s).todo == x + l + s.todo
  {
    ShapeParts(s, x, l, a);
    WrapsTail(s.todo, s.req);
    SortedParts([s.todo[0]], s.todo[1..]) by { assert [s.todo[0]] + s.todo[1..] == s.todo; }
    assert x + [s.todo[0]] + s.todo[1..] == x + [] + s.todo;
    assert x + [s.todo[0]] + [] == s.done + [s.todo[0]];
  }

  // The entry standing for the request after a merge or a replacement.
  function Stand(s: Sweep, a: seq<Lock>): seq<Lock>
    requires s.todo != [] && s.req.kind != Unlock
  {
    [(if a != [] then a[0] else s.todo[0]).(
       kind := s.req.kind,
       start := if s.todo[0].kind == s.req.kind then Min(s.todo[0].start, s.req.start) else s.req.start,
       end := if s.todo[0].kind == s.req.kind then Max(s.todo[0].end, s.req.end) else s.req.end)]
  }

  lemma MergeShape(s: Sweep, x: seq<Lock>, l: seq<Lock>, a: seq<Lock>)
    requires Shape(s, x, l, a) && s.todo != []
    requires var fl := s.todo[0];
             fl.kind == s.req.kind && fl.end >= s.req.start - 1 && fl.start <= s.req.end + 1
    ensures s.req.kind != Unlock && Shape(Merge(s), x, l, Stand(s, a))
  {
    ShapeParts(s, x, l, a);
    DropFirst(x + l, s.todo);
    SortedParts([s.todo[0]], s.todo[1..]) by { assert [s.todo[0]] + s.todo[1..] == s.todo; }
    var fl := s.todo[0];
    assert ValidLock(fl) && Touches(fl, s.req);
    assert s.req.end != OFFSET_MAX;
    var s' := Merge(s);
    if s.added {
      assert s.done[|x| + |l| := Stand(s, a)[0]] == x + l + Stand(s, a);
    } else {
      assert x + l + [] + Stand(s, a) == x + l + Stand(s, a);
    }
    forall j | 0 <= j < |s'.todo| ensures s'.todo[j].start > s'.req.start && s'.req.end != OFFSET_MAX {
      assert Below(fl, s'.todo[j]) && ValidLock(s'.todo[j]);
    }
  }

  lemma ReplaceShape(s: Sweep, x: seq<Lock>, l: seq<Lock>, a: seq<Lock>)
    requires Shape(s, x, l, a) && s.todo != []
    requires var fl := s.todo[0];
             fl.kind != s.req.kind && s.req.start <= fl.start && fl.end <= s.req.end
    ensures Shape(Overwrite(s), x, l, if s.req.kind == Unlock then [] else Stand(s, a))
  {
    ShapeParts(s, x, l, a);
    DropFirst(x + l, s.todo);
    WrapsTail(s.todo, s.req);
    SortedParts([s.todo[0]], s.todo[1..]) by { assert [s.todo[0]] + s.todo[1..] == s.todo; }
    if s.req.kind != Unlock {
      if s.added {
        assert Stand(s, a) == a;
      } else {
        assert x + l + [] + Stand(s, a) == x + l + Stand(s, a);
      }
    }
  }

  // After dropping a lock that the (grown) request covers, the meaning is the same.
  lemma DropMeans(s: Sweep, s': Sweep, x: seq<Lock>, l: seq<Lock>, run: seq<Lock>, req: Request)
    requires Means(s, x, l, run, req) && s.todo != [] && Sorted(x + l + s.todo)
    requires s'.todo == s.todo[1..] && s'.req.kind == s.req.kind
    requires s'.req.start <= s.req.start && s.req.end <= s'.req.end
    requires s'.req.start <= s.todo[0].start && s.todo[0].end <= s'.req.end
    requires forall b :: InRange(s'.req, b) && !InRange(s.req, b) ==>
                           s.todo[0].kind == s.req.kind != Unlock && s.todo[0].start <= b <= s.todo[0].end
    ensures Means(s', x, l, run, req)
  {
    DropFirst(x + l, s.todo);
    forall k, b ensures Byte(s', x, l, k, b) <==> Want(run, req, k, b) {
      assert Byte(s, x, l, k, b) <==> Want(run, req, k, b);
      if InRange(s'.req, b) && !InRange(s.req, b) {
        assert (x + l + s.todo)[|x + l|] == s.todo[0];
        OnlyOne(x + l + s.todo, |x + l|, k, b);
      }
    }
  }

  // ----- the end of the sweep -----

  // x, the cut piece p, the request's own entry c and the locks above, in order.
  lemma AssembleSorted(x: seq<Lock>, p: seq<Lock>, c: seq<Lock>, h: seq<Lock>, r: Request)
    requires Sorted(x + p) && Sorted(h) && |p| <= 1 && |c| <= 1 && ValidRequest(r)
    requires forall i :: 0 <= i < |x| ==> BelowReq(x[i], r)
    requires p != [] ==> p[0].kind != r.kind && p[0].end < r.start
    requires c != [] ==> c[0].kind == r.kind != Unlock && c[0].start == r.start && c[0].end == r.end
    requires forall j :: 0 <= j < |h| ==> AboveReq(h[j], r)
    ensures Sorted(x + p + c + h)
  {
    var u := x + p;
    forall i | 0 <= i < |u| ensures BelowReq(u[i], r) {
      if i >= |x| { assert u[i] == p[0]; }
    }
    SortedConcat(u, c);
    var v := u + c;
    forall i, j | 0 <= i < |v| && 0 <= j < |h| ensures Below(v[i], h[j]) {
      if i < |u| { assert v[i] == u[i]; }
    }
    SortedConcat(v, h);
  }

  // The bytes of the result: those of the request from c, the others unchanged.
  lemma AssembleCovers(x: seq<Lock>, p: seq<Lock>, c: seq<Lock>, h: seq<Lock>, r: Request, t: seq<Lock>,
                       k: Kind, b: int)
    requires |c| <= 1 && (c == [] <==> r.kind == Unlock)
    requires c != [] ==> c[0].kind == r.kind && c[0].start == r.start && c[0].end == r.end
    requires !InRange(r, b) ==> (Covers(p, k, b) || Covers(h, k, b) <==> Covers(t, k, b))
    requires InRange(r, b) ==> !Covers(x, k, b) && !Covers(p, k, b) && !Covers(h, k, b)
    ensures Covers(x + p + c + h, k, b)
            <==> if InRange(r, b) then k == r.kind && k != Unlock else Covers(x + t, k, b)
  {
    CoversConcat(x + p + c, h, k, b);
    CoversConcat(x + p, c, k, b);
    CoversConcat(x, p, k, b);
    CoversConcat(x, t, k, b);
    if c != [] && InRange(r, b) {
      assert Has(c[0], r.kind, b);
    }
  }

  // The move with which the loop is left.
  function Leave(s: Sweep): Move
    requires s.at < |s.done| && (s.todo != [] ==> Step(s).Halt?)
  {
    if s.todo == [] then Halt(s, false) else Step(s)
  }

  function CutPiece(s: Sweep, l: seq<Lock>, id2: nat): seq<Lock>
    requires s.at < |s.done| && (s.todo != [] ==> Step(s).Halt?)
  {
    if l != [] then [l[0].(end := s.req.start - 1)]
    else if Leave(s).right && s.todo[0].start < s.req.start then [s.todo[0].(id := id2, end := s.req.start - 1)]
    else []
  }

  function OwnEntry(s: Sweep, a: seq<Lock>, id1: nat): seq<Lock> {
    if s.req.kind == Unlock then []
    else if a != [] then a
    else [Lock(id1, s.req.owner, s.req.kind, s.req.start, s.req.end)]
  }

  lemma LowPieces(s: Sweep, x: seq<Lock>, l: seq<Lock>, a: seq<Lock>, id2: nat)
    requires Shape(s, x, l, a) && (s.todo != [] ==> Step(s).Halt?)
    ensures Low(Leave(s)) + Split(Leave(s), id2) == x + CutPiece(s, l, id2) + a
  {
    var m := Leave(s);
    if l != [] {
      assert s.todo != [] ==> s.todo[0].start > s.req.start;
      assert Low(m) == x + CutPiece(s, l, id2) + a;
    } else if m.right && s.todo[0].start < s.req.start {
      assert a == [] && Low(m) == x;
    } else {
      assert Low(m) == x + a;
    }
  }

  lemma FinishPieces(s: Sweep, x: seq<Lock>, l: seq<Lock>, a: seq<Lock>, id1: nat, id2: nat)
    requires Shape(s, x, l, a) && (s.todo != [] ==> Step(s).Halt?)
    ensures Finish(Leave(s), id1, id2).locks == x + CutPiece(s, l, id2) + OwnEntry(s, a, id1) + High(Leave(s))
  {
    var m := Leave(s);
    if !m.s.added && m.s.req.kind == Unlock {
      assert l == [] && a == [] && !m.right;
      assert s.done == x;
    } else {
      LowPieces(s, x, l, a, id2);
      var u := x + CutPiece(s, l, id2);
      assert u + a + Inserted(m, id1) == u + OwnEntry(s, a, id1);
    }
  }

  lemma HighAbove(s: Sweep, x: seq<Lock>, l: seq<Lock>, a: seq<Lock>)
    requires Shape(s, x, l, a) && (s.todo != [] ==> Step(s).Halt?)
    ensures Sorted(High(Leave(s)))
    ensures forall j :: 0 <= j < |High(Leave(s))| ==> AboveReq(High(Leave(s))[j], s.req)
  {
    ShapeParts(s, x, l, a);
    var t := s.todo;
    if t != [] {
      assert ValidLock(t[0]);
      if t[0].kind == s.req.kind {
        assert t[0].start > s.req.end + 1 by {
          if s.req.end == OFFSET_MAX { assert Touches(t[0], s.req); }
        }
      }
      forall j | 1 <= j < |t| ensures AboveReq(t[j], s.req) {
        assert Below(t[0], t[j]);
      }
      var h := High(Leave(s));
      assert forall j :: 1 <= j < |t| ==> h[j] == t[j];
      forall i, j | 0 <= i < j < |h| ensures Below(h[i], h[j]) {
        assert Below(t[i], t[j]);
      }
    }
  }

  lemma CoversOne(f: Lock, k: Kind, b: int)
    ensures Covers([f], k, b) <==> Has(f, k, b)
  {
    if Has(f, k, b) { assert Has([f][0], k, b); }
  }

  // A byte outside the request belongs to the lock exactly if it belongs to one
  // of the two pieces that the cut leaves of it.
  lemma CutByte(fl: Lock, r: Request, id2: nat, k: Kind, b: int)
    requires !InRange(r, b) && r.start <= r.end && fl.start <= r.end && fl.end > r.end
    ensures Has(fl, k, b) <==>
              Has(fl.(start := r.end + 1), k, b)
              || (fl.start < r.start && Has(fl.(id := id2, end := r.start - 1), k, b))
  {
  }

  lemma CoversCons(f: Lock, s: seq<Lock>, k: Kind, b: int)
    ensures Covers([f] + s, k, b) <==> Has(f, k, b) || Covers(s, k, b)
  {
    CoversConcat([f], s, k, b);
    CoversOne(f, k, b);
  }

  // The lock that sticks out above, cut, and perhaps its lower piece.
  lemma RightCovers(s: Sweep, x: seq<Lock>, l: seq<Lock>, a: seq<Lock>, id2: nat, k: Kind, b: int)
    requires Shape(s, x, l, a) && s.todo != [] && Step(s).Halt? && Step(s).right && !InRange(s.req, b)
    ensures (l == [] && Covers(CutPiece(s, l, id2), k, b)) || Covers(High(Leave(s)), k, b) <==> Covers(s.todo, k, b)
  {
    var fl, rest := s.todo[0], s.todo[1..];
    CoversCons(fl, rest, k, b);
    CoversCons(fl.(start := s.req.end + 1), rest, k, b);
    assert [fl] + rest == s.todo;
    CutByte(fl, s.req, id2, k, b);
    CoversOne(fl.(id := id2, end := s.req.start - 1), k, b);
    assert l != [] ==> fl.start > s.req.start;
  }

  lemma CutCovers(s: Sweep, x: seq<Lock>, l: seq<Lock>, a: seq<Lock>, id2: nat, k: Kind, b: int)
    requires Shape(s, x, l, a) && (s.todo != [] ==> Step(s).Halt?) && !InRange(s.req, b)
    ensures Covers(CutPiece(s, l, id2), k, b) || Covers(High(Leave(s)), k, b) <==> Covers(l + s.todo, k, b)
  {
    var p := CutPiece(s, l, id2);
    CoversConcat(l, s.todo, k, b);
    if l != [] {
      CoversOne(l[0], k, b);
      CoversOne(p[0], k, b);
    }
    if Leave(s).right {
      RightCovers(s, x, l, a, id2, k, b);
    }
  }

  lemma CutClears(s: Sweep, x: seq<Lock>, l: seq<Lock>, a: seq<Lock>, id2: nat, k: Kind, b: int)
    requires Shape(s, x, l, a) && (s.todo != [] ==> Step(s).Halt?) && InRange(s.req, b)
    ensures !Covers(CutPiece(s, l, id2), k, b) && !Covers(High(Leave(s)), k, b) && !Covers(x, k, b)
  {
    HighAbove(s, x, l, a);
  }

  lemma CutSorted(s: Sweep, x: seq<Lock>, l: seq<Lock>, a: seq<Lock>, id2: nat)
    requires Shape(s, x, l, a) && (s.todo != [] ==> Step(s).Halt?)
    ensures Sorted(x + CutPiece(s, l, id2))
  {
    ShapeParts(s, x, l, a);
    var p := CutPiece(s, l, id2);
    if p != [] {
      assert ValidLock(p[0]);
      forall i | 0 <= i < |x| ensures Below(x[i], p[0]) {
        if l != [] { assert Below(x[i], l[0]); } else { assert Below(x[i], s.todo[0]); }
      }
      SortedConcat(x, p);
    } else {
      assert x + p == x;
    }
  }

  lemma LeaveMeans(s: Sweep, x: seq<Lock>, l: seq<Lock>, a: seq<Lock>, id1: nat, id2: nat, k: Kind, b: int)
    requires Shape(s, x, l, a) && (s.todo != [] ==> Step(s).Halt?)
    ensures Covers(x + CutPiece(s, l, id2) + OwnEntry(s, a, id1) + High(Leave(s)), k, b) <==> Byte(s, x, l, k, b)
  {
    if InRange(s.req, b) {
      CutClears(s, x, l, a, id2, k, b);
    } else {
      CutCovers(s, x, l, a, id2, k, b);
    }
    AssembleCovers(x, CutPiece(s, l, id2), OwnEntry(s, a, id1), High(Leave(s)), s.req, l + s.todo, k, b);
    assert x + (l + s.todo) == x + l + s.todo;
  }

  lemma LeaveResult(s: Sweep, x: seq<Lock>, l: seq<Lock>, a: seq<Lock>, run: seq<Lock>, req: Request, id1: nat, id2: nat)
    requires Shape(s, x, l, a) && (s.todo != [] ==> Step(s).Halt?) && Means(s, x, l, run, req)
    ensures Sorted(Finish(Leave(s), id1, id2).locks)
    ensures forall k, b :: Covers(Finish(Leave(s), id1, id2).locks, k, b) <==> Want(run, req, k, b)
  {
    FinishPieces(s, x, l, a, id1, id2);
    HighAbove(s, x, l, a);
    CutSorted(s, x, l, a, id2);
    AssembleSorted(x, CutPiece(s, l, id2), OwnEntry(s, a, id1), High(Leave(s)), s.req);
    forall k, b ensures Covers(Finish(Leave(s), id1, id2).locks, k, b) <==> Want(run, req, k, b) {
      LeaveMeans(s, x, l, a, id1, id2, k, b);
      assert Byte(s, x, l, k, b) <==> Want(run, req, k, b);
    }
  }

  // ----- the whole sweep -----

  lemma StepGood(s: Sweep, x: seq<Lock>, l: seq<Lock>, a: seq<Lock>, run: seq<Lock>, req: Request)
    returns (x': seq<Lock>, l': seq<Lock>, a': seq<Lock>)
    requires Shape(s, x, l, a) && Means(s, x, l, run, req) && s.todo != [] && Step(s).Go?
    ensures Shape(Step(s).s, x', l', a') && Means(Step(s).s, x', l', run, req)
  {
    var fl := s.todo[0];
    ShapeParts(s, x, l, a);
    assert ValidLock(fl);
    if BelowReq(fl, s.req) {
      SkipShape(s, x, l, a);
      x', l', a' := x + [fl], [], [];
    } else if fl.kind == s.req.kind {
      assert Touches(fl, s.req);
      MergeShape(s, x, l, a);
      DropMeans(s, Merge(s), x, l, run, req);
      x', l', a' := x, l, Stand(s, a);
    } else if fl.start < s.req.start {
      LeftShape(s, x, l, a);
      x', l', a' := x, [fl], [];
    } else {
      ReplaceShape(s, x, l, a);
      DropMeans(s, Overwrite(s), x, l, run, req);
      x', l', a' := x, l, if s.req.kind == Unlock then [] else Stand(s, a);
    }
  }

  lemma {:induction false} RunResult(s: Sweep, x: seq<Lock>, l: seq<Lock>, a: seq<Lock>,
                                     run: seq<Lock>, req: Request, id1: nat, id2: nat)
    requires Shape(s, x, l, a) && Means(s, x, l, run, req)
    ensures Sorted(Finish(Run(s), id1, id2).locks)
    ensures forall k, b :: Covers(Finish(Run(s), id1, id2).locks, k, b) <==> Want(run, req, k, b)
    decreases |s.todo|
  {
    if s.todo != [] && Step(s).Go? {
      var x', l', a' := StepGood(s, x, l, a, run, req);
      RunResult(Step(s).s, x', l', a', run, req, id1, id2);
    } else {
      LeaveResult(s, x, l, a, run, req, id1, id2);
    }
  }

  lemma EditRunResult(run: seq<Lock>, req: Request, id1: nat, id2: nat)
    requires Sorted(run) && ValidRequest(req) && !RunWraps(run, req)
    ensures Sorted(EditRun(run, req, id1, id2).locks)
    ensures forall k, b :: Covers(EditRun(run, req, id1, id2).locks, k, b) <==> Want(run, req, k, b)
  {
    var s := Start(run, req);
    assert [] + [] + s.todo == run;
    assert Means(s, [], [], run, req);
    RunResult(s, [], [], [], run, req, id1, id2);
  }

  // ----- the wrap -----

  // A non-merging sweep of a request that ends at OFFSET_MAX: the entry that
  // stands for the request, once there is one, reaches up to OFFSET_MAX.
  predicate Topped(s: Sweep) {
    && -1 <= s.at < |s.done| && s.left < |s.done|
    && (s.added ==> s.at >= 0)
    && (s.at >= 0 ==> s.done[s.at].end == OFFSET_MAX && s.left != s.at)
  }

  lemma WrapStep(s: Sweep)
    requires Topped(s) && Sorted(s.todo) && ValidRequest(s.req) && RunWraps(s.todo, s.req) && s.req.kind != Unlock
    ensures Step(s).s.req == s.req
    ensures Step(s).Halt? ==> !Step(s).right && Step(s).s == s
    ensures Step(s).Go? ==> Topped(Step(s).s) && Step(s).s.todo == s.todo[1..] && !Touches(s.todo[0], s.req)
  {
    assert ValidLock(s.todo[0]);
  }

  // The sweep stops at the first own lock of the same kind that it should have merged.
  lemma {:induction false} RunWrapsEarly(s: Sweep)
    requires Topped(s) && Sorted(s.todo) && ValidRequest(s.req) && RunWraps(s.todo, s.req) && s.req.kind != Unlock
    ensures var m := Run(s);
            !m.right && m.s.todo != [] && ValidLock(m.s.todo[0]) && m.s.req == s.req && Topped(m.s)
    decreases |s.todo|
  {
    WrapStep(s);
    if Step(s).Go? {
      var i :| 0 <= i < |s.todo| && Touches(s.todo[i], s.req);
      assert s.todo[1..][i - 1] == s.todo[i];
      SortedParts([s.todo[0]], s.todo[1..]) by { assert [s.todo[0]] + s.todo[1..] == s.todo; }
      RunWrapsEarly(Step(s).s);
    }
  }

  lemma EditRunWraps(run: seq<Lock>, req: Request, id1: nat, id2: nat)
    requires Sorted(run) && ValidRequest(req) && RunWraps(run, req)
    ensures !Sorted(EditRun(run, req, id1, id2).locks)
  {
    var i :| 0 <= i < |run| && Touches(run[i], req);
    assert ValidLock(run[i]);
    var s := Start(run, req);
    RunWrapsEarly(s);
    var m := Run(s);
    var r := Finish(m, id1, id2).locks;
    var n := |r| - |m.s.todo|;
    assert r[n] == m.s.todo[0];
    var q := if m.s.added then m.s.at else n - 1;
    assert q < n && r[q].end == OFFSET_MAX;
    assert !Below(r[q], r[n]);
  }

  // ----- the whole list -----

  // A caller can check this before the call: the request is open-ended and the
  // caller holds a lock of the same kind that reaches at least start - 1.
  ghost predicate Wraps(s: seq<Lock>, r: Request) {
    r.end == OFFSET_MAX && exists i :: 0 <= i < |s| && s[i].owner == r.owner && Touches(s[i], r)
  }

  // Byte `b` of owner `o` after the request: overwritten, erased or unchanged.
  ghost predicate Target(s: seq<Lock>, r: Request, o: Owner, k: Kind, b: int) {
    if o == r.owner && InRange(r, b) then k == r.kind && k != Unlock else Holds(s, o, k, b)
  }

  ghost predicate Overwritten(s: seq<Lock>, r: Request, t: seq<Lock>) {
    forall o, k, b :: Holds(t, o, k, b) <==> Target(s, r, o, k, b)
  }

  lemma SortedRun(s: seq<Lock>, o: Owner, x: nat, y: nat)
    requires Canonical(s) && x <= y <= |s|
    requires forall i :: x <= i < y ==> s[i].owner == o
    ensures Sorted(s[x..y])
  {
    assert forall i :: 0 <= i < y - x ==> s[x..y][i] == s[x + i];
  }

  // In a canonical list all locks of an owner lie in the run found by the skip loop.
  lemma CanonicalRun(s: seq<Lock>, o: Owner)
    requires Canonical(s)
    ensures var x := FirstOwn(s, o, 0); var y := RunEnd(s, o, x);
            && Sorted(s[x..y])
            && (forall i :: 0 <= i < x || y <= i < |s| ==> s[i].owner != o)
            && (x == y ==> x == |s|)
  {
    var x := FirstOwn(s, o, 0);
    var y := RunEnd(s, o, x);
    SortedRun(s, o, x, y);
  }

  // s with the run s[x..y] of owner `o` replaced by `r`.
  ghost predicate Spliced(s: seq<Lock>, x: nat, y: nat, r: seq<Lock>, o: Owner, t: seq<Lock>) {
    && Canonical(s) && x <= y <= |s| && (x == y ==> x == |s|) && OwnedBy(r, o) && Sorted(r)
    && (forall i :: x <= i < y ==> s[i].owner == o)
    && (forall i :: 0 <= i < x || y <= i < |s| ==> s[i].owner != o)
    && |t| == |s| - (y - x) + |r|
    && (forall i :: 0 <= i < x ==> t[i] == s[i])
    && (forall i :: x <= i < x + |r| ==> t[i] == r[i - x])
    && (forall i :: x + |r| <= i < |t| ==> t[i] == s[i + (y - x - |r|)])
  }

  lemma SplicedBelow(s: seq<Lock>, x: nat, y: nat, r: seq<Lock>, o: Owner, t: seq<Lock>, i: nat, j: nat)
    requires Spliced(s, x, y, r, o, t) && i < j < |t| && t[i].owner == t[j].owner
    ensures Below(t[i], t[j])
  {
    assert (x <= i < x + |r|) == (x <= j < x + |r|);
  }

  lemma SplicedGrouped(s: seq<Lock>, x: nat, y: nat, r: seq<Lock>, o: Owner, t: seq<Lock>, i: nat, m: nat, j: nat)
    requires Spliced(s, x, y, r, o, t) && i < m < j < |t| && t[i].owner == t[j].owner
    ensures t[m].owner == t[i].owner
  {
    assert (x <= i < x + |r|) == (x <= j < x + |r|);
    // no owner has locks on both sides of the run
    assert forall a, b :: 0 <= a < x && y <= b < |s| && s[a].owner == s[b].owner ==> s[x].owner == s[a].owner;
    assert !(i < x && j >= x + |r|);
  }

  lemma SpliceCanonical(s: seq<Lock>, x: nat, y: nat, r: seq<Lock>, o: Owner)
    requires Canonical(s) && x <= y <= |s| && (x == y ==> x == |s|) && OwnedBy(r, o) && Sorted(r)
    requires forall i :: x <= i < y ==> s[i].owner == o
    requires forall i :: 0 <= i < x || y <= i < |s| ==> s[i].owner != o
    ensures Canonical(s[..x] + r + s[y..])
  {
    var t := s[..x] + r + s[y..];
    assert Spliced(s, x, y, r, o, t);
    forall i, j | 0 <= i < j < |t| && t[i].owner == t[j].owner ensures Below(t[i], t[j]) {
      SplicedBelow(s, x, y, r, o, t, i, j);
    }
    forall i, m, j | 0 <= i < m < j < |t| && t[i].owner == t[j].owner ensures t[m].owner == t[i].owner {
      SplicedGrouped(s, x, y, r, o, t, i, m, j);
    }
  }

  lemma SpliceHolds(s: seq<Lock>, x: nat, y: nat, r: seq<Lock>, o: Owner, p: Owner, k: Kind, b: int)
    requires x <= y <= |s| && OwnedBy(r, o)
    requires forall i :: x <= i < y ==> s[i].owner == o
    requires forall i :: 0 <= i < x || y <= i < |s| ==> s[i].owner != o
    ensures Holds(s[..x] + r + s[y..], p, k, b) <==> if p == o then Covers(r, k, b) else Holds(s, p, k, b)
    ensures Holds(s, o, k, b) <==> Covers(s[x..y], k, b)
  {
    var t := s[..x] + r + s[y..];
    var d := y - x - |r|;
    if Holds(t, p, k, b) {
      var i :| 0 <= i < |t| && t[i].owner == p && Has(t[i], k, b);
      if i < x { assert s[i] == t[i]; }
      else if i < x + |r| { assert r[i - x] == t[i]; }
      else { assert s[i + d] == t[i]; }
    }
    if p == o && Covers(r, k, b) {
      var i :| 0 <= i < |r| && Has(r[i], k, b);
      assert t[x + i] == r[i];
    }
    if p != o && Holds(s, p, k, b) {
      var i :| 0 <= i < |s| && s[i].owner == p && Has(s[i], k, b);
      assert t[if i < x then i else i - d] == s[i];
    }
    if Holds(s, o, k, b) {
      var i :| 0 <= i < |s| && s[i].owner == o && Has(s[i], k, b);
      assert s[x..y][i - x] == s[i];
    }
    if Covers(s[x..y], k, b) {
      var i :| 0 <= i < |s[x..y]| && Has(s[x..y][i], k, b);
      assert s[x + i] == s[x..y][i];
    }
  }

  lemma TouchedInRun(s: seq<Lock>, r: Request, x: nat, y: nat)
    requires x <= y <= |s|
    requires forall i :: 0 <= i < |s| ==> (s[i].owner == r.owner <==> x <= i < y)
    ensures Wraps(s, r) <==> RunWraps(s[x..y], r)
  {
    if Wraps(s, r) {
      var i :| 0 <= i < |s| && s[i].owner == r.owner && Touches(s[i], r);
      assert s[x..y][i - x] == s[i];
    }
    if RunWraps(s[x..y], r) {
      var i :| 0 <= i < |s[x..y]| && Touches(s[x..y][i], r);
      assert s[x + i] == s[x..y][i];
    }
  }

  lemma WrapsInRun(s: seq<Lock>, r: Request)
    requires Canonical(s)
    ensures var x := FirstOwn(s, r.owner, 0); var y := RunEnd(s, r.owner, x);
            Wraps(s, r) <==> RunWraps(s[x..y], r)
  {
    var x := FirstOwn(s, r.owner, 0);
    CanonicalRun(s, r.owner);
    TouchedInRun(s, r, x, RunEnd(s, r.owner, x));
  }

  lemma EditCanonicalUnlessWraps(s: seq<Lock>, req: Request, id1: nat, id2: nat)
    requires Canonical(s) && ValidRequest(req) && !Wraps(s, req)
    ensures Canonical(Edit(s, req, id1, id2).locks) && Overwritten(s, req, Edit(s, req, id1, id2).locks)
  {
    var x := FirstOwn(s, req.owner, 0);
    var y := RunEnd(s, req.owner, x);
    var r := EditRun(s[x..y], req, id1, id2).locks;
    var t := Edit(s, req, id1, id2).locks;
    CanonicalRun(s, req.owner);
    WrapsInRun(s, req);
    EditRunResult(s[x..y], req, id1, id2);
    EditRunSound(s[x..y], req, id1, id2);
    SpliceCanonical(s, x, y, r, req.owner);
    forall o, k, b ensures Holds(t, o, k, b) <==> Target(s, req, o, k, b) {
      SpliceHolds(s, x, y, r, req.owner, o, k, b);
      assert Covers(r, k, b) <==> Want(s[x..y], req, k, b);
    }
  }

  lemma CanonicalMiddle(p: seq<Lock>, r: seq<Lock>, q: seq<Lock>, o: Owner)
    requires Canonical(p + r + q) && OwnedBy(r, o)
    ensures Sorted(r)
  {
    var t := p + r + q;
    assert forall i :: 0 <= i < |r| ==> t[|p| + i] == r[i];
  }

  lemma EditBreaksWhenWraps(s: seq<Lock>, req: Request, id1: nat, id2: nat)
    requires Canonical(s) && ValidRequest(req) && Wraps(s, req)
    ensures !Canonical(Edit(s, req, id1, id2).locks)
  {
    var x := FirstOwn(s, req.owner, 0);
    var y := RunEnd(s, req.owner, x);
    var r := EditRun(s[x..y], req, id1, id2).locks;
    var t := Edit(s, req, id1, id2).locks;
    CanonicalRun(s, req.owner);
    WrapsInRun(s, req);
    EditRunSound(s[x..y], req, id1, id2);
    EditRunWraps(s[x..y], req, id1, id2);
    if Canonical(t) {
      CanonicalMiddle(s[..x], r, s[y..], req.owner);
    }
  }

  /** The edit does what fcntl promises exactly when it does not run into the wrap. */
  lemma EditCorrectIffNoWrap(s: seq<Lock>, req: Request, id1: nat, id2: nat)
    requires Canonical(s) && ValidRequest(req)
    ensures var t := Edit(s, req, id1, id2).locks;
            Canonical(t) && Overwritten(s, req, t) <==> !Wraps(s, req)
  {
    if Wraps(s, req) {
      EditBreaksWhenWraps(s, req, id1, id2);
    } else {
      EditCanonicalUnlessWraps(s, req, id1, id2);
    }
  }

  /** A concrete failure: a read lock on the whole file leaves a write lock of the
      same owner in place, so the owner holds byte 10 with both kinds. */
  lemma WrapExample(o: Owner)
    ensures var s := [Lock(0, o, Read, 0, 5), Lock(1, o, Write, 10, 20)];
            var req := Request(o, Read, 0, OFFSET_MAX);
            var t := Edit(s, req, 2, 3).locks;
            Canonical(s) && ValidRequest(req) && Holds(t, o, Read, 10) && Holds(t, o, Write, 10)
  {
    var s := [Lock(0, o, Read, 0, 5), Lock(1, o, Write, 10, 20)];
    var req := Request(o, Read, 0, OFFSET_MAX);
    assert FirstOwn(s, o, 0) == 0;
    assert RunEnd(s, o, 2) == 2;
    assert RunEnd(s, o, 1) == 2;
    assert RunEnd(s, o, 0) == 2;
    assert s[0..2] == s;
    assert Run(Start(s, req)) == Halt(Start(s, req), false);
    var t := Edit(s, req, 2, 3).locks;
    assert t == [Lock(2, o, Read, 0, OFFSET_MAX)] + s;
    assert Has(t[0], Read, 10) && Has(t[2], Write, 10);
  }
}

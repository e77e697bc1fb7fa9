/**
  What the edit of posix_lock_file guarantees on every list, canonical or not:
  it grants no byte beyond the request, and it empties the block list of every
  lock that it shrinks, changes or deletes.
 */
module PosixLockSafety {
  import opened PosixLocks

  ghost predicate Covers(s: seq<Lock>, k: Kind, b: int) {
    exists i :: 0 <= i < |s| && Has(s[i], k, b)
  }

  // Byte `b` may be held with kind `k` afterwards.
  ghost predicate Allowed(run: seq<Lock>, req: Request, k: Kind, b: int) {
    Covers(run, k, b) || (k == req.kind && InRange(req, b))
  }

  ghost predicate AllAllowed(s: seq<Lock>, run: seq<Lock>, req: Request) {
    forall i, b :: 0 <= i < |s| && s[i].start <= b <= s[i].end ==> Allowed(run, req, s[i].kind, b)
  }

  ghost predicate Sound(s: Sweep, run: seq<Lock>, req: Request) {
    && s.req.owner == req.owner && s.req.kind == req.kind && s.req.start <= s.req.end
    && OwnedBy(s.done, req.owner) && OwnedBy(s.todo, req.owner)
    && AllAllowed(s.done, run, req) && AllAllowed(s.todo, run, req)
    && (forall b :: InRange(s.req, b) ==> Allowed(run, req, req.kind, b))
    && -1 <= s.at < |s.done| && (s.at >= 0 ==> s.done[s.at].kind == req.kind)
    && -1 <= s.left <= |s.done| && (0 <= s.left < |s.done| ==> s.done[s.left].end >= s.req.start)
  }

  lemma AllAllowedTail(s: seq<Lock>, run: seq<Lock>, req: Request)
    requires s != [] && AllAllowed(s, run, req)
    ensures AllAllowed(s[1..], run, req)
  {
    forall i, b | 0 <= i < |s[1..]| && s[1..][i].start <= b <= s[1..][i].end
      ensures Allowed(run, req, s[1..][i].kind, b)
    {
      assert s[1..][i] == s[i + 1];
    }
  }

  lemma MergeSound(s: Sweep, run: seq<Lock>, req: Request)
    requires Sound(s, run, req) && s.todo != [] && s.left < |s.done|
    requires s.todo[0].kind == s.req.kind
    requires s.todo[0].end >= s.req.start - 1 && s.todo[0].start <= s.req.end + 1
    ensures Sound(Merge(s), run, req)
  {
    var fl := s.todo[0];
    var s' := Merge(s);
    AllAllowedTail(s.todo, run, req);
    forall b | InRange(s'.req, b)
      ensures Allowed(run, req, req.kind, b)
    {
      assert InRange(s.req, b) || fl.start <= b <= fl.end;
    }
    forall i, b | 0 <= i < |s'.done| && s'.done[i].start <= b <= s'.done[i].end
      ensures Allowed(run, req, s'.done[i].kind, b)
    {
      if i < |s.done| && s'.done[i] == s.done[i] {
      } else {
        assert InRange(s'.req, b);
      }
    }
  }

  lemma StepSound(s: Sweep, run: seq<Lock>, req: Request)
    requires Sound(s, run, req) && s.todo != [] && s.left < |s.done|
    ensures Sound(Step(s).s, run, req)
    ensures Step(s).Go? ==> Step(s).s.left < |Step(s).s.done|
    ensures Step(s).s.left == |Step(s).s.done| ==> Step(s).right
  {
    var fl := s.todo[0];
    var s' := Step(s).s;
    AllAllowedTail(s.todo, run, req);
    if Step(s).Go? {
      if s' == Merge(s) && fl.kind == s.req.kind && fl.end >= s.req.start - 1 {
        MergeSound(s, run, req);
      } else {
        forall i, b | 0 <= i < |s'.done| && s'.done[i].start <= b <= s'.done[i].end
          ensures Allowed(run, req, s'.done[i].kind, b)
        {
          if i < |s.done| {
            assert s'.done[i] == s.done[i];
          } else if s'.done[i] == fl {
          } else {
            assert InRange(s.req, b);
          }
        }
      }
    }
  }

  lemma {:induction false} RunSound(s: Sweep, run: seq<Lock>, req: Request)
    requires Sound(s, run, req) && s.left < |s.done|
    ensures Sound(Run(s).s, run, req)
    ensures Run(s).s.left == |Run(s).s.done| ==> Run(s).right
    decreases |s.todo|
  {
    if s.todo != [] {
      StepSound(s, run, req);
      if Step(s).Go? {
        RunSound(Step(s).s, run, req);
      }
    }
  }

  lemma AllAllowedConcat(s: seq<Lock>, t: seq<Lock>, run: seq<Lock>, req: Request)
    requires AllAllowed(s, run, req) && AllAllowed(t, run, req)
    ensures AllAllowed(s + t, run, req)
  {
  }

  lemma PiecesSound(m: Move, run: seq<Lock>, req: Request, id1: nat, id2: nat)
    requires Halted(m) && Sound(m.s, run, req)
    requires m.right ==> m.s.todo[0].start <= m.s.req.end && m.s.todo[0].end >= m.s.req.start
    ensures AllAllowed(Low(m), run, req) && OwnedBy(Low(m), req.owner)
    ensures AllAllowed(Split(m, id2), run, req) && OwnedBy(Split(m, id2), req.owner)
    ensures AllAllowed(Inserted(m, id1), run, req) && OwnedBy(Inserted(m, id1), req.owner)
    ensures AllAllowed(High(m), run, req) && OwnedBy(High(m), req.owner)
  {
    forall i, b | 0 <= i < |Low(m)| && Low(m)[i].start <= b <= Low(m)[i].end
      ensures Allowed(run, req, Low(m)[i].kind, b)
    {
      assert m.s.done[i].start <= b <= m.s.done[i].end && m.s.done[i].kind == Low(m)[i].kind;
    }
    forall i, b | 0 <= i < |Inserted(m, id1)| && Inserted(m, id1)[i].start <= b <= Inserted(m, id1)[i].end
      ensures Allowed(run, req, Inserted(m, id1)[i].kind, b)
    {
      assert InRange(m.s.req, b);
    }
    forall i, b | 0 <= i < |High(m)| && High(m)[i].start <= b <= High(m)[i].end
      ensures Allowed(run, req, High(m)[i].kind, b)
    {
      assert m.s.todo[i].start <= b <= m.s.todo[i].end && m.s.todo[i].kind == High(m)[i].kind;
    }
  }

  lemma FinishSound(m: Move, run: seq<Lock>, req: Request, id1: nat, id2: nat)
    requires Halted(m) && Sound(m.s, run, req)
    requires m.right ==> m.s.todo[0].start <= m.s.req.end && m.s.todo[0].end >= m.s.req.start
    ensures AllAllowed(Finish(m, id1, id2).locks, run, req)
    ensures OwnedBy(Finish(m, id1, id2).locks, req.owner)
  {
    if !m.s.added && m.s.req.kind == Unlock {
      AllAllowedConcat(m.s.done, m.s.todo, run, req);
    } else {
      PiecesSound(m, run, req, id1, id2);
      AllAllowedConcat(Low(m), Split(m, id2), run, req);
      AllAllowedConcat(Low(m) + Split(m, id2), Inserted(m, id1), run, req);
      AllAllowedConcat(Low(m) + Split(m, id2) + Inserted(m, id1), High(m), run, req);
    }
  }

  lemma {:induction false} RunHaltsOnRight(s: Sweep)
    requires s.at < |s.done| 
    ensures var m := Run(s);
            m.right ==> m.s.todo[0].start <= m.s.req.end && m.s.todo[0].end > m.s.req.end
                        && m.s.todo[0].end >= m.s.req.start && m.s.todo[0].kind != m.s.req.kind
    decreases |s.todo|
  {
    if s.todo != [] && Step(s).Go? {
      RunHaltsOnRight(Step(s).s);
    }
  }

  lemma EditRunSound(run: seq<Lock>, req: Request, id1: nat, id2: nat)
    requires OwnedBy(run, req.owner) && req.start <= req.end
    ensures AllAllowed(EditRun(run, req, id1, id2).locks, run, req)
    ensures OwnedBy(EditRun(run, req, id1, id2).locks, req.owner)
  {
    assert AllAllowed(run, run, req) by {
      forall i, b | 0 <= i < |run| && run[i].start <= b <= run[i].end
        ensures Allowed(run, req, run[i].kind, b)
      {
        assert Has(run[i], run[i].kind, b);
      }
    }
    RunSound(Start(run, req), run, req);
    RunHaltsOnRight(Start(run, req));
    FinishSound(Run(Start(run, req)), run, req, id1, id2);
  }

  // No owner gains a byte it did not hold, except the caller on the bytes asked for.
  lemma EditGrantsOnlyTheRequest(s: seq<Lock>, req: Request, id1: nat, id2: nat, o: Owner, k: Kind, b: int)
    requires req.start <= req.end
    requires Holds(Edit(s, req, id1, id2).locks, o, k, b)
    ensures Holds(s, o, k, b) || (o == req.owner && k == req.kind && InRange(req, b))
  {
    var x := FirstOwn(s, req.owner, 0);
    var y := RunEnd(s, req.owner, x);
    var run := s[x..y];
    var e := EditRun(run, req, id1, id2);
    var after := s[..x] + e.locks + s[y..];
    EditRunSound(run, req, id1, id2);
    var i :| 0 <= i < |after| && after[i].owner == o && Has(after[i], k, b);
    if i < x {
      assert s[i] == after[i];
    } else if i < x + |e.locks| {
      assert after[i] == e.locks[i - x];
      assert Allowed(run, req, k, b);
      if Covers(run, k, b) {
        var j :| 0 <= j < |run| && Has(run[j], k, b);
        assert run[j] == s[x + j];
      }
    } else {
      assert after[i] == s[i - x - |e.locks| + y];
    }
  }

  // ----- identities and wake-ups -----

  ghost predicate DistinctIds(s: seq<Lock>) {
    forall i, j :: 0 <= i < j < |s| ==> s[i].id != s[j].id
  }

  ghost predicate IdsFrom(s: seq<Lock>, ids: set<nat>) {
    forall i :: 0 <= i < |s| ==> s[i].id in ids
  }

  ghost predicate SameIds(s: seq<Lock>, t: seq<Lock>) {
    |s| == |t| && forall i :: 0 <= i < |s| ==> s[i].id == t[i].id
  }

  // `b` is `a` with the same identity, owner and kind, and no byte less.
  predicate Grown(a: Lock, b: Lock) {
    a.id == b.id && a.owner == b.owner && a.kind == b.kind && b.start <= a.start && a.end <= b.end
  }

  ghost predicate HasGrown(a: Lock, s: seq<Lock>) {
    exists j :: 0 <= j < |s| && Grown(a, s[j])
  }

  // Every lock of `s` was either woken or is still in `t` and did not shrink.
  ghost predicate Keeps(s: seq<Lock>, t: seq<Lock>, woken: set<nat>) {
    forall i :: 0 <= i < |s| ==> s[i].id in woken || HasGrown(s[i], t)
  }

  lemma KeepsTransitive(s: seq<Lock>, t: seq<Lock>, u: seq<Lock>, w: set<nat>, w': set<nat>)
    requires Keeps(s, t, w) && Keeps(t, u, w') && w <= w'
    ensures Keeps(s, u, w')
  {
    forall i | 0 <= i < |s| ensures s[i].id in w' || HasGrown(s[i], u) {
      if s[i].id !in w' {
        var j :| 0 <= j < |t| && Grown(s[i], t[j]);
        var k :| 0 <= k < |u| && Grown(t[j], u[k]);
        assert Grown(s[i], u[k]);
      }
    }
  }

  // Position by position: each entry stays, grows, or is woken.
  lemma KeepsPointwise(s: seq<Lock>, t: seq<Lock>, woken: set<nat>)
    requires |s| <= |t|
    requires forall i :: 0 <= i < |s| ==> s[i].id in woken || Grown(s[i], t[i])
    ensures Keeps(s, t, woken)
  {
    forall i | 0 <= i < |s| ensures s[i].id in woken || HasGrown(s[i], t) {
      if s[i].id !in woken {
        assert Grown(s[i], t[i]);
      }
    }
  }

  lemma KeepsConcat(lo: seq<Lock>, hi: seq<Lock>, lo': seq<Lock>, mid: seq<Lock>, hi': seq<Lock>, w: set<nat>)
    requires Keeps(lo, lo', w) && Keeps(hi, hi', w)
    ensures Keeps(lo + hi, lo' + mid + hi', w)
  {
    var s, t := lo + hi, lo' + mid + hi';
    forall i | 0 <= i < |s| ensures s[i].id in w || HasGrown(s[i], t) {
      if s[i].id in w {
      } else if i < |lo| {
        var j :| 0 <= j < |lo'| && Grown(lo[i], lo'[j]);
        assert t[j] == lo'[j];
      } else {
        var j :| 0 <= j < |hi'| && Grown(hi[i - |lo|], hi'[j]);
        assert t[|lo'| + |mid| + j] == hi'[j];
      }
    }
  }

  lemma InsertDistinct(lo: seq<Lock>, mid: seq<Lock>, hi: seq<Lock>, ids: set<nat>)
    requires DistinctIds(lo + hi) && DistinctIds(mid) && IdsFrom(lo + hi, ids)
    requires forall i :: 0 <= i < |mid| ==> mid[i].id !in ids
    ensures DistinctIds(lo + mid + hi)
  {
    var s, t := lo + hi, lo + mid + hi;
    forall i, j | 0 <= i < j < |t| ensures t[i].id != t[j].id {
      var m, n := |lo|, |lo| + |mid|;
      assert if i < m then t[i] == s[i] else if i < n then t[i] == mid[i - m] else t[i] == s[i - |mid|];
      assert if j < m then t[j] == s[j] else if j < n then t[j] == mid[j - m] else t[j] == s[j - |mid|];
    }
  }

  ghost predicate Tracked(s: Sweep, run: seq<Lock>, ids: set<nat>) {
    && DistinctIds(s.done + s.todo)
    && IdsFrom(s.done + s.todo, ids)
    && Keeps(run, s.done + s.todo, s.woken)
    && -1 <= s.at < |s.done|
    && (s.at >= 0 ==> s.done[s.at].start == s.req.start && s.done[s.at].end == s.req.end)
  }

  // One list step: the entry after `done` goes to the end of done', or is dropped.
  lemma ShiftTracked(s: Sweep, s': Sweep, run: seq<Lock>, ids: set<nat>)
    requires Tracked(s, run, ids) && s.todo != [] && s'.todo == s.todo[1..] && s.woken <= s'.woken
    requires SameIds(s.done, s'.done) || SameIds(s.done + [s.todo[0]], s'.done)
    requires Keeps(s.done + [s.todo[0]], s'.done, s'.woken)
    ensures DistinctIds(s'.done + s'.todo) && IdsFrom(s'.done + s'.todo, ids)
    ensures Keeps(run, s'.done + s'.todo, s'.woken)
  {
    var a, b := s.done + s.todo, s'.done + s'.todo;
    var front := s.done + [s.todo[0]];
    var shift := |front| - |s'.done|;
    assert a == front + s'.todo;
    assert forall i :: 0 <= i < |s'.done| ==> b[i].id == a[i].id;
    assert forall i :: |s'.done| <= i < |b| ==> b[i] == a[i + shift];
    KeepsPointwise(s'.todo, s'.todo, s'.woken);
    KeepsConcat(front, s'.todo, s'.done, [], s'.todo, s'.woken);
    assert s'.done + [] + s'.todo == b;
    KeepsTransitive(run, a, b, s.woken, s'.woken);
  }

  // When the entry is dropped its waiters must be woken.
  lemma KeepsDropped(done: seq<Lock>, fl: Lock, done': seq<Lock>, woken: set<nat>)
    requires Keeps(done, done', woken) && fl.id in woken
    ensures Keeps(done + [fl], done', woken)
  {
  }

  lemma MergeTracked(s: Sweep, run: seq<Lock>, ids: set<nat>)
    requires Tracked(s, run, ids) && s.todo != []
    ensures Tracked(Merge(s), run, ids)
  {
    var fl := s.todo[0];
    var s' := Merge(s);
    if s.added {
      KeepsPointwise(s.done, s'.done, s'.woken);
      KeepsDropped(s.done, fl, s'.done, s'.woken);
      assert SameIds(s.done, s'.done);
    } else {
      KeepsPointwise(s.done + [fl], s'.done, s'.woken);
      assert SameIds(s.done + [fl], s'.done);
    }
    ShiftTracked(s, s', run, ids);
  }

  lemma OverwriteTracked(s: Sweep, run: seq<Lock>, ids: set<nat>)
    requires Tracked(s, run, ids) && s.todo != []
    ensures Tracked(Overwrite(s), run, ids)
  {
    var fl := s.todo[0];
    var s' := Overwrite(s);
    if |s'.done| == |s.done| {
      KeepsPointwise(s.done, s'.done, s'.woken);
      KeepsDropped(s.done, fl, s'.done, s'.woken);
      assert SameIds(s.done, s'.done);
    } else {
      KeepsPointwise(s.done + [fl], s'.done, s'.woken);
      assert SameIds(s.done + [fl], s'.done);
    }
    ShiftTracked(s, s', run, ids);
  }

  lemma StepTracked(s: Sweep, run: seq<Lock>, ids: set<nat>)
    requires Tracked(s, run, ids) && s.todo != [] && Step(s).Go?
    ensures Tracked(Step(s).s, run, ids)
  {
    if Step(s).s == Skip(s) {
      assert Skip(s).done + Skip(s).todo == s.done + s.todo;
    } else if s.todo[0].kind == s.req.kind {
      MergeTracked(s, run, ids);
    } else {
      OverwriteTracked(s, run, ids);
    }
  }

  lemma {:induction false} RunTracked(s: Sweep, run: seq<Lock>, ids: set<nat>)
    requires Tracked(s, run, ids)
    ensures Tracked(Run(s).s, run, ids)
    decreases |s.todo|
  {
    if s.todo != [] && Step(s).Go? {
      StepTracked(s, run, ids);
      RunTracked(Step(s).s, run, ids);
    }
  }

  lemma PiecesKeep(m: Move)
    requires Halted(m)
    ensures SameIds(m.s.done, Low(m)) && Keeps(m.s.done, Low(m), m.s.woken + CutIds(m))
    ensures SameIds(m.s.todo, High(m)) && Keeps(m.s.todo, High(m), m.s.woken + CutIds(m))
  {
    KeepsPointwise(m.s.done, Low(m), m.s.woken + CutIds(m));
    KeepsPointwise(m.s.todo, High(m), m.s.woken + CutIds(m));
  }

  lemma SameIdsConcat(s: seq<Lock>, t: seq<Lock>, s': seq<Lock>, t': seq<Lock>, ids: set<nat>)
    requires SameIds(s, s') && SameIds(t, t') && DistinctIds(s + t) && IdsFrom(s + t, ids)
    ensures DistinctIds(s' + t') && IdsFrom(s' + t', ids)
  {
    assert SameIds(s + t, s' + t');
  }

  lemma AssembleTracked(done: seq<Lock>, todo: seq<Lock>, low: seq<Lock>, mid: seq<Lock>, high: seq<Lock>,
                        w: set<nat>, ids: set<nat>, new_: set<nat>)
    requires DistinctIds(done + todo) && IdsFrom(done + todo, ids)
    requires SameIds(done, low) && SameIds(todo, high) && Keeps(done, low, w) && Keeps(todo, high, w)
    requires DistinctIds(mid) && IdsFrom(mid, new_) && new_ !! ids
    ensures DistinctIds(low + mid + high) && IdsFrom(low + mid + high, ids + new_)
    ensures Keeps(done + todo, low + mid + high, w)
  {
    SameIdsConcat(done, todo, low, high, ids);
    InsertDistinct(low, mid, high, ids);
    KeepsConcat(done, todo, low, mid, high, w);
    var s, t := low + high, low + mid + high;
    forall i | 0 <= i < |t| ensures t[i].id in ids + new_ {
      assert if i < |low| then t[i] == s[i]
             else if i < |low| + |mid| then t[i] == mid[i - |low|] else t[i] == s[i - |mid|];
    }
  }

  lemma FinishTracked(m: Move, run: seq<Lock>, ids: set<nat>, id1: nat, id2: nat)
    requires Halted(m) && Tracked(m.s, run, ids)
    requires id1 !in ids && id2 !in ids && id1 != id2
    ensures var e := Finish(m, id1, id2);
            DistinctIds(e.locks) && IdsFrom(e.locks, ids + {id1, id2}) && Keeps(run, e.locks, e.woken)
  {
    if m.s.added || m.s.req.kind != Unlock {
      var low, mid, high := Low(m), Split(m, id2) + Inserted(m, id1), High(m);
      var w := m.s.woken + CutIds(m);
      PiecesKeep(m);
      AssembleTracked(m.s.done, m.s.todo, low, mid, high, w, ids, {id1, id2});
      KeepsTransitive(run, m.s.done + m.s.todo, low + mid + high, m.s.woken, w);
      assert low + mid + high == Finish(m, id1, id2).locks;
    }
  }

  lemma EditRunTracked(run: seq<Lock>, req: Request, ids: set<nat>, id1: nat, id2: nat)
    requires DistinctIds(run) && IdsFrom(run, ids)
    requires id1 !in ids && id2 !in ids && id1 != id2
    ensures var e := EditRun(run, req, id1, id2);
            DistinctIds(e.locks) && IdsFrom(e.locks, ids + {id1, id2}) && Keeps(run, e.locks, e.woken)
  {
    var st := Start(run, req);
    assert st.done + st.todo == run;
    KeepsPointwise(run, run, {});
    RunTracked(st, run, ids);
    FinishTracked(Run(st), run, ids, id1, id2);
  }

  // Replacing the run s[x..y] by `r` in the whole list.
  lemma SpliceTracked(s: seq<Lock>, x: nat, y: nat, r: seq<Lock>, woken: set<nat>,
                      mine: set<nat>, ids: set<nat>, id1: nat, id2: nat)
    requires x <= y <= |s| && DistinctIds(s) && IdsFrom(s, ids)
    requires mine == set j | x <= j < y :: s[j].id
    requires id1 !in ids && id2 !in ids
    requires DistinctIds(r) && IdsFrom(r, mine + {id1, id2}) && Keeps(s[x..y], r, woken)
    ensures var t := s[..x] + r + s[y..];
            DistinctIds(t) && IdsFrom(t, ids + {id1, id2}) && Keeps(s, t, woken)
  {
    var others := ids - mine;
    assert IdsFrom(s[..x] + s[y..], others);
    InsertDistinct(s[..x], r, s[y..], others);
    KeepsPointwise(s[..x], s[..x], woken);
    KeepsPointwise(s[y..], s[y..], woken);
    KeepsConcat(s[..x], s[x..y], s[..x], [], r, woken);
    KeepsConcat(s[..x] + s[x..y], s[y..], s[..x] + [] + r, [], s[y..], woken);
    assert s[..x] + s[x..y] + s[y..] == s;
    assert s[..x] + [] + r + [] + s[y..] == s[..x] + r + s[y..];
  }

  // Every lock that the edit shrinks, retypes or deletes has its waiters woken,
  // and identities stay distinct.
  lemma EditWakesWhatItShrinks(s: seq<Lock>, req: Request, id1: nat, id2: nat, ids: set<nat>)
    requires DistinctIds(s) && IdsFrom(s, ids)
    requires id1 !in ids && id2 !in ids && id1 != id2
    ensures var e := Edit(s, req, id1, id2);
            DistinctIds(e.locks) && IdsFrom(e.locks, ids + {id1, id2}) && Keeps(s, e.locks, e.woken)
  {
    var x := FirstOwn(s, req.owner, 0);
    var y := RunEnd(s, req.owner, x);
    var run := s[x..y];
    var mine := set i | x <= i < y :: s[i].id;
    EditRunTracked(run, req, mine, id1, id2);
    var r := EditRun(run, req, id1, id2);
    SpliceTracked(s, x, y, r.locks, r.woken, mine, ids, id1, id2);
  }

  // ----- no entry of kind F_UNLCK -----

  // Every entry is a read or a write lock.
  ghost predicate Real(s: seq<Lock>) {
    forall i :: 0 <= i < |s| ==> s[i].kind != Unlock
  }

  lemma StepReal(s: Sweep)
    requires s.todo != [] && s.at < |s.done| && Real(s.done) && Real(s.todo)
    ensures Real(Step(s).s.done) && Real(Step(s).s.todo) && Step(s).s.req.kind == s.req.kind
  {
  }

  lemma {:induction false} RunReal(s: Sweep)
    requires s.at < |s.done| && Real(s.done) && Real(s.todo)
    ensures Real(Run(s).s.done) && Real(Run(s).s.todo) && Run(s).s.req.kind == s.req.kind
    ensures s.req.kind == Unlock && s.added ==> Run(s).s.added
    decreases |s.todo|
  {
    if s.todo != [] {
      StepReal(s);
      if Step(s).Go? {
        RunReal(Step(s).s);
      }
    }
  }

  lemma FinishReal(m: Move, id1: nat, id2: nat)
    requires Halted(m) && Real(m.s.done) && Real(m.s.todo)
    ensures Real(Finish(m, id1, id2).locks)
  {
    assert Real(Low(m)) && Real(Split(m, id2)) && Real(High(m));
  }

  /** The edit never leaves an entry of kind F_UNLCK on the list. */
  lemma EditReal(s: seq<Lock>, req: Request, id1: nat, id2: nat)
    requires Real(s)
    ensures Real(Edit(s, req, id1, id2).locks)
  {
    var x := FirstOwn(s, req.owner, 0);
    var y := RunEnd(s, req.owner, x);
    RunReal(Start(s[x..y], req));
    FinishReal(Run(Start(s[x..y], req)), id1, id2);
  }
}

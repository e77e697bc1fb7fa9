/**
  Whom a granted request wakes: exactly those who wait for a lock that the edit
  deletes, retypes or makes smaller.
 */
module LockWakeups {
  import opened PosixLocks
  import opened PosixLockSafety
  import opened LockProtocol

  // ----- the sweep -----

  // An entry of the list that descends from a lock whose waiters were woken has
  // another kind.
  predicate Retyped(a: Lock, b: Lock, woken: set<nat>) {
    a.id == b.id && a.id in woken ==> a.kind != b.kind
  }

  // The sweep has reached run[n]; `done` comes from run[..n].
  ghost predicate Traced(s: Sweep, run: seq<Lock>, n: nat) {
    && n <= |run| && s.todo == run[n..] && s.at < |s.done| && s.left < |s.done|
    && (forall j :: 0 <= j < |s.done| ==> Earlier(run, n, s.done[j].id))
    && (forall x :: x in s.woken ==> Earlier(run, n, x))
    && (forall i, j :: 0 <= i < n && 0 <= j < |s.done| ==> Retyped(run[i], s.done[j], s.woken))
    && (s.left >= 0 ==> Uncut(s, run, n, s.left))
  }

  ghost predicate Earlier(run: seq<Lock>, n: nat, id: nat)
    requires n <= |run|
  {
    exists i :: 0 <= i < n && run[i].id == id
  }

  // The lock to be cut at its end is still as it was, and reaches into the request.
  ghost predicate Uncut(s: Sweep, run: seq<Lock>, n: nat, k: int)
    requires n <= |run|
  {
    && 0 <= k < |s.done| && k != s.at && s.done[k].end >= s.req.start
    && exists i :: 0 <= i < n && run[i] == s.done[k]
  }

  lemma EarlierGrows(run: seq<Lock>, n: nat, id: nat)
    requires n < |run|
    ensures Earlier(run, n, id) || run[n].id == id <==> Earlier(run, n + 1, id)
  {
    if Earlier(run, n, id) {
      var i :| 0 <= i < n && run[i].id == id;
    }
  }

  lemma SkipTraced(s: Sweep, run: seq<Lock>, n: nat)
    requires DistinctIds(run) && Traced(s, run, n) && s.todo != []
    ensures Traced(Skip(s), run, n + 1)
  {
    forall x ensures Earlier(run, n, x) || run[n].id == x <==> Earlier(run, n + 1, x) {
      EarlierGrows(run, n, x);
    }
    var s' := Skip(s);
    forall i, j | 0 <= i < n + 1 && 0 <= j < |s'.done| ensures Retyped(run[i], s'.done[j], s'.woken) {
    }
    if s.left >= 0 {
      var i :| 0 <= i < n && run[i] == s.done[s.left];
      assert s'.done[s.left] == run[i];
    }
  }

  lemma MergeTraced(s: Sweep, run: seq<Lock>, n: nat)
    requires DistinctIds(run) && Traced(s, run, n) && s.todo != [] && s.todo[0].kind == s.req.kind
    ensures Traced(Merge(s), run, n + 1)
  {
    var s' := Merge(s);
    forall x ensures Earlier(run, n, x) || run[n].id == x <==> Earlier(run, n + 1, x) {
      EarlierGrows(run, n, x);
    }
    forall i, j | 0 <= i < n + 1 && 0 <= j < |s'.done| ensures Retyped(run[i], s'.done[j], s'.woken) {
      if j < |s.done| {
        assert s'.done[j].kind == s.done[j].kind && s'.done[j].id == s.done[j].id && Earlier(run, n, s.done[j].id);
      }
    }
    if s.left >= 0 {
      var i :| 0 <= i < n && run[i] == s.done[s.left];
      assert s'.done[s.left] == run[i];
    }
  }

  lemma OverwriteTraced(s: Sweep, run: seq<Lock>, n: nat)
    requires DistinctIds(run) && Traced(s, run, n) && s.todo != []
    requires s.todo[0].kind != s.req.kind && s.todo[0].end >= s.req.start
    ensures Traced(Overwrite(s), run, n + 1)
  {
    var s' := Overwrite(s);
    forall x ensures Earlier(run, n, x) || run[n].id == x <==> Earlier(run, n + 1, x) {
      EarlierGrows(run, n, x);
    }
    forall i, j | 0 <= i < n + 1 && 0 <= j < |s'.done| ensures Retyped(run[i], s'.done[j], s'.woken) {
      if j < |s.done| {
        assert s'.done[j] == s.done[j] && Earlier(run, n, s.done[j].id);
      }
    }
    if s'.left == |s.done| {
      assert s'.done[s'.left] == run[n];
    } else if s.left >= 0 {
      var i :| 0 <= i < n && run[i] == s.done[s.left];
      assert s'.done[s.left] == run[i];
    }
  }

  // A halt in the middle of the last lock: it sticks out above the request, and
  // when `left` names it, below as well.
  ghost predicate TracedHalt(m: Move, run: seq<Lock>, n: nat) {
    && Halted(m) && m.s.left <= |m.s.done| && (m.s.left == |m.s.done| ==> m.right)
    && Traced(m.s.(left := if m.s.left == |m.s.done| then -1 else m.s.left), run, n)
    && (m.right ==> m.s.todo[0].start <= m.s.req.end)
  }

  lemma {:induction false} RunTraced(s: Sweep, run: seq<Lock>, n: nat) returns (k: nat)
    requires DistinctIds(run) && Traced(s, run, n)
    ensures TracedHalt(Run(s), run, k)
    decreases |s.todo|
  {
    k := n;
    if s.todo != [] && Step(s).Go? {
      if Step(s).s == Skip(s) {
        SkipTraced(s, run, n);
      } else if s.todo[0].kind == s.req.kind {
        MergeTraced(s, run, n);
      } else {
        OverwriteTraced(s, run, n);
      }
      k := RunTraced(Step(s).s, run, n + 1);
    }
  }

  // ----- the end of the edit -----

  ghost predicate WakesOnlyLost(run: seq<Lock>, e: Edited) {
    && (forall x :: x in e.woken ==> Earlier(run, |run|, x))
    && forall i :: 0 <= i < |run| && run[i].id in e.woken ==> !HasGrown(run[i], e.locks)
  }

  // No piece of the final list is a lock of the run that was woken and kept.
  lemma LowLost(m: Move, run: seq<Lock>, n: nat, i: nat, j: nat)
    requires DistinctIds(run) && TracedHalt(m, run, n) && DistinctIds(m.s.done + m.s.todo)
    requires i < |run| && run[i].id in m.s.woken + CutIds(m) && j < |Low(m)|
    ensures !Grown(run[i], Low(m)[j])
  {
    var s := m.s;
    if Low(m)[j].id == run[i].id {
      var h := OriginOf(run, n, s.done[j].id);
      if run[i].id in s.woken {
        assert Retyped(run[h], s.done[j], s.woken);
      } else {
        CutIsLeft(m, run, n, i, j);
        assert Low(m)[j].end < run[i].end;
      }
    }
  }

  lemma OriginOf(run: seq<Lock>, n: nat, id: nat) returns (h: nat)
    requires n <= |run| && DistinctIds(run) && Earlier(run, n, id)
    ensures h < n && run[h].id == id && forall i :: 0 <= i < |run| && run[i].id == id ==> i == h
  {
    h :| h < n && run[h].id == id;
  }

  lemma CutIsLeft(m: Move, run: seq<Lock>, n: nat, i: nat, j: nat)
    requires DistinctIds(run) && TracedHalt(m, run, n) && DistinctIds(m.s.done + m.s.todo)
    requires i < n && run[i].id in CutIds(m) && j < |m.s.done| && m.s.done[j].id == run[i].id
    ensures j == m.s.left && m.s.done[j] == run[i] && m.s.req.start <= run[i].end
  {
    var s := m.s;
    assert (s.done + s.todo)[j] == s.done[j];
    assert s.todo != [] ==> (s.done + s.todo)[|s.done|] == s.todo[0];
    assert 0 <= s.left < |s.done| && s.done[s.left].id == run[i].id;
    assert (s.done + s.todo)[s.left] == s.done[s.left];
  }

  lemma HighLost(m: Move, run: seq<Lock>, n: nat, i: nat, j: nat)
    requires DistinctIds(run) && TracedHalt(m, run, n)
    requires i < |run| && run[i].id in m.s.woken + CutIds(m) && j < |High(m)|
    ensures !Grown(run[i], High(m)[j])
  {
    var s := m.s;
    assert High(m)[j].id == s.todo[j].id == run[n + j].id;
    if High(m)[j].id == run[i].id {
      assert i == n + j;
      if run[i].id in s.woken {
        assert false;
      } else if 0 <= s.left < |s.done| && s.done[s.left].id == run[i].id {
        assert false;
      }
    }
  }

  lemma PieceLost(m: Move, run: seq<Lock>, n: nat, id1: nat, id2: nat, i: nat, j: nat)
    requires DistinctIds(run) && TracedHalt(m, run, n) && DistinctIds(m.s.done + m.s.todo)
    requires !Earlier(run, |run|, id1) && !Earlier(run, |run|, id2)
    requires i < |run| && run[i].id in m.s.woken + CutIds(m)
    requires j < |Low(m) + (Split(m, id2) + Inserted(m, id1)) + High(m)|
    ensures !Grown(run[i], (Low(m) + (Split(m, id2) + Inserted(m, id1)) + High(m))[j])
  {
    var low, mid, high := Low(m), Split(m, id2) + Inserted(m, id1), High(m);
    if j < |low| {
      LowLost(m, run, n, i, j);
    } else if j < |low| + |mid| {
      assert mid[j - |low|].id == id1 || mid[j - |low|].id == id2;
      assert Earlier(run, |run|, run[i].id);
    } else {
      HighLost(m, run, n, i, j - |low| - |mid|);
    }
  }

  lemma FinishShape(m: Move, id1: nat, id2: nat)
    requires Halted(m) && (m.s.added || m.s.req.kind != Unlock)
    ensures Finish(m, id1, id2) == Edited(Low(m) + (Split(m, id2) + Inserted(m, id1)) + High(m), m.s.woken + CutIds(m))
  {
    var low, split, new_, high := Low(m), Split(m, id2), Inserted(m, id1), High(m);
    assert low + split + new_ + high == low + (split + new_) + high;
  }

  lemma OneLost(m: Move, run: seq<Lock>, n: nat, id1: nat, id2: nat, i: nat, locks: seq<Lock>)
    requires DistinctIds(run) && TracedHalt(m, run, n) && DistinctIds(m.s.done + m.s.todo)
    requires !Earlier(run, |run|, id1) && !Earlier(run, |run|, id2)
    requires i < |run| && run[i].id in m.s.woken + CutIds(m)
    requires locks == Low(m) + (Split(m, id2) + Inserted(m, id1)) + High(m)
    ensures !HasGrown(run[i], locks)
  {
    forall j | 0 <= j < |locks| ensures !Grown(run[i], locks[j]) {
      PieceLost(m, run, n, id1, id2, i, j);
    }
  }

  lemma FinishWakes(m: Move, run: seq<Lock>, n: nat, id1: nat, id2: nat)
    requires DistinctIds(run) && TracedHalt(m, run, n) && DistinctIds(m.s.done + m.s.todo)
    requires !Earlier(run, |run|, id1) && !Earlier(run, |run|, id2)
    requires m.s.added || m.s.req.kind != Unlock
    ensures WakesOnlyLost(run, Finish(m, id1, id2))
  {
    var e := Finish(m, id1, id2);
    FinishShape(m, id1, id2);
    forall x | x in e.woken ensures Earlier(run, |run|, x) {
      WokenEarlier(m, run, n, x);
    }
    forall i | 0 <= i < |run| && run[i].id in e.woken ensures !HasGrown(run[i], e.locks) {
      OneLost(m, run, n, id1, id2, i, e.locks);
    }
  }

  lemma WokenEarlier(m: Move, run: seq<Lock>, n: nat, x: nat)
    requires TracedHalt(m, run, n) && x in m.s.woken + CutIds(m)
    ensures Earlier(run, |run|, x)
  {
    if m.right && x == m.s.todo[0].id {
      assert run[n].id == x;
    } else {
      assert Earlier(run, n, x);
      var i :| 0 <= i < n && run[i].id == x;
    }
  }

  lemma EditRunWakes(run: seq<Lock>, req: Request, ids: set<nat>, id1: nat, id2: nat)
    requires DistinctIds(run) && IdsFrom(run, ids) && id1 !in ids && id2 !in ids
    ensures WakesOnlyLost(run, EditRun(run, req, id1, id2))
  {
    var st := Start(run, req);
    var n := RunTraced(st, run, 0);
    var m := Run(st);
    RunDistinct(run, req, ids);
    if m.s.added || req.kind != Unlock {
      RunReq(st);
      FinishWakes(m, run, n, id1, id2);
    } else {
      NothingErased(st);
    }
  }

  lemma RunDistinct(run: seq<Lock>, req: Request, ids: set<nat>)
    requires DistinctIds(run) && IdsFrom(run, ids)
    ensures var s := Run(Start(run, req)).s; DistinctIds(s.done + s.todo)
  {
    var st := Start(run, req);
    assert st.done + st.todo == run;
    KeepsPointwise(run, run, {});
    RunTracked(st, run, ids);
  }

  lemma {:induction false} RunReq(s: Sweep)
    requires s.at < |s.done|
    ensures Run(s).s.req.kind == s.req.kind
    decreases |s.todo|
  {
    if s.todo != [] && Step(s).Go? {
      RunReq(Step(s).s);
    }
  }

  // An F_UNLCK that meets nothing wakes nobody.
  lemma {:induction false} NothingErased(s: Sweep)
    requires s.at < |s.done| && s.req.kind == Unlock && !Run(s).s.added
    ensures Run(s).s.woken == s.woken && Run(s).s.req.kind == Unlock
    decreases |s.todo|
  {
    if s.todo != [] && Step(s).Go? {
      if Step(s).s.added { AddedStays(Step(s).s); }
      NothingErased(Step(s).s);
    }
  }

  lemma {:induction false} AddedStays(s: Sweep)
    requires s.at < |s.done| && s.added
    ensures Run(s).s.added
    decreases |s.todo|
  {
    if s.todo != [] && Step(s).Go? {
      AddedStays(Step(s).s);
    }
  }

  // The run l[x..y] is replaced by the edited one.
  lemma SpliceLost(l: seq<Lock>, x: nat, y: nat, r: Edited, i: nat, j: nat)
    requires x <= y <= |l| && DistinctIds(l) && WakesOnlyLost(l[x..y], r)
    requires i < |l| && l[i].id in r.woken && j < |l[..x] + r.locks + l[y..]|
    ensures !Grown(l[i], (l[..x] + r.locks + l[y..])[j])
  {
    var run := l[x..y];
    assert Earlier(run, |run|, l[i].id);
    var h :| 0 <= h < |run| && run[h].id == l[i].id;
    assert l[x + h].id == l[i].id;
    if x <= j < x + |r.locks| {
      assert !HasGrown(run[h], r.locks);
    }
  }

  lemma EditLost(l: seq<Lock>, req: Request, ids: set<nat>, id1: nat, id2: nat, i: nat)
    requires DistinctIds(l) && IdsFrom(l, ids) && id1 !in ids && id2 !in ids
    requires i < |l| && l[i].id in Edit(l, req, id1, id2).woken
    ensures !HasGrown(l[i], Edit(l, req, id1, id2).locks)
  {
    var x := FirstOwn(l, req.owner, 0);
    var y := RunEnd(l, req.owner, x);
    var r := EditRun(l[x..y], req, id1, id2);
    assert Edit(l, req, id1, id2) == Edited(l[..x] + r.locks + l[y..], r.woken);
    EditRunWakes(l[x..y], req, ids, id1, id2);
    forall j | 0 <= j < |l[..x] + r.locks + l[y..]| ensures !Grown(l[i], (l[..x] + r.locks + l[y..])[j]) {
      SpliceLost(l, x, y, r, i, j);
    }
  }

  /** The edit wakes the waiters of a lock exactly when the lock is gone afterwards, of
      another kind, or smaller. */
  lemma EditWakesExactly(l: seq<Lock>, req: Request, id1: nat, id2: nat, ids: set<nat>, i: nat)
    requires DistinctIds(l) && IdsFrom(l, ids) && i < |l|
    requires id1 !in ids && id2 !in ids && id1 != id2
    ensures l[i].id in Edit(l, req, id1, id2).woken <==> !HasGrown(l[i], Edit(l, req, id1, id2).locks)
  {
    EditWakesWhatItShrinks(l, req, id1, id2, ids);
    if l[i].id in Edit(l, req, id1, id2).woken {
      EditLost(l, req, ids, id1, id2, i);
    }
  }

  // The waiter hangs on a lock that the list has no longer, or no longer as large.
  ghost predicate Released(l: seq<Lock>, l': seq<Lock>, w: Waiter) {
    exists i :: 0 <= i < |l| && l[i].id == w.blocker && !HasGrown(l[i], l')
  }

  lemma ReleasedExactly(l: seq<Lock>, r: Request, n: nat, w: Waiter, e: Edited)
    requires GoodList(l, n) && HeldUp(w, l) && e == Edit(l, r, n, n + 1)
    ensures w.blocker in e.woken <==> Released(l, e.locks, w)
  {
    var i :| 0 <= i < |l| && l[i].id == w.blocker && Conflict(w.req, l[i]);
    EditWakesExactly(l, r, n, n + 1, IdsBelow(n), i);
  }

  lemma WaiterHeldUp(s: State, w: Waiter)
    requires Inv(s) && w in s.blocked
    ensures GoodList(ListOf(s.files, w.ino), s.nextId) && HeldUp(w, ListOf(s.files, w.ino))
  {
    var k :| 0 <= k < |s.blocked| && s.blocked[k] == w;
    EmptyListGood(s.nextId);
  }

  // Waiters leave exactly when their lock is among the woken ones.
  lemma WaiterLeaves(s: State, s': State, ino: int, e: Edited, w: Waiter)
    requires s'.files == s.files[ino := e.locks] && s'.blocked == StillBlocked(s.blocked, ino, e.woken)
    requires w in s.blocked && w.ino == ino ==> (w.blocker in e.woken <==> Released(ListOf(s.files, ino), e.locks, w))
    ensures w in s'.blocked <==>
            w in s.blocked && !(w.ino == ino && Released(ListOf(s.files, ino), ListOf(s'.files, ino), w))
  {
    StillBlockedFacts(s.blocked, ino, e.woken);
  }

  /** A granted request wakes exactly those who wait for a lock that it deleted, retyped
      or made smaller. */
  lemma GrantWakesExactly(s: State, ino: int, r: Request, w: Waiter)
    requires Inv(s)
    ensures var s' := Grant(s, ino, r);
            w in s'.blocked <==>
              w in s.blocked && !(w.ino == ino && Released(ListOf(s.files, ino), ListOf(s'.files, ino), w))
  {
    var l := ListOf(s.files, ino);
    var e := Edit(l, r, s.nextId, s.nextId + 1);
    if w in s.blocked && w.ino == ino {
      WaiterHeldUp(s, w);
      ReleasedExactly(l, r, s.nextId, w, e);
    }
    WaiterLeaves(s, Grant(s, ino, r), ino, e, w);
  }
}

/**
  The lock table as the kernel keeps it: lists edited in place under the kernel
  lock.  Every method is proved to take the step that LockProtocol describes.
 */
module LockTable {
  import opened PosixLocks
  import opened PosixLockSafety
  import opened FunctionalGraph
  import opened LockProtocol
  import opened LockMeaning
  import opened LockWakeups

  // ----- lists cut at the `before` pointer: a + done + todo + c -----

  lemma Shift(a: seq<Lock>, d: seq<Lock>, t: seq<Lock>, c: seq<Lock>)
    requires t != []
    ensures a + d + t + c == a + (d + [t[0]]) + t[1..] + c
  {
    assert [t[0]] + t[1..] == t;
  }

  lemma SetHere(a: seq<Lock>, d: seq<Lock>, t: seq<Lock>, c: seq<Lock>, v: Lock)
    requires t != []
    ensures (a + d + t + c)[|a| + |d| := v] == a + (d + [v]) + t[1..] + c
  {
  }

  lemma DropHere(a: seq<Lock>, d: seq<Lock>, t: seq<Lock>, c: seq<Lock>)
    requires t != []
    ensures var s := a + d + t + c; var n := |a| + |d|;
            s[..n] + s[n + 1..] == a + d + t[1..] + c
  {
  }

  lemma SetDone(a: seq<Lock>, d: seq<Lock>, t: seq<Lock>, c: seq<Lock>, i: nat, v: Lock)
    requires i < |d|
    ensures (a + d + t + c)[|a| + i := v] == a + d[i := v] + t + c
  {
  }

  // p + q with position |p| + i of the whole replaced, or a value put between.
  lemma SetAfter(p: seq<Lock>, q: seq<Lock>, i: nat, v: Lock)
    requires i < |q|
    ensures (p + q)[|p| + i := v] == p + q[i := v]
  {
  }

  lemma PutBetween(p: seq<Lock>, q: seq<Lock>, v: Lock)
    ensures (p + q)[..|p|] + [v] + (p + q)[|p|..] == p + ([v] + q)
  {
  }

  lemma Associate(a: seq<Lock>, l: seq<Lock>, s: seq<Lock>, i: seq<Lock>, h: seq<Lock>, c: seq<Lock>)
    ensures a + (l + (s + (i + (h + c)))) == a + (l + s + i + h) + c
    ensures [] + (i + (h + c)) == i + (h + c)
  {
  }

  // ----- waking in portions -----

  lemma {:induction false} WakeTwice(ws: seq<Waiter>, ino: int, x: set<nat>, y: set<nat>)
    ensures StillBlocked(StillBlocked(ws, ino, x), ino, y) == StillBlocked(ws, ino, x + y)
  {
    if ws != [] {
      WakeTwice(ws[1..], ino, x, y);
      var t := StillBlocked(ws[1..], ino, x);
      assert ([ws[0]] + t)[1..] == t;
    }
  }

  lemma {:induction false} WakePrefix(p: seq<Waiter>, ws: seq<Waiter>, ino: int, x: set<nat>)
    requires forall w :: w in p ==> !(w.ino == ino && w.blocker in x)
    ensures StillBlocked(p + ws, ino, x) == p + StillBlocked(ws, ino, x)
  {
    if p == [] {
      assert p + ws == ws;
    } else {
      assert p[0] in p;
      assert (p + ws)[1..] == p[1..] + ws;
      WakePrefix(p[1..], ws, ino, x);
    }
  }

  lemma WakeNone(ws: seq<Waiter>, ino: int, x: set<nat>)
    requires forall w :: w in ws ==> !(w.ino == ino && w.blocker in x)
    ensures StillBlocked(ws, ino, x) == ws
  {
    WakePrefix(ws, [], ino, x);
    assert ws + [] == ws;
  }

  // The local variables of posix_lock_file: the list, the index that `before`
  // points at, *caller, and the indices of the entries caller and left point to.
  datatype Cursor = Cursor(list: seq<Lock>, before: nat, caller: Request, added: bool, at: int, left: int)

  ghost predicate Tracks(cur: Cursor, a: seq<Lock>, st: Sweep, c: seq<Lock>) {
    && cur.list == a + st.done + st.todo + c && cur.before == |a| + |st.done|
    && cur.caller == st.req && cur.added == st.added
    && -1 <= st.at < |st.done| && -1 <= st.left < |st.done|
    && cur.at == (if st.at < 0 then -1 else |a| + st.at)
    && cur.left == (if st.left < 0 then -1 else |a| + st.left)
  }

  ghost predicate TracksHalt(cur: Cursor, a: seq<Lock>, m: Move, c: seq<Lock>) {
    && Halted(m)
    && cur.list == a + m.s.done + m.s.todo + c && cur.before == |a| + |m.s.done|
    && cur.caller == m.s.req && cur.added == m.s.added
    && -1 <= m.s.left <= |m.s.done| && (m.s.left == |m.s.done| ==> m.right)
    && cur.left == (if m.s.left < 0 then -1 else |a| + m.s.left)
  }

  // The copy of the lock above that becomes its lower piece.
  function SplitCopy(m: Move, id2: nat): seq<Lock>
    requires Halted(m)
  {
    if m.right && m.s.left == |m.s.done| then [m.s.todo[0].(id := id2)] else []
  }

  lemma CutList(list: seq<Lock>, x: nat, y: nat)
    requires x <= y <= |list|
    ensures list == list[..x] + [] + list[x..y] + list[y..]
  {
  }

  // The loop guard holds exactly while own locks are left.
  lemma AtOwnLock(cur: Cursor, a: seq<Lock>, st: Sweep, c: seq<Lock>, o: Owner)
    requires Tracks(cur, a, st, c) && OwnedBy(st.todo, o) && (c != [] ==> c[0].owner != o)
    ensures st.todo != [] <==> cur.before < |cur.list| && cur.list[cur.before].owner == o
  {
    if st.todo != [] {
      assert cur.list[cur.before] == st.todo[0];
    } else if c != [] {
      assert cur.list[cur.before] == c[0];
    }
  }

  lemma StepOwned(st: Sweep, o: Owner)
    requires st.todo != [] && st.at < |st.done| && OwnedBy(st.todo, o) && Step(st).Go?
    ensures OwnedBy(Step(st).s.todo, o) && |Step(st).s.todo| < |st.todo|
  {
  }

  class LockTable {
    var files: map<int, seq<Lock>>
    var blocked: seq<Waiter>
    var nextId: nat

    ghost function Value(): State
      reads this
    {
      State(files, blocked, nextId)
    }

    constructor ()
      ensures Value() == Initial && Inv(Value())
    {
      files, blocked, nextId := map[], [], 0;
      new;
      InitialInv();
    }

    // locks_wake_up_blocks: empty the block list of lock `id`.
    method WakeUpBlocks(ino: int, id: nat)
      modifies this`blocked
      ensures blocked == StillBlocked(old(blocked), ino, {id})
    {
      var i := 0;
      while i < |blocked|
        invariant i <= |blocked|
        invariant forall w :: w in blocked[..i] ==> !(w.ino == ino && w.blocker == id)
        invariant StillBlocked(blocked, ino, {id}) == StillBlocked(old(blocked), ino, {id})
        decreases |blocked| - i
      {
        assert blocked == blocked[..i] + blocked[i..];
        WakePrefix(blocked[..i], blocked[i..], ino, {id});
        if blocked[i].ino == ino && blocked[i].blocker == id {
          ghost var rest := blocked[i + 1..];
          assert blocked[i..][1..] == rest;
          blocked := blocked[..i] + blocked[i + 1..];
          WakePrefix(blocked[..i], rest, ino, {id});
        } else {
          i := i + 1;
        }
      }
      assert blocked[..i] == blocked;
      WakeNone(blocked, ino, {id});
    }

    // posix_locks_deadlock: would `caller` wait, through others, for itself?
    method DeadlockSearch(caller: Owner, first: Owner) returns (r: bool)
      requires OneEach(blocked) && Acyclic(WaitsFor(Value()))
      ensures r <==> Reaches(WaitsFor(Value()), first, caller)
    {
      ghost var e := WaitsFor(Value());
      ghost var rank :| Ranks(rank, e);
      var o := first;
      while o != caller
        invariant Reaches(e, first, caller) <==> Reaches(e, o, caller)
        decreases RankOf(rank, o)
      {
        var i := 0;
        while i < |blocked| && blocked[i].req.owner != o
          invariant i <= |blocked|
          invariant forall j :: 0 <= j < i ==> blocked[j].req.owner != o
        {
          i := i + 1;
        }
        if i == |blocked| {
          assert o !in e;
          ReachesNothing(e, o, caller);
          return false;
        }
        EdgeOf(Value(), blocked[i]);
        ReachesStep(e, o, caller);
        o := BlockerOwner(files, blocked[i]);
      }
      ReachesSelf(e, caller);
      return true;
    }

    // The conflict scan at the head of posix_lock_file.
    method FindConflict(list: seq<Lock>, r: Request) returns (k: nat)
      ensures k == FirstConflict(list, r, 0)
    {
      k := 0;
      while k < |list| && !Conflict(r, list[k])
        invariant k <= |list|
        invariant FirstConflict(list, r, k) == FirstConflict(list, r, 0)
      {
        k := k + 1;
      }
    }

    // The branch for adjacent or overlapping locks of the same kind: both get the
    // lower start and the higher end, and one of them remains.
    method MergeHere(ino: int, cur: Cursor, ghost a: seq<Lock>, ghost st: Sweep, ghost c: seq<Lock>)
      returns (cur': Cursor)
      requires Tracks(cur, a, st, c) && st.todo != []
      modifies this`blocked
      ensures Tracks(cur', a, Merge(st), c)
      ensures blocked == StillBlocked(old(blocked), ino, if st.added then {st.todo[0].id} else {})
    {
      var before, list, caller := cur.before, cur.list, cur.caller;
      var fl := list[before];
      if fl.start > caller.start { fl := fl.(start := caller.start); } else { caller := caller.(start := fl.start); }
      if fl.end < caller.end { fl := fl.(end := caller.end); } else { caller := caller.(end := fl.end); }
      assert fl == st.todo[0].(start := Merge(st).req.start, end := Merge(st).req.end) && caller == Merge(st).req;
      if cur.added {
        list := DropMerged(list, before, cur.at, caller, a, st, c);
        WakeUpBlocks(ino, fl.id);
        cur' := cur.(list := list, caller := caller);
      } else {
        SetHere(a, st.done, st.todo, c, fl);
        cur' := cur.(list := list[before := fl], caller := caller, added := true, at := before, before := before + 1);
        WakeNone(blocked, ino, {});
      }
    }

    // The entry standing for the request grows and the merged one goes.
    method DropMerged(list: seq<Lock>, before: nat, at: int, caller: Request,
                      ghost a: seq<Lock>, ghost st: Sweep, ghost c: seq<Lock>)
      returns (list': seq<Lock>)
      requires st.todo != [] && list == a + st.done + st.todo + c && before == |a| + |st.done|
      requires -1 <= st.at < |st.done| && at == (if st.at < 0 then -1 else |a| + st.at)
      requires st.added && caller == Merge(st).req
      ensures list' == a + Merge(st).done + Merge(st).todo + c
    {
      DropHere(a, st.done, st.todo, c);
      list' := list[..before] + list[before + 1..];
      if at >= 0 {
        SetDone(a, st.done, st.todo[1..], c, st.at, Merge(st).done[st.at]);
        list' := list'[at := list'[at].(start := caller.start, end := caller.end)];
      }
    }

    // The branch for an overlapping lock of another kind that ends within the request.
    method OverwriteHere(ino: int, cur: Cursor, ghost a: seq<Lock>, ghost st: Sweep, ghost c: seq<Lock>)
      returns (cur': Cursor)
      requires Tracks(cur, a, st, c) && st.todo != []
      modifies this`blocked
      ensures Tracks(cur', a, Overwrite(st), c)
      ensures blocked == StillBlocked(old(blocked), ino,
                                      if st.todo[0].start < st.req.start then {} else {st.todo[0].id})
    {
      var before, list, caller := cur.before, cur.list, cur.caller;
      var fl := list[before];
      var added := cur.added;
      if caller.kind == Unlock {
        added := true;
      }
      if fl.start < caller.start {
        Shift(a, st.done, st.todo, c);
        cur' := cur.(added := added, left := before, before := before + 1);
        WakeNone(blocked, ino, {});
      } else if added {
        DropHere(a, st.done, st.todo, c);
        cur' := cur.(added := true, list := list[..before] + list[before + 1..]);
        WakeUpBlocks(ino, fl.id);
      } else {
        WakeUpBlocks(ino, fl.id);
        fl := fl.(start := caller.start, end := caller.end, kind := caller.kind);
        SetHere(a, st.done, st.todo, c, fl);
        cur' := cur.(list := list[before := fl], added := true, at := before, before := before + 1);
      }
    }

    // The branches that edit the list; they never leave the loop.
    method Rework(ino: int, cur: Cursor, ghost a: seq<Lock>, ghost st: Sweep, ghost c: seq<Lock>,
                  ghost ws: seq<Waiter>)
      returns (cur': Cursor)
      requires Tracks(cur, a, st, c) && st.todo != [] && blocked == StillBlocked(ws, ino, st.woken)
      modifies this`blocked
      ensures var st' := if st.todo[0].kind == st.req.kind then Merge(st) else Overwrite(st);
              Tracks(cur', a, st', c) && blocked == StillBlocked(ws, ino, st'.woken)
    {
      var fl := cur.list[cur.before];
      assert fl == st.todo[0];
      if cur.caller.kind == fl.kind {
        ghost var w := if st.added then {fl.id} else {};
        WakeTwice(ws, ino, st.woken, w);
        cur' := MergeHere(ino, cur, a, st, c);
        assert Merge(st).woken == st.woken + w;
      } else {
        ghost var w := if fl.start < cur.caller.start then {} else {fl.id};
        WakeTwice(ws, ino, st.woken, w);
        cur' := OverwriteHere(ino, cur, a, st, c);
        assert Overwrite(st).woken == st.woken + w;
      }
    }

    // One iteration of the loop over the caller's own locks; `stop` is its break,
    // `right` says that the current lock sticks out above the request.
    method Iterate(ino: int, cur: Cursor, ghost a: seq<Lock>, ghost st: Sweep, ghost c: seq<Lock>,
                   ghost ws: seq<Waiter>)
      returns (cur': Cursor, stop: bool, right: bool)
      requires Tracks(cur, a, st, c) && st.todo != [] && blocked == StillBlocked(ws, ino, st.woken)
      modifies this`blocked
      ensures Step(st) == (if stop then Halt(Step(st).s, right) else Go(Step(st).s))
      ensures blocked == StillBlocked(ws, ino, Step(st).s.woken)
      ensures !stop ==> Tracks(cur', a, Step(st).s, c)
      ensures stop ==> TracksHalt(cur', a, Step(st), c)
      ensures right ==> stop
    {
      var fl := cur.list[cur.before];
      var caller := cur.caller;
      assert fl == st.todo[0];
      cur', stop, right := cur, false, false;
      if caller.kind == fl.kind {
        if fl.end < caller.start - 1 {
          Shift(a, st.done, st.todo, c);
          cur' := cur.(before := cur.before + 1);
        } else if fl.start > WrapInc(caller.end) {
          stop := true;
        } else {
          cur' := Rework(ino, cur, a, st, c, ws);
        }
      } else if fl.end < caller.start {
        Shift(a, st.done, st.todo, c);
        cur' := cur.(before := cur.before + 1);
      } else if fl.start > caller.end {
        stop := true;
      } else if fl.end > caller.end {
        cur' := cur.(added := cur.added || caller.kind == Unlock,
                     left := if fl.start < caller.start then cur.before else cur.left);
        stop, right := true, true;
      } else {
        cur' := Rework(ino, cur, a, st, c, ws);
      }
    }

    // The loop over the caller's own locks, which are list[start..y].
    method SweepOwn(ino: int, list: seq<Lock>, start: nat, r: Request, ghost y: nat)
      returns (cur: Cursor, right: bool)
      requires start <= y <= |list| && OwnedBy(list[start..y], r.owner) && (y < |list| ==> list[y].owner != r.owner)
      modifies this`blocked
      ensures var m := Run(Start(list[start..y], r));
              && TracksHalt(cur, list[..start], m, list[y..]) && right == m.right
              && blocked == StillBlocked(old(blocked), ino, m.s.woken)
    {
      ghost var a, c := list[..start], list[y..];
      ghost var st := Start(list[start..y], r);
      ghost var m := Run(st);
      CutList(list, start, y);
      WakeNone(blocked, ino, {});
      cur, right := Cursor(list, start, r, false, -1, -1), false;
      while cur.before < |cur.list| && cur.list[cur.before].owner == r.owner
        invariant Tracks(cur, a, st, c) && !right && Run(st) == m
        invariant OwnedBy(st.todo, r.owner) && (c != [] ==> c[0].owner != r.owner)
        invariant blocked == StillBlocked(old(blocked), ino, st.woken)
        decreases |st.todo|
      {
        AtOwnLock(cur, a, st, c, r.owner);
        var stop;
        cur, stop, right := Iterate(ino, cur, a, st, c, old(blocked));
        if stop {
          return;
        }
        StepOwned(st, r.owner);
        st := Step(st).s;
      }
      AtOwnLock(cur, a, st, c, r.owner);
    }

    // After the loop: put in the new lock unless an old one stands for it.
    method InsertNew(cur: Cursor, id1: nat, ghost a: seq<Lock>, ghost m: Move, ghost c: seq<Lock>)
      returns (list: seq<Lock>)
      requires TracksHalt(cur, a, m, c)
      ensures list == (a + m.s.done) + (Inserted(m, id1) + (m.s.todo + c))
    {
      list := cur.list;
      ghost var p, q := a + m.s.done, m.s.todo + c;
      assert list == p + q;
      if !cur.added {
        var r := cur.caller;
        PutBetween(p, q, Inserted(m, id1)[0]);
        list := list[..cur.before] + [Lock(id1, r.owner, r.kind, r.start, r.end)] + list[cur.before..];
      }
    }

    // Cut the lock that sticks out above, after copying it if it also sticks out below.
    method CutAbove(ino: int, cur: Cursor, old_: seq<Lock>, id1: nat, id2: nat,
                    ghost a: seq<Lock>, ghost m: Move, ghost c: seq<Lock>)
      returns (list: seq<Lock>)
      requires TracksHalt(cur, a, m, c) && m.right
      requires old_ == (a + m.s.done) + (Inserted(m, id1) + (m.s.todo + c))
      modifies this`blocked
      ensures list == (a + m.s.done) + (SplitCopy(m, id2) + (Inserted(m, id1) + (High(m) + c)))
      ensures blocked == StillBlocked(old(blocked), ino, {m.s.todo[0].id})
    {
      list := old_;
      ghost var p, ins, sp, q := a + m.s.done, Inserted(m, id1), SplitCopy(m, id2), m.s.todo + c;
      var at := if cur.added then cur.before else cur.before + 1;
      assert list[at] == q[0];
      if cur.left == cur.before {
        PutBetween(p, ins + q, sp[0]);
        list := list[..cur.before] + [list[at].(id := id2)] + list[cur.before..];
        at := at + 1;
      }
      assert list == p + (sp + (ins + q));
      SetAfter(p, sp + (ins + q), |sp| + |ins|, High(m)[0]);
      SetAfter(sp, ins + q, |ins|, High(m)[0]);
      SetAfter(ins, q, 0, High(m)[0]);
      assert q[0 := High(m)[0]] == High(m) + c;
      list := list[at := list[at].(start := cur.caller.end + 1)];
      WakeUpBlocks(ino, list[at].id);
    }

    // Cut the lock that sticks out below.
    method CutBelow(ino: int, cur: Cursor, old_: seq<Lock>, id2: nat,
                    ghost a: seq<Lock>, ghost m: Move, ghost c: seq<Lock>, ghost rest: seq<Lock>)
      returns (list: seq<Lock>)
      requires TracksHalt(cur, a, m, c) && old_ == (a + m.s.done) + (SplitCopy(m, id2) + rest)
      modifies this`blocked
      ensures list == a + (Low(m) + (Split(m, id2) + rest))
      ensures blocked == if m.s.left < 0 then old(blocked)
                         else if m.s.left < |m.s.done| then StillBlocked(old(blocked), ino, {m.s.done[m.s.left].id})
                         else StillBlocked(old(blocked), ino, {id2})
    {
      list := old_;
      var left := cur.left;
      ghost var q := m.s.done + (SplitCopy(m, id2) + rest);
      assert list == a + q;
      if left >= 0 {
        list := list[left := list[left].(end := cur.caller.start - 1)];
        SetAfter(a, q, m.s.left, list[left]);
        assert q[m.s.left := list[left]] == Low(m) + (Split(m, id2) + rest);
        WakeUpBlocks(ino, list[left].id);
      }
    }

    lemma WakeCuts(ws: seq<Waiter>, ino: int, m: Move, id1: nat, id2: nat)
      requires Halted(m) && -1 <= m.s.left <= |m.s.done| && (m.s.left == |m.s.done| ==> m.right)
      requires forall w :: w in ws ==> w.blocker != id2
      requires m.s.added || m.s.req.kind != Unlock
      ensures var w1 := StillBlocked(ws, ino, m.s.woken);
              var w2 := if m.right then StillBlocked(w1, ino, {m.s.todo[0].id}) else w1;
              var w3 := if m.s.left < 0 then w2
                        else if m.s.left < |m.s.done| then StillBlocked(w2, ino, {m.s.done[m.s.left].id})
                        else StillBlocked(w2, ino, {id2});
              w3 == StillBlocked(ws, ino, Finish(m, id1, id2).woken)
    {
      var cut := m.s.woken + (if m.right then {m.s.todo[0].id} else {});
      if m.right {
        WakeTwice(ws, ino, m.s.woken, {m.s.todo[0].id});
      }
      if 0 <= m.s.left < |m.s.done| {
        WakeTwice(ws, ino, cut, {m.s.done[m.s.left].id});
        assert cut + {m.s.done[m.s.left].id} == Finish(m, id1, id2).woken;
      } else {
        assert cut == Finish(m, id1, id2).woken;
        StillBlockedFacts(ws, ino, cut);
        WakeNone(StillBlocked(ws, ino, cut), ino, {id2});
      }
    }

    // Everything after the loop.
    method FinishFile(ino: int, cur: Cursor, right: bool, id1: nat, id2: nat,
                      ghost a: seq<Lock>, ghost m: Move, ghost c: seq<Lock>, ghost ws: seq<Waiter>)
      returns (list: seq<Lock>)
      requires TracksHalt(cur, a, m, c) && right == m.right
      requires blocked == StillBlocked(ws, ino, m.s.woken) && (forall w :: w in ws ==> w.blocker != id2)
      modifies this`blocked
      ensures list == a + Finish(m, id1, id2).locks + c
      ensures blocked == StillBlocked(ws, ino, Finish(m, id1, id2).woken)
    {
      if !cur.added && cur.caller.kind == Unlock {
        list := cur.list;
        assert list == a + (m.s.done + m.s.todo) + c;
        return;
      }
      list := InsertNew(cur, id1, a, m, c);
      if right {
        list := CutAbove(ino, cur, list, id1, id2, a, m, c);
      }
      ghost var rest := Inserted(m, id1) + (High(m) + c);
      Associate(a, Low(m), Split(m, id2), Inserted(m, id1), High(m), c);
      list := CutBelow(ino, cur, list, id2, a, m, c, rest);
      WakeCuts(ws, ino, m, id1, id2);
    }

    // The edit phase of posix_lock_file.
    method EditFile(ino: int, r: Request)
      requires ValidRequest(r) && forall w :: w in blocked ==> w.blocker < nextId
      modifies this
      ensures Value() == Grant(old(Value()), ino, r)
      ensures SameElsewhere(old(Value()), Value(), ino) && GrantedOn(ListOf(old(files), ino), r, ListOf(files, ino))
    {
      GrantMeans(Value(), ino, r, Grant(Value(), ino, r), Edit(ListOf(files, ino), r, nextId, nextId + 1));
      ChangeList(ino, r);
    }

    // The same on the list of inode `ino`: skip, sweep, insert, cut.
    method ChangeList(ino: int, r: Request)
      requires forall w :: w in blocked ==> w.blocker < nextId
      modifies this
      ensures Value() == Grant(old(Value()), ino, r)
    {
      var list := ListOf(files, ino);
      var id1, id2 := nextId, nextId + 1;
      nextId := nextId + 2;

      // skip locks owned by other processes
      var before := 0;
      while before < |list| && list[before].owner != r.owner
        invariant before <= |list|
        invariant FirstOwn(list, r.owner, before) == FirstOwn(list, r.owner, 0)
      {
        before := before + 1;
      }
      ghost var y := RunEnd(list, r.owner, before);
      ghost var m := Run(Start(list[before..y], r));
      var cur, right := SweepOwn(ino, list, before, r, y);
      var list' := FinishFile(ino, cur, right, id1, id2, list[..before], m, list[y..], old(blocked));
      files := files[ino := list'];
    }

    lemma BlockersExist()
      requires Inv(Value())
      ensures forall w :: w in blocked ==> w.blocker < nextId
    {
      forall w | w in blocked ensures w.blocker < nextId {
        var i :| 0 <= i < |blocked| && blocked[i] == w;
        var l := ListOf(files, w.ino);
        assert HeldUp(w, l);
        var j :| 0 <= j < |l| && l[j].id == w.blocker && Conflict(w.req, l[j]);
        assert GoodList(l, nextId);
      }
    }

    // posix_lock_file, from a call or a retry up to its return or its sleep.
    method PosixLockFile(ino: int, r: Request, wait: bool) returns (reply: Reply)
      requires Inv(Value()) && ValidRequest(r) && !Asleep(blocked, r.owner)
      modifies this
      ensures (Value(), reply) == SetLock(old(Value()), ino, r, wait)
      ensures Inv(Value()) && Answered(old(Value()), ino, r, wait, Value(), reply)
    {
      SetLockAnswers(Value(), ino, r, wait);
      ApplyKeepsInv(Value(), Fcntl(ino, r, wait));
      var list := ListOf(files, ino);
      var k := FindConflict(list, r);
      if k < |list| {
        if !wait {
          return Again;
        }
        var circular := DeadlockSearch(r.owner, list[k].owner);
        if circular {
          return Deadlock;
        }
        blocked := [Waiter(r, ino, list[k].id)] + blocked;
        return Blocked;
      }
      BlockersExist();
      EditFile(ino, r);
      return Granted;
    }

    // locks_delete_block, by the sleeper after its sleep.
    method DeleteBlock(o: Owner)
      requires Inv(Value())
      modifies this`blocked
      ensures Value() == Resume(old(Value()), o) && Inv(Value()) && Resumed(old(Value()), o, Value())
    {
      ResumeLeaves(Value(), o);
      ApplyKeepsInv(Value(), WakeUp(o));
      var i := 0;
      while i < |blocked| && blocked[i].req.owner != o
        invariant i <= |blocked| && FindWaiter(blocked, o, i) == FindWaiter(blocked, o, 0)
      {
        i := i + 1;
      }
      if i < |blocked| {
        blocked := blocked[..i] + blocked[i + 1..];
      }
    }

    lemma DroppedStep(l: seq<Lock>, table: int)
      requires l != []
      ensures Dropped(l, table) == (if l[0].owner.files == table then {l[0].id} else {}) + Dropped(l[1..], table)
    {
      assert l == [l[0]] + l[1..];
    }

    // How far the loop of locks_remove_posix is: `woken` are the locks dropped so far.
    ghost predicate Removing(list: seq<Lock>, table: int, list': seq<Lock>, before: nat, woken: set<nat>) {
      && before <= |list'|
      && list'[..before] + Without(list'[before..], table) == Without(list, table)
      && woken + Dropped(list'[before..], table) == Dropped(list, table)
    }

    lemma RemovesOne(list: seq<Lock>, table: int, list': seq<Lock>, before: nat, woken: set<nat>)
      requires Removing(list, table, list', before, woken) && before < |list'| && list'[before].owner.files == table
      ensures Removing(list, table, list'[..before] + list'[before + 1..], before, woken + {list'[before].id})
    {
      var l, next := list'[before..], list'[..before] + list'[before + 1..];
      DroppedStep(l, table);
      assert next[before..] == l[1..] && next[..before] == list'[..before];
    }

    lemma KeepsOne(list: seq<Lock>, table: int, list': seq<Lock>, before: nat, woken: set<nat>)
      requires Removing(list, table, list', before, woken) && before < |list'| && list'[before].owner.files != table
      ensures Removing(list, table, list', before + 1, woken)
    {
      var l := list'[before..];
      DroppedStep(l, table);
      assert list'[before + 1..] == l[1..] && list'[..before + 1] == list'[..before] + [l[0]];
    }

    lemma RemovedAll(list: seq<Lock>, table: int, list': seq<Lock>, woken: set<nat>)
      requires Removing(list, table, list', |list'|, woken)
      ensures list' == Without(list, table) && woken == Dropped(list, table)
    {
      assert list'[..|list'|] == list' && list'[|list'|..] == [] && Dropped([], table) == {};
    }

    // The loop of locks_remove_posix.
    method RemoveAll(ino: int, list: seq<Lock>, table: int) returns (list': seq<Lock>)
      modifies this`blocked
      ensures list' == Without(list, table)
      ensures blocked == StillBlocked(old(blocked), ino, Dropped(list, table))
    {
      list' := list;
      ghost var woken := {};
      var before := 0;
      WakeNone(blocked, ino, {});
      assert list'[..0] == [] && list'[0..] == list;
      while before < |list'|
        invariant Removing(list, table, list', before, woken)
        invariant blocked == StillBlocked(old(blocked), ino, woken)
        decreases |list'| - before
      {
        if list'[before].owner.files == table {
          var id := list'[before].id;
          RemovesOne(list, table, list', before, woken);
          list' := list'[..before] + list'[before + 1..];
          WakeUpBlocks(ino, id);
          WakeTwice(old(blocked), ino, woken, {id});
          woken := woken + {id};
        } else {
          KeepsOne(list, table, list', before, woken);
          before := before + 1;
        }
      }
      RemovedAll(list, table, list', woken);
    }

    // locks_remove_posix: drop all locks of a file table on one inode.
    method RemovePosix(ino: int, table: int)
      requires Inv(Value())
      modifies this
      ensures Value() == Close(old(Value()), ino, table) && Inv(Value())
      ensures Closed(old(Value()), ino, table, Value())
    {
      CloseDrops(Value(), ino, table);
      ApplyKeepsInv(Value(), CloseFile(ino, table));
      var list := RemoveAll(ino, ListOf(files, ino), table);
      files := files[ino := list];
    }

    // posix_test_lock (F_GETLK): the first lock that would stop the request.
    method TestLock(ino: int, r: Request) returns (k: nat)
      requires Inv(Value()) && r.kind != Unlock
      ensures k == FirstConflict(ListOf(files, ino), r, 0)
      ensures k == |ListOf(files, ino)| <==> SetLock(Value(), ino, r, false).1 == Granted
    {
      var list := ListOf(files, ino);
      EmptyListGood(nextId);
      assert GoodList(list, nextId);
      k := 0;
      while k < |list| && !ConflictOf(list[k], r)
        invariant k <= |list|
        invariant FirstConflict(list, r, k) == FirstConflict(list, r, 0)
      {
        k := k + 1;
      }
    }
  }

  // posix_locks_conflict(cfl, fl) as posix_test_lock calls it: the lock on the
  // list takes the part of the caller.
  predicate ConflictOf(l: Lock, r: Request) {
    && r.owner != l.owner
    && (l.end >= r.start && r.end >= l.start)
    && (l.kind == Write || (l.kind == Read && r.kind == Write))
  }
}

/**
  The lock table as a state machine: requests that are granted, refused or put
  to sleep, wake-ups, and the close that drops an owner's locks.  Every step is
  one section that runs under the kernel lock; a sleep ends one step and the
  retry after it is another.
 */
module LockProtocol {
  import opened PosixLocks
  import opened PosixLockSafety
  import opened PosixLockMap
  import opened FunctionalGraph

  // A blocked request; `blocker` is the lock its fl_next points to.
  datatype Waiter = Waiter(req: Request, ino: int, blocker: nat)

  // i_flock of every inode, blocked_list, and the next unused lock identity.
  datatype State = State(files: map<int, seq<Lock>>, blocked: seq<Waiter>, nextId: nat)

  datatype Reply = Granted | Again | Deadlock | Blocked

  const Initial := State(map[], [], 0)

  function ListOf(files: map<int, seq<Lock>>, ino: int): seq<Lock> {
    if ino in files then files[ino] else []
  }

  // ----- searches -----

  // The first lock that conflicts with the request; |s| when there is none.
  function FirstConflict(s: seq<Lock>, r: Request, i: nat): (k: nat)
    requires i <= |s|
    ensures i <= k <= |s|
    ensures forall j :: i <= j < k ==> !Conflict(r, s[j])
    ensures k < |s| ==> Conflict(r, s[k])
    decreases |s| - i
  {
    if i == |s| || Conflict(r, s[i]) then i else FirstConflict(s, r, i + 1)
  }

  // The position of the lock with identity `id`; |s| when there is none.
  function Locate(s: seq<Lock>, id: nat, i: nat): (k: nat)
    requires i <= |s|
    ensures i <= k <= |s|
    ensures forall j :: i <= j < k ==> s[j].id != id
    ensures k < |s| ==> s[k].id == id
    decreases |s| - i
  {
    if i == |s| || s[i].id == id then i else Locate(s, id, i + 1)
  }

  // The position of the blocked request of owner `o`; |ws| when it is not asleep.
  function FindWaiter(ws: seq<Waiter>, o: Owner, i: nat): (k: nat)
    requires i <= |ws|
    ensures i <= k <= |ws|
    ensures forall j :: i <= j < k ==> ws[j].req.owner != o
    ensures k < |ws| ==> ws[k].req.owner == o
    decreases |ws| - i
  {
    if i == |ws| || ws[i].req.owner == o then i else FindWaiter(ws, o, i + 1)
  }

  predicate Asleep(ws: seq<Waiter>, o: Owner) {
    FindWaiter(ws, o, 0) < |ws|
  }

  // ----- who waits for whom -----

  function BlockerOwner(files: map<int, seq<Lock>>, w: Waiter): Owner {
    var l := ListOf(files, w.ino);
    var k := Locate(l, w.blocker, 0);
    if k < |l| then l[k].owner else w.req.owner
  }

  function Sleepers(ws: seq<Waiter>): set<Owner> {
    set w | w in ws :: w.req.owner
  }

  function WaitsFor(s: State): Edges<Owner> {
    map o | o in Sleepers(s.blocked) ::
      var k := FindWaiter(s.blocked, o, 0);
      if k < |s.blocked| then BlockerOwner(s.files, s.blocked[k]) else o
  }

  // ----- the steps -----

  // The waiters left after the block lists of the locks in `woken` were emptied.
  function StillBlocked(ws: seq<Waiter>, ino: int, woken: set<nat>): seq<Waiter> {
    if ws == [] then []
    else if ws[0].ino == ino && ws[0].blocker in woken then StillBlocked(ws[1..], ino, woken)
    else [ws[0]] + StillBlocked(ws[1..], ino, woken)
  }

  function Grant(s: State, ino: int, r: Request): State {
    var e := Edit(ListOf(s.files, ino), r, s.nextId, s.nextId + 1);
    State(s.files[ino := e.locks], StillBlocked(s.blocked, ino, e.woken), s.nextId + 2)
  }

  // posix_lock_file up to its return or its sleep.
  ghost function SetLock(s: State, ino: int, r: Request, wait: bool): (State, Reply) {
    var l := ListOf(s.files, ino);
    var k := FirstConflict(l, r, 0);
    if k == |l| then (Grant(s, ino, r), Granted)
    else if !wait then (s, Again)
    else if Reaches(WaitsFor(s), l[k].owner, r.owner) then (s, Deadlock)
    else (s.(blocked := [Waiter(r, ino, l[k].id)] + s.blocked), Blocked)
  }

  // locks_delete_block, by the sleeper itself after a signal or a wake-up.
  function Resume(s: State, o: Owner): State {
    var k := FindWaiter(s.blocked, o, 0);
    if k == |s.blocked| then s else s.(blocked := s.blocked[..k] + s.blocked[k + 1..])
  }

  // The locks that locks_remove_posix leaves on the list.
  function Without(l: seq<Lock>, files: int): seq<Lock> {
    if l == [] then []
    else if l[0].owner.files == files then Without(l[1..], files)
    else [l[0]] + Without(l[1..], files)
  }

  function Dropped(l: seq<Lock>, files: int): set<nat> {
    set x | x in l && x.owner.files == files :: x.id
  }

  function Close(s: State, ino: int, files: int): State {
    var l := ListOf(s.files, ino);
    s.(files := s.files[ino := Without(l, files)], blocked := StillBlocked(s.blocked, ino, Dropped(l, files)))
  }

  datatype Action =
    | Fcntl(ino: int, req: Request, wait: bool)
    | WakeUp(owner: Owner)
    | CloseFile(ino: int, fileTable: int)

  // A task that sleeps in posix_lock_file issues no request of its own; an
  // ill-formed range never gets past flock_to_posix_lock.
  ghost function Apply(s: State, a: Action): State {
    match a
    case Fcntl(ino, r, wait) => if Asleep(s.blocked, r.owner) || !ValidRequest(r) then s else SetLock(s, ino, r, wait).0
    case WakeUp(o) => Resume(s, o)
    case CloseFile(ino, f) => Close(s, ino, f)
  }

  ghost function Execute(s: State, run: seq<Action>): State
    decreases |run|
  {
    if run == [] then s else Execute(Apply(s, run[0]), run[1..])
  }

  // ----- the invariants -----

  // No byte is write-locked by one owner and locked by another.
  ghost predicate Exclusive(l: seq<Lock>) {
    forall o, p, k, b :: o != p && k != Unlock && Holds(l, o, Write, b) ==> !Holds(l, p, k, b)
  }

  function IdsBelow(n: nat): (ids: set<nat>)
    ensures forall i: nat :: i in ids <==> i < n
  {
    if n == 0 then {} else IdsBelow(n - 1) + {n - 1}
  }

  ghost predicate GoodList(l: seq<Lock>, n: nat) {
    DistinctIds(l) && IdsFrom(l, IdsBelow(n)) && Exclusive(l) && Real(l)
  }

  // The waiter really is held up by the lock it hangs on.
  ghost predicate HeldUp(w: Waiter, l: seq<Lock>) {
    ValidRequest(w.req) && exists i :: 0 <= i < |l| && l[i].id == w.blocker && Conflict(w.req, l[i])
  }

  ghost predicate AllHeldUp(s: State) {
    forall i :: 0 <= i < |s.blocked| ==> HeldUp(s.blocked[i], ListOf(s.files, s.blocked[i].ino))
  }

  ghost predicate OneEach(ws: seq<Waiter>) {
    forall i, j :: 0 <= i < j < |ws| ==> ws[i].req.owner != ws[j].req.owner
  }

  ghost predicate Inv(s: State) {
    && (forall ino :: ino in s.files ==> GoodList(s.files[ino], s.nextId))
    && AllHeldUp(s)
    && OneEach(s.blocked)
    && Acyclic(WaitsFor(s))
  }

  // ----- facts about the waiters -----

  lemma {:induction false} StillBlockedFacts(ws: seq<Waiter>, ino: int, woken: set<nat>)
    ensures forall w :: w in StillBlocked(ws, ino, woken) <==> w in ws && !(w.ino == ino && w.blocker in woken)
    ensures OneEach(ws) ==> OneEach(StillBlocked(ws, ino, woken))
  {
    if ws != [] {
      StillBlockedFacts(ws[1..], ino, woken);
      assert ws == [ws[0]] + ws[1..];
      var t := StillBlocked(ws[1..], ino, woken);
      if OneEach(ws) {
        forall j | 0 <= j < |t| ensures t[j].req.owner != ws[0].req.owner {
          assert t[j] in ws[1..];
        }
      }
    }
  }

  lemma UniqueWaiter(ws: seq<Waiter>, w: Waiter)
    requires OneEach(ws) && w in ws
    ensures FindWaiter(ws, w.req.owner, 0) < |ws| && ws[FindWaiter(ws, w.req.owner, 0)] == w
  {
    var i :| 0 <= i < |ws| && ws[i] == w;
  }

  lemma UniqueLock(l: seq<Lock>, i: nat)
    requires DistinctIds(l) && i < |l|
    ensures Locate(l, l[i].id, 0) == i
  {
  }

  // The edge of a sleeping owner.
  lemma EdgeOf(s: State, w: Waiter)
    requires OneEach(s.blocked) && w in s.blocked
    ensures w.req.owner in WaitsFor(s) && WaitsFor(s)[w.req.owner] == BlockerOwner(s.files, w)
  {
    UniqueWaiter(s.blocked, w);
  }

  // Fewer waiters, each on a lock of the same owner as before: the graph shrinks.
  lemma GraphShrinks(s: State, s': State)
    requires OneEach(s.blocked) && OneEach(s'.blocked) && Acyclic(WaitsFor(s))
    requires forall w :: w in s'.blocked ==> w in s.blocked && BlockerOwner(s'.files, w) == BlockerOwner(s.files, w)
    ensures Acyclic(WaitsFor(s'))
  {
    var e, e' := WaitsFor(s), WaitsFor(s');
    forall o | o in e' ensures o in e && e'[o] == e[o] {
      var w :| w in s'.blocked && w.req.owner == o;
      EdgeOf(s', w);
      EdgeOf(s, w);
    }
    FewerEdges(e, e');
  }

  // A surviving lock keeps its waiters held up and its place in the graph.
  lemma StillHeldUp(w: Waiter, l: seq<Lock>, l': seq<Lock>, woken: set<nat>)
    requires HeldUp(w, l) && DistinctIds(l) && DistinctIds(l') && Keeps(l, l', woken) && w.blocker !in woken
    ensures HeldUp(w, l')
    ensures Locate(l, w.blocker, 0) < |l| && Locate(l', w.blocker, 0) < |l'|
    ensures l'[Locate(l', w.blocker, 0)].owner == l[Locate(l, w.blocker, 0)].owner
  {
    var i :| 0 <= i < |l| && l[i].id == w.blocker && Conflict(w.req, l[i]);
    UniqueLock(l, i);
    var j :| 0 <= j < |l'| && Grown(l[i], l'[j]);
    UniqueLock(l', j);
    assert Conflict(w.req, l'[j]);
  }

  // One inode's list changes, the waiters of the changed locks are woken.
  lemma ListStep(s: State, s': State, ino: int, l': seq<Lock>, woken: set<nat>)
    requires Inv(s) && s'.files == s.files[ino := l'] && s.nextId <= s'.nextId
    requires s'.blocked == StillBlocked(s.blocked, ino, woken)
    requires GoodList(l', s'.nextId) && Keeps(ListOf(s.files, ino), l', woken) && DistinctIds(ListOf(s.files, ino))
    ensures Inv(s')
  {
    StillBlockedFacts(s.blocked, ino, woken);
    forall w | w in s'.blocked
      ensures HeldUp(w, ListOf(s'.files, w.ino)) && BlockerOwner(s'.files, w) == BlockerOwner(s.files, w)
    {
      var i :| 0 <= i < |s.blocked| && s.blocked[i] == w;
      assert HeldUp(w, ListOf(s.files, w.ino));
      if w.ino == ino {
        StillHeldUp(w, ListOf(s.files, ino), l', woken);
      }
    }
    assert AllHeldUp(s') by {
      forall i | 0 <= i < |s'.blocked| ensures HeldUp(s'.blocked[i], ListOf(s'.files, s'.blocked[i].ino)) {
        assert s'.blocked[i] in s'.blocked;
      }
    }
    GraphShrinks(s, s');
    forall x | x in s'.files ensures GoodList(s'.files[x], s'.nextId) {
      if x != ino {
        assert GoodList(s.files[x], s.nextId);
        assert IdsFrom(s.files[x], IdsBelow(s'.nextId));
      }
    }
  }

  // ----- each step keeps the invariant -----

  // A granted request shares a byte with another owner only for reading.
  lemma GrantedMeetsReaders(l: seq<Lock>, r: Request, p: Owner, k: Kind, b: int)
    requires FirstConflict(l, r, 0) == |l| && r.kind != Unlock && InRange(r, b)
    requires p != r.owner && k != Unlock && Holds(l, p, k, b)
    ensures r.kind == Read && k == Read
  {
    var i :| 0 <= i < |l| && l[i].owner == p && Has(l[i], k, b);
    assert !Conflict(r, l[i]);
  }

  lemma GrantExclusive(l: seq<Lock>, r: Request, id1: nat, id2: nat)
    requires Exclusive(l) && ValidRequest(r) && FirstConflict(l, r, 0) == |l|
    ensures Exclusive(Edit(l, r, id1, id2).locks)
  {
    var l' := Edit(l, r, id1, id2).locks;
    forall o, p, k, b | o != p && k != Unlock && Holds(l', o, Write, b) ensures !Holds(l', p, k, b) {
      EditGrantsOnlyTheRequest(l, r, id1, id2, o, Write, b);
      if Holds(l', p, k, b) {
        EditGrantsOnlyTheRequest(l, r, id1, id2, p, k, b);
        if Holds(l, o, Write, b) {
          GrantedMeetsReaders(l, r, o, Write, b);
        } else {
          GrantedMeetsReaders(l, r, p, k, b);
        }
      }
    }
  }

  lemma EmptyListGood(n: nat)
    ensures GoodList([], n)
  {
  }

  lemma IdsBelowNext(n: nat)
    ensures IdsBelow(n + 2) == IdsBelow(n) + {n, n + 1}
  {
  }

  lemma EditIds(l: seq<Lock>, r: Request, n: nat)
    requires DistinctIds(l) && IdsFrom(l, IdsBelow(n))
    ensures var e := Edit(l, r, n, n + 1);
            DistinctIds(e.locks) && IdsFrom(e.locks, IdsBelow(n + 2)) && Keeps(l, e.locks, e.woken)
  {
    IdsBelowNext(n);
    EditWakesWhatItShrinks(l, r, n, n + 1, IdsBelow(n));
  }

  lemma EditGood(l: seq<Lock>, r: Request, n: nat)
    requires GoodList(l, n) && ValidRequest(r) && FirstConflict(l, r, 0) == |l|
    ensures var e := Edit(l, r, n, n + 1); GoodList(e.locks, n + 2) && Keeps(l, e.locks, e.woken)
  {
    GrantExclusive(l, r, n, n + 1);
    EditIds(l, r, n);
    EditReal(l, r, n, n + 1);
  }

  lemma GrantKeepsInv(s: State, ino: int, r: Request)
    requires Inv(s) && ValidRequest(r)
    requires FirstConflict(ListOf(s.files, ino), r, 0) == |ListOf(s.files, ino)|
    ensures Inv(Grant(s, ino, r))
  {
    var l := ListOf(s.files, ino);
    EmptyListGood(s.nextId);
    EditGood(l, r, s.nextId);
    var e := Edit(l, r, s.nextId, s.nextId + 1);
    ListStep(s, Grant(s, ino, r), ino, e.locks, e.woken);
  }

  lemma AwakeHasNoEdge(s: State, o: Owner)
    requires !Asleep(s.blocked, o)
    ensures o !in WaitsFor(s)
  {
  }

  lemma BlockOneEach(ws: seq<Waiter>, w: Waiter)
    requires OneEach(ws) && !Asleep(ws, w.req.owner)
    ensures OneEach([w] + ws) && Sleepers([w] + ws) == Sleepers(ws) + {w.req.owner}
  {
    assert forall v :: v in [w] + ws <==> v == w || v in ws;
  }

  lemma WaitersAreKeys(s: State)
    ensures WaitsFor(s).Keys == Sleepers(s.blocked)
  {
  }

  // The edges of those who slept before stay, and the newcomer's is added.
  lemma EdgeAfterBlock(s: State, s': State, w: Waiter, o: Owner)
    requires s'.files == s.files && s'.blocked == [w] + s.blocked && OneEach(s.blocked) && OneEach(s'.blocked)
    requires o == w.req.owner || o in WaitsFor(s)
    ensures o in WaitsFor(s')
    ensures o == w.req.owner ==> WaitsFor(s')[o] == BlockerOwner(s.files, w)
    ensures o != w.req.owner ==> WaitsFor(s')[o] == WaitsFor(s)[o]
  {
    assert s'.blocked[0] == w && w in s'.blocked;
    if o == w.req.owner {
      EdgeOf(s', w);
    } else {
      var v :| v in s.blocked && v.req.owner == o;
      EdgeOf(s, v);
      assert v in s'.blocked;
      EdgeOf(s', v);
    }
  }

  lemma BlockAddsEdge(s: State, w: Waiter)
    requires OneEach(s.blocked) && !Asleep(s.blocked, w.req.owner)
    ensures var s' := s.(blocked := [w] + s.blocked);
            OneEach(s'.blocked) && WaitsFor(s') == WaitsFor(s)[w.req.owner := BlockerOwner(s.files, w)]
  {
    var s' := s.(blocked := [w] + s.blocked);
    BlockOneEach(s.blocked, w);
    WaitersAreKeys(s);
    WaitersAreKeys(s');
    SameEdges(WaitsFor(s), WaitsFor(s'), w.req.owner, BlockerOwner(s.files, w)) by {
      forall o | o == w.req.owner || o in WaitsFor(s)
        ensures o in WaitsFor(s') && WaitsFor(s')[o] == if o == w.req.owner then BlockerOwner(s.files, w) else WaitsFor(s)[o]
      {
        EdgeAfterBlock(s, s', w, o);
      }
    }
  }

  lemma SameEdges(e: Edges<Owner>, e': Edges<Owner>, o: Owner, b: Owner)
    requires e'.Keys == e.Keys + {o}
    requires forall x :: x == o || x in e ==> x in e' && e'[x] == if x == o then b else e[x]
    ensures e' == e[o := b]
  {
  }

  lemma BlockKeepsInv(s: State, ino: int, r: Request)
    requires Inv(s) && ValidRequest(r) && !Asleep(s.blocked, r.owner)
    requires SetLock(s, ino, r, true).1 == Blocked
    ensures Inv(SetLock(s, ino, r, true).0)
  {
    var l := ListOf(s.files, ino);
    var k := FirstConflict(l, r, 0);
    var w := Waiter(r, ino, l[k].id);
    var s' := SetLock(s, ino, r, true).0;
    assert HeldUp(w, l);
    assert AllHeldUp(s') by {
      forall i | 0 <= i < |s'.blocked| ensures HeldUp(s'.blocked[i], ListOf(s'.files, s'.blocked[i].ino)) {
        if i > 0 { assert s'.blocked[i] == s.blocked[i - 1]; }
      }
    }
    UniqueLock(l, k);
    BlockAddsEdge(s, w);
    AwakeHasNoEdge(s, r.owner);
    NewEdgeClosesCycle(WaitsFor(s), r.owner, l[k].owner);
  }

  lemma ResumeKeepsInv(s: State, o: Owner)
    requires Inv(s)
    ensures Inv(Resume(s, o))
  {
    var k := FindWaiter(s.blocked, o, 0);
    if k < |s.blocked| {
      var s' := Resume(s, o);
      forall i | 0 <= i < |s'.blocked| ensures s'.blocked[i] == s.blocked[if i < k then i else i + 1] {}
      GraphShrinks(s, s');
    }
  }

  lemma {:induction false} WithoutFacts(l: seq<Lock>, files: int)
    ensures forall x :: x in Without(l, files) <==> x in l && x.owner.files != files
    ensures DistinctIds(l) ==> DistinctIds(Without(l, files))
  {
    if l != [] {
      WithoutFacts(l[1..], files);
      assert l == [l[0]] + l[1..];
      var t := Without(l[1..], files);
      if DistinctIds(l) {
        forall j | 0 <= j < |t| ensures t[j].id != l[0].id {
          assert t[j] in l[1..];
        }
      }
    }
  }

  lemma WithoutReal(l: seq<Lock>, files: int)
    requires Real(l)
    ensures Real(Without(l, files))
  {
    WithoutFacts(l, files);
    var l' := Without(l, files);
    forall i | 0 <= i < |l'| ensures l'[i].kind != Unlock {
      assert l'[i] in l;
    }
  }

  lemma CloseKeepsInv(s: State, ino: int, files: int)
    requires Inv(s)
    ensures Inv(Close(s, ino, files))
  {
    var l := ListOf(s.files, ino);
    var l' := Without(l, files);
    var woken := Dropped(l, files);
    assert GoodList(l, s.nextId) by { EmptyListGood(s.nextId); }
    WithoutFacts(l, files);
    WithoutReal(l, files);
    assert IdsFrom(l', IdsBelow(s.nextId)) by {
      forall i | 0 <= i < |l'| ensures l'[i].id in IdsBelow(s.nextId) {
        assert l'[i] in l;
      }
    }
    assert Exclusive(l') by {
      forall o, k, b | Holds(l', o, k, b) ensures Holds(l, o, k, b) {
        var i :| 0 <= i < |l'| && l'[i].owner == o && Has(l'[i], k, b);
        assert l'[i] in l;
      }
    }
    assert Keeps(l, l', woken) by {
      forall i | 0 <= i < |l| ensures l[i].id in woken || HasGrown(l[i], l') {
        if l[i].owner.files != files {
          assert l[i] in l';
          var j :| 0 <= j < |l'| && l'[j] == l[i];
          assert Grown(l[i], l'[j]);
        } else {
          assert l[i] in l && l[i].owner.files == files;
        }
      }
    }
    ListStep(s, Close(s, ino, files), ino, l', woken);
  }

  lemma ApplyKeepsInv(s: State, a: Action)
    requires Inv(s)
    ensures Inv(Apply(s, a))
  {
    match a
    case Fcntl(ino, r, wait) =>
      if !Asleep(s.blocked, r.owner) && ValidRequest(r) {
        if FirstConflict(ListOf(s.files, ino), r, 0) == |ListOf(s.files, ino)| {
          GrantKeepsInv(s, ino, r);
        } else if SetLock(s, ino, r, wait).1 == Blocked {
          BlockKeepsInv(s, ino, r);
        }
      }
    case WakeUp(o) => ResumeKeepsInv(s, o);
    case CloseFile(ino, f) => CloseKeepsInv(s, ino, f);
  }

  lemma InitialInv()
    ensures Inv(Initial)
  {
    assert Ranks(map[], WaitsFor(Initial));
  }

  lemma {:induction false} ExecuteKeepsInv(s: State, run: seq<Action>)
    requires Inv(s)
    ensures Inv(Execute(s, run))
    decreases |run|
  {
    if run != [] {
      ApplyKeepsInv(s, run[0]);
      ExecuteKeepsInv(Apply(s, run[0]), run[1..]);
    }
  }

  // ----- what holds in every reachable state -----

  /** Mutual exclusion, in every reachable state and even after the wrap struck. */
  lemma ReachableExclusive(run: seq<Action>, ino: int, o: Owner, p: Owner, k: Kind, b: int)
    requires o != p && k != Unlock
    ensures var l := ListOf(Execute(Initial, run).files, ino);
            !(Holds(l, o, Write, b) && Holds(l, p, k, b))
  {
    InitialInv();
    ExecuteKeepsInv(Initial, run);
    var s := Execute(Initial, run);
    if ino in s.files {
      assert GoodList(s.files[ino], s.nextId);
    }
  }

  /** Nobody sleeps without a conflicting lock, nobody sleeps twice, nobody waits
      in a circle. */
  lemma ReachableWaiters(run: seq<Action>)
    ensures var s := Execute(Initial, run);
            AllHeldUp(s) && OneEach(s.blocked) && !HasCycle(WaitsFor(s))
  {
    InitialInv();
    ExecuteKeepsInv(Initial, run);
    AcyclicHasNoCycle(WaitsFor(Execute(Initial, run)));
  }

  /** The deadlock search refuses a sleep exactly when it would close a cycle. */
  lemma DeadlockExact(run: seq<Action>, ino: int, r: Request)
    requires var s := Execute(Initial, run); !Asleep(s.blocked, r.owner)
    requires var l := ListOf(Execute(Initial, run).files, ino); FirstConflict(l, r, 0) < |l|
    ensures var s := Execute(Initial, run);
            var l := ListOf(s.files, ino);
            SetLock(s, ino, r, true).1 == Deadlock
            <==> HasCycle(WaitsFor(s)[r.owner := l[FirstConflict(l, r, 0)].owner])
  {
    InitialInv();
    ExecuteKeepsInv(Initial, run);
    var s := Execute(Initial, run);
    var l := ListOf(s.files, ino);
    assert r.owner !in WaitsFor(s);
    NewEdgeClosesCycle(WaitsFor(s), r.owner, l[FirstConflict(l, r, 0)].owner);
  }

  // ----- canonical lists along a run -----

  ghost predicate AllCanonical(s: State) {
    forall ino :: ino in s.files ==> Canonical(s.files[ino])
  }

  ghost predicate Harmless(s: State, a: Action) {
    a.Fcntl? && ValidRequest(a.req) ==> !Wraps(ListOf(s.files, a.ino), a.req)
  }

  // No request along the run meets the wrap of `fl_end + 1`.
  ghost predicate AllHarmless(s: State, run: seq<Action>)
    decreases |run|
  {
    run == [] || (Harmless(s, run[0]) && AllHarmless(Apply(s, run[0]), run[1..]))
  }

  lemma DeleteCanonical(p: seq<Lock>, x: Lock, q: seq<Lock>)
    requires Canonical(p + [x] + q)
    ensures Canonical(p + q)
  {
    var s, t := p + [x] + q, p + q;
    assert forall j :: 0 <= j < |t| ==> t[j] == s[if j < |p| then j else j + 1];
  }

  lemma {:induction false} WithoutCanonical(p: seq<Lock>, l: seq<Lock>, files: int)
    requires Canonical(p + l)
    ensures Canonical(p + Without(l, files))
    decreases |l|
  {
    if l != [] {
      var x, q := l[0], l[1..];
      assert p + l == p + [x] + q;
      if x.owner.files == files {
        DeleteCanonical(p, x, q);
        WithoutCanonical(p, q, files);
      } else {
        WithoutCanonical(p + [x], q, files);
        assert p + [x] + Without(q, files) == p + Without(l, files);
      }
    }
  }

  lemma GrantKeepsCanonical(s: State, ino: int, r: Request)
    requires AllCanonical(s) && ValidRequest(r) && !Wraps(ListOf(s.files, ino), r)
    ensures AllCanonical(Grant(s, ino, r))
  {
    EditCanonicalUnlessWraps(ListOf(s.files, ino), r, s.nextId, s.nextId + 1);
  }

  lemma CloseKeepsCanonical(s: State, ino: int, files: int)
    requires AllCanonical(s)
    ensures AllCanonical(Close(s, ino, files))
  {
    var l := ListOf(s.files, ino);
    assert [] + l == l && [] + Without(l, files) == Without(l, files);
    WithoutCanonical([], l, files);
  }

  lemma ApplyKeepsCanonical(s: State, a: Action)
    requires AllCanonical(s) && Harmless(s, a)
    ensures AllCanonical(Apply(s, a))
  {
    match a
    case Fcntl(ino, r, wait) =>
      if ValidRequest(r) {
        GrantKeepsCanonical(s, ino, r);
      }
    case WakeUp(o) =>
    case CloseFile(ino, f) => CloseKeepsCanonical(s, ino, f);
  }

  /** Lists stay grouped, sorted, disjoint and coalesced along every run in which
      no request meets the wrap. */
  lemma {:induction false} ReachableCanonical(s: State, run: seq<Action>)
    requires AllCanonical(s) && AllHarmless(s, run)
    ensures AllCanonical(Execute(s, run))
    decreases |run|
  {
    if run != [] {
      ApplyKeepsCanonical(s, run[0]);
      ReachableCanonical(Apply(s, run[0]), run[1..]);
    }
  }
}

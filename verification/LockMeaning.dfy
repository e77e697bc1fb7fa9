/**
  What a call on the lock table means, byte by byte: when a request is refused,
  what it changes when it is granted, what a close takes away.
 */
module LockMeaning {
  import opened PosixLocks
  import opened PosixLockSafety
  import opened PosixLockMap
  import opened LockProtocol

  // ----- who is in the way -----

  // Another owner's lock on a byte of the request that the request cannot share.
  ghost predicate Clash(l: seq<Lock>, r: Request, o: Owner, k: Kind, b: int) {
    && o != r.owner && InRange(r, b) && Holds(l, o, k, b)
    && ((r.kind == Write && k == Read) || (r.kind == Write && k == Write) || (r.kind == Read && k == Write))
  }

  ghost predicate Clear(l: seq<Lock>, r: Request) {
    forall o, k, b :: !Clash(l, r, o, k, b)
  }

  ghost predicate AllValid(l: seq<Lock>) {
    forall i :: 0 <= i < |l| ==> ValidLock(l[i])
  }

  lemma ConflictClashes(l: seq<Lock>, r: Request, i: nat)
    requires i < |l| && ValidLock(l[i]) && ValidRequest(r) && Conflict(r, l[i])
    ensures Clash(l, r, l[i].owner, l[i].kind, Max(l[i].start, r.start))
  {
    assert Has(l[i], l[i].kind, Max(l[i].start, r.start));
  }

  /** A request meets no conflicting lock exactly when no byte of it clashes: locks that
      only touch do not, nor do two readers, nor any lock of the same owner, and F_UNLCK
      never does. */
  lemma ConflictExact(l: seq<Lock>, r: Request)
    requires AllValid(l) && ValidRequest(r)
    ensures FirstConflict(l, r, 0) == |l| <==> Clear(l, r)
  {
    var k := FirstConflict(l, r, 0);
    if k < |l| {
      ConflictClashes(l, r, k);
    } else {
      NothingClashes(l, r);
    }
  }

  lemma NothingClashes(l: seq<Lock>, r: Request)
    requires FirstConflict(l, r, 0) == |l|
    ensures Clear(l, r)
  {
  }

  // ----- what a request does -----

  // Nothing but the request reaches anybody's bytes, whatever the list looked like.
  ghost predicate OnlyTheRequest(l: seq<Lock>, r: Request, l': seq<Lock>) {
    forall o, k, b :: Holds(l', o, k, b) ==> Holds(l, o, k, b) || (o == r.owner && k == r.kind && InRange(r, b))
  }

  // The list of inode `ino` after the request was granted.  The edit does what was
  // asked exactly when it does not run into the wrap.
  ghost predicate GrantedOn(l: seq<Lock>, r: Request, l': seq<Lock>) {
    && OnlyTheRequest(l, r, l')
    && (Canonical(l) ==> (Canonical(l') && Overwritten(l, r, l') <==> !Wraps(l, r)))
  }

  ghost predicate SameElsewhere(s: State, s': State, ino: int) {
    forall x :: x != ino ==> ListOf(s'.files, x) == ListOf(s.files, x)
  }

  // The waiter sleeps on a lock that clashes with its request.
  ghost predicate SleepsOn(l: seq<Lock>, w: Waiter) {
    exists i :: 0 <= i < |l| && l[i].id == w.blocker && Conflict(w.req, l[i])
  }

  ghost predicate Answered(s: State, ino: int, r: Request, wait: bool, s': State, reply: Reply) {
    var l, l' := ListOf(s.files, ino), ListOf(s'.files, ino);
    && SameElsewhere(s, s', ino)
    && (reply == Granted ==> Clear(l, r) && GrantedOn(l, r, l'))
    && (AllValid(l) && Clear(l, r) ==> reply == Granted)
    && (reply == Again || reply == Deadlock ==> s' == s)
    && (reply == Again ==> !wait)
    && (reply == Deadlock || reply == Blocked ==> wait)
    && (reply == Blocked ==>
          exists id :: s' == s.(blocked := [Waiter(r, ino, id)] + s.blocked) && SleepsOn(l, Waiter(r, ino, id)))
  }

  lemma EditMeans(l: seq<Lock>, r: Request, id1: nat, id2: nat)
    requires ValidRequest(r)
    ensures GrantedOn(l, r, Edit(l, r, id1, id2).locks)
  {
    var l' := Edit(l, r, id1, id2).locks;
    forall o, k, b | Holds(l', o, k, b) ensures Holds(l, o, k, b) || (o == r.owner && k == r.kind && InRange(r, b)) {
      EditGrantsOnlyTheRequest(l, r, id1, id2, o, k, b);
    }
    if Canonical(l) {
      EditCorrectIffNoWrap(l, r, id1, id2);
    }
  }

  lemma OneListChanges(s: State, ino: int, r: Request, wait: bool, s': State, l': seq<Lock>)
    requires s'.files == s.files[ino := l']
    requires Clear(ListOf(s.files, ino), r) && GrantedOn(ListOf(s.files, ino), r, l')
    ensures Answered(s, ino, r, wait, s', Granted)
  {
  }

  lemma GrantAnswers(s: State, ino: int, r: Request, wait: bool, s': State, e: Edited)
    requires ValidRequest(r) && Clear(ListOf(s.files, ino), r)
    requires e == Edit(ListOf(s.files, ino), r, s.nextId, s.nextId + 1) && s'.files == s.files[ino := e.locks]
    ensures Answered(s, ino, r, wait, s', Granted)
  {
    EditMeans(ListOf(s.files, ino), r, s.nextId, s.nextId + 1);
    OneListChanges(s, ino, r, wait, s', e.locks);
  }

  lemma GrantMeans(s: State, ino: int, r: Request, s': State, e: Edited)
    requires ValidRequest(r)
    requires e == Edit(ListOf(s.files, ino), r, s.nextId, s.nextId + 1) && s'.files == s.files[ino := e.locks]
    ensures SameElsewhere(s, s', ino) && GrantedOn(ListOf(s.files, ino), r, ListOf(s'.files, ino))
  {
    EditMeans(ListOf(s.files, ino), r, s.nextId, s.nextId + 1);
  }

  lemma RefusalAnswers(s: State, ino: int, r: Request, wait: bool, s': State, reply: Reply)
    requires ValidRequest(r) && FirstConflict(ListOf(s.files, ino), r, 0) < |ListOf(s.files, ino)|
    requires (s', reply) == SetLock(s, ino, r, wait)
    ensures Answered(s, ino, r, wait, s', reply)
  {
    var l := ListOf(s.files, ino);
    var k := FirstConflict(l, r, 0);
    if AllValid(l) {
      ConflictClashes(l, r, k);
    }
    assert s'.files == s.files;
    assert SleepsOn(l, Waiter(r, ino, l[k].id));
  }

  /** What posix_lock_file answers, and what it does: granted exactly when no byte clashes,
      and then the caller's bytes in the range are overwritten or erased and nothing else
      changes; refused or put to sleep, no lock changes. */
  lemma SetLockAnswers(s: State, ino: int, r: Request, wait: bool)
    requires ValidRequest(r)
    ensures Answered(s, ino, r, wait, SetLock(s, ino, r, wait).0, SetLock(s, ino, r, wait).1)
  {
    var (s', reply) := SetLock(s, ino, r, wait);
    if FirstConflict(ListOf(s.files, ino), r, 0) == |ListOf(s.files, ino)| {
      NothingClashes(ListOf(s.files, ino), r);
      GrantAnswers(s, ino, r, wait, s', Edit(ListOf(s.files, ino), r, s.nextId, s.nextId + 1));
    } else {
      RefusalAnswers(s, ino, r, wait, s', reply);
    }
  }

  // ----- closing -----

  ghost predicate Closed(s: State, ino: int, table: int, s': State) {
    var l, l' := ListOf(s.files, ino), ListOf(s'.files, ino);
    && SameElsewhere(s, s', ino)
    && (forall x :: x in l' <==> x in l && x.owner.files != table)
    && (forall o, k, b :: Holds(l', o, k, b) <==> o.files != table && Holds(l, o, k, b))
    && (forall w :: w in s'.blocked <==>
          w in s.blocked && !(w.ino == ino && exists x :: x in l && x.owner.files == table && x.id == w.blocker))
  }

  /** A close drops exactly the locks of the file table on this inode, and wakes exactly
      those who wait for one of them. */
  lemma CloseDrops(s: State, ino: int, table: int)
    ensures Closed(s, ino, table, Close(s, ino, table))
  {
    var l := ListOf(s.files, ino);
    var l' := Without(l, table);
    WithoutFacts(l, table);
    StillBlockedFacts(s.blocked, ino, Dropped(l, table));
    forall o, k, b ensures Holds(l', o, k, b) <==> o.files != table && Holds(l, o, k, b) {
      if Holds(l', o, k, b) {
        var i :| 0 <= i < |l'| && l'[i].owner == o && Has(l'[i], k, b);
        assert l'[i] in l;
        var j :| 0 <= j < |l| && l[j] == l'[i];
      }
      if o.files != table && Holds(l, o, k, b) {
        var i :| 0 <= i < |l| && l[i].owner == o && Has(l[i], k, b);
        assert l[i] in l';
        var j :| 0 <= j < |l'| && l'[j] == l[i];
      }
    }
  }

  // ----- waking -----

  // The owner sleeps no more; everybody else does, and no lock changes.
  ghost predicate Resumed(s: State, o: Owner, s': State) {
    && s'.files == s.files && s'.nextId == s.nextId
    && forall w :: w in s'.blocked <==> w in s.blocked && w.req.owner != o
  }

  /** A sleeper that runs again leaves the block list, and nobody else does. */
  lemma ResumeLeaves(s: State, o: Owner)
    requires OneEach(s.blocked)
    ensures Resumed(s, o, Resume(s, o))
  {
    var ws, s' := s.blocked, Resume(s, o);
    var k := FindWaiter(ws, o, 0);
    if k < |ws| {
      assert forall i :: 0 <= i < |s'.blocked| ==> s'.blocked[i] == ws[if i < k then i else i + 1];
      forall w | w in ws && w.req.owner != o ensures w in s'.blocked {
        var i :| 0 <= i < |ws| && ws[i] == w;
        assert s'.blocked[if i < k then i else i - 1] == w;
      }
    }
  }
}

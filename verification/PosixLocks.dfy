/**
  The byte-range lock list of one inode and the edit that posix_lock_file makes
  to it once a request may be granted: merge, replace, truncate, split, erase.

  Offsets are the 64-bit loff_t of the source.  The only place where its width
  shows is the comparison with `fl_end + 1`, which wraps at OFFSET_MAX.
 */
module PosixLocks {

  const OFFSET_MAX: int := 0x7fff_ffff_ffff_ffff

  datatype Kind = Read | Write | Unlock

  // fl_owner and fl_pid together: locks_same_owner compares both.
  datatype Owner = Owner(files: int, pid: int)

  // A struct file_lock on an inode's list; `id` is its identity.
  datatype Lock = Lock(id: nat, owner: Owner, kind: Kind, start: int, end: int)

  // The struct file_lock handed in by the caller.
  datatype Request = Request(owner: Owner, kind: Kind, start: int, end: int)

  // C's signed `x + 1` on a 64-bit loff_t.
  function WrapInc(x: int): int {
    if x == OFFSET_MAX then -OFFSET_MAX - 1 else x + 1
  }

  function Min(a: int, b: int): int { if a <= b then a else b }
  function Max(a: int, b: int): int { if a >= b then a else b }

  predicate ValidRequest(r: Request) {
    0 <= r.start <= r.end <= OFFSET_MAX
  }

  predicate ValidLock(l: Lock) {
    0 <= l.start <= l.end <= OFFSET_MAX && l.kind != Unlock
  }

  // ----- conflicts -----

  predicate Overlap(r: Request, l: Lock) {
    r.end >= l.start && l.end >= r.start
  }

  predicate Conflict(r: Request, l: Lock) {
    && l.owner != r.owner
    && Overlap(r, l)
    && (r.kind == Write || (r.kind == Read && l.kind == Write))
  }

  // ----- what a list means, byte by byte -----

  predicate Has(l: Lock, k: Kind, b: int) {
    l.kind == k && l.start <= b <= l.end
  }

  ghost predicate Holds(s: seq<Lock>, o: Owner, k: Kind, b: int) {
    exists i :: 0 <= i < |s| && s[i].owner == o && Has(s[i], k, b)
  }

  predicate InRange(r: Request, b: int) {
    r.start <= b <= r.end
  }

  // ----- canonical lists -----

  // `a` lies wholly below `b`, and does not touch it when the kinds agree.
  predicate Below(a: Lock, b: Lock) {
    a.end < b.start && (a.kind == b.kind ==> a.end + 1 < b.start)
  }

  ghost predicate Sorted(s: seq<Lock>) {
    && (forall i :: 0 <= i < |s| ==> ValidLock(s[i]))
    && (forall i, j :: 0 <= i < j < |s| ==> Below(s[i], s[j]))
  }

  ghost predicate OwnedBy(s: seq<Lock>, o: Owner) {
    forall i :: 0 <= i < |s| ==> s[i].owner == o
  }

  // Grouped by owner, and within an owner sorted, disjoint and coalesced.
  ghost predicate Canonical(s: seq<Lock>) {
    && (forall i :: 0 <= i < |s| ==> ValidLock(s[i]))
    && (forall i, j :: 0 <= i < j < |s| && s[i].owner == s[j].owner ==> Below(s[i], s[j]))
    && (forall i, m, j :: 0 <= i < m < j < |s| && s[i].owner == s[j].owner ==> s[m].owner == s[i].owner)
  }

  // ----- the sweep over the caller's own locks -----

  // `done` and `todo` are the run of own locks before and after the `before`
  // pointer.  `req` is *caller; `at` is the index in `done` of the list entry
  // caller points to once `caller = fl` was executed, -1 until then.  `left` is
  // the index of the lock to be cut at its end, -1 for none.  `woken` holds the
  // identities whose block list was emptied.
  datatype Sweep = Sweep(done: seq<Lock>, todo: seq<Lock>, req: Request, added: bool,
                         at: int, left: int, woken: set<nat>)

  datatype Move = Go(s: Sweep) | Halt(s: Sweep, right: bool)

  function Skip(s: Sweep): Sweep
    requires s.todo != []
  {
    s.(done := s.done + [s.todo[0]], todo := s.todo[1..])
  }

  // The new and the old lock have the same kind and touch: make one of both.
  function Merge(s: Sweep): Sweep
    requires s.todo != [] && s.at < |s.done|
  {
    var fl := s.todo[0];
    var lo := Min(fl.start, s.req.start);
    var hi := Max(fl.end, s.req.end);
    var req := s.req.(start := lo, end := hi);
    if s.added then
      var done := if s.at >= 0 then s.done[s.at := s.done[s.at].(start := lo, end := hi)] else s.done;
      s.(done := done, todo := s.todo[1..], req := req, woken := s.woken + {fl.id})
    else
      s.(done := s.done + [fl.(start := lo, end := hi)], todo := s.todo[1..],
         req := req, added := true, at := |s.done|)
  }

  // An overlapping lock of another kind that does not stick out above the request.
  function Overwrite(s: Sweep): Sweep
    requires s.todo != []
  {
    var fl := s.todo[0];
    var added := s.added || s.req.kind == Unlock;
    if fl.start < s.req.start then
      Skip(s.(added := added, left := |s.done|))
    else if added then
      s.(added := true, todo := s.todo[1..], woken := s.woken + {fl.id})
    else
      s.(done := s.done + [fl.(kind := s.req.kind, start := s.req.start, end := s.req.end)],
         todo := s.todo[1..], added := true, at := |s.done|, woken := s.woken + {fl.id})
  }

  // One iteration of the loop over the caller's own locks.
  function Step(s: Sweep): Move
    requires s.todo != [] && s.at < |s.done|
  {
    var fl := s.todo[0];
    if fl.kind == s.req.kind then
      if fl.end < s.req.start - 1 then Go(Skip(s))
      else if fl.start > WrapInc(s.req.end) then Halt(s, false)
      else Go(Merge(s))
    else if fl.end < s.req.start then Go(Skip(s))
    else if fl.start > s.req.end then Halt(s, false)
    else if fl.end > s.req.end then
      Halt(s.(added := s.added || s.req.kind == Unlock,
              left := if fl.start < s.req.start then |s.done| else s.left), true)
    else Go(Overwrite(s))
  }

  function Run(s: Sweep): (r: Move)
    requires s.at < |s.done|
    ensures Halted(r) && r.s.at < |r.s.done|
    decreases |s.todo|
  {
    if s.todo == [] then Halt(s, false)
    else
      match Step(s)
      case Go(s') => Run(s')
      case Halt(s', right) => Halt(s', right)
  }


  predicate Halted(m: Move) {
    m.Halt? && (m.right ==> m.s.todo != [])
  }

  // The locks below `before`, the one that sticks out below the request cut.
  function Low(m: Move): seq<Lock>
    requires Halted(m)
  {
    var s := m.s;
    if 0 <= s.left < |s.done| then s.done[s.left := s.done[s.left].(end := s.req.start - 1)] else s.done
  }

  // The lower piece of a lock that the request breaks in two.
  function Split(m: Move, id2: nat): seq<Lock>
    requires Halted(m)
  {
    if m.right && m.s.left == |m.s.done| then [m.s.todo[0].(id := id2, end := m.s.req.start - 1)] else []
  }

  // The new lock, unless an old one already stands for it.
  function Inserted(m: Move, id1: nat): seq<Lock>
    requires Halted(m)
  {
    var r := m.s.req;
    if m.s.added then [] else [Lock(id1, r.owner, r.kind, r.start, r.end)]
  }

  // The locks above `before`, the one that sticks out above the request cut.
  function High(m: Move): seq<Lock>
    requires Halted(m)
  {
    if m.right then [m.s.todo[0].(start := m.s.req.end + 1)] + m.s.todo[1..] else m.s.todo
  }

  function CutIds(m: Move): set<nat>
    requires Halted(m)
  {
    var s := m.s;
    (if m.right then {s.todo[0].id} else {}) + (if 0 <= s.left < |s.done| then {s.done[s.left].id} else {})
  }

  datatype Edited = Edited(locks: seq<Lock>, woken: set<nat>)

  function Finish(m: Move, id1: nat, id2: nat): Edited
    requires Halted(m)
  {
    if !m.s.added && m.s.req.kind == Unlock then
      Edited(m.s.done + m.s.todo, m.s.woken)
    else
      Edited(Low(m) + Split(m, id2) + Inserted(m, id1) + High(m), m.s.woken + CutIds(m))
  }

  function Start(run: seq<Lock>, req: Request): Sweep {
    Sweep([], run, req, false, -1, -1, {})
  }

  function EditRun(run: seq<Lock>, req: Request, id1: nat, id2: nat): Edited {
    Finish(Run(Start(run, req)), id1, id2)
  }

  // Index of the first lock owned by `o` at or after `i`; |s| when there is none.
  function FirstOwn(s: seq<Lock>, o: Owner, i: nat): (k: nat)
    requires i <= |s|
    ensures i <= k <= |s|
    ensures forall j :: i <= j < k ==> s[j].owner != o
    ensures k < |s| ==> s[k].owner == o
    decreases |s| - i
  {
    if i == |s| || s[i].owner == o then i else FirstOwn(s, o, i + 1)
  }

  // Index of the first lock not owned by `o` at or after `i`.
  function RunEnd(s: seq<Lock>, o: Owner, i: nat): (k: nat)
    requires i <= |s|
    ensures i <= k <= |s|
    ensures forall j :: i <= j < k ==> s[j].owner == o
    ensures k < |s| ==> s[k].owner != o
    decreases |s| - i
  {
    if i == |s| || s[i].owner != o then i else RunEnd(s, o, i + 1)
  }

  function Edit(s: seq<Lock>, req: Request, id1: nat, id2: nat): Edited {
    var k := FirstOwn(s, req.owner, 0);
    var m := RunEnd(s, req.owner, k);
    var e := EditRun(s[k..m], req, id1, id2);
    Edited(s[..k] + e.locks + s[m..], e.woken)
  }
}

/**
  One System V semaphore set: vectors of operations that succeed or fail as a
  whole, the queue of pending vectors, and the per-process undo adjustments.
 */
module Semaphores {

  const SEMVMX: int := 32767

  // One struct sembuf: semaphore number, operation, SEM_UNDO, IPC_NOWAIT.
  datatype Sop = Sop(num: nat, op: int, undo: bool, nowait: bool)

  // The result of try_atomic_semop: 0, 1, -EAGAIN, -ERANGE.
  datatype Verdict = Done | Block | Again | Range

  // ----- a vector of operations, described by partial sums -----

  // What the first k operations add to semaphore x.
  function Change(sops: seq<Sop>, k: nat, x: nat): int
    requires k <= |sops|
  {
    if k == 0 then 0 else Change(sops, k - 1, x) + if sops[k - 1].num == x then sops[k - 1].op else 0
  }

  // What those among the first k operations that carry SEM_UNDO add to it.
  function UndoChange(sops: seq<Sop>, k: nat, x: nat): int
    requires k <= |sops|
  {
    if k == 0 then 0
    else UndoChange(sops, k - 1, x) + if sops[k - 1].num == x && sops[k - 1].undo then sops[k - 1].op else 0
  }

  predicate InSet(sops: seq<Sop>, n: nat) {
    forall k :: 0 <= k < |sops| ==> sops[k].num < n
  }

  // The value that operation k finds.
  function Before(vals: seq<int>, sops: seq<Sop>, k: nat): int
    requires InSet(sops, |vals|) && k < |sops|
  {
    vals[sops[k].num] + Change(sops, k, sops[k].num)
  }

  predicate BlocksAt(vals: seq<int>, sops: seq<Sop>, k: nat)
    requires InSet(sops, |vals|) && k < |sops|
  {
    var v := Before(vals, sops, k);
    (sops[k].op == 0 && v != 0) || v + sops[k].op < 0
  }

  predicate OverflowsAt(vals: seq<int>, sops: seq<Sop>, k: nat)
    requires InSet(sops, |vals|) && k < |sops|
  {
    !BlocksAt(vals, sops, k) && Before(vals, sops, k) + sops[k].op > SEMVMX
  }

  predicate FineAt(vals: seq<int>, sops: seq<Sop>, k: nat)
    requires InSet(sops, |vals|) && k < |sops|
  {
    !BlocksAt(vals, sops, k) && !OverflowsAt(vals, sops, k)
  }

  // The verdict of the forward loop from operation k on.
  function VerdictFrom(vals: seq<int>, sops: seq<Sop>, k: nat): Verdict
    requires InSet(sops, |vals|) && k <= |sops|
    decreases |sops| - k
  {
    if k == |sops| then Done
    else if BlocksAt(vals, sops, k) then if sops[k].nowait then Again else Block
    else if OverflowsAt(vals, sops, k) then Range
    else VerdictFrom(vals, sops, k + 1)
  }

  function Try(vals: seq<int>, sops: seq<Sop>): Verdict
    requires InSet(sops, |vals|)
  {
    VerdictFrom(vals, sops, 0)
  }

  // The first n values after the whole vector.
  function AppliedTo(vals: seq<int>, sops: seq<Sop>, n: nat): (r: seq<int>)
    requires n <= |vals|
    ensures |r| == n && forall x :: 0 <= x < n ==> r[x] == vals[x] + Change(sops, |sops|, x)
  {
    if n == 0 then [] else AppliedTo(vals, sops, n - 1) + [vals[n - 1] + Change(sops, |sops|, n - 1)]
  }

  function Applied(vals: seq<int>, sops: seq<Sop>): seq<int> {
    AppliedTo(vals, sops, |vals|)
  }

  // The first n undo adjustments after the whole vector.
  function AdjustedTo(adj: seq<int>, sops: seq<Sop>, n: nat): (r: seq<int>)
    requires n <= |adj|
    ensures |r| == n && forall x :: 0 <= x < n ==> r[x] == adj[x] - UndoChange(sops, |sops|, x)
  {
    if n == 0 then [] else AdjustedTo(adj, sops, n - 1) + [adj[n - 1] - UndoChange(sops, |sops|, n - 1)]
  }

  function Adjusted(adj: seq<int>, sops: seq<Sop>): seq<int> {
    AdjustedTo(adj, sops, |adj|)
  }

  function Zeros(n: nat): (r: seq<int>)
    ensures |r| == n && forall x :: 0 <= x < n ==> r[x] == 0
  {
    if n == 0 then [] else Zeros(n - 1) + [0]
  }

  // ----- the set -----

  datatype Undo = Undo(pid: nat, adj: seq<int>)

  // A pending vector.  `alter` is struct sem_queue's: some operation decreases.
  // `woken` is status == 1: the sleeper is to try again by itself.
  datatype Entry = Entry(pid: nat, sops: seq<Sop>, alter: bool, woken: bool)

  // `plain` records, per semaphore, the values set and the effect of operations
  // without SEM_UNDO since; it is not kept by the kernel.
  datatype State = State(vals: seq<int>, undos: seq<Undo>, pending: seq<Entry>, plain: seq<int>)

  function Decreases(sops: seq<Sop>): bool {
    exists k :: 0 <= k < |sops| && sops[k].op < 0
  }

  function Alters(sops: seq<Sop>): bool {
    exists k :: 0 <= k < |sops| && sops[k].op != 0
  }

  function UsesUndo(sops: seq<Sop>): bool {
    exists k :: 0 <= k < |sops| && sops[k].undo
  }

  function FindUndo(us: seq<Undo>, pid: nat): (k: nat)
    ensures k <= |us|
    ensures forall j :: 0 <= j < k ==> us[j].pid != pid
    ensures k < |us| ==> us[k].pid == pid
  {
    if us == [] || us[0].pid == pid then 0 else 1 + FindUndo(us[1..], pid)
  }

  function FindEntry(ps: seq<Entry>, pid: nat): (k: nat)
    ensures k <= |ps|
    ensures forall j :: 0 <= j < k ==> ps[j].pid != pid
    ensures k < |ps| ==> ps[k].pid == pid
  {
    if ps == [] || ps[0].pid == pid then 0 else 1 + FindEntry(ps[1..], pid)
  }

  // The vector takes effect for process `pid`.
  function Perform(s: State, pid: nat, sops: seq<Sop>): State {
    var u := FindUndo(s.undos, pid);
    s.(vals := Applied(s.vals, sops),
       undos := if u < |s.undos| then s.undos[u := Undo(pid, Adjusted(s.undos[u].adj, sops))] else s.undos,
       plain := Adjusted(Applied(s.plain, sops), sops))
  }

  function RemoveAt<T>(s: seq<T>, k: nat): seq<T>
    requires k < |s|
  {
    s[..k] + s[k + 1..]
  }

  predicate Fits(s: State) {
    forall i :: 0 <= i < |s.pending| ==> InSet(s.pending[i].sops, |s.vals|)
  }

  datatype Updated = Updated(s: State, done: seq<Entry>, failed: seq<Entry>)

  // update_queue from position i on: one pass over the pending vectors.  `done`
  // lists the vectors it performed, `failed` those it removed with an error.
  function Update(s: State, i: nat): Updated
    requires Fits(s) && i <= |s.pending|
    decreases |s.pending| - i
  {
    if i == |s.pending| then Updated(s, [], [])
    else
      var q := s.pending[i];
      if q.woken then Update(s, i + 1)
      else
        match Try(s.vals, q.sops)
        case Block => Update(s, i + 1)
        case Done =>
          if q.alter then Updated(s.(pending := s.pending[i := q.(woken := true)]), [], [])
          else
            var r := Update(Perform(s, q.pid, q.sops).(pending := RemoveAt(s.pending, i)), i);
            r.(done := [q] + r.done)
        case _ =>
          var r := Update(s.(pending := RemoveAt(s.pending, i)), i);
          r.(failed := [q] + r.failed)
  }

  function UpdateIf(s: State, alters: bool): State
    requires Fits(s)
  {
    if alters then Update(s, 0).s else s
  }

  // sys_semop up to its return or its sleep.
  function Semop(s: State, pid: nat, sops: seq<Sop>): State
    requires Fits(s) && InSet(sops, |s.vals|)
  {
    var s1 := if UsesUndo(sops) && FindUndo(s.undos, pid) == |s.undos|
              then s.(undos := [Undo(pid, Zeros(|s.vals|))] + s.undos) else s;
    match Try(s.vals, sops)
    case Done => UpdateIf(Perform(s1, pid, sops), Alters(sops))
    case Block =>
      var q := Entry(pid, sops, Decreases(sops), false);
      s1.(pending := if Alters(sops) then s1.pending + [q] else [q] + s1.pending)
    case _ => UpdateIf(s1, Alters(sops))
  }

  // The sleeper runs again: it was told to retry, or a signal interrupted it.
  function Resume(s: State, pid: nat): State
    requires Fits(s)
  {
    var k := FindEntry(s.pending, pid);
    if k == |s.pending| then s
    else
      var q := s.pending[k];
      var out := s.(pending := RemoveAt(s.pending, k));
      if !q.woken then UpdateIf(out, Alters(q.sops))
      else
        match Try(s.vals, q.sops)
        case Block => s.(pending := s.pending[k := q.(woken := false)])
        case Done => UpdateIf(Perform(out, pid, q.sops), Alters(q.sops))
        case _ => UpdateIf(out, Alters(q.sops))
  }

  function ClearAdj(us: seq<Undo>, x: nat): seq<Undo> {
    if us == [] then []
    else [if x < |us[0].adj| then Undo(us[0].pid, us[0].adj[x := 0]) else us[0]] + ClearAdj(us[1..], x)
  }

  // SETVAL, once the value is in range.
  function SetVal(s: State, x: nat, v: int): State
    requires Fits(s) && x < |s.vals| && |s.plain| == |s.vals|
  {
    Update(s.(vals := s.vals[x := v], undos := ClearAdj(s.undos, x), plain := s.plain[x := v]), 0).s
  }

  function ClearAll(us: seq<Undo>): seq<Undo> {
    if us == [] then [] else [Undo(us[0].pid, Zeros(|us[0].adj|))] + ClearAll(us[1..])
  }

  // SETALL, once the values are in range.
  function SetAll(s: State, vs: seq<int>): State
    requires Fits(s) && |vs| == |s.vals|
  {
    Update(s.(vals := vs, undos := ClearAll(s.undos), plain := vs), 0).s
  }

  function Clamp(v: int): int { if v < 0 then 0 else v }

  // sem_exit gives the adjustments of one process back, clamping at zero.
  function GiveBack(vals: seq<int>, adj: seq<int>, n: nat): (r: seq<int>)
    requires n <= |vals| && n <= |adj|
    ensures |r| == n && forall x :: 0 <= x < n ==> r[x] == Clamp(vals[x] + adj[x])
  {
    if n == 0 then [] else GiveBack(vals, adj, n - 1) + [Clamp(vals[n - 1] + adj[n - 1])]
  }

  // `plain` raised by what the clamp adds.
  function Lifted(plain: seq<int>, vals: seq<int>, adj: seq<int>, n: nat): (r: seq<int>)
    requires n <= |plain| && n <= |vals| && n <= |adj|
    ensures |r| == n
    ensures forall x :: 0 <= x < n ==> r[x] == plain[x] + Clamp(vals[x] + adj[x]) - (vals[x] + adj[x])
  {
    if n == 0 then []
    else
      var v := vals[n - 1] + adj[n - 1];
      Lifted(plain, vals, adj, n - 1) + [plain[n - 1] + Clamp(v) - v]
  }

  function Exit(s: State, pid: nat): State
    requires Fits(s) && |s.plain| == |s.vals|
    requires forall i :: 0 <= i < |s.undos| ==> |s.undos[i].adj| == |s.vals|
  {
    var k := FindEntry(s.pending, pid);
    var s1 := if k < |s.pending| then s.(pending := RemoveAt(s.pending, k)) else s;
    var u := FindUndo(s.undos, pid);
    if u == |s.undos| then s1
    else
      var adj := s.undos[u].adj;
      Update(s1.(vals := GiveBack(s.vals, adj, |s.vals|), undos := RemoveAt(s.undos, u),
                 plain := Lifted(s.plain, s.vals, adj, |s.vals|)), 0).s
  }
}

/**
  The clamp of sem_exit at work, on a set of one semaphore.
 */
module SemaphoreClamp {
  import opened Semaphores
  import opened SemaphoreProofs

  // A vector of one operation, on the only semaphore of a set with nobody waiting.
  ghost predicate Single(sops: seq<Sop>, op: int, undo: bool) {
    |sops| == 1 && sops[0] == Sop(0, op, undo, false)
  }

  ghost predicate Small(s: State, v: int, us: seq<Undo>, p: int) {
    s.vals == [v] && s.undos == us && s.pending == [] && s.plain == [p]
  }

  lemma SingleSums(sops: seq<Sop>, op: int, undo: bool)
    requires Single(sops, op, undo)
    ensures Change(sops, 1, 0) == op && UndoChange(sops, 1, 0) == if undo then op else 0
    ensures UsesUndo(sops) <==> undo
  {
    assert Change(sops, 0, 0) == 0 && UndoChange(sops, 0, 0) == 0;
  }

  lemma SingleApplied(vals: seq<int>, v: int, sops: seq<Sop>, op: int, undo: bool)
    requires Single(sops, op, undo) && vals == [v]
    ensures Applied(vals, sops) == [v + op] && Adjusted(vals, sops) == [if undo then v - op else v]
  {
    SingleSums(sops, op, undo);
  }

  lemma SingleTry(vals: seq<int>, v: int, sops: seq<Sop>, op: int, undo: bool)
    requires Single(sops, op, undo) && vals == [v] && op != 0 && 0 <= v + op <= SEMVMX
    ensures InSet(sops, |vals|) && Try(vals, sops) == Done
  {
    assert Change(sops, 0, 0) == 0;
    assert VerdictFrom(vals, sops, 1) == Done;
  }

  lemma NothingPending(s: State)
    requires s.pending == []
    ensures Update(s, 0).s == s
  {
  }

  function WithUndo(s: State, pid: nat, sops: seq<Sop>): State {
    if UsesUndo(sops) && FindUndo(s.undos, pid) == |s.undos| then
      s.(undos := [Undo(pid, Zeros(|s.vals|))] + s.undos)
    else s
  }

  // With nobody waiting an acceptable vector is performed, and that is all.
  lemma SemopAlone(s: State, pid: nat, sops: seq<Sop>)
    requires s.pending == [] && InSet(sops, |s.vals|) && Try(s.vals, sops) == Done
    ensures Semop(s, pid, sops) == Perform(WithUndo(s, pid, sops), pid, sops)
  {
    NothingPending(Perform(WithUndo(s, pid, sops), pid, sops));
  }

  // With an operation to be undone, by a process that has no adjustments yet.
  lemma RaisePrepared(s: State, p: int, v: int, pid: nat, sops: seq<Sop>, op: int)
    requires Small(s, v, [], p) && Single(sops, op, true)
    ensures Small(WithUndo(s, pid, sops), v, [Undo(pid, [0])], p)
  {
    SingleSums(sops, op, true);
    assert Zeros(1) == [0];
    assert FindUndo(s.undos, pid) == 0;
  }

  lemma SinglePlain(plain: seq<int>, p: int, sops: seq<Sop>, op: int, undo: bool)
    requires Single(sops, op, undo) && plain == [p]
    ensures Adjusted(Applied(plain, sops), sops) == [if undo then p else p + op]
  {
    SingleApplied(plain, p, sops, op, undo);
    SingleApplied(Applied(plain, sops), p + op, sops, op, undo);
  }

  lemma OwnAdjusted(us: seq<Undo>, pid: nat, sops: seq<Sop>, op: int)
    requires us == [Undo(pid, [0])] && Single(sops, op, true)
    ensures FindUndo(us, pid) == 0 && us[0 := Undo(pid, Adjusted(us[0].adj, sops))] == [Undo(pid, [-op])]
  {
    SingleApplied(us[0].adj, 0, sops, op, true);
  }

  lemma RaisePerformed(s: State, p: int, v: int, pid: nat, sops: seq<Sop>, op: int)
    requires Small(s, v, [Undo(pid, [0])], p) && Single(sops, op, true)
    ensures Small(Perform(s, pid, sops), v + op, [Undo(pid, [-op])], p)
  {
    SingleApplied(s.vals, v, sops, op, true);
    OwnAdjusted(s.undos, pid, sops, op);
    SinglePlain(s.plain, p, sops, op, true);
  }

  lemma TakePerformed(s: State, us: seq<Undo>, p: int, v: int, pid: nat, sops: seq<Sop>, op: int)
    requires Small(s, v, us, p) && Single(sops, op, false) && FindUndo(us, pid) == |us|
    ensures Small(Perform(WithUndo(s, pid, sops), pid, sops), v + op, us, p + op)
  {
    SingleSums(sops, op, false);
    SingleApplied(s.vals, v, sops, op, false);
    SinglePlain(s.plain, p, sops, op, false);
  }

  lemma ExitAlone(s: State, v: int, a: int, p: int, pid: nat)
    requires Small(s, v, [Undo(pid, [a])], p)
    ensures Small(Exit(s, pid), Clamp(v + a), [], p + Clamp(v + a) - (v + a))
  {
    assert FindUndo(s.undos, pid) == 0 && RemoveAt(s.undos, 0) == [];
    var s' := s.(vals := GiveBack(s.vals, [a], 1), undos := [], plain := Lifted(s.plain, s.vals, [a], 1));
    assert FindEntry(s.pending, pid) == 0;
    NothingPending(s');
  }

  lemma OneAdjustment(s: State, v: int, a: int, p: int, pid: nat)
    requires Small(s, v, [Undo(pid, [a])], p)
    ensures Owed(s, 0) == v + a
  {
    assert s.undos[1..] == [] && SumAdj([], 0) == 0;
  }

  /** One process raises a semaphore by n and means to undo that, another takes n for
      good: when the first exits the clamp strikes, and value plus adjustments changes
      from -n to 0. */
  lemma ClampStrikes(s: State, n: int, raise: seq<Sop>, take: seq<Sop>, first: nat, second: nat)
    requires Small(s, 0, [], 0) && 0 < n <= SEMVMX && first != second
    requires Single(raise, n, true) && Single(take, -n, false)
    ensures InSet(raise, |s.vals|)
    ensures var s1 := Semop(s, first, raise);
            && |s1.vals| == 1 && Fits(s1) && InSet(take, |s1.vals|)
            && var s2 := Semop(s1, second, take);
               && Small(s2, 0, [Undo(first, [-n])], -n) && Owed(s2, 0) == -n
               && Small(Exit(s2, first), 0, [], 0)
  {
    SingleTry(s.vals, 0, raise, n, true);
    SemopAlone(s, first, raise);
    RaisePrepared(s, 0, 0, first, raise, n);
    RaisePerformed(WithUndo(s, first, raise), 0, 0, first, raise, n);
    var s1 := Semop(s, first, raise);
    TakenThenExit(s1, n, take, first, second);
  }

  lemma TakenThenExit(s1: State, n: int, take: seq<Sop>, first: nat, second: nat)
    requires Small(s1, n, [Undo(first, [-n])], 0) && 0 < n <= SEMVMX && first != second && Single(take, -n, false)
    ensures InSet(take, |s1.vals|)
    ensures var s2 := Semop(s1, second, take);
            && Small(s2, 0, [Undo(first, [-n])], -n) && Owed(s2, 0) == -n
            && Small(Exit(s2, first), 0, [], 0)
  {
    SingleTry(s1.vals, n, take, -n, false);
    SemopAlone(s1, second, take);
    assert FindUndo(s1.undos, second) == 1;
    TakePerformed(s1, s1.undos, 0, n, second, take, -n);
    var s2 := Semop(s1, second, take);
    OneAdjustment(s2, 0, -n, -n, first);
    ExitAlone(s2, 0, -n, -n, first);
  }
}

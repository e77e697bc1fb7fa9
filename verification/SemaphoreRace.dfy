/**
  A run that loses a wake-up: three processes on a set of two semaphores.
 */
module SemaphoreRace {
  import opened Semaphores
  import opened SemaphoreProofs
  import opened SemaphorePass
  import opened SemaphoreWakeups
  import opened SemaphoreLost

  predicate Two(vals: seq<int>, a: int, b: int) {
    |vals| == 2 && vals[0] == a && vals[1] == b
  }

  // A vector of one plain operation.
  predicate One(sops: seq<Sop>, num: nat, op: int) {
    |sops| == 1 && sops[0] == Sop(num, op, false, false)
  }

  // Wait until semaphore 1 is zero, then raise semaphore 0.
  predicate WaitThenRaise(sops: seq<Sop>) {
    |sops| == 2 && sops[0] == Sop(1, 0, false, false) && sops[1] == Sop(0, 1, false, false)
  }

  lemma OneSums(sops: seq<Sop>, num: nat, op: int, x: nat)
    requires One(sops, num, op)
    ensures Change(sops, 0, x) == 0 && Change(sops, 1, x) == if x == num then op else 0
    ensures (Alters(sops) <==> op != 0) && (Decreases(sops) <==> op < 0)
  {
    assert sops[0].op == op;
  }

  lemma OneAccepted(vals: seq<int>, sops: seq<Sop>, num: nat, op: int)
    requires One(sops, num, op) && op != 0 && num < |vals|
    ensures InSet(sops, |vals|)
    ensures Accepts(vals, sops) <==> 0 <= vals[num] + op <= SEMVMX
    ensures MustWait(vals, sops) <==> vals[num] + op < 0
  {
    OneSums(sops, num, op, num);
    assert FineUpTo(vals, sops, 0);
    assert FineAt(vals, sops, 0) <==> 0 <= vals[num] + op <= SEMVMX;
    assert BlocksAt(vals, sops, 0) <==> vals[num] + op < 0;
  }

  lemma RaiseSums(sops: seq<Sop>)
    requires WaitThenRaise(sops)
    ensures Change(sops, 0, 1) == 0 && Change(sops, 1, 0) == 0 && Change(sops, 2, 0) == 1 && Change(sops, 2, 1) == 0
    ensures Alters(sops) && !Decreases(sops)
  {
    assert Change(sops, 0, 0) == 0 && sops[1].op == 1;
    assert Change(sops, 1, 1) == 0;
  }

  lemma RaiseAccepted(vals: seq<int>, sops: seq<Sop>, b: int)
    requires WaitThenRaise(sops) && Two(vals, 0, b)
    ensures InSet(sops, |vals|)
    ensures Accepts(vals, sops) <==> b == 0
    ensures MustWait(vals, sops) <== b != 0
  {
    RaiseSums(sops);
    assert FineUpTo(vals, sops, 0);
    assert BlocksAt(vals, sops, 0) <==> b != 0;
    assert FineAt(vals, sops, 0) <==> b == 0;
    assert FineAt(vals, sops, 1);
  }

  // ----- the pass -----

  ghost predicate Waiting(es: seq<Entry>, take: seq<Sop>, raise: seq<Sop>) {
    && |es| == 2 && es[0] == Entry(1, take, true, false) && es[1] == Entry(2, raise, false, false)
    && One(take, 0, -1) && WaitThenRaise(raise)
  }

  lemma LateFates(t: State, fates: seq<Fate>, take: seq<Sop>, raise: seq<Sop>)
    requires Two(t.vals, 0, 0) && Waiting(t.pending, take, raise) && AllFated(t, t.pending, fates)
    ensures |fates| == 2 && fates[0] == Stays && fates[1] == Performs
  {
    var es := t.pending;
    OneAccepted(t.vals, take, 0, -1);
    TryExact(t.vals, take);
    NobodyPerformed(t, es, fates, 0);
    assert Fated(t, es, fates, 0);
    RaiseAccepted(t.vals, raise, 0);
    TryExact(t.vals, raise);
    NobodyPerformed(t, es, fates, 1);
    assert Fated(t, es, fates, 1);
  }

  lemma LateQueue(es: seq<Entry>, fates: seq<Fate>)
    requires |es| == |fates| == 2 && fates[0] == Stays && fates[1] == Performs
    ensures Left(es, fates) == [es[0]] && Meeting(es, fates, Performs) == [es[1]]
  {
    var e1, f1 := es[1..], fates[1..];
    assert e1[1..] == [] && f1[1..] == [];
    assert Left(e1, f1) == [] + Left(e1[1..], f1[1..]);
    assert Meeting(e1, f1, Performs) == [es[1]] + Meeting(e1[1..], f1[1..], Performs);
  }

  // The taker is passed over, then the other one raises what it waits for.
  lemma RaisedTooLate(t: State, s': State, fates: seq<Fate>, take: seq<Sop>, raise: seq<Sop>)
    requires Two(t.vals, 0, 0) && Waiting(t.pending, take, raise) && LookedAt(t, s', fates)
    ensures Two(s'.vals, 1, 0) && s'.pending == [t.pending[0]] && Lost(s')
  {
    LateFates(t, fates, take, raise);
    LateQueue(t.pending, fates);
    RaiseSums(raise);
    var q := t.pending[1];
    PerformAllSnoc(t, [], q);
    assert [] + [q] == [q];
    OneAccepted(s'.vals, take, 0, -1);
    assert t.pending[0] in s'.pending;
  }

  // ----- the run -----

  // A single operation that is accepted: it takes effect and the sleepers are looked at.
  lemma OnePerformed(s: State, pid: nat, sops: seq<Sop>, num: nat, op: int) returns (after: seq<int>)
    requires Fits(s) && num < |s.vals| && op != 0 && One(sops, num, op) && 0 <= s.vals[num] + op <= SEMVMX
    ensures InSet(sops, |s.vals|) && Looked(after, s.pending, Semop(s, pid, sops)) && |after| == |s.vals|
    ensures forall x :: 0 <= x < |s.vals| ==> after[x] == s.vals[x] + if x == num then op else 0
  {
    OneAccepted(s.vals, sops, num, op);
    SemopOutcome(s, pid, sops);
    OneSums(sops, num, op, num);
    after :| ValuesAfter(s.vals, sops, after) && Looked(after, s.pending, Semop(s, pid, sops));
    forall x | 0 <= x < |s.vals| ensures after[x] == s.vals[x] + if x == num then op else 0 {
      OneSums(sops, num, op, x);
    }
  }

  // Nobody sleeps: the vector is performed, and that is all.
  lemma Alone(s: State, pid: nat, sops: seq<Sop>, num: nat, op: int)
    requires Inv(s) && s.pending == [] && num < |s.vals| && op != 0
    requires One(sops, num, op) && 0 <= s.vals[num] + op <= SEMVMX
    ensures var s' := Apply(s, DoSemop(pid, sops));
            s'.pending == [] && |s'.vals| == |s.vals| &&
            forall x :: 0 <= x < |s.vals| ==> s'.vals[x] == s.vals[x] + if x == num then op else 0
  {
    var after := OnePerformed(s, pid, sops, num, op);
    NobodyToLookAt(after, Semop(s, pid, sops));
  }

  lemma NobodyToLookAt(vals: seq<int>, s': State)
    requires Looked(vals, [], s')
    ensures s'.vals == vals && s'.pending == []
  {
    var t, fates :| LookedAt(t, s', fates) && t.vals == vals && t.pending == [];
    assert Meeting(t.pending, fates, Performs) == [];
  }

  lemma GoesToSleep(s: State, pid: nat, sops: seq<Sop>)
    requires Inv(s) && InSet(sops, |s.vals|) && sops != [] && !Pending(s, pid)
    requires MustWait(s.vals, sops) && Alters(sops)
    ensures var s' := Apply(s, DoSemop(pid, sops));
            s'.vals == s.vals && s'.pending == s.pending + [Entry(pid, sops, Decreases(sops), false)]
  {
    SemopOutcome(s, pid, sops);
  }

  lemma TooLate(vals: seq<int>, ps: seq<Entry>, s': State, take: seq<Sop>, raise: seq<Sop>)
    requires Two(vals, 0, 0) && Waiting(ps, take, raise) && Looked(vals, ps, s')
    ensures Two(s'.vals, 1, 0) && s'.pending == [ps[0]] && Lost(s')
  {
    var t, fates :| LookedAt(t, s', fates) && t.vals == vals && t.pending == ps;
    RaisedTooLate(t, s', fates, take, raise);
  }

  // Semaphore 1 becomes zero while others sleep.
  lemma ThirdTakes(s: State, down: seq<Sop>) returns (after: seq<int>)
    requires Inv(s) && Two(s.vals, 0, 1) && !Pending(s, 3) && One(down, 1, -1)
    ensures Two(after, 0, 0) && Looked(after, s.pending, Apply(s, DoSemop(3, down)))
  {
    after := OnePerformed(s, 3, down, 1, -1);
  }

  lemma ThirdIsAwake(s: State, take: seq<Sop>, raise: seq<Sop>)
    requires Waiting(s.pending, take, raise)
    ensures !Pending(s, 3)
  {
  }

  lemma OneStep(s: State, a: Action, run: seq<Action>)
    requires Inv(s) && run != [] && run[0] == a
    ensures Inv(Apply(s, a)) && Execute(s, run) == Execute(Apply(s, a), run[1..])
  {
    ApplyKeepsInv(s, a);
  }

  ghost predicate TheRun(run: seq<Action>, up: seq<Sop>, down: seq<Sop>, take: seq<Sop>, raise: seq<Sop>) {
    && |run| == 4 && run[0] == DoSemop(3, up) && run[1] == DoSemop(1, take)
    && run[2] == DoSemop(2, raise) && run[3] == DoSemop(3, down)
    && One(up, 1, 1) && One(down, 1, -1) && One(take, 0, -1) && WaitThenRaise(raise)
  }

  // Processes 1 and 2 go to sleep on a set that was raised once.
  lemma BothSleep(s: State, take: seq<Sop>, raise: seq<Sop>)
    requires Inv(s) && Two(s.vals, 0, 1) && s.pending == [] && One(take, 0, -1) && WaitThenRaise(raise)
    ensures var s2 := Apply(s, DoSemop(1, take));
            && Inv(s2)
            && var s3 := Apply(s2, DoSemop(2, raise)); Two(s3.vals, 0, 1) && Waiting(s3.pending, take, raise)
  {
    OneAccepted(s.vals, take, 0, -1);
    OneSums(take, 0, -1, 0);
    GoesToSleep(s, 1, take);
    ApplyKeepsInv(s, DoSemop(1, take));
    var s2 := Apply(s, DoSemop(1, take));
    RaiseAccepted(s2.vals, raise, 1);
    RaiseSums(raise);
    GoesToSleep(s2, 2, raise);
  }

  /** From the new set: process 1 waits for semaphore 0, process 2 waits for semaphore 1 to
      become zero and then raises semaphore 0, process 3 makes it zero.  Process 1 sleeps on
      although semaphore 0 is 1 and nobody else is there to wake it. */
  lemma LostWakeup(run: seq<Action>, up: seq<Sop>, down: seq<Sop>, take: seq<Sop>, raise: seq<Sop>)
    requires TheRun(run, up, down, take, raise)
    ensures Inv(NewSet(2))
    ensures var s := Execute(NewSet(2), run);
            Two(s.vals, 1, 0) && s.pending == [Entry(1, take, true, false)] && Lost(s)
  {
    ReachableBalanced(2, []);
    var s0 := NewSet(2);
    Alone(s0, 3, up, 1, 1);
    OneStep(s0, run[0], run);
    var s1 := Apply(s0, run[0]);
    BothSleep(s1, take, raise);
    OneStep(s1, run[1], run[1..]);
    var s2 := Apply(s1, run[1]);
    OneStep(s2, run[2], run[1..][1..]);
    var s3 := Apply(s2, run[2]);
    ThirdIsAwake(s3, take, raise);
    var after := ThirdTakes(s3, down);
    OneStep(s3, run[3], run[1..][1..][1..]);
    TooLate(after, s3.pending, Apply(s3, run[3]), take, raise);
  }
}

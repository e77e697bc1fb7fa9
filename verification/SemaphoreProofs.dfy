/**
  What semop promises of a semaphore set: vectors succeed exactly when every
  prefix is legal, update_queue amounts to the vectors it performs, and every
  SEM_UNDO effect is balanced by an adjustment until its process exits.
 */
module SemaphoreProofs {
  import opened Semaphores

  // ----- the verdict -----

  ghost predicate FineUpTo(vals: seq<int>, sops: seq<Sop>, n: nat)
    requires InSet(sops, |vals|) && n <= |sops|
  {
    forall k :: 0 <= k < n ==> FineAt(vals, sops, k)
  }

  lemma {:induction false} VerdictFromExact(vals: seq<int>, sops: seq<Sop>, k: nat)
    requires InSet(sops, |vals|) && k <= |sops| && FineUpTo(vals, sops, k)
    ensures VerdictFrom(vals, sops, k) == Done <==> FineUpTo(vals, sops, |sops|)
    ensures VerdictFrom(vals, sops, k) == Range
            <==> exists j :: 0 <= j < |sops| && FineUpTo(vals, sops, j) && OverflowsAt(vals, sops, j)
    ensures VerdictFrom(vals, sops, k) == Block
            <==> exists j :: 0 <= j < |sops| && FineUpTo(vals, sops, j) && BlocksAt(vals, sops, j) && !sops[j].nowait
    decreases |sops| - k
  {
    if k == |sops| {
      forall j | 0 <= j < |sops| ensures !OverflowsAt(vals, sops, j) && !BlocksAt(vals, sops, j) {
        assert FineAt(vals, sops, j);
      }
    } else if FineAt(vals, sops, k) {
      VerdictFromExact(vals, sops, k + 1);
    } else {
      forall j | 0 <= j < |sops| && FineUpTo(vals, sops, j) && !FineAt(vals, sops, j) ensures j == k {
        assert !(k < j);
      }
      assert BlocksAt(vals, sops, k) || OverflowsAt(vals, sops, k);
    }
  }

  /** A vector is accepted exactly when each operation, at its turn, finds the value
      it needs and leaves one in 0..SEMVMX; it sleeps or overflows by the first
      operation that does not. */
  lemma TryExact(vals: seq<int>, sops: seq<Sop>)
    requires InSet(sops, |vals|)
    ensures Try(vals, sops) == Done <==> FineUpTo(vals, sops, |sops|)
    ensures Try(vals, sops) == Range
            <==> exists j :: 0 <= j < |sops| && FineUpTo(vals, sops, j) && OverflowsAt(vals, sops, j)
    ensures Try(vals, sops) == Block
            <==> exists j :: 0 <= j < |sops| && FineUpTo(vals, sops, j) && BlocksAt(vals, sops, j) && !sops[j].nowait
  {
    VerdictFromExact(vals, sops, 0);
  }

  lemma {:induction false} FineStaysInRange(vals: seq<int>, sops: seq<Sop>, n: nat, x: nat)
    requires InSet(sops, |vals|) && n <= |sops| && FineUpTo(vals, sops, n) && x < |vals| && vals[x] >= 0
    ensures vals[x] + Change(sops, n, x) >= 0
    ensures vals[x] <= SEMVMX ==> vals[x] + Change(sops, n, x) <= SEMVMX
  {
    if n > 0 {
      FineStaysInRange(vals, sops, n - 1, x);
      assert FineAt(vals, sops, n - 1);
    }
  }

  lemma {:induction false} NoUndoNoChange(sops: seq<Sop>, n: nat, x: nat)
    requires n <= |sops| && !UsesUndo(sops)
    ensures UndoChange(sops, n, x) == 0
  {
    if n > 0 {
      NoUndoNoChange(sops, n - 1, x);
    }
  }

  lemma {:induction false} RisingChange(sops: seq<Sop>, n: nat, x: nat)
    requires n <= |sops| && !Decreases(sops)
    ensures Change(sops, n, x) >= 0
  {
    if n > 0 {
      RisingChange(sops, n - 1, x);
    }
  }

  // ----- the invariant -----

  function SumAdj(us: seq<Undo>, x: nat): int
    requires forall i :: 0 <= i < |us| ==> x < |us[i].adj|
  {
    if us == [] then 0 else us[0].adj[x] + SumAdj(us[1..], x)
  }

  ghost predicate Shaped(s: State) {
    && |s.plain| == |s.vals|
    && (forall i :: 0 <= i < |s.undos| ==> |s.undos[i].adj| == |s.vals|)
    && Fits(s)
  }

  ghost predicate OneEach(s: State) {
    && (forall i, j :: 0 <= i < j < |s.undos| ==> s.undos[i].pid != s.undos[j].pid)
    && (forall i, j :: 0 <= i < j < |s.pending| ==> s.pending[i].pid != s.pending[j].pid)
  }

  predicate HasUndo(s: State, pid: nat) {
    FindUndo(s.undos, pid) < |s.undos|
  }

  ghost predicate PendingGood(s: State) {
    forall i :: 0 <= i < |s.pending| ==>
      var q := s.pending[i];
      q.alter == Decreases(q.sops) && (UsesUndo(q.sops) ==> HasUndo(s, q.pid))
  }

  // The value of a semaphore plus all that is still to be given back at exit.
  function Owed(s: State, x: nat): int
    requires x < |s.vals| && forall i :: 0 <= i < |s.undos| ==> |s.undos[i].adj| == |s.vals|
  {
    s.vals[x] + SumAdj(s.undos, x)
  }

  ghost predicate Balanced(s: State)
    requires Shaped(s)
  {
    forall x :: 0 <= x < |s.vals| ==> Owed(s, x) == s.plain[x]
  }

  ghost predicate NonNegative(s: State) {
    forall x :: 0 <= x < |s.vals| ==> s.vals[x] >= 0
  }

  ghost predicate Inv(s: State) {
    Shaped(s) && OneEach(s) && PendingGood(s) && Balanced(s) && NonNegative(s)
  }

  lemma {:induction false} SumAdjUpdate(us: seq<Undo>, i: nat, u: Undo, x: nat)
    requires i < |us| && x < |u.adj| && forall j :: 0 <= j < |us| ==> x < |us[j].adj|
    ensures SumAdj(us[i := u], x) == SumAdj(us, x) - us[i].adj[x] + u.adj[x]
  {
    var us' := us[i := u];
    if i == 0 {
      assert us'[1..] == us[1..];
    } else {
      assert us'[1..] == us[1..][i - 1 := u];
      SumAdjUpdate(us[1..], i - 1, u, x);
    }
  }

  lemma {:induction false} SumAdjRemove(us: seq<Undo>, i: nat, x: nat)
    requires i < |us| && forall j :: 0 <= j < |us| ==> x < |us[j].adj|
    ensures SumAdj(RemoveAt(us, i), x) == SumAdj(us, x) - us[i].adj[x]
  {
    var us' := RemoveAt(us, i);
    if i == 0 {
      assert us' == us[1..];
    } else {
      SumAdjRemove(us[1..], i - 1, x);
      assert us'[0] == us[0] && us'[1..] == RemoveAt(us[1..], i - 1);
    }
  }

  // ----- performing a vector -----

  lemma {:induction false} PerformOwed(s: State, pid: nat, sops: seq<Sop>, x: nat)
    requires Shaped(s) && x < |s.vals| && (UsesUndo(sops) ==> HasUndo(s, pid))
    ensures Shaped(Perform(s, pid, sops))
    ensures Owed(Perform(s, pid, sops), x)
            == Owed(s, x) + Change(sops, |sops|, x) - UndoChange(sops, |sops|, x)
  {
    var u := FindUndo(s.undos, pid);
    if u < |s.undos| {
      SumAdjUpdate(s.undos, u, Undo(pid, Adjusted(s.undos[u].adj, sops)), x);
    } else {
      NoUndoNoChange(sops, |sops|, x);
    }
  }

  lemma {:induction false} AllUndoChange(sops: seq<Sop>, n: nat, x: nat)
    requires n <= |sops| && forall k :: 0 <= k < |sops| ==> sops[k].undo
    ensures UndoChange(sops, n, x) == Change(sops, n, x)
  {
    if n > 0 {
      AllUndoChange(sops, n - 1, x);
    }
  }

  /** A vector that carries SEM_UNDO throughout leaves what is owed as it was. */
  lemma UndoVectorNeutral(s: State, pid: nat, sops: seq<Sop>, x: nat)
    requires Shaped(s) && x < |s.vals| && HasUndo(s, pid) && forall k :: 0 <= k < |sops| ==> sops[k].undo
    ensures Shaped(Perform(s, pid, sops)) && Owed(Perform(s, pid, sops), x) == Owed(s, x)
  {
    PerformOwed(s, pid, sops, x);
    AllUndoChange(sops, |sops|, x);
  }

  // Performing changes no owner of an undo structure.
  lemma PerformOwners(s: State, pid: nat, sops: seq<Sop>)
    ensures var s' := Perform(s, pid, sops);
            && |s'.undos| == |s.undos|
            && (forall i :: 0 <= i < |s.undos| ==> s'.undos[i].pid == s.undos[i].pid)
            && (forall p :: HasUndo(s, p) ==> HasUndo(s', p))
  {
    var s' := Perform(s, pid, sops);
    forall p | HasUndo(s, p) ensures HasUndo(s', p) {
      assert s'.undos[FindUndo(s.undos, p)].pid == p;
    }
  }

  lemma PerformKeepsInv(s: State, pid: nat, sops: seq<Sop>)
    requires Inv(s) && InSet(sops, |s.vals|) && Try(s.vals, sops) == Done && (UsesUndo(sops) ==> HasUndo(s, pid))
    ensures Inv(Perform(s, pid, sops))
  {
    var s' := Perform(s, pid, sops);
    PerformOwners(s, pid, sops);
    TryExact(s.vals, sops);
    forall x | 0 <= x < |s.vals| ensures Shaped(s') && Owed(s', x) == s'.plain[x] && s'.vals[x] >= 0 {
      PerformOwed(s, pid, sops, x);
      FineStaysInRange(s.vals, sops, |sops|, x);
    }
  }

  // ----- dropping and waking pending vectors -----

  lemma DropKeepsInv(s: State, i: nat)
    requires Inv(s) && i < |s.pending|
    ensures Inv(s.(pending := RemoveAt(s.pending, i)))
  {
    var ps := RemoveAt(s.pending, i);
    var s' := s.(pending := ps);
    assert forall j :: 0 <= j < |ps| ==> ps[j] == s.pending[if j < i then j else j + 1];
    assert forall x :: 0 <= x < |s.vals| ==> Owed(s', x) == Owed(s, x);
  }

  lemma MarkKeepsInv(s: State, i: nat, woken: bool)
    requires Inv(s) && i < |s.pending|
    ensures Inv(s.(pending := s.pending[i := s.pending[i].(woken := woken)]))
  {
    var s' := s.(pending := s.pending[i := s.pending[i].(woken := woken)]);
    assert forall x :: 0 <= x < |s.vals| ==> Owed(s', x) == Owed(s, x);
  }

  lemma {:induction false} UpdateKeepsInv(s: State, i: nat)
    requires Inv(s) && i <= |s.pending|
    ensures Inv(Update(s, i).s)
    decreases |s.pending| - i
  {
    if i < |s.pending| {
      var q := s.pending[i];
      if q.woken || Try(s.vals, q.sops) == Block {
        UpdateKeepsInv(s, i + 1);
      } else if Try(s.vals, q.sops) != Done {
        DropKeepsInv(s, i);
        UpdateKeepsInv(s.(pending := RemoveAt(s.pending, i)), i);
      } else if q.alter {
        MarkKeepsInv(s, i, true);
      } else {
        PerformKeepsInv(s, q.pid, q.sops);
        DropKeepsInv(Perform(s, q.pid, q.sops), i);
        UpdateKeepsInv(Perform(s, q.pid, q.sops).(pending := RemoveAt(s.pending, i)), i);
      }
    }
  }

  /** A pass of update_queue takes nothing from any semaphore. */
  lemma {:induction false} UpdateOnlyRaises(s: State, i: nat, x: nat)
    requires Shaped(s) && PendingGood(s) && i <= |s.pending| && x < |s.vals|
    ensures |Update(s, i).s.vals| == |s.vals| && Update(s, i).s.vals[x] >= s.vals[x]
    decreases |s.pending| - i
  {
    if i < |s.pending| {
      var q := s.pending[i];
      var ps := RemoveAt(s.pending, i);
      assert forall j :: 0 <= j < |ps| ==> ps[j] == s.pending[if j < i then j else j + 1];
      if q.woken || Try(s.vals, q.sops) == Block {
        UpdateOnlyRaises(s, i + 1, x);
      } else if Try(s.vals, q.sops) != Done {
        UpdateOnlyRaises(s.(pending := ps), i, x);
      } else if !q.alter {
        RisingChange(q.sops, |q.sops|, x);
        PerformOwed(s, q.pid, q.sops, x);
        PerformOwners(s, q.pid, q.sops);
        UpdateOnlyRaises(Perform(s, q.pid, q.sops).(pending := ps), i, x);
      }
    }
  }

  // ----- the system calls -----

  lemma NewUndoKeepsInv(s: State, pid: nat)
    requires Inv(s) && !HasUndo(s, pid)
    ensures Inv(s.(undos := [Undo(pid, Zeros(|s.vals|))] + s.undos))
    ensures HasUndo(s.(undos := [Undo(pid, Zeros(|s.vals|))] + s.undos), pid)
  {
    var us := [Undo(pid, Zeros(|s.vals|))] + s.undos;
    var s' := s.(undos := us);
    assert us[1..] == s.undos;
    assert forall i :: 0 < i < |us| ==> us[i] == s.undos[i - 1];
    forall x | 0 <= x < |s.vals| ensures Owed(s', x) == Owed(s, x) {}
  }

  lemma UpdateIfKeepsInv(s: State, alters: bool)
    requires Inv(s)
    ensures Inv(UpdateIf(s, alters))
  {
    if alters { UpdateKeepsInv(s, 0); }
  }

  predicate Pending(s: State, pid: nat) {
    FindEntry(s.pending, pid) < |s.pending|
  }

  // A queue of the same entries and one more.
  lemma WidenedInv(s: State, ps: seq<Entry>)
    requires Inv(s) && (forall i, j :: 0 <= i < j < |ps| ==> ps[i].pid != ps[j].pid)
    requires forall i :: 0 <= i < |ps| ==> InSet(ps[i].sops, |s.vals|)
    requires forall i :: 0 <= i < |ps| ==> ps[i].alter == Decreases(ps[i].sops) && (UsesUndo(ps[i].sops) ==> HasUndo(s, ps[i].pid))
    ensures Inv(s.(pending := ps))
  {
    var s' := s.(pending := ps);
    assert forall x :: 0 <= x < |s.vals| ==> Owed(s', x) == Owed(s, x);
  }

  lemma AppendKeepsInv(s: State, q: Entry)
    requires Inv(s) && !Pending(s, q.pid) && InSet(q.sops, |s.vals|)
    requires q.alter == Decreases(q.sops) && (UsesUndo(q.sops) ==> HasUndo(s, q.pid))
    ensures Inv(s.(pending := s.pending + [q]))
  {
    var ps := s.pending + [q];
    assert forall i :: 0 <= i < |s.pending| ==> ps[i] == s.pending[i];
    WidenedInv(s, ps);
  }

  lemma PrependKeepsInv(s: State, q: Entry)
    requires Inv(s) && !Pending(s, q.pid) && InSet(q.sops, |s.vals|)
    requires q.alter == Decreases(q.sops) && (UsesUndo(q.sops) ==> HasUndo(s, q.pid))
    ensures Inv(s.(pending := [q] + s.pending))
  {
    var ps := [q] + s.pending;
    assert forall i :: 0 < i < |ps| ==> ps[i] == s.pending[i - 1];
    WidenedInv(s, ps);
  }

  lemma QueueKeepsInv(s: State, q: Entry, front: bool)
    requires Inv(s) && !Pending(s, q.pid) && InSet(q.sops, |s.vals|)
    requires q.alter == Decreases(q.sops) && (UsesUndo(q.sops) ==> HasUndo(s, q.pid))
    ensures Inv(s.(pending := if front then [q] + s.pending else s.pending + [q]))
  {
    if front {
      PrependKeepsInv(s, q);
    } else {
      AppendKeepsInv(s, q);
    }
  }

  lemma SemopKeepsInv(s: State, pid: nat, sops: seq<Sop>)
    requires Inv(s) && InSet(sops, |s.vals|) && !Pending(s, pid)
    ensures Inv(Semop(s, pid, sops))
  {
    var s1 := s;
    if UsesUndo(sops) && !HasUndo(s, pid) {
      NewUndoKeepsInv(s, pid);
      s1 := s.(undos := [Undo(pid, Zeros(|s.vals|))] + s.undos);
    }
    match Try(s.vals, sops)
    case Done =>
      PerformKeepsInv(s1, pid, sops);
      UpdateIfKeepsInv(Perform(s1, pid, sops), Alters(sops));
    case Block =>
      QueueKeepsInv(s1, Entry(pid, sops, Decreases(sops), false), !Alters(sops));
    case _ =>
      UpdateIfKeepsInv(s1, Alters(sops));
  }

  lemma ResumeKeepsInv(s: State, pid: nat)
    requires Inv(s)
    ensures Inv(Resume(s, pid))
  {
    var k := FindEntry(s.pending, pid);
    if k < |s.pending| {
      var q := s.pending[k];
      var out := s.(pending := RemoveAt(s.pending, k));
      DropKeepsInv(s, k);
      if !q.woken {
        UpdateIfKeepsInv(out, Alters(q.sops));
      } else if Try(s.vals, q.sops) == Block {
        MarkKeepsInv(s, k, false);
      } else if Try(s.vals, q.sops) == Done {
        PerformKeepsInv(out, pid, q.sops);
        UpdateIfKeepsInv(Perform(out, pid, q.sops), Alters(q.sops));
      } else {
        UpdateIfKeepsInv(out, Alters(q.sops));
      }
    }
  }

  lemma {:induction false} ClearAdjFacts(us: seq<Undo>, x: nat, n: nat, y: nat)
    requires x < n && y < n && forall i :: 0 <= i < |us| ==> |us[i].adj| == n
    ensures |ClearAdj(us, x)| == |us|
    ensures forall i :: 0 <= i < |us| ==> |ClearAdj(us, x)[i].adj| == n && ClearAdj(us, x)[i].pid == us[i].pid
    ensures SumAdj(ClearAdj(us, x), y) == if y == x then 0 else SumAdj(us, y)
  {
    if us != [] {
      ClearAdjFacts(us[1..], x, n, y);
      assert ClearAdj(us, x)[1..] == ClearAdj(us[1..], x);
    }
  }

  lemma {:induction false} ClearAllFacts(us: seq<Undo>, n: nat, y: nat)
    requires y < n && forall i :: 0 <= i < |us| ==> |us[i].adj| == n
    ensures forall i :: 0 <= i < |ClearAll(us)| ==> |ClearAll(us)[i].adj| == n
    ensures SumAdj(ClearAll(us), y) == 0
  {
    if us != [] {
      ClearAllFacts(us[1..], n, y);
      assert ClearAll(us)[1..] == ClearAll(us[1..]);
    }
  }

  // Undo structures with the same owners in the same order.
  lemma SameOwners(s: State, s': State)
    requires PendingGood(s) && s'.pending == s.pending && |s'.undos| == |s.undos|
    requires forall i :: 0 <= i < |s.undos| ==> s'.undos[i].pid == s.undos[i].pid
    ensures PendingGood(s')
  {
    forall p | HasUndo(s, p) ensures HasUndo(s', p) {
      assert s'.undos[FindUndo(s.undos, p)].pid == p;
    }
  }

  lemma SetValPrepares(s: State, x: nat, v: int)
    requires Inv(s) && x < |s.vals| && 0 <= v <= SEMVMX
    ensures Inv(s.(vals := s.vals[x := v], undos := ClearAdj(s.undos, x), plain := s.plain[x := v]))
  {
    var s' := s.(vals := s.vals[x := v], undos := ClearAdj(s.undos, x), plain := s.plain[x := v]);
    ClearAdjFacts(s.undos, x, |s.vals|, x);
    forall y | 0 <= y < |s.vals| ensures Owed(s', y) == s'.plain[y] {
      ClearAdjFacts(s.undos, x, |s.vals|, y);
      assert Owed(s, y) == s.plain[y];
    }
    SameOwners(s, s');
  }

  lemma SetValKeepsInv(s: State, x: nat, v: int)
    requires Inv(s) && x < |s.vals| && 0 <= v <= SEMVMX
    ensures Inv(SetVal(s, x, v))
  {
    SetValPrepares(s, x, v);
    UpdateKeepsInv(s.(vals := s.vals[x := v], undos := ClearAdj(s.undos, x), plain := s.plain[x := v]), 0);
  }

  lemma SetAllPrepares(s: State, vs: seq<int>)
    requires Inv(s) && |vs| == |s.vals| && forall x :: 0 <= x < |vs| ==> 0 <= vs[x] <= SEMVMX
    ensures Inv(s.(vals := vs, undos := ClearAll(s.undos), plain := vs))
  {
    var s' := s.(vals := vs, undos := ClearAll(s.undos), plain := vs);
    ClearAllOwners(s.undos);
    forall y | 0 <= y < |s.vals| ensures Owed(s', y) == s'.plain[y] {
      ClearAllFacts(s.undos, |s.vals|, y);
    }
    SameOwners(s, s');
  }

  lemma SetAllKeepsInv(s: State, vs: seq<int>)
    requires Inv(s) && |vs| == |s.vals| && forall x :: 0 <= x < |vs| ==> 0 <= vs[x] <= SEMVMX
    ensures Inv(SetAll(s, vs))
  {
    SetAllPrepares(s, vs);
    UpdateKeepsInv(s.(vals := vs, undos := ClearAll(s.undos), plain := vs), 0);
  }

  lemma {:induction false} ClearAllOwners(us: seq<Undo>)
    ensures |ClearAll(us)| == |us|
    ensures forall i :: 0 <= i < |us| ==> ClearAll(us)[i].pid == us[i].pid && |ClearAll(us)[i].adj| == |us[i].adj|
  {
    if us != [] {
      ClearAllOwners(us[1..]);
    }
  }

  // ----- exit -----

  /** Exit moves the adjustments of the process into the values; the sum of both
      changes only by what the clamp at zero adds. */
  lemma ExitOwed(s: State, u: nat, x: nat)
    requires Shaped(s) && u < |s.undos| && x < |s.vals|
    ensures var adj := s.undos[u].adj;
            var s' := s.(vals := GiveBack(s.vals, adj, |s.vals|), undos := RemoveAt(s.undos, u),
                         plain := Lifted(s.plain, s.vals, adj, |s.vals|));
            && Shaped(s')
            && Owed(s', x) == Owed(s, x) + Clamp(s.vals[x] + adj[x]) - (s.vals[x] + adj[x])
            && (Owed(s', x) == Owed(s, x) <==> s.vals[x] + adj[x] >= 0)
  {
    var us := RemoveAt(s.undos, u);
    assert forall j :: 0 <= j < |us| ==> us[j] == s.undos[if j < u then j else j + 1];
    SumAdjRemove(s.undos, u, x);
  }

  lemma GiveBackKeepsInv(s: State, u: nat)
    requires Inv(s) && u < |s.undos| && !Pending(s, s.undos[u].pid)
    ensures var adj := s.undos[u].adj;
            Inv(s.(vals := GiveBack(s.vals, adj, |s.vals|), undos := RemoveAt(s.undos, u),
                   plain := Lifted(s.plain, s.vals, adj, |s.vals|)))
  {
    var adj := s.undos[u].adj;
    var us := RemoveAt(s.undos, u);
    var s' := s.(vals := GiveBack(s.vals, adj, |s.vals|), undos := us,
                 plain := Lifted(s.plain, s.vals, adj, |s.vals|));
    assert forall j :: 0 <= j < |us| ==> us[j] == s.undos[if j < u then j else j + 1];
    forall x | 0 <= x < |s.vals| ensures Owed(s', x) == s'.plain[x] {
      ExitOwed(s, u, x);
      assert Owed(s, x) == s.plain[x];
    }
    forall i | 0 <= i < |s.pending| && UsesUndo(s.pending[i].sops) ensures HasUndo(s', s.pending[i].pid) {
      var p := s.pending[i].pid;
      var k := FindUndo(s.undos, p);
      assert s.undos[k].pid == p && k != u;
      assert us[if k < u then k else k - 1].pid == p;
    }
  }

  // The first part of exit: the process leaves the queue.
  function OffQueue(s: State, pid: nat): State {
    var k := FindEntry(s.pending, pid);
    if k < |s.pending| then s.(pending := RemoveAt(s.pending, k)) else s
  }

  lemma OffQueueKeepsInv(s: State, pid: nat)
    requires Inv(s)
    ensures Inv(OffQueue(s, pid)) && !Pending(OffQueue(s, pid), pid)
  {
    var k := FindEntry(s.pending, pid);
    if k < |s.pending| {
      DropKeepsInv(s, k);
      var rest := RemoveAt(s.pending, k);
      assert forall j :: 0 <= j < |rest| ==> rest[j] == s.pending[if j < k then j else j + 1];
    }
  }

  // The rest of it: the adjustments go back and the queue is looked at again.
  lemma GiveBackUpdates(s: State, u: nat)
    requires Inv(s) && u < |s.undos| && !Pending(s, s.undos[u].pid)
    ensures var adj := s.undos[u].adj;
            var s' := s.(vals := GiveBack(s.vals, adj, |s.vals|), undos := RemoveAt(s.undos, u),
                         plain := Lifted(s.plain, s.vals, adj, |s.vals|));
            Fits(s') && Inv(Update(s', 0).s)
  {
    var adj := s.undos[u].adj;
    GiveBackKeepsInv(s, u);
    UpdateKeepsInv(s.(vals := GiveBack(s.vals, adj, |s.vals|), undos := RemoveAt(s.undos, u),
                      plain := Lifted(s.plain, s.vals, adj, |s.vals|)), 0);
  }

  lemma ExitKeepsInv(s: State, pid: nat)
    requires Inv(s)
    ensures Inv(Exit(s, pid))
  {
    OffQueueKeepsInv(s, pid);
    var u := FindUndo(s.undos, pid);
    if u < |s.undos| {
      GiveBackUpdates(OffQueue(s, pid), u);
    }
  }

  // ----- runs -----

  datatype Action =
    | DoSemop(pid: nat, sops: seq<Sop>)
    | RunAgain(pid: nat)
    | DoSetVal(num: nat, val: int)
    | DoSetAll(all: seq<int>)
    | DoExit(pid: nat)

  // Calls that fail their checks, or that a sleeping process cannot make, change nothing.
  ghost function Apply(s: State, a: Action): State
    requires Inv(s)
  {
    match a
    case DoSemop(pid, sops) => if InSet(sops, |s.vals|) && sops != [] && !Pending(s, pid) then Semop(s, pid, sops) else s
    case RunAgain(pid) => Resume(s, pid)
    case DoSetVal(x, v) => if x < |s.vals| && 0 <= v <= SEMVMX then SetVal(s, x, v) else s
    case DoSetAll(vs) =>
      if |vs| == |s.vals| && forall x :: 0 <= x < |vs| ==> 0 <= vs[x] <= SEMVMX then SetAll(s, vs) else s
    case DoExit(pid) => Exit(s, pid)
  }

  lemma ApplyKeepsInv(s: State, a: Action)
    requires Inv(s)
    ensures Inv(Apply(s, a))
  {
    match a
    case DoSemop(pid, sops) => if InSet(sops, |s.vals|) && !Pending(s, pid) { SemopKeepsInv(s, pid, sops); }
    case RunAgain(pid) => ResumeKeepsInv(s, pid);
    case DoSetVal(x, v) => if x < |s.vals| && 0 <= v <= SEMVMX { SetValKeepsInv(s, x, v); }
    case DoSetAll(vs) =>
      if |vs| == |s.vals| && forall x :: 0 <= x < |vs| ==> 0 <= vs[x] <= SEMVMX { SetAllKeepsInv(s, vs); }
    case DoExit(pid) => ExitKeepsInv(s, pid);
  }

  ghost function Execute(s: State, run: seq<Action>): (r: State)
    requires Inv(s)
    ensures Inv(r)
    decreases |run|
  {
    ApplyKeepsInvAll(s);
    if run == [] then s else Execute(Apply(s, run[0]), run[1..])
  }

  lemma ApplyKeepsInvAll(s: State)
    requires Inv(s)
    ensures forall a :: Inv(Apply(s, a))
  {
    forall a ensures Inv(Apply(s, a)) { ApplyKeepsInv(s, a); }
  }

  // newary: all values zero, nothing pending, nothing to undo.
  function NewSet(n: nat): State {
    State(Zeros(n), [], [], Zeros(n))
  }

  /** In every reachable state: values are never negative, and once every process
      with adjustments has exited, each value is what the settings, the operations
      without SEM_UNDO and the clamp made of it -- nothing of the others remains. */
  lemma ReachableBalanced(n: nat, run: seq<Action>)
    ensures Inv(NewSet(n))
    ensures var s := Execute(NewSet(n), run);
            NonNegative(s) && Balanced(s) && (s.undos == [] ==> s.vals == s.plain)
  {
    var s := Execute(NewSet(n), run);
    assert forall x :: 0 <= x < |s.vals| ==> Owed(s, x) == s.plain[x];
  }
}

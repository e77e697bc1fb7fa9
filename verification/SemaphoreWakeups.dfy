/**
  Who is woken: the sleepers are looked at whenever a value may have changed, the
  first one that can go on does, and when a wake-up is lost all the same.
 */
module SemaphoreWakeups {
  import opened Semaphores
  import opened SemaphoreProofs
  import opened SemaphorePass

  // Each operation of the vector, at its turn, finds the value it needs.
  ghost predicate Accepts(vals: seq<int>, sops: seq<Sop>) {
    InSet(sops, |vals|) && FineUpTo(vals, sops, |sops|)
  }

  // Entry k is the first sleeper, of those not woken yet, whose vector is accepted.
  ghost predicate NextUp(vals: seq<int>, ps: seq<Entry>, k: nat) {
    && k < |ps| && !ps[k].woken && Accepts(vals, ps[k].sops)
    && forall j :: 0 <= j < k && !ps[j].woken ==> !Accepts(vals, ps[j].sops)
  }

  // ----- one pass -----

  lemma NobodyPerformed(s: State, es: seq<Entry>, fates: seq<Fate>, k: nat)
    requires |fates| == |es| && k <= |es| && forall j :: 0 <= j < k ==> fates[j] != Performs
    ensures AtTurn(s, es, fates, k) == s
  {
    NoMeeting(es[..k], fates[..k], Performs);
  }

  lemma {:induction false} NoMeeting(es: seq<Entry>, fates: seq<Fate>, f: Fate)
    requires |fates| == |es| && forall j :: 0 <= j < |es| ==> fates[j] != f
    ensures Meeting(es, fates, f) == []
    decreases |es|
  {
    if es != [] {
      NoMeeting(es[1..], fates[1..], f);
    }
  }

  // Whoever comes before the first that can go on stays or fails.
  lemma {:induction false} BeforeNext(s: State, es: seq<Entry>, fates: seq<Fate>, k: nat, n: nat)
    requires AllFated(s, es, fates) && NextUp(s.vals, es, k) && n <= k
    ensures forall j :: 0 <= j < n ==> fates[j] == Stays || fates[j] == Fails
    decreases n
  {
    if n > 0 {
      BeforeNext(s, es, fates, k, n - 1);
      NobodyPerformed(s, es, fates, n - 1);
      assert Fated(s, es, fates, n - 1);
      TryExact(s.vals, es[n - 1].sops);
    }
  }

  /** The first sleeper that can go on is woken to try again, or, when it decreases
      nothing, performed at once. */
  lemma FirstServed(s: State, es: seq<Entry>, fates: seq<Fate>, k: nat)
    requires AllFated(s, es, fates) && NextUp(s.vals, es, k)
    ensures fates[k] == if es[k].alter then Wakes else Performs
  {
    BeforeNext(s, es, fates, k, k);
    NobodyPerformed(s, es, fates, k);
    assert Fated(s, es, fates, k);
    TryExact(s.vals, es[k].sops);
    assert Wakes !in fates[..k];
  }

  // s' is what one pass over the sleepers makes of s.
  ghost predicate LookedAt(s: State, s': State, fates: seq<Fate>) {
    && AllFated(s, s.pending, fates)
    && s' == PerformAll(s, Meeting(s.pending, fates, Performs)).(pending := Left(s.pending, fates))
  }

  // The sleepers `ps` were looked at when the values were `vals`.
  ghost predicate Looked(vals: seq<int>, ps: seq<Entry>, s': State) {
    exists s, fates :: LookedAt(s, s', fates) && s.vals == vals && s.pending == ps
  }

  lemma UpdateLooks(s: State) returns (fates: seq<Fate>)
    requires Fits(s)
    ensures LookedAt(s, Update(s, 0).s, fates) && Looked(s.vals, s.pending, Update(s, 0).s)
  {
    fates := UpdatePerforms(s, 0);
    assert s.pending[0..] == s.pending && s.pending[..0] + Left(s.pending, fates) == Left(s.pending, fates);
    assert LookedAt(s, Update(s, 0).s, fates);
  }

  // ----- what is left of the queue -----

  // Entry k of es is still there: as it was, or marked.
  predicate StillThere(es: seq<Entry>, fates: seq<Fate>, k: nat, e: Entry)
    requires |fates| == |es| && k < |es|
  {
    (fates[k] == Stays && e == es[k]) || (fates[k] == Wakes && e == es[k].(woken := true))
  }

  lemma {:induction false} LeftFrom(es: seq<Entry>, fates: seq<Fate>, e: Entry) returns (k: nat)
    requires |fates| == |es| && e in Left(es, fates)
    ensures k < |es| && StillThere(es, fates, k, e)
    decreases |es|
  {
    if es != [] && StillThere(es, fates, 0, e) {
      k := 0;
    } else {
      k := LeftFrom(es[1..], fates[1..], e);
      k := k + 1;
    }
  }

  lemma {:induction false} LeftHas(es: seq<Entry>, fates: seq<Fate>, k: nat, e: Entry)
    requires |fates| == |es| && k < |es| && StillThere(es, fates, k, e)
    ensures e in Left(es, fates)
    decreases |es|
  {
    if k > 0 {
      LeftHas(es[1..], fates[1..], k - 1, e);
    }
  }

  // The pass that led to s' woke sleeper k to try again, or performed its vector and took
  // it off the queue.
  ghost predicate Served(vals: seq<int>, ps: seq<Entry>, k: nat, s': State)
    requires k < |ps|
  {
    exists s, fates :: && LookedAt(s, s', fates) && s.vals == vals && s.pending == ps && |fates| == |ps|
                       && if ps[k].alter then fates[k] == Wakes && ps[k].(woken := true) in s'.pending
                          else fates[k] == Performs && forall e :: e in s'.pending ==> e.pid != ps[k].pid
  }

  ghost predicate DistinctPids(ps: seq<Entry>) {
    forall i, j :: 0 <= i < j < |ps| ==> ps[i].pid != ps[j].pid
  }

  /** Whenever the sleepers are looked at, the first one that can go on does. */
  lemma LookedServes(vals: seq<int>, ps: seq<Entry>, s': State, k: nat)
    requires Looked(vals, ps, s') && NextUp(vals, ps, k) && DistinctPids(ps)
    ensures Served(vals, ps, k, s')
  {
    var s, fates :| LookedAt(s, s', fates) && s.vals == vals && s.pending == ps;
    FirstServed(s, ps, fates, k);
    if ps[k].alter {
      LeftHas(ps, fates, k, ps[k].(woken := true));
    } else {
      forall e | e in s'.pending ensures e.pid != ps[k].pid {
        var j := LeftFrom(ps, fates, e);
      }
    }
  }

  // ----- what each call does -----

  // The values after a vector, semaphore by semaphore.
  ghost predicate ValuesAfter(vals: seq<int>, sops: seq<Sop>, vals': seq<int>) {
    |vals'| == |vals| && forall x :: 0 <= x < |vals| ==> vals'[x] == vals[x] + Change(sops, |sops|, x)
  }

  // The sleepers are looked at when the vector alters something, and only then.
  ghost predicate LookedIf(alters: bool, vals: seq<int>, ps: seq<Entry>, s': State) {
    if alters then Looked(vals, ps, s') else s'.vals == vals && s'.pending == ps
  }

  lemma UpdateIfLooks(s: State, alters: bool)
    requires Fits(s)
    ensures LookedIf(alters, s.vals, s.pending, UpdateIf(s, alters))
  {
    if alters {
      var fates := UpdateLooks(s);
    }
  }

  // What a vector comes to that is tried on `vals` with `ps` asleep.
  ghost predicate Tried(vals: seq<int>, ps: seq<Entry>, sops: seq<Sop>, s': State) {
    if Accepts(vals, sops) then exists after :: ValuesAfter(vals, sops, after) && LookedIf(Alters(sops), after, ps, s')
    else LookedIf(Alters(sops), vals, ps, s')
  }

  // The vector has to wait: an operation that may wait finds too little, or not zero.
  ghost predicate MustWait(vals: seq<int>, sops: seq<Sop>)
    requires InSet(sops, |vals|)
  {
    exists j :: 0 <= j < |sops| && FineUpTo(vals, sops, j) && BlocksAt(vals, sops, j) && !sops[j].nowait
  }

  lemma PerformTried(s: State, pid: nat, sops: seq<Sop>)
    requires Fits(s) && Accepts(s.vals, sops)
    ensures Fits(Perform(s, pid, sops)) && Tried(s.vals, s.pending, sops, UpdateIf(Perform(s, pid, sops), Alters(sops)))
  {
    var s1 := Perform(s, pid, sops);
    UpdateIfLooks(s1, Alters(sops));
    assert ValuesAfter(s.vals, sops, s1.vals);
  }

  ghost predicate SemopDid(s: State, pid: nat, sops: seq<Sop>, s': State)
    requires InSet(sops, |s.vals|)
  {
    var q := Entry(pid, sops, Decreases(sops), false);
    if MustWait(s.vals, sops)
    then s'.vals == s.vals && s'.pending == if Alters(sops) then s.pending + [q] else [q] + s.pending
    else Tried(s.vals, s.pending, sops, s')
  }

  /** semop: the vector takes effect and the sleepers are looked at, or the caller joins
      them, or nothing happens but the look. */
  lemma SemopOutcome(s: State, pid: nat, sops: seq<Sop>)
    requires Fits(s) && InSet(sops, |s.vals|)
    ensures SemopDid(s, pid, sops, Semop(s, pid, sops))
  {
    var s1 := if UsesUndo(sops) && FindUndo(s.undos, pid) == |s.undos|
              then s.(undos := [Undo(pid, Zeros(|s.vals|))] + s.undos) else s;
    TryExact(s.vals, sops);
    if Accepts(s.vals, sops) {
      PerformTried(s1, pid, sops);
    } else if !MustWait(s.vals, sops) {
      UpdateIfLooks(s1, Alters(sops));
    }
  }

  ghost predicate ResumeDid(s: State, k: nat, s': State)
    requires Fits(s) && k < |s.pending|
  {
    var q, rest := s.pending[k], RemoveAt(s.pending, k);
    if !q.woken then LookedIf(Alters(q.sops), s.vals, rest, s')
    else if MustWait(s.vals, q.sops) then s' == s.(pending := s.pending[k := q.(woken := false)])
    else Tried(s.vals, rest, q.sops, s')
  }

  /** A sleeper that runs again: it was not woken and gives up, or it tries again, and
      sleeps on only if it has to wait; whenever it leaves, the others are looked at. */
  lemma ResumeOutcome(s: State, pid: nat, k: nat)
    requires Inv(s) && k < |s.pending| && s.pending[k].pid == pid
    ensures ResumeDid(s, k, Resume(s, pid))
  {
    assert FindEntry(s.pending, pid) == k;
    var q, out := s.pending[k], s.(pending := RemoveAt(s.pending, k));
    DroppedFits(s, k);
    TryExact(s.vals, q.sops);
    if q.woken && Accepts(s.vals, q.sops) {
      PerformTried(out, pid, q.sops);
    } else if !q.woken || !MustWait(s.vals, q.sops) {
      UpdateIfLooks(out, Alters(q.sops));
    }
  }

  // One value is set and its adjustments are cleared.
  ghost predicate ValueSet(s: State, x: nat, v: int, s1: State) {
    && s1.pending == s.pending
    && |s1.vals| == |s.vals| && (forall y :: 0 <= y < |s.vals| ==> s1.vals[y] == if y == x then v else s.vals[y])
    && |s1.undos| == |s.undos|
    && forall i :: 0 <= i < |s.undos| && x < |s.undos[i].adj| ==>
         s1.undos[i] == Undo(s.undos[i].pid, s.undos[i].adj[x := 0])
  }

  ghost predicate SetValDid(s: State, x: nat, v: int, s': State) {
    exists s1, fates :: LookedAt(s1, s', fates) && ValueSet(s, x, v, s1)
  }

  /** SETVAL: the value arrives, every adjustment of the semaphore is cleared, and the
      sleepers are looked at. */
  lemma SetValOutcome(s: State, x: nat, v: int)
    requires Fits(s) && x < |s.vals| && |s.plain| == |s.vals|
    ensures SetValDid(s, x, v, SetVal(s, x, v))
  {
    var s1 := s.(vals := s.vals[x := v], undos := ClearAdj(s.undos, x), plain := s.plain[x := v]);
    ClearedAdj(s.undos, x);
    var fates := UpdateLooks(s1);
    assert ValueSet(s, x, v, s1);
  }

  lemma {:induction false} ClearedAdj(us: seq<Undo>, x: nat)
    ensures |ClearAdj(us, x)| == |us|
    ensures forall i :: 0 <= i < |us| && x < |us[i].adj| ==> ClearAdj(us, x)[i] == Undo(us[i].pid, us[i].adj[x := 0])
  {
    if us != [] {
      ClearedAdj(us[1..], x);
    }
  }

  // All values are set and all adjustments are cleared.
  ghost predicate ValuesSet(s: State, vs: seq<int>, s1: State) {
    && s1.pending == s.pending && s1.vals == vs && |s1.undos| == |s.undos|
    && (forall i :: 0 <= i < |s.undos| ==> s1.undos[i].pid == s.undos[i].pid && |s1.undos[i].adj| == |s.undos[i].adj|)
    && forall i, y :: 0 <= i < |s.undos| && 0 <= y < |s.undos[i].adj| ==> s1.undos[i].adj[y] == 0
  }

  ghost predicate SetAllDid(s: State, vs: seq<int>, s': State) {
    exists s1, fates :: LookedAt(s1, s', fates) && ValuesSet(s, vs, s1)
  }

  /** SETALL: so do all values, and every adjustment is cleared. */
  lemma SetAllOutcome(s: State, vs: seq<int>)
    requires Fits(s) && |vs| == |s.vals|
    ensures SetAllDid(s, vs, SetAll(s, vs))
  {
    var s1 := s.(vals := vs, undos := ClearAll(s.undos), plain := vs);
    ClearedAll(s.undos);
    var fates := UpdateLooks(s1);
    assert ValuesSet(s, vs, s1);
  }

  lemma {:induction false} ClearedAll(us: seq<Undo>)
    ensures |ClearAll(us)| == |us|
    ensures forall i :: 0 <= i < |us| ==> ClearAll(us)[i] == Undo(us[i].pid, Zeros(|us[i].adj|))
  {
    if us != [] {
      ClearedAll(us[1..]);
    }
  }

  // The values after the adjustments went back.
  ghost predicate GivenBack(vals: seq<int>, adj: seq<int>, vals': seq<int>) {
    && |vals'| == |vals| == |adj|
    && forall x :: 0 <= x < |vals| ==> vals'[x] == if vals[x] + adj[x] < 0 then 0 else vals[x] + adj[x]
  }

  ghost predicate ExitDid(s: State, pid: nat, s': State) {
    var rest := OffQueue(s, pid).pending;
    if forall i :: 0 <= i < |s.undos| ==> s.undos[i].pid != pid then s' == s.(pending := rest)
    else exists u, after :: && 0 <= u < |s.undos| && s.undos[u].pid == pid
                            && GivenBack(s.vals, s.undos[u].adj, after) && Looked(after, rest, s')
  }

  /** Exit: the process leaves the queue, its adjustments go back, and the sleepers are
      looked at exactly when there were any. */
  lemma ExitOutcome(s: State, pid: nat)
    requires Inv(s)
    ensures ExitDid(s, pid, Exit(s, pid)) && forall e :: e in Exit(s, pid).pending ==> e.pid != pid
  {
    var u := FindUndo(s.undos, pid);
    OffQueueKeepsInv(s, pid);
    if u < |s.undos| {
      var adj := s.undos[u].adj;
      var s1 := OffQueue(s, pid).(vals := GiveBack(s.vals, adj, |s.vals|), undos := RemoveAt(s.undos, u),
                                  plain := Lifted(s.plain, s.vals, adj, |s.vals|));
      var fates := UpdateLooks(s1);
      assert Exit(s, pid) == Update(s1, 0).s;
      assert GivenBack(s.vals, s.undos[u].adj, s1.vals) && Looked(s1.vals, OffQueue(s, pid).pending, Exit(s, pid));
      forall e | e in Exit(s, pid).pending ensures e.pid != pid {
        var k := LeftFrom(s1.pending, fates, e);
      }
    }
  }

  // ----- nobody who can go on is overlooked -----

  lemma SameValues(vals: seq<int>, sops: seq<Sop>, a: seq<int>, b: seq<int>)
    requires ValuesAfter(vals, sops, a) && ValuesAfter(vals, sops, b)
    ensures a == b
  {
  }

  lemma TriedServes(vals: seq<int>, ps: seq<Entry>, sops: seq<Sop>, after: seq<int>, k: nat, s': State)
    requires Tried(vals, ps, sops, s') && Accepts(vals, sops) && Alters(sops) && DistinctPids(ps)
    requires ValuesAfter(vals, sops, after) && NextUp(after, ps, k)
    ensures Served(after, ps, k, s')
  {
    var a :| ValuesAfter(vals, sops, a) && LookedIf(true, a, ps, s');
    SameValues(vals, sops, a, after);
    LookedServes(after, ps, s', k);
  }

  /** After a semop that performs an altering vector, the first sleeper whom the new values
      let go on is woken or has been performed. */
  lemma SemopServes(s: State, pid: nat, sops: seq<Sop>, after: seq<int>, k: nat)
    requires Inv(s) && Accepts(s.vals, sops) && Alters(sops)
    requires ValuesAfter(s.vals, sops, after) && NextUp(after, s.pending, k)
    ensures Served(after, s.pending, k, Semop(s, pid, sops))
  {
    SemopOutcome(s, pid, sops);
    TryExact(s.vals, sops);
    TriedServes(s.vals, s.pending, sops, after, k, Semop(s, pid, sops));
  }

  lemma RestDistinct(ps: seq<Entry>, k: nat)
    requires DistinctPids(ps) && k < |ps|
    ensures DistinctPids(RemoveAt(ps, k))
  {
  }

  /** So it is after a sleeper went on, or gave up: among those left. */
  lemma ResumeServes(s: State, pid: nat, i: nat, after: seq<int>, k: nat)
    requires Inv(s) && i < |s.pending| && s.pending[i].pid == pid && Alters(s.pending[i].sops)
    requires var q := s.pending[i];
             if q.woken && Accepts(s.vals, q.sops) then ValuesAfter(s.vals, q.sops, after)
             else after == s.vals && (q.woken ==> !MustWait(s.vals, q.sops))
    requires NextUp(after, RemoveAt(s.pending, i), k)
    ensures Served(after, RemoveAt(s.pending, i), k, Resume(s, pid))
  {
    var q, rest := s.pending[i], RemoveAt(s.pending, i);
    ResumeOutcome(s, pid, i);
    RestDistinct(s.pending, i);
    TryExact(s.vals, q.sops);
    if q.woken && Accepts(s.vals, q.sops) {
      TriedServes(s.vals, rest, q.sops, after, k, Resume(s, pid));
    } else {
      LookedServes(after, rest, Resume(s, pid), k);
    }
  }

  /** And after SETVAL and SETALL. */
  lemma SetServes(s: State, x: nat, v: int, vs: seq<int>, k: nat)
    requires Inv(s) && x < |s.vals| && |vs| == |s.vals|
    ensures NextUp(s.vals[x := v], s.pending, k) ==> Served(s.vals[x := v], s.pending, k, SetVal(s, x, v))
    ensures NextUp(vs, s.pending, k) ==> Served(vs, s.pending, k, SetAll(s, vs))
  {
    if NextUp(s.vals[x := v], s.pending, k) {
      SetValOutcome(s, x, v);
      var s1, fates :| LookedAt(s1, SetVal(s, x, v), fates) && ValueSet(s, x, v, s1);
      assert s1.vals == s.vals[x := v];
      LookedServes(s.vals[x := v], s.pending, SetVal(s, x, v), k);
    }
    if NextUp(vs, s.pending, k) {
      SetAllOutcome(s, vs);
      LookedServes(vs, s.pending, SetAll(s, vs), k);
    }
  }

  /** And after the exit of a process with adjustments. */
  lemma ExitServes(s: State, pid: nat, u: nat, after: seq<int>, k: nat)
    requires Inv(s) && u < |s.undos| && s.undos[u].pid == pid && GivenBack(s.vals, s.undos[u].adj, after)
    requires NextUp(after, OffQueue(s, pid).pending, k)
    ensures Served(after, OffQueue(s, pid).pending, k, Exit(s, pid))
  {
    ExitOutcome(s, pid);
    OffQueueKeepsInv(s, pid);
    var rest := OffQueue(s, pid).pending;
    var w, a :| && 0 <= w < |s.undos| && s.undos[w].pid == pid
                && GivenBack(s.vals, s.undos[w].adj, a) && Looked(a, rest, Exit(s, pid));
    assert w == u && a == after;
    LookedServes(after, rest, Exit(s, pid), k);
  }
}

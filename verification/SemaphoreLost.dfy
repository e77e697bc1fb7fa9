/**
  Lost wake-ups.  The sleepers are looked at in one forward pass, so a vector that is
  performed late in the pass and raises a value comes too late for those before it.
 */
module SemaphoreLost {
  import opened Semaphores
  import opened SemaphoreProofs
  import opened SemaphorePass
  import opened SemaphoreWakeups

  // The vector raises some value and lowers none.
  predicate Raises(sops: seq<Sop>) {
    Alters(sops) && !Decreases(sops)
  }

  // Somebody sleeps who could go on, and nobody who could go on was woken.
  ghost predicate Lost(s: State) {
    && (exists e :: e in s.pending && !e.woken && Accepts(s.vals, e.sops))
    && (forall e :: e in s.pending && e.woken ==> !Accepts(s.vals, e.sops))
  }

  // ----- values along a pass -----

  lemma {:induction false} MeetingSnoc(es: seq<Entry>, fates: seq<Fate>, q: Entry, g: Fate, f: Fate)
    requires |fates| == |es|
    ensures Meeting(es + [q], fates + [g], f) == Meeting(es, fates, f) + (if g == f then [q] else [])
    decreases |es|
  {
    if es == [] {
      assert (es + [q])[1..] == [] && (fates + [g])[1..] == [];
    } else {
      assert (es + [q])[1..] == es[1..] + [q] && (fates + [g])[1..] == fates[1..] + [g];
      MeetingSnoc(es[1..], fates[1..], q, g, f);
    }
  }

  lemma {:induction false} PerformAllSnoc(s: State, done: seq<Entry>, q: Entry)
    ensures PerformAll(s, done + [q]) == Perform(PerformAll(s, done), q.pid, q.sops)
    decreases |done|
  {
    if done == [] {
      assert (done + [q])[1..] == [];
    } else {
      assert (done + [q])[1..] == done[1..] + [q];
      PerformAllSnoc(Perform(s, done[0].pid, done[0].sops), done[1..], q);
    }
  }

  lemma NextTurn(s: State, es: seq<Entry>, fates: seq<Fate>, k: nat)
    requires |fates| == |es| && k < |es|
    ensures AtTurn(s, es, fates, k + 1) == Turn(AtTurn(s, es, fates, k), es[k], fates[k])
  {
    assert es[..k + 1] == es[..k] + [es[k]] && fates[..k + 1] == fates[..k] + [fates[k]];
    MeetingSnoc(es[..k], fates[..k], es[k], fates[k], Performs);
    var done := Meeting(es[..k], fates[..k], Performs);
    if fates[k] == Performs {
      PerformAllSnoc(s, done, es[k]);
    } else {
      assert done + [] == done;
    }
  }

  lemma {:induction false} NoAlterNoChange(sops: seq<Sop>, n: nat, x: nat)
    requires n <= |sops| && !Alters(sops)
    ensures Change(sops, n, x) == 0
  {
    if n > 0 {
      NoAlterNoChange(sops, n - 1, x);
    }
  }

  lemma PerformKeepsValues(s: State, pid: nat, sops: seq<Sop>)
    requires !Alters(sops)
    ensures Perform(s, pid, sops).vals == s.vals
  {
    forall x | 0 <= x < |s.vals| ensures Perform(s, pid, sops).vals[x] == s.vals[x] {
      NoAlterNoChange(sops, |sops|, x);
    }
  }

  // The flag of an entry says whether its vector decreases something.
  ghost predicate Flagged(es: seq<Entry>) {
    forall i :: 0 <= i < |es| ==> es[i].alter == Decreases(es[i].sops)
  }

  // No vector performed from entry j on, up to entry n, raises anything.
  ghost predicate Calm(es: seq<Entry>, fates: seq<Fate>, j: nat, n: nat)
    requires |fates| == |es| && n <= |es|
  {
    forall k :: j <= k < n && fates[k] == Performs ==> !Raises(es[k].sops)
  }

  lemma {:induction false} CalmValues(s: State, es: seq<Entry>, fates: seq<Fate>, j: nat, n: nat)
    requires AllFated(s, es, fates) && Flagged(es) && j <= n <= |es| && Calm(es, fates, j, n)
    ensures AtTurn(s, es, fates, n).vals == AtTurn(s, es, fates, j).vals
    decreases n
  {
    if j < n {
      CalmValues(s, es, fates, j, n - 1);
      NextTurn(s, es, fates, n - 1);
      if fates[n - 1] == Performs {
        OneWoken(s, es, fates);
        PerformKeepsValues(AtTurn(s, es, fates, n - 1), es[n - 1].pid, es[n - 1].sops);
      }
    }
  }

  lemma FinalValues(s: State, s': State, fates: seq<Fate>)
    requires LookedAt(s, s', fates)
    ensures s'.vals == AtTurn(s, s.pending, fates, |s.pending|).vals
  {
    assert s.pending[..|s.pending|] == s.pending && fates[..|fates|] == fates;
  }

  // ----- what a pass loses -----

  // An entry that is woken can go on: nothing is performed after it.
  lemma WokenCanGo(s: State, s': State, fates: seq<Fate>, k: nat)
    requires LookedAt(s, s', fates) && Flagged(s.pending) && k < |fates| && fates[k] == Wakes
    ensures s.pending[k].(woken := true) in s'.pending && Accepts(s'.vals, s.pending[k].sops)
  {
    var es := s.pending;
    OneWoken(s, es, fates);
    CalmValues(s, es, fates, k, |es|);
    FinalValues(s, s', fates);
    assert Fated(s, es, fates, k);
    TryExact(AtTurn(s, es, fates, k).vals, es[k].sops);
    LeftHas(es, fates, k, es[k].(woken := true));
  }

  // Entry j was passed over, could go on at the end, and entry k, performed behind it,
  // raised something.
  ghost predicate PassedOver(s: State, fates: seq<Fate>, vals: seq<int>, j: nat, k: nat) {
    && j < k < |s.pending| == |fates|
    && fates[j] == Stays && !s.pending[j].woken && Accepts(vals, s.pending[j].sops)
    && fates[k] == Performs && Raises(s.pending[k].sops)
  }

  lemma LostBehind(s: State, s': State, fates: seq<Fate>) returns (j: nat, k: nat)
    requires LookedAt(s, s', fates) && Flagged(s.pending) && Lost(s')
    ensures PassedOver(s, fates, s'.vals, j, k)
  {
    var es := s.pending;
    var e :| e in s'.pending && !e.woken && Accepts(s'.vals, e.sops);
    j := LeftFrom(es, fates, e);
    forall i: nat | i < |es| ensures fates[i] != Wakes {
      if fates[i] == Wakes { WokenCanGo(s, s', fates, i); }
    }
    FinalValues(s, s', fates);
    assert Fated(s, es, fates, j);
    TryExact(AtTurn(s, es, fates, j).vals, es[j].sops);
    if Calm(es, fates, j, |es|) {
      CalmValues(s, es, fates, j, |es|);
    }
    k :| j <= k < |es| && fates[k] == Performs && Raises(es[k].sops);
  }

  /** A pass loses a wake-up exactly when it passed over a sleeper that a vector performed
      behind it lets go on, and no one woken can go on. */
  lemma LosesIff(s: State, s': State, fates: seq<Fate>)
    requires LookedAt(s, s', fates) && Flagged(s.pending)
    ensures Lost(s') <==>
            && (exists j: nat, k: nat :: PassedOver(s, fates, s'.vals, j, k))
            && (forall e :: e in s'.pending && e.woken ==> !Accepts(s'.vals, e.sops))
  {
    if Lost(s') {
      var j, k := LostBehind(s, s', fates);
    }
    if j: nat, k: nat :| PassedOver(s, fates, s'.vals, j, k) {
      LeftHas(s.pending, fates, j, s.pending[j]);
    }
  }

  // ----- runs -----

  // Nobody sleeps in a vector that raises something and lowers nothing; only those
  // that lower something are ever told to try again.
  ghost predicate Plain(s: State) {
    forall e :: e in s.pending ==> !Raises(e.sops) && (e.woken ==> e.alter)
  }

  ghost predicate Sure(s: State) {
    Plain(s) && !Lost(s)
  }

  // The step puts nobody to sleep in such a vector, and no process dies in its sleep.
  ghost predicate Careful(s: State, a: Action) {
    && (a.DoSemop? && InSet(a.sops, |s.vals|) && MustWait(s.vals, a.sops) ==> !Raises(a.sops))
    && (a.DoExit? ==> !Pending(s, a.pid))
  }

  lemma LookedSure(s: State, s': State, fates: seq<Fate>)
    requires LookedAt(s, s', fates) && Flagged(s.pending) && Plain(s)
    ensures Sure(s')
  {
    forall e | e in s'.pending ensures !Raises(e.sops) && (e.woken ==> e.alter) {
      var k := LeftFrom(s.pending, fates, e);
      assert Fated(s, s.pending, fates, k) && s.pending[k] in s.pending;
    }
    if Lost(s') {
      var j, k := LostBehind(s, s', fates);
    }
  }

  // Looking at the sleepers of s, or fewer, at whatever values.
  lemma LookSure(s: State, vals: seq<int>, ps: seq<Entry>, s': State)
    requires Inv(s) && Plain(s) && Looked(vals, ps, s') && forall e :: e in ps ==> e in s.pending
    ensures Sure(s')
  {
    var t, fates :| LookedAt(t, s', fates) && t.vals == vals && t.pending == ps;
    assert Flagged(t.pending) by {
      forall i | 0 <= i < |ps| ensures ps[i].alter == Decreases(ps[i].sops) {
        assert ps[i] in s.pending;
      }
    }
    LookedSure(t, s', fates);
  }

  // Without a look: the same values, and some sleeper less that was not woken.
  lemma StillSure(s: State, s': State)
    requires Sure(s) && s'.vals == s.vals
    requires forall e :: e in s'.pending ==> e in s.pending
    requires forall e :: e in s.pending && e.woken ==> e in s'.pending
    ensures Sure(s')
  {
  }

  lemma MustWaitRefuses(vals: seq<int>, sops: seq<Sop>)
    requires InSet(sops, |vals|) && MustWait(vals, sops)
    ensures !Accepts(vals, sops)
  {
    TryExact(vals, sops);
  }

  // A vector that need not wait, tried with `ps` asleep.
  lemma TriedSure(s: State, ps: seq<Entry>, sops: seq<Sop>, s': State)
    requires Inv(s) && Sure(s) && Tried(s.vals, ps, sops, s')
    requires forall e :: e in ps ==> e in s.pending
    requires Alters(sops) || ps == s.pending
    ensures Sure(s')
  {
    if Accepts(s.vals, sops) {
      var after :| ValuesAfter(s.vals, sops, after) && LookedIf(Alters(sops), after, ps, s');
      if Alters(sops) {
        LookSure(s, after, ps, s');
      } else {
        assert after == s.vals by {
          forall x | 0 <= x < |s.vals| ensures after[x] == s.vals[x] {
            NoAlterNoChange(sops, |sops|, x);
          }
        }
        StillSure(s, s');
      }
    } else if Alters(sops) {
      LookSure(s, s.vals, ps, s');
    } else {
      StillSure(s, s');
    }
  }

  lemma JoinSure(s: State, s': State, q: Entry)
    requires Sure(s) && s'.vals == s.vals && (s'.pending == s.pending + [q] || s'.pending == [q] + s.pending)
    requires !q.woken && !Raises(q.sops) && !Accepts(s.vals, q.sops)
    ensures Sure(s')
  {
    assert forall e :: e in s'.pending <==> e == q || e in s.pending;
  }

  lemma SemopSure(s: State, pid: nat, sops: seq<Sop>)
    requires Inv(s) && Sure(s) && InSet(sops, |s.vals|) && (MustWait(s.vals, sops) ==> !Raises(sops))
    ensures Sure(Semop(s, pid, sops))
  {
    SemopOutcome(s, pid, sops);
    if MustWait(s.vals, sops) {
      MustWaitRefuses(s.vals, sops);
      JoinSure(s, Semop(s, pid, sops), Entry(pid, sops, Decreases(sops), false));
    } else {
      TriedSure(s, s.pending, sops, Semop(s, pid, sops));
    }
  }

  // A woken sleeper that has to wait after all.
  lemma AgainSure(s: State, k: nat)
    requires Sure(s) && k < |s.pending| && !Accepts(s.vals, s.pending[k].sops)
    ensures Sure(s.(pending := s.pending[k := s.pending[k].(woken := false)]))
  {
    var q := s.pending[k];
    var ps := s.pending[k := q.(woken := false)];
    assert q in s.pending;
    forall e | e in ps ensures e == q.(woken := false) || e in s.pending {
      var i :| 0 <= i < |ps| && ps[i] == e;
    }
    forall e | e in s.pending ensures e == q || e in ps {
      var i :| 0 <= i < |s.pending| && s.pending[i] == e;
      assert i != k ==> ps[i] == e;
    }
  }

  lemma RestFacts(ps: seq<Entry>, k: nat)
    requires k < |ps|
    ensures forall e :: e in RemoveAt(ps, k) ==> e in ps
    ensures forall e :: e in ps && e != ps[k] ==> e in RemoveAt(ps, k)
  {
    assert ps == ps[..k] + [ps[k]] + ps[k + 1..];
  }

  lemma ResumeSure(s: State, pid: nat)
    requires Inv(s) && Sure(s)
    ensures Sure(Resume(s, pid))
  {
    var k := FindEntry(s.pending, pid);
    if k < |s.pending| {
      var q, rest, s' := s.pending[k], RemoveAt(s.pending, k), Resume(s, pid);
      ResumeOutcome(s, pid, k);
      RestFacts(s.pending, k);
      assert q in s.pending && InSet(q.sops, |s.vals|);
      if !q.woken {
        if Alters(q.sops) { LookSure(s, s.vals, rest, s'); } else { StillSure(s, s'); }
      } else if MustWait(s.vals, q.sops) {
        MustWaitRefuses(s.vals, q.sops);
        AgainSure(s, k);
      } else {
        TriedSure(s, rest, q.sops, s');
      }
    }
  }

  lemma ExitSure(s: State, pid: nat)
    requires Inv(s) && Sure(s) && !Pending(s, pid)
    ensures Sure(Exit(s, pid))
  {
    ExitOutcome(s, pid);
    if exists i :: 0 <= i < |s.undos| && s.undos[i].pid == pid {
      var u, after :| && 0 <= u < |s.undos| && s.undos[u].pid == pid
                      && GivenBack(s.vals, s.undos[u].adj, after) && Looked(after, s.pending, Exit(s, pid));
      LookSure(s, after, s.pending, Exit(s, pid));
    }
  }

  lemma ApplySure(s: State, a: Action)
    requires Inv(s) && Sure(s) && Careful(s, a)
    ensures Sure(Apply(s, a))
  {
    match a
    case DoSemop(pid, sops) => if InSet(sops, |s.vals|) { SemopSure(s, pid, sops); }
    case RunAgain(pid) => ResumeSure(s, pid);
    case DoSetVal(x, v) =>
      if x < |s.vals| {
        SetValOutcome(s, x, v);
        var s1, fates :| LookedAt(s1, SetVal(s, x, v), fates) && ValueSet(s, x, v, s1);
        LookedSure(s1, SetVal(s, x, v), fates);
      }
    case DoSetAll(vs) =>
      if |vs| == |s.vals| {
        SetAllOutcome(s, vs);
        var s1, fates :| LookedAt(s1, SetAll(s, vs), fates) && ValuesSet(s, vs, s1);
        LookedSure(s1, SetAll(s, vs), fates);
      }
    case DoExit(pid) => ExitSure(s, pid);
  }

  ghost predicate AllCareful(s: State, run: seq<Action>)
    requires Inv(s)
    decreases |run|
  {
    ApplyKeepsInvAll(s);
    run != [] ==> Careful(s, run[0]) && AllCareful(Apply(s, run[0]), run[1..])
  }

  lemma {:induction false} ExecuteSure(s: State, run: seq<Action>)
    requires Inv(s) && Sure(s) && AllCareful(s, run)
    ensures Sure(Execute(s, run))
    decreases |run|
  {
    if run != [] {
      ApplyKeepsInv(s, run[0]);
      ApplySure(s, run[0]);
      ExecuteSure(Apply(s, run[0]), run[1..]);
    }
  }

  /** Along runs in which nobody sleeps in a vector that raises something and lowers nothing,
      no wake-up is lost: once everybody who was told to try again has done so, no sleeper
      could go on. */
  lemma ReachableAwake(n: nat, run: seq<Action>, k: nat)
    requires Inv(NewSet(n)) && AllCareful(NewSet(n), run)
    requires k < |Execute(NewSet(n), run).pending|
    ensures var s := Execute(NewSet(n), run);
            Accepts(s.vals, s.pending[k].sops) ==> exists e :: e in s.pending && e.woken && Accepts(s.vals, e.sops)
  {
    ExecuteSure(NewSet(n), run);
    var s := Execute(NewSet(n), run);
    assert s.pending[k] in s.pending;
  }

  /** A single operation never is such a vector: what raises does not have to wait. */
  lemma SingleIsPlain(vals: seq<int>, sops: seq<Sop>)
    requires |sops| == 1 && InSet(sops, |vals|) && vals[sops[0].num] >= 0 && MustWait(vals, sops)
    ensures !Raises(sops)
  {
    assert Change(sops, 0, sops[0].num) == 0;
    assert BlocksAt(vals, sops, 0);
  }

  /** A process that was told to try again and dies first, leaving no adjustments, takes the
      wake-up with it. */
  lemma DyingLoses(s: State, told: Entry, other: Entry)
    requires Inv(s) && s.undos == [] && |s.pending| == 2 && s.pending[0] == told && s.pending[1] == other
    requires told.woken && !other.woken && Accepts(s.vals, other.sops)
    ensures Lost(Exit(s, told.pid))
  {
    ExitOutcome(s, told.pid);
    assert FindEntry(s.pending, told.pid) == 0;
    assert RemoveAt(s.pending, 0) == [other];
    assert other in [other];
  }
}

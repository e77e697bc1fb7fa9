/**
  What one pass of update_queue does, entry by entry.
 */
module SemaphorePass {
  import opened Semaphores

  // What one pass of update_queue does with an entry.
  datatype Fate = Stays | Wakes | Performs | Fails

  // The entries that meet this fate, in queue order.
  function Meeting(es: seq<Entry>, fates: seq<Fate>, f: Fate): seq<Entry>
    requires |fates| == |es|
    decreases |es|
  {
    if es == [] then [] else (if fates[0] == f then [es[0]] else []) + Meeting(es[1..], fates[1..], f)
  }

  // The queue afterwards: an entry that is woken stays, marked.
  function Left(es: seq<Entry>, fates: seq<Fate>): seq<Entry>
    requires |fates| == |es|
    decreases |es|
  {
    if es == [] then []
    else
      var first := if fates[0] == Stays then [es[0]] else if fates[0] == Wakes then [es[0].(woken := true)] else [];
      first + Left(es[1..], fates[1..])
  }

  // The set after performing the vectors in order.
  function PerformAll(s: State, done: seq<Entry>): (r: State)
    ensures |r.vals| == |s.vals| && r.pending == s.pending
    decreases |done|
  {
    if done == [] then s else PerformAll(Perform(s, done[0].pid, done[0].sops), done[1..])
  }

  // The set after one turn.
  function Turn(s: State, q: Entry, f: Fate): (r: State)
    ensures |r.vals| == |s.vals| && r.pending == s.pending
  {
    if f == Performs then Perform(s, q.pid, q.sops) else s
  }

  // The set when it is the turn of entry k: the vectors performed before it took effect.
  function AtTurn(s: State, es: seq<Entry>, fates: seq<Fate>, k: nat): State
    requires |fates| == |es| && k <= |es|
  {
    PerformAll(s, Meeting(es[..k], fates[..k], Performs))
  }

  // The fate of entry k is the one its turn calls for.  After an entry that would
  // decrease something has been woken, nothing more is looked at.
  ghost predicate Fated(s: State, es: seq<Entry>, fates: seq<Fate>, k: nat)
    requires |fates| == |es| && k < |es|
  {
    && InSet(es[k].sops, |s.vals|)
    && if es[k].woken || Wakes in fates[..k] then fates[k] == Stays
       else match Try(AtTurn(s, es, fates, k).vals, es[k].sops)
            case Block => fates[k] == Stays
            case Done => fates[k] == if es[k].alter then Wakes else Performs
            case _ => fates[k] == Fails
  }

  ghost predicate AllFated(s: State, es: seq<Entry>, fates: seq<Fate>) {
    |fates| == |es| && forall k: nat {:trigger Fated(s, es, fates, k)} :: k < |es| ==> Fated(s, es, fates, k)
  }

  lemma {:induction false} PerformAllPending(s: State, ps: seq<Entry>, done: seq<Entry>)
    ensures PerformAll(s.(pending := ps), done) == PerformAll(s, done).(pending := ps)
    decreases |done|
  {
    if done != [] {
      var s1 := Perform(s, done[0].pid, done[0].sops);
      assert Perform(s.(pending := ps), done[0].pid, done[0].sops) == s1.(pending := ps);
      PerformAllPending(s1, ps, done[1..]);
    }
  }

  // The turns after the first one, seen from the state that it leaves.
  lemma {:induction false} TurnsShift(s: State, ps: seq<Entry>, q: Entry, f: Fate, es: seq<Entry>, fates: seq<Fate>, k: nat)
    requires |fates| == |es| && k <= |es|
    ensures AtTurn(s, [q] + es, [f] + fates, k + 1).vals == AtTurn(Turn(s, q, f).(pending := ps), es, fates, k).vals
  {
    assert ([q] + es)[..k + 1] == [q] + es[..k] && ([f] + fates)[..k + 1] == [f] + fates[..k];
    assert ([q] + es[..k])[1..] == es[..k] && ([f] + fates[..k])[1..] == fates[..k];
    var rest := Meeting(es[..k], fates[..k], Performs);
    PerformAllCons(s, q, f, rest);
    PerformAllPending(Turn(s, q, f), ps, rest);
  }

  lemma {:induction false} FatedShift(s: State, ps: seq<Entry>, q: Entry, f: Fate, es: seq<Entry>, fates: seq<Fate>, k: nat)
    requires |fates| == |es| && k < |es| && f != Wakes && Fated(Turn(s, q, f).(pending := ps), es, fates, k)
    ensures Fated(s, [q] + es, [f] + fates, k + 1)
  {
    TurnsShift(s, ps, q, f, es, fates, k);
    assert ([f] + fates)[..k + 1] == [f] + fates[..k];
    assert ([q] + es)[k + 1] == es[k] && ([f] + fates)[k + 1] == fates[k];
  }

  lemma {:induction false} FatedCons(s: State, ps: seq<Entry>, q: Entry, f: Fate, es: seq<Entry>, fates: seq<Fate>)
    requires AllFated(Turn(s, q, f).(pending := ps), es, fates) && f != Wakes
    requires Fated(s, [q] + es, [f] + fates, 0)
    ensures AllFated(s, [q] + es, [f] + fates)
  {
    var qs, fs := [q] + es, [f] + fates;
    forall k: nat {:trigger Fated(s, qs, fs, k)} | k < |qs| ensures Fated(s, qs, fs, k) {
      if k > 0 {
        assert Fated(Turn(s, q, f).(pending := ps), es, fates, k - 1);
        FatedShift(s, ps, q, f, es, fates, k - 1);
      }
    }
  }

  // The first turn finds the set as it is.
  lemma {:induction false} FirstTurn(s: State, q: Entry, f: Fate, es: seq<Entry>, fates: seq<Fate>)
    requires |fates| == |es| && InSet(q.sops, |s.vals|)
    ensures Fated(s, [q] + es, [f] + fates, 0) <==>
            if q.woken then f == Stays
            else match Try(s.vals, q.sops)
                 case Block => f == Stays
                 case Done => f == if q.alter then Wakes else Performs
                 case _ => f == Fails
  {
    assert ([q] + es)[..0] == [] && ([f] + fates)[..0] == [];
  }

  function AllStay(n: nat): (r: seq<Fate>)
    ensures |r| == n && forall k :: 0 <= k < n ==> r[k] == Stays
  {
    if n == 0 then [] else [Stays] + AllStay(n - 1)
  }

  lemma {:induction false} StayLeft(es: seq<Entry>, f: Fate)
    requires f == Performs || f == Fails
    ensures Left(es, AllStay(|es|)) == es && Meeting(es, AllStay(|es|), f) == []
  {
    if es != [] {
      StayLeft(es[1..], f);
      assert AllStay(|es|)[1..] == AllStay(|es| - 1);
    }
  }

  // The pass ends with the entry it wakes.
  lemma {:induction false} WakeEnds(s: State, q: Entry, es: seq<Entry>)
    requires !q.woken && q.alter && InSet(q.sops, |s.vals|) && Try(s.vals, q.sops) == Done
    requires forall k :: 0 <= k < |es| ==> InSet(es[k].sops, |s.vals|)
    ensures AllFated(s, [q] + es, [Wakes] + AllStay(|es|))
    ensures Left([q] + es, [Wakes] + AllStay(|es|)) == [q.(woken := true)] + es
    ensures Meeting([q] + es, [Wakes] + AllStay(|es|), Performs) == []
    ensures Meeting([q] + es, [Wakes] + AllStay(|es|), Fails) == []
  {
    var qs, fs := [q] + es, [Wakes] + AllStay(|es|);
    FirstTurn(s, q, Wakes, es, AllStay(|es|));
    forall k: nat {:trigger Fated(s, qs, fs, k)} | k < |qs| ensures Fated(s, qs, fs, k) {
      if k > 0 {
        AfterWake(s, q, es, k);
      }
    }
    assert qs[1..] == es && fs[1..] == AllStay(|es|);
    StayLeft(es, Performs);
    StayLeft(es, Fails);
  }

  lemma {:induction false} AfterWake(s: State, q: Entry, es: seq<Entry>, k: nat)
    requires 0 < k <= |es| && InSet(es[k - 1].sops, |s.vals|)
    ensures Fated(s, [q] + es, [Wakes] + AllStay(|es|), k)
  {
    var qs, fs := [q] + es, [Wakes] + AllStay(|es|);
    assert qs[k] == es[k - 1] && fs[k] == Stays;
    assert fs[..k][0] == Wakes;
  }

  // What a pass amounts to: each entry meets its fate, and the set is the old one after
  // the vectors that are performed, values, adjustments and all, with the queue left.
  ghost predicate Passed(s: State, i: nat, r: Updated, fates: seq<Fate>)
    requires i <= |s.pending|
  {
    var es := s.pending[i..];
    && AllFated(s, es, fates)
    && r.done == Meeting(es, fates, Performs) && r.failed == Meeting(es, fates, Fails)
    && r.s == PerformAll(s, r.done).(pending := s.pending[..i] + Left(es, fates))
  }

  lemma {:induction false} SamePending(x: State, ps: seq<Entry>)
    ensures x.(pending := ps).(pending := x.pending) == x
  {
  }

  lemma {:induction false} PerformAllCons(s: State, q: Entry, f: Fate, done: seq<Entry>)
    ensures PerformAll(s, (if f == Performs then [q] else []) + done) == PerformAll(Turn(s, q, f), done)
  {
    if f == Performs {
      assert ([q] + done)[1..] == done;
    } else {
      assert [] + done == done;
    }
  }

  lemma {:induction false} PassedState(s: State, ps: seq<Entry>, q: Entry, f: Fate, done: seq<Entry>)
    ensures PerformAll(s, (if f == Performs then [q] else []) + done)
         == PerformAll(Turn(s, q, f).(pending := ps), done).(pending := s.pending)
  {
    PerformAllCons(s, q, f, done);
    PerformAllPending(Turn(s, q, f), ps, done);
    SamePending(PerformAll(Turn(s, q, f), done), ps);
  }

  lemma {:induction false} LeftCons(q: Entry, f: Fate, es: seq<Entry>, fates: seq<Fate>)
    requires |fates| == |es| && f != Wakes
    ensures Left([q] + es, [f] + fates) == (if f == Stays then [q] else []) + Left(es, fates)
    ensures forall g :: Meeting([q] + es, [f] + fates, g) == (if f == g then [q] else []) + Meeting(es, fates, g)
  {
    assert ([q] + es)[1..] == es && ([f] + fates)[1..] == fates;
  }

  // The queue around the turn of entry i.
  lemma {:induction false} QueueAround(ps: seq<Entry>, ps1: seq<Entry>, i: nat, stays: bool, left: seq<Entry>)
    requires i < |ps| && ps1 == if stays then ps else RemoveAt(ps, i)
    ensures var at := if stays then i + 1 else i;
            && at <= |ps1| && ps1[at..] == ps[i + 1..] && ps[i..] == [ps[i]] + ps[i + 1..]
            && ps1[..at] + left == ps[..i] + ((if stays then [ps[i]] else []) + left)
  {
  }

  // One entry before a pass.
  lemma {:induction false} PassedCons(s: State, s1: State, i: nat, f: Fate, r1: Updated, fates: seq<Fate>)
    requires Fits(s) && i < |s.pending| && f != Wakes
    requires s1 == Turn(s, s.pending[i], f).(pending := if f == Stays then s.pending else RemoveAt(s.pending, i))
    requires Passed(s1, if f == Stays then i + 1 else i, r1, fates)
    requires |fates| == |s.pending| - i - 1 && Fated(s, [s.pending[i]] + s.pending[i + 1..], [f] + fates, 0)
    ensures var q := s.pending[i];
            var r := Updated(r1.s, (if f == Performs then [q] else []) + r1.done, (if f == Fails then [q] else []) + r1.failed);
            Passed(s, i, r, [f] + fates)
  {
    var q, es := s.pending[i], s.pending[i + 1..];
    QueueAround(s.pending, s1.pending, i, f == Stays, Left(es, fates));
    FatedCons(s, s1.pending, q, f, es, fates);
    LeftCons(q, f, es, fates);
    PassedState(s, s1.pending, q, f, r1.done);
  }

  /** One pass of update_queue: each entry, at its turn, stays, fails, is performed or is
      woken as its vector and the values by then call for; the set afterwards, undo
      adjustments included, is the old one after exactly the vectors performed, in queue
      order; the queue afterwards is the old one without those performed and failed. */
  lemma {:induction false} UpdatePerforms(s: State, i: nat) returns (fates: seq<Fate>)
    requires Fits(s) && i <= |s.pending|
    ensures |fates| == |s.pending| - i && Passed(s, i, Update(s, i), fates)
    decreases |s.pending| - i
  {
    if i == |s.pending| {
      fates := [];
      assert s.pending[..i] + [] == s.pending;
      return;
    }
    var q := s.pending[i];
    if q.woken || Try(s.vals, q.sops) == Block {
      fates := UpdatePerforms(s, i + 1);
      PassStays(s, i, fates);
      fates := [Stays] + fates;
    } else if Try(s.vals, q.sops) == Done && q.alter {
      PassWakes(s, i);
      fates := [Wakes] + AllStay(|s.pending| - i - 1);
    } else {
      DroppedFits(s, i);
      var f := if Try(s.vals, q.sops) == Done then Performs else Fails;
      fates := UpdatePerforms(Turn(s, q, f).(pending := RemoveAt(s.pending, i)), i);
      PassDrops(s, i, f, fates);
      fates := [f] + fates;
    }
  }

  lemma {:induction false} PassStays(s: State, i: nat, fates: seq<Fate>)
    requires Fits(s) && i < |s.pending| && (s.pending[i].woken || Try(s.vals, s.pending[i].sops) == Block)
    requires |fates| == |s.pending| - i - 1 && Passed(s, i + 1, Update(s, i + 1), fates)
    ensures Passed(s, i, Update(s, i), [Stays] + fates)
  {
    FirstTurn(s, s.pending[i], Stays, s.pending[i + 1..], fates);
    PassedCons(s, s, i, Stays, Update(s, i + 1), fates);
    NothingMore(Update(s, i));
  }

  lemma {:induction false} PassDrops(s: State, i: nat, f: Fate, fates: seq<Fate>)
    requires Fits(s) && i < |s.pending| && Fits(s.(pending := RemoveAt(s.pending, i))) && !s.pending[i].woken
    requires var v := Try(s.vals, s.pending[i].sops);
             v != Block && ((f == Performs && v == Done && !s.pending[i].alter) || (f == Fails && v != Done))
    requires var s1 := Turn(s, s.pending[i], f).(pending := RemoveAt(s.pending, i));
             |fates| == |s.pending| - i - 1 && Passed(s1, i, Update(s1, i), fates)
    ensures Passed(s, i, Update(s, i), [f] + fates)
  {
    var q := s.pending[i];
    var s1 := Turn(s, q, f).(pending := RemoveAt(s.pending, i));
    FirstTurn(s, q, f, s.pending[i + 1..], fates);
    PassedCons(s, s1, i, f, Update(s1, i), fates);
    NothingMore(Update(s1, i));
  }

  lemma {:induction false} PassWakes(s: State, i: nat)
    requires Fits(s) && i < |s.pending| && !s.pending[i].woken && s.pending[i].alter
    requires Try(s.vals, s.pending[i].sops) == Done
    ensures Passed(s, i, Update(s, i), [Wakes] + AllStay(|s.pending| - i - 1))
  {
    var q, es := s.pending[i], s.pending[i + 1..];
    assert s.pending[i..] == [q] + es;
    assert forall k :: 0 <= k < |es| ==> es[k] == s.pending[i + 1 + k];
    WakeEnds(s, q, es);
    MarkedHere(s.pending, i, q.(woken := true));
    assert PerformAll(s, []) == s;
  }

  lemma MarkedHere(ps: seq<Entry>, i: nat, q: Entry)
    requires i < |ps|
    ensures ps[..i] + ([q] + ps[i + 1..]) == ps[i := q]
  {
  }

  lemma NothingMore(r: Updated)
    ensures [] + r.done == r.done && [] + r.failed == r.failed && Updated(r.s, r.done, r.failed) == r
  {
  }

  lemma DroppedFits(s: State, i: nat)
    requires Fits(s) && i < |s.pending|
    ensures Fits(s.(pending := RemoveAt(s.pending, i)))
  {
    var ps := RemoveAt(s.pending, i);
    assert forall j :: 0 <= j < |ps| ==> ps[j] == s.pending[if j < i then j else j + 1];
  }

  /** At most one entry is woken, and none that is performed decreases anything. */
  lemma {:induction false} OneWoken(s: State, es: seq<Entry>, fates: seq<Fate>)
    requires AllFated(s, es, fates)
    ensures forall j, k :: 0 <= j < k < |es| && fates[j] == Wakes ==> fates[k] == Stays
    ensures forall k :: 0 <= k < |es| && fates[k] == Performs ==> !es[k].alter
  {
    forall j, k | 0 <= j < k < |es| && fates[j] == Wakes ensures fates[k] == Stays {
      assert Fated(s, es, fates, k);
      assert fates[..k][j] == Wakes;
    }
    forall k | 0 <= k < |es| && fates[k] == Performs ensures !es[k].alter {
      assert Fated(s, es, fates, k);
    }
  }
}

/**
  Process ids: get_pid with its cached gap [last_pid, next_safe), and the calls
  that change which ids are in use.
 */
module Pids {
  const PID_MAX := 0x8000
  const FIRST_PID := 300

  datatype Task = Task(pid: nat, pgrp: nat, session: nat, leader: bool)

  // The task list leaves out the idle task, whose ids are all 0.
  datatype State = State(last: nat, safe: nat, tasks: seq<Task>)

  predicate Has(t: Task, x: nat) {
    t.pid == x || t.pgrp == x || t.session == x
  }

  ghost predicate Used(ts: seq<Task>, x: nat) {
    exists i :: 0 <= i < |ts| && Has(ts[i], x)
  }

  ghost predicate Free(ts: seq<Task>, x: nat) {
    !Used(ts, x)
  }

  // ----- the scan -----

  // The pid tried after p.
  function Next(p: nat): nat {
    if p + 1 >= PID_MAX then FIRST_PID else p + 1
  }

  // f is tried at some point when the search starts at p.
  predicate Ahead(p: nat, f: nat) {
    p < PID_MAX && f < PID_MAX && (p <= f || FIRST_PID <= f)
  }

  function Distance(p: nat, f: nat): nat
    requires Ahead(p, f)
  {
    if p <= f then f - p else PID_MAX - p + (f - FIRST_PID)
  }

  function Lower(safe: nat, last: nat, x: nat): nat {
    if x > last && safe > x then x else safe
  }

  // next_safe after a task that does not hold `last`.
  function Lowered(t: Task, last: nat, safe: nat): nat {
    Lower(Lower(Lower(safe, last, t.pid), last, t.pgrp), last, t.session)
  }

  // next_safe after a task that holds `last`.
  function Restarted(last: nat, safe: nat): nat {
    if last + 1 >= safe then PID_MAX else safe
  }

  // last_pid after a task that holds it.
  function Bumped(last: nat, safe: nat): nat {
    if last + 1 >= safe then Next(last) else last + 1
  }

  datatype Cursor = Cursor(last: nat, safe: nat, i: nat)

  // One turn of the restarting loop over the tasks; it is over at the end of the list.
  function Turn(ts: seq<Task>, c: Cursor): Cursor {
    if c.i >= |ts| then c
    else if Has(ts[c.i], c.last) then Cursor(Bumped(c.last, c.safe), Restarted(c.last, c.safe), 0)
    else Cursor(c.last, Lowered(ts[c.i], c.last, c.safe), c.i + 1)
  }

  function Turns(ts: seq<Task>, c: Cursor, n: nat): Cursor
    decreases n
  {
    if n == 0 then c else Turns(ts, Turn(ts, c), n - 1)
  }

  // The scan from p is over after n turns.
  predicate Over(ts: seq<Task>, p: nat, n: nat) {
    Turns(ts, Cursor(p, PID_MAX, 0), n).i >= |ts|
  }

  ghost predicate Ends(ts: seq<Task>, p: nat) {
    exists n: nat :: Over(ts, p, n)
  }

  // ----- get_pid -----

  // The scan is skipped when the next pid lies inside the known gap.
  predicate InGap(s: State) {
    s.last + 1 < PID_MAX && s.last + 1 < s.safe
  }

  ghost function GetPid(s: State): State
    requires InGap(s) || Ends(s.tasks, Next(s.last))
  {
    if InGap(s) then s.(last := s.last + 1)
    else
      var n: nat :| Over(s.tasks, Next(s.last), n);
      var c := Turns(s.tasks, Cursor(Next(s.last), PID_MAX, 0), n);
      s.(last := c.last, safe := c.safe)
  }

  // ----- the gap -----

  // No id in use lies strictly between last_pid and next_safe.
  ghost predicate Gap(s: State) {
    && s.last < s.safe <= PID_MAX
    && forall i, x: nat {:trigger Has(s.tasks[i], x)} :: 0 <= i < |s.tasks| && Has(s.tasks[i], x) ==> !(s.last < x < s.safe)
  }

  // The tasks before i neither hold `last` nor an id inside the gap.
  ghost predicate Clear(ts: seq<Task>, last: nat, safe: nat, i: nat) {
    i <= |ts| && forall j, x: nat {:trigger Has(ts[j], x)} :: 0 <= j < i && Has(ts[j], x) ==> x < last || safe <= x
  }

  // x is tried before r in a search from p.
  predicate Before(p: nat, r: nat, x: nat) {
    if p <= r then p <= x < r else p <= x < PID_MAX || FIRST_PID <= x < r
  }

  ghost predicate AllUsed(ts: seq<Task>, p: nat, r: nat) {
    forall x: nat :: Before(p, r, x) ==> Used(ts, x)
  }

  lemma BumpedIsNext(last: nat, safe: nat)
    requires last < safe <= PID_MAX
    ensures Bumped(last, safe) == Next(last) && Bumped(last, safe) < Restarted(last, safe) <= PID_MAX
  {
  }

  lemma LoweredClear(ts: seq<Task>, last: nat, safe: nat, i: nat)
    requires i < |ts| && Clear(ts, last, safe, i) && !Has(ts[i], last) && last < safe
    ensures last < Lowered(ts[i], last, safe) <= safe && Clear(ts, last, Lowered(ts[i], last, safe), i + 1)
  {
  }

  // A search from p has come to c: everything tried before was in use.
  ghost predicate Searching(ts: seq<Task>, p: nat, c: Cursor) {
    && Clear(ts, c.last, c.safe, c.i) && c.last < c.safe <= PID_MAX
    && Ahead(p, c.last) && AllUsed(ts, p, c.last)
  }

  lemma NextUsed(ts: seq<Task>, p: nat, r: nat)
    requires Ahead(p, r) && AllUsed(ts, p, r) && Used(ts, r)
    ensures AllUsed(ts, p, Next(r)) && Ahead(p, Next(r))
  {
    forall x: nat | Before(p, Next(r), x) ensures Used(ts, x) {
      if x != r {
        assert Before(p, r, x);
      }
    }
  }

  lemma TurnKeeps(ts: seq<Task>, p: nat, c: Cursor)
    requires Searching(ts, p, c)
    ensures Searching(ts, p, Turn(ts, c))
  {
    if c.i < |ts| {
      if Has(ts[c.i], c.last) {
        BumpedIsNext(c.last, c.safe);
        NextUsed(ts, p, c.last);
      } else {
        LoweredClear(ts, c.last, c.safe, c.i);
      }
    }
  }

  lemma {:induction false} TurnsKeep(ts: seq<Task>, p: nat, c: Cursor, n: nat)
    requires Searching(ts, p, c)
    ensures Searching(ts, p, Turns(ts, c, n))
    decreases n
  {
    if n > 0 {
      TurnKeeps(ts, p, c);
      TurnsKeep(ts, p, Turn(ts, c), n - 1);
    }
  }

  // The search ended at r: the first free pid, with a gap above it.
  ghost predicate Found(ts: seq<Task>, p: nat, r: nat, safe: nat) {
    && r < safe <= PID_MAX && Clear(ts, r, safe, |ts|)
    && Ahead(p, r) && Free(ts, r) && AllUsed(ts, p, r)
  }

  lemma SearchOver(ts: seq<Task>, p: nat, c: Cursor)
    requires Searching(ts, p, c) && c.i == |ts|
    ensures Found(ts, p, c.last, c.safe)
  {
  }

  /** The scan ends at the first free pid in search order, and next_safe bounds a gap above it. */
  lemma ScanFinds(ts: seq<Task>, p: nat, n: nat)
    requires p < PID_MAX && Over(ts, p, n)
    ensures var c := Turns(ts, Cursor(p, PID_MAX, 0), n); Found(ts, p, c.last, c.safe)
  {
    TurnsKeep(ts, p, Cursor(p, PID_MAX, 0), n);
    SearchOver(ts, p, Turns(ts, Cursor(p, PID_MAX, 0), n));
  }

  // A turn of the search gets closer to any free pid ahead.
  lemma TurnCloser(ts: seq<Task>, c: Cursor, f: nat)
    requires c.last < c.safe <= PID_MAX && Ahead(c.last, f) && Free(ts, f) && c.i < |ts|
    ensures var c' := Turn(ts, c);
            && c'.last < c'.safe <= PID_MAX && c'.i <= |ts| && Ahead(c'.last, f)
            && if Has(ts[c.i], c.last) then Distance(c'.last, f) < Distance(c.last, f)
               else c'.last == c.last && c'.i == c.i + 1
  {
    if Has(ts[c.i], c.last) {
      assert Used(ts, c.last);
      BumpedIsNext(c.last, c.safe);
    }
  }

  lemma {:induction false} FreeEnds(ts: seq<Task>, c: Cursor, f: nat) returns (n: nat)
    requires c.last < c.safe <= PID_MAX && Ahead(c.last, f) && Free(ts, f) && c.i <= |ts|
    ensures Turns(ts, c, n).i >= |ts|
    decreases Distance(c.last, f), |ts| - c.i
  {
    if c.i == |ts| {
      n := 0;
    } else {
      TurnCloser(ts, c, f);
      n := FreeEnds(ts, Turn(ts, c), f);
      n := n + 1;
    }
  }

  /** The scan ends exactly when some pid that it tries is free. */
  lemma ScanEndsIff(ts: seq<Task>, p: nat)
    requires p < PID_MAX
    ensures Ends(ts, p) <==> exists f :: Ahead(p, f) && Free(ts, f)
  {
    if Ends(ts, p) {
      var n: nat :| Over(ts, p, n);
      ScanFinds(ts, p, n);
    }
    if f :| Ahead(p, f) && Free(ts, f) {
      var n := FreeEnds(ts, Cursor(p, PID_MAX, 0), f);
      assert Over(ts, p, n);
    }
  }

  lemma {:induction false} TurnsAdd(ts: seq<Task>, c: Cursor, n: nat, m: nat)
    ensures Turns(ts, c, n + m) == Turns(ts, Turns(ts, c, n), m)
    decreases n
  {
    if n > 0 {
      TurnsAdd(ts, Turn(ts, c), n - 1, m);
    }
  }

  lemma {:induction false} TurnsOver(ts: seq<Task>, c: Cursor, n: nat)
    requires c.i >= |ts|
    ensures Turns(ts, c, n) == c
    decreases n
  {
    if n > 0 {
      TurnsOver(ts, c, n - 1);
    }
  }

  // Whenever it is looked at, a scan that is over has come to the same end.
  lemma OneEnd(ts: seq<Task>, p: nat, n: nat, m: nat)
    requires Over(ts, p, n) && Over(ts, p, m)
    ensures Turns(ts, Cursor(p, PID_MAX, 0), n) == Turns(ts, Cursor(p, PID_MAX, 0), m)
  {
    var c := Cursor(p, PID_MAX, 0);
    if n <= m {
      TurnsAdd(ts, c, n, m - n);
      TurnsOver(ts, Turns(ts, c, n), m - n);
    } else {
      TurnsAdd(ts, c, m, n - m);
      TurnsOver(ts, Turns(ts, c, m), n - m);
    }
  }

  // ----- get_pid -----

  ghost predicate Enabled(s: State) {
    InGap(s) || Ends(s.tasks, Next(s.last))
  }

  // The counters stay in range.
  predicate InRange(s: State) {
    s.last < s.safe <= PID_MAX
  }

  // However often the finished scan is looked at, get_pid takes over its end.
  lemma GetPidIs(s: State, n: nat)
    requires !InGap(s) && Over(s.tasks, Next(s.last), n)
    ensures var c := Turns(s.tasks, Cursor(Next(s.last), PID_MAX, 0), n);
            Enabled(s) && GetPid(s) == s.(last := c.last, safe := c.safe)
  {
    forall m: nat | Over(s.tasks, Next(s.last), m)
      ensures Turns(s.tasks, Cursor(Next(s.last), PID_MAX, 0), m) == Turns(s.tasks, Cursor(Next(s.last), PID_MAX, 0), n)
    {
      OneEnd(s.tasks, Next(s.last), n, m);
    }
  }

  /** A scan finds the first unused pid in search order and restores the gap, whatever
      the counters were before. */
  lemma ScanFresh(s: State)
    requires InRange(s) && !InGap(s) && Enabled(s)
    ensures var s' := GetPid(s);
            && s'.tasks == s.tasks && Gap(s') && 1 <= s'.last < PID_MAX
            && Free(s.tasks, s'.last) && AllUsed(s.tasks, Next(s.last), s'.last)
  {
    var n: nat :| Over(s.tasks, Next(s.last), n);
    GetPidIs(s, n);
    ScanFinds(s.tasks, Next(s.last), n);
  }

  /** The pid returned is in range and nobody's pid, process group or session, with
      or without a scan; it is the first such pid in search order. */
  lemma GetPidFresh(s: State)
    requires Gap(s) && Enabled(s)
    ensures var s' := GetPid(s);
            && s'.tasks == s.tasks && Gap(s') && 1 <= s'.last < PID_MAX
            && Free(s.tasks, s'.last) && AllUsed(s.tasks, Next(s.last), s'.last)
  {
    if !InGap(s) {
      ScanFresh(s);
    }
  }
}

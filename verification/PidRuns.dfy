/**
  Runs of fork, exit, setpgid and setsid.  A fork takes its ids in one step and enters
  the task list in a later one: in between it can sleep.  Then the allocator as it is
  updated in place.
 */
module PidRuns {
  import opened Pids

  // ----- the calls -----

  // `pending` are the forks that have their ids but are not in the task list.
  datatype System = System(s: State, pending: seq<Task>)

  // A parent past the end of the list is the idle task.  `permitted` stands for
  // setpgid's checks of who may change whom.
  datatype Action =
    | Fork(parent: nat, clonePid: bool)
    | Link(k: nat)
    | Abandon(k: nat)
    | Exit(i: nat)
    | SetPgid(current: nat, i: nat, pgid: nat, permitted: bool)
    | SetSid(i: nat)

  function TaskAt(ts: seq<Task>, i: nat): Task {
    if i < |ts| then ts[i] else Task(0, 0, 0, false)
  }

  function Without(ts: seq<Task>, i: nat): seq<Task>
    requires i < |ts|
  {
    ts[..i] + ts[i + 1..]
  }

  // The child copies the ids of its parent and then gets its pid.  CLONE_PID is
  // for tasks with pid 0 only.
  ghost function StartFork(r: System, parent: nat, clonePid: bool): System {
    var p := TaskAt(r.s.tasks, parent);
    if clonePid then
      if p.pid == 0 then r.(pending := r.pending + [Task(0, p.pgrp, p.session, false)]) else r
    else if Enabled(r.s) then
      var s' := GetPid(r.s);
      System(s', r.pending + [Task(s'.last, p.pgrp, p.session, false)])
    else r
  }

  // SET_LINKS puts the child at the end of the list.
  function LinkTask(r: System, k: nat): System
    requires k < |r.pending|
  {
    System(r.s.(tasks := r.s.tasks + [r.pending[k]]), Without(r.pending, k))
  }

  // The process group exists in the session of the caller.
  ghost predicate GroupInSession(ts: seq<Task>, pgid: nat, session: nat) {
    exists j :: 0 <= j < |ts| && ts[j].pgrp == pgid && ts[j].session == session
  }

  ghost predicate MaySetPgid(ts: seq<Task>, current: nat, i: nat, pgid: nat) {
    && i < |ts| && !ts[i].leader
    && (pgid == ts[i].pid || GroupInSession(ts, pgid, TaskAt(ts, current).session))
  }

  ghost predicate MaySetSid(ts: seq<Task>, i: nat) {
    i < |ts| && forall j :: 0 <= j < |ts| ==> ts[j].pgrp != ts[i].pid
  }

  function WithTask(s: State, i: nat, t: Task): State
    requires i < |s.tasks|
  {
    s.(tasks := s.tasks[i := t])
  }

  // A pgid of 0 means the task's own pid.
  ghost function Apply(r: System, a: Action): System {
    match a
    case Fork(parent, clonePid) => StartFork(r, parent, clonePid)
    case Link(k) => if k < |r.pending| then LinkTask(r, k) else r
    case Abandon(k) => if k < |r.pending| then r.(pending := Without(r.pending, k)) else r
    case Exit(i) => if i < |r.s.tasks| then r.(s := r.s.(tasks := Without(r.s.tasks, i))) else r
    case SetPgid(current, i, pgid, permitted) =>
      var g := if pgid == 0 then TaskAt(r.s.tasks, i).pid else pgid;
      if permitted && MaySetPgid(r.s.tasks, current, i, g) then r.(s := WithTask(r.s, i, r.s.tasks[i].(pgrp := g)))
      else r
    case SetSid(i) =>
      if MaySetSid(r.s.tasks, i) then
        var pid := r.s.tasks[i].pid;
        r.(s := WithTask(r.s, i, Task(pid, pid, pid, true)))
      else r
  }

  ghost function Execute(r: System, run: seq<Action>): System
    decreases |run|
  {
    if run == [] then r else Apply(Execute(r, run[..|run| - 1]), run[|run| - 1])
  }

  // Boot: only the idle task.
  const INIT := System(State(0, PID_MAX, []), [])

  // ----- the gap, with the forks under way -----

  // x is an id of a task or of a fork under way.
  ghost predicate Taken(r: System, x: nat) {
    Used(r.s.tasks, x) || Used(r.pending, x)
  }

  // No id taken lies strictly between last_pid and next_safe.
  ghost predicate WideGap(r: System) {
    InRange(r.s) && forall x: nat {:trigger Taken(r, x)} :: Taken(r, x) ==> !(r.s.last < x < r.s.safe)
  }

  lemma UsedHere(ts: seq<Task>, i: nat, x: nat)
    requires i < |ts| && Has(ts[i], x)
    ensures Used(ts, x)
  {
  }

  lemma WideGapIsGap(r: System)
    requires WideGap(r)
    ensures Gap(r.s)
  {
    forall i, x: nat {:trigger Has(r.s.tasks[i], x)} | 0 <= i < |r.s.tasks| && Has(r.s.tasks[i], x)
      ensures !(r.s.last < x < r.s.safe)
    {
      assert Taken(r, x);
    }
  }

  // Every id taken afterwards, other than 0, was taken before.
  ghost predicate FewerIds(r: System, r': System) {
    forall x: nat {:trigger Taken(r', x)} :: Taken(r', x) && x != 0 ==> Taken(r, x)
  }

  lemma FewerKeepGap(r: System, r': System)
    requires WideGap(r) && FewerIds(r, r') && r'.s.last == r.s.last && r'.s.safe == r.s.safe
    ensures WideGap(r')
  {
    forall x: nat {:trigger Taken(r', x)} | Taken(r', x) ensures !(r'.s.last < x < r'.s.safe) {
      assert x != 0 ==> Taken(r, x);
    }
  }

  lemma UsedSnoc(ts: seq<Task>, t: Task, x: nat)
    ensures Used(ts + [t], x) <==> Used(ts, x) || Has(t, x)
  {
    var ts' := ts + [t];
    if Used(ts, x) {
      var i :| 0 <= i < |ts| && Has(ts[i], x);
      UsedHere(ts', i, x);
    }
    if Has(t, x) {
      UsedHere(ts', |ts|, x);
    }
  }

  lemma UsedWithout(ts: seq<Task>, k: nat, x: nat)
    requires k < |ts| && Used(Without(ts, k), x)
    ensures Used(ts, x)
  {
    var ts' := Without(ts, k);
    var i: nat :| i < |ts'| && Has(ts'[i], x);
    UsedHere(ts, if i < k then i else i + 1, x);
  }

  lemma UsedReplaced(ts: seq<Task>, i: nat, t: Task, x: nat)
    requires i < |ts| && Used(ts[i := t], x)
    ensures Used(ts, x) || Has(t, x)
  {
    var j: nat :| j < |ts| && Has(ts[i := t][j], x);
    if j != i {
      UsedHere(ts, j, x);
    }
  }

  // The ids that a child copies are its parent's.
  lemma CopiedIds(ts: seq<Task>, parent: nat, x: nat)
    requires x == TaskAt(ts, parent).pgrp || x == TaskAt(ts, parent).session
    ensures x == 0 || Used(ts, x)
  {
    if parent < |ts| {
      UsedHere(ts, parent, x);
    }
  }

  // ----- linking -----

  /** Entering a child in the task list keeps the gap free of ids exactly when none of
      the child's ids lies in the gap as it is by then. */
  lemma LinkKeepsGapIff(r: System, k: nat)
    requires Gap(r.s) && k < |r.pending|
    ensures Gap(LinkTask(r, k).s) <==> forall x: nat :: Has(r.pending[k], x) ==> !(r.s.last < x < r.s.safe)
  {
    var ts, t := r.s.tasks, r.pending[k];
    var ts' := ts + [t];
    assert forall i :: 0 <= i < |ts| ==> ts'[i] == ts[i];
    assert ts'[|ts|] == t;
  }

  // ----- forking -----

  // The pid and the gap that get_pid arrives at miss no fork under way.
  ghost predicate Harmless(r: System, a: Action) {
    a.Fork? && !a.clonePid && Enabled(r.s) ==>
      forall x: nat :: Used(r.pending, x) ==> !(GetPid(r.s).last <= x < GetPid(r.s).safe)
  }

  /** With the gap free of ids before, a fork gets a pid that is not taken and leaves the
      gap free of ids exactly when get_pid misses no fork under way. */
  lemma ForkFreshIff(r: System, parent: nat)
    requires WideGap(r) && Enabled(r.s)
    ensures var r' := StartFork(r, parent, false);
            && Gap(r'.s) && !Used(r.s.tasks, r'.s.last)
            && (WideGap(r') && !Taken(r, r'.s.last) <==> Harmless(r, Fork(parent, false)))
  {
    var s', p := GetPid(r.s), TaskAt(r.s.tasks, parent);
    var t := Task(s'.last, p.pgrp, p.session, false);
    var r' := StartFork(r, parent, false);
    WideGapIsGap(r);
    GetPidFresh(r.s);
    forall x: nat ensures Used(r'.pending, x) <==> Used(r.pending, x) || Has(t, x) {
      UsedSnoc(r.pending, t, x);
    }
    if Harmless(r, Fork(parent, false)) {
      forall x: nat {:trigger Taken(r', x)} | Taken(r', x) ensures !(r'.s.last < x < r'.s.safe) {
        TakenAfterFork(r, parent, x);
      }
    } else {
      var x: nat :| Used(r.pending, x) && s'.last <= x < s'.safe;
      assert Taken(r, x) && Taken(r', x);
    }
  }

  // Ids inside the new gap can only come from forks under way.
  lemma TakenAfterFork(r: System, parent: nat, x: nat)
    requires WideGap(r) && Enabled(r.s) && Taken(StartFork(r, parent, false), x)
    ensures var s' := GetPid(r.s); s'.last < x < s'.safe ==> Used(r.pending, x)
  {
    var s', p := GetPid(r.s), TaskAt(r.s.tasks, parent);
    var t := Task(s'.last, p.pgrp, p.session, false);
    WideGapIsGap(r);
    GetPidFresh(r.s);
    UsedSnoc(r.pending, t, x);
    if s'.last < x < s'.safe && !Used(r.pending, x) {
      if Has(t, x) {
        CopiedIds(r.s.tasks, parent, x);
      }
    }
  }

  // Without a scan no fork under way is missed.
  lemma FastHarmless(r: System, a: Action)
    requires WideGap(r) && (a.Fork? && !a.clonePid ==> InGap(r.s) || r.pending == [])
    ensures Harmless(r, a)
  {
    forall x: nat | Used(r.pending, x) ensures !(r.s.last < x < r.s.safe) {
      assert Taken(r, x);
    }
  }

  // ----- every step -----

  lemma CloneKeepsGap(r: System, parent: nat)
    requires WideGap(r)
    ensures WideGap(StartFork(r, parent, true))
  {
    var p := TaskAt(r.s.tasks, parent);
    var r' := StartFork(r, parent, true);
    forall x: nat {:trigger Taken(r', x)} | Taken(r', x) && x != 0 ensures Taken(r, x) {
      if p.pid == 0 {
        UsedSnoc(r.pending, Task(0, p.pgrp, p.session, false), x);
        if x == p.pgrp || x == p.session {
          CopiedIds(r.s.tasks, parent, x);
        }
      }
    }
    FewerKeepGap(r, r');
  }

  lemma LinkKeepsGap(r: System, k: nat)
    requires WideGap(r) && k < |r.pending|
    ensures WideGap(LinkTask(r, k)) && WideGap(r.(pending := Without(r.pending, k)))
  {
    var r', r'' := LinkTask(r, k), r.(pending := Without(r.pending, k));
    forall x: nat | Used(Without(r.pending, k), x) ensures Used(r.pending, x) {
      UsedWithout(r.pending, k, x);
    }
    forall x: nat {:trigger Taken(r', x)} | Taken(r', x) ensures Taken(r, x) {
      UsedSnoc(r.s.tasks, r.pending[k], x);
      if Has(r.pending[k], x) {
        UsedHere(r.pending, k, x);
      }
    }
    FewerKeepGap(r, r');
    FewerKeepGap(r, r'');
  }

  lemma ExitKeepsGap(r: System, i: nat)
    requires WideGap(r) && i < |r.s.tasks|
    ensures WideGap(r.(s := r.s.(tasks := Without(r.s.tasks, i))))
  {
    var r' := r.(s := r.s.(tasks := Without(r.s.tasks, i)));
    forall x: nat {:trigger Taken(r', x)} | Taken(r', x) ensures Taken(r, x) {
      if Used(r'.s.tasks, x) {
        UsedWithout(r.s.tasks, i, x);
      }
    }
    FewerKeepGap(r, r');
  }

  // Replacing a task by one with ids already in use.
  lemma ReplaceKeepsGap(r: System, i: nat, t: Task)
    requires WideGap(r) && i < |r.s.tasks| && forall x: nat :: Has(t, x) ==> Used(r.s.tasks, x)
    ensures WideGap(r.(s := WithTask(r.s, i, t)))
  {
    var r' := r.(s := WithTask(r.s, i, t));
    forall x: nat {:trigger Taken(r', x)} | Taken(r', x) ensures Taken(r, x) {
      if Used(r'.s.tasks, x) {
        UsedReplaced(r.s.tasks, i, t, x);
      }
    }
    FewerKeepGap(r, r');
  }

  lemma SetPgidKeepsGap(r: System, current: nat, i: nat, g: nat)
    requires WideGap(r) && MaySetPgid(r.s.tasks, current, i, g)
    ensures WideGap(r.(s := WithTask(r.s, i, r.s.tasks[i].(pgrp := g))))
  {
    var t := r.s.tasks[i].(pgrp := g);
    forall x: nat | Has(t, x) ensures Used(r.s.tasks, x) {
      if x == g && g != r.s.tasks[i].pid {
        var j: nat :| j < |r.s.tasks| && r.s.tasks[j].pgrp == g;
        UsedHere(r.s.tasks, j, x);
      } else {
        UsedHere(r.s.tasks, i, x);
      }
    }
    ReplaceKeepsGap(r, i, t);
  }

  /** Every step but a scan that misses a fork under way keeps the gap free of ids. */
  lemma ApplyKeepsGap(r: System, a: Action)
    requires WideGap(r) && Harmless(r, a)
    ensures WideGap(Apply(r, a))
  {
    match a
    case Fork(parent, clonePid) =>
      if clonePid {
        CloneKeepsGap(r, parent);
      } else if Enabled(r.s) {
        ForkFreshIff(r, parent);
      }
    case Link(k) =>
      if k < |r.pending| {
        LinkKeepsGap(r, k);
      }
    case Abandon(k) =>
      if k < |r.pending| {
        LinkKeepsGap(r, k);
      }
    case Exit(i) =>
      if i < |r.s.tasks| {
        ExitKeepsGap(r, i);
      }
    case SetPgid(current, i, pgid, permitted) =>
      var g := if pgid == 0 then TaskAt(r.s.tasks, i).pid else pgid;
      if permitted && MaySetPgid(r.s.tasks, current, i, g) {
        SetPgidKeepsGap(r, current, i, g);
      }
    case SetSid(i) =>
      if MaySetSid(r.s.tasks, i) {
        var pid := r.s.tasks[i].pid;
        UsedHere(r.s.tasks, i, pid);
        ReplaceKeepsGap(r, i, Task(pid, pid, pid, true));
      }
  }

  // ----- runs -----

  // No scan of the run misses a fork under way.
  ghost predicate AllHarmless(run: seq<Action>)
    decreases |run|
  {
    run != [] ==>
      AllHarmless(run[..|run| - 1]) && Harmless(Execute(INIT, run[..|run| - 1]), run[|run| - 1])
  }

  // No scan starts while a fork is under way.
  ghost predicate Quiet(run: seq<Action>)
    decreases |run|
  {
    run != [] ==>
      var r, a := Execute(INIT, run[..|run| - 1]), run[|run| - 1];
      Quiet(run[..|run| - 1]) && (a.Fork? && !a.clonePid ==> InGap(r.s) || r.pending == [])
  }

  // No fork starts while another is under way, as if forking were one step.
  ghost predicate Serial(run: seq<Action>)
    decreases |run|
  {
    run != [] ==>
      Serial(run[..|run| - 1]) && (run[|run| - 1].Fork? ==> Execute(INIT, run[..|run| - 1]).pending == [])
  }

  lemma {:induction false} SerialIsQuiet(run: seq<Action>)
    requires Serial(run)
    ensures Quiet(run)
    decreases |run|
  {
    if run != [] {
      SerialIsQuiet(run[..|run| - 1]);
    }
  }

  /** Runs in which no scan starts while a fork is under way are harmless. */
  lemma {:induction false} QuietIsHarmless(run: seq<Action>)
    requires Quiet(run)
    ensures AllHarmless(run)
    decreases |run|
  {
    if run != [] {
      var rest := run[..|run| - 1];
      QuietIsHarmless(rest);
      ReachableGap(rest);
      FastHarmless(Execute(INIT, rest), run[|run| - 1]);
    }
  }

  /** Along every harmless run no id of a task or of a fork under way lies strictly
      between last_pid and next_safe. */
  lemma {:induction false} ReachableGap(run: seq<Action>)
    requires AllHarmless(run)
    ensures WideGap(Execute(INIT, run)) && Gap(Execute(INIT, run).s)
    decreases |run|
  {
    if run != [] {
      ReachableGap(run[..|run| - 1]);
      ApplyKeepsGap(Execute(INIT, run[..|run| - 1]), run[|run| - 1]);
    }
    WideGapIsGap(Execute(INIT, run));
  }

  /** After a harmless run the next pid, scanned for or not, is no task's, and it is no
      fork's under way and leaves the gap free exactly when the step is harmless too. */
  lemma ReachableFresh(run: seq<Action>, parent: nat)
    requires AllHarmless(run) && Enabled(Execute(INIT, run).s)
    ensures var r := Execute(INIT, run); var r' := StartFork(r, parent, false);
            && 1 <= r'.s.last < PID_MAX && Free(r.s.tasks, r'.s.last)
            && (WideGap(r') && !Taken(r, r'.s.last) <==> Harmless(r, Fork(parent, false)))
  {
    ReachableGap(run);
    GetPidFresh(Execute(INIT, run).s);
    ForkFreshIff(Execute(INIT, run), parent);
  }

  /** After a harmless run get_pid ends exactly when some pid that it would try is free. */
  lemma ReachableEnabled(run: seq<Action>)
    requires AllHarmless(run)
    ensures var s := Execute(INIT, run).s;
            Enabled(s) <==> exists f :: Ahead(Next(s.last), f) && Free(s.tasks, f)
  {
    var s := Execute(INIT, run).s;
    ReachableGap(run);
    ScanEndsIff(s.tasks, Next(s.last));
    if InGap(s) {
      assert Free(s.tasks, s.last + 1);
      assert Ahead(Next(s.last), s.last + 1);
    }
  }

  // ----- pids are unique -----

  ghost predicate DistinctPids(ts: seq<Task>) {
    forall i, j :: 0 <= i < j < |ts| ==> ts[i].pid != ts[j].pid || ts[i].pid == 0
  }

  ghost predicate ApartPids(ts: seq<Task>, us: seq<Task>) {
    forall i, j :: 0 <= i < |ts| && 0 <= j < |us| ==> ts[i].pid != us[j].pid || ts[i].pid == 0
  }

  // No two tasks or forks under way share a pid other than 0.
  ghost predicate UniquePids(r: System) {
    DistinctPids(r.s.tasks) && DistinctPids(r.pending) && ApartPids(r.s.tasks, r.pending)
  }

  lemma NewPidUnique(r: System, s': State, t: Task)
    requires UniquePids(r) && s'.tasks == r.s.tasks && (t.pid == 0 || !Taken(r, t.pid))
    ensures UniquePids(System(s', r.pending + [t]))
  {
    forall i | 0 <= i < |r.s.tasks| ensures r.s.tasks[i].pid != t.pid || t.pid == 0 {
      UsedHere(r.s.tasks, i, r.s.tasks[i].pid);
    }
    forall i | 0 <= i < |r.pending| ensures r.pending[i].pid != t.pid || t.pid == 0 {
      UsedHere(r.pending, i, r.pending[i].pid);
    }
  }

  lemma WithoutAt(ts: seq<Task>, k: nat)
    requires k < |ts|
    ensures forall j :: 0 <= j < |ts| - 1 ==> Without(ts, k)[j] == ts[if j < k then j else j + 1]
  {
  }

  lemma LinkUnique(r: System, k: nat)
    requires UniquePids(r) && k < |r.pending|
    ensures UniquePids(LinkTask(r, k)) && UniquePids(r.(pending := Without(r.pending, k)))
  {
    WithoutAt(r.pending, k);
  }

  lemma ApplyUnique(r: System, a: Action)
    requires WideGap(r) && Harmless(r, a) && UniquePids(r)
    ensures UniquePids(Apply(r, a))
  {
    match a
    case Fork(parent, clonePid) =>
      var p := TaskAt(r.s.tasks, parent);
      if clonePid {
        NewPidUnique(r, r.s, Task(0, p.pgrp, p.session, false));
      } else if Enabled(r.s) {
        ForkFreshIff(r, parent);
        var s' := GetPid(r.s);
        NewPidUnique(r, s', Task(s'.last, p.pgrp, p.session, false));
      }
    case Link(k) =>
      if k < |r.pending| {
        LinkUnique(r, k);
      }
    case Abandon(k) =>
      if k < |r.pending| {
        LinkUnique(r, k);
      }
    case Exit(i) =>
      if i < |r.s.tasks| {
        WithoutAt(r.s.tasks, i);
      }
    case SetPgid(current, i, pgid, permitted) =>
    case SetSid(i) =>
  }

  /** Along every harmless run tasks and forks under way have different pids, but for the
      clones of the idle task. */
  lemma {:induction false} ReachableDistinct(run: seq<Action>)
    requires AllHarmless(run)
    ensures UniquePids(Execute(INIT, run))
    decreases |run|
  {
    if run != [] {
      var rest := run[..|run| - 1];
      ReachableDistinct(rest);
      ReachableGap(rest);
      ApplyUnique(Execute(INIT, rest), run[|run| - 1]);
    }
  }

  /** As if forking were one step: gap, freshness and distinct pids over every serial run. */
  lemma SerialRuns(run: seq<Action>)
    requires Serial(run)
    ensures var r := Execute(INIT, run);
            && WideGap(r) && UniquePids(r)
            && (r.pending == [] && Enabled(r.s) ==> !Taken(r, GetPid(r.s).last))
  {
    SerialIsQuiet(run);
    QuietIsHarmless(run);
    ReachableGap(run);
    ReachableDistinct(run);
    var r := Execute(INIT, run);
    if Enabled(r.s) {
      GetPidFresh(r.s);
    }
  }

  // ----- what goes wrong otherwise -----

  // n forks in a row, each linked at once.
  ghost function Forks(s: State, n: nat): State
    requires s.last + n < s.safe <= PID_MAX
    ensures Forks(s, n).last == s.last + n && Forks(s, n).safe == s.safe && s.tasks <= Forks(s, n).tasks
  {
    if n == 0 then s
    else
      var s1 := Forks(s, n - 1);
      var s2 := GetPid(s1);
      s2.(tasks := s2.tasks + [Task(s2.last, 0, 0, false)])
  }

  /** Once an id in use lies in the gap, forking on hands it out: the last of these forks
      gets the pid x, which a task already holds as pid, process group or session. */
  lemma BrokenGapReissues(s: State, x: nat)
    requires s.last < x < s.safe <= PID_MAX && Used(s.tasks, x)
    ensures var s' := Forks(s, x - s.last - 1);
            Enabled(s') && GetPid(s').last == x && Used(s'.tasks, x)
  {
    var s' := Forks(s, x - s.last - 1);
    var i: nat :| i < |s.tasks| && Has(s.tasks[i], x);
    assert s'.tasks[i] == s.tasks[i];
    UsedHere(s'.tasks, i, x);
  }

  lemma {:induction false} ExecuteConcat(r: System, a: seq<Action>, b: seq<Action>)
    ensures Execute(r, a + b) == Execute(Execute(r, a), b)
    decreases |b|
  {
    if b == [] {
      assert a + b == a;
    } else {
      var n := |b| - 1;
      assert (a + b)[..|a + b| - 1] == a + b[..n];
      ExecuteConcat(r, a, b[..n]);
    }
  }

  lemma Execute1(r: System, a: Action)
    ensures Execute(r, [a]) == Apply(r, a)
  {
    assert [a][..0] == [];
    assert Execute(r, []) == r;
  }

  lemma Execute2(r: System, a: Action, b: Action)
    ensures Execute(r, [a, b]) == Apply(Apply(r, a), b)
  {
    Execute1(r, a);
    ExecuteConcat(r, [a], [b]);
    Execute1(Apply(r, a), b);
    assert [a] + [b] == [a, b];
  }

  // The scan passes 500 and finds nothing above 501.
  lemma ScanPast500(ts: seq<Task>)
    requires ts == [Task(500, 500, 500, false), Task(350, 350, 350, false), Task(400, 350, 350, false)]
    ensures var s := State(499, 500, ts); Enabled(s) && GetPid(s) == State(501, PID_MAX, ts)
  {
    var c := Cursor(500, PID_MAX, 0);
    assert Turn(ts, c) == Cursor(501, PID_MAX, 0);
    assert Turns(ts, Cursor(501, PID_MAX, 0), 3) == Cursor(501, PID_MAX, 3) by {
      assert Turns(ts, Cursor(501, PID_MAX, 1), 2) == Cursor(501, PID_MAX, 3);
    }
    assert Turns(ts, c, 4) == Cursor(501, PID_MAX, 3);
    GetPidIs(State(499, 500, ts), 4);
  }

  // Three tasks, of which P alone is in process group 30000.
  function BeforeLeak(): System {
    System(State(498, 500, [Task(500, 500, 500, false), Task(350, 350, 350, false), Task(400, 30000, 350, false)]), [])
  }

  // P has left the group and another task has forked; P's child is still under way.
  function WhileLeaking(): System {
    System(State(501, PID_MAX, [Task(500, 500, 500, false), Task(350, 350, 350, false), Task(400, 350, 350, false)]),
           [Task(499, 30000, 350, false), Task(501, 350, 350, false)])
  }

  lemma LeakStart()
    ensures Execute(BeforeLeak(), [Fork(2, false), SetPgid(1, 2, 350, true)])
         == System(State(499, 500, WhileLeaking().s.tasks), [Task(499, 30000, 350, false)])
  {
    var r := BeforeLeak();
    Execute2(r, Fork(2, false), SetPgid(1, 2, 350, true));
    var r1 := Apply(r, Fork(2, false));
    assert r1 == System(State(499, 500, r.s.tasks), [Task(499, 30000, 350, false)]);
    assert r1.s.tasks[1].pgrp == 350 && r1.s.tasks[1].session == 350;
    assert r1.s.tasks[2 := Task(400, 350, 350, false)] == WhileLeaking().s.tasks;
  }

  lemma LeakGoesOn(r: System)
    requires r == System(State(499, 500, WhileLeaking().s.tasks), [Task(499, 30000, 350, false)])
    ensures Execute(r, [Fork(1, false)]) == WhileLeaking()
  {
    ScanPast500(r.s.tasks);
    Execute1(r, Fork(1, false));
  }

  /** A process group that only a fork under way still holds: the child of P keeps group
      30000 while P leaves it and another fork scans.  Linking the child breaks the gap:
      its process group will be handed out as a pid. */
  lemma LeakedGroup()
    ensures WideGap(BeforeLeak())
    ensures Execute(BeforeLeak(), [Fork(2, false), SetPgid(1, 2, 350, true)] + [Fork(1, false)]) == WhileLeaking()
    ensures var s := LinkTask(WhileLeaking(), 0).s;
            !Gap(s) && s.last < 30000 < s.safe && Used(s.tasks, 30000)
  {
    LeakStart();
    ExecuteConcat(BeforeLeak(), [Fork(2, false), SetPgid(1, 2, 350, true)], [Fork(1, false)]);
    LeakGoesOn(Execute(BeforeLeak(), [Fork(2, false), SetPgid(1, 2, 350, true)]));
    var s := LinkTask(WhileLeaking(), 0).s;
    assert s.tasks[3] == Task(499, 30000, 350, false);
    assert Has(s.tasks[3], 30000);
    UsedHere(s.tasks, 3, 30000);
  }

  // Fork, link and exit again, m times.
  function Churn(k: nat, m: nat): seq<Action> {
    if m == 0 then [] else Churn(k, m - 1) + [Fork(0, false), Link(0)] + [Exit(k)]
  }

  // A fork that is linked at once.
  lemma ForkLink(ts: seq<Task>, last: nat)
    requires ts != [] && last + 1 < PID_MAX
    ensures Execute(System(State(last, PID_MAX, ts), []), [Fork(0, false), Link(0)])
         == System(State(last + 1, PID_MAX, ts + [Task(last + 1, ts[0].pgrp, ts[0].session, false)]), [])
  {
    var r := System(State(last, PID_MAX, ts), []);
    Execute2(r, Fork(0, false), Link(0));
    var t := Task(last + 1, ts[0].pgrp, ts[0].session, false);
    assert Apply(r, Fork(0, false)) == System(State(last + 1, PID_MAX, ts), [t]);
    assert Without([t], 0) == [];
  }

  // Churning moves last_pid on and changes nothing else.
  lemma {:induction false} Churned(ts: seq<Task>, last: nat, m: nat)
    requires ts != [] && last + m < PID_MAX
    ensures Execute(System(State(last, PID_MAX, ts), []), Churn(|ts|, m)) == System(State(last + m, PID_MAX, ts), [])
    decreases m
  {
    var r, k := System(State(last, PID_MAX, ts), []), |ts|;
    if m > 0 {
      Churned(ts, last, m - 1);
      ExecuteConcat(r, Churn(k, m - 1), [Fork(0, false), Link(0)]);
      ForkLink(ts, last + m - 1);
      ExecuteConcat(r, Churn(k, m - 1) + [Fork(0, false), Link(0)], [Exit(k)]);
      var ts' := ts + [Task(last + m, ts[0].pgrp, ts[0].session, false)];
      Execute1(System(State(last + m, PID_MAX, ts'), []), Exit(k));
      assert Without(ts', k) == ts;
    }
  }

  const FIRST := Task(1, 0, 0, false)
  const TOP := Task(32767, 0, 0, false)
  const WRAPPED := Task(300, 0, 0, false)

  // While the owner of 32767 is not linked yet, another fork wraps around.
  lemma WrapMissesTop()
    ensures Execute(System(State(32766, PID_MAX, [FIRST]), []), [Fork(0, false), Fork(0, false)] + [Link(0), Link(0)])
         == System(State(300, PID_MAX, [FIRST, TOP, WRAPPED]), [])
  {
    var r := System(State(32766, PID_MAX, [FIRST]), []);
    Execute2(r, Fork(0, false), Fork(0, false));
    assert Apply(r, Fork(0, false)) == System(State(32767, PID_MAX, [FIRST]), [TOP]);
    assert Turns([FIRST], Cursor(300, PID_MAX, 0), 1) == Cursor(300, PID_MAX, 1);
    GetPidIs(State(32767, PID_MAX, [FIRST]), 1);
    var r2 := System(State(300, PID_MAX, [FIRST]), [TOP, WRAPPED]);
    assert Execute(r, [Fork(0, false), Fork(0, false)]) == r2;
    ExecuteConcat(r, [Fork(0, false), Fork(0, false)], [Link(0), Link(0)]);
    Execute2(r2, Link(0), Link(0));
    assert Without([TOP, WRAPPED], 0) == [WRAPPED] && Without([WRAPPED], 0) == [];
    assert Apply(r2, Link(0)) == System(State(300, PID_MAX, [FIRST, TOP]), [WRAPPED]);
  }

  lemma BootToTop(m: nat) returns (run: seq<Action>)
    requires m == 32765
    ensures Execute(INIT, run) == System(State(32766, PID_MAX, [FIRST]), [])
  {
    Execute2(INIT, Fork(0, false), Link(0));
    assert Apply(INIT, Fork(0, false)) == System(State(1, PID_MAX, []), [FIRST]);
    assert Without([FIRST], 0) == [];
    Churned([FIRST], 1, m);
    ExecuteConcat(INIT, [Fork(0, false), Link(0)], Churn(1, m));
    run := [Fork(0, false), Link(0)] + Churn(1, m);
  }

  // With 32767 in use but above last_pid, the forks that follow come to it again.
  lemma ComesToTop(m: nat) returns (run: seq<Action>)
    requires m == 32466
    ensures Execute(System(State(300, PID_MAX, [FIRST, TOP, WRAPPED]), []), run)
         == System(State(32767, PID_MAX, [FIRST, TOP, WRAPPED, TOP]), [])
  {
    var ts := [FIRST, TOP, WRAPPED];
    var r := System(State(300, PID_MAX, ts), []);
    Churned(ts, 300, m);
    ForkLink(ts, 32766);
    ExecuteConcat(r, Churn(3, m), [Fork(0, false), Link(0)]);
    run := Churn(3, m) + [Fork(0, false), Link(0)];
    assert ts + [TOP] == [FIRST, TOP, WRAPPED, TOP];
  }

  /** A run from boot after which two tasks have the same pid. */
  lemma DuplicatePid() returns (run: seq<Action>)
    ensures !DistinctPids(Execute(INIT, run).s.tasks)
  {
    var boot := BootToTop(32765);
    WrapMissesTop();
    var wrap := [Fork(0, false), Fork(0, false)] + [Link(0), Link(0)];
    ExecuteConcat(INIT, boot, wrap);
    var top := ComesToTop(32466);
    ExecuteConcat(INIT, boot + wrap, top);
    run := boot + wrap + top;
    var end := [FIRST, TOP, WRAPPED, TOP];
    assert end[1].pid == end[3].pid != 0;
  }

  // ----- the allocator -----

  class PidAllocator {
    var lastPid: nat
    var nextSafe: nat
    var tasks: seq<Task>

    function Value(): State
      reads this
    {
      State(lastPid, nextSafe, tasks)
    }

    constructor ()
      ensures Value() == INIT.s
    {
      lastPid, nextSafe, tasks := 0, PID_MAX, [];
    }

    /** get_pid: ends whenever a pid that it would try is free. */
    method Allocate(current: nat, clonePid: bool) returns (pid: nat)
      requires InRange(Value()) && (clonePid || Enabled(Value()))
      modifies `lastPid, `nextSafe
      ensures clonePid ==> Value() == old(Value()) && pid == TaskAt(tasks, current).pid
      ensures !clonePid ==> Value() == GetPid(old(Value())) && pid == lastPid
    {
      if clonePid {
        return TaskAt(tasks, current).pid;
      }
      ghost var s := Value();
      var inside := false;
      lastPid := lastPid + 1;
      if lastPid >= PID_MAX {
        lastPid := FIRST_PID;
        inside := true;
      }
      if inside || lastPid >= nextSafe {
        nextSafe := PID_MAX;
        Search(s);
      }
      return lastPid;
    }

    // The loop body for task i.
    method Visit(i: nat) returns (next: nat)
      requires i < |tasks| && lastPid < nextSafe <= PID_MAX
      modifies `lastPid, `nextSafe
      ensures Cursor(lastPid, nextSafe, next) == Turn(tasks, old(Cursor(lastPid, nextSafe, i)))
    {
      if tasks[i].pid == lastPid || tasks[i].pgrp == lastPid || tasks[i].session == lastPid {
        lastPid := lastPid + 1;
        if lastPid >= nextSafe {
          if lastPid >= PID_MAX {
            lastPid := FIRST_PID;
          }
          nextSafe := PID_MAX;
        }
        next := 0;
      } else {
        if tasks[i].pid > lastPid && nextSafe > tasks[i].pid {
          nextSafe := tasks[i].pid;
        }
        if tasks[i].pgrp > lastPid && nextSafe > tasks[i].pgrp {
          nextSafe := tasks[i].pgrp;
        }
        if tasks[i].session > lastPid && nextSafe > tasks[i].session {
          nextSafe := tasks[i].session;
        }
        next := i + 1;
      }
    }

    // The restarting scan, from last_pid on.
    method Search(ghost s: State)
      requires InRange(s) && !InGap(s) && Enabled(s) && Value() == State(Next(s.last), PID_MAX, s.tasks)
      modifies `lastPid, `nextSafe
      ensures Value() == GetPid(s)
    {
      ghost var p, n := lastPid, 0;
      ScanEndsIff(tasks, p);
      ghost var f :| Ahead(p, f) && Free(tasks, f);
      var i: nat := 0;
      while i < |tasks|
        invariant i <= |tasks| && lastPid < nextSafe <= PID_MAX && Ahead(lastPid, f)
        invariant Turns(tasks, Cursor(p, PID_MAX, 0), n) == Cursor(lastPid, nextSafe, i)
        decreases Distance(lastPid, f), |tasks| - i
      {
        TurnsAdd(tasks, Cursor(p, PID_MAX, 0), n, 1);
        TurnCloser(tasks, Cursor(lastPid, nextSafe, i), f);
        n := n + 1;
        i := Visit(i);
      }
      GetPidIs(s, n);
    }
  }
}

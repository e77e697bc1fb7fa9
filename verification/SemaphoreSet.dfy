/**
  The semaphore set as the kernel keeps it, changed in place.  Every method is
  proved to take the step of Semaphores and so to keep its invariant.
 */
module SemaphoreSet {
  import opened Semaphores
  import opened SemaphoreProofs
  import opened SemaphoreWakeups

  class SemaphoreSet {
    var semval: seq<int>
    var undos: seq<Undo>
    var pending: seq<Entry>
    ghost var plain: seq<int>

    ghost function Value(): State
      reads this
    {
      State(semval, undos, pending, plain)
    }

    constructor (n: nat)
      ensures Value() == NewSet(n) && Inv(Value())
    {
      semval, undos, pending, plain := Zeros(n), [], [], Zeros(n);
      new;
      ReachableBalanced(n, []);
    }

    // The undo loop of try_atomic_semop: take back operations k, k-1, ..., 0.
    method RollBack(sops: seq<Sop>, k: int, adj0: seq<int>, ghost vals: seq<int>, ghost adj: seq<int>)
      returns (adj1: seq<int>)
      requires -1 <= k < |sops| && InSet(sops, |semval|) && |adj0| == |adj| == |vals| == |semval|
      requires forall x :: 0 <= x < |vals| ==> semval[x] == vals[x] + Change(sops, k + 1, x)
      requires forall x :: 0 <= x < |vals| ==> adj0[x] == adj[x] - UndoChange(sops, k + 1, x)
      modifies this`semval
      ensures semval == vals && adj1 == adj
    {
      adj1 := adj0;
      var j := k;
      while j >= 0
        invariant -1 <= j < |sops| && |adj1| == |semval| == |vals|
        invariant forall x :: 0 <= x < |vals| ==> semval[x] == vals[x] + Change(sops, j + 1, x)
        invariant forall x :: 0 <= x < |vals| ==> adj1[x] == adj[x] - UndoChange(sops, j + 1, x)
      {
        var sop := sops[j];
        semval := semval[sop.num := semval[sop.num] - sop.op];
        if sop.undo {
          adj1 := adj1[sop.num := adj1[sop.num] + sop.op];
        }
        j := j - 1;
      }
    }

    // try_atomic_semop on the adjustments `adj0` of the process.  Unless the vector
    // succeeds for good, every value and every adjustment is as before.
    method TryAtomicSemop(sops: seq<Sop>, adj0: seq<int>, doUndo: bool) returns (r: Verdict, adj1: seq<int>)
      requires InSet(sops, |semval|) && |adj0| == |semval|
      modifies this`semval
      ensures r == Try(old(semval), sops)
      ensures if r == Done && !doUndo then semval == Applied(old(semval), sops) && adj1 == Adjusted(adj0, sops)
              else semval == old(semval) && adj1 == adj0
    {
      ghost var vals := semval;
      adj1 := adj0;
      r := Done;
      var k := 0;
      while k < |sops|
        invariant k <= |sops| && |adj1| == |semval| == |vals| && r == Done
        invariant forall x :: 0 <= x < |vals| ==> semval[x] == vals[x] + Change(sops, k, x)
        invariant forall x :: 0 <= x < |vals| ==> adj1[x] == adj0[x] - UndoChange(sops, k, x)
        invariant VerdictFrom(vals, sops, k) == Try(vals, sops)
      {
        var sop := sops[k];
        if sop.op == 0 && semval[sop.num] != 0 {
          r := if sop.nowait then Again else Block;
          break;
        }
        semval := semval[sop.num := semval[sop.num] + sop.op];
        if sop.undo {
          adj1 := adj1[sop.num := adj1[sop.num] - sop.op];
        }
        if semval[sop.num] < 0 {
          r := if sop.nowait then Again else Block;
          break;
        }
        if semval[sop.num] > SEMVMX {
          r := Range;
          break;
        }
        k := k + 1;
      }
      if r == Done && !doUndo {
        assert semval == Applied(vals, sops) && adj1 == Adjusted(adj0, sops);
        return;
      }
      adj1 := RollBack(sops, if r == Done then k - 1 else k, adj1, vals, adj0);
    }

    // Run a vector for a process on its own undo structure.
    method TryFor(pid: nat, sops: seq<Sop>, doUndo: bool) returns (r: Verdict)
      requires Inv(Value()) && InSet(sops, |semval|) && (UsesUndo(sops) ==> HasUndo(Value(), pid))
      modifies this`semval, this`undos, this`plain
      ensures r == Try(old(semval), sops)
      ensures Value() == if r == Done && !doUndo then Perform(old(Value()), pid, sops) else old(Value())
      ensures Inv(Value())
    {
      ghost var s := Value();
      var u := FindUndo(undos, pid);
      var adj := if u < |undos| then undos[u].adj else Zeros(|semval|);
      r, adj := TryAtomicSemop(sops, adj, doUndo);
      if u < |undos| {
        undos := undos[u := Undo(pid, adj)];
      }
      if r == Done && !doUndo {
        plain := Adjusted(Applied(plain, sops), sops);
        PerformKeepsInv(s, pid, sops);
      } else {
        assert undos == s.undos;
      }
    }

    // update_queue: one pass over the pending vectors.
    method UpdateQueue()
      requires Inv(Value())
      modifies this
      ensures Value() == Update(old(Value()), 0).s && Inv(Value())
    {
      ghost var goal := Update(Value(), 0).s;
      UpdateKeepsInv(Value(), 0);
      var i := 0;
      while i < |pending|
        invariant i <= |pending| && Inv(Value()) && Update(Value(), i).s == goal
        decreases |pending| - i
      {
        var q := pending[i];
        if q.woken {
          i := i + 1;
          continue;
        }
        ghost var s := Value();
        var error := TryFor(q.pid, q.sops, q.alter);
        if error == Block {
          i := i + 1;
        } else if error == Done && q.alter {
          pending := pending[i := q.(woken := true)];
          return;
        } else {
          DropKeepsInv(Value(), i);
          pending := pending[..i] + pending[i + 1..];
        }
      }
    }

    // sys_semop up to its return or its sleep.
    method SysSemop(pid: nat, sops: seq<Sop>)
      requires Inv(Value()) && InSet(sops, |semval|) && !Pending(Value(), pid)
      modifies this
      ensures Value() == Semop(old(Value()), pid, sops) && Inv(Value()) && SemopDid(old(Value()), pid, sops, Value())
    {
      SemopOutcome(Value(), pid, sops);
      ghost var s := Value();
      SemopKeepsInv(s, pid, sops);
      var undo, decrease, alter := Scan(sops);
      if undo && FindUndo(undos, pid) == |undos| {
        NewUndoKeepsInv(s, pid);
        undos := [Undo(pid, Zeros(|semval|))] + undos;
      }
      var error := TryFor(pid, sops, false);
      if error == Block {
        var q := Entry(pid, sops, decrease, false);
        pending := if alter then pending + [q] else [q] + pending;
      } else if alter {
        UpdateQueue();
      }
    }

    // The loop of sys_semop that classifies the operations.
    method Scan(sops: seq<Sop>) returns (undo: bool, decrease: bool, alter: bool)
      ensures undo == UsesUndo(sops) && decrease == Decreases(sops) && alter == Alters(sops)
    {
      undo, decrease, alter := false, false, false;
      for k := 0 to |sops|
        invariant undo <==> exists j :: 0 <= j < k && sops[j].undo
        invariant decrease <==> exists j :: 0 <= j < k && sops[j].op < 0
        invariant alter <==> exists j :: 0 <= j < k && sops[j].op > 0
      {
        if sops[k].undo { undo := true; }
        if sops[k].op < 0 { decrease := true; }
        if sops[k].op > 0 { alter := true; }
      }
      alter := alter || decrease;
    }

    // remove_from_queue, then update_queue if the vector alters anything.
    method LeaveQueue(k: nat)
      requires Inv(Value()) && k < |pending|
      modifies this
      ensures Value() == UpdateIf(old(Value()).(pending := RemoveAt(old(pending), k)), Alters(old(pending[k].sops)))
      ensures Inv(Value())
    {
      var undo, decrease, alter := Scan(pending[k].sops);
      DropKeepsInv(Value(), k);
      pending := pending[..k] + pending[k + 1..];
      if alter {
        UpdateQueue();
      }
    }

    // The loop of sys_semop after its sleep.
    method RunAgain(pid: nat)
      requires Inv(Value())
      modifies this
      ensures Value() == Resume(old(Value()), pid) && Inv(Value())
      ensures if Pending(old(Value()), pid) then ResumeDid(old(Value()), FindEntry(old(pending), pid), Value())
              else Value() == old(Value())
    {
      var k := FindEntry(pending, pid);
      if k == |pending| {
        return;
      }
      ResumeOutcome(Value(), pid, k);
      var q := pending[k];
      if q.woken {
        var error := TryFor(pid, q.sops, false);
        if error == Block {
          MarkKeepsInv(Value(), k, false);
          pending := pending[k := q.(woken := false)];
          return;
        }
      }
      LeaveQueue(k);
    }

    // SETVAL in semctl_main.
    method SetValue(num: nat, val: int) returns (ok: bool)
      requires Inv(Value()) && num < |semval|
      modifies this
      ensures ok == (0 <= val <= SEMVMX) && Inv(Value())
      ensures Value() == if ok then SetVal(old(Value()), num, val) else old(Value())
      ensures ok ==> SetValDid(old(Value()), num, val, Value())
    {
      if val > SEMVMX || val < 0 {
        return false;
      }
      SetValKeepsInv(Value(), num, val);
      SetValOutcome(Value(), num, val);
      SetValPrepares(Value(), num, val);
      ClearAdjustments(num);
      semval := semval[num := val];
      plain := plain[num := val];
      UpdateQueue();
      return true;
    }

    // SETVAL forgets what was to be undone on the semaphore.
    method ClearAdjustments(num: nat)
      requires forall i :: 0 <= i < |undos| ==> num < |undos[i].adj|
      modifies this`undos
      ensures undos == ClearAdj(old(undos), num)
    {
      ghost var us := undos;
      ClearedAdj(us, num);
      var i := 0;
      while i < |undos|
        invariant i <= |undos| == |us|
        invariant forall j :: 0 <= j < i ==> undos[j] == ClearAdj(us, num)[j]
        invariant forall j :: i <= j < |us| ==> undos[j] == us[j]
      {
        undos := undos[i := Undo(undos[i].pid, undos[i].adj[num := 0])];
        i := i + 1;
      }
    }

    // SETALL in semctl_main; the values are unsigned.
    method SetValues(vs: seq<int>) returns (ok: bool)
      requires Inv(Value()) && |vs| == |semval| && forall i :: 0 <= i < |vs| ==> vs[i] >= 0
      modifies this
      ensures ok == (forall i :: 0 <= i < |vs| ==> vs[i] <= SEMVMX) && Inv(Value())
      ensures Value() == if ok then SetAll(old(Value()), vs) else old(Value())
      ensures ok ==> SetAllDid(old(Value()), vs, Value())
    {
      for i := 0 to |vs|
        invariant forall j :: 0 <= j < i ==> vs[j] <= SEMVMX
      {
        if vs[i] > SEMVMX {
          return false;
        }
      }
      SetAllKeepsInv(Value(), vs);
      SetAllOutcome(Value(), vs);
      SetAllPrepares(Value(), vs);
      CopyValues(vs);
      ClearAllAdjustments();
      plain := vs;
      UpdateQueue();
      return true;
    }

    method CopyValues(vs: seq<int>)
      requires |vs| == |semval|
      modifies this`semval
      ensures semval == vs
    {
      var i := 0;
      while i < |vs|
        invariant 0 <= i <= |vs| == |semval|
        invariant forall j :: 0 <= j < i ==> semval[j] == vs[j]
      {
        semval := semval[i := vs[i]];
        i := i + 1;
      }
    }

    method ClearAllAdjustments()
      modifies this`undos
      ensures undos == ClearAll(old(undos))
    {
      ghost var us := undos;
      ClearedAll(us);
      var i := 0;
      while i < |undos|
        invariant 0 <= i <= |undos| == |us|
        invariant forall j :: 0 <= j < i ==> undos[j] == ClearAll(us)[j]
        invariant forall j :: i <= j < |us| ==> undos[j] == us[j]
      {
        undos := undos[i := Undo(undos[i].pid, Zeros(|undos[i].adj|))];
        i := i + 1;
      }
    }

    // The first part of sem_exit: a sleeping process leaves the queue.
    method ExitQueue(pid: nat)
      requires Inv(Value())
      modifies this`pending
      ensures var k := FindEntry(old(pending), pid);
              pending == if k < |old(pending)| then RemoveAt(old(pending), k) else old(pending)
      ensures Inv(Value()) && !Pending(Value(), pid)
    {
      var k := FindEntry(pending, pid);
      if k < |pending| {
        ghost var was := pending;
        DropKeepsInv(Value(), k);
        pending := pending[..k] + pending[k + 1..];
        assert forall j :: 0 <= j < |pending| ==> pending[j] == was[if j < k then j else j + 1];
      }
    }

    // sem_exit for this set.
    method SemExit(pid: nat)
      requires Inv(Value())
      modifies this
      ensures Value() == Exit(old(Value()), pid) && Inv(Value()) && ExitDid(old(Value()), pid, Value())
    {
      ExitOutcome(Value(), pid);
      LeaveSet(pid);
    }

    // Leave the queue, give the adjustments back.
    method LeaveSet(pid: nat)
      requires Inv(Value())
      modifies this
      ensures Value() == Exit(old(Value()), pid) && Inv(Value())
    {
      ExitQueue(pid);
      var u := FindUndo(undos, pid);
      if u == |undos| {
        return;
      }
      GiveBackKeepsInv(Value(), u);
      var adj := undos[u].adj;
      plain := Lifted(plain, semval, adj, |semval|);
      undos := undos[..u] + undos[u + 1..];
      AddClamped(adj);
      UpdateQueue();
    }

    // The loop of sem_exit over the semaphores of the set.
    method AddClamped(adj: seq<int>)
      requires |adj| == |semval|
      modifies this`semval
      ensures semval == GiveBack(old(semval), adj, |adj|)
    {
      ghost var vals := semval;
      var i := 0;
      while i < |semval|
        invariant i <= |semval| == |vals|
        invariant forall x :: 0 <= x < i ==> semval[x] == Clamp(vals[x] + adj[x])
        invariant forall x :: i <= x < |semval| ==> semval[x] == vals[x]
      {
        semval := semval[i := semval[i] + adj[i]];
        if semval[i] < 0 {
          semval := semval[i := 0];
        }
        i := i + 1;
      }
    }
  }
}

/**
  Whose adjustments a vector changes, and that exit undoes exactly what the process
  did with SEM_UNDO.
 */
module SemaphoreUndo {
  import opened Semaphores
  import opened SemaphoreProofs
  import opened SemaphoreWakeups

  // Only the record of `pid` changes, by what its operations with SEM_UNDO did.
  ghost predicate Adjusts(s: State, pid: nat, sops: seq<Sop>, s': State) {
    && |s'.undos| == |s.undos|
    && forall i {:trigger s'.undos[i]} :: 0 <= i < |s.undos| ==>
         && s'.undos[i].pid == s.undos[i].pid && |s'.undos[i].adj| == |s.undos[i].adj|
         && forall x {:trigger s'.undos[i].adj[x]} :: 0 <= x < |s.undos[i].adj| ==>
              s'.undos[i].adj[x] == s.undos[i].adj[x] - if s.undos[i].pid == pid then UndoChange(sops, |sops|, x) else 0
  }

  /** A vector changes the adjustments of its own process and of no other. */
  lemma PerformAdjusts(s: State, pid: nat, sops: seq<Sop>)
    requires OneEach(s)
    ensures Adjusts(s, pid, sops, Perform(s, pid, sops))
  {
    var s', u := Perform(s, pid, sops), FindUndo(s.undos, pid);
    forall i | 0 <= i < |s.undos| && i != u ensures s.undos[i].pid != pid {
    }
  }

  // The adjustments of a process, zero when it has none.
  function AdjOf(s: State, pid: nat): seq<int> {
    var u := FindUndo(s.undos, pid);
    if u < |s.undos| then s.undos[u].adj else Zeros(|s.vals|)
  }

  predicate AllUndo(sops: seq<Sop>) {
    forall k :: 0 <= k < |sops| ==> sops[k].undo
  }

  /** What a process did with SEM_UNDO throughout, its exit gives back: the values are those
      from before, as long as nobody else touches the set in between. */
  lemma ExitUndoes(s: State, pid: nat, sops: seq<Sop>)
    requires Inv(s) && HasUndo(s, pid) && AdjOf(s, pid) == Zeros(|s.vals|)
    requires Accepts(s.vals, sops) && AllUndo(sops)
    ensures var s' := Perform(s, pid, sops); GivenBack(s'.vals, AdjOf(s', pid), s.vals)
  {
    var s' := Perform(s, pid, sops);
    PerformAdjusts(s, pid, sops);
    PerformOwners(s, pid, sops);
    var u := FindUndo(s.undos, pid);
    assert FindUndo(s'.undos, pid) == u;
    forall x | 0 <= x < |s.vals| ensures s'.vals[x] + AdjOf(s', pid)[x] == s.vals[x] {
      AllUndoChange(sops, |sops|, x);
      assert s'.undos[u].adj[x] == s.undos[u].adj[x] - UndoChange(sops, |sops|, x);
    }
  }
}

/**
  The lists of sleeping senders as the kernel keeps them, changed in place beside
  the message queues.  Every method takes the step of MessageSenders.
 */
module SenderQueues {
  import opened MessageQueue
  import opened MessageQueueProofs
  import opened MessageSenders
  import MessageSystem

  datatype Sent = Done | Refused | Asleep

  class SenderQueues {
    const system: MessageSystem.MessageSystem
    var lists: seq<seq<Sender>>
    var expelled: set<nat>

    ghost function Value(): World
      reads this, system
    {
      World(system.Value(), lists, expelled)
    }

    ghost predicate Valid()
      reads this, system
    {
      system.Valid() && Good(Value())
    }

    constructor (n: nat, t: nat)
      ensures Valid() && Value() == Start(n, t) && fresh(system)
    {
      system := new MessageSystem.MessageSystem(n, t);
      lists, expelled := seq(n, _ => []), {};
    }

    // ss_wakeup
    method WakeUp(q: nat, kill: bool)
      requires q < |lists|
      modifies this
      ensures if kill then lists == old(lists)[q := []] && expelled == old(expelled) + TasksOf(old(lists[q]))
              else lists == old(lists)[q := Woken(old(lists[q]))] && expelled == old(expelled)
    {
      var l, i := lists[q], 0;
      while i < |l|
        invariant i <= |l| == |old(lists[q])|
        invariant forall j :: 0 <= j < |l| ==> l[j] == if j < i then old(lists[q])[j].(asleep := false) else old(lists[q])[j]
        invariant expelled == if kill then old(expelled) + TasksOf(old(lists[q])[..i]) else old(expelled)
        modifies this`expelled
      {
        if kill {
          TasksSnoc(old(lists[q]), i);
          expelled := expelled + {l[i].task};
        }
        l := l[i := l[i].(asleep := false)];
        i := i + 1;
      }
      assert old(lists[q])[..i] == old(lists[q]);
      assert l == Woken(old(lists[q]));
      lists := lists[q := if kill then [] else l];
    }

    // sys_msgsnd from `retry` on.
    method TryMsgSnd(q: nat, task: nat, mtype: int, size: nat, nowait: bool) returns (r: Sent)
      requires Valid() && CanSend(system.Value(), q, mtype, size)
      requires task < |system.tasks| && system.tasks[task] == Running && !Busy(Value(), task)
      modifies this, system
      ensures Valid() && Value() == TrySend(old(Value()), q, task, mtype, size, nowait)
      ensures r == if !Full(old(system.queues[q]), size) then Done else if nowait then Refused else Asleep
    {
      TrySendKeepsGood(Value(), q, task, mtype, size, nowait);
      var done := system.MsgSnd(q, mtype, size);
      if done {
        return Done;
      }
      if nowait {
        return Refused;
      }
      lists := lists[q := lists[q] + [Sender(task, mtype, size, true)]];
      return Asleep;
    }

    // sys_msgsnd up to its return or its sleep.
    method MsgSnd(q: nat, task: nat, mtype: int, size: nat, nowait: bool) returns (r: Sent)
      requires Valid() && task < |system.tasks| && system.tasks[task] == Running && !Busy(Value(), task)
      modifies this, system
      ensures Valid() && Value() == Next(old(Value()), Snd(task, q, mtype, size, nowait))
      ensures r.Asleep? ==> exists i :: At(Value(), q, i) && lists[q][i] == Sender(task, mtype, size, true)
      ensures r.Done? ==> system.accepted == old(system.accepted) + [Msg(|old(system.accepted)|, mtype, size)]
      ensures r.Refused? ==> Value() == old(Value())
    {
      if q >= |system.queues| || !system.queues[q].live || mtype < 1 || mtype > LONG_MAX || size > INT_MAX {
        return Refused;
      }
      r := TryMsgSnd(q, task, mtype, size, nowait);
      assert r.Asleep? ==> lists[q][|lists[q]| - 1] == Sender(task, mtype, size, true) && At(Value(), q, |lists[q]| - 1);
    }

    // The rest of sys_msgsnd after the sleep: ss_del, then EINTR or another try.
    method RunAgain(q: nat, i: nat, signal: bool) returns (r: Sent)
      requires Valid() && At(Value(), q, i) && (lists[q][i].asleep ==> signal)
      modifies this, system
      ensures Valid() && Value() == Next(old(Value()), Runs(q, i, signal))
      ensures r == if signal then Refused else if Full(old(system.queues[q]), old(lists[q][i].size)) then Asleep else Done
    {
      var x := lists[q][i];
      LeaveKeepsGood(Value(), q, i);
      assert Blocked(system.Value(), q, x);
      lists := lists[q := lists[q][..i] + lists[q][i + 1..]];
      assert Value() == Leave(old(Value()), q, i);
      if signal {
        return Refused;
      }
      r := TryMsgSnd(q, x.task, x.mtype, x.size, false);
    }

    // sys_msgrcv, waking the senders when a message leaves the queue.
    method MsgRcv(q: nat, task: nat, msgsz: nat, msgtyp: int, noerror: bool, except: bool, nowait: bool)
      returns (r: Outcome)
      requires Valid() && Live(system.Value(), q) && task < |system.tasks| && system.tasks[task] == Running
      requires LONG_MIN <= msgtyp <= LONG_MAX && !Busy(Value(), task)
      modifies this, system
      ensures Valid() && Value() == Call(old(Value()), Action.MsgRcv(q, task, msgsz, msgtyp, noerror, except, nowait))
      ensures r.Received? ==> forall i :: At(Value(), q, i) ==> !lists[q][i].asleep
    {
      ReceiveCall(Value(), Action.MsgRcv(q, task, msgsz, msgtyp, noerror, except, nowait));
      r := system.MsgRcv(q, task, msgsz, msgtyp, noerror, except, nowait);
      if r.Received? {
        WakeUp(q, false);
      }
    }

    // IPC_SET: a new limit.
    method SetLimit(q: nat, qbytes: int)
      requires Valid() && Live(system.Value(), q)
      modifies this, system
      ensures Valid() && Value() == Call(old(Value()), IpcSet(q, qbytes)) && system.queues[q].qbytes == qbytes
      ensures forall i :: At(Value(), q, i) ==> !lists[q][i].asleep
    {
      CallKeepsGood(Value(), IpcSet(q, qbytes));
      system.queues := system.queues[q := system.queues[q].(qbytes := qbytes)];
      WakeUp(q, false);
    }

    // IPC_RMID
    method RemoveQueue(q: nat)
      requires Valid() && Live(system.Value(), q)
      modifies this, system
      ensures Valid() && Value() == Call(old(Value()), IpcRmid(q))
      ensures lists[q] == [] && TasksOf(old(lists[q])) <= expelled
    {
      CallKeepsGood(Value(), IpcRmid(q));
      system.FreeQueue(q);
      WakeUp(q, true);
    }
  }

  lemma ReceiveCall(w: World, a: Action)
    requires Good(w) && a.MsgRcv? && Live(w.base, a.q) && a.task < |w.base.tasks| && w.base.tasks[a.task] == Running
    requires LONG_MIN <= a.msgtyp <= LONG_MAX && !Busy(w, a.task)
    ensures var (s, r) := Receive(w.base, a.q, a.task, a.msgsz, a.msgtyp, a.noerror, a.except, a.nowait);
            Call(w, a) == World(s, if r.Received? then w.lists[a.q := Woken(w.lists[a.q])] else w.lists, w.expelled)
    ensures Good(Call(w, a))
  {
    CallKeepsGood(w, a);
  }

  lemma TasksSnoc(l: seq<Sender>, i: nat)
    requires i < |l|
    ensures TasksOf(l[..i + 1]) == TasksOf(l[..i]) + {l[i].task}
  {
    var l' := l[..i + 1];
    forall t | t in TasksOf(l[..i]) + {l[i].task} ensures t in TasksOf(l') {
      if t == l[i].task {
        assert l'[i].task == t;
      } else {
        var j :| 0 <= j < i && l[..i][j].task == t;
        assert l'[j].task == t;
      }
    }
  }
}

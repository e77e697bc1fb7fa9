/**
  The message queues as the kernel keeps them, changed in place.  Every method is
  proved to take the step of MessageQueue and so to keep its invariants.
 */
module MessageSystem {
  import opened MessageQueue
  import opened MessageQueueProofs
  import opened MessageService

  lemma {:induction false} TellSnoc(ts: seq<Task>, who: seq<nat>, x: nat, what: Task)
    requires x < |ts| && forall i :: 0 <= i < |who| ==> who[i] < |ts|
    ensures |Tell(ts, who, what)| == |ts|
    ensures Tell(ts, who + [x], what) == Tell(ts, who, what)[x := what]
    decreases |who|
  {
    if who == [] {
      assert (who + [x])[1..] == [];
    } else {
      assert (who + [x])[1..] == who[1..] + [x];
      TellSnoc(ts[who[0] := what], who[1..], x, what);
    }
  }

  // Where the offer of `m` to `rs` stands: list[..i] was passed over, `refused`
  // were sent away, list[i..] is still to be asked.
  ghost predicate OfferAt(rs: seq<Receiver>, m: Msg, list: seq<Receiver>, i: nat, refused: seq<nat>) {
    && i <= |list|
    && var d := Offer(list[i..], m);
       Offer(rs, m) == Delivery(list[..i] + d.left, refused + d.refused, d.taker)
  }

  lemma OfferSkip(rs: seq<Receiver>, m: Msg, list: seq<Receiver>, i: nat, refused: seq<nat>)
    requires OfferAt(rs, m, list, i, refused) && i < |list| && !Matches(m, list[i])
    ensures OfferAt(rs, m, list, i + 1, refused)
  {
    assert list[i..][1..] == list[i + 1..];
    assert list[..i + 1] == list[..i] + [list[i]];
    var d := Offer(list[i + 1..], m);
    assert list[..i] + ([list[i]] + d.left) == list[..i + 1] + d.left;
  }

  lemma OfferRefuse(rs: seq<Receiver>, m: Msg, list: seq<Receiver>, i: nat, refused: seq<nat>)
    requires OfferAt(rs, m, list, i, refused) && i < |list| && Matches(m, list[i]) && list[i].maxsize < m.size
    ensures OfferAt(rs, m, Remove(list, i), i, refused + [list[i].task])
  {
    var list' := Remove(list, i);
    assert list'[..i] == list[..i] && list'[i..] == list[i..][1..];
    var d := Offer(list'[i..], m);
    assert refused + ([list[i].task] + d.refused) == refused + [list[i].task] + d.refused;
  }

  lemma OfferTake(rs: seq<Receiver>, m: Msg, list: seq<Receiver>, i: nat, refused: seq<nat>)
    requires OfferAt(rs, m, list, i, refused) && i < |list| && Matches(m, list[i]) && list[i].maxsize >= m.size
    ensures Offer(rs, m) == Delivery(Remove(list, i), refused, list[i].task)
  {
    assert list[i..][1..] == list[i + 1..];
    assert refused + [] == refused;
  }

  lemma OfferEnd(rs: seq<Receiver>, m: Msg, list: seq<Receiver>, refused: seq<nat>)
    requires OfferAt(rs, m, list, |list|, refused)
    ensures Offer(rs, m) == Delivery(list, refused, -1)
  {
    assert list[..|list|] + [] == list && refused + [] == refused;
  }

  // The loop of pipelined_send on the list of receivers and the r_msg of the tasks.
  method OfferLoop(rs: seq<Receiver>, m: Msg, ts: seq<Task>) returns (list: seq<Receiver>, tasks: seq<Task>, handed: bool)
    requires forall j :: 0 <= j < |rs| ==> rs[j].task < |ts|
    ensures var d := Offer(rs, m);
            var told := Tell(ts, d.refused, Failed(TooBig));
            && list == d.left && handed == (d.taker >= 0)
            && |told| == |ts| && d.taker < |ts|
            && tasks == if d.taker >= 0 then told[d.taker := Handed(m)] else told
  {
    list, tasks := rs, ts;
    ghost var refused: seq<nat> := [];
    var i := 0;
    assert list[..0] == [] && list[0..] == list;
    while i < |list|
      invariant OfferAt(rs, m, list, i, refused)
      invariant forall j :: 0 <= j < |list| ==> list[j].task < |ts|
      invariant forall j :: 0 <= j < |refused| ==> refused[j] < |ts|
      invariant tasks == Tell(ts, refused, Failed(TooBig)) && |tasks| == |ts|
      decreases |list| - i
    {
      var r := list[i];
      if !Matches(m, r) {
        OfferSkip(rs, m, list, i, refused);
        i := i + 1;
      } else if r.maxsize < m.size {
        OfferRefuse(rs, m, list, i, refused);
        TellSnoc(ts, refused, r.task, Failed(TooBig));
        list := list[..i] + list[i + 1..];
        refused := refused + [r.task];
        tasks := tasks[r.task := Failed(TooBig)];
      } else {
        OfferTake(rs, m, list, i, refused);
        list := list[..i] + list[i + 1..];
        tasks := tasks[r.task := Handed(m)];
        return list, tasks, true;
      }
    }
    OfferEnd(rs, m, list, refused);
    handed := false;
  }

  // The message at position k has left the queue, for good.
  ghost predicate Moved(s: State, s': State, q: nat, k: nat)
    requires Live(s, q) && k < |s.queues[q].messages|
  {
    var Q, m := s.queues[q], s.queues[q].messages[k];
    && Live(s', q)
    && s'.queues[q].taken == Q.taken + [m] && s'.consumed == s.consumed + [m]
    && multiset(s'.queues[q].messages) + multiset{m} == multiset(Q.messages)
  }

  lemma TakeMoves(s: State, q: nat, k: nat)
    requires Live(s, q) && k < |s.queues[q].messages|
    ensures Moved(s, Take(s, q, k), q, k)
  {
    var ms := s.queues[q].messages;
    assert ms == ms[..k] + [ms[k]] + ms[k + 1..];
  }

  class MessageSystem {
    var queues: seq<Queue>
    var tasks: seq<Task>
    var msgBytes: int
    var msgHdrs: int
    var nextId: nat
    ghost var accepted: seq<Msg>
    ghost var consumed: seq<Msg>
    ghost var discarded: seq<Msg>

    ghost function Value(): State
      reads this
    {
      State(queues, tasks, msgBytes, msgHdrs, accepted, consumed, discarded)
    }

    ghost predicate Valid()
      reads this
    {
      Inv(Value()) && nextId == |accepted|
    }

    constructor (n: nat, t: nat)
      ensures Valid() && Value() == Initial(n, t)
    {
      queues, tasks := seq(n, _ => NoQueue), seq(t, _ => Running);
      msgBytes, msgHdrs, nextId := 0, 0, 0;
      accepted, consumed, discarded := [], [], [];
      new;
      InitialInv(n, t);
    }

    // pipelined_send: offer the message to the sleeping receivers.
    method PipelinedSend(q: nat, m: Msg) returns (handed: bool)
      requires q < |queues|
      requires forall r :: r in queues[q].receivers ==> r.task < |tasks|
      modifies this`queues, this`tasks
      ensures var d := Offer(old(queues[q].receivers), m);
              var told := Tell(old(tasks), d.refused, Failed(TooBig));
              && queues == old(queues)[q := old(queues[q]).(receivers := d.left)]
              && |told| == |old(tasks)| && d.taker < |told|
              && handed == (d.taker >= 0)
              && tasks == if d.taker >= 0 then told[d.taker := Handed(m)] else told
    {
      var list, ts;
      list, ts, handed := OfferLoop(queues[q].receivers, m, tasks);
      queues, tasks := queues[q := queues[q].(receivers := list)], ts;
    }

    // sys_msgsnd, from a call or a retry: refused, out of room, or accepted.
    method MsgSnd(q: nat, mtype: int, size: nat) returns (ok: bool)
      requires Valid()
      modifies this
      ensures ok == (CanSend(old(Value()), q, mtype, size) && !Full(old(queues[q]), size))
      ensures ok <==> && CanSend(old(Value()), q, mtype, size)
                      && Bytes(old(queues[q].messages)) + size <= old(queues[q].qbytes)
                      && |old(queues[q].messages)| + 1 <= old(queues[q].qbytes)
      ensures Value() == if ok then Send(old(Value()), q, mtype, size) else old(Value())
      ensures Valid()
      ensures ok ==> exists n: nat :: HandedOver(old(Value()), q, Msg(|old(accepted)|, mtype, size), n, Value())
    {
      if q >= |queues| || !queues[q].live || mtype < 1 || mtype > LONG_MAX || size > INT_MAX {
        return false;
      }
      if size + queues[q].cbytes > queues[q].qbytes || 1 + queues[q].qnum > queues[q].qbytes {
        return false;
      }
      SendKeepsInv(Value(), q, mtype, size);
      ghost var n := SendServes(Value(), q, mtype, size);
      Accept(q, Msg(nextId, mtype, size));
      return true;
    }

    // The part of sys_msgsnd after the checks.
    method Accept(q: nat, m: Msg)
      requires Live(Value(), q) && m.id == nextId == |accepted|
      requires forall r :: r in queues[q].receivers ==> r.task < |tasks|
      modifies this
      ensures Value() == Send(old(Value()), q, m.mtype, m.size) && nextId == |accepted|
    {
      var handed := PipelinedSend(q, m);
      var Q := queues[q].(sent := queues[q].sent + [m]);
      if handed {
        Q := Q.(taken := Q.taken + [m]);
      } else {
        Q := Q.(messages := Q.messages + [m], cbytes := Q.cbytes + m.size, qnum := Q.qnum + 1);
        msgBytes, msgHdrs := msgBytes + m.size, msgHdrs + 1;
      }
      queues := queues[q := Q];
      nextId := nextId + 1;
      accepted := accepted + [m];
    }

    // The search loop of sys_msgrcv.
    method FindMessage(ms: seq<Msg>, mtype: int, mode: Mode) returns (found: int)
      requires Typed(ms)
      ensures found == Find(ms, 0, mtype, mode, -1)
      ensures if found == -1 then forall j :: 0 <= j < |ms| ==> !TestMsg(ms[j], mtype, mode)
              else IsPick(ms, found, mtype, mode)
    {
      FindPicks(ms, mtype, mode);
      var bound, i := mtype, 0;
      found := -1;
      while i < |ms|
        invariant i <= |ms|
        invariant Find(ms, i, bound, mode, found) == Find(ms, 0, mtype, mode, -1)
      {
        if TestMsg(ms[i], bound, mode) {
          found := i;
          if mode == LessEqual && ms[i].mtype != 1 {
            bound := ms[i].mtype - 1;
          } else {
            break;
          }
        }
        i := i + 1;
      }
    }

    // sys_msgrcv, from a call or a retry up to its return or its sleep.
    method MsgRcv(q: nat, task: nat, msgsz: nat, msgtyp: int, noerror: bool, except: bool, nowait: bool)
      returns (r: Outcome)
      requires Valid() && Live(Value(), q) && task < |tasks| && tasks[task] == Running
      requires LONG_MIN <= msgtyp <= LONG_MAX
      modifies this
      ensures (Value(), r) == Receive(old(Value()), q, task, msgsz, msgtyp, noerror, except, nowait)
      ensures Valid() && Served(old(Value()), q, task, Asked(msgtyp, except, msgsz, noerror), nowait, Value(), r)
    {
      ReceiveServes(Value(), q, task, Asked(msgtyp, except, msgsz, noerror), nowait);
      ReceiveKeepsInv(Value(), q, task, msgsz, msgtyp, noerror, except, nowait);
      var (mode, mtype) := ConvertMode(msgtyp, except);
      var k := FindMessage(queues[q].messages, mtype, mode);
      if k >= 0 {
        var m := queues[q].messages[k];
        if msgsz < m.size && !noerror {
          return E2BIG;
        }
        PickIsOldest(queues[q].messages, k, mtype, mode);
        Dequeue(q, k);
        return Received(m);
      }
      if nowait {
        return ENOMSG;
      }
      var maxsize := if noerror then INT_MAX else msgsz;
      SleepOn(q, Receiver(task, mode, mtype, maxsize, Asked(msgtyp, except, msgsz, noerror)));
      return Slept;
    }

    // Take the message at position k off the queue.  It is the oldest of its type,
    // so that the order by type survives.
    method Dequeue(q: nat, k: nat)
      requires Valid() && Live(Value(), q) && k < |queues[q].messages|
      requires var ms := queues[q].messages; forall j :: 0 <= j < k ==> ms[j].mtype != ms[k].mtype
      modifies this
      ensures Valid() && Moved(old(Value()), Value(), q, k) && Value() == Take(old(Value()), q, k)
    {
      TakeKeepsInv(Value(), q, k);
      TakeMoves(Value(), q, k);
      Delete(q, k);
    }

    // list_del of a message and the counters that go with it.
    method Delete(q: nat, k: nat)
      requires Live(Value(), q) && k < |queues[q].messages|
      modifies this
      ensures Value() == Take(old(Value()), q, k) && nextId == old(nextId)
    {
      var Q := queues[q];
      var m := Q.messages[k];
      queues := queues[q := Q.(messages := Q.messages[..k] + Q.messages[k + 1..], qnum := Q.qnum - 1,
                               cbytes := Q.cbytes - m.size, taken := Q.taken + [m])];
      msgBytes, msgHdrs := msgBytes - m.size, msgHdrs - 1;
      consumed := consumed + [m];
    }

    // Prepare for a pipelined receive.
    method SleepOn(q: nat, r: Receiver)
      requires Live(Value(), q) && r.task < |tasks|
      modifies this
      ensures Value() == Sleep(old(Value()), q, r) && nextId == old(nextId)
    {
      var Q := queues[q];
      queues := queues[q := Q.(receivers := Q.receivers + [r])];
      tasks := tasks[r.task := Waiting(q)];
    }

    // list_del of the receiver of `task`.
    method Unlist(list: seq<Receiver>, task: nat) returns (list': seq<Receiver>)
      requires IndexOf(list, task) < |list|
      ensures list' == Remove(list, IndexOf(list, task))
    {
      var k := 0;
      while list[k].task != task
        invariant k <= IndexOf(list, task)
        decreases |list| - k
      {
        k := k + 1;
      }
      list' := list[..k] + list[k + 1..];
    }

    // The rest of sys_msgrcv after the sleep.  A task whose r_msg still is
    // -EAGAIN finds its queue alive: the BUG() for a missing queue cannot happen.
    method RunAgain(task: nat)
      requires Valid() && task < |tasks|
      modifies this
      ensures Valid() && Value() == Resume(old(Value()), task) && Returned(old(Value()), task, Value())
    {
      ResumeReturns(Value(), task);
      ResumeKeepsInv(Value(), task);
      match tasks[task]
      case Running =>
      case Failed(_) => tasks := tasks[task := Running];
      case Handed(m) =>
        consumed := consumed + [m];
        tasks := tasks[task := Running];
      case Waiting(q) =>
        assert Live(Value(), q);
        RemoveReceiver(queues[q].receivers, task);
        var list := Unlist(queues[q].receivers, task);
        queues := queues[q := queues[q].(receivers := list)];
        tasks := tasks[task := Running];
    }

    // freeque: tell the sleepers, throw the messages away.
    method FreeQueue(q: nat)
      requires Valid() && Live(Value(), q)
      modifies this
      ensures Valid() && Value() == Free(old(Value()), q) && QueueRemoved(old(Value()), q, Value())
    {
      FreeRemoves(Value(), q);
      FreeKeepsInv(Value(), q);
      DropQueue(q);
    }

    method DropQueue(q: nat)
      requires Live(Value(), q) && forall r :: r in queues[q].receivers ==> r.task < |tasks|
      modifies this
      ensures Value() == Free(old(Value()), q) && nextId == old(nextId)
    {
      var Q := queues[q];
      ExpungeAll(Q.receivers);
      Discard(Q.messages);
      msgBytes := msgBytes - Q.cbytes;
      queues := queues[q := NoQueue];
    }

    // The loop of freeque over the messages.
    method Discard(ms: seq<Msg>)
      modifies this`msgHdrs, this`discarded
      ensures msgHdrs == old(msgHdrs) - |ms| && discarded == old(discarded) + ms
    {
      var i := 0;
      while i < |ms|
        invariant i <= |ms| && msgHdrs == old(msgHdrs) - i && discarded == old(discarded) + ms[..i]
      {
        assert ms[..i + 1] == ms[..i] + [ms[i]];
        msgHdrs := msgHdrs - 1;
        discarded := discarded + [ms[i]];
        i := i + 1;
      }
      assert ms[..i] == ms;
    }

    // expunge_all with -EIDRM.
    method ExpungeAll(rs: seq<Receiver>)
      requires forall i :: 0 <= i < |rs| ==> rs[i].task < |tasks|
      modifies this`tasks
      ensures tasks == Tell(old(tasks), Names(rs), Failed(Removed))
    {
      var i := 0;
      while i < |rs|
        invariant i <= |rs| && |tasks| == |old(tasks)|
        invariant tasks == Tell(old(tasks), Names(rs)[..i], Failed(Removed))
      {
        assert Names(rs)[..i + 1] == Names(rs)[..i] + [rs[i].task];
        TellSnoc(old(tasks), Names(rs)[..i], rs[i].task, Failed(Removed));
        tasks := tasks[rs[i].task := Failed(Removed)];
        i := i + 1;
      }
      assert Names(rs)[..i] == Names(rs);
    }
  }
}

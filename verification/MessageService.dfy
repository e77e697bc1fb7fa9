/**
  What msgrcv is served and whom a message is handed to, in terms of what the
  caller asked for.
 */
module MessageService {
  import opened MessageQueue
  import opened MessageQueueProofs

  // The message is one that msgtyp, with or without MSG_EXCEPT, asks for.
  predicate Wants(a: Asked, m: Msg) {
    if a.msgtyp == 0 then true
    else if a.msgtyp < 0 then m.mtype <= -a.msgtyp
    else if a.except then m.mtype != a.msgtyp
    else m.mtype == a.msgtyp
  }

  predicate Takes(a: Asked, m: Msg) {
    a.noerror || m.size <= a.msgsz
  }

  // LONG_MIN cannot be negated: such a call never finds anything.
  predicate Deaf(a: Asked) {
    a.msgtyp == LONG_MIN
  }

  predicate Hears(a: Asked, m: Msg) {
    !Deaf(a) && Wants(a, m)
  }

  // Position k holds what the caller is to get: the first wanted message, or for a
  // negative msgtyp the first among the wanted ones of least type.
  ghost predicate Serves(ms: seq<Msg>, a: Asked, k: nat) {
    && k < |ms| && Hears(a, ms[k])
    && (a.msgtyp >= 0 ==> forall j :: 0 <= j < k ==> !Wants(a, ms[j]))
    && (a.msgtyp < 0 ==> forall j :: 0 <= j < |ms| && Wants(a, ms[j]) ==>
          ms[k].mtype < ms[j].mtype || (ms[k].mtype == ms[j].mtype && k <= j))
  }

  ghost predicate NothingFor(ms: seq<Msg>, a: Asked) {
    forall j :: 0 <= j < |ms| ==> !Hears(a, ms[j])
  }

  // ----- the search -----

  lemma TestHears(a: Asked, m: Msg)
    requires 1 <= m.mtype <= LONG_MAX
    ensures var (mode, mtype) := ConvertMode(a.msgtyp, a.except); TestMsg(m, mtype, mode) <==> Hears(a, m)
  {
  }

  /** The search finds what the caller asked for, and nothing exactly when there is no
      such message. */
  lemma FindServes(ms: seq<Msg>, a: Asked)
    requires Typed(ms)
    ensures var (mode, mtype) := ConvertMode(a.msgtyp, a.except);
            var k := Find(ms, 0, mtype, mode, -1);
            if k == -1 then NothingFor(ms, a) else k >= 0 && Serves(ms, a, k)
  {
    var (mode, mtype) := ConvertMode(a.msgtyp, a.except);
    FindPicks(ms, mtype, mode);
    forall j | 0 <= j < |ms| ensures TestMsg(ms[j], mtype, mode) <==> Hears(a, ms[j]) {
      TestHears(a, ms[j]);
    }
  }

  // ----- msgrcv -----

  // What a call of msgrcv comes to.
  ghost predicate Served(s: State, q: nat, task: nat, a: Asked, nowait: bool, s': State, r: Outcome)
    requires Live(s, q)
  {
    var ms := s.queues[q].messages;
    match r
    case Received(m) =>
      exists k: nat :: Serves(ms, a, k) && m == ms[k] && Takes(a, m) && s' == Take(s, q, k)
    case E2BIG => s' == s && exists k: nat :: Serves(ms, a, k) && !Takes(a, ms[k])
    case ENOMSG => s' == s && nowait && NothingFor(ms, a)
    case Slept =>
      && !nowait && NothingFor(ms, a)
      && Live(s', q) && s'.queues[q].messages == ms
      && |s'.queues[q].receivers| == |s.queues[q].receivers| + 1
      && s'.queues[q].receivers[..|s.queues[q].receivers|] == s.queues[q].receivers
      && var x := s'.queues[q].receivers[|s.queues[q].receivers|];
         x.task == task && x.asked == a && Honest(x) && task < |s'.tasks| && s'.tasks[task] == Waiting(q)
  }

  /** msgrcv takes the message it was asked for, refuses it when it is too long, and waits
      or gives up exactly when there is none. */
  lemma ReceiveServes(s: State, q: nat, task: nat, a: Asked, nowait: bool)
    requires Inv(s) && Live(s, q) && task < |s.tasks|
    ensures var (s', r) := Receive(s, q, task, a.msgsz, a.msgtyp, a.noerror, a.except, nowait);
            Served(s, q, task, a, nowait, s', r)
  {
    var ms := s.queues[q].messages;
    var (mode, mtype) := ConvertMode(a.msgtyp, a.except);
    FindServes(ms, a);
  }

  // ----- msgsnd -----

  // Position n is the first sleeping receiver that asked for this message and takes it.
  ghost predicate FirstTaker(rs: seq<Receiver>, m: Msg, n: nat) {
    && n <= |rs|
    && (forall i :: 0 <= i < n ==> !(Hears(rs[i].asked, m) && Takes(rs[i].asked, m)))
    && (n < |rs| ==> Hears(rs[n].asked, m) && Takes(rs[n].asked, m))
  }

  // The receiver at position i asked for the message but cannot take it.
  predicate TooLong(rs: seq<Receiver>, m: Msg, i: nat)
    requires i < |rs|
  {
    Hears(rs[i].asked, m) && !Takes(rs[i].asked, m)
  }

  lemma HonestHears(r: Receiver, m: Msg)
    requires Honest(r) && 1 <= m.mtype <= LONG_MAX && m.size <= INT_MAX
    ensures Matches(m, r) <==> Hears(r.asked, m)
    ensures HasRoom(m, r) <==> Takes(r.asked, m)
  {
    TestHears(r.asked, m);
  }

  // The tasks after the offer: the taker has the message, those before it that asked for
  // it but cannot take it are told so, everybody else goes on as before.
  ghost predicate Told(ts: seq<Task>, rs: seq<Receiver>, m: Msg, n: nat, ts': seq<Task>) {
    && n <= |rs| && |ts'| == |ts|
    && (forall i: nat :: i < |rs| ==> rs[i].task < |ts|)
    && (n < |rs| ==> ts'[rs[n].task] == Handed(m))
    && (forall i: nat :: i < n && TooLong(rs, m, i) ==> ts'[rs[i].task] == Failed(TooBig))
    && (forall t: nat :: t < |ts| && (forall i: nat :: i < |rs| && rs[i].task == t ==> Unmoved(rs, m, n, i)) ==> ts'[t] == ts[t])
  }

  // The receiver at position i stays on the list.
  predicate Unmoved(rs: seq<Receiver>, m: Msg, n: nat, i: nat)
    requires i < |rs|
  {
    i > n || (i < n && !TooLong(rs, m, i))
  }

  // What msgsnd does with a message once there is room for it.
  ghost predicate HandedOver(s: State, q: nat, m: Msg, n: nat, s': State)
    requires Live(s, q)
  {
    var rs := s.queues[q].receivers;
    && FirstTaker(rs, m, n) && Told(s.tasks, rs, m, n, s'.tasks)
    && Live(s', q) && s'.accepted == s.accepted + [m]
    && s'.queues[q].messages == s.queues[q].messages + (if n < |rs| then [] else [m])
    && (forall r :: r in s'.queues[q].receivers <==> exists i: nat :: i < |rs| && rs[i] == r && Unmoved(rs, m, n, i))
  }

  ghost predicate AllHonest(rs: seq<Receiver>) {
    forall i :: 0 <= i < |rs| ==> Honest(rs[i])
  }

  lemma TakerFirst(rs: seq<Receiver>, m: Msg, n: nat)
    requires AllHonest(rs) && 1 <= m.mtype <= LONG_MAX && m.size <= INT_MAX && FirstWithRoom(rs, m, n)
    ensures FirstTaker(rs, m, n)
  {
    forall i | 0 <= i < |rs|
      ensures (Matches(m, rs[i]) <==> Hears(rs[i].asked, m)) && (HasRoom(m, rs[i]) <==> Takes(rs[i].asked, m))
    {
      HonestHears(rs[i], m);
    }
  }

  // Who is refused: those before n that match.
  lemma RefusedAre(rs: seq<Receiver>, m: Msg, n: nat, d: Delivery, t: nat)
    requires AllHonest(rs) && 1 <= m.mtype <= LONG_MAX && m.size <= INT_MAX && Delivered(rs, m, n, d)
    ensures t in d.refused <==> exists i: nat :: i < n && rs[i].task == t && TooLong(rs, m, i)
  {
    var small := Pick(rs[..n], m, true);
    if t in d.refused {
      var j :| 0 <= j < |small| && small[j].task == t;
      PickExact(rs[..n], m, true, small[j]);
      var i: nat :| i < n && rs[i] == small[j];
      HonestHears(rs[i], m);
      assert TooLong(rs, m, i);
    }
    if i: nat :| i < n && rs[i].task == t && TooLong(rs, m, i) {
      HonestHears(rs[i], m);
      assert rs[..n][i] == rs[i];
      PickExact(rs[..n], m, true, rs[i]);
      var j :| 0 <= j < |small| && small[j] == rs[i];
      assert Names(small)[j] == t;
    }
  }

  // Who stays: the others, but for the taker.
  lemma LeftAre(rs: seq<Receiver>, m: Msg, n: nat, d: Delivery, r: Receiver)
    requires AllHonest(rs) && 1 <= m.mtype <= LONG_MAX && m.size <= INT_MAX && Delivered(rs, m, n, d)
    ensures r in d.left <==> exists i: nat :: i < |rs| && rs[i] == r && Unmoved(rs, m, n, i)
  {
    var pass := Pick(rs[..n], m, false);
    var rest := if n < |rs| then rs[n + 1..] else [];
    PickExact(rs[..n], m, false, r);
    if r in pass {
      var i: nat :| i < n && rs[..n][i] == r;
      HonestHears(rs[i], m);
      assert Unmoved(rs, m, n, i);
    } else if r in rest {
      var j: nat :| j < |rest| && rest[j] == r;
      assert rs[n + 1 + j] == r && Unmoved(rs, m, n, n + 1 + j);
    }
    if i: nat :| i < |rs| && rs[i] == r && Unmoved(rs, m, n, i) {
      if i > n {
        assert rest[i - n - 1] == r;
      } else {
        HonestHears(rs[i], m);
        assert rs[..n][i] == r;
      }
    }
  }

  // The tasks when `refused` are told and the taker is handed the message.
  predicate Marked(ts: seq<Task>, d: Delivery, m: Msg, ts': seq<Task>) {
    && |ts'| == |ts| && d.taker < |ts|
    && forall t :: 0 <= t < |ts| ==>
         ts'[t] == if t == d.taker then Handed(m) else if t in d.refused then Failed(TooBig) else ts[t]
  }

  lemma MarkedTells(ts: seq<Task>, rs: seq<Receiver>, m: Msg, n: nat, d: Delivery, ts': seq<Task>)
    requires AllHonest(rs) && 1 <= m.mtype <= LONG_MAX && m.size <= INT_MAX && Delivered(rs, m, n, d)
    requires Marked(ts, d, m, ts') && (d.taker >= 0 ==> d.taker !in d.refused)
    requires forall i: nat :: i < |rs| ==> rs[i].task < |ts|
    ensures Told(ts, rs, m, n, ts')
  {
    forall i: nat | i < n && TooLong(rs, m, i) ensures ts'[rs[i].task] == Failed(TooBig) {
      RefusedAre(rs, m, n, d, rs[i].task);
    }
    forall t: nat | t < |ts| && (forall i: nat :: i < |rs| && rs[i].task == t ==> Unmoved(rs, m, n, i))
      ensures ts'[t] == ts[t]
    {
      RefusedAre(rs, m, n, d, t);
    }
  }

  lemma OfferTells(s: State, q: nat, m: Msg, n: nat, ts': seq<Task>)
    requires QueuesGood(s) && SleepersListed(s) && Live(s, q) && 1 <= m.mtype <= LONG_MAX && m.size <= INT_MAX
    requires Delivered(s.queues[q].receivers, m, n, Offer(s.queues[q].receivers, m))
    requires Marked(s.tasks, Offer(s.queues[q].receivers, m), m, ts')
    ensures Told(s.tasks, s.queues[q].receivers, m, n, ts')
  {
    var rs := s.queues[q].receivers;
    SendDelivery(s, q, m);
    forall i: nat | i < |rs| ensures rs[i].task < |s.tasks| {
      assert rs[i] in rs;
    }
    assert GoodQueue(s.queues[q]);
    MarkedTells(s.tasks, rs, m, n, Offer(rs, m), ts');
  }

  lemma SendMarks(s: State, q: nat, mtype: int, size: nat)
    requires Inv(s) && CanSend(s, q, mtype, size)
    ensures var m := Msg(|s.accepted|, mtype, size);
            Marked(s.tasks, Offer(s.queues[q].receivers, m), m, Send(s, q, mtype, size).tasks)
  {
    SendDelivery(s, q, Msg(|s.accepted|, mtype, size));
  }

  lemma SendLists(s: State, q: nat, mtype: int, size: nat, n: nat)
    requires QueuesGood(s) && SleepersListed(s) && CanSend(s, q, mtype, size)
    requires var rs, m := s.queues[q].receivers, Msg(|s.accepted|, mtype, size); Delivered(rs, m, n, Offer(rs, m))
    ensures var rs, m, s' := s.queues[q].receivers, Msg(|s.accepted|, mtype, size), Send(s, q, mtype, size);
            && Live(s', q) && s'.accepted == s.accepted + [m]
            && s'.queues[q].receivers == Offer(rs, m).left
            && s'.queues[q].messages == s.queues[q].messages + (if n < |rs| then [] else [m])
  {
    SendDelivery(s, q, Msg(|s.accepted|, mtype, size));
  }

  /** msgsnd hands the message to the first sleeping receiver that asked for it and takes it,
      tells those before it for whom it is too long, and queues it exactly when nobody
      takes it. */
  lemma SendServes(s: State, q: nat, mtype: int, size: nat) returns (n: nat)
    requires Inv(s) && CanSend(s, q, mtype, size)
    ensures HandedOver(s, q, Msg(|s.accepted|, mtype, size), n, Send(s, q, mtype, size))
  {
    var m, rs := Msg(|s.accepted|, mtype, size), s.queues[q].receivers;
    n := OfferDelivers(rs, m);
    SendLists(s, q, mtype, size, n);
    SendMarks(s, q, mtype, size);
    OfferTells(s, q, m, n, Send(s, q, mtype, size).tasks);
    ReceiversHonest(s, q);
    TakerFirst(rs, m, n);
    forall r ensures r in Offer(rs, m).left <==> exists i: nat :: i < |rs| && rs[i] == r && Unmoved(rs, m, n, i) {
      LeftAre(rs, m, n, Offer(rs, m), r);
    }
  }

  lemma ReceiversHonest(s: State, q: nat)
    requires QueuesGood(s) && q < |s.queues|
    ensures AllHonest(s.queues[q].receivers)
  {
    assert GoodQueue(s.queues[q]);
  }

  /** In every reachable state no sleeping receiver asked for a message that is queued. */
  lemma ReachableHeard(n: nat, t: nat, run: seq<Action>, q: nat, i: nat, j: nat)
    requires var s := Execute(Initial(n, t), run);
             q < |s.queues| && i < |s.queues[q].messages| && j < |s.queues[q].receivers|
    ensures var Q := Execute(Initial(n, t), run).queues[q]; !Hears(Q.receivers[j].asked, Q.messages[i])
  {
    InitialInv(n, t);
    ExecuteKeepsInv(Initial(n, t), run);
    var Q := Execute(Initial(n, t), run).queues[q];
    assert GoodQueue(Q) && Q.receivers[j] in Q.receivers;
    HonestHears(Q.receivers[j], Q.messages[i]);
  }

  // ----- a receiver runs again -----

  // The task runs, with the message it was handed, and sleeps nowhere; nobody else and
  // no queued message is touched.
  ghost predicate Returned(s: State, task: nat, s': State)
    requires task < |s.tasks|
  {
    && s'.tasks == s.tasks[task := Running]
    && s'.consumed == s.consumed + (if s.tasks[task].Handed? then [s.tasks[task].msg] else [])
    && |s'.queues| == |s.queues|
    && (forall q, r :: 0 <= q < |s.queues| ==>
          (r in s'.queues[q].receivers <==> r in s.queues[q].receivers && r.task != task))
    && (forall q :: 0 <= q < |s.queues| ==> s'.queues[q].messages == s.queues[q].messages)
  }

  lemma AwakeReturns(s: State, task: nat)
    requires SleepersListed(s) && task < |s.tasks| && !s.tasks[task].Waiting?
    ensures Returned(s, task, Resume(s, task))
  {
    forall q, r | 0 <= q < |s.queues| && r in s.queues[q].receivers ensures r.task != task {
      assert s.tasks[r.task] == Waiting(q);
    }
  }

  lemma SleeperReturns(s: State, task: nat, q: nat)
    requires SleepersListed(s) && task < |s.tasks| && s.tasks[task] == Waiting(q)
    requires q < |s.queues| && DistinctTasks(s.queues[q].receivers)
    ensures Returned(s, task, Resume(s, task))
  {
    RemoveReceiver(s.queues[q].receivers, task);
    var s' := Resume(s, task);
    forall x, r | 0 <= x < |s.queues| && x != q && r in s.queues[x].receivers ensures r.task != task {
      assert s.tasks[r.task] == Waiting(x);
    }
    assert forall x :: 0 <= x < |s.queues| && x != q ==> s'.queues[x] == s.queues[x];
  }

  /** A receiver that runs again takes note of what became of it and leaves the list. */
  lemma ResumeReturns(s: State, task: nat)
    requires QueuesGood(s) && SleepersListed(s) && task < |s.tasks|
    ensures Returned(s, task, Resume(s, task))
  {
    if s.tasks[task].Waiting? {
      SleeperReturns(s, task, s.tasks[task].q);
    } else {
      AwakeReturns(s, task);
    }
  }

  // ----- removal -----

  // The queue is gone, its messages are thrown away, and whoever slept on it is told.
  ghost predicate QueueRemoved(s: State, q: nat, s': State)
    requires Live(s, q)
  {
    && !Live(s', q) && |s'.queues| == |s.queues| && (forall x :: 0 <= x < |s.queues| && x != q ==> s'.queues[x] == s.queues[x])
    && s'.discarded == s.discarded + s.queues[q].messages && s'.accepted == s.accepted && s'.consumed == s.consumed
    && |s'.tasks| == |s.tasks|
    && forall t: nat :: t < |s.tasks| ==>
         s'.tasks[t] == if s.tasks[t] == Waiting(q) then Failed(Removed) else s.tasks[t]
  }

  /** IPC_RMID throws the messages away and tells exactly the receivers asleep on the queue. */
  lemma FreeRemoves(s: State, q: nat)
    requires SleepersListed(s) && Live(s, q)
    ensures QueueRemoved(s, q, Free(s, q))
  {
    FreeTells(s, q);
    forall t: nat | t < |s.tasks| ensures Named(s.queues[q].receivers, t) <==> s.tasks[t] == Waiting(q) {
    }
  }
}

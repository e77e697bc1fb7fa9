/**
  The senders that sleep because their queue is full, on top of the message
  queues: ss_add, ss_del and ss_wakeup with the steps that call them.  In every
  reachable state a sender that nobody woke has no room for its message.
 */
module MessageSenders {
  import opened MessageQueue
  import opened MessageQueueProofs

  // An entry of q_senders.  `asleep` is false once the task was woken; it stays
  // on the list until it runs.
  datatype Sender = Sender(task: nat, mtype: int, size: nat, asleep: bool)

  // `lists` holds q_senders of each queue.  `expelled` are the tasks whose queue
  // was removed under them and that have not run since.
  datatype World = World(base: State, lists: seq<seq<Sender>>, expelled: set<nat>)

  predicate At(w: World, q: int, i: int) {
    0 <= q < |w.lists| && 0 <= i < |w.lists[q]|
  }

  // The task sleeps in msgsnd, or has not run since it was woken.
  ghost predicate Busy(w: World, t: nat) {
    t in w.expelled || exists q, i :: At(w, q, i) && w.lists[q][i].task == t
  }

  // ss_wakeup without kill.
  function Woken(l: seq<Sender>): seq<Sender> {
    seq(|l|, i requires 0 <= i < |l| => l[i].(asleep := false))
  }

  function TasksOf(l: seq<Sender>): set<nat> {
    set i | 0 <= i < |l| :: l[i].task
  }

  // sys_msgsnd from `retry` on: sleep while the queue is full.
  function TrySend(w: World, q: nat, task: nat, mtype: int, size: nat, nowait: bool): World
    requires Live(w.base, q) && q < |w.lists|
  {
    if Full(w.base.queues[q], size) && !nowait
    then w.(lists := w.lists[q := w.lists[q] + [Sender(task, mtype, size, true)]])
    else w.(base := Apply(w.base, MsgSnd(q, mtype, size)))
  }

  // ss_del
  function Leave(w: World, q: nat, i: nat): World
    requires At(w, q, i)
  {
    w.(lists := w.lists[q := Remove(w.lists[q], i)])
  }

  // The sender runs again: it leaves the list and retries unless a signal is pending.
  function Return(w: World, q: nat, i: nat, signal: bool): World
    requires At(w, q, i) && Live(w.base, q)
  {
    var x, w' := w.lists[q][i], Leave(w, q, i);
    if signal then w' else TrySend(w', q, x.task, x.mtype, x.size, false)
  }

  // This msgrcv takes a message off the queue.
  predicate Takes(s: State, a: Action) {
    && a.MsgRcv? && Live(s, a.q) && a.task < |s.tasks| && s.tasks[a.task] == Running
    && LONG_MIN <= a.msgtyp <= LONG_MAX
    && Receive(s, a.q, a.task, a.msgsz, a.msgtyp, a.noerror, a.except, a.nowait).1.Received?
  }

  // Every other call, with the senders it wakes.
  ghost function Call(w: World, a: Action): World {
    if a.MsgSnd? || (a.MsgRcv? && Busy(w, a.task)) then w
    else
      var w' := w.(base := Apply(w.base, a));
      if !(a.MsgRcv? || a.IpcSet? || a.IpcRmid?) || !Live(w.base, a.q) || a.q >= |w.lists| then w'
      else if Takes(w.base, a) || a.IpcSet? then w'.(lists := w.lists[a.q := Woken(w.lists[a.q])])
      else if a.IpcRmid? then w'.(lists := w.lists[a.q := []], expelled := w.expelled + TasksOf(w.lists[a.q]))
      else w'
  }

  datatype Step =
    | Snd(task: nat, q: nat, mtype: int, size: nat, nowait: bool)
    | Runs(q: nat, i: nat, signal: bool)
    | Fails(task: nat)
    | Other(a: Action)

  // Steps that cannot be taken change nothing.
  ghost function Next(w: World, step: Step): World {
    match step
    case Snd(t, q, mtype, size, nowait) =>
      if CanSend(w.base, q, mtype, size) && q < |w.lists| && t < |w.base.tasks| && w.base.tasks[t] == Running && !Busy(w, t)
      then TrySend(w, q, t, mtype, size, nowait) else w
    case Runs(q, i, signal) =>
      if At(w, q, i) && Live(w.base, q) && (w.lists[q][i].asleep ==> signal) then Return(w, q, i, signal) else w
    case Fails(t) => w.(expelled := w.expelled - {t})
    case Other(a) => Call(w, a)
  }

  ghost function Run(w: World, run: seq<Step>): World
    decreases |run|
  {
    if run == [] then w else Run(Next(w, run[0]), run[1..])
  }

  function Start(n: nat, t: nat): World {
    World(Initial(n, t), seq(n, _ => []), {})
  }

  // ----- the invariant -----

  // A listed sender: its call was valid, it does nothing else, and if nobody woke
  // it its message does not fit.
  ghost predicate Blocked(s: State, q: nat, x: Sender) {
    && CanSend(s, q, x.mtype, x.size)
    && x.task < |s.tasks| && s.tasks[x.task] == Running
    && (x.asleep ==> Full(s.queues[q], x.size))
  }

  ghost predicate Listed(w: World) {
    && |w.lists| == |w.base.queues|
    && forall q, i :: At(w, q, i) ==> Blocked(w.base, q, w.lists[q][i]) && w.lists[q][i].task !in w.expelled
  }

  ghost predicate Once(w: World) {
    forall q, i, q', j :: At(w, q, i) && At(w, q', j) && w.lists[q][i].task == w.lists[q'][j].task ==> q == q' && i == j
  }

  ghost predicate Good(w: World) {
    Inv(w.base) && Listed(w) && Once(w)
  }

  // ----- what a call does to queues and tasks -----

  // A live queue stays and has no more room than before.
  ghost predicate Narrower(s: State, s': State, q: nat) {
    Live(s, q) ==>
      && Live(s', q) && s'.queues[q].qbytes == s.queues[q].qbytes
      && s'.queues[q].cbytes >= s.queues[q].cbytes && s'.queues[q].qnum >= s.queues[q].qnum
  }

  ghost predicate StillRunning(s: State, s': State, t: nat) {
    t < |s.tasks| && s.tasks[t] == Running ==> t < |s'.tasks| && s'.tasks[t] == Running
  }

  lemma SendFrame(s: State, q: nat, mtype: int, size: nat, x: nat, t: nat)
    requires Inv(s) && CanSend(s, q, mtype, size)
    ensures Narrower(s, Send(s, q, mtype, size), x) && StillRunning(s, Send(s, q, mtype, size), t)
  {
    SendDelivery(s, q, Msg(|s.accepted|, mtype, size));
  }

  lemma FreeFrame(s: State, q: nat, t: nat)
    requires Inv(s) && Live(s, q)
    ensures StillRunning(s, Free(s, q), t)
  {
    FreeTells(s, q);
  }

  // Only a limit change, a removal and a receive that takes a message make room,
  // and only on their own queue.
  lemma CallFrame(s: State, a: Action, x: nat)
    requires Inv(s)
    ensures |Apply(s, a).queues| == |s.queues|
    ensures a.RunAgain? || x != a.q || a.MsgSnd? || a.NewQueue? || (a.MsgRcv? && !Takes(s, a)) ==>
              Narrower(s, Apply(s, a), x)
    ensures Live(s, x) && !a.IpcRmid? ==> Live(Apply(s, a), x)
  {
    if a.MsgSnd? && CanSend(s, a.q, a.mtype, a.size) {
      SendFrame(s, a.q, a.mtype, a.size, x, 0);
    }
  }

  lemma CallTasks(s: State, a: Action, t: nat)
    requires Inv(s) && (a.MsgRcv? ==> t != a.task)
    ensures StillRunning(s, Apply(s, a), t)
  {
    if a.MsgSnd? && CanSend(s, a.q, a.mtype, a.size) {
      SendFrame(s, a.q, a.mtype, a.size, 0, t);
    } else if a.IpcRmid? && Live(s, a.q) {
      FreeFrame(s, a.q, t);
    }
  }

  lemma NotBusy(w: World, q: nat, i: nat, t: nat)
    requires At(w, q, i) && !Busy(w, t)
    ensures w.lists[q][i].task != t
  {
  }

  // ----- every step keeps the invariant -----

  lemma CallKeepsGood(w: World, a: Action)
    requires Good(w)
    ensures Good(Call(w, a))
  {
    var w' := Call(w, a);
    ApplyKeepsInv(w.base, a);
    if w' != w {
      forall q, i | At(w', q, i)
        ensures At(w, q, i) && w'.lists[q][i].task == w.lists[q][i].task
        ensures Blocked(w'.base, q, w'.lists[q][i]) && w'.lists[q][i].task !in w'.expelled
      {
        CallKeepsSender(w, a, q, i);
      }
      CallFrame(w.base, a, 0);
    }
  }

  lemma CallKeepsSender(w: World, a: Action, q: nat, i: nat)
    requires Good(w) && Call(w, a) != w && At(Call(w, a), q, i)
    ensures var w' := Call(w, a);
            && At(w, q, i) && w'.lists[q][i].task == w.lists[q][i].task
            && Blocked(w'.base, q, w'.lists[q][i]) && w'.lists[q][i].task !in w'.expelled
  {
    var x := w.lists[q][i];
    assert Blocked(w.base, q, x);
    CallFrame(w.base, a, q);
    if a.MsgRcv? { NotBusy(w, q, i, a.task); }
    CallTasks(w.base, a, x.task);
  }

  // A sender that is not on any list goes to sleep, or sends.
  lemma TrySendKeepsGood(w: World, q: nat, task: nat, mtype: int, size: nat, nowait: bool)
    requires Good(w) && CanSend(w.base, q, mtype, size)
    requires task < |w.base.tasks| && w.base.tasks[task] == Running && !Busy(w, task)
    ensures Good(TrySend(w, q, task, mtype, size, nowait))
  {
    var w' := TrySend(w, q, task, mtype, size, nowait);
    if Full(w.base.queues[q], size) && !nowait {
      forall x, i | At(w', x, i) && (x != q || i < |w.lists[q]|)
        ensures At(w, x, i) && w'.lists[x][i] == w.lists[x][i] && w.lists[x][i].task != task
      {
        NotBusy(w, x, i, task);
      }
    } else {
      ApplyKeepsInv(w.base, MsgSnd(q, mtype, size));
      CallFrame(w.base, MsgSnd(q, mtype, size), q);
      forall x, i | At(w', x, i) ensures Blocked(w'.base, x, w'.lists[x][i]) {
        assert At(w, x, i);
        CallFrame(w.base, MsgSnd(q, mtype, size), x);
        CallTasks(w.base, MsgSnd(q, mtype, size), w.lists[x][i].task);
      }
    }
  }

  lemma LeaveKeepsGood(w: World, q: nat, i: nat)
    requires Good(w) && At(w, q, i)
    ensures Good(Leave(w, q, i)) && !Busy(Leave(w, q, i), w.lists[q][i].task)
  {
    var w' := Leave(w, q, i);
    forall x, j | At(w', x, j)
      ensures var k := if x == q && j >= i then j + 1 else j;
              At(w, x, k) && w'.lists[x][j] == w.lists[x][k] && w.lists[x][k].task != w.lists[q][i].task
    {
      var k := if x == q && j >= i then j + 1 else j;
      assert At(w, x, k);
    }
  }

  lemma ReturnKeepsGood(w: World, q: nat, i: nat, signal: bool)
    requires Good(w) && At(w, q, i) && Live(w.base, q)
    ensures Good(Return(w, q, i, signal))
  {
    var x := w.lists[q][i];
    LeaveKeepsGood(w, q, i);
    assert Blocked(w.base, q, x);
    if !signal {
      TrySendKeepsGood(Leave(w, q, i), q, x.task, x.mtype, x.size, false);
    }
  }

  /** Every step keeps the invariant of the queues and of the sleeping senders. */
  lemma NextKeepsGood(w: World, step: Step)
    requires Good(w)
    ensures Good(Next(w, step))
  {
    match step
    case Snd(t, q, mtype, size, nowait) =>
      if Next(w, step) != w { TrySendKeepsGood(w, q, t, mtype, size, nowait); }
    case Runs(q, i, signal) =>
      if At(w, q, i) && Live(w.base, q) { ReturnKeepsGood(w, q, i, signal); }
    case Fails(t) =>
      assert forall q, i :: At(Next(w, step), q, i) <==> At(w, q, i);
    case Other(a) => CallKeepsGood(w, a);
  }

  lemma {:induction false} RunKeepsGood(w: World, run: seq<Step>)
    requires Good(w)
    ensures Good(Run(w, run))
    decreases |run|
  {
    if run != [] {
      NextKeepsGood(w, run[0]);
      RunKeepsGood(Next(w, run[0]), run[1..]);
    }
  }

  /** In every reachable state: a sender that nobody woke has no room for its message,
      and on a queue without messages such a message is over the limit by itself.
      A task waits in one place only. */
  lemma ReachableSenders(n: nat, t: nat, run: seq<Step>, q: nat, i: nat)
    requires At(Run(Start(n, t), run), q, i)
    ensures var w := Run(Start(n, t), run);
            var x := w.lists[q][i];
            && Live(w.base, q) && x.task < |w.base.tasks| && w.base.tasks[x.task] == Running
            && (x.asleep ==>
                  || Bytes(w.base.queues[q].messages) + x.size > w.base.queues[q].qbytes
                  || |w.base.queues[q].messages| + 1 > w.base.queues[q].qbytes)
            && (x.asleep && w.base.queues[q].messages == [] ==>
                  x.size > w.base.queues[q].qbytes || 1 > w.base.queues[q].qbytes)
            && (forall q', j :: At(w, q', j) && w.lists[q'][j].task == x.task ==> q' == q && j == i)
  {
    InitialInv(n, t);
    RunKeepsGood(Start(n, t), run);
    var w := Run(Start(n, t), run);
    assert Blocked(w.base, q, w.lists[q][i]) && GoodQueue(w.base.queues[q]);
  }

  /** A sender that runs again without a signal sends exactly when there is room;
      otherwise it sleeps again, at the end of the list. */
  lemma RetryDecides(w: World, q: nat, i: nat)
    requires Good(w) && At(w, q, i)
    ensures var x := w.lists[q][i];
            var w' := Return(w, q, i, false);
            if Full(w.base.queues[q], x.size)
            then w'.base == w.base && w'.lists[q] == Remove(w.lists[q], i) + [x.(asleep := true)]
            else && w'.base.accepted == w.base.accepted + [Msg(|w.base.accepted|, x.mtype, x.size)]
                 && !Busy(w', x.task)
  {
    var x := w.lists[q][i];
    assert Blocked(w.base, q, x);
    LeaveKeepsGood(w, q, i);
    if !Full(w.base.queues[q], x.size) {
      var w0, w' := Leave(w, q, i), Return(w, q, i, false);
      assert forall y, j :: At(w', y, j) <==> At(w0, y, j);
    }
  }
}

/**
  System V message queues: msgsnd with its direct hand-off to a sleeping
  receiver, msgrcv, the receiver's wake-up, IPC_SET and IPC_RMID, each as one
  section under the queue lock.
 */
module MessageQueue {

  // A 32-bit long, as on the machine the kernel is built for.
  const LONG_MIN: int := -0x8000_0000
  const LONG_MAX: int := 0x7fff_ffff
  const INT_MAX: int := 0x7fff_ffff

  datatype Msg = Msg(id: nat, mtype: int, size: nat)

  datatype Mode = Any | Equal | NotEqual | LessEqual

  // What msgrcv was called with: the type, MSG_EXCEPT, the size, MSG_NOERROR.
  datatype Asked = Asked(msgtyp: int, except: bool, msgsz: nat, noerror: bool)

  // A struct msg_receiver; `asked` records the call it stands for.
  datatype Receiver = Receiver(task: nat, mode: Mode, mtype: int, maxsize: int, asked: Asked)

  datatype Error = TooBig | Removed

  // What a task is doing: Waiting is r_msg == -EAGAIN on the list of queue `q`,
  // Handed and Failed are the other values r_msg takes before the task runs again.
  datatype Task = Running | Waiting(q: nat) | Handed(msg: Msg) | Failed(error: Error)

  // `sent` and `taken` record the messages accepted by this queue and the
  // messages that left it, by msgrcv or by hand-off, in order.
  datatype Queue = Queue(live: bool, messages: seq<Msg>, receivers: seq<Receiver>,
                         cbytes: int, qnum: int, qbytes: int, sent: seq<Msg>, taken: seq<Msg>)

  // `accepted`, `consumed` and `discarded` record the fate of every message.
  datatype State = State(queues: seq<Queue>, tasks: seq<Task>, msgBytes: int, msgHdrs: int,
                         accepted: seq<Msg>, consumed: seq<Msg>, discarded: seq<Msg>)

  // ----- testmsg, convert_mode and the search in sys_msgrcv -----

  predicate TestMsg(m: Msg, mtype: int, mode: Mode) {
    match mode
    case Any => true
    case LessEqual => m.mtype <= mtype
    case Equal => m.mtype == mtype
    case NotEqual => m.mtype != mtype
  }

  predicate Matches(m: Msg, r: Receiver) {
    TestMsg(m, r.mtype, r.mode)
  }

  // C's unary minus on a long.
  function Negate(x: int): int {
    if x == LONG_MIN then LONG_MIN else -x
  }

  function ConvertMode(msgtyp: int, except: bool): (Mode, int) {
    if msgtyp == 0 then (Any, msgtyp)
    else if msgtyp < 0 then (LessEqual, Negate(msgtyp))
    else if except then (NotEqual, msgtyp)
    else (Equal, msgtyp)
  }

  // The search loop from position i; `found` is the candidate so far, -1 for none.
  function Find(ms: seq<Msg>, i: nat, mtype: int, mode: Mode, found: int): int
    requires i <= |ms|
    decreases |ms| - i
  {
    if i == |ms| then found
    else if TestMsg(ms[i], mtype, mode) then
      if mode == LessEqual && ms[i].mtype != 1 then Find(ms, i + 1, ms[i].mtype - 1, mode, i) else i
    else Find(ms, i + 1, mtype, mode, found)
  }

  // ----- pipelined_send -----

  datatype Delivery = Delivery(left: seq<Receiver>, refused: seq<nat>, taker: int)

  // Offer the message to the sleeping receivers in order.  Those that match but
  // have too little room are sent away; the first that fits takes it.
  function Offer(rs: seq<Receiver>, m: Msg): Delivery {
    if rs == [] then Delivery([], [], -1)
    else if !Matches(m, rs[0]) then
      var d := Offer(rs[1..], m);
      d.(left := [rs[0]] + d.left)
    else if rs[0].maxsize < m.size then
      var d := Offer(rs[1..], m);
      d.(refused := [rs[0].task] + d.refused)
    else Delivery(rs[1..], [], rs[0].task)
  }

  // Set r_msg of each listed task.
  function Tell(tasks: seq<Task>, who: seq<nat>, what: Task): seq<Task>
    decreases |who|
  {
    if who == [] then tasks
    else if who[0] < |tasks| then Tell(tasks[who[0] := what], who[1..], what)
    else Tell(tasks, who[1..], what)
  }

  // ----- the steps -----

  function Remove<T>(s: seq<T>, k: nat): seq<T>
    requires k < |s|
  {
    s[..k] + s[k + 1..]
  }

  predicate Full(q: Queue, size: nat) {
    size + q.cbytes > q.qbytes || 1 + q.qnum > q.qbytes
  }

  function Live(s: State, q: nat): bool {
    q < |s.queues| && s.queues[q].live
  }

  // sys_msgsnd once the queue has room.
  function Send(s: State, q: nat, mtype: int, size: nat): State
    requires Live(s, q)
  {
    var m := Msg(|s.accepted|, mtype, size);
    var Q := s.queues[q];
    var d := Offer(Q.receivers, m);
    var told := Tell(s.tasks, d.refused, Failed(TooBig));
    if 0 <= d.taker < |told| then
      s.(queues := s.queues[q := Q.(receivers := d.left, sent := Q.sent + [m], taken := Q.taken + [m])],
         tasks := told[d.taker := Handed(m)], accepted := s.accepted + [m])
    else
      s.(queues := s.queues[q := Q.(receivers := d.left, sent := Q.sent + [m], messages := Q.messages + [m],
                                    cbytes := Q.cbytes + size, qnum := Q.qnum + 1)],
         tasks := told, accepted := s.accepted + [m],
         msgBytes := s.msgBytes + size, msgHdrs := s.msgHdrs + 1)
  }

  // sys_msgrcv taking the message at position k.
  function Take(s: State, q: nat, k: nat): State
    requires Live(s, q) && k < |s.queues[q].messages|
  {
    var Q := s.queues[q];
    var m := Q.messages[k];
    s.(queues := s.queues[q := Q.(messages := Remove(Q.messages, k), qnum := Q.qnum - 1,
                                  cbytes := Q.cbytes - m.size, taken := Q.taken + [m])],
       msgBytes := s.msgBytes - m.size, msgHdrs := s.msgHdrs - 1, consumed := s.consumed + [m])
  }

  // sys_msgrcv going to sleep.
  function Sleep(s: State, q: nat, r: Receiver): State
    requires Live(s, q) && r.task < |s.tasks|
  {
    var Q := s.queues[q];
    s.(queues := s.queues[q := Q.(receivers := Q.receivers + [r])], tasks := s.tasks[r.task := Waiting(q)])
  }

  datatype Outcome = Received(msg: Msg) | E2BIG | ENOMSG | Slept

  function Receive(s: State, q: nat, task: nat, msgsz: nat, msgtyp: int, noerror: bool, except: bool, nowait: bool)
    : (State, Outcome)
    requires Live(s, q) && task < |s.tasks|
  {
    var (mode, mtype) := ConvertMode(msgtyp, except);
    var Q := s.queues[q];
    var k := Find(Q.messages, 0, mtype, mode, -1);
    if 0 <= k < |Q.messages| then
      if msgsz < Q.messages[k].size && !noerror then (s, E2BIG)
      else (Take(s, q, k), Received(Q.messages[k]))
    else if nowait then (s, ENOMSG)
    else
      var maxsize := if noerror then INT_MAX else msgsz;
      (Sleep(s, q, Receiver(task, mode, mtype, maxsize, Asked(msgtyp, except, msgsz, noerror))), Slept)
  }

  function IndexOf(rs: seq<Receiver>, task: nat): (k: nat)
    ensures k <= |rs|
    ensures forall j :: 0 <= j < k ==> rs[j].task != task
    ensures k < |rs| ==> rs[k].task == task
  {
    if rs == [] || rs[0].task == task then 0 else 1 + IndexOf(rs[1..], task)
  }

  // The receiver runs again and looks at r_msg.  Waiting means that it was woken
  // by a signal or by IPC_SET: it leaves the list and returns or retries.
  function Resume(s: State, task: nat): State
    requires task < |s.tasks|
  {
    var s' := s.(tasks := s.tasks[task := Running]);
    match s.tasks[task]
    case Running => s
    case Failed(_) => s'
    case Handed(m) => s'.(consumed := s.consumed + [m])
    case Waiting(q) =>
      if q < |s.queues| && IndexOf(s.queues[q].receivers, task) < |s.queues[q].receivers| then
        var Q := s.queues[q];
        s'.(queues := s.queues[q := Q.(receivers := Remove(Q.receivers, IndexOf(Q.receivers, task)))])
      else s'
  }

  function Names(rs: seq<Receiver>): (r: seq<nat>)
    ensures |r| == |rs| && forall i :: 0 <= i < |rs| ==> r[i] == rs[i].task
  {
    if rs == [] then [] else [rs[0].task] + Names(rs[1..])
  }

  const NoQueue := Queue(false, [], [], 0, 0, 0, [], [])

  // freeque
  function Free(s: State, q: nat): State
    requires Live(s, q)
  {
    var Q := s.queues[q];
    s.(queues := s.queues[q := NoQueue], tasks := Tell(s.tasks, Names(Q.receivers), Failed(Removed)),
       msgBytes := s.msgBytes - Q.cbytes, msgHdrs := s.msgHdrs - |Q.messages|,
       discarded := s.discarded + Q.messages)
  }

  datatype Action =
    | MsgSnd(q: nat, mtype: int, size: nat)
    | MsgRcv(q: nat, task: nat, msgsz: nat, msgtyp: int, noerror: bool, except: bool, nowait: bool)
    | RunAgain(task: nat)
    | NewQueue(q: nat, qbytes: int)
    | IpcSet(q: nat, qbytes: int)
    | IpcRmid(q: nat)

  // Calls that fail their checks, or that a sleeping task cannot make, change nothing.
  function Apply(s: State, a: Action): State {
    match a
    case MsgSnd(q, mtype, size) =>
      if Live(s, q) && 1 <= mtype <= LONG_MAX && size <= INT_MAX && !Full(s.queues[q], size)
      then Send(s, q, mtype, size) else s
    case MsgRcv(q, t, msgsz, msgtyp, noerror, except, nowait) =>
      if Live(s, q) && t < |s.tasks| && s.tasks[t] == Running && LONG_MIN <= msgtyp <= LONG_MAX
      then Receive(s, q, t, msgsz, msgtyp, noerror, except, nowait).0 else s
    case RunAgain(t) => if t < |s.tasks| then Resume(s, t) else s
    case NewQueue(q, qbytes) =>
      if q < |s.queues| && !s.queues[q].live
      then s.(queues := s.queues[q := NoQueue.(live := true, qbytes := qbytes)]) else s
    case IpcSet(q, qbytes) =>
      if Live(s, q) then s.(queues := s.queues[q := s.queues[q].(qbytes := qbytes)]) else s
    case IpcRmid(q) => if Live(s, q) then Free(s, q) else s
  }

  function Execute(s: State, run: seq<Action>): State
    decreases |run|
  {
    if run == [] then s else Execute(Apply(s, run[0]), run[1..])
  }

  function Initial(queues: nat, tasks: nat): State {
    State(seq(queues, _ => NoQueue), seq(tasks, _ => Running), 0, 0, [], [], [])
  }
}

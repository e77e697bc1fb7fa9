/**
  What every run of the message queues keeps: each accepted message is in exactly
  one place, messages of one type leave in the order they were sent, no sleeping
  receiver is passed over, and the counters are exact.
 */
module MessageQueueProofs {
  import opened MessageQueue

  // ----- the search -----

  // Position k holds the message that the caller of msgrcv is promised.
  ghost predicate IsPick(ms: seq<Msg>, k: int, mtype: int, mode: Mode) {
    && 0 <= k < |ms|
    && TestMsg(ms[k], mtype, mode)
    && (mode != LessEqual ==> forall j :: 0 <= j < k ==> !TestMsg(ms[j], mtype, mode))
    && (mode == LessEqual ==> forall j :: 0 <= j < |ms| ==>
          ms[k].mtype < ms[j].mtype || (ms[k].mtype == ms[j].mtype && k <= j))
  }

  ghost predicate Typed(ms: seq<Msg>) {
    forall i :: 0 <= i < |ms| ==> 1 <= ms[i].mtype <= LONG_MAX && ms[i].size <= INT_MAX
  }

  // The invariant of the search loop at position i.
  ghost predicate Searching(ms: seq<Msg>, i: nat, mtype0: int, mtype: int, mode: Mode, found: int) {
    && i <= |ms| && -1 <= found < i
    && (mode != LessEqual ==> found == -1 && mtype == mtype0)
    && (found == -1 ==> mtype == mtype0 && forall j :: 0 <= j < i ==> !TestMsg(ms[j], mtype0, mode))
    && (found >= 0 ==>
          && mtype == ms[found].mtype - 1 && ms[found].mtype <= mtype0
          && (forall j :: 0 <= j < i ==> ms[found].mtype <= ms[j].mtype)
          && (forall j :: 0 <= j < found ==> ms[found].mtype < ms[j].mtype))
  }

  lemma {:induction false} SearchFinds(ms: seq<Msg>, i: nat, mtype0: int, mtype: int, mode: Mode, found: int)
    requires Typed(ms) && Searching(ms, i, mtype0, mtype, mode, found)
    ensures var k := Find(ms, i, mtype, mode, found);
            if k == -1 then forall j :: 0 <= j < |ms| ==> !TestMsg(ms[j], mtype0, mode)
            else IsPick(ms, k, mtype0, mode)
    decreases |ms| - i
  {
    if i < |ms| {
      if TestMsg(ms[i], mtype, mode) {
        if mode == LessEqual && ms[i].mtype != 1 {
          SearchFinds(ms, i + 1, mtype0, ms[i].mtype - 1, mode, i);
        }
      } else {
        SearchFinds(ms, i + 1, mtype0, mtype, mode, found);
      }
    }
  }

  /** The search returns the promised message, and -1 exactly when nothing matches. */
  lemma FindPicks(ms: seq<Msg>, mtype: int, mode: Mode)
    requires Typed(ms)
    ensures var k := Find(ms, 0, mtype, mode, -1);
            if k == -1 then forall j :: 0 <= j < |ms| ==> !TestMsg(ms[j], mtype, mode)
            else IsPick(ms, k, mtype, mode)
  {
    SearchFinds(ms, 0, mtype, mtype, mode, -1);
  }

  // What a negative msgtyp asks for: the earliest message of the least type
  // among those not above |msgtyp|; -1 when there is none.
  ghost predicate LeastUpTo(ms: seq<Msg>, bound: int, k: int) {
    if k == -1 then forall j :: 0 <= j < |ms| ==> ms[j].mtype > bound
    else IsPick(ms, k, bound, LessEqual)
  }

  /** A negative msgtyp is served as promised, except for LONG_MIN, whose negation
      wraps so that no message ever matches. */
  lemma NegativeTypeServed(ms: seq<Msg>, msgtyp: int, except: bool)
    requires Typed(ms) && LONG_MIN <= msgtyp < 0
    ensures var (mode, mtype) := ConvertMode(msgtyp, except);
            LeastUpTo(ms, -msgtyp, Find(ms, 0, mtype, mode, -1)) <==> msgtyp != LONG_MIN || ms == []
  {
    var (mode, mtype) := ConvertMode(msgtyp, except);
    FindPicks(ms, mtype, mode);
    if msgtyp == LONG_MIN && ms != [] {
      var k := Find(ms, 0, mtype, mode, -1);
      assert ms[0].mtype <= -msgtyp;
    }
  }

  // ----- order by type -----

  function OfType(ms: seq<Msg>, t: int): seq<Msg> {
    if ms == [] then []
    else if ms[0].mtype == t then [ms[0]] + OfType(ms[1..], t)
    else OfType(ms[1..], t)
  }

  lemma {:induction false} OfTypeConcat(a: seq<Msg>, b: seq<Msg>, t: int)
    ensures OfType(a + b, t) == OfType(a, t) + OfType(b, t)
  {
    if a == [] {
      assert a + b == b;
    } else {
      assert (a + b)[1..] == a[1..] + b;
      OfTypeConcat(a[1..], b, t);
    }
  }

  lemma {:induction false} OfTypeNone(a: seq<Msg>, t: int)
    requires forall i :: 0 <= i < |a| ==> a[i].mtype != t
    ensures OfType(a, t) == []
  {
    if a != [] {
      OfTypeNone(a[1..], t);
    }
  }

  // Taking the first message of its type.
  lemma OfTypeRemove(ms: seq<Msg>, k: nat, t: int)
    requires k < |ms| && forall j :: 0 <= j < k ==> ms[j].mtype != ms[k].mtype
    ensures OfType(ms, t) == OfType([ms[k]], t) + OfType(Remove(ms, k), t)
  {
    var a, b := ms[..k], ms[k + 1..];
    assert ms == a + ([ms[k]] + b);
    OfTypeConcat(a, [ms[k]] + b, t);
    OfTypeConcat([ms[k]], b, t);
    OfTypeConcat(a, b, t);
    if t == ms[k].mtype {
      OfTypeNone(a, t);
    } else {
      assert OfType([ms[k]], t) == [];
    }
  }

  ghost predicate InOrder(q: Queue) {
    forall t :: OfType(q.sent, t) == OfType(q.taken, t) + OfType(q.messages, t)
  }

  // No receiver on the list wants any message on the queue.
  ghost predicate Quiet(q: Queue) {
    forall i, j :: 0 <= i < |q.messages| && 0 <= j < |q.receivers| ==> !Matches(q.messages[i], q.receivers[j])
  }

  function Bytes(ms: seq<Msg>): int {
    if ms == [] then 0 else ms[0].size + Bytes(ms[1..])
  }

  lemma {:induction false} BytesConcat(a: seq<Msg>, b: seq<Msg>)
    ensures Bytes(a + b) == Bytes(a) + Bytes(b)
  {
    if a == [] {
      assert a + b == b;
    } else {
      assert (a + b)[1..] == a[1..] + b;
      BytesConcat(a[1..], b);
    }
  }

  lemma {:induction false} BytesRemove(ms: seq<Msg>, k: nat)
    requires k < |ms|
    ensures Bytes(ms) == ms[k].size + Bytes(Remove(ms, k))
  {
    var rest := Remove(ms, k);
    if k == 0 {
      assert rest == ms[1..];
    } else {
      assert rest[0] == ms[0] && rest[1..] == Remove(ms[1..], k - 1);
      BytesRemove(ms[1..], k - 1);
    }
  }

  // The entry on the list is the one that its call asked for.
  predicate Honest(r: Receiver) {
    && (r.mode, r.mtype) == ConvertMode(r.asked.msgtyp, r.asked.except)
    && r.maxsize == if r.asked.noerror then INT_MAX else r.asked.msgsz
  }

  ghost predicate GoodQueue(q: Queue) {
    && Typed(q.messages) && InOrder(q) && Quiet(q)
    && (forall r :: r in q.receivers ==> Honest(r))
    && q.cbytes == Bytes(q.messages) && q.qnum == |q.messages|
    && (!q.live ==> q == NoQueue)
  }

  // ----- sums over queues and tasks -----

  function SumBytes(qs: seq<Queue>): int {
    if qs == [] then 0 else qs[0].cbytes + SumBytes(qs[1..])
  }

  function SumNum(qs: seq<Queue>): int {
    if qs == [] then 0 else qs[0].qnum + SumNum(qs[1..])
  }

  // How often the message occurs in a sequence, on the queues, in the hands of
  // receivers that have not run yet.
  function Count(ms: seq<Msg>, m: Msg): int {
    multiset(ms)[m]
  }

  function CountQueued(qs: seq<Queue>, m: Msg): int {
    if qs == [] then 0 else Count(qs[0].messages, m) + CountQueued(qs[1..], m)
  }

  function Holding(t: Task, m: Msg): int {
    if t == Handed(m) then 1 else 0
  }

  function CountInHand(ts: seq<Task>, m: Msg): int {
    if ts == [] then 0 else Holding(ts[0], m) + CountInHand(ts[1..], m)
  }

  lemma {:induction false} SumsUpdate(qs: seq<Queue>, i: nat, q: Queue)
    requires i < |qs|
    ensures SumBytes(qs[i := q]) == SumBytes(qs) - qs[i].cbytes + q.cbytes
    ensures SumNum(qs[i := q]) == SumNum(qs) - qs[i].qnum + q.qnum
  {
    var qs' := qs[i := q];
    if i == 0 {
      assert qs'[1..] == qs[1..];
    } else {
      assert qs'[1..] == qs[1..][i - 1 := q];
      SumsUpdate(qs[1..], i - 1, q);
    }
  }

  lemma {:induction false} CountQueuedUpdate(qs: seq<Queue>, i: nat, q: Queue, m: Msg)
    requires i < |qs|
    ensures CountQueued(qs[i := q], m) == CountQueued(qs, m) - Count(qs[i].messages, m) + Count(q.messages, m)
  {
    var qs' := qs[i := q];
    if i == 0 {
      assert qs'[1..] == qs[1..];
    } else {
      assert qs'[1..] == qs[1..][i - 1 := q];
      CountQueuedUpdate(qs[1..], i - 1, q, m);
    }
  }

  lemma {:induction false} CountInHandUpdate(ts: seq<Task>, i: nat, t: Task, m: Msg)
    requires i < |ts|
    ensures CountInHand(ts[i := t], m) == CountInHand(ts, m) - Holding(ts[i], m) + Holding(t, m)
  {
    var ts' := ts[i := t];
    if i == 0 {
      assert ts'[1..] == ts[1..];
    } else {
      assert ts'[1..] == ts[1..][i - 1 := t];
      CountInHandUpdate(ts[1..], i - 1, t, m);
    }
  }

  lemma {:induction false} TellFacts(ts: seq<Task>, who: seq<nat>, what: Task)
    requires forall i :: 0 <= i < |who| ==> who[i] < |ts|
    ensures |Tell(ts, who, what)| == |ts|
    ensures forall t :: 0 <= t < |ts| ==> Tell(ts, who, what)[t] == if t in who then what else ts[t]
    decreases |who|
  {
    if who != [] {
      TellFacts(ts[who[0] := what], who[1..], what);
      assert who == [who[0]] + who[1..];
    }
  }

  lemma {:induction false} TellHandsNothing(ts: seq<Task>, who: seq<nat>, what: Task, m: Msg)
    requires forall i :: 0 <= i < |who| ==> who[i] < |ts| && !ts[who[i]].Handed?
    requires !what.Handed?
    ensures CountInHand(Tell(ts, who, what), m) == CountInHand(ts, m)
    decreases |who|
  {
    if who != [] {
      CountInHandUpdate(ts, who[0], what, m);
      TellHandsNothing(ts[who[0] := what], who[1..], what, m);
    }
  }

  // ----- receivers -----

  ghost predicate Named(rs: seq<Receiver>, t: int) {
    exists r :: r in rs && r.task == t
  }

  ghost predicate DistinctTasks(rs: seq<Receiver>) {
    forall i, j :: 0 <= i < j < |rs| ==> rs[i].task != rs[j].task
  }

  lemma NamedCons(r: Receiver, rs: seq<Receiver>, t: int)
    ensures Named([r] + rs, t) <==> r.task == t || Named(rs, t)
  {
    if Named(rs, t) {
      var x :| x in rs && x.task == t;
      assert x in [r] + rs;
    }
    assert r in [r] + rs;
  }

  lemma DistinctCons(r: Receiver, rs: seq<Receiver>)
    ensures DistinctTasks([r] + rs) <==> DistinctTasks(rs) && !Named(rs, r.task)
  {
    var s := [r] + rs;
    assert forall i :: 0 <= i < |rs| ==> s[i + 1] == rs[i] && rs[i] in rs;
    if DistinctTasks(s) {
      forall x | x in rs ensures x.task != r.task {
        var i :| 0 <= i < |rs| && rs[i] == x;
        assert s[0].task != s[i + 1].task;
      }
      assert DistinctTasks(rs) by {
        forall i, j | 0 <= i < j < |rs| ensures rs[i].task != rs[j].task {
          assert s[i + 1].task != s[j + 1].task;
        }
      }
    }
  }

  predicate HasRoom(m: Msg, r: Receiver) {
    m.size <= r.maxsize
  }

  // The receivers that match the message, or those that do not, in order.
  function Pick(rs: seq<Receiver>, m: Msg, matching: bool): seq<Receiver> {
    if rs == [] then []
    else if Matches(m, rs[0]) == matching then [rs[0]] + Pick(rs[1..], m, matching)
    else Pick(rs[1..], m, matching)
  }

  lemma {:induction false} PickExact(rs: seq<Receiver>, m: Msg, matching: bool, r: Receiver)
    ensures r in Pick(rs, m, matching) <==> r in rs && Matches(m, r) == matching
  {
    if rs != [] {
      assert rs == [rs[0]] + rs[1..];
      PickExact(rs[1..], m, matching, r);
    }
  }

  // The receiver at position n is the first that matches and has room; n is the
  // length of the list when there is none.
  ghost predicate FirstWithRoom(rs: seq<Receiver>, m: Msg, n: nat) {
    && n <= |rs|
    && (forall i :: 0 <= i < n && Matches(m, rs[i]) ==> !HasRoom(m, rs[i]))
    && (n < |rs| ==> Matches(m, rs[n]) && HasRoom(m, rs[n]))
  }

  // That receiver takes the message.  The matching ones before it are refused,
  // the others before it and all after it stay, in order.
  ghost predicate Delivered(rs: seq<Receiver>, m: Msg, n: nat, d: Delivery) {
    && FirstWithRoom(rs, m, n)
    && d.taker == (if n < |rs| then rs[n].task else -1)
    && d.refused == Names(Pick(rs[..n], m, true))
    && d.left == Pick(rs[..n], m, false) + (if n < |rs| then rs[n + 1..] else [])
  }

  /** pipelined_send goes down the list to the first receiver that matches and has room;
      whoever it refuses on the way matches and lacks room. */
  lemma {:induction false} OfferDelivers(rs: seq<Receiver>, m: Msg) returns (n: nat)
    ensures Delivered(rs, m, n, Offer(rs, m))
    ensures forall r :: r in Pick(rs[..n], m, true) ==> r in rs && Matches(m, r) && !HasRoom(m, r)
  {
    if rs == [] || (Matches(m, rs[0]) && HasRoom(m, rs[0])) {
      n := 0;
    } else {
      n := OfferDelivers(rs[1..], m);
      OfferPasses(rs[0], rs[1..], m, n);
      assert rs == [rs[0]] + rs[1..];
      n := n + 1;
    }
    forall r | r in Pick(rs[..n], m, true) ensures r in rs && Matches(m, r) && !HasRoom(m, r) {
      RefusedLackRoom(rs, m, n, r);
    }
  }

  // The head of the list does not take the message.
  lemma OfferPasses(r: Receiver, rs: seq<Receiver>, m: Msg, n: nat)
    requires !(Matches(m, r) && HasRoom(m, r)) && Delivered(rs, m, n, Offer(rs, m))
    ensures Delivered([r] + rs, m, n + 1, Offer([r] + rs, m))
  {
    assert ([r] + rs)[1..] == rs;
    var d, d' := Offer(rs, m), Offer([r] + rs, m);
    if Matches(m, r) {
      assert d' == d.(refused := [r.task] + d.refused);
    } else {
      assert d' == d.(left := [r] + d.left);
    }
    DeliveredBehind(r, rs, m, n, d, d');
  }

  lemma DeliveredBehind(r: Receiver, rs: seq<Receiver>, m: Msg, n: nat, d: Delivery, d': Delivery)
    requires !(Matches(m, r) && HasRoom(m, r)) && Delivered(rs, m, n, d)
    requires d' == if Matches(m, r) then d.(refused := [r.task] + d.refused) else d.(left := [r] + d.left)
    ensures Delivered([r] + rs, m, n + 1, d')
  {
    PassedParts(r, rs, m, n);
    FirstBehind(r, rs, m, n);
    if !Matches(m, r) {
      var pass, rest := Pick(rs[..n], m, false), if n < |rs| then rs[n + 1..] else [];
      assert [r] + (pass + rest) == [r] + pass + rest;
    }
  }

  lemma FirstBehind(r: Receiver, rs: seq<Receiver>, m: Msg, n: nat)
    requires !(Matches(m, r) && HasRoom(m, r)) && FirstWithRoom(rs, m, n)
    ensures FirstWithRoom([r] + rs, m, n + 1)
  {
    var all := [r] + rs;
    assert forall i :: 0 < i < |all| ==> all[i] == rs[i - 1];
  }

  lemma PassedParts(r: Receiver, rs: seq<Receiver>, m: Msg, n: nat)
    requires n <= |rs|
    ensures Names(Pick(([r] + rs)[..n + 1], m, true)) ==
            (if Matches(m, r) then [r.task] else []) + Names(Pick(rs[..n], m, true))
    ensures Pick(([r] + rs)[..n + 1], m, false) == (if Matches(m, r) then [] else [r]) + Pick(rs[..n], m, false)
    ensures n < |rs| ==> ([r] + rs)[n + 2..] == rs[n + 1..]
  {
    assert ([r] + rs)[..n + 1] == [r] + rs[..n];
    PickCons(r, rs[..n], m);
    var small := Pick(rs[..n], m, true);
    assert ([r] + small)[1..] == small;
  }

  /** The refused ones match and have too little room. */
  lemma RefusedLackRoom(rs: seq<Receiver>, m: Msg, n: nat, r: Receiver)
    requires FirstWithRoom(rs, m, n) && r in Pick(rs[..n], m, true)
    ensures r in rs && Matches(m, r) && !HasRoom(m, r)
  {
    PickExact(rs[..n], m, true, r);
  }

  lemma PickCons(r: Receiver, rs: seq<Receiver>, m: Msg)
    ensures Pick([r] + rs, m, true) == (if Matches(m, r) then [r] else []) + Pick(rs, m, true)
    ensures Pick([r] + rs, m, false) == (if Matches(m, r) then [] else [r]) + Pick(rs, m, false)
  {
    assert ([r] + rs)[1..] == rs;
  }

  // Every task that slept is still listed, was refused or took the message.
  ghost predicate Separated(rs: seq<Receiver>, m: Msg, d: Delivery) {
    && DistinctTasks(d.left) && d.taker >= -1
    && (forall r :: r in d.left ==> r in rs)
    && (forall t :: Named(rs, t) <==> Named(d.left, t) || t in d.refused || (t == d.taker && t >= 0))
    && (forall t :: t in d.refused ==> !Named(d.left, t) && t != d.taker)
    && (d.taker >= 0 ==> !Named(d.left, d.taker))
    && (d.taker >= 0 ==> exists r :: r in rs && r.task == d.taker && Matches(m, r))
    && (d.taker == -1 ==> forall r :: r in d.left ==> !Matches(m, r))
  }

  lemma {:induction false} OfferSeparates(rs: seq<Receiver>, m: Msg)
    requires DistinctTasks(rs)
    ensures Separated(rs, m, Offer(rs, m))
  {
    if rs != [] {
      var r, tail := rs[0], rs[1..];
      assert rs == [r] + tail;
      DistinctCons(r, tail);
      forall t ensures Named(rs, t) <==> r.task == t || Named(tail, t) { NamedCons(r, tail, t); }
      if Matches(m, r) && r.maxsize >= m.size {
        assert r in rs && r.task == Offer(rs, m).taker;
      } else {
        OfferSeparates(tail, m);
        var d := Offer(tail, m);
        if !Matches(m, r) {
          forall t ensures Named([r] + d.left, t) <==> r.task == t || Named(d.left, t) { NamedCons(r, d.left, t); }
          DistinctCons(r, d.left);
        }
        if d.taker >= 0 {
          var x :| x in tail && x.task == d.taker && Matches(m, x);
          assert x in rs;
          assert Named(tail, d.taker);
        }
      }
    }
  }

  // ----- the invariants -----

  ghost predicate QueuesGood(s: State) {
    forall q :: 0 <= q < |s.queues| ==> GoodQueue(s.queues[q]) && DistinctTasks(s.queues[q].receivers)
  }

  // A task sleeps on a queue exactly when it is on the list of that queue, so a
  // task that wakes with r_msg still -EAGAIN finds its queue alive.
  ghost predicate SleepersListed(s: State) {
    && (forall q, r :: 0 <= q < |s.queues| && r in s.queues[q].receivers ==>
          r.task < |s.tasks| && s.tasks[r.task] == Waiting(q))
    && (forall t :: 0 <= t < |s.tasks| && s.tasks[t].Waiting? ==>
          Live(s, s.tasks[t].q) && Named(s.queues[s.tasks[t].q].receivers, t))
  }

  ghost predicate CountersExact(s: State) {
    s.msgBytes == SumBytes(s.queues) && s.msgHdrs == SumNum(s.queues)
  }

  // Every message occurs as often among the accepted ones as on the queues, in
  // the hands of receivers, among the consumed and the discarded together.
  ghost predicate Conserved(s: State) {
    forall m :: Count(s.accepted, m) ==
                CountQueued(s.queues, m) + CountInHand(s.tasks, m) + Count(s.consumed, m) + Count(s.discarded, m)
  }

  ghost predicate Numbered(s: State) {
    forall i :: 0 <= i < |s.accepted| ==> s.accepted[i].id == i
  }

  ghost predicate Inv(s: State) {
    QueuesGood(s) && SleepersListed(s) && CountersExact(s) && Conserved(s) && Numbered(s)
  }

  lemma AllTogether(s: State)
    requires QueuesGood(s) && SleepersListed(s) && CountersExact(s) && Conserved(s) && Numbered(s)
    ensures Inv(s)
  {
  }

  lemma OneQueueChanges(s: State, s': State, q: nat)
    requires QueuesGood(s) && q < |s.queues| == |s'.queues| && s'.queues == s.queues[q := s'.queues[q]]
    requires GoodQueue(s'.queues[q]) && DistinctTasks(s'.queues[q].receivers)
    ensures QueuesGood(s')
  {
  }

  lemma NoQueueGood()
    ensures GoodQueue(NoQueue) && DistinctTasks(NoQueue.receivers)
  {
  }

  lemma CountSnoc(ms: seq<Msg>, x: Msg, m: Msg)
    ensures Count(ms + [x], m) == Count(ms, m) + Count([x], m)
  {
  }

  lemma CountRemove(ms: seq<Msg>, k: nat, m: Msg)
    requires k < |ms|
    ensures Count(ms, m) == Count([ms[k]], m) + Count(Remove(ms, k), m)
  {
    assert ms == ms[..k] + [ms[k]] + ms[k + 1..];
  }

  // The tasks that left the list of queue q are no longer waiting; the rest is as before.
  lemma ListChange(s: State, s': State, q: nat)
    requires SleepersListed(s) && Live(s, q) && Live(s', q)
    requires |s'.queues| == |s.queues| && |s'.tasks| == |s.tasks|
    requires forall x :: 0 <= x < |s.queues| && x != q ==>
               s'.queues[x].receivers == s.queues[x].receivers && s'.queues[x].live == s.queues[x].live
    requires forall r :: r in s'.queues[q].receivers ==> r in s.queues[q].receivers
    requires forall t :: 0 <= t < |s.tasks| ==>
               if Named(s.queues[q].receivers, t) && !Named(s'.queues[q].receivers, t) then !s'.tasks[t].Waiting?
               else s'.tasks[t] == s.tasks[t] || (!s.tasks[t].Waiting? && !s'.tasks[t].Waiting?)
    ensures SleepersListed(s')
  {
    forall x, r | 0 <= x < |s'.queues| && r in s'.queues[x].receivers
      ensures r.task < |s'.tasks| && s'.tasks[r.task] == Waiting(x)
    {
      assert r in s.queues[x].receivers;
      assert s.tasks[r.task] == Waiting(x);
      if x == q {
        assert Named(s'.queues[q].receivers, r.task);
      } else {
        assert forall y :: y in s.queues[q].receivers ==> s.tasks[y.task] == Waiting(q);
      }
    }
    forall t | 0 <= t < |s'.tasks| && s'.tasks[t].Waiting?
      ensures Live(s', s'.tasks[t].q) && Named(s'.queues[s'.tasks[t].q].receivers, t)
    {
      assert s'.tasks[t] == s.tasks[t];
    }
  }

  // ----- send -----

  // Queueing a message that no receiver on the list wants.
  lemma EnqueueGood(Q: Queue, m: Msg, left: seq<Receiver>)
    requires GoodQueue(Q) && Q.live && 1 <= m.mtype <= LONG_MAX && m.size <= INT_MAX
    requires forall r :: r in left ==> r in Q.receivers && !Matches(m, r)
    ensures GoodQueue(Q.(receivers := left, sent := Q.sent + [m], messages := Q.messages + [m],
                         cbytes := Q.cbytes + m.size, qnum := Q.qnum + 1))
  {
    var Q' := Q.(receivers := left, sent := Q.sent + [m], messages := Q.messages + [m],
                 cbytes := Q.cbytes + m.size, qnum := Q.qnum + 1);
    BytesConcat(Q.messages, [m]);
    forall t ensures OfType(Q'.sent, t) == OfType(Q'.taken, t) + OfType(Q'.messages, t) {
      OfTypeConcat(Q.sent, [m], t);
      OfTypeConcat(Q.messages, [m], t);
    }
    forall i, j | 0 <= i < |Q'.messages| && 0 <= j < |left| ensures !Matches(Q'.messages[i], left[j]) {
      assert left[j] in Q.receivers;
    }
  }

  // The receiver that takes the message would have taken any older one of its type.
  lemma HandOffOvertakesNothing(Q: Queue, m: Msg, r: Receiver)
    requires Quiet(Q) && r in Q.receivers && Matches(m, r)
    ensures OfType(Q.messages, m.mtype) == []
  {
    var j :| 0 <= j < |Q.receivers| && Q.receivers[j] == r;
    forall i | 0 <= i < |Q.messages| ensures Q.messages[i].mtype != m.mtype {
      assert !Matches(Q.messages[i], Q.receivers[j]);
    }
    OfTypeNone(Q.messages, m.mtype);
  }

  lemma HandOffGood(Q: Queue, m: Msg, left: seq<Receiver>, r: Receiver)
    requires GoodQueue(Q) && Q.live && r in Q.receivers && Matches(m, r)
    requires forall x :: x in left ==> x in Q.receivers
    ensures GoodQueue(Q.(receivers := left, sent := Q.sent + [m], taken := Q.taken + [m]))
  {
    var Q' := Q.(receivers := left, sent := Q.sent + [m], taken := Q.taken + [m]);
    HandOffOvertakesNothing(Q, m, r);
    forall t ensures OfType(Q'.sent, t) == OfType(Q'.taken, t) + OfType(Q'.messages, t) {
      OfTypeConcat(Q.sent, [m], t);
      OfTypeConcat(Q.taken, [m], t);
      assert t != m.mtype ==> OfType([m], t) == [];
    }
    forall i, j | 0 <= i < |Q.messages| && 0 <= j < |left| ensures !Matches(Q.messages[i], left[j]) {
      assert left[j] in Q.receivers;
    }
  }

  predicate CanSend(s: State, q: nat, mtype: int, size: nat) {
    Live(s, q) && 1 <= mtype <= LONG_MAX && size <= INT_MAX
  }

  lemma SendDelivery(s: State, q: nat, m: Msg)
    requires QueuesGood(s) && SleepersListed(s) && Live(s, q)
    ensures var d := Offer(s.queues[q].receivers, m);
            var told := Tell(s.tasks, d.refused, Failed(TooBig));
            && Separated(s.queues[q].receivers, m, d)
            && |told| == |s.tasks| && d.taker < |told|
            && (forall i :: 0 <= i < |d.refused| ==> d.refused[i] < |s.tasks| && s.tasks[d.refused[i]] == Waiting(q))
            && (forall t :: 0 <= t < |told| ==> told[t] == if t in d.refused then Failed(TooBig) else s.tasks[t])
            && (d.taker >= 0 ==> told[d.taker] == Waiting(q))
  {
    var rs := s.queues[q].receivers;
    var d := Offer(rs, m);
    OfferSeparates(rs, m);
    forall i | 0 <= i < |d.refused| ensures d.refused[i] < |s.tasks| && s.tasks[d.refused[i]] == Waiting(q) {
      assert d.refused[i] in d.refused;
      var r :| r in rs && r.task == d.refused[i];
    }
    TellFacts(s.tasks, d.refused, Failed(TooBig));
  }

  lemma SendQueuesGood(s: State, q: nat, mtype: int, size: nat)
    requires QueuesGood(s) && SleepersListed(s) && CanSend(s, q, mtype, size)
    ensures QueuesGood(Send(s, q, mtype, size))
  {
    var m := Msg(|s.accepted|, mtype, size);
    var Q := s.queues[q];
    var d := Offer(Q.receivers, m);
    SendDelivery(s, q, m);
    if d.taker >= 0 {
      var r :| r in Q.receivers && r.task == d.taker && Matches(m, r);
      HandOffGood(Q, m, d.left, r);
    } else {
      EnqueueGood(Q, m, d.left);
    }
    OneQueueChanges(s, Send(s, q, mtype, size), q);
  }

  lemma SendSleepers(s: State, q: nat, mtype: int, size: nat)
    requires QueuesGood(s) && SleepersListed(s) && CanSend(s, q, mtype, size)
    ensures SleepersListed(Send(s, q, mtype, size))
  {
    var m := Msg(|s.accepted|, mtype, size);
    SendDelivery(s, q, m);
    ListChange(s, Send(s, q, mtype, size), q);
  }

  lemma SendConserves(s: State, q: nat, mtype: int, size: nat)
    requires QueuesGood(s) && SleepersListed(s) && Conserved(s) && CanSend(s, q, mtype, size)
    ensures Conserved(Send(s, q, mtype, size))
  {
    var m := Msg(|s.accepted|, mtype, size);
    var d := Offer(s.queues[q].receivers, m);
    var told := Tell(s.tasks, d.refused, Failed(TooBig));
    SendDelivery(s, q, m);
    var s' := Send(s, q, mtype, size);
    forall x ensures Count(s'.accepted, x) ==
                     CountQueued(s'.queues, x) + CountInHand(s'.tasks, x) + Count(s'.consumed, x) + Count(s'.discarded, x)
    {
      TellHandsNothing(s.tasks, d.refused, Failed(TooBig), x);
      CountSnoc(s.accepted, m, x);
      CountQueuedUpdate(s.queues, q, s'.queues[q], x);
      if d.taker >= 0 {
        CountInHandUpdate(told, d.taker, Handed(m), x);
      } else {
        CountSnoc(s.queues[q].messages, m, x);
      }
    }
  }

  lemma SendKeepsInv(s: State, q: nat, mtype: int, size: nat)
    requires Inv(s) && CanSend(s, q, mtype, size)
    ensures Inv(Send(s, q, mtype, size))
  {
    SendQueuesGood(s, q, mtype, size);
    SendSleepers(s, q, mtype, size);
    SendConserves(s, q, mtype, size);
    SumsUpdate(s.queues, q, Send(s, q, mtype, size).queues[q]);
    SendDelivery(s, q, Msg(|s.accepted|, mtype, size));
    AllTogether(Send(s, q, mtype, size));
  }

  // ----- receive -----

  // The picked message is the oldest of its type.
  lemma PickIsOldest(ms: seq<Msg>, k: int, mtype: int, mode: Mode)
    requires IsPick(ms, k, mtype, mode)
    ensures forall j :: 0 <= j < k ==> ms[j].mtype != ms[k].mtype
  {
  }

  lemma TakeInOrder(Q: Queue, k: nat, t: int)
    requires InOrder(Q) && k < |Q.messages|
    requires forall j :: 0 <= j < k ==> Q.messages[j].mtype != Q.messages[k].mtype
    ensures OfType(Q.sent, t) == OfType(Q.taken + [Q.messages[k]], t) + OfType(Remove(Q.messages, k), t)
  {
    var m := Q.messages[k];
    OfTypeConcat(Q.taken, [m], t);
    OfTypeRemove(Q.messages, k, t);
    assert OfType(Q.sent, t) == OfType(Q.taken, t) + OfType(Q.messages, t);
  }

  lemma TakeQuiet(Q: Queue, k: nat)
    requires Typed(Q.messages) && Quiet(Q) && k < |Q.messages|
    ensures Typed(Remove(Q.messages, k)) && Quiet(Q.(messages := Remove(Q.messages, k)))
  {
    var ms := Remove(Q.messages, k);
    assert forall i :: 0 <= i < |ms| ==> ms[i] == Q.messages[if i < k then i else i + 1];
  }

  lemma TakeGood(Q: Queue, k: nat)
    requires GoodQueue(Q) && Q.live && k < |Q.messages|
    requires forall j :: 0 <= j < k ==> Q.messages[j].mtype != Q.messages[k].mtype
    ensures GoodQueue(Q.(messages := Remove(Q.messages, k), qnum := Q.qnum - 1,
                         cbytes := Q.cbytes - Q.messages[k].size, taken := Q.taken + [Q.messages[k]]))
  {
    BytesRemove(Q.messages, k);
    TakeQuiet(Q, k);
    forall t ensures OfType(Q.sent, t) == OfType(Q.taken + [Q.messages[k]], t) + OfType(Remove(Q.messages, k), t) {
      TakeInOrder(Q, k, t);
    }
  }

  lemma TakeConserves(s: State, q: nat, k: nat)
    requires Conserved(s) && Live(s, q) && k < |s.queues[q].messages|
    ensures Conserved(Take(s, q, k))
  {
    var s' := Take(s, q, k);
    forall x ensures Count(s'.accepted, x) ==
                     CountQueued(s'.queues, x) + CountInHand(s'.tasks, x) + Count(s'.consumed, x) + Count(s'.discarded, x)
    {
      CountQueuedUpdate(s.queues, q, s'.queues[q], x);
      CountRemove(s.queues[q].messages, k, x);
      CountSnoc(s.consumed, s.queues[q].messages[k], x);
    }
  }

  lemma TakeQueuesGood(s: State, q: nat, k: nat)
    requires QueuesGood(s) && Live(s, q) && k < |s.queues[q].messages|
    requires var ms := s.queues[q].messages; forall j :: 0 <= j < k ==> ms[j].mtype != ms[k].mtype
    ensures QueuesGood(Take(s, q, k))
  {
    TakeGood(s.queues[q], k);
    OneQueueChanges(s, Take(s, q, k), q);
  }

  lemma TakeCounters(s: State, q: nat, k: nat)
    requires CountersExact(s) && SleepersListed(s) && Live(s, q) && k < |s.queues[q].messages|
    ensures CountersExact(Take(s, q, k)) && SleepersListed(Take(s, q, k))
  {
    var s' := Take(s, q, k);
    SumsUpdate(s.queues, q, s'.queues[q]);
    ConfigureSleepers(s, s');
  }

  lemma TakeKeepsInv(s: State, q: nat, k: nat)
    requires Inv(s) && Live(s, q) && k < |s.queues[q].messages|
    requires var ms := s.queues[q].messages; forall j :: 0 <= j < k ==> ms[j].mtype != ms[k].mtype
    ensures Inv(Take(s, q, k))
  {
    TakeQueuesGood(s, q, k);
    TakeCounters(s, q, k);
    TakeConserves(s, q, k);
    AllTogether(Take(s, q, k));
  }

  lemma SameMessagesSums(s: State, q: nat, Q: Queue)
    requires q < |s.queues| && Q.messages == s.queues[q].messages
    requires Q.cbytes == s.queues[q].cbytes && Q.qnum == s.queues[q].qnum
    ensures SumBytes(s.queues[q := Q]) == SumBytes(s.queues) && SumNum(s.queues[q := Q]) == SumNum(s.queues)
    ensures forall m :: CountQueued(s.queues[q := Q], m) == CountQueued(s.queues, m)
  {
    SumsUpdate(s.queues, q, Q);
    forall m ensures CountQueued(s.queues[q := Q], m) == CountQueued(s.queues, m) {
      CountQueuedUpdate(s.queues, q, Q, m);
    }
  }

  lemma SleepGood(Q: Queue, r: Receiver)
    requires GoodQueue(Q) && Q.live && DistinctTasks(Q.receivers) && !Named(Q.receivers, r.task) && Honest(r)
    requires forall i :: 0 <= i < |Q.messages| ==> !Matches(Q.messages[i], r)
    ensures GoodQueue(Q.(receivers := Q.receivers + [r])) && DistinctTasks(Q.receivers + [r])
  {
    forall i | 0 <= i < |Q.receivers| ensures Q.receivers[i].task != r.task {
      assert Q.receivers[i] in Q.receivers;
    }
  }

  lemma SleepSleepers(s: State, q: nat, r: Receiver)
    requires SleepersListed(s) && Live(s, q) && r.task < |s.tasks| && s.tasks[r.task] == Running
    ensures SleepersListed(Sleep(s, q, r))
  {
    var s' := Sleep(s, q, r);
    forall x, y | 0 <= x < |s'.queues| && y in s'.queues[x].receivers
      ensures y.task < |s'.tasks| && s'.tasks[y.task] == Waiting(x)
    {
      if y in s.queues[x].receivers {
        assert s.tasks[y.task] == Waiting(x);
      }
    }
    forall t | 0 <= t < |s'.tasks| && s'.tasks[t].Waiting?
      ensures Live(s', s'.tasks[t].q) && Named(s'.queues[s'.tasks[t].q].receivers, t)
    {
      if t == r.task {
        assert r in s'.queues[q].receivers;
      } else {
        var x :| x in s.queues[s.tasks[t].q].receivers && x.task == t;
        assert x in s'.queues[s.tasks[t].q].receivers;
      }
    }
  }

  lemma SleepKeepsInv(s: State, q: nat, r: Receiver)
    requires Inv(s) && Live(s, q) && r.task < |s.tasks| && s.tasks[r.task] == Running && Honest(r)
    requires forall i :: 0 <= i < |s.queues[q].messages| ==> !Matches(s.queues[q].messages[i], r)
    ensures Inv(Sleep(s, q, r))
  {
    var s' := Sleep(s, q, r);
    SleepSleepers(s, q, r);
    SleepGood(s.queues[q], r);
    OneQueueChanges(s, s', q);
    SameMessagesSums(s, q, s'.queues[q]);
    forall m ensures CountInHand(s'.tasks, m) == CountInHand(s.tasks, m) {
      CountInHandUpdate(s.tasks, r.task, Waiting(q), m);
    }
  }

  lemma ReceiveKeepsInv(s: State, q: nat, task: nat, msgsz: nat, msgtyp: int, noerror: bool, except: bool, nowait: bool)
    requires Inv(s) && Live(s, q) && task < |s.tasks| && s.tasks[task] == Running
    ensures Inv(Receive(s, q, task, msgsz, msgtyp, noerror, except, nowait).0)
  {
    var (mode, mtype) := ConvertMode(msgtyp, except);
    var ms := s.queues[q].messages;
    var k := Find(ms, 0, mtype, mode, -1);
    FindPicks(ms, mtype, mode);
    var s' := Receive(s, q, task, msgsz, msgtyp, noerror, except, nowait).0;
    if s' == s {
    } else if k == -1 {
      var maxsize := if noerror then INT_MAX else msgsz;
      var r := Receiver(task, mode, mtype, maxsize, Asked(msgtyp, except, msgsz, noerror));
      assert s' == Sleep(s, q, r);
      SleepKeepsInv(s, q, r);
    } else {
      assert s' == Take(s, q, k);
      PickIsOldest(ms, k, mtype, mode);
      TakeKeepsInv(s, q, k);
    }
  }

  // ----- a receiver runs again -----

  lemma RemoveDistinct(rs: seq<Receiver>, k: nat)
    requires DistinctTasks(rs) && k < |rs|
    ensures DistinctTasks(Remove(rs, k))
    ensures forall i :: 0 <= i < |Remove(rs, k)| ==> Remove(rs, k)[i] == rs[if i < k then i else i + 1]
  {
  }

  lemma RemoveReceiver(rs: seq<Receiver>, t: nat)
    requires DistinctTasks(rs) && Named(rs, t)
    ensures var k := IndexOf(rs, t);
            && k < |rs| && DistinctTasks(Remove(rs, k))
            && (forall r :: r in Remove(rs, k) <==> r in rs && r.task != t)
  {
    var k := IndexOf(rs, t);
    RemoveDistinct(rs, k);
    var rs' := Remove(rs, k);
    forall r | r in rs' ensures r in rs && r.task != t {
      var i :| 0 <= i < |rs'| && rs'[i] == r;
      assert r == rs[if i < k then i else i + 1] && rs[k].task == t;
    }
    forall r | r in rs && r.task != t ensures r in rs' {
      var i :| 0 <= i < |rs| && rs[i] == r;
      assert rs'[if i < k then i else i - 1] == r;
    }
  }

  lemma AwakeSleepers(s: State, task: nat)
    requires SleepersListed(s) && task < |s.tasks| && !s.tasks[task].Waiting?
    ensures SleepersListed(s.(tasks := s.tasks[task := Running]))
  {
    forall x, r | 0 <= x < |s.queues| && r in s.queues[x].receivers ensures r.task != task {
      assert s.tasks[r.task] == Waiting(x);
    }
  }

  // A task with an error or a message in its hands takes note of it.
  lemma PickUpConserves(s: State, task: nat)
    requires Conserved(s) && task < |s.tasks| && (s.tasks[task].Handed? || s.tasks[task].Failed?)
    ensures Conserved(Resume(s, task))
  {
    var s' := Resume(s, task);
    var was := s.tasks[task];
    forall x ensures Count(s'.accepted, x) ==
                     CountQueued(s'.queues, x) + CountInHand(s'.tasks, x) + Count(s'.consumed, x) + Count(s'.discarded, x)
    {
      CountInHandUpdate(s.tasks, task, Running, x);
      if was.Handed? {
        CountSnoc(s.consumed, was.msg, x);
      }
    }
  }

  lemma PickUpKeepsInv(s: State, task: nat)
    requires Inv(s) && task < |s.tasks| && (s.tasks[task].Handed? || s.tasks[task].Failed?)
    ensures Inv(Resume(s, task))
  {
    AwakeSleepers(s, task);
    PickUpConserves(s, task);
    AllTogether(Resume(s, task));
  }

  lemma ResumeKeepsInv(s: State, task: nat)
    requires Inv(s) && task < |s.tasks|
    ensures Inv(Resume(s, task))
  {
    if s.tasks[task].Waiting? {
      LeaveKeepsInv(s, task);
    } else if s.tasks[task] != Running {
      PickUpKeepsInv(s, task);
    }
  }

  lemma LeaveSleepers(s: State, task: nat)
    requires QueuesGood(s) && SleepersListed(s) && task < |s.tasks| && s.tasks[task].Waiting?
    ensures SleepersListed(Resume(s, task))
  {
    var q := s.tasks[task].q;
    var rs, rs' := s.queues[q].receivers, Resume(s, task).queues[q].receivers;
    RemoveReceiver(rs, task);
    forall t | 0 <= t < |s.tasks| && t != task && Named(rs, t) ensures Named(rs', t) {
      var x :| x in rs && x.task == t;
      assert x in rs';
    }
    assert !Named(rs', task);
    ListChange(s, Resume(s, task), q);
  }

  lemma FewerReceiversGood(Q: Queue, rs: seq<Receiver>)
    requires GoodQueue(Q) && Q.live && forall r :: r in rs ==> r in Q.receivers
    ensures GoodQueue(Q.(receivers := rs))
  {
    forall i, j | 0 <= i < |Q.messages| && 0 <= j < |rs| ensures !Matches(Q.messages[i], rs[j]) {
      assert rs[j] in Q.receivers;
    }
  }

  lemma LeaveKeepsInv(s: State, task: nat)
    requires Inv(s) && task < |s.tasks| && s.tasks[task].Waiting?
    ensures Inv(Resume(s, task))
  {
    var q := s.tasks[task].q;
    var s' := Resume(s, task);
    RemoveReceiver(s.queues[q].receivers, task);
    LeaveSleepers(s, task);
    FewerReceiversGood(s.queues[q], s'.queues[q].receivers);
    OneQueueChanges(s, s', q);
    SameMessagesSums(s, q, s'.queues[q]);
    forall m ensures CountInHand(s'.tasks, m) == CountInHand(s.tasks, m) {
      CountInHandUpdate(s.tasks, task, Running, m);
    }
  }

  // ----- IPC_RMID -----

  // Who is told that the queue is gone: exactly the tasks on its list.
  lemma FreeTells(s: State, q: nat)
    requires SleepersListed(s) && Live(s, q)
    ensures var who := Names(s.queues[q].receivers);
            && (forall i :: 0 <= i < |who| ==> who[i] < |s.tasks| && s.tasks[who[i]] == Waiting(q))
            && (forall t :: t in who <==> Named(s.queues[q].receivers, t))
            && |Free(s, q).tasks| == |s.tasks|
            && (forall t :: 0 <= t < |s.tasks| ==>
                  Free(s, q).tasks[t] == if t in who then Failed(Removed) else s.tasks[t])
  {
    var rs := s.queues[q].receivers;
    var who := Names(rs);
    forall i | 0 <= i < |who| ensures who[i] < |s.tasks| && s.tasks[who[i]] == Waiting(q) {
      assert rs[i] in rs;
    }
    forall r | r in rs ensures r.task in who {
      var i :| 0 <= i < |rs| && rs[i] == r;
      assert who[i] == r.task;
    }
    forall t | t in who ensures Named(rs, t) {
      var i :| 0 <= i < |who| && who[i] == t;
      assert rs[i] in rs;
    }
    TellFacts(s.tasks, who, Failed(Removed));
  }

  lemma FreeSleepers(s: State, q: nat)
    requires SleepersListed(s) && Live(s, q)
    ensures SleepersListed(Free(s, q))
  {
    var s' := Free(s, q);
    FreeTells(s, q);
    forall x, r | 0 <= x < |s'.queues| && r in s'.queues[x].receivers
      ensures r.task < |s'.tasks| && s'.tasks[r.task] == Waiting(x)
    {
      assert r in s.queues[x].receivers;
      assert forall y :: y in s.queues[q].receivers ==> s.tasks[y.task] == Waiting(q);
    }
    forall t | 0 <= t < |s'.tasks| && s'.tasks[t].Waiting?
      ensures Live(s', s'.tasks[t].q) && Named(s'.queues[s'.tasks[t].q].receivers, t)
    {
      assert s.tasks[t] == s'.tasks[t] && !Named(s.queues[q].receivers, t);
    }
  }

  lemma FreeConserves(s: State, q: nat)
    requires SleepersListed(s) && Live(s, q) && Conserved(s)
    ensures Conserved(Free(s, q))
  {
    var s' := Free(s, q);
    FreeTells(s, q);
    forall x ensures Count(s'.accepted, x) ==
                     CountQueued(s'.queues, x) + CountInHand(s'.tasks, x) + Count(s'.consumed, x) + Count(s'.discarded, x)
    {
      CountQueuedUpdate(s.queues, q, NoQueue, x);
      TellHandsNothing(s.tasks, Names(s.queues[q].receivers), Failed(Removed), x);
      assert multiset(s'.discarded) == multiset(s.discarded) + multiset(s.queues[q].messages);
    }
  }

  lemma FreeKeepsInv(s: State, q: nat)
    requires Inv(s) && Live(s, q)
    ensures Inv(Free(s, q))
  {
    FreeSleepers(s, q);
    FreeConserves(s, q);
    SumsUpdate(s.queues, q, NoQueue);
    NoQueueGood();
    OneQueueChanges(s, Free(s, q), q);
  }

  // ----- runs -----

  lemma ConfigureGood(Q: Queue, Q': Queue)
    requires GoodQueue(Q) && Q' == Q.(live := true, qbytes := Q'.qbytes)
    ensures GoodQueue(Q')
  {
  }

  lemma ConfigureSleepers(s: State, s': State)
    requires SleepersListed(s) && s'.tasks == s.tasks && |s'.queues| == |s.queues|
    requires forall x :: 0 <= x < |s.queues| ==>
               s'.queues[x].receivers == s.queues[x].receivers && (s.queues[x].live ==> s'.queues[x].live)
    ensures SleepersListed(s')
  {
  }

  lemma ConfigureKeepsInv(s: State, q: nat, Q: Queue)
    requires Inv(s) && q < |s.queues|
    requires Q == s.queues[q].(live := true, qbytes := Q.qbytes)
    ensures Inv(s.(queues := s.queues[q := Q]))
  {
    var s' := s.(queues := s.queues[q := Q]);
    SameMessagesSums(s, q, Q);
    ConfigureSleepers(s, s');
    ConfigureGood(s.queues[q], Q);
    OneQueueChanges(s, s', q);
  }

  lemma ApplyKeepsInv(s: State, a: Action)
    requires Inv(s)
    ensures Inv(Apply(s, a))
  {
    match a
    case MsgSnd(q, mtype, size) =>
      if CanSend(s, q, mtype, size) { SendKeepsInv(s, q, mtype, size); }
    case MsgRcv(q, t, msgsz, msgtyp, noerror, except, nowait) =>
      if Live(s, q) && t < |s.tasks| && s.tasks[t] == Running {
        ReceiveKeepsInv(s, q, t, msgsz, msgtyp, noerror, except, nowait);
      }
    case RunAgain(t) => if t < |s.tasks| { ResumeKeepsInv(s, t); }
    case NewQueue(q, qbytes) =>
      if q < |s.queues| && !s.queues[q].live {
        assert s.queues[q] == NoQueue;
        ConfigureKeepsInv(s, q, NoQueue.(live := true, qbytes := qbytes));
      }
    case IpcSet(q, qbytes) =>
      if Live(s, q) { ConfigureKeepsInv(s, q, s.queues[q].(qbytes := qbytes)); }
    case IpcRmid(q) => if Live(s, q) { FreeKeepsInv(s, q); }
  }

  lemma {:induction false} EmptySums(n: nat, t: nat, m: Msg)
    ensures SumBytes(Initial(n, t).queues) == 0 && SumNum(Initial(n, t).queues) == 0
    ensures CountQueued(Initial(n, t).queues, m) == 0 && CountInHand(Initial(n, t).tasks, m) == 0
    decreases n, t
  {
    if n > 0 {
      assert Initial(n, t).queues[1..] == Initial(n - 1, t).queues;
      EmptySums(n - 1, t, m);
    } else if t > 0 {
      assert Initial(n, t).tasks[1..] == Initial(n, t - 1).tasks;
      EmptySums(n, t - 1, m);
    }
  }

  lemma InitialInv(n: nat, t: nat)
    ensures Inv(Initial(n, t))
  {
    EmptySums(n, t, Msg(0, 0, 0));
    forall m ensures CountQueued(Initial(n, t).queues, m) == 0 && CountInHand(Initial(n, t).tasks, m) == 0 {
      EmptySums(n, t, m);
    }
  }

  lemma {:induction false} ExecuteKeepsInv(s: State, run: seq<Action>)
    requires Inv(s)
    ensures Inv(Execute(s, run))
    decreases |run|
  {
    if run != [] {
      ApplyKeepsInv(s, run[0]);
      ExecuteKeepsInv(Apply(s, run[0]), run[1..]);
    }
  }

  /** In every reachable state: every accepted message is in exactly one place. */
  lemma ReachableOnePlace(n: nat, t: nat, run: seq<Action>, m: Msg)
    ensures var s := Execute(Initial(n, t), run);
            CountQueued(s.queues, m) + CountInHand(s.tasks, m) + Count(s.consumed, m) + Count(s.discarded, m)
            == if m in s.accepted then 1 else 0
  {
    InitialInv(n, t);
    ExecuteKeepsInv(Initial(n, t), run);
    var s := Execute(Initial(n, t), run);
    CountNumbered(s.accepted, m);
  }

  lemma {:induction false} CountNumbered(ms: seq<Msg>, m: Msg)
    requires forall i :: 0 <= i < |ms| ==> ms[i].id == i
    ensures Count(ms, m) == if m in ms then 1 else 0
    decreases |ms|
  {
    if ms != [] {
      var front, x := ms[..|ms| - 1], ms[|ms| - 1];
      assert ms == front + [x];
      CountNumbered(front, m);
      CountSnoc(front, x, m);
    }
  }

  /** In every reachable state: messages of one type left the queue in the order
      they were sent, nobody sleeps while a message for it is queued, and the
      counters of the queue and of the system are exact. */
  lemma ReachableQueues(n: nat, t: nat, run: seq<Action>, q: nat)
    requires q < |Execute(Initial(n, t), run).queues|
    ensures var s := Execute(Initial(n, t), run);
            var Q := s.queues[q];
            && (forall k :: OfType(Q.taken, k) <= OfType(Q.sent, k))
            && Quiet(Q)
            && Q.cbytes == Bytes(Q.messages) && Q.qnum == |Q.messages|
            && s.msgBytes == SumBytes(s.queues) && s.msgHdrs == SumNum(s.queues)
  {
    InitialInv(n, t);
    ExecuteKeepsInv(Initial(n, t), run);
    assert InOrder(Execute(Initial(n, t), run).queues[q]);
  }
}

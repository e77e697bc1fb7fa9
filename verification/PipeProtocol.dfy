/**
  Readers and writers of a pipe, as atomic steps between the points where they
  give up the pipe's semaphore.
 */
module PipeProtocol {
  const PIPE_SIZE := 4096
  const PIPE_BUF := 4096

  // Bytes are only moved; their values play no part.
  type Byte = int

  // The bytes that one step moved for one call.
  datatype Segment = Segment(call: nat, bytes: seq<Byte>)

  function Bytes(log: seq<Segment>): seq<Byte> {
    if log == [] then [] else Bytes(log[..|log| - 1]) + log[|log| - 1].bytes
  }

  // The segments of one call.
  function Of(log: seq<Segment>, call: nat): seq<Segment> {
    if log == [] then []
    else
      var rest, last := log[..|log| - 1], log[|log| - 1];
      if last.call == call then Of(rest, call) + [last] else Of(rest, call)
  }

  // A write call asleep in pipe_wait.
  datatype Writer = Writer(data: seq<Byte>, done: nat)

  // The writing side: the sleeping writers, what went into the pipe, the data of
  // every write call, and the calls cut short by a fault.
  datatype Ledger = Ledger(
    writers: map<nat, Writer>, entered: seq<Segment>,
    writes: map<nat, seq<Byte>>, faulted: set<nat>)

  // `readers` maps the sleeping readers to what they still want; `left` is what
  // went out of the pipe.
  datatype State = State(
    contents: seq<Byte>, ledger: Ledger,
    readers: map<nat, nat>, left: seq<Segment>,
    openReaders: nat, openWriters: nat)

  const INIT := State([], Ledger(map[], [], map[], {}), map[], [], 1, 1)

  function Min(a: nat, b: nat): nat {
    if a < b then a else b
  }

  function Room(s: State): nat {
    if |s.contents| <= PIPE_SIZE then PIPE_SIZE - |s.contents| else 0
  }

  function Rest(w: Writer): nat {
    if w.done <= |w.data| then |w.data| - w.done else 0
  }

  // What must be free before the copying starts: all of a small write.
  function Needed(w: Writer): nat {
    if w.done > 0 then 1 else if |w.data| <= PIPE_BUF then |w.data| else 1
  }

  // ----- writing -----

  function Post(l: Ledger, call: nat, piece: seq<Byte>): Ledger {
    if piece == [] then l else l.(entered := l.entered + [Segment(call, piece)])
  }

  // What a step copies in: what fits, as far as `intact` bytes come without a fault.
  function Piece(room: nat, w: Writer, intact: nat): (r: seq<Byte>)
    ensures |r| == Min(Min(room, Rest(w)), intact) && (w.done <= |w.data| ==> r <= w.data[w.done..])
  {
    if w.done <= |w.data| then w.data[w.done..w.done + Min(Min(room, Rest(w)), intact)] else []
  }

  // The writing side after `piece` was copied: a blocking write that is not
  // through sleeps.
  function Copied(l: Ledger, call: nat, w: Writer, room: nat, piece: seq<Byte>, nonblock: bool): Ledger {
    var l1 := Post(l, call, piece);
    if |piece| < Min(room, Rest(w)) then
      l1.(writers := l.writers - {call}, faulted := l.faulted + {call})
    else if w.done + |piece| < |w.data| && !nonblock then
      l1.(writers := l.writers[call := Writer(w.data, w.done + |piece|)])
    else l1.(writers := l.writers - {call})
  }

  function CopyIn(s: State, call: nat, w: Writer, nonblock: bool, intact: nat): State {
    var piece := Piece(Room(s), w, intact);
    s.(contents := s.contents + piece, ledger := Copied(s.ledger, call, w, Room(s), piece, nonblock))
  }

  function Registered(l: Ledger, call: nat, data: seq<Byte>): Ledger {
    l.(writes := l.writes[call := data])
  }

  function Asleep(l: Ledger, call: nat, w: Writer): Ledger {
    l.(writers := l.writers[call := w])
  }

  function Gone(l: Ledger, call: nat): Ledger {
    l.(writers := l.writers - {call})
  }

  // pipe_write up to its first sleep or its end.
  function StartWrite(s: State, call: nat, data: seq<Byte>, nonblock: bool, intact: nat): State {
    var w := Writer(data, 0);
    var s1 := s.(ledger := Registered(s.ledger, call, data));
    if data == [] || s.openReaders == 0 then s1
    else if Room(s) < Needed(w) then
      if nonblock then s1 else s1.(ledger := Asleep(s1.ledger, call, w))
    else CopyIn(s1, call, w, nonblock, intact)
  }

  // Back from a sleep, woken for whatever reason.
  function ResumeWrite(s: State, call: nat, signal: bool, intact: nat): State
    requires call in s.ledger.writers
  {
    var w := s.ledger.writers[call];
    if signal || s.openReaders == 0 then s.(ledger := Gone(s.ledger, call))
    else if Room(s) < Needed(w) then s
    else CopyIn(s, call, w, false, intact)
  }

  // ----- reading -----

  // Copy out what there is, as far as `intact` bytes go without a fault.
  // Afterwards a blocking reader that wants more while writers wait for room sleeps.
  function CopyOut(s: State, call: nat, count: nat, nonblock: bool, intact: nat): State {
    var k := Min(count, |s.contents|);
    var m := Min(k, intact);
    var more := m == k && k < count && s.ledger.writers != map[] && !nonblock && s.openWriters > 0;
    s.(contents := s.contents[m..],
       left := if m == 0 then s.left else s.left + [Segment(call, s.contents[..m])],
       readers := if more then s.readers[call := count - k] else s.readers - {call})
  }

  function StartRead(s: State, call: nat, count: nat, nonblock: bool, intact: nat): State {
    if count == 0 then s
    else if s.contents == [] then
      if s.openWriters == 0 || nonblock then s else s.(readers := s.readers[call := count])
    else CopyOut(s, call, count, nonblock, intact)
  }

  function ResumeRead(s: State, call: nat, signal: bool, intact: nat): State
    requires call in s.readers
  {
    if signal then s.(readers := s.readers - {call})
    else if s.contents == [] then
      if s.openWriters == 0 then s.(readers := s.readers - {call}) else s
    else CopyOut(s, call, s.readers[call], false, intact)
  }

  // ----- runs -----

  datatype Action =
    | Write(call: nat, data: seq<Byte>, nonblock: bool, intact: nat)
    | WakeWriter(call: nat, signal: bool, intact: nat)
    | Read(call: nat, count: nat, nonblock: bool, intact: nat)
    | WakeReader(call: nat, signal: bool, intact: nat)
    | SetOpen(openReaders: nat, openWriters: nat)

  function Apply(s: State, a: Action): State {
    match a
    case Write(call, data, nonblock, intact) =>
      if call in s.ledger.writes then s else StartWrite(s, call, data, nonblock, intact)
    case WakeWriter(call, signal, intact) =>
      if call in s.ledger.writers then ResumeWrite(s, call, signal, intact) else s
    case Read(call, count, nonblock, intact) => StartRead(s, call, count, nonblock, intact)
    case WakeReader(call, signal, intact) =>
      if call in s.readers then ResumeRead(s, call, signal, intact) else s
    case SetOpen(openReaders, openWriters) => s.(openReaders := openReaders, openWriters := openWriters)
  }

  function Execute(run: seq<Action>): State
    decreases |run|
  {
    if run == [] then INIT else Apply(Execute(run[..|run| - 1]), run[|run| - 1])
  }

  // ----- the invariant -----

  // What went in is what came out and what is there.
  ghost predicate Conserved(s: State) {
    Bytes(s.ledger.entered) == Bytes(s.left) + s.contents && |s.contents| <= PIPE_SIZE
  }

  // A call has put in a prefix of its data: all of it at once if it is small,
  // unless a fault cut it short.
  ghost predicate InOrder(data: seq<Byte>, segs: seq<Segment>, fault: bool) {
    && Bytes(segs) <= data
    && (|data| <= PIPE_BUF ==> |segs| <= 1)
    && (|data| <= PIPE_BUF && |segs| == 1 && !fault ==> segs[0].bytes == data)
  }

  ghost predicate CallKept(l: Ledger, call: nat)
    requires call in l.writes
  {
    InOrder(l.writes[call], Of(l.entered, call), call in l.faulted)
  }

  // A writer has put in what it thinks; a small one that sleeps nothing yet.
  ghost predicate Partway(w: Writer, segs: seq<Segment>) {
    && w.done < |w.data| && Bytes(segs) == w.data[..w.done]
    && (w.done == 0 ==> segs == [])
    && (|w.data| <= PIPE_BUF ==> w.done == 0)
  }

  ghost predicate SleeperKept(l: Ledger, call: nat)
    requires call in l.writers
  {
    && call in l.writes && l.writes[call] == l.writers[call].data
    && Partway(l.writers[call], Of(l.entered, call))
  }

  ghost predicate Known(l: Ledger) {
    forall i {:trigger l.entered[i]} :: 0 <= i < |l.entered| ==> l.entered[i].call in l.writes
  }

  ghost predicate Kept(l: Ledger) {
    && Known(l)
    && (forall call {:trigger CallKept(l, call)} :: call in l.writes ==> CallKept(l, call))
    && (forall call {:trigger SleeperKept(l, call)} :: call in l.writers ==> SleeperKept(l, call))
  }

  ghost predicate Inv(s: State) {
    Conserved(s) && Kept(s.ledger)
  }

  // ----- the writing side -----

  lemma BytesSnoc(log: seq<Segment>, g: Segment)
    ensures Bytes(log + [g]) == Bytes(log) + g.bytes
  {
    assert (log + [g])[..|log|] == log;
  }

  lemma OfSnoc(log: seq<Segment>, g: Segment, call: nat)
    ensures Of(log + [g], call) == if g.call == call then Of(log, call) + [g] else Of(log, call)
  {
    assert (log + [g])[..|log|] == log;
  }

  lemma {:induction false} OfUnknown(log: seq<Segment>, call: nat)
    requires forall i :: 0 <= i < |log| ==> log[i].call != call
    ensures Of(log, call) == []
  {
    if log != [] {
      OfUnknown(log[..|log| - 1], call);
    }
  }

  // What a change by `call` leaves alone of another call.
  ghost predicate Same(l: Ledger, l': Ledger, other: nat) {
    && Of(l'.entered, other) == Of(l.entered, other)
    && (other in l'.writes <==> other in l.writes) && (other in l.writes ==> l'.writes[other] == l.writes[other])
    && (other in l'.writers ==> other in l.writers && l'.writers[other] == l.writers[other])
    && (other in l'.faulted <==> other in l.faulted)
  }

  // If all other calls are left alone, only `call` has to be looked at.
  lemma OneCall(l: Ledger, l': Ledger, call: nat)
    requires Kept(l) && Known(l') && forall other :: other != call ==> Same(l, l', other)
    requires call in l'.writes ==> CallKept(l', call)
    requires call in l'.writers ==> SleeperKept(l', call)
    ensures Kept(l')
  {
    forall other | other in l'.writes ensures CallKept(l', other) {
      if other != call {
        assert Same(l, l', other);
        assert CallKept(l, other);
      }
    }
    forall other | other in l'.writers ensures SleeperKept(l', other) {
      if other != call {
        assert Same(l, l', other);
        assert SleeperKept(l, other);
      }
    }
  }

  lemma PostOf(l: Ledger, call: nat, piece: seq<Byte>, other: nat)
    ensures Of(Post(l, call, piece).entered, other)
         == if other == call && piece != [] then Of(l.entered, call) + [Segment(call, piece)] else Of(l.entered, other)
  {
    OfSnoc(l.entered, Segment(call, piece), other);
  }

  lemma GrownInOrder(w: Writer, segs: seq<Segment>, room: nat, g: Segment, fault: bool)
    requires Partway(w, segs) && room >= Needed(w)
    requires g.bytes <= w.data[w.done..] && (!fault ==> |g.bytes| == Min(room, Rest(w)))
    ensures InOrder(w.data, segs + [g], fault)
    ensures Bytes(segs + [g]) == w.data[..w.done + |g.bytes|]
  {
    BytesSnoc(segs, g);
    assert w.data[..w.done] + g.bytes == w.data[..w.done + |g.bytes|];
  }

  lemma SameInOrder(w: Writer, segs: seq<Segment>, fault: bool)
    requires Partway(w, segs)
    ensures InOrder(w.data, segs, fault)
  {
  }

  // The call of a step that copies: registered, with enough room.
  ghost predicate Ready(l: Ledger, call: nat, w: Writer, room: nat) {
    && Kept(l) && call in l.writes && l.writes[call] == w.data
    && Partway(w, Of(l.entered, call)) && room >= Needed(w)
  }

  lemma CopiedCall(l: Ledger, call: nat, w: Writer, room: nat, nonblock: bool, intact: nat)
    requires Ready(l, call, w, room)
    ensures var l' := Copied(l, call, w, room, Piece(room, w, intact), nonblock);
            CallKept(l', call) && (call in l'.writers ==> SleeperKept(l', call))
  {
    var piece := Piece(room, w, intact);
    var l' := Copied(l, call, w, room, piece, nonblock);
    PostOf(l, call, piece, call);
    if piece == [] {
      SameInOrder(w, Of(l.entered, call), call in l'.faulted);
    } else {
      GrownInOrder(w, Of(l.entered, call), room, Segment(call, piece), call in l'.faulted);
    }
  }

  lemma CopiedSame(l: Ledger, call: nat, w: Writer, room: nat, piece: seq<Byte>, nonblock: bool, other: nat)
    requires other != call
    ensures Same(l, Copied(l, call, w, room, piece, nonblock), other)
  {
    PostOf(l, call, piece, other);
  }

  lemma CopiedKnown(l: Ledger, call: nat, w: Writer, room: nat, piece: seq<Byte>, nonblock: bool)
    requires Known(l) && call in l.writes
    ensures Known(Copied(l, call, w, room, piece, nonblock))
  {
  }

  lemma CopiedKept(l: Ledger, call: nat, w: Writer, room: nat, nonblock: bool, intact: nat)
    requires Ready(l, call, w, room)
    ensures Kept(Copied(l, call, w, room, Piece(room, w, intact), nonblock))
  {
    var piece := Piece(room, w, intact);
    var l' := Copied(l, call, w, room, piece, nonblock);
    CopiedCall(l, call, w, room, nonblock, intact);
    CopiedKnown(l, call, w, room, piece, nonblock);
    forall other: nat | other != call ensures Same(l, l', other) {
      CopiedSame(l, call, w, room, piece, nonblock, other);
    }
    OneCall(l, l', call);
  }

  // A new call has put in nothing.
  lemma RegisteredKept(l: Ledger, call: nat, data: seq<Byte>)
    requires Kept(l) && call !in l.writes
    ensures Kept(Registered(l, call, data)) && Of(l.entered, call) == []
  {
    OfUnknown(l.entered, call);
    assert call in l.writers ==> SleeperKept(l, call);
    OneCall(l, Registered(l, call, data), call);
  }

  lemma AsleepKept(l: Ledger, call: nat, data: seq<Byte>)
    requires Kept(l) && call in l.writes && l.writes[call] == data && data != [] && Of(l.entered, call) == []
    ensures Kept(Asleep(l, call, Writer(data, 0)))
  {
    assert CallKept(l, call);
    OneCall(l, Asleep(l, call, Writer(data, 0)), call);
  }

  lemma GoneKept(l: Ledger, call: nat)
    requires Kept(l)
    ensures Kept(Gone(l, call))
  {
    assert call in l.writes ==> CallKept(l, call);
    OneCall(l, Gone(l, call), call);
  }

  // ----- the steps keep the invariant -----

  lemma CopyInConserves(s: State, call: nat, w: Writer, nonblock: bool, intact: nat)
    requires Conserved(s)
    ensures Conserved(CopyIn(s, call, w, nonblock, intact))
  {
    var piece := Piece(Room(s), w, intact);
    BytesSnoc(s.ledger.entered, Segment(call, piece));
    assert Bytes(s.left) + s.contents + piece == Bytes(s.left) + (s.contents + piece);
  }

  lemma CopyInKeepsInv(s: State, call: nat, w: Writer, nonblock: bool, intact: nat)
    requires Conserved(s) && Ready(s.ledger, call, w, Room(s))
    ensures Inv(CopyIn(s, call, w, nonblock, intact))
  {
    CopyInConserves(s, call, w, nonblock, intact);
    CopiedKept(s.ledger, call, w, Room(s), nonblock, intact);
  }

  lemma StartWriteKeepsInv(s: State, call: nat, data: seq<Byte>, nonblock: bool, intact: nat)
    requires Inv(s) && call !in s.ledger.writes
    ensures Inv(StartWrite(s, call, data, nonblock, intact))
  {
    var w := Writer(data, 0);
    var l := Registered(s.ledger, call, data);
    RegisteredKept(s.ledger, call, data);
    if data != [] && s.openReaders != 0 {
      if Room(s) < Needed(w) {
        AsleepKept(l, call, data);
      } else {
        CopyInKeepsInv(s.(ledger := l), call, w, nonblock, intact);
      }
    }
  }

  lemma ResumeWriteKeepsInv(s: State, call: nat, signal: bool, intact: nat)
    requires Inv(s) && call in s.ledger.writers
    ensures Inv(ResumeWrite(s, call, signal, intact))
  {
    var w := s.ledger.writers[call];
    assert SleeperKept(s.ledger, call);
    GoneKept(s.ledger, call);
    if !(signal || s.openReaders == 0) && Room(s) >= Needed(w) {
      CopyInKeepsInv(s, call, w, false, intact);
    }
  }

  lemma CopyOutConserves(s: State, call: nat, count: nat, nonblock: bool, intact: nat)
    requires Conserved(s)
    ensures Conserved(CopyOut(s, call, count, nonblock, intact))
  {
    var m := Min(Min(count, |s.contents|), intact);
    BytesSnoc(s.left, Segment(call, s.contents[..m]));
    assert Bytes(s.left) + s.contents[..m] + s.contents[m..] == Bytes(s.left) + s.contents;
  }

  lemma CopyOutKeepsInv(s: State, call: nat, count: nat, nonblock: bool, intact: nat)
    requires Inv(s)
    ensures Inv(CopyOut(s, call, count, nonblock, intact))
  {
    CopyOutConserves(s, call, count, nonblock, intact);
    assert CopyOut(s, call, count, nonblock, intact).ledger == s.ledger;
  }

  lemma StartReadKeepsInv(s: State, call: nat, count: nat, nonblock: bool, intact: nat)
    requires Inv(s)
    ensures Inv(StartRead(s, call, count, nonblock, intact))
  {
    if count != 0 && s.contents != [] {
      CopyOutKeepsInv(s, call, count, nonblock, intact);
    }
  }

  lemma ResumeReadKeepsInv(s: State, call: nat, signal: bool, intact: nat)
    requires Inv(s) && call in s.readers
    ensures Inv(ResumeRead(s, call, signal, intact))
  {
    if !signal && s.contents != [] {
      CopyOutKeepsInv(s, call, s.readers[call], false, intact);
    }
  }

  lemma ApplyKeepsInv(s: State, a: Action)
    requires Inv(s)
    ensures Inv(Apply(s, a))
  {
    match a
    case Write(call, data, nonblock, intact) =>
      if call !in s.ledger.writes {
        StartWriteKeepsInv(s, call, data, nonblock, intact);
      }
    case WakeWriter(call, signal, intact) =>
      if call in s.ledger.writers {
        ResumeWriteKeepsInv(s, call, signal, intact);
      }
    case Read(call, count, nonblock, intact) =>
      StartReadKeepsInv(s, call, count, nonblock, intact);
    case WakeReader(call, signal, intact) =>
      if call in s.readers {
        ResumeReadKeepsInv(s, call, signal, intact);
      }
    case SetOpen(openReaders, openWriters) =>
  }

  // ----- what every run keeps -----

  lemma {:induction false} ReachableInv(run: seq<Action>)
    ensures Inv(Execute(run))
    decreases |run|
  {
    if run != [] {
      ReachableInv(run[..|run| - 1]);
      ApplyKeepsInv(Execute(run[..|run| - 1]), run[|run| - 1]);
    }
  }

  /** Over every interleaving: the bytes read so far followed by the contents are the bytes written so far. */
  lemma ReachableConserved(run: seq<Action>)
    ensures var s := Execute(run);
            Bytes(s.ledger.entered) == Bytes(s.left) + s.contents && |s.contents| <= PIPE_SIZE
  {
    ReachableInv(run);
  }

  /** Over every interleaving: a write of at most PIPE_BUF bytes enters in one piece, or
      not at all, and never sleeps midway; every write enters in order. */
  lemma ReachableAtomic(run: seq<Action>, call: nat)
    requires call in Execute(run).ledger.writes
    ensures var l := Execute(run).ledger; var data, segs := l.writes[call], Of(l.entered, call);
            && Bytes(segs) <= data
            && (|data| <= PIPE_BUF ==> |segs| <= 1)
            && (|data| <= PIPE_BUF && call in l.writers ==> segs == [])
            && (|data| <= PIPE_BUF && |segs| == 1 && call !in l.faulted ==> segs[0].bytes == data)
  {
    var l := Execute(run).ledger;
    ReachableInv(run);
    assert CallKept(l, call);
    assert call in l.writers ==> SleeperKept(l, call);
  }

  /** A small write is never stuck: once the pipe is empty it goes in whole. */
  lemma EmptyTakesSmall(s: State, call: nat, intact: nat)
    requires Inv(s) && call in s.ledger.writers && |s.ledger.writers[call].data| <= PIPE_BUF <= intact
    requires s.contents == [] && s.openReaders > 0
    ensures var s' := ResumeWrite(s, call, false, intact);
            call !in s'.ledger.writers && s'.contents == s.ledger.writers[call].data
  {
    assert SleeperKept(s.ledger, call);
  }

  // ----- who sleeps -----

  /** A writer goes to sleep exactly when it may block, has a reader, and finds less room
      than it needs or fills the pipe before it is through. */
  lemma WriterSleepsIff(s: State, call: nat, data: seq<Byte>, nonblock: bool, intact: nat)
    requires Inv(s) && call !in s.ledger.writes
    ensures call in StartWrite(s, call, data, nonblock, intact).ledger.writers <==>
            && !nonblock && data != [] && s.openReaders > 0
            && (Room(s) < Needed(Writer(data, 0)) || (Room(s) < |data| && Room(s) <= intact))
  {
    assert call in s.ledger.writers ==> SleeperKept(s.ledger, call);
  }

  /** A small write that may not block goes in whole or not at all, unless there is a fault. */
  lemma NonblockingSmallWrite(s: State, call: nat, data: seq<Byte>, intact: nat)
    requires Inv(s) && |data| <= PIPE_BUF && |data| <= intact
    ensures var s' := StartWrite(s, call, data, true, intact);
            s'.contents == if s.openReaders > 0 && |data| <= Room(s) then s.contents + data else s.contents
  {
    assert s.contents + [] == s.contents;
  }

  /** A reader goes to sleep exactly when it may block, there are writers, and it found the
      pipe empty or emptied it while wanting more and with writers waiting; so a reader that
      goes to sleep leaves an empty pipe. */
  lemma ReaderSleepsIff(s: State, call: nat, count: nat, nonblock: bool, intact: nat)
    requires call !in s.readers
    ensures var s' := StartRead(s, call, count, nonblock, intact);
            && (call in s'.readers <==>
                  && !nonblock && count > 0 && s.openWriters > 0
                  && (s.contents == [] || (|s.contents| < count && |s.contents| <= intact && s.ledger.writers != map[])))
            && (call in s'.readers ==> s'.contents == [] && s'.readers[call] == count - |s.contents|)
  {
  }

  // ----- how much a step moves -----

  // The step put n bytes of the data, from position `done` on, at the end of the pipe.
  ghost predicate PutIn(s: State, data: seq<Byte>, done: nat, n: nat, s': State) {
    && done + n <= |data| && s'.contents == s.contents + data[done..done + n]
    && s'.left == s.left && s'.readers == s.readers
  }

  /** A write puts in as much as there is room for, a small one all or nothing, and nothing
      without a reader; a fault cuts it short where it strikes. */
  lemma WritePutsIn(s: State, call: nat, data: seq<Byte>, nonblock: bool, intact: nat)
    requires Inv(s)
    ensures var s' := StartWrite(s, call, data, nonblock, intact);
            var room := PIPE_SIZE - |s.contents|;
            var n := if s.openReaders == 0 || (|data| <= PIPE_BUF && room < |data|) then 0
                     else Min(Min(room, |data|), intact);
            PutIn(s, data, 0, n, s')
  {
    assert s.contents + [] == s.contents;
  }

  // A small write that does not fit.
  predicate TooSmall(room: int, w: Writer) {
    |w.data| <= PIPE_BUF && room < |w.data|
  }

  /** So does a writer that goes on after its sleep, from where it stopped; it sleeps again
      exactly when it is not through and no fault struck. */
  lemma WriterGoesOn(s: State, call: nat, intact: nat)
    requires Inv(s) && call in s.ledger.writers && s.openReaders > 0
    ensures var s', w := ResumeWrite(s, call, false, intact), s.ledger.writers[call];
            var room := PIPE_SIZE - |s.contents|;
            var n := if TooSmall(room, w) then 0 else Min(Min(room, Rest(w)), intact);
            && PutIn(s, w.data, w.done, n, s')
            && (call in s'.ledger.writers <==> TooSmall(room, w) || (n == Min(room, Rest(w)) && w.done + n < |w.data|))
  {
    assert SleeperKept(s.ledger, call);
    assert s.contents + [] == s.contents;
  }

  // The step took n bytes from the front.
  ghost predicate TakenOut(s: State, n: nat, s': State) {
    && n <= |s.contents| && s'.contents == s.contents[n..]
    && Bytes(s'.left) == Bytes(s.left) + s.contents[..n] && s'.ledger == s.ledger
  }

  lemma CopyOutTakes(s: State, call: nat, count: nat, nonblock: bool, intact: nat)
    ensures TakenOut(s, Min(Min(count, |s.contents|), intact), CopyOut(s, call, count, nonblock, intact))
  {
    var n := Min(Min(count, |s.contents|), intact);
    if n > 0 {
      BytesSnoc(s.left, Segment(call, s.contents[..n]));
    } else {
      assert Bytes(s.left) + [] == Bytes(s.left);
    }
  }

  /** A read takes from the front as much as is wanted and there, up to a fault, and a reader
      that goes on after its sleep as much as it still wants. */
  lemma ReadTakesOut(s: State, call: nat, count: nat, nonblock: bool, intact: nat)
    ensures TakenOut(s, Min(Min(count, |s.contents|), intact), StartRead(s, call, count, nonblock, intact))
    ensures call in s.readers ==>
              TakenOut(s, Min(Min(s.readers[call], |s.contents|), intact), ResumeRead(s, call, false, intact))
  {
    assert Bytes(s.left) + [] == Bytes(s.left);
    CopyOutTakes(s, call, count, nonblock, intact);
    if call in s.readers {
      CopyOutTakes(s, call, s.readers[call], false, intact);
    }
  }
}

/**
  Relocation of a flat binary: 32-bit words, 26-bit jumps, and HI16/LO16 pairs whose
  carry is kept in variables that outlive a call.
 */
module FlatReloc {
  import opened Options

  const WORD := 0x1_0000_0000
  const HALF := 0x1_0000
  const FIELD := 0x400_0000

  // ----- fields of a word -----

  function Low(w: nat): nat {
    w % HALF
  }

  function High(w: nat): nat {
    w - w % HALF
  }

  // The low half as a signed short.
  function SignedLow(w: nat): int {
    if Low(w) >= 0x8000 then Low(w) - HALF else Low(w)
  }

  function Opcode(w: nat): nat {
    w - w % FIELD
  }

  // What a lui/addiu pair denotes.
  function PairValue(hi: nat, lo: nat): nat {
    (Low(hi) * HALF + SignedLow(lo)) % WORD
  }

  // Where a jump goes within its 256 MB region.
  function JumpTarget(w: nat): nat {
    w % FIELD * 4
  }

  // ----- relocation of single words -----

  function Word32(w: nat, base: nat): nat {
    (w + base) % WORD
  }

  function JumpSum(w: nat, base: nat): nat {
    (JumpTarget(w) + base) % WORD
  }

  function Jumped(w: nat, base: nat): nat {
    Opcode(w) + JumpSum(w, base) / 4 % FIELD
  }

  function PairSum(carry: nat, lo: nat, base: nat): nat {
    (carry + SignedLow(lo) + base) % WORD
  }

  function HiWord(hi: nat, sum: nat): nat {
    High(hi) + (sum - SignedLow(sum)) % WORD / HALF % HALF
  }

  function LoWord(lo: nat, sum: nat): nat {
    High(lo) + Low(sum)
  }

  lemma HalvesApart(w: nat, x: nat)
    requires x < HALF
    ensures High(High(w) + x) == High(w) && Low(High(w) + x) == x
  {
  }

  // The high half rounds up when the low half is negative, so the halves add up.
  lemma HalvesAddUp(sum: nat)
    requires sum < WORD
    ensures ((sum - SignedLow(sum)) % WORD / HALF % HALF * HALF + SignedLow(sum)) % WORD == sum
  {
    var up := (sum - SignedLow(sum)) % WORD;
    assert up % HALF == 0;
    assert up / HALF * HALF == up;
    assert up / HALF < HALF;
  }

  /** The pair denotes the sum afterwards, and nothing but the two halves changes. */
  lemma PairDenotes(hi: nat, lo: nat, sum: nat)
    requires sum < WORD
    ensures PairValue(HiWord(hi, sum), LoWord(lo, sum)) == sum
    ensures High(HiWord(hi, sum)) == High(hi) && High(LoWord(lo, sum)) == High(lo)
  {
    HalvesApart(hi, (sum - SignedLow(sum)) % WORD / HALF % HALF);
    HalvesApart(lo, Low(sum));
    HalvesAddUp(sum);
  }

  // The sum is the old value plus the base exactly when the carry is the high half.
  lemma PairSumIff(hi: nat, lo: nat, carry: nat, base: nat)
    requires carry < WORD
    ensures PairSum(carry, lo, base) == (PairValue(hi, lo) + base) % WORD <==> carry == Low(hi) * HALF
  {
    var c, s := Low(hi) * HALF, SignedLow(lo) + base;
    assert c < WORD;
    assert ((c + SignedLow(lo)) % WORD + base) % WORD == (c + s) % WORD;
    if (carry + s) % WORD == (c + s) % WORD {
      SameRemainder(carry, c, s);
    }
  }

  lemma SameRemainder(a: nat, b: nat, s: int)
    requires a < WORD && b < WORD && (a + s) % WORD == (b + s) % WORD
    ensures a == b
  {
    var x, y := (a + s) / WORD, (b + s) / WORD;
    assert a - b == (x - y) * WORD;
  }

  /** A jump is relocated modulo 2^28 exactly when the base is a multiple of four;
      its opcode never changes. */
  lemma JumpDenotes(w: nat, base: nat)
    ensures Opcode(Jumped(w, base)) == Opcode(w)
    ensures JumpTarget(Jumped(w, base)) == (JumpTarget(w) + base) % (4 * FIELD) <==> base % 4 == 0
  {
    var sum := JumpSum(w, base);
    JumpField(w, sum / 4 % FIELD);
    RoundedField(sum);
    assert sum % (4 * FIELD) == (JumpTarget(w) + base) % (4 * FIELD);
  }

  lemma JumpField(w: nat, x: nat)
    requires x < FIELD
    ensures Opcode(Opcode(w) + x) == Opcode(w) && (Opcode(w) + x) % FIELD == x
  {
  }

  lemma RoundedField(sum: nat)
    ensures sum / 4 % FIELD * 4 == sum % (4 * FIELD) <==> sum % 4 == 0
  {
  }

  // ----- records -----

  datatype Section = Text | Data | Bss | NoSection
  datatype Kind = Abs32 | Hi16 | Lo16 | Jump26 | NoKind

  // The section bases of a program.
  datatype Layout = Layout(text: nat, data: nat, bss: nat)

  // A record with the program being loaded when it is handled.  `at` is the address of
  // the word; `rel` says which section's base is added.
  datatype Reloc = Reloc(owner: nat, layout: Layout, kind: Kind, rel: Section, within: Section, at: int)

  function Base(r: Reloc): nat {
    match r.rel
    case Text => r.layout.text
    case Data => r.layout.data
    case Bss => r.layout.bss
    case NoSection => 0
  }

  predicate Skipped(r: Reloc) {
    r.rel == NoSection || r.within == NoSection || r.kind == NoKind
  }

  predicate Is(r: Reloc, kind: Kind) {
    !Skipped(r) && r.kind == kind
  }

  // ----- do_reloc -----

  type Memory = map<int, nat>

  // The variables that do_reloc keeps between calls: the pending HI16, if any,
  // and the sum being built.
  datatype State = State(mem: Memory, pending: Option<Reloc>, res: nat)

  // Sections are compared, programs are not.
  predicate Matches(hi: Reloc, lo: Reloc) {
    hi.rel == lo.rel && hi.within == lo.within
  }

  function Step(s: State, r: Reloc): State
    requires r.at in s.mem && (s.pending.Some? ==> s.pending.value.at in s.mem)
  {
    var w, base := s.mem[r.at], Base(r);
    if Skipped(r) then s
    else
      match r.kind
      case Abs32 => s.(mem := s.mem[r.at := Word32(w, base)])
      case Hi16 => s.(pending := Some(r), res := Low(w) * HALF)
      case Lo16 =>
        if s.pending.None? || !Matches(s.pending.value, r) then s
        else
          var hi := s.pending.value.at;
          var sum := PairSum(s.res, w, base);
          State(s.mem[hi := HiWord(s.mem[hi], sum)][r.at := LoWord(w, sum)], None, sum)
      case _ => s.(mem := s.mem[r.at := Jumped(w, base)], res := JumpSum(w, base))
  }

  // ----- a stretch of records -----

  // Records in the order they are handled, of one load or of several that take turns.
  // The first `past` were handled before; of them only a HI16 that still waits, and
  // the sum `res`, matter.  `mem` is the memory at that point.
  datatype Job = Job(rs: seq<Reloc>, past: nat, res: nat, mem: Memory)

  // Records name different words, all of them present.
  ghost predicate Valid(j: Job) {
    && j.past <= |j.rs| && j.res < WORD
    && (forall i :: 0 <= i < |j.rs| ==> j.rs[i].at in j.mem)
    && (forall i, k :: 0 <= i < k < |j.rs| ==> j.rs[i].at != j.rs[k].at)
  }

  // The HI16 that waits for its LO16 after the first n records.
  function Open(rs: seq<Reloc>, n: nat): (i: Option<nat>)
    requires n <= |rs|
    ensures i.Some? ==> i.value < n && Is(rs[i.value], Hi16)
    decreases n, 0
  {
    if n == 0 then None
    else if Is(rs[n - 1], Hi16) then Some(n - 1)
    else if Closes(rs, n - 1) then None
    else Open(rs, n - 1)
  }

  // Record n is the LO16 of the HI16 that waits.
  predicate Closes(rs: seq<Reloc>, n: nat)
    requires n < |rs|
    decreases n, 1
  {
    Is(rs[n], Lo16) && Open(rs, n).Some? && Matches(rs[Open(rs, n).value], rs[n])
  }

  // Said of the records alone: i is a HI16, and nothing after it before n is another
  // one or a LO16 that matches it.
  ghost predicate Waits(rs: seq<Reloc>, i: nat, n: nat) {
    && i < n <= |rs| && Is(rs[i], Hi16)
    && forall k {:trigger rs[k]} :: i < k < n ==> !Is(rs[k], Hi16) && !(Is(rs[k], Lo16) && Matches(rs[i], rs[k]))
  }

  // i and n are the two halves of a pair.
  ghost predicate Pair(rs: seq<Reloc>, i: nat, n: nat) {
    n < |rs| && Waits(rs, i, n) && Is(rs[n], Lo16) && Matches(rs[i], rs[n])
  }

  lemma {:induction false} OpenIff(rs: seq<Reloc>, n: nat, i: nat)
    requires n <= |rs|
    ensures Open(rs, n) == Some(i) <==> Waits(rs, i, n)
    decreases n
  {
    if n > 0 {
      OpenIff(rs, n - 1, i);
      if Open(rs, n - 1).Some? {
        OpenIff(rs, n - 1, Open(rs, n - 1).value);
      }
    }
  }

  /** A LO16 is taken as the second half of a pair exactly when the records before it say so. */
  lemma ClosesIff(rs: seq<Reloc>, n: nat, i: nat)
    requires n < |rs|
    ensures Closes(rs, n) && Open(rs, n) == Some(i) <==> Pair(rs, i, n)
  {
    OpenIff(rs, n, i);
  }

  // The sum being built after the first n records, from the words as they were loaded.
  function Carry(j: Job, n: nat): nat
    requires n <= |j.rs| && forall i :: 0 <= i < |j.rs| ==> j.rs[i].at in j.mem
  {
    if n <= j.past then j.res
    else
      var r := j.rs[n - 1];
      var w, base := j.mem[r.at], Base(r);
      if Is(r, Hi16) then Low(w) * HALF
      else if Is(r, Jump26) then JumpSum(w, base)
      else if Closes(j.rs, n - 1) then PairSum(Carry(j, n - 1), w, base)
      else Carry(j, n - 1)
  }

  // Record n changes the word at p.
  predicate Writes(rs: seq<Reloc>, n: nat, p: int)
    requires n < |rs|
  {
    || (Closes(rs, n) && (p == rs[n].at || p == rs[Open(rs, n).value].at))
    || ((Is(rs[n], Abs32) || Is(rs[n], Jump26)) && p == rs[n].at)
  }

  // ----- running -----

  function Pending(rs: seq<Reloc>, n: nat): Option<Reloc>
    requires n <= |rs|
  {
    if Open(rs, n).Some? then Some(rs[Open(rs, n).value]) else None
  }

  function Start(j: Job): State
    requires j.past <= |j.rs|
  {
    State(j.mem, Pending(j.rs, j.past), j.res)
  }

  // What is known of the state after the first n records.
  ghost predicate Running(j: Job, n: nat, s: State)
    requires j.past <= n <= |j.rs| && Valid(j)
  {
    && s.mem.Keys == j.mem.Keys && s.res == Carry(j, n) && s.pending == Pending(j.rs, n)
    && forall p {:trigger s.mem[p]} ::
         p in j.mem && (forall i :: j.past <= i < n ==> !Writes(j.rs, i, p)) ==> s.mem[p] == j.mem[p]
  }

  // Every word that a step may touch is there.
  ghost predicate Able(s: State, mem: Memory) {
    s.mem.Keys == mem.Keys && (s.pending.Some? ==> s.pending.value.at in mem)
  }

  lemma StepAble(s: State, r: Reloc, mem: Memory)
    requires Able(s, mem) && r.at in mem
    ensures r.at in s.mem && (s.pending.Some? ==> s.pending.value.at in s.mem)
    ensures Able(Step(s, r), mem)
  {
    assert r.at in mem.Keys;
    assert s.pending.Some? ==> s.pending.value.at in mem.Keys;
    assert Step(s, r).mem.Keys == mem.Keys;
  }

  // The state after the first n records.
  ghost function Relocate(j: Job, n: nat): (s: State)
    requires Valid(j) && j.past <= n <= |j.rs|
    ensures Able(s, j.mem)
    decreases n
  {
    if n == j.past then Start(j)
    else
      var s := Relocate(j, n - 1);
      StepAble(s, j.rs[n - 1], j.mem);
      Step(s, j.rs[n - 1])
  }

  ghost function Final(j: Job): Memory
    requires Valid(j)
  {
    Relocate(j, |j.rs|).mem
  }

  lemma {:induction false} Runs(j: Job, n: nat)
    requires Valid(j) && j.past <= n <= |j.rs|
    ensures Running(j, n, Relocate(j, n))
    decreases n
  {
    if n > j.past {
      Runs(j, n - 1);
      StepRuns(j, n - 1, Relocate(j, n - 1));
    }
  }

  // A word that waits for record n, or for the LO16 of a waiting HI16, has not been touched.
  lemma {:induction false} Fresh(j: Job, n: nat, p: int)
    requires Valid(j) && n < |j.rs|
    requires p == j.rs[n].at || (Open(j.rs, n).Some? && p == j.rs[Open(j.rs, n).value].at)
    ensures forall i :: 0 <= i < n ==> !Writes(j.rs, i, p)
  {
    forall i | 0 <= i < n ensures !Writes(j.rs, i, p) {
      if Closes(j.rs, i) && Open(j.rs, n).Some? {
        OpenLater(j.rs, i, n);
      }
    }
  }

  // A HI16 that waits after n records does not wait at an earlier LO16 that took one.
  lemma {:induction false} OpenLater(rs: seq<Reloc>, i: nat, n: nat)
    requires i < n <= |rs| && Closes(rs, i) && Open(rs, n).Some?
    ensures Open(rs, n).value > i
    decreases n
  {
    if n > i + 1 && !Is(rs[n - 1], Hi16) {
      OpenLater(rs, i, n - 1);
    }
  }

  // The variables that outlive the step.
  lemma StepKeeps(j: Job, n: nat, s: State)
    requires Valid(j) && j.past <= n < |j.rs| && Able(s, j.mem)
    requires s.res == Carry(j, n) && s.pending == Pending(j.rs, n) && j.rs[n].at in s.mem && s.mem[j.rs[n].at] == j.mem[j.rs[n].at]
    requires s.pending.Some? ==> s.pending.value.at in s.mem
    ensures var s' := Step(s, j.rs[n]); s'.res == Carry(j, n + 1) && s'.pending == Pending(j.rs, n + 1)
  {
    var r := j.rs[n];
    assert Closes(j.rs, n) <==> Is(r, Lo16) && s.pending.Some? && Matches(s.pending.value, r);
    assert Open(j.rs, n + 1) == if Is(r, Hi16) then Some(n) else if Closes(j.rs, n) then None else Open(j.rs, n);
  }

  lemma StepRuns(j: Job, n: nat, s: State)
    requires Valid(j) && j.past <= n < |j.rs| && Running(j, n, s)
    ensures j.rs[n].at in s.mem && (s.pending.Some? ==> s.pending.value.at in s.mem)
    ensures Running(j, n + 1, Step(s, j.rs[n]))
  {
    assert j.rs[n].at in j.mem.Keys;
    if Open(j.rs, n).Some? {
      assert j.rs[Open(j.rs, n).value].at in j.mem.Keys;
    }
    Fresh(j, n, j.rs[n].at);
    StepAble(s, j.rs[n], j.mem);
    StepKeeps(j, n, s);
    var s' := Step(s, j.rs[n]);
    forall p {:trigger s'.mem[p]} | p in j.mem && (forall i :: j.past <= i < n + 1 ==> !Writes(j.rs, i, p))
      ensures s'.mem[p] == j.mem[p]
    {
      assert !Writes(j.rs, n, p);
      StepLeaves(j, n, s, p);
    }
  }

  // ----- what is written once stays -----

  // No word is written twice.
  lemma OneWriter(j: Job, i: nat, k: nat, p: int)
    requires Valid(j) && i < k < |j.rs| && Writes(j.rs, i, p)
    ensures !Writes(j.rs, k, p)
  {
    if Closes(j.rs, i) && Open(j.rs, k).Some? {
      OpenLater(j.rs, i, k);
    }
  }

  // No record from i on, before n, writes p.
  ghost predicate Quiet(rs: seq<Reloc>, i: nat, n: nat, p: int) {
    n <= |rs| && forall k :: i <= k < n ==> !Writes(rs, k, p)
  }

  lemma {:induction false} QuietPersists(j: Job, i: nat, n: nat, p: int)
    requires Valid(j) && j.past <= i <= n && Quiet(j.rs, i, n, p) && p in j.mem
    ensures p in Relocate(j, n).mem && p in Relocate(j, i).mem
    ensures Relocate(j, n).mem[p] == Relocate(j, i).mem[p]
    decreases n - i
  {
    if n > i {
      RelocateLeaves(j, i, p);
      QuietPersists(j, i + 1, n, p);
    } else {
      assert p in j.mem.Keys;
    }
  }

  lemma Persists(j: Job, i: nat, p: int)
    requires Valid(j) && j.past <= i < |j.rs| && Writes(j.rs, i, p) && p in j.mem
    ensures p in Final(j) && p in Relocate(j, i + 1).mem && Final(j)[p] == Relocate(j, i + 1).mem[p]
  {
    forall k | i + 1 <= k < |j.rs| ensures !Writes(j.rs, k, p) {
      OneWriter(j, i, k, p);
    }
    QuietPersists(j, i + 1, |j.rs|, p);
  }

  // A step leaves a word that it does not write.
  lemma StepLeaves(j: Job, n: nat, s: State, p: int)
    requires Valid(j) && n < |j.rs| && p in j.mem && !Writes(j.rs, n, p)
    requires Able(s, j.mem) && s.pending == Pending(j.rs, n)
    ensures j.rs[n].at in s.mem && (s.pending.Some? ==> s.pending.value.at in s.mem)
    ensures p in s.mem && p in Step(s, j.rs[n]).mem && Step(s, j.rs[n]).mem[p] == s.mem[p]
  {
    StepAble(s, j.rs[n], j.mem);
    assert p in j.mem.Keys;
  }

  lemma RelocateLeaves(j: Job, n: nat, p: int)
    requires Valid(j) && j.past <= n < |j.rs| && p in j.mem && !Writes(j.rs, n, p)
    ensures p in Relocate(j, n).mem && p in Relocate(j, n + 1).mem
    ensures Relocate(j, n + 1).mem[p] == Relocate(j, n).mem[p]
  {
    Runs(j, n);
    StepLeaves(j, n, Relocate(j, n), p);
  }

  // ----- what is left behind -----

  // The word that record i finds, and what it makes of it.
  lemma StepWrites(j: Job, i: nat)
    requires Valid(j) && j.past <= i < |j.rs| && (Is(j.rs[i], Abs32) || Is(j.rs[i], Jump26))
    ensures var w, base := j.mem[j.rs[i].at], Base(j.rs[i]); var m := Relocate(j, i + 1).mem;
            && j.rs[i].at in m
            && m[j.rs[i].at] == if j.rs[i].kind == Abs32 then Word32(w, base) else Jumped(w, base)
  {
    Runs(j, i);
    Fresh(j, i, j.rs[i].at);
    assert j.rs[i].at in j.mem.Keys;
  }

  /** A 32-bit word becomes its old value plus the base modulo 2^32. */
  lemma WordRelocated(j: Job, i: nat)
    requires Valid(j) && j.past <= i < |j.rs| && Is(j.rs[i], Abs32)
    ensures j.rs[i].at in Final(j) && Final(j)[j.rs[i].at] == (j.mem[j.rs[i].at] + Base(j.rs[i])) % WORD
  {
    Persists(j, i, j.rs[i].at);
    StepWrites(j, i);
  }

  /** A jump keeps its opcode, and goes to its old target plus the base modulo 2^28
      exactly when the base is a multiple of four. */
  lemma JumpRelocated(j: Job, i: nat)
    requires Valid(j) && j.past <= i < |j.rs| && Is(j.rs[i], Jump26)
    ensures j.rs[i].at in Final(j)
    ensures var w, w' := j.mem[j.rs[i].at], Final(j)[j.rs[i].at];
            && Opcode(w') == Opcode(w)
            && (JumpTarget(w') == (JumpTarget(w) + Base(j.rs[i])) % (4 * FIELD) <==> Base(j.rs[i]) % 4 == 0)
  {
    Persists(j, i, j.rs[i].at);
    StepWrites(j, i);
    JumpDenotes(j.mem[j.rs[i].at], Base(j.rs[i]));
  }

  lemma {:induction false} CarryInRange(j: Job, n: nat)
    requires Valid(j) && n <= |j.rs|
    ensures Carry(j, n) < WORD
  {
    if n > j.past {
      CarryInRange(j, n - 1);
    }
  }

  // The words of a pair after their LO16.
  lemma PairWritten(j: Job, i: nat, n: nat)
    requires Valid(j) && j.past <= n && Pair(j.rs, i, n)
    ensures var hi, lo := j.rs[i].at, j.rs[n].at;
            var sum := PairSum(Carry(j, n), j.mem[lo], Base(j.rs[n]));
            var m := Relocate(j, n + 1).mem;
            hi in m && lo in m && m[hi] == HiWord(j.mem[hi], sum) && m[lo] == LoWord(j.mem[lo], sum)
  {
    ClosesIff(j.rs, n, i);
    Runs(j, n);
    Fresh(j, n, j.rs[n].at);
    Fresh(j, n, j.rs[i].at);
    assert j.rs[n].at in j.mem.Keys && j.rs[i].at in j.mem.Keys;
  }

  // Both words of a pair keep what their LO16 made of them.
  lemma PairFinal(j: Job, i: nat, n: nat)
    requires Valid(j) && j.past <= n && Pair(j.rs, i, n)
    ensures var hi, lo := j.rs[i].at, j.rs[n].at;
            var sum := PairSum(Carry(j, n), j.mem[lo], Base(j.rs[n]));
            && hi in Final(j) && lo in Final(j)
            && Final(j)[hi] == HiWord(j.mem[hi], sum) && Final(j)[lo] == LoWord(j.mem[lo], sum)
  {
    PairWritten(j, i, n);
    ClosesIff(j.rs, n, i);
    Persists(j, n, j.rs[i].at);
    Persists(j, n, j.rs[n].at);
  }

  // k is the last 26-bit record between i and n.
  ghost predicate LastJump(rs: seq<Reloc>, i: nat, n: nat, k: nat) {
    && i < k < n <= |rs| && Is(rs[k], Jump26)
    && forall m {:trigger rs[m]} :: k < m < n ==> !Is(rs[m], Jump26)
  }

  // What the records say of the carry of a pair: it is the high half, unless a 26-bit
  // record lies in between whose sum is something else.
  ghost predicate CarrySurvives(j: Job, i: nat, n: nat)
    requires Valid(j) && i < |j.rs|
  {
    forall k: nat :: LastJump(j.rs, i, n, k) ==> JumpSum(j.mem[j.rs[k].at], Base(j.rs[k])) == Low(j.mem[j.rs[i].at]) * HALF
  }

  /** While a HI16 of this stretch waits, the carry is its high half, or the sum of the last
      26-bit record since. */
  lemma {:induction false} CarryExact(j: Job, i: nat, n: nat)
    requires Valid(j) && j.past <= i && Waits(j.rs, i, n)
    ensures Carry(j, n) == Low(j.mem[j.rs[i].at]) * HALF <==> CarrySurvives(j, i, n)
    ensures (forall k: nat :: !LastJump(j.rs, i, n, k)) ==> Carry(j, n) == Low(j.mem[j.rs[i].at]) * HALF
    ensures forall k: nat :: LastJump(j.rs, i, n, k) ==> Carry(j, n) == JumpSum(j.mem[j.rs[k].at], Base(j.rs[k]))
    decreases n
  {
    if n > i + 1 {
      var r := j.rs[n - 1];
      CarryExact(j, i, n - 1);
      OpenIff(j.rs, n - 1, i);
      if Is(r, Jump26) {
        assert LastJump(j.rs, i, n, n - 1);
      } else {
        forall k: nat ensures LastJump(j.rs, i, n, k) <==> LastJump(j.rs, i, n - 1, k) {
        }
      }
    }
  }

  /** A HI16/LO16 pair denotes its old value plus the base of its LO16 modulo 2^32 exactly
      when no 26-bit record lies in between or the sum of the last such record happens to
      be the high half; the upper halves of both words stay. */
  lemma PairRelocated(j: Job, i: nat, n: nat)
    requires Valid(j) && j.past <= i && Pair(j.rs, i, n)
    ensures var hi, lo := j.rs[i].at, j.rs[n].at; var m := Final(j);
            && hi in m && lo in m
            && High(m[hi]) == High(j.mem[hi]) && High(m[lo]) == High(j.mem[lo])
            && (PairValue(m[hi], m[lo]) == (PairValue(j.mem[hi], j.mem[lo]) + Base(j.rs[n])) % WORD
                <==> CarrySurvives(j, i, n))
  {
    var hi, lo := j.rs[i].at, j.rs[n].at;
    var carry := Carry(j, n);
    CarryInRange(j, n);
    PairFinal(j, i, n);
    PairDenotes(j.mem[hi], j.mem[lo], PairSum(carry, j.mem[lo], Base(j.rs[n])));
    PairSumIff(j.mem[hi], j.mem[lo], carry, Base(j.rs[n]));
    CarryExact(j, i, n);
  }

  /** Words that no record writes, those of unmatched HI16 and LO16 among them, stay as loaded. */
  lemma OthersUntouched(j: Job, p: int)
    requires Valid(j) && p in j.mem && forall i :: j.past <= i < |j.rs| ==> !Writes(j.rs, i, p)
    ensures Final(j).Keys == j.mem.Keys && p in Final(j) && Final(j)[p] == j.mem[p]
  {
    Runs(j, |j.rs|);
    assert p in j.mem.Keys;
  }

  /** A 26-bit record between the two halves spoils the pair. */
  lemma JumpBetween(l: Layout)
    requires l.text == 0x100
    ensures var rs := [Reloc(0, l, Hi16, Text, Text, 0), Reloc(0, l, Jump26, Text, Text, 4), Reloc(0, l, Lo16, Text, Text, 8)];
            var j := Job(rs, 0, 0, map[0 := 1, 4 := 0, 8 := 0]);
            && Valid(j) && 0 in Final(j) && 8 in Final(j)
            && PairValue(Final(j)[0], Final(j)[8]) != (PairValue(1, 0) + 0x100) % WORD
  {
    var rs := [Reloc(0, l, Hi16, Text, Text, 0), Reloc(0, l, Jump26, Text, Text, 4), Reloc(0, l, Lo16, Text, Text, 8)];
    var j := Job(rs, 0, 0, map[0 := 1, 4 := 0, 8 := 0]);
    assert Pair(rs, 0, 2);
    assert LastJump(rs, 0, 2, 1);
    assert !CarrySurvives(j, 0, 2);
    PairRelocated(j, 0, 2);
  }

  // ----- other programs -----

  // The load of program o takes a HI16 that another program left waiting at p.
  ghost predicate Steals(j: Job, o: nat, p: int) {
    exists i: nat, n: nat :: j.past <= n && Pair(j.rs, i, n) && j.rs[i].at == p && j.rs[i].owner != o && j.rs[n].owner == o
  }

  // Some record of program o in this stretch writes p.
  ghost predicate WritesBy(j: Job, o: nat, p: int) {
    exists n: nat :: j.past <= n < |j.rs| && j.rs[n].owner == o && Writes(j.rs, n, p)
  }

  /** A load writes a word that none of its own records names exactly when it takes a HI16
      that another load left waiting there. */
  lemma ForeignWordIff(j: Job, o: nat, p: int)
    requires Valid(j) && forall i :: 0 <= i < |j.rs| && j.rs[i].owner == o ==> j.rs[i].at != p
    ensures WritesBy(j, o, p) <==> Steals(j, o, p)
  {
    if n: nat :| j.past <= n < |j.rs| && j.rs[n].owner == o && Writes(j.rs, n, p) {
      var i := Open(j.rs, n).value;
      ClosesIff(j.rs, n, i);
    }
    if i: nat, n: nat :| j.past <= n && Pair(j.rs, i, n) && j.rs[i].at == p && j.rs[i].owner != o && j.rs[n].owner == o {
      ClosesIff(j.rs, n, i);
    }
  }

  /** What a stolen HI16 becomes: the high part of a sum that the other program has nothing
      to do with; its instruction bits stay. */
  lemma StolenWord(j: Job, i: nat, n: nat)
    requires Valid(j) && j.past <= n && Pair(j.rs, i, n) && j.rs[i].owner != j.rs[n].owner
    ensures var hi, lo := j.rs[i].at, j.rs[n].at;
            var sum := PairSum(Carry(j, n), j.mem[lo], Base(j.rs[n]));
            && hi in Final(j) && Final(j)[hi] == HiWord(j.mem[hi], sum) && High(Final(j)[hi]) == High(j.mem[hi])
            && (Final(j)[hi] == j.mem[hi] <==> (sum - SignedLow(sum)) % WORD / HALF % HALF == Low(j.mem[hi]))
  {
    var hi, lo := j.rs[i].at, j.rs[n].at;
    var sum := PairSum(Carry(j, n), j.mem[lo], Base(j.rs[n]));
    PairFinal(j, i, n);
    PairDenotes(j.mem[hi], j.mem[lo], sum);
    HalvesApart(j.mem[hi], (sum - SignedLow(sum)) % WORD / HALF % HALF);
  }

  // Every HI16 is followed by its LO16 before a record of another program is handled,
  // and none is left over from before.
  ghost predicate Undisturbed(j: Job)
    requires j.past <= |j.rs|
  {
    && Open(j.rs, j.past).None?
    && forall n {:trigger Open(j.rs, n)} :: j.past < n < |j.rs| && Open(j.rs, n).Some? ==>
         j.rs[Open(j.rs, n).value].owner == j.rs[n].owner
  }

  /** So loads that do not take turns inside a pair, and leave no HI16 waiting, keep off
      each other's words. */
  lemma UndisturbedKeepsOff(j: Job, o: nat, p: int)
    requires Valid(j) && Undisturbed(j)
    ensures !Steals(j, o, p)
  {
    forall i: nat, n: nat | j.past <= n && Pair(j.rs, i, n) ensures j.rs[i].owner == j.rs[n].owner {
      ClosesIff(j.rs, n, i);
      assert Open(j.rs, n) == Some(i);
    }
  }

  /** A load that ends in a HI16, and the next one that begins with a LO16 for the same
      sections: the second load changes a word of the first program. */
  lemma LoadStealsWord(a: Layout, b: Layout)
    requires b.text == 0x10000
    ensures var rs := [Reloc(1, a, Hi16, Text, Text, 0), Reloc(2, b, Lo16, Text, Text, 100)];
            var j := Job(rs, 1, 0, map[0 := 0, 100 := 0]);
            Valid(j) && Steals(j, 2, 0) && 0 in Final(j) && Final(j)[0] == 1
  {
    var rs := [Reloc(1, a, Hi16, Text, Text, 0), Reloc(2, b, Lo16, Text, Text, 100)];
    var j := Job(rs, 1, 0, map[0 := 0, 100 := 0]);
    assert Pair(rs, 0, 1);
    PairFinal(j, 0, 1);
    assert Carry(j, 1) == 0;
  }

  // ----- in place -----

  class Relocator {
    var mem: Memory
    var hiFlag: bool
    var prev: Reloc
    var res: nat

    ghost function Value(): State
      reads this
    {
      State(mem, if hiFlag then Some(prev) else None, res)
    }

    constructor (mem: Memory)
      ensures Value() == State(mem, None, 0)
    {
      this.mem := mem;
      hiFlag, prev, res := false, Reloc(0, Layout(0, 0, 0), NoKind, Text, Text, 0), 0;
    }

    method DoReloc(r: Reloc)
      requires r.at in mem && (hiFlag ==> prev.at in mem)
      modifies this
      ensures Value() == Step(old(Value()), r)
    {
      if r.rel == NoSection || r.within == NoSection {
        return;
      }
      var base := Base(r);
      match r.kind {
        case Abs32 =>
          mem := mem[r.at := (mem[r.at] + base) % WORD];
        case Hi16 =>
          prev, res, hiFlag := r, mem[r.at] % HALF * HALF, true;
        case Lo16 =>
          if !hiFlag || r.rel != prev.rel || r.within != prev.within {
            return;
          }
          res := (res + SignedLow(mem[r.at]) + base) % WORD;
          var lo := mem[r.at];
          mem := mem[prev.at := HiWord(mem[prev.at], res)];
          mem := mem[r.at := LoWord(lo, res)];
          hiFlag := false;
        case Jump26 =>
          res := (mem[r.at] % FIELD * 4 + base) % WORD;
          mem := mem[r.at := Opcode(mem[r.at]) + res / 4 % FIELD];
        case NoKind =>
      }
    }

    /** The loop over the records of a file, whatever an earlier load left behind. */
    method RelocateAll(rs: seq<Reloc>, ghost j: Job)
      requires Valid(j) && j.rs[j.past..] == rs && Value() == Start(j)
      modifies this
      ensures Value() == Relocate(j, |j.rs|)
    {
      var n := 0;
      while n < |rs|
        invariant 0 <= n <= |rs|
        invariant Value() == Relocate(j, j.past + n)
      {
        assert j.rs[j.past + n] == rs[n];
        StepAble(Value(), rs[n], j.mem);
        DoReloc(rs[n]);
        n := n + 1;
      }
    }
  }
}

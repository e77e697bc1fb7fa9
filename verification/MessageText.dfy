/**
  The text of a message between load_msg and store_msg: a first part that fits
  behind the message header in one page, and further segments of one page each.
 */
module MessageText {

  type byte = x: int | 0 <= x < 256

  // PAGE_SIZE less the header of struct msg_msg (20 bytes) and of struct
  // msg_msgseg (4 bytes) on a 32-bit machine.
  const DATALEN_MSG: nat := 4096 - 20
  const DATALEN_SEG: nat := 4096 - 4

  datatype Text = Text(head: seq<byte>, segs: seq<seq<byte>>)

  function Concat(segs: seq<seq<byte>>): seq<byte> {
    if segs == [] then [] else segs[0] + Concat(segs[1..])
  }

  function Flatten(t: Text): seq<byte> {
    t.head + Concat(t.segs)
  }

  // Every part but the last is full.
  predicate Packed(segs: seq<seq<byte>>) {
    && (forall i :: 0 <= i < |segs| ==> 0 < |segs[i]| <= DATALEN_SEG)
    && (forall i :: 0 <= i < |segs| - 1 ==> |segs[i]| == DATALEN_SEG)
  }

  predicate WellPacked(t: Text) {
    && |t.head| <= DATALEN_MSG && (t.segs != [] ==> |t.head| == DATALEN_MSG)
    && Packed(t.segs)
  }

  lemma {:induction false} ConcatSnoc(segs: seq<seq<byte>>, x: seq<byte>)
    ensures Concat(segs + [x]) == Concat(segs) + x
  {
    if segs == [] {
      assert [x][1..] == [];
    } else {
      assert (segs + [x])[1..] == segs[1..] + [x];
      ConcatSnoc(segs[1..], x);
    }
  }

  lemma {:induction false} ConcatSplit(segs: seq<seq<byte>>, i: nat)
    requires i < |segs|
    ensures Concat(segs) == Concat(segs[..i]) + segs[i] + Concat(segs[i + 1..])
  {
    if i == 0 {
      assert segs[..0] == [];
    } else {
      assert segs[1..][..i - 1] == segs[..i][1..] && segs[1..][i..] == segs[i + 1..];
      ConcatSplit(segs[1..], i - 1);
    }
  }

  // load_msg
  method Load(src: seq<byte>) returns (t: Text)
    ensures Flatten(t) == src && WellPacked(t)
  {
    var alen := if |src| > DATALEN_MSG then DATALEN_MSG else |src|;
    var head, segs, pos := src[..alen], [], alen;
    assert src[alen..alen] == [];
    while pos < |src|
      invariant alen <= pos <= |src| && Concat(segs) == src[alen..pos]
      invariant forall i :: 0 <= i < |segs| ==> 0 < |segs[i]| <= DATALEN_SEG
      invariant pos < |src| ==> forall i :: 0 <= i < |segs| ==> |segs[i]| == DATALEN_SEG
      invariant Packed(segs) && (segs != [] ==> alen == DATALEN_MSG)
    {
      var n := |src| - pos;
      if n > DATALEN_SEG {
        n := DATALEN_SEG;
      }
      ConcatSnoc(segs, src[pos..pos + n]);
      segs := segs + [src[pos..pos + n]];
      assert src[alen..pos] + src[pos..pos + n] == src[alen..pos + n];
      pos := pos + n;
    }
    t := Text(head, segs);
  }

  // store_msg: the first len bytes, segment by segment.
  method Store(t: Text, len: nat) returns (dest: seq<byte>)
    requires WellPacked(t) && len <= |Flatten(t)|
    ensures dest == Flatten(t)[..len]
  {
    var alen := if len > DATALEN_MSG then DATALEN_MSG else len;
    dest := t.head[..alen];
    var left, i := len - alen, 0;
    ghost var all := Concat(t.segs);
    assert t.segs[..0] == [];
    while left > 0
      invariant 0 <= left && i <= |t.segs| && (i == |t.segs| ==> left == 0)
      invariant |t.head| == DATALEN_MSG || left == 0
      invariant left > 0 ==> dest == t.head + Concat(t.segs[..i])
      invariant dest == Flatten(t)[..len - left]
      decreases left
    {
      var n := left;
      if n > DATALEN_SEG {
        n := DATALEN_SEG;
      }
      ConcatSplit(t.segs, i);
      assert t.segs[..i + 1] == t.segs[..i] + [t.segs[i]];
      ConcatSnoc(t.segs[..i], t.segs[i]);
      dest := dest + t.segs[i][..n];
      left := left - n;
      i := i + 1;
      assert left > 0 ==> t.segs[i - 1][..n] == t.segs[i - 1];
      if i == |t.segs| {
        assert t.segs[i..] == [];
      }
    }
  }

  /** What msgsnd copied in is what msgrcv copies out, cut at the receiver's size. */
  method Deliver(src: seq<byte>, msgsz: nat) returns (dest: seq<byte>)
    ensures dest == if msgsz > |src| then src else src[..msgsz]
  {
    var t := Load(src);
    dest := Store(t, if msgsz > |src| then |src| else msgsz);
  }
}

/**
  The pipe's page as a ring: start and length, and the copy loops that move up to
  two chunks.
 */
module PipeRing {
  import opened PipeProtocol

  // The n elements of the ring from position `start` on.
  function Ring(b: seq<Byte>, start: nat, n: nat): seq<Byte>
    requires n <= |b| && start < |b|
  {
    if start + n <= |b| then b[start..start + n] else b[start..] + b[..start + n - |b|]
  }

  lemma RingAt(b: seq<Byte>, start: nat, n: nat, k: nat)
    requires k < n <= |b| && start < |b|
    ensures |Ring(b, start, n)| == n && Ring(b, start, n)[k] == b[(start + k) % |b|]
  {
    if start + k < |b| {
      SmallMod(start + k, |b|);
    } else {
      WrapMod(start + k, |b|);
    }
  }

  lemma SmallMod(x: nat, n: nat)
    requires x < n
    ensures x % n == x
  {
  }

  lemma WrapMod(x: nat, n: nat)
    requires n <= x < 2 * n
    ensures x % n == x - n
  {
    assert x == (x - n) + 1 * n;
    assert (x - n) % n == x - n;
  }

  // Dropping the first c elements.
  lemma RingDrop(b: seq<Byte>, start: nat, n: nat, c: nat)
    requires c <= n <= |b| && start < |b|
    requires start + c <= |b|
    ensures var start' := if start + c == |b| then 0 else start + c;
            Ring(b, start, n) == b[start..start + c] + Ring(b, start', n - c)
  {
    if start + c == |b| {
      assert b[start..] == b[start..start + c];
    } else if start + n <= |b| {
      assert b[start..start + n] == b[start..start + c] + b[start + c..start + n];
    } else {
      var tail := b[..start + n - |b|];
      assert b[start..] + tail == b[start..start + c] + (b[start + c..] + tail);
    }
  }

  // Filling a chunk of free space at the end.
  lemma RingFill(b: seq<Byte>, b': seq<Byte>, start: nat, n: nat, at: nat, chunk: seq<Byte>)
    requires |b'| == |b| && n + |chunk| <= |b| && start < |b|
    requires at == (if start + n >= |b| then start + n - |b| else start + n) && at + |chunk| <= |b|
    requires b' == b[..at] + chunk + b[at + |chunk|..]
    ensures Ring(b', start, n + |chunk|) == Ring(b, start, n) + chunk
  {
  }

  lemma Joined(s: seq<Byte>, data: seq<Byte>, i: nat, n: nat)
    requires i + n <= |data|
    ensures s + data[..i] + data[i..i + n] == s + data[..i + n]
  {
    assert data[..i] + data[i..i + n] == data[..i + n];
  }

  lemma Assoc(a: seq<Byte>, b: seq<Byte>, c: seq<Byte>)
    ensures a + (b + c) == a + b + c
  {
  }

  class Pipe {
    const base: array<Byte>
    var start: nat
    var len: nat

    ghost predicate Valid()
      reads this
    {
      base.Length == PIPE_SIZE && start < PIPE_SIZE && len <= PIPE_SIZE
    }

    ghost function Contents(): seq<Byte>
      requires Valid()
      reads this, base
    {
      Ring(base[..], start, len)
    }

    constructor ()
      ensures Valid() && fresh(base) && Contents() == []
    {
      base := new Byte[PIPE_SIZE](_ => 0);
      start, len := 0, 0;
    }

    // copy_from_user of one chunk
    method PutChunk(at: nat, data: seq<Byte>)
      requires base.Length == PIPE_SIZE && at + |data| <= PIPE_SIZE
      modifies base
      ensures base[..] == old(base[..])[..at] + data + old(base[..])[at + |data|..]
    {
      var k := 0;
      while k < |data|
        invariant 0 <= k <= |data|
        invariant base[..] == old(base[..])[..at] + data[..k] + old(base[..])[at + k..]
      {
        base[at + k] := data[k];
        k := k + 1;
      }
    }

    // One chunk into the free space.
    method Fill(chunk: seq<Byte>)
      requires Valid() && len + |chunk| <= PIPE_SIZE && End() + |chunk| <= PIPE_SIZE
      modifies `len, base
      ensures Valid() && len == old(len) + |chunk| && Contents() == old(Contents()) + chunk
    {
      ghost var was := base[..];
      PutChunk(End(), chunk);
      RingFill(was, base[..], start, len, End(), chunk);
      len := len + |chunk|;
    }

    // One chunk from the front.
    method Take(chars: nat) returns (chunk: seq<Byte>)
      requires Valid() && chars <= len && start + chars <= PIPE_SIZE
      modifies `start, `len
      ensures Valid() && len == old(len) - chars && |chunk| == chars
      ensures chunk + Contents() == old(Contents())
    {
      RingDrop(base[..], start, len, chars);
      chunk := base[start..start + chars];
      assert chunk == base[..][start..start + chars];
      start := start + chars;
      if start == PIPE_SIZE {
        start := 0;
      }
      len := len - chars;
    }

    // PIPE_END, with the wrap written out.
    function End(): nat
      requires start < PIPE_SIZE && len <= PIPE_SIZE
      reads this
    {
      if start + len >= PIPE_SIZE then start + len - PIPE_SIZE else start + len
    }

    // The size of the next chunk.
    function Chunk(limit: nat, wanted: nat, available: nat): (r: nat)
      requires limit > 0 && wanted > 0 && available > 0
      ensures 0 < r <= limit && r <= wanted && r <= available
    {
      Min(Min(limit, wanted), available)
    }

    /** The copy loop of pipe_write: as much of the data as there is room for goes
        to the end of the contents.  `chunks` chunks are copied without a fault. */
    method CopyFromUser(data: seq<Byte>, chunks: nat) returns (written: nat, fault: bool)
      requires Valid()
      modifies `len, base
      ensures Valid() && written <= |data|
      ensures Contents() == old(Contents()) + data[..written]
      ensures !fault ==> written == Min(|data|, PIPE_SIZE - old(len))
      ensures fault ==> written < Min(|data|, PIPE_SIZE - old(len))
    {
      written, fault := 0, false;
      var left := chunks;
      ghost var before := Contents();
      while written < |data| && len < PIPE_SIZE
        invariant Valid() && written <= |data| && len == old(len) + written
        invariant Contents() == before + data[..written]
        decreases |data| - written
      {
        var chars := Chunk(PIPE_SIZE - End(), |data| - written, PIPE_SIZE - len);
        if left == 0 {
          fault := true;
          return;
        }
        left := left - 1;
        Fill(data[written..written + chars]);
        Joined(before, data, written, chars);
        written := written + chars;
      }
    }

    /** The copy loop of pipe_read: takes from the front, and leaves the pipe empty
        when it does not get all it wants. */
    method CopyToUser(count: nat, chunks: nat) returns (bytes: seq<Byte>, fault: bool)
      requires Valid()
      modifies `start, `len
      ensures Valid() && bytes + Contents() == old(Contents())
      ensures !fault ==> |bytes| == Min(count, old(len))
      ensures fault ==> |bytes| < Min(count, old(len))
      ensures !fault && |bytes| < count ==> len == 0
    {
      bytes, fault := [], false;
      var left := chunks;
      ghost var before := Contents();
      while |bytes| < count && len > 0
        invariant Valid() && |bytes| <= count && len + |bytes| == old(len)
        invariant bytes + Contents() == before
        decreases len
      {
        var chars := Chunk(PIPE_SIZE - start, count - |bytes|, len);
        if left == 0 {
          fault := true;
          return;
        }
        left := left - 1;
        var chunk := Take(chars);
        Assoc(bytes, chunk, Contents());
        bytes := bytes + chunk;
      }
      if len == 0 {
        start := 0;
      }
    }
  }
}

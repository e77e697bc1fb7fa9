/**
  From the caller's offset and length, in 64-bit arithmetic that wraps, to the range
  of a lock.
 */
module LockRanges {
  import opened PosixLocks

  datatype Range = Refused | Range(start: int, end: int)

  // A signed 64-bit number.
  predicate Signed(x: int) {
    -OFFSET_MAX - 1 <= x <= OFFSET_MAX
  }

  // The sum of two signed numbers overflows at most once.
  function Wrap(x: int): int {
    if x > OFFSET_MAX then x - 2 * (OFFSET_MAX + 1)
    else if x < -OFFSET_MAX - 1 then x + 2 * (OFFSET_MAX + 1)
    else x
  }

  // `origin` is 0, the file position or the file size.
  function ToRange(origin: int, offset: int, len: int): Range {
    var start := Wrap(origin + offset);
    if start < 0 || len < 0 then Refused
    else
      var end := Wrap(Wrap(start + len) - 1);
      if len > 0 && end < 0 then Refused
      else Range(start, if len == 0 then OFFSET_MAX else end)
  }

  /** In spite of the wrap-around a range is accepted exactly when it is one, and is then
      the range meant: a length of zero reaches to the end of the file. */
  lemma RangeExact(origin: int, offset: int, len: int)
    requires 0 <= origin <= OFFSET_MAX && Signed(offset) && Signed(len)
    ensures var start := origin + offset; var end := if len == 0 then OFFSET_MAX else start + len - 1;
            ToRange(origin, offset, len) ==
              if 0 <= start && 0 <= len && start <= end <= OFFSET_MAX then Range(start, end) else Refused
  {
  }
}

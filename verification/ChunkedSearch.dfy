/** Byte search through a bounded buffer with carried overlap: scripts/dev-link.ts. */
module ChunkedSearch {
  import opened Bytes

  const CHUNK_BYTES := 64 * 1024

  predicate OccursAt(needle: Bytes, hay: Bytes, k: int) {
    0 <= k <= |hay| - |needle| && hay[k..k + |needle|] == needle
  }

  predicate Occurs(needle: Bytes, hay: Bytes) {
    exists k | 0 <= k <= |hay| :: OccursAt(needle, hay, k)
  }

  function Min(a: int, b: int): int {
    if a < b then a else b
  }

  /** No match fits in what was read before, so a match must end inside the new bytes. */
  lemma {:induction false} OccursInWindow(needle: Bytes, file: Bytes, from: nat, position: nat, end: nat)
    requires needle != [] && from <= position <= end <= |file|
    requires from == position - Min(|needle| - 1, position)
    requires !Occurs(needle, file[..position])
    ensures Occurs(needle, file[..end]) <==> Occurs(needle, file[from..end])
  {
    var before, window := file[..end], file[from..end];
    if Occurs(needle, before) {
      var k :| 0 <= k <= |before| && OccursAt(needle, before, k);
      assert file[k..k + |needle|] == needle;
      if k + |needle| <= position {
        assert OccursAt(needle, file[..position], k);
        assert false;
      }
      assert window[k - from..k - from + |needle|] == file[k..k + |needle|];
      assert OccursAt(needle, window, k - from);
    }
    if Occurs(needle, window) {
      var k :| 0 <= k <= |window| && OccursAt(needle, window, k);
      assert before[k + from..k + from + |needle|] == window[k..k + |needle|];
      assert OccursAt(needle, before, k + from);
    }
  }

  lemma {:induction false} OccursInPrefix(needle: Bytes, file: Bytes, end: nat)
    requires end <= |file| && Occurs(needle, file[..end])
    ensures Occurs(needle, file)
  {
    var k :| 0 <= k <= end && OccursAt(needle, file[..end], k);
    assert file[k..k + |needle|] == file[..end][k..k + |needle|];
    assert OccursAt(needle, file, k);
  }

  lemma {:induction false} TooShort(needle: Bytes, file: Bytes)
    requires |file| < |needle|
    ensures !Occurs(needle, file)
  {
  }

  lemma {:induction false} NotInNothing(needle: Bytes, file: Bytes)
    requires needle != []
    ensures !Occurs(needle, file[..0])
  {
  }

  lemma {:induction false} Adjoin(file: Bytes, from: nat, position: nat, end: nat)
    requires from <= position <= end <= |file|
    ensures file[from..position] + file[position..end] == file[from..end]
  {
  }

  /** The overlap carried to the next read is the file's bytes just before it. */
  lemma {:induction false} CarriedNext(needle: Bytes, file: Bytes, position: nat, n: nat, overlap: nat)
    requires needle != [] && position + n <= |file| && overlap == Min(|needle| - 1, position)
    ensures var total, end := overlap + n, position + n;
            var next := Min(|needle| - 1, total);
            && 0 <= next <= total && next == Min(|needle| - 1, end)
            && file[position - overlap..end][total - next..] == file[end - next..end]
  {
  }

  /** A read of n bytes at `position` into the buffer from index `at`. */
  method ReadInto(buffer: array<Byte>, at: nat, file: Bytes, position: nat, n: nat)
    requires at + n <= buffer.Length && position + n <= |file|
    modifies buffer
    ensures buffer[..at + n] == old(buffer[..at]) + file[position..position + n]
  {
    forall i | 0 <= i < n {
      buffer[at + i] := file[position + i];
    }
    ghost var copied := buffer[at..at + n];
    forall i | 0 <= i < n
      ensures copied[i] == file[position + i]
    {
      assert buffer[at + i] == file[position + i];
    }
    assert copied == file[position..position + n];
    assert buffer[..at] == old(buffer[..at]);
    assert buffer[..at + n] == buffer[..at] + buffer[at..at + n];
  }

  /** The bytes from..end move to the start of the buffer. */
  method MoveToFront(buffer: array<Byte>, from: nat, end: nat)
    requires from <= end <= buffer.Length
    modifies buffer
    ensures buffer[..end - from] == old(buffer[..end])[from..]
  {
    ghost var moved := buffer[..end][from..];
    forall i | 0 <= i < end - from {
      buffer[i] := buffer[from + i];
    }
    assert forall i | 0 <= i < end - from :: moved[i] == old(buffer[from + i]) == buffer[i];
  }

  /** The buffer starts with the last `overlap` bytes before `position`, and no match ends there. */
  ghost predicate Carrying(needle: Bytes, file: Bytes, position: nat, overlap: nat, front: Bytes) {
    && position <= |file| && overlap == Min(|needle| - 1, position)
    && front == file[position - overlap..position] && !Occurs(needle, file[..position])
  }

  /** What the buffer holds after a read, and where a match in it lies. */
  lemma {:induction false} WindowIs(needle: Bytes, file: Bytes, position: nat, overlap: nat, front: Bytes, n: nat)
    requires needle != [] && position + n <= |file| && Carrying(needle, file, position, overlap, front)
    ensures Occurs(needle, file[..position + n]) <==> Occurs(needle, front + file[position..position + n])
  {
    hide Occurs;
    Adjoin(file, position - overlap, position, position + n);
    OccursInWindow(needle, file, position - overlap, position, position + n);
  }

  lemma {:induction false} CarriedOn(needle: Bytes, file: Bytes, position: nat, overlap: nat, front: Bytes, n: nat)
    requires needle != [] && position + n <= |file| && Carrying(needle, file, position, overlap, front)
    requires !Occurs(needle, file[..position + n])
    ensures |front| == overlap
    ensures var total := overlap + n;
            var next := Min(|needle| - 1, total);
            0 <= next <= total && Carrying(needle, file, position + n, next, (front + file[position..position + n])[total - next..])
  {
    hide Occurs;
    Adjoin(file, position - overlap, position, position + n);
    CarriedNext(needle, file, position, n, overlap);
  }

  /** One read: reports a match in overlap plus new bytes, otherwise carries the next overlap. */
  method SearchChunk(file: Bytes, needle: Bytes, buffer: array<Byte>, overlap: nat, position: nat, n: nat)
    returns (found: bool, overlap': nat)
    requires needle != [] && overlap + n <= buffer.Length && position + n <= |file|
    requires Carrying(needle, file, position, overlap, buffer[..overlap])
    modifies buffer
    ensures found <==> Occurs(needle, file[..position + n])
    ensures !found ==> overlap' <= buffer.Length && Carrying(needle, file, position + n, overlap', buffer[..overlap'])
  {
    hide Occurs, Carrying;
    ghost var front := buffer[..overlap];
    ReadInto(buffer, overlap, file, position, n);
    WindowIs(needle, file, position, overlap, front, n);
    var total := overlap + n;
    found := Occurs(needle, buffer[..total]);
    overlap' := Min(|needle| - 1, total);
    if !found {
      CarriedOn(needle, file, position, overlap, front, n);
      MoveToFront(buffer, total - overlap', total);
    }
  }

  /**
   `readLength(p)` is the length the environment chooses for the read at offset p: any short read,
   zero included. An empty needle makes the first read overrun the buffer, which the source
   turns into `false`.
   */
  method FileContainsBytes(file: Bytes, needle: Bytes, readLength: nat -> nat) returns (found: bool)
    requires forall p: nat | p < |file| :: readLength(p) <= CHUNK_BYTES && p + readLength(p) <= |file|
    ensures found ==> needle != [] && Occurs(needle, file)
    ensures (forall p: nat | p < |file| :: readLength(p) > 0) ==> (found <==> needle != [] && Occurs(needle, file))
  {
    if |file| < |needle| || needle == [] {
      if |file| < |needle| { TooShort(needle, file); }
      return false;
    }
    NotInNothing(needle, file);
    hide Occurs;
    var buffer := new Byte[CHUNK_BYTES + |needle| - 1];
    var overlap: nat, position: nat := 0, 0;
    while position < |file|
      invariant overlap <= buffer.Length && Carrying(needle, file, position, overlap, buffer[..overlap])
    {
      var n := readLength(position);
      if n == 0 {
        return false;
      }
      found, overlap := SearchChunk(file, needle, buffer, overlap, position, n);
      position := position + n;
      if found {
        OccursInPrefix(needle, file, position);
        return true;
      }
    }
    assert file[..position] == file;
    return false;
  }
}

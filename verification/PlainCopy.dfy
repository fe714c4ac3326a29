/** spl_cp1.c: the copy loop with a single buffer. */
module PlainCopy {

  const BUFFER_SIZE: nat := 4096

  /** What read() may return at an offset of a file of the given size. */
  predicate ReadResult(size: nat, offset: nat, n: int) {
    -1 <= n <= BUFFER_SIZE && offset + n <= size && (n == 0 ==> offset == size)
  }

  /** What write() of n bytes may return together with errno. */
  predicate WriteResult(n: int, written: int, errno: int) {
    if errno != 0 then written == -1 else 0 <= written <= n
  }

  /** What the calls return: `read(o)` is the result of read() at offset o, `write(o)`
      the result and errno of write() for the chunk that was read there. */
  ghost predicate Permitted(size: nat, read: nat -> int, write: nat -> (int, int)) {
    forall o: nat :: o <= size ==>
      && ReadResult(size, o, read(o))
      && (read(o) > 0 ==> WriteResult(read(o), write(o).0, write(o).1))
  }

  /** The calls at an offset went well. */
  predicate WentWell(read: nat -> int, write: nat -> (int, int), o: nat) {
    read(o) >= 0 && (read(o) > 0 ==> write(o) == (read(o), 0))
  }

  /** The offsets at which chunks are read, one after the other from the start. */
  ghost predicate Chunks(read: nat -> int, offsets: seq<nat>) {
    && offsets != [] && offsets[0] == 0
    && forall i :: 0 <= i < |offsets| - 1 ==> read(offsets[i]) > 0 && offsets[i + 1] == offsets[i] + read(offsets[i])
  }

  /** Bytes of the source that follow a prefix of it make a longer prefix. */
  lemma NextBytes(source: seq<bv8>, offset: nat, chunk: seq<bv8>, n: nat)
    requires offset + |chunk| <= |source| && n <= |chunk| && chunk == source[offset..offset + |chunk|]
    ensures source[..offset] + chunk[..n] == source[..offset + n]
  {
  }

  /** All chunks but the last were read and written well. */
  ghost predicate WellSoFar(read: nat -> int, write: nat -> (int, int), offsets: seq<nat>) {
    Chunks(read, offsets) && forall i :: 0 <= i < |offsets| - 1 ==> WentWell(read, write, offsets[i])
  }

  lemma NextChunk(read: nat -> int, write: nat -> (int, int), offsets: seq<nat>, next: nat)
    requires WellSoFar(read, write, offsets) && WentWell(read, write, offsets[|offsets| - 1])
    requires read(offsets[|offsets| - 1]) > 0 && next == offsets[|offsets| - 1] + read(offsets[|offsets| - 1])
    ensures WellSoFar(read, write, offsets + [next])
  {
  }

  /** What read() of n bytes does to the buffer. */
  method FillBuffer(buffer: array<bv8>, source: seq<bv8>, offset: nat, n: nat)
    requires n <= buffer.Length && offset + n <= |source|
    modifies buffer
    ensures buffer[..n] == source[offset..offset + n]
  {
    forall j | 0 <= j < n {
      buffer[j] := source[offset + j];
    }
  }

  /** What write() of n bytes adds to the target when it returns `written`. */
  method WriteBuffer(buffer: array<bv8>, target: seq<bv8>, ghost source: seq<bv8>, offset: nat, n: nat, written: int)
    returns (target': seq<bv8>)
    requires n <= buffer.Length && written <= n && offset + n <= |source|
    requires target == source[..offset] && buffer[..n] == source[offset..offset + n]
    ensures target' == source[..offset + if written > 0 then written else 0]
  {
    target' := target;
    if written > 0 {
      NextBytes(source, offset, buffer[..n], written);
      assert buffer[..n][..written] == buffer[..written];
      target' := target + buffer[..written];
    }
  }

  /** Whatever read() and write() return, the target is a prefix of the source. The
      loop ends without a fatal error exactly if all of its calls went well, and
      then the target is the whole source. */
  method CopyFile(source: seq<bv8>, read: nat -> int, write: nat -> (int, int))
    returns (ok: bool, target: seq<bv8>, ghost offsets: seq<nat>)
    requires Permitted(|source|, read, write)
    ensures WellSoFar(read, write, offsets)
    ensures ok <==> WentWell(read, write, offsets[|offsets| - 1])
    ensures ok ==> target == source && read(offsets[|offsets| - 1]) == 0
    ensures target <= source
    ensures var last := offsets[|offsets| - 1];
            |target| == last + if read(last) > 0 && write(last).0 > 0 then write(last).0 else 0
  {
    target := [];
    var buffer := new bv8[BUFFER_SIZE];
    var offset := 0;
    offsets := [0];
    var numBytesRead := read(offset);
    while numBytesRead > 0
      invariant 0 <= offset <= |source| && target == source[..offset]
      invariant numBytesRead == read(offset) && ReadResult(|source|, offset, numBytesRead)
      invariant WellSoFar(read, write, offsets) && offsets[|offsets| - 1] == offset
      decreases |source| - offset
    {
      FillBuffer(buffer, source, offset, numBytesRead);
      var (numBytesWritten, errno) := write(offset);
      assert WriteResult(numBytesRead, numBytesWritten, errno);
      target := WriteBuffer(buffer, target, source, offset, numBytesRead, numBytesWritten);
      if errno != 0 || numBytesWritten != numBytesRead {
        return false, target, offsets;
      }
      NextChunk(read, write, offsets, offset + numBytesRead);
      offset := offset + numBytesRead;
      offsets := offsets + [offset];
      numBytesRead := read(offset);
    }
    ok := numBytesRead != -1;
  }
}

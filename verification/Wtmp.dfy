/** Reading a file of fixed-size records backwards: get_prev_utrec of spl_last.c. */
module Wtmp {

  type Bytes = seq<bv8>

  /** The whole records at the end of the file, in file order. */
  function Records(file: Bytes, utsize: nat): seq<Bytes>
    requires 0 < utsize
    decreases |file|
  {
    if |file| < utsize then []
    else
      var k := |file| - utsize;
      Records(file[..k], utsize) + [file[k..]]
  }

  function Concat(records: seq<Bytes>): Bytes {
    if records == [] then [] else Concat(records[..|records| - 1]) + records[|records| - 1]
  }

  /** A file that consists of whole records is read as these records. */
  lemma {:induction false} RecordsOfConcat(records: seq<Bytes>, utsize: nat)
    requires 0 < utsize
    requires forall i :: 0 <= i < |records| ==> |records[i]| == utsize
    ensures Records(Concat(records), utsize) == records
  {
    if records != [] {
      var init := records[..|records| - 1];
      RecordsOfConcat(init, utsize);
      assert Concat(records)[..|Concat(init)|] == Concat(init);
    }
  }

  /** The record at an offset follows the records before the offset. */
  lemma RecordsUpTo(file: Bytes, utsize: nat, offset: nat)
    requires 0 < utsize && offset + utsize <= |file|
    ensures Records(file[..offset + utsize], utsize) ==
            Records(file[..offset], utsize) + [file[offset..offset + utsize]]
    ensures offset < utsize ==> Records(file[..offset], utsize) == []
  {
    var part := file[..offset + utsize];
    assert part[..|part| - utsize] == file[..offset] && part[|part| - utsize..] == file[offset..offset + utsize];
  }

  /** The static variables of get_prev_utrec and the offset of the descriptor. */
  class Reader {
    const file: Bytes
    const utsize: nat
    var savedOffset: int
    var isFirst: bool
    var fileOffset: int

    ghost predicate Valid()
      reads this
    {
      && 0 < utsize
      && (isFirst || (savedOffset >= 0 ==> fileOffset == savedOffset && savedOffset + utsize <= |file|))
    }

    /** The records that have not been returned yet. */
    ghost function Remaining(): seq<Bytes>
      requires Valid()
      reads this
    {
      if isFirst then Records(file, utsize)
      else if savedOffset < 0 then []
      else Records(file[..savedOffset + utsize], utsize)
    }

    constructor (file: Bytes, utsize: nat)
      requires 0 < utsize
      ensures Valid() && isFirst && this.file == file && this.utsize == utsize
      ensures Remaining() == Records(file, utsize)
    {
      this.file, this.utsize := file, utsize;
      savedOffset, isFirst, fileOffset := 0, true, 0;
    }

    /** The read of the first record that main does before the loop. */
    method ReadFirst() returns (ok: bool, ut: Bytes)
      requires Valid() && isFirst
      modifies this`fileOffset
      ensures Valid() && Remaining() == old(Remaining())
      ensures ok <==> |file| >= utsize
      ensures ok ==> ut == file[..utsize]
    {
      ok, ut := |file| >= utsize, [];
      if ok {
        ut := file[..utsize];
        fileOffset := utsize;
      }
    }

    /** The first call moves to the last record, if the file holds a whole one. */
    method SeekLast() returns (ok: bool)
      requires Valid() && isFirst
      modifies this
      ensures Valid() && Remaining() == old(Remaining())
      ensures ok <==> |file| >= utsize
      ensures ok <==> !isFirst
      ensures ok ==> savedOffset >= 0
    {
      savedOffset := |file| - utsize;
      ok := savedOffset >= 0;
      if ok {
        fileOffset := savedOffset;
        isFirst := false;
        assert file[..savedOffset + utsize] == file;
      } else {
        savedOffset := -1;
      }
    }

    /** Reads the record at saved_offset and moves to the one before it. */
    method ReadBack() returns (ut: Bytes)
      requires Valid() && !isFirst && savedOffset >= 0
      modifies this`fileOffset, this`savedOffset
      ensures Valid()
      ensures old(Remaining()) == Remaining() + [ut]
    {
      ghost var before := Records(file[..savedOffset], utsize);
      RecordsUpTo(file, utsize, savedOffset);
      ut := file[fileOffset..fileOffset + utsize];
      fileOffset := fileOffset + utsize;
      savedOffset := savedOffset - utsize;
      if savedOffset >= 0 {
        fileOffset := fileOffset - 2 * utsize;
      }
      assert Remaining() == before;
    }

    /** Every call returns the last record not returned yet, until there is none;
        `finished` stays as it was when the very first seek fails. Between calls the
        offset of the descriptor is savedOffset (see Valid). */
    method GetPrev(finished: bool) returns (ok: bool, ut: Bytes, finished': bool)
      requires Valid()
      modifies this
      ensures Valid()
      ensures isFirst <==> old(isFirst) && |file| < utsize
      ensures ok <==> old(Remaining()) != []
      ensures ok ==> Remaining() == old(Remaining())[..|old(Remaining())| - 1]
                     && ut == old(Remaining())[|old(Remaining())| - 1]
      ensures !ok ==> Remaining() == old(Remaining())
      ensures finished' == if isFirst then finished else !ok
    {
      ok, ut, finished' := false, [], finished;
      if isFirst {
        ok := SeekLast();
        if !ok {
          return;
        }
      }
      finished' := savedOffset < 0;
      ok := savedOffset >= 0;
      if ok {
        ut := ReadBack();
      }
    }
  }
}

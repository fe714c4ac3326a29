/** sync_io_demo.c: what becomes of the bytes after the last whole chunk, for
    which the program does not look at what read() returns. */
module SyncIoTail {
  import opened SyncIo

  // ------------------------------------------------------------- the program's own data

  /** What the program writes in each round. */
  const DATA := "abcdefghijklmnoprst:"

  /** The program's own data fill whole chunks: unless a write was incomplete,
      all of it was printed when the parent exits, whatever the last read returned. */
  lemma OwnDataIsPrinted(states: seq<State>, actions: seq<Action>, k: nat)
    requires IsRun(states, actions) && k < |states| && states[k].parent.pc.PExited?
    requires states[k].data == DATA && !states[k].child.short
    ensures states[k].parent.printed == states[k].file == Repeat(DATA, ROUNDS)
  {
    assert FillsChunks(DATA);
    AllPrintedAtExit(states, actions, k);
    RunKeepsInv(states, actions, k);
  }

  // ------------------------------------------------------------- before the last read

  /** The output is complete when the last read returns n. */
  ghost predicate CompleteAfter(s: State, n: nat)
    requires Enabled(s, ReadTail(n))
  {
    Step(s, ReadTail(n)).parent.printed == Step(s, ReadTail(n)).file
  }

  ghost predicate AlwaysComplete(s: State) {
    forall n: nat :: Enabled(s, ReadTail(n)) ==> CompleteAfter(s, n)
  }

  lemma TailCompletes(s: State, n: nat)
    requires Inv(s) && Enabled(s, ReadTail(n))
    ensures CompleteAfter(s, n) <==> s.parent.buffer[n..s.parent.unread] == s.file[s.offset + n..]
  {
    var kept, rest := s.parent.buffer[n..s.parent.unread], s.file[s.offset + n..];
    var printed := Step(s, ReadTail(n)).parent.printed;
    assert s.file == s.file[..s.offset] + s.file[s.offset..s.offset + n] + rest;
    assert printed == s.file[..s.offset] + s.file[s.offset..s.offset + n] + kept;
    assert printed[s.offset + n..] == kept && s.file[s.offset + n..] == rest;
  }

  /** A last read of n bytes completes the output if and only if the bytes that it
      leaves out are in the buffer already. */
  lemma LastReadDecides(states: seq<State>, actions: seq<Action>, k: nat, n: nat)
    requires IsRun(states, actions) && k < |states| && Enabled(states[k], ReadTail(n))
    ensures var s := states[k];
            CompleteAfter(s, n) <==> s.parent.buffer[n..s.parent.unread] == s.file[s.offset + n..]
  {
    RunKeepsInv(states, actions, k);
    TailCompletes(states[k], n);
  }

  /** The bytes after the last whole chunk of the file. */
  function Rest(file: string): string {
    file[|file| - |file| % CHUNKSIZE..]
  }

  /** These bytes are also the first ones of the last whole chunk. */
  predicate RestRepeats(file: string)
    requires |file| >= CHUNKSIZE
  {
    var n := |file| - |file| % CHUNKSIZE;
    Rest(file) <= file[n - CHUNKSIZE..n]
  }

  /** Before the last read the file says whether it matters how much that read
      returns: it does not exactly if the bytes after the last whole chunk, if there
      are any, repeat the beginning of that chunk. */
  lemma AlwaysCompleteIff(states: seq<State>, actions: seq<Action>, k: nat)
    requires IsRun(states, actions) && k < |states| && states[k].parent.pc.PTail?
    ensures var s := states[k];
            && s.parent.unread == |s.file| % CHUNKSIZE < |s.parent.buffer|
            && (AlwaysComplete(s) <==> s.parent.buffer[..s.parent.unread] == Rest(s.file))
            && (|s.file| % CHUNKSIZE == 0 ==> AlwaysComplete(s))
            && (|s.file| >= CHUNKSIZE ==> (AlwaysComplete(s) <==> RestRepeats(s.file)))
  {
    RunKeepsInv(states, actions, k);
    RunKeepsChunks(states, actions, k);
    var s := states[k];
    RestStart(s);
    if |s.file| >= CHUNKSIZE {
      RestInBuffer(s);
    }
    AlwaysIfNothing(s);
  }

  /** It is enough to look at a last read that returns nothing. */
  lemma AlwaysIfNothing(s: State)
    requires Inv(s) && s.parent.pc.PTail? && 0 <= s.parent.unread <= |s.parent.buffer|
    ensures AlwaysComplete(s) <==> s.parent.buffer[..s.parent.unread] == s.file[s.offset..]
  {
    var kept, rest := s.parent.buffer[..s.parent.unread], s.file[s.offset..];
    assert Enabled(s, ReadTail(0));
    TailCompletes(s, 0);
    assert s.parent.buffer[0..s.parent.unread] == kept && s.file[s.offset + 0..] == rest;
    if kept == rest {
      forall n: nat | Enabled(s, ReadTail(n)) ensures CompleteAfter(s, n) {
        TailCompletes(s, n);
        assert s.parent.buffer[n..s.parent.unread] == kept[n..] && s.file[s.offset + n..] == rest[n..];
      }
    }
  }

  lemma RestStart(s: State)
    requires Inv(s) && ChunksOk(s) && s.parent.pc.PTail?
    ensures s.parent.unread == |s.file| % CHUNKSIZE < CHUNKSIZE == |s.parent.buffer|
    ensures s.offset == |s.file| - |s.file| % CHUNKSIZE && Rest(s.file) == s.file[s.offset..]
  {
    RestOfChunks(s.offset, s.parent.unread, |s.file|);
  }

  lemma RestInBuffer(s: State)
    requires Inv(s) && ChunksOk(s) && s.parent.pc.PTail? && |s.file| >= CHUNKSIZE
    ensures s.offset >= CHUNKSIZE && s.parent.buffer == s.file[s.offset - CHUNKSIZE..s.offset]
    ensures 0 <= s.parent.unread <= |s.parent.buffer|
    ensures RestRepeats(s.file) <==> s.parent.buffer[..s.parent.unread] == Rest(s.file)
  {
    RestStart(s);
    assert Shown(s) == s.offset;
    PrefixIs(Rest(s.file), s.parent.buffer);
  }

  lemma PrefixIs(a: string, b: string)
    requires |a| <= |b|
    ensures a <= b <==> b[..|a|] == a
  {
  }

  // ------------------------------------------------------------- a wrong output

  /** No signal is under way and the parent is in pause while child takes its turn. */
  ghost predicate AtRound(s: State, m: nat) {
    && Reachable(s) && s.data == DATA && |s.file| == |DATA| * m
    && s.child.pc.CTest? && !s.child.done && s.child.count == m && !s.child.short
    && s.parent.pc.PWaiting? && !s.parent.done
    && !s.toChild && !s.usr1 && !s.usr2 && !s.lost
  }

  lemma ReachableInv(s: State)
    requires Reachable(s)
    ensures Inv(s) && ChunksOk(s)
  {
    var states, actions :| IsRun(states, actions) && states[|actions|] == s;
    RunKeepsInv(states, actions, |actions|);
    RunKeepsChunks(states, actions, |actions|);
  }

  lemma ChildWrites(s: State, k: nat) returns (s': State)
    requires Reachable(s) && s.child.pc.CTest? && !s.child.done && k <= |s.data|
    ensures Reachable(s') && |s'.file| == |s.file| + k && s'.file == s.file + s.data[..k]
    ensures s' == s.(file := s'.file, offset := |s'.file|,
                     child := s.child.(pc := CCount, pos := |s'.file|, writes := s.child.writes + 1,
                                       short := s.child.short || k < |s.data|))
  {
    ReachableInv(s);
    s' := Reach(s, Child);
    s' := Reach(s', Child);
    ReachableInv(s');
    WriteAppends(s', k);
    s' := Reach(s', Write(k));
    s' := Reach(s', Child);
  }

  lemma ChildNotifies(s: State) returns (s': State)
    requires Reachable(s) && s.child.pc.CCount? && s.child.count + 1 < ROUNDS && s.parent.pc.PWaiting? && !s.usr1
    ensures Reachable(s')
    ensures s' == s.(child := s.child.(pc := CWaiting, count := s.child.count + 1), parent := s.parent.(pc := PSize))
  {
    s' := Reach(s, Child);
    s' := Reach(s', Child);
    s' := WakeParent(s');
  }

  lemma WakeParent(s: State) returns (s': State)
    requires Reachable(s) && s.child.pc.CAtPause? && s.parent.pc.PWaiting? && s.usr1
    ensures Reachable(s')
    ensures s' == s.(usr1 := false, child := s.child.(pc := CWaiting), parent := s.parent.(pc := PSize))
  {
    s' := Reach(s, Child);
    s' := Reach(s', DeliverUsr1);
  }

  lemma {:induction false} ReadChunks(s: State) returns (s': State)
    requires Reachable(s) && s.parent.pc.PRead? && s.offset + s.parent.unread <= |s.file|
    ensures Reachable(s') && s'.parent.pc.PRead? && s'.parent.unread < CHUNKSIZE
    ensures s' == s.(offset := s'.offset, parent := s'.parent) && s'.parent.done == s.parent.done
    decreases s.parent.unread
  {
    s' := s;
    if s.parent.unread >= CHUNKSIZE {
      s' := Reach(s, Read(CHUNKSIZE));
      s' := ReadChunks(s');
    }
  }

  lemma ParentReads(s: State) returns (s': State)
    requires Reachable(s) && s.parent.pc.PSize?
    ensures Reachable(s') && s'.parent.pc.PBranch?
    ensures s' == s.(offset := s'.offset, parent := s'.parent) && s'.parent.done == s.parent.done
  {
    s' := Reach(s, Parent);
    s' := Reach(s', Parent);
    ReachableInv(s');
    s' := ReadChunks(s');
    s' := Reach(s', Parent);
  }

  lemma ParentReturns(s: State) returns (s': State)
    requires Reachable(s) && s.parent.pc.PBranch? && !s.parent.done && s.child.pc.CWaiting?
    ensures Reachable(s')
    ensures s' == s.(toChild := false, child := s.child.(pc := CTest),
                     parent := s.parent.(pc := PWaiting, pos := s.offset))
  {
    s' := Reach(s, Parent);
    s' := Reach(s', Parent);
    s' := Reach(s', Parent);
    s' := WakeChild(s');
  }

  lemma WakeChild(s: State) returns (s': State)
    requires Reachable(s) && s.parent.pc.PAtPause? && s.child.pc.CWaiting? && s.toChild
    ensures Reachable(s')
    ensures s' == s.(toChild := false, child := s.child.(pc := CTest), parent := s.parent.(pc := PWaiting))
  {
    s' := Reach(s, Parent);
    s' := Reach(s', DeliverToChild);
  }

  lemma {:induction false} Rounds(m: nat) returns (s: State)
    requires m < ROUNDS
    ensures AtRound(s, m)
  {
    if m == 0 {
      var buffer := seq(CHUNKSIZE, i => '0');
      s := State(DATA, "", 0, ChildProcess(CTest, 0, 0, false, 0, false),
                 ParentProcess(PAtPause, 0, 0, false, buffer, "", "", 0), false, false, false, false);
      assert IsRun([s], []) && [s][0] == s;
      s := Reach(s, Parent);
    } else {
      s := Rounds(m - 1);
      s := ChildWrites(s, |DATA|);
      s := ChildNotifies(s);
      s := ParentReads(s);
      s := ParentReturns(s);
    }
  }

  lemma ChildFinishes(s: State) returns (s': State)
    requires Reachable(s) && s.child.pc.CCount? && s.child.count + 1 == ROUNDS && s.parent.pc.PWaiting? && !s.usr2
    ensures Reachable(s') && s'.parent == s.parent.(pc := PSize, done := true)
    ensures s' == s.(child := s'.child, parent := s'.parent)
  {
    s' := Reach(s, Child);
    s' := Reach(s', Child);
    s' := Reach(s', DeliverUsr2);
  }

  /** The last write leaves out the last byte of the data, and the parent is about to read the rest. */
  lemma LastWriteIncomplete() returns (s: State, before: string)
    ensures Reachable(s) && s.data == DATA && s.parent.pc.PTail?
    ensures s.file == before + DATA[..19] && |before| == 380
  {
    s := Rounds(ROUNDS - 1);
    before := s.file;
    s := ChildWrites(s, 19);
    s := ChildFinishes(s);
    s := ParentReads(s);
    s := Reach(s, Parent);
  }

  /** After an incomplete write the last read matters: when it returns nothing, the
      parent exits with bytes printed that are not those of the file. */
  lemma WrongOutputExample()
    ensures exists s :: Reachable(s) && s.data == DATA && s.parent.pc.PExited?
                        && s.parent.tailRead == 0 && s.parent.printed != s.file
  {
    var s, before := LastWriteIncomplete();
    ReachableInv(s);
    LastChunkDiffers(s.file, before);
    NothingReadIsWrong(s);
    s := Reach(s, ReadTail(0));
  }

  lemma LastChunkDiffers(file: string, before: string)
    requires file == before + DATA[..19] && |before| == 380
    ensures |file| == 399 && file[384] != file[392]
  {
    assert file[384] == DATA[4] && file[392] == DATA[12];
  }

  lemma OtherByteIsWrong(s: State)
    requires Inv(s) && s.parent.pc.PTail? && 0 < s.parent.unread <= |s.parent.buffer|
    requires s.parent.buffer[0] != s.file[s.offset]
    ensures Enabled(s, ReadTail(0)) && !CompleteAfter(s, 0)
  {
    TailCompletes(s, 0);
    assert s.parent.buffer[0..s.parent.unread][0] == s.parent.buffer[0];
    assert s.file[s.offset + 0..][0] == s.file[s.offset];
  }

  lemma NothingReadIsWrong(s: State)
    requires Inv(s) && ChunksOk(s) && s.parent.pc.PTail? && |s.file| == 399 && s.file[384] != s.file[392]
    ensures Enabled(s, ReadTail(0)) && !CompleteAfter(s, 0)
  {
    RestStart(s);
    RestInBuffer(s);
    assert s.parent.buffer[0] == s.file[384];
    OtherByteIsWrong(s);
  }
}

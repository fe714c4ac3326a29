/** sync_io_demo.c: a child that writes a file and a parent that prints it take
    turns by signals, over one file offset that both share. */
module SyncIo {

  const ROUNDS: nat := 20
  const CHUNKSIZE: nat := 8

  /** `CAtPause`: about to call pause; `CWaiting`: inside it. */
  datatype ChildPc = CTest | CSeek | CWrite | CSave | CCount | CNotify | CLast | CAtPause | CWaiting | CExited | CFailed

  datatype ParentPc =
    | PAtPause | PWaiting | PSize | PSeek | PRead | PBranch | PTail | PSave | PNotify | PExited | PFailed

  /** `writes` counts the writes, `short` records that one was incomplete. */
  datatype ChildProcess = ChildProcess(pc: ChildPc, pos: nat, count: nat, done: bool, writes: nat, short: bool)

  /** `tail` is what is printed last and `tailRead` what the last read returned. */
  datatype ParentProcess = ParentProcess(
    pc: ParentPc,
    pos: nat,
    unread: int,
    done: bool,
    buffer: string,
    printed: string,
    tail: string,
    tailRead: int)

  /** `data` is what the child writes each time; `toChild`, `usr1` and `usr2` are the
      pending signals; `lost` records that a signal was delivered outside of pause. */
  datatype State = State(
    data: string,
    file: string,
    offset: nat,
    child: ChildProcess,
    parent: ParentProcess,
    toChild: bool,
    usr1: bool,
    usr2: bool,
    lost: bool)

  datatype Action =
    | Child
    | Write(k: int)          // write() returns k
    | Parent
    | Read(k: int)           // read() of a chunk returns k
    | ReadTail(k: int)       // the last read() returns k
    | DeliverToChild
    | DeliverUsr1
    | DeliverUsr2

  /** The file after bytes are written at an offset inside it. */
  function Overwrite(file: string, offset: nat, bytes: string): string
    requires offset <= |file|
  {
    file[..offset] + bytes + if offset + |bytes| <= |file| then file[offset + |bytes|..] else ""
  }

  ghost predicate Enabled(s: State, a: Action) {
    match a
    case Child => !s.child.pc.CWrite? && !s.child.pc.CWaiting? && !s.child.pc.CExited? && !s.child.pc.CFailed?
    case Write(k) => s.child.pc.CWrite? && -1 <= k <= |s.data| && s.offset <= |s.file|
    case Parent =>
      !s.parent.pc.PWaiting? && !s.parent.pc.PExited? && !s.parent.pc.PFailed?
      && !s.parent.pc.PTail? && !(s.parent.pc.PRead? && s.parent.unread >= CHUNKSIZE)
    case Read(k) =>
      s.parent.pc.PRead? && s.parent.unread >= CHUNKSIZE && -1 <= k <= CHUNKSIZE && s.offset + k <= |s.file|
    case ReadTail(k) =>
      s.parent.pc.PTail? && -1 <= k <= s.parent.unread <= |s.parent.buffer| && s.offset + k <= |s.file|
    case DeliverToChild => s.toChild
    case DeliverUsr1 => s.usr1
    case DeliverUsr2 => s.usr2
  }

  function ChildAt(s: State, pc: ChildPc): State {
    s.(child := s.child.(pc := pc))
  }

  function ParentAt(s: State, pc: ParentPc): State {
    s.(parent := s.parent.(pc := pc))
  }

  ghost function ChildStep(s: State): State
    requires Enabled(s, Child)
  {
    var c := s.child;
    match c.pc
    case CTest => ChildAt(s, if c.done then CExited else CSeek)
    case CSeek => s.(offset := c.pos, child := c.(pc := CWrite))
    case CSave => s.(offset := |s.file|, child := c.(pos := |s.file|, pc := CCount))
    case CCount => s.(child := c.(count := c.count + 1, pc := if c.count + 1 < ROUNDS then CNotify else CLast))
    case CNotify => s.(usr1 := true, child := c.(pc := CAtPause))
    case CAtPause => ChildAt(s, CWaiting)
    case CLast => s.(usr2 := true, child := c.(done := true, pc := CTest))
  }

  ghost function ParentStep(s: State): State
    requires Enabled(s, Parent)
  {
    var p := s.parent;
    match p.pc
    case PAtPause => ParentAt(s, PWaiting)
    case PSize => s.(offset := |s.file|, parent := p.(unread := |s.file| - p.pos, pc := PSeek))
    case PSeek => s.(offset := p.pos, parent := p.(pc := PRead))
    case PRead => ParentAt(s, PBranch)
    case PBranch => ParentAt(s, if p.done then PTail else PSave)
    case PSave => s.(parent := p.(pos := s.offset, pc := PNotify))
    case PNotify => s.(toChild := true, parent := p.(pc := PAtPause))
  }

  ghost function WriteStep(s: State, k: int): State
    requires Enabled(s, Write(k))
  {
    var c := s.child;
    if k < 0 then ChildAt(s, CFailed)
    else
      s.(file := Overwrite(s.file, s.offset, s.data[..k]), offset := s.offset + k,
         child := c.(pc := CSave, short := c.short || k < |s.data|, writes := c.writes + 1))
  }

  ghost function ReadStep(s: State, k: int): State
    requires Enabled(s, Read(k))
  {
    if k != CHUNKSIZE then ParentAt(s, PFailed)
    else
      var p, chunk := s.parent, s.file[s.offset..s.offset + k];
      s.(offset := s.offset + k,
         parent := p.(buffer := chunk, printed := p.printed + chunk, unread := p.unread - k))
  }

  /** The last read: whatever it returns, as many bytes of the buffer are printed
      as were unread, so old ones after an incomplete read. */
  ghost function TailStep(s: State, k: int): State
    requires Enabled(s, ReadTail(k))
  {
    if k < 0 then ParentAt(s, PFailed)
    else
      var p := s.parent;
      var tail := s.file[s.offset..s.offset + k] + p.buffer[k..p.unread];
      s.(offset := s.offset + k,
         parent := p.(pc := PExited, tail := tail, tailRead := k, printed := p.printed + tail))
  }

  ghost function DeliverStep(s: State, a: Action): State
    requires a.DeliverToChild? || a.DeliverUsr1? || a.DeliverUsr2?
  {
    match a
    case DeliverToChild =>
      if s.child.pc.CWaiting? then ChildAt(s, CTest).(toChild := false) else s.(toChild := false, lost := true)
    case DeliverUsr1 =>
      if s.parent.pc.PWaiting? then ParentAt(s, PSize).(usr1 := false) else s.(usr1 := false, lost := true)
    case DeliverUsr2 =>
      if s.parent.pc.PWaiting? then s.(usr2 := false, parent := s.parent.(done := true, pc := PSize))
      else s.(usr2 := false, lost := true, parent := s.parent.(done := true))
  }

  ghost function Step(s: State, a: Action): State
    requires Enabled(s, a)
  {
    match a
    case Child => ChildStep(s)
    case Write(k) => WriteStep(s, k)
    case Parent => ParentStep(s)
    case Read(k) => ReadStep(s, k)
    case ReadTail(k) => TailStep(s, k)
    case _ => DeliverStep(s, a)
  }

  /** The file is empty, both handlers are installed. */
  ghost predicate Init(s: State) {
    && s.file == "" && s.parent.printed == "" && |s.parent.buffer| == CHUNKSIZE && s.offset == 0 && s.child.writes == 0
    && s.child.pc == CTest && s.child.pos == 0 && s.child.count == 0 && !s.child.done
    && s.parent.pc == PAtPause && s.parent.pos == 0 && !s.parent.done
    && !s.toChild && !s.usr1 && !s.usr2 && !s.lost && !s.child.short
  }

  ghost predicate IsRun(states: seq<State>, actions: seq<Action>) {
    && |states| == |actions| + 1
    && Init(states[0])
    && forall k :: 0 <= k < |actions| ==>
         Enabled(states[k], actions[k]) && states[k + 1] == Step(states[k], actions[k])
  }

  // ------------------------------------------------------------- invariant

  /** The child is between two calls of pause, or ended by an error. */
  predicate ChildTurn(s: State) {
    !s.child.pc.CAtPause? && !s.child.pc.CWaiting? && !s.child.pc.CExited? && !(s.child.pc.CTest? && s.child.done)
  }

  predicate ParentTurn(s: State) {
    !s.parent.pc.PAtPause? && !s.parent.pc.PWaiting?
  }

  function Tokens(s: State): nat {
    (if ChildTurn(s) then 1 else 0) + (if ParentTurn(s) then 1 else 0)
    + (if s.toChild then 1 else 0) + (if s.usr1 then 1 else 0) + (if s.usr2 then 1 else 0)
  }

  /** There is one turn to take; a signal delivered outside of pause loses it for good. */
  ghost predicate TokenOk(s: State) {
    Tokens(s) == if s.lost then 0 else 1
  }

  ghost predicate DoneOk(s: State) {
    && s.child.count <= ROUNDS
    && (s.child.pc.CNotify? ==> s.child.count < ROUNDS)
    && (s.child.pc.CLast? ==> s.child.count == ROUNDS)
    && (s.child.pc.CExited? ==> s.child.done)
    && (s.child.done ==> s.child.count == ROUNDS && (s.child.pc.CExited? || s.child.pc.CTest?))
    && (s.usr2 || s.parent.done ==> s.child.done)
    && (!s.child.done && !s.child.pc.CLast? ==> s.child.count < ROUNDS)
    && s.child.writes == s.child.count + (if s.child.pc.CSave? || s.child.pc.CCount? then 1 else 0)
    && (s.parent.pc.PTail? || s.parent.pc.PExited? ==> s.parent.done)
  }

  /** How much of the file has been printed. */
  function Shown(s: State): nat {
    match s.parent.pc
    case PRead => s.offset
    case PBranch => s.offset
    case PTail => s.offset
    case PSave => s.offset
    case _ => s.parent.pos
  }

  ghost predicate OffsetsOk(s: State) {
    && s.parent.pos <= |s.file|
    && (s.child.pc.CWrite? ==> s.offset == |s.file|)
    && (!s.child.pc.CSave? ==> s.child.pos == |s.file|)
    && (s.parent.pc.PSeek? ==> s.parent.unread == |s.file| - s.parent.pos)
    && (s.parent.pc.PRead? || s.parent.pc.PBranch? || s.parent.pc.PTail? || s.parent.pc.PSave? ==>
          s.parent.unread >= 0 && s.offset + s.parent.unread == |s.file|)
    && (s.parent.pc.PBranch? || s.parent.pc.PTail? ==> s.parent.unread < CHUNKSIZE)
    && |s.parent.buffer| == CHUNKSIZE
  }

  /** At its exit the parent has printed a tail in place of the last bytes, which
      agrees with them as far as they were read. */
  ghost predicate ExitOk(s: State) {
    && 0 <= s.parent.tailRead <= s.parent.unread == |s.parent.tail| <= |s.file|
    && s.parent.printed == s.file[..|s.file| - s.parent.unread] + s.parent.tail
    && s.parent.tail[..s.parent.tailRead] == s.file[|s.file| - s.parent.unread..][..s.parent.tailRead]
  }

  ghost predicate PrintedOk(s: State) {
    if s.parent.pc.PExited? then ExitOk(s)
    else !s.parent.pc.PFailed? ==> Shown(s) <= |s.file| && s.parent.printed == s.file[..Shown(s)]
  }

  ghost function Repeat(data: string, n: nat): string {
    if n == 0 then "" else Repeat(data, n - 1) + data
  }

  ghost predicate WrittenOk(s: State) {
    !s.child.short ==> s.file == Repeat(s.data, s.child.writes)
  }

  ghost predicate Inv(s: State) {
    TokenOk(s) && DoneOk(s) && OffsetsOk(s) && PrintedOk(s) && WrittenOk(s)
  }

  lemma WriteAppends(s: State, k: nat)
    requires Inv(s) && Enabled(s, Write(k))
    ensures Overwrite(s.file, s.offset, s.data[..k]) == s.file + s.data[..k]
    ensures k == |s.data| ==> s.data[..k] == s.data
  {
    assert s.file[..s.offset] == s.file;
  }

  lemma ChildKeepsToken(s: State)
    requires Inv(s) && Enabled(s, Child)
    ensures TokenOk(ChildStep(s)) && DoneOk(ChildStep(s))
  {
  }

  lemma ChildKeepsOffsets(s: State)
    requires Inv(s) && Enabled(s, Child)
    ensures OffsetsOk(ChildStep(s))
  {
  }

  lemma ChildKeepsPrinted(s: State)
    requires Inv(s) && Enabled(s, Child)
    ensures PrintedOk(ChildStep(s)) && WrittenOk(ChildStep(s))
  {
  }

  lemma ParentKeepsToken(s: State)
    requires Inv(s) && Enabled(s, Parent)
    ensures TokenOk(ParentStep(s)) && DoneOk(ParentStep(s))
  {
  }

  lemma ParentKeepsOffsets(s: State)
    requires Inv(s) && Enabled(s, Parent)
    ensures OffsetsOk(ParentStep(s))
  {
  }

  lemma ParentKeepsPrinted(s: State)
    requires Inv(s) && Enabled(s, Parent)
    ensures PrintedOk(ParentStep(s)) && WrittenOk(ParentStep(s))
  {
  }

  lemma WriteKeepsToken(s: State, k: int)
    requires Inv(s) && Enabled(s, Write(k))
    ensures TokenOk(WriteStep(s, k)) && DoneOk(WriteStep(s, k))
  {
  }

  lemma WriteKeepsOffsets(s: State, k: int)
    requires Inv(s) && Enabled(s, Write(k))
    ensures OffsetsOk(WriteStep(s, k))
  {
    if k >= 0 {
      WriteAppends(s, k);
    }
  }

  lemma WriteKeepsPrinted(s: State, k: int)
    requires Inv(s) && Enabled(s, Write(k))
    ensures PrintedOk(WriteStep(s, k)) && WrittenOk(WriteStep(s, k))
  {
    if k >= 0 {
      WriteAppends(s, k);
    }
  }

  lemma ReadKeepsToken(s: State, k: int)
    requires Inv(s) && Enabled(s, Read(k))
    ensures TokenOk(ReadStep(s, k)) && DoneOk(ReadStep(s, k))
  {
  }

  lemma ReadKeepsOffsets(s: State, k: int)
    requires Inv(s) && Enabled(s, Read(k))
    ensures OffsetsOk(ReadStep(s, k))
  {
  }

  lemma ReadKeepsPrinted(s: State, k: int)
    requires Inv(s) && Enabled(s, Read(k))
    ensures PrintedOk(ReadStep(s, k)) && WrittenOk(ReadStep(s, k))
  {
    if k == CHUNKSIZE {
      assert s.file[..s.offset + k] == s.file[..s.offset] + s.file[s.offset..s.offset + k];
    }
  }

  lemma TailKeepsToken(s: State, k: int)
    requires Inv(s) && Enabled(s, ReadTail(k))
    ensures TokenOk(TailStep(s, k)) && DoneOk(TailStep(s, k))
  {
  }

  lemma TailKeepsOffsets(s: State, k: int)
    requires Inv(s) && Enabled(s, ReadTail(k))
    ensures OffsetsOk(TailStep(s, k))
  {
  }

  lemma TailAgrees(file: string, offset: nat, unread: nat, buffer: string, k: nat)
    requires offset + unread == |file| && k <= unread <= |buffer|
    ensures var tail := file[offset..offset + k] + buffer[k..unread];
            |tail| == unread && tail[..k] == file[|file| - unread..][..k]
  {
  }

  lemma TailKeepsPrinted(s: State, k: int)
    requires Inv(s) && Enabled(s, ReadTail(k))
    ensures PrintedOk(TailStep(s, k)) && WrittenOk(TailStep(s, k))
  {
    if k >= 0 {
      TailAgrees(s.file, s.offset, s.parent.unread, s.parent.buffer, k);
      assert ExitOk(TailStep(s, k));
    }
  }

  lemma DeliverKeepsToken(s: State, a: Action)
    requires Inv(s) && Enabled(s, a) && (a.DeliverToChild? || a.DeliverUsr1? || a.DeliverUsr2?)
    ensures TokenOk(DeliverStep(s, a)) && DoneOk(DeliverStep(s, a))
  {
  }

  /** Changes that only wake a process. */
  lemma OffsetsFrame(s: State, s': State)
    requires OffsetsOk(s)
    requires s'.file == s.file && s'.offset == s.offset && s'.child.pos == s.child.pos
    requires s'.child.pc == s.child.pc || (s'.child.pc.CTest? && !s.child.pc.CSave?)
    requires s'.parent.pc == s.parent.pc || s'.parent.pc.PSize?
    requires s'.parent.pos == s.parent.pos && s'.parent.unread == s.parent.unread && s'.parent.buffer == s.parent.buffer
    ensures OffsetsOk(s')
  {
  }

  lemma DeliverKeepsOffsets(s: State, a: Action)
    requires Inv(s) && Enabled(s, a) && (a.DeliverToChild? || a.DeliverUsr1? || a.DeliverUsr2?)
    ensures OffsetsOk(DeliverStep(s, a))
  {
    OffsetsFrame(s, DeliverStep(s, a));
  }

  lemma DeliverKeepsPrinted(s: State, a: Action)
    requires Inv(s) && Enabled(s, a) && (a.DeliverToChild? || a.DeliverUsr1? || a.DeliverUsr2?)
    ensures PrintedOk(DeliverStep(s, a)) && WrittenOk(DeliverStep(s, a))
  {
  }

  lemma StepKeepsInv(s: State, a: Action)
    requires Inv(s) && Enabled(s, a)
    ensures Inv(Step(s, a))
  {
    match a
    case Child =>
      ChildKeepsToken(s);
      ChildKeepsOffsets(s);
      ChildKeepsPrinted(s);
    case Write(k) =>
      WriteKeepsToken(s, k);
      WriteKeepsOffsets(s, k);
      WriteKeepsPrinted(s, k);
    case Parent =>
      ParentKeepsToken(s);
      ParentKeepsOffsets(s);
      ParentKeepsPrinted(s);
    case Read(k) =>
      ReadKeepsToken(s, k);
      ReadKeepsOffsets(s, k);
      ReadKeepsPrinted(s, k);
    case ReadTail(k) =>
      TailKeepsToken(s, k);
      TailKeepsOffsets(s, k);
      TailKeepsPrinted(s, k);
    case _ =>
      DeliverKeepsToken(s, a);
      DeliverKeepsOffsets(s, a);
      DeliverKeepsPrinted(s, a);
  }

  lemma {:induction false} RunKeepsInv(states: seq<State>, actions: seq<Action>, k: nat)
    requires IsRun(states, actions) && k < |states|
    ensures Inv(states[k])
  {
    if k > 0 {
      RunKeepsInv(states, actions, k - 1);
      StepKeepsInv(states[k - 1], actions[k - 1]);
    }
  }

  // ------------------------------------------------------------- results

  predicate ChildInFile(pc: ChildPc) {
    pc.CSeek? || pc.CWrite? || pc.CSave?
  }

  predicate ParentInFile(pc: ParentPc) {
    pc.PSize? || pc.PSeek? || pc.PRead? || pc.PBranch? || pc.PTail? || pc.PSave?
  }

  /** Child and parent are never both at work on the file. */
  lemma MutualExclusion(states: seq<State>, actions: seq<Action>, k: nat)
    requires IsRun(states, actions) && k < |states|
    ensures !(ChildInFile(states[k].child.pc) && ParentInFile(states[k].parent.pc))
  {
    RunKeepsInv(states, actions, k);
  }

  // ------------------------------------------------------------- whole chunks

  predicate Reading(pc: ParentPc) {
    pc.PRead? || pc.PBranch? || pc.PTail? || pc.PSave?
  }

  /** Before its last read the parent reads whole chunks. */
  ghost predicate Aligned(s: State) {
    && s.parent.pos % CHUNKSIZE == 0
    && (Reading(s.parent.pc) ==> s.offset % CHUNKSIZE == 0)
    && (s.parent.pc.PExited? ==> s.parent.unread == |s.file| % CHUNKSIZE)
  }

  predicate Stopped(pc: ParentPc) {
    pc.PExited? || pc.PFailed?
  }

  /** The buffer holds what was read last. */
  ghost predicate LatestChunk(s: State) {
    !Stopped(s.parent.pc) && CHUNKSIZE <= Shown(s) <= |s.file| ==>
      s.parent.buffer == s.file[Shown(s) - CHUNKSIZE..Shown(s)]
  }

  ghost predicate ChunksOk(s: State) {
    Aligned(s) && LatestChunk(s)
  }

  /** While the child is at the file the parent is not. */
  lemma ChildAlone(s: State)
    requires Inv(s) && (s.child.pc.CSeek? || s.child.pc.CWrite? || s.child.pc.CSave?)
    ensures !Reading(s.parent.pc) && !s.parent.pc.PExited?
  {
  }

  lemma ChildKeepsAligned(s: State)
    requires Inv(s) && Aligned(s) && Enabled(s, Child)
    ensures Aligned(ChildStep(s))
  {
    if s.child.pc.CSeek? || s.child.pc.CSave? {
      ChildAlone(s);
    }
  }

  /** The parent sets the shared offset, or takes its position from it. */
  predicate UsesOffset(pc: ParentPc) {
    pc.PSize? || pc.PSeek? || pc.PSave?
  }

  lemma ParentKeepsAligned(s: State)
    requires Aligned(s) && Enabled(s, Parent)
    ensures Aligned(ParentStep(s))
  {
    if UsesOffset(s.parent.pc) {
      OffsetKeepsAligned(s);
    } else {
      ParentElsewhere(s);
    }
  }

  lemma OffsetKeepsAligned(s: State)
    requires Aligned(s) && Enabled(s, Parent) && UsesOffset(s.parent.pc)
    ensures Aligned(ParentStep(s))
  {
  }

  lemma OffsetKeepsShown(s: State)
    requires Enabled(s, Parent) && UsesOffset(s.parent.pc)
    ensures var s' := ParentStep(s);
            s'.file == s.file && s'.parent.buffer == s.parent.buffer && Shown(s') == Shown(s)
  {
  }

  lemma ParentElsewhere(s: State)
    requires Enabled(s, Parent) && !UsesOffset(s.parent.pc)
    ensures var s' := ParentStep(s);
            && s'.file == s.file && s'.offset == s.offset && !s'.parent.pc.PExited?
            && s'.parent == s.parent.(pc := s'.parent.pc)
            && (Reading(s'.parent.pc) <==> Reading(s.parent.pc))
  {
  }

  lemma WriteKeepsAligned(s: State, k: int)
    requires Inv(s) && Aligned(s) && Enabled(s, Write(k))
    ensures Aligned(WriteStep(s, k))
  {
    ChildAlone(s);
  }

  lemma ReadKeepsAligned(s: State, k: int)
    requires Aligned(s) && Enabled(s, Read(k))
    ensures Aligned(ReadStep(s, k))
  {
  }

  lemma TailKeepsAligned(s: State, k: int)
    requires OffsetsOk(s) && Aligned(s) && Enabled(s, ReadTail(k))
    ensures Aligned(TailStep(s, k))
  {
    RestOfChunks(s.offset, s.parent.unread, |s.file|);
  }

  lemma RestOfChunks(offset: nat, unread: int, size: nat)
    requires offset % CHUNKSIZE == 0 && 0 <= unread < CHUNKSIZE && offset + unread == size
    ensures unread == size % CHUNKSIZE
  {
  }

  lemma DeliverKeepsAligned(s: State, a: Action)
    requires Aligned(s) && Enabled(s, a) && (a.DeliverToChild? || a.DeliverUsr1? || a.DeliverUsr2?)
    ensures Aligned(DeliverStep(s, a))
  {
  }

  /** Steps that leave buffer and file alone, and what has been shown of it. */
  lemma LatestFrame(s: State, s': State)
    requires LatestChunk(s)
    requires s'.file == s.file && s'.parent.buffer == s.parent.buffer
    requires !Stopped(s'.parent.pc) ==> !Stopped(s.parent.pc) && Shown(s') == Shown(s)
    ensures LatestChunk(s')
  {
  }

  lemma ChildKeepsShown(s: State)
    requires Inv(s) && Enabled(s, Child)
    ensures ChildStep(s).file == s.file && ChildStep(s).parent == s.parent && Shown(ChildStep(s)) == Shown(s)
  {
    if s.child.pc.CSeek? || s.child.pc.CSave? {
      ChildAlone(s);
    }
  }

  lemma ParentKeepsShown(s: State)
    requires Enabled(s, Parent)
    ensures var s' := ParentStep(s);
            && s'.file == s.file && s'.parent.buffer == s.parent.buffer && !Stopped(s.parent.pc)
            && Shown(s') == Shown(s)
  {
    if UsesOffset(s.parent.pc) {
      OffsetKeepsShown(s);
    } else {
      ParentElsewhere(s);
    }
  }

  lemma DeliverKeepsShown(s: State, a: Action)
    requires Enabled(s, a) && (a.DeliverToChild? || a.DeliverUsr1? || a.DeliverUsr2?)
    ensures var s' := DeliverStep(s, a);
            && s'.file == s.file && s'.parent.buffer == s.parent.buffer && Shown(s') == Shown(s)
            && (!Stopped(s'.parent.pc) ==> !Stopped(s.parent.pc))
  {
  }

  lemma WriteKeepsLatest(s: State, k: int)
    requires Inv(s) && LatestChunk(s) && Enabled(s, Write(k))
    ensures LatestChunk(WriteStep(s, k))
  {
    ChildAlone(s);
    if k >= 0 && !Stopped(s.parent.pc) {
      WriteAppends(s, k);
      LongerFile(s, WriteStep(s, k), s.data[..k]);
    }
  }

  lemma LongerFile(s: State, s': State, more: string)
    requires LatestChunk(s) && s'.file == s.file + more && s'.parent == s.parent
    requires Shown(s') == Shown(s) <= |s.file|
    ensures LatestChunk(s')
  {
  }

  lemma ReadKeepsLatest(s: State, k: int)
    requires Enabled(s, Read(k))
    ensures LatestChunk(ReadStep(s, k))
  {
  }

  lemma StepKeepsAligned(s: State, a: Action)
    requires Inv(s) && Aligned(s) && Enabled(s, a)
    ensures Aligned(Step(s, a))
  {
    match a
    case Child => ChildKeepsAligned(s);
    case Write(k) => WriteKeepsAligned(s, k);
    case Parent => ParentKeepsAligned(s);
    case Read(k) => ReadKeepsAligned(s, k);
    case ReadTail(k) => TailKeepsAligned(s, k);
    case _ => DeliverKeepsAligned(s, a);
  }

  lemma StepKeepsLatest(s: State, a: Action)
    requires Inv(s) && LatestChunk(s) && Enabled(s, a)
    ensures LatestChunk(Step(s, a))
  {
    match a
    case Child =>
      ChildKeepsShown(s);
      LatestFrame(s, ChildStep(s));
    case Write(k) => WriteKeepsLatest(s, k);
    case Parent =>
      ParentKeepsShown(s);
      LatestFrame(s, ParentStep(s));
    case Read(k) => ReadKeepsLatest(s, k);
    case ReadTail(k) => assert Stopped(TailStep(s, k).parent.pc);
    case _ =>
      DeliverKeepsShown(s, a);
      LatestFrame(s, DeliverStep(s, a));
  }

  lemma {:induction false} RunKeepsChunks(states: seq<State>, actions: seq<Action>, k: nat)
    requires IsRun(states, actions) && k < |states|
    ensures ChunksOk(states[k])
  {
    if k > 0 {
      RunKeepsChunks(states, actions, k - 1);
      RunKeepsInv(states, actions, k - 1);
      StepKeepsAligned(states[k - 1], actions[k - 1]);
      StepKeepsLatest(states[k - 1], actions[k - 1]);
    }
  }

  lemma {:induction false} RepeatLength(data: string, n: nat)
    ensures |Repeat(data, n)| == |data| * n
  {
    if n > 0 {
      RepeatLength(data, n - 1);
    }
  }

  lemma {:induction false} RepeatPrefix(data: string, m: nat, n: nat)
    requires m <= n
    ensures Repeat(data, m) <= Repeat(data, n)
  {
    if m < n {
      RepeatPrefix(data, m, n - 1);
    }
  }

  // ------------------------------------------------------------- the output

  /** The data written in all rounds fill whole chunks. */
  predicate FillsChunks(data: string) {
    |data| * ROUNDS % CHUNKSIZE == 0
  }

  /** Until its exit the parent prints a prefix of what the child wrote, which is
      the data over and over when no write was incomplete. At the exit only the
      bytes after the last whole chunk can be wrong. */
  lemma PrintedIsPrefix(states: seq<State>, actions: seq<Action>, k: nat)
    requires IsRun(states, actions) && k < |states| && !states[k].parent.pc.PFailed?
    ensures
      var s := states[k];
      && (!s.parent.pc.PExited? || s.parent.tailRead == s.parent.unread || |s.file| % CHUNKSIZE == 0 ==>
            s.parent.printed <= s.file)
      && (s.parent.pc.PExited? ==>
            |s.parent.printed| == |s.file|
            && var n := |s.file| - |s.file| % CHUNKSIZE; s.parent.printed[..n] == s.file[..n])
      && (!s.child.short ==> s.file == Repeat(s.data, s.child.writes))
      && (!s.child.short && FillsChunks(s.data) ==> s.parent.printed <= Repeat(s.data, ROUNDS))
  {
    RunKeepsInv(states, actions, k);
    RunKeepsChunks(states, actions, k);
    var s := states[k];
    if s.parent.pc.PExited? {
      ExitPrefix(s);
      RepeatLength(s.data, ROUNDS);
    } else {
      assert s.parent.printed <= s.file;
      RepeatPrefix(s.data, s.child.writes, ROUNDS);
    }
  }

  lemma ExitPrefix(s: State)
    requires ExitOk(s) && s.parent.unread == |s.file| % CHUNKSIZE
    ensures |s.parent.printed| == |s.file|
    ensures var n := |s.file| - |s.file| % CHUNKSIZE; s.parent.printed[..n] == s.file[..n]
    ensures s.parent.tailRead == s.parent.unread || |s.file| % CHUNKSIZE == 0 ==> s.parent.printed == s.file
  {
    TailIsRest(s);
  }

  lemma TailIsRest(s: State)
    requires ExitOk(s)
    ensures s.parent.printed == s.file <==> s.parent.tail == s.file[|s.file| - s.parent.unread..]
    ensures s.parent.tailRead == s.parent.unread ==> s.parent.printed == s.file
  {
    var n := |s.file| - s.parent.unread;
    assert s.file == s.file[..n] + s.file[n..];
    assert s.parent.printed[n..] == s.parent.tail;
    assert s.parent.tail[..s.parent.unread] == s.parent.tail && s.file[n..][..s.parent.unread] == s.file[n..];
  }

  /** When the parent exits, the child has written all its rounds. If they fill
      whole chunks, everything was printed whatever the last read returned; if
      not, the bytes after the last whole chunk were printed if that read was
      complete, or if the old bytes in the buffer happen to be the missing ones. */
  lemma AllPrintedAtExit(states: seq<State>, actions: seq<Action>, k: nat)
    requires IsRun(states, actions) && k < |states| && states[k].parent.pc.PExited?
    ensures var s := states[k];
            && 0 <= s.parent.tailRead <= s.parent.unread == |s.file| % CHUNKSIZE && |s.parent.printed| == |s.file|
            && (s.parent.printed == s.file <==> s.parent.tail == s.file[|s.file| - s.parent.unread..])
            && (s.parent.tailRead == s.parent.unread || |s.file| % CHUNKSIZE == 0 ==> s.parent.printed == s.file)
            && s.child.writes == ROUNDS && (s.child.pc.CExited? || s.child.pc.CTest?)
            && (!s.child.short && (FillsChunks(s.data) || s.parent.tailRead == s.parent.unread) ==>
                  s.parent.printed == Repeat(s.data, ROUNDS))
  {
    RunKeepsInv(states, actions, k);
    RunKeepsChunks(states, actions, k);
    TailIsRest(states[k]);
    RepeatLength(states[k].data, ROUNDS);
  }

  /** A step other than a process walking into pause or the child leaving its loop. */
  ghost predicate Advances(s: State, a: Action)
    requires Enabled(s, a)
  {
    && !(a.Parent? && s.parent.pc.PAtPause?)
    && !(a.Child? && (s.child.pc.CAtPause? || (s.child.pc.CTest? && s.child.done)))
  }

  predicate Ended(s: State) {
    s.parent.pc.PExited? || s.parent.pc.PFailed? || s.child.pc.CFailed?
  }

  lemma ParentGoesOn(s: State)
    requires Enabled(s, Parent)
    ensures !ParentStep(s).parent.pc.PFailed? && ParentStep(s).child == s.child
  {
  }

  lemma ChildGoesOn(s: State)
    requires Enabled(s, Child)
    ensures !ChildStep(s).child.pc.CFailed? && ChildStep(s).parent == s.parent
  {
  }

  lemma SignalsDoNoHarm(s: State, a: Action)
    requires Enabled(s, a) && (a.DeliverToChild? || a.DeliverUsr1? || a.DeliverUsr2?)
    requires !s.parent.pc.PFailed? && !s.child.pc.CFailed?
    ensures !DeliverStep(s, a).parent.pc.PFailed? && !DeliverStep(s, a).child.pc.CFailed?
  {
  }

  lemma WriteFails(s: State, k: int)
    requires Enabled(s, Write(k))
    ensures WriteStep(s, k).parent == s.parent && (WriteStep(s, k).child.pc.CFailed? <==> k == -1)
  {
  }

  lemma ReadFails(s: State, k: int)
    requires Enabled(s, Read(k))
    ensures ReadStep(s, k).child == s.child && (ReadStep(s, k).parent.pc.PFailed? <==> k != CHUNKSIZE)
  {
  }

  lemma TailFails(s: State, k: int)
    requires Enabled(s, ReadTail(k))
    ensures TailStep(s, k).child == s.child && (TailStep(s, k).parent.pc.PFailed? <==> k == -1)
  {
  }

  /** The parent fails exactly when a read of a chunk does not return a whole chunk or
      the last one returns -1, the child exactly when a write returns -1. */
  lemma FailsIff(s: State, a: Action)
    requires Enabled(s, a) && !s.parent.pc.PFailed? && !s.child.pc.CFailed?
    ensures Step(s, a).parent.pc.PFailed? <==> (a.Read? && a.k != CHUNKSIZE) || (a.ReadTail? && a.k == -1)
    ensures Step(s, a).child.pc.CFailed? <==> a.Write? && a.k == -1
  {
    match a
    case Child => ChildGoesOn(s);
    case Parent => ParentGoesOn(s);
    case Write(k) => WriteFails(s, k);
    case Read(k) => ReadFails(s, k);
    case ReadTail(k) => TailFails(s, k);
    case _ => SignalsDoNoHarm(s, a);
  }

  /** Before the end the two processes can take a step that advances the copy
      exactly as long as no signal was delivered outside of pause. */
  lemma StuckIffSignalLost(states: seq<State>, actions: seq<Action>, k: nat)
    requires IsRun(states, actions) && k < |states| && !Ended(states[k])
    ensures (exists a :: Enabled(states[k], a) && Advances(states[k], a)) <==> !states[k].lost
  {
    RunKeepsInv(states, actions, k);
    var s := states[k];
    if !s.lost {
      var a :=
        if s.toChild then DeliverToChild
        else if s.usr1 then DeliverUsr1
        else if s.usr2 then DeliverUsr2
        else if s.parent.pc.PRead? && s.parent.unread >= CHUNKSIZE then Read(CHUNKSIZE)
        else if s.parent.pc.PTail? then ReadTail(s.parent.unread)
        else if ParentTurn(s) then Parent
        else if s.child.pc.CWrite? then Write(|s.data|)
        else Child;
      assert Enabled(s, a) && Advances(s, a);
    }
  }

  lemma ChildKeepsLoss(s: State)
    requires Enabled(s, Child)
    ensures ChildStep(s).lost == s.lost
  {
  }

  lemma ParentKeepsLoss(s: State)
    requires Enabled(s, Parent)
    ensures ParentStep(s).lost == s.lost
  {
  }

  lemma StepKeepsLoss(s: State, a: Action)
    requires Enabled(s, a) && s.lost
    ensures Step(s, a).lost
  {
    match a
    case Child => ChildKeepsLoss(s);
    case Parent => ParentKeepsLoss(s);
    case Write(k) => assert WriteStep(s, k).lost;
    case Read(k) => assert ReadStep(s, k).lost;
    case ReadTail(k) => assert TailStep(s, k).lost;
    case _ => assert DeliverStep(s, a).lost;
  }

  lemma {:induction false} LossPersists(states: seq<State>, j: nat, k: nat)
    requires j <= k < |states| && states[j].lost
    requires forall i: nat :: i + 1 < |states| && states[i].lost ==> states[i + 1].lost
    ensures states[k].lost
    decreases k
  {
    if j < k {
      LossPersists(states, j, k - 1);
      assert k - 1 + 1 == k;
    }
  }

  lemma LossIsPermanent(states: seq<State>, actions: seq<Action>, j: nat, k: nat)
    requires IsRun(states, actions) && j <= k < |states| && states[j].lost
    ensures states[k].lost
  {
    forall i: nat | i + 1 < |states| && states[i].lost ensures states[i + 1].lost {
      NextIsLost(states, actions, i);
    }
    LossPersists(states, j, k);
  }

  lemma NextIsLost(states: seq<State>, actions: seq<Action>, k: nat)
    requires IsRun(states, actions) && k < |actions| && states[k].lost
    ensures states[k + 1].lost
  {
    StepKeepsLoss(states[k], actions[k]);
  }

  /** After a signal was lost the parent never gets to its exit. */
  lemma LostForever(states: seq<State>, actions: seq<Action>, j: nat, k: nat)
    requires IsRun(states, actions) && j <= k < |states| && states[j].lost
    ensures !Ended(states[k])
  {
    LossIsPermanent(states, actions, j, k);
    RunKeepsInv(states, actions, k);
  }

  ghost predicate Reachable(s: State) {
    exists states, actions :: IsRun(states, actions) && states[|actions|] == s
  }

  lemma Reach(s: State, a: Action) returns (s': State)
    requires Reachable(s) && Enabled(s, a)
    ensures Reachable(s') && s' == Step(s, a)
  {
    s' := Step(s, a);
    var states, actions :| IsRun(states, actions) && states[|actions|] == s;
    var longer, done := states + [s'], actions + [a];
    forall k | 0 <= k < |done| ensures Enabled(longer[k], done[k]) && longer[k + 1] == Step(longer[k], done[k]) {
      if k < |actions| {
        assert longer[k] == states[k] && longer[k + 1] == states[k + 1] && done[k] == actions[k];
      }
    }
    assert IsRun(longer, done) && longer[|done|] == s';
  }

  /** The child writes for the first time. */
  lemma FirstWrite(s: State) returns (s': State)
    requires Reachable(s) && s.child.pc.CWrite? && s.offset == |s.file|
    ensures Reachable(s') && s'.child.pc.CCount? && s'.child.count == s.child.count
    ensures s'.parent == s.parent && s'.data == s.data
  {
    s' := Reach(s, Write(|s.data|));
    s' := Reach(s', Child);
  }

  lemma FirstSignal(s: State) returns (s': State)
    requires Reachable(s) && s.child.pc.CCount? && s.child.count + 1 < ROUNDS && s.parent.pc.PAtPause?
    ensures Reachable(s') && s'.lost && s'.data == s.data
  {
    s' := Reach(s, Child);
    s' := Reach(s', Child);
    s' := Reach(s', DeliverUsr1);
  }

  /** The child can be so fast that its first signal finds the parent not yet in pause. */
  lemma SignalCanBeLost(data: string)
    ensures exists s :: Reachable(s) && s.data == data && s.lost && !Ended(s)
  {
    var buffer := seq(CHUNKSIZE, i => '0');
    var s := State(data, "", 0, ChildProcess(CTest, 0, 0, false, 0, false),
                   ParentProcess(PAtPause, 0, 0, false, buffer, "", "", 0), false, false, false, false);
    assert IsRun([s], []) && [s][0] == s;
    s := Reach(s, Child);
    s := Reach(s, Child);
    s := FirstWrite(s);
    s := FirstSignal(s);
    LossIsFinal(s);
  }

  lemma LossIsFinal(s: State)
    requires Reachable(s) && s.lost
    ensures !Ended(s)
  {
    var states, actions :| IsRun(states, actions) && states[|actions|] == s;
    LostForever(states, actions, |actions|, |actions|);
  }
}

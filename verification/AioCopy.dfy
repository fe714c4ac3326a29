/** cp_aio.c: a copy loop that writes one buffer while an asynchronous read
    fills the other, as a step relation of the program, the reader and the
    signal that announces a completed read. */
module AioCopy {

  type Bytes = seq<bv8>

  const BUFFER_SIZE: nat := 4096
  const EINTR: int := 4

  /** The asynchronous read: running, completed, announced by SIGIO, or fetched with aio_return. */
  datatype Request = Pending | Completed(n: int) | Announced(n: int) | Fetched

  /** Where the program is; `Writing(n, k)` has handed k of n bytes to write(). */
  datatype Pc =
    | Test | Clear | Return | Switch(n: int) | StartRead(n: int) | Writing(n: int, k: int) | Check(n: int, result: int)
    | Done | Failed

  /** `lost` records that the loop went on after an incomplete write, `last`
      is the latest result of aio_return. */
  datatype State = State(
    source: Bytes,
    target: Bytes,
    buf: seq<Bytes>,
    i: nat,
    aioBuf: nat,
    writeBuf: nat,
    aioOffset: nat,
    request: Request,
    inputReady: bool,
    errno: int,
    pc: Pc,
    lost: bool,
    last: int)

  datatype Action =
    | Program                     // the program's next step
    | WriteEnds(errno: int)       // write() returns; a non-zero errno means that it failed
    | Fill(data: Bytes)           // the reader stores bytes of the read in progress
    | Complete(n: int, data: Bytes)
    | Signal                      // SIGIO is delivered and on_input runs

  /** The bytes a read of n bytes at the current offset delivers. */
  ghost predicate Delivers(s: State, n: int, data: Bytes) {
    && |data| == BUFFER_SIZE
    && -1 <= n <= BUFFER_SIZE && s.aioOffset + n <= |s.source|
    && (n == 0 ==> s.aioOffset == |s.source|)
    && (n > 0 ==> data[..n] == s.source[s.aioOffset..s.aioOffset + n])
  }

  ghost predicate Enabled(s: State, a: Action) {
    && |s.buf| == 2 && s.aioBuf < 2 && s.writeBuf < 2 && s.i < 2
    && match a
       case Program =>
         (match s.pc
          case Writing(n, k) => 0 <= k < n <= |s.buf[s.writeBuf]|
          case Return => s.request.Announced?
          case Done => false
          case Failed => false
          case _ => true)
       case WriteEnds(e) => s.pc.Writing? && (e != 0 ==> s.pc.k == 0)
       case Fill(data) => s.request.Pending? && |data| == BUFFER_SIZE
       case Complete(n, data) => s.request.Pending? && Delivers(s, n, data)
       case Signal => s.request.Completed?
  }

  ghost function Step(s: State, a: Action): State
    requires Enabled(s, a)
  {
    match a
    case Program =>
      (match s.pc
       case Test => if s.inputReady then s.(pc := Clear) else s
       case Clear => s.(inputReady := false, pc := Return)
       case Return => s.(request := Fetched, last := s.request.n, pc := Switch(s.request.n))
       case Switch(n) =>
         if n > 0 then
           s.(writeBuf := s.aioBuf, i := 1 - s.i, aioBuf := 1 - s.i, aioOffset := s.aioOffset + n, pc := StartRead(n))
         else s.(pc := Done)
       case StartRead(n) => s.(request := Pending, pc := Writing(n, 0))
       case Writing(n, k) => s.(target := s.target + [s.buf[s.writeBuf][k]], pc := Writing(n, k + 1))
       case Check(n, result) =>
         if s.errno == EINTR then s.(pc := Test, lost := s.lost || result != n)
         else if s.errno != 0 || result != n then s.(pc := Failed)
         else s.(pc := Test))
    case WriteEnds(e) =>
      if e != 0 then s.(errno := e, pc := Check(s.pc.n, -1)) else s.(pc := Check(s.pc.n, s.pc.k))
    case Fill(data) => s.(buf := s.buf[s.aioBuf := data])
    case Complete(n, data) => s.(buf := s.buf[s.aioBuf := data], request := Completed(n))
    case Signal => s.(request := Announced(s.request.n), inputReady := true)
  }

  /** The state in which main enters its loop, with the first read started. */
  ghost predicate Init(s: State) {
    && s.target == [] && |s.buf| == 2 && |s.buf[0]| == |s.buf[1]| == BUFFER_SIZE
    && s.i == 0 && s.aioBuf == 0 && s.writeBuf < 2 && s.aioOffset == 0
    && s.request == Pending && !s.inputReady && s.errno == 0
    && s.pc == Test && !s.lost && s.last == 1
  }

  ghost predicate IsRun(states: seq<State>, actions: seq<Action>) {
    && |states| == |actions| + 1
    && Init(states[0])
    && forall k :: 0 <= k < |actions| ==>
         Enabled(states[k], actions[k]) && states[k + 1] == Step(states[k], actions[k])
  }

  // ------------------------------------------------------------- invariant

  ghost predicate Shape(s: State) {
    && |s.buf| == 2 && |s.buf[0]| == |s.buf[1]| == BUFFER_SIZE
    && s.i < 2 && s.aioBuf == s.i && s.writeBuf < 2 && s.aioOffset <= |s.source|
  }

  /** No completion gets lost: input_ready is set exactly while an announced read waits for aio_return. */
  ghost predicate RequestOk(s: State) {
    (match s.pc
        case Test => !s.request.Fetched? && (s.inputReady <==> s.request.Announced?)
        case Writing(_, _) => !s.request.Fetched? && (s.inputReady <==> s.request.Announced?)
        case Check(_, _) => !s.request.Fetched? && (s.inputReady <==> s.request.Announced?)
        case Clear => s.request.Announced?
        case Return => s.request.Announced? && !s.inputReady
        case Switch(_) => s.request.Fetched? && !s.inputReady
        case StartRead(_) => s.request.Fetched? && !s.inputReady
        case _ => true)
  }

  /** What a completed read delivered, and why the loop ended. */
  ghost predicate ReadOk(s: State)
    requires Shape(s)
  {
    && (s.request.Completed? || s.request.Announced? ==> Delivers(s, s.request.n, s.buf[s.aioBuf]))
    && (s.pc.Switch? ==> s.last == s.pc.n && Delivers(s, s.pc.n, s.buf[s.aioBuf]))
    && (s.pc.Done? ==> s.last <= 0 && (s.last == 0 ==> s.aioOffset == |s.source|))
  }

  /** How many bytes of the source have been handed to write(). */
  function Handed(s: State): int {
    match s.pc
    case StartRead(n) => s.aioOffset - n
    case Writing(n, k) => s.aioOffset - n + k
    case Check(n, result) => s.aioOffset - n + if result >= 0 then result else 0
    case _ => s.aioOffset
  }

  /** The chunk that is written is in the buffer that is not read into. */
  ghost predicate ChunkOk(s: State)
    requires Shape(s)
  {
    && (s.pc.StartRead? || s.pc.Writing? ==>
          && s.writeBuf != s.aioBuf
          && 0 < s.pc.n <= BUFFER_SIZE && s.pc.n <= s.aioOffset
          && s.buf[s.writeBuf][..s.pc.n] == s.source[s.aioOffset - s.pc.n..s.aioOffset])
    && (s.pc.Writing? ==> 0 <= s.pc.k <= s.pc.n)
    && (s.pc.Check? ==>
          && 0 < s.pc.n <= s.aioOffset && -1 <= s.pc.result <= s.pc.n
          && (s.pc.result == -1 ==> s.errno != 0))
  }

  /** As long as nothing was lost the target is a prefix of the source; a loss
      leaves the target too short and errno at EINTR. */
  ghost predicate TargetOk(s: State)
    requires Shape(s)
  {
    && 0 <= Handed(s) <= s.aioOffset
    && (!s.lost ==> s.target == s.source[..Handed(s)])
    && (s.lost ==> |s.target| < Handed(s) && if s.pc.Check? then s.errno != 0 else s.errno == EINTR)
    && (!s.pc.Check? && !s.pc.Failed? ==> s.errno == 0 || s.errno == EINTR)
  }

  ghost predicate Inv(s: State) {
    Shape(s) && (s.pc.Failed? || (RequestOk(s) && ReadOk(s) && ChunkOk(s) && TargetOk(s)))
  }

  lemma ProgramKeepsShape(s: State)
    requires Inv(s) && Enabled(s, Program)
    ensures Shape(Step(s, Program))
  {
  }

  lemma ProgramKeepsRequest(s: State)
    requires Inv(s) && Enabled(s, Program) && !Step(s, Program).pc.Failed?
    ensures RequestOk(Step(s, Program))
  {
  }

  lemma ReturnKeepsRead(s: State)
    requires Inv(s) && Enabled(s, Program) && s.pc.Return?
    ensures Shape(Step(s, Program)) && ReadOk(Step(s, Program))
  {
  }

  lemma SwitchKeepsRead(s: State)
    requires Inv(s) && Enabled(s, Program) && s.pc.Switch?
    ensures Shape(Step(s, Program)) && ReadOk(Step(s, Program))
  {
    ProgramKeepsShape(s);
  }

  lemma StartKeepsRead(s: State)
    requires Inv(s) && Enabled(s, Program) && s.pc.StartRead?
    ensures Shape(Step(s, Program)) && ReadOk(Step(s, Program))
  {
    ProgramKeepsShape(s);
  }

  /** A step that changes neither the request nor the buffers. */
  lemma ReadFrame(s: State, s': State)
    requires Shape(s) && Shape(s') && ReadOk(s)
    requires s'.buf == s.buf && s'.aioBuf == s.aioBuf && s'.aioOffset == s.aioOffset && s'.source == s.source
    requires s'.request == s.request && !s'.pc.Switch? && !s'.pc.Done?
    ensures ReadOk(s')
  {
    if s.request.Completed? || s.request.Announced? {
      assert Delivers(s, s.request.n, s.buf[s.aioBuf]);
    }
  }

  lemma OthersKeepRead(s: State)
    requires Inv(s) && Enabled(s, Program) && !s.pc.Return? && !s.pc.Switch? && !s.pc.StartRead?
    requires !Step(s, Program).pc.Failed?
    ensures Shape(Step(s, Program)) && ReadOk(Step(s, Program))
  {
    ProgramKeepsShape(s);
    ReadFrame(s, Step(s, Program));
  }

  lemma ProgramKeepsRead(s: State)
    requires Inv(s) && Enabled(s, Program) && !Step(s, Program).pc.Failed?
    ensures Shape(Step(s, Program)) && ReadOk(Step(s, Program))
  {
    if s.pc.Return? {
      ReturnKeepsRead(s);
    } else if s.pc.Switch? {
      SwitchKeepsRead(s);
    } else if s.pc.StartRead? {
      StartKeepsRead(s);
    } else {
      OthersKeepRead(s);
    }
  }

  lemma SwitchKeepsChunk(s: State)
    requires Inv(s) && Enabled(s, Program) && s.pc.Switch?
    ensures Shape(Step(s, Program)) && ChunkOk(Step(s, Program))
  {
    assert s.pc.n > 0 ==> s.buf[s.aioBuf][..s.pc.n] == s.source[s.aioOffset..s.aioOffset + s.pc.n];
  }

  lemma OthersKeepChunk(s: State)
    requires Inv(s) && Enabled(s, Program) && !s.pc.Switch? && !Step(s, Program).pc.Failed?
    ensures Shape(Step(s, Program)) && ChunkOk(Step(s, Program))
  {
    ProgramKeepsShape(s);
  }

  lemma WritingKeepsTarget(s: State)
    requires Inv(s) && Enabled(s, Program) && s.pc.Writing?
    ensures Shape(Step(s, Program)) && TargetOk(Step(s, Program))
  {
    var n, k := s.pc.n, s.pc.k;
    assert s.buf[s.writeBuf][k] == s.buf[s.writeBuf][..n][k] == s.source[Handed(s)];
    assert s.source[..Handed(s) + 1] == s.source[..Handed(s)] + [s.source[Handed(s)]];
  }

  lemma OthersKeepTarget(s: State)
    requires Inv(s) && Enabled(s, Program) && !s.pc.Writing? && !Step(s, Program).pc.Failed?
    ensures Shape(Step(s, Program)) && TargetOk(Step(s, Program))
  {
    if s.pc.Check? && s.errno == EINTR && s.pc.result != s.pc.n && !s.lost {
      assert |s.target| == Handed(s) < s.aioOffset;
    }
  }

  lemma ProgramKeepsInv(s: State)
    requires Inv(s) && Enabled(s, Program)
    ensures Inv(Step(s, Program))
  {
    if !Step(s, Program).pc.Failed? {
      ProgramKeepsRequest(s);
      ProgramKeepsRead(s);
      if s.pc.Switch? {
        SwitchKeepsChunk(s);
      } else {
        OthersKeepChunk(s);
      }
      if s.pc.Writing? {
        WritingKeepsTarget(s);
      } else {
        OthersKeepTarget(s);
      }
    }
  }

  lemma EnvironmentKeepsInv(s: State, a: Action)
    requires Inv(s) && Enabled(s, a) && !a.Program?
    ensures Inv(Step(s, a))
  {
  }

  lemma {:induction false} RunKeepsInv(states: seq<State>, actions: seq<Action>, k: nat)
    requires IsRun(states, actions) && k < |states|
    ensures Inv(states[k]) && states[k].source == states[0].source
  {
    if k > 0 {
      RunKeepsInv(states, actions, k - 1);
      if actions[k - 1].Program? {
        ProgramKeepsInv(states[k - 1]);
      } else {
        EnvironmentKeepsInv(states[k - 1], actions[k - 1]);
      }
    }
  }

  // ------------------------------------------------------------- results

  /** The bytes being written are never in the buffer that the reader fills,
      so what write() sees is the chunk as it was read. */
  lemma BuffersNeverCollide(states: seq<State>, actions: seq<Action>, k: nat)
    requires IsRun(states, actions) && k < |states| && states[k].pc.Writing?
    ensures
      var s := states[k];
      && |s.buf| == 2 && s.writeBuf < 2 && s.aioBuf < 2 && s.writeBuf != s.aioBuf
      && 0 < s.pc.n <= s.aioOffset <= |s.source| && s.pc.n <= |s.buf[s.writeBuf]|
      && s.buf[s.writeBuf][..s.pc.n] == s.source[s.aioOffset - s.pc.n..s.aioOffset]
  {
    RunKeepsInv(states, actions, k);
  }

  /** At the loop head a read is under way, completed or announced, input_ready
      tells which, and the target is the source up to the offset of that read
      unless the loop went on after an incomplete write. */
  lemma PrefixAtLoopHead(states: seq<State>, actions: seq<Action>, k: nat)
    requires IsRun(states, actions) && k < |states| && states[k].pc.Test?
    ensures
      var s := states[k];
      && !s.request.Fetched? && (s.inputReady <==> s.request.Announced?)
      && s.aioOffset <= |s.source|
      && (s.target == s.source[..s.aioOffset] <==> !s.lost)
  {
    RunKeepsInv(states, actions, k);
  }

  /** The copy is complete exactly when no incomplete write was passed over and
      the last read ended at the end of the file. */
  lemma CopyIsExactIff(states: seq<State>, actions: seq<Action>, k: nat)
    requires IsRun(states, actions) && k < |states| && states[k].pc.Done?
    ensures states[k].target == states[k].source <==> !states[k].lost && states[k].aioOffset == |states[k].source|
  {
    RunKeepsInv(states, actions, k);
    var s := states[k];
    assert !s.lost ==> |s.target| == s.aioOffset;
    assert s.aioOffset == |s.source| ==> s.source[..s.aioOffset] == s.source;
  }

  /** As seen by the program: if no write() was ever interrupted and aio_return
      ended with 0, the target is the source. */
  lemma CleanCopyIsExact(states: seq<State>, actions: seq<Action>, k: nat)
    requires IsRun(states, actions) && k < |states| && states[k].pc.Done?
    requires states[k].errno == 0 && states[k].last == 0
    ensures states[k].target == states[0].source
  {
    RunKeepsInv(states, actions, k);
    CopyIsExactIff(states, actions, k);
  }

  /** The copy never stops between start and end: some step that changes the state is always possible. */
  lemma NeverStuck(states: seq<State>, actions: seq<Action>, k: nat)
    requires IsRun(states, actions) && k < |states|
    requires !states[k].pc.Done? && !states[k].pc.Failed?
    ensures exists a :: Enabled(states[k], a) && Spends(states[k], a)
  {
    RunKeepsInv(states, actions, k);
    var s := states[k];
    if s.pc.Test? && !s.inputReady {
      if s.request.Pending? {
        var n := if |s.source| - s.aioOffset < BUFFER_SIZE then |s.source| - s.aioOffset else BUFFER_SIZE;
        var data := s.source[s.aioOffset..s.aioOffset + n] + s.buf[s.aioBuf][n..];
        assert data[..n] == s.source[s.aioOffset..s.aioOffset + n];
        assert Enabled(s, Complete(n, data)) && Spends(s, Complete(n, data));
      } else {
        assert Enabled(s, Signal) && Spends(s, Signal);
      }
    } else if s.pc.Writing? && s.pc.k == s.pc.n {
      assert Enabled(s, WriteEnds(0)) && Spends(s, WriteEnds(0));
    } else {
      assert Enabled(s, Program) && Spends(s, Program);
    }
  }

  // ------------------------------------------------------------- bounded work

  /** Every step but the reader's intermediate stores and an idle turn of the loop. */
  ghost predicate Spends(s: State, a: Action)
    requires Enabled(s, a)
  {
    !a.Fill? && (a.Program? && s.pc.Test? ==> s.inputReady)
  }

  function RequestRank(r: Request): nat {
    match r
    case Pending => 8
    case Completed(_) => 7
    case Announced(_) => 6
    case Fetched => 0
  }

  function PcRank(pc: Pc): int {
    match pc
    case Test => 0
    case Clear => -1
    case Return => -2
    case Switch(_) => 3
    case StartRead(n) => n + 11
    case Writing(n, k) => n - k + 2
    case Check(_, _) => 1
    case Done => 0
    case Failed => 0
  }

  function Rank(s: State): int {
    10 * (|s.source| - s.aioOffset) + RequestRank(s.request) + PcRank(s.pc)
  }

  lemma StepSpends(s: State, a: Action)
    requires Inv(s) && Enabled(s, a)
    ensures Rank(Step(s, a)) <= Rank(s) - if Spends(s, a) then 1 else 0
  {
    if a.Program? && s.pc.Switch? && s.pc.n > 0 {
      assert Rank(Step(s, a)) == Rank(s) - 10 * s.pc.n + s.pc.n + 8;
    }
  }

  /** How many of the first k steps spend. */
  ghost function Spent(states: seq<State>, actions: seq<Action>, k: nat): nat
    requires IsRun(states, actions) && k <= |actions|
  {
    if k == 0 then 0
    else Spent(states, actions, k - 1) + if Spends(states[k - 1], actions[k - 1]) then 1 else 0
  }

  lemma {:induction false} RunSpends(states: seq<State>, actions: seq<Action>, k: nat)
    requires IsRun(states, actions) && k <= |actions|
    ensures Spent(states, actions, k) + Rank(states[k]) <= 10 * |states[0].source| + 8
  {
    if k > 0 {
      RunSpends(states, actions, k - 1);
      RunKeepsInv(states, actions, k - 1);
      StepSpends(states[k - 1], actions[k - 1]);
    }
  }

  /** Whatever the sizes of the reads and the moments of completion, the copy
      ends after at most ten steps for each byte of the source, plus eight. */
  lemma BoundedWork(states: seq<State>, actions: seq<Action>)
    requires IsRun(states, actions)
    ensures Spent(states, actions, |actions|) <= 10 * |states[0].source| + 8
  {
    RunSpends(states, actions, |actions|);
    RunKeepsInv(states, actions, |actions|);
    RankNonNegative(states[|actions|]);
  }

  lemma RankNonNegative(s: State)
    requires Inv(s)
    ensures Rank(s) >= 0
  {
    assert s.pc.Clear? || s.pc.Return? ==> s.request.Announced?;
  }

  // ------------------------------------------------------------- failures

  /** What the check after write() takes for an error: an errno other than EINTR,
      or a short write while errno is 0. */
  predicate TakenForError(errno: int, n: int, result: int) {
    (errno != 0 && errno != EINTR) || (errno == 0 && result != n)
  }

  /** Step k is the latest return of write() before state m, which is at the check. */
  ghost predicate LatestWrite(states: seq<State>, actions: seq<Action>, j: nat, m: nat)
    requires IsRun(states, actions) && m < |states|
  {
    && j < m && actions[j].WriteEnds? && states[j].pc.Writing? && states[m].pc.Check?
    && (forall k :: j < k < m ==> !actions[k].WriteEnds?)
    && states[m].pc.n == states[j].pc.n
    && states[m].errno == (if actions[j].errno != 0 then actions[j].errno else states[j].errno)
    && states[m].pc.result == if actions[j].errno != 0 then -1 else states[j].pc.k
  }

  /** At the check errno and the result are those of the latest write(). */
  lemma {:induction false} CheckFollowsWrite(states: seq<State>, actions: seq<Action>, m: nat) returns (j: nat)
    requires IsRun(states, actions) && m < |states| && states[m].pc.Check?
    ensures LatestWrite(states, actions, j, m)
  {
    assert m > 0;
    var s, a := states[m - 1], actions[m - 1];
    if a.WriteEnds? {
      j := m - 1;
    } else {
      StaysAtCheck(s, a);
      j := CheckFollowsWrite(states, actions, m - 1);
    }
  }

  lemma StaysAtCheck(s: State, a: Action)
    requires Enabled(s, a) && !a.WriteEnds? && Step(s, a).pc.Check?
    ensures s.pc == Step(s, a).pc && s.errno == Step(s, a).errno
  {
  }

  /** The copy fails exactly at the check, and exactly when it finds an error. */
  lemma FailsIff(s: State, a: Action)
    requires Enabled(s, a) && !s.pc.Failed?
    ensures Step(s, a).pc.Failed? <==> a.Program? && s.pc.Check? && TakenForError(s.errno, s.pc.n, s.pc.result)
  {
  }

  /** In every run the copy fails only after a write() that had just failed with an
      error other than EINTR, or was short with errno at 0. */
  lemma FailureHasCause(states: seq<State>, actions: seq<Action>, m: nat) returns (j: nat)
    requires IsRun(states, actions) && m < |actions| && !states[m].pc.Failed? && states[m + 1].pc.Failed?
    ensures LatestWrite(states, actions, j, m)
    ensures (actions[j].errno != 0 && actions[j].errno != EINTR)
            || (actions[j].errno == 0 && states[j].errno == 0 && states[j].pc.k < states[j].pc.n)
  {
    FailsIff(states[m], actions[m]);
    j := CheckFollowsWrite(states, actions, m);
    RunKeepsInv(states, actions, j);
  }

  /** A step in which no call fails and no write is short. */
  ghost predicate Smooth(s: State, a: Action) {
    && (a.WriteEnds? ==> a.errno == 0 && s.pc.Writing? && s.pc.k == s.pc.n)
    && (a.Complete? ==> a.n >= 0)
  }

  ghost predicate SmoothRun(states: seq<State>, actions: seq<Action>) {
    IsRun(states, actions) && forall k :: 0 <= k < |actions| ==> Smooth(states[k], actions[k])
  }

  /** No error and no loss so far, and what reads returned was not negative. */
  ghost predicate Unharmed(s: State) {
    && !s.pc.Failed? && s.errno == 0 && !s.lost
    && (s.request.Completed? || s.request.Announced? ==> s.request.n >= 0)
    && (s.pc.Switch? ==> s.pc.n >= 0)
    && (s.pc.Check? ==> s.pc.result == s.pc.n)
    && (s.pc.Done? ==> s.last >= 0)
  }

  lemma ReadsStayUnharmed(s: State, a: Action)
    requires Inv(s) && Unharmed(s) && Enabled(s, a) && Smooth(s, a) && (s.pc.Return? || s.pc.Switch?)
    ensures Unharmed(Step(s, a))
  {
  }

  lemma OthersStayUnharmed(s: State, a: Action)
    requires Inv(s) && Unharmed(s) && Enabled(s, a) && Smooth(s, a) && !s.pc.Return? && !s.pc.Switch?
    ensures Unharmed(Step(s, a))
  {
  }

  lemma {:induction false} SmoothIsUnharmed(states: seq<State>, actions: seq<Action>, k: nat)
    requires SmoothRun(states, actions) && k < |states|
    ensures Unharmed(states[k])
  {
    if k > 0 {
      SmoothIsUnharmed(states, actions, k - 1);
      RunKeepsInv(states, actions, k - 1);
      var s, a := states[k - 1], actions[k - 1];
      if s.pc.Return? || s.pc.Switch? {
        ReadsStayUnharmed(s, a);
      } else {
        OthersStayUnharmed(s, a);
      }
    }
  }

  /** When no call fails and no write is short, the copy never fails, and it is
      exact if it ends. */
  lemma SmoothCopyIsExact(states: seq<State>, actions: seq<Action>, k: nat)
    requires SmoothRun(states, actions) && k < |states|
    ensures !states[k].pc.Failed?
    ensures states[k].pc.Done? ==> states[k].target == states[0].source
  {
    SmoothIsUnharmed(states, actions, k);
    RunKeepsInv(states, actions, k);
    if states[k].pc.Done? {
      CleanCopyIsExact(states, actions, k);
    }
  }

  /** A smooth step that spends is possible until the end. */
  lemma SmoothStep(s: State) returns (a: Action)
    requires Inv(s) && Unharmed(s) && !s.pc.Done?
    ensures Enabled(s, a) && Smooth(s, a) && Spends(s, a)
  {
    if s.pc.Test? && !s.inputReady {
      if s.request.Pending? {
        var n := if |s.source| - s.aioOffset < BUFFER_SIZE then |s.source| - s.aioOffset else BUFFER_SIZE;
        var data := s.source[s.aioOffset..s.aioOffset + n] + s.buf[s.aioBuf][n..];
        assert data[..n] == s.source[s.aioOffset..s.aioOffset + n];
        a := Complete(n, data);
      } else {
        a := Signal;
      }
    } else if s.pc.Writing? && s.pc.k == s.pc.n {
      a := WriteEnds(0);
    } else {
      a := Program;
    }
  }

  lemma ExtendSmooth(states: seq<State>, actions: seq<Action>, a: Action)
    requires SmoothRun(states, actions) && Enabled(states[|actions|], a) && Smooth(states[|actions|], a)
    ensures SmoothRun(states + [Step(states[|actions|], a)], actions + [a])
  {
    var longer, done := states + [Step(states[|actions|], a)], actions + [a];
    forall k | 0 <= k < |done|
      ensures Enabled(longer[k], done[k]) && longer[k + 1] == Step(longer[k], done[k]) && Smooth(longer[k], done[k])
    {
      if k < |actions| {
        assert longer[k] == states[k] && longer[k + 1] == states[k + 1] && done[k] == actions[k];
      }
    }
  }

  /** Every run in which no call failed and no write was short can be continued in
      this way to the end, and then the target is the source. */
  lemma {:induction false} SmoothCopyEnds(states: seq<State>, actions: seq<Action>)
    returns (states': seq<State>, actions': seq<Action>)
    requires SmoothRun(states, actions)
    ensures SmoothRun(states', actions') && states <= states' && actions <= actions'
    ensures states'[|actions'|].pc.Done? && states'[|actions'|].target == states[0].source
    decreases Rank(states[|actions|])
  {
    var s := states[|actions|];
    SmoothIsUnharmed(states, actions, |actions|);
    RunKeepsInv(states, actions, |actions|);
    if s.pc.Done? {
      states', actions' := states, actions;
      SmoothCopyIsExact(states, actions, |actions|);
    } else {
      var a := SmoothStep(s);
      ExtendSmooth(states, actions, a);
      StepSpends(s, a);
      RankNonNegative(s);
      states', actions' := SmoothCopyEnds(states + [Step(s, a)], actions + [a]);
    }
  }

  // ------------------------------------------------------------- a lost chunk

  ghost predicate Reachable(s: State) {
    exists states, actions :: IsRun(states, actions) && states[|actions|] == s
  }

  lemma Reach(s: State, a: Action) returns (s': State)
    requires Reachable(s) && Enabled(s, a)
    ensures Reachable(s') && s' == Step(s, a)
  {
    s' := Step(s, a);
    var states, actions :| IsRun(states, actions) && states[|actions|] == s;
    assert IsRun(states + [s'], actions + [a]) && (states + [s'])[|actions + [a]|] == s';
  }

  /** A read is completed, announced and fetched. */
  lemma Collect(s: State, n: int, data: Bytes) returns (s': State)
    requires Reachable(s) && Shape(s) && s.pc.Test? && s.request.Pending? && !s.inputReady && Delivers(s, n, data)
    ensures Reachable(s') && s' == s.(buf := s.buf[s.aioBuf := data], request := Fetched, last := n, pc := Switch(n))
  {
    s' := Reach(s, Complete(n, data));
    s' := Reach(s', Signal);
    s' := Reach(s', Program);
    s' := Reach(s', Program);
    s' := Reach(s', Program);
  }

  /** A first read that fails is taken for the end of the file: any file can be
      copied to an empty one without any error being reported. */
  lemma FailedReadEndsCopy(source: Bytes)
    ensures exists s :: Reachable(s) && s.source == source && s.pc.Done?
                        && s.errno == 0 && s.last == -1 && s.target == []
  {
    var empty := seq(BUFFER_SIZE, i => 0 as bv8);
    var s := State(source, [], [empty, empty], 0, 0, 0, 0, Pending, false, 0, Test, false, 1);
    assert IsRun([s], []) && [s][0] == s;
    s := Collect(s, -1, empty);
    s := Reach(s, Program);
  }

  /** The write of a chunk is interrupted before it has written anything. */
  lemma FailToWrite(s: State) returns (s': State)
    requires Reachable(s) && Shape(s) && s.pc.Switch? && 0 < s.pc.n <= BUFFER_SIZE
    ensures Reachable(s') && s'.pc.Test? && s'.lost && s'.target == s.target && s'.source == s.source
    ensures s'.errno == EINTR
    ensures Shape(s) && s'.buf == s.buf && s'.i == s'.aioBuf == 1 - s.i && s'.writeBuf == s.aioBuf
    ensures s'.aioOffset == s.aioOffset + s.pc.n && s'.request.Pending? && s'.inputReady == s.inputReady
  {
    s' := Reach(s, Program);
    s' := Reach(s', Program);
    s' := Reach(s', WriteEnds(EINTR));
    s' := Reach(s', Program);
  }

  /** The first byte of a file is lost to an interrupted write. */
  lemma FirstByteLost(source: Bytes) returns (s: State, empty: Bytes)
    requires source != []
    ensures Reachable(s) && Shape(s) && s.source == source && s.target == [] && s.aioOffset == 1
    ensures s.pc.Test? && s.errno == EINTR && s.request.Pending? && !s.inputReady && |empty| == BUFFER_SIZE
  {
    empty := seq(BUFFER_SIZE, i => 0 as bv8);
    s := State(source, [], [empty, empty], 0, 0, 0, 0, Pending, false, 0, Test, false, 1);
    assert IsRun([s], []) && [s][0] == s;
    s := Collect(s, 1, empty[0 := source[0]]);
    s := FailToWrite(s);
  }

  /** Where write() can return EINTR, which SIGIO with SA_RESTART does not make it
      do, a one-byte file can be copied to an empty one without any error being reported. */
  lemma ByteCanBeLost(x: bv8)
    ensures exists s :: Reachable(s) && s.source == [x] && s.pc.Done? && s.last == 0 && s.target == []
  {
    var s, empty := FirstByteLost([x]);
    s := Collect(s, 0, empty);
    s := Reach(s, Program);
  }

  /** The next chunk is handed to write() while the next read is started. */
  lemma BeginWrite(s: State) returns (s': State)
    requires Reachable(s) && Shape(s) && s.pc.Switch? && 0 < s.pc.n <= BUFFER_SIZE
    ensures Reachable(s')
    ensures s' == s.(writeBuf := s.aioBuf, i := 1 - s.i, aioBuf := 1 - s.i, aioOffset := s.aioOffset + s.pc.n,
                     request := Pending, pc := Writing(s.pc.n, 0))
  {
    s' := Reach(s, Program);
    s' := Reach(s', Program);
  }

  /** A write stores one byte of several, and errno still is EINTR from an earlier one. */
  lemma WriteOneByte(s: State) returns (s': State)
    requires Reachable(s) && Shape(s) && s.pc.Writing? && s.pc.k == 0 && 1 < s.pc.n <= BUFFER_SIZE && s.errno == EINTR
    ensures Reachable(s') && s' == s.(target := s.target + [s.buf[s.writeBuf][0]], pc := Test, lost := true)
  {
    s' := Reach(s, Program);
    s' := Reach(s', WriteEnds(0));
    s' := Reach(s', Program);
  }

  /** The first byte is lost to an interrupted write, and the other two are in the buffer. */
  lemma OneLostTwoRead(x: bv8, y: bv8, z: bv8) returns (s: State, empty: Bytes)
    ensures Reachable(s) && Shape(s) && s.source == [x, y, z] && s.target == [] && s.aioOffset == 1
    ensures s.pc == Switch(2) && s.errno == EINTR && !s.inputReady && s.buf[s.aioBuf][0] == y
    ensures |empty| == BUFFER_SIZE
  {
    s, empty := FirstByteLost([x, y, z]);
    var data := empty[0 := y][1 := z];
    assert data[..2] == [x, y, z][1..3];
    s := Collect(s, 2, data);
  }

  /** After an interrupted write errno stays at EINTR, and so a short write later on
      is passed over too: of three bytes only the second is copied, without any error. */
  lemma ShortWriteIsPassedOver(x: bv8, y: bv8, z: bv8)
    ensures exists s :: Reachable(s) && s.source == [x, y, z] && s.pc.Done? && s.last == 0 && s.target == [y]
  {
    var s, empty := OneLostTwoRead(x, y, z);
    s := BeginWrite(s);
    s := WriteOneByte(s);
    s := Collect(s, 0, empty);
    s := Reach(s, Program);
  }
}

/** What the clients and servers of the upcase programs give up for, and how many
    steps a client and its worker take in a run with any number of clients. */
module UpcaseProgress {
  import opened UpcaseText
  import opened UpcasePair
  import opened Upcase
  import opened UpcaseBlocking

  // ------------------------------------------------------------- giving up

  /** A client fails when its last try to open the FIFO is over, or when it has a chunk
      to send that nobody reads; it ends when all chunks are sent and answered. */
  lemma ClientEndsIff(c: Conn, n: nat)
    requires ClientCan(c, n)
    ensures ClientStep(c, n).pc.CFailed? <==>
              (c.pc.COpenRaw? && TryOpen(c.pc.tries, MAXTRIES, c.raw.reader).GaveUp?)
              || (c.pc.CSend? && c.next != |c.chunks| && !c.raw.reader)
    ensures ClientStep(c, n).pc.CDone? <==> c.pc.CSend? && c.next == |c.chunks|
  {
  }

  lemma HandlerEndsIff(c: Conn, h: Handler, locale: Locale, threaded: bool)
    requires HandlerCan(c, h)
    ensures HandlerNext(c, h, locale, threaded).pc.HFailed? <==>
              (h.pc.HOpenRaw? && c.pc.CFailed?)
              || (h.pc.HOpenReply? && TryOpen(h.pc.tries, ServerTries(threaded), c.reply.reader).GaveUp?)
              || (h.pc.HWrite? && !c.reply.reader)
    ensures HandlerNext(c, h, locale, threaded).pc.HDone? <==> h.pc.HRead? && c.raw.data == ""
  {
  }

  lemma ClientFailsNow(s: State, c: nat, n: nat)
    requires Inv(s) && Enabled(s, Client(c, n))
    ensures
      var conn := s.conns[c];
      && (conn.pc.CSend? ==> IsServed(s, c))
      && (ClientStep(conn, n).pc.CFailed? <==>
            (conn.pc.COpenRaw? && conn.pc.tries == MAXTRIES)
            || (conn.pc.CSend? && conn.next < |conn.chunks| && WorkerOf(s, c).pc.HFailed?))
  {
    ClientEndsIff(s.conns[c], n);
    assert ClientOk(s, c);
    if s.stages[c].Served? {
      ServedPair(s, c);
      NobodyReads(s.conns[c], WorkerOf(s, c), s.threaded);
    }
  }

  /** In every run a client gives up exactly at its last try to open the FIFO, or
      when it has a chunk to send and its worker process has given up. */
  lemma ClientFailsIff(states: seq<State>, actions: seq<Action>, k: nat, c: nat, n: nat)
    requires IsRun(states, actions) && k < |actions| && actions[k] == Client(c, n)
    ensures
      var s, conn := states[k], states[k].conns[c];
      && c < |states[k + 1].conns| && c < |s.stages|
      && (conn.pc.CSend? ==> IsServed(s, c))
      && (states[k + 1].conns[c].pc.CFailed? <==>
            (conn.pc.COpenRaw? && conn.pc.tries == MAXTRIES)
            || (conn.pc.CSend? && conn.next < |conn.chunks| && WorkerOf(s, c).pc.HFailed?))
  {
    RunKeepsInv(states, actions, k);
    ClientFailsNow(states[k], c, n);
    assert states[k + 1].conns[c] == ClientStep(states[k].conns[c], n);
  }

  lemma NobodyReads(c: Conn, h: Handler, threaded: bool)
    requires Control(c, h, threaded)
    ensures c.pc.CSend? ==> c.next <= |c.chunks| && (!c.raw.reader <==> h.pc.HFailed?)
    ensures c.pc.COpenRaw? ==> c.pc.tries <= MAXTRIES
    ensures h.pc.HWrite? ==> c.reply.reader
    ensures h.pc.HOpenReply? ==> h.pc.tries <= ServerTries(threaded)
  {
  }

  /** In every run a worker gives up exactly at its last try to open the FIFO for an
      answer, or when its client gave up before the worker opened the other FIFO. */
  lemma WorkerFailsIff(states: seq<State>, actions: seq<Action>, k: nat, h: nat)
    requires IsRun(states, actions) && k < |actions| && actions[k] == Work(h)
    ensures
      var s, w := states[k], states[k].workers[h];
      && h < |states[k + 1].workers| && w.owner < |s.conns|
      && (states[k + 1].workers[h].handler.pc.HFailed? <==>
            (w.handler.pc.HOpenRaw? && s.conns[w.owner].pc.CFailed?)
            || (w.handler.pc.HOpenReply? && w.handler.pc.tries == ServerTries(s.threaded)))
  {
    RunKeepsInv(states, actions, k);
    var s, w := states[k], states[k].workers[h];
    assert WorkerOk(s, h);
    WorkIsOnOwnClient(s, h);
    HandlerEndsIff(s.conns[w.owner], w.handler, if s.threaded then s.locale else w.locale, s.threaded);
    NobodyReads(s.conns[w.owner], w.handler, s.threaded);
  }

  // ------------------------------------------------------------- bounded work

  function ChunkCost(chunk: string, tries: nat): nat {
    2 * |chunk| + tries + 12
  }

  /** The cost of chunk k and those after it. */
  function CostFrom(chunks: seq<string>, k: nat, tries: nat): nat
    decreases |chunks| - k
  {
    if k >= |chunks| then 0 else ChunkCost(chunks[k], tries) + CostFrom(chunks, k + 1, tries)
  }

  function RawCost(data: string, tries: nat): nat {
    if data == "" then 0 else 2 * |data| + tries + 7
  }

  function ClientRank(pc: ClientPc): int {
    match pc
    case CPost => MAXTRIES + 4
    case COpenRaw(tries) => MAXTRIES - tries + 3
    case CSend => 1
    case COpenReply => 4
    case CBlocked => 3
    case CReading => 2
    case CDone => 0
    case CFailed => 0
  }

  function HandlerRank(h: Handler, limit: nat): int {
    match h.pc
    case HOpenRaw => 4
    case HBlocked => 3
    case HLocale => 2
    case HRead => 1
    case HConvert(i) => |h.buffer| - i + limit + |h.buffer| + 6
    case HOpenReply(tries) => limit - tries + |h.buffer| + 5
    case HWrite => |h.buffer| + 3
    case HClose => 2
    case HDone => 0
    case HFailed => 0
  }

  /** What is left to do for a client and its worker. */
  function PairRank(c: Conn, h: Handler, limit: nat): int {
    ClientRank(c.pc) + HandlerRank(h, limit) + CostFrom(c.chunks, c.next, limit)
    + RawCost(c.raw.data, limit) + |c.reply.data|
  }

  lemma ClientPays(c: Conn, h: Handler, n: nat, threaded: bool)
    requires Control(c, h, threaded) && ClientCan(c, n)
    ensures PairRank(ClientStep(c, n), h, ServerTries(threaded)) < PairRank(c, h, ServerTries(threaded))
  {
    if c.pc.CSend? {
      assert c.raw.data == "";
      if c.next < |c.chunks| {
        assert "" + c.chunks[c.next] == c.chunks[c.next];
      }
    }
  }

  lemma HandlerPays(c: Conn, h: Handler, locale: Locale, threaded: bool)
    requires Control(c, h, threaded) && HandlerCan(c, h)
    ensures PairRank(HandlerConn(c, h, threaded), HandlerNext(c, h, locale, threaded), ServerTries(threaded))
            < PairRank(c, h, ServerTries(threaded))
  {
    if h.pc.HRead? {
      assert |c.raw.data| < PIPE_BUF;
      assert c.raw.data[..|c.raw.data|] == c.raw.data;
    }
  }

  lemma RankNonNegative(c: Conn, h: Handler, threaded: bool)
    requires Control(c, h, threaded)
    ensures PairRank(c, h, ServerTries(threaded)) >= 0
  {
  }

  /** The handler of client c, or the one that it will get. */
  function HandlerFor(s: State, c: nat): Handler
    requires c < |s.stages|
  {
    if s.stages[c].Served? && s.stages[c].h < |s.workers| then WorkerOf(s, c) else Handler(HOpenRaw, "")
  }

  function RankOf(s: State, c: nat): int
    requires c < |s.stages| && c < |s.conns|
  {
    PairRank(s.conns[c], HandlerFor(s, c), ServerTries(s.threaded))
  }

  /** A step of client c after its message, or of its worker. */
  predicate Moves(s: State, a: Action, c: nat)
    requires c < |s.stages|
  {
    (a.Client? && a.c == c) || (a.Work? && s.stages[c] == Served(a.h))
  }

  lemma OwnClientPays(s: State, c: nat, n: nat)
    requires Inv(s) && Enabled(s, Client(c, n))
    ensures var s' := Step(s, Client(c, n));
            |s'.stages| == |s'.conns| == |s.conns| && RankOf(s', c) < RankOf(s, c)
  {
    assert ClientOk(s, c);
    if s.stages[c].Served? {
      ServedPair(s, c);
    } else {
      PairStarts(s.conns[c], Allowed(s, c), s.threaded);
    }
    ClientPays(s.conns[c], HandlerFor(s, c), n, s.threaded);
  }

  lemma WorkerMoved(s: State, h: nat)
    requires Enabled(s, Work(h))
    ensures
      var s', w := WorkStep(s, h), s.workers[h];
      && s'.stages == s.stages && s'.threaded == s.threaded && |s'.workers| == |s.workers|
      && s'.workers[h].handler == HandlerNext(s.conns[s.memory[w.addr].client], w.handler,
                                              if s.threaded then s.locale else w.locale, s.threaded)
  {
  }

  /** The step as seen by client c and its worker. */
  lemma OwnWorkerMoves(s: State, c: nat)
    requires Inv(s) && c < |s.stages| && s.stages[c].Served? && Enabled(s, Work(s.stages[c].h))
    ensures
      var s', h, w := WorkStep(s, s.stages[c].h), s.stages[c].h, WorkerOf(s, c);
      && |s'.stages| == |s'.conns| == |s.conns| && s'.threaded == s.threaded && HandlerCan(s.conns[c], w)
      && s'.conns[c] == HandlerConn(s.conns[c], w, s.threaded)
      && HandlerFor(s', c) ==
           HandlerNext(s.conns[c], w, if s.threaded then s.locale else s.workers[h].locale, s.threaded)
  {
    ServedPair(s, c);
    WorkIsOnOwnClient(s, s.stages[c].h);
    WorkerMoved(s, s.stages[c].h);
  }

  lemma OwnWorkerPays(s: State, c: nat)
    requires Inv(s) && c < |s.stages| && s.stages[c].Served? && Enabled(s, Work(s.stages[c].h))
    ensures var s' := Step(s, Work(s.stages[c].h));
            |s'.stages| == |s'.conns| == |s.conns| && RankOf(s', c) < RankOf(s, c)
  {
    ServedPair(s, c);
    OwnWorkerMoves(s, c);
    var locale := if s.threaded then s.locale else s.workers[s.stages[c].h].locale;
    HandlerPays(s.conns[c], WorkerOf(s, c), locale, s.threaded);
  }

  /** Client c and its handler, if any, are as before. */
  ghost predicate Untouched(s: State, s': State, c: nat)
    requires c < |s.conns| && c < |s.stages|
  {
    && |s'.stages| == |s'.conns| == |s.conns| && s'.threaded == s.threaded
    && s'.conns[c] == s.conns[c] && HandlerFor(s', c) == HandlerFor(s, c)
  }

  lemma OtherWorkerIsFree(s: State, h: nat, c: nat)
    requires Enabled(s, Work(h)) && Linked(s, h) && c < |s.conns| && s.workers[h].owner != c
    requires s.stages[c] != Served(h)
    ensures Untouched(s, Step(s, Work(h)), c)
  {
    WorkIsOnOwnClient(s, h);
    WorkerMoved(s, h);
  }

  lemma TakeIsFree(s: State, c: nat)
    requires Enabled(s, Take) && QueueOk(s) && c < |s.conns|
    ensures Untouched(s, Step(s, Take), c)
  {
    assert WaitingMessage(s, s.queue[0], Queued);
  }

  lemma SpawnIsFree(s: State, addr: nat, c: nat)
    requires Enabled(s, Spawn(addr)) && QueueOk(s) && c < |s.conns| && ClientOk(s, c)
    ensures Untouched(s, Step(s, Spawn(addr)), c)
  {
    assert WaitingMessage(s, s.msg, Taken);
  }

  lemma OthersAreFree(s: State, a: Action, c: nat)
    requires Enabled(s, a) && (a.SpawnFails? || a.Overwrite? || ((a.Post? || a.Client?) && a.c != c)) && c < |s.conns|
    ensures Untouched(s, Step(s, a), c)
  {
  }

  lemma PostPays(s: State, c: nat)
    requires Inv(s) && Enabled(s, Post(c))
    ensures var s' := Step(s, Post(c));
            |s'.stages| == |s'.conns| == |s.conns| && s'.threaded == s.threaded && RankOf(s', c) <= RankOf(s, c)
  {
    assert ClientOk(s, c);
    if s.stages[c].Served? {
      ServedPair(s, c);
    }
  }

  lemma OthersCostNothing(s: State, a: Action, c: nat)
    requires Inv(s) && Enabled(s, a) && c < |s.conns| && !Moves(s, a, c)
    ensures var s' := Step(s, a);
            |s'.stages| == |s'.conns| == |s.conns| && s'.threaded == s.threaded && RankOf(s', c) <= RankOf(s, c)
  {
    assert ClientOk(s, c);
    if a.Work? {
      assert WorkerOk(s, a.h);
      OtherWorkerIsFree(s, a.h, c);
    } else if a.Take? {
      TakeIsFree(s, c);
    } else if a.Spawn? {
      SpawnIsFree(s, a.addr, c);
    } else if a == Post(c) {
      PostPays(s, c);
    } else {
      OthersAreFree(s, a, c);
    }
  }

  lemma StepPays(s: State, a: Action, c: nat)
    requires Inv(s) && Enabled(s, a) && c < |s.conns|
    ensures var s' := Step(s, a);
            && |s'.stages| == |s'.conns| == |s.conns| == |s.stages|
            && RankOf(s', c) + (if Moves(s, a, c) then 1 else 0) <= RankOf(s, c)
  {
    if a.Client? && a.c == c {
      OwnClientPays(s, c, a.n);
    } else if a.Work? && s.stages[c] == Served(a.h) {
      OwnWorkerPays(s, c);
    } else {
      OthersCostNothing(s, a, c);
    }
  }

  /** How many of the first k steps are taken by client c or its worker. */
  ghost function OwnSteps(states: seq<State>, actions: seq<Action>, c: nat, k: nat): nat
    requires IsRun(states, actions) && k <= |actions|
  {
    if k == 0 then 0
    else
      OwnSteps(states, actions, c, k - 1)
      + if c < |states[k - 1].stages| && Moves(states[k - 1], actions[k - 1], c) then 1 else 0
  }

  lemma {:induction false} StepsArePaid(states: seq<State>, actions: seq<Action>, c: nat, k: nat)
    requires IsRun(states, actions) && k <= |actions| && c < |states[0].conns|
    ensures |states[k].stages| == |states[k].conns| == |states[0].conns| && |states[0].stages| == |states[0].conns|
    ensures OwnSteps(states, actions, c, k) + RankOf(states[k], c) <= RankOf(states[0], c)
  {
    if k > 0 {
      StepsArePaid(states, actions, c, k - 1);
      RunKeepsInv(states, actions, k - 1);
      StepPays(states[k - 1], actions[k - 1], c);
    }
  }

  lemma RankIsNonNegative(s: State, c: nat)
    requires Inv(s) && c < |s.conns|
    ensures RankOf(s, c) >= 0
  {
    assert ClientOk(s, c);
    if s.stages[c].Served? {
      ServedPair(s, c);
      RankNonNegative(s.conns[c], WorkerOf(s, c), s.threaded);
    } else if !s.conns[c].pc.CPost? {
      PairStarts(s.conns[c], Allowed(s, c), s.threaded);
      RankNonNegative(s.conns[c], HandlerFor(s, c), s.threaded);
    }
  }

  lemma FirstRank(s: State, c: nat)
    requires Init(s) && c < |s.conns|
    ensures RankOf(s, c) == 13 + CostFrom(s.conns[c].chunks, 0, ServerTries(s.threaded))
  {
  }

  lemma {:induction false} CostIs(chunks: seq<string>, k: nat, tries: nat)
    requires k <= |chunks|
    ensures CostFrom(chunks, k, tries) + 2 * |Concat(chunks[..k])| + (tries + 12) * k
            == 2 * |Concat(chunks)| + (tries + 12) * |chunks|
    decreases |chunks| - k
  {
    if k == |chunks| {
      assert chunks[..k] == chunks;
    } else {
      CostIs(chunks, k + 1, tries);
      assert chunks[..k + 1][..k] == chunks[..k];
      assert (tries + 12) * (k + 1) == (tries + 12) * k + (tries + 12);
    }
  }

  /** Whatever the others do, a client and its worker take at most two steps for each
      character of its text, tries + 12 for each chunk, and thirteen more. */
  lemma BoundedWork(states: seq<State>, actions: seq<Action>, c: nat)
    requires IsRun(states, actions) && c < |states[0].conns|
    ensures
      var chunks := states[0].conns[c].chunks;
      OwnSteps(states, actions, c, |actions|)
      <= 2 * |Concat(chunks)| + (ServerTries(states[0].threaded) + 12) * |chunks| + 13
  {
    StepsArePaid(states, actions, c, |actions|);
    RunKeepsInv(states, actions, |actions|);
    RankIsNonNegative(states[|actions|], c);
    FirstRank(states[0], c);
    CostIs(states[0].conns[c].chunks, 0, ServerTries(states[0].threaded));
    assert states[0].conns[c].chunks[..0] == [];
  }

  // ------------------------------------------------------------- copies of messages

  /** Every copy of a message belongs to a worker that has not ended normally. */
  ghost predicate CopiesInUse(s: State) {
    forall addr :: addr in s.memory ==> exists h :: UsesCopy(s, h, addr)
  }

  ghost predicate UsesCopy(s: State, h: nat, addr: nat) {
    h < |s.workers| && s.workers[h].addr == addr && !s.workers[h].handler.pc.HDone?
  }

  lemma WorkKeepsCopies(s: State, h: nat)
    requires CopiesInUse(s) && Enabled(s, Work(h))
    ensures CopiesInUse(Step(s, Work(h)))
  {
    var s' := Step(s, Work(h));
    forall addr | addr in s'.memory ensures exists g :: UsesCopy(s', g, addr) {
      var g :| UsesCopy(s, g, addr);
      assert UsesCopy(s', g, addr);
    }
  }

  lemma SpawnKeepsCopies(s: State, addr: nat)
    requires CopiesInUse(s) && Enabled(s, Spawn(addr))
    ensures CopiesInUse(Step(s, Spawn(addr)))
  {
    var s' := Step(s, Spawn(addr));
    assert UsesCopy(s', |s.workers|, addr);
    forall a | a in s'.memory ensures exists g :: UsesCopy(s', g, a) {
      if a != addr {
        var g :| UsesCopy(s, g, a);
        assert UsesCopy(s', g, a);
      }
    }
  }

  lemma OthersKeepCopies(s: State, a: Action)
    requires CopiesInUse(s) && Enabled(s, a) && !a.Work? && !a.Spawn?
    ensures CopiesInUse(Step(s, a))
  {
    var s' := Step(s, a);
    assert s'.memory == s.memory && s'.workers == s.workers;
    forall addr | addr in s'.memory ensures exists g :: UsesCopy(s', g, addr) {
      var g :| UsesCopy(s, g, addr);
      assert UsesCopy(s', g, addr);
    }
  }

  /** In every run the copy that was made for a worker is released when it ends normally. */
  lemma {:induction false} CopiesAreReleased(states: seq<State>, actions: seq<Action>, k: nat)
    requires IsRun(states, actions) && k < |states|
    ensures CopiesInUse(states[k])
  {
    if k > 0 {
      CopiesAreReleased(states, actions, k - 1);
      var s, a := states[k - 1], actions[k - 1];
      if a.Work? {
        WorkKeepsCopies(s, a.h);
      } else if a.Spawn? {
        SpawnKeepsCopies(s, a.addr);
      } else {
        OthersKeepCopies(s, a);
      }
    }
  }
}

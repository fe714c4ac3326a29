/** What one client and its worker can do in runs with any number of clients,
    and what becomes of a client whose worker gave up. */
module UpcaseBlocking {
  import opened UpcaseText
  import opened UpcasePair
  import opened Upcase
  import opened UpcaseResults
  import opened UpcaseOpening

  /** The worker that serves client c. */
  function WorkerOf(s: State, c: nat): Handler
    requires c < |s.stages| && s.stages[c].Served? && s.stages[c].h < |s.workers|
  {
    s.workers[s.stages[c].h].handler
  }

  /** Client c has a worker of its own. */
  ghost predicate IsServed(s: State, c: nat) {
    && c < |s.conns| == |s.stages| && s.stages[c].Served? && s.stages[c].h < |s.workers|
    && s.workers[s.stages[c].h].owner == c
  }

  lemma ServedPair(s: State, c: nat)
    requires Inv(s) && c < |s.conns| && s.stages[c].Served?
    ensures IsServed(s, c) && PairOk(s.conns[c], WorkerOf(s, c), Allowed(s, c), s.threaded)
    ensures Linked(s, s.stages[c].h)
  {
    assert ClientOk(s, c);
    assert WorkerOk(s, s.stages[c].h);
  }

  /** In every run at most one chunk of a client is under way, and it is in one
      place: in one of its FIFOs or in the buffer of its own worker. */
  lemma OneChunkPerClient(states: seq<State>, actions: seq<Action>, k: nat, c: nat)
    requires IsRun(states, actions) && k < |states| && c < |states[k].conns|
    ensures
      var s := states[k];
      var conn := s.conns[c];
      && c < |s.stages|
      && (!s.stages[c].Served? ==> conn.raw.data == "" && conn.reply.data == "" && conn.next == 0)
      && (s.stages[c].Served? ==>
            && IsServed(s, c)
            && var h := WorkerOf(s, c);
            var held := if Holding(h) then |h.buffer| else 0;
            && (conn.raw.data != "" ==> !Holding(h) && conn.reply.data == "")
            && (conn.reply.data != "" ==> !Holding(h) && conn.raw.data == "")
            && (Waiting(conn) && !h.pc.HFailed? ==>
                  0 < conn.next <= |conn.chunks|
                  && |conn.raw.data| + held + |conn.reply.data| <= |conn.chunks[conn.next - 1]|)
            && (!Waiting(conn) ==> conn.raw.data == "" && !Holding(h) && conn.reply.data == ""))
  {
    RunKeepsInv(states, actions, k);
    var s := states[k];
    if s.stages[c].Served? {
      ServedPair(s, c);
      OneChunkUnderWay(s.conns[c], WorkerOf(s, c), s.threaded);
    } else {
      assert ClientOk(s, c);
    }
  }

  // ------------------------------------------------------------- who can go on

  ghost predicate ClientCanStep(s: State, c: nat) {
    exists n :: Enabled(s, Client(c, n))
  }

  /** The worker of client c gave up while the client waits for an end of file
      that never comes: nobody opens the FIFO, or a thread left it open. */
  ghost predicate Stranded(conn: Conn, h: Handler, threaded: bool) {
    h.pc.HFailed? && ((conn.pc.CBlocked? && !conn.reply.met) || (conn.pc.CReading? && threaded))
  }

  lemma PairStuckIff(c: Conn, h: Handler, threaded: bool)
    requires Control(c, h, threaded) && !c.pc.CPost? && !c.pc.CFailed? && !c.pc.CDone?
    ensures HandlerCan(c, h) || (exists n :: ClientCan(c, n)) <==> !Stranded(c, h, threaded)
  {
    if h.pc.HFailed? {
      assert !Stranded(c, h, threaded) ==> ClientCan(c, 0);
    } else {
      PairNeverStuck(c, h, threaded);
    }
  }

  lemma PairSteps(s: State, c: nat)
    requires IsServed(s, c) && |s.conns| == |s.locales| && Linked(s, s.stages[c].h)
    ensures ClientCanStep(s, c) <==> exists n :: ClientCan(s.conns[c], n)
    ensures Enabled(s, Work(s.stages[c].h)) <==> HandlerCan(s.conns[c], WorkerOf(s, c))
  {
    if n :| ClientCan(s.conns[c], n) {
      assert Enabled(s, Client(c, n));
    }
  }

  /** In every run a client that has not ended can go on, or its worker can, unless
      the worker gave up and left the client waiting. */
  lemma StuckIffStranded(states: seq<State>, actions: seq<Action>, k: nat, c: nat)
    requires IsRun(states, actions) && k < |states| && c < |states[k].conns|
    requires c < |states[k].stages| && states[k].stages[c].Served?
    requires !states[k].conns[c].pc.CFailed? && !states[k].conns[c].pc.CDone?
    ensures
      var s := states[k];
      && IsServed(s, c)
      && (ClientCanStep(s, c) || Enabled(s, Work(s.stages[c].h))
          <==> !Stranded(s.conns[c], WorkerOf(s, c), s.threaded))
  {
    RunKeepsInv(states, actions, k);
    var s := states[k];
    ServedPair(s, c);
    PairStuckIff(s.conns[c], WorkerOf(s, c), s.threaded);
    PairSteps(s, c);
  }

  /** When the client has ended, its worker can go on until it ends too, unless the
      client gave up before it had opened its FIFO. */
  lemma WorkerStuckIff(states: seq<State>, actions: seq<Action>, k: nat, c: nat)
    requires IsRun(states, actions) && k < |states| && c < |states[k].conns|
    requires c < |states[k].stages| && states[k].stages[c].Served?
    requires states[k].conns[c].pc.CFailed? || states[k].conns[c].pc.CDone?
    ensures
      var s := states[k];
      && IsServed(s, c)
      && var h := WorkerOf(s, c);
      (Enabled(s, Work(s.stages[c].h)) <==>
       !h.pc.HDone? && !h.pc.HFailed? && !(h.pc.HBlocked? && !s.conns[c].raw.met))
  {
    RunKeepsInv(states, actions, k);
    ServedPair(states[k], c);
    PairSteps(states[k], c);
    EndedPair(states[k].conns[c], WorkerOf(states[k], c), states[k].threaded);
  }

  lemma EndedPair(c: Conn, h: Handler, threaded: bool)
    requires Control(c, h, threaded) && (c.pc.CFailed? || c.pc.CDone?)
    ensures HandlerCan(c, h) <==> !h.pc.HDone? && !h.pc.HFailed? && !(h.pc.HBlocked? && !c.raw.met)
  {
  }

  /** Client c, its worker and their state are as before. */
  ghost predicate Unchanged(s: State, s': State, c: nat)
    requires IsServed(s, c)
  {
    && IsServed(s', c) && s'.conns[c] == s.conns[c] && WorkerOf(s', c) == WorkerOf(s, c)
    && s'.threaded == s.threaded
  }

  lemma OtherWork(s: State, h: nat, c: nat)
    requires Enabled(s, Work(h)) && Linked(s, h) && IsServed(s, c) && s.stages[c].h != h
    ensures Unchanged(s, Step(s, Work(h)), c)
  {
    WorkIsOnOwnClient(s, h);
  }

  lemma OtherTake(s: State, c: nat)
    requires Enabled(s, Take) && QueueOk(s) && IsServed(s, c)
    ensures Unchanged(s, Step(s, Take), c)
  {
    assert WaitingMessage(s, s.queue[0], Queued);
  }

  lemma OtherSpawn(s: State, addr: nat, c: nat)
    requires Enabled(s, Spawn(addr)) && QueueOk(s) && IsServed(s, c)
    ensures Unchanged(s, Step(s, Spawn(addr)), c)
  {
    assert WaitingMessage(s, s.msg, Taken);
  }

  lemma OtherClient(s: State, a: Action, c: nat)
    requires Enabled(s, a) && (a.Post? || a.Client? || a.SpawnFails? || a.Overwrite?) && IsServed(s, c)
    requires !s.conns[c].pc.CPost? && !exists n :: ClientCan(s.conns[c], n)
    ensures Unchanged(s, Step(s, a), c)
  {
  }

  /** Nobody but the client and its worker changes their state. */
  lemma StrandedStays(s: State, a: Action, c: nat)
    requires Inv(s) && Enabled(s, a) && IsServed(s, c) && Stranded(s.conns[c], WorkerOf(s, c), s.threaded)
    ensures Unchanged(s, Step(s, a), c)
  {
    ServedPair(s, c);
    PairStuckIff(s.conns[c], WorkerOf(s, c), s.threaded);
    match a
    case Work(h) =>
      assert WorkerOk(s, h);
      OtherWork(s, h, c);
    case Take => OtherTake(s, c);
    case Spawn(addr) => OtherSpawn(s, addr, c);
    case _ => OtherClient(s, a, c);
  }

  /** A client that is left waiting waits for ever. */
  lemma {:induction false} StrandedForever(states: seq<State>, actions: seq<Action>, c: nat, j: nat, k: nat)
    requires IsRun(states, actions) && j <= k < |states| && IsServed(states[j], c)
    requires Stranded(states[j].conns[c], WorkerOf(states[j], c), states[j].threaded)
    ensures IsServed(states[k], c) && states[k].conns[c] == states[j].conns[c]
    ensures Stranded(states[k].conns[c], WorkerOf(states[k], c), states[k].threaded)
    decreases k
  {
    if j < k {
      StrandedForever(states, actions, c, j, k - 1);
      RunKeepsInv(states, actions, k - 1);
      StrandedStays(states[k - 1], actions[k - 1], c);
    }
  }

  // ------------------------------------------------------------- examples

  /** The worker uses up its tries before the client opens the FIFO for the answer;
      the client then waits for ever, with either server. */
  lemma StrandedExample(threaded: bool, locale: Locale, x: char)
    ensures exists s :: Reachable(s) && s.threaded == threaded && IsServed(s, 0)
                        && Stranded(s.conns[0], WorkerOf(s, 0), threaded) && s.conns[0].output == ""
  {
    var s := ReadyToAnswer(threaded, locale, x);
    s := ServerRetries(s, 0, ServerTries(threaded));
    s := WorkerMoves(s, 0, 0);
    s := ClientMoves(s, 0, 0);
    ReachableServed(s);
  }

  /** With a single worker that lives or failed, client 0 is the one it serves. */
  lemma ReachableServed(s: State)
    requires Reachable(s) && |s.conns| == |s.workers| == 1
    ensures IsServed(s, 0) && s.stages[0] == Served(0)
  {
    var states, actions :| IsRun(states, actions) && states[|actions|] == s;
    RunKeepsInv(states, actions, |actions|);
    assert WorkerOk(s, 0);
  }

  /** The worker process gives up while the client is reading: the client takes
      this for the end of the answer and ends normally without any output. */
  lemma EndsWithoutOutput(locale: Locale, x: char)
    ensures exists s :: Reachable(s) && !s.threaded && |s.conns| == 1 && s.conns[0].chunks == [[x]]
                        && s.conns[0].pc.CDone? && s.conns[0].output == ""
  {
    var s := ReadyToAnswer(false, locale, x);
    s := ServerRetries(s, 0, ServerTries(false));
    s := ClientMoves(s, 0, 0);
    s := WorkerMoves(s, 0, 0);
    s := ClientMoves(s, 0, 0);
    s := ClientMoves(s, 0, 0);
    s := ClientMoves(s, 0, 0);
  }
}

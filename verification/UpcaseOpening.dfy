/** When the retried opens of upcase.c and of the servers succeed in whole runs,
    and what is lost when they succeed too late. */
module UpcaseOpening {
  import opened UpcaseText
  import opened UpcasePair
  import opened Upcase
  import opened UpcaseResults

  /** Whether the server had the FIFO open at each try of client c in the first k steps. */
  ghost function Tried(states: seq<State>, actions: seq<Action>, c: nat, k: nat): seq<bool>
    requires IsRun(states, actions) && k < |states|
  {
    if k == 0 then []
    else
      var s, a := states[k - 1], actions[k - 1];
      Tried(states, actions, c, k - 1)
      + if a.Client? && a.c == c && s.conns[c].pc.COpenRaw? then [s.conns[c].raw.reader] else []
  }

  /** Where a client is that has made certain tries. */
  ghost predicate AfterTries(pc: ClientPc, open: seq<bool>) {
    match Opening(MAXTRIES, open)
    case Again(tries) => pc == COpenRaw(tries) || (pc == CPost && open == [])
    case Opened => !pc.CPost? && !pc.COpenRaw?
    case GaveUp => pc == CFailed
  }

  lemma TryKeeps(c: Conn, n: nat, open: seq<bool>)
    requires AfterTries(c.pc, open) && c.pc.COpenRaw?
    ensures ClientCan(c, n) && AfterTries(ClientStep(c, n).pc, open + [c.raw.reader])
  {
    OpenedIffInTime(MAXTRIES, open);
    ClientTries(c, n);
    assert (open + [c.raw.reader])[..|open|] == open;
  }

  lemma OtherStepKeeps(c: Conn, n: nat, open: seq<bool>)
    requires AfterTries(c.pc, open) && !c.pc.COpenRaw? && ClientCan(c, n)
    ensures AfterTries(ClientStep(c, n).pc, open)
  {
    OpenedIffInTime(MAXTRIES, open);
  }

  lemma StepTries(s: State, a: Action, c: nat, open: seq<bool>)
    requires Enabled(s, a) && c < |s.conns| && AfterTries(s.conns[c].pc, open)
    ensures
      var now := if a.Client? && a.c == c && s.conns[c].pc.COpenRaw? then [s.conns[c].raw.reader] else [];
      |Step(s, a).conns| == |s.conns| && AfterTries(Step(s, a).conns[c].pc, open + now)
  {
    assert open + [] == open;
    if a.Client? && a.c == c {
      if s.conns[c].pc.COpenRaw? {
        TryKeeps(s.conns[c], a.n, open);
      } else {
        OtherStepKeeps(s.conns[c], a.n, open);
      }
    } else if a.Post? && a.c == c {
      OpenedIffInTime(MAXTRIES, open);
    } else {
      HandlerKeepsPc(s, a, c);
    }
  }

  lemma HandlerKeepsPc(s: State, a: Action, c: nat)
    requires Enabled(s, a) && c < |s.conns| && !((a.Client? || a.Post?) && a.c == c)
    ensures |Step(s, a).conns| == |s.conns| && Step(s, a).conns[c].pc == s.conns[c].pc
  {
  }

  /** In every run the tries of a client decide where it is. */
  lemma {:induction false} TriesDecide(states: seq<State>, actions: seq<Action>, c: nat, k: nat)
    requires IsRun(states, actions) && k < |states| && c < |states[0].conns|
    ensures |states[k].conns| == |states[0].conns|
    ensures AfterTries(states[k].conns[c].pc, Tried(states, actions, c, k))
  {
    if k > 0 {
      TriesDecide(states, actions, c, k - 1);
      StepTries(states[k - 1], actions[k - 1], c, Tried(states, actions, c, k - 1));
    }
  }

  /** Client c was ready to send in some state up to k. */
  ghost predicate GotToSend(states: seq<State>, c: nat, k: nat)
    requires k < |states|
  {
    exists j :: 0 <= j <= k && c < |states[j].conns| && states[j].conns[c].pc.CSend?
  }

  /** A successful last try takes the client to sending. */
  lemma OpenedSends(s: State, a: Action, c: nat, open: seq<bool>)
    requires Enabled(s, a) && c < |s.conns| && AfterTries(s.conns[c].pc, open) && a.Client? && a.c == c
    requires s.conns[c].pc.COpenRaw? && Opening(MAXTRIES, open + [s.conns[c].raw.reader]).Opened?
    ensures c < |Step(s, a).conns| && Step(s, a).conns[c].pc.CSend?
  {
    OpenedIffInTime(MAXTRIES, open);
    ClientTries(s.conns[c], a.n);
    assert (open + [s.conns[c].raw.reader])[..|open|] == open;
  }

  lemma NoTry(states: seq<State>, actions: seq<Action>, c: nat, k: nat)
    requires IsRun(states, actions) && k < |actions| && c < |states[k].conns|
    requires !(states[k].conns[c].pc.COpenRaw? && actions[k].Client? && actions[k].c == c)
    ensures Tried(states, actions, c, k + 1) == Tried(states, actions, c, k)
  {
    assert Tried(states, actions, c, k) + [] == Tried(states, actions, c, k);
  }

  lemma {:induction false} OpenedMeansSent(states: seq<State>, actions: seq<Action>, c: nat, k: nat)
    requires IsRun(states, actions) && k < |states| && c < |states[0].conns|
    requires Opening(MAXTRIES, Tried(states, actions, c, k)).Opened?
    ensures GotToSend(states, c, k)
  {
    if k > 0 {
      var open, s, a := Tried(states, actions, c, k - 1), states[k - 1], actions[k - 1];
      TriesDecide(states, actions, c, k - 1);
      if a.Client? && a.c == c && s.conns[c].pc.COpenRaw? {
        OpenedSends(s, a, c, open);
        assert states[k].conns[c].pc.CSend?;
      } else {
        NoTry(states, actions, c, k - 1);
        OpenedMeansSent(states, actions, c, k - 1);
      }
    }
  }

  /** Once opened, a FIFO needs no further try. */
  lemma {:induction false} OpenedStays(states: seq<State>, actions: seq<Action>, c: nat, j: nat, k: nat)
    requires IsRun(states, actions) && j <= k < |states| && c < |states[0].conns|
    requires Opening(MAXTRIES, Tried(states, actions, c, j)).Opened?
    ensures Opening(MAXTRIES, Tried(states, actions, c, k)).Opened?
    decreases k
  {
    if j < k {
      OpenedStays(states, actions, c, j, k - 1);
      OpenedStep(states, actions, c, k - 1);
    }
  }

  lemma OpenedStep(states: seq<State>, actions: seq<Action>, c: nat, k: nat)
    requires IsRun(states, actions) && k < |actions| && c < |states[0].conns|
    requires Opening(MAXTRIES, Tried(states, actions, c, k)).Opened?
    ensures Opening(MAXTRIES, Tried(states, actions, c, k + 1)).Opened?
  {
    TriesDecide(states, actions, c, k);
    NoTry(states, actions, c, k);
  }

  /** A client gets to send if and only if the server has its FIFO open at one of
      the first MAXTRIES tries; one more try is made, but always given up. */
  lemma ClientOpensIff(states: seq<State>, actions: seq<Action>, c: nat, k: nat)
    requires IsRun(states, actions) && k < |states| && c < |states[0].conns|
    ensures
      var open := Tried(states, actions, c, k);
      && (GotToSend(states, c, k) <==> OpenInTime(MAXTRIES, open))
      && |states[k].conns| == |states[0].conns|
      && var pc := states[k].conns[c].pc;
      && (pc.CSend? || pc.COpenReply? || pc.CBlocked? || pc.CReading? || pc.CDone? ==> OpenInTime(MAXTRIES, open))
      && (OpenInTime(MAXTRIES, open) ==> !pc.CPost? && !pc.COpenRaw?)
      && (!OpenInTime(MAXTRIES, open) && |open| > MAXTRIES ==> pc.CFailed?)
  {
    TriesDecide(states, actions, c, k);
    OpenedIffInTime(MAXTRIES, Tried(states, actions, c, k));
    if OpenInTime(MAXTRIES, Tried(states, actions, c, k)) {
      OpenedMeansSent(states, actions, c, k);
    }
    if j :| 0 <= j <= k && c < |states[j].conns| && states[j].conns[c].pc.CSend? {
      TriesDecide(states, actions, c, j);
      OpenedStays(states, actions, c, j, k);
    }
  }

  /** Whether the client of worker h was reading at the try that the worker makes in this step. */
  ghost function NowTried(s: State, a: Action, h: nat): seq<bool>
    requires Enabled(s, a)
  {
    if a == Work(h) && s.workers[h].handler.pc.HOpenReply?
    then [s.conns[s.memory[s.workers[h].addr].client].reply.reader] else []
  }

  /** The same for all tries of worker h for its current chunk. */
  ghost function ServerTried(states: seq<State>, actions: seq<Action>, h: nat, k: nat): seq<bool>
    requires IsRun(states, actions) && k < |states|
  {
    if k == 0 then []
    else
      var s, a := states[k - 1], actions[k - 1];
      if a == Work(h) && s.workers[h].handler.pc.HConvert? then []
      else ServerTried(states, actions, h, k - 1) + NowTried(s, a, h)
  }

  ghost predicate AfterServerTries(pc: HandlerPc, open: seq<bool>, limit: nat) {
    && (pc.HOpenReply? ==> Opening(limit, open) == Again(pc.tries))
    && (pc.HWrite? || pc.HClose? ==> Opening(limit, open).Opened?)
  }

  lemma StepServerTries(s: State, a: Action, h: nat, open: seq<bool>)
    requires Enabled(s, a) && h < |s.workers|
    requires AfterServerTries(s.workers[h].handler.pc, open, ServerTries(s.threaded))
    ensures
      var s' := Step(s, a);
      && h < |s'.workers| && s'.threaded == s.threaded
      && var open' := if a == Work(h) && s.workers[h].handler.pc.HConvert? then [] else open + NowTried(s, a, h);
      AfterServerTries(s'.workers[h].handler.pc, open', ServerTries(s.threaded))
  {
    assert open + [] == open;
    if a == Work(h) {
      var w := s.workers[h];
      var c, locale := s.conns[s.memory[w.addr].client], if s.threaded then s.locale else w.locale;
      assert Step(s, a).workers[h].handler == HandlerNext(c, w.handler, locale, s.threaded);
      if w.handler.pc.HOpenReply? {
        HandlerTries(c, w.handler, locale, s.threaded);
        assert (open + [c.reply.reader])[..|open|] == open;
      }
    } else {
      assert Step(s, a).workers[h] == s.workers[h];
    }
  }

  lemma {:induction false} ServerTriesDecide(states: seq<State>, actions: seq<Action>, h: nat, k: nat)
    requires IsRun(states, actions) && k < |states|
    ensures states[k].threaded == states[0].threaded
    ensures h < |states[k].workers| ==>
              AfterServerTries(states[k].workers[h].handler.pc, ServerTried(states, actions, h, k),
                               ServerTries(states[0].threaded))
  {
    if k > 0 {
      ServerTriesDecide(states, actions, h, k - 1);
      var s := states[k - 1];
      if h < |s.workers| {
        StepServerTries(s, actions[k - 1], h, ServerTried(states, actions, h, k - 1));
      }
    }
  }

  /** A worker gets to answer a chunk if and only if its client is reading at one
      of the first tries; at the last one it gives up in any case. */
  lemma ServerOpensIff(states: seq<State>, actions: seq<Action>, h: nat, k: nat)
    requires IsRun(states, actions) && k < |actions| && actions[k] == Work(h)
    requires states[k].workers[h].handler.pc.HOpenReply?
    ensures
      var open, limit := ServerTried(states, actions, h, k + 1), ServerTries(states[0].threaded);
      && h < |states[k + 1].workers|
      && var pc := states[k + 1].workers[h].handler.pc;
      && (pc.HWrite? <==> OpenInTime(limit, open))
      && (pc.HFailed? <==> !OpenInTime(limit, open) && |open| > limit)
      && (pc.HOpenReply? <==> !OpenInTime(limit, open) && |open| <= limit)
  {
    ServerTriesDecide(states, actions, h, k);
    var s := states[k];
    var w := s.workers[h];
    var c, locale := s.conns[s.memory[w.addr].client], if s.threaded then s.locale else w.locale;
    var before, open := ServerTried(states, actions, h, k), ServerTried(states, actions, h, k + 1);
    var limit := ServerTries(s.threaded);
    assert states[k + 1].workers[h].handler == HandlerNext(c, w.handler, locale, s.threaded);
    HandlerTries(c, w.handler, locale, s.threaded);
    assert open == before + [c.reply.reader] && open[..|open| - 1] == before;
    OpenedIffInTime(limit, open);
  }

  // ------------------------------------------------------------- too late by one try

  lemma {:induction false} ClientRetries(s: State, c: nat, m: nat) returns (s': State)
    requires Sizes(s) && c < |s.conns| && s.conns[c].pc == COpenRaw(0) && !s.conns[c].raw.reader && m <= MAXTRIES
    ensures Sizes(s') && s' == s.(conns := s.conns[c := s.conns[c].(pc := COpenRaw(m))])
  {
    if m == 0 {
      s' := s;
      assert s.conns[c := s.conns[c].(pc := COpenRaw(0))] == s.conns;
    } else {
      s' := ClientRetries(s, c, m - 1);
      s' := ClientMoves(s', c, 0);
    }
  }

  /** The server opens the client's FIFO before the client's last try, and still the client gives up. */
  lemma ClientTooLate(threaded: bool, locale: Locale, x: char)
    ensures exists s :: Reachable(s) && s.threaded == threaded && |s.conns| == 1
                        && s.conns[0].chunks == [[x]] && s.conns[0].pc.CFailed? && s.conns[0].raw.reader
  {
    var s := OneSender(threaded, [locale], 0, x);
    s := Accept(s, 0, 0);
    s := ClientRetries(s, 0, MAXTRIES);
    s := WorkerMoves(s, 0, 0);
    s := ClientMoves(s, 0, 0);
  }

  lemma {:induction false} ServerRetries(s: State, c: nat, m: nat) returns (s': State)
    requires Sizes(s) && c < |s.conns| && !s.conns[c].reply.reader && m <= ServerTries(s.threaded)
    requires |s.workers| > 0 && s.workers[0].handler.pc == HOpenReply(0)
    requires s.workers[0].addr in s.memory && s.memory[s.workers[0].addr].client == c
    ensures Sizes(s') && s' == s.(workers := s'.workers)
    ensures s'.workers == s.workers[0 := s.workers[0].(handler := s.workers[0].handler.(pc := HOpenReply(m)))]
  {
    if m == 0 {
      s' := s;
      assert s.workers[0].handler.(pc := HOpenReply(0)) == s.workers[0].handler;
    } else {
      s' := ServerRetries(s, c, m - 1);
      s' := WorkerMoves(s', 0, c);
    }
  }

  /** The server has converted a character and is about to open the client's FIFO. */
  lemma ReadyToAnswer(threaded: bool, locale: Locale, x: char) returns (s: State)
    ensures Sizes(s) && s.threaded == threaded && |s.conns| == |s.workers| == 1
    ensures s.conns[0] == Conn([[x]], COpenReply, 1, "", OPEN, SHUT)
    ensures s.workers[0].handler.pc == HOpenReply(0)
    ensures s.workers[0].addr in s.memory && s.memory[s.workers[0].addr].client == 0
  {
    s := OneSender(threaded, [locale], 0, x);
    s := Connect(s, 0, 0);
    s := SendOne(s, 0, x);
    s := WorkerMoves(s, 0, 0);
    s := WorkerMoves(s, 0, 0);
  }

  /** The client is reading before the server's last try, and still the server
      gives up and the client's text is lost. */
  lemma ServerTooLate(threaded: bool, locale: Locale, x: char)
    ensures exists s :: Reachable(s) && s.threaded == threaded && |s.conns| == |s.workers| == 1
                        && s.conns[0].chunks == [[x]] && s.conns[0].next == 1 && s.conns[0].output == ""
                        && s.conns[0].reply.reader && s.conns[0].raw.data == "" && s.conns[0].reply.data == ""
                        && s.workers[0].handler.pc.HFailed?
  {
    var s := ReadyToAnswer(threaded, locale, x);
    s := ServerRetries(s, 0, ServerTries(threaded));
    s := ClientMoves(s, 0, 0);
    s := WorkerMoves(s, 0, 0);
  }
}

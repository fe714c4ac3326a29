/** What the clients of both servers get. */
module UpcaseResults {
  import opened UpcaseText
  import opened UpcasePair
  import opened Upcase

  /** Every live worker reads a copy of its own client's message, whatever main does to its variable. */
  lemma OwnMessage(states: seq<State>, actions: seq<Action>, k: nat, h: nat)
    requires IsRun(states, actions) && k < |states| && h < |states[k].workers| && Live(states[k].workers[h])
    ensures
      var s := states[k];
      var w := s.workers[h];
      && w.owner < |s.conns| == |s.locales| == |s.stages| && s.stages[w.owner] == Served(h)
      && w.addr in s.memory && s.memory[w.addr] == Message(w.owner, s.locales[w.owner])
      && forall g :: 0 <= g < |s.workers| && g != h && Live(s.workers[g]) ==>
           s.workers[g].addr != w.addr && s.workers[g].owner != w.owner
  {
    RunKeepsInv(states, actions, k);
    var s := states[k];
    assert WorkerOk(s, h);
    forall g | 0 <= g < |s.workers| && g != h && Live(s.workers[g])
      ensures s.workers[g].addr != s.workers[h].addr && s.workers[g].owner != s.workers[h].owner
    {
      assert WorkerOk(s, g);
    }
  }

  lemma {:induction false} ConcatTake(chunks: seq<string>, n: nat)
    requires n <= |chunks|
    ensures Concat(chunks[..n]) <= Concat(chunks)
    ensures n < |chunks| && ChunksOk(chunks) ==> |Concat(chunks[..n])| < |Concat(chunks)|
    decreases |chunks|
  {
    var last := |chunks| - 1;
    if n == |chunks| {
      assert chunks[..n] == chunks;
    } else {
      ConcatTake(chunks[..last], n);
      assert chunks[..last][..n] == chunks[..n];
    }
  }

  /** What a client has printed is the uppercase of the beginning of its text,
      each character by an allowed locale. */
  lemma OutputIsUpper(states: seq<State>, actions: seq<Action>, k: nat, c: nat)
    requires IsRun(states, actions) && k < |states| && c < |states[k].conns|
    ensures
      var s := states[k];
      c < |s.locales| && UpperPrefix(Allowed(s, c), Concat(s.conns[c].chunks), s.conns[c].output)
  {
    RunKeepsInv(states, actions, k);
    var s := states[k];
    var conn := s.conns[c];
    assert ClientOk(s, c);
    if s.stages[c].Served? {
      assert WorkerOk(s, s.stages[c].h);
      PrefixOfAnswer(Sent(conn), Concat(conn.chunks), Allowed(s, c), conn);
    }
  }

  lemma PrefixOfAnswer(sent: string, text: string, locales: seq<Locale>, c: Conn)
    requires c.next <= |c.chunks| && sent == Sent(c) && text == Concat(c.chunks)
    requires UpperPrefix(locales, sent, Answered(c))
    ensures UpperPrefix(locales, text, c.output)
  {
    ConcatTake(c.chunks, c.next);
    var n := |c.output|;
    UpperTake(locales, sent[..|Answered(c)|], Answered(c), n);
    assert Answered(c)[..n] == c.output;
    assert sent[..|Answered(c)|][..n] == text[..n];
  }

  lemma {:induction false} UpperTake(locales: seq<Locale>, a: string, b: string, n: nat)
    requires UpperAll(locales, a, b) && n <= |a|
    ensures UpperAll(locales, a[..n], b[..n])
    decreases |a|
  {
    if n == |a| {
      assert a[..n] == a && b[..n] == b;
    } else {
      var last := |a| - 1;
      UpperTake(locales, a[..last], b[..last], n);
      assert a[..last][..n] == a[..n] && b[..last][..n] == b[..n];
    }
  }

  /** The locales that may convert a client's text agree with its own. */
  ghost predicate Agree(s: State, c: nat)
    requires c < |s.locales|
  {
    s.threaded ==> forall j, x :: 0 <= j < |s.locales| && x != NUL ==> s.locales[j](x) == s.locales[c](x)
  }

  /** A client of the forked server always prints a prefix of its own input in
      its own uppercase; with threads this takes locales that agree. */
  lemma OutputIsPrefix(states: seq<State>, actions: seq<Action>, k: nat, c: nat, input: string)
    requires IsRun(states, actions) && k < |states| && c < |states[k].conns| == |states[k].locales|
    requires states[k].conns[c].chunks == Requests(input) && NUL !in input
    requires Agree(states[k], c)
    ensures states[k].conns[c].output <= UpperText(states[k].locales[c], input)
  {
    OutputIsUpper(states, actions, k, c);
    RequestsCoverIff(input);
    var s := states[k];
    var out, own := s.conns[c].output, s.locales[c];
    forall j | 0 <= j < |out| ensures out[j] == own(input[j]) {
      UpperAt(Allowed(s, c), input[..|out|], out, j);
    }
  }

  /** A client that ended without an error got back all of its text exactly when
      its server did not give up; a thread that gives up never lets it end. */
  lemma CompleteIff(states: seq<State>, actions: seq<Action>, k: nat, c: nat)
    requires IsRun(states, actions) && k < |states| && c < |states[k].conns| && states[k].conns[c].pc.CDone?
    ensures
      var s := states[k];
      && |s.stages| == |s.conns| && s.stages[c].Served? && s.stages[c].h < |s.workers|
      && (|s.conns[c].output| == |Concat(s.conns[c].chunks)|
          <==> !s.workers[s.stages[c].h].handler.pc.HFailed?)
      && (s.threaded ==> |s.conns[c].output| == |Concat(s.conns[c].chunks)|)
  {
    RunKeepsInv(states, actions, k);
    var s := states[k];
    assert ClientOk(s, c);
    assert WorkerOk(s, s.stages[c].h);
    var conn := s.conns[c];
    DoneIff(conn, s.workers[s.stages[c].h].handler, s.threaded);
    assert conn.chunks[..conn.next] == conn.chunks;
  }

  /** When neither side timed out, a client that ended printed its whole input in uppercase. */
  lemma WholeInput(states: seq<State>, actions: seq<Action>, k: nat, c: nat, input: string)
    requires IsRun(states, actions) && k < |states| && c < |states[k].conns| == |states[k].locales|
    requires states[k].conns[c].chunks == Requests(input) && NUL !in input
    requires Agree(states[k], c) && states[k].conns[c].pc.CDone?
    requires forall h :: 0 <= h < |states[k].workers| && states[k].workers[h].owner == c ==>
               !states[k].workers[h].handler.pc.HFailed?
    ensures states[k].conns[c].output == UpperText(states[k].locales[c], input)
  {
    OutputIsPrefix(states, actions, k, c, input);
    CompleteIff(states, actions, k, c);
    RunKeepsInv(states, actions, k);
    assert ClientOk(states[k], c);
    RequestsCoverIff(input);
  }

  // ------------------------------------------------------------- threads share one locale

  ghost predicate Reachable(s: State) {
    exists states, actions :: IsRun(states, actions) && states[|actions|] == s
  }

  lemma Reach(s: State, a: Action, s': State)
    requires Reachable(s) && Enabled(s, a) && s' == Step(s, a)
    ensures Reachable(s')
  {
    var states, actions :| IsRun(states, actions) && states[|actions|] == s;
    var longer, done := states + [s'], actions + [a];
    forall k | 0 <= k < |done| ensures Enabled(longer[k], done[k]) && longer[k + 1] == Step(longer[k], done[k]) {
      if k < |actions| {
        assert longer[k] == states[k] && longer[k + 1] == states[k + 1] && done[k] == actions[k];
      }
    }
    assert IsRun(longer, done) && longer[|done|] == s';
  }

  const SHUT := Fifo("", false, false, false)
  const OPEN := Fifo("", true, true, true)

  ghost predicate Sizes(s: State) {
    Reachable(s) && |s.stages| == |s.conns| == |s.locales|
  }

  /** The locale by which worker h converts. */
  ghost function InForce(s: State, h: nat): Locale
    requires h < |s.workers|
  {
    if s.threaded then s.locale else s.workers[h].locale
  }

  lemma ClientMoves(s: State, c: nat, n: nat) returns (s': State)
    requires Sizes(s) && c < |s.conns| && ClientCan(s.conns[c], n)
    ensures Sizes(s') && s' == s.(conns := s.conns[c := ClientStep(s.conns[c], n)])
  {
    s' := Step(s, Client(c, n));
    Reach(s, Client(c, n), s');
  }

  /** A step of worker h that neither sets the locale nor ends it. */
  lemma WorkerMoves(s: State, h: nat, c: nat) returns (s': State)
    requires Sizes(s) && c < |s.conns| && h < |s.workers| && s.workers[h].addr in s.memory
    requires s.memory[s.workers[h].addr].client == c && HandlerCan(s.conns[c], s.workers[h].handler)
    requires Live(s.workers[h]) && !s.workers[h].handler.pc.HLocale?
    requires !HandlerNext(s.conns[c], s.workers[h].handler, InForce(s, h), s.threaded).pc.HDone?
    ensures Sizes(s')
    ensures s' == s.(conns := s.conns[c := HandlerConn(s.conns[c], s.workers[h].handler, s.threaded)],
                     workers := s.workers[h := s.workers[h].(handler :=
                       HandlerNext(s.conns[c], s.workers[h].handler, InForce(s, h), s.threaded))])
  {
    s' := Step(s, Work(h));
    Reach(s, Work(h), s');
  }

  /** A new client is accepted. */
  lemma Accept(s: State, c: nat, addr: nat) returns (s': State)
    requires Sizes(s) && c < |s.conns| && s.conns[c].pc.CPost? && s.queue == [] && !s.hasMsg && addr !in s.memory
    ensures Sizes(s') && s'.queue == [] && !s'.hasMsg && s'.locales == s.locales && s'.locale == s.locale
    ensures s'.threaded == s.threaded && s'.conns == s.conns[c := s.conns[c].(pc := COpenRaw(0))]
    ensures s'.memory == s.memory[addr := Message(c, s.locales[c])]
    ensures s'.workers == s.workers + [Worker(addr, c, s.locale, Handler(HOpenRaw, ""))]
  {
    var s1 := Step(s, Post(c));
    Reach(s, Post(c), s1);
    assert s1.queue == [Message(c, s.locales[c])];
    var s2 := Step(s1, Take);
    Reach(s1, Take, s2);
    s' := Step(s2, Spawn(addr));
    Reach(s2, Spawn(addr), s');
  }

  /** The new thread and its client open the client's FIFO. */
  lemma OpenBoth(s: State, c: nat, h: nat) returns (s': State)
    requires Sizes(s) && c < |s.conns| && h < |s.workers| && s.workers[h].handler == Handler(HOpenRaw, "")
    requires s.workers[h].addr in s.memory && s.memory[s.workers[h].addr].client == c
    requires s.conns[c].pc == COpenRaw(0) && s.conns[c].raw == SHUT
    ensures Sizes(s') && s' == s.(conns := s'.conns, workers := s'.workers)
    ensures s'.conns == s.conns[c := s.conns[c].(pc := CSend, raw := OPEN)]
    ensures s'.workers == s.workers[h := s.workers[h].(handler := Handler(HLocale, ""))]
  {
    s' := WorkerMoves(s, h, c);
    s' := ClientMoves(s', c, 0);
    s' := WorkerMoves(s', h, c);
  }

  /** Once connected, the worker sets its locale; with threads it is now everybody's. */
  lemma Connect(s: State, c: nat, addr: nat) returns (s': State)
    requires Sizes(s) && c < |s.conns| && s.queue == [] && !s.hasMsg && addr !in s.memory
    requires s.conns[c].pc.CPost? && s.conns[c].raw == SHUT
    ensures Sizes(s') && s'.queue == [] && !s'.hasMsg && s'.locales == s.locales && s'.threaded == s.threaded
    ensures s'.locale == if s.threaded then s.locales[c] else s.locale
    ensures s'.conns == s.conns[c := s.conns[c].(pc := CSend, raw := OPEN)]
    ensures s'.memory == s.memory[addr := Message(c, s.locales[c])]
    ensures s'.workers == s.workers + [Worker(addr, c, s.locales[c], Handler(HRead, ""))]
  {
    var h := |s.workers|;
    var s1 := Accept(s, c, addr);
    var s2 := OpenBoth(s1, c, h);
    assert s2.workers[h] == Worker(addr, c, s.locale, Handler(HLocale, ""));
    s' := Step(s2, Work(h));
    Reach(s2, Work(h), s');
  }

  /** Client c sends a character, and its worker takes it. */
  lemma SendOne(s: State, c: nat, x: char) returns (s': State)
    requires Sizes(s) && c < |s.conns| && s.conns[c] == Conn([[x]], CSend, 0, "", OPEN, SHUT)
    requires s.workers == [Worker(0, c, s.locales[c], Handler(HRead, ""))]
    requires 0 in s.memory && s.memory[0].client == c
    ensures Sizes(s') && s' == s.(conns := s'.conns, workers := s'.workers)
    ensures s'.conns == s.conns[c := Conn([[x]], COpenReply, 1, "", OPEN, SHUT)]
    ensures s'.workers == [Worker(0, c, s.locales[c], Handler(HConvert(0), [x]))]
  {
    s' := ClientMoves(s, c, 0);
    assert "" + [x] == [x];
    assert s'.conns[c].raw == Fifo([x], true, true, true);
    assert [x][1..] == "" && [x][..1] == [x];
    s' := WorkerMoves(s', 0, c);
    assert s'.conns[c] == Conn([[x]], COpenReply, 1, "", OPEN, SHUT);
    assert s'.workers[0] == Worker(0, c, s.locales[c], Handler(HConvert(0), [x]));
  }

  /** The worker converts the character by the locale now in force. */
  lemma ConvertOne(s: State, c: nat, x: char) returns (s': State)
    requires Sizes(s) && c < |s.conns| && s.conns[c] == Conn([[x]], COpenReply, 1, "", OPEN, SHUT)
    requires |s.workers| > 0 && s.workers[0].handler == Handler(HConvert(0), [x])
    requires s.workers[0].addr in s.memory && s.memory[s.workers[0].addr].client == c
    ensures Sizes(s') && s' == s.(conns := s'.conns, workers := s'.workers)
    ensures s'.conns == s.conns[c := Conn([[x]], CBlocked, 1, "", OPEN, Fifo("", true, true, true))]
    ensures s'.workers == s.workers[0 := s.workers[0].(handler := Handler(HWrite, [InForce(s, 0)(x)]))]
  {
    s' := WorkerMoves(s, 0, c);
    assert s'.workers[0].handler == Handler(HConvert(1), [InForce(s, 0)(x)]);
    s' := WorkerMoves(s', 0, c);
    s' := ClientMoves(s', c, 0);
    s' := WorkerMoves(s', 0, c);
  }

  lemma ReplyOne(s: State, c: nat, x: char, y: char) returns (s': State)
    requires Sizes(s) && c < |s.conns|
    requires s.conns[c] == Conn([[x]], CBlocked, 1, "", OPEN, Fifo("", true, true, true))
    requires |s.workers| > 0 && s.workers[0].handler == Handler(HWrite, [y])
    requires s.workers[0].addr in s.memory && s.memory[s.workers[0].addr].client == c
    ensures Sizes(s') && s'.locales == s.locales && s'.threaded == s.threaded
    ensures |s'.conns| == |s.conns| && s'.conns[c].chunks == [[x]] && s'.conns[c].output == [y]
  {
    s' := ClientMoves(s, c, 0);
    s' := WorkerMoves(s', 0, c);
    assert "" + [y] == [y] && [y][..1] == [y];
    s' := ClientMoves(s', c, 1);
  }

  /** An initial state in which client c has one character to send and the others nothing. */
  lemma OneSender(threaded: bool, locales: seq<Locale>, c: nat, x: char) returns (s: State)
    requires c < |locales|
    ensures Sizes(s) && s.threaded == threaded && s.locales == locales
    ensures s.queue == [] && !s.hasMsg && s.memory == map[] && s.workers == []
    ensures forall d :: 0 <= d < |locales| ==>
              s.conns[d] == Conn(if d == c then [[x]] else [], CPost, 0, "", SHUT, SHUT)
  {
    var idle := Conn([], CPost, 0, "", SHUT, SHUT);
    var conns := seq(|locales|, i => idle)[c := idle.(chunks := [[x]])];
    var stages, first := seq(|locales|, i => Idle), locales[0];
    s := State(threaded, locales, conns, stages, [], Message(0, first), false, map[], [], first);
    assert ChunksOk([[x]]);
    assert IsRun([s], []) && [s][0] == s;
  }

  /** Threads share one locale: with two clients whose locales differ on a
      character, one can be answered by the locale of the other. */
  lemma SharedLocaleExample(locales: seq<Locale>, c: nat, d: nat, x: char)
    requires c < |locales| && d < |locales| && c != d
    ensures exists s :: Reachable(s) && s.threaded && s.locales == locales && |s.conns| == |locales|
                        && s.conns[c].chunks == [[x]] && s.conns[c].output == [locales[d](x)]
  {
    var s := OneSender(true, locales, c, x);
    s := Connect(s, c, 0);
    s := SendOne(s, c, x);
    s := Connect(s, d, 1);
    s := ConvertOne(s, c, x);
    s := ReplyOne(s, c, x, locales[d](x));
  }

  ghost predicate AllAgree(locales: seq<Locale>, c: nat)
    requires c < |locales|
  {
    forall j, x :: 0 <= j < |locales| && x != NUL ==> locales[j](x) == locales[c](x)
  }

  /** Client c of the threaded server gets its own uppercase in every run. */
  ghost predicate AlwaysOwn(locales: seq<Locale>, c: nat)
    requires c < |locales|
  {
    forall s, input :: Reachable(s) && s.threaded && s.locales == locales && c < |s.conns|
                       && s.conns[c].chunks == Requests(input) && NUL !in input ==>
      s.conns[c].output <= UpperText(locales[c], input)
  }

  /** It does so exactly when the locales of all clients agree with its own. */
  lemma ThreadsOwnIff(locales: seq<Locale>, c: nat)
    requires c < |locales|
    ensures AlwaysOwn(locales, c) <==> AllAgree(locales, c)
  {
    if AllAgree(locales, c) {
      forall s, input | Reachable(s) && s.threaded && s.locales == locales && c < |s.conns|
                        && s.conns[c].chunks == Requests(input) && NUL !in input
        ensures s.conns[c].output <= UpperText(locales[c], input)
      {
        var states, actions :| IsRun(states, actions) && states[|actions|] == s;
        RunKeepsInv(states, actions, |actions|);
        OutputIsPrefix(states, actions, |actions|, c, input);
      }
    } else {
      var j, x :| 0 <= j < |locales| && x != NUL && locales[j](x) != locales[c](x);
      SharedLocaleExample(locales, c, j, x);
      OneCharacter(x);
    }
  }

  lemma OneCharacter(x: char)
    requires x != NUL
    ensures Requests([x]) == [[x]] && NUL !in [x]
  {
    var n := LineLength([x], BUFSIZ - 1);
    assert n == 1 && [x][..1] == [x] && Strlen([x]) == 1;
    assert Chunks([x]) == [[x]] && [x][1..] == "";
  }
}

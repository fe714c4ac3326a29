/** upcased.c and threaded_upcased.c: the server takes messages off the public
    FIFO and gives each client a process or thread of its own. */
module Upcase {
  import opened UpcaseText
  import opened UpcasePair

  /** The names of a client's two private FIFOs, here the client's number, and its locale. */
  datatype Message = Message(client: nat, locale: Locale)

  datatype Stage = Idle | Queued | Taken | Served(h: nat)

  /** `addr` is where the worker's copy of its message is, `locale` the locale
      of its process; `owner` records the client it was started for. */
  datatype Worker = Worker(addr: nat, owner: nat, locale: Locale, handler: Handler)

  /** `msg` is main's variable, full when `hasMsg`; `memory` holds the copies
      made by fork() or memcpy(); `locale` is the locale shared by all threads. */
  datatype State = State(
    threaded: bool,
    locales: seq<Locale>,
    conns: seq<Conn>,
    stages: seq<Stage>,
    queue: seq<Message>,
    msg: Message,
    hasMsg: bool,
    memory: map<nat, Message>,
    workers: seq<Worker>,
    locale: Locale)

  datatype Action =
    | Post(c: nat)
    | Client(c: nat, n: nat)
    | Take
    | Spawn(addr: nat)
    | SpawnFails
    | Overwrite(m: Message)      // main clears or refills its variable
    | Work(h: nat)

  ghost predicate Live(w: Worker) {
    !w.handler.pc.HDone? && !w.handler.pc.HFailed?
  }

  ghost predicate Enabled(s: State, a: Action) {
    && |s.stages| == |s.conns| == |s.locales|
    && match a
       case Post(c) => c < |s.conns| && s.conns[c].pc.CPost?
       case Client(c, n) => c < |s.conns| && ClientCan(s.conns[c], n)
       case Take => !s.hasMsg && s.queue != [] && s.queue[0].client < |s.conns|
       case Spawn(addr) => s.hasMsg && addr !in s.memory && s.msg.client < |s.conns|
       case SpawnFails => s.hasMsg
       case Overwrite(_) => !s.hasMsg
       case Work(h) =>
         && h < |s.workers| && Live(s.workers[h]) && s.workers[h].addr in s.memory
         && s.memory[s.workers[h].addr].client < |s.conns|
         && HandlerCan(s.conns[s.memory[s.workers[h].addr].client], s.workers[h].handler)
  }

  ghost function WorkStep(s: State, h: nat): State
    requires Enabled(s, Work(h))
  {
    var w := s.workers[h];
    var m := s.memory[w.addr];
    var c := s.conns[m.client];
    var handler := HandlerNext(c, w.handler, if s.threaded then s.locale else w.locale, s.threaded);
    var setting := w.handler.pc.HLocale?;
    s.(conns := s.conns[m.client := HandlerConn(c, w.handler, s.threaded)],
       workers := s.workers[h := w.(handler := handler, locale := if setting then m.locale else w.locale)],
       locale := if setting && s.threaded then m.locale else s.locale,
       memory := if handler.pc.HDone? then s.memory - {w.addr} else s.memory)
  }

  ghost function Step(s: State, a: Action): State
    requires Enabled(s, a)
  {
    match a
    case Post(c) =>
      s.(conns := s.conns[c := s.conns[c].(pc := COpenRaw(0))], stages := s.stages[c := Queued],
         queue := s.queue + [Message(c, s.locales[c])])
    case Client(c, n) => s.(conns := s.conns[c := ClientStep(s.conns[c], n)])
    case Take =>
      s.(msg := s.queue[0], hasMsg := true, queue := s.queue[1..], stages := s.stages[s.queue[0].client := Taken])
    case Spawn(addr) =>
      s.(memory := s.memory[addr := s.msg], hasMsg := false,
         stages := s.stages[s.msg.client := Served(|s.workers|)],
         workers := s.workers + [Worker(addr, s.msg.client, s.locale, Handler(HOpenRaw, ""))])
    case SpawnFails => s.(hasMsg := false)
    case Overwrite(m) => s.(msg := m)
    case Work(h) => WorkStep(s, h)
  }

  ghost predicate Init(s: State) {
    && |s.stages| == |s.conns| == |s.locales|
    && (forall c :: 0 <= c < |s.conns| ==> s.stages[c] == Idle && s.conns[c].pc.CPost? && Unserved(s.conns[c]))
    && s.queue == [] && !s.hasMsg && s.memory == map[] && s.workers == []
  }

  ghost predicate IsRun(states: seq<State>, actions: seq<Action>) {
    && |states| == |actions| + 1
    && Init(states[0])
    && forall k :: 0 <= k < |actions| ==>
         Enabled(states[k], actions[k]) && states[k + 1] == Step(states[k], actions[k])
  }

  // ------------------------------------------------------------- invariant

  /** The locales that may convert the text of client c. */
  ghost function Allowed(s: State, c: nat): seq<Locale>
    requires c < |s.locales|
  {
    if s.threaded then s.locales else [s.locales[c]]
  }

  predicate LocaleSet(h: Handler) {
    h.pc.HRead? || Holding(h) || h.pc.HClose?
  }

  ghost predicate WaitingMessage(s: State, m: Message, stage: Stage)
    requires |s.stages| == |s.conns| == |s.locales|
  {
    m.client < |s.conns| && s.stages[m.client] == stage && m.locale == s.locales[m.client]
  }

  ghost predicate ClientOk(s: State, c: nat)
    requires c < |s.conns| == |s.stages|
  {
    match s.stages[c]
    case Idle => Unserved(s.conns[c]) && s.conns[c].pc.CPost?
    case Served(h) => h < |s.workers| && s.workers[h].owner == c
    case _ => Unserved(s.conns[c]) && !s.conns[c].pc.CPost?
  }

  /** The worker has a message of its own client and, once set, an allowed locale. */
  ghost predicate Linked(s: State, h: nat)
    requires |s.stages| == |s.conns| == |s.locales| && h < |s.workers|
  {
    var w := s.workers[h];
    && w.owner < |s.conns| && s.stages[w.owner] == Served(h)
    && (Live(w) ==> w.addr in s.memory && s.memory[w.addr] == Message(w.owner, s.locales[w.owner]))
    && (LocaleSet(w.handler) ==> (if s.threaded then s.locale else w.locale) in Allowed(s, w.owner))
  }

  ghost predicate WorkerOk(s: State, h: nat)
    requires |s.stages| == |s.conns| == |s.locales| && h < |s.workers|
  {
    var w := s.workers[h];
    && Linked(s, h)
    && PairOk(s.conns[w.owner], w.handler, Allowed(s, w.owner), s.threaded)
  }

  ghost predicate QueueOk(s: State)
    requires |s.stages| == |s.conns| == |s.locales|
  {
    && (forall i :: 0 <= i < |s.queue| ==> WaitingMessage(s, s.queue[i], Queued))
    && (forall i, j :: 0 <= i < j < |s.queue| ==> s.queue[i].client != s.queue[j].client)
    && (s.hasMsg ==> WaitingMessage(s, s.msg, Taken))
  }

  /** Each live worker has its own copy. */
  ghost predicate CopiesOk(s: State) {
    forall g, h :: 0 <= g < h < |s.workers| && Live(s.workers[g]) && Live(s.workers[h]) ==>
      s.workers[g].addr != s.workers[h].addr
  }

  ghost predicate Inv(s: State) {
    && |s.stages| == |s.conns| == |s.locales|
    && (forall c :: 0 <= c < |s.conns| ==> ClientOk(s, c))
    && (forall h :: 0 <= h < |s.workers| ==> WorkerOk(s, h))
    && QueueOk(s)
    && CopiesOk(s)
  }

  /** A change that leaves a worker, its client and its message alone. */
  ghost predicate Frame(s: State, s': State, h: nat)
    requires |s.stages| == |s.conns| == |s.locales| && |s'.stages| == |s'.conns| == |s'.locales|
    requires h < |s.workers| && h < |s'.workers| && Linked(s, h)
  {
    var w := s.workers[h];
    && w.owner < |s'.conns|
    && s'.workers[h] == w && s'.threaded == s.threaded && s'.locales == s.locales && s'.locale == s.locale
    && s'.stages[w.owner] == s.stages[w.owner] && s'.conns[w.owner] == s.conns[w.owner]
    && (w.addr in s.memory ==> w.addr in s'.memory && s'.memory[w.addr] == s.memory[w.addr])
  }

  lemma LinkFrame(s: State, s': State, h: nat)
    requires |s.stages| == |s.conns| == |s.locales| && |s'.stages| == |s'.conns| == |s'.locales|
    requires h < |s.workers| && h < |s'.workers| && Linked(s, h) && Frame(s, s', h)
    ensures Linked(s', h) && Allowed(s', s.workers[h].owner) == Allowed(s, s.workers[h].owner)
  {
  }

  lemma WorkerFrame(s: State, s': State, h: nat)
    requires |s.stages| == |s.conns| == |s.locales| && |s'.stages| == |s'.conns| == |s'.locales|
    requires h < |s.workers| && h < |s'.workers| && WorkerOk(s, h) && Frame(s, s', h)
    ensures WorkerOk(s', h)
  {
    var w := s.workers[h];
    LinkFrame(s, s', h);
    assert PairOk(s'.conns[w.owner], w.handler, Allowed(s', w.owner), s'.threaded);
  }

  lemma PostUnserved(c: Conn)
    requires Unserved(c) && c.pc.CPost?
    ensures Unserved(c.(pc := COpenRaw(0)))
  {
  }

  lemma PostKeepsInv(s: State, c: nat)
    requires Inv(s) && Enabled(s, Post(c))
    ensures Inv(Step(s, Post(c)))
  {
    var s' := Step(s, Post(c));
    assert ClientOk(s, c);
    assert s.stages[c].Served? ==> WorkerOk(s, s.stages[c].h);
    PostUnserved(s.conns[c]);
    forall d | 0 <= d < |s.conns| ensures ClientOk(s', d) {
      assert ClientOk(s, d);
    }
    forall h | 0 <= h < |s.workers| ensures WorkerOk(s', h) {
      assert WorkerOk(s, h);
      WorkerFrame(s, s', h);
    }
  }

  lemma ClientKeepsClients(s: State, c: nat, n: nat, d: nat)
    requires Enabled(s, Client(c, n)) && d < |s.conns| && ClientOk(s, c) && ClientOk(s, d)
    ensures ClientOk(Step(s, Client(c, n)), d)
  {
    if !s.stages[c].Served? {
      UnservedStays(s.conns[c], n);
    }
  }

  lemma ClientKeepsWorkers(s: State, c: nat, n: nat, h: nat)
    requires Enabled(s, Client(c, n)) && h < |s.workers| && WorkerOk(s, h)
    ensures WorkerOk(Step(s, Client(c, n)), h)
  {
    var s' := Step(s, Client(c, n));
    if s.workers[h].owner == c {
      ClientKeepsPair(s.conns[c], s.workers[h].handler, n, Allowed(s, c), s.threaded);
      assert Linked(s', h) && Allowed(s', c) == Allowed(s, c);
    } else {
      WorkerFrame(s, s', h);
    }
  }

  lemma ClientKeepsInv(s: State, c: nat, n: nat)
    requires Inv(s) && Enabled(s, Client(c, n))
    ensures Inv(Step(s, Client(c, n)))
  {
    var s' := Step(s, Client(c, n));
    assert ClientOk(s, c);
    forall d | 0 <= d < |s.conns| ensures ClientOk(s', d) {
      assert ClientOk(s, d);
      ClientKeepsClients(s, c, n, d);
    }
    forall h | 0 <= h < |s.workers| ensures WorkerOk(s', h) {
      assert WorkerOk(s, h);
      ClientKeepsWorkers(s, c, n, h);
    }
    assert QueueOk(s');
  }

  lemma TakeKeepsInv(s: State)
    requires Inv(s) && Enabled(s, Take)
    ensures Inv(Step(s, Take))
  {
    var s' := Step(s, Take);
    assert WaitingMessage(s, s.queue[0], Queued);
    forall d | 0 <= d < |s.conns| ensures ClientOk(s', d) {
      assert ClientOk(s, d);
    }
    forall h | 0 <= h < |s.workers| ensures WorkerOk(s', h) {
      assert WorkerOk(s, h);
      WorkerFrame(s, s', h);
    }
    forall i | 0 <= i < |s'.queue| ensures WaitingMessage(s', s'.queue[i], Queued) {
      assert WaitingMessage(s, s.queue[i + 1], Queued);
    }
  }

  lemma MainKeepsInv(s: State, s': State)
    requires Inv(s)
    requires s' == s.(hasMsg := false, msg := s'.msg)
    ensures Inv(s')
  {
    forall d | 0 <= d < |s.conns| ensures ClientOk(s', d) {
      assert ClientOk(s, d);
    }
    forall h | 0 <= h < |s.workers| ensures WorkerOk(s', h) {
      assert WorkerOk(s, h);
      WorkerFrame(s, s', h);
    }
    forall i | 0 <= i < |s.queue| ensures WaitingMessage(s', s.queue[i], Queued) {
      assert WaitingMessage(s, s.queue[i], Queued);
    }
  }

  lemma SpawnKeepsInv(s: State, addr: nat)
    requires Inv(s) && Enabled(s, Spawn(addr))
    ensures Inv(Step(s, Spawn(addr)))
  {
    var s' := Step(s, Spawn(addr));
    var c := s.msg.client;
    assert ClientOk(s, c);
    PairStarts(s.conns[c], Allowed(s, c), s.threaded);
    forall d | 0 <= d < |s.conns| ensures ClientOk(s', d) {
      assert ClientOk(s, d);
    }
    forall h | 0 <= h < |s'.workers| ensures WorkerOk(s', h) {
      if h < |s.workers| {
        assert WorkerOk(s, h);
        WorkerFrame(s, s', h);
      }
    }
    forall g, h | 0 <= g < h < |s'.workers| && Live(s'.workers[g]) && Live(s'.workers[h])
      ensures s'.workers[g].addr != s'.workers[h].addr
    {
      assert WorkerOk(s, g);
    }
  }

  /** The step as seen by the worker's own client. */
  lemma WorkIsOnOwnClient(s: State, h: nat)
    requires Enabled(s, Work(h)) && Linked(s, h)
    ensures
      var s', w := WorkStep(s, h), s.workers[h];
      var c := w.owner;
      && c < |s.conns| == |s.locales| && HandlerCan(s.conns[c], w.handler)
      && s'.conns == s.conns[c := HandlerConn(s.conns[c], w.handler, s.threaded)]
      && s'.conns[c] == HandlerConn(s.conns[c], w.handler, s.threaded)
      && s'.workers[h].handler
         == HandlerNext(s.conns[c], w.handler, if s.threaded then s.locale else w.locale, s.threaded)
  {
  }

  lemma WorkKeepsPair(s: State, h: nat)
    requires Enabled(s, Work(h)) && Linked(s, h)
    requires
      var w := s.workers[h];
      PairOk(s.conns[w.owner], w.handler, Allowed(s, w.owner), s.threaded)
    ensures
      var s', c := WorkStep(s, h), s.workers[h].owner;
      PairOk(s'.conns[c], s'.workers[h].handler, Allowed(s, c), s.threaded)
  {
    WorkIsOnOwnClient(s, h);
    var s', w := WorkStep(s, h), s.workers[h];
    var c, locale, locales := s.conns[w.owner], if s.threaded then s.locale else w.locale, Allowed(s, w.owner);
    HandlerKeepsPair(c, w.handler, locale, locales, s.threaded);
    assert PairOk(s'.conns[w.owner], s'.workers[h].handler, locales, s.threaded);
  }

  lemma WorkKeepsLink(s: State, h: nat)
    requires Enabled(s, Work(h)) && Linked(s, h)
    ensures Linked(WorkStep(s, h), h)
  {
    var s', w := WorkStep(s, h), s.workers[h];
    assert Allowed(s', w.owner) == Allowed(s, w.owner);
    assert s.locales[w.owner] in Allowed(s, w.owner);
    assert LocaleSet(s'.workers[h].handler) ==> LocaleSet(w.handler) || w.handler.pc.HLocale?;
  }

  lemma WorkKeepsWorker(s: State, h: nat)
    requires Inv(s) && Enabled(s, Work(h))
    ensures WorkerOk(WorkStep(s, h), h)
  {
    assert WorkerOk(s, h);
    WorkKeepsPair(s, h);
    WorkKeepsLink(s, h);
  }

  lemma WorkKeepsOtherLink(s: State, h: nat, g: nat)
    requires Enabled(s, Work(h)) && g < |s.workers| && g != h && Linked(s, h) && Linked(s, g)
    requires Live(s.workers[g]) ==> s.workers[g].addr != s.workers[h].addr
    ensures
      var s', d := WorkStep(s, h), s.workers[g].owner;
      && Linked(s', g) && s'.workers[g] == s.workers[g] && d < |s.conns|
      && s'.conns[d] == s.conns[d] && Allowed(s', d) == Allowed(s, d)
  {
    var s' := WorkStep(s, h);
    assert s.threaded && s'.locale != s.locale ==> s'.locale == s.locales[s.workers[h].owner];
  }

  lemma WorkKeepsOthers(s: State, h: nat, g: nat)
    requires Inv(s) && Enabled(s, Work(h)) && g < |s.workers| && g != h
    ensures WorkerOk(WorkStep(s, h), g)
  {
    assert WorkerOk(s, h) && WorkerOk(s, g);
    WorkKeepsOtherLink(s, h, g);
  }

  lemma WorkKeepsClient(s: State, h: nat, d: nat)
    requires Enabled(s, Work(h)) && Linked(s, h) && d < |s.conns| && ClientOk(s, d)
    ensures ClientOk(WorkStep(s, h), d)
  {
  }

  lemma WorkKeepsQueue(s: State, h: nat)
    requires Enabled(s, Work(h)) && QueueOk(s) && CopiesOk(s)
    ensures QueueOk(WorkStep(s, h)) && CopiesOk(WorkStep(s, h))
  {
    var s' := WorkStep(s, h);
    assert s'.queue == s.queue && s'.stages == s.stages;
    forall i | 0 <= i < |s.queue| ensures WaitingMessage(s', s.queue[i], Queued) {
      assert WaitingMessage(s, s.queue[i], Queued);
    }
  }

  lemma WorkKeepsInv(s: State, h: nat)
    requires Inv(s) && Enabled(s, Work(h))
    ensures Inv(Step(s, Work(h)))
  {
    assert WorkerOk(s, h);
    WorkKeepsQueue(s, h);
    forall d | 0 <= d < |s.conns| ensures ClientOk(WorkStep(s, h), d) {
      assert ClientOk(s, d);
      WorkKeepsClient(s, h, d);
    }
    forall g | 0 <= g < |s.workers| ensures WorkerOk(WorkStep(s, h), g) {
      if g == h {
        WorkKeepsWorker(s, h);
      } else {
        WorkKeepsOthers(s, h, g);
      }
    }
  }

  lemma {:induction false} RunKeepsInv(states: seq<State>, actions: seq<Action>, k: nat)
    requires IsRun(states, actions) && k < |states|
    ensures Inv(states[k])
  {
    if k > 0 {
      RunKeepsInv(states, actions, k - 1);
      var s := states[k - 1];
      match actions[k - 1]
      case Post(c) => PostKeepsInv(s, c);
      case Client(c, n) => ClientKeepsInv(s, c, n);
      case Spawn(addr) => SpawnKeepsInv(s, addr);
      case Work(h) => WorkKeepsInv(s, h);
      case Take => TakeKeepsInv(s);
      case _ => MainKeepsInv(s, states[k]);
    }
  }
}

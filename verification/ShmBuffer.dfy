/** The shared-memory bounded buffer of chapter 12: any number of producer and
    consumer processes, two counting semaphores and one used as a mutex. One
    step is one semaphore operation or one access to the shared structure. */
module ShmBuffer {
  import opened Common
  import opened CircularArray

  const BUF_SIZE: nat := 512

  /** Where a producer process is inside add_next; `PIdle` is outside. */
  datatype ProdPc = PIdle | PWaitEmpty | PWaitMutex | PWrite | PAdvance | PPostMutex | PPostFilled

  /** Where a consumer process is inside get_next. */
  datatype ConsPc = CIdle | CWaitFilled | CWaitMutex | CRead | CAdvance | CPostMutex | CPostEmpty

  datatype Prod = Prod(pc: ProdPc, data: int)
  datatype Cons = Cons(pc: ConsPc, val: int)

  datatype State = State(
    ring: Ring,
    emptybuf: int,
    filledbuf: int,
    mutex: int,
    prod: seq<Prod>,
    cons: seq<Cons>,
    added: seq<int>,
    taken: seq<int>)

  /** Process `p` or `c` takes its next step; an idle producer calls add_next with `data`. */
  datatype Action = Produce(p: nat, data: int) | Consume(c: nat)

  ghost predicate Enabled(s: State, a: Action) {
    match a
    case Produce(p, _) =>
      && p < |s.prod|
      && (match s.prod[p].pc
          case PWaitEmpty => s.emptybuf > 0
          case PWaitMutex => s.mutex > 0
          case PWrite => s.ring.rear < |s.ring.cells|
          case PAdvance => s.ring.rear < |s.ring.cells|
          case _ => true)
    case Consume(c) =>
      && c < |s.cons|
      && (match s.cons[c].pc
          case CWaitFilled => s.filledbuf > 0
          case CWaitMutex => s.mutex > 0
          case CRead => s.ring.front < |s.ring.cells|
          case CAdvance => s.ring.front < |s.ring.cells|
          case _ => true)
  }

  function AtP(s: State, p: nat, pc: ProdPc): State
    requires p < |s.prod|
  {
    s.(prod := s.prod[p := s.prod[p].(pc := pc)])
  }

  function AtC(s: State, c: nat, pc: ConsPc): State
    requires c < |s.cons|
  {
    s.(cons := s.cons[c := s.cons[c].(pc := pc)])
  }

  ghost function Step(s: State, a: Action): State
    requires Enabled(s, a)
  {
    match a
    case Produce(p, data) =>
      (match s.prod[p].pc
       case PIdle => s.(prod := s.prod[p := Prod(PWaitEmpty, data)])
       case PWaitEmpty => AtP(s, p, PWaitMutex).(emptybuf := s.emptybuf - 1)
       case PWaitMutex => AtP(s, p, PWrite).(mutex := s.mutex - 1)
       case PWrite => AtP(s, p, PAdvance).(ring := WriteRear(s.ring, s.prod[p].data))
       case PAdvance => AtP(s, p, PPostMutex).(ring := AdvanceRear(s.ring), added := s.added + [s.prod[p].data])
       case PPostMutex => AtP(s, p, PPostFilled).(mutex := s.mutex + 1)
       case PPostFilled => AtP(s, p, PIdle).(filledbuf := s.filledbuf + 1))
    case Consume(c) =>
      (match s.cons[c].pc
       case CIdle => AtC(s, c, CWaitFilled)
       case CWaitFilled => AtC(s, c, CWaitMutex).(filledbuf := s.filledbuf - 1)
       case CWaitMutex => AtC(s, c, CRead).(mutex := s.mutex - 1)
       case CRead => s.(cons := s.cons[c := Cons(CAdvance, s.ring.cells[s.ring.front])])
       case CAdvance => AtC(s, c, CPostMutex).(ring := AdvanceFront(s.ring), taken := s.taken + [s.cons[c].val])
       case CPostMutex => AtC(s, c, CPostEmpty).(mutex := s.mutex + 1)
       case CPostEmpty => AtC(s, c, CIdle).(emptybuf := s.emptybuf + 1))
  }

  /** The state the first consumer sets up before any process uses the buffer. */
  ghost predicate Init(s: State) {
    && |s.ring.cells| == BUF_SIZE && s.ring.front == 0 && s.ring.rear == 0
    && s.filledbuf == 0 && s.emptybuf == BUF_SIZE && s.mutex == 1
    && (forall p :: 0 <= p < |s.prod| ==> s.prod[p].pc == PIdle)
    && (forall c :: 0 <= c < |s.cons| ==> s.cons[c].pc == CIdle)
    && s.added == [] && s.taken == []
  }

  ghost predicate IsRun(states: seq<State>, actions: seq<Action>) {
    && |states| == |actions| + 1
    && Init(states[0])
    && forall k :: 0 <= k < |actions| ==>
         Enabled(states[k], actions[k]) && states[k + 1] == Step(states[k], actions[k])
  }

  // ------------------------------------------------------------- invariant

  /** A producer that has claimed a free cell and not filled it yet. */
  function ClaimsEmpty(pr: Prod): int { if pr.pc.PWaitMutex? || pr.pc.PWrite? || pr.pc.PAdvance? then 1 else 0 }
  /** A producer that has filled a cell and not announced it yet. */
  function OwesFilled(pr: Prod): int { if pr.pc.PPostMutex? || pr.pc.PPostFilled? then 1 else 0 }
  function ClaimsFilled(co: Cons): int { if co.pc.CWaitMutex? || co.pc.CRead? || co.pc.CAdvance? then 1 else 0 }
  function OwesEmpty(co: Cons): int { if co.pc.CPostMutex? || co.pc.CPostEmpty? then 1 else 0 }
  function InsideP(pr: Prod): int { if pr.pc.PWrite? || pr.pc.PAdvance? || pr.pc.PPostMutex? then 1 else 0 }
  function InsideC(co: Cons): int { if co.pc.CRead? || co.pc.CAdvance? || co.pc.CPostMutex? then 1 else 0 }

  function Unread(s: State): int { |s.added| - |s.taken| }

  ghost predicate Semaphores(s: State) {
    && s.mutex >= 0 && s.emptybuf >= 0 && s.filledbuf >= 0
    && s.mutex + Sum(s.prod, InsideP) + Sum(s.cons, InsideC) == 1
    && s.filledbuf + Sum(s.prod, OwesFilled) + Sum(s.cons, ClaimsFilled) == Unread(s)
    && s.emptybuf + Sum(s.prod, ClaimsEmpty) + Sum(s.cons, OwesEmpty) == BUF_SIZE - Unread(s)
  }

  /** The buffer holds exactly the values added and not yet taken, in order. */
  ghost predicate Queue(s: State) {
    && |s.ring.cells| == BUF_SIZE
    && 0 <= Unread(s) && Holds(s.ring, Unread(s))
    && s.added == s.taken + Contents(s.ring, Unread(s))
    && (forall p :: 0 <= p < |s.prod| && s.prod[p].pc.PAdvance? ==> s.ring.cells[Wrapped(s)] == s.prod[p].data)
    && (forall c :: 0 <= c < |s.cons| && s.cons[c].pc.CAdvance? ==> s.ring.cells[s.ring.front] == s.cons[c].val)
  }

  /** The cell the next value goes to. */
  ghost function Wrapped(s: State): (r: nat)
    requires 0 <= Unread(s) && Holds(s.ring, Unread(s))
    ensures r < |s.ring.cells| && r == s.ring.rear
  {
    s.ring.rear
  }

  ghost predicate Inv(s: State) { Semaphores(s) && Queue(s) }

  lemma InitInv(s: State)
    requires Init(s)
    ensures Inv(s)
  {
    SumConstant(s.prod, InsideP, 0);
    SumConstant(s.cons, InsideC, 0);
    SumConstant(s.prod, OwesFilled, 0);
    SumConstant(s.cons, ClaimsFilled, 0);
    SumConstant(s.prod, ClaimsEmpty, 0);
    SumConstant(s.cons, OwesEmpty, 0);
  }

  lemma ProducerKeepsSemaphores(s: State, p: nat, data: int)
    requires Semaphores(s) && Enabled(s, Produce(p, data))
    ensures Semaphores(Step(s, Produce(p, data)))
  {
    var pr' := Step(s, Produce(p, data)).prod[p];
    SumUpdate(s.prod, p, pr', InsideP);
    SumUpdate(s.prod, p, pr', OwesFilled);
    SumUpdate(s.prod, p, pr', ClaimsEmpty);
  }

  lemma ConsumerKeepsSemaphores(s: State, c: nat)
    requires Semaphores(s) && Enabled(s, Consume(c))
    ensures Semaphores(Step(s, Consume(c)))
  {
    var co' := Step(s, Consume(c)).cons[c];
    SumUpdate(s.cons, c, co', InsideC);
    SumUpdate(s.cons, c, co', ClaimsFilled);
    SumUpdate(s.cons, c, co', OwesEmpty);
  }

  /** The process inside its critical section is alone there. */
  lemma ProducerAlone(s: State, p: nat)
    requires Semaphores(s) && p < |s.prod| && InsideP(s.prod[p]) == 1
    ensures forall q :: 0 <= q < |s.prod| && q != p ==> InsideP(s.prod[q]) == 0
    ensures forall c :: 0 <= c < |s.cons| ==> InsideC(s.cons[c]) == 0
    ensures s.mutex == 0
  {
    SumAtLeast(s.prod, p, InsideP);
    SumNonNegative(s.cons, InsideC);
    forall q | 0 <= q < |s.prod| && q != p ensures InsideP(s.prod[q]) == 0 {
      SumAtLeastTwo(s.prod, if p < q then p else q, if p < q then q else p, InsideP);
    }
    forall c | 0 <= c < |s.cons| ensures InsideC(s.cons[c]) == 0 {
      SumAtLeast(s.cons, c, InsideC);
    }
  }

  lemma ConsumerAlone(s: State, c: nat)
    requires Semaphores(s) && c < |s.cons| && InsideC(s.cons[c]) == 1
    ensures forall d :: 0 <= d < |s.cons| && d != c ==> InsideC(s.cons[d]) == 0
    ensures forall p :: 0 <= p < |s.prod| ==> InsideP(s.prod[p]) == 0
    ensures s.mutex == 0
  {
    SumAtLeast(s.cons, c, InsideC);
    SumNonNegative(s.prod, InsideP);
    forall d | 0 <= d < |s.cons| && d != c ensures InsideC(s.cons[d]) == 0 {
      SumAtLeastTwo(s.cons, if c < d then c else d, if c < d then d else c, InsideC);
    }
    forall p | 0 <= p < |s.prod| ensures InsideP(s.prod[p]) == 0 {
      SumAtLeast(s.prod, p, InsideP);
    }
  }

  /** A claimed cell is free; a claimed value is there. */
  lemma ClaimsAreBacked(s: State)
    requires Semaphores(s)
    ensures forall p :: 0 <= p < |s.prod| && ClaimsEmpty(s.prod[p]) == 1 ==> Unread(s) < BUF_SIZE
    ensures forall c :: 0 <= c < |s.cons| && ClaimsFilled(s.cons[c]) == 1 ==> 0 < Unread(s)
  {
    SumNonNegative(s.cons, OwesEmpty);
    SumNonNegative(s.prod, OwesFilled);
    forall p | 0 <= p < |s.prod| && ClaimsEmpty(s.prod[p]) == 1 ensures Unread(s) < BUF_SIZE {
      SumAtLeast(s.prod, p, ClaimsEmpty);
    }
    forall c | 0 <= c < |s.cons| && ClaimsFilled(s.cons[c]) == 1 ensures 0 < Unread(s) {
      SumAtLeast(s.cons, c, ClaimsFilled);
    }
  }

  // ----------------------------------------------- refinement of an atomic FIFO

  /** One step of the atomic queue that a step of the program implements. */
  datatype Event = Stutter | Enqueue(v: int) | Dequeue(v: int)

  ghost predicate FifoStep(q: seq<int>, q': seq<int>, e: Event) {
    match e
    case Stutter => q' == q
    case Enqueue(v) => |q| < BUF_SIZE && q' == q + [v]
    case Dequeue(v) => 0 < |q| && v == q[0] && q' == q[1..]
  }

  ghost function Abstract(s: State): seq<int>
    requires Queue(s)
  {
    Contents(s.ring, Unread(s))
  }

  ghost function EventOf(s: State, a: Action): Event
    requires Enabled(s, a)
  {
    match a
    case Produce(p, _) => if s.prod[p].pc.PAdvance? then Enqueue(s.prod[p].data) else Stutter
    case Consume(c) => if s.cons[c].pc.CAdvance? then Dequeue(s.cons[c].val) else Stutter
  }

  lemma ProducerRefines(s: State, p: nat, data: int)
    requires Inv(s) && Enabled(s, Produce(p, data))
    ensures var a := Produce(p, data); var s' := Step(s, a);
            Queue(s') && FifoStep(Abstract(s), Abstract(s'), EventOf(s, a))
  {
    var s' := Step(s, Produce(p, data));
    ClaimsAreBacked(s);
    if InsideP(s.prod[p]) == 1 {
      ProducerAlone(s, p);
    }
    if s.prod[p].pc.PWrite? {
      WriteKeepsContents(s.ring, Unread(s), s.prod[p].data);
    } else if s.prod[p].pc.PAdvance? {
      AdvanceAppends(s.ring, Unread(s));
      assert s'.added == s'.taken + Contents(s'.ring, Unread(s'));
    }
  }

  lemma ConsumerRefines(s: State, c: nat)
    requires Inv(s) && Enabled(s, Consume(c))
    ensures var a := Consume(c); var s' := Step(s, a);
            Queue(s') && FifoStep(Abstract(s), Abstract(s'), EventOf(s, a))
  {
    var s' := Step(s, Consume(c));
    ClaimsAreBacked(s);
    if InsideC(s.cons[c]) == 1 {
      ConsumerAlone(s, c);
    }
    if s.cons[c].pc.CAdvance? {
      AdvanceRemoves(s.ring, Unread(s));
      assert s'.added == s'.taken + Contents(s'.ring, Unread(s'));
    }
  }

  /** Every step keeps the invariant and is a step of an atomic FIFO of
      BUF_SIZE values, or leaves the FIFO alone. */
  lemma StepRefinesFifo(s: State, a: Action)
    requires Inv(s) && Enabled(s, a)
    ensures Inv(Step(s, a))
    ensures FifoStep(Abstract(s), Abstract(Step(s, a)), EventOf(s, a))
  {
    match a
    case Produce(p, data) =>
      ProducerKeepsSemaphores(s, p, data);
      ProducerRefines(s, p, data);
    case Consume(c) =>
      ConsumerKeepsSemaphores(s, c);
      ConsumerRefines(s, c);
  }

  lemma {:induction false} RunKeepsInv(states: seq<State>, actions: seq<Action>, k: nat)
    requires IsRun(states, actions) && k < |states|
    ensures Inv(states[k])
  {
    if k == 0 {
      InitInv(states[0]);
    } else {
      RunKeepsInv(states, actions, k - 1);
      StepRefinesFifo(states[k - 1], actions[k - 1]);
    }
  }

  // ----------------------------------------------------------- main results

  ghost predicate RefinesAt(states: seq<State>, actions: seq<Action>, k: nat) {
    && k < |actions| && k + 1 < |states|
    && Inv(states[k]) && Inv(states[k + 1]) && Enabled(states[k], actions[k])
    && FifoStep(Abstract(states[k]), Abstract(states[k + 1]), EventOf(states[k], actions[k]))
  }

  /** Every run of the program is a run of the atomic FIFO: it starts empty and
      every step is the enqueue, dequeue or stutter that EventOf names. */
  lemma RunRefinesFifo(states: seq<State>, actions: seq<Action>)
    requires IsRun(states, actions)
    ensures Inv(states[0]) && Abstract(states[0]) == []
    ensures forall k :: 0 <= k < |actions| ==> RefinesAt(states, actions, k)
    ensures forall k :: 0 <= k < |states| ==> states[k].taken <= states[k].added
  {
    forall k | 0 <= k < |states| ensures Inv(states[k]) {
      RunKeepsInv(states, actions, k);
    }
    forall k | 0 <= k < |actions| ensures RefinesAt(states, actions, k) {
      StepRefinesFifo(states[k], actions[k]);
    }
  }

  /** A process between its first wait and its last post. */
  function BusyP(pr: Prod): int { if pr.pc.PIdle? || pr.pc.PWaitEmpty? then 0 else 1 }
  function BusyC(co: Cons): int { if co.pc.CIdle? || co.pc.CWaitFilled? then 0 else 1 }

  lemma {:induction false} BusyIsClaimsOrOwes(prod: seq<Prod>, cons: seq<Cons>)
    ensures Sum(prod, BusyP) == Sum(prod, ClaimsEmpty) + Sum(prod, OwesFilled)
    ensures Sum(cons, BusyC) == Sum(cons, ClaimsFilled) + Sum(cons, OwesEmpty)
    decreases |prod| + |cons|
  {
    if prod != [] {
      BusyIsClaimsOrOwes(prod[..|prod| - 1], cons);
    } else if cons != [] {
      BusyIsClaimsOrOwes(prod, cons[..|cons| - 1]);
    }
  }

  /** The two counting semaphores and the processes inside add_next or get_next
      always add up to BUF_SIZE. */
  lemma SlotsConserved(states: seq<State>, actions: seq<Action>, k: nat)
    requires IsRun(states, actions) && k < |states|
    ensures var s := states[k];
            s.emptybuf + s.filledbuf + Sum(s.prod, BusyP) + Sum(s.cons, BusyC) == BUF_SIZE
  {
    RunKeepsInv(states, actions, k);
    BusyIsClaimsOrOwes(states[k].prod, states[k].cons);
  }

  ghost predicate CallsOrBlocked(s: State) {
    && (forall p :: 0 <= p < |s.prod| ==> s.prod[p].pc.PIdle? || !Enabled(s, Produce(p, 0)))
    && (forall c :: 0 <= c < |s.cons| ==> s.cons[c].pc.CIdle? || !Enabled(s, Consume(c)))
  }

  /** When no process inside add_next or get_next can move, then either the
      buffer is empty and only consumers wait, or it is full and only producers do. */
  lemma StuckOnlyWhenFullOrEmpty(states: seq<State>, actions: seq<Action>, k: nat)
    requires IsRun(states, actions) && k < |states| && CallsOrBlocked(states[k])
    ensures var s := states[k];
            && Inv(s)
            && (forall p :: 0 <= p < |s.prod| ==>
                  s.prod[p].pc.PIdle? || (s.prod[p].pc.PWaitEmpty? && |Abstract(s)| == BUF_SIZE))
            && (forall c :: 0 <= c < |s.cons| ==>
                  s.cons[c].pc.CIdle? || (s.cons[c].pc.CWaitFilled? && |Abstract(s)| == 0))
  {
    var s := states[k];
    RunKeepsInv(states, actions, k);
    NobodyInside(s);
    SumConstant(s.prod, OwesFilled, 0);
    SumConstant(s.prod, ClaimsEmpty, 0);
    SumConstant(s.cons, ClaimsFilled, 0);
    SumConstant(s.cons, OwesEmpty, 0);
  }

  lemma NobodyInside(s: State)
    requires Inv(s) && CallsOrBlocked(s)
    ensures forall p :: 0 <= p < |s.prod| ==> s.prod[p].pc.PIdle? || (s.prod[p].pc.PWaitEmpty? && s.emptybuf == 0)
    ensures forall c :: 0 <= c < |s.cons| ==> s.cons[c].pc.CIdle? || (s.cons[c].pc.CWaitFilled? && s.filledbuf == 0)
  {
    assert s.ring.rear == Wrapped(s);
    assert s.mutex == 1 by {
      SumConstant(s.prod, InsideP, 0);
      SumConstant(s.cons, InsideC, 0);
    }
    forall p | 0 <= p < |s.prod|
      ensures s.prod[p].pc.PIdle? || (s.prod[p].pc.PWaitEmpty? && s.emptybuf == 0)
    {
      assert s.prod[p].pc.PIdle? || !Enabled(s, Produce(p, 0));
    }
    forall c | 0 <= c < |s.cons|
      ensures s.cons[c].pc.CIdle? || (s.cons[c].pc.CWaitFilled? && s.filledbuf == 0)
    {
      assert s.cons[c].pc.CIdle? || !Enabled(s, Consume(c));
    }
  }
}

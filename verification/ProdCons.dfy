/** The multithreaded producer/consumer program of chapter 16
    (pthread_prodcons.c) as a step relation: one step is one access to the
    shared data, one lock operation or one condition-variable operation of one
    thread, and any thread may take the next step. */
module ProdCons {
  import opened Common
  import opened CircularArray

  const BUFFER_SIZE: nat := 10

  /** Where a producer thread is. A thread in `PTest` .. `PUnlock` owns
      buf_mutex, one in `PDecrement` .. `PUnlockCount` owns prodcount_mutex;
      `PWaiting` is blocked on space_available, and `PWoken` was woken and has
      to get buf_mutex back. */
  datatype ProdPc =
    | PNext | PLock | PTest | PWaiting | PWoken | PAdd | PSignal | PUnlock
    | PLockCount | PDecrement | PTestLast | PSpinTest | PSpinSignal | PUnlockCount
    | PExited

  /** Where a consumer thread is. `CReadCount` is the unprotected read of
      producer_count, `CPreWait` lies between that read and the wait. */
  datatype ConsPc =
    | CLock | CTest | CReadCount | CPreWait | CWaiting | CWoken | CGet | CSignal | CUnlock
    | CExitUnlock | CLockCount | CDecrement | CUnlockCount | CExited

  datatype Prod = Prod(pc: ProdPc, i: nat)
  datatype Receipt = Receipt(consumer: nat, value: int)
  datatype Tid = Producer(p: nat) | Consumer(c: nat)

  /** `added` and `taken` record what went through the buffer. */
  datatype State = State(
    maxItems: nat,
    ring: Ring,
    count: int,
    bufOwner: Option<Tid>,
    prodOwner: Option<nat>,
    consOwner: Option<nat>,
    producerCount: int,
    consumerCount: int,
    prod: seq<Prod>,
    cons: seq<ConsPc>,
    added: seq<int>,
    taken: seq<Receipt>)

  /** A thread takes its next step, or a waiting thread wakes up on its own.
      A signal wakes `target`, which is `None` exactly when no thread waits;
      further threads woken by one signal are spurious wakeups. */
  datatype Action = Run(t: Tid, target: Option<nat>) | Spurious(t: Tid)

  function Item(s: State, p: nat): int
    requires p < |s.prod|
  {
    p * s.maxItems + s.prod[p].i
  }

  function AtP(s: State, p: nat, pc: ProdPc): State
    requires p < |s.prod|
  {
    s.(prod := s.prod[p := s.prod[p].(pc := pc)])
  }

  function AtC(s: State, c: nat, pc: ConsPc): State
    requires c < |s.cons|
  {
    s.(cons := s.cons[c := pc])
  }

  function WakeC(s: State, target: Option<nat>): State
    requires target.Some? ==> target.value < |s.cons|
  {
    if target.Some? then AtC(s, target.value, CWoken) else s
  }

  function WakeP(s: State, target: Option<nat>): State
    requires target.Some? ==> target.value < |s.prod|
  {
    if target.Some? then AtP(s, target.value, PWoken) else s
  }

  ghost predicate SignalsData(s: State, target: Option<nat>) {
    match target
    case Some(c) => c < |s.cons| && s.cons[c] == CWaiting
    case None => forall c :: 0 <= c < |s.cons| ==> s.cons[c] != CWaiting
  }

  ghost predicate SignalsSpace(s: State, target: Option<nat>) {
    match target
    case Some(p) => p < |s.prod| && s.prod[p].pc == PWaiting
    case None => forall p :: 0 <= p < |s.prod| ==> s.prod[p].pc != PWaiting
  }

  ghost predicate ProducerEnabled(s: State, p: nat, target: Option<nat>) {
    && p < |s.prod|
    && match s.prod[p].pc
       case PLock => target.None? && s.bufOwner.None?
       case PWoken => target.None? && s.bufOwner.None?
       case PLockCount => target.None? && s.prodOwner.None?
       case PSignal => SignalsData(s, target)
       case PSpinSignal => SignalsData(s, target)
       case PAdd => target.None? && s.ring.rear < |s.ring.cells|
       case PWaiting => false
       case PExited => false
       case _ => target.None?
  }

  ghost function ProducerStep(s: State, p: nat, target: Option<nat>): State
    requires ProducerEnabled(s, p, target)
  {
    match s.prod[p].pc
    case PNext =>
      var i := s.prod[p].i + 1;
      s.(prod := s.prod[p := Prod(if i <= s.maxItems then PLock else PLockCount, i)])
    case PLock => AtP(s, p, PTest).(bufOwner := Some(Producer(p)))
    case PTest =>
      if s.count == BUFFER_SIZE then AtP(s, p, PWaiting).(bufOwner := None)
      else AtP(s, p, PAdd)
    case PWoken => AtP(s, p, PTest).(bufOwner := Some(Producer(p)))
    case PAdd =>
      var v := Item(s, p);
      AtP(s, p, PSignal).(ring := AdvanceRear(WriteRear(s.ring, v)),
                          count := s.count + 1,
                          added := s.added + [v])
    case PSignal => AtP(WakeC(s, target), p, PUnlock)
    case PUnlock => AtP(s, p, PNext).(bufOwner := None)
    case PLockCount => AtP(s, p, PDecrement).(prodOwner := Some(p))
    case PDecrement => AtP(s, p, PTestLast).(producerCount := s.producerCount - 1)
    case PTestLast => AtP(s, p, if s.producerCount == 0 then PSpinTest else PUnlockCount)
    case PSpinTest => AtP(s, p, if s.consumerCount > 0 then PSpinSignal else PUnlockCount)
    case PSpinSignal => AtP(WakeC(s, target), p, PSpinTest)
    case PUnlockCount => AtP(s, p, PExited).(prodOwner := None)
  }

  ghost predicate ConsumerEnabled(s: State, c: nat, target: Option<nat>) {
    && c < |s.cons|
    && match s.cons[c]
       case CLock => target.None? && s.bufOwner.None?
       case CWoken => target.None? && s.bufOwner.None?
       case CLockCount => target.None? && s.consOwner.None?
       case CSignal => SignalsSpace(s, target)
       case CGet => target.None? && s.ring.front < |s.ring.cells|
       case CWaiting => false
       case CExited => false
       case _ => target.None?
  }

  ghost function ConsumerStep(s: State, c: nat, target: Option<nat>): State
    requires ConsumerEnabled(s, c, target)
  {
    match s.cons[c]
    case CLock => AtC(s, c, CTest).(bufOwner := Some(Consumer(c)))
    case CTest => AtC(s, c, if s.count == 0 then CReadCount else CGet)
    case CReadCount => AtC(s, c, if s.producerCount > 0 then CPreWait else CExitUnlock)
    case CPreWait => AtC(s, c, CWaiting).(bufOwner := None)
    case CWoken => AtC(s, c, CTest).(bufOwner := Some(Consumer(c)))
    case CGet =>
      AtC(s, c, CSignal).(ring := AdvanceFront(s.ring),
                          count := s.count - 1,
                          taken := s.taken + [Receipt(c, s.ring.cells[s.ring.front])])
    case CSignal => AtC(WakeP(s, target), c, CUnlock)
    case CUnlock => AtC(s, c, CLock).(bufOwner := None)
    case CExitUnlock => AtC(s, c, CLockCount).(bufOwner := None)
    case CLockCount => AtC(s, c, CDecrement).(consOwner := Some(c))
    case CDecrement => AtC(s, c, CUnlockCount).(consumerCount := s.consumerCount - 1)
    case CUnlockCount => AtC(s, c, CExited).(consOwner := None)
  }

  ghost predicate Enabled(s: State, a: Action) {
    match a
    case Run(Producer(p), target) => ProducerEnabled(s, p, target)
    case Run(Consumer(c), target) => ConsumerEnabled(s, c, target)
    case Spurious(Producer(p)) => p < |s.prod| && s.prod[p].pc == PWaiting
    case Spurious(Consumer(c)) => c < |s.cons| && s.cons[c] == CWaiting
  }

  ghost function Step(s: State, a: Action): State
    requires Enabled(s, a)
  {
    match a
    case Run(Producer(p), target) => ProducerStep(s, p, target)
    case Run(Consumer(c), target) => ConsumerStep(s, c, target)
    case Spurious(Producer(p)) => AtP(s, p, PWoken)
    case Spurious(Consumer(c)) => AtC(s, c, CWoken)
  }

  /** The state main sets up: every thread created, nothing done. */
  ghost predicate Init(s: State) {
    && |s.prod| >= 1 && |s.cons| >= 1
    && (forall p :: 0 <= p < |s.prod| ==> s.prod[p] == Prod(PNext, 0))
    && (forall c :: 0 <= c < |s.cons| ==> s.cons[c] == CLock)
    && |s.ring.cells| == BUFFER_SIZE && s.ring.front == 0 && s.ring.rear == 0
    && s.count == 0
    && s.bufOwner.None? && s.prodOwner.None? && s.consOwner.None?
    && s.producerCount == |s.prod| && s.consumerCount == |s.cons|
    && s.added == [] && s.taken == []
  }

  /** A run: `states[k + 1]` results from `states[k]` by `actions[k]`. */
  ghost predicate IsRun(states: seq<State>, actions: seq<Action>) {
    && |states| == |actions| + 1
    && Init(states[0])
    && forall k :: 0 <= k < |actions| ==>
         Enabled(states[k], actions[k]) && states[k + 1] == Step(states[k], actions[k])
  }

  ghost predicate AllExited(s: State) {
    && (forall p :: 0 <= p < |s.prod| ==> s.prod[p].pc == PExited)
    && (forall c :: 0 <= c < |s.cons| ==> s.cons[c] == CExited)
  }

  // ---------------------------------------------------------------- locks

  predicate OwnsBufP(pc: ProdPc) { (pc.PTest? || pc.PAdd? || pc.PSignal? || pc.PUnlock?) }
  predicate OwnsBufC(pc: ConsPc) {
    pc.CTest? || pc.CReadCount? || pc.CPreWait? || pc.CGet? || pc.CSignal? || pc.CUnlock? || pc.CExitUnlock?
  }
  predicate OwnsCountP(pc: ProdPc) {
    pc.PDecrement? || pc.PTestLast? || pc.PSpinTest? || pc.PSpinSignal? || pc.PUnlockCount?
  }
  predicate OwnsCountC(pc: ConsPc) { (pc.CDecrement? || pc.CUnlockCount?) }

  /** Each mutex is owned by exactly the thread that is inside its critical section. */
  ghost predicate Locks(s: State) {
    && (forall p :: 0 <= p < |s.prod| ==> (OwnsBufP(s.prod[p].pc) <==> s.bufOwner == Some(Producer(p))))
    && (forall c :: 0 <= c < |s.cons| ==> (OwnsBufC(s.cons[c]) <==> s.bufOwner == Some(Consumer(c))))
    && (forall p :: 0 <= p < |s.prod| ==> (OwnsCountP(s.prod[p].pc) <==> s.prodOwner == Some(p)))
    && (forall c :: 0 <= c < |s.cons| ==> (OwnsCountC(s.cons[c]) <==> s.consOwner == Some(c)))
    && (s.bufOwner.Some? && s.bufOwner.value.Producer? ==> s.bufOwner.value.p < |s.prod|)
    && (s.bufOwner.Some? && s.bufOwner.value.Consumer? ==> s.bufOwner.value.c < |s.cons|)
    && (s.prodOwner.Some? ==> s.prodOwner.value < |s.prod|)
    && (s.consOwner.Some? ==> s.consOwner.value < |s.cons|)
  }

  // --------------------------------------------------------------- buffer

  /** buf_count counts the unread cells, and what a thread found out about it
      under buf_mutex still holds. */
  ghost predicate Buffer(s: State) {
    && |s.ring.cells| == BUFFER_SIZE
    && 0 <= s.count
    && Holds(s.ring, s.count)
    && (forall p :: 0 <= p < |s.prod| && s.prod[p].pc == PAdd ==> s.count < BUFFER_SIZE)
    && (forall c :: 0 <= c < |s.cons| && s.cons[c] == CGet ==> s.count > 0)
    && (forall c :: 0 <= c < |s.cons| && (s.cons[c].CReadCount? || s.cons[c].CPreWait? || s.cons[c].CExitUnlock?) ==>
          s.count == 0)
  }

  // ------------------------------------------------------------- counters

  function Registered(pr: Prod): int {
    if pr.pc.PTestLast? || pr.pc.PSpinTest? || pr.pc.PSpinSignal? || pr.pc.PUnlockCount? || pr.pc.PExited? then 0 else 1
  }

  function RegisteredC(pc: ConsPc): int {
    if pc.CUnlockCount? || pc.CExited? then 0 else 1
  }

  predicate Leaving(pc: ConsPc) {
    (pc.CExitUnlock? || pc.CLockCount? || pc.CDecrement? || pc.CUnlockCount? || pc.CExited?)
  }

  predicate Finishing(pc: ProdPc) { (pc.PTestLast? || pc.PSpinTest? || pc.PSpinSignal?) }

  /** The two counters count the threads that have not signed off; consumers
      leave only when producer_count is 0; and while it is 0 and consumers
      remain, the last producer is in its signalling loop. */
  ghost predicate Counters(s: State) {
    && |s.prod| >= 1 && |s.cons| >= 1
    && s.producerCount == Sum(s.prod, Registered)
    && s.consumerCount == Sum(s.cons, RegisteredC)
    && (forall c :: 0 <= c < |s.cons| && Leaving(s.cons[c]) ==> s.producerCount == 0 && s.count == 0)
    && (forall p :: 0 <= p < |s.prod| && (s.prod[p].pc.PSpinTest? || s.prod[p].pc.PSpinSignal?) ==>
          s.producerCount == 0)
    && (s.producerCount == 0 && s.consumerCount > 0 ==>
          s.prodOwner.Some? && s.prodOwner.value < |s.prod| && Finishing(s.prod[s.prodOwner.value].pc))
  }

  // -------------------------------------------------------------- wakeups

  /** Consumers that will look at buf_count again before they wait. */
  function ComingC(pc: ConsPc): int { if pc.CWoken? || pc.CTest? || pc.CGet? then 1 else 0 }
  function Announcing(pr: Prod): int { if pr.pc == PSignal then 1 else 0 }
  function ComingP(pr: Prod): int { if pr.pc.PWoken? || pr.pc.PTest? || pr.pc.PAdd? then 1 else 0 }
  function AnnouncingC(pc: ConsPc): int { if pc == CSignal then 1 else 0 }

  /** No wakeup is lost. */
  ghost predicate Wakeups(s: State) {
    && (forall c :: 0 <= c < |s.cons| && s.cons[c] == CWaiting ==>
          s.count <= Sum(s.cons, ComingC) + Sum(s.prod, Announcing))
    && (forall p :: 0 <= p < |s.prod| && s.prod[p].pc == PWaiting ==>
          BUFFER_SIZE - s.count <= Sum(s.prod, ComingP) + Sum(s.cons, AnnouncingC))
  }

  ghost predicate Inv(s: State) {
    Locks(s) && Buffer(s) && Counters(s) && Wakeups(s)
  }

  // ---------------------------------------------------- steps keep it all

  /** What a step does to a mutex when its thread was `before` and is `after`
      inside the critical section. */
  predicate Passes<T(==)>(before: bool, after: bool, owner: Option<T>, owner': Option<T>, me: T) {
    if before == after then owner' == owner
    else if after then owner.None? && owner' == Some(me)
    else owner'.None?
  }

  predicate ProducerMoves(s: State, s': State, p: nat) {
    && p < |s.prod| == |s'.prod| && s'.prod == s.prod[p := s'.prod[p]]
    && s'.cons == s.cons && s'.consOwner == s.consOwner
    && Passes(OwnsBufP(s.prod[p].pc), OwnsBufP(s'.prod[p].pc), s.bufOwner, s'.bufOwner, Producer(p))
    && Passes(OwnsCountP(s.prod[p].pc), OwnsCountP(s'.prod[p].pc), s.prodOwner, s'.prodOwner, p)
  }

  predicate ConsumerMoves(s: State, s': State, c: nat) {
    && c < |s.cons| == |s'.cons| && s'.cons == s.cons[c := s'.cons[c]]
    && s'.prod == s.prod && s'.prodOwner == s.prodOwner
    && Passes(OwnsBufC(s.cons[c]), OwnsBufC(s'.cons[c]), s.bufOwner, s'.bufOwner, Consumer(c))
    && Passes(OwnsCountC(s.cons[c]), OwnsCountC(s'.cons[c]), s.consOwner, s'.consOwner, c)
  }

  lemma ProducerMoveKeepsLocks(s: State, s': State, p: nat)
    requires Locks(s) && ProducerMoves(s, s', p)
    ensures Locks(s')
  {
  }

  lemma ConsumerMoveKeepsLocks(s: State, s': State, c: nat)
    requires Locks(s) && ConsumerMoves(s, s', c)
    ensures Locks(s')
  {
  }

  /** A signalling step first moves the thread that it wakes. */
  ghost function AfterDataWake(s: State, p: nat, target: Option<nat>): State
    requires ProducerEnabled(s, p, target)
  {
    if s.prod[p].pc.PSignal? || s.prod[p].pc.PSpinSignal? then WakeC(s, target) else s
  }

  ghost function AfterSpaceWake(s: State, c: nat, target: Option<nat>): State
    requires ConsumerEnabled(s, c, target)
  {
    if s.cons[c].CSignal? then WakeP(s, target) else s
  }

  lemma ProducerStepMoves(s: State, p: nat, target: Option<nat>)
    requires ProducerEnabled(s, p, target)
    requires OwnsBufP(s.prod[p].pc) <==> s.bufOwner == Some(Producer(p))
    requires OwnsCountP(s.prod[p].pc) <==> s.prodOwner == Some(p)
    ensures ProducerMoves(AfterDataWake(s, p, target), ProducerStep(s, p, target), p)
  {
  }

  lemma ConsumerStepMoves(s: State, c: nat, target: Option<nat>)
    requires ConsumerEnabled(s, c, target)
    requires OwnsBufC(s.cons[c]) <==> s.bufOwner == Some(Consumer(c))
    requires OwnsCountC(s.cons[c]) <==> s.consOwner == Some(c)
    ensures ConsumerMoves(AfterSpaceWake(s, c, target), ConsumerStep(s, c, target), c)
  {
  }

  lemma DataWakeKeepsLocks(s: State, p: nat, target: Option<nat>)
    requires Locks(s) && ProducerEnabled(s, p, target)
    ensures Locks(AfterDataWake(s, p, target))
  {
    var s1 := AfterDataWake(s, p, target);
    if s1 != s {
      ConsumerMoveKeepsLocks(s, s1, target.value);
    }
  }

  lemma SpaceWakeKeepsLocks(s: State, c: nat, target: Option<nat>)
    requires Locks(s) && ConsumerEnabled(s, c, target)
    ensures Locks(AfterSpaceWake(s, c, target))
  {
    var s1 := AfterSpaceWake(s, c, target);
    if s1 != s {
      ProducerMoveKeepsLocks(s, s1, target.value);
    }
  }

  lemma ProducerKeepsLocks(s: State, p: nat, target: Option<nat>)
    requires Locks(s) && ProducerEnabled(s, p, target)
    ensures Locks(ProducerStep(s, p, target))
  {
    DataWakeKeepsLocks(s, p, target);
    ProducerStepMoves(s, p, target);
    ProducerMoveKeepsLocks(AfterDataWake(s, p, target), ProducerStep(s, p, target), p);
  }

  lemma ConsumerKeepsLocks(s: State, c: nat, target: Option<nat>)
    requires Locks(s) && ConsumerEnabled(s, c, target)
    ensures Locks(ConsumerStep(s, c, target))
  {
    SpaceWakeKeepsLocks(s, c, target);
    ConsumerStepMoves(s, c, target);
    ConsumerMoveKeepsLocks(AfterSpaceWake(s, c, target), ConsumerStep(s, c, target), c);
  }

  // ----------------------------------------- what one step does to the data

  /** What a step of producer `p` writes, apart from the wakeup. */
  ghost predicate ProducerWrites(s: State, s': State, p: nat) {
    && p < |s.prod| == |s'.prod| && s'.prod == s.prod[p := s'.prod[p]] && s'.cons == s.cons
    && s'.maxItems == s.maxItems && s'.consumerCount == s.consumerCount && s'.taken == s.taken
    && var pc, pc' := s.prod[p].pc, s'.prod[p].pc;
       && (if pc.PAdd? then
             && pc'.PSignal? && s.ring.rear < |s.ring.cells|
             && s'.ring == AdvanceRear(WriteRear(s.ring, Item(s, p)))
             && s'.count == s.count + 1 && s'.added == s.added + [Item(s, p)]
           else
             s'.ring == s.ring && s'.count == s.count && s'.added == s.added)
       && s'.producerCount == s.producerCount - (if pc.PDecrement? then 1 else 0)
  }

  /** What a producer knows when it moves on from one program point to the next. */
  ghost predicate ProducerTurns(s: State, pr: Prod, pr': Prod) {
    var pc, pc' := pr.pc, pr'.pc;
    && (if pc.PDecrement? then pc'.PTestLast? else Registered(pr') == Registered(pr))
    && (pc'.PAdd? ==> pc.PTest? && s.count != BUFFER_SIZE)
    && (pc'.PWaiting? ==> pc.PTest? && s.count == BUFFER_SIZE)
    && (pc'.PSignal? ==> pc.PAdd?)
    && (pc'.PSpinTest? ==> s.producerCount == 0 || pc.PSpinSignal?)
    && (pc'.PSpinSignal? ==> pc.PSpinTest?)
    && (Finishing(pc) && !Finishing(pc') ==> s.producerCount != 0 || s.consumerCount <= 0)
    && (ComingP(pr) > ComingP(pr') ==> pc.PAdd? || pc'.PWaiting?)
  }

  ghost predicate ProducerData(s: State, s': State, p: nat) {
    ProducerWrites(s, s', p) && ProducerTurns(s, s.prod[p], s'.prod[p])
  }

  /** The data changed by consumer `c`, apart from the wakeup. */
  ghost predicate ConsumerData(s: State, s': State, c: nat) {
    && c < |s.cons| == |s'.cons| && s'.cons == s.cons[c := s'.cons[c]] && s'.prod == s.prod
    && s'.maxItems == s.maxItems && s'.producerCount == s.producerCount && s'.added == s.added
    && s'.prodOwner == s.prodOwner
    && var pc, pc' := s.cons[c], s'.cons[c];
       && (if pc.CGet? then
             && pc'.CSignal? && s.ring.front < |s.ring.cells|
             && s'.ring == AdvanceFront(s.ring)
             && s'.count == s.count - 1
             && s'.taken == s.taken + [Receipt(c, s.ring.cells[s.ring.front])]
           else
             s'.ring == s.ring && s'.count == s.count && s'.taken == s.taken)
       && s'.consumerCount == s.consumerCount - (if pc.CDecrement? then 1 else 0)
       && (if pc.CDecrement? then pc'.CUnlockCount? else RegisteredC(pc') == RegisteredC(pc))
       && (pc'.CGet? ==> pc.CTest? && s.count != 0)
       && (pc'.CReadCount? ==> pc.CTest? && s.count == 0)
       && (pc'.CPreWait? ==> pc.CReadCount?)
       && (pc'.CExitUnlock? ==> pc.CReadCount? && s.producerCount <= 0)
       && (pc'.CWaiting? ==> pc.CPreWait?)
       && (pc'.CSignal? ==> pc.CGet?)
       && (Leaving(pc') && !pc'.CExitUnlock? ==> Leaving(pc))
       && (ComingC(pc) > ComingC(pc') ==> pc.CGet? || s.count == 0)
  }

  lemma ProducerStepWrites(s: State, p: nat, target: Option<nat>)
    requires ProducerEnabled(s, p, target)
    ensures ProducerWrites(AfterDataWake(s, p, target), ProducerStep(s, p, target), p)
  {
  }

  lemma ProducerStepTurns(s: State, p: nat, target: Option<nat>)
    requires ProducerEnabled(s, p, target)
    ensures p < |ProducerStep(s, p, target).prod|
    ensures ProducerTurns(s, s.prod[p], ProducerStep(s, p, target).prod[p])
  {
  }

  lemma ProducerStepData(s: State, p: nat, target: Option<nat>)
    requires ProducerEnabled(s, p, target)
    ensures ProducerData(AfterDataWake(s, p, target), ProducerStep(s, p, target), p)
  {
    ProducerStepWrites(s, p, target);
    ProducerStepTurns(s, p, target);
  }

  lemma ConsumerStepData(s: State, c: nat, target: Option<nat>)
    requires ConsumerEnabled(s, c, target)
    ensures ConsumerData(AfterSpaceWake(s, c, target), ConsumerStep(s, c, target), c)
  {
  }

  // ------------------------------------------------------- buffer preserved

  lemma ProducerMoveKeepsBuffer(s: State, s': State, p: nat)
    requires Locks(s) && Buffer(s) && ProducerData(s, s', p)
    ensures Buffer(s')
  {
    if s.prod[p].pc.PAdd? {
      WriteKeepsContents(s.ring, s.count, Item(s, p));
      AdvanceAppends(WriteRear(s.ring, Item(s, p)), s.count);
    }
  }

  lemma ConsumerMoveKeepsBuffer(s: State, s': State, c: nat)
    requires Locks(s) && Buffer(s) && ConsumerData(s, s', c)
    ensures Buffer(s')
  {
    if s.cons[c].CGet? {
      AdvanceRemoves(s.ring, s.count);
    }
  }

  // ----------------------------------------------------- counters preserved

  lemma ProducerMoveKeepsCounters(s: State, s': State, p: nat)
    requires Counters(s) && ProducerData(s, s', p) && ProducerMoves(s, s', p)
    requires Locks(s) && Buffer(s)
    ensures Counters(s')
  {
    SumUpdate(s.prod, p, s'.prod[p], Registered);
    SumAtLeast(s.prod, p, Registered);
  }

  lemma ConsumerMoveKeepsCounters(s: State, s': State, c: nat)
    requires Counters(s) && ConsumerData(s, s', c)
    requires Locks(s) && Buffer(s)
    ensures Counters(s')
  {
    SumUpdate(s.cons, c, s'.cons[c], RegisteredC);
    SumNonNegative(s.prod, Registered);
  }

  // ------------------------------------------------------ wakeups preserved

  /** Waking a waiting consumer leaves one coming consumer to spare, and so
      does a signal that finds none waiting. */
  lemma DataWakeGains(s: State, target: Option<nat>)
    requires Wakeups(s) && SignalsData(s, target)
    ensures var s1 := WakeC(s, target);
            && Wakeups(s1)
            && forall c :: 0 <= c < |s1.cons| && s1.cons[c] == CWaiting ==>
                 s1.count + 1 <= Sum(s1.cons, ComingC) + Sum(s1.prod, Announcing)
  {
    if target.Some? {
      SumUpdate(s.cons, target.value, CWoken, ComingC);
      SumUpdate(s.cons, target.value, CWoken, AnnouncingC);
    }
  }

  lemma SpaceWakeGains(s: State, target: Option<nat>)
    requires Wakeups(s) && SignalsSpace(s, target)
    ensures var s1 := WakeP(s, target);
            && Wakeups(s1)
            && forall p :: 0 <= p < |s1.prod| && s1.prod[p].pc == PWaiting ==>
                 BUFFER_SIZE - s1.count + 1 <= Sum(s1.prod, ComingP) + Sum(s1.cons, AnnouncingC)
  {
    if target.Some? {
      var woken := s.prod[target.value].(pc := PWoken);
      SumUpdate(s.prod, target.value, woken, ComingP);
      SumUpdate(s.prod, target.value, woken, Announcing);
    }
  }

  lemma ProducerMoveKeepsWakeups(s: State, s': State, p: nat)
    requires Wakeups(s) && ProducerData(s, s', p)
    requires s.prod[p].pc.PSignal? ==>
               forall c :: 0 <= c < |s.cons| && s.cons[c] == CWaiting ==>
                 s.count + 1 <= Sum(s.cons, ComingC) + Sum(s.prod, Announcing)
    ensures Wakeups(s')
  {
    SumUpdate(s.prod, p, s'.prod[p], ComingP);
    SumUpdate(s.prod, p, s'.prod[p], Announcing);
    SumNonNegative(s'.prod, ComingP);
    SumNonNegative(s'.cons, AnnouncingC);
  }

  lemma ConsumerMoveKeepsWakeups(s: State, s': State, c: nat)
    requires Wakeups(s) && Buffer(s) && ConsumerData(s, s', c)
    requires s.cons[c].CSignal? ==>
               forall p :: 0 <= p < |s.prod| && s.prod[p].pc == PWaiting ==>
                 BUFFER_SIZE - s.count + 1 <= Sum(s.prod, ComingP) + Sum(s.cons, AnnouncingC)
    ensures Wakeups(s')
  {
    SumUpdate(s.cons, c, s'.cons[c], ComingC);
    SumUpdate(s.cons, c, s'.cons[c], AnnouncingC);
    SumNonNegative(s'.cons, ComingC);
    SumNonNegative(s'.prod, Announcing);
  }

  /** Waking a waiting thread changes nothing the other invariants mention. */
  lemma DataWakeKeepsRest(s: State, target: Option<nat>)
    requires Inv(s) && SignalsData(s, target)
    ensures Buffer(WakeC(s, target)) && Counters(WakeC(s, target))
  {
    if target.Some? {
      SumUpdate(s.cons, target.value, CWoken, RegisteredC);
    }
  }

  lemma SpaceWakeKeepsRest(s: State, target: Option<nat>)
    requires Inv(s) && SignalsSpace(s, target)
    ensures Buffer(WakeP(s, target)) && Counters(WakeP(s, target))
  {
    if target.Some? {
      SumUpdate(s.prod, target.value, s.prod[target.value].(pc := PWoken), Registered);
    }
  }

  // ------------------------------------------------- every step keeps it all

  /** The state in which a signalled consumer is woken and nothing else has happened. */
  lemma DataWakeKeepsInv(s: State, p: nat, target: Option<nat>)
    requires Inv(s) && ProducerEnabled(s, p, target)
    ensures var s1 := AfterDataWake(s, p, target);
            && Inv(s1) && p < |s1.prod|
            && (s1.prod[p].pc.PSignal? ==>
                  forall c :: 0 <= c < |s1.cons| && s1.cons[c] == CWaiting ==>
                    s1.count + 1 <= Sum(s1.cons, ComingC) + Sum(s1.prod, Announcing))
  {
    DataWakeKeepsLocks(s, p, target);
    if s.prod[p].pc.PSignal? || s.prod[p].pc.PSpinSignal? {
      DataWakeGains(s, target);
      DataWakeKeepsRest(s, target);
    }
  }

  lemma ProducerKeepsInv(s: State, p: nat, target: Option<nat>)
    requires Inv(s) && ProducerEnabled(s, p, target)
    ensures Inv(ProducerStep(s, p, target))
  {
    var s1, s' := AfterDataWake(s, p, target), ProducerStep(s, p, target);
    DataWakeKeepsInv(s, p, target);
    ProducerStepMoves(s, p, target);
    ProducerStepData(s, p, target);
    ProducerKeepsLocks(s, p, target);
    ProducerMoveKeepsBuffer(s1, s', p);
    ProducerMoveKeepsCounters(s1, s', p);
    ProducerMoveKeepsWakeups(s1, s', p);
  }

  lemma ConsumerKeepsInv(s: State, c: nat, target: Option<nat>)
    requires Inv(s) && ConsumerEnabled(s, c, target)
    ensures Inv(ConsumerStep(s, c, target))
  {
    var s1, s' := AfterSpaceWake(s, c, target), ConsumerStep(s, c, target);
    SpaceWakeKeepsLocks(s, c, target);
    ConsumerStepData(s, c, target);
    if s.cons[c].CSignal? {
      SpaceWakeGains(s, target);
      SpaceWakeKeepsRest(s, target);
    }
    ConsumerKeepsLocks(s, c, target);
    ConsumerMoveKeepsBuffer(s1, s', c);
    ConsumerMoveKeepsCounters(s1, s', c);
    ConsumerMoveKeepsWakeups(s1, s', c);
  }

  lemma SpuriousKeepsInv(s: State, t: Tid)
    requires Inv(s) && Enabled(s, Spurious(t))
    ensures Inv(Step(s, Spurious(t)))
  {
    var s' := Step(s, Spurious(t));
    match t
    case Producer(p) =>
      ProducerMoveKeepsLocks(s, s', p);
      SpaceWakeGains(s, Some(p));
      SpaceWakeKeepsRest(s, Some(p));
    case Consumer(c) =>
      ConsumerMoveKeepsLocks(s, s', c);
      DataWakeGains(s, Some(c));
      DataWakeKeepsRest(s, Some(c));
  }

  lemma StepKeepsInv(s: State, a: Action)
    requires Inv(s) && Enabled(s, a)
    ensures Inv(Step(s, a))
  {
    match a
    case Run(Producer(p), target) => ProducerKeepsInv(s, p, target);
    case Run(Consumer(c), target) => ConsumerKeepsInv(s, c, target);
    case Spurious(t) => SpuriousKeepsInv(s, t);
  }

  lemma InitInv(s: State)
    requires Init(s)
    ensures Inv(s)
  {
    SumConstant(s.prod, Registered, 1);
    SumConstant(s.cons, RegisteredC, 1);
  }

  /** Every state of every run satisfies the invariant. */
  lemma {:induction false} RunKeepsInv(states: seq<State>, actions: seq<Action>, k: nat)
    requires IsRun(states, actions) && k < |states|
    ensures Inv(states[k])
  {
    if k == 0 {
      InitInv(states[0]);
    } else {
      RunKeepsInv(states, actions, k - 1);
      StepKeepsInv(states[k - 1], actions[k - 1]);
    }
  }

  // ----------------------------------------------------------- main results

  /** While no thread owns buf_mutex, a consumer that waits without having been
      woken faces at most as many items as there are woken consumers, and a
      producer that waits at most as many free cells as there are woken producers. */
  lemma NoLostWakeup(states: seq<State>, actions: seq<Action>, k: nat)
    requires IsRun(states, actions) && k < |states| && states[k].bufOwner.None?
    ensures var s := states[k];
            && (CWaiting in s.cons ==> s.count <= Sum(s.cons, WokenC))
            && (forall p :: 0 <= p < |s.prod| && s.prod[p].pc.PWaiting? ==>
                  BUFFER_SIZE - s.count <= Sum(s.prod, WokenP))
  {
    RunKeepsInv(states, actions, k);
    var s := states[k];
    SumSame(s.cons, ComingC, WokenC);
    SumSame(s.prod, ComingP, WokenP);
    SumConstant(s.prod, Announcing, 0);
    SumConstant(s.cons, AnnouncingC, 0);
  }

  function WokenC(pc: ConsPc): int { if pc.CWoken? then 1 else 0 }
  function WokenP(pr: Prod): int { if pr.pc.PWoken? then 1 else 0 }

  ghost predicate ReadyP(s: State, p: nat) {
    && p < |s.prod| && !s.prod[p].pc.PWaiting? && !s.prod[p].pc.PExited?
    && (s.prod[p].pc.PLock? || s.prod[p].pc.PWoken? ==> s.bufOwner.None?)
    && (s.prod[p].pc.PLockCount? ==> s.prodOwner.None?)
  }

  ghost predicate ReadyC(s: State, c: nat) {
    && c < |s.cons| && !s.cons[c].CWaiting? && !s.cons[c].CExited?
    && (s.cons[c].CLock? || s.cons[c].CWoken? ==> s.bufOwner.None?)
    && (s.cons[c].CLockCount? ==> s.consOwner.None?)
  }

  /** A thread that neither waits for a signal nor has exited can take a step
      unless the mutex it asks for is owned. */
  lemma ProducerCanStep(s: State, p: nat)
    requires Inv(s) && ReadyP(s, p)
    ensures exists target :: ProducerEnabled(s, p, target)
  {
    if (s.prod[p].pc.PSignal? || s.prod[p].pc.PSpinSignal?) && CWaiting in s.cons {
      var c :| 0 <= c < |s.cons| && s.cons[c] == CWaiting;
      assert ProducerEnabled(s, p, Some(c));
    } else {
      assert ProducerEnabled(s, p, None);
    }
  }

  lemma ConsumerCanStep(s: State, c: nat)
    requires Inv(s) && ReadyC(s, c)
    ensures exists target :: ConsumerEnabled(s, c, target)
  {
    if s.cons[c].CSignal? && exists p :: 0 <= p < |s.prod| && s.prod[p].pc == PWaiting {
      var p :| 0 <= p < |s.prod| && s.prod[p].pc == PWaiting;
      assert ConsumerEnabled(s, c, Some(p));
    } else {
      assert ConsumerEnabled(s, c, None);
    }
  }

  ghost predicate CanRun(s: State, t: Tid) {
    exists target :: Enabled(s, Run(t, target))
  }

  /** As long as some thread has not exited, some thread can take a step that is
      not a spurious wakeup: the program never deadlocks. */
  lemma DeadlockFree(states: seq<State>, actions: seq<Action>, k: nat)
    requires IsRun(states, actions) && k < |states| && !AllExited(states[k])
    ensures exists t :: CanRun(states[k], t)
  {
    RunKeepsInv(states, actions, k);
    SomeThreadCanRun(states[k]);
  }

  lemma SomeThreadCanRun(s: State)
    requires Inv(s) && !AllExited(s)
    ensures exists t :: CanRun(s, t)
  {
    var t := Runnable(s);
    match t
    case Producer(p) =>
      ProducerCanStep(s, p);
      var target :| ProducerEnabled(s, p, target);
      assert Enabled(s, Run(t, target));
      assert CanRun(s, t);
    case Consumer(c) =>
      ConsumerCanStep(s, c);
      var target :| ConsumerEnabled(s, c, target);
      assert Enabled(s, Run(t, target));
      assert CanRun(s, t);
  }

  /** The owner of a mutex is ready; and when every thread waits or has exited,
      the invariants leave no thread waiting. */
  lemma Runnable(s: State) returns (t: Tid)
    requires Inv(s) && !AllExited(s)
    ensures match t case Producer(p) => ReadyP(s, p) case Consumer(c) => ReadyC(s, c)
  {
    if s.bufOwner.Some? {
      return s.bufOwner.value;
    } else if s.prodOwner.Some? {
      return Producer(s.prodOwner.value);
    } else if s.consOwner.Some? {
      return Consumer(s.consOwner.value);
    }
    if p :| 0 <= p < |s.prod| && !s.prod[p].pc.PWaiting? && !s.prod[p].pc.PExited? {
      return Producer(p);
    }
    if c :| 0 <= c < |s.cons| && !s.cons[c].CWaiting? && !s.cons[c].CExited? {
      return Consumer(c);
    }
    NobodyIsStranded(s);
    assert false;
  }

  lemma NobodyIsStranded(s: State)
    requires Inv(s)
    requires s.prodOwner.None?
    requires forall p :: 0 <= p < |s.prod| ==> s.prod[p].pc.PWaiting? || s.prod[p].pc.PExited?
    requires forall c :: 0 <= c < |s.cons| ==> s.cons[c].CWaiting? || s.cons[c].CExited?
    ensures AllExited(s)
  {
    SumConstant(s.cons, ComingC, 0);
    SumConstant(s.cons, AnnouncingC, 0);
    SumConstant(s.prod, ComingP, 0);
    SumConstant(s.prod, Announcing, 0);
    if c :| 0 <= c < |s.cons| && s.cons[c].CWaiting? {
      SumAtLeast(s.cons, c, RegisteredC);
      assert s.count == 0 && s.consumerCount > 0;
      assert forall p :: 0 <= p < |s.prod| ==> s.prod[p].pc.PExited?;
      SumConstant(s.prod, Registered, 0);
    }
    if p :| 0 <= p < |s.prod| && s.prod[p].pc.PWaiting? {
      assert false;
    }
  }
}

/** Progress of pthread_prodcons.c. A potential that no scheduling can raise,
    except by a spurious wakeup, bounds the steps of every run. */
module ProdConsProgress {
  import opened Common
  import opened ProdCons
  import opened ProdConsDelivery

  /** The steps that a schedule may repeat for ever: the last producer tests
      consumer_count, and signals although no consumer waits. */
  ghost predicate Idle(s: State, a: Action) {
    && a.Run? && a.t.Producer? && a.t.p < |s.prod|
    && var pc := s.prod[a.t.p].pc;
       (pc.PSpinTest? && s.consumerCount > 0) || (pc.PSpinSignal? && a.target.None?)
  }

  /** Steps a consumer can take before it waits, consumes or leaves; while
      producers remain (`live`) a waiting consumer does nothing until it is woken,
      afterwards it is on its way out. */
  function RankC(pc: ConsPc, live: bool): nat {
    match pc
    case CSignal => 13
    case CUnlock => 10
    case CLock => 9
    case CWoken => 9
    case CTest => 8
    case CReadCount => 7
    case CGet => 7
    case CPreWait => if live then 6 else 11
    case CWaiting => if live then 5 else 10
    case CExitUnlock => 4
    case CLockCount => 3
    case CDecrement => 2
    case CUnlockCount => 1
    case CExited => 0
  }

  function RankPcP(pc: ProdPc): nat {
    match pc
    case PLock => 22
    case PWoken => 22
    case PTest => 21
    case PWaiting => 20
    case PAdd => 20
    case PSignal => 12
    case PUnlock => 7
    case PNext => 6
    case PLockCount => 5
    case PDecrement => 4
    case PTestLast => 3
    case PSpinTest => 2
    case PSpinSignal => 2
    case PUnlockCount => 1
    case PExited => 0
  }

  function RankP(pr: Prod, maxItems: nat): nat {
    RankPcP(pr.pc) + 17 * if pr.i <= maxItems then maxItems - pr.i else 0
  }

  function WeightC(live: bool): ConsPc -> int { pc => RankC(pc, live) }
  function WeightP(maxItems: nat): Prod -> int { pr => RankP(pr, maxItems) }

  /** What the consumers can still do, with their reserve for the last producer's sign-off. */
  ghost function ConsumerPotential(s: State): int {
    Sum(s.cons, WeightC(s.producerCount > 0)) + if s.producerCount > 0 then 5 * |s.cons| else 0
  }

  /** What is left to do: the items in the buffer, the work of every thread, and
      for every consumer a reserve that is spent when the last producer signs off. */
  ghost function Potential(s: State): int {
    7 * s.count + Sum(s.prod, WeightP(s.maxItems)) + ConsumerPotential(s)
  }

  lemma PotentialNonNegative(s: State)
    requires Inv(s)
    ensures Potential(s) >= 0
  {
    SumNonNegative(s.prod, WeightP(s.maxItems));
    SumNonNegative(s.cons, WeightC(s.producerCount > 0));
  }

  /** The rank of a consumer drops with each of its steps; taking an item pays for the next round. */
  lemma ConsumerRankDrops(s: State, c: nat, target: Option<nat>)
    requires ConsumerEnabled(s, c, target)
    requires s.producerCount >= 0
    ensures var s', live := ConsumerStep(s, c, target), s.producerCount > 0;
            && c < |s'.cons| && s'.maxItems == s.maxItems && s'.producerCount == s.producerCount
            && 7 * s'.count + RankC(s'.cons[c], live) <
                 7 * s.count + RankC(s.cons[c], live) - (if s.cons[c].CSignal? then 2 else 0)
  {
  }

  lemma ProducerRankDrops(s: State, p: nat, target: Option<nat>)
    requires ProducerEnabled(s, p, target) && !Idle(s, Run(Producer(p), target))
    requires s.prod[p].i <= s.maxItems + 1
    requires s.prod[p].pc.PNext? ==> s.prod[p].i <= s.maxItems
    ensures var s' := ProducerStep(s, p, target);
            && p < |s'.prod| && s'.maxItems == s.maxItems
            && 7 * s'.count + RankP(s'.prod[p], s.maxItems) <
                 7 * s.count + RankP(s.prod[p], s.maxItems) - (if s.prod[p].pc.PSignal? then 4 else 0)
                 + (if s.prod[p].pc.PSpinSignal? then 1 else 0)
  {
  }

  /** Waking a consumer costs at most 4, and nothing once the producers have left. */
  lemma DataWakeCost(s: State, target: Option<nat>)
    requires SignalsData(s, target)
    ensures var live := s.producerCount > 0;
            Sum(WakeC(s, target).cons, WeightC(live)) <=
              Sum(s.cons, WeightC(live)) + (if target.None? then 0 else if live then 4 else -1)
  {
    if target.Some? {
      SumUpdate(s.cons, target.value, CWoken, WeightC(s.producerCount > 0));
    }
  }

  lemma SpaceWakeCost(s: State, target: Option<nat>)
    requires SignalsSpace(s, target)
    ensures Sum(WakeP(s, target).prod, WeightP(s.maxItems)) <= Sum(s.prod, WeightP(s.maxItems)) + 2
  {
    if target.Some? {
      SumUpdate(s.prod, target.value, s.prod[target.value].(pc := PWoken), WeightP(s.maxItems));
    }
  }

  /** The last producer's sign-off turns waiting consumers into leaving ones. */
  lemma {:induction false} SignOffCost(cons: seq<ConsPc>)
    ensures Sum(cons, WeightC(false)) <= Sum(cons, WeightC(true)) + 5 * |cons|
  {
    if cons != [] {
      SignOffCost(cons[..|cons| - 1]);
    }
  }

  lemma ConsumerSpends(s: State, c: nat, target: Option<nat>)
    requires ConsumerEnabled(s, c, target) && s.producerCount >= 0
    ensures Potential(ConsumerStep(s, c, target)) < Potential(s)
  {
    var s1, s', live := AfterSpaceWake(s, c, target), ConsumerStep(s, c, target), s.producerCount > 0;
    ConsumerRankDrops(s, c, target);
    ConsumerStepData(s, c, target);
    SumUpdate(s.cons, c, s'.cons[c], WeightC(live));
    if s.cons[c].CSignal? {
      SpaceWakeCost(s, target);
    }
  }

  /** The sum over the producers changes by the rank of the one that moves. */
  lemma ProducerSumMoves(s: State, p: nat, target: Option<nat>)
    requires ProducerEnabled(s, p, target)
    ensures var s' := ProducerStep(s, p, target);
            && p < |s'.prod| && s'.maxItems == s.maxItems
            && Sum(s'.prod, WeightP(s.maxItems)) ==
                 Sum(s.prod, WeightP(s.maxItems)) - RankP(s.prod[p], s.maxItems) + RankP(s'.prod[p], s.maxItems)
  {
    var s' := ProducerStep(s, p, target);
    ProducerStepWrites(s, p, target);
    assert s'.prod == s.prod[p := s'.prod[p]];
    SumUpdate(s.prod, p, s'.prod[p], WeightP(s.maxItems));
  }

  /** What a step of a producer costs on the side of the consumers. */
  function SignalCost(pc: ProdPc, target: Option<nat>): int {
    if target.None? then 0 else if pc.PSignal? then 4 else if pc.PSpinSignal? then -1 else 0
  }

  lemma ConsumerSumMoves(s: State, p: nat, target: Option<nat>)
    requires Inv(s) && ProducerEnabled(s, p, target)
    ensures ConsumerPotential(ProducerStep(s, p, target)) <= ConsumerPotential(s) + SignalCost(s.prod[p].pc, target)
  {
    if s.prod[p].pc.PSignal? || s.prod[p].pc.PSpinSignal? {
      DataWakeCost(s, target);
    }
    if s.prod[p].pc.PDecrement? {
      SignOffCost(s.cons);
    }
  }

  /** The producer's rank pays for the signal and, unless the step is idle, for the step. */
  lemma ProducerPays(s: State, p: nat, target: Option<nat>)
    requires ProducerEnabled(s, p, target) && Progressed(s.prod[p], s.maxItems)
    ensures var s', gain := ProducerStep(s, p, target), if Idle(s, Run(Producer(p), target)) then 0 else 1;
            && p < |s'.prod|
            && 7 * s'.count + RankP(s'.prod[p], s.maxItems) + SignalCost(s.prod[p].pc, target) + gain
               <= 7 * s.count + RankP(s.prod[p], s.maxItems)
  {
    if !Idle(s, Run(Producer(p), target)) {
      ProducerRankDrops(s, p, target);
    }
  }

  lemma ProducerSpends(s: State, p: nat, target: Option<nat>)
    requires Inv(s) && Delivery(s) && ProducerEnabled(s, p, target)
    ensures Potential(ProducerStep(s, p, target)) <= Potential(s)
    ensures !Idle(s, Run(Producer(p), target)) ==> Potential(ProducerStep(s, p, target)) < Potential(s)
  {
    assert AddedBy(s, p);
    ProducerSumMoves(s, p, target);
    ConsumerSumMoves(s, p, target);
    ProducerPays(s, p, target);
  }

  lemma SpuriousCost(s: State, t: Tid)
    requires Inv(s) && Enabled(s, Spurious(t))
    ensures Potential(Step(s, Spurious(t))) <= Potential(s) + 4
  {
    match t
    case Producer(p) => SpaceWakeCost(s, Some(p));
    case Consumer(c) => DataWakeCost(s, Some(c));
  }

  /** How many actions are neither spurious wakeups nor idle. */
  ghost function Productive(states: seq<State>, actions: seq<Action>): nat
    requires |states| == |actions| + 1
  {
    if actions == [] then 0
    else
      var k := |actions| - 1;
      Productive(states[..k + 1], actions[..k])
      + if actions[k].Spurious? || Idle(states[k], actions[k]) then 0 else 1
  }

  function SpuriousWakeups(actions: seq<Action>): nat {
    if actions == [] then 0
    else
      var k := |actions| - 1;
      SpuriousWakeups(actions[..k]) + if actions[k].Spurious? then 1 else 0
  }

  lemma {:induction false} RunSpends(states: seq<State>, actions: seq<Action>)
    requires IsRun(states, actions)
    ensures Productive(states, actions) + Potential(states[|actions|]) <=
              Potential(states[0]) + 4 * SpuriousWakeups(actions)
  {
    if actions != [] {
      var k := |actions| - 1;
      assert IsRun(states[..k + 1], actions[..k]);
      RunSpends(states[..k + 1], actions[..k]);
      RunKeepsInv(states, actions, k);
      RunKeepsDelivery(states, actions, k);
      StepSpends(states[k], actions[k]);
    }
  }

  lemma StepSpends(s: State, a: Action)
    requires Inv(s) && Delivery(s) && Enabled(s, a)
    ensures Potential(Step(s, a)) <= Potential(s) + if a.Spurious? then 4 else 0
    ensures !a.Spurious? && !Idle(s, a) ==> Potential(Step(s, a)) < Potential(s)
  {
    match a
    case Run(Producer(p), target) => ProducerSpends(s, p, target);
    case Run(Consumer(c), target) =>
      SumNonNegative(s.prod, Registered);
      ConsumerSpends(s, c, target);
    case Spurious(t) => SpuriousCost(s, t);
  }

  function WorkBound(producers: nat, consumers: nat, maxItems: nat): nat {
    producers * (17 * maxItems + 6) + 14 * consumers
  }

  lemma InitPotential(s: State)
    requires Init(s)
    ensures Potential(s) == WorkBound(|s.prod|, |s.cons|, s.maxItems)
  {
    SumConstant(s.prod, WeightP(s.maxItems), 17 * s.maxItems + 6);
    SumConstant(s.cons, WeightC(true), 9);
  }

  // ----------------------------------------------------------- main results

  /** Whatever the scheduler does, the threads take at most 17 steps for every
      item, 6 more for every producer, 14 for every consumer and 4 for every
      spurious wakeup; everything else is the last producer's idle loop. */
  lemma BoundedWork(states: seq<State>, actions: seq<Action>)
    requires IsRun(states, actions)
    ensures Productive(states, actions) <=
              WorkBound(|states[0].prod|, |states[0].cons|, states[0].maxItems) + 4 * SpuriousWakeups(actions)
  {
    RunSpends(states, actions);
    RunKeepsInv(states, actions, |actions|);
    PotentialNonNegative(states[|actions|]);
    InitPotential(states[0]);
  }

  ghost predicate CanProgress(s: State) {
    exists a :: Enabled(s, a) && a.Run? && !Idle(s, a)
  }

  /** A ready thread other than the signalling last producer makes progress. */
  lemma ReadyMakesProgress(s: State, t: Tid)
    requires Inv(s) && match t case Producer(p) => ReadyP(s, p) case Consumer(c) => ReadyC(s, c)
    requires t.Producer? ==> !s.prod[t.p].pc.PSpinTest? && !s.prod[t.p].pc.PSpinSignal?
    ensures CanProgress(s)
  {
    match t
    case Producer(p) =>
      ProducerCanStep(s, p);
      var target :| ProducerEnabled(s, p, target);
      assert Enabled(s, Run(t, target)) && !Idle(s, Run(t, target));
    case Consumer(c) =>
      ConsumerCanStep(s, c);
      var target :| ConsumerEnabled(s, c, target);
      assert Enabled(s, Run(t, target)) && !Idle(s, Run(t, target));
  }

  /** When only the signalling producer can move, every consumer waits or has exited. */
  lemma OnlySpinning(s: State) returns (p: nat)
    requires Inv(s) && !AllExited(s) && !CanProgress(s)
    ensures p < |s.prod| && (s.prod[p].pc.PSpinTest? || s.prod[p].pc.PSpinSignal?)
    ensures forall c :: 0 <= c < |s.cons| ==> s.cons[c].CWaiting? || s.cons[c].CExited?
  {
    var t := Runnable(s);
    if t.Consumer? || !(s.prod[t.p].pc.PSpinTest? || s.prod[t.p].pc.PSpinSignal?) {
      ReadyMakesProgress(s, t);
    }
    p := t.p;
    if s.bufOwner.Some? {
      ReadyMakesProgress(s, s.bufOwner.value);
    } else if s.consOwner.Some? {
      ReadyMakesProgress(s, Consumer(s.consOwner.value));
    }
    forall c | 0 <= c < |s.cons| ensures s.cons[c].CWaiting? || s.cons[c].CExited? {
      if ReadyC(s, c) {
        ReadyMakesProgress(s, Consumer(c));
      }
    }
  }

  /** The idle loop never holds the program up: unless every thread has exited,
      some thread can take a productive step, if not now then after one idle
      step of the last producer. */
  lemma ProgressIsPossible(states: seq<State>, actions: seq<Action>, k: nat)
    requires IsRun(states, actions) && k < |states| && !AllExited(states[k])
    ensures var s := states[k];
            CanProgress(s) || exists a :: Enabled(s, a) && Idle(s, a) && CanProgress(Step(s, a))
  {
    var s := states[k];
    RunKeepsInv(states, actions, k);
    if !CanProgress(s) {
      var p := OnlySpinning(s);
      IdleStepHelps(s, p);
    }
  }

  lemma IdleStepHelps(s: State, p: nat)
    requires Inv(s)
    requires p < |s.prod| && (s.prod[p].pc.PSpinTest? || s.prod[p].pc.PSpinSignal?)
    requires forall c :: 0 <= c < |s.cons| ==> s.cons[c].CWaiting? || s.cons[c].CExited?
    ensures CanProgress(s) || exists a :: Enabled(s, a) && Idle(s, a) && CanProgress(Step(s, a))
  {
    if c :| 0 <= c < |s.cons| && s.cons[c].CWaiting? {
      SumAtLeast(s.cons, c, RegisteredC);
      SignalHelps(s, p, c);
    } else {
      SumConstant(s.cons, RegisteredC, 0);
      LeavingHelps(s, p);
    }
  }

  /** The signal of the last producer wakes a consumer that waits. */
  lemma SignalHelps(s: State, p: nat, c: nat)
    requires p < |s.prod| && (s.prod[p].pc.PSpinTest? || s.prod[p].pc.PSpinSignal?) && s.consumerCount > 0
    requires c < |s.cons| && s.cons[c].CWaiting?
    ensures CanProgress(s) || exists a :: Enabled(s, a) && Idle(s, a) && CanProgress(Step(s, a))
  {
    var idle, wake := Run(Producer(p), None), Run(Producer(p), Some(c));
    if s.prod[p].pc.PSpinSignal? {
      assert Enabled(s, wake) && !Idle(s, wake);
    } else {
      assert Enabled(s, idle) && Idle(s, idle);
      assert Enabled(Step(s, idle), wake) && !Idle(Step(s, idle), wake);
    }
  }

  /** When all consumers have left, the last producer leaves its loop. */
  lemma LeavingHelps(s: State, p: nat)
    requires p < |s.prod| && (s.prod[p].pc.PSpinTest? || s.prod[p].pc.PSpinSignal?) && s.consumerCount == 0
    requires forall c :: 0 <= c < |s.cons| ==> s.cons[c].CExited?
    ensures CanProgress(s) || exists a :: Enabled(s, a) && Idle(s, a) && CanProgress(Step(s, a))
  {
    var idle := Run(Producer(p), None);
    assert Enabled(s, idle);
    if s.prod[p].pc.PSpinSignal? {
      assert Enabled(Step(s, idle), idle) && !Idle(Step(s, idle), idle);
    } else {
      assert !Idle(s, idle);
    }
  }

  // ----------------------------------------------------------- the last wait

  ghost predicate EntersWait(s: State, a: Action, c: nat) {
    a.Run? && a.t == Consumer(c) && c < |s.cons| && s.cons[c].CPreWait?
  }

  /** How often consumer c enters pthread_cond_wait in the steps j, ..., k - 1. */
  ghost function Waits(states: seq<State>, actions: seq<Action>, c: nat, j: nat, k: nat): nat
    requires |states| == |actions| + 1 && j <= k <= |actions|
  {
    if j == k then 0
    else Waits(states, actions, c, j, k - 1) + if EntersWait(states[k - 1], actions[k - 1], c) then 1 else 0
  }

  lemma ConsumerAfterSignOff(s: State, b: nat, target: Option<nat>, c: nat)
    requires ConsumerEnabled(s, b, target) && s.producerCount <= 0 && c < |s.cons|
    ensures var s' := ConsumerStep(s, b, target);
            && s'.producerCount <= 0 && |s'.cons| == |s.cons|
            && (s'.cons[c].CPreWait? ==> s.cons[c].CPreWait? && b != c)
  {
  }

  lemma ProducerAfterSignOff(s: State, p: nat, target: Option<nat>, c: nat)
    requires ProducerEnabled(s, p, target) && s.producerCount <= 0 && c < |s.cons|
    ensures var s' := ProducerStep(s, p, target);
            && s'.producerCount <= 0 && |s'.cons| == |s.cons| && (s'.cons[c].CPreWait? ==> s.cons[c].CPreWait?)
  {
  }

  lemma {:induction false} SignedOffStays(states: seq<State>, actions: seq<Action>, c: nat, j: nat, k: nat)
    requires IsRun(states, actions) && j <= k <= |actions|
    requires states[j].producerCount == 0 && c < |states[j].cons|
    ensures states[k].producerCount <= 0 && c < |states[k].cons|
    ensures Waits(states, actions, c, j, k) + (if states[k].cons[c].CPreWait? then 1 else 0)
            <= if states[j].cons[c].CPreWait? then 1 else 0
    decreases k
  {
    if j < k {
      SignedOffStays(states, actions, c, j, k - 1);
      StepAfterSignOff(states[k - 1], actions[k - 1], c);
    }
  }

  lemma StepAfterSignOff(s: State, a: Action, c: nat)
    requires Enabled(s, a) && s.producerCount <= 0 && c < |s.cons|
    ensures var s' := Step(s, a);
            && s'.producerCount <= 0 && |s'.cons| == |s.cons|
            && (s'.cons[c].CPreWait? ==> s.cons[c].CPreWait? && !EntersWait(s, a, c))
  {
    match a
    case Run(Producer(p), target) => ProducerAfterSignOff(s, p, target, c);
    case Run(Consumer(b), target) => ConsumerAfterSignOff(s, b, target, c);
    case Spurious(t) => SpuriousAfterSignOff(s, t, c);
  }

  lemma SpuriousAfterSignOff(s: State, t: Tid, c: nat)
    requires Enabled(s, Spurious(t)) && s.producerCount <= 0 && c < |s.cons|
    ensures var s' := Step(s, Spurious(t));
            && s'.producerCount <= 0 && |s'.cons| == |s.cons| && (s'.cons[c].CPreWait? ==> s.cons[c].CPreWait?)
  {
  }

  /** Once producer_count is 0, a consumer enters pthread_cond_wait at most once
      more, and only if it read the count before it became 0. */
  lemma AtMostOneMoreWait(states: seq<State>, actions: seq<Action>, c: nat, j: nat, k: nat)
    requires IsRun(states, actions) && j <= k <= |actions|
    requires states[j].producerCount == 0 && c < |states[j].cons|
    ensures Waits(states, actions, c, j, k) <= 1
    ensures Waits(states, actions, c, j, k) == 1 ==> states[j].cons[c].CPreWait?
  {
    SignedOffStays(states, actions, c, j, k);
  }
}

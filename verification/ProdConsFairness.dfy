/** Every thread of pthread_prodcons.c finishes: an infinite run in which no
    thread is held back for ever, and in which spurious wakeups come to an end,
    reaches a state in which all threads have exited. */
module ProdConsFairness {
  import opened Common
  import opened ProdCons
  import opened ProdConsProgress

  /** An infinite run; when all threads have exited, nothing happens any more. */
  ghost predicate NextOk(states: nat -> State, actions: nat -> Action, k: nat) {
    if AllExited(states(k)) then states(k + 1) == states(k)
    else Enabled(states(k), actions(k)) && states(k + 1) == Step(states(k), actions(k))
  }

  ghost predicate IsEndless(states: nat -> State, actions: nat -> Action) {
    Init(states(0)) && forall k: nat :: NextOk(states, actions, k)
  }

  ghost predicate StaysRunnable(states: nat -> State, t: Tid, k: nat) {
    forall j: nat :: k <= j ==> CanRun(states(j), t)
  }

  ghost predicate RunsFrom(actions: nat -> Action, t: Tid, k: nat) {
    exists j: nat :: k <= j && actions(j).Run? && actions(j).t == t
  }

  /** A thread that stays runnable gets to run. */
  ghost predicate Fair(states: nat -> State, actions: nat -> Action) {
    forall t, k: nat :: StaysRunnable(states, t, k) ==> RunsFrom(actions, t, k)
  }

  /** No wakeup is spurious from moment `quiet` on. */
  ghost predicate QuietFrom(actions: nat -> Action, quiet: nat) {
    forall k: nat :: quiet <= k ==> !actions(k).Spurious?
  }

  // ------------------------------------------------------------- finite beginnings

  ghost predicate NobodyDone(states: nat -> State) {
    forall k: nat :: !AllExited(states(k))
  }

  ghost function States(states: nat -> State, k: nat): seq<State> {
    seq(k + 1, i requires 0 <= i <= k => states(i))
  }

  ghost function Actions(actions: nat -> Action, k: nat): seq<Action> {
    seq(k, i requires 0 <= i < k => actions(i))
  }

  lemma BeginningIsRun(states: nat -> State, actions: nat -> Action, k: nat)
    requires IsEndless(states, actions) && NobodyDone(states)
    ensures IsRun(States(states, k), Actions(actions, k))
    ensures Inv(states(k))
  {
    var ss, aa := States(states, k), Actions(actions, k);
    forall i | 0 <= i < |aa| ensures Enabled(ss[i], aa[i]) && ss[i + 1] == Step(ss[i], aa[i]) {
      assert NextOk(states, actions, i) && !AllExited(states(i));
    }
    assert ss[0] == states(0) && ss[k] == states(k);
    RunKeepsInv(ss, aa, k);
  }

  ghost function Work(states: nat -> State, actions: nat -> Action, k: nat): nat {
    Productive(States(states, k), Actions(actions, k))
  }

  lemma WorkGrows(states: nat -> State, actions: nat -> Action, k: nat)
    ensures Work(states, actions, k + 1)
         == Work(states, actions, k) + if actions(k).Spurious? || Idle(states(k), actions(k)) then 0 else 1
  {
    assert States(states, k + 1)[..k + 1] == States(states, k);
    assert Actions(actions, k + 1)[..k] == Actions(actions, k);
  }

  lemma {:induction false} WorkNeverFalls(states: nat -> State, actions: nat -> Action, j: nat, k: nat)
    requires j <= k
    ensures Work(states, actions, j) <= Work(states, actions, k)
    decreases k
  {
    if j < k {
      WorkNeverFalls(states, actions, j, k - 1);
      WorkGrows(states, actions, k - 1);
    }
  }

  lemma {:induction false} FewSpurious(actions: nat -> Action, quiet: nat, k: nat)
    requires QuietFrom(actions, quiet)
    ensures SpuriousWakeups(Actions(actions, k)) <= quiet
    ensures k <= quiet ==> SpuriousWakeups(Actions(actions, k)) <= k
  {
    if k > 0 {
      FewSpurious(actions, quiet, k - 1);
      assert Actions(actions, k)[..k - 1] == Actions(actions, k - 1);
      assert actions(k - 1).Spurious? ==> k - 1 < quiet;
    }
  }

  // ------------------------------------------------------------- the idle loop

  ghost predicate Spins(pr: Prod) {
    pr.pc.PSpinTest? || pr.pc.PSpinSignal?
  }

  /** The state with the signalling producer at the given place. */
  ghost function SpinningAt(s: State, p: nat, pc: ProdPc): State
    requires p < |s.prod|
  {
    AtP(s, p, pc)
  }

  /** An idle step only moves the signalling producer around its loop. */
  lemma IdleStep(s: State, a: Action) returns (p: nat)
    requires Inv(s) && Enabled(s, a) && Idle(s, a)
    ensures a.Run? && a.t == Producer(p) && p < |s.prod| && Spins(s.prod[p]) && s.prodOwner == Some(p)
    ensures if s.prod[p].pc.PSpinTest?
            then s.consumerCount > 0 && Step(s, a) == SpinningAt(s, p, PSpinSignal)
            else Step(s, a) == SpinningAt(s, p, PSpinTest) && CWaiting !in s.cons
  {
    p := a.t.p;
  }

  /** Nothing but where the producer is in its loop tells the two states apart. */
  ghost predicate SameButSpin(s: State, s': State, p: nat) {
    && p < |s.prod| && Spins(s.prod[p]) && |s'.prod| == |s.prod| && Spins(s'.prod[p])
    && s' == SpinningAt(s, p, s'.prod[p].pc)
  }

  lemma SpinAgain(s: State, s': State, p: nat, pc: ProdPc)
    requires SameButSpin(s, s', p) && (pc.PSpinTest? || pc.PSpinSignal?)
    ensures SameButSpin(s, SpinningAt(s', p, pc), p)
  {
    assert s'.prod[p := s'.prod[p].(pc := pc)] == s.prod[p := s.prod[p].(pc := pc)];
  }

  /** Other threads can run in one of the states exactly if they can in the other. */
  lemma OthersCanStillRun(s: State, s': State, p: nat, t: Tid)
    requires SameButSpin(s, s', p) && t != Producer(p) && CanRun(s, t)
    ensures CanRun(s', t)
  {
    var target :| Enabled(s, Run(t, target));
    assert forall q :: 0 <= q < |s.prod| && q != p ==> s'.prod[q] == s.prod[q];
    assert Enabled(s', Run(t, target));
  }

  /** While the last producer signals, no consumer waits and not all have left,
      some other thread can run. */
  lemma SomeoneElse(s: State, p: nat) returns (t: Tid)
    requires Inv(s) && p < |s.prod| && Spins(s.prod[p]) && s.consumerCount > 0 && CWaiting !in s.cons
    ensures t != Producer(p) && CanRun(s, t)
  {
    if s.bufOwner.Some? {
      t := s.bufOwner.value;
    } else if s.consOwner.Some? {
      t := Consumer(s.consOwner.value);
    } else {
      if forall c :: 0 <= c < |s.cons| ==> s.cons[c].CExited? {
        SumConstant(s.cons, RegisteredC, 0);
      }
      var c :| 0 <= c < |s.cons| && !s.cons[c].CExited?;
      t := Consumer(c);
    }
    ReadyCanRun(s, t);
  }

  lemma ReadyCanRun(s: State, t: Tid)
    requires Inv(s) && match t case Producer(p) => ReadyP(s, p) case Consumer(c) => ReadyC(s, c)
    ensures CanRun(s, t)
  {
    match t
    case Producer(p) =>
      ProducerCanStep(s, p);
      var target :| ProducerEnabled(s, p, target);
      assert Enabled(s, Run(t, target));
    case Consumer(c) =>
      ConsumerCanStep(s, c);
      var target :| ConsumerEnabled(s, c, target);
      assert Enabled(s, Run(t, target));
  }

  /** All steps from moment n to moment k are idle. */
  ghost predicate IdleBetween(states: nat -> State, actions: nat -> Action, n: nat, k: nat) {
    forall j: nat :: n <= j < k ==> Idle(states(j), actions(j))
  }

  lemma IdleStepAt(states: nat -> State, actions: nat -> Action, k: nat) returns (p: nat)
    requires IsEndless(states, actions) && NobodyDone(states) && Idle(states(k), actions(k))
    ensures actions(k).Run? && actions(k).t == Producer(p) && p < |states(k).prod| && Spins(states(k).prod[p])
    ensures states(k).prodOwner == Some(p)
    ensures SameButSpin(states(k), states(k + 1), p)
  {
    BeginningIsRun(states, actions, k);
    assert NextOk(states, actions, k) && !AllExited(states(k));
    p := IdleStep(states(k), actions(k));
  }

  lemma SameButSpinChains(s: State, s': State, s'': State, p: nat)
    requires SameButSpin(s, s', p) && SameButSpin(s', s'', p)
    ensures SameButSpin(s, s'', p) && s''.prodOwner == s.prodOwner
  {
    SpinAgain(s, s', p, s''.prod[p].pc);
  }

  lemma SameAsItself(s: State, p: nat)
    requires p < |s.prod| && Spins(s.prod[p])
    ensures SameButSpin(s, s, p)
  {
    assert s.prod[p := s.prod[p]] == s.prod;
  }

  /** Idle steps are all steps of one producer and change nothing else. */
  lemma {:induction false} OneSpinner(states: nat -> State, actions: nat -> Action, p: nat, n: nat, k: nat)
    requires IsEndless(states, actions) && NobodyDone(states) && n <= k
    requires IdleBetween(states, actions, n, k + 1)
    requires actions(n).t == Producer(p)
    ensures SameButSpin(states(n), states(k), p) && states(k).prodOwner == Some(p)
    ensures actions(k).Run? && actions(k).t == Producer(p)
    decreases k
  {
    assert Idle(states(k), actions(k));
    var q := IdleStepAt(states, actions, k);
    if n < k {
      OneSpinner(states, actions, p, n, k - 1);
      assert Idle(states(k - 1), actions(k - 1));
      var r := IdleStepAt(states, actions, k - 1);
      SameButSpinChains(states(n), states(k - 1), states(k), p);
    } else {
      SameAsItself(states(n), p);
    }
  }

  /** In two idle steps the producer has seen that consumers remain and that none waits. */
  lemma NobodyWaits(states: nat -> State, actions: nat -> Action, p: nat, n: nat)
    requires IsEndless(states, actions) && NobodyDone(states)
    requires IdleBetween(states, actions, n, n + 2) && actions(n).t == Producer(p)
    ensures Inv(states(n)) && p < |states(n).prod| && Spins(states(n).prod[p])
    ensures states(n).consumerCount > 0 && CWaiting !in states(n).cons
  {
    OneSpinner(states, actions, p, n, n + 1);
    BeginningIsRun(states, actions, n);
    BeginningIsRun(states, actions, n + 1);
    assert NextOk(states, actions, n) && NextOk(states, actions, n + 1);
    assert Idle(states(n), actions(n)) && Idle(states(n + 1), actions(n + 1));
    var q := IdleStep(states(n), actions(n));
    var r := IdleStep(states(n + 1), actions(n + 1));
  }

  /** With a fair scheduler the idle loop is always interrupted. */
  lemma IdleLoopEnds(states: nat -> State, actions: nat -> Action, n: nat) returns (k: nat)
    requires IsEndless(states, actions) && Fair(states, actions) && NobodyDone(states)
    ensures n <= k && !Idle(states(k), actions(k))
  {
    if k' :| n <= k' && !Idle(states(k'), actions(k')) {
      return k';
    }
    var p := actions(n).t.p;
    NobodyWaits(states, actions, p, n);
    var t := SomeoneElse(states(n), p);
    forall j: nat | n <= j ensures CanRun(states(j), t) {
      OneSpinner(states, actions, p, n, j);
      OthersCanStillRun(states(n), states(j), p, t);
    }
    assert StaysRunnable(states, t, n);
    assert RunsFrom(actions, t, n);
    k :| n <= k && actions(k).Run? && actions(k).t == t;
    OneSpinner(states, actions, p, n, k);
  }

  /** Any amount of work gets done, unless all threads exit before. */
  lemma {:induction false} WorkGoesOn(states: nat -> State, actions: nat -> Action, quiet: nat, m: nat) returns (k: nat)
    requires IsEndless(states, actions) && Fair(states, actions) && QuietFrom(actions, quiet)
    ensures AllExited(states(k)) || (Work(states, actions, k) >= m && k >= quiet)
  {
    if x: nat :| AllExited(states(x)) {
      return x;
    }
    k := quiet;
    if m > 0 {
      var j := WorkGoesOn(states, actions, quiet, m - 1);
      var i := IdleLoopEnds(states, actions, j);
      WorkNeverFalls(states, actions, j, i);
      WorkGrows(states, actions, i);
      k := i + 1;
    }
  }

  /** Under every fair schedule with finitely many spurious wakeups all producers
      and all consumers exit. */
  lemma EverybodyFinishes(states: nat -> State, actions: nat -> Action, quiet: nat)
    requires IsEndless(states, actions) && Fair(states, actions) && QuietFrom(actions, quiet)
    ensures exists k: nat :: AllExited(states(k))
  {
    var s := states(0);
    var bound := WorkBound(|s.prod|, |s.cons|, s.maxItems) + 4 * quiet;
    var k := WorkGoesOn(states, actions, quiet, bound + 1);
    if NobodyDone(states) {
      BeginningIsRun(states, actions, k);
      BoundedWork(States(states, k), Actions(actions, k));
      FewSpurious(actions, quiet, k);
    }
  }
}

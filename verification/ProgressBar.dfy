/** threaded_progressbar.c: threads add random shares of work to one total and
    record their own shares, with a loop test that takes no lock. */
module ProgressBar {

  const MIN_SIMULATION_SECS: real := 10.0

  /** Where a thread is in long_running_task: at its unlocked test, about to lock,
      about to add, about to cut the excess, about to unlock, sleeping, ended. */
  datatype Pc = Test | Lock | Add | Cut | Unlock | Sleep | Exited

  datatype Thread = Thread(pc: Pc, work: real, computed: real)

  /** `holder` is the thread that holds frac_mutex, or -1. */
  datatype State = State(fraction: real, holder: int, threads: seq<Thread>)

  ghost function Rate(n: nat): real
    requires n > 0
  {
    1.0 / (MIN_SIMULATION_SECS * n as real)
  }

  /** Thread i's next step; `draw` is the work that random() makes it do. */
  ghost predicate Enabled(s: State, i: nat, draw: real) {
    && i < |s.threads|
    && match s.threads[i].pc
       case Lock => s.holder == -1
       case Add => 0.0 <= draw <= Rate(|s.threads|)
       case Exited => false
       case _ => true
  }

  ghost function Step(s: State, i: nat, draw: real): State
    requires Enabled(s, i, draw)
  {
    var t := s.threads[i];
    match t.pc
    case Test => s.(threads := s.threads[i := t.(pc := if s.fraction < 1.0 then Lock else Exited)])
    case Lock => s.(holder := i, threads := s.threads[i := t.(pc := Add)])
    case Add => s.(fraction := s.fraction + draw, threads := s.threads[i := t.(pc := Cut, work := draw)])
    case Cut =>
      if s.fraction > 1.0 then
        s.(fraction := 1.0, threads := s.threads[i := t.(pc := Unlock, work := t.work - (s.fraction - 1.0))])
      else s.(threads := s.threads[i := t.(pc := Unlock)])
    case Unlock => s.(holder := -1, threads := s.threads[i := t.(pc := Sleep)])
    case Sleep => s.(threads := s.threads[i := t.(pc := Test, computed := t.computed + t.work)])
  }

  ghost predicate Init(s: State) {
    && |s.threads| > 0 && s.fraction == 0.0 && s.holder == -1
    && forall i :: 0 <= i < |s.threads| ==> s.threads[i].pc == Test && s.threads[i].computed == 0.0
  }

  ghost predicate IsRun(states: seq<State>, who: seq<nat>, draws: seq<real>) {
    && |states| == |who| + 1 && |draws| == |who|
    && Init(states[0])
    && forall k :: 0 <= k < |who| ==>
         Enabled(states[k], who[k], draws[k]) && states[k + 1] == Step(states[k], who[k], draws[k])
  }

  /** Work added to the total but not yet recorded. */
  function Unrecorded(t: Thread): real {
    if t.pc.Cut? || t.pc.Unlock? || t.pc.Sleep? then t.work else 0.0
  }

  function Computed(t: Thread): real {
    t.computed
  }

  function Sum(threads: seq<Thread>, w: Thread -> real): real {
    if threads == [] then 0.0 else Sum(threads[..|threads| - 1], w) + w(threads[|threads| - 1])
  }

  function Recorded(threads: seq<Thread>): real {
    Sum(threads, Computed)
  }

  function Pending(threads: seq<Thread>): real {
    Sum(threads, Unrecorded)
  }

  lemma {:induction false} SumUpdate(threads: seq<Thread>, i: nat, t: Thread, w: Thread -> real)
    requires i < |threads|
    ensures Sum(threads[i := t], w) == Sum(threads, w) - w(threads[i]) + w(t)
  {
    var last := |threads| - 1;
    if i == last {
      assert threads[i := t][..last] == threads[..last];
    } else {
      SumUpdate(threads[..last], i, t, w);
      assert threads[i := t][..last] == threads[..last][i := t];
    }
  }

  lemma {:induction false} SumZero(threads: seq<Thread>, w: Thread -> real)
    requires forall i :: 0 <= i < |threads| ==> w(threads[i]) == 0.0
    ensures Sum(threads, w) == 0.0
  {
    if threads != [] {
      SumZero(threads[..|threads| - 1], w);
    }
  }

  // ------------------------------------------------------------- invariant

  ghost predicate Locks(s: State) {
    && -1 <= s.holder < |s.threads|
    && forall i :: 0 <= i < |s.threads| ==>
         (s.threads[i].pc.Add? || s.threads[i].pc.Cut? || s.threads[i].pc.Unlock? <==> s.holder == i)
  }

  /** The total is at most 1, except between the addition and the cut. */
  ghost predicate Bounds(s: State)
    requires Locks(s)
  {
    if s.holder >= 0 && s.threads[s.holder].pc.Cut?
    then 0.0 <= s.fraction - s.threads[s.holder].work <= 1.0
    else 0.0 <= s.fraction <= 1.0
  }

  ghost predicate Shares(s: State) {
    && (forall i :: 0 <= i < |s.threads| ==>
          0.0 <= s.threads[i].computed && 0.0 <= Unrecorded(s.threads[i]) <= Rate(|s.threads|)
          && (s.threads[i].pc.Exited? ==> s.fraction >= 1.0))
    && s.fraction == Recorded(s.threads) + Pending(s.threads)
  }

  ghost predicate Inv(s: State) {
    |s.threads| > 0 && Locks(s) && Bounds(s) && Shares(s)
  }

  lemma StepKeepsInv(s: State, i: nat, draw: real)
    requires Inv(s) && Enabled(s, i, draw)
    ensures Inv(Step(s, i, draw)) && |Step(s, i, draw).threads| == |s.threads|
  {
    var s' := Step(s, i, draw);
    SumUpdate(s.threads, i, s'.threads[i], Computed);
    SumUpdate(s.threads, i, s'.threads[i], Unrecorded);
    assert s'.threads == s.threads[i := s'.threads[i]];
  }

  lemma {:induction false} RunKeepsInv(states: seq<State>, who: seq<nat>, draws: seq<real>, k: nat)
    requires IsRun(states, who, draws) && k < |states|
    ensures Inv(states[k]) && |states[k].threads| == |states[0].threads|
  {
    if k == 0 {
      SumZero(states[0].threads, Computed);
      SumZero(states[0].threads, Unrecorded);
    } else {
      RunKeepsInv(states, who, draws, k - 1);
      StepKeepsInv(states[k - 1], who[k - 1], draws[k - 1]);
    }
  }

  // ------------------------------------------------------------- results

  /** The total is always what the threads recorded plus what they still have to record. */
  lemma WorkIsConserved(states: seq<State>, who: seq<nat>, draws: seq<real>, k: nat)
    requires IsRun(states, who, draws) && k < |states|
    ensures states[k].fraction == Recorded(states[k].threads) + Pending(states[k].threads)
    ensures forall i :: 0 <= i < |states[k].threads| ==>
              0.0 <= states[k].threads[i].computed && 0.0 <= Unrecorded(states[k].threads[i])
  {
    RunKeepsInv(states, who, draws, k);
  }

  /** While nobody holds the lock the total is at most 1, and it is never above 1
      unless the thread that holds the lock is about to cut the excess. */
  lemma ExcessOnlyBeforeCut(states: seq<State>, who: seq<nat>, draws: seq<real>, k: nat)
    requires IsRun(states, who, draws) && k < |states|
    ensures
      var s := states[k];
      && |s.threads| > 0 && 0.0 <= s.fraction <= 1.0 + Rate(|s.threads|)
      && (s.holder == -1 ==> s.fraction <= 1.0)
      && (s.fraction > 1.0 ==> 0 <= s.holder < |s.threads| && s.threads[s.holder].pc.Cut?)
  {
    RunKeepsInv(states, who, draws, k);
    var s := states[k];
    if s.holder >= 0 && s.threads[s.holder].pc.Cut? {
      assert Unrecorded(s.threads[s.holder]) == s.threads[s.holder].work;
    }
  }

  /** What the lock protects only grows: from one moment at which nobody holds
      the lock to a later one the total never falls, and once at 1 it stays there. */
  lemma {:induction false} TotalGrows(states: seq<State>, who: seq<nat>, draws: seq<real>, j: nat, k: nat)
    requires IsRun(states, who, draws) && j <= k < |states|
    requires states[j].fraction <= 1.0
    ensures states[j].fraction <= states[k].fraction
    decreases k
  {
    if j < k {
      TotalGrows(states, who, draws, j, k - 1);
      RunKeepsInv(states, who, draws, k - 1);
    }
  }

  /** However many threads passed the test before the total reached 1, the
      recorded shares are exactly 1 in the end. */
  lemma SharesAddUpToOne(states: seq<State>, who: seq<nat>, draws: seq<real>, k: nat)
    requires IsRun(states, who, draws) && k < |states|
    requires forall i :: 0 <= i < |states[k].threads| ==> states[k].threads[i].pc.Exited?
    ensures states[k].fraction == 1.0 && Recorded(states[k].threads) == 1.0
  {
    RunKeepsInv(states, who, draws, k);
    var s := states[k];
    assert s.threads[0].pc.Exited?;
    SumZero(s.threads, Unrecorded);
  }

  /** As long as a thread has not ended, some thread can take a step. */
  lemma NeverStuck(states: seq<State>, who: seq<nat>, draws: seq<real>, k: nat, i: nat)
    requires IsRun(states, who, draws) && k < |states|
    requires i < |states[k].threads| && !states[k].threads[i].pc.Exited?
    ensures exists j: nat :: Enabled(states[k], j, 0.0)
  {
    RunKeepsInv(states, who, draws, k);
    var s := states[k];
    assert Rate(|s.threads|) >= 0.0;
    if s.holder == -1 {
      assert Enabled(s, i, 0.0);
    } else {
      assert Enabled(s, s.holder, 0.0);
    }
  }

  // ------------------------------------------------------------- the end

  /** A thread ends at its test exactly if the total that it sees there is at least
      1, and otherwise goes on to lock. */
  lemma ExitsIff(states: seq<State>, who: seq<nat>, draws: seq<real>, k: nat)
    requires IsRun(states, who, draws) && k < |who| && states[k].threads[who[k]].pc.Test?
    ensures
      var i := who[k];
      && i < |states[k + 1].threads|
      && (states[k + 1].threads[i].pc.Exited? <==> states[k].fraction >= 1.0)
      && (states[k + 1].threads[i].pc.Lock? <==> states[k].fraction < 1.0)
  {
  }

  /** How many steps a thread has left once the total is 1. */
  function Left(t: Thread): nat {
    match t.pc
    case Exited => 0
    case Test => 1
    case Sleep => 2
    case Unlock => 3
    case Cut => 4
    case Add => 5
    case Lock => 6
  }

  /** How many of the steps j, ..., k - 1 thread i takes. */
  ghost function OwnSteps(who: seq<nat>, i: nat, j: nat, k: nat): nat
    requires j <= k <= |who|
  {
    if j == k then 0 else OwnSteps(who, i, j, k - 1) + if who[k - 1] == i then 1 else 0
  }

  lemma StepWhenWhole(s: State, i: nat, draw: real)
    requires Inv(s) && s.fraction >= 1.0 && Enabled(s, i, draw)
    ensures var s' := Step(s, i, draw);
            && s'.fraction >= 1.0 && |s'.threads| == |s.threads|
            && Left(s'.threads[i]) == Left(s.threads[i]) - 1
            && forall h :: 0 <= h < |s.threads| && h != i ==> s'.threads[h] == s.threads[h]
  {
  }

  lemma {:induction false} OwnLeftAfter(states: seq<State>, who: seq<nat>, draws: seq<real>, j: nat, k: nat, i: nat)
    requires IsRun(states, who, draws) && j <= k < |states| && states[j].fraction >= 1.0
    requires i < |states[j].threads|
    ensures states[k].fraction >= 1.0 && |states[k].threads| == |states[j].threads|
    ensures OwnSteps(who, i, j, k) + Left(states[k].threads[i]) == Left(states[j].threads[i])
    decreases k
  {
    if j < k {
      OwnLeftAfter(states, who, draws, j, k - 1, i);
      RunKeepsInv(states, who, draws, k - 1);
      StepWhenWhole(states[k - 1], who[k - 1], draws[k - 1]);
    }
  }

  /** Once the total is 1 it stays there, and every thread ends after as many steps
      of its own as it has left, at most six, whatever random() returns. */
  lemma EndsAfterOwnSteps(states: seq<State>, who: seq<nat>, draws: seq<real>, j: nat, k: nat, i: nat)
    requires IsRun(states, who, draws) && j <= k < |states| && states[j].fraction >= 1.0
    requires i < |states[j].threads|
    ensures states[k].fraction >= 1.0 && |states[k].threads| == |states[j].threads|
    ensures OwnSteps(who, i, j, k) + Left(states[k].threads[i]) == Left(states[j].threads[i]) <= 6
    ensures states[k].threads[i].pc.Exited? <==> OwnSteps(who, i, j, k) == Left(states[j].threads[i])
  {
    OwnLeftAfter(states, who, draws, j, k, i);
  }

  function AllLeft(threads: seq<Thread>): nat {
    if threads == [] then 0 else AllLeft(threads[..|threads| - 1]) + Left(threads[|threads| - 1])
  }

  lemma {:induction false} AllLeftUpdate(threads: seq<Thread>, i: nat, t: Thread)
    requires i < |threads|
    ensures AllLeft(threads[i := t]) == AllLeft(threads) - Left(threads[i]) + Left(t)
  {
    var last := |threads| - 1;
    if i == last {
      assert threads[i := t][..last] == threads[..last];
    } else {
      AllLeftUpdate(threads[..last], i, t);
      assert threads[i := t][..last] == threads[..last][i := t];
    }
  }

  lemma StepLowersAll(s: State, i: nat, draw: real)
    requires Inv(s) && s.fraction >= 1.0 && Enabled(s, i, draw)
    ensures var s' := Step(s, i, draw);
            && s'.fraction >= 1.0 && |s'.threads| == |s.threads|
            && AllLeft(s'.threads) == AllLeft(s.threads) - 1
  {
    var s' := Step(s, i, draw);
    StepWhenWhole(s, i, draw);
    AllLeftUpdate(s.threads, i, s'.threads[i]);
    assert s'.threads == s.threads[i := s'.threads[i]];
  }

  lemma {:induction false} AllLeftIs(threads: seq<Thread>)
    ensures AllLeft(threads) <= 6 * |threads|
    ensures AllLeft(threads) == 0 <==> forall i :: 0 <= i < |threads| ==> threads[i].pc.Exited?
  {
    if threads != [] {
      var last := |threads| - 1;
      AllLeftIs(threads[..last]);
      assert forall i :: 0 <= i < last ==> threads[..last][i] == threads[i];
    }
  }

  ghost predicate Ended(s: State) {
    forall i :: 0 <= i < |s.threads| ==> s.threads[i].pc.Exited?
  }

  lemma {:induction false} LeftAfter(states: seq<State>, who: seq<nat>, draws: seq<real>, j: nat, k: nat)
    requires IsRun(states, who, draws) && j <= k < |states| && states[j].fraction >= 1.0
    ensures states[k].fraction >= 1.0 && |states[k].threads| == |states[j].threads|
    ensures k - j + AllLeft(states[k].threads) == AllLeft(states[j].threads)
    decreases k
  {
    if j < k {
      LeftAfter(states, who, draws, j, k - 1);
      RunKeepsInv(states, who, draws, k - 1);
      StepLowersAll(states[k - 1], who[k - 1], draws[k - 1]);
    }
  }

  /** Once the total is 1, all threads together take at most six steps each until all
      have ended: under every schedule just as many as they have left. */
  lemma EverybodyEnds(states: seq<State>, who: seq<nat>, draws: seq<real>, j: nat, k: nat)
    requires IsRun(states, who, draws) && j <= k < |states| && states[j].fraction >= 1.0
    ensures states[k].fraction >= 1.0 && |states[k].threads| == |states[j].threads|
    ensures k - j + AllLeft(states[k].threads) == AllLeft(states[j].threads) <= 6 * |states[j].threads|
    ensures Ended(states[k]) <==> k - j == AllLeft(states[j].threads)
  {
    LeftAfter(states, who, draws, j, k);
    AllLeftIs(states[j].threads);
    AllLeftIs(states[k].threads);
  }

  /** Every run in which the total is 1 can be continued until all threads have
      ended, and then the shares recorded are 1. */
  lemma {:induction false} CanEnd(states: seq<State>, who: seq<nat>, draws: seq<real>)
    returns (states': seq<State>, who': seq<nat>, draws': seq<real>)
    requires IsRun(states, who, draws) && states[|who|].fraction >= 1.0
    ensures IsRun(states', who', draws') && states <= states'
    ensures Ended(states'[|who'|]) && states'[|who'|].fraction == 1.0 && Recorded(states'[|who'|].threads) == 1.0
    decreases AllLeft(states[|who|].threads)
  {
    var s := states[|who|];
    AllLeftIs(s.threads);
    if AllLeft(s.threads) == 0 {
      states', who', draws' := states, who, draws;
      SharesAddUpToOne(states, who, draws, |who|);
    } else {
      var i :| 0 <= i < |s.threads| && !s.threads[i].pc.Exited?;
      NeverStuck(states, who, draws, |who|, i);
      var j: nat :| Enabled(s, j, 0.0);
      var longer, done, drawn := states + [Step(s, j, 0.0)], who + [j], draws + [0.0];
      ExtendRun(states, who, draws, j, 0.0);
      EverybodyEnds(longer, done, drawn, |who|, |who| + 1);
      states', who', draws' := CanEnd(longer, done, drawn);
    }
  }

  lemma ExtendRun(states: seq<State>, who: seq<nat>, draws: seq<real>, i: nat, draw: real)
    requires IsRun(states, who, draws) && Enabled(states[|who|], i, draw)
    ensures IsRun(states + [Step(states[|who|], i, draw)], who + [i], draws + [draw])
  {
    var longer, done, drawn := states + [Step(states[|who|], i, draw)], who + [i], draws + [draw];
    forall k | 0 <= k < |done|
      ensures Enabled(longer[k], done[k], drawn[k]) && longer[k + 1] == Step(longer[k], done[k], drawn[k])
    {
      if k < |who| {
        assert longer[k] == states[k] && longer[k + 1] == states[k + 1] && done[k] == who[k] && drawn[k] == draws[k];
      }
    }
  }

  // ------------------------------------------------------------- the length of a run

  /** random() makes every addition at least e. */
  ghost predicate DrawsAtLeast(states: seq<State>, who: seq<nat>, draws: seq<real>, e: real)
    requires IsRun(states, who, draws)
  {
    forall k :: 0 <= k < |who| && states[k].threads[who[k]].pc.Add? ==> draws[k] >= e
  }

  /** The number of additions in the first k steps. */
  ghost function Additions(states: seq<State>, who: seq<nat>, draws: seq<real>, k: nat): nat
    requires IsRun(states, who, draws) && k <= |who|
  {
    if k == 0 then 0
    else Additions(states, who, draws, k - 1) + if states[k - 1].threads[who[k - 1]].pc.Add? then 1 else 0
  }

  /** n additions of e. */
  ghost function Times(n: nat, e: real): real {
    if n == 0 then 0.0 else Times(n - 1, e) + e
  }

  lemma {:induction false} TimesIs(n: nat, e: real)
    ensures Times(n, e) == n as real * e
  {
    if n > 0 {
      TimesIs(n - 1, e);
      Distribute(n - 1, e);
    }
  }

  lemma {:induction false} TimesSum(a: nat, b: nat, e: real)
    requires e >= 0.0
    ensures Times(a + b, e) == Times(a, e) + Times(b, e) && Times(b, e) >= 0.0
  {
    if b > 0 {
      TimesSum(a, b - 1, e);
    }
  }

  lemma AddOne(states: seq<State>, who: seq<nat>, draws: seq<real>, k: nat, e: real)
    requires IsRun(states, who, draws) && DrawsAtLeast(states, who, draws, e) && k < |who|
    requires states[k + 1].fraction < 1.0
    ensures states[k].fraction < 1.0
    ensures states[k + 1].fraction >= states[k].fraction + if states[k].threads[who[k]].pc.Add? then e else 0.0
  {
    RunKeepsInv(states, who, draws, k);
    if states[k].fraction >= 1.0 {
      StepWhenWhole(states[k], who[k], draws[k]);
    }
  }

  /** As long as the total is below 1 it is at least e for each addition. */
  lemma {:induction false} AdditionsCount(states: seq<State>, who: seq<nat>, draws: seq<real>, k: nat, e: real)
    requires IsRun(states, who, draws) && DrawsAtLeast(states, who, draws, e) && k <= |who|
    requires states[k].fraction < 1.0
    ensures Times(Additions(states, who, draws, k), e) <= states[k].fraction
  {
    if k > 0 {
      AddOne(states, who, draws, k - 1, e);
      AdditionsCount(states, who, draws, k - 1, e);
    }
  }

  /** How far a thread is ahead of six steps for each of its additions. */
  function Ahead(t: Thread): int {
    match t.pc
    case Test => 0
    case Lock => 1
    case Add => 2
    case Cut => -3
    case Unlock => -2
    case Sleep => -1
    case Exited => 0
  }

  function AllAhead(threads: seq<Thread>): int {
    if threads == [] then 0 else AllAhead(threads[..|threads| - 1]) + Ahead(threads[|threads| - 1])
  }

  lemma {:induction false} AllAheadUpdate(threads: seq<Thread>, i: nat, t: Thread)
    requires i < |threads|
    ensures AllAhead(threads[i := t]) == AllAhead(threads) - Ahead(threads[i]) + Ahead(t)
  {
    var last := |threads| - 1;
    if i == last {
      assert threads[i := t][..last] == threads[..last];
    } else {
      AllAheadUpdate(threads[..last], i, t);
      assert threads[i := t][..last] == threads[..last][i := t];
    }
  }

  lemma {:induction false} AllAheadBounds(threads: seq<Thread>)
    ensures AllAhead(threads) <= 2 * |threads|
    ensures (forall i :: 0 <= i < |threads| ==> threads[i].pc.Test?) ==> AllAhead(threads) == 0
  {
    if threads != [] {
      AllAheadBounds(threads[..|threads| - 1]);
    }
  }

  lemma StepAhead(s: State, i: nat, draw: real)
    requires Inv(s) && Enabled(s, i, draw) && (s.threads[i].pc.Test? ==> s.fraction < 1.0)
    ensures AllAhead(Step(s, i, draw).threads) ==
            AllAhead(s.threads) + 1 - if s.threads[i].pc.Add? then 6 else 0
  {
    var s' := Step(s, i, draw);
    AllAheadUpdate(s.threads, i, s'.threads[i]);
    assert s'.threads == s.threads[i := s'.threads[i]];
  }

  /** Threads take six steps for each addition, give or take two. */
  lemma {:induction false} StepsPerAddition(states: seq<State>, who: seq<nat>, draws: seq<real>, k: nat, e: real)
    requires IsRun(states, who, draws) && DrawsAtLeast(states, who, draws, e) && k <= |who|
    requires states[k].fraction < 1.0
    ensures k == 6 * Additions(states, who, draws, k) + AllAhead(states[k].threads)
  {
    if k == 0 {
      AllAheadBounds(states[0].threads);
    } else {
      AddOne(states, who, draws, k - 1, e);
      StepsPerAddition(states, who, draws, k - 1, e);
      RunKeepsInv(states, who, draws, k - 1);
      StepAhead(states[k - 1], who[k - 1], draws[k - 1]);
    }
  }

  lemma BelowOneBound(states: seq<State>, who: seq<nat>, draws: seq<real>, k: nat, e: real)
    requires IsRun(states, who, draws) && DrawsAtLeast(states, who, draws, e) && e > 0.0 && k <= |who|
    requires states[k].fraction < 1.0
    ensures Times(k, e) <= 6.0 + Times(2 * |states[0].threads|, e)
  {
    RunKeepsInv(states, who, draws, k);
    AdditionsCount(states, who, draws, k, e);
    StepsPerAddition(states, who, draws, k, e);
    AllAheadBounds(states[k].threads);
    var a, b := Additions(states, who, draws, k), 2 * |states[0].threads|;
    TimesMost(k, 6 * a + b, e);
    TimesSum(6 * a, b, e);
    SixTimes(a, e);
  }

  lemma SixTimes(a: nat, e: real)
    requires e >= 0.0
    ensures Times(6 * a, e) == 6.0 * Times(a, e)
  {
    TimesSum(a, a, e);
    TimesSum(2 * a, a, e);
    TimesSum(3 * a, 3 * a, e);
  }

  lemma TimesMost(a: nat, b: nat, e: real)
    requires a <= b && e >= 0.0
    ensures Times(a, e) <= Times(b, e)
  {
    TimesSum(a, b - a, e);
  }

  lemma LengthOfRun(states: seq<State>, who: seq<nat>, draws: seq<real>, e: real)
    requires IsRun(states, who, draws) && DrawsAtLeast(states, who, draws, e) && e > 0.0
    ensures Times(|who|, e) <= 6.0 + Times(8 * |states[0].threads| + 1, e)
  {
    var n := |states[0].threads|;
    var j := LastBelowOne(states, who, draws, |who|);
    BelowOneBound(states, who, draws, j, e);
    if j < |who| {
      RunKeepsInv(states, who, draws, j + 1);
      EverybodyEnds(states, who, draws, j + 1, |who|);
    }
    TimesMost(|who|, j + (6 * n + 1), e);
    TimesSum(j, 6 * n + 1, e);
    TimesSum(2 * n, 6 * n + 1, e);
    assert 2 * n + (6 * n + 1) == 8 * n + 1;
  }

  /** If random() never returns less than some positive e, every run ends: it has at
      most 6 / e + 8 * n + 1 steps. */
  lemma RunsAreBounded(states: seq<State>, who: seq<nat>, draws: seq<real>, e: real)
    requires IsRun(states, who, draws) && DrawsAtLeast(states, who, draws, e) && e > 0.0
    ensures |who| as real * e <= 6.0 + (8 * |states[0].threads| + 1) as real * e
  {
    LengthOfRun(states, who, draws, e);
    TimesIs(|who|, e);
    TimesIs(8 * |states[0].threads| + 1, e);
  }

  lemma {:induction false} LastBelowOne(states: seq<State>, who: seq<nat>, draws: seq<real>, k: nat) returns (j: nat)
    requires IsRun(states, who, draws) && k <= |who|
    ensures j <= k && states[j].fraction < 1.0 && (j < k ==> states[j + 1].fraction >= 1.0)
  {
    if states[k].fraction < 1.0 {
      j := k;
    } else {
      j := LastBelowOne(states, who, draws, k - 1);
    }
  }

  // ------------------------------------------------------------- the excess

  /** A step takes the total above 1 exactly if it is an addition that does; and
      the total falls exactly when an excess is cut. */
  lemma ExcessIff(states: seq<State>, who: seq<nat>, draws: seq<real>, k: nat, i: nat, draw: real)
    requires IsRun(states, who, draws) && k < |states| && Enabled(states[k], i, draw)
    ensures
      var s, s' := states[k], Step(states[k], i, draw);
      && (s.fraction <= 1.0 ==> (s'.fraction > 1.0 <==> s.threads[i].pc.Add? && s.fraction + draw > 1.0))
      && (s.fraction > 1.0 ==> (s'.fraction <= 1.0 <==> s.threads[i].pc.Cut?))
      && (s'.fraction < s.fraction <==> s.fraction > 1.0 && s.threads[i].pc.Cut?)
  {
    RunKeepsInv(states, who, draws, k);
    StepKeepsInv(states[k], i, draw);
  }

  ghost predicate Reachable(s: State) {
    exists states, who, draws :: IsRun(states, who, draws) && states[|who|] == s
  }

  lemma Reach(s: State, draw: real) returns (s': State)
    requires Reachable(s) && Enabled(s, 0, draw)
    ensures Reachable(s') && s' == Step(s, 0, draw)
  {
    s' := Step(s, 0, draw);
    var states, who, draws :| IsRun(states, who, draws) && states[|who|] == s;
    ExtendRun(states, who, draws, 0, draw);
    assert (states + [s'])[|who + [0]|] == s';
  }

  /** The first of n threads is about to test and nobody holds the lock. */
  ghost predicate AtTest(s: State, n: nat, fraction: real) {
    0 < n == |s.threads| && s.threads[0].pc.Test? && s.holder == -1 && s.fraction == fraction
  }

  lemma Round(s: State, n: nat, draw: real) returns (s': State)
    requires Reachable(s) && AtTest(s, n, s.fraction) && s.fraction < 1.0
    requires 0.0 <= draw <= Rate(n) && s.fraction + draw <= 1.0
    ensures Reachable(s') && AtTest(s', n, s.fraction + draw)
  {
    s' := Reach(s, 0.0);
    s' := Reach(s', 0.0);
    s' := Reach(s', draw);
    s' := Reach(s', 0.0);
    s' := Reach(s', 0.0);
    s' := Reach(s', 0.0);
  }

  lemma Distribute(j: nat, r: real)
    ensures (j + 1) as real * r == j as real * r + r
  {
  }

  /** The rate times ten times the number of threads is 1. */
  lemma RateSum(n: nat)
    requires n > 0
    ensures (10 * n) as real * Rate(n) == 1.0 && Rate(n) > 0.0
  {
    assert (10 * n) as real == MIN_SIMULATION_SECS * n as real;
  }

  lemma BelowOne(n: nat, j: nat)
    requires n > 0 && j < 10 * n
    ensures j as real * Rate(n) <= 1.0 - Rate(n)
  {
    RateSum(n);
    Distribute(10 * n - 1, Rate(n));
    var r, rest := Rate(n), (10 * n - 1 - j) as real;
    assert (10 * n - 1) as real * r == j as real * r + rest * r;
    assert rest * r >= 0.0;
  }

  /** One thread alone gets any number of shares below the whole. */
  lemma {:induction false} Rounds(n: nat, j: nat) returns (s: State)
    requires n > 0 && j < 10 * n
    ensures Reachable(s) && AtTest(s, n, j as real * Rate(n))
  {
    if j == 0 {
      s := State(0.0, -1, seq(n, i => Thread(Test, 0.0, 0.0)));
      assert IsRun([s], [], []) && [s][0] == s;
    } else {
      s := Rounds(n, j - 1);
      Distribute(j - 1, Rate(n));
      BelowOne(n, j - 1);
      BelowOne(n, j);
      RateSum(n);
      s := Round(s, n, Rate(n));
    }
  }

  /** With any number of threads the total can be seen above 1. */
  lemma ExcessIsSeen(n: nat)
    requires n > 0
    ensures exists s :: Reachable(s) && |s.threads| == n && s.fraction > 1.0
  {
    var r := Rate(n);
    RateSum(n);
    Distribute(10 * n - 1, r);
    var s := Rounds(n, 10 * n - 1);
    s := Round(s, n, r / 2.0);
    s := Reach(s, 0.0);
    s := Reach(s, 0.0);
    s := Reach(s, r);
    assert s.fraction == 1.0 + r / 2.0;
  }
}

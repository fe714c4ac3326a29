/** The barrier-synchronised parallel reduction of vmem_usage.c as a step
    relation: n threads share the array of partial sums, and a step is one access
    to it, one test or one barrier call of one thread. A `+=` on a cell that
    others may read is split into its loads and its store. */
module Reduction {
  import opened Common
  import opened Segments

  /** Where a thread is in sum_reduce. `Waiting` is blocked in the barrier;
      `FixStore` and `HalveStore` hold the sum that is about to be stored. */
  datatype Pc =
    | Start | Adding(k: nat)
    | LoopTest | Waiting | Fix | FixStore(x: int) | Halve | HalveStore(x: int)
    | Exited

  /** `round` counts how often the thread has halved `half`. */
  datatype Thread = Thread(pc: Pc, half: nat, round: nat)

  /** `arrived` is the state of the barrier; `passes` counts its releases. */
  datatype State = State(
    data: seq<int>,
    partial: seq<int>,
    threads: seq<Thread>,
    arrived: nat,
    passes: nat)

  function Size(s: State): nat { |s.threads| }

  ghost predicate Enabled(s: State, t: nat) {
    && t < |s.threads| && |s.partial| == |s.threads|
    && match s.threads[t].pc
       case Adding(k) => First(t, |s.data|, |s.threads|) <= k <= First(t + 1, |s.data|, |s.threads|) <= |s.data|
       case Waiting => false
       case Fix => 1 <= s.threads[t].half <= |s.partial|
       case Halve => t < s.threads[t].half / 2 ==> t + s.threads[t].half / 2 < |s.partial|
       case Exited => false
       case _ => true
  }

  function AtPc(s: State, t: nat, pc: Pc): State
    requires t < |s.threads|
  {
    s.(threads := s.threads[t := s.threads[t].(pc := pc)])
  }

  /** The last thread to arrive lets everybody pass. */
  function Release(threads: seq<Thread>, t: nat): seq<Thread> {
    seq(|threads|, u requires 0 <= u < |threads| =>
      if u == t || threads[u].pc.Waiting? then threads[u].(pc := Fix) else threads[u])
  }

  ghost function Step(s: State, t: nat): State
    requires Enabled(s, t)
  {
    var n, th := |s.threads|, s.threads[t];
    match th.pc
    case Start =>
      AtPc(s, t, Adding(First(t, |s.data|, n))).(partial := s.partial[t := 0])
    case Adding(k) =>
      if k < First(t + 1, |s.data|, n) then
        AtPc(s, t, Adding(k + 1)).(partial := s.partial[t := s.partial[t] + s.data[k]])
      else
        s.(threads := s.threads[t := Thread(LoopTest, n, 0)])
    case LoopTest =>
      if th.half <= 1 then AtPc(s, t, Exited)
      else if s.arrived + 1 == n then
        s.(threads := Release(s.threads, t), arrived := 0, passes := s.passes + 1)
      else AtPc(s, t, Waiting).(arrived := s.arrived + 1)
    case Fix =>
      if th.half % 2 == 1 && t == 0 then AtPc(s, t, FixStore(s.partial[0] + s.partial[th.half - 1]))
      else AtPc(s, t, Halve)
    case FixStore(x) => AtPc(s, t, Halve).(partial := s.partial[t := x])
    case Halve =>
      var half := th.half / 2;
      var pc := if t < half then HalveStore(s.partial[t] + s.partial[t + half]) else LoopTest;
      s.(threads := s.threads[t := Thread(pc, half, th.round + 1)])
    case HalveStore(x) => AtPc(s, t, LoopTest).(partial := s.partial[t := x])
  }

  /** The state compute_sum sets up; the cells of partial_sum are not used before they are set. */
  ghost predicate Init(s: State) {
    && |s.threads| >= 1 && |s.partial| == |s.threads|
    && (forall t :: 0 <= t < |s.threads| ==> s.threads[t].pc == Start && s.threads[t].round == 0)
    && s.arrived == 0 && s.passes == 0
  }

  ghost predicate IsRun(states: seq<State>, schedule: seq<nat>) {
    && |states| == |schedule| + 1
    && Init(states[0])
    && forall k :: 0 <= k < |schedule| ==>
         Enabled(states[k], schedule[k]) && states[k + 1] == Step(states[k], schedule[k])
  }

  // -------------------------------------- the values the rounds should produce

  /** The number of cells still in use after r rounds. */
  function HalfAt(n: nat, r: nat): nat {
    if r == 0 then n else HalfAt(n, r - 1) / 2
  }

  /** Cell i after r rounds. */
  ghost function CellAt(data: seq<int>, n: nat, r: nat, i: nat): int
    requires i < n
    decreases r, 0
  {
    if r == 0 then SegmentSum(data, n, i)
    else if i < HalfAt(n, r) then
      HalfAtBounds(n, r - 1);
      Fixed(data, n, r - 1, i) + CellAt(data, n, r - 1, i + HalfAt(n, r))
    else CellAt(data, n, r - 1, i)
  }

  /** Cell i in round r + 1 when the odd cell out has been added to cell 0. */
  ghost function Fixed(data: seq<int>, n: nat, r: nat, i: nat): int
    requires i < n
    decreases r, 1
  {
    var h := HalfAt(n, r);
    HalfAtBounds(n, r);
    CellAt(data, n, r, i) + if i == 0 && h % 2 == 1 then CellAt(data, n, r, h - 1) else 0
  }

  lemma {:induction false} HalfAtBounds(n: nat, r: nat)
    ensures HalfAt(n, r) <= n
    ensures 2 * HalfAt(n, r + 1) <= HalfAt(n, r)
  {
    if r > 0 {
      HalfAtBounds(n, r - 1);
    }
  }

  ghost function InUse(data: seq<int>, n: nat, r: nat): seq<int> {
    HalfAtBounds(n, r);
    seq(HalfAt(n, r), i requires 0 <= i < HalfAt(n, r) => CellAt(data, n, r, i))
  }

  lemma {:induction false} TotalOfSum(a: seq<int>, b: seq<int>, c: seq<int>)
    requires |a| == |b| == |c|
    requires forall i :: 0 <= i < |a| ==> c[i] == a[i] + b[i]
    ensures Total(c) == Total(a) + Total(b)
  {
    if a != [] {
      var k := |a| - 1;
      TotalOfSum(a[..k], b[..k], c[..k]);
    }
  }

  lemma {:induction false} TotalOfUpdate(a: seq<int>, i: nat, x: int)
    requires i < |a|
    ensures Total(a[i := x]) == Total(a) - a[i] + x
  {
    var k := |a| - 1;
    if i < k {
      assert a[i := x][..k] == a[..k][i := x];
      TotalOfUpdate(a[..k], i, x);
    } else {
      assert a[i := x][..k] == a[..k];
    }
  }

  /** A cell in use after round r + 1 is the sum of one cell of each half. */
  lemma CellIsSum(data: seq<int>, n: nat, r: nat, i: nat)
    requires HalfAt(n, r) > 1 && i < HalfAt(n, r + 1)
    ensures HalfAt(n, r + 1) <= n && i + HalfAt(n, r + 1) < n
    ensures CellAt(data, n, r + 1, i) == Fixed(data, n, r, i) + CellAt(data, n, r, i + HalfAt(n, r + 1))
  {
    HalfAtBounds(n, r);
  }

  /** Adding the two halves of a sequence keeps its total, apart from the odd element. */
  lemma HalvesAddUp(a: seq<int>, c: seq<int>)
    requires |a| == 2 * |c|
    requires forall i :: 0 <= i < |c| ==> c[i] == a[i] + a[|c| + i]
    ensures Total(c) == Total(a)
  {
    assert a == a[..|c|] + a[|c|..];
    TotalAppend(a[..|c|], a[|c|..]);
    TotalOfSum(a[..|c|], a[|c|..], c);
  }

  /** An odd last element is added to the first one. */
  lemma OddFold(a: seq<int>) returns (d: seq<int>)
    requires |a| > 1
    ensures |d| == |a| - 1 && d[0] == a[0] + a[|a| - 1] && forall i :: 0 < i < |d| ==> d[i] == a[i]
    ensures Total(d) == Total(a)
  {
    var last, b := a[|a| - 1], a[..|a| - 1];
    d := b[0 := b[0] + last];
    TotalOfUpdate(b, 0, b[0] + last);
  }

  lemma HalvingKeepsTotal(a: seq<int>, c: seq<int>)
    requires |a| > 1 && |c| == |a| / 2
    requires forall i :: 0 <= i < |c| ==>
               c[i] == a[i] + a[|c| + i] + if i == 0 && |a| % 2 == 1 then a[|a| - 1] else 0
    ensures Total(c) == Total(a)
  {
    if |a| % 2 == 0 {
      HalvesAddUp(a, c);
    } else {
      var d := OddFold(a);
      assert |d| == 2 * |c|;
      forall i | 0 <= i < |c| ensures c[i] == d[i] + d[|c| + i] {
        assert d[|c| + i] == a[|c| + i];
      }
      HalvesAddUp(d, c);
    }
  }

  /** The additions of one round in place, with the threads one after the other. */
  method AddUpperHalf(partial: array<int>, half: nat)
    requires 2 * half <= partial.Length
    modifies partial
    ensures forall i :: 0 <= i < half ==> partial[i] == old(partial[i]) + old(partial[half + i])
  {
    for tid := 0 to half
      invariant forall i :: tid <= i < partial.Length ==> partial[i] == old(partial[i])
      invariant forall i :: 0 <= i < tid ==> partial[i] == old(partial[i]) + old(partial[half + i])
    {
      partial[tid] := partial[tid] + partial[tid + half];
    }
  }

  method ReduceRound(partial: array<int>, half: nat)
    requires 1 < half <= partial.Length
    modifies partial
    ensures Total(partial[..half / 2]) == Total(old(partial[..half]))
  {
    ghost var a := partial[..half];
    if half % 2 == 1 {
      partial[0] := partial[0] + partial[half - 1];
    }
    AddUpperHalf(partial, half / 2);
    HalvingKeepsTotal(a, partial[..half / 2]);
  }

  /** All rounds, from the sums of the segments to their total. */
  method ReduceInPlace(partial: array<int>)
    requires partial.Length >= 1
    modifies partial
    ensures partial[0] == Total(old(partial[..]))
  {
    var half := partial.Length;
    assert partial[..half] == partial[..];
    while half > 1
      invariant 1 <= half <= partial.Length && Total(partial[..half]) == Total(old(partial[..]))
    {
      ReduceRound(partial, half);
      half := half / 2;
    }
    assert partial[..1] == [partial[0]];
    assert Total([partial[0]]) == partial[0];
  }

  /** One round keeps the sum of the cells in use. */
  lemma RoundKeepsTotal(data: seq<int>, n: nat, r: nat)
    requires HalfAt(n, r) > 1
    ensures Total(InUse(data, n, r + 1)) == Total(InUse(data, n, r))
  {
    var a, c := InUse(data, n, r), InUse(data, n, r + 1);
    HalfAtBounds(n, r);
    forall i | 0 <= i < |c|
      ensures c[i] == a[i] + a[|c| + i] + if i == 0 && |a| % 2 == 1 then a[|a| - 1] else 0
    {
      CellIsSum(data, n, r, i);
    }
    HalvingKeepsTotal(a, c);
  }

  // ------------------------------------------------------------- invariant

  /** Thread t and its cell are where the rounds say they should be. */
  ghost predicate ThreadOk(s: State, t: nat)
    requires t < |s.threads| == |s.partial|
  {
    var n, th, cell := |s.threads|, s.threads[t], s.partial[t];
    var r := th.round;
    SegmentsCover(t, |s.data|, n);
    match th.pc
    case Start => s.passes == 0 && r == 0
    case Adding(k) =>
      && s.passes == 0 && r == 0
      && First(t, |s.data|, n) <= k <= First(t + 1, |s.data|, n)
      && cell == Total(s.data[First(t, |s.data|, n)..k])
    case LoopTest => s.passes == r && th.half == HalfAt(n, r) && cell == CellAt(s.data, n, r, t)
    case Waiting => s.passes == r && th.half == HalfAt(n, r) > 1 && cell == CellAt(s.data, n, r, t)
    case Exited => s.passes == r && th.half == HalfAt(n, r) <= 1 && cell == CellAt(s.data, n, r, t)
    case Fix => s.passes == r + 1 && th.half == HalfAt(n, r) > 1 && cell == CellAt(s.data, n, r, t)
    case FixStore(x) =>
      && s.passes == r + 1 && th.half == HalfAt(n, r) > 1 && cell == CellAt(s.data, n, r, t)
      && t == 0 && x == Fixed(s.data, n, r, t)
    case Halve => s.passes == r + 1 && th.half == HalfAt(n, r) > 1 && cell == Fixed(s.data, n, r, t)
    case HalveStore(x) =>
      && s.passes == r && r >= 1 && th.half == HalfAt(n, r) && t < th.half
      && x == CellAt(s.data, n, r, t)
  }

  function IsWaiting(th: Thread): int { if th.pc.Waiting? then 1 else 0 }

  ghost predicate Inv(s: State) {
    && 1 <= |s.threads| == |s.partial|
    && (forall t :: 0 <= t < |s.threads| ==> ThreadOk(s, t))
    && s.arrived == Sum(s.threads, IsWaiting) < |s.threads|
  }

  /** Within a phase no thread writes a cell of the upper half or the odd cell:
      whoever reads one finds the value it had at the barrier. */
  lemma StableCell(s: State, r: nat, u: nat)
    requires Inv(s) && s.passes == r + 1 && HalfAt(|s.threads|, r) > 1
    requires HalfAt(|s.threads|, r + 1) <= u < |s.threads|
    ensures s.partial[u] == CellAt(s.data, |s.threads|, r, u)
    ensures !s.threads[u].pc.FixStore? && !s.threads[u].pc.HalveStore?
  {
    assert ThreadOk(s, u);
  }

  /** A step that changes only thread t and its cell disturbs no other thread. */
  lemma OthersUndisturbed(s: State, s': State, t: nat)
    requires Inv(s) && t < |s.threads|
    requires s'.data == s.data && s'.passes == s.passes
    requires |s'.threads| == |s.threads| && |s'.partial| == |s.partial|
    requires forall u :: 0 <= u < |s.threads| && u != t ==>
               s'.threads[u] == s.threads[u] && s'.partial[u] == s.partial[u]
    requires ThreadOk(s', t)
    ensures forall u :: 0 <= u < |s.threads| ==> ThreadOk(s', u)
  {
    forall u | 0 <= u < |s.threads| ensures ThreadOk(s', u) {
      assert ThreadOk(s, u);
    }
  }

  lemma {:induction false} AllWaiting(threads: seq<Thread>, t: nat)
    requires t < |threads| && !threads[t].pc.Waiting?
    ensures Sum(threads, IsWaiting) <= |threads| - 1
    ensures Sum(threads, IsWaiting) == |threads| - 1 ==>
              forall u :: 0 <= u < |threads| && u != t ==> threads[u].pc.Waiting?
  {
    var k := |threads| - 1;
    if t < k {
      AllWaiting(threads[..k], t);
    } else {
      WaitingAtMost(threads[..k]);
    }
  }

  lemma {:induction false} WaitingAtMost(threads: seq<Thread>)
    ensures Sum(threads, IsWaiting) <= |threads|
    ensures Sum(threads, IsWaiting) == |threads| ==> forall u :: 0 <= u < |threads| ==> threads[u].pc.Waiting?
  {
    if threads != [] {
      WaitingAtMost(threads[..|threads| - 1]);
    }
  }

  lemma ReleaseKeepsInv(s: State, t: nat)
    requires Inv(s) && Enabled(s, t) && s.threads[t].pc.LoopTest?
    requires s.threads[t].half > 1 && s.arrived + 1 == |s.threads|
    ensures Inv(Step(s, t))
  {
    var s' := Step(s, t);
    AllWaiting(s.threads, t);
    SumConstant(s'.threads, IsWaiting, 0);
    forall u | 0 <= u < |s.threads| ensures ThreadOk(s', u) {
      assert ThreadOk(s, u);
    }
  }

  lemma AddingStep(s: State, t: nat)
    requires Inv(s) && Enabled(s, t) && (s.threads[t].pc.Start? || s.threads[t].pc.Adding?)
    ensures t < |Step(s, t).threads| == |Step(s, t).partial| && ThreadOk(Step(s, t), t)
  {
    assert ThreadOk(s, t);
    SegmentsCover(t, |s.data|, |s.threads|);
    if s.threads[t].pc.Adding? {
      var k, a := s.threads[t].pc.k, First(t, |s.data|, |s.threads|);
      if k < First(t + 1, |s.data|, |s.threads|) {
        assert s.data[a..k + 1][..k - a] == s.data[a..k];
      }
    } else {
      assert s.data[First(t, |s.data|, |s.threads|)..First(t, |s.data|, |s.threads|)] == [];
    }
  }

  lemma FixStep(s: State, t: nat)
    requires Inv(s) && Enabled(s, t) && (s.threads[t].pc.Fix? || s.threads[t].pc.FixStore?)
    ensures t < |Step(s, t).threads| == |Step(s, t).partial| && ThreadOk(Step(s, t), t)
  {
    assert ThreadOk(s, t);
    var n, r, h := |s.threads|, s.threads[t].round, s.threads[t].half;
    HalfAtBounds(n, r);
    if h % 2 == 1 && t == 0 {
      StableCell(s, r, h - 1);
    }
  }

  lemma HalveStep(s: State, t: nat)
    requires Inv(s) && Enabled(s, t) && (s.threads[t].pc.Halve? || s.threads[t].pc.HalveStore?)
    ensures t < |Step(s, t).threads| == |Step(s, t).partial| && ThreadOk(Step(s, t), t)
  {
    assert ThreadOk(s, t);
    var n, r, h := |s.threads|, s.threads[t].round, s.threads[t].half;
    HalfAtBounds(n, r);
    if s.threads[t].pc.Halve? && t < h / 2 {
      StableCell(s, r, t + h / 2);
      CellIsSum(s.data, n, r, t);
    }
  }

  /** The step releases the barrier. */
  ghost predicate Releases(s: State, t: nat)
    requires t < |s.threads|
  {
    s.threads[t].pc.LoopTest? && s.threads[t].half > 1 && s.arrived + 1 == |s.threads|
  }

  lemma OwnStepKeepsThread(s: State, t: nat)
    requires Inv(s) && Enabled(s, t) && !Releases(s, t)
    ensures |Step(s, t).threads| == |Step(s, t).partial| && t < |Step(s, t).threads| && ThreadOk(Step(s, t), t)
  {
    var th := s.threads[t];
    assert ThreadOk(s, t);
    if th.pc.Start? || th.pc.Adding? {
      AddingStep(s, t);
    } else if th.pc.Fix? || th.pc.FixStore? {
      FixStep(s, t);
    } else if th.pc.Halve? || th.pc.HalveStore? {
      HalveStep(s, t);
    }
  }

  /** Such a step changes one thread, its cell and the number of waiting threads. */
  lemma OwnStepFrame(s: State, t: nat)
    requires Inv(s) && Enabled(s, t) && !Releases(s, t)
    ensures
      var s' := Step(s, t);
      && s'.data == s.data && s'.passes == s.passes
      && |s'.threads| == |s.threads| && |s'.partial| == |s.partial|
      && s'.threads == s.threads[t := s'.threads[t]] && s'.partial == s.partial[t := s'.partial[t]]
      && s'.arrived == s.arrived - IsWaiting(s.threads[t]) + IsWaiting(s'.threads[t])
  {
    assert s.threads[t := s.threads[t]] == s.threads && s.partial[t := s.partial[t]] == s.partial;
  }

  lemma StepKeepsInv(s: State, t: nat)
    requires Inv(s) && Enabled(s, t)
    ensures Inv(Step(s, t))
  {
    if Releases(s, t) {
      ReleaseKeepsInv(s, t);
    } else {
      var s' := Step(s, t);
      OwnStepKeepsThread(s, t);
      OwnStepFrame(s, t);
      OthersUndisturbed(s, s', t);
      SumUpdate(s.threads, t, s'.threads[t], IsWaiting);
    }
  }

  lemma InitInv(s: State)
    requires Init(s)
    ensures Inv(s)
  {
    SumConstant(s.threads, IsWaiting, 0);
  }

  lemma {:induction false} RunKeepsInv(states: seq<State>, schedule: seq<nat>, k: nat)
    requires IsRun(states, schedule) && k < |states|
    ensures Inv(states[k])
    ensures states[k].data == states[0].data && |states[k].threads| == |states[0].threads|
  {
    if k == 0 {
      InitInv(states[0]);
    } else {
      RunKeepsInv(states, schedule, k - 1);
      StepKeepsInv(states[k - 1], schedule[k - 1]);
    }
  }

  // ----------------------------------------------------------- main results

  lemma {:induction false} RoundsKeepTotal(data: seq<int>, n: nat, r: nat)
    requires 0 < n && (r == 0 || HalfAt(n, r - 1) > 1)
    ensures Total(InUse(data, n, r)) == Total(data)
  {
    if r == 0 {
      SegmentSumsAddUp(data, n);
      assert InUse(data, n, 0) == SegmentSums(data, n, n);
    } else {
      HalfAtBounds(n, r - 1);
      if r > 1 {
        HalfAtBounds(n, r - 2);
      }
      RoundsKeepTotal(data, n, r - 1);
      RoundKeepsTotal(data, n, r - 1);
    }
  }

  /** When every thread has exited, cell 0 holds the sum of the array: compute_sum
      returns it whatever the interleaving was. */
  lemma SumIsRight(states: seq<State>, schedule: seq<nat>, k: nat)
    requires IsRun(states, schedule) && k < |states|
    requires forall t :: 0 <= t < |states[k].threads| ==> states[k].threads[t].pc.Exited?
    ensures |states[k].partial| > 0 && states[k].partial[0] == Total(states[0].data)
  {
    var s := states[k];
    RunKeepsInv(states, schedule, k);
    RunKeepsRounds(states, schedule, k);
    assert ThreadOk(s, 0);
    var n, r := |s.threads|, s.passes;
    RoundsKeepTotal(s.data, n, r);
    assert InUse(s.data, n, r) == [CellAt(s.data, n, r, 0)];
    assert Total(InUse(s.data, n, r)) == s.partial[0];
  }

  /** The barrier is only passed while more than one cell is in use. */
  ghost predicate PassedInUse(s: State) {
    s.passes == 0 || HalfAt(|s.threads|, s.passes - 1) > 1
  }

  lemma {:induction false} RunKeepsRounds(states: seq<State>, schedule: seq<nat>, k: nat)
    requires IsRun(states, schedule) && k < |states|
    ensures PassedInUse(states[k])
    ensures HalfAt(|states[k].threads|, states[k].passes) >= 1
  {
    RunKeepsInv(states, schedule, k);
    if k > 0 {
      RunKeepsRounds(states, schedule, k - 1);
      RunKeepsInv(states, schedule, k - 1);
      assert ThreadOk(states[k - 1], schedule[k - 1]);
    }
  }

  /** How many barrier calls a thread has returned from. */
  function BarrierReturns(th: Thread): nat {
    th.round + if th.pc.Fix? || th.pc.FixStore? || th.pc.Halve? then 1 else 0
  }

  /** All threads have passed the barrier equally often, so when they have
      exited they have made the same number of barrier calls. */
  lemma SameBarrierCalls(states: seq<State>, schedule: seq<nat>, k: nat, t: nat)
    requires IsRun(states, schedule) && k < |states| && t < |states[k].threads|
    ensures BarrierReturns(states[k].threads[t]) == states[k].passes
  {
    RunKeepsInv(states, schedule, k);
    assert ThreadOk(states[k], t);
  }

  /** The cell of another thread that the next step of thread t reads. */
  ghost function ForeignCell(s: State, t: nat): Option<int>
    requires t < |s.threads|
  {
    var th := s.threads[t];
    if th.pc.Fix? && th.half % 2 == 1 && t == 0 then Some(th.half - 1)
    else if th.pc.Halve? && t < th.half / 2 then Some(t + th.half / 2)
    else None
  }

  /** No cell that another thread reads is written in the same phase. */
  lemma NoRace(states: seq<State>, schedule: seq<nat>, k: nat, t: nat)
    requires IsRun(states, schedule) && k < |states| && t < |states[k].threads|
    requires ForeignCell(states[k], t).Some?
    ensures var s, u := states[k], ForeignCell(states[k], t).value;
            && 0 <= u < |s.threads| == |s.partial| && u != t
            && !s.threads[u].pc.FixStore? && !s.threads[u].pc.HalveStore?
            && !s.threads[u].pc.Start? && !s.threads[u].pc.Adding?
            && s.partial[u] == CellAt(s.data, |s.threads|, s.threads[t].round, u)
  {
    var s, u := states[k], ForeignCell(states[k], t).value;
    RunKeepsInv(states, schedule, k);
    assert ThreadOk(s, t);
    HalfAtBounds(|s.threads|, s.threads[t].round);
    StableCell(s, s.threads[t].round, u);
    assert ThreadOk(s, u);
  }

  /** As long as some thread has not exited, some thread can take a step:
      nobody is stranded at the barrier. */
  lemma NobodyStranded(states: seq<State>, schedule: seq<nat>, k: nat)
    requires IsRun(states, schedule) && k < |states|
    requires exists t :: 0 <= t < |states[k].threads| && !states[k].threads[t].pc.Exited?
    ensures exists t :: Enabled(states[k], t)
  {
    var s := states[k];
    RunKeepsInv(states, schedule, k);
    if forall t :: 0 <= t < |s.threads| ==> s.threads[t].pc.Waiting? {
      SumConstant(s.threads, IsWaiting, 1);
      assert false;
    }
    var stay :| 0 <= stay < |s.threads| && !s.threads[stay].pc.Waiting?;
    var live :| 0 <= live < |s.threads| && !s.threads[live].pc.Exited?;
    var t := if s.threads[stay].pc.Exited? then live else stay;
    assert ThreadOk(s, live) && ThreadOk(s, stay);
    SegmentsCover(t, |s.data|, |s.threads|);
    if s.threads[t].pc.Fix? || s.threads[t].pc.Halve? {
      HalfAtBounds(|s.threads|, s.threads[t].round);
    }
    assert Enabled(s, t);
  }

  /** The steps a thread can still take. */
  ghost function StepsLeft(th: Thread, t: nat, size: nat, n: nat): int
    requires t < n
  {
    SegmentsCover(t, size, n);
    var h := 6 * th.half;
    match th.pc
    case Start => 6 * n + 7 + First(t + 1, size, n) - First(t, size, n)
    case Adding(k) => 6 * n + 6 + First(t + 1, size, n) - k
    case LoopTest => h + 5
    case Waiting => h + 4
    case Fix => h + 3
    case FixStore(_) => h + 2
    case Halve => h + 1
    case HalveStore(_) => h + 6
    case Exited => 0
  }

  ghost function AllStepsLeft(s: State): seq<int> {
    seq(|s.threads|, t requires 0 <= t < |s.threads| => StepsLeft(s.threads[t], t, |s.data|, |s.threads|))
  }

  lemma {:induction false} TotalDrops(a: seq<int>, b: seq<int>, t: nat)
    requires t < |a| == |b| && b[t] < a[t]
    requires forall u :: 0 <= u < |a| ==> b[u] <= a[u]
    ensures Total(b) < Total(a)
  {
    var k := |a| - 1;
    if t < k {
      TotalDrops(a[..k], b[..k], t);
    } else {
      TotalAtMost(b[..k], a[..k]);
    }
  }

  lemma {:induction false} TotalAtMost(a: seq<int>, b: seq<int>)
    requires |a| == |b|
    requires forall u :: 0 <= u < |a| ==> a[u] <= b[u]
    ensures Total(a) <= Total(b)
  {
    if a != [] {
      TotalAtMost(a[..|a| - 1], b[..|a| - 1]);
    }
  }

  lemma StepUsesUp(s: State, t: nat)
    requires Inv(s) && Enabled(s, t)
    ensures Total(AllStepsLeft(Step(s, t))) < Total(AllStepsLeft(s))
  {
    assert ThreadOk(s, t);
    TotalDrops(AllStepsLeft(s), AllStepsLeft(Step(s, t)), t);
  }

  lemma {:induction false} RunUsesUp(states: seq<State>, schedule: seq<nat>)
    requires IsRun(states, schedule)
    ensures |schedule| + Total(AllStepsLeft(states[|schedule|])) <= Total(AllStepsLeft(states[0]))
  {
    if schedule != [] {
      var k := |schedule| - 1;
      assert IsRun(states[..k + 1], schedule[..k]);
      RunUsesUp(states[..k + 1], schedule[..k]);
      RunKeepsInv(states, schedule, k);
      StepUsesUp(states[k], schedule[k]);
    }
  }

  lemma {:induction false} TotalNonNegative(a: seq<int>)
    requires forall u :: 0 <= u < |a| ==> a[u] >= 0
    ensures Total(a) >= 0
  {
    if a != [] {
      TotalNonNegative(a[..|a| - 1]);
    }
  }

  lemma StepsLeftNonNegative(s: State, t: nat)
    requires Inv(s) && t < |s.threads|
    ensures AllStepsLeft(s)[t] >= 0
  {
    assert ThreadOk(s, t);
    SegmentsCover(t, |s.data|, |s.threads|);
  }

  lemma {:induction false} StepsAtStart(s: State, k: nat)
    requires Init(s) && k <= |s.threads|
    ensures Total(AllStepsLeft(s)[..k]) == k * (6 * |s.threads| + 7) + First(k, |s.data|, |s.threads|)
  {
    if k == 0 {
      SegmentsCover(0, |s.data|, |s.threads|);
    } else {
      StepsAtStart(s, k - 1);
      assert AllStepsLeft(s)[..k][..k - 1] == AllStepsLeft(s)[..k - 1];
    }
  }

  /** Every schedule is finite: n threads take at most n * (6n + 7) + size steps in all. */
  lemma RunsAreBounded(states: seq<State>, schedule: seq<nat>)
    requires IsRun(states, schedule)
    ensures var n := |states[0].threads|;
            |schedule| <= n * (6 * n + 7) + |states[0].data|
  {
    var s, n := states[|schedule|], |states[0].threads|;
    RunUsesUp(states, schedule);
    RunKeepsInv(states, schedule, |schedule|);
    forall t | 0 <= t < |s.threads| ensures AllStepsLeft(s)[t] >= 0 {
      StepsLeftNonNegative(s, t);
    }
    TotalNonNegative(AllStepsLeft(s));
    StepsAtStart(states[0], n);
    SegmentsCover(0, |states[0].data|, n);
    assert AllStepsLeft(states[0])[..n] == AllStepsLeft(states[0]);
  }
}

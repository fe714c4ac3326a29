/** What goes through the buffer of pthread_prodcons.c: every item exactly once,
    each producer's items in order, and no consumer leaves too early. */
module ProdConsDelivery {
  import opened Common
  import opened CircularArray
  import opened ProdCons
  import opened Segments

  function Values(taken: seq<Receipt>): (v: seq<int>)
    ensures |v| == |taken|
  {
    seq(|taken|, k requires 0 <= k < |taken| => taken[k].value)
  }

  /** The subsequence of the elements in (lo, hi]. */
  function Between(xs: seq<int>, lo: int, hi: int): seq<int> {
    if xs == [] then []
    else
      var last := xs[|xs| - 1];
      Between(xs[..|xs| - 1], lo, hi) + if lo < last <= hi then [last] else []
  }

  /** a + 1, ..., a + n */
  function Numbers(a: int, n: nat): seq<int> {
    seq(n, k => a + k + 1)
  }

  predicate BetweenItems(pc: ProdPc) { pc.PSignal? || pc.PUnlock? || pc.PNext? }
  predicate BusyWithItem(pc: ProdPc) { pc.PLock? || pc.PTest? || pc.PWaiting? || pc.PWoken? || pc.PAdd? }

  /** How many of its items a producer has added. */
  function ItemsDone(pr: Prod): int {
    if BetweenItems(pr.pc) then pr.i else pr.i - 1
  }

  ghost predicate Progressed(pr: Prod, maxItems: nat) {
    if BusyWithItem(pr.pc) then 1 <= pr.i <= maxItems
    else if BetweenItems(pr.pc) then pr.i <= maxItems
    else pr.i == maxItems + 1
  }

  /** Producer `p` has added the items p * maxItems + 1, p * maxItems + 2, ... in this order. */
  ghost predicate AddedBy(s: State, p: nat)
    requires p < |s.prod|
  {
    var base := p * s.maxItems;
    && Progressed(s.prod[p], s.maxItems)
    && Between(s.added, base, base + s.maxItems) == Numbers(base, ItemsDone(s.prod[p]))
  }

  ghost predicate Delivery(s: State) {
    && 0 <= s.count && Holds(s.ring, s.count)
    && Values(s.taken) + Contents(s.ring, s.count) == s.added
    && (forall p :: 0 <= p < |s.prod| ==> AddedBy(s, p))
    && (forall k :: 0 <= k < |s.added| ==> 0 < s.added[k] <= |s.prod| * s.maxItems)
  }

  lemma BetweenAppend(xs: seq<int>, v: int, lo: int, hi: int)
    ensures Between(xs + [v], lo, hi) == Between(xs, lo, hi) + if lo < v <= hi then [v] else []
  {
    assert (xs + [v])[..|xs|] == xs;
  }

  /** The item ranges of different producers do not overlap. */
  lemma RangesDisjoint(p: nat, q: nat, m: nat, i: int)
    requires p != q && 1 <= i <= m
    ensures !(q * m < p * m + i <= q * m + m)
  {
    if p < q {
      QuotientStep(q, p, m);
    } else {
      QuotientStep(p, q, m);
    }
  }

  lemma ItemInRange(p: nat, n: nat, m: nat, i: int)
    requires p < n && 1 <= i <= m
    ensures 0 < p * m + i <= n * m
  {
    QuotientStep(n, p, m);
  }

  lemma NumbersAppend(a: int, n: nat)
    ensures Numbers(a, n + 1) == Numbers(a, n) + [a + n + 1]
  {
  }

  /** Only the add changes what was added; the other steps of a producer keep count of its items. */
  lemma ProducerItems(s: State, p: nat, target: Option<nat>)
    requires ProducerEnabled(s, p, target) && Progressed(s.prod[p], s.maxItems)
    ensures var s' := ProducerStep(s, p, target);
            && p < |s'.prod| && Progressed(s'.prod[p], s.maxItems)
            && ItemsDone(s'.prod[p]) ==
                 ItemsDone(s.prod[p]) + (if s.prod[p].pc.PAdd? then 1 else 0)
  {
  }

  lemma AddKeepsAddedBy(s: State, s': State, p: nat, q: nat)
    requires Delivery(s) && ProducerWrites(s, s', p) && s.prod[p].pc.PAdd? && q < |s.prod|
    requires Progressed(s'.prod[p], s.maxItems)
    requires ItemsDone(s'.prod[p]) == ItemsDone(s.prod[p]) + 1
    ensures AddedBy(s', q)
  {
    var m, v := s.maxItems, Item(s, p);
    assert AddedBy(s, p) && AddedBy(s, q);
    BetweenAppend(s.added, v, q * m, q * m + m);
    if q == p {
      NumbersAppend(p * m, ItemsDone(s.prod[p]));
    } else {
      RangesDisjoint(p, q, m, s.prod[p].i);
    }
  }

  /** What was received and what is in the buffer, after an addition. */
  lemma AddedContents(s: State, s': State, p: nat)
    requires Inv(s) && Delivery(s) && ProducerData(s, s', p) && s.prod[p].pc.PAdd?
    ensures 0 <= s'.count && Holds(s'.ring, s'.count)
    ensures Values(s'.taken) + Contents(s'.ring, s'.count) == s'.added
  {
    var v := Item(s, p);
    WriteKeepsContents(s.ring, s.count, v);
    AdvanceAppends(WriteRear(s.ring, v), s.count);
    var was := Contents(s.ring, s.count);
    assert Contents(s'.ring, s'.count) == was + [v];
    assert Values(s.taken) + (was + [v]) == (Values(s.taken) + was) + [v];
  }

  /** The same, after a removal. */
  lemma TakenContents(s: State, s': State, c: nat)
    requires Inv(s) && Delivery(s) && ConsumerData(s, s', c) && s.cons[c].CGet?
    ensures 0 <= s'.count && Holds(s'.ring, s'.count)
    ensures Values(s'.taken) + Contents(s'.ring, s'.count) == s'.added
  {
    AdvanceRemoves(s.ring, s.count);
    var was := Contents(s.ring, s.count);
    assert Values(s'.taken) == Values(s.taken) + [was[0]];
    assert was == [was[0]] + was[1..];
  }

  lemma AddKeepsDelivery(s: State, s': State, p: nat)
    requires Inv(s) && Delivery(s) && ProducerData(s, s', p) && s.prod[p].pc.PAdd?
    requires Progressed(s'.prod[p], s.maxItems) && ItemsDone(s'.prod[p]) == ItemsDone(s.prod[p]) + 1
    ensures Delivery(s')
  {
    assert AddedBy(s, p);
    AddedContents(s, s', p);
    ItemInRange(p, |s.prod|, s.maxItems, s.prod[p].i);
    forall q | 0 <= q < |s'.prod| ensures AddedBy(s', q) {
      AddKeepsAddedBy(s, s', p, q);
    }
  }

  lemma ProducerMoveKeepsDelivery(s: State, s': State, p: nat)
    requires Inv(s) && Delivery(s) && ProducerData(s, s', p) && Buffer(s')
    requires Progressed(s'.prod[p], s.maxItems)
    requires ItemsDone(s'.prod[p]) ==
               ItemsDone(s.prod[p]) + if s.prod[p].pc.PAdd? then 1 else 0
    ensures Delivery(s')
  {
    if s.prod[p].pc.PAdd? {
      AddKeepsDelivery(s, s', p);
    } else {
      forall q | 0 <= q < |s'.prod| ensures AddedBy(s', q) {
        assert AddedBy(s, q);
      }
    }
  }

  lemma ConsumerMoveKeepsDelivery(s: State, s': State, c: nat)
    requires Inv(s) && Delivery(s) && ConsumerData(s, s', c) && Buffer(s')
    ensures Delivery(s')
  {
    forall q | 0 <= q < |s'.prod| ensures AddedBy(s', q) {
      assert AddedBy(s, q);
    }
    if s.cons[c].CGet? {
      TakenContents(s, s', c);
    }
  }

  lemma StepKeepsDelivery(s: State, a: Action)
    requires Inv(s) && Delivery(s) && Enabled(s, a)
    ensures Delivery(Step(s, a))
  {
    StepKeepsInv(s, a);
    match a
    case Run(Producer(p), target) =>
      DataWakeKeepsDelivery(s, p, target);
      assert AddedBy(s, p);
      ProducerStepData(s, p, target);
      ProducerItems(s, p, target);
      ProducerMoveKeepsDelivery(AfterDataWake(s, p, target), ProducerStep(s, p, target), p);
    case Run(Consumer(c), target) =>
      SpaceWakeKeepsDelivery(s, c, target);
      ConsumerStepData(s, c, target);
      ConsumerMoveKeepsDelivery(AfterSpaceWake(s, c, target), ConsumerStep(s, c, target), c);
    case Spurious(Producer(p)) => WakeKeepsDelivery(s, None, Some(p));
    case Spurious(Consumer(c)) => WakeKeepsDelivery(s, Some(c), None);
  }

  lemma WakeKeepsDelivery(s: State, data: Option<nat>, space: Option<nat>)
    requires Delivery(s)
    requires data.Some? ==> SignalsData(s, data)
    requires space.Some? ==> SignalsSpace(s, space)
    ensures Delivery(WakeC(s, data)) && Delivery(WakeP(s, space))
  {
    forall p | 0 <= p < |s.prod| ensures AddedBy(WakeC(s, data), p) && AddedBy(WakeP(s, space), p) {
      assert AddedBy(s, p);
    }
  }

  lemma DataWakeKeepsDelivery(s: State, p: nat, target: Option<nat>)
    requires Inv(s) && Delivery(s) && ProducerEnabled(s, p, target)
    ensures Inv(AfterDataWake(s, p, target)) && Delivery(AfterDataWake(s, p, target))
  {
    if s.prod[p].pc.PSignal? || s.prod[p].pc.PSpinSignal? {
      DataWakeKeepsLocks(s, p, target);
      DataWakeGains(s, target);
      DataWakeKeepsRest(s, target);
      WakeKeepsDelivery(s, target, None);
    }
  }

  lemma SpaceWakeKeepsDelivery(s: State, c: nat, target: Option<nat>)
    requires Inv(s) && Delivery(s) && ConsumerEnabled(s, c, target)
    ensures Inv(AfterSpaceWake(s, c, target)) && Delivery(AfterSpaceWake(s, c, target))
  {
    if s.cons[c].CSignal? {
      SpaceWakeKeepsLocks(s, c, target);
      SpaceWakeGains(s, target);
      SpaceWakeKeepsRest(s, target);
      WakeKeepsDelivery(s, None, target);
    }
  }

  lemma InitDelivery(s: State)
    requires Init(s)
    ensures Delivery(s)
  {
    forall p | 0 <= p < |s.prod| ensures AddedBy(s, p) {
    }
  }

  lemma {:induction false} RunKeepsDelivery(states: seq<State>, actions: seq<Action>, k: nat)
    requires IsRun(states, actions) && k < |states|
    ensures Delivery(states[k])
  {
    if k == 0 {
      InitDelivery(states[0]);
    } else {
      RunKeepsDelivery(states, actions, k - 1);
      RunKeepsInv(states, actions, k - 1);
      StepKeepsDelivery(states[k - 1], actions[k - 1]);
    }
  }

  lemma {:induction false} RunKeepsShape(states: seq<State>, actions: seq<Action>, k: nat)
    requires IsRun(states, actions) && k < |states|
    ensures |states[k].prod| == |states[0].prod| && |states[k].cons| == |states[0].cons|
    ensures states[k].maxItems == states[0].maxItems
  {
    if k > 0 {
      RunKeepsShape(states, actions, k - 1);
      StepKeepsShape(states[k - 1], actions[k - 1]);
    }
  }

  lemma StepKeepsShape(s: State, a: Action)
    requires Enabled(s, a)
    ensures var s' := Step(s, a); |s'.prod| == |s.prod| && |s'.cons| == |s.cons| && s'.maxItems == s.maxItems
  {
    match a
    case Run(Producer(p), target) => ProducerStepWrites(s, p, target);
    case Run(Consumer(c), target) => ConsumerStepData(s, c, target);
    case Spurious(_) =>
  }

  // ----------------------------------------------------------- main results

  /** A consumer gives up only when every producer has added all of its items
      and the buffer is empty. */
  lemma ConsumersLeaveLast(states: seq<State>, actions: seq<Action>, k: nat, c: nat)
    requires IsRun(states, actions) && k < |states|
    requires c < |states[k].cons| && Leaving(states[k].cons[c])
    ensures states[k].count == 0
    ensures forall p :: 0 <= p < |states[k].prod| ==> ItemsDone(states[k].prod[p]) == states[k].maxItems
    ensures Values(states[k].taken) == states[k].added
  {
    var s := states[k];
    RunKeepsInv(states, actions, k);
    RunKeepsDelivery(states, actions, k);
    forall p | 0 <= p < |s.prod| ensures ItemsDone(s.prod[p]) == s.maxItems {
      assert AddedBy(s, p);
      SumAtLeast(s.prod, p, Registered);
    }
  }

  lemma {:induction false} BetweenPrefix(xs: seq<int>, n: nat, lo: int, hi: int)
    requires n <= |xs|
    ensures Between(xs[..n], lo, hi) <= Between(xs, lo, hi)
  {
    if n == |xs| {
      assert xs[..n] == xs;
    } else {
      var init := xs[..|xs| - 1];
      assert init[..n] == xs[..n];
      BetweenPrefix(init, n, lo, hi);
    }
  }

  /** In every reachable state the values received from producer `p` are its
      first items, in increasing order and without gaps. */
  lemma ReceivedInOrder(states: seq<State>, actions: seq<Action>, k: nat, p: nat)
    requires IsRun(states, actions) && k < |states| && p < |states[0].prod|
    ensures var base, m := p * states[0].maxItems, states[0].maxItems;
            exists n: nat :: n <= m && Between(Values(states[k].taken), base, base + m) == Numbers(base, n)
  {
    var s := states[k];
    RunKeepsDelivery(states, actions, k);
    RunKeepsShape(states, actions, k);
    assert AddedBy(s, p);
    var base, m := p * s.maxItems, s.maxItems;
    var received := Values(s.taken);
    assert s.added[..|received|] == received;
    BetweenPrefix(s.added, |received|, base, base + m);
    var got := Between(received, base, base + m);
    assert got == Numbers(base, ItemsDone(s.prod[p]))[..|got|] == Numbers(base, |got|);
  }

  lemma {:induction false} BetweenCounts(xs: seq<int>, lo: int, hi: int, v: int)
    requires lo < v <= hi
    ensures multiset(xs)[v] == multiset(Between(xs, lo, hi))[v]
  {
    if xs != [] {
      var init := xs[..|xs| - 1];
      assert xs == init + [xs[|xs| - 1]];
      BetweenCounts(init, lo, hi, v);
    }
  }

  lemma {:induction false} NumbersCount(a: int, n: nat, v: int)
    ensures multiset(Numbers(a, n))[v] == if a < v <= a + n then 1 else 0
  {
    if n > 0 {
      NumbersAppend(a, n - 1);
      NumbersCount(a, n - 1, v);
    }
  }

  ghost predicate ReceivedAllOf(received: seq<int>, p: nat, m: nat) {
    Between(received, p * m, p * m + m) == Numbers(p * m, m)
  }

  lemma NumberOnce(received: seq<int>, p: nat, m: nat, v: int)
    requires ReceivedAllOf(received, p, m) && p * m < v <= p * m + m
    ensures multiset(received)[v] == 1
  {
    BetweenCounts(received, p * m, p * m + m, v);
    NumbersCount(p * m, m, v);
  }

  lemma EachNumberOnce(received: seq<int>, n: nat, m: nat, top: int, v: int)
    requires top == n * m
    requires forall p :: 0 <= p < n ==> ReceivedAllOf(received, p, m)
    requires forall k :: 0 <= k < |received| ==> 0 < received[k] <= top
    ensures multiset(received)[v] == if 0 < v <= top then 1 else 0
  {
    if 0 < v <= top {
      var p := Producing(n, m, v);
      NumberOnce(received, p, m, v);
    } else {
      assert v !in received;
    }
  }

  /** When every thread has exited, the values received are exactly
      1, ..., producers * maxItems, each of them once. */
  lemma ExactlyOnce(states: seq<State>, actions: seq<Action>)
    requires IsRun(states, actions) && AllExited(states[|actions|])
    ensures multiset(Values(states[|actions|].taken)) ==
            multiset(Numbers(0, |states[0].prod| * states[0].maxItems))
  {
    var k := |actions|;
    var s, n, m := states[k], |states[0].prod|, states[0].maxItems;
    RunKeepsShape(states, actions, k);
    RunKeepsDelivery(states, actions, k);
    ConsumersLeaveLast(states, actions, k, 0);
    var received := Values(s.taken);
    forall p | 0 <= p < n ensures ReceivedAllOf(received, p, m) {
      assert AddedBy(s, p);
    }
    forall v: int ensures multiset(received)[v] == multiset(Numbers(0, n * m))[v] {
      EachNumberOnce(received, n, m, n * m, v);
      NumbersCount(0, n * m, v);
    }
  }

  /** The producer that item `v` comes from. */
  lemma Producing(n: nat, m: nat, v: int) returns (p: nat)
    requires 0 < v <= n * m
    ensures p < n && p * m < v <= p * m + m
  {
    if v > (n - 1) * m {
      p := n - 1;
    } else {
      p := Producing(n - 1, m, v);
    }
  }

  // ------------------------------------------------------------- who received what

  /** The values that consumer c received. */
  function ReceivedBy(taken: seq<Receipt>, c: nat): seq<int> {
    if taken == [] then []
    else
      var last := |taken| - 1;
      if taken[last].consumer == c then ReceivedBy(taken[..last], c) + [taken[last].value]
      else ReceivedBy(taken[..last], c)
  }

  /** What consumer c gets from the buffer in a step: the oldest unread value if it is in get_buffer. */
  ghost function GotNow(s: State, a: Action, c: nat): seq<int> {
    if a.Run? && a.t == Consumer(c) && IsGet(s, a) && 0 < s.count && Holds(s.ring, s.count)
    then [Contents(s.ring, s.count)[0]] else []
  }

  ghost function Gets(states: seq<State>, actions: seq<Action>, c: nat, k: nat): seq<int>
    requires IsRun(states, actions) && k <= |actions|
  {
    if k == 0 then [] else Gets(states, actions, c, k - 1) + GotNow(states[k - 1], actions[k - 1], c)
  }

  predicate IsGet(s: State, a: Action) {
    a.Run? && a.t.Consumer? && a.t.c < |s.cons| && s.cons[a.t.c].CGet?
  }

  lemma GetReceives(s: State, a: Action)
    requires Inv(s) && Delivery(s) && Enabled(s, a) && IsGet(s, a)
    ensures 0 < s.count && Holds(s.ring, s.count)
    ensures Step(s, a).taken == s.taken + [Receipt(a.t.c, Contents(s.ring, s.count)[0])]
  {
    AdvanceRemoves(s.ring, s.count);
  }

  lemma ProducerReceivesNothing(s: State, p: nat, target: Option<nat>)
    requires ProducerEnabled(s, p, target)
    ensures ProducerStep(s, p, target).taken == s.taken
  {
  }

  lemma ConsumerReceivesNothing(s: State, c: nat, target: Option<nat>)
    requires ConsumerEnabled(s, c, target) && !s.cons[c].CGet?
    ensures ConsumerStep(s, c, target).taken == s.taken
  {
  }

  lemma OthersReceiveNothing(s: State, a: Action)
    requires Enabled(s, a) && !IsGet(s, a)
    ensures Step(s, a).taken == s.taken
  {
    match a
    case Run(Producer(p), target) => ProducerReceivesNothing(s, p, target);
    case Run(Consumer(c), target) => ConsumerReceivesNothing(s, c, target);
    case Spurious(_) =>
  }

  lemma ReceivedAppend(taken: seq<Receipt>, r: Receipt, c: nat)
    ensures ReceivedBy(taken + [r], c) ==
            if r.consumer == c then ReceivedBy(taken, c) + [r.value] else ReceivedBy(taken, c)
  {
    assert (taken + [r])[..|taken|] == taken;
  }

  lemma StepGets(s: State, a: Action, c: nat)
    requires Inv(s) && Delivery(s) && Enabled(s, a)
    ensures ReceivedBy(Step(s, a).taken, c) == ReceivedBy(s.taken, c) + GotNow(s, a, c)
  {
    if IsGet(s, a) {
      GetReceives(s, a);
      ReceivedAppend(s.taken, Receipt(a.t.c, Contents(s.ring, s.count)[0]), c);
    } else {
      OthersReceiveNothing(s, a);
    }
  }

  /** Each consumer received just what its calls of get_buffer found as the oldest unread values. */
  lemma {:induction false} ReceivedAreGets(states: seq<State>, actions: seq<Action>, k: nat, c: nat)
    requires IsRun(states, actions) && k <= |actions|
    ensures ReceivedBy(states[k].taken, c) == Gets(states, actions, c, k)
  {
    if k > 0 {
      ReceivedAreGets(states, actions, k - 1, c);
      RunKeepsInv(states, actions, k - 1);
      RunKeepsDelivery(states, actions, k - 1);
      StepGets(states[k - 1], actions[k - 1], c);
    }
  }
}

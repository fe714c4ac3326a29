/** The shared-memory buffer as its callers see it: what is passed to add_next
    and what get_next returns. */
module ShmDelivery {
  import opened ShmBuffer

  /** The values of process p among those that the processes in `who` handled. */
  function Own(values: seq<int>, who: seq<nat>, p: nat): seq<int>
    requires |values| == |who|
  {
    if values == [] then []
    else
      var last := |values| - 1;
      if who[last] == p then Own(values[..last], who[..last], p) + [values[last]]
      else Own(values[..last], who[..last], p)
  }

  lemma OwnAppend(values: seq<int>, who: seq<nat>, v: int, q: nat, p: nat)
    requires |values| == |who|
    ensures Own(values + [v], who + [q], p) == if q == p then Own(values, who, p) + [v] else Own(values, who, p)
  {
    var last := |values|;
    assert (values + [v])[..last] == values && (who + [q])[..last] == who;
  }

  lemma {:induction false} OwnHolds(values: seq<int>, who: seq<nat>, i: nat)
    requires i < |values| == |who|
    ensures values[i] in Own(values, who, who[i])
    decreases |values|
  {
    var last := |values| - 1;
    if i < last {
      OwnHolds(values[..last], who[..last], i);
    }
  }

  // ------------------------------------------------------------- calls of add_next

  /** The arguments of the calls of add_next by producer p in the first k steps. */
  ghost function Calls(states: seq<State>, actions: seq<Action>, p: nat, k: nat): seq<int>
    requires IsRun(states, actions) && k <= |actions|
  {
    if k == 0 then []
    else
      var s, a := states[k - 1], actions[k - 1];
      if a.Produce? && a.p == p && s.prod[p].pc.PIdle? then Calls(states, actions, p, k - 1) + [a.data]
      else Calls(states, actions, p, k - 1)
  }

  /** The producers whose values were added, in this order. */
  ghost function Writers(states: seq<State>, actions: seq<Action>, k: nat): seq<nat>
    requires IsRun(states, actions) && k <= |actions|
  {
    if k == 0 then []
    else
      var s, a := states[k - 1], actions[k - 1];
      if a.Produce? && s.prod[a.p].pc.PAdvance? then Writers(states, actions, k - 1) + [a.p]
      else Writers(states, actions, k - 1)
  }

  /** The argument of a call that has not added it yet. */
  function Ongoing(pr: Prod): seq<int> {
    if pr.pc.PWaitEmpty? || pr.pc.PWaitMutex? || pr.pc.PWrite? || pr.pc.PAdvance? then [pr.data] else []
  }

  /** What a step does to the values added and to the call under way of producer p. */
  lemma StepOfProducer(s: State, a: Action, p: nat)
    requires Enabled(s, a) && p < |s.prod|
    ensures
      var s' := Step(s, a);
      && |s'.prod| == |s.prod|
      && (a.Produce? && s.prod[a.p].pc.PAdvance? ==> s'.added == s.added + [s.prod[a.p].data])
      && (!(a.Produce? && s.prod[a.p].pc.PAdvance?) ==> s'.added == s.added)
      && var mine := a.Produce? && a.p == p;
      && (mine && s.prod[p].pc.PIdle? ==> Ongoing(s.prod[p]) == [] && Ongoing(s'.prod[p]) == [a.data])
      && (mine && s.prod[p].pc.PAdvance? ==> Ongoing(s.prod[p]) == [s.prod[p].data] && Ongoing(s'.prod[p]) == [])
      && (!mine || (!s.prod[p].pc.PIdle? && !s.prod[p].pc.PAdvance?) ==> Ongoing(s'.prod[p]) == Ongoing(s.prod[p]))
  {
  }

  /** Each producer's values are added in the order of its calls: what it has added
      and the call under way are the arguments of all its calls. */
  lemma {:induction false} AddedAreCalls(states: seq<State>, actions: seq<Action>, k: nat, p: nat)
    requires IsRun(states, actions) && k <= |actions| && p < |states[0].prod|
    ensures |Writers(states, actions, k)| == |states[k].added| && |states[k].prod| == |states[0].prod|
    ensures Own(states[k].added, Writers(states, actions, k), p) + Ongoing(states[k].prod[p])
            == Calls(states, actions, p, k)
  {
    if k > 0 {
      AddedAreCalls(states, actions, k - 1, p);
      var s, a := states[k - 1], actions[k - 1];
      StepOfProducer(s, a, p);
      if a.Produce? && s.prod[a.p].pc.PAdvance? {
        OwnAppend(s.added, Writers(states, actions, k - 1), s.prod[a.p].data, a.p, p);
      }
      var called := Calls(states, actions, p, k - 1);
      if a.Produce? && a.p == p && s.prod[p].pc.PIdle? {
        assert Own(s.added, Writers(states, actions, k - 1), p) + [] == called;
      }
    }
  }

  lemma {:induction false} CallsWereMade(states: seq<State>, actions: seq<Action>, k: nat, p: nat, v: int)
    returns (j: nat)
    requires IsRun(states, actions) && k <= |actions| && v in Calls(states, actions, p, k)
    ensures j < k && actions[j] == Produce(p, v) && p < |states[j].prod| && states[j].prod[p].pc.PIdle?
  {
    var s, a := states[k - 1], actions[k - 1];
    if a.Produce? && a.p == p && s.prod[p].pc.PIdle? && a.data == v {
      j := k - 1;
    } else {
      j := CallsWereMade(states, actions, k - 1, p, v);
    }
  }

  lemma {:induction false} WritersAreProducers(states: seq<State>, actions: seq<Action>, k: nat, i: nat)
    requires IsRun(states, actions) && k <= |actions| && i < |Writers(states, actions, k)|
    ensures |states[k].prod| == |states[0].prod| && Writers(states, actions, k)[i] < |states[0].prod|
  {
    SameProducers(states, actions, k - 1);
    if i < |Writers(states, actions, k - 1)| {
      WritersAreProducers(states, actions, k - 1, i);
    }
    SameProducers(states, actions, k);
  }

  lemma {:induction false} SameProducers(states: seq<State>, actions: seq<Action>, k: nat)
    requires IsRun(states, actions) && k <= |actions|
    ensures |states[k].prod| == |states[0].prod| && |states[k].cons| == |states[0].cons|
  {
    if k > 0 {
      SameProducers(states, actions, k - 1);
      StepKeepsProcesses(states[k - 1], actions[k - 1]);
    }
  }

  lemma StepKeepsProcesses(s: State, a: Action)
    requires Enabled(s, a)
    ensures |Step(s, a).prod| == |s.prod| && |Step(s, a).cons| == |s.cons|
  {
  }

  /** Every value taken from the buffer was passed to an earlier call of add_next. */
  lemma TakenWasPassed(states: seq<State>, actions: seq<Action>, k: nat, i: nat) returns (p: nat, j: nat)
    requires IsRun(states, actions) && k <= |actions| && i < |states[k].taken|
    ensures j < k && p < |states[j].prod| && states[j].prod[p].pc.PIdle? && actions[j] == Produce(p, states[k].taken[i])
  {
    RunRefinesFifo(states, actions);
    var s, who := states[k], Writers(states, actions, k);
    assert s.taken[i] == s.added[i];
    WritersLength(states, actions, k);
    WritersAreProducers(states, actions, k, i);
    p := who[i];
    AddedAreCalls(states, actions, k, p);
    OwnHolds(s.added, who, i);
    j := CallsWereMade(states, actions, k, p, s.added[i]);
  }

  lemma {:induction false} WritersLength(states: seq<State>, actions: seq<Action>, k: nat)
    requires IsRun(states, actions) && k <= |actions|
    ensures |Writers(states, actions, k)| == |states[k].added|
  {
    if k > 0 {
      WritersLength(states, actions, k - 1);
      var s, a := states[k - 1], actions[k - 1];
      if a.Produce? {
        StepOfProducer(s, a, a.p);
      }
    }
  }

  // ------------------------------------------------------------- results of get_next

  /** What the calls of get_next by consumer c returned in the first k steps. */
  ghost function Returns(states: seq<State>, actions: seq<Action>, c: nat, k: nat): seq<int>
    requires IsRun(states, actions) && k <= |actions|
  {
    if k == 0 then []
    else
      var s, a := states[k - 1], actions[k - 1];
      if a == Consume(c) && s.cons[c].pc.CPostEmpty? && c < |states[k].cons|
      then Returns(states, actions, c, k - 1) + [states[k].cons[c].val]
      else Returns(states, actions, c, k - 1)
  }

  /** The consumers that took the values, in this order. */
  ghost function Readers(states: seq<State>, actions: seq<Action>, k: nat): seq<nat>
    requires IsRun(states, actions) && k <= |actions|
  {
    if k == 0 then []
    else
      var s, a := states[k - 1], actions[k - 1];
      if a.Consume? && s.cons[a.c].pc.CAdvance? then Readers(states, actions, k - 1) + [a.c]
      else Readers(states, actions, k - 1)
  }

  /** The value of a call that has taken it and not returned yet. */
  function Held(co: Cons): seq<int> {
    if co.pc.CPostMutex? || co.pc.CPostEmpty? then [co.val] else []
  }

  lemma StepOfConsumer(s: State, a: Action, c: nat)
    requires Enabled(s, a) && c < |s.cons|
    ensures
      var s' := Step(s, a);
      && |s'.cons| == |s.cons|
      && (a.Consume? && s.cons[a.c].pc.CAdvance? ==> s'.taken == s.taken + [s.cons[a.c].val])
      && (!(a.Consume? && s.cons[a.c].pc.CAdvance?) ==> s'.taken == s.taken)
      && var mine := a == Consume(c);
      && (mine && s.cons[c].pc.CAdvance? ==> Held(s.cons[c]) == [] && Held(s'.cons[c]) == [s.cons[c].val])
      && (mine && s.cons[c].pc.CPostEmpty? ==> Held(s.cons[c]) == [s'.cons[c].val] && Held(s'.cons[c]) == [])
      && (!mine || (!s.cons[c].pc.CAdvance? && !s.cons[c].pc.CPostEmpty?) ==> Held(s'.cons[c]) == Held(s.cons[c]))
  {
  }

  /** Each consumer's calls return the values that it took, in this order. */
  lemma {:induction false} TakenAreReturned(states: seq<State>, actions: seq<Action>, k: nat, c: nat)
    requires IsRun(states, actions) && k <= |actions| && c < |states[0].cons|
    ensures |Readers(states, actions, k)| == |states[k].taken| && |states[k].cons| == |states[0].cons|
    ensures Own(states[k].taken, Readers(states, actions, k), c)
            == Returns(states, actions, c, k) + Held(states[k].cons[c])
  {
    if k > 0 {
      TakenAreReturned(states, actions, k - 1, c);
      var s, a := states[k - 1], actions[k - 1];
      StepOfConsumer(s, a, c);
      if a.Consume? && s.cons[a.c].pc.CAdvance? {
        OwnAppend(s.taken, Readers(states, actions, k - 1), s.cons[a.c].val, a.c, c);
      }
      var returned := Returns(states, actions, c, k - 1);
      if a == Consume(c) && s.cons[c].pc.CAdvance? {
        assert returned + Held(s.cons[c]) == returned;
      } else if a == Consume(c) && s.cons[c].pc.CPostEmpty? {
        assert Returns(states, actions, c, k) + Held(states[k].cons[c]) == returned + Held(s.cons[c]);
      }
    }
  }

  // ------------------------------------------------------------- calls are served

  /** How many calls of get_next consumer c began in the first k steps. */
  ghost function GetCalls(states: seq<State>, actions: seq<Action>, c: nat, k: nat): nat
    requires IsRun(states, actions) && k <= |actions|
  {
    if k == 0 then 0
    else
      var s, a := states[k - 1], actions[k - 1];
      GetCalls(states, actions, c, k - 1) + if a == Consume(c) && s.cons[c].pc.CIdle? then 1 else 0
  }

  /** How many of the first k steps producer p, or consumer c, takes. */
  ghost function StepsOfProducer(states: seq<State>, actions: seq<Action>, p: nat, k: nat): nat
    requires IsRun(states, actions) && k <= |actions|
  {
    if k == 0 then 0
    else
      var a := actions[k - 1];
      StepsOfProducer(states, actions, p, k - 1) + if a.Produce? && a.p == p then 1 else 0
  }

  ghost function StepsOfConsumer(states: seq<State>, actions: seq<Action>, c: nat, k: nat): nat
    requires IsRun(states, actions) && k <= |actions|
  {
    if k == 0 then 0
    else StepsOfConsumer(states, actions, c, k - 1) + if actions[k - 1] == Consume(c) then 1 else 0
  }

  /** How many steps a call still takes. */
  function LeftToAdd(pc: ProdPc): nat {
    match pc
    case PIdle => 0
    case PWaitEmpty => 6
    case PWaitMutex => 5
    case PWrite => 4
    case PAdvance => 3
    case PPostMutex => 2
    case PPostFilled => 1
  }

  function LeftToGet(pc: ConsPc): nat {
    match pc
    case CIdle => 0
    case CWaitFilled => 6
    case CWaitMutex => 5
    case CRead => 4
    case CAdvance => 3
    case CPostMutex => 2
    case CPostEmpty => 1
  }

  lemma StepLowersCall(s: State, a: Action)
    requires Enabled(s, a)
    ensures
      var s' := Step(s, a);
      && |s'.prod| == |s.prod| && |s'.cons| == |s.cons|
      && (forall p :: 0 <= p < |s.prod| ==>
            LeftToAdd(s'.prod[p].pc) ==
            if !a.Produce? || a.p != p then LeftToAdd(s.prod[p].pc)
            else if s.prod[p].pc.PIdle? then 6 else LeftToAdd(s.prod[p].pc) - 1)
      && (forall c :: 0 <= c < |s.cons| ==>
            LeftToGet(s'.cons[c].pc) ==
            if a != Consume(c) then LeftToGet(s.cons[c].pc)
            else if s.cons[c].pc.CIdle? then 6 else LeftToGet(s.cons[c].pc) - 1)
  {
  }

  /** Every call of add_next is seven steps of the producer, whatever the others do. */
  lemma {:induction false} AddTakesSevenSteps(states: seq<State>, actions: seq<Action>, k: nat, p: nat)
    requires IsRun(states, actions) && k <= |actions| && p < |states[0].prod|
    ensures |states[k].prod| == |states[0].prod|
    ensures StepsOfProducer(states, actions, p, k) + LeftToAdd(states[k].prod[p].pc)
            == 7 * |Calls(states, actions, p, k)|
  {
    if k > 0 {
      AddTakesSevenSteps(states, actions, k - 1, p);
      StepLowersCall(states[k - 1], actions[k - 1]);
    }
  }

  /** Every call of get_next is seven steps of the consumer, and returns one value. */
  lemma {:induction false} GetTakesSevenSteps(states: seq<State>, actions: seq<Action>, k: nat, c: nat)
    requires IsRun(states, actions) && k <= |actions| && c < |states[0].cons|
    ensures |states[k].cons| == |states[0].cons|
    ensures StepsOfConsumer(states, actions, c, k) + LeftToGet(states[k].cons[c].pc)
            == 7 * GetCalls(states, actions, c, k)
    ensures GetCalls(states, actions, c, k)
            == |Returns(states, actions, c, k)| + if states[k].cons[c].pc.CIdle? then 0 else 1
  {
    if k > 0 {
      GetTakesSevenSteps(states, actions, k - 1, c);
      StepLowersCall(states[k - 1], actions[k - 1]);
    }
  }
}

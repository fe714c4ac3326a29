/** sync_io_demo.c: how long a run can be, and where it ends. */
module SyncIoProgress {
  import opened SyncIo

  function RoundsLeft(s: State): int {
    20 * (ROUNDS - s.child.count)
  }

  function ChildRank(s: State): int {
    match s.child.pc
    case CTest => if s.child.done then 1 else RoundsLeft(s)
    case CSeek => RoundsLeft(s) - 1
    case CWrite => RoundsLeft(s) - 2
    case CSave => RoundsLeft(s) - 3
    case CCount => RoundsLeft(s) - 4
    case CNotify => RoundsLeft(s) + 12
    case CLast => 12
    case CAtPause => RoundsLeft(s) + 1
    case CWaiting => RoundsLeft(s)
    case CExited => 0
    case CFailed => 0
  }

  function ParentRank(pc: ParentPc): int {
    match pc
    case PAtPause => 1
    case PWaiting => 0
    case PSize => 9
    case PSeek => 8
    case PRead => 7
    case PBranch => 6
    case PTail => 5
    case PSave => 5
    case PNotify => 4
    case PExited => 0
    case PFailed => 0
  }

  function SignalRank(s: State): int {
    (if s.usr1 then 10 else 0) + (if s.usr2 then 10 else 0) + if s.toChild then 2 else 0
  }

  /** The bytes that are still to be written or to be read in whole chunks. */
  function BytesLeft(s: State): int {
    |s.data| * (ROUNDS - s.child.writes) + if Stopped(s.parent.pc) then 0 else |s.file| - Shown(s)
  }

  function Rank(s: State): int {
    ChildRank(s) + ParentRank(s.parent.pc) + SignalRank(s) + BytesLeft(s)
  }

  lemma RankNonNegative(s: State)
    requires Inv(s)
    ensures Rank(s) >= 0
  {
    BytesNonNegative(s);
  }

  lemma BytesNonNegative(s: State)
    requires Inv(s)
    ensures BytesLeft(s) >= 0
  {
    Product(|s.data|, ROUNDS - s.child.writes);
  }

  lemma Product(a: nat, b: nat)
    ensures a * b >= 0
  {
  }

  lemma ChildPays(s: State)
    requires Inv(s) && Enabled(s, Child)
    ensures Rank(ChildStep(s)) < Rank(s)
  {
    ChildKeepsShown(s);
    ChildRankFalls(s);
  }

  lemma ChildRankFalls(s: State)
    requires Inv(s) && Enabled(s, Child)
    ensures ChildRank(ChildStep(s)) + SignalRank(ChildStep(s)) < ChildRank(s) + SignalRank(s)
    ensures ChildStep(s).child.writes == s.child.writes && ChildStep(s).data == s.data
  {
  }

  lemma ParentPays(s: State)
    requires Inv(s) && Enabled(s, Parent)
    ensures Rank(ParentStep(s)) < Rank(s)
  {
    ParentKeepsShown(s);
    ParentRankFalls(s);
    RankNonNegative(s);
  }

  lemma ParentRankFalls(s: State)
    requires Inv(s) && Enabled(s, Parent)
    ensures var s' := ParentStep(s);
            && ParentRank(s'.parent.pc) + SignalRank(s') < ParentRank(s.parent.pc) + SignalRank(s)
            && s'.child == s.child && s'.data == s.data && !Stopped(s'.parent.pc)
  {
  }

  /** A write leaves no more to do than before. */
  lemma WriteBytes(s: State, k: int)
    requires Inv(s) && Enabled(s, Write(k))
    ensures BytesLeft(WriteStep(s, k)) <= BytesLeft(s)
  {
    ChildAlone(s);
    if k >= 0 {
      WriteAppends(s, k);
      OneLess(|s.data|, ROUNDS - s.child.writes);
      assert Shown(WriteStep(s, k)) == Shown(s);
    }
  }

  lemma OneLess(a: int, b: int)
    ensures a * (b - 1) == a * b - a
  {
  }

  lemma WritePays(s: State, k: int)
    requires Inv(s) && Enabled(s, Write(k))
    ensures Rank(WriteStep(s, k)) < Rank(s)
  {
    WriteBytes(s, k);
  }

  lemma ReadPays(s: State, k: int)
    requires Inv(s) && Enabled(s, Read(k))
    ensures Rank(ReadStep(s, k)) < Rank(s)
  {
  }

  lemma TailPays(s: State, k: int)
    requires Inv(s) && Enabled(s, ReadTail(k))
    ensures Rank(TailStep(s, k)) < Rank(s)
  {
  }

  lemma DeliveryPays(s: State, a: Action)
    requires Inv(s) && Enabled(s, a) && (a.DeliverToChild? || a.DeliverUsr1? || a.DeliverUsr2?)
    ensures Rank(DeliverStep(s, a)) < Rank(s)
  {
    DeliverKeepsShown(s, a);
  }

  lemma StepPays(s: State, a: Action)
    requires Inv(s) && Enabled(s, a)
    ensures Rank(Step(s, a)) < Rank(s)
  {
    match a
    case Child => ChildPays(s);
    case Write(k) => WritePays(s, k);
    case Parent => ParentPays(s);
    case Read(k) => ReadPays(s, k);
    case ReadTail(k) => TailPays(s, k);
    case _ => DeliveryPays(s, a);
  }

  lemma {:induction false} Falls(ranks: seq<int>, k: nat)
    requires k < |ranks| && forall i :: 0 < i < |ranks| ==> ranks[i] < ranks[i - 1]
    ensures k + ranks[k] <= ranks[0]
  {
    if k > 0 {
      Falls(ranks, k - 1);
    }
  }

  lemma NextRank(states: seq<State>, actions: seq<Action>, k: nat)
    requires IsRun(states, actions) && 0 < k < |states|
    ensures Rank(states[k]) < Rank(states[k - 1])
  {
    RunKeepsInv(states, actions, k - 1);
    StepPays(states[k - 1], actions[k - 1]);
  }

  lemma StepsArePaid(states: seq<State>, actions: seq<Action>)
    requires IsRun(states, actions)
    ensures |actions| + Rank(states[|actions|]) <= Rank(states[0])
  {
    var ranks := seq(|states|, i requires 0 <= i < |states| => Rank(states[i]));
    forall i | 0 < i < |ranks| ensures ranks[i] < ranks[i - 1] {
      NextRank(states, actions, i);
    }
    Falls(ranks, |actions|);
  }

  /** Every run ends, whatever the calls return and whenever signals are delivered. */
  lemma RunsAreBounded(states: seq<State>, actions: seq<Action>)
    requires IsRun(states, actions)
    ensures |actions| <= 20 * |states[0].data| + 401
  {
    StepsArePaid(states, actions);
    RunKeepsInv(states, actions, |actions|);
    RankNonNegative(states[|actions|]);
  }

  /** A run that cannot go on has ended with both processes gone, unless a signal was
      lost or a call failed. */
  lemma EndsWell(states: seq<State>, actions: seq<Action>, k: nat)
    requires IsRun(states, actions) && k < |states| && !states[k].lost
    requires forall a :: !Enabled(states[k], a)
    ensures var s := states[k];
            (s.parent.pc.PExited? && s.child.pc.CExited?) || s.parent.pc.PFailed? || s.child.pc.CFailed?
  {
    RunKeepsInv(states, actions, k);
    var s := states[k];
    if !Ended(s) {
      StuckIffSignalLost(states, actions, k);
      assert false;
    }
    if s.parent.pc.PExited? {
      assert !Enabled(s, Child);
    }
  }
}

/** What spl_last.c makes of a sequence of login records. The program handles
    the records from the last to the first; here `rs` is what it has handled. */
module LastSpec {
  import opened Common

  datatype UtType =
    | RunLvl | BootTime | NewTime | OldTime | InitProcess | LoginProcess
    | UserProcess | DeadProcess | ShutdownTime | OtherType

  datatype Record = Record(utType: UtType, user: string, line: string, time: int)

  /** One call of print_one_line; the end time is unknown when it is read before it is set. */
  datatype Printed = Printed(ut: Record, end: Option<int>)

  datatype Verdict = StillRunning | StillLoggedIn | Gone | Lasted(secs: int) | Unknown

  /** What print_one_line prints for the end of a session. */
  function Duration(p: Printed): Verdict {
    match p.end
    case None => Unknown
    case Some(end) =>
      if p.ut.utType.BootTime? && end == 0 then StillRunning
      else if p.ut.utType.UserProcess? && end == 0 then StillLoggedIn
      else if p.ut.utType.UserProcess? && end == -1 then Gone
      else Lasted(end - p.ut.time)
  }

  /** How long a session lasted, in the form in which it is printed. */
  datatype TimeDiff = TimeDiff(days: int, hours: int, minutes: int)

  /** Division and remainder of C, which round toward zero. */
  function CDiv(a: int, b: int): int
    requires b > 0
  {
    if a >= 0 then a / b else -(-a / b)
  }

  function CMod(a: int, b: int): int
    requires b > 0
  {
    a - b * CDiv(a, b)
  }

  function FormatTimeDiff(secs: int): TimeDiff {
    TimeDiff(CDiv(secs, 86400), CMod(CDiv(secs, 3600), 24), CMod(CDiv(secs, 60), 60))
  }

  /** Days, hours and minutes are the length of the session without the odd seconds. */
  lemma TimeDiffIs(secs: int)
    ensures var t := FormatTimeDiff(secs);
            && var whole := 86400 * t.days + 3600 * t.hours + 60 * t.minutes;
            if secs >= 0 then whole <= secs < whole + 60 && 0 <= t.hours < 24 && 0 <= t.minutes < 60
            else whole - 60 < secs <= whole && -24 < t.hours <= 0 && -60 < t.minutes <= 0
  {
    var n := if secs >= 0 then secs else -secs;
    Nested(n);
  }

  lemma Nested(n: nat)
    ensures n / 3600 == n / 60 / 60 && n / 86400 == n / 3600 / 24
  {
  }

  /** A shutdown is recognised by its line and user whatever its type is. */
  function Classify(r: Record): Record {
    if "~" <= r.line && "shutdown" <= r.user then r.(utType := ShutdownTime, line := "system down") else r
  }

  /** The variables of main's loop, with the linked list as a sequence. */
  datatype Loop = Loop(saved: seq<Record>, lastBoot: Option<int>, lastShutdown: int, printed: seq<Printed>)

  const Start := Loop([], None, 0, [])

  function Matching(saved: seq<Record>, line: string): seq<Record> {
    if saved == [] then []
    else if saved[0].line == line then [saved[0]] + Matching(saved[1..], line)
    else Matching(saved[1..], line)
  }

  function Others(saved: seq<Record>, line: string): seq<Record> {
    if saved == [] then []
    else if saved[0].line != line then [saved[0]] + Others(saved[1..], line)
    else Others(saved[1..], line)
  }

  function Sessions(login: Record, logouts: seq<Record>): seq<Printed> {
    seq(|logouts|, k requires 0 <= k < |logouts| => Printed(login, Some(logouts[k].time)))
  }

  /** One pass of main's loop. */
  function Handle(l: Loop, record: Record, showSysEvents: bool): Loop {
    var r := Classify(record);
    match r.utType
    case BootTime =>
      Loop([], Some(r.time), l.lastShutdown,
           l.printed + [Printed(r.(line := "system boot"), Some(l.lastShutdown))])
    case ShutdownTime =>
      Loop([], l.lastBoot, r.time, l.printed + if showSysEvents then [Printed(r, l.lastBoot)] else [])
    case UserProcess =>
      var logouts := Matching(l.saved, r.line);
      var lines := if logouts != [] then Sessions(r, logouts)
                   else [Printed(r, Some(if l.lastShutdown > 0 then -1 else 0))];
      l.(saved := Others(l.saved, r.line), printed := l.printed + lines)
    case DeadProcess =>
      if r.line == "" then l else l.(saved := [r] + l.saved)
    case _ => l
  }

  /** The loop after handling `rs`, last record first. */
  function After(rs: seq<Record>, showSysEvents: bool): Loop {
    if rs == [] then Start else Handle(After(rs[1..], showSysEvents), rs[0], showSysEvents)
  }

  // ------------------------------------------------ the meaning of the list

  /** The line begins with a tilde and the user with "shutdown". */
  predicate NamesShutdown(r: Record) {
    r.line != "" && r.line[0] == '~' && |r.user| >= 8 && r.user[..8] == "shutdown"
  }

  predicate IsShutdown(r: Record) { r.utType.ShutdownTime? || NamesShutdown(r) }
  predicate IsBoot(r: Record) { r.utType.BootTime? && !NamesShutdown(r) }
  predicate IsLogin(r: Record) { r.utType.UserProcess? && !NamesShutdown(r) }
  predicate IsLogout(r: Record) { r.utType.DeadProcess? && !NamesShutdown(r) && r.line != "" }

  /** The test of the program, two calls of strncmp, finds the shutdowns by the fields of the record. */
  lemma ClassifyIs(r: Record)
    ensures Classify(r) == if NamesShutdown(r) then r.(utType := ShutdownTime, line := "system down") else r
  {
    assert "~" <= r.line <==> r.line != "" && r.line[0] == '~';
    assert "shutdown" <= r.user <==> |r.user| >= 8 && r.user[..8] == "shutdown";
  }

  /** A record after which earlier logouts on `line` can no longer be matched. */
  predicate Closes(r: Record, line: string) {
    IsBoot(r) || IsShutdown(r) || (IsLogin(r) && r.line == line)
  }

  /** Record k is a logout that no earlier record has been matched with or has made stale. */
  ghost predicate Pending(rs: seq<Record>, k: nat)
    requires k < |rs|
  {
    IsLogout(rs[k]) && forall j :: 0 <= j < k ==> !Closes(rs[j], rs[k].line)
  }

  /** The pending logouts among the first n records, in chronological order. */
  ghost function PendingLogouts(rs: seq<Record>, n: nat): seq<Record>
    requires n <= |rs|
  {
    if n == 0 then []
    else if Pending(rs, n - 1) then PendingLogouts(rs, n - 1) + [rs[n - 1]]
    else PendingLogouts(rs, n - 1)
  }

  lemma {:induction false} MatchingAppend(a: seq<Record>, r: Record, line: string)
    ensures Matching(a + [r], line) == Matching(a, line) + if r.line == line then [r] else []
    ensures Others(a + [r], line) == Others(a, line) + if r.line != line then [r] else []
  {
    if a == [] {
      assert a + [r] == [r];
    } else {
      assert (a + [r])[1..] == a[1..] + [r];
      MatchingAppend(a[1..], r, line);
    }
  }

  /** What handling record r makes of the pending logouts of the later records. */
  function Update(r: Record, later: seq<Record>): seq<Record> {
    if IsLogout(r) then [r] + later
    else if IsBoot(r) || IsShutdown(r) then []
    else if IsLogin(r) then Others(later, r.line)
    else later
  }

  lemma UpdateAppend(r: Record, later: seq<Record>, k: Record)
    ensures Update(r, later + [k]) == if Closes(r, k.line) then Update(r, later) else Update(r, later) + [k]
  {
    if IsLogout(r) {
      assert [r] + (later + [k]) == [r] + later + [k];
    } else if IsLogin(r) {
      LoginUpdate(r, later, k);
    }
  }

  lemma LoginUpdate(r: Record, later: seq<Record>, k: Record)
    requires IsLogin(r)
    ensures Update(r, later + [k]) == if r.line == k.line then Update(r, later) else Update(r, later) + [k]
  {
    MatchingAppend(later, k, r.line);
    assert Others(later, r.line) + [] == Others(later, r.line);
  }

  lemma {:induction false} PendingAfter(r: Record, rest: seq<Record>, n: nat)
    requires n <= |rest|
    ensures PendingLogouts([r] + rest, n + 1) == Update(r, PendingLogouts(rest, n))
  {
    var rs := [r] + rest;
    if n == 0 {
      assert PendingLogouts(rs, 1) == if Pending(rs, 0) then [r] else [];
    } else {
      PendingAfter(r, rest, n - 1);
      PendingStep(r, rest, n - 1);
      UpdateAppend(r, PendingLogouts(rest, n - 1), rest[n - 1]);
      assert rs[n] == rest[n - 1];
    }
  }

  lemma PendingStep(r: Record, rest: seq<Record>, k: nat)
    requires k < |rest|
    ensures Pending([r] + rest, k + 1) <==> Pending(rest, k) && !Closes(r, rest[k].line)
  {
    var rs := [r] + rest;
    if Pending(rs, k + 1) {
      assert !Closes(rs[0], rs[k + 1].line);
      forall j | 0 <= j < k ensures !Closes(rest[j], rest[k].line) {
        assert rs[j + 1] == rest[j];
      }
    }
  }

  lemma HandleUpdates(l: Loop, r: Record, x: bool)
    ensures Handle(l, r, x).saved == Update(r, l.saved)
  {
    ClassifyIs(r);
  }

  /** The list always holds exactly the pending logouts, in chronological order. */
  lemma {:induction false} SavedIsPending(rs: seq<Record>, x: bool)
    ensures After(rs, x).saved == PendingLogouts(rs, |rs|)
  {
    if rs != [] {
      SavedIsPending(rs[1..], x);
      HandleUpdates(After(rs[1..], x), rs[0], x);
      assert rs == [rs[0]] + rs[1..];
      PendingAfter(rs[0], rs[1..], |rs| - 1);
    }
  }

  // ------------------------------------------------------- session end times

  predicate LogoutOn(r: Record, line: string) { IsLogout(r) && r.line == line }

  /** Record k is the first logout on the line, and nothing before it closes the line. */
  ghost predicate NearestLogout(rest: seq<Record>, line: string, k: int) {
    && 0 <= k < |rest| && LogoutOn(rest[k], line)
    && forall j :: 0 <= j < k ==> !Closes(rest[j], line) && !LogoutOn(rest[j], line)
  }

  /** Record k is a pending logout on the line. */
  ghost predicate PendingOn(rest: seq<Record>, line: string, k: int) {
    0 <= k < |rest| && rest[k].line == line && Pending(rest, k)
  }

  lemma MatchingStep(rest: seq<Record>, n: nat, line: string)
    requires 0 < n <= |rest|
    ensures Matching(PendingLogouts(rest, n), line) ==
            Matching(PendingLogouts(rest, n - 1), line) + if PendingOn(rest, line, n - 1) then [rest[n - 1]] else []
  {
    var before, last := PendingLogouts(rest, n - 1), rest[n - 1];
    if Pending(rest, n - 1) {
      MatchingAppend(before, last, line);
    } else {
      assert PendingLogouts(rest, n) == before;
    }
  }

  /** The first match in the list is the nearest logout, and there is a match
      exactly if there is a nearest logout. */
  lemma {:induction false} FirstMatchIsNearest(rest: seq<Record>, n: nat, line: string)
    requires n <= |rest|
    ensures var m := Matching(PendingLogouts(rest, n), line);
            && (m == [] ==> forall k :: 0 <= k < n ==> !NearestLogout(rest, line, k))
            && (m != [] ==> exists k :: 0 <= k < n && NearestLogout(rest, line, k) && rest[k] == m[0])
  {
    if n > 0 {
      FirstMatchIsNearest(rest, n - 1, line);
      MatchingStep(rest, n, line);
      var m := Matching(PendingLogouts(rest, n - 1), line);
      if NearestLogout(rest, line, n - 1) {
        assert PendingOn(rest, line, n - 1);
      }
      if m == [] && PendingOn(rest, line, n - 1) {
        NoneBeforeMeansNearest(rest, n - 1);
      }
    }
  }

  /** A pending logout without an earlier nearest logout on its line is the nearest. */
  lemma NoneBeforeMeansNearest(rest: seq<Record>, k: nat)
    requires k < |rest| && Pending(rest, k)
    requires forall j :: 0 <= j < k ==> !NearestLogout(rest, rest[k].line, j)
    ensures NearestLogout(rest, rest[k].line, k)
  {
    var line := rest[k].line;
    if j :| 0 <= j < k && LogoutOn(rest[j], line) {
      var first := FirstLogoutOn(rest, line, j);
      assert NearestLogout(rest, line, first);
    }
  }

  lemma FirstLogoutOn(rest: seq<Record>, line: string, k: nat) returns (first: nat)
    requires k < |rest| && LogoutOn(rest[k], line)
    ensures first <= k && LogoutOn(rest[first], line)
    ensures forall j :: 0 <= j < first ==> !LogoutOn(rest[j], line)
  {
    first := k;
    if j :| 0 <= j < k && LogoutOn(rest[j], line) {
      first := FirstLogoutOn(rest, line, j);
    }
  }

  ghost predicate ShutdownFollows(rest: seq<Record>) {
    exists k :: 0 <= k < |rest| && IsShutdown(rest[k])
  }

  ghost predicate PositiveTimes(rest: seq<Record>) {
    forall k :: 0 <= k < |rest| ==> rest[k].time > 0
  }

  lemma {:induction false} LastShutdownKnown(rs: seq<Record>, x: bool)
    requires PositiveTimes(rs)
    ensures After(rs, x).lastShutdown > 0 <==> ShutdownFollows(rs)
  {
    if rs != [] {
      LastShutdownKnown(rs[1..], x);
      ClassifyIs(rs[0]);
      if ShutdownFollows(rs[1..]) {
        var k :| 0 <= k < |rs[1..]| && IsShutdown(rs[1..][k]);
        assert IsShutdown(rs[k + 1]);
      }
      if IsShutdown(rs[0]) {
        assert ShutdownFollows(rs);
      } else if ShutdownFollows(rs) {
        var k :| 0 <= k < |rs| && IsShutdown(rs[k]);
        assert IsShutdown(rs[1..][k - 1]);
      }
    }
  }

  /** What the pass for the earliest record prints. */
  ghost function PrintedFor(r: Record, rest: seq<Record>, x: bool): seq<Printed> {
    Handle(After(rest, x), r, x).printed[|After(rest, x).printed|..]
  }

  lemma PrintedByAfter(r: Record, rest: seq<Record>, x: bool)
    ensures After([r] + rest, x).printed == After(rest, x).printed + PrintedFor(r, rest, x)
  {
    assert ([r] + rest)[1..] == rest;
  }

  /** The lines for all records, last record first. */
  ghost function Output(rs: seq<Record>, x: bool): seq<Printed> {
    if rs == [] then [] else Output(rs[1..], x) + PrintedFor(rs[0], rs[1..], x)
  }

  /** Where the lines for record i begin. */
  ghost function LinesBefore(rs: seq<Record>, i: nat, x: bool): nat
    requires i < |rs|
  {
    |Output(rs[i + 1..], x)|
  }

  /** What the program prints is, record by record, what it prints for each of them. */
  lemma {:induction false} PrintedIsOutput(rs: seq<Record>, x: bool)
    ensures After(rs, x).printed == Output(rs, x)
  {
    if rs != [] {
      PrintedIsOutput(rs[1..], x);
      PrintedByAfter(rs[0], rs[1..], x);
      assert [rs[0]] + rs[1..] == rs;
    }
  }

  lemma SliceOfSum(a: seq<Printed>, b: seq<Printed>, n: nat, m: nat)
    requires n <= m
    ensures m <= |a| ==> (a + b)[n..m] == a[n..m]
    ensures n == |a| && m == |a| + |b| ==> (a + b)[n..m] == b
  {
  }

  /** The lines for record i stand together in the output. */
  lemma {:induction false} LinesInOutput(rs: seq<Record>, i: nat, x: bool)
    requires i < |rs|
    ensures var n, lines := LinesBefore(rs, i, x), PrintedFor(rs[i], rs[i + 1..], x);
            n + |lines| <= |Output(rs, x)| && Output(rs, x)[n..n + |lines|] == lines
  {
    var n, lines := LinesBefore(rs, i, x), PrintedFor(rs[i], rs[i + 1..], x);
    if i > 0 {
      LinesInOutput(rs[1..], i - 1, x);
      assert rs[1..][i..] == rs[i + 1..] && rs[1..][i - 1] == rs[i];
    }
    SliceOfSum(Output(rs[1..], x), PrintedFor(rs[0], rs[1..], x), n, n + |lines|);
  }

  lemma LinesOfRecord(rs: seq<Record>, i: nat, x: bool)
    requires i < |rs|
    ensures var n, lines := LinesBefore(rs, i, x), PrintedFor(rs[i], rs[i + 1..], x);
            n + |lines| <= |After(rs, x).printed| && After(rs, x).printed[n..n + |lines|] == lines
  {
    PrintedIsOutput(rs, x);
    LinesInOutput(rs, i, x);
  }

  // ----------------------------------------------------------- main results

  ghost predicate HasLogout(rest: seq<Record>, line: string) {
    exists k :: NearestLogout(rest, line, k)
  }

  /** The first line printed for a login ends the session at the nearest later
      logout on its line, provided no boot, shutdown or login on that line comes between. */
  lemma MatchedLogin(r: Record, rest: seq<Record>, k: nat, x: bool)
    requires IsLogin(r) && NearestLogout(rest, r.line, k)
    ensures var out := PrintedFor(r, rest, x);
            && |out| > 0 && out[0] == Printed(r, Some(rest[k].time))
            && (rest[k].time > 0 ==> Duration(out[0]) == Lasted(rest[k].time - r.time))
  {
    ClassifyIs(r);
    SavedIsPending(rest, x);
    FirstMatchIsNearest(rest, |rest|, r.line);
    var logouts := Matching(After(rest, x).saved, r.line);
    var n :| 0 <= n < |rest| && NearestLogout(rest, r.line, n) && rest[n] == logouts[0];
    OnlyOneNearest(rest, r.line, k, n);
    assert PrintedFor(r, rest, x) == Sessions(r, logouts);
  }

  // --------------------------------------------------------- a line for each logout

  ghost predicate TwoPending(rest: seq<Record>, line: string) {
    PairBefore(rest, line, |rest|)
  }

  /** Two of the first n records are pending logouts on the line. */
  ghost predicate PairBefore(rest: seq<Record>, line: string, n: nat) {
    exists i, k :: i < k < n && PendingOn(rest, line, i) && PendingOn(rest, line, k)
  }

  /** The matches in the list are the pending logouts on the line. */
  lemma {:induction false} MatchesArePending(rest: seq<Record>, n: nat, line: string)
    requires n <= |rest|
    ensures var m := Matching(PendingLogouts(rest, n), line);
            && (forall k :: k < n && PendingOn(rest, line, k) ==> rest[k] in m)
            && (forall l :: l in m ==> exists k :: k < n && PendingOn(rest, line, k) && rest[k] == l)
  {
    if n > 0 {
      MatchesArePending(rest, n - 1, line);
      MatchingStep(rest, n, line);
    }
  }

  ghost predicate AnyBefore(rest: seq<Record>, line: string, n: nat) {
    exists i :: i < n && PendingOn(rest, line, i)
  }

  lemma PairStep(rest: seq<Record>, line: string, n: nat)
    requires n > 0
    ensures PairBefore(rest, line, n) <==>
            PairBefore(rest, line, n - 1) || (PendingOn(rest, line, n - 1) && AnyBefore(rest, line, n - 1))
  {
  }

  ghost function MatchCount(rest: seq<Record>, n: nat, line: string): nat
    requires n <= |rest|
  {
    |Matching(PendingLogouts(rest, n), line)|
  }

  lemma CountStep(rest: seq<Record>, n: nat, line: string)
    requires 0 < n <= |rest|
    ensures MatchCount(rest, n, line) ==
            MatchCount(rest, n - 1, line) + if PendingOn(rest, line, n - 1) then 1 else 0
  {
    MatchingStep(rest, n, line);
  }

  lemma MatchIsPending(rest: seq<Record>, n: nat, line: string, l: Record) returns (k: nat)
    requires n <= |rest| && l in Matching(PendingLogouts(rest, n), line)
    ensures k < n && PendingOn(rest, line, k) && rest[k] == l
  {
    MatchesArePending(rest, n, line);
    k :| k < n && PendingOn(rest, line, k) && rest[k] == l;
  }

  lemma SomeMatch(rest: seq<Record>, n: nat, line: string)
    requires n <= |rest|
    ensures MatchCount(rest, n, line) > 0 <==> AnyBefore(rest, line, n)
  {
    MatchesArePending(rest, n, line);
    var m := Matching(PendingLogouts(rest, n), line);
    if |m| > 0 {
      var k := MatchIsPending(rest, n, line, m[0]);
    }
    if AnyBefore(rest, line, n) {
      var i :| i < n && PendingOn(rest, line, i);
      assert rest[i] in m;
    }
  }

  /** There are several matches exactly if two logouts are pending on the line. */
  lemma {:induction false} SeveralMatches(rest: seq<Record>, n: nat, line: string)
    requires n <= |rest|
    ensures MatchCount(rest, n, line) > 1 <==> PairBefore(rest, line, n)
  {
    if n > 0 {
      SeveralMatches(rest, n - 1, line);
      CountStep(rest, n, line);
      PairStep(rest, line, n);
      SomeMatch(rest, n - 1, line);
    } else {
      assert Matching([], line) == [];
    }
  }

  lemma SessionsAre(r: Record, logouts: seq<Record>)
    ensures forall l :: l in logouts ==> Printed(r, Some(l.time)) in Sessions(r, logouts)
    ensures forall p :: p in Sessions(r, logouts) ==> p.ut == r && exists l :: l in logouts && p.end == Some(l.time)
  {
    var out := Sessions(r, logouts);
    forall l | l in logouts ensures Printed(r, Some(l.time)) in out {
      var i :| 0 <= i < |logouts| && logouts[i] == l;
      assert out[i] == Printed(r, Some(l.time));
    }
    forall p | p in out ensures p.ut == r && exists l :: l in logouts && p.end == Some(l.time) {
      var i :| 0 <= i < |out| && out[i] == p;
      assert logouts[i] in logouts;
    }
  }

  /** What is printed for a login, from the list at that time. */
  lemma LoginPrints(r: Record, rest: seq<Record>, x: bool)
    requires IsLogin(r)
    ensures var logouts := Matching(PendingLogouts(rest, |rest|), r.line);
            PrintedFor(r, rest, x) ==
            if logouts != [] then Sessions(r, logouts)
            else [Printed(r, Some(if After(rest, x).lastShutdown > 0 then -1 else 0))]
  {
    SavedIsPending(rest, x);
    ClassifyIs(r);
  }

  /** A login gets a line for each pending logout on its line, not only for the
      nearest: more than one line exactly if two of them are pending. */
  lemma LinesOfLogin(r: Record, rest: seq<Record>, x: bool)
    requires IsLogin(r)
    ensures var out := PrintedFor(r, rest, x);
            && |out| > 0 && (forall p :: p in out ==> p.ut == r)
            && (|out| > 1 <==> TwoPending(rest, r.line))
            && (forall k :: PendingOn(rest, r.line, k) ==> Printed(r, Some(rest[k].time)) in out)
            && (HasLogout(rest, r.line) ==>
                  forall p :: p in out ==> exists k :: PendingOn(rest, r.line, k) && p.end == Some(rest[k].time))
  {
    LoginPrints(r, rest, x);
    MatchesArePending(rest, |rest|, r.line);
    SeveralMatches(rest, |rest|, r.line);
    var logouts := Matching(PendingLogouts(rest, |rest|), r.line);
    SessionsAre(r, logouts);
    if logouts == [] {
      NoMatchNoLogout(rest, r.line);
    }
  }

  /** The times of the pending logouts on the line among the first n records, in order. */
  ghost function PendingTimes(rest: seq<Record>, line: string, n: nat): seq<int>
    requires n <= |rest|
  {
    if n == 0 then []
    else if PendingOn(rest, line, n - 1) then PendingTimes(rest, line, n - 1) + [rest[n - 1].time]
    else PendingTimes(rest, line, n - 1)
  }

  lemma {:induction false} MatchingTimes(rest: seq<Record>, line: string, n: nat)
    requires n <= |rest|
    ensures var m, times := Matching(PendingLogouts(rest, n), line), PendingTimes(rest, line, n);
            |m| == |times| && forall i :: 0 <= i < |m| ==> m[i].time == times[i]
  {
    if n > 0 {
      MatchingTimes(rest, line, n - 1);
      MatchingStep(rest, n, line);
    } else {
      assert Matching([], line) == [];
    }
  }

  /** The lines for a login follow each other in the order of the logouts. */
  lemma LinesInOrder(r: Record, rest: seq<Record>, x: bool)
    requires IsLogin(r)
    ensures var out, times := PrintedFor(r, rest, x), PendingTimes(rest, r.line, |rest|);
            times != [] ==> |out| == |times| && forall i :: 0 <= i < |out| ==> out[i] == Printed(r, Some(times[i]))
  {
    LoginPrints(r, rest, x);
    MatchingTimes(rest, r.line, |rest|);
  }

  lemma NoMatchNoLogout(rest: seq<Record>, line: string)
    requires Matching(PendingLogouts(rest, |rest|), line) == []
    ensures !HasLogout(rest, line)
  {
    FirstMatchIsNearest(rest, |rest|, line);
  }

  /** A login and two logouts on its line: it is listed twice. */
  lemma ListedTwiceExample()
    ensures var login := Record(UserProcess, "ann", "tty1", 5);
            var rest := [Record(DeadProcess, "", "tty1", 7), Record(DeadProcess, "", "tty1", 9)];
            PrintedFor(login, rest, false) == [Printed(login, Some(7)), Printed(login, Some(9))]
  {
    var login, a, b := Record(UserProcess, "ann", "tty1", 5), Record(DeadProcess, "", "tty1", 7),
      Record(DeadProcess, "", "tty1", 9);
    assert [a, b][1..] == [b] && [b][1..] == [];
    assert After([b], false) == Loop([b], None, 0, []);
    assert After([a, b], false) == Loop([a, b], None, 0, []);
    assert Matching([b], "tty1") == [b] && Matching([a, b], "tty1") == [a, b];
    assert PrintedFor(login, [a, b], false) == Sessions(login, [a, b]);
  }

  lemma OnlyOneNearest(rest: seq<Record>, line: string, k: nat, n: nat)
    requires NearestLogout(rest, line, k) && NearestLogout(rest, line, n)
    ensures k == n
  {
    assert LogoutOn(rest[k], line) && LogoutOn(rest[n], line);
  }

  /** A login without such a logout gets one line, which says "gone" if a
      shutdown follows and "still logged in" otherwise. */
  lemma UnmatchedLogin(r: Record, rest: seq<Record>, x: bool)
    requires IsLogin(r) && PositiveTimes(rest) && !HasLogout(rest, r.line)
    ensures var out := PrintedFor(r, rest, x);
            && |out| == 1 && out[0].ut == r
            && Duration(out[0]) == if ShutdownFollows(rest) then Gone else StillLoggedIn
  {
    ClassifyIs(r);
    SavedIsPending(rest, x);
    LastShutdownKnown(rest, x);
    FirstMatchIsNearest(rest, |rest|, r.line);
    assert Matching(After(rest, x).saved, r.line) == [];
    var end := if After(rest, x).lastShutdown > 0 then -1 else 0;
    assert PrintedFor(r, rest, x) == [Printed(r, Some(end))];
  }

  /** A line that tells how the session of login r ended: at the nearest logout, or
      without one, and then whether a shutdown followed. */
  ghost predicate TellsEnd(p: Printed, r: Record, rest: seq<Record>) {
    && p.ut == r
    && (forall k :: NearestLogout(rest, r.line, k) ==>
          p.end == Some(rest[k].time) && Duration(p) == Lasted(rest[k].time - r.time))
    && (!HasLogout(rest, r.line) ==> Duration(p) == if ShutdownFollows(rest) then Gone else StillLoggedIn)
  }

  lemma FirstLineOfLogin(r: Record, rest: seq<Record>, x: bool)
    requires IsLogin(r) && PositiveTimes(rest)
    ensures var lines := PrintedFor(r, rest, x); |lines| > 0 && TellsEnd(lines[0], r, rest)
  {
    LinesOfLogin(r, rest, x);
    forall k | NearestLogout(rest, r.line, k)
      ensures var lines := PrintedFor(r, rest, x);
              lines[0].end == Some(rest[k].time) && Duration(lines[0]) == Lasted(rest[k].time - r.time)
    {
      MatchedLogin(r, rest, k, x);
    }
    if !HasLogout(rest, r.line) {
      UnmatchedLogin(r, rest, x);
    }
  }

  lemma FirstOfSlice(out: seq<Printed>, n: nat, lines: seq<Printed>)
    requires lines != [] && n + |lines| <= |out| && out[n..n + |lines|] == lines
    ensures out[n] == lines[0]
  {
    assert out[n..n + |lines|][0] == out[n];
  }

  lemma LaterTimes(rs: seq<Record>, i: nat)
    requires i < |rs| && PositiveTimes(rs)
    ensures PositiveTimes(rs[i + 1..])
  {
    var rest := rs[i + 1..];
    forall k | 0 <= k < |rest| ensures rest[k].time > 0 {
      assert rest[k] == rs[i + 1 + k];
    }
  }

  /** Every login of the file is in the output: first with the nearest later
      logout on its line if there is one, and with one line without an end time if
      not. More lines follow exactly if two logouts are pending on its line. */
  lemma EveryLoginIsListed(rs: seq<Record>, i: nat, x: bool)
    requires i < |rs| && IsLogin(rs[i]) && PositiveTimes(rs)
    ensures var n, rest, out := LinesBefore(rs, i, x), rs[i + 1..], After(rs, x).printed;
            && n < |out| && TellsEnd(out[n], rs[i], rest)
            && var lines := PrintedFor(rs[i], rest, x);
            && n + |lines| <= |out| && out[n..n + |lines|] == lines
            && (forall p :: p in lines ==> p.ut == rs[i])
            && (|lines| > 1 <==> TwoPending(rest, rs[i].line))
  {
    var r, rest := rs[i], rs[i + 1..];
    LaterTimes(rs, i);
    LinesOfRecord(rs, i, x);
    LinesOfLogin(r, rest, x);
    FirstLineOfLogin(r, rest, x);
    FirstOfSlice(After(rs, x).printed, LinesBefore(rs, i, x), PrintedFor(r, rest, x));
  }

  /** Logins, boots and, when asked for, shutdowns are listed, and nothing else. */
  lemma ListedIff(r: Record, rest: seq<Record>, x: bool)
    ensures PrintedFor(r, rest, x) != [] <==> IsLogin(r) || IsBoot(r) || (IsShutdown(r) && x)
  {
    ClassifyIs(r);
  }

  /** A shutdown as it is recorded, on the line "~", ends the session before it. */
  lemma ShutdownExample()
    ensures var login, down := Record(UserProcess, "ann", "tty1", 5), Record(RunLvl, "shutdown", "~", 7);
            && IsShutdown(down)
            && PrintedFor(login, [down], false) == [Printed(login, Some(-1))]
            && Duration(Printed(login, Some(-1))) == Gone
  {
    var login, down := Record(UserProcess, "ann", "tty1", 5), Record(RunLvl, "shutdown", "~", 7);
    ClassifyIs(down);
    assert "shutdown"[..8] == "shutdown";
    assert [down][1..] == [];
    assert After([down], false) == Loop([], None, 7, []);
    ClassifyIs(login);
  }

  /** Nothing that is recorded later ends a session on this line. */
  ghost predicate StillOpen(rest: seq<Record>, line: string) {
    forall j :: 0 <= j < |rest| ==> !Closes(rest[j], line)
  }

  /** The system was booted again, or the line used again, after the login. */
  ghost predicate Superseded(rest: seq<Record>, line: string) {
    exists j :: 0 <= j < |rest| && (IsBoot(rest[j]) || (IsLogin(rest[j]) && rest[j].line == line))
  }

  /** "gone" is only printed for sessions that are over. "still logged in" is
      right exactly if no boot and no login on the line follows, or a shutdown
      does: a boot without a recorded shutdown is overlooked. */
  lemma VerdictAccuracy(r: Record, rest: seq<Record>, x: bool)
    requires IsLogin(r) && PositiveTimes(rest) && !HasLogout(rest, r.line)
    ensures var out := PrintedFor(r, rest, x);
            && |out| == 1
            && (Duration(out[0]) == Gone ==> !StillOpen(rest, r.line))
            && ((Duration(out[0]) == StillLoggedIn <==> StillOpen(rest, r.line))
                <==> ShutdownFollows(rest) || !Superseded(rest, r.line))
  {
    UnmatchedLogin(r, rest, x);
    if ShutdownFollows(rest) {
      var k :| 0 <= k < |rest| && IsShutdown(rest[k]);
      assert Closes(rest[k], r.line);
    } else if Superseded(rest, r.line) {
      var j :| 0 <= j < |rest| && (IsBoot(rest[j]) || (IsLogin(rest[j]) && rest[j].line == r.line));
      assert Closes(rest[j], r.line);
    }
  }

  /** A login, a crash and a boot: the session is listed as still logged in. */
  lemma CrashExample()
    ensures var login, boot := Record(UserProcess, "ann", "tty1", 5), Record(BootTime, "reboot", "~", 9);
            && PrintedFor(login, [boot], false) == [Printed(login, Some(0))]
            && Duration(Printed(login, Some(0))) == StillLoggedIn
            && !StillOpen([boot], login.line)
  {
    var login, boot := Record(UserProcess, "ann", "tty1", 5), Record(BootTime, "reboot", "~", 9);
    assert IsBoot([boot][0]);
    assert [boot][1..] == [];
    assert After([boot], false) == Loop([], Some(9), 0, [Printed(boot.(line := "system boot"), Some(0))]);
  }

  // ----------------------------------------------------------- boot lines

  /** Record k is the next shutdown. */
  ghost predicate NextShutdown(rest: seq<Record>, k: int) {
    0 <= k < |rest| && IsShutdown(rest[k]) && forall j :: 0 <= j < k ==> !IsShutdown(rest[j])
  }

  /** last_shutdown_time is the time of the next shutdown, and 0 when none follows. */
  lemma {:induction false} LastShutdownIs(rest: seq<Record>, x: bool)
    ensures forall k :: NextShutdown(rest, k) ==> After(rest, x).lastShutdown == rest[k].time
    ensures !ShutdownFollows(rest) ==> After(rest, x).lastShutdown == 0
  {
    if rest != [] {
      LastShutdownIs(rest[1..], x);
      ClassifyIs(rest[0]);
      assert forall k :: 0 < k < |rest| ==> rest[k] == rest[1..][k - 1];
      if k :| 0 <= k < |rest[1..]| && IsShutdown(rest[1..][k]) {
        assert IsShutdown(rest[k + 1]);
      }
      if IsShutdown(rest[0]) {
        assert forall k :: NextShutdown(rest, k) ==> k == 0;
      } else {
        forall k | NextShutdown(rest, k) ensures NextShutdown(rest[1..], k - 1) {
          assert forall j :: 0 <= j < k - 1 ==> rest[1..][j] == rest[j + 1];
        }
      }
    }
  }

  /** The system that was booted runs until record k, a shutdown or, after a crash, the next boot. */
  ghost predicate RunsUntil(rest: seq<Record>, k: int) {
    && 0 <= k < |rest| && (IsBoot(rest[k]) || IsShutdown(rest[k]))
    && forall j :: 0 <= j < k ==> !IsBoot(rest[j]) && !IsShutdown(rest[j])
  }

  ghost predicate StillUp(rest: seq<Record>) {
    forall k :: 0 <= k < |rest| ==> !IsBoot(rest[k]) && !IsShutdown(rest[k])
  }

  /** A boot gets one line. It ends at the next shutdown, which is the end of this
      run of the system unless another boot comes first; "still running" is printed
      exactly if no shutdown follows, and is right exactly if no boot follows either. */
  lemma BootLine(r: Record, rest: seq<Record>, x: bool)
    requires IsBoot(r) && PositiveTimes(rest)
    ensures var out := PrintedFor(r, rest, x);
            && |out| == 1 && out[0].ut == r.(line := "system boot")
            && (forall k :: NextShutdown(rest, k) ==>
                  out[0].end == Some(rest[k].time) && Duration(out[0]) == Lasted(rest[k].time - r.time))
            && (Duration(out[0]) == StillRunning <==> !ShutdownFollows(rest))
            && ((Duration(out[0]) == StillRunning <==> StillUp(rest)) <==> ShutdownFollows(rest) || !BootFollows(rest))
            && (forall k :: RunsUntil(rest, k) && IsShutdown(rest[k]) ==> out[0].end == Some(rest[k].time))
  {
    ClassifyIs(r);
    LastShutdownIs(rest, x);
    LastShutdownKnown(rest, x);
    assert PrintedFor(r, rest, x) == [Printed(r.(line := "system boot"), Some(After(rest, x).lastShutdown))];
    if k :| 0 <= k < |rest| && IsShutdown(rest[k]) {
      assert !StillUp(rest);
    }
    forall k | RunsUntil(rest, k) && IsShutdown(rest[k]) ensures NextShutdown(rest, k) {
    }
  }

  /** When the system crashed, so that a boot ends the run, the line of the
      earlier boot is wrong: it says "still running" or ends at a shutdown of a later run. */
  lemma CrashedBootLine(r: Record, rest: seq<Record>, k: nat, x: bool)
    requires IsBoot(r) && PositiveTimes(rest) && RunsUntil(rest, k) && IsBoot(rest[k])
    ensures var out := PrintedFor(r, rest, x);
            && |out| == 1
            && if ShutdownFollows(rest) then
                 exists n :: k < n < |rest| && IsShutdown(rest[n]) && out[0].end == Some(rest[n].time)
               else Duration(out[0]) == StillRunning && !StillUp(rest)
  {
    BootLine(r, rest, x);
    if ShutdownFollows(rest) {
      var j :| 0 <= j < |rest| && IsShutdown(rest[j]);
      var n := FirstShutdown(rest, j);
      assert NextShutdown(rest, n);
    }
  }

  lemma FirstShutdown(rest: seq<Record>, k: nat) returns (first: nat)
    requires k < |rest| && IsShutdown(rest[k])
    ensures NextShutdown(rest, first)
  {
    first := k;
    if j :| 0 <= j < k && IsShutdown(rest[j]) {
      first := FirstShutdown(rest, j);
    }
  }

  /** A boot, a crash and another boot: the first run of the system is listed as still running. */
  lemma CrashedBootExample()
    ensures var a, b := Record(BootTime, "reboot", "~", 5), Record(BootTime, "reboot", "~", 9);
            var line := Printed(a.(line := "system boot"), Some(0));
            PrintedFor(a, [b], false) == [line] && Duration(line) == StillRunning && !StillUp([b])
  {
    var a, b := Record(BootTime, "reboot", "~", 5), Record(BootTime, "reboot", "~", 9);
    assert RunsUntil([b], 0) && BootFollows([b]) && !ShutdownFollows([b]);
    BootLine(a, [b], false);
    LastShutdownIs([b], false);
  }

  // ----------------------------------------------------------- shutdown lines

  ghost predicate BootFollows(rest: seq<Record>) {
    exists k :: 0 <= k < |rest| && IsBoot(rest[k])
  }

  /** Record k is the next boot. */
  ghost predicate NextBoot(rest: seq<Record>, k: int) {
    0 <= k < |rest| && IsBoot(rest[k]) && forall j :: 0 <= j < k ==> !IsBoot(rest[j])
  }

  /** last_boot_time is the time of the next boot, and is unset exactly if no boot follows. */
  lemma {:induction false} LastBootKnownIff(rest: seq<Record>, x: bool)
    ensures After(rest, x).lastBoot.None? <==> !BootFollows(rest)
    ensures forall k :: NextBoot(rest, k) ==> After(rest, x).lastBoot == Some(rest[k].time)
  {
    if rest != [] {
      LastBootKnownIff(rest[1..], x);
      ClassifyIs(rest[0]);
      assert forall k :: 0 < k < |rest| ==> rest[k] == rest[1..][k - 1];
      if k :| 0 <= k < |rest[1..]| && IsBoot(rest[1..][k]) {
        assert IsBoot(rest[k + 1]);
      }
      if IsBoot(rest[0]) {
        assert forall k :: NextBoot(rest, k) ==> k == 0;
      } else {
        forall k | NextBoot(rest, k) ensures NextBoot(rest[1..], k - 1) {
          assert forall j :: 0 <= j < k - 1 ==> rest[1..][j] == rest[j + 1];
        }
      }
    }
  }

  /** The line for a shutdown ends at the next boot; when no boot follows, its end
      is whatever the unset variable holds. */
  lemma ShutdownLine(r: Record, rest: seq<Record>)
    requires IsShutdown(r)
    ensures var out := PrintedFor(r, rest, true);
            && |out| == 1
            && out[0].ut == r.(utType := ShutdownTime, line := if NamesShutdown(r) then "system down" else r.line)
            && (Duration(out[0]) == Unknown <==> !BootFollows(rest))
            && forall k :: NextBoot(rest, k) ==>
                 out[0].end == Some(rest[k].time) && Duration(out[0]) == Lasted(rest[k].time - r.time)
  {
    ClassifyIs(r);
    LastBootKnownIff(rest, true);
    assert PrintedFor(r, rest, true) == [Printed(Classify(r), After(rest, true).lastBoot)];
  }

  /** A file that ends with a shutdown: the end of its line was never set. */
  lemma UnsetBootExample()
    ensures var down := Record(RunLvl, "shutdown", "~~", 7);
            After([down], true).printed == [Printed(Classify(down), None)]
            && Duration(Printed(Classify(down), None)) == Unknown
  {
    var down := Record(RunLvl, "shutdown", "~~", 7);
    assert After([down][1..], true) == Start;
  }
}

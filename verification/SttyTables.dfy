/** spl_stty.c: its tables of flags and delays, with the masks of Linux, have the
    properties that setting and showing rely on. */
module SttyTables {
  import opened Stty

  function OutputFlags(): seq<Flag> {
    [Flag({0}, "opost"), Flag({1}, "olcuc"), Flag({3}, "ocrnl"), Flag({2}, "onlcr"), Flag({4}, "onocr"),
     Flag({5}, "onlret"), Flag({6}, "ofill"), Flag({7}, "ofdel"), Flag(AllBits(), "")]
  }

  function Delays(): seq<Delay> {
    [Delay({}, {13}, "bs0"), Delay({13}, {13}, "bs1"), Delay({}, {9, 10}, "cr0"), Delay({9}, {9, 10}, "cr1"),
     Delay({10}, {9, 10}, "cr2"), Delay({9, 10}, {9, 10}, "cr3"), Delay({}, {15}, "ff0"), Delay({15}, {15}, "ff1"),
     Delay({}, {8}, "nl0"), Delay({8}, {8}, "nl1"), Delay({}, {14}, "vt0"), Delay({14}, {14}, "vt1"),
     Delay({}, {11, 12}, "tab0"), Delay({}, {11, 12}, "-tabs"), Delay({11}, {11, 12}, "tab1"),
     Delay({12}, {11, 12}, "tab2"), Delay({11, 12}, {11, 12}, "tab3"), Delay({11, 12}, {11, 12}, "tabs"),
     Delay(AllBits(), {}, "")]
  }

  function InputFlags(): seq<Flag> {
    [Flag({0}, "ignbrk"), Flag({1}, "brkint"), Flag({2}, "ignpar"), Flag({3}, "parmrk"), Flag({4}, "inpck"),
     Flag({5}, "istrip"), Flag({6}, "inlcr"), Flag({7}, "igncr"), Flag({8}, "icrnl"), Flag({10}, "ixon"),
     Flag({12}, "ixoff"), Flag({9}, "iuclc"), Flag({11}, "ixany"), Flag({13}, "imaxbel"), Flag({14}, "iutf8"),
     Flag(AllBits(), "")]
  }

  function LocalFlags(): seq<Flag> {
    [Flag({0}, "isig"), Flag({1}, "icanon"), Flag({15}, "iexten"), Flag({3}, "echo"), Flag({4}, "echoe"),
     Flag({5}, "echok"), Flag({6}, "echonl"), Flag({7}, "noflsh"), Flag({2}, "xcase"), Flag({8}, "tostop"),
     Flag({10}, "echoprt"), Flag({9}, "echoctl"), Flag({11}, "echoke"), Flag({12}, "flusho"), Flag({14}, "pendin"),
     Flag(AllBits(), "")]
  }

  function LinuxTables(): Tables {
    Tables(OutputFlags(), InputFlags(), LocalFlags(), ControlFlags(), Delays())
  }

  // ------------------------------------------------------------- telling names apart

  /** The delays, except "-tabs", have numbers from 100, in table order. */
  function DelayNumber(s: string): int
    requires |s| == 3 || |s| == 4
  {
    if |s| == 4 then if s[3] == 's' then 117 else if s[3] == '0' then 112 else 113 + (s[3] as int - '0' as int)
    else
      (s[2] as int - '0' as int)
      + if s[0] == 'b' then 100 else if s[0] == 'c' then 102 else if s[0] == 'f' then 106
        else if s[0] == 'n' then 108 else 110
  }

  function NumberO(s: string): int
    requires |s| > 4
  {
    if s[1] == 'p' then 0
    else if s[1] == 'l' then 1
    else if s[1] == 'c' then 2
    else if s[1] == 'n' then (if s[2] == 'o' then 4 else if |s| == 5 then 3 else 5)
    else if s[2] == 'i' then 6 else 7
  }

  function NumberI(s: string): int
    requires |s| > 3
  {
    if s[1] == 'g' then (if s[3] == 'b' then 10 else if s[3] == 'p' then 12 else 17)
    else if s[1] == 'n' then (if s[2] == 'p' then 14 else 16)
    else if s[1] == 's' then (if s[2] == 't' then 15 else 30)
    else if s[1] == 'c' then (if s[2] == 'r' then 18 else 31)
    else if s[1] == 'x' then (if |s| == 4 then 19 else if s[2] == 'o' then 20 else 22)
    else if s[1] == 'u' then (if s[2] == 'c' then 21 else 24)
    else if s[1] == 'm' then 23 else 32
  }

  function NumberE(s: string): int
    requires |s| > 3
  {
    if |s| == 4 then 33
    else if |s| == 5 then (if s[4] == 'e' then 34 else 35)
    else if |s| == 6 then (if s[4] == 'n' then 36 else 42)
    else if s[4] == 'p' then 40 else 41
  }

  function NumberC(s: string): int
    requires |s| > 4
  {
    if s[1] == 'm' then 52 else if s[1] == 's' then 54 else if s[1] == 'r' then 55 else 56
  }

  /** Different numbers for the names in all tables: from 0 for the output flags,
      10 for input, 30 for local, 50 for control and 100 for delays, in table order. */
  function Number(s: string): int {
    if |s| < 3 then -1
    else if |s| == 3 then DelayNumber(s)
    else if s[0] == 'i' then NumberI(s)
    else if s[0] == 'e' then NumberE(s)
    else if |s| == 4 then DelayNumber(s)
    else if s[0] == '-' then 113
    else if s[0] == 'o' then NumberO(s)
    else if s[0] == 'c' then NumberC(s)
    else if s[0] == 'p' then
      if s[1] == 'e' then 44 else if s[3] == 'm' then 13 else if s[3] == 'e' then 50 else 51
    else if s[0] == 'b' then 11
    else if s[0] == 'n' then 37
    else if s[0] == 'x' then 38
    else if s[0] == 't' then 39
    else if s[0] == 'f' then 43
    else 53
  }

  function OutputBit(j: nat): nat {
    if j == 2 then 3 else if j == 3 then 2 else j
  }

  function ControlBit(j: nat): nat {
    if j < 2 then j + 8 else if j == 2 then 30 else if j == 3 then 10 else if j < 6 then j + 2 else 11
  }

  function InputBit(j: nat): nat {
    if j == 9 then 10 else if j == 10 then 12 else if j == 11 then 9 else if j == 12 then 11 else j
  }

  function LocalBit(j: nat): nat {
    if j == 2 then 15 else if j == 8 then 2 else if j == 9 then 8
    else if j == 11 then 9 else if j == 12 then 11 else if j == 13 then 12 else j
  }

  /** Which delay a bit of the output word belongs to. */
  function FieldOfBit(b: nat): nat {
    if b == 8 then 0 else if b <= 10 then 1 else if b <= 12 then 2 else b
  }

  /** Which delay entry j of the table sets. */
  function FieldOf(j: nat): nat {
    if j < 2 then 13 else if j < 6 then 1 else if j < 8 then 15 else if j < 10 then 0 else if j < 12 then 14 else 2
  }

  lemma OutputEntry(j: nat)
    requires j < 8
    ensures |OutputFlags()| == 9
    ensures var f := OutputFlags()[j]; Number(f.name) == j && f.mask == {OutputBit(j)} && NoDash(f.name)
  {
  }

  lemma ControlEntry(j: nat)
    requires j < 7
    ensures |ControlFlags()| == 9
    ensures var f := ControlFlags()[j]; Number(f.name) == 50 + j && f.mask == {ControlBit(j)} && NoDash(f.name)
  {
  }

  lemma InputEntry(j: nat)
    requires j < 15
    ensures |InputFlags()| == 16
    ensures var f := InputFlags()[j]; Number(f.name) == 10 + j && f.mask == {InputBit(j)} && NoDash(f.name)
  {
  }

  lemma LocalEntry(j: nat)
    requires j < 15
    ensures |LocalFlags()| == 16
    ensures var f := LocalFlags()[j]; Number(f.name) == 30 + j && f.mask == {LocalBit(j)} && NoDash(f.name)
  {
  }

  lemma DelayEntry(j: nat)
    requires j < 18
    ensures |Delays()| == 19
    ensures var d := Delays()[j]; Number(d.name) == 100 + j && d.value <= d.mask && d.mask != {}
  {
  }

  lemma DelayBits(j: nat)
    requires j < 18
    ensures |Delays()| == 19
    ensures forall b :: b in Delays()[j].mask ==> 8 <= b <= 15
    ensures forall b :: 8 <= b <= 15 ==> (b in Delays()[j].mask <==> FieldOfBit(b) == FieldOf(j))
  {
  }

  lemma {:induction false} ActiveDelaysBefore(table: seq<Delay>, k: nat)
    requires k < |table| && Negative(table[k].value) && forall j :: 0 <= j < k ==> !Negative(table[j].value)
    ensures ActiveDelays(table) == table[..k]
  {
    if k > 0 {
      ActiveDelaysBefore(table[1..], k - 1);
      assert table[..k] == [table[0]] + table[1..][..k - 1];
    }
  }

  // ------------------------------------------------------------- tables with these entries

  /** Bit and number of entry j of the table of a word, and how many entries a scan sees. */
  function BitOf(w: Word, j: nat): nat {
    match w
    case Output => OutputBit(j)
    case Input => InputBit(j)
    case Local => LocalBit(j)
    case Control => ControlBit(j)
  }

  function NumberOf(w: Word, j: nat): nat {
    match w
    case Output => j
    case Input => 10 + j
    case Local => 30 + j
    case Control => 50 + j
  }

  function Length(w: Word): nat {
    match w
    case Output => 8
    case Control => 7
    case _ => 15
  }

  ghost predicate FlagLike(w: Word, f: Flag, j: nat) {
    Number(f.name) == NumberOf(w, j) && f.mask == {BitOf(w, j)} && NoDash(f.name)
  }

  ghost predicate FlagsLike(w: Word, table: seq<Flag>) {
    && Length(w) < |table| && Negative(table[Length(w)].mask)
    && forall j: nat :: j < Length(w) ==> FlagLike(w, table[j], j)
  }

  ghost predicate DelayLike(d: Delay, j: nat) {
    && Number(d.name) == 100 + j && d.value <= d.mask && d.mask != {}
    && (forall b :: b in d.mask ==> 8 <= b <= 15)
    && forall b :: 8 <= b <= 15 ==> (b in d.mask <==> FieldOfBit(b) == FieldOf(j))
  }

  ghost predicate DelaysLike(table: seq<Delay>) {
    && 18 < |table| && Negative(table[18].value)
    && forall j: nat :: j < 18 ==> DelayLike(table[j], j)
  }

  ghost predicate TablesLike(t: Tables) {
    && FlagsLike(Output, t.output) && FlagsLike(Input, t.input)
    && FlagsLike(Local, t.local) && FlagsLike(Control, t.control) && DelaysLike(t.delays)
  }

  lemma ListedFlag(t: Tables, w: Word, f: Flag) returns (j: nat)
    requires FlagsLike(w, TableOf(t, w)) && f in Active(TableOf(t, w))
    ensures j < Length(w) && f == TableOf(t, w)[j] && FlagLike(w, f, j)
  {
    var table := TableOf(t, w);
    forall i | 0 <= i < Length(w) ensures !Negative(table[i].mask) {
      assert FlagLike(w, table[i], i);
    }
    ActiveBefore(table, Length(w));
    j :| 0 <= j < Length(w) && table[j] == f;
  }

  lemma ListedDelay(table: seq<Delay>, d: Delay) returns (j: nat)
    requires DelaysLike(table) && d in ActiveDelays(table)
    ensures j < 18 && d == table[j] && DelayLike(d, j)
  {
    forall i | 0 <= i < 18 ensures !Negative(table[i].value) {
      assert DelayLike(table[i], i);
    }
    ActiveDelaysBefore(table, 18);
    j :| 0 <= j < 18 && table[j] == d;
  }

  lemma BitsDiffer(w: Word, i: nat, j: nat)
    requires i < Length(w) && j < Length(w) && i != j
    ensures BitOf(w, i) != BitOf(w, j)
  {
  }

  lemma MasksDisjoint(t: Tables, w: Word, f: Flag, g: Flag)
    requires FlagsLike(w, TableOf(t, w)) && f in Active(TableOf(t, w)) && g in Active(TableOf(t, w)) && f != g
    ensures f.mask !! g.mask
  {
    var i := ListedFlag(t, w, f);
    var j := ListedFlag(t, w, g);
    BitsDiffer(w, i, j);
  }

  lemma FieldsDisjoint(table: seq<Delay>, d: Delay, e: Delay)
    requires DelaysLike(table) && d in ActiveDelays(table) && e in ActiveDelays(table) && d.mask != e.mask
    ensures d.mask !! e.mask
  {
    var i := ListedDelay(table, d);
    var j := ListedDelay(table, e);
    if FieldOf(i) == FieldOf(j) {
      assert forall b :: b in d.mask <==> b in e.mask;
    }
  }

  lemma FlagsAndDelaysDisjoint(t: Tables, f: Flag, d: Delay)
    requires FlagsLike(Output, t.output) && DelaysLike(t.delays)
    requires f in Active(t.output) && d in ActiveDelays(t.delays)
    ensures f.mask !! d.mask
  {
    var i := ListedFlag(t, Output, f);
    var j := ListedDelay(t.delays, d);
  }

  lemma FlagNames(t: Tables, v: Word, w: Word, f: Flag, g: Flag)
    requires FlagsLike(v, TableOf(t, v)) && FlagsLike(w, TableOf(t, w))
    requires f in Active(TableOf(t, v)) && g in Active(TableOf(t, w)) && f.name == g.name
    ensures v == w && f == g
  {
    var i := ListedFlag(t, v, f);
    var j := ListedFlag(t, w, g);
  }

  lemma OwnName(t: Tables, w: Word, f: Flag)
    requires FlagsLike(w, TableOf(t, w)) && f in Active(TableOf(t, w))
    ensures f.mask != {} && NoDash(f.name) && f.name != "tabs"
  {
    var j := ListedFlag(t, w, f);
    assert Number("tabs") == 117 && Number("-tabs") == 113;
  }

  lemma FlagIsNoDelay(t: Tables, w: Word, f: Flag, d: Delay)
    requires FlagsLike(w, TableOf(t, w)) && f in Active(TableOf(t, w))
    requires DelaysLike(t.delays) && d in ActiveDelays(t.delays)
    ensures f.name != d.name
  {
    var i := ListedFlag(t, w, f);
    var j := ListedDelay(t.delays, d);
  }

  lemma DelayNames(table: seq<Delay>, d: Delay, e: Delay)
    requires DelaysLike(table) && d in ActiveDelays(table) && e in ActiveDelays(table) && d.name == e.name
    ensures d == e
  {
    var i := ListedDelay(table, d);
    var j := ListedDelay(table, e);
  }

  lemma EntriesAreWellFormed(t: Tables)
    requires TablesLike(t)
    ensures WellFormed(t)
  {
    forall w, f | f in Active(TableOf(t, w)) ensures f.mask != {} {
      OwnName(t, w, f);
    }
    forall w, f, g | f in Active(TableOf(t, w)) && g in Active(TableOf(t, w)) && f != g ensures f.mask !! g.mask {
      MasksDisjoint(t, w, f, g);
    }
    forall d | d in ActiveDelays(t.delays) ensures d.mask != {} && d.value <= d.mask {
      var j := ListedDelay(t.delays, d);
    }
    forall f, d | f in Active(t.output) && d in ActiveDelays(t.delays) ensures f.mask !! d.mask {
      FlagsAndDelaysDisjoint(t, f, d);
    }
    forall d, e | d in ActiveDelays(t.delays) && e in ActiveDelays(t.delays) && d.mask != e.mask
      ensures d.mask !! e.mask
    {
      FieldsDisjoint(t.delays, d, e);
    }
  }

  lemma FlagsAreDistinct(t: Tables)
    requires TablesLike(t)
    ensures forall v, w, f, g :: f in Active(TableOf(t, v)) && g in Active(TableOf(t, w)) && f.name == g.name ==>
              v == w && f == g
  {
    forall v, w, f, g | f in Active(TableOf(t, v)) && g in Active(TableOf(t, w)) && f.name == g.name
      ensures v == w && f == g
    {
      FlagNames(t, v, w, f, g);
    }
  }

  lemma FlagsAreNoDelays(t: Tables)
    requires TablesLike(t)
    ensures forall w, f :: f in Active(TableOf(t, w)) ==> NoDash(f.name) && f.name != "tabs"
    ensures forall w, f, d :: f in Active(TableOf(t, w)) && d in ActiveDelays(t.delays) ==> f.name != d.name
  {
    forall w, f | f in Active(TableOf(t, w)) ensures NoDash(f.name) && f.name != "tabs" {
      OwnName(t, w, f);
    }
    forall w, f, d | f in Active(TableOf(t, w)) && d in ActiveDelays(t.delays) ensures f.name != d.name {
      FlagIsNoDelay(t, w, f, d);
    }
  }

  lemma EntriesAreDistinct(t: Tables)
    requires TablesLike(t)
    ensures NamesDistinct(t)
  {
    FlagsAreDistinct(t);
    FlagsAreNoDelays(t);
    forall d, e | d in ActiveDelays(t.delays) && e in ActiveDelays(t.delays) && d.name == e.name ensures d == e {
      DelayNames(t.delays, d, e);
    }
  }

  // ------------------------------------------------------------- the program's tables

  lemma OutputLike()
    ensures FlagsLike(Output, OutputFlags())
  {
    forall j: nat | j < 8 ensures FlagLike(Output, OutputFlags()[j], j) {
      OutputEntry(j);
    }
  }

  lemma InputLike()
    ensures FlagsLike(Input, InputFlags())
  {
    forall j: nat | j < 15 ensures FlagLike(Input, InputFlags()[j], j) {
      InputEntry(j);
    }
  }

  lemma LocalLike()
    ensures FlagsLike(Local, LocalFlags())
  {
    forall j: nat | j < 15 ensures FlagLike(Local, LocalFlags()[j], j) {
      LocalEntry(j);
    }
  }

  lemma ControlLike()
    ensures FlagsLike(Control, ControlFlags())
  {
    forall j: nat | j < 7 ensures FlagLike(Control, ControlFlags()[j], j) {
      ControlEntry(j);
    }
  }

  lemma DelaysAlike()
    ensures DelaysLike(Delays())
  {
    forall j: nat | j < 18 ensures DelayLike(Delays()[j], j) {
      DelayEntry(j);
      DelayBits(j);
    }
  }

  /** The program's tables have the properties on which SwitchIsShown and DelayIsShown rely. */
  lemma LinuxTablesFit()
    ensures WellFormed(LinuxTables()) && NamesDistinct(LinuxTables())
  {
    OutputLike();
    InputLike();
    LocalLike();
    ControlLike();
    DelaysAlike();
    EntriesAreWellFormed(LinuxTables());
    EntriesAreDistinct(LinuxTables());
  }

  /** The bits of TABDLY. */
  const TABDLY: Bits := {11, 12}

  /** "-tabs" and "tabs" are two delays: one clears the field for tabs, the other fills it. */
  lemma TabsExample(s: Settings)
    ensures Apply(s, Resolve(LinuxTables(), "-tabs")).oflag * TABDLY == {}
    ensures Apply(s, Resolve(LinuxTables(), "tabs")).oflag * TABDLY == TABDLY
  {
    TabsEntries();
    LinuxTablesFit();
    DelaysAlike();
    EntrySets(LinuxTables(), s, 13);
    EntrySets(LinuxTables(), s, 17);
  }

  lemma TabsEntries()
    ensures |Delays()| == 19
    ensures Delays()[13] == Delay({}, TABDLY, "-tabs") && Delays()[17] == Delay(TABDLY, TABDLY, "tabs")
  {
  }

  /** Typing the name of a delay entry leaves its value in its field. */
  lemma EntrySets(t: Tables, s: Settings, j: nat)
    requires WellFormed(t) && NamesDistinct(t) && DelaysLike(t.delays) && j < 18
    requires NoDash(t.delays[j].name) || t.delays[j].name == "-tabs"
    ensures Apply(s, Resolve(t, t.delays[j].name)).oflag * t.delays[j].mask == t.delays[j].value
  {
    ListedAt(t.delays, j);
    DelayIsResolved(t, t.delays[j]);
    DelayChanges(t, s, t.delays[j]);
  }

  lemma ListedAt(table: seq<Delay>, j: nat)
    requires DelaysLike(table) && j < 18
    ensures table[j] in ActiveDelays(table)
  {
    forall i | 0 <= i < 18 ensures !Negative(table[i].value) {
      assert DelayLike(table[i], i);
    }
    ActiveDelaysBefore(table, 18);
    assert table[..18][j] == table[j];
  }
}

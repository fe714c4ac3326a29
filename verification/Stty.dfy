/** spl_stty.c: terminal switches set and shown through tables of bit masks. */
module Stty {
  import opened Common

  /** The positions of the one bits of a 32-bit word. */
  type Bits = set<nat>

  const SIGN_BIT: nat := 31

  datatype Flag = Flag(mask: Bits, name: string)

  datatype Delay = Delay(value: Bits, mask: Bits, name: string)

  /** The four flag words of struct termios. */
  datatype Word = Output | Input | Local | Control

  datatype Settings = Settings(oflag: Bits, iflag: Bits, lflag: Bits, cflag: Bits)

  datatype Tables = Tables(output: seq<Flag>, input: seq<Flag>, local: seq<Flag>, control: seq<Flag>,
                           delays: seq<Delay>)

  /** A mask is an int in the tables, so its top bit is a sign. */
  predicate Negative(b: Bits) {
    SIGN_BIT in b
  }

  /** The entries that a scan of a table sees: those before the first negative mask. */
  function Active(table: seq<Flag>): seq<Flag> {
    if table == [] || Negative(table[0].mask) then [] else [table[0]] + Active(table[1..])
  }

  function ActiveDelays(table: seq<Delay>): seq<Delay> {
    if table == [] || Negative(table[0].value) then [] else [table[0]] + ActiveDelays(table[1..])
  }

  function Find(table: seq<Flag>, name: string): Option<Flag> {
    if table == [] || Negative(table[0].mask) then None
    else if table[0].name == name then Some(table[0])
    else Find(table[1..], name)
  }

  function FindDelay(table: seq<Delay>, name: string): Option<Delay> {
    if table == [] || Negative(table[0].value) then None
    else if table[0].name == name then Some(table[0])
    else FindDelay(table[1..], name)
  }

  // ------------------------------------------------------------- set

  function Assign(flags: Bits, mask: Bits, enable: bool): Bits {
    if enable then flags + mask else flags - mask
  }

  function TableOf(t: Tables, w: Word): seq<Flag> {
    match w
    case Output => t.output
    case Input => t.input
    case Local => t.local
    case Control => t.control
  }

  function Get(s: Settings, w: Word): Bits {
    match w
    case Output => s.oflag
    case Input => s.iflag
    case Local => s.lflag
    case Control => s.cflag
  }

  function Put(s: Settings, w: Word, b: Bits): Settings {
    match w
    case Output => s.(oflag := b)
    case Input => s.(iflag := b)
    case Local => s.(lflag := b)
    case Control => s.(cflag := b)
  }

  /** What a word of the command line refers to. */
  datatype Target = Switch(w: Word, flag: Flag, enable: bool) | SetDelay(delay: Delay) | Unknown

  function Enables(name: string): bool {
    name == "" || name[0] != '-' || name == "-tabs"
  }

  function Resolve(t: Tables, name: string): Target {
    var state := Enables(name);
    var word := if state then name else name[1..];
    if Find(t.output, word).Some? then Switch(Output, Find(t.output, word).value, state)
    else if Find(t.input, word).Some? then Switch(Input, Find(t.input, word).value, state)
    else if Find(t.local, word).Some? then Switch(Local, Find(t.local, word).value, state)
    else if Find(t.control, word).Some? then Switch(Control, Find(t.control, word).value, state)
    else if FindDelay(t.delays, word).Some? then SetDelay(FindDelay(t.delays, word).value)
    else Unknown
  }

  function Apply(s: Settings, target: Target): Settings {
    match target
    case Switch(w, flag, enable) => Put(s, w, Assign(Get(s, w), flag.mask, enable))
    case SetDelay(d) => Put(s, Output, Replace(s.oflag, d))
    case Unknown => s
  }

  method SetSwitchInMap(flags: Bits, table: seq<Flag>, name: string, enable: bool)
    returns (found: bool, newFlags: Bits)
    requires table != [] && Negative(table[|table| - 1].mask)
    ensures found <==> Find(table, name).Some?
    ensures newFlags == if found then Assign(flags, Find(table, name).value.mask, enable) else flags
  {
    newFlags := flags;
    var i := 0;
    while !Negative(table[i].mask)
      invariant 0 <= i < |table| && Find(table, name) == Find(table[i..], name)
      decreases |table| - i
    {
      if name == table[i].name {
        newFlags := if enable then flags + table[i].mask else flags - table[i].mask;
        return true, newFlags;
      }
      assert table[i..][1..] == table[i + 1..];
      i := i + 1;
    }
    found := false;
  }

  predicate Ended(t: Tables) {
    && t.output != [] && Negative(t.output[|t.output| - 1].mask)
    && t.input != [] && Negative(t.input[|t.input| - 1].mask)
    && t.local != [] && Negative(t.local[|t.local| - 1].mask)
    && t.control != [] && Negative(t.control[|t.control| - 1].mask)
    && t.delays != [] && Negative(t.delays[|t.delays| - 1].value)
  }

  class Termios {
    var c_oflag: Bits
    var c_iflag: Bits
    var c_lflag: Bits
    var c_cflag: Bits

    function State(): Settings
      reads this
    {
      Settings(c_oflag, c_iflag, c_lflag, c_cflag)
    }

    /** Returns whether the name was known; the change is the one the name refers to. */
    method SetSwitch(t: Tables, name: string) returns (known: bool)
      requires Ended(t)
      modifies this
      ensures known <==> !Resolve(t, name).Unknown?
      ensures State() == Apply(old(State()), Resolve(t, name))
    {
      var state := true;
      var word := name;
      if name != "" && name[0] == '-' && name != "-tabs" {
        state := false;
        word := name[1..];
      }
      known, c_oflag := SetSwitchInMap(c_oflag, t.output, word, state);
      if known {
        return;
      }
      known, c_iflag := SetSwitchInMap(c_iflag, t.input, word, state);
      if known {
        return;
      }
      known, c_lflag := SetSwitchInMap(c_lflag, t.local, word, state);
      if known {
        return;
      }
      known, c_cflag := SetSwitchInMap(c_cflag, t.control, word, state);
      if known {
        return;
      }
      var i := 0;
      while !Negative(t.delays[i].value)
        invariant 0 <= i < |t.delays| && FindDelay(t.delays, word) == FindDelay(t.delays[i..], word)
        invariant State() == old(State())
        decreases |t.delays| - i
      {
        if word == t.delays[i].name {
          c_oflag := c_oflag - t.delays[i].mask;
          c_oflag := c_oflag + t.delays[i].value;
          return true;
        }
        assert t.delays[i..][1..] == t.delays[i + 1..];
        i := i + 1;
      }
      known := false;
    }
  }

  // ------------------------------------------------------------- show

  predicate Shown(flags: Bits, f: Flag) {
    flags * f.mask != {}
  }

  datatype Line = Line(name: string, on: bool)

  function Display(flags: Bits, table: seq<Flag>): seq<Line> {
    if table == [] || Negative(table[0].mask) then []
    else [Line(table[0].name, Shown(flags, table[0]))] + Display(flags, table[1..])
  }

  lemma AnyBit(flags: Bits, mask: Bits)
    ensures flags * mask != {} <==> exists b :: b in flags && b in mask
  {
    if b :| b in flags && b in mask {
      assert b in flags * mask;
    }
    if flags * mask != {} {
      var b :| b in flags * mask;
      assert b in flags && b in mask;
    }
  }

  /** One line for each entry that a scan sees, in the order of the table; it is on
      if one of the bits of its mask is set. */
  lemma {:induction false} DisplayIsActive(flags: Bits, table: seq<Flag>)
    ensures |Display(flags, table)| == |Active(table)|
    ensures forall k :: 0 <= k < |Active(table)| ==>
              var f, line := Active(table)[k], Display(flags, table)[k];
              && line.name == f.name && (line.on <==> Shown(flags, f))
              && (line.on <==> exists b :: b in flags && b in f.mask)
  {
    if table != [] && !Negative(table[0].mask) {
      DisplayIsActive(flags, table[1..]);
      AnyBit(flags, table[0].mask);
    }
  }

  method ShowFlagset(flags: Bits, table: seq<Flag>) returns (shown: seq<Line>)
    requires table != [] && Negative(table[|table| - 1].mask)
    ensures shown == Display(flags, table)
  {
    shown := [];
    var i := 0;
    while !Negative(table[i].mask)
      invariant 0 <= i < |table| && Display(flags, table) == shown + Display(flags, table[i..])
      decreases |table| - i
    {
      assert table[i..][1..] == table[i + 1..];
      var line := Line(table[i].name, flags * table[i].mask != {});
      assert shown + ([line] + Display(flags, table[i + 1..])) == (shown + [line]) + Display(flags, table[i + 1..]);
      shown := shown + [line];
      i := i + 1;
    }
  }

  // ------------------------------------------------------------- rshift

  function ShiftRight(m: Bits, n: nat): Bits {
    set b | b in m && b >= n :: b - n
  }

  function ShiftLeft(m: Bits, n: nat): Bits {
    set b | b in m :: b + n
  }

  /** i is the position of the lowest bit of the mask. */
  ghost predicate LowestAt(mask: Bits, i: nat) {
    i in mask && forall b :: b in mask ==> b >= i
  }

  lemma ShiftOnce(mask: Bits, i: nat)
    ensures ShiftRight(ShiftRight(mask, i), 1) == ShiftRight(mask, i + 1)
  {
    forall b | b in ShiftRight(mask, i + 1) ensures b in ShiftRight(ShiftRight(mask, i), 1) {
      assert b + 1 in ShiftRight(mask, i);
    }
  }

  /** The loop ends for every mask but 0. */
  method RShift(mask: Bits) returns (i: nat)
    requires mask != {}
    ensures LowestAt(mask, i)
  {
    ghost var top :| top in mask;
    var m := mask;
    i := 0;
    while 0 !in m
      invariant m == ShiftRight(mask, i) && forall b :: b in mask ==> b >= i
      decreases top - i
    {
      assert i in mask ==> i - i in m;
      ShiftOnce(mask, i);
      m := ShiftRight(m, 1);
      i := i + 1;
    }
  }

  /** One number of show_odelays. */
  method ShowDelay(oflag: Bits, mask: Bits) returns (shown: Bits)
    requires mask != {}
    ensures forall i :: LowestAt(mask, i) ==> shown == ShiftRight(oflag * mask, i)
    ensures exists i :: LowestAt(mask, i) && ShiftLeft(shown, i) == oflag * mask
  {
    var i := RShift(mask);
    shown := ShiftRight(oflag * mask, i);
    NothingShiftedOut(oflag * mask, mask, i);
  }

  lemma NothingShiftedOut(v: Bits, mask: Bits, i: nat)
    requires LowestAt(mask, i) && v <= mask
    ensures ShiftLeft(ShiftRight(v, i), i) == v
  {
    forall b | b in v ensures b in ShiftLeft(ShiftRight(v, i), i) {
      assert b - i in ShiftRight(v, i);
    }
  }

  // ------------------------------------------------------------- set, then show

  /** Masks of one table are not zero and do not overlap; delay values lie in
      their masks, whose bits no output flag uses and which overlap only when equal. */
  ghost predicate WellFormed(t: Tables) {
    && (forall w, f :: f in Active(TableOf(t, w)) ==> f.mask != {})
    && (forall w, f, g :: f in Active(TableOf(t, w)) && g in Active(TableOf(t, w)) && f != g ==> f.mask !! g.mask)
    && (forall d :: d in ActiveDelays(t.delays) ==> d.mask != {} && d.value <= d.mask)
    && (forall f, d :: f in Active(t.output) && d in ActiveDelays(t.delays) ==> f.mask !! d.mask)
    && (forall d, e :: d in ActiveDelays(t.delays) && e in ActiveDelays(t.delays) && d.mask != e.mask ==>
          d.mask !! e.mask)
  }

  /** The number of a delay before it is shifted. */
  function Field(flags: Bits, d: Delay): Bits {
    flags * d.mask
  }

  function Replace(flags: Bits, d: Delay): Bits {
    (flags - d.mask) + d.value
  }

  // ------------------------------------------------------------- what a name refers to

  /** A scan gets to entry k: neither it nor an earlier entry has the sign bit. */
  ghost predicate Seen(table: seq<Flag>, k: nat)
    requires k < |table|
  {
    forall j :: 0 <= j <= k ==> !Negative(table[j].mask)
  }

  /** The active entries are those that a scan gets to. */
  lemma {:induction false} ActiveIffSeen(table: seq<Flag>, f: Flag)
    ensures f in Active(table) <==> exists k :: 0 <= k < |table| && table[k] == f && Seen(table, k)
  {
    if table != [] {
      ActiveIffSeen(table[1..], f);
      assert forall k :: 0 < k < |table| ==> table[k] == table[1..][k - 1];
      forall k | 0 < k < |table| && !Negative(table[0].mask)
        ensures Seen(table, k) <==> Seen(table[1..], k - 1)
      {
        assert forall j :: 0 < j <= k ==> table[j] == table[1..][j - 1];
        assert forall j :: 0 <= j <= k - 1 ==> table[1..][j] == table[j + 1];
      }
      if !Negative(table[0].mask) {
        assert Seen(table, 0);
        if k :| 0 <= k < |table| - 1 && table[1..][k] == f && Seen(table[1..], k) {
          assert table[k + 1] == f && Seen(table, k + 1);
        }
      } else {
        assert forall k :: 0 <= k < |table| ==> !Seen(table, k);
      }
    }
  }

  lemma {:induction false} FoundIsActive(table: seq<Flag>, name: string)
    ensures match Find(table, name)
            case Some(f) => f in Active(table) && f.name == name
            case None => forall f :: f in Active(table) ==> f.name != name
  {
    if table != [] && !Negative(table[0].mask) && table[0].name != name {
      FoundIsActive(table[1..], name);
    }
  }

  /** Of several entries with the name the first is found. */
  lemma {:induction false} FoundIsFirst(table: seq<Flag>, name: string, k: nat)
    requires k < |table| && Seen(table, k) && table[k].name == name
    requires forall j :: 0 <= j < k ==> table[j].name != name
    ensures Find(table, name) == Some(table[k])
  {
    assert !Negative(table[0].mask);
    if k > 0 {
      forall j | 0 <= j <= k - 1 ensures !Negative(table[1..][j].mask) {
        assert table[1..][j] == table[j + 1];
      }
      FoundIsFirst(table[1..], name, k - 1);
    }
  }

  lemma {:induction false} FoundDelayIsFirst(table: seq<Delay>, name: string, k: nat)
    requires k < |table| && table[k].name == name
    requires forall j :: 0 <= j <= k ==> !Negative(table[j].value)
    requires forall j :: 0 <= j < k ==> table[j].name != name
    ensures FindDelay(table, name) == Some(table[k])
  {
    assert !Negative(table[0].value);
    if k > 0 {
      FoundDelayIsFirst(table[1..], name, k - 1);
    }
  }

  lemma {:induction false} FoundDelayIsActive(table: seq<Delay>, name: string)
    ensures match FindDelay(table, name)
            case Some(d) => d in ActiveDelays(table) && d.name == name
            case None => forall d :: d in ActiveDelays(table) ==> d.name != name
  {
    if table != [] && !Negative(table[0].value) && table[0].name != name {
      FoundDelayIsActive(table[1..], name);
    }
  }

  /** A name can be set exactly if an entry with this name is seen. */
  lemma FoundIffSeen(table: seq<Flag>, name: string)
    ensures Find(table, name).Some?
            <==> exists k :: 0 <= k < |table| && table[k].name == name && Seen(table, k)
  {
    FoundIsActive(table, name);
    if Find(table, name).Some? {
      ActiveIffSeen(table, Find(table, name).value);
    }
    if k :| 0 <= k < |table| && table[k].name == name && Seen(table, k) {
      ActiveIffSeen(table, table[k]);
    }
  }

  /** When names are distinct, an entry can be set, and is shown, if and only if
      neither it nor an entry before it has a mask with the sign bit. */
  lemma SettableIffSeen(table: seq<Flag>, k: nat)
    requires k < |table|
    requires forall i, j :: 0 <= i < j < |table| ==> table[i].name != table[j].name
    ensures Find(table, table[k].name) == Some(table[k]) <==> Seen(table, k)
    ensures Find(table, table[k].name).None? <==> !Seen(table, k)
    ensures table[k] in Active(table) <==> Seen(table, k)
  {
    FoundIffSeen(table, table[k].name);
    FoundIsActive(table, table[k].name);
    ActiveIffSeen(table, table[k]);
    if Find(table, table[k].name).Some? {
      ActiveIffSeen(table, Find(table, table[k].name).value);
    }
  }

  /** Typed as it stands: a word that no dash begins. */
  predicate NoDash(name: string) {
    name == "" || name[0] != '-'
  }

  /** The word that is looked up: a dash at the front is left out, except in "-tabs". */
  function WordOf(name: string): string {
    if NoDash(name) || name == "-tabs" then name else name[1..]
  }

  ghost predicate NamesFlag(t: Tables, word: string) {
    exists w, f :: f in Active(TableOf(t, w)) && f.name == word
  }

  ghost predicate NamesDelay(t: Tables, word: string) {
    exists d :: d in ActiveDelays(t.delays) && d.name == word
  }

  lemma ResolvedIsActive(t: Tables, name: string)
    ensures
      match Resolve(t, name)
      case Switch(w, f, enable) =>
        f in Active(TableOf(t, w)) && f.name == WordOf(name) && (enable <==> NoDash(name) || name == "-tabs")
      case SetDelay(d) =>
        d in ActiveDelays(t.delays) && d.name == WordOf(name) && !NamesFlag(t, WordOf(name))
      case Unknown => !NamesFlag(t, WordOf(name)) && !NamesDelay(t, WordOf(name))
  {
    var word := WordOf(name);
    assert word == if Enables(name) then name else name[1..];
    FoundIsActive(t.output, word);
    FoundIsActive(t.input, word);
    FoundIsActive(t.local, word);
    FoundIsActive(t.control, word);
    FoundDelayIsActive(t.delays, word);
    forall w, f | f in Active(TableOf(t, w)) && f.name == word ensures Resolve(t, name).Switch? {
      assert Find(TableOf(t, w), word).Some?;
    }
  }

  /** A word is a switch exactly if it names an active flag, and a delay exactly
      if it names an active delay and no active flag. */
  lemma ResolveIff(t: Tables, name: string)
    ensures Resolve(t, name).Switch? <==> NamesFlag(t, WordOf(name))
    ensures Resolve(t, name).SetDelay? <==> NamesDelay(t, WordOf(name)) && !NamesFlag(t, WordOf(name))
  {
    ResolvedIsActive(t, name);
  }

  /** The tables are searched in the order output, input, local, control, delays. */
  function Place(w: Word): nat {
    match w
    case Output => 0
    case Input => 1
    case Local => 2
    case Control => 3
  }

  /** The first table that has the word decides, with the entry found there. */
  lemma FirstTableDecides(t: Tables, name: string, w: Word)
    requires Find(TableOf(t, w), WordOf(name)).Some?
    requires forall v :: Place(v) < Place(w) ==> Find(TableOf(t, v), WordOf(name)).None?
    ensures Resolve(t, name) ==
            Switch(w, Find(TableOf(t, w), WordOf(name)).value, NoDash(name) || name == "-tabs")
  {
    assert Place(w) > 0 ==> Find(TableOf(t, Output), WordOf(name)).None?;
    assert Place(w) > 1 ==> Find(TableOf(t, Input), WordOf(name)).None?;
    assert Place(w) > 2 ==> Find(TableOf(t, Local), WordOf(name)).None?;
  }

  /** No two entries that a scan sees share a name, and the names of flags do
      not begin with a dash; "tabs" is no flag, since "-tabs" is a delay. */
  ghost predicate NamesDistinct(t: Tables) {
    && (forall v, w, f, g :: f in Active(TableOf(t, v)) && g in Active(TableOf(t, w)) && f.name == g.name ==>
          v == w && f == g)
    && (forall w, f :: f in Active(TableOf(t, w)) ==> NoDash(f.name) && f.name != "tabs")
    && (forall d, e :: d in ActiveDelays(t.delays) && e in ActiveDelays(t.delays) && d.name == e.name ==> d == e)
    && (forall w, f, d :: f in Active(TableOf(t, w)) && d in ActiveDelays(t.delays) ==> f.name != d.name)
  }

  /** What is typed to enable or disable a flag. */
  function Typed(f: Flag, enable: bool): string {
    if enable then f.name else "-" + f.name
  }

  /** Every listed flag can be enabled by its name and disabled by a dash and its name. */
  lemma FlagIsResolved(t: Tables, w: Word, f: Flag, enable: bool)
    requires NamesDistinct(t) && f in Active(TableOf(t, w))
    ensures Resolve(t, Typed(f, enable)) == Switch(w, f, enable)
  {
    var name := Typed(f, enable);
    assert ("-" + f.name)[1..] == f.name && "-tabs"[1..] == "tabs";
    assert (NoDash(name) || name == "-tabs" <==> enable) && WordOf(name) == f.name;
    assert NamesFlag(t, f.name);
    ResolvedIsActive(t, name);
    ResolveIff(t, name);
  }

  /** Every listed delay can be set by its name, also the one named "-tabs". */
  lemma DelayIsResolved(t: Tables, d: Delay)
    requires NamesDistinct(t) && d in ActiveDelays(t.delays) && (NoDash(d.name) || d.name == "-tabs")
    ensures Resolve(t, d.name) == SetDelay(d)
  {
    assert NamesDelay(t, d.name) && !NamesFlag(t, d.name);
    ResolvedIsActive(t, d.name);
    ResolveIff(t, d.name);
  }

  /** A flag or a delay is shown as before. */
  ghost predicate SameFlag(s: Settings, s': Settings, w: Word, g: Flag) {
    Shown(Get(s', w), g) == Shown(Get(s, w), g)
  }

  ghost predicate SameDelay(s: Settings, s': Settings, d: Delay) {
    Field(s'.oflag, d) == Field(s.oflag, d)
  }

  lemma SwitchKeeps(flags: Bits, mask: Bits, enable: bool, other: Bits)
    requires mask !! other
    ensures Assign(flags, mask, enable) * other == flags * other
  {
  }

  lemma ReplaceKeeps(flags: Bits, d: Delay, other: Bits)
    requires d.mask !! other && d.value <= d.mask
    ensures Replace(flags, d) * other == flags * other
  {
  }

  lemma SwitchChanges(t: Tables, s: Settings, w: Word, f: Flag, enable: bool)
    requires WellFormed(t) && f in Active(TableOf(t, w))
    ensures
      var s' := Apply(s, Switch(w, f, enable));
      && (Shown(Get(s', w), f) <==> enable)
      && (forall v, g :: g in Active(TableOf(t, v)) && (v != w || g != f) ==> SameFlag(s, s', v, g))
      && (forall d :: d in ActiveDelays(t.delays) ==> SameDelay(s, s', d))
  {
    var s' := Apply(s, Switch(w, f, enable));
    var bit :| bit in f.mask;
    assert enable ==> bit in Get(s', w) * f.mask;
    forall v, g | g in Active(TableOf(t, v)) && (v != w || g != f) ensures SameFlag(s, s', v, g) {
      if v == w {
        SwitchKeeps(Get(s, w), f.mask, enable, g.mask);
      }
    }
    forall d | d in ActiveDelays(t.delays) ensures SameDelay(s, s', d) {
      if w == Output {
        SwitchKeeps(s.oflag, f.mask, enable, d.mask);
      }
    }
  }

  /** Typing the name of a listed flag, with a dash to disable it, has it shown
      as requested and every other flag and every delay as before. */
  lemma SwitchIsShown(t: Tables, s: Settings, w: Word, f: Flag, enable: bool)
    requires WellFormed(t) && NamesDistinct(t) && f in Active(TableOf(t, w))
    ensures
      var s' := Apply(s, Resolve(t, Typed(f, enable)));
      && (Shown(Get(s', w), f) <==> enable)
      && (forall v, g :: g in Active(TableOf(t, v)) && (v != w || g != f) ==> SameFlag(s, s', v, g))
      && (forall d :: d in ActiveDelays(t.delays) ==> SameDelay(s, s', d))
  {
    FlagIsResolved(t, w, f, enable);
    SwitchChanges(t, s, w, f, enable);
  }

  lemma DelayChanges(t: Tables, s: Settings, d: Delay)
    requires WellFormed(t) && d in ActiveDelays(t.delays)
    ensures
      var s' := Apply(s, SetDelay(d));
      && Field(s'.oflag, d) == d.value
      && (forall w, g :: g in Active(TableOf(t, w)) ==> SameFlag(s, s', w, g))
      && (forall e :: e in ActiveDelays(t.delays) && e.mask != d.mask ==> SameDelay(s, s', e))
  {
    var s' := Apply(s, SetDelay(d));
    forall w, g | g in Active(TableOf(t, w)) ensures SameFlag(s, s', w, g) {
      if w == Output {
        ReplaceKeeps(s.oflag, d, g.mask);
      }
    }
    forall e | e in ActiveDelays(t.delays) && e.mask != d.mask ensures SameDelay(s, s', e) {
      ReplaceKeeps(s.oflag, d, e.mask);
    }
  }

  /** Typing the name of a listed delay has it shown with its value, shifted as
      far as its mask, and every flag and every other delay as before. */
  lemma DelayIsShown(t: Tables, s: Settings, d: Delay, i: nat)
    requires WellFormed(t) && NamesDistinct(t) && d in ActiveDelays(t.delays)
    requires NoDash(d.name) || d.name == "-tabs"
    requires LowestAt(d.mask, i)
    ensures
      var s' := Apply(s, Resolve(t, d.name));
      && Field(s'.oflag, d) == d.value && ShiftLeft(ShiftRight(d.value, i), i) == d.value
      && (forall w, g :: g in Active(TableOf(t, w)) ==> SameFlag(s, s', w, g))
      && (forall e :: e in ActiveDelays(t.delays) && e.mask != d.mask ==> SameDelay(s, s', e))
  {
    DelayIsResolved(t, d);
    DelayChanges(t, s, d);
    NothingShiftedOut(d.value, d.mask, i);
  }

  /** A dash in front of a delay's name changes nothing, except for "-tabs". */
  lemma DashIsIgnoredForDelays(t: Tables, name: string)
    requires (NoDash(name) || name == "-tabs") && name != "tabs" && Resolve(t, name).SetDelay?
    ensures Resolve(t, "-" + name) == Resolve(t, name)
  {
    assert ("-" + name)[1..] == name;
    assert "-" + name != "-tabs" by {
      assert "-tabs"[1..] == "tabs";
    }
  }

  function AllBits(): Bits {
    {0, 1, 2, 3, 4, 5, 6, 7, 8, 9, 10, 11, 12, 13, 14, 15,
     16, 17, 18, 19, 20, 21, 22, 23, 24, 25, 26, 27, 28, 29, 30, SIGN_BIT}
  }

  /** The table of control flags, with the masks of Linux, where CRTSCTS is
      020000000000; the mask -1 at its end has all bits. */
  function ControlFlags(): seq<Flag> {
    [Flag({8}, "parenb"), Flag({9}, "parodd"), Flag({30}, "cmspar"), Flag({10}, "hupcl"), Flag({6}, "cstopb"),
     Flag({7}, "cread"), Flag({11}, "clocal"), Flag({SIGN_BIT}, "crtscts"), Flag(AllBits(), "")]
  }

  lemma ControlFlagsSeen(k: nat)
    requires k < |ControlFlags()|
    ensures |ControlFlags()| == 9 && (Seen(ControlFlags(), k) <==> k < 7)
    ensures ControlFlags()[k].name == "crtscts" ==> k >= 7
  {
    var table := ControlFlags();
    assert Negative(table[7].mask);
    forall j: nat | j < 7 ensures !Negative(table[j].mask) && table[j].name != "crtscts" {
      FlagBeforeCrtscts(j);
    }
  }

  lemma FlagBeforeCrtscts(j: nat)
    requires j < 7
    ensures |ControlFlags()| == 9
    ensures !Negative(ControlFlags()[j].mask) && ControlFlags()[j].name != "crtscts"
  {
    assert |ControlFlags()[j].name| < |"crtscts"|;
  }

  lemma CrtsctsShown()
    ensures Active(ControlFlags()) == ControlFlags()[..7]
  {
    var table := ControlFlags();
    forall j: nat | j < 7 ensures !Negative(table[j].mask) {
      FlagBeforeCrtscts(j);
    }
    ActiveBefore(table, 7);
  }

  /** "crtscts" can be neither set nor shown: its mask is negative and ends the scan. */
  lemma CrtsctsExample()
    ensures Active(ControlFlags()) == ControlFlags()[..7]
    ensures Find(ControlFlags(), "crtscts").None? && Find(ControlFlags(), "clocal").Some?
  {
    CrtsctsShown();
    forall k: nat | k < |ControlFlags()| && Seen(ControlFlags(), k)
      ensures ControlFlags()[k].name != "crtscts"
    {
      ControlFlagsSeen(k);
    }
    FoundIffSeen(ControlFlags(), "crtscts");
    ControlFlagsSeen(6);
    assert ControlFlags()[6].name == "clocal";
    FoundIffSeen(ControlFlags(), "clocal");
  }

  /** The scan sees exactly the entries before the first negative mask. */
  lemma {:induction false} ActiveBefore(table: seq<Flag>, k: nat)
    requires k < |table| && Negative(table[k].mask) && forall j :: 0 <= j < k ==> !Negative(table[j].mask)
    ensures Active(table) == table[..k]
  {
    if k > 0 {
      ActiveBefore(table[1..], k - 1);
      assert table[..k] == [table[0]] + table[1..][..k - 1];
    }
  }
}

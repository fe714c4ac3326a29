/** spl_du2.c: like spl_du1.c, but a file with several links is meant to be
    counted once. Whether it was counted before is looked up in a hash table
    under the product of its inode and device numbers. */
module Du2 {
  import opened FileTree

  /** hash_val is an unsigned 64-bit integer, so the product wraps around. */
  const HASH_VALUES: nat := 0x1_0000_0000_0000_0000

  function Key(e: Entry): nat {
    e.ino * e.dev % HASH_VALUES
  }

  datatype Meter = Meter(total: seq<nat>, prev: int, visited: set<nat>, lines: seq<Line>)

  ghost predicate Ready(m: Meter) {
    |m.total| == MAXDEPTH && m.prev < MAXDEPTH
  }

  /** The effect of file_usage on a visit above MAXDEPTH. */
  ghost function Account(m: Meter, v: Visit): Meter
    requires Ready(m) && v.level < MAXDEPTH
  {
    var own, cur, key := Own(v.entry), m.total[v.level], Key(v.entry);
    if m.prev > v.level then
      var usage := m.total[m.prev] + own;
      Meter(m.total[v.level := cur + usage][m.prev := 0], v.level, m.visited, m.lines + [Line(usage, v.entry.path)])
    else
      var lookUp := v.entry.nlink != 1 && !(m.prev < v.level && v.entry.isDir);
      if lookUp && key in m.visited then
        m.(prev := v.level)
      else
        var base := if m.prev == v.level then cur else 0;
        Meter(m.total[v.level := base + own], v.level,
              if lookUp then m.visited + {key} else m.visited,
              m.lines + [Line(own, v.entry.path)])
  }

  ghost function AccountAll(m: Meter, vs: seq<Visit>): Meter
    requires Ready(m) && Shallow(vs)
    decreases |vs|
  {
    if vs == [] then m else AccountAll(Account(m, vs[0]), vs[1..])
  }

  lemma {:induction false} AccountAppend(m: Meter, vs: seq<Visit>, ws: seq<Visit>)
    requires Ready(m) && Shallow(vs) && Shallow(ws)
    ensures Ready(AccountAll(m, vs)) && Shallow(vs + ws)
    ensures AccountAll(m, vs + ws) == AccountAll(AccountAll(m, vs), ws)
    decreases |vs|
  {
    ShallowAppend(vs, ws);
    if vs == [] {
      assert vs + ws == ws;
    } else {
      assert (vs + ws)[1..] == vs[1..] + ws;
      AccountAppend(Account(m, vs[0]), vs[1..], ws);
    }
  }

  /** The entries that are looked up in the table: those without contents that
      have several links, except a directory that is reported first in its
      parent (`first`). */
  function LookedUp(t: Tree, first: bool): (h: seq<bool>)
    ensures |h| == |Entries(t)|
    decreases t, 1
  {
    LookedUpAll(t.kids, true) + [t.kids == [] && t.entry.nlink != 1 && !(first && t.entry.isDir)]
  }

  function LookedUpAll(ts: seq<Tree>, first: bool): (h: seq<bool>)
    ensures |h| == |EntriesAll(ts)|
    decreases ts, 0
  {
    if ts == [] then [] else LookedUp(ts[0], first) + LookedUpAll(ts[1..], false)
  }

  function Marked(visited: set<nat>, es: seq<Entry>, h: seq<bool>): set<nat>
    requires |es| == |h|
    decreases |es|
  {
    if es == [] then visited
    else Marked(if h[0] then visited + {Key(es[0])} else visited, es[1..], h[1..])
  }

  /** The entries that are counted: all but those found in the table. */
  function Counted(visited: set<nat>, es: seq<Entry>, h: seq<bool>): (c: seq<bool>)
    requires |es| == |h|
    ensures |c| == |es|
    decreases |es|
  {
    if es == [] then []
    else
      [!(h[0] && Key(es[0]) in visited)]
      + Counted(if h[0] then visited + {Key(es[0])} else visited, es[1..], h[1..])
  }

  lemma {:induction false} CountedAppend(visited: set<nat>, es: seq<Entry>, fs: seq<Entry>, h: seq<bool>, g: seq<bool>)
    requires |es| == |h| && |fs| == |g|
    ensures Marked(visited, es + fs, h + g) == Marked(Marked(visited, es, h), fs, g)
    ensures Counted(visited, es + fs, h + g) == Counted(visited, es, h) + Counted(Marked(visited, es, h), fs, g)
    decreases |es|
  {
    if es == [] {
      assert es + fs == fs && h + g == g;
    } else {
      assert (es + fs)[1..] == es[1..] + fs && (h + g)[1..] == h[1..] + g;
      CountedAppend(if h[0] then visited + {Key(es[0])} else visited, es[1..], fs, h[1..], g);
    }
  }

  function CountedIn(visited: set<nat>, t: Tree, first: bool): (c: seq<bool>)
    ensures |c| == |Entries(t)|
  {
    Counted(visited, Entries(t), LookedUp(t, first))
  }

  function CountedInAll(visited: set<nat>, ts: seq<Tree>, first: bool): (c: seq<bool>)
    ensures |c| == |EntriesAll(ts)|
  {
    Counted(visited, EntriesAll(ts), LookedUpAll(ts, first))
  }

  ghost predicate DeeperZero(m: Meter) {
    forall k :: 0 <= k < |m.total| && k > m.prev ==> m.total[k] == 0
  }

  /** The callbacks added `usage` to the cell of `level`, left this table and
      printed these lines. */
  ghost predicate Moved(m: Meter, m': Meter, level: nat, usage: nat, visited: set<nat>, lines: seq<Line>)
    requires Ready(m) && level < MAXDEPTH
  {
    && m'.total == m.total[level := m.total[level] + usage]
    && m'.prev == level
    && m'.visited == visited
    && m'.lines == m.lines + lines
  }

  /** What walking a subtree at `level` does. */
  ghost predicate Walked(m: Meter, m': Meter, t: Tree, level: nat)
    requires Ready(m) && level < MAXDEPTH
  {
    var h, c := LookedUp(t, m.prev < level), CountedIn(m.visited, t, m.prev < level);
    Moved(m, m', level, Usage(Entries(t), c), Marked(m.visited, Entries(t), h), CountedListing(t, c))
  }

  ghost predicate WalkedAll(m: Meter, m': Meter, ts: seq<Tree>, level: nat)
    requires Ready(m) && level < MAXDEPTH
  {
    var h, c := LookedUpAll(ts, m.prev < level), CountedInAll(m.visited, ts, m.prev < level);
    Moved(m, m', level, Usage(EntriesAll(ts), c), Marked(m.visited, EntriesAll(ts), h), CountedListingAll(ts, c))
  }

  lemma {:induction false} WalkTree(m: Meter, t: Tree, level: nat)
    requires Ready(m) && DeeperZero(m) && m.prev <= level && level + Height(t) <= MAXDEPTH
    ensures Shallow(Visits(t, level))
    ensures Walked(m, AccountAll(m, Visits(t, level)), t, level)
    decreases t, 1
  {
    ShallowTree(t, level);
    var below, root := VisitsAll(t.kids, level + 1), Visit(t.entry, level);
    ShallowAppend(below, [root]);
    AccountAppend(m, below, [root]);
    if t.kids == [] {
      LeafWalked(m, t, level);
    } else {
      WalkForest(m, t.kids, level + 1);
      DirectoryWalked(m, AccountAll(m, below), t, level);
    }
  }

  ghost predicate LeafLookedUp(e: Entry, first: bool) {
    e.nlink != 1 && !(first && e.isDir)
  }

  /** What an entry without contents comes to. */
  lemma LeafEntries(t: Tree, first: bool)
    requires t.kids == []
    ensures Entries(t) == [t.entry]
    ensures LookedUp(t, first) == [LeafLookedUp(t.entry, first)]
  {
    assert EntriesAll(t.kids) == [] && LookedUpAll(t.kids, true) == [];
  }

  lemma OneEntry(visited: set<nat>, e: Entry, looked: bool)
    ensures Marked(visited, [e], [looked]) == if looked then visited + {Key(e)} else visited
    ensures Counted(visited, [e], [looked]) == [!(looked && Key(e) in visited)]
  {
    assert [e][1..] == [] && [looked][1..] == [];
  }

  lemma OneLine(t: Tree, counted: bool)
    requires t.kids == [] && Entries(t) == [t.entry]
    ensures Usage([t.entry], [counted]) == if counted then Own(t.entry) else 0
    ensures CountedListing(t, [counted]) == if counted then [Line(Own(t.entry), t.entry.path)] else []
  {
    assert [t.entry][..0] == [] && [counted][..0] == [];
    assert CountedListingAll(t.kids, [counted][..0]) == [];
  }

  lemma LeafCounted(visited: set<nat>, t: Tree, first: bool)
    requires t.kids == []
    ensures var looked := LeafLookedUp(t.entry, first);
            var counted := !(looked && Key(t.entry) in visited);
            var c := CountedIn(visited, t, first);
            && Usage(Entries(t), c) == (if counted then Own(t.entry) else 0)
            && Marked(visited, Entries(t), LookedUp(t, first)) ==
                 (if looked then visited + {Key(t.entry)} else visited)
            && CountedListing(t, c) == if counted then [Line(Own(t.entry), t.entry.path)] else []
  {
    var looked := LeafLookedUp(t.entry, first);
    LeafEntries(t, first);
    OneEntry(visited, t.entry, looked);
    OneLine(t, !(looked && Key(t.entry) in visited));
  }

  /** The callback for an entry without contents counts it, or leaves the cells alone. */
  lemma LeafAccount(m: Meter, e: Entry, level: nat)
    requires Ready(m) && DeeperZero(m) && m.prev <= level < MAXDEPTH
    ensures var looked := LeafLookedUp(e, m.prev < level);
            var counted := !(looked && Key(e) in m.visited);
            Moved(m, Account(m, Visit(e, level)), level, if counted then Own(e) else 0,
                  if looked then m.visited + {Key(e)} else m.visited,
                  if counted then [Line(Own(e), e.path)] else [])
  {
    assert m.lines + [] == m.lines;
    assert m.total[level := m.total[level]] == m.total;
    assert Key(e) in m.visited ==> m.visited + {Key(e)} == m.visited;
  }

  lemma LeafWalked(m: Meter, t: Tree, level: nat)
    requires Ready(m) && DeeperZero(m) && m.prev <= level < MAXDEPTH && t.kids == []
    ensures Walked(m, Account(m, Visit(t.entry, level)), t, level)
  {
    LeafCounted(m.visited, t, m.prev < level);
    LeafAccount(m, t.entry, level);
  }

  /** A directory with contents is not looked up and always counted. */
  lemma DirectoryCounted(visited: set<nat>, t: Tree, first: bool)
    requires t.kids != []
    ensures var es, c, d := EntriesAll(t.kids), CountedInAll(visited, t.kids, true), CountedIn(visited, t, first);
            && Marked(visited, Entries(t), LookedUp(t, first)) == Marked(visited, es, LookedUpAll(t.kids, true))
            && Usage(Entries(t), d) == Usage(es, c) + Own(t.entry)
            && CountedListing(t, d) ==
                 CountedListingAll(t.kids, c) + [Line(Usage(es, c) + Own(t.entry), t.entry.path)]
  {
    var es, h := EntriesAll(t.kids), LookedUpAll(t.kids, true);
    CountedAppend(visited, es, [t.entry], h, [false]);
    var c := Counted(visited, es, h);
    UsageAppend(es, [t.entry], c, [true]);
    assert CountedIn(visited, t, first) == c + [true] && (c + [true])[..|c|] == c;
  }

  /** The callback for a directory moves the usage below it up by one level. */
  lemma DirectoryTotals(m: Meter, mid: Meter, e: Entry, level: nat, usage: nat, lines: seq<Line>)
    requires Ready(m) && DeeperZero(m) && m.prev <= level && level + 1 < MAXDEPTH
    requires Moved(m, mid, level + 1, usage, mid.visited, lines)
    ensures Ready(mid)
    ensures Moved(m, Account(mid, Visit(e, level)), level, usage + Own(e), mid.visited,
                  lines + [Line(usage + Own(e), e.path)])
  {
    assert mid.total == m.total[level + 1 := usage];
    assert mid.total[level := m.total[level] + usage + Own(e)][level + 1 := 0]
        == m.total[level := m.total[level] + usage + Own(e)];
    assert (m.lines + lines) + [Line(usage + Own(e), e.path)] == m.lines + (lines + [Line(usage + Own(e), e.path)]);
  }

  lemma DirectoryWalked(m: Meter, mid: Meter, t: Tree, level: nat)
    requires Ready(m) && DeeperZero(m) && m.prev <= level && level + 1 < MAXDEPTH && t.kids != []
    requires WalkedAll(m, mid, t.kids, level + 1)
    ensures Ready(mid) && Walked(m, Account(mid, Visit(t.entry, level)), t, level)
  {
    var c := CountedInAll(m.visited, t.kids, true);
    DirectoryCounted(m.visited, t, m.prev < level);
    DirectoryTotals(m, mid, t.entry, level, Usage(EntriesAll(t.kids), c), CountedListingAll(t.kids, c));
  }

  lemma {:induction false} WalkForest(m: Meter, ts: seq<Tree>, level: nat)
    requires Ready(m) && DeeperZero(m) && m.prev <= level && level + HeightAll(ts) <= MAXDEPTH
    requires ts != []
    ensures level < MAXDEPTH && Shallow(VisitsAll(ts, level))
    ensures WalkedAll(m, AccountAll(m, VisitsAll(ts, level)), ts, level)
    decreases ts, 0
  {
    ShallowForest(ts, level);
    ShallowTree(ts[0], level);
    ShallowForest(ts[1..], level);
    WalkTree(m, ts[0], level);
    var mid := AccountAll(m, Visits(ts[0], level));
    AccountAppend(m, Visits(ts[0], level), VisitsAll(ts[1..], level));
    WalkedReady(m, mid, ts[0], level);
    if ts[1..] == [] {
      NothingWalked(mid, level);
    } else {
      WalkForest(mid, ts[1..], level);
    }
    ForestWalked(m, mid, AccountAll(mid, VisitsAll(ts[1..], level)), ts, level);
  }

  lemma WalkedReady(m: Meter, mid: Meter, t: Tree, level: nat)
    requires Ready(m) && DeeperZero(m) && m.prev <= level < MAXDEPTH
    requires Walked(m, mid, t, level)
    ensures Ready(mid) && DeeperZero(mid) && mid.prev == level
  {
  }

  /** The first tree of a forest is counted before the others. */
  lemma ForestCounted(visited: set<nat>, ts: seq<Tree>, first: bool)
    requires ts != []
    ensures var c := CountedIn(visited, ts[0], first);
            var mid := Marked(visited, Entries(ts[0]), LookedUp(ts[0], first));
            var d := CountedInAll(mid, ts[1..], false);
            var e := CountedInAll(visited, ts, first);
            && Marked(visited, EntriesAll(ts), LookedUpAll(ts, first)) ==
                 Marked(mid, EntriesAll(ts[1..]), LookedUpAll(ts[1..], false))
            && Usage(EntriesAll(ts), e) == Usage(Entries(ts[0]), c) + Usage(EntriesAll(ts[1..]), d)
            && CountedListingAll(ts, e) == CountedListing(ts[0], c) + CountedListingAll(ts[1..], d)
  {
    var es, fs, h, g := Entries(ts[0]), EntriesAll(ts[1..]), LookedUp(ts[0], first), LookedUpAll(ts[1..], false);
    CountedAppend(visited, es, fs, h, g);
    var c, d := Counted(visited, es, h), Counted(Marked(visited, es, h), fs, g);
    UsageAppend(es, fs, c, d);
    assert (c + d)[..|es|] == c && (c + d)[|es|..] == d;
  }

  lemma ForestWalked(m: Meter, mid: Meter, m': Meter, ts: seq<Tree>, level: nat)
    requires Ready(m) && Ready(mid) && m.prev <= level < MAXDEPTH && ts != []
    requires Walked(m, mid, ts[0], level)
    requires WalkedAll(mid, m', ts[1..], level)
    ensures WalkedAll(m, m', ts, level)
  {
    var first := m.prev < level;
    var c, d := CountedIn(m.visited, ts[0], first), CountedInAll(mid.visited, ts[1..], false);
    var a, b := Usage(Entries(ts[0]), c), Usage(EntriesAll(ts[1..]), d);
    ForestCounted(m.visited, ts, first);
    MovedTwice(m, mid, m', level, a, b, CountedListing(ts[0], c), CountedListingAll(ts[1..], d));
  }

  lemma MovedTwice(m: Meter, mid: Meter, m': Meter, level: nat, a: nat, b: nat, k: seq<Line>, l: seq<Line>)
    requires Ready(m) && Ready(mid) && level < MAXDEPTH
    requires Moved(m, mid, level, a, mid.visited, k) && Moved(mid, m', level, b, m'.visited, l)
    ensures Moved(m, m', level, a + b, m'.visited, k + l)
  {
    assert mid.total[level] == m.total[level] + a;
    assert m.lines + k + l == m.lines + (k + l);
  }

  lemma NothingWalked(m: Meter, level: nat)
    requires Ready(m) && m.prev == level < MAXDEPTH
    ensures WalkedAll(m, m, [], level)
  {
    assert EntriesAll([]) == [];
  }

  /** The file-scope variables of the program and what it has printed; the hash
      table is the set of the keys in it. */
  class DiskUsage {
    const totalUsage: array<nat>
    var prevLevel: int
    var visited: set<nat>
    var printed: seq<Line>

    ghost predicate Valid()
      reads this
    {
      totalUsage.Length == MAXDEPTH && prevLevel < MAXDEPTH
    }

    ghost function View(): Meter
      reads this, totalUsage
    {
      Meter(totalUsage[..], prevLevel, visited, printed)
    }

    constructor ()
      ensures Valid() && fresh(totalUsage) && printed == []
    {
      totalUsage := new nat[MAXDEPTH];
      prevLevel := -1;
      visited := {};
      printed := [];
    }

    method WasVisited(e: Entry) returns (b: bool)
      ensures b <==> Key(e) in visited
    {
      b := e.ino * e.dev % HASH_VALUES in visited;
    }

    method MarkVisited(e: Entry) returns (inserted: bool)
      modifies this`visited
      ensures inserted <==> Key(e) !in old(visited)
      ensures visited == old(visited) + {Key(e)}
    {
      var val := e.ino * e.dev % HASH_VALUES;
      inserted := val !in visited;
      visited := visited + {val};
    }

    /** The callback: a non-zero status makes nftw stop. */
    method FileUsage(v: Visit) returns (status: int)
      requires Valid()
      modifies this`prevLevel, this`visited, this`printed, totalUsage
      ensures Valid()
      ensures v.level >= MAXDEPTH ==> status == -1 && View() == old(View())
      ensures v.level < MAXDEPTH ==> status == 0 && View() == Account(old(View()), v)
    {
      var alreadyVisited := false;
      var curUsage: nat := 0;
      var curLevel := v.level;
      if curLevel >= MAXDEPTH {
        return -1;
      }
      if prevLevel == curLevel {
        if v.entry.nlink == 1 {
          curUsage := v.entry.blocks / 2;
          totalUsage[curLevel] := totalUsage[curLevel] + curUsage;
        } else {
          alreadyVisited := WasVisited(v.entry);
          if !alreadyVisited {
            curUsage := v.entry.blocks / 2;
            totalUsage[curLevel] := totalUsage[curLevel] + curUsage;
            var inserted := MarkVisited(v.entry);
            assert inserted;
          }
        }
      } else if prevLevel > curLevel {
        curUsage := totalUsage[prevLevel] + v.entry.blocks / 2;
        totalUsage[curLevel] := totalUsage[curLevel] + curUsage;
        totalUsage[prevLevel] := 0;
      } else {
        if v.entry.nlink == 1 || v.entry.isDir {
          curUsage := v.entry.blocks / 2;
          totalUsage[curLevel] := curUsage;
        } else {
          alreadyVisited := WasVisited(v.entry);
          if !alreadyVisited {
            curUsage := v.entry.blocks / 2;
            totalUsage[curLevel] := curUsage;
            var inserted := MarkVisited(v.entry);
            assert inserted;
          }
        }
      }
      if !alreadyVisited {
        printed := printed + [Line(curUsage, v.entry.path)];
      }
      prevLevel := curLevel;
      return 0;
    }

    /** One argument of main: reset, then let nftw visit the tree. */
    method Walk(t: Tree) returns (status: int)
      requires Valid()
      modifies this`prevLevel, this`visited, this`printed, totalUsage
      ensures Valid()
      ensures status == 0 <==> Height(t) <= MAXDEPTH
      ensures status == 0 ==> printed == old(printed) + CountedListing(t, CountedIn({}, t, true))
      ensures status != 0 ==>
                exists n: nat :: StopsAt(Visits(t, 0), n)
                  && printed == AccountAll(Meter(Zeros(), -1, {}, old(printed)), Visits(t, 0)[..n]).lines
    {
      visited := {};
      var i := 0;
      while i < MAXDEPTH
        invariant 0 <= i <= MAXDEPTH
        invariant forall k :: 0 <= k < i ==> totalUsage[k] == 0
        invariant printed == old(printed) && visited == {}
      {
        totalUsage[i] := 0;
        i := i + 1;
      }
      prevLevel := -1;
      ghost var start := View();
      assert start == Meter(Zeros(), -1, {}, old(printed));
      var visits := Visits(t, 0);
      status := 0;
      i := 0;
      while i < |visits| && status == 0
        invariant 0 <= i <= |visits| && Valid()
        invariant status == 0 ==> Shallow(visits[..i])
        invariant status == 0 ==> View() == AccountAll(start, visits[..i])
        invariant status != 0 ==> StopsAt(visits, i) && View() == AccountAll(start, visits[..i])
        decreases |visits| - i, status == 0
      {
        status := FileUsage(visits[i]);
        if status == 0 {
          AccountAppend(start, visits[..i], [visits[i]]);
          assert visits[..i + 1] == visits[..i] + [visits[i]];
          i := i + 1;
        }
      }
      ShallowTree(t, 0);
      if status == 0 {
        assert visits[..i] == visits;
        WalkTree(start, t, 0);
      }
    }
  }
}

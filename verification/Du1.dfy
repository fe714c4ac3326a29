/** spl_du1.c: a callback with one accumulator per level and one remembered
    level prints, for every entry of a tree, the usage of its whole subtree. */
module Du1 {
  import opened FileTree

  datatype Meter = Meter(total: seq<nat>, prev: int, lines: seq<Line>)

  ghost predicate Ready(m: Meter) {
    |m.total| == MAXDEPTH && m.prev < MAXDEPTH
  }

  /** The effect of file_usage on a visit above MAXDEPTH. */
  ghost function Account(m: Meter, v: Visit): Meter
    requires Ready(m) && v.level < MAXDEPTH
  {
    var own, cur := Own(v.entry), m.total[v.level];
    if m.prev == v.level then
      Meter(m.total[v.level := cur + own], v.level, m.lines + [Line(own, v.entry.path)])
    else if m.prev > v.level then
      var usage := m.total[m.prev] + own;
      Meter(m.total[v.level := cur + usage][m.prev := 0], v.level, m.lines + [Line(usage, v.entry.path)])
    else
      Meter(m.total[v.level := own], v.level, m.lines + [Line(own, v.entry.path)])
  }

  /** The walk, as far as file_usage does not stop it. */
  ghost function AccountAll(m: Meter, vs: seq<Visit>): Meter
    requires Ready(m)
    requires Shallow(vs)
    decreases |vs|
  {
    if vs == [] then m else AccountAll(Account(m, vs[0]), vs[1..])
  }

  lemma {:induction false} AccountAppend(m: Meter, vs: seq<Visit>, ws: seq<Visit>)
    requires Ready(m)
    requires Shallow(vs)
    requires Shallow(ws)
    ensures Ready(AccountAll(m, vs))
    ensures AccountAll(m, vs + ws) == AccountAll(AccountAll(m, vs), ws)
    decreases |vs|
  {
    if vs == [] {
      assert vs + ws == ws;
    } else {
      assert (vs + ws)[1..] == vs[1..] + ws;
      AccountAppend(Account(m, vs[0]), vs[1..], ws);
    }
  }

  /** Every cell deeper than the level visited last is zero. */
  ghost predicate DeeperZero(m: Meter) {
    forall k :: 0 <= k < |m.total| && k > m.prev ==> m.total[k] == 0
  }

  /** Walking a subtree at `level` adds its size to that level's cell, leaves the
      other cells as they were and prints the subtree's listing. */
  lemma {:induction false} WalkTree(m: Meter, t: Tree, level: nat)
    requires Ready(m) && DeeperZero(m) && m.prev <= level && level + Height(t) <= MAXDEPTH
    ensures Shallow(Visits(t, level))
    ensures AccountAll(m, Visits(t, level)) ==
            Meter(m.total[level := m.total[level] + Size(t)], level, m.lines + Listing(t))
    decreases t, 1
  {
    ShallowTree(t, level);
    var below, root := VisitsAll(t.kids, level + 1), Visit(t.entry, level);
    ShallowAppend(below, [root]);
    AccountAppend(m, below, [root]);
    if t.kids == [] {
      assert m.lines + Listing(t) == m.lines + [Line(Own(t.entry), t.entry.path)];
    } else {
      WalkForest(m, t.kids, level + 1);
      DirectoryTotals(m, AccountAll(m, below), t.entry, level, SizeAll(t.kids));
      assert m.lines + Listing(t) == (m.lines + ListingAll(t.kids)) + [Line(Size(t), t.entry.path)];
    }
  }

  /** The callback for a directory moves the usage below it up by one level. */
  lemma DirectoryTotals(m: Meter, mid: Meter, e: Entry, level: nat, usage: nat)
    requires Ready(m) && DeeperZero(m) && m.prev <= level && level + 1 < MAXDEPTH
    requires mid.total == m.total[level + 1 := m.total[level + 1] + usage] && mid.prev == level + 1
    ensures Ready(mid)
    ensures AccountAll(mid, [Visit(e, level)]) ==
            Meter(m.total[level := m.total[level] + (usage + Own(e))], level,
                  mid.lines + [Line(usage + Own(e), e.path)])
  {
    assert [Visit(e, level)][1..] == [];
    assert mid.total[level := m.total[level] + usage + Own(e)][level + 1 := 0]
        == m.total[level := m.total[level] + usage + Own(e)];
  }

  lemma {:induction false} WalkForest(m: Meter, ts: seq<Tree>, level: nat)
    requires Ready(m) && DeeperZero(m) && m.prev <= level && level + HeightAll(ts) <= MAXDEPTH
    requires ts != []
    ensures Shallow(VisitsAll(ts, level))
    ensures level < MAXDEPTH
    ensures AccountAll(m, VisitsAll(ts, level)) ==
            Meter(m.total[level := m.total[level] + SizeAll(ts)], level, m.lines + ListingAll(ts))
    decreases ts, 0
  {
    ShallowForest(ts, level);
    ShallowTree(ts[0], level);
    ShallowForest(ts[1..], level);
    WalkTree(m, ts[0], level);
    var mid := AccountAll(m, Visits(ts[0], level));
    AccountAppend(m, Visits(ts[0], level), VisitsAll(ts[1..], level));
    MovedReady(m, mid, level, Size(ts[0]));
    var end := AccountAll(mid, VisitsAll(ts[1..], level));
    if ts[1..] != [] {
      WalkForest(mid, ts[1..], level);
    } else {
      NothingMoved(mid, level);
    }
    ForestMoved(m, mid, end, ts, level);
  }

  /** The size and the lines of the trees of a forest, after m. */
  ghost predicate Moved(m: Meter, m': Meter, ts: seq<Tree>, level: nat)
    requires Ready(m) && level < MAXDEPTH
  {
    m' == Meter(m.total[level := m.total[level] + SizeAll(ts)], level, m.lines + ListingAll(ts))
  }

  lemma NothingMoved(m: Meter, level: nat)
    requires Ready(m) && m.prev == level < MAXDEPTH
    ensures Moved(m, m, [], level)
  {
    assert m.lines + [] == m.lines;
    assert m.total[level := m.total[level] + 0] == m.total;
  }

  lemma ForestMoved(m: Meter, mid: Meter, end: Meter, ts: seq<Tree>, level: nat)
    requires Ready(m) && level < MAXDEPTH && ts != []
    requires mid == Meter(m.total[level := m.total[level] + Size(ts[0])], level, m.lines + Listing(ts[0]))
    requires Ready(mid) && Moved(mid, end, ts[1..], level)
    ensures Moved(m, end, ts, level)
  {
    MovedTwice(m, level, Size(ts[0]), SizeAll(ts[1..]), Listing(ts[0]), ListingAll(ts[1..]));
  }

  lemma MovedReady(m: Meter, mid: Meter, level: nat, a: nat)
    requires Ready(m) && DeeperZero(m) && m.prev <= level < MAXDEPTH
    requires mid.total == m.total[level := m.total[level] + a] && mid.prev == level
    ensures Ready(mid) && DeeperZero(mid)
  {
  }

  /** One subtree's size and lines after another's. */
  lemma MovedTwice(m: Meter, level: nat, a: nat, b: nat, k: seq<Line>, l: seq<Line>)
    requires Ready(m) && level < MAXDEPTH
    ensures var total := m.total[level := m.total[level] + a];
            Meter(total[level := total[level] + b], level, (m.lines + k) + l)
            == Meter(m.total[level := m.total[level] + (a + b)], level, m.lines + (k + l))
  {
    assert (m.lines + k) + l == m.lines + (k + l);
  }

  /** The file-scope variables of the program and what it has printed. */
  class DiskUsage {
    const totalsize: array<nat>
    var prevLevel: int
    var printed: seq<Line>

    ghost predicate Valid()
      reads this
    {
      totalsize.Length == MAXDEPTH && prevLevel < MAXDEPTH
    }

    ghost function View(): Meter
      reads this, totalsize
    {
      Meter(totalsize[..], prevLevel, printed)
    }

    constructor ()
      ensures Valid() && fresh(totalsize) && printed == []
    {
      totalsize := new nat[MAXDEPTH];
      prevLevel := -1;
      printed := [];
    }

    /** The callback: a non-zero status makes nftw stop. */
    method FileUsage(v: Visit) returns (status: int)
      requires Valid()
      modifies this`prevLevel, this`printed, totalsize
      ensures Valid()
      ensures v.level >= MAXDEPTH ==> status == -1 && View() == old(View())
      ensures v.level < MAXDEPTH ==> status == 0 && View() == Account(old(View()), v)
    {
      var curLevel := v.level;
      if curLevel >= MAXDEPTH {
        return -1;
      }
      var curUsage := v.entry.blocks / 2;
      if prevLevel == curLevel {
        totalsize[curLevel] := totalsize[curLevel] + curUsage;
      } else if prevLevel > curLevel {
        curUsage := totalsize[prevLevel] + v.entry.blocks / 2;
        totalsize[curLevel] := totalsize[curLevel] + curUsage;
        totalsize[prevLevel] := 0;
      } else {
        totalsize[curLevel] := curUsage;
      }
      printed := printed + [Line(curUsage, v.entry.path)];
      prevLevel := curLevel;
      return 0;
    }

    /** One argument of main: reset, then let nftw visit the tree. The walk
        succeeds exactly for trees that are not too high, and then prints for
        every entry the usage of its subtree. */
    method Walk(t: Tree) returns (status: int)
      requires Valid()
      modifies this`prevLevel, this`printed, totalsize
      ensures Valid()
      ensures status == 0 <==> Height(t) <= MAXDEPTH
      ensures status == 0 ==> printed == old(printed) + Listing(t)
      ensures status != 0 ==>
                exists n: nat :: StopsAt(Visits(t, 0), n)
                            && printed == AccountAll(Meter(Zeros(), -1, old(printed)), Visits(t, 0)[..n]).lines
    {
      var i := 0;
      while i < MAXDEPTH
        invariant 0 <= i <= MAXDEPTH
        invariant forall k :: 0 <= k < i ==> totalsize[k] == 0
        invariant printed == old(printed)
      {
        totalsize[i] := 0;
        i := i + 1;
      }
      prevLevel := -1;
      ghost var start := View();
      assert start == Meter(Zeros(), -1, old(printed));
      var visits := Visits(t, 0);
      status := 0;
      i := 0;
      while i < |visits| && status == 0
        invariant 0 <= i <= |visits| && Valid()
        invariant status == 0 ==> Shallow(visits[..i])
        invariant status == 0 ==> View() == AccountAll(start, visits[..i])
        invariant status != 0 ==> StopsAt(visits, i) && View() == AccountAll(start, visits[..i])
        decreases |visits| - i, status == 0
      {
        status := FileUsage(visits[i]);
        if status == 0 {
          AccountAppend(start, visits[..i], [visits[i]]);
          assert visits[..i + 1] == visits[..i] + [visits[i]];
          i := i + 1;
        }
      }
      ShallowTree(t, 0);
      if status == 0 {
        assert visits[..i] == visits;
        WalkTree(start, t, 0);
      }
    }
  }
}

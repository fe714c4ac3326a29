/** File trees as nftw walks them, and what a listing of their disk usage is. */
module FileTree {

  datatype Entry = Entry(path: string, isDir: bool, nlink: nat, ino: nat, dev: nat, blocks: nat)
  datatype Tree = Node(entry: Entry, kids: seq<Tree>)

  /** One call of the callback: FTW_DEPTH reports a directory after its contents. */
  datatype Visit = Visit(entry: Entry, level: nat)

  datatype Line = Line(usage: nat, path: string)

  function Visits(t: Tree, level: nat): seq<Visit>
    decreases t, 1
  {
    VisitsAll(t.kids, level + 1) + [Visit(t.entry, level)]
  }

  function VisitsAll(ts: seq<Tree>, level: nat): seq<Visit>
    decreases ts, 0
  {
    if ts == [] then [] else Visits(ts[0], level) + VisitsAll(ts[1..], level)
  }

  /** Levels below and including the root of t. */
  function Height(t: Tree): nat
    decreases t, 1
  {
    1 + HeightAll(t.kids)
  }

  function HeightAll(ts: seq<Tree>): nat
    decreases ts, 0
  {
    if ts == [] then 0
    else
      var h, rest := Height(ts[0]), HeightAll(ts[1..]);
      if h > rest then h else rest
  }

  const MAXDEPTH: nat := 100

  /** No visit is deeper than the accumulators reach. */
  ghost predicate Shallow(vs: seq<Visit>) {
    forall i :: 0 <= i < |vs| ==> vs[i].level < MAXDEPTH
  }

  /** Visit n is the first that is too deep, and stops the walk. */
  ghost predicate StopsAt(vs: seq<Visit>, n: nat) {
    n < |vs| && Shallow(vs[..n]) && vs[n].level >= MAXDEPTH
  }

  function Zeros(): (r: seq<nat>)
    ensures |r| == MAXDEPTH && forall k :: 0 <= k < MAXDEPTH ==> r[k] == 0
  {
    seq(MAXDEPTH, i => 0)
  }

  lemma ShallowAppend(vs: seq<Visit>, ws: seq<Visit>)
    ensures Shallow(vs + ws) <==> Shallow(vs) && Shallow(ws)
  {
    if Shallow(vs + ws) {
      assert forall i :: 0 <= i < |vs| ==> vs[i] == (vs + ws)[i];
      assert forall i :: 0 <= i < |ws| ==> ws[i] == (vs + ws)[|vs| + i];
    }
  }

  /** The visits of a tree are shallow exactly if the tree is not too high. */
  lemma {:induction false} ShallowTree(t: Tree, level: nat)
    ensures Shallow(Visits(t, level)) <==> level + Height(t) <= MAXDEPTH
    decreases t, 1
  {
    ShallowForest(t.kids, level + 1);
    ShallowAppend(VisitsAll(t.kids, level + 1), [Visit(t.entry, level)]);
    assert Shallow([Visit(t.entry, level)]) <==> level < MAXDEPTH by {
      assert [Visit(t.entry, level)][0].level == level;
    }
  }

  lemma {:induction false} ShallowForest(ts: seq<Tree>, level: nat)
    ensures Shallow(VisitsAll(ts, level)) <==> (ts == [] || level + HeightAll(ts) <= MAXDEPTH)
    decreases ts, 0
  {
    if ts != [] {
      ShallowTree(ts[0], level);
      ShallowForest(ts[1..], level);
      ShallowAppend(Visits(ts[0], level), VisitsAll(ts[1..], level));
    }
  }

  /** The disk usage of an entry in kilobytes. */
  function Own(e: Entry): nat { e.blocks / 2 }

  /** st_blocks counts blocks of 512 bytes; an odd one at the end is left out. */
  lemma OwnIsKilobytes(e: Entry)
    ensures 1024 * Own(e) <= 512 * e.blocks < 1024 * Own(e) + 1024
  {
  }

  /** The usage of everything below and including the root of t. */
  function Size(t: Tree): nat
    decreases t, 1
  {
    SizeAll(t.kids) + Own(t.entry)
  }

  function SizeAll(ts: seq<Tree>): nat
    decreases ts, 0
  {
    if ts == [] then 0 else Size(ts[0]) + SizeAll(ts[1..])
  }

  /** One line for every entry, each with the usage of its whole subtree. */
  function Listing(t: Tree): seq<Line>
    decreases t, 1
  {
    ListingAll(t.kids) + [Line(Size(t), t.entry.path)]
  }

  function ListingAll(ts: seq<Tree>): seq<Line>
    decreases ts, 0
  {
    if ts == [] then [] else Listing(ts[0]) + ListingAll(ts[1..])
  }

  // ------------------------------------------ listings that count some entries

  /** The entries of t in the order of the walk. */
  function Entries(t: Tree): (es: seq<Entry>)
    ensures |es| >= 1
    decreases t, 1
  {
    EntriesAll(t.kids) + [t.entry]
  }

  function EntriesAll(ts: seq<Tree>): seq<Entry>
    decreases ts, 0
  {
    if ts == [] then [] else Entries(ts[0]) + EntriesAll(ts[1..])
  }

  /** The usage of the entries that are counted. */
  function Usage(es: seq<Entry>, counted: seq<bool>): nat
    requires |es| == |counted|
  {
    if es == [] then 0
    else
      var k := |es| - 1;
      Usage(es[..k], counted[..k]) + if counted[k] then Own(es[k]) else 0
  }

  /** One line for every counted entry, with the usage of the counted entries
      of its subtree; `counted` follows the order of the walk. */
  function CountedListing(t: Tree, counted: seq<bool>): seq<Line>
    requires |counted| == |Entries(t)|
    decreases t, 1
  {
    var k := |counted| - 1;
    CountedListingAll(t.kids, counted[..k])
    + if counted[k] then [Line(Usage(Entries(t), counted), t.entry.path)] else []
  }

  function CountedListingAll(ts: seq<Tree>, counted: seq<bool>): seq<Line>
    requires |counted| == |EntriesAll(ts)|
    decreases ts, 0
  {
    if ts == [] then []
    else
      var n := |Entries(ts[0])|;
      CountedListing(ts[0], counted[..n]) + CountedListingAll(ts[1..], counted[n..])
  }

  lemma {:induction false} UsageAppend(es: seq<Entry>, fs: seq<Entry>, c: seq<bool>, d: seq<bool>)
    requires |es| == |c| && |fs| == |d|
    ensures Usage(es + fs, c + d) == Usage(es, c) + Usage(fs, d)
  {
    if fs == [] {
      assert es + fs == es && c + d == c;
    } else {
      var k := |fs| - 1;
      assert (es + fs)[..|es + fs| - 1] == es + fs[..k];
      assert (c + d)[..|c + d| - 1] == c + d[..k];
      UsageAppend(es, fs[..k], c, d[..k]);
    }
  }

  function Everything(n: nat): seq<bool> { seq(n, _ => true) }

  lemma EverythingSplits(n: nat, m: nat)
    ensures Everything(n + m) == Everything(n) + Everything(m)
    ensures Everything(n + m)[..n] == Everything(n) && Everything(n + m)[n..] == Everything(m)
  {
  }

  /** Counting every entry gives the plain listing. */
  lemma {:induction false} CountingEverything(t: Tree)
    ensures Usage(Entries(t), Everything(|Entries(t)|)) == Size(t)
    ensures CountedListing(t, Everything(|Entries(t)|)) == Listing(t)
    decreases t, 1
  {
    var n := |Entries(t)|;
    CountingEverythingAll(t.kids);
    assert Everything(n)[..n - 1] == Everything(n - 1);
    assert Entries(t)[..n - 1] == EntriesAll(t.kids);
  }

  lemma {:induction false} CountingEverythingAll(ts: seq<Tree>)
    ensures Usage(EntriesAll(ts), Everything(|EntriesAll(ts)|)) == SizeAll(ts)
    ensures CountedListingAll(ts, Everything(|EntriesAll(ts)|)) == ListingAll(ts)
    decreases ts, 0
  {
    if ts != [] {
      var first, rest := Entries(ts[0]), EntriesAll(ts[1..]);
      CountingEverything(ts[0]);
      CountingEverythingAll(ts[1..]);
      assert EntriesAll(ts) == first + rest;
      EverythingSplits(|first|, |rest|);
      UsageAppend(first, rest, Everything(|first|), Everything(|rest|));
    }
  }

  function Trues(c: seq<bool>): nat {
    if c == [] then 0 else Trues(c[..|c| - 1]) + if c[|c| - 1] then 1 else 0
  }

  lemma {:induction false} TruesAppend(c: seq<bool>, d: seq<bool>)
    ensures Trues(c + d) == Trues(c) + Trues(d)
  {
    if d == [] {
      assert c + d == c;
    } else {
      assert (c + d)[..|c + d| - 1] == c + d[..|d| - 1];
      TruesAppend(c, d[..|d| - 1]);
    }
  }

  lemma {:induction false} ListingLength(t: Tree, c: seq<bool>)
    requires |c| == |Entries(t)|
    ensures |CountedListing(t, c)| == Trues(c)
    decreases t, 1
  {
    ListingLengthAll(t.kids, c[..|c| - 1]);
  }

  lemma {:induction false} ListingLengthAll(ts: seq<Tree>, c: seq<bool>)
    requires |c| == |EntriesAll(ts)|
    ensures |CountedListingAll(ts, c)| == Trues(c)
    decreases ts, 0
  {
    if ts != [] {
      var n := |Entries(ts[0])|;
      ListingLength(ts[0], c[..n]);
      ListingLengthAll(ts[1..], c[n..]);
      TruesAppend(c[..n], c[n..]);
      assert c == c[..n] + c[n..];
    }
  }

  ghost predicate Implies(c: seq<bool>, d: seq<bool>) {
    |c| == |d| && forall i :: 0 <= i < |c| && c[i] ==> d[i]
  }

  lemma {:induction false} FewerTrues(c: seq<bool>, d: seq<bool>)
    requires Implies(c, d)
    ensures Trues(c) <= Trues(d)
    ensures Trues(c) == Trues(d) ==> c == d
  {
    if c != [] {
      var k := |c| - 1;
      FewerTrues(c[..k], d[..k]);
      assert c == c[..k] + [c[k]] && d == d[..k] + [d[k]];
    }
  }

  /** Of two countings, one of which counts more, the listings agree only if the countings do. */
  lemma ListingsDiffer(t: Tree, c: seq<bool>, d: seq<bool>)
    requires |c| == |Entries(t)| && Implies(c, d)
    ensures CountedListing(t, c) == CountedListing(t, d) <==> c == d
  {
    ListingLength(t, c);
    ListingLength(t, d);
    FewerTrues(c, d);
  }
}

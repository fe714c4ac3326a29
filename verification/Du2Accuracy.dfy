/** When the listing of spl_du2.c counts every file exactly once, and how it
    relates to the listing of spl_du1.c. */
module Du2Accuracy {
  import opened FileTree
  import opened Du2

  predicate SameFile(e: Entry, f: Entry) { e.ino == f.ino && e.dev == f.dev }

  /** Entry i is the first name of its file that the walk meets. */
  ghost predicate FirstMet(es: seq<Entry>, i: nat)
    requires i < |es|
  {
    forall j :: 0 <= j < i ==> !SameFile(es[j], es[i])
  }

  /** The entries a listing should count: every file once, where it is met first. */
  ghost function FirstNames(es: seq<Entry>): (c: seq<bool>)
    ensures |c| == |es|
  {
    seq(|es|, i requires 0 <= i < |es| => FirstMet(es, i))
  }

  /** Two entries are the same file only if they are links to a file that is not a directory. */
  ghost predicate Consistent(es: seq<Entry>) {
    forall i, j :: 0 <= i < |es| && 0 <= j < |es| && i != j && SameFile(es[i], es[j]) ==>
      !es[i].isDir && es[i].nlink != 1
  }

  /** No two different files that are looked up share a key. */
  ghost predicate KeysDistinct(es: seq<Entry>, h: seq<bool>)
    requires |es| == |h|
  {
    forall i, j :: 0 <= i < |es| && 0 <= j < |es| && h[i] && h[j] && Key(es[i]) == Key(es[j]) ==>
      SameFile(es[i], es[j])
  }

  /** Only directories have contents. */
  ghost predicate FilesAreLeaves(t: Tree)
    decreases t
  {
    (t.entry.isDir || t.kids == []) && forall k :: 0 <= k < |t.kids| ==> FilesAreLeaves(t.kids[k])
  }

  ghost predicate NewKey(es: seq<Entry>, h: seq<bool>, i: nat)
    requires i < |es| == |h|
  {
    h[i] ==> forall j :: 0 <= j < i && h[j] ==> Key(es[j]) != Key(es[i])
  }

  /** No two entries that are looked up share a key. */
  ghost predicate AllNewKeys(es: seq<Entry>, h: seq<bool>)
    requires |es| == |h|
  {
    forall i :: 0 <= i < |es| ==> NewKey(es, h, i)
  }

  /** What the table does: entry i is counted unless it is looked up and an
      earlier entry that was looked up has its key. */
  lemma {:induction false} CountedMeansNewKey(visited: set<nat>, es: seq<Entry>, h: seq<bool>, i: nat)
    requires i < |es| == |h|
    ensures Counted(visited, es, h)[i] <==> NewKey(es, h, i) && (h[i] ==> Key(es[i]) !in visited)
    decreases |es|
  {
    if i > 0 {
      var visited' := if h[0] then visited + {Key(es[0])} else visited;
      CountedMeansNewKey(visited', es[1..], h[1..], i - 1);
      NewKeyOfTail(es, h, i);
    }
  }

  lemma NewKeyOfTail(es: seq<Entry>, h: seq<bool>, i: nat)
    requires 0 < i < |es| == |h|
    ensures NewKey(es, h, i) <==> NewKey(es[1..], h[1..], i - 1) && !(h[i] && h[0] && Key(es[0]) == Key(es[i]))
  {
    if NewKey(es[1..], h[1..], i - 1) && !(h[i] && h[0] && Key(es[0]) == Key(es[i])) && h[i] {
      forall j | 0 <= j < i && h[j] ensures Key(es[j]) != Key(es[i]) {
        if j > 0 {
          assert es[j] == es[1..][j - 1] && h[j] == h[1..][j - 1];
        }
      }
    }
    if NewKey(es, h, i) && h[i] {
      forall j | 0 <= j < i - 1 && h[1..][j] ensures Key(es[1..][j]) != Key(es[1..][i - 1]) {
        assert es[1..][j] == es[j + 1];
      }
    }
  }

  /** Every file with several links is looked up; nothing else is but directories. */
  ghost predicate LooksUpLinks(es: seq<Entry>, h: seq<bool>) {
    && |es| == |h|
    && forall i :: 0 <= i < |es| ==> (h[i] ==> es[i].nlink != 1) && (!es[i].isDir && es[i].nlink != 1 ==> h[i])
  }

  lemma {:induction false} LinksLookedUp(t: Tree, first: bool)
    requires FilesAreLeaves(t)
    ensures LooksUpLinks(Entries(t), LookedUp(t, first))
    decreases t, 1
  {
    LinksLookedUpAll(t.kids, true);
  }

  lemma {:induction false} LinksLookedUpAll(ts: seq<Tree>, first: bool)
    requires forall k :: 0 <= k < |ts| ==> FilesAreLeaves(ts[k])
    ensures LooksUpLinks(EntriesAll(ts), LookedUpAll(ts, first))
    decreases ts, 0
  {
    if ts != [] {
      LinksLookedUp(ts[0], first);
      LinksLookedUpAll(ts[1..], false);
    }
  }

  /** The table never makes the listing count a file twice. */
  lemma CountedIsFirst(es: seq<Entry>, h: seq<bool>)
    requires LooksUpLinks(es, h) && Consistent(es)
    ensures Implies(Counted({}, es, h), FirstNames(es))
  {
    forall i | 0 <= i < |es| && Counted({}, es, h)[i] ensures FirstNames(es)[i] {
      CountedMeansNewKey({}, es, h, i);
    }
  }

  lemma DistinctKeysSuffice(es: seq<Entry>, h: seq<bool>)
    requires LooksUpLinks(es, h) && Consistent(es) && KeysDistinct(es, h)
    ensures Counted({}, es, h) == FirstNames(es)
  {
    CountedIsFirst(es, h);
    forall i | 0 <= i < |es| && FirstNames(es)[i] ensures Counted({}, es, h)[i] {
      CountedMeansNewKey({}, es, h, i);
    }
  }

  lemma FirstNameOf(es: seq<Entry>, i: nat) returns (f: nat)
    requires i < |es|
    ensures f <= i && FirstMet(es, f) && SameFile(es[f], es[i])
  {
    f := i;
    if j :| 0 <= j < i && SameFile(es[j], es[i]) {
      f := FirstNameOf(es, j);
    }
  }

  /** No name of the file of entry j is counted. */
  ghost predicate NotCountedAtAll(es: seq<Entry>, h: seq<bool>, j: nat)
    requires j < |es| == |h|
  {
    forall k :: 0 <= k < |es| && SameFile(es[k], es[j]) ==> !Counted({}, es, h)[k]
  }

  /** Entry i comes before every name of the file of entry j. */
  ghost predicate MetBefore(es: seq<Entry>, i: nat, j: nat)
    requires i < |es| && j < |es|
  {
    forall k :: 0 <= k < |es| && SameFile(es[k], es[j]) ==> i < k
  }

  /** Of two different files with one key, the one that is met later is not counted at all. */
  lemma SharedKeyLosesFile(es: seq<Entry>, h: seq<bool>, i: nat, j: nat)
    requires LooksUpLinks(es, h) && Consistent(es)
    requires i < |es| && j < |es| && h[i] && h[j] && Key(es[i]) == Key(es[j]) && !SameFile(es[i], es[j])
    ensures MetBefore(es, i, j) ==> NotCountedAtAll(es, h, j)
    ensures NotCountedAtAll(es, h, i) || NotCountedAtAll(es, h, j)
    ensures Counted({}, es, h) != FirstNames(es)
  {
    var a := FirstNameOf(es, i);
    var b := FirstNameOf(es, j);
    assert h[a] && h[b];
    if MetBefore(es, i, j) {
      NamesAreLost(es, h, i, j);
    }
    if a < b {
      NamesAreLost(es, h, a, b);
      assert FirstNames(es)[b] && !Counted({}, es, h)[b];
    } else {
      NamesAreLost(es, h, b, a);
      assert FirstNames(es)[a] && !Counted({}, es, h)[a];
    }
  }

  lemma NamesAreLost(es: seq<Entry>, h: seq<bool>, i: nat, j: nat)
    requires LooksUpLinks(es, h) && Consistent(es)
    requires i < |es| && j < |es| && h[i] && h[j] && Key(es[i]) == Key(es[j])
    requires MetBefore(es, i, j) || (i < j && FirstMet(es, j))
    ensures NotCountedAtAll(es, h, j)
  {
    forall k | 0 <= k < |es| && SameFile(es[k], es[j]) ensures !Counted({}, es, h)[k] {
      assert i < k && h[k];
      CountedMeansNewKey({}, es, h, k);
    }
  }

  // ----------------------------------------------------------- main results

  /** spl_du2 prints the listing that counts every file once, where it is met
      first, exactly if no two different files it looks up have the same
      product of inode and device number (modulo 2^64). */
  lemma AccurateIffKeysDistinct(t: Tree)
    requires FilesAreLeaves(t) && Consistent(Entries(t))
    ensures CountedListing(t, CountedIn({}, t, true)) == CountedListing(t, FirstNames(Entries(t)))
            <==> KeysDistinct(Entries(t), LookedUp(t, true))
  {
    var es, h := Entries(t), LookedUp(t, true);
    LinksLookedUp(t, true);
    CountedIsFirst(es, h);
    ListingsDiffer(t, Counted({}, es, h), FirstNames(es));
    if KeysDistinct(es, h) {
      DistinctKeysSuffice(es, h);
    } else {
      var i, j :| 0 <= i < |es| && 0 <= j < |es| && h[i] && h[j] && Key(es[i]) == Key(es[j]) && !SameFile(es[i], es[j]);
      SharedKeyLosesFile(es, h, i, j);
    }
  }

  ghost predicate OneDevice(es: seq<Entry>, dev: nat) {
    forall i :: 0 <= i < |es| ==> es[i].dev == dev && es[i].ino * dev < HASH_VALUES
  }

  lemma SameFactor(a: nat, b: nat, d: nat)
    requires a * d == b * d && d > 0
    ensures a == b
  {
    assert (a - b) * d == 0;
  }

  /** On a single device, with numbers whose product fits a hash value, the listing is accurate. */
  lemma AccurateOnOneDevice(t: Tree, dev: nat)
    requires FilesAreLeaves(t) && Consistent(Entries(t)) && OneDevice(Entries(t), dev) && dev > 0
    ensures CountedListing(t, CountedIn({}, t, true)) == CountedListing(t, FirstNames(Entries(t)))
  {
    var es, h := Entries(t), LookedUp(t, true);
    forall i, j | 0 <= i < |es| && 0 <= j < |es| && h[i] && h[j] && Key(es[i]) == Key(es[j])
      ensures SameFile(es[i], es[j])
    {
      SameFactor(es[i].ino, es[j].ino, dev);
    }
    AccurateIffKeysDistinct(t);
  }

  /** A directory "d" with two linked files on two devices whose keys are both 24. */
  function SharedKeyTree(): Tree {
    var file1 := Node(Entry("d/a", false, 2, 6, 4, 8), []);
    var file2 := Node(Entry("d/b", false, 2, 8, 3, 8), []);
    Node(Entry("d", true, 2, 2, 4, 8), [file1, file2])
  }

  lemma LeafListing(t: Tree, first: bool, c: bool)
    requires t.kids == []
    ensures Entries(t) == [t.entry]
    ensures LookedUp(t, first) == [t.entry.nlink != 1 && !(first && t.entry.isDir)]
    ensures CountedListing(t, [c]) == if c then [Line(Own(t.entry), t.entry.path)] else []
  {
    LeafEntries(t, first);
    OneLine(t, c);
  }

  lemma PairEntries(t: Tree)
    requires |t.kids| == 2 && t.kids[0].kids == [] && t.kids[1].kids == []
    ensures var a, b := t.kids[0].entry, t.kids[1].entry;
            && Entries(t) == [a, b, t.entry]
            && LookedUp(t, true) == [a.nlink != 1 && !a.isDir, b.nlink != 1, false]
  {
    var ta, tb := t.kids[0], t.kids[1];
    LeafEntries(ta, true);
    LeafEntries(tb, false);
    assert t.kids[1..] == [tb] && [tb][1..] == [];
    assert EntriesAll([tb]) == [tb.entry] && LookedUpAll([tb], false) == [tb.entry.nlink != 1];
    assert EntriesAll(t.kids) == [ta.entry, tb.entry];
    assert LookedUpAll(t.kids, true) == LookedUp(ta, true) + LookedUpAll([tb], false);
  }

  lemma PairListing(t: Tree, c0: bool, c1: bool)
    requires |t.kids| == 2 && t.kids[0].kids == [] && t.kids[1].kids == []
    ensures var a, b := t.kids[0].entry, t.kids[1].entry;
            && |Entries(t)| == 3
            && CountedListing(t, [c0, c1, true]) ==
                 (if c0 then [Line(Own(a), a.path)] else [])
                 + (if c1 then [Line(Own(b), b.path)] else [])
                 + [Line((if c0 then Own(a) else 0) + (if c1 then Own(b) else 0) + Own(t.entry), t.entry.path)]
  {
    var ta, tb, c := t.kids[0], t.kids[1], [c0, c1, true];
    PairEntries(t);
    UsageOfThree(ta.entry, tb.entry, t.entry, c0, c1);
    assert c[..2] == [c0, c1];
    PairForest(ta, tb, t.kids, c0, c1);
  }

  lemma PairForest(ta: Tree, tb: Tree, ts: seq<Tree>, c0: bool, c1: bool)
    requires ts == [ta, tb] && ta.kids == [] && tb.kids == []
    ensures |EntriesAll(ts)| == 2
    ensures CountedListingAll(ts, [c0, c1]) ==
            (if c0 then [Line(Own(ta.entry), ta.entry.path)] else [])
            + (if c1 then [Line(Own(tb.entry), tb.entry.path)] else [])
  {
    LeafListing(ta, true, c0);
    LeafListing(tb, false, c1);
    assert ts[1..] == [tb] && [tb][1..] == [];
    assert EntriesAll([tb]) == [tb.entry];
    assert [c0, c1][..1] == [c0] && [c0, c1][1..] == [c1];
    assert CountedListingAll([tb], [c1]) == CountedListing(tb, [c1]);
  }

  lemma UsageOfThree(a: Entry, b: Entry, d: Entry, c0: bool, c1: bool)
    ensures Usage([a, b, d], [c0, c1, true]) == (if c0 then Own(a) else 0) + (if c1 then Own(b) else 0) + Own(d)
  {
    assert [a, b, d][..2] == [a, b] && [c0, c1, true][..2] == [c0, c1];
    assert [a, b][..1] == [a] && [c0, c1][..1] == [c0];
    assert Usage([a, b], [c0, c1]) == Usage([a], [c0]) + if c1 then Own(b) else 0;
    assert Usage([a], [c0]) == if c0 then Own(a) else 0;
  }

  lemma SharedKeyCounts()
    ensures var t := SharedKeyTree();
            FirstNames(Entries(t)) == [true, true, true] && CountedIn({}, t, true) == [true, false, true]
  {
    var t := SharedKeyTree();
    PairEntries(t);
    var es := Entries(t);
    assert es[1..] == [es[1], es[2]];
  }

  lemma SharedKeyConsistent()
    ensures FilesAreLeaves(SharedKeyTree()) && Consistent(Entries(SharedKeyTree()))
  {
    var t := SharedKeyTree();
    PairEntries(t);
    assert FilesAreLeaves(t.kids[0]) && FilesAreLeaves(t.kids[1]);
  }

  lemma SharedKeyLines(counted: bool)
    ensures var t := SharedKeyTree();
            && |Entries(t)| == 3
            && CountedListing(t, [true, counted, true]) ==
                 if counted then [Line(4, "d/a"), Line(4, "d/b"), Line(12, "d")] else [Line(4, "d/a"), Line(8, "d")]
  {
    var t := SharedKeyTree();
    var a, b := t.kids[0].entry, t.kids[1].entry;
    assert Line(Own(a), a.path) == Line(4, "d/a") && Line(Own(b), b.path) == Line(4, "d/b");
    PairListing(t, true, counted);
    ThreeLines(Line(4, "d/a"), Line(4, "d/b"), Line(if counted then 12 else 8, "d"), counted);
  }

  lemma ThreeLines(a: Line, b: Line, d: Line, counted: bool)
    ensures [a] + (if counted then [b] else []) + [d] == if counted then [a, b, d] else [a, d]
  {
  }

  /** Two linked files on two devices that are taken for one: the second is
      neither printed nor added to the total. */
  lemma SharedKeyExample()
    ensures var t := SharedKeyTree();
            && FilesAreLeaves(t) && Consistent(Entries(t))
            && CountedListing(t, FirstNames(Entries(t))) == [Line(4, "d/a"), Line(4, "d/b"), Line(12, "d")]
            && CountedListing(t, CountedIn({}, t, true)) == [Line(4, "d/a"), Line(8, "d")]
  {
    SharedKeyConsistent();
    SharedKeyCounts();
    SharedKeyLines(true);
    SharedKeyLines(false);
  }

  /** spl_du2 prints what spl_du1 prints, line for line, exactly if no two
      entries that it looks up have the same key. */
  lemma AgreesWithDu1(t: Tree)
    ensures CountedListing(t, CountedIn({}, t, true)) == Listing(t)
            <==> AllNewKeys(Entries(t), LookedUp(t, true))
  {
    var es, h := Entries(t), LookedUp(t, true);
    var c, all := Counted({}, es, h), Everything(|es|);
    CountingEverything(t);
    ListingsDiffer(t, c, all);
    AllCounted(es, h);
  }

  lemma AllCounted(es: seq<Entry>, h: seq<bool>)
    requires |es| == |h|
    ensures Counted({}, es, h) == Everything(|es|) <==> AllNewKeys(es, h)
  {
    var c := Counted({}, es, h);
    forall i | 0 <= i < |es| ensures c[i] <==> NewKey(es, h, i) {
      CountedMeansNewKey({}, es, h, i);
    }
    if c == Everything(|es|) {
      assert forall i :: 0 <= i < |es| ==> c[i];
    }
  }
}

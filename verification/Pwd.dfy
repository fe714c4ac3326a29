/** spl_pwd.c: the working directory's path, built from right to left. */
module Pwd {
  import opened Common

  const PATH_MAX: nat := 4096

  datatype FileId = FileId(dev: nat, ino: nat)

  datatype Entry = Entry(name: string, id: FileId)

  /** A directory with its entries in the order in which readdir() returns them. */
  datatype Dir = Dir(id: FileId, entries: seq<Entry>)

  predicate AreSameFile(f1: FileId, f2: FileId) {
    f1.ino == f2.ino && f1.dev == f2.dev
  }

  /** The name of the first entry with the given identity. */
  function FileName(entries: seq<Entry>, id: FileId): Option<string> {
    if entries == [] then None
    else if AreSameFile(entries[0].id, id) then Some(entries[0].name)
    else FileName(entries[1..], id)
  }

  lemma {:induction false} FileNameIsFirst(entries: seq<Entry>, id: FileId, k: nat)
    requires k < |entries| && entries[k].id == id
    requires forall j :: 0 <= j < k ==> entries[j].id != id
    ensures FileName(entries, id) == Some(entries[k].name)
  {
    if k > 0 {
      FileNameIsFirst(entries[1..], id, k - 1);
    }
  }

  lemma {:induction false} FileNameMissing(entries: seq<Entry>, id: FileId)
    ensures FileName(entries, id).None? <==> forall j :: 0 <= j < |entries| ==> entries[j].id != id
  {
    if entries != [] {
      FileNameMissing(entries[1..], id);
      assert forall j :: 0 < j < |entries| ==> entries[1..][j - 1] == entries[j];
      assert forall j :: 0 <= j < |entries| - 1 ==> entries[1..][j] == entries[j + 1];
    }
  }

  method GetFilename(entries: seq<Entry>, childEntry: FileId) returns (fname: Option<string>)
    ensures fname == FileName(entries, childEntry)
  {
    var k := 0;
    while k < |entries|
      invariant 0 <= k <= |entries|
      invariant FileName(entries, childEntry) == FileName(entries[k..], childEntry)
    {
      if AreSameFile(entries[k].id, childEntry) {
        return Some(entries[k].name);
      }
      assert entries[k..][1..] == entries[k + 1..];
      k := k + 1;
    }
    fname := None;
  }

  // ------------------------------------------------------------- the path

  /** The names found on the way up from the last directory, and whether the
      way ends at the root; each directory's parent comes before it. */
  function Found(dirs: seq<Dir>): (seq<string>, bool)
    requires dirs != []
  {
    var last := |dirs| - 1;
    if last == 0 || AreSameFile(dirs[last].id, dirs[0].id) then ([], true)
    else
      match FileName(dirs[last - 1].entries, dirs[last].id)
      case None => ([], false)
      case Some(name) =>
        var (names, complete) := Found(dirs[..last]);
        (names + [name], complete)
  }

  function Join(names: seq<string>): string {
    if names == [] then "" else "/" + names[0] + Join(names[1..])
  }

  function Dots(n: nat): (r: string)
    ensures |r| == n && forall k :: 0 <= k < n ==> r[k] == '.'
  {
    if n == 0 then "" else "." + Dots(n - 1)
  }

  datatype Outcome = Path(text: string) | TooLong(text: string) | Missing

  /** A suffix that fits, after a name that does not fit any more. */
  predicate Cut(names: seq<string>, k: nat, text: string) {
    && 0 < k <= |names|
    && |Join(names[k..])| < PATH_MAX <= |Join(names[k - 1..])|
    && text == Dots(PATH_MAX - 1 - |Join(names[k..])|) + Join(names[k..])
  }

  lemma {:induction false} JoinOfConcat(a: seq<string>, b: seq<string>)
    ensures Join(a + b) == Join(a) + Join(b)
  {
    if a == [] {
      assert a + b == b;
    } else {
      JoinOfConcat(a[1..], b);
      assert (a + b)[1..] == a[1..] + b;
    }
  }

  /** The climb has come up to dirs[i] and found the given names below it. */
  ghost predicate Climbed(dirs: seq<Dir>, i: nat, names: seq<string>) {
    && i < |dirs|
    && Found(dirs).0 == Found(dirs[..i + 1]).0 + names && Found(dirs).1 == Found(dirs[..i + 1]).1
  }

  lemma ClimbStarts(dirs: seq<Dir>)
    requires dirs != []
    ensures Climbed(dirs, |dirs| - 1, [])
  {
    assert dirs[..|dirs| - 1 + 1] == dirs;
  }

  /** What is found from dirs[i] on comes from what is found above and one name. */
  lemma FoundStep(dirs: seq<Dir>, i: nat, name: string)
    requires 0 < i < |dirs| && !AreSameFile(dirs[i].id, dirs[0].id)
    requires FileName(dirs[i - 1].entries, dirs[i].id) == Some(name)
    ensures Found(dirs[..i + 1]) == (Found(dirs[..i]).0 + [name], Found(dirs[..i]).1)
  {
    var up := dirs[..i + 1];
    assert up[i] == dirs[i] && up[0] == dirs[0] && up[i - 1] == dirs[i - 1];
    assert up[..i] == dirs[..i];
  }

  lemma Regroup(above: seq<string>, name: string, names: seq<string>)
    ensures above + [name] + names == above + ([name] + names)
  {
  }

  lemma ClimbStep(dirs: seq<Dir>, i: nat, names: seq<string>, name: string)
    requires Climbed(dirs, i, names) && !AreSameFile(dirs[i].id, dirs[0].id)
    requires FileName(dirs[i - 1].entries, dirs[i].id) == Some(name)
    ensures Climbed(dirs, i - 1, [name] + names)
    ensures Found(dirs).0 == Found(dirs[..i]).0 + [name] + names
  {
    FoundStep(dirs, i, name);
    Regroup(Found(dirs[..i]).0, name, names);
  }

  /** Nothing is found from a directory that looks like the root or has no name. */
  lemma FoundStops(dirs: seq<Dir>)
    requires dirs != []
    requires var last := |dirs| - 1;
             AreSameFile(dirs[last].id, dirs[0].id) || FileName(dirs[last - 1].entries, dirs[last].id).None?
    ensures Found(dirs) == ([], AreSameFile(dirs[|dirs| - 1].id, dirs[0].id))
  {
  }

  lemma ClimbEnds(dirs: seq<Dir>, i: nat, names: seq<string>)
    requires Climbed(dirs, i, names)
    requires AreSameFile(dirs[i].id, dirs[0].id) || FileName(dirs[i - 1].entries, dirs[i].id).None?
    ensures Found(dirs).0 == names && Found(dirs).1 == AreSameFile(dirs[i].id, dirs[0].id)
  {
    var up := dirs[..i + 1];
    assert up[i] == dirs[i] && up[0] == dirs[0] && (i > 0 ==> up[i - 1] == dirs[i - 1]);
    FoundStops(up);
    assert [] + names == names;
  }

  /** The memcpy() of a name. */
  method CopyName(pathname: array<char>, at: nat, dirname: string)
    requires at + |dirname| <= pathname.Length
    modifies pathname
    ensures forall j :: 0 <= j < |dirname| ==> pathname[at + j] == dirname[j]
    ensures forall j :: at + |dirname| <= j < pathname.Length ==> pathname[j] == old(pathname[j])
  {
    forall j | 0 <= j < |dirname| {
      pathname[at + j] := dirname[j];
    }
  }

  /** A name goes to the left of the path, and a slash to the left of the name. */
  method Prepend(pathname: array<char>, front: nat, dirname: string) returns (newFront: nat)
    requires pathname.Length == PATH_MAX && front < PATH_MAX && |dirname| < front
    modifies pathname
    ensures newFront == front - |dirname| - 1
    ensures pathname[newFront..PATH_MAX - 1] == "/" + dirname + old(pathname[front..PATH_MAX - 1])
  {
    ghost var path := pathname[front..PATH_MAX - 1];
    newFront := front - |dirname|;
    CopyName(pathname, newFront, dirname);
    pathname[newFront - 1] := '/';
    newFront := newFront - 1;
    ghost var whole := pathname[newFront..PATH_MAX - 1];
    forall j | 0 <= j < |whole| ensures whole[j] == ("/" + dirname + path)[j] {
      assert whole[j] == pathname[newFront + j];
    }
  }

  /** A name that does not fit is replaced by dots. */
  method FillWithDots(pathname: array<char>, front: nat)
    requires pathname.Length == PATH_MAX && front < PATH_MAX
    modifies pathname
    ensures pathname[..PATH_MAX - 1] == Dots(front) + old(pathname[front..PATH_MAX - 1])
  {
    forall j | 0 <= j < front {
      pathname[j] := '.';
    }
    assert pathname[..front] == Dots(front);
    assert pathname[..PATH_MAX - 1] == pathname[..front] + pathname[front..PATH_MAX - 1];
  }

  lemma JoinOne(name: string, names: seq<string>)
    ensures Join([name] + names) == "/" + name + Join(names)
  {
    assert ([name] + names)[1..] == names;
  }

  /** Where the path is cut when `name` does not fit before `names`. */
  lemma CutBefore(above: seq<string>, name: string, names: seq<string>, text: string)
    requires |Join(names)| < PATH_MAX <= |Join(names)| + |name| + 1
    requires text == Dots(PATH_MAX - 1 - |Join(names)|) + Join(names)
    ensures |Join(above + [name] + names)| >= PATH_MAX
    ensures Cut(above + [name] + names, |above| + 1, text)
  {
    var all := above + [name] + names;
    assert all == above + ([name] + names) && all[|above| + 1..] == names && all[|above|..] == [name] + names;
    JoinOne(name, names);
    JoinOfConcat(above, [name] + names);
  }

  /** What is printed when `name` does not fit before the path. */
  method CutPath(pathname: array<char>, front: nat, ghost above: seq<string>, ghost name: string,
                 ghost names: seq<string>) returns (r: Outcome)
    requires pathname.Length == PATH_MAX && front < PATH_MAX && front <= |name|
    requires pathname[front..PATH_MAX - 1] == Join(names)
    modifies pathname
    ensures r.TooLong? && |r.text| == PATH_MAX - 1
    ensures |Join(above + [name] + names)| >= PATH_MAX && Cut(above + [name] + names, |above| + 1, r.text)
  {
    FillWithDots(pathname, front);
    r := TooLong(pathname[..PATH_MAX - 1]);
    CutBefore(above, name, names, r.text);
  }

  /** The path is printed when it is known up to the root and fits; when what is
      known does not fit, exactly PATH_MAX - 1 characters are printed: dots and
      as many of the last names as fit. */
  method PrintPath(dirs: seq<Dir>) returns (r: Outcome)
    requires dirs != []
    ensures r.Path? <==> Found(dirs).1 && |Join(Found(dirs).0)| < PATH_MAX
    ensures r.Path? ==> r.text == if Found(dirs).0 == [] then "/" else Join(Found(dirs).0)
    ensures r.TooLong? <==> |Join(Found(dirs).0)| >= PATH_MAX
    ensures r.TooLong? ==> |r.text| == PATH_MAX - 1 && exists k :: Cut(Found(dirs).0, k, r.text)
  {
    var root, current := dirs[0].id, dirs[|dirs| - 1].id;
    var pathname := new char[PATH_MAX];
    var front := PATH_MAX - 1;
    ghost var names: seq<string> := [];
    var i: nat := |dirs| - 1;
    ClimbStarts(dirs);
    if AreSameFile(current, root) {
      ClimbEnds(dirs, i, names);
      return Path("/");
    }
    while !AreSameFile(current, root)
      invariant Climbed(dirs, i, names) && current == dirs[i].id
      invariant 0 <= front < PATH_MAX && pathname[front..PATH_MAX - 1] == Join(names)
      invariant names == [] ==> !AreSameFile(current, root)
      decreases i
    {
      var dirname := GetFilename(dirs[i - 1].entries, current);
      if dirname.None? {
        ClimbEnds(dirs, i, names);
        return Missing;
      }
      var namelength := |dirname.value|;
      ClimbStep(dirs, i, names, dirname.value);
      if front - namelength <= 0 {
        r := CutPath(pathname, front, Found(dirs[..i]).0, dirname.value, names);
        return;
      }
      JoinOne(dirname.value, names);
      front := Prepend(pathname, front, dirname.value);
      names := [dirname.value] + names;
      i := i - 1;
      current := dirs[i].id;
    }
    ClimbEnds(dirs, i, names);
    assert Found(dirs).0 == names && names != [] && |Join(names)| == PATH_MAX - 1 - front;
    r := Path(pathname[front..PATH_MAX - 1]);
  }

  // ------------------------------------------------------------- the true path

  /** The directory lists the file under this name and no other. */
  ghost predicate Lists(dir: Dir, name: string, id: FileId) {
    Entry(name, id) in dir.entries && forall e :: e in dir.entries && e.id == id ==> e.name == name
  }

  /** The directories lead through the given names, and only the first is the root. */
  ghost predicate Chain(dirs: seq<Dir>, names: seq<string>) {
    && |dirs| == |names| + 1
    && forall i :: 0 < i < |dirs| ==> dirs[i].id != dirs[0].id && Lists(dirs[i - 1], names[i - 1], dirs[i].id)
  }

  lemma {:induction false} FileNameIsEntry(entries: seq<Entry>, id: FileId)
    requires FileName(entries, id).Some?
    ensures Entry(FileName(entries, id).value, id) in entries
  {
    if entries[0].id != id {
      FileNameIsEntry(entries[1..], id);
    }
  }

  lemma FileNameOfListed(dir: Dir, name: string, id: FileId)
    requires Lists(dir, name, id)
    ensures FileName(dir.entries, id) == Some(name)
  {
    FileNameMissing(dir.entries, id);
    FileNameIsEntry(dir.entries, id);
  }

  lemma ChainAbove(dirs: seq<Dir>, names: seq<string>)
    requires Chain(dirs, names) && names != []
    ensures Chain(dirs[..|names|], names[..|names| - 1])
    ensures Lists(dirs[|names| - 1], names[|names| - 1], dirs[|names|].id) && dirs[|names|].id != dirs[0].id
  {
    var last := |names|;
    forall i | 0 < i < last
      ensures dirs[..last][i].id != dirs[..last][0].id
              && Lists(dirs[..last][i - 1], names[..last - 1][i - 1], dirs[..last][i].id)
    {
      assert dirs[i].id != dirs[0].id && Lists(dirs[i - 1], names[i - 1], dirs[i].id);
    }
  }

  /** The names found are the components of the true path. */
  lemma {:induction false} FoundIsTruePath(dirs: seq<Dir>, names: seq<string>)
    requires Chain(dirs, names)
    ensures Found(dirs).0 == names && Found(dirs).1
    decreases |dirs|
  {
    var last := |names|;
    if last > 0 {
      ChainAbove(dirs, names);
      FoundIsTruePath(dirs[..last], names[..last - 1]);
      FileNameOfListed(dirs[last - 1], names[last - 1], dirs[last].id);
      assert names[..last - 1] + [names[last - 1]] == names;
    }
  }

  /** Step j of the path from dirs[top] leads from a directory to the next. */
  ghost predicate Leads(dirs: seq<Dir>, names: seq<string>, top: nat) {
    && top < |dirs| && |names| == |dirs| - 1 - top
    && forall j :: 0 <= j < |names| ==> Entry(names[j], dirs[top + j + 1].id) in dirs[top + j].entries
  }

  lemma LeadsOnce(dirs: seq<Dir>, names: seq<string>, top: nat, name: string)
    requires |dirs| > 1 && Leads(dirs[..|dirs| - 1], names, top)
    requires Entry(name, dirs[|dirs| - 1].id) in dirs[|dirs| - 2].entries
    ensures Leads(dirs, names + [name], top)
  {
    var above := dirs[..|dirs| - 1];
    forall j | 0 <= j < |names|
      ensures Entry(names[j], dirs[top + j + 1].id) in dirs[top + j].entries
    {
      assert Entry(names[j], above[top + j + 1].id) in above[top + j].entries;
    }
  }

  /** Whatever the directories hold, also several names for one file, the names
      found lead from the root, or what has its identity, to the last directory. */
  lemma {:induction false} FoundLeads(dirs: seq<Dir>) returns (top: nat)
    requires dirs != []
    ensures Leads(dirs, Found(dirs).0, top)
    ensures Found(dirs).1 <==> dirs[top].id == dirs[0].id
    decreases |dirs|
  {
    var last := |dirs| - 1;
    if last == 0 || dirs[last].id == dirs[0].id || FileName(dirs[last - 1].entries, dirs[last].id).None? {
      top := last;
    } else {
      top := FoundLeads(dirs[..last]);
      FileNameIsEntry(dirs[last - 1].entries, dirs[last].id);
      var name := FileName(dirs[last - 1].entries, dirs[last].id).value;
      assert Found(dirs) == (Found(dirs[..last]).0 + [name], Found(dirs[..last]).1);
      LeadsOnce(dirs, Found(dirs[..last]).0, top, name);
    }
  }

  lemma {:induction false} JoinShrinks(names: seq<string>, j: nat, k: nat)
    requires j <= k <= |names|
    ensures |Join(names[k..])| + (k - j) <= |Join(names[j..])|
    decreases k - j
  {
    if j < k {
      JoinShrinks(names, j + 1, k);
      assert names[j..][1..] == names[j + 1..];
    }
  }

  /** There is one place at which the path can be cut, and there are dots in
      front unless the names after it fill the buffer by themselves. */
  lemma CutIsUnique(names: seq<string>, k: nat, text: string, k': nat, text': string)
    requires Cut(names, k, text) && Cut(names, k', text')
    ensures k == k' && text == text'
    ensures text[0] == '.' <==> |Join(names[k..])| < PATH_MAX - 1
  {
    if k < k' {
      JoinShrinks(names, k, k' - 1);
    } else if k' < k {
      JoinShrinks(names, k', k - 1);
    }
    assert |text| == PATH_MAX - 1;
    if |Join(names[k..])| == PATH_MAX - 1 {
      assert names[k..] != [];
      assert text == Join(names[k..]);
    }
  }

  // ------------------------------------------------------------- a path cut without a dot

  /** Any names are the path of some chain of directories. */
  lemma ChainOf(names: seq<string>) returns (dirs: seq<Dir>)
    ensures Chain(dirs, names)
  {
    dirs := seq(|names| + 1, i requires 0 <= i <= |names| =>
      Dir(FileId(1, i), if i < |names| then [Entry(names[i], FileId(1, i + 1))] else []));
    forall i | 0 < i < |dirs| ensures Lists(dirs[i - 1], names[i - 1], dirs[i].id) {
      assert dirs[i - 1].entries[0] == Entry(names[i - 1], FileId(1, i));
    }
  }

  const NAME_MAX: nat := 255

  function Copies(n: nat, name: string): (names: seq<string>)
    ensures |names| == n && forall k :: 0 <= k < n ==> names[k] == name
  {
    if n == 0 then [] else [name] + Copies(n - 1, name)
  }

  lemma {:induction false} JoinOfCopies(n: nat, name: string)
    ensures |Join(Copies(n, name))| == n * (|name| + 1)
  {
    if n > 0 {
      JoinOfCopies(n - 1, name);
      assert Copies(n, name)[1..] == Copies(n - 1, name);
      assert n * (|name| + 1) == (n - 1) * (|name| + 1) + |name| + 1;
    }
  }

  /** A path of names that any file system allows is cut, and what is printed
      begins with a slash: it looks like the path of another directory. */
  lemma DotlessExample()
    ensures exists dirs, names, k, text ::
              Chain(dirs, names) && (forall j :: 0 <= j < |names| ==> 0 < |names[j]| <= NAME_MAX)
              && Cut(names, k, text) && text[0] == '/'
  {
    var short, long := Dots(NAME_MAX - 1), Dots(NAME_MAX);
    var copies := Copies(15, long);
    var kept := [short] + copies;
    var names := ["a"] + kept;
    JoinOfCopies(15, long);
    assert kept[1..] == copies && names[1..] == kept && names[0..] == names;
    assert Join(kept) == "/" + short + Join(copies);
    assert |Join(kept)| == PATH_MAX - 1;
    assert Join(names) == "/" + "a" + Join(kept);
    var text := Dots(0) + Join(kept);
    assert Cut(names, 1, text);
    var dirs := ChainOf(names);
    forall j | 0 <= j < |names| ensures 0 < |names[j]| <= NAME_MAX {
      assert j >= 2 ==> names[j] == copies[j - 2];
    }
  }
}

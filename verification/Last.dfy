/** The imperative part of spl_last.c: the doubly linked list of saved logouts
    and main's loop over the records, last record first. */
module Last {
  import opened Common
  import opened Wtmp
  import opened LastSpec

  class Node {
    const ut: Record
    var next: Node?
    var prev: Node?

    constructor (ut: Record, next: Node?)
      ensures this.ut == ut && this.next == next && prev == null
    {
      this.ut, this.next, prev := ut, next, null;
    }
  }

  /** The list that starts at `head`; `nodes` are its nodes in order, `repr`
      all nodes that were ever in it. */
  class UtList {
    var head: Node?
    ghost var nodes: seq<Node>
    ghost var repr: set<Node>

    /** The links of every node lead to its neighbours. */
    ghost predicate Valid()
      reads this, repr
    {
      && (forall i :: 0 <= i < |nodes| ==> nodes[i] in repr)
      && head == At(nodes, 0)
      && (forall i, j :: 0 <= i < j < |nodes| ==> nodes[i] != nodes[j])
      && (forall i {:trigger nodes[i].next} :: 0 <= i < |nodes| ==> nodes[i].next == At(nodes, i + 1))
      && (forall i {:trigger nodes[i].prev} :: 0 <= i < |nodes| ==> nodes[i].prev == At(nodes, i - 1))
    }

    ghost function Saved(): seq<Record>
      reads this
    {
      Recorded(nodes)
    }

    constructor ()
      ensures Valid() && nodes == [] && repr == {}
    {
      head, nodes, repr := null, [], {};
    }

    /** save_ut_to_list */
    method Save(ut: Record)
      requires Valid()
      modifies this, repr
      ensures Valid() && fresh(repr - old(repr))
      ensures Saved() == [ut] + old(Saved())
    {
      var node := new Node(ut, head);
      if head != null {
        head.prev := node;
      }
      head := node;
      nodes, repr := [node] + nodes, repr + {node};
    }

    /** The first half of delete_utnode: the successor of node k skips it. */
    method SkipBackward(p: Node, ghost k: nat)
      requires Valid() && k < |nodes| && p == nodes[k]
      modifies repr
      ensures forall i {:trigger nodes[i].next} :: 0 <= i < |nodes| ==> nodes[i].next == At(nodes, i + 1)
      ensures forall i {:trigger nodes[i].prev} :: 0 <= i < |nodes| ==>
                nodes[i].prev == if i == k + 1 then At(nodes, k - 1) else At(nodes, i - 1)
    {
      if p.next != null {
        p.next.prev := p.prev;
      }
    }

    /** The second half: the predecessor skips it, or the list starts after it. */
    method SkipForward(p: Node, ghost k: nat)
      requires k < |nodes| && p == nodes[k] && head == At(nodes, 0)
      requires forall i :: 0 <= i < |nodes| ==> nodes[i] in repr
      requires forall i, j :: 0 <= i < j < |nodes| ==> nodes[i] != nodes[j]
      requires forall i {:trigger nodes[i].next} :: 0 <= i < |nodes| ==> nodes[i].next == At(nodes, i + 1)
      requires forall i {:trigger nodes[i].prev} :: 0 <= i < |nodes| ==>
                 nodes[i].prev == if i == k + 1 then At(nodes, k - 1) else At(nodes, i - 1)
      modifies this`head, repr
      ensures head == if k == 0 then At(nodes, 1) else At(nodes, 0)
      ensures forall i {:trigger nodes[i].next} :: 0 <= i < |nodes| ==>
                nodes[i].next == if i == k - 1 then At(nodes, k + 1) else At(nodes, i + 1)
      ensures forall i {:trigger nodes[i].prev} :: 0 <= i < |nodes| ==>
                nodes[i].prev == if i == k + 1 then At(nodes, k - 1) else At(nodes, i - 1)
    {
      if p.prev != null {
        p.prev.next := p.next;
      } else {
        head := p.next;
      }
    }

    /** delete_utnode: unlinks the k-th node. */
    method Delete(p: Node, ghost k: nat)
      requires Valid() && k < |nodes| && p == nodes[k]
      modifies this`head, this`nodes, repr
      ensures Valid() && nodes == old(nodes)[..k] + old(nodes)[k + 1..]
    {
      SkipBackward(p, k);
      SkipForward(p, k);
      ghost var was := nodes;
      nodes := nodes[..k] + nodes[k + 1..];
      WithoutOne(was, nodes, k);
    }

    /** One node of the walk: it is deleted if it is on the line; `next` was read before. */
    method VisitNode(p: Node, line: string, ghost kept: seq<Node>, ghost rest: seq<Node>)
      returns (next: Node?, hit: bool)
      requires Valid() && nodes == kept + [p] + rest
      modifies this`head, this`nodes, repr
      ensures Valid() && nodes == (if hit then kept else kept + [p]) + rest
      ensures next == At(rest, 0) && (hit <==> p.ut.line == line)
    {
      assert nodes[|kept|] == p;
      next := p.next;
      assert next == At(nodes, |kept| + 1) == At(rest, 0);
      hit := p.ut.line == line;
      if hit {
        Delete(p, |kept|);
      }
    }

    /** The walk over the list when a login is found: every saved logout on its
        line ends a session and is deleted on the way. */
    method MatchLogin(entry: Record) returns (found: bool, lines: seq<Printed>)
      requires Valid()
      modifies this`head, this`nodes, repr
      ensures Valid()
      ensures lines == Sessions(entry, Matching(old(Saved()), entry.line))
      ensures found <==> Matching(old(Saved()), entry.line) != []
      ensures Saved() == Others(old(Saved()), entry.line)
    {
      found, lines := false, [];
      ghost var was, i := nodes, 0;
      ghost var kept: seq<Node> := [];
      ghost var walk := Walk([], [], Saved());
      var p := head;
      while p != null
        invariant Valid() && 0 <= i <= |was| && p == At(was, i)
        invariant nodes == kept + was[i..]
        invariant walk.rest == Recorded(was[i..]) && walk.others == Recorded(kept)
        invariant WalkOf(walk, old(Saved()), entry.line)
        invariant lines == Sessions(entry, walk.matched)
        invariant found <==> lines != []
        decreases |was| - i
      {
        var ut := p.ut;
        ghost var node: Node := p;
        TakeNode(nodes, kept, was, node, i);
        WalkOn(walk, old(Saved()), entry.line);
        SessionsAppend(entry, walk.matched, ut);
        walk := Advance(walk, entry.line);
        var next, hit := VisitNode(p, entry.line, kept, was[i + 1..]);
        if hit {
          lines := lines + [Printed(entry, Some(ut.time))];
          found := true;
        } else {
          kept := kept + [node];
        }
        p := next;
        i := i + 1;
      }
      assert kept + was[i..] == kept;
      WalkEnds(walk, old(Saved()), entry.line);
    }

    /** erase_utlist: visits every node, to free it, and empties the list. */
    method Erase()
      requires Valid()
      modifies this`head, this`nodes
      ensures Valid() && nodes == []
    {
      var ptr := head;
      ghost var freed := 0;
      while ptr != null
        invariant freed <= |nodes| && ptr == At(nodes, freed)
        decreases |nodes| - freed
      {
        ptr := ptr.next;
        freed := freed + 1;
      }
      head, nodes := null, [];
    }
  }

  ghost function At(nodes: seq<Node>, i: int): Node? {
    if 0 <= i < |nodes| then nodes[i] else null
  }

  ghost function Recorded(nodes: seq<Node>): seq<Record> {
    seq(|nodes|, i requires 0 <= i < |nodes| => nodes[i].ut)
  }

  /** Links that skip node k are the links of the sequence without node k. */
  lemma WithoutOne(was: seq<Node>, nodes: seq<Node>, k: nat)
    requires k < |was| && nodes == was[..k] + was[k + 1..]
    requires forall i {:trigger was[i].next} :: 0 <= i < |was| ==>
               was[i].next == if i == k - 1 then At(was, k + 1) else At(was, i + 1)
    requires forall i {:trigger was[i].prev} :: 0 <= i < |was| ==>
               was[i].prev == if i == k + 1 then At(was, k - 1) else At(was, i - 1)
    ensures forall i {:trigger nodes[i].next} :: 0 <= i < |nodes| ==> nodes[i].next == At(nodes, i + 1)
    ensures forall i {:trigger nodes[i].prev} :: 0 <= i < |nodes| ==> nodes[i].prev == At(nodes, i - 1)
  {
    forall i {:trigger nodes[i].next} | 0 <= i < |nodes|
      ensures nodes[i].next == At(nodes, i + 1) && nodes[i].prev == At(nodes, i - 1)
    {
      var w := if i < k then i else i + 1;
      assert nodes[i] == was[w];
      assert was[w].next == if w == k - 1 then At(was, k + 1) else At(was, w + 1);
      assert was[w].prev == if w == k + 1 then At(was, k - 1) else At(was, w - 1);
    }
  }

  function Decoded(records: seq<Bytes>, decode: Bytes -> Record): seq<Record> {
    seq(|records|, i requires 0 <= i < |records| => decode(records[i]))
  }

  /** One pass of main's switch; `l` is what the loop variables stood for. */
  method HandleRecord(entry: Record, list: UtList, lastBoot: Option<int>, lastShutdown: int, printed: seq<Printed>,
                      showSysEvents: bool, ghost l: Loop)
    returns (lastBoot': Option<int>, lastShutdown': int, printed': seq<Printed>)
    requires list.Valid() && l == Loop(list.Saved(), lastBoot, lastShutdown, printed)
    modifies list, list.repr
    ensures list.Valid() && fresh(list.repr - old(list.repr))
    ensures Loop(list.Saved(), lastBoot', lastShutdown', printed') == Handle(l, entry, showSysEvents)
  {
    lastBoot', lastShutdown', printed' := lastBoot, lastShutdown, printed;
    var r := Classify(entry);
    match r.utType {
      case BootTime =>
        printed' := printed + [Printed(r.(line := "system boot"), Some(lastShutdown))];
        lastBoot' := Some(r.time);
        if list.head != null {
          list.Erase();
        }
      case ShutdownTime =>
        lastShutdown' := r.time;
        if showSysEvents {
          printed' := printed + [Printed(r, lastBoot)];
        }
        if list.head != null {
          list.Erase();
        }
      case UserProcess =>
        var found, lines := list.MatchLogin(r);
        printed' := printed + lines;
        if !found {
          printed' := printed' + [Printed(r, Some(if lastShutdown > 0 then -1 else 0))];
        }
      case DeadProcess =>
        if r.line != "" {
          list.Save(r);
        }
      case _ =>
    }
  }

  /** The same pass, for the record before the ones handled so far. */
  method HandlePrevious(entry: Record, list: UtList, lastBoot: Option<int>, lastShutdown: int, printed: seq<Printed>,
                        showSysEvents: bool, ghost all: seq<Record>, ghost k: nat)
    returns (lastBoot': Option<int>, lastShutdown': int, printed': seq<Printed>)
    requires list.Valid() && k < |all| && all[k] == entry
    requires Loop(list.Saved(), lastBoot, lastShutdown, printed) == After(all[k + 1..], showSysEvents)
    modifies list, list.repr
    ensures list.Valid() && fresh(list.repr - old(list.repr))
    ensures Loop(list.Saved(), lastBoot', lastShutdown', printed') == After(all[k..], showSysEvents)
  {
    AfterOneMore(all, k, showSysEvents);
    lastBoot', lastShutdown', printed' :=
      HandleRecord(entry, list, lastBoot, lastShutdown, printed, showSysEvents, After(all[k + 1..], showSysEvents));
  }

  /** The read at the head of main's loop; `left` of the records `raw` have not been read. */
  method ReadPrevious(fd: Reader, done: bool, ghost raw: seq<Bytes>, ghost left: nat)
    returns (ok: bool, bytes: Bytes, done': bool)
    requires fd.Valid() && (fd.isFirst ==> |fd.file| >= fd.utsize)
    requires left <= |raw| && fd.Remaining() == raw[..left]
    modifies fd
    ensures fd.Valid() && !fd.isFirst
    ensures ok <==> left > 0
    ensures ok ==> fd.Remaining() == raw[..left - 1] && bytes == raw[left - 1]
    ensures !ok ==> fd.Remaining() == raw[..left]
    ensures done' == !ok
  {
    ok, bytes, done' := fd.GetPrev(done);
  }

  /** main's loop over the records that have not been read, which are all. */
  method HandleAll(fd: Reader, list: UtList, decode: Bytes -> Record, showSysEvents: bool, ghost raw: seq<Bytes>)
    returns (printed: seq<Printed>)
    requires fd.Valid() && fd.Remaining() == raw && (fd.isFirst ==> |fd.file| >= fd.utsize)
    requires list.Valid() && list.nodes == []
    modifies fd, list, list.repr
    ensures list.Valid() && fresh(list.repr - old(list.repr))
    ensures printed == After(Decoded(raw, decode), showSysEvents).printed
  {
    printed := [];
    ghost var all := Decoded(raw, decode);
    ghost var left: nat := |raw|;
    var lastBoot, lastShutdown, done := None, 0, false;
    assert all[left..] == [] && raw[..left] == raw;
    while !done
      invariant fd.Valid() && list.Valid() && fresh(list.repr - old(list.repr))
      invariant fd.isFirst ==> |fd.file| >= fd.utsize
      invariant left <= |raw| && fd.Remaining() == raw[..left]
      invariant Loop(list.Saved(), lastBoot, lastShutdown, printed) == After(all[left..], showSysEvents)
      invariant done ==> left == 0
      decreases left, !done
    {
      var ok, bytes;
      ok, bytes, done := ReadPrevious(fd, done, raw, left);
      if ok {
        left := left - 1;
        lastBoot, lastShutdown, printed :=
          HandlePrevious(decode(bytes), list, lastBoot, lastShutdown, printed, showSysEvents, all, left);
      }
    }
    assert all[0..] == all;
  }

  /** main: a file without a whole record is a fatal error; otherwise the program
      prints what After says for the file's records, earliest record first. */
  method ListSessions(fd: Reader, decode: Bytes -> Record, showSysEvents: bool)
    returns (fatal: bool, printed: seq<Printed>)
    requires fd.Valid() && fd.isFirst
    modifies fd
    ensures fatal <==> |fd.file| < fd.utsize
    ensures !fatal ==>
              0 < fd.utsize &&
              printed == After(Decoded(Records(fd.file, fd.utsize), decode), showSysEvents).printed
  {
    var ok, bytes := fd.ReadFirst();
    if !ok {
      return true, [];
    }
    fatal := false;
    var list := new UtList();
    printed := HandleAll(fd, list, decode, showSysEvents, Records(fd.file, fd.utsize));
    list.Erase();
  }

  /** The walk over the saved records: those matched, those kept, those to come. */
  datatype Walk = Walk(matched: seq<Record>, others: seq<Record>, rest: seq<Record>)

  ghost predicate WalkOf(w: Walk, saved: seq<Record>, line: string) {
    && Matching(saved, line) == w.matched + Matching(w.rest, line)
    && Others(saved, line) == w.others + Others(w.rest, line)
  }

  ghost function Advance(w: Walk, line: string): Walk
    requires w.rest != []
  {
    var r := w.rest[0];
    if r.line == line then Walk(w.matched + [r], w.others, w.rest[1..])
    else Walk(w.matched, w.others + [r], w.rest[1..])
  }

  lemma WalkOn(w: Walk, saved: seq<Record>, line: string)
    requires WalkOf(w, saved, line) && w.rest != []
    ensures WalkOf(Advance(w, line), saved, line)
  {
  }

  lemma WalkEnds(w: Walk, saved: seq<Record>, line: string)
    requires WalkOf(w, saved, line) && w.rest == []
    ensures w.matched == Matching(saved, line) && w.others == Others(saved, line)
  {
  }

  lemma SessionsAppend(entry: Record, logouts: seq<Record>, r: Record)
    ensures Sessions(entry, logouts + [r]) == Sessions(entry, logouts) + [Printed(entry, Some(r.time))]
  {
  }

  lemma TakeNode(nodes: seq<Node>, kept: seq<Node>, was: seq<Node>, node: Node, i: nat)
    requires i < |was| && was[i] == node && nodes == kept + was[i..]
    ensures nodes == kept + [node] + was[i + 1..]
    ensures Recorded(was[i..])[0] == node.ut && Recorded(was[i..])[1..] == Recorded(was[i + 1..])
    ensures Recorded(kept + [node]) == Recorded(kept) + [node.ut]
  {
  }

  lemma AfterOneMore(all: seq<Record>, k: nat, x: bool)
    requires k < |all|
    ensures After(all[k..], x) == Handle(After(all[k + 1..], x), all[k], x)
  {
    assert all[k..][1..] == all[k + 1..];
  }
}

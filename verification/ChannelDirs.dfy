/** The objects of the channel that list directories, and the scan of AsyncReadDir over them. */
module ChannelDirs {
  import LP = ListingProtocol
  import opened RemoteTree
  import opened DirReader
  import opened Survival

  /** What is sent with sigGetDir. */
  datatype Reply = Reply(node: LP.Id, contents: seq<Item>)

  /** DIR_READER, with the directory it reads. */
  class DirectoryReader {
    const node: LP.Id
    const path: string
    const dir: seq<Attributes>
    var stage: Stage
    var sftp: bool
    var found: seq<Item>
    var failed: bool
    var pos: nat
    var calls: seq<Call>

    ghost function Value(): Reader
      reads this
    {
      Reader(node, path, stage, sftp, found, failed, dir, pos, calls)
    }

    /** Lines 392-398. */
    constructor (node: LP.Id, path: string, dir: seq<Attributes>)
      ensures Value() == Asked(node, path, dir)
    {
      this.node, this.path, this.dir := node, path, dir;
      stage, sftp, found, failed, pos, calls := LP.OPEN, false, [], false, 0, [];
    }

    method OpenDirectory(a: Answers)
      modifies this
      ensures Value() == Open(old(Value()), a)
    {
      match a.opening {
        case Opened =>
          sftp, calls := true, calls + [OpenDir];
          stage := LP.READ;
        case Ended => stage := LP.FINISH;
        case Denied =>
        case Refused =>
          stage := LP.ERR;
          failed := true;
      }
    }

    /** Lines 436-438. */
    method TakeEntry()
      requires pos < |dir|
      modifies this`found, this`pos
      ensures pos == old(pos) + 1 && found == old(found) + NodesOf(path, dir[old(pos)])
    {
      var item := FileNode(path, dir[pos]);
      if item.Some? {
        found := found + [item.value];
      }
      pos := pos + 1;
    }

    /** Lines 434-440: entries are taken one by one until none is there. */
    method TakeEntries(count: nat)
      modifies this`found, this`pos
      ensures Value() == Fetched(old(Value()), count)
    {
      ghost var start, es := pos, Arriving(Value(), count);
      var k := 0;
      while k < count && pos < |dir|
        invariant 0 <= k <= |es| && pos == start + k
        invariant found == old(found) + FileNodes(path, es[..k])
      {
        assert es[k] == dir[pos];
        FileNodesNext(path, es, k);
        TakeEntry();
        k := k + 1;
      }
      assert es[..k] == es;
    }

    method ReadDirectory(a: Answers)
      modifies this
      ensures Value() == Read(old(Value()), a)
    {
      TakeEntries(a.count);
      if a.reading.Eof? && pos == |dir| {
        stage := LP.CLOSE;
      } else if a.reading.Broken? {
        stage := LP.ERR;
        failed := true;
      }
    }

    method CloseDirectory(a: Answers)
      modifies this
      ensures Value() == Close(old(Value()), a)
    {
      stage := LP.FINISH;
      if sftp {
        calls := calls + [CloseDir];
        if a.closes {
          sftp := false;
        } else {
          failed := true;
        }
      }
    }

    /** The switch of AsyncReadDir; `gone` tells whether the reply is sent and the reader erased. */
    method Visit(a: Answers) returns (gone: bool)
      modifies this
      ensures (if gone then Left(Value()) else Kept(Value())) == Step(old(Value()), a)
    {
      gone := false;
      match stage {
        case OPEN => OpenDirectory(a);
        case READ => ReadDirectory(a);
        case CLOSE => CloseDirectory(a);
        case FINISH => gone := true;
        case ERR => stage := LP.CLOSE;
      }
    }
  }

  ghost function Values(dirs: seq<DirectoryReader>): (rs: seq<Reader>)
    reads dirs
    ensures |rs| == |dirs| && forall k :: 0 <= k < |dirs| ==> rs[k] == dirs[k].Value()
  {
    if dirs == [] then [] else [dirs[0].Value()] + Values(dirs[1..])
  }

  /** What one pass makes of the readers, `visits[k]` being the answers the k-th one gets. */
  ghost function Outcomes(readers: seq<Reader>, visits: seq<Answers>): (os: seq<Outcome>)
    requires |readers| == |visits|
    ensures |os| == |readers|
    ensures forall k {:trigger Step(readers[k], visits[k])} :: 0 <= k < |readers| ==>
              os[k] == Step(readers[k], visits[k])
  {
    if readers == [] then [] else [Step(readers[0], visits[0])] + Outcomes(readers[1..], visits[1..])
  }

  /** The replies of those of the first `n` that leave, in order. */
  ghost function Sent(outcomes: seq<Outcome>, n: nat): seq<Reply>
    requires n <= |outcomes|
  {
    if n == 0 then []
    else
      var o := outcomes[n - 1];
      Sent(outcomes, n - 1) + (if o.Left? then [Reply(o.entry.node, o.entry.found)] else [])
  }

  /** A reply is sent for every reader that leaves and for no other, in order: `at` are their places. */
  lemma {:induction false} SentAt(outcomes: seq<Outcome>, n: nat) returns (at: seq<nat>)
    requires n <= |outcomes|
    ensures Increasing(at) && |Sent(outcomes, n)| == |at|
    ensures forall i: nat :: i in at <==> i < n && outcomes[i].Left?
    ensures forall m :: 0 <= m < |at| ==>
              at[m] < n
              && Sent(outcomes, n)[m].node == outcomes[at[m]].entry.node
              && Sent(outcomes, n)[m].contents == outcomes[at[m]].entry.found
  {
    at := [];
    if n > 0 {
      at := SentAt(outcomes, n - 1);
      if outcomes[n - 1].Left? {
        at := at + [n - 1];
      }
    }
  }

  /** No two readers are the same or list the same node. */
  ghost predicate Different(dirs: seq<DirectoryReader>)
  {
    forall i, j :: 0 <= i < j < |dirs| ==> dirs[i] != dirs[j] && dirs[i].node != dirs[j].node
  }

  lemma {:induction false} SurvivorsDifferent(dirs: seq<DirectoryReader>, outcomes: seq<Outcome>, n: nat)
    requires n <= |dirs| == |outcomes| && Different(dirs)
    ensures Different(Survivors(dirs, outcomes, n))
  {
    SurvivorsPairwise(dirs, outcomes, n, (a: DirectoryReader, b: DirectoryReader) => a != b && a.node != b.node);
  }

  /** The first `k` readers have become what their visits made of them, the others are as they were. */
  ghost predicate Visited(entries: seq<DirectoryReader>, was: seq<Reader>, plan: seq<Outcome>, k: nat)
    reads entries
  {
    && k <= |entries| == |was| == |plan|
    && (forall i :: 0 <= i < k ==> entries[i].Value() == plan[i].entry)
    && (forall i :: k <= i < |entries| ==> entries[i].Value() == was[i])
  }

  lemma {:induction false} Apart(entries: seq<DirectoryReader>, k: nat)
    requires Different(entries) && k < |entries|
    ensures forall i :: 0 <= i < |entries| && i != k ==> entries[i] != entries[k]
  {
  }

  class Channel {
    var dirs: seq<DirectoryReader>
    /** The replies sent so far. */
    var replies: seq<Reply>

    ghost predicate Valid()
      reads this
    {
      Different(dirs)
    }

    constructor ()
      ensures Valid() && dirs == [] && replies == []
    {
      dirs, replies := [], [];
    }

    /** Lines 380-402: a path that is empty and a node that is being listed are ignored. */
    method SlotGetDir(node: LP.Id, path: string, dir: seq<Attributes>)
      requires Valid()
      modifies this`dirs
      ensures Valid()
      ensures path == "" || (exists i :: 0 <= i < |old(dirs)| && old(dirs)[i].node == node) ==> dirs == old(dirs)
      ensures path != "" && (forall i :: 0 <= i < |old(dirs)| ==> old(dirs)[i].node != node) ==>
                && |dirs| == |old(dirs)| + 1 && dirs[..|old(dirs)|] == old(dirs)
                && fresh(dirs[|old(dirs)|]) && dirs[|old(dirs)|].Value() == Asked(node, path, dir)
    {
      if path == "" {
        return;
      }
      var i := 0;
      while i < |dirs|
        invariant 0 <= i <= |dirs|
        invariant forall k :: 0 <= k < i ==> dirs[k].node != node
      {
        if dirs[i].node == node {
          return;
        }
        i := i + 1;
      }
      var d := new DirectoryReader(node, path, dir);
      dirs := dirs + [d];
    }

    /** In the middle of a pass: `k` readers have been visited and those of them that stay are in front. */
    ghost predicate Passing(it: nat, k: nat, entries: seq<DirectoryReader>, was: seq<Reader>, plan: seq<Outcome>,
                            earlier: seq<Reply>)
      reads this, entries
    {
      && Visited(entries, was, plan, k)
      && it == |Survivors(entries, plan, k)| && dirs == Survivors(entries, plan, k) + entries[k..]
      && replies == earlier + Sent(plan, k)
    }

    /** The readers not yet visited are those from `it` on. */
    lemma {:induction false} PassingLength(it: nat, k: nat, entries: seq<DirectoryReader>, was: seq<Reader>,
                                           plan: seq<Outcome>, earlier: seq<Reply>)
      requires Passing(it, k, entries, was, plan, earlier)
      ensures k <= |entries| && |dirs| == it + (|entries| - k)
    {
    }

    /** One turn of the loop of AsyncReadDir. */
    method VisitAt(it: nat, a: Answers, ghost k: nat, ghost entries: seq<DirectoryReader>,
                   ghost was: seq<Reader>, ghost plan: seq<Outcome>, ghost earlier: seq<Reply>)
      returns (next: nat)
      requires Different(entries) && Passing(it, k, entries, was, plan, earlier) && k < |entries|
      requires plan[k] == Step(was[k], a)
      modifies this, entries[k]
      ensures Passing(next, k + 1, entries, was, plan, earlier)
    {
      hide Step, Survivors;
      Advance(dirs, entries, plan, it, k);
      var d := dirs[it];
      Apart(entries, k);
      var gone := d.Visit(a);
      assert gone <==> plan[k].Left?;
      assert Visited(entries, was, plan, k + 1);
      if gone {
        replies := replies + [Reply(d.node, d.found)];
        dirs := dirs[..it] + dirs[it + 1..];
        next := it;
      } else {
        next := it + 1;
      }
    }

    /**
     * One pass over the readers.  Every reader is visited once although readers are erased on the way,
     * those that stay keep their order, and those that leave have sent their replies in order.
     */
    method AsyncReadDir(visits: seq<Answers>)
      requires Valid() && |visits| == |dirs|
      modifies this, dirs
      ensures Valid()
      ensures Visited(old(dirs), old(Values(dirs)), Outcomes(old(Values(dirs)), visits), |visits|)
      ensures dirs == Survivors(old(dirs), Outcomes(old(Values(dirs)), visits), |visits|)
      ensures replies == old(replies) + Sent(Outcomes(old(Values(dirs)), visits), |visits|)
    {
      ghost var was, objects: set<object> := Values(dirs), set d | d in dirs;
      assert Passing(0, 0, dirs, was, Outcomes(was, visits), replies);
      Scan(visits, was, Outcomes(was, visits), objects);
      SurvivorsDifferent(old(dirs), Outcomes(was, visits), |visits|);
    }

    /**
     * The loop of AsyncReadDir: `was` are the values of the readers, `plan` is what their visits make of
     * them, and `objects` are the readers.
     */
    method Scan(visits: seq<Answers>, ghost was: seq<Reader>, ghost plan: seq<Outcome>, ghost objects: set<object>)
      requires Valid() && |visits| == |dirs| && Passing(0, 0, dirs, was, plan, replies)
      requires forall k {:trigger dirs[k]} :: 0 <= k < |dirs| ==> dirs[k] in objects
      requires forall k {:trigger Step(was[k], visits[k])} :: 0 <= k < |visits| ==> plan[k] == Step(was[k], visits[k])
      modifies this, objects
      ensures Passing(|dirs|, |visits|, old(dirs), was, plan, old(replies))
    {
      hide Passing;
      ghost var entries, earlier := dirs, replies;
      var it: nat, k: nat := 0, 0;
      PassingLength(it, k, entries, was, plan, earlier);
      while it < |dirs|
        invariant k <= |visits| == |entries| && Passing(it, k, entries, was, plan, earlier)
        invariant |dirs| == it + (|visits| - k)
        decreases |visits| - k
      {
        it := VisitAt(it, visits[k], k, entries, was, plan, earlier);
        k := k + 1;
        PassingLength(it, k, entries, was, plan, earlier);
      }
    }

    /** Lines 356-362: the handles still held are closed and the readers dropped without a reply. */
    method OnClose()
      requires Valid()
      modifies this`dirs, dirs
      ensures dirs == [] && Valid() && replies == old(replies)
      ensures forall k :: 0 <= k < |old(dirs)| ==> old(dirs)[k].Value() == Shut(old(dirs[k].Value()))
    {
      var k := 0;
      while k < |dirs|
        invariant 0 <= k <= |dirs| && dirs == old(dirs)
        invariant forall i :: 0 <= i < k ==> dirs[i].Value() == Shut(old(dirs[i].Value()))
        invariant forall i :: k <= i < |dirs| ==> dirs[i].Value() == old(dirs[i].Value())
      {
        var d := dirs[k];
        Apart(dirs, k);
        if d.sftp {
          d.calls := d.calls + [CloseDir];
          d.sftp := false;
        }
        k := k + 1;
      }
      dirs := [];
    }
  }
}

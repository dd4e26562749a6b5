/** The objects of the channel: transfers, the entries that work on them, and the list of entries. */
module ChannelSftp {
  import F = Failures
  import opened Survival
  import opened TransferJob
  import opened Wrappers

  /** CFileTransfer, as far as the channel changes it. */
  class FileTransfer {
    const dir: Direction
    const size: nat
    var state: State
    var shown: nat

    constructor (dir: Direction, size: nat)
      ensures this.dir == dir && this.size == size && state == No && shown == 0
    {
      this.dir, this.size := dir, size;
      state, shown := No, 0;
    }
  }

  /** _AFILE, with the two files it connects. */
  class AFile {
    const fileTransfer: FileTransfer
    const source: seq<byte>
    var sink: seq<byte>
    var cursor: nat
    var stage: Stage
    var remote: bool
    var local: bool
    var chunk: Length
    var aio: seq<Request>
    var nRequests: nat
    var nTransfers: nat
    var calls: seq<Call>

    /** The value of the entry and of its transfer. */
    ghost function Value(): Job
      reads this, fileTransfer
    {
      Job(fileTransfer.dir, fileTransfer.size, fileTransfer.state, fileTransfer.shown,
          stage, remote, local, chunk, aio, nRequests, nTransfers, source, sink, cursor, calls)
    }

    /** Lines 499-509. */
    constructor (f: FileTransfer, source: seq<byte>, sink: seq<byte>)
      ensures fileTransfer == f && this.source == source && this.sink == sink
      ensures stage == OPEN && !remote && !local && chunk == BUF_SIZE && aio == [] && calls == []
      ensures nRequests == nTransfers == cursor == 0
    {
      fileTransfer := f;
      this.source, this.sink := source, sink;
      cursor, stage, remote, local, chunk := 0, OPEN, false, false, BUF_SIZE;
      aio, nRequests, nTransfers, calls := [], 0, 0, [];
    }

    /** Lines 701-718: the oldest read has finished. */
    method TakeRead(missing: nat, stored: bool)
      requires aio != []
      modifies this, fileTransfer
      ensures stored ==> Value() == Stored(old(Value()), missing)
      ensures !stored ==>
                Value() == Counted(old(Value()), Got(old(Value()), old(aio[0]), missing)).(stage := ERR)
    {
      hide Slice, Avail;
      var r := aio[0];
      var n := Avail(source, r.off, r.len - Min(missing, r.len));
      nTransfers := nTransfers + n;
      if fileTransfer.size == nTransfers {
        stage := CLOSE;
      }
      aio := aio[1..];
      if stored {
        sink := sink + Slice(source, r.off, n);
        fileTransfer.shown := fileTransfer.shown + n;
      } else {
        stage := ERR;
      }
    }

    method WaitReads(waits: seq<Wait>)
      modifies this, fileTransfer
      ensures Value() == AwaitReads(old(Value()), waits)
      ensures old(stage) in {READ, CLOSE} ==> (stage == ERR <==> F.HitsFailure(|old(aio)|, waits))
    {
      if stage in {READ, CLOSE} {
        F.AwaitFailsIff(Value(), waits, AwaitReads(Value(), waits));
      }
      ghost var result := AwaitReads(Value(), waits);
      var k := 0;
      while aio != [] && k < |waits| && !waits[k].Again?
        invariant k <= |waits|
        invariant result == AwaitReads(Value(), waits[k..])
      {
        assert waits[k..][0] == waits[k] && waits[k..][1..] == waits[k + 1..];
        if waits[k].Failed? {
          stage := ERR;
          assert Value() == result;
          return;
        }
        TakeRead(waits[k].missing, waits[k].stored);
        if !waits[k].stored {
          assert Value() == result;
          return;
        }
        k := k + 1;
      }
    }

    method QueueRead(len: nat)
      modifies this
      ensures Value() == Queued(old(Value()), len)
    {
      aio := aio + [Request(cursor, len)];
      cursor := cursor + len;
    }

    method BeginReadBatch(start: nat, begins: seq<bool>)
      modifies this
      ensures Value() == BeginReads(old(Value()), start, 0, begins)
    {
      ghost var result := BeginReads(Value(), start, 0, begins);
      var asked: nat, i := start, 0;
      while i < CONCURRENT && asked < fileTransfer.size && (i < |begins| ==> begins[i])
        invariant i <= CONCURRENT
        invariant result == BeginReads(Value(), asked, i, begins)
      {
        var len := Min(fileTransfer.size - asked, chunk);
        QueueRead(len);
        asked := asked + len;
        i := i + 1;
      }
    }

    /** Lines 815-819: the oldest write is acknowledged. */
    method TakeAck()
      requires aio != []
      modifies this
      ensures Value() == Counted(old(Value()), old(aio[0].len))
    {
      nTransfers := nTransfers + aio[0].len;
      if fileTransfer.size == nTransfers {
        stage := CLOSE;
      }
      aio := aio[1..];
    }

    method WaitWrites(waits: seq<Wait>)
      modifies this
      ensures Value() == AwaitWrites(old(Value()), waits)
      ensures old(stage) in {READ, CLOSE} ==> (stage == ERR <==> F.HitsFailedAck(|old(aio)|, waits))
    {
      if stage in {READ, CLOSE} {
        F.AckFailsIff(Value(), waits, AwaitWrites(Value(), waits));
      }
      ghost var result := AwaitWrites(Value(), waits);
      var k := 0;
      while aio != [] && k < |waits| && !waits[k].Again?
        invariant k <= |waits|
        invariant result == AwaitWrites(Value(), waits[k..])
      {
        assert waits[k..][0] == waits[k] && waits[k..][1..] == waits[k + 1..];
        if waits[k].Failed? {
          stage := ERR;
          assert Value() == result;
          return;
        }
        TakeAck();
        k := k + 1;
      }
    }

    /** Lines 829-846: the next chunk is read, and sent if the begin call works. */
    method SendChunk(begun: bool)
      requires nRequests < fileTransfer.size
      modifies this
      ensures Value() == if begun then Sent(old(Value())) else Skipped(old(Value()))
    {
      var off := cursor;
      var data := Slice(source, off, Min(fileTransfer.size - nRequests, chunk));
      cursor := cursor + |data|;
      if begun {
        sink := sink + data;
        nRequests := nRequests + |data|;
        aio := aio + [Request(off, |data|)];
      }
    }

    method BeginWriteWindow(n: nat, begins: seq<bool>)
      modifies this
      ensures Value() == BeginWrites(old(Value()), 0, n, begins)
    {
      ghost var result := BeginWrites(Value(), 0, n, begins);
      var i := 0;
      while i < n && nRequests < fileTransfer.size
        invariant i <= n
        invariant result == BeginWrites(Value(), i, n, begins)
      {
        var begun := i < |begins| ==> begins[i];
        SendChunk(begun);
        if !begun {
          assert Value() == result;
          return;
        }
        i := i + 1;
      }
    }

    /** The OPEN case, up to where it falls through. */
    method OpenFiles(a: Answers)
      modifies this, fileTransfer
      ensures Value() == Open(old(Value()), a)
    {
      if !a.remoteOpens {
        stage := ERR;
        return;
      }
      remote := true;
      calls := calls + [OpenRemote];
      if fileTransfer.dir.Upload? {
        sink := [];
      }
      if !a.localOpens {
        stage := ERR;
        return;
      }
      local := true;
      calls := calls + [OpenLocal];
      sink := [];
      if a.limit.Some? {
        chunk := a.limit.value;
      }
      assert Value() == Opened(old(Value()), a);
      if fileTransfer.dir.Download? {
        BeginReadBatch(0, a.openBegins);
      } else {
        BeginWriteWindow(CONCURRENT, a.openBegins);
      }
      stage := READ;
      fileTransfer.state := Transferring;
    }

    /** The READ case. */
    method Transfer(a: Answers)
      modifies this, fileTransfer
      ensures Value() == Read(old(Value()), a)
    {
      if fileTransfer.dir.Download? {
        WaitReads(a.waits);
        if fileTransfer.size == nTransfers {
          stage := CLOSE;
        } else if aio == [] {
          BeginReadBatch(nTransfers, a.begins);
        }
      } else {
        WaitWrites(a.waits);
        if |aio| < CONCURRENT {
          BeginWriteWindow(CONCURRENT - |aio|, a.begins);
        }
      }
    }

    method CloseRemoteFile()
      modifies this
      ensures Value() == ReleaseRemote(old(Value()))
    {
      if remote {
        calls := calls + [CloseRemote];
        remote := false;
      }
    }

    method CloseLocalFile()
      modifies this
      ensures Value() == ReleaseLocal(old(Value()))
    {
      if local {
        calls := calls + [CloseLocal];
        local := false;
      }
    }

    /** CleanFileAIO. */
    method CleanFileAIO()
      modifies this
      ensures Value() == Clean(old(Value()))
    {
      CloseRemoteFile();
      CloseLocalFile();
    }

    /** The switch of AsyncFile; `gone` tells whether the entry is to be erased. */
    method Visit(a: Answers) returns (gone: bool)
      modifies this, fileTransfer
      ensures (if gone then Left(Value()) else Kept(Value())) == Step(old(Value()), a)
    {
      gone := false;
      match stage {
        case OPEN =>
          OpenFiles(a);
          if stage == READ {
            Transfer(a);
          }
        case READ => Transfer(a);
        case CLOSE =>
          stage := FINISH;
          fileTransfer.state := Closing;
        case FINISH =>
          CleanFileAIO();
          gone := true;
          fileTransfer.state := Finish;
        case ERR =>
          CleanFileAIO();
          gone := true;
          fileTransfer.state := Fail;
      }
    }
  }

  /** The values of a list of entries. */
  ghost function Values(files: seq<AFile>): (js: seq<Job>)
    reads files, set f | f in files :: f.fileTransfer
    ensures |js| == |files| && forall k :: 0 <= k < |files| ==> js[k] == files[k].Value()
  {
    if files == [] then [] else [files[0].Value()] + Values(files[1..])
  }

  /** What one pass makes of a list of entries, `visits[k]` being the answers the k-th entry gets. */
  ghost function Outcomes(jobs: seq<Job>, visits: seq<Answers>): (os: seq<Outcome>)
    requires |jobs| == |visits|
    ensures |os| == |jobs|
    ensures forall k {:trigger Step(jobs[k], visits[k])} :: 0 <= k < |jobs| ==> os[k] == Step(jobs[k], visits[k])
  {
    if jobs == [] then [] else [Step(jobs[0], visits[0])] + Outcomes(jobs[1..], visits[1..])
  }

  ghost predicate Distinct(files: seq<AFile>)
  {
    forall i, j :: 0 <= i < j < |files| ==> files[i] != files[j] && files[i].fileTransfer != files[j].fileTransfer
  }

  lemma {:induction false} SurvivorsDistinct(files: seq<AFile>, outcomes: seq<Outcome>, n: nat)
    requires n <= |files| == |outcomes| && Distinct(files)
    ensures Distinct(Survivors(files, outcomes, n))
  {
    SurvivorsPairwise(files, outcomes, n, (a: AFile, b: AFile) => a != b && a.fileTransfer != b.fileTransfer);
  }

  /** The first `k` entries have become what their visits made of them, the others are as they were. */
  ghost predicate Visited(entries: seq<AFile>, was: seq<Job>, plan: seq<Outcome>, k: nat)
    reads entries, set f | f in entries :: f.fileTransfer
  {
    && k <= |entries| == |was| == |plan|
    && (forall i :: 0 <= i < k ==> entries[i].Value() == plan[i].entry)
    && (forall i :: k <= i < |entries| ==> entries[i].Value() == was[i])
  }

  /** Entries of different transfers do not share any state. */
  lemma {:induction false} Apart(entries: seq<AFile>, k: nat)
    requires Distinct(entries) && k < |entries|
    ensures forall i :: 0 <= i < |entries| && i != k ==>
              entries[i] != entries[k] && entries[i].fileTransfer != entries[k].fileTransfer
  {
  }

  class Channel {
    var files: seq<AFile>

    /** No two entries are the same or work on the same transfer. */
    ghost predicate Valid()
      reads this
    {
      Distinct(files)
    }

    ghost function Transfers(): set<FileTransfer>
      reads this
    {
      set f | f in files :: f.fileTransfer
    }

    constructor ()
      ensures Valid() && files == []
    {
      files := [];
    }

    /** Lines 497-513.  There is no test for an entry of the same transfer. */
    method StartFileTransfer(f: FileTransfer, source: seq<byte>, sink: seq<byte>) returns (file: AFile)
      requires Valid()
      modifies this, f
      ensures Valid() <==> f !in old(Transfers())
      ensures fresh(file) && files == old(files) + [file] && file.fileTransfer == f
      ensures file.Value() == Started(f.dir, f.size, old(f.shown), source, sink)
      ensures f.state == Opening && f.shown == old(f.shown) && file.stage == OPEN && file.chunk == 4096
      ensures !file.remote && !file.local && file.aio == [] && file.nTransfers == file.nRequests == file.cursor == 0
    {
      f.state := Opening;
      file := new AFile(f, source, sink);
      files := files + [file];
      if f in old(Transfers()) {
        var i :| 0 <= i < |old(files)| && old(files)[i].fileTransfer == f;
        assert files[i] == old(files)[i] && files[|old(files)|] == file;
      }
    }

    /** Lines 515-533: the first entry of the transfer is removed, closed and shown as stopped. */
    method StopFileTransfer(f: FileTransfer)
      requires Valid()
      modifies this, files, f
      ensures Valid()
      ensures f !in old(Transfers()) ==> files == old(files) && unchanged(f)
      ensures f in old(Transfers()) ==> f.state == Stop && f !in Transfers()
      ensures f in old(Transfers()) ==>
                exists i :: 0 <= i < |old(files)| && old(files)[i].fileTransfer == f
                            && files == old(files)[..i] + old(files)[i + 1..]
                            && old(files)[i].Value() == Stopped(old(files[i].Value()))
      ensures forall i :: 0 <= i < |old(files)| && old(files)[i].fileTransfer != f ==>
                old(files)[i].Value() == old(files[i].Value())
    {
      var i := 0;
      while i < |files|
        invariant i <= |files|
        invariant files == old(files) && unchanged(f) && unchanged(files)
        invariant forall k :: 0 <= k < i ==> files[k].fileTransfer != f
      {
        var file := files[i];
        if file.fileTransfer == f {
          files := files[..i] + files[i + 1..];
          file.CloseLocalFile();
          file.CloseRemoteFile();
          f.state := Stop;
          assert file.Value() == Stopped(old(file.Value()));
          return;
        }
        i := i + 1;
      }
    }

    /** In the middle of a pass: `k` entries have been visited and those of them that stay are in front. */
    ghost predicate Passing(it: nat, k: nat, entries: seq<AFile>, was: seq<Job>, plan: seq<Outcome>)
      reads this, entries, set f | f in entries :: f.fileTransfer
    {
      && Visited(entries, was, plan, k)
      && it == |Survivors(entries, plan, k)| && files == Survivors(entries, plan, k) + entries[k..]
    }

    /** The entries not yet visited are those from `it` on. */
    lemma {:induction false} PassingLength(it: nat, k: nat, entries: seq<AFile>, was: seq<Job>, plan: seq<Outcome>)
      requires Passing(it, k, entries, was, plan)
      ensures k <= |entries| && |files| == it + (|entries| - k)
    {
    }

    /** Before the first visit, and after the last. */
    lemma {:induction false} PassingBegins(was: seq<Job>, plan: seq<Outcome>)
      requires was == Values(files) && |plan| == |files|
      ensures Passing(0, 0, files, was, plan)
    {
    }

    lemma {:induction false} PassingEnds(it: nat, entries: seq<AFile>, was: seq<Job>, plan: seq<Outcome>)
      requires Passing(it, |entries|, entries, was, plan)
      ensures Visited(entries, was, plan, |entries|) && files == Survivors(entries, plan, |entries|)
    {
    }

    /** One turn of the loop of AsyncFile: the entry at `it` is visited, and erased if it is over. */
    method VisitAt(it: nat, a: Answers, ghost k: nat, ghost entries: seq<AFile>,
                   ghost was: seq<Job>, ghost plan: seq<Outcome>)
      returns (next: nat)
      requires Distinct(entries) && Passing(it, k, entries, was, plan) && k < |entries|
      requires plan[k] == Step(was[k], a)
      modifies this, entries[k], entries[k].fileTransfer
      ensures Passing(next, k + 1, entries, was, plan)
    {
      hide Step, Survivors;
      Advance(files, entries, plan, it, k);
      var file := files[it];
      Apart(entries, k);
      var gone := file.Visit(a);
      assert gone <==> plan[k].Left?;
      assert Visited(entries, was, plan, k + 1);
      if gone {
        files := files[..it] + files[it + 1..];
        next := it;
      } else {
        next := it + 1;
      }
    }

    /**
     * One pass over the list; `visits[k]` are the answers the k-th entry gets.  Every entry is visited
     * once although entries are erased on the way, and those that stay keep their order.
     */
    method AsyncFile(visits: seq<Answers>)
      requires Valid() && |visits| == |files|
      modifies this, files, Transfers()
      ensures Valid()
      ensures Visited(old(files), old(Values(files)), Outcomes(old(Values(files)), visits), |visits|)
      ensures files == Survivors(old(files), Outcomes(old(Values(files)), visits), |visits|)
    {
      ghost var entries: set<object> := set f | f in files;
      ghost var objects: set<object> := entries + Transfers();
      forall k {:trigger files[k]} | 0 <= k < |files|
        ensures files[k] in objects && files[k].fileTransfer in objects
      {
        assert files[k] in entries && files[k].fileTransfer in Transfers();
      }
      hide Passing, Visited, Survivors;
      ghost var was := Values(files);
      PassingBegins(was, Outcomes(was, visits));
      Scan(visits, was, Outcomes(was, visits), objects);
      PassingEnds(|files|, old(files), was, Outcomes(was, visits));
      SurvivorsDistinct(old(files), Outcomes(was, visits), |visits|);
    }

    /**
     * The loop of AsyncFile: `was` are the values of the entries, `plan` is what their visits make of
     * them, and `objects` are the entries and their transfers.
     */
    method Scan(visits: seq<Answers>, ghost was: seq<Job>, ghost plan: seq<Outcome>, ghost objects: set<object>)
      requires Valid() && |visits| == |files| && Passing(0, 0, files, was, plan)
      requires forall k {:trigger files[k]} :: 0 <= k < |files| ==>
                 files[k] in objects && files[k].fileTransfer in objects
      requires forall k {:trigger Step(was[k], visits[k])} :: 0 <= k < |visits| ==> plan[k] == Step(was[k], visits[k])
      modifies this, objects
      ensures Passing(|files|, |visits|, old(files), was, plan)
    {
      hide Passing;
      ghost var entries := files;
      var it: nat, k: nat := 0, 0;
      PassingLength(it, k, entries, was, plan);
      while it < |files|
        invariant k <= |visits| == |entries| && Passing(it, k, entries, was, plan)
        invariant |files| == it + (|visits| - k)
        decreases |visits| - k
      {
        it := VisitAt(it, visits[k], k, entries, was, plan);
        k := k + 1;
        PassingLength(it, k, entries, was, plan);
      }
    }

    /** Lines 363-373: every handle still open is closed, and the list is emptied. */
    method OnClose()
      requires Valid()
      modifies this, files
      ensures files == [] && Valid()
      ensures forall k :: 0 <= k < |old(files)| ==> old(files)[k].Value() == Clean(old(files[k].Value()))
    {
      var k := 0;
      while k < |files|
        invariant k <= |files| && files == old(files)
        invariant forall i :: 0 <= i < k ==> files[i].Value() == Clean(old(files[i].Value()))
        invariant forall i :: k <= i < |files| ==> files[i].Value() == old(files[i].Value())
      {
        files[k].CleanFileAIO();
        k := k + 1;
      }
      files := [];
    }
  }
}

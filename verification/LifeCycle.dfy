/** How the stage of an entry, the state the user sees and the open handles belong together. */
module LifeCycle {
  import opened Survival
  import opened TransferJob
  import opened Wrappers

  /** The handles of an entry are those its calls have opened and not closed. */
  ghost predicate Handles(j: Job)
  {
    || (j.calls == [] && !j.remoteHeld && !j.localHeld)
    || (j.calls == [OpenRemote] && j.remoteHeld && !j.localHeld)
    || (j.calls == [OpenRemote, OpenLocal] && j.remoteHeld && j.localHeld)
  }

  /** Stage, visible state and handles of an entry of the list. */
  ghost predicate Related(j: Job)
  {
    && Handles(j)
    && match j.stage
       case OPEN => j.state.Opening? && !j.remoteHeld
       case READ => j.state.Transferring? && j.localHeld
       case CLOSE => j.state.Transferring? && j.localHeld
       case FINISH => j.state.Closing? && j.localHeld
       case ERR => j.state.Opening? || j.state.Transferring?
  }

  function Count(calls: seq<Call>, c: Call): nat { multiset(calls)[c] }

  /** Every handle that was opened was closed once, and no other was. */
  ghost predicate Balanced(j: Job)
  {
    && !j.remoteHeld && !j.localHeld
    && Count(j.calls, CloseRemote) == Count(j.calls, OpenRemote) <= 1
    && Count(j.calls, CloseLocal) == Count(j.calls, OpenLocal) <= 1
  }

  lemma {:induction false} AwaitReadsFrame(j: Job, waits: seq<Wait>, k: Job)
    requires k == AwaitReads(j, waits)
    ensures k == j.(stage := k.stage, aio := k.aio, nTransfers := k.nTransfers, sink := k.sink, shown := k.shown)
    ensures j.stage in {READ, CLOSE} ==> k.stage in {READ, CLOSE, ERR}
    decreases |waits|
  {
    if j.aio != [] && waits != [] && waits[0].Done? && waits[0].stored {
      AwaitReadsFrame(Stored(j, waits[0].missing), waits[1..], k);
    }
  }

  lemma {:induction false} AwaitWritesFrame(j: Job, waits: seq<Wait>, k: Job)
    requires k == AwaitWrites(j, waits)
    ensures k == j.(stage := k.stage, aio := k.aio, nTransfers := k.nTransfers)
    ensures j.stage in {READ, CLOSE} ==> k.stage in {READ, CLOSE, ERR}
    decreases |waits|
  {
    if j.aio != [] && waits != [] && waits[0].Done? {
      AwaitWritesFrame(Counted(j, j.aio[0].len), waits[1..], k);
    }
  }

  lemma {:induction false} OneMoreRead(j: Job, asked: nat, i: nat, begins: seq<bool>, len: nat)
    requires i < CONCURRENT && asked < j.size && Begins(begins, i) && len == Min(j.size - asked, j.chunk)
    ensures BeginReads(j, asked, i, begins) == BeginReads(Queued(j, len), asked + len, i + 1, begins)
  {
  }

  lemma {:induction false} NoMoreReads(j: Job, asked: nat, i: nat, begins: seq<bool>)
    requires i >= CONCURRENT || asked >= j.size || !Begins(begins, i)
    ensures BeginReads(j, asked, i, begins) == j
  {
  }

  lemma {:induction false} BeginReadsFrame(j: Job, asked: nat, i: nat, begins: seq<bool>, k: Job)
    requires k == BeginReads(j, asked, i, begins)
    ensures k == j.(aio := k.aio, cursor := k.cursor)
    decreases CONCURRENT - i
  {
    hide BeginReads, Begins;
    if i < CONCURRENT && asked < j.size && Begins(begins, i) {
      var len := Min(j.size - asked, j.chunk);
      OneMoreRead(j, asked, i, begins, len);
      BeginReadsFrame(Queued(j, len), asked + len, i + 1, begins, k);
    } else {
      NoMoreReads(j, asked, i, begins);
    }
  }

  lemma {:induction false} BeginWritesFrame(j: Job, i: nat, n: nat, begins: seq<bool>, k: Job)
    requires k == BeginWrites(j, i, n, begins)
    ensures k == j.(aio := k.aio, nRequests := k.nRequests, cursor := k.cursor, sink := k.sink)
    decreases n - i
  {
    if i < n && j.nRequests < j.size && Begins(begins, i) {
      BeginWritesFrame(Sent(j), i + 1, n, begins, k);
    }
  }

  /** Reading never touches the handles or the visible state. */
  lemma {:induction false} ReadRelated(j: Job, a: Answers, k: Job)
    requires Related(j) && j.stage.READ? && k == Read(j, a)
    ensures Related(k) && k.state == j.state && k.dir == j.dir && k.size == j.size
  {
    if j.dir.Download? {
      var w := AwaitReads(j, a.waits);
      AwaitReadsFrame(j, a.waits, w);
      if w.size != w.nTransfers && w.aio == [] {
        BeginReadsFrame(w, w.nTransfers, 0, a.begins, k);
      }
    } else {
      var w := AwaitWrites(j, a.waits);
      AwaitWritesFrame(j, a.waits, w);
      if |w.aio| < CONCURRENT {
        BeginWritesFrame(w, 0, CONCURRENT - |w.aio|, a.begins, k);
      }
    }
  }

  lemma {:induction false} OpenRelated(j: Job, a: Answers, k: Job)
    requires Related(j) && j.stage.OPEN? && k == Open(j, a)
    ensures Related(k) && k.stage in {READ, ERR} && k.dir == j.dir && k.size == j.size
  {
    if a.remoteOpens && a.localOpens {
      var l := Opened(j, a);
      assert l.calls == [OpenRemote, OpenLocal];
      if l.dir.Download? {
        BeginReadsFrame(l, 0, 0, a.openBegins, BeginReads(l, 0, 0, a.openBegins));
      } else {
        BeginWritesFrame(l, 0, CONCURRENT, a.openBegins, BeginWrites(l, 0, CONCURRENT, a.openBegins));
      }
    }
  }

  lemma {:induction false} CleanBalances(j: Job)
    requires Handles(j)
    ensures Balanced(Clean(j)) && Clean(j).state == j.state
    ensures Balanced(Stopped(j))
  {
  }

  /** The calls that close what is open, in the two orders of the source. */
  function RemoteFirst(j: Job): seq<Call>
  {
    (if j.remoteHeld then [CloseRemote] else []) + (if j.localHeld then [CloseLocal] else [])
  }

  function LocalFirst(j: Job): seq<Call>
  {
    (if j.localHeld then [CloseLocal] else []) + (if j.remoteHeld then [CloseRemote] else [])
  }

  /**
   * Stopping shows Stop and closes what is open, the local file first; cleaning closes it, the remote file
   * first.  Neither changes anything else: what has been transferred stays as it is.
   */
  lemma {:induction false} StopsAndCleansOnly(j: Job)
    ensures Stopped(j) ==
            j.(state := Stop, remoteHeld := false, localHeld := false, calls := j.calls + LocalFirst(j))
    ensures Clean(j) == j.(remoteHeld := false, localHeld := false, calls := j.calls + RemoteFirst(j))
  {
    assert Stopped(j).calls == j.calls + LocalFirst(j);
    assert Clean(j).calls == j.calls + RemoteFirst(j);
  }

  /** The visits after the transfer: what each shows, keeps and closes. */
  lemma {:induction false} LastVisits(j: Job, a: Answers)
    requires j.stage in {CLOSE, FINISH, ERR}
    ensures j.stage.CLOSE? ==> Step(j, a) == Kept(j.(stage := FINISH, state := Closing))
    ensures j.stage.FINISH? || j.stage.ERR? ==>
              Step(j, a) == Left(j.(state := if j.stage.FINISH? then Finish else Fail, remoteHeld := false,
                                    localHeld := false, calls := j.calls + RemoteFirst(j)))
  {
    StopsAndCleansOnly(j);
  }

  /**
   * Whatever happens in a visit: an entry that stays keeps stage, state and handles together, one that
   * leaves has closed each handle once and shows Finish or Fail.
   */
  lemma {:induction false} StepRelated(j: Job, a: Answers, o: Outcome)
    requires Related(j) && o == Step(j, a)
    ensures o.Kept? ==> Related(o.entry) && o.entry.state.Process()
    ensures o.Left? ==> Balanced(o.entry) && (o.entry.state.Finish? || o.entry.state.Fail?)
    ensures o.Left? && o.entry.state.Finish? ==> j.state.Closing?
  {
    if j.stage.OPEN? {
      var p := Open(j, a);
      OpenRelated(j, a, p);
      if p.stage.READ? {
        ReadRelated(p, a, o.entry);
      }
    } else if j.stage.READ? {
      ReadRelated(j, a, o.entry);
    } else if j.stage in {FINISH, ERR} {
      CleanBalances(j);
    }
  }

  /** The order in which a transfer can be seen to change. */
  function Rank(s: State): nat
  {
    match s
    case Opening => 1
    case Transferring => 2
    case Closing => 3
    case _ => 4
  }

  /** Over any run an entry leaves with balanced handles, and the state it shows never goes back. */
  lemma {:induction false} RunRelated(j: Job, visits: seq<Answers>, r: Outcome)
    requires Related(j) && r == Run(Kept(j), visits)
    ensures r.Kept? ==> Related(r.entry)
    ensures r.Left? ==> Balanced(r.entry) && (r.entry.state.Finish? || r.entry.state.Fail?)
    ensures Rank(j.state) <= Rank(r.entry.state)
    decreases |visits|
  {
    if visits != [] {
      var o := Step(j, visits[0]);
      StepRelated(j, visits[0], o);
      StepRank(j, visits[0], o);
      if o.Kept? {
        RunRelated(o.entry, visits[1..], r);
      }
    }
  }

  lemma {:induction false} StepRank(j: Job, a: Answers, o: Outcome)
    requires Related(j) && o == Step(j, a)
    ensures Rank(j.state) <= Rank(o.entry.state)
  {
    StepRelated(j, a, o);
    if j.stage.READ? {
      ReadRelated(j, a, o.entry);
    }
  }
}

/** Downloads: what the local file holds, whatever the server and the disk answer. */
module Download {
  import opened Survival
  import opened TransferJob
  import opened Wrappers

  /** Requests of 1 to `chunk` bytes that cover `from..to` of the remote file, in order and without holes. */
  ghost predicate Covers(aio: seq<Request>, from: int, to: int, chunk: nat)
  {
    if aio == [] then from == to
    else
      && aio[0].off == from && 1 <= aio[0].len <= chunk
      && Covers(aio[1..], from + aio[0].len, to, chunk)
  }

  /** Offset of the oldest byte still awaited; the next byte to ask for when nothing is awaited. */
  ghost function Oldest(j: Job): nat { if j.aio == [] then j.cursor else j.aio[0].off }

  /** Bytes of the remote file that short reads asked for and did not get: every later request is that far ahead. */
  ghost function Gap(j: Job): int { Oldest(j) - j.nTransfers }

  /** What holds of the window and of the local file at every moment after the open. */
  ghost predicate Window(j: Job)
  {
    && |j.aio| <= CONCURRENT
    && Covers(j.aio, Oldest(j), j.cursor, j.chunk)
    && 0 <= Gap(j) && j.cursor - Gap(j) <= j.size
    && |j.sink| <= j.nTransfers
    && (Gap(j) == 0 ==> j.sink <= j.source && j.nTransfers <= |j.source|)
    && (j.nTransfers == j.size ==> j.size + Gap(j) <= |j.source|)
    && (j.size == 0 ==> j.cursor == 0)
  }

  /** Everything counted has been written locally. */
  ghost predicate Saved(j: Job) { |j.sink| == j.nTransfers }

  /** The invariant of a download over its whole life in the list; `base` is the size shown before it. */
  ghost predicate Inv(j: Job, base: nat)
  {
    && j.dir.Download?
    && match j.stage
       case OPEN => j.aio == [] && j.nTransfers == 0 && j.cursor == 0 && j.shown == base
       case READ => Window(j) && Saved(j) && j.nTransfers < j.size && j.shown == base + |j.sink|
       case CLOSE => Window(j) && j.nTransfers == j.size && j.shown == base + |j.sink|
       case FINISH => Window(j) && j.nTransfers == j.size && j.shown == base + |j.sink|
       case ERR => Window(j) || (j.aio == [] && j.nTransfers == 0)
  }

  /** Parts of an entry that reading never touches. */
  ghost predicate SameJob(j: Job, k: Job)
  {
    k == j.(stage := k.stage, aio := k.aio, cursor := k.cursor,
            nTransfers := k.nTransfers, sink := k.sink, shown := k.shown)
  }

  lemma {:induction false} CoversSum(aio: seq<Request>, from: int, to: int, chunk: nat)
    requires Covers(aio, from, to, chunk)
    ensures Sum(aio) == to - from
  {
    if aio != [] {
      CoversSum(aio[1..], from + aio[0].len, to, chunk);
    }
  }

  lemma {:induction false} CoversOrder(aio: seq<Request>, from: int, to: int, chunk: nat)
    requires Covers(aio, from, to, chunk)
    ensures from <= to && (from == to <==> aio == [])
  {
    if aio != [] {
      CoversOrder(aio[1..], from + aio[0].len, to, chunk);
    }
  }

  lemma {:induction false} CoversSnoc(aio: seq<Request>, from: int, to: nat, len: nat, chunk: nat)
    requires Covers(aio, from, to, chunk) && 1 <= len <= chunk
    ensures Covers(aio + [Request(to, len)], from, to + len, chunk)
  {
    var r := Request(to, len);
    if aio == [] {
      assert (aio + [r])[1..] == [];
    } else {
      CoversSnoc(aio[1..], from + aio[0].len, to, len, chunk);
      assert (aio + [r])[1..] == aio[1..] + [r];
    }
  }

  /**
   * What is awaited is the stretch from the oldest byte to the cursor, in requests of 1 to `chunk`
   * bytes, and together with what has been counted it never passes the file size.
   */
  lemma {:induction false} BatchAddsUp(j: Job)
    requires Window(j)
    ensures Sum(j.aio) == j.cursor - Oldest(j) && j.nTransfers + Sum(j.aio) <= j.size
    ensures forall i :: 0 <= i < |j.aio| ==>
              1 <= j.aio[i].len <= j.chunk && j.aio[i].off == Oldest(j) + Sum(j.aio[..i])
  {
    CoversSum(j.aio, Oldest(j), j.cursor, j.chunk);
    forall i | 0 <= i < |j.aio|
      ensures 1 <= j.aio[i].len <= j.chunk && j.aio[i].off == Oldest(j) + Sum(j.aio[..i])
    {
      CoversAt(j.aio, Oldest(j), j.cursor, j.chunk, i);
    }
  }

  lemma {:induction false} CoversAt(aio: seq<Request>, from: int, to: int, chunk: nat, i: nat)
    requires Covers(aio, from, to, chunk) && i < |aio|
    ensures 1 <= aio[i].len <= chunk && aio[i].off == from + Sum(aio[..i])
  {
    if i > 0 {
      CoversAt(aio[1..], from + aio[0].len, to, chunk, i - 1);
      assert aio[..i][1..] == aio[1..][..i - 1];
    }
  }

  lemma {:induction false} QueuedKeeps(j: Job, len: nat)
    requires Window(j) && |j.aio| < CONCURRENT && 1 <= len <= j.chunk
    requires j.cursor - Gap(j) + len <= j.size
    ensures Window(Queued(j, len)) && Gap(Queued(j, len)) == Gap(j)
  {
    CoversOrder(j.aio, Oldest(j), j.cursor, j.chunk);
    CoversSnoc(j.aio, Oldest(j), j.cursor, len, j.chunk);
  }

  /** Queueing changes the queue and the cursor only, and the cursor by what it queues. */
  ghost predicate Batched(j: Job, k: Job)
  {
    && k == j.(aio := k.aio, cursor := k.cursor)
    && Window(k) && Gap(k) == Gap(j) && |j.aio| <= |k.aio|
  }

  /** Queueing a batch: it starts where the last one ended and stays inside the file size. */
  lemma {:induction false} BeginReadsKeeps(j: Job, asked: nat, i: nat, begins: seq<bool>, k: Job)
    requires Window(j) && asked == j.cursor - Gap(j) && |j.aio| <= i <= CONCURRENT
    requires k == BeginReads(j, asked, i, begins)
    ensures Batched(j, k)
    ensures i < CONCURRENT && asked < j.size && Begins(begins, i) ==> k.aio != []
    decreases CONCURRENT - i
  {
    if i < CONCURRENT && asked < j.size && Begins(begins, i) {
      var len := Min(j.size - asked, j.chunk);
      var q := Queued(j, len);
      QueuedKeeps(j, len);
      BeginReadsKeeps(q, asked + len, i + 1, begins, k);
    }
  }

  /** Appending what one full or short read delivers keeps the written bytes a prefix of the file. */
  lemma {:induction false} AppendKeepsPrefix(sink: seq<byte>, source: seq<byte>, want: nat)
    requires sink <= source
    ensures sink + Slice(source, |sink|, want) <= source
  {
    var n := Avail(source, |sink|, want);
    if n > 0 {
      assert source[..|sink| + n] == sink + source[|sink|..|sink| + n];
    }
  }

  /** How waiting may change an entry that is in READ, or in CLOSE with nothing left to count. */
  ghost predicate Awaited(j: Job, k: Job)
  {
    && Window(k) && SameJob(j, k) && k.cursor == j.cursor
    && k.stage in {READ, CLOSE, ERR}
    && (k.stage.CLOSE? ==> k.nTransfers == k.size)
    && (!k.stage.ERR? ==> Saved(k))
    && Gap(j) <= Gap(k) && j.nTransfers <= k.nTransfers
    && k.shown - |k.sink| == j.shown - |j.sink|
  }

  /** A finished read whose bytes were written, and one whose bytes were not. */
  lemma {:induction false} StoredKeeps(j: Job, missing: nat)
    requires Window(j) && Saved(j) && j.aio != []
    ensures Window(Stored(j, missing)) && Saved(Stored(j, missing))
    ensures Gap(Stored(j, missing)) == Gap(j) + j.aio[0].len - Got(j, j.aio[0], missing)
  {
    var n := Got(j, j.aio[0], missing);
    CoversOrder(j.aio[1..], Oldest(j) + j.aio[0].len, j.cursor, j.chunk);
    if Gap(j) == 0 {
      AppendKeepsPrefix(j.sink, j.source, n);
    }
  }

  lemma {:induction false} UnstoredKeeps(j: Job, missing: nat)
    requires Window(j) && Saved(j) && j.aio != []
    ensures Window(Counted(j, Got(j, j.aio[0], missing)))
    ensures Gap(j) <= Gap(Counted(j, Got(j, j.aio[0], missing)))
  {
    CoversOrder(j.aio[1..], Oldest(j) + j.aio[0].len, j.cursor, j.chunk);
  }

  lemma {:induction false} AwaitedTrans(j: Job, s: Job, k: Job)
    requires Awaited(j, s) && Awaited(s, k)
    ensures Awaited(j, k)
  {
  }

  lemma {:induction false} AwaitedNothing(j: Job)
    requires Waiting(j)
    ensures Awaited(j, j) && Awaited(j, j.(stage := ERR))
  {
  }

  lemma {:induction false} AwaitedStored(j: Job, missing: nat)
    requires Window(j) && Saved(j) && j.stage.READ? && j.aio != []
    ensures Awaited(j, Stored(j, missing)) && Waiting(Stored(j, missing))
  {
    StoredKeeps(j, missing);
    var s := Stored(j, missing);
    CoversOrder(s.aio, Oldest(s), s.cursor, s.chunk);
  }

  lemma {:induction false} AwaitedUnstored(j: Job, missing: nat)
    requires Window(j) && Saved(j) && j.aio != []
    ensures Awaited(j, Counted(j, Got(j, j.aio[0], missing)).(stage := ERR))
  {
    UnstoredKeeps(j, missing);
  }

  /** The entry is in the loop that waits: still reading, or all bytes counted and nothing awaited. */
  ghost predicate Waiting(j: Job)
  {
    && Window(j) && Saved(j)
    && (j.stage.READ? || (j.stage.CLOSE? && j.aio == [] && j.nTransfers == j.size))
  }

  /** Waiting keeps the window and the written prefix, however the answers come. */
  lemma {:induction false} AwaitReadsKeeps(j: Job, waits: seq<Wait>, k: Job)
    requires Waiting(j)
    requires k == AwaitReads(j, waits)
    ensures Awaited(j, k)
    decreases |waits|
  {
    if j.aio == [] || waits == [] || !waits[0].Done? {
      assert k == j || k == j.(stage := ERR);
      AwaitedNothing(j);
    } else if waits[0].stored {
      var s := Stored(j, waits[0].missing);
      AwaitedStored(j, waits[0].missing);
      AwaitReadsKeeps(s, waits[1..], k);
      AwaitedTrans(j, s, k);
    } else {
      AwaitedUnstored(j, waits[0].missing);
    }
  }

  lemma {:induction false} ReadKeeps(j: Job, a: Answers, base: nat)
    requires j.dir.Download? && j.stage.READ? && Window(j) && Saved(j) && j.shown == base + |j.sink|
    ensures var k := Read(j, a);
            Inv(k, base) && k.stage in {READ, CLOSE, ERR} && SameJob(j, k) && Gap(j) <= Gap(k) && Window(k)
  {
    var w := AwaitReads(j, a.waits);
    AwaitReadsKeeps(j, a.waits, w);
    CoversOrder(w.aio, Oldest(w), w.cursor, w.chunk);
    if w.nTransfers < w.size && w.aio == [] {
      BeginReadsKeeps(w, w.nTransfers, 0, a.begins, BeginReads(w, w.nTransfers, 0, a.begins));
    }
  }

  /** The first batch, sent while the entry is being opened. */
  lemma {:induction false} OpenKeeps(j: Job, a: Answers, base: nat)
    requires Inv(j, base) && j.stage.OPEN?
    ensures var k := Open(j, a);
            && k.dir == j.dir && k.source == j.source && k.size == j.size
            && (k.stage.READ? ==> Window(k) && Saved(k) && Gap(k) == 0 && k.shown == base + |k.sink|)
            && (k.stage.ERR? ==> k.aio == [] && k.nTransfers == 0)
            && (k.stage.READ? <==> a.remoteOpens && a.localOpens)
            && (k.stage.READ? && k.size > 0 && Begins(a.openBegins, 0) ==> k.aio != [])
  {
    if a.remoteOpens && a.localOpens {
      var l := Opened(j, a);
      BeginReadsKeeps(l, 0, 0, a.openBegins, BeginReads(l, 0, 0, a.openBegins));
    }
  }

  ghost predicate OutcomeInv(o: Outcome, base: nat)
  {
    && Inv(o.entry, base)
    && (o.Left? ==> o.entry.stage in {FINISH, ERR} && (o.entry.state.Finish? <==> o.entry.stage.FINISH?))
  }

  lemma {:induction false} OpenAndReadKeeps(j: Job, a: Answers, base: nat, o: Job)
    requires Inv(j, base) && j.stage.OPEN? && o == Open(j, a)
    ensures var k := if o.stage.READ? then Read(o, a) else o;
            Inv(k, base) && k.source == j.source && k.size == j.size
  {
    OpenKeeps(j, a, base);
    if o.stage.READ? {
      ReadKeeps(o, a, base);
    }
  }

  lemma {:induction false} LastVisitsKeep(j: Job, a: Answers, base: nat, o: Outcome)
    requires Inv(j, base) && j.stage in {CLOSE, FINISH, ERR} && o == Step(j, a)
    ensures OutcomeInv(o, base) && o.entry.source == j.source && o.entry.size == j.size
  {
  }

  /** Every visit, whatever its answers, keeps the invariant. */
  lemma {:induction false} StepKeeps(j: Job, a: Answers, base: nat, o: Outcome)
    requires Inv(j, base) && o == Step(j, a)
    ensures OutcomeInv(o, base) && o.entry.source == j.source && o.entry.size == j.size
  {
    if j.stage.OPEN? {
      OpenAndReadKeeps(j, a, base, Open(j, a));
    } else if j.stage.READ? {
      ReadKeeps(j, a, base);
    } else {
      LastVisitsKeep(j, a, base, o);
    }
  }

  lemma {:induction false} RunKeeps(o: Outcome, visits: seq<Answers>, base: nat, r: Outcome)
    requires OutcomeInv(o, base) && r == Run(o, visits)
    ensures OutcomeInv(r, base) && r.entry.source == o.entry.source && r.entry.size == o.entry.size
    decreases |visits|
  {
    if o.Kept? && visits != [] {
      StepKeeps(o.entry, visits[0], base, Step(o.entry, visits[0]));
      RunKeeps(Step(o.entry, visits[0]), visits[1..], base, r);
    }
  }

  /**
   * Finish is reported only for a file counted in full.  If the remote file is not longer than the
   * size noted when the transfer was listed, then, short reads or not, the bytes written are the
   * beginning of the remote file.
   */
  lemma {:induction false} FinishedDownload(size: nat, shown: nat, source: seq<byte>, old_sink: seq<byte>,
                                            visits: seq<Answers>)
    requires |source| <= size
    ensures var r := Run(Kept(Started(Download, size, shown, source, old_sink)), visits);
            r.Left? && r.entry.state.Finish? ==>
              && r.entry.nTransfers == size == |source|
              && r.entry.sink <= source
              && (r.entry.sink == source <==> |r.entry.sink| == size)
              && r.entry.shown == shown + |r.entry.sink|
  {
    var j := Started(Download, size, shown, source, old_sink);
    var r := Run(Kept(j), visits);
    RunKeeps(Kept(j), visits, shown, r);
    if r.Left? && r.entry.state.Finish? {
      CoversOrder(r.entry.aio, Oldest(r.entry), r.entry.cursor, r.entry.chunk);
    }
  }
}

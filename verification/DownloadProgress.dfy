/** Downloads: when they end, and exactly when a short read or a failed write spoils them. */
module DownloadProgress {
  import opened Survival
  import opened TransferJob
  import opened Download
  import opened Progress

  /** What short reads have left out so far does not make the download ask beyond the end of the file. */
  predicate Reaches(size: nat, gap: int, file: nat) { size + gap <= file }

  /** A download that can still end: nothing lost, something awaited, and the file long enough. */
  ghost predicate Live(j: Job, base: nat)
  {
    && Inv(j, base) && !j.stage.ERR? && Reaches(j.size, Gap(j), |j.source|)
    && (!j.stage.OPEN? ==> Saved(j))
    && (j.stage.READ? ==> j.aio != [])
  }

  lemma {:induction false} GotAll(j: Job)
    requires Window(j) && j.aio != [] && Reaches(j.size, Gap(j), |j.source|)
    ensures Got(j, j.aio[0], 0) == j.aio[0].len
  {
    CoversOrder(j.aio[1..], Oldest(j) + j.aio[0].len, j.cursor, j.chunk);
  }

  /** Whole answers leave the gap as it is, and the first of them brings the end nearer. */
  lemma {:induction false} AwaitWhole(j: Job, waits: seq<Wait>, k: Job)
    requires Waiting(j) && Reaches(j.size, Gap(j), |j.source|) && AllWhole(waits)
    requires k == AwaitReads(j, waits)
    ensures Awaited(j, k) && Gap(k) == Gap(j) && Saved(k)
    ensures j.aio != [] && waits != [] && waits[0].Done? ==> j.nTransfers < k.nTransfers
    decreases |waits|
  {
    AwaitReadsKeeps(j, waits, k);
    if j.aio != [] && waits != [] && waits[0].Done? {
      var s := Stored(j, 0);
      GotAll(j);
      AwaitedStored(j, 0);
      StoredKeeps(j, 0);
      AwaitWhole(s, waits[1..], k);
    }
  }

  /** Without an answer that failed there is no error, however short the reads. */
  lemma {:induction false} AwaitNoError(j: Job, waits: seq<Wait>, k: Job)
    requires Waiting(j) && AllFull(waits) && k == AwaitReads(j, waits)
    ensures !k.stage.ERR?
    decreases |waits|
  {
    if j.aio != [] && waits != [] && waits[0].Done? {
      AwaitedStored(j, 0);
      AwaitNoError(Stored(j, 0), waits[1..], k);
    }
  }

  lemma {:induction false} ReadWhole(j: Job, a: Answers, base: nat, k: Job)
    requires j.dir.Download? && j.stage.READ? && Window(j) && Saved(j) && Reaches(j.size, Gap(j), |j.source|)
    requires AllWhole(a.waits) && j.shown == base + |j.sink| && k == Read(j, a)
    ensures Inv(k, base) && Window(k) && Saved(k) && Gap(k) == Gap(j) && k.stage in {READ, CLOSE, ERR}
    ensures k.source == j.source && k.size == j.size && k.shown == base + |k.sink|
  {
    var w := AwaitReads(j, a.waits);
    AwaitWhole(j, a.waits, w);
    ReadKeeps(j, a, base);
    CoversOrder(w.aio, Oldest(w), w.cursor, w.chunk);
    if w.nTransfers < w.size && w.aio == [] {
      BeginReadsKeeps(w, w.nTransfers, 0, a.begins, BeginReads(w, w.nTransfers, 0, a.begins));
    }
  }

  lemma {:induction false} ReadLive(j: Job, a: Answers, base: nat, k: Job)
    requires j.dir.Download? && j.stage.READ? && Window(j) && Saved(j) && Reaches(j.size, Gap(j), |j.source|)
    requires Healthy(a) && j.shown == base + |j.sink| && k == Read(j, a)
    ensures Live(k, base) && k.stage in {READ, CLOSE} && Fuel(k) <= Fuel(j) && Gap(k) == Gap(j)
    ensures j.aio != [] && Answered(a) ==> Fuel(k) < Fuel(j)
  {
    var w := AwaitReads(j, a.waits);
    AwaitWhole(j, a.waits, w);
    AwaitNoError(j, a.waits, w);
    ReadWhole(j, a, base, k);
    CoversOrder(w.aio, Oldest(w), w.cursor, w.chunk);
    if w.nTransfers < w.size && w.aio == [] {
      BeginReadsKeeps(w, w.nTransfers, 0, a.begins, k);
    }
  }

  lemma {:induction false} StepLive(j: Job, a: Answers, base: nat, o: Outcome)
    requires Live(j, base) && Healthy(a) && o == Step(j, a)
    ensures o.Kept? ==> Live(o.entry, base) && !o.entry.stage.OPEN?
    ensures o.Kept? ==> Fuel(o.entry) <= Fuel(j) && (Answered(a) ==> Fuel(o.entry) < Fuel(j))
    ensures o.Left? ==> j.stage.FINISH? && Finished(o) && o.entry == Clean(j).(state := Finish)
    ensures o.entry.source == j.source && o.entry.size == j.size && Gap(o.entry) == Gap(j)
  {
    StepKeeps(j, a, base, o);
    if j.stage.OPEN? {
      OpenKeeps(j, a, base);
      ReadLive(Open(j, a), a, base, o.entry);
    } else if j.stage.READ? {
      ReadLive(j, a, base, o.entry);
    }
  }

  /** A download that has ended well. */
  ghost predicate Complete(o: Outcome, base: nat)
  {
    && Finished(o) && o.entry.size <= |o.entry.source|
    && o.entry.sink == o.entry.source[..o.entry.size] && o.entry.shown == base + o.entry.size
  }

  lemma {:induction false} RunCompletes(j: Job, visits: seq<Answers>, base: nat, r: Outcome)
    requires Live(j, base) && AllHealthy(visits) && Fuel(j) <= CountAnswered(visits)
    requires r == Run(Kept(j), visits)
    ensures Finished(r) && (Gap(j) == 0 ==> Complete(r, base))
    ensures r.entry.source == j.source && r.entry.size == j.size
    decreases |visits|
  {
    assert visits != [];
    var o := Step(j, visits[0]);
    StepLive(j, visits[0], base, o);
    if o.Kept? {
      RunCompletes(o.entry, visits[1..], base, r);
    } else {
      RunEnds(o, visits[1..]);
    }
  }

  /**
   * Once enough visits are answered, and none of them fails, a download has ended if and only if the
   * remote file is at least as long as noted, and then it has exactly the bytes noted.
   */
  lemma {:induction false} DownloadCompletes(size: nat, shown: nat, source: seq<byte>, old_sink: seq<byte>,
                                             visits: seq<Answers>)
    requires AllHealthy(visits) && size + 4 <= CountAnswered(visits)
    ensures var r := Run(Kept(Started(Download, size, shown, source, old_sink)), visits);
            && (Finished(r) <==> size <= |source|)
            && (Finished(r) ==> Complete(r, shown))
  {
    var j := Started(Download, size, shown, source, old_sink);
    if size <= |source| {
      RunCompletes(j, visits, shown, Run(Kept(j), visits));
    } else {
      FinishedDownload(size, shown, source, old_sink, visits);
    }
  }

  /** The local file is the beginning of the remote one, and the shown size has grown by just its length. */
  ghost predicate Exact(j: Job, base: nat)
  {
    && j.nTransfers <= j.size <= |j.source|
    && j.sink == j.source[..j.nTransfers] && j.shown == base + j.nTransfers
  }

  /** What is awaited is everything from the bytes counted to the end of the batch, in order. */
  ghost predicate Tiled(j: Job)
  {
    && j.nTransfers + Sum(j.aio) == j.cursor <= j.size && |j.aio| <= CONCURRENT
    && forall i :: 0 <= i < |j.aio| ==>
         1 <= j.aio[i].len <= j.chunk && j.aio[i].off == j.nTransfers + Sum(j.aio[..i])
  }

  lemma {:induction false} LiveExact(j: Job, base: nat)
    requires Live(j, base) && !j.stage.OPEN? && Gap(j) == 0
    ensures Exact(j, base) && Tiled(j)
  {
    CoversOrder(j.aio, Oldest(j), j.cursor, j.chunk);
    BatchAddsUp(j);
  }

  lemma {:induction false} RunExact(j: Job, visits: seq<Answers>, base: nat, r: Outcome)
    requires Live(j, base) && Gap(j) == 0 && (visits == [] ==> !j.stage.OPEN?)
    requires AllHealthy(visits) && r == Run(Kept(j), visits)
    ensures Exact(r.entry, base) && Tiled(r.entry) && (r.Kept? && r.entry.stage.READ? ==> r.entry.aio != [])
    ensures r.entry.source == j.source && r.entry.size == j.size
    decreases |visits|
  {
    if visits == [] {
      LiveExact(j, base);
    } else {
      var o := Step(j, visits[0]);
      StepLive(j, visits[0], base, o);
      if o.Kept? {
        RunExact(o.entry, visits[1..], base, r);
      } else {
        LiveExact(j, base);
        RunEnds(o, visits[1..]);
      }
    }
  }

  /**
   * After any number of healthy visits a download holds exactly the bytes it has counted, shows exactly
   * that much more, awaits exactly the bytes from there to the end of its batch, in order and within the
   * file size, and, while it is reading, awaits something.
   */
  lemma {:induction false} HealthyDownload(size: nat, shown: nat, source: seq<byte>, old_sink: seq<byte>,
                                           visits: seq<Answers>)
    requires size <= |source| && AllHealthy(visits) && visits != []
    ensures var r := Run(Kept(Started(Download, size, shown, source, old_sink)), visits);
            && r.entry.nTransfers <= size && r.entry.sink == source[..r.entry.nTransfers]
            && r.entry.shown == shown + r.entry.nTransfers && Tiled(r.entry)
            && (r.Kept? && r.entry.stage.READ? ==> r.entry.aio != [])
  {
    var j := Started(Download, size, shown, source, old_sink);
    RunExact(j, visits, shown, Run(Kept(j), visits));
  }

  // ----- files that have become shorter -----

  lemma {:induction false} ReadShrunk(j: Job, a: Answers, base: nat, k: Job)
    requires Inv(j, base) && j.stage.READ? && |j.source| < j.size && AllFull(a.waits) && k == Read(j, a)
    ensures Inv(k, base) && k.stage.READ? && k.state == j.state && k.source == j.source && k.size == j.size
  {
    AwaitNoError(j, a.waits, AwaitReads(j, a.waits));
    ReadKeeps(j, a, base);
    AwaitReadsKeeps(j, a.waits, AwaitReads(j, a.waits));
  }

  /**
   * A download of a file that is shorter than noted asks beyond its end for ever: as long as no wait fails,
   * whatever becomes of its begin calls, it stays in READ and is shown as Transferring.
   */
  lemma {:induction false} ShrunkDownloadHangs(j: Job, visits: seq<Answers>, base: nat, r: Outcome)
    requires Inv(j, base) && j.stage in {OPEN, READ} && |j.source| < j.size && AllResponsive(visits)
    requires r == Run(Kept(j), visits)
    ensures r.Kept? && r.entry.stage in {OPEN, READ}
    ensures r.entry.state == (if visits == [] || j.stage.READ? then j.state else Transferring)
    decreases |visits|
  {
    if visits != [] {
      var a := visits[0];
      var p := if j.stage.OPEN? then Open(j, a) else j;
      if j.stage.OPEN? {
        OpenKeeps(j, a, base);
      }
      ReadShrunk(p, a, base, Read(p, a));
      ShrunkDownloadHangs(Read(p, a), visits[1..], base, r);
    }
  }

  // ----- short reads -----

  /** A download that short reads have left without enough of the file to count. */
  ghost predicate Doomed(j: Job, base: nat)
  {
    && Inv(j, base) && j.stage in {READ, ERR}
    && (j.stage.READ? ==> !Reaches(j.size, Gap(j), |j.source|))
  }

  lemma {:induction false} DoomedForever(o: Outcome, visits: seq<Answers>, base: nat, r: Outcome)
    requires Doomed(o.entry, base) && (o.Left? ==> o.entry.state.Fail?)
    requires r == Run(o, visits)
    ensures Doomed(r.entry, base) && !Finished(r)
    decreases |visits|
  {
    if o.Kept? && visits != [] {
      var s := Step(o.entry, visits[0]);
      StepKeeps(o.entry, visits[0], base, s);
      if o.entry.stage.READ? {
        ReadKeeps(o.entry, visits[0], base);
      }
      DoomedForever(s, visits[1..], base, r);
    }
  }

  /** A short answer widens the gap at once. */
  lemma {:induction false} ShortReadLeavesGap(j: Job, missing: nat)
    requires Window(j) && Saved(j) && j.aio != [] && 0 < missing
    ensures Gap(Stored(j, missing)) > Gap(j)
  {
    StoredKeeps(j, missing);
  }

  /** Some future of the entry ends in Finish. */
  ghost predicate CanFinish(j: Job)
  {
    exists visits :: Finished(Run(Kept(j), visits))
  }

  lemma {:induction false} FinishReachable(j: Job, base: nat) returns (visits: seq<Answers>)
    requires Inv(j, base) && j.stage.READ? && Reaches(j.size, Gap(j), |j.source|)
    ensures Finished(Run(Kept(j), visits))
  {
    var a := OneAnswer();
    var k := Read(j, a);
    ReadLive(j, a, base, k);
    var rest := OneAnswers(Fuel(k));
    RunCompletes(k, rest, base, Run(Kept(k), rest));
    visits := [a] + rest;
    assert visits[0] == a && visits[1..] == rest;
    assert Step(j, a) == Kept(k);
  }

  /**
   * A download in the middle of its transfer, whatever has become of the remote file, can still reach
   * Finish if and only if the file holds the noted size and, beyond it, all the bytes that short reads
   * have left out so far.
   */
  lemma {:induction false} FinishReachableIff(j: Job, base: nat)
    requires Inv(j, base) && j.stage.READ?
    ensures CanFinish(j) <==> j.size + Gap(j) <= |j.source|
  {
    if Reaches(j.size, Gap(j), |j.source|) {
      var visits := FinishReachable(j, base);
      assert Finished(Run(Kept(j), visits));
    } else {
      forall visits ensures !Finished(Run(Kept(j), visits)) {
        DoomedForever(Kept(j), visits, base, Run(Kept(j), visits));
      }
    }
  }

  // ----- failed local writes -----

  /**
   * A visit that counts the last byte consumes one answer for every awaited request, and everything
   * counted is on disk exactly when the last of those answers was written.
   */
  lemma {:induction false} LastAnswerDecides(j: Job, waits: seq<Wait>, k: Job)
    requires Waiting(j) && j.stage.READ? && j.nTransfers < j.size
    requires k == AwaitReads(j, waits) && k.nTransfers == k.size
    ensures 1 <= |j.aio| <= |waits| && waits[|j.aio| - 1].Done?
    ensures Saved(k) <==> waits[|j.aio| - 1].stored
    decreases |waits|
  {
    if waits[0].stored {
      var s := Stored(j, waits[0].missing);
      AwaitedStored(j, waits[0].missing);
      CoversOrder(s.aio, Oldest(s), s.cursor, s.chunk);
      if s.nTransfers < s.size {
        LastAnswerDecides(s, waits[1..], k);
      }
    } else {
      UnstoredKeeps(j, waits[0].missing);
      CoversOrder(k.aio, Oldest(k), k.cursor, k.chunk);
    }
  }

  /**
   * Line 720 closes the entry although the write of its last chunk failed.  So a download that is being
   * closed has written all it has counted exactly when that write worked, and then, if no read was short,
   * it holds exactly the bytes noted.
   */
  lemma {:induction false} LastWriteDecides(j: Job, a: Answers, base: nat)
    requires Inv(j, base) && j.stage.READ?
    ensures var k := Read(j, a);
            k.stage.CLOSE? ==>
              && 1 <= |j.aio| <= |a.waits| && a.waits[|j.aio| - 1].Done? && j.size + Gap(k) <= |j.source|
              && (Saved(k) <==> a.waits[|j.aio| - 1].stored)
              && (Gap(k) == 0 ==> (k.sink == j.source[..j.size] <==> a.waits[|j.aio| - 1].stored))
  {
    var k := Read(j, a);
    ReadKeeps(j, a, base);
    if k.stage.CLOSE? {
      var w := AwaitReads(j, a.waits);
      AwaitReadsKeeps(j, a.waits, w);
      LastAnswerDecides(j, a.waits, w);
    }
  }

  predicate AllStored(visits: seq<Answers>)
  {
    forall i :: 0 <= i < |visits| ==> StoresAll(visits[i])
  }

  predicate StoresAll(a: Answers)
  {
    forall k :: 0 <= k < |a.waits| && a.waits[k].Done? ==> a.waits[k].stored
  }

  lemma {:induction false} ReadSaves(j: Job, a: Answers, base: nat)
    requires j.dir.Download? && j.stage.READ? && Window(j) && Saved(j) && j.shown == base + |j.sink|
    requires StoresAll(a)
    ensures Read(j, a).stage.CLOSE? ==> Saved(Read(j, a))
  {
    var w := AwaitReads(j, a.waits);
    AwaitReadsKeeps(j, a.waits, w);
    ReadKeeps(j, a, base);
    if Read(j, a).stage.CLOSE? && j.nTransfers < j.size {
      LastAnswerDecides(j, a.waits, w);
    } else if j.nTransfers == j.size {
      CoversOrder(j.aio, Oldest(j), j.cursor, j.chunk);
    }
  }

  ghost predicate SavedAtEnd(o: Outcome)
  {
    o.entry.stage in {CLOSE, FINISH} ==> Saved(o.entry)
  }

  lemma {:induction false} OpenSaves(j: Job, a: Answers, base: nat, o: Job)
    requires Inv(j, base) && j.stage.OPEN? && StoresAll(a) && o == Open(j, a)
    ensures o.stage.READ? && Read(o, a).stage in {CLOSE, FINISH} ==> Saved(Read(o, a))
  {
    OpenKeeps(j, a, base);
    if o.stage.READ? {
      ReadSaves(o, a, base);
      ReadKeeps(o, a, base);
    }
  }

  lemma {:induction false} StepSaves(j: Job, a: Answers, base: nat, o: Outcome)
    requires Inv(j, base) && SavedAtEnd(Kept(j)) && StoresAll(a) && o == Step(j, a)
    ensures SavedAtEnd(o)
  {
    if j.stage.OPEN? {
      OpenSaves(j, a, base, Open(j, a));
    } else if j.stage.READ? {
      ReadSaves(j, a, base);
      ReadKeeps(j, a, base);
    }
  }

  lemma {:induction false} RunSaves(o: Outcome, visits: seq<Answers>, base: nat, r: Outcome)
    requires OutcomeInv(o, base) && SavedAtEnd(o) && AllStored(visits)
    requires r == Run(o, visits)
    ensures OutcomeInv(r, base) && SavedAtEnd(r)
    decreases |visits|
  {
    if o.Kept? && visits != [] {
      var s := Step(o.entry, visits[0]);
      StepKeeps(o.entry, visits[0], base, s);
      StepSaves(o.entry, visits[0], base, s);
      RunSaves(s, visits[1..], base, r);
    }
  }

  /**
   * With no local write failing, Finish means an exact copy: short reads, failing requests and
   * failing visits may delay or prevent it, but never spoil it.
   */
  lemma {:induction false} FinishedCopyIsExact(size: nat, shown: nat, source: seq<byte>, old_sink: seq<byte>,
                                               visits: seq<Answers>)
    requires |source| <= size && AllStored(visits)
    ensures var r := Run(Kept(Started(Download, size, shown, source, old_sink)), visits);
            Finished(r) ==> r.entry.sink == source && r.entry.shown == shown + size
  {
    var j := Started(Download, size, shown, source, old_sink);
    RunSaves(Kept(j), visits, shown, Run(Kept(j), visits));
    FinishedDownload(size, shown, source, old_sink, visits);
  }

}

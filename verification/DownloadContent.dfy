/** Downloads: exactly when a finished copy is right, for files that have grown since they were listed too. */
module DownloadContent {
  import opened Survival
  import opened TransferJob
  import opened Wrappers
  import opened Download
  import opened DownloadProgress
  import opened Progress
  import opened TwinTransfers

  /** The local file once a run is over, and the run itself, for a remote file of given content. */
  function Ended(size: nat, shown: nat, source: seq<byte>, old_sink: seq<byte>, visits: seq<Answers>): Outcome
  {
    Run(Kept(Started(Download, size, shown, source, old_sink)), visits)
  }

  // ----- whole answers make right copies -----

  predicate AllWholeVisits(visits: seq<Answers>)
  {
    forall i :: 0 <= i < |visits| ==> AllWhole(visits[i].waits)
  }

  /** What has been counted, nothing else, is on disk and shown. */
  ghost predicate Copied(j: Job, base: nat)
  {
    Window(j) && Gap(j) == 0 && Saved(j) && j.shown == base + |j.sink|
  }

  /** Nothing left out and nothing lost, also when a download that was open has failed. */
  ghost predicate Sound(j: Job, base: nat)
  {
    && Inv(j, base) && j.size <= |j.source|
    && match j.stage
       case OPEN => true
       case ERR => Copied(j, base) || (j.aio == [] && j.nTransfers == 0)
       case _ => Copied(j, base)
  }

  lemma {:induction false} ReadSound(j: Job, a: Answers, base: nat, k: Job)
    requires Sound(j, base) && j.stage.READ? && AllWhole(a.waits) && k == Read(j, a)
    ensures Sound(k, base) && k.source == j.source && k.size == j.size
  {
    ReadWhole(j, a, base, k);
  }

  lemma {:induction false} OpenSound(j: Job, a: Answers, base: nat, o: Job)
    requires Sound(j, base) && j.stage.OPEN? && AllWhole(a.waits) && o == Open(j, a)
    ensures Sound(if o.stage.READ? then Read(o, a) else o, base)
  {
    OpenKeeps(j, a, base);
    OpenAndReadKeeps(j, a, base, o);
    if o.stage.READ? {
      ReadWhole(o, a, base, Read(o, a));
    }
  }

  lemma {:induction false} LastSound(j: Job, a: Answers, base: nat, o: Outcome)
    requires Sound(j, base) && j.stage in {CLOSE, FINISH, ERR} && o == Step(j, a)
    ensures Sound(o.entry, base)
  {
  }

  lemma {:induction false} StepSound(j: Job, a: Answers, base: nat, o: Outcome)
    requires Sound(j, base) && AllWhole(a.waits) && o == Step(j, a)
    ensures Sound(o.entry, base) && o.entry.source == j.source && o.entry.size == j.size
  {
    StepKeeps(j, a, base, o);
    if j.stage.OPEN? {
      OpenSound(j, a, base, Open(j, a));
    } else if j.stage.READ? {
      ReadSound(j, a, base, o.entry);
    } else {
      LastSound(j, a, base, o);
    }
  }

  lemma {:induction false} RunSound(o: Outcome, visits: seq<Answers>, base: nat, r: Outcome)
    requires OutcomeInv(o, base) && Sound(o.entry, base) && AllWholeVisits(visits) && r == Run(o, visits)
    ensures OutcomeInv(r, base) && Sound(r.entry, base)
    ensures r.entry.source == o.entry.source && r.entry.size == o.entry.size
    decreases |visits|
  {
    if o.Kept? && visits != [] {
      var s := Step(o.entry, visits[0]);
      StepKeeps(o.entry, visits[0], base, s);
      StepSound(o.entry, visits[0], base, s);
      RunSound(s, visits[1..], base, r);
    }
  }

  /**
   * If every read that is answered is answered in full and stored, then, whatever opens, begin calls and
   * waits fail and however much the remote file has grown: after every visit, also the one that fails, the
   * local file is exactly the bytes counted so far, and Finish means the bytes noted and no others.
   */
  lemma {:induction false} WholeAnswersCopyRight(size: nat, shown: nat, source: seq<byte>, old_sink: seq<byte>,
                                                 visits: seq<Answers>)
    requires size <= |source| && AllWholeVisits(visits)
    ensures var r := Ended(size, shown, source, old_sink, visits);
            var k := r.entry;
            && (k.stage in {READ, CLOSE, FINISH} || 0 < k.nTransfers ==>
                  k.nTransfers <= |source| && k.sink == source[..k.nTransfers] && k.shown == shown + k.nTransfers)
            && (Finished(r) ==> k.sink == source[..size] && k.shown == shown + size)
  {
    var j := Started(Download, size, shown, source, old_sink);
    var r := Run(Kept(j), visits);
    RunSound(Kept(j), visits, shown, r);
  }

  // ----- the last byte -----

  /** The last byte of a closing download is the one that stands `Gap` bytes further on in the remote file. */
  ghost predicate Ends(j: Job)
  {
    j.stage in {CLOSE, FINISH} && Saved(j) && 0 < j.size ==>
      && Window(j) && |j.sink| == j.size && j.size + Gap(j) <= |j.source|
      && j.sink[j.size - 1] == j.source[j.size + Gap(j) - 1]
  }

  /** The read that makes the count complete is never a short one. */
  lemma {:induction false} LastReadIsFull(j: Job, missing: nat)
    requires Window(j) && Saved(j) && j.aio != []
    requires j.nTransfers + Got(j, j.aio[0], missing) == j.size && j.nTransfers < j.size
    ensures Got(j, j.aio[0], missing) == j.aio[0].len && j.aio[1..] == []
    ensures j.aio[0].off == j.nTransfers + Gap(j) && j.aio[0].len == j.size - j.nTransfers
  {
    CoversOrder(j.aio[1..], Oldest(j) + j.aio[0].len, j.cursor, j.chunk);
  }

  lemma {:induction false} LastStored(j: Job, missing: nat, s: Job)
    requires Window(j) && Saved(j) && j.aio != [] && j.nTransfers < j.size
    requires s == Stored(j, missing) && s.nTransfers == j.size
    ensures s.aio == [] && s.size + Gap(s) <= |s.source| && Gap(s) == Gap(j)
    ensures |s.sink| == s.size && s.sink[s.size - 1] == s.source[s.size + Gap(s) - 1]
  {
    LastReadIsFull(j, missing);
    StoredKeeps(j, missing);
    var r := j.aio[0];
    var data := Slice(j.source, r.off, r.len);
    assert data == j.source[r.off..r.off + r.len] && data[r.len - 1] == j.source[r.off + r.len - 1];
    assert s.sink == j.sink + data;
  }

  lemma {:induction false} LastUnstored(j: Job, missing: nat)
    requires Window(j) && Saved(j) && j.aio != [] && j.nTransfers < j.size
    ensures var n := Got(j, j.aio[0], missing); j.nTransfers + n == j.size ==> !Saved(Counted(j, n))
  {
  }

  lemma {:induction false} AwaitEnds(j: Job, waits: seq<Wait>, k: Job)
    requires Waiting(j) && j.stage.READ? && j.nTransfers < j.size
    requires k == AwaitReads(j, waits) && k.nTransfers == k.size && Saved(k)
    ensures 0 < k.size == |k.sink| && 0 <= Gap(k) && k.size + Gap(k) <= |k.source|
    ensures k.sink[k.size - 1] == k.source[k.size + Gap(k) - 1]
    decreases |waits|
  {
    AwaitReadsKeeps(j, waits, k);
    LastUnstored(j, waits[0].missing);
    if waits[0].stored {
      var s := Stored(j, waits[0].missing);
      AwaitedStored(j, waits[0].missing);
      if s.nTransfers < s.size {
        AwaitEnds(s, waits[1..], k);
      } else {
        CoversOrder(s.aio, Oldest(s), s.cursor, s.chunk);
        LastStored(j, waits[0].missing, s);
      }
    }
  }

  lemma {:induction false} ReadEnds(j: Job, a: Answers, base: nat, k: Job)
    requires j.dir.Download? && j.stage.READ? && Window(j) && Saved(j) && j.shown == base + |j.sink|
    requires k == Read(j, a) && (j.nTransfers < j.size || j.size == 0)
    ensures Ends(k)
  {
    ReadKeeps(j, a, base);
    if k.stage.CLOSE? && Saved(k) && 0 < k.size {
      var w := AwaitReads(j, a.waits);
      AwaitReadsKeeps(j, a.waits, w);
      ClosedByCount(w, a, k);
      CloseEnds(j, a.waits, w, k);
    }
  }

  lemma {:induction false} CloseEnds(j: Job, waits: seq<Wait>, w: Job, k: Job)
    requires Waiting(j) && j.stage.READ? && j.nTransfers < j.size && w == AwaitReads(j, waits)
    requires w.nTransfers == w.size && k == w.(stage := CLOSE) && Saved(k)
    ensures 0 < k.size == |k.sink| && 0 <= Gap(k) && k.size + Gap(k) <= |k.source|
    ensures k.sink[k.size - 1] == k.source[k.size + Gap(k) - 1]
  {
    AwaitEnds(j, waits, w);
    assert Gap(k) == Gap(w);
  }

  /** Only the count closes a download. */
  lemma {:induction false} ClosedByCount(w: Job, a: Answers, k: Job)
    requires Window(w) && (w.stage.CLOSE? ==> w.nTransfers == w.size)
    requires k == (if w.size == w.nTransfers then w.(stage := CLOSE) else if w.aio != [] then w
                   else BeginReads(w, w.nTransfers, 0, a.begins))
    requires k.stage.CLOSE?
    ensures w.nTransfers == w.size && k == w.(stage := CLOSE)
  {
    if w.size != w.nTransfers && w.aio == [] {
      BeginReadsKeeps(w, w.nTransfers, 0, a.begins, k);
    }
  }

  lemma {:induction false} OpenEnds(j: Job, a: Answers, base: nat, o: Job)
    requires Inv(j, base) && j.stage.OPEN? && o == Open(j, a)
    ensures Ends(if o.stage.READ? then Read(o, a) else o)
  {
    OpenKeeps(j, a, base);
    OpenCountsNothing(j, a, base, o);
    if o.stage.READ? {
      ReadEnds(o, a, base, Read(o, a));
    }
  }

  lemma {:induction false} OpenCountsNothing(j: Job, a: Answers, base: nat, o: Job)
    requires Inv(j, base) && j.stage.OPEN? && o == Open(j, a)
    ensures o.nTransfers == 0 && o.size == j.size && o.stage in {READ, ERR}
  {
    if a.remoteOpens && a.localOpens {
      var l := Opened(j, a);
      BeginReadsKeeps(l, 0, 0, a.openBegins, BeginReads(l, 0, 0, a.openBegins));
    }
  }

  lemma {:induction false} StepEnds(j: Job, a: Answers, base: nat, o: Outcome)
    requires Inv(j, base) && Ends(j) && o == Step(j, a)
    ensures Ends(o.entry)
  {
    if j.stage.OPEN? {
      OpenEnds(j, a, base, Open(j, a));
    } else if j.stage.READ? {
      ReadEnds(j, a, base, o.entry);
    }
  }

  lemma {:induction false} RunEndsRight(o: Outcome, visits: seq<Answers>, base: nat, r: Outcome)
    requires OutcomeInv(o, base) && Ends(o.entry) && r == Run(o, visits)
    ensures OutcomeInv(r, base) && Ends(r.entry)
    ensures r.entry.source == o.entry.source && r.entry.size == o.entry.size
    decreases |visits|
  {
    if o.Kept? && visits != [] {
      var s := Step(o.entry, visits[0]);
      StepKeeps(o.entry, visits[0], base, s);
      StepEnds(o.entry, visits[0], base, s);
      RunEndsRight(s, visits[1..], base, r);
    }
  }

  // ----- how much is left out -----

  /** Bytes that the reads counted while waiting were asked for and did not deliver. */
  function LeftOutWaiting(j: Job, waits: seq<Wait>): int
    decreases |waits|
  {
    if j.aio == [] || waits == [] || !waits[0].Done? then 0
    else
      var short := j.aio[0].len - Got(j, j.aio[0], waits[0].missing);
      if waits[0].stored then short + LeftOutWaiting(Stored(j, waits[0].missing), waits[1..]) else short
  }

  function LeftOutVisit(j: Job, a: Answers): int
  {
    var p := if j.stage.OPEN? then Open(j, a) else j;
    if p.stage.READ? then LeftOutWaiting(p, a.waits) else 0
  }

  /** Bytes left out by all the reads that a run counts: none exactly if no read was short. */
  function LeftOut(o: Outcome, visits: seq<Answers>): int
    decreases |visits|
  {
    if o.Left? || visits == [] then 0
    else LeftOutVisit(o.entry, visits[0]) + LeftOut(Step(o.entry, visits[0]), visits[1..])
  }

  lemma {:induction false} AwaitGap(j: Job, waits: seq<Wait>, k: Job)
    requires Waiting(j) && k == AwaitReads(j, waits)
    ensures Gap(k) == Gap(j) + LeftOutWaiting(j, waits)
    decreases |waits|
  {
    if j.aio != [] && waits != [] && waits[0].Done? {
      var m := waits[0].missing;
      CoversOrder(j.aio[1..], Oldest(j) + j.aio[0].len, j.cursor, j.chunk);
      if waits[0].stored {
        AwaitedStored(j, m);
        StoredKeeps(j, m);
        AwaitGap(Stored(j, m), waits[1..], k);
      }
    }
  }

  lemma {:induction false} ReadGap(j: Job, a: Answers, k: Job)
    requires j.dir.Download? && j.stage.READ? && Window(j) && Saved(j) && k == Read(j, a)
    ensures Gap(k) == Gap(j) + LeftOutWaiting(j, a.waits)
  {
    var w := AwaitReads(j, a.waits);
    AwaitGap(j, a.waits, w);
    AwaitReadsKeeps(j, a.waits, w);
    CoversOrder(w.aio, Oldest(w), w.cursor, w.chunk);
    if w.nTransfers < w.size && w.aio == [] {
      BeginReadsKeeps(w, w.nTransfers, 0, a.begins, k);
    }
  }

  lemma {:induction false} StepGap(j: Job, a: Answers, base: nat, o: Outcome)
    requires Inv(j, base) && !j.stage.ERR? && o == Step(j, a) && !o.entry.stage.ERR?
    ensures Gap(o.entry) == Gap(j) + LeftOutVisit(j, a)
  {
    if j.stage.OPEN? {
      var p := Open(j, a);
      OpenKeeps(j, a, base);
      OpenCountsNothing(j, a, base, p);
      if p.stage.READ? {
        ReadGap(p, a, o.entry);
      }
    } else if j.stage.READ? {
      ReadGap(j, a, o.entry);
    }
  }

  lemma {:induction false} ErrorStays(o: Outcome, visits: seq<Answers>)
    requires o.entry.stage.ERR?
    ensures Run(o, visits).entry.stage.ERR?
    decreases |visits|
  {
    if o.Kept? && visits != [] {
      ErrorStays(Step(o.entry, visits[0]), visits[1..]);
    }
  }

  lemma {:induction false} RunGap(o: Outcome, visits: seq<Answers>, base: nat, r: Outcome)
    requires OutcomeInv(o, base) && !o.entry.stage.ERR? && r == Run(o, visits) && !r.entry.stage.ERR?
    ensures Gap(r.entry) == Gap(o.entry) + LeftOut(o, visits)
    decreases |visits|
  {
    if o.Kept? && visits != [] {
      var s := Step(o.entry, visits[0]);
      StepKeeps(o.entry, visits[0], base, s);
      if s.entry.stage.ERR? {
        ErrorStays(s, visits[1..]);
      } else {
        StepGap(o.entry, visits[0], base, s);
        RunGap(s, visits[1..], base, r);
      }
    }
  }

  // ----- the bytes do not steer the transfer -----

  /** With the same answers a file of the same length is counted alike, whatever its bytes. */
  lemma {:induction false} ContentDoesNotSteer(size: nat, shown: nat, source: seq<byte>, content: seq<byte>,
                                               old_sink: seq<byte>, visits: seq<Answers>)
    requires |content| == |source|
    ensures var r := Ended(size, shown, source, old_sink, visits);
            var t := Ended(size, shown, content, old_sink, visits);
            Twins(r.entry, t.entry) && r.Kept? == t.Kept? && Gap(t.entry) == Gap(r.entry)
  {
    var j, k := Started(Download, size, shown, source, old_sink), Started(Download, size, shown, content, old_sink);
    TwinsRun(Kept(j), Kept(k), visits, Run(Kept(j), visits), Run(Kept(k), visits));
  }

  // ----- when a finished copy is right -----

  /** Every remote file of this length is copied right by this run. */
  ghost predicate CopiesRight(size: nat, shown: nat, n: nat, old_sink: seq<byte>, visits: seq<Answers>)
  {
    forall content: seq<byte> | |content| == n && size <= n ::
      Ended(size, shown, content, old_sink, visits).entry.sink == content[..size]
  }

  lemma {:induction false} FinishedFacts(size: nat, shown: nat, source: seq<byte>, old_sink: seq<byte>,
                                         visits: seq<Answers>, r: Outcome)
    requires r == Ended(size, shown, source, old_sink, visits) && Finished(r)
    ensures Inv(r.entry, shown) && r.entry.stage.FINISH? && Ends(r.entry)
    ensures r.entry.source == source && r.entry.size == size && r.entry.nTransfers == size
    ensures 0 <= Gap(r.entry) && size + Gap(r.entry) <= |source|
    ensures size == 0 ==> Gap(r.entry) == 0
  {
    var j := Started(Download, size, shown, source, old_sink);
    RunEndsRight(Kept(j), visits, shown, r);
    CoversOrder(r.entry.aio, Oldest(r.entry), r.entry.cursor, r.entry.chunk);
  }

  lemma {:induction false} LastByteIsMarked(k: Job, size: nat, n: nat)
    requires Ends(k) && k.stage.FINISH? && Saved(k) && Gap(k) > 0 && 0 < size <= n
    requires k.size == size && k.source == Marked(size, n)
    ensures k.sink != Marked(size, n)[..size]
  {
    assert k.sink[size - 1] == 1 && Marked(size, n)[..size][size - 1] == 0;
  }

  /** A run that leaves bytes out copies the marked file wrong: its last byte comes from beyond the size. */
  lemma {:induction false} MarkedIsWrong(size: nat, shown: nat, source: seq<byte>, old_sink: seq<byte>,
                                         visits: seq<Answers>, r: Outcome, t: Outcome)
    requires r == Ended(size, shown, source, old_sink, visits) && Finished(r) && Saved(r.entry) && Gap(r.entry) > 0
    requires size <= |source| && t == Ended(size, shown, Marked(size, |source|), old_sink, visits)
    ensures t.entry.sink != Marked(size, |source|)[..size]
  {
    FinishedFacts(size, shown, source, old_sink, visits, r);
    ContentDoesNotSteer(size, shown, source, Marked(size, |source|), old_sink, visits);
    FinishedFacts(size, shown, Marked(size, |source|), old_sink, visits, t);
    LastByteIsMarked(t.entry, size, |source|);
  }

  lemma {:induction false} ExactIsRight(size: nat, shown: nat, source: seq<byte>, content: seq<byte>,
                                        old_sink: seq<byte>, visits: seq<Answers>, r: Outcome)
    requires r == Ended(size, shown, source, old_sink, visits) && Finished(r) && Saved(r.entry) && Gap(r.entry) == 0
    requires |content| == |source|
    ensures size <= |content| && Ended(size, shown, content, old_sink, visits).entry.sink == content[..size]
  {
    var t := Ended(size, shown, content, old_sink, visits);
    ContentDoesNotSteer(size, shown, source, content, old_sink, visits);
    FinishedFacts(size, shown, content, old_sink, visits, t);
  }

  /**
   * A run that finishes copies every remote file of that length right if and only if no read that it
   * counted was short and everything counted was written, which LastWriteDecides tells by the last write.
   */
  lemma {:induction false} CopyRightIff(size: nat, shown: nat, source: seq<byte>, old_sink: seq<byte>,
                                        visits: seq<Answers>)
    requires Finished(Ended(size, shown, source, old_sink, visits))
    ensures var r := Ended(size, shown, source, old_sink, visits);
            CopiesRight(size, shown, |source|, old_sink, visits) <==>
              Saved(r.entry) && LeftOut(Kept(Started(Download, size, shown, source, old_sink)), visits) == 0
  {
    var r := Ended(size, shown, source, old_sink, visits);
    FinishedFacts(size, shown, source, old_sink, visits, r);
    RunGap(Kept(Started(Download, size, shown, source, old_sink)), visits, shown, r);
    if !Saved(r.entry) {
      assert |r.entry.sink| < |source[..size]|;
    } else if Gap(r.entry) > 0 {
      var t := Ended(size, shown, Marked(size, |source|), old_sink, visits);
      MarkedIsWrong(size, shown, source, old_sink, visits, r, t);
    } else {
      forall content: seq<byte> | |content| == |source| && size <= |source|
        ensures Ended(size, shown, content, old_sink, visits).entry.sink == content[..size]
      {
        ExactIsRight(size, shown, source, content, old_sink, visits, r);
      }
    }
  }

  // ----- two ways a bad copy is reported as finished -----

  /** A download that is being closed needs two more visits, which change no byte. */
  lemma {:induction false} ClosingFinishes(j: Job, visits: seq<Answers>, r: Outcome)
    requires j.stage.CLOSE? && |visits| == 2 && r == Run(Kept(j), visits)
    ensures Finished(r) && r.entry.sink == j.sink && r.entry.shown == j.shown
  {
    var f := j.(stage := FINISH, state := Closing);
    assert Step(j, visits[0]) == Kept(f);
    assert r == Run(Kept(f), visits[1..]) == Run(Step(f, visits[1]), visits[1..][1..]);
  }

  /** Opening a file of at most one chunk asks for all of it. */
  lemma {:induction false} OneChunkAsked(j: Job, a: Answers, p: Job)
    requires j == Started(Download, |j.source|, j.shown, j.source, j.sink) && 0 < |j.source| <= BUF_SIZE
    requires a.remoteOpens && a.localOpens && a.limit.None? && Begins(a.openBegins, 0) && p == Open(j, a)
    ensures p == Opened(j, a).(aio := [Request(0, j.size)], cursor := j.size, stage := READ, state := Transferring)
  {
    var l := Opened(j, a);
    var q := Queued(l, j.size);
    assert BeginReads(l, 0, 0, a.openBegins) == BeginReads(q, j.size, 1, a.openBegins) == q;
    assert q.aio == [Request(0, j.size)];
  }

  lemma {:induction false} UnstoredVisit(p: Job, a: Answers, k: Job)
    requires p.dir.Download? && p.stage.READ? && p.aio == [Request(0, p.size)] && p.nTransfers == 0
    requires p.size == |p.source| > 0 && a.waits == [Done(0, false)] && k == Read(p, a)
    ensures k.stage.CLOSE? && k.sink == p.sink && k.shown == p.shown
  {
    var w := AwaitReads(p, a.waits);
    assert Got(p, p.aio[0], 0) == p.size;
    assert w == Counted(p, p.size).(stage := ERR);
  }

  /**
   * From start to finish: any file of at most one chunk whose only local write fails is reported as
   * finished with an empty copy.
   */
  lemma {:induction false} LostLastChunk(shown: nat, source: seq<byte>, old_sink: seq<byte>, visits: seq<Answers>)
    requires 0 < |source| <= BUF_SIZE && |visits| == 3
    requires var a := visits[0];
             a.remoteOpens && a.localOpens && a.limit.None? && Begins(a.openBegins, 0) && a.waits == [Done(0, false)]
    ensures var r := Ended(|source|, shown, source, old_sink, visits);
            Finished(r) && r.entry.sink == [] && r.entry.shown == shown
  {
    var j := Started(Download, |source|, shown, source, old_sink);
    var p := Open(j, visits[0]);
    OneChunkAsked(j, visits[0], p);
    var k := Read(p, visits[0]);
    UnstoredVisit(p, visits[0], k);
    assert Step(j, visits[0]) == Kept(k);
    ClosingFinishes(k, visits[1..], Run(Kept(k), visits[1..]));
  }

  /** A file noted with three bytes, read in pieces of two. */
  lemma {:induction false} TwoPiecesAsked(j: Job, a: Answers, p: Job)
    requires j == Started(Download, 3, j.shown, j.source, j.sink)
    requires a.remoteOpens && a.localOpens && a.limit == Some(2) && a.openBegins == [] && p == Open(j, a)
    ensures p == Opened(j, a).(aio := [Request(0, 2), Request(2, 1)], cursor := 3, stage := READ, state := Transferring)
  {
    var l := Opened(j, a);
    var q := Queued(l, 2);
    var r := Queued(q, 1);
    assert BeginReads(l, 0, 0, a.openBegins) == BeginReads(q, 2, 1, a.openBegins);
    assert BeginReads(q, 2, 1, a.openBegins) == BeginReads(r, 3, 2, a.openBegins) == r;
    assert r.aio == [Request(0, 2), Request(2, 1)];
  }

  /** The first piece comes one byte short, the second in full; the byte after the noted size is asked for. */
  lemma {:induction false} ShortVisit(p: Job, a: Answers, k: Job)
    requires p.dir.Download? && p.stage.READ? && p.aio == [Request(0, 2), Request(2, 1)] && p.cursor == 3
    requires p.nTransfers == 0 && p.size == 3 && |p.source| == 4 && p.sink == [] && p.chunk == 2
    requires a.waits == [Done(1, true), Done(0, true)] && a.begins == [] && k == Read(p, a)
    ensures k == p.(aio := [Request(3, 1)], cursor := 4, nTransfers := 2, sink := [p.source[0], p.source[2]],
                    shown := p.shown + 2)
  {
    var s := Stored(p, 1);
    assert s == p.(aio := [Request(2, 1)], nTransfers := 1, sink := [p.source[0]], shown := p.shown + 1);
    var t := Stored(s, 0);
    assert t == p.(aio := [], nTransfers := 2, sink := [p.source[0], p.source[2]], shown := p.shown + 2);
    var rest := a.waits[1..];
    assert AwaitReads(p, a.waits) == AwaitReads(s, rest) == AwaitReads(t, rest[1..]) == t;
    var q := Queued(t, 1);
    assert BeginReads(t, 2, 0, a.begins) == BeginReads(q, 3, 1, a.begins) == q;
    assert q.aio == [Request(3, 1)];
  }

  lemma {:induction false} LastVisit(k: Job, a: Answers, c: Job)
    requires k.dir.Download? && k.stage.READ? && k.aio == [Request(3, 1)] && k.size == 3 && k.nTransfers == 2
    requires |k.source| == 4 && a.waits == [Done(0, true)] && c == Read(k, a)
    ensures c.stage.CLOSE? && c.sink == k.sink + [k.source[3]]
  {
    var u := Stored(k, 0);
    assert Got(k, k.aio[0], 0) == 1 && Slice(k.source, 3, 1) == [k.source[3]];
    assert AwaitReads(k, a.waits) == AwaitReads(u, a.waits[1..]) == u;
  }

  /**
   * From start to finish: a file noted with three bytes that has grown to four, and one short read.  Byte 1
   * is left out, byte 3 takes its place, and the transfer is reported as finished.
   */
  lemma {:induction false} ShortReadOfGrownFile(shown: nat, source: seq<byte>, old_sink: seq<byte>,
                                                visits: seq<Answers>)
    requires |source| == 4 && |visits| == 4
    requires var a := visits[0];
             && a.remoteOpens && a.localOpens && a.limit == Some(2) && a.openBegins == [] && a.begins == []
             && a.waits == [Done(1, true), Done(0, true)]
    requires visits[1].waits == [Done(0, true)]
    ensures var r := Ended(3, shown, source, old_sink, visits);
            Finished(r) && r.entry.sink == [source[0], source[2], source[3]]
  {
    var j := Started(Download, 3, shown, source, old_sink);
    var p := Open(j, visits[0]);
    TwoPiecesAsked(j, visits[0], p);
    var k := Read(p, visits[0]);
    ShortVisit(p, visits[0], k);
    var c := Read(k, visits[1]);
    LastVisit(k, visits[1], c);
    assert Step(j, visits[0]) == Kept(k) && Step(k, visits[1]) == Kept(c);
    var rest := visits[1..][1..];
    assert Run(Kept(j), visits) == Run(Kept(k), visits[1..]) == Run(Kept(c), rest);
    ClosingFinishes(c, rest, Run(Kept(c), rest));
  }
}

/** Uploads: the sliding window, what the server is given, and when they end. */
module Upload {
  import opened Survival
  import opened TransferJob
  import opened Progress

  /** Outstanding requests of `least` to `most` bytes that add up to `total`. */
  ghost predicate Lengths(aio: seq<Request>, total: int, least: nat, most: nat)
  {
    if aio == [] then total == 0
    else least <= aio[0].len <= most && Lengths(aio[1..], total - aio[0].len, least, most)
  }

  /** Bytes read from the local file that no request carries, lost by begin calls that failed. */
  ghost function Skip(j: Job): int { j.cursor - j.nRequests }

  /** Whether the local file has bytes for all that is still to be requested. */
  ghost predicate Enough(j: Job) { j.size + Skip(j) <= |j.source| }

  /** No request may be empty as long as the local file has the bytes asked of it. */
  ghost function Least(j: Job): nat { if Enough(j) then 1 else 0 }

  /** What holds of the window and of the bytes handed to the server at every moment after the open. */
  ghost predicate Window(j: Job)
  {
    && |j.aio| <= CONCURRENT && (j.size == 0 ==> j.aio == [])
    && Lengths(j.aio, j.nRequests - j.nTransfers, Least(j), j.chunk)
    && j.nTransfers <= j.nRequests <= j.size
    && j.nRequests <= j.cursor <= |j.source|
    && |j.sink| == j.nRequests
    && (Skip(j) == 0 ==> j.sink == j.source[..j.nRequests])
    && (j.nRequests == j.size > 0 ==> j.sink[j.size - 1] == j.source[j.cursor - 1])
  }

  /** The invariant of an upload over its whole life in the list; `base` is the size shown throughout. */
  ghost predicate Inv(j: Job, base: nat)
  {
    && j.dir.Upload? && j.shown == base
    && match j.stage
       case OPEN => j.aio == [] && j.nTransfers == j.nRequests == 0 && j.cursor == 0
       case READ => Window(j) && (j.nTransfers < j.size || j.size == 0)
       case CLOSE => Window(j) && j.nTransfers == j.size > 0
       case FINISH => Window(j) && j.nTransfers == j.size > 0
       case ERR => Window(j) || (j.aio == [] && j.nTransfers == j.nRequests == 0)
  }

  lemma {:induction false} LengthsSum(aio: seq<Request>, total: int, least: nat, most: nat)
    requires Lengths(aio, total, least, most)
    ensures Sum(aio) == total
  {
    if aio != [] {
      LengthsSum(aio[1..], total - aio[0].len, least, most);
    }
  }

  lemma {:induction false} LengthsPositive(aio: seq<Request>, total: int, most: nat)
    requires Lengths(aio, total, 1, most)
    ensures 0 <= total && (total == 0 <==> aio == [])
  {
    if aio != [] {
      LengthsPositive(aio[1..], total - aio[0].len, most);
    }
  }

  lemma {:induction false} LengthsWeaken(aio: seq<Request>, total: int, least: nat, most: nat)
    requires Lengths(aio, total, least, most)
    ensures Lengths(aio, total, 0, most) && 0 <= total
  {
    if aio != [] {
      LengthsWeaken(aio[1..], total - aio[0].len, least, most);
    }
  }

  lemma {:induction false} LengthsSnoc(aio: seq<Request>, total: int, least: nat, most: nat, r: Request)
    requires Lengths(aio, total, least, most) && least <= r.len <= most
    ensures Lengths(aio + [r], total + r.len, least, most)
  {
    if aio == [] {
      assert (aio + [r])[1..] == [];
    } else {
      LengthsSnoc(aio[1..], total - aio[0].len, least, most, r);
      assert (aio + [r])[1..] == aio[1..] + [r];
    }
  }

  /** Acknowledged and outstanding bytes make up what was requested, which never passes the file size. */
  lemma {:induction false} WindowAddsUp(j: Job)
    requires Window(j)
    ensures j.nTransfers + Sum(j.aio) == j.nRequests <= j.size
    ensures forall r | r in j.aio :: Least(j) <= r.len <= j.chunk
  {
    LengthsSum(j.aio, j.nRequests - j.nTransfers, Least(j), j.chunk);
    LengthsEach(j.aio, j.nRequests - j.nTransfers, Least(j), j.chunk);
  }

  lemma {:induction false} LengthsEach(aio: seq<Request>, total: int, least: nat, most: nat)
    requires Lengths(aio, total, least, most)
    ensures forall r | r in aio :: least <= r.len <= most
  {
    if aio != [] {
      LengthsEach(aio[1..], total - aio[0].len, least, most);
    }
  }

  /** The bytes handed over are still the beginning of the file, or at least end where reading has got to. */
  lemma {:induction false} SentBytes(j: Job, t: Job)
    requires Window(j) && j.nRequests < j.size && t == Sent(j)
    ensures t.nRequests <= t.size && t.nRequests <= t.cursor <= |t.source| && |t.sink| == t.nRequests
    ensures Skip(t) == 0 ==> t.sink == t.source[..t.nRequests]
    ensures t.nRequests == t.size ==> t.sink[t.size - 1] == t.source[t.cursor - 1]
  {
    var data := NextChunk(j);
    if Skip(j) == 0 && |data| > 0 {
      assert j.source[..j.nRequests + |data|] == j.source[..j.nRequests] + data;
    }
  }

  /** One more chunk read and handed over. */
  lemma {:induction false} SentKeeps(j: Job)
    requires Window(j) && |j.aio| < CONCURRENT && j.nRequests < j.size
    ensures Window(Sent(j)) && Skip(Sent(j)) == Skip(j)
    ensures Least(j) == 1 ==> j.nRequests < Sent(j).nRequests
  {
    var data := NextChunk(j);
    LengthsSnoc(j.aio, j.nRequests - j.nTransfers, Least(j), j.chunk, Request(j.cursor, |data|));
    SentBytes(j, Sent(j));
  }

  /** One more chunk read but not handed over. */
  lemma {:induction false} SkippedKeeps(j: Job)
    requires Window(j) && j.nRequests < j.size
    ensures Window(Skipped(j)) && Skip(Skipped(j)) == Skip(j) + |NextChunk(j)|
  {
    LengthsWeaken(j.aio, j.nRequests - j.nTransfers, Least(j), j.chunk);
  }

  ghost predicate Refilled(j: Job, k: Job)
  {
    && k == j.(aio := k.aio, nRequests := k.nRequests, cursor := k.cursor, sink := k.sink)
    && Window(k) && Skip(j) <= Skip(k)
  }

  lemma {:induction false} BeginWritesKeeps(j: Job, i: nat, n: nat, begins: seq<bool>, k: Job)
    requires Window(j) && |j.aio| + n <= CONCURRENT + i && i <= n
    requires k == BeginWrites(j, i, n, begins)
    ensures Refilled(j, k)
    ensures AllBegin(begins) ==> Skip(k) == Skip(j)
    ensures i < n && j.nRequests < j.size && Begins(begins, i) ==> k.aio != []
    ensures j.aio != [] ==> k.aio != []
    decreases n - i
  {
    if i < n && j.nRequests < j.size {
      if Begins(begins, i) {
        SentKeeps(j);
        BeginWritesKeeps(Sent(j), i + 1, n, begins, k);
      } else {
        SkippedKeeps(j);
      }
    }
  }

  /** How waiting for acknowledgements may change an entry. */
  ghost predicate Awaited(j: Job, k: Job)
  {
    && k == j.(stage := k.stage, aio := k.aio, nTransfers := k.nTransfers)
    && Window(k) && |k.aio| <= |j.aio| && j.nTransfers <= k.nTransfers
    && k.stage in {READ, CLOSE, ERR}
    && (k.stage.CLOSE? ==> k.nTransfers == k.size > 0)
    && (k.stage.READ? ==> k.nTransfers < k.size || k.size == 0)
  }

  lemma {:induction false} AckKeeps(j: Job)
    requires Window(j) && j.aio != []
    ensures Window(Counted(j, j.aio[0].len))
  {
    LengthsWeaken(j.aio[1..], j.nRequests - j.nTransfers - j.aio[0].len, Least(j), j.chunk);
  }

  ghost predicate Waiting(j: Job)
  {
    && Window(j)
    && ((j.stage.READ? && (j.nTransfers < j.size || j.size == 0)) || (j.stage.CLOSE? && j.nTransfers == j.size > 0))
  }

  lemma {:induction false} AckWaiting(j: Job)
    requires Waiting(j) && j.aio != []
    ensures Waiting(Counted(j, j.aio[0].len))
    ensures Awaited(j, Counted(j, j.aio[0].len))
  {
    AckKeeps(j);
  }

  lemma {:induction false} AwaitedNothing(j: Job)
    requires Waiting(j)
    ensures Awaited(j, j) && Awaited(j, j.(stage := ERR))
  {
  }

  lemma {:induction false} AwaitedTrans(j: Job, s: Job, k: Job)
    requires Awaited(j, s) && Awaited(s, k)
    ensures Awaited(j, k)
  {
  }

  lemma {:induction false} AwaitWritesKeeps(j: Job, waits: seq<Wait>, k: Job)
    requires Waiting(j) && k == AwaitWrites(j, waits)
    ensures Awaited(j, k)
    ensures AllFull(waits) ==> Waiting(k)
    decreases |waits|
  {
    if j.aio != [] && waits != [] && waits[0].Done? {
      var s := Counted(j, j.aio[0].len);
      AckWaiting(j);
      AwaitWritesKeeps(s, waits[1..], k);
      AwaitedTrans(j, s, k);
    } else {
      AwaitedNothing(j);
    }
  }

  lemma {:induction false} ReadKeeps(j: Job, a: Answers, base: nat, k: Job)
    requires Inv(j, base) && j.stage.READ? && k == Read(j, a)
    ensures Inv(k, base) && Window(k) && k.stage in {READ, CLOSE, ERR} && Skip(j) <= Skip(k)
    ensures k.source == j.source && k.size == j.size
    ensures AllBegin(a.begins) ==> Skip(k) == Skip(j)
  {
    var w := AwaitWrites(j, a.waits);
    AwaitWritesKeeps(j, a.waits, w);
    if |w.aio| < CONCURRENT {
      BeginWritesKeeps(w, 0, CONCURRENT - |w.aio|, a.begins, k);
    }
  }

  /** The first window, sent while the entry is being opened. */
  lemma {:induction false} FirstWindow(l: Job, begins: seq<bool>, k: Job)
    requires l.aio == [] && l.nTransfers == l.nRequests == 0 && l.cursor == 0 && l.sink == []
    requires k == BeginWrites(l, 0, CONCURRENT, begins)
    ensures Refilled(l, k)
    ensures AllBegin(begins) ==> Skip(k) == 0 && (l.size > 0 ==> k.aio != [])
  {
    BeginWritesKeeps(l, 0, CONCURRENT, begins, k);
  }

  /** Sending the first window does not depend on the stage and the visible state. */
  lemma {:induction false} Renamed(b: Job, k: Job)
    requires Window(b) && k == b.(stage := READ, state := Transferring)
    ensures Window(k) && Skip(k) == Skip(b)
  {
    assert Least(k) == Least(b);
  }

  lemma {:induction false} OpenSucceeds(l: Job, begins: seq<bool>, base: nat, b: Job, k: Job)
    requires l.dir.Upload? && l.shown == base
    requires l.aio == [] && l.nTransfers == l.nRequests == 0 && l.cursor == 0 && l.sink == []
    requires b == BeginWrites(l, 0, CONCURRENT, begins) && k == b.(stage := READ, state := Transferring)
    ensures Inv(k, base) && k.source == l.source && k.size == l.size
    ensures AllBegin(begins) ==> Skip(k) == 0 && (k.size > 0 ==> k.aio != [])
  {
    FirstWindow(l, begins, b);
    Renamed(b, k);
  }

  lemma {:induction false} OpenKeeps(j: Job, a: Answers, base: nat, k: Job)
    requires Inv(j, base) && j.stage.OPEN? && k == Open(j, a)
    ensures Inv(k, base) && k.stage in {READ, ERR} && k.source == j.source && k.size == j.size
    ensures k.stage.READ? <==> a.remoteOpens && a.localOpens
    ensures k.stage.READ? && AllBegin(a.openBegins) ==> Skip(k) == 0 && (k.size > 0 ==> k.aio != [])
  {
    if a.remoteOpens && a.localOpens {
      var l := Opened(j, a);
      var b := BeginWrites(l, 0, CONCURRENT, a.openBegins);
      OpenSucceeds(l, a.openBegins, base, b, b.(stage := READ, state := Transferring));
    }
  }

  ghost predicate OutcomeInv(o: Outcome, base: nat)
  {
    && Inv(o.entry, base)
    && (o.Left? ==> o.entry.stage in {FINISH, ERR} && (o.entry.state.Finish? <==> o.entry.stage.FINISH?))
  }

  lemma {:induction false} OpenAndReadKeeps(j: Job, a: Answers, base: nat, p: Job, k: Job)
    requires Inv(j, base) && j.stage.OPEN? && p == Open(j, a) && k == (if p.stage.READ? then Read(p, a) else p)
    ensures Inv(k, base) && k.source == j.source && k.size == j.size
  {
    OpenKeeps(j, a, base, p);
    if p.stage.READ? {
      ReadKeeps(p, a, base, k);
    }
  }

  lemma {:induction false} LastVisitsKeep(j: Job, a: Answers, base: nat, o: Outcome)
    requires Inv(j, base) && j.stage in {CLOSE, FINISH, ERR} && o == Step(j, a)
    ensures OutcomeInv(o, base) && o.entry.source == j.source && o.entry.size == j.size
  {
  }

  /** Every visit, whatever its answers, keeps the invariant. */
  lemma {:induction false} StepKeeps(j: Job, a: Answers, base: nat, o: Outcome)
    requires Inv(j, base) && o == Step(j, a)
    ensures OutcomeInv(o, base) && o.entry.source == j.source && o.entry.size == j.size
  {
    if j.stage.OPEN? {
      OpenAndReadKeeps(j, a, base, Open(j, a), o.entry);
    } else if j.stage.READ? {
      ReadKeeps(j, a, base, o.entry);
    } else {
      LastVisitsKeep(j, a, base, o);
    }
  }

  lemma {:induction false} RunKeeps(o: Outcome, visits: seq<Answers>, base: nat, r: Outcome)
    requires OutcomeInv(o, base) && r == Run(o, visits)
    ensures OutcomeInv(r, base) && r.entry.source == o.entry.source && r.entry.size == o.entry.size
    decreases |visits|
  {
    if o.Kept? && visits != [] {
      StepKeeps(o.entry, visits[0], base, Step(o.entry, visits[0]));
      RunKeeps(Step(o.entry, visits[0]), visits[1..], base, r);
    }
  }

  /**
   * Finish is reported only for a file acknowledged in full, never for an empty one; and if the local
   * file is not longer than its noted size, the server has then been given exactly that file, whatever
   * begin calls and waits failed on the way.
   */
  lemma {:induction false} FinishedUpload(size: nat, shown: nat, source: seq<byte>, old_sink: seq<byte>,
                                          visits: seq<Answers>)
    ensures var r := Run(Kept(Started(Upload, size, shown, source, old_sink)), visits);
            Finished(r) ==>
              && r.entry.nTransfers == r.entry.nRequests == size > 0
              && (|source| <= size ==> r.entry.sink == source)
              && r.entry.shown == shown
  {
    var j := Started(Upload, size, shown, source, old_sink);
    RunKeeps(Kept(j), visits, shown, Run(Kept(j), visits));
  }

  // ----- the window -----

  /** The begin calls of a visit succeed; its waits may end in any way. */
  predicate BeginsWell(a: Answers) { AllBegin(a.openBegins) && AllBegin(a.begins) }

  lemma {:induction false} OpenSkipsNothing(j: Job, a: Answers, base: nat, p: Job)
    requires Inv(j, base) && j.stage.OPEN? && BeginsWell(a) && p == Open(j, a)
    ensures Inv(p, base) && p.stage in {READ, ERR} && Skip(p) == 0
  {
    OpenKeeps(j, a, base, p);
  }

  lemma {:induction false} StepSkipsNothing(j: Job, a: Answers, base: nat, o: Outcome)
    requires Inv(j, base) && Skip(j) == 0 && BeginsWell(a) && o == Step(j, a)
    ensures Skip(o.entry) == 0
  {
    if j.stage.OPEN? {
      var p := Open(j, a);
      OpenSkipsNothing(j, a, base, p);
      if p.stage.READ? {
        ReadKeeps(p, a, base, o.entry);
      }
    } else if j.stage.READ? {
      ReadKeeps(j, a, base, o.entry);
    }
  }

  lemma {:induction false} RunSkipsNothing(o: Outcome, visits: seq<Answers>, base: nat, r: Outcome)
    requires OutcomeInv(o, base) && Skip(o.entry) == 0 && r == Run(o, visits)
    requires forall i :: 0 <= i < |visits| ==> BeginsWell(visits[i])
    ensures OutcomeInv(r, base) && Skip(r.entry) == 0
    decreases |visits|
  {
    if o.Kept? && visits != [] {
      var s := Step(o.entry, visits[0]);
      StepKeeps(o.entry, visits[0], base, s);
      StepSkipsNothing(o.entry, visits[0], base, s);
      RunSkipsNothing(s, visits[1..], base, r);
    }
  }

  /**
   * As long as begin calls succeed, however the waits end: acknowledged and outstanding bytes make up those
   * requested, at most five requests of 1 to chunk-size bytes are outstanding, and the server has been
   * given exactly the bytes requested, from the beginning of the local file and in order.
   */
  lemma {:induction false} UploadWindow(size: nat, shown: nat, source: seq<byte>, old_sink: seq<byte>,
                                        visits: seq<Answers>)
    requires size <= |source| && forall i :: 0 <= i < |visits| ==> BeginsWell(visits[i])
    ensures var k := Run(Kept(Started(Upload, size, shown, source, old_sink)), visits).entry;
            k.stage in {READ, CLOSE, FINISH} ==>
              && |k.aio| <= CONCURRENT && k.nTransfers + Sum(k.aio) == k.nRequests <= size
              && k.sink == source[..k.nRequests]
              && forall r | r in k.aio :: 1 <= r.len <= k.chunk
  {
    var j := Started(Upload, size, shown, source, old_sink);
    var r := Run(Kept(j), visits);
    RunSkipsNothing(Kept(j), visits, shown, r);
    RunKeeps(Kept(j), visits, shown, r);
    if r.entry.stage in {READ, CLOSE, FINISH} {
      WindowAddsUp(r.entry);
    }
  }

  // ----- ending -----

  /** An upload that can still end: not empty, the local file long enough, something outstanding. */
  ghost predicate Live(j: Job, base: nat)
  {
    && Inv(j, base) && !j.stage.ERR? && 0 < j.size && Enough(j)
    && (j.stage.READ? ==> j.aio != [])
  }

  predicate FirstDone(waits: seq<Wait>) { waits != [] && waits[0].Done? }

  lemma {:induction false} AwaitAnswered(j: Job, waits: seq<Wait>, k: Job)
    requires Waiting(j) && AllFull(waits) && Least(j) == 1
    requires k == AwaitWrites(j, waits)
    ensures j.aio != [] && FirstDone(waits) ==> j.nTransfers < k.nTransfers
  {
    if j.aio != [] && FirstDone(waits) {
      AckWaiting(j);
      AwaitWritesKeeps(Counted(j, j.aio[0].len), waits[1..], k);
    }
  }

  lemma {:induction false} ReadLive(j: Job, a: Answers, base: nat, k: Job)
    requires Inv(j, base) && j.stage.READ? && 0 < j.size && Enough(j) && Healthy(a)
    requires k == Read(j, a)
    ensures Live(k, base) && k.stage in {READ, CLOSE} && Fuel(k) <= Fuel(j) && Skip(k) == Skip(j)
    ensures k.source == j.source && k.size == j.size
    ensures j.aio != [] && Answered(a) ==> Fuel(k) < Fuel(j)
  {
    var w := AwaitWrites(j, a.waits);
    AwaitWritesKeeps(j, a.waits, w);
    AwaitAnswered(j, a.waits, w);
    LengthsPositive(w.aio, w.nRequests - w.nTransfers, w.chunk);
    ReadKeeps(j, a, base, k);
    if |w.aio| < CONCURRENT {
      BeginWritesKeeps(w, 0, CONCURRENT - |w.aio|, a.begins, k);
    }
  }

  lemma {:induction false} StepLive(j: Job, a: Answers, base: nat, o: Outcome)
    requires Live(j, base) && Healthy(a) && o == Step(j, a)
    ensures o.Kept? ==> Live(o.entry, base) && Fuel(o.entry) <= Fuel(j) && (Answered(a) ==> Fuel(o.entry) < Fuel(j))
    ensures o.Left? ==> Finished(o) && o.entry == Clean(j).(state := Finish) && j.stage.FINISH?
    ensures o.entry.source == j.source && o.entry.size == j.size && Skip(o.entry) == Skip(j)
  {
    if j.stage.OPEN? {
      var p := Open(j, a);
      OpenKeeps(j, a, base, p);
      ReadLive(p, a, base, o.entry);
    } else if j.stage.READ? {
      ReadLive(j, a, base, o.entry);
    }
  }

  /** An upload that has ended well. */
  ghost predicate Complete(o: Outcome)
  {
    Finished(o) && o.entry.size <= |o.entry.source| && o.entry.sink == o.entry.source[..o.entry.size]
  }

  lemma {:induction false} RunCompletes(j: Job, visits: seq<Answers>, base: nat, r: Outcome)
    requires Live(j, base) && AllHealthy(visits) && Fuel(j) <= CountAnswered(visits)
    requires r == Run(Kept(j), visits)
    ensures Finished(r) && (Skip(j) == 0 ==> Complete(r)) && r.entry.source == j.source && r.entry.size == j.size
    decreases |visits|
  {
    assert visits != [];
    var o := Step(j, visits[0]);
    StepLive(j, visits[0], base, o);
    if o.Kept? {
      RunCompletes(o.entry, visits[1..], base, r);
    } else {
      RunEnds(o, visits[1..]);
    }
  }

  /** A finished upload had all of its noted bytes in the local file. */
  lemma {:induction false} FinishedHadBytes(size: nat, shown: nat, source: seq<byte>, old_sink: seq<byte>,
                                            visits: seq<Answers>)
    ensures Finished(Run(Kept(Started(Upload, size, shown, source, old_sink)), visits)) ==> 0 < size <= |source|
  {
    var j := Started(Upload, size, shown, source, old_sink);
    RunKeeps(Kept(j), visits, shown, Run(Kept(j), visits));
  }

  /**
   * The completion test sits inside the loop over acknowledgements, and an empty file has none; and a file
   * that has become shorter never gives the bytes noted.  Once enough visits are answered, and none of
   * them fails, an upload has ended, with the bytes noted delivered, if and only if it was noted with some
   * bytes and the local file still has them.
   */
  lemma {:induction false} UploadCompletesIff(size: nat, shown: nat, source: seq<byte>, old_sink: seq<byte>,
                                              visits: seq<Answers>)
    requires AllHealthy(visits) && size + 4 <= CountAnswered(visits)
    ensures var r := Run(Kept(Started(Upload, size, shown, source, old_sink)), visits);
            && (Finished(r) <==> 0 < size <= |source|)
            && (Finished(r) ==> r.entry.sink == source[..size])
  {
    var j := Started(Upload, size, shown, source, old_sink);
    if 0 < size <= |source| {
      RunCompletes(j, visits, shown, Run(Kept(j), visits));
    } else {
      FinishedHadBytes(size, shown, source, old_sink, visits);
    }
  }

  /**
   * An upload that is empty, or whose local file has become shorter, stays in READ for ever once it is open,
   * shown as Transferring, as long as no wait fails, whatever becomes of its begin calls.
   */
  lemma {:induction false} UploadHangs(j: Job, visits: seq<Answers>, base: nat, r: Outcome)
    requires Inv(j, base) && j.stage in {OPEN, READ} && (j.size == 0 || |j.source| < j.size) && AllResponsive(visits)
    requires r == Run(Kept(j), visits)
    ensures r.Kept? && r.entry.stage in {OPEN, READ}
    ensures r.entry.state == (if visits == [] || j.stage.READ? then j.state else Transferring)
    decreases |visits|
  {
    if visits != [] {
      var a := visits[0];
      var p := if j.stage.OPEN? then Open(j, a) else j;
      if j.stage.OPEN? {
        OpenKeeps(j, a, base, p);
      }
      ReadHangs(p, a, base, Read(p, a));
      UploadHangs(Read(p, a), visits[1..], base, r);
    }
  }

  lemma {:induction false} ReadHangs(j: Job, a: Answers, base: nat, k: Job)
    requires Inv(j, base) && j.stage.READ? && (j.size == 0 || |j.source| < j.size) && AllFull(a.waits)
    requires k == Read(j, a)
    ensures Inv(k, base) && k.stage.READ? && k.state == j.state && k.size == j.size && k.source == j.source
  {
    var w := AwaitWrites(j, a.waits);
    AwaitWritesKeeps(j, a.waits, w);
    ReadKeeps(j, a, base, k);
    if |w.aio| < CONCURRENT {
      BeginWritesKeeps(w, 0, CONCURRENT - |w.aio|, a.begins, k);
    }
  }

  // ----- failed begin calls -----

  ghost predicate CanFinish(j: Job)
  {
    exists visits :: Finished(Run(Kept(j), visits))
  }

  /** An upload whose local file no longer has bytes for all that is still to be sent. */
  ghost predicate Doomed(j: Job, base: nat)
  {
    && Inv(j, base) && j.stage in {READ, ERR}
    && (j.stage.READ? ==> j.size == 0 || !Enough(j))
  }

  /** No visit, whatever fails in it, changes that. */
  lemma {:induction false} ReadDoomed(j: Job, a: Answers, base: nat, k: Job)
    requires Doomed(j, base) && j.stage.READ? && k == Read(j, a)
    ensures Doomed(k, base)
  {
    ReadKeeps(j, a, base, k);
  }

  lemma {:induction false} DoomedForever(o: Outcome, visits: seq<Answers>, base: nat, r: Outcome)
    requires Doomed(o.entry, base) && (o.Left? ==> o.entry.state.Fail?)
    requires r == Run(o, visits)
    ensures Doomed(r.entry, base) && !Finished(r)
    decreases |visits|
  {
    if o.Kept? && visits != [] {
      var s := Step(o.entry, visits[0]);
      StepKeeps(o.entry, visits[0], base, s);
      if o.entry.stage.READ? {
        ReadDoomed(o.entry, visits[0], base, s.entry);
      }
      DoomedForever(s, visits[1..], base, r);
    }
  }

  lemma {:induction false} FinishReachable(j: Job, base: nat) returns (visits: seq<Answers>)
    requires Inv(j, base) && j.stage.READ? && 0 < j.size && Enough(j)
    ensures Finished(Run(Kept(j), visits))
  {
    var a := OneAnswer();
    var k := Read(j, a);
    ReadLive(j, a, base, k);
    var rest := OneAnswers(Fuel(k));
    RunCompletes(k, rest, base, Run(Kept(k), rest));
    visits := [a] + rest;
    assert visits[0] == a && visits[1..] == rest;
    assert Step(j, a) == Kept(k);
  }

  /**
   * An upload in the middle of its transfer, whatever has become of the local file, can still reach Finish
   * if and only if it is not empty and the file holds the noted size and, beyond it, all the bytes that
   * failing begin calls have read and not sent.
   */
  lemma {:induction false} FinishReachableIff(j: Job, base: nat)
    requires Inv(j, base) && j.stage.READ?
    ensures CanFinish(j) <==> 0 < j.size && j.size + Skip(j) <= |j.source|
  {
    if 0 < j.size && Enough(j) {
      var visits := FinishReachable(j, base);
      assert Finished(Run(Kept(j), visits));
    } else {
      forall visits ensures !Finished(Run(Kept(j), visits)) {
        DoomedForever(Kept(j), visits, base, Run(Kept(j), visits));
      }
    }
  }

  /** A first begin call that fails has used up the first chunk of the local file. */
  lemma {:induction false} FirstBeginFails(j: Job, a: Answers, k: Job)
    requires j == Started(Upload, j.size, j.shown, j.source, j.sink) && k == Open(j, a)
    requires a.remoteOpens && a.localOpens && a.openBegins != [] && !a.openBegins[0] && 0 < j.size
    ensures k.stage.READ? && Skip(k) == |NextChunk(Opened(j, a))| && (j.source != [] ==> 0 < Skip(k))
    ensures Inv(k, j.shown) && k.size == j.size && k.source == j.source
  {
    var l := Opened(j, a);
    assert BeginWrites(l, 0, CONCURRENT, a.openBegins) == Skipped(l);
    OpenKeeps(j, a, j.shown, k);
  }

  /**
   * So an upload of a file of the noted length, or a shorter one, whose first begin call fails never
   * finishes, whatever comes after.
   */
  lemma {:induction false} FirstBeginFailureIsFinal(size: nat, shown: nat, source: seq<byte>, old_sink: seq<byte>,
                                                    visits: seq<Answers>)
    requires 0 < |source| <= size && visits != []
    requires var a := visits[0]; a.remoteOpens && a.localOpens && a.openBegins != [] && !a.openBegins[0]
    ensures !Finished(Run(Kept(Started(Upload, size, shown, source, old_sink)), visits))
  {
    var j := Started(Upload, size, shown, source, old_sink);
    var p := Open(j, visits[0]);
    FirstBeginFails(j, visits[0], p);
    ReadDoomed(p, visits[0], shown, Read(p, visits[0]));
    assert Step(j, visits[0]) == Kept(Read(p, visits[0]));
    DoomedForever(Kept(Read(p, visits[0])), visits[1..], shown, Run(Kept(j), visits));
  }
}

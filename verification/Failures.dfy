/** What answers do to a visit, request by request, and how a transfer that fails leaves the list. */
module Failures {
  import opened Survival
  import opened TransferJob
  import opened LifeCycle

  // ----- downloads -----

  /** An answer after which the next request is looked at, and one that ends the transfer. */
  predicate Accepted(w: Wait) { w.Done? && w.stored }
  predicate Fatal(w: Wait) { w.Failed? || (w.Done? && !w.stored) }

  /** The first answer to one of `n` requests that is not accepted is a fatal one. */
  ghost predicate HitsFailure(n: nat, waits: seq<Wait>) { exists k: nat :: FailsAt(n, waits, k) }

  ghost predicate FailsAt(n: nat, waits: seq<Wait>, k: nat)
  {
    k < n && k < |waits| && Fatal(waits[k]) && forall i :: 0 <= i < k ==> Accepted(waits[i])
  }

  lemma {:induction false} HitsFailureStep(n: nat, waits: seq<Wait>)
    requires 0 < n && waits != [] && Accepted(waits[0])
    ensures HitsFailure(n, waits) <==> HitsFailure(n - 1, waits[1..])
  {
    if HitsFailure(n, waits) {
      var k: nat :| FailsAt(n, waits, k);
      assert FailsAt(n - 1, waits[1..], k - 1);
    }
    if HitsFailure(n - 1, waits[1..]) {
      var k: nat :| FailsAt(n - 1, waits[1..], k);
      assert forall i :: 1 <= i < k + 1 ==> waits[i] == waits[1..][i - 1];
      assert FailsAt(n, waits, k + 1);
    }
  }

  lemma {:induction false} HitsFailureNow(n: nat, waits: seq<Wait>)
    requires n == 0 || waits == [] || !Accepted(waits[0])
    ensures HitsFailure(n, waits) <==> 0 < n && waits != [] && Fatal(waits[0])
  {
    if 0 < n && waits != [] && Fatal(waits[0]) {
      assert FailsAt(n, waits, 0);
    }
  }

  lemma {:induction false} AwaitFailsIff(j: Job, waits: seq<Wait>, k: Job)
    requires j.stage in {READ, CLOSE} && k == AwaitReads(j, waits)
    ensures k.stage.ERR? <==> HitsFailure(|j.aio|, waits)
    ensures k.size == j.size && k.dir == j.dir
    decreases |waits|
  {
    if j.aio != [] && waits != [] && Accepted(waits[0]) {
      HitsFailureStep(|j.aio|, waits);
      AwaitFailsIff(Stored(j, waits[0].missing), waits[1..], k);
    } else {
      HitsFailureNow(|j.aio|, waits);
    }
  }

  /**
   * A READ visit of a download ends in CLOSE exactly if the count is complete, and otherwise in ERR exactly
   * if the first answer that is not a stored read is a failed wait or a read that could not be stored.
   */
  lemma {:induction false} DownloadVisitFailsIff(j: Job, a: Answers, k: Job)
    requires j.dir.Download? && j.stage.READ? && k == Read(j, a)
    ensures k.stage in {READ, CLOSE, ERR} && k.size == j.size
    ensures k.nTransfers == k.size ==> k.stage.CLOSE?
    ensures k.stage.ERR? <==> k.nTransfers != k.size && HitsFailure(|j.aio|, a.waits)
  {
    var w := AwaitReads(j, a.waits);
    AwaitFailsIff(j, a.waits, w);
    AwaitReadsFrame(j, a.waits, w);
    if w.size != w.nTransfers && w.aio == [] {
      BeginReadsFrame(w, w.nTransfers, 0, a.begins, k);
    }
  }

  /** Bytes that an answer delivers for a request: what was asked less what is missing, up to the end of the file. */
  function Delivers(source: seq<byte>, r: Request, w: Wait): nat
  {
    if !w.Done? || r.len <= w.missing || |source| <= r.off then 0
    else if r.off + r.len - w.missing <= |source| then r.len - w.missing
    else |source| - r.off
  }

  function DeliversAll(source: seq<byte>, aio: seq<Request>, waits: seq<Wait>, n: nat): nat
    requires n <= |aio| && n <= |waits|
  {
    if n == 0 then 0 else Delivers(source, aio[0], waits[0]) + DeliversAll(source, aio[1..], waits[1..], n - 1)
  }

  /** What an answer puts into the local file: the bytes it delivers, if they are stored. */
  function Appends(source: seq<byte>, r: Request, w: Wait): seq<byte>
  {
    var len := Delivers(source, r, w);
    if 0 < len && w.stored then source[r.off..r.off + len] else []
  }

  function AppendsAll(source: seq<byte>, aio: seq<Request>, waits: seq<Wait>, n: nat): seq<byte>
    requires n <= |aio| && n <= |waits|
  {
    if n == 0 then [] else Appends(source, aio[0], waits[0]) + AppendsAll(source, aio[1..], waits[1..], n - 1)
  }

  lemma {:induction false} AnswerStored(j: Job, w: Wait, s: Job)
    requires j.aio != [] && w.Done? && w.stored && s == Stored(j, w.missing)
    ensures s.aio == j.aio[1..] && s.source == j.source
    ensures s.nTransfers == j.nTransfers + Delivers(j.source, j.aio[0], w)
    ensures var bytes := Appends(j.source, j.aio[0], w); s.sink == j.sink + bytes && s.shown == j.shown + |bytes|
  {
  }

  lemma {:induction false} AnswerLost(j: Job, w: Wait, s: Job)
    requires j.aio != [] && w.Done? && !w.stored && s == Counted(j, Got(j, j.aio[0], w.missing)).(stage := ERR)
    ensures s.aio == j.aio[1..] && s.sink == j.sink && s.shown == j.shown
    ensures s.nTransfers == j.nTransfers + Delivers(j.source, j.aio[0], w)
    ensures Appends(j.source, j.aio[0], w) == []
  {
  }

  /** `n` requests have been answered: all by finished reads, all but the last stored, and then it went no further. */
  ghost predicate TakenUpTo(aio: seq<Request>, waits: seq<Wait>, n: nat)
  {
    && n <= |aio| && n <= |waits|
    && (forall i :: 0 <= i < n ==> waits[i].Done? && (i < n - 1 ==> waits[i].stored))
    && (n == |aio| || n == |waits| || !waits[n].Done? || (0 < n && !waits[n - 1].stored))
  }

  lemma {:induction false} TakenOneMore(aio: seq<Request>, waits: seq<Wait>, m: nat)
    requires aio != [] && waits != [] && Accepted(waits[0]) && TakenUpTo(aio[1..], waits[1..], m)
    ensures TakenUpTo(aio, waits, m + 1)
  {
    forall i | 0 <= i < m + 1 ensures waits[i].Done? && (i < m ==> waits[i].stored) {
      if i > 0 {
        assert waits[i] == waits[1..][i - 1];
      }
    }
  }

  /** `n` answers were taken on the way from `j` to `k`, and what they deliver is counted and appended. */
  ghost predicate Took(j: Job, waits: seq<Wait>, k: Job, n: nat)
  {
    && n <= |j.aio| && n <= |waits| && k.aio == j.aio[n..]
    && k.nTransfers == j.nTransfers + DeliversAll(j.source, j.aio, waits, n)
    && var bytes := AppendsAll(j.source, j.aio, waits, n); k.sink == j.sink + bytes && k.shown == j.shown + |bytes|
  }

  lemma {:induction false} TookNext(j: Job, waits: seq<Wait>, s: Job, k: Job, m: nat)
    requires j.aio != [] && waits != [] && s.aio == j.aio[1..] && s.source == j.source
    requires s.nTransfers == j.nTransfers + Delivers(j.source, j.aio[0], waits[0])
    requires var bytes := Appends(j.source, j.aio[0], waits[0]);
             s.sink == j.sink + bytes && s.shown == j.shown + |bytes|
    requires Took(s, waits[1..], k, m)
    ensures Took(j, waits, k, m + 1)
  {
    hide Appends, Delivers;
    var a, b := Appends(j.source, j.aio[0], waits[0]), AppendsAll(j.source, j.aio[1..], waits[1..], m);
    assert j.sink + a + b == j.sink + (a + b);
  }

  lemma {:induction false} TookNothing(j: Job, waits: seq<Wait>)
    ensures Took(j, waits, j, 0) && Took(j, waits, j.(stage := ERR), 0)
  {
    assert j.aio[0..] == j.aio && j.sink + [] == j.sink;
  }

  /**
   * The answers are for the oldest requests in order; those answered leave the queue, what they deliver is
   * counted, stored or not, and what is stored is appended to the local file and to the size shown.
   */
  lemma {:induction false} ReadsTaken(j: Job, waits: seq<Wait>, k: Job) returns (n: nat)
    requires k == AwaitReads(j, waits)
    ensures TakenUpTo(j.aio, waits, n) && Took(j, waits, k, n)
    decreases |waits|
  {
    hide Took, Stored, Counted;
    n := 0;
    if j.aio == [] || waits == [] || !waits[0].Done? {
      TookNothing(j, waits);
    } else if waits[0].stored {
      var s := Stored(j, waits[0].missing);
      AnswerStored(j, waits[0], s);
      var m := ReadsTaken(s, waits[1..], k);
      n := m + 1;
      TakenOneMore(j.aio, waits, m);
      TookNext(j, waits, s, k, m);
    } else {
      n := 1;
      AnswerLost(j, waits[0], k);
      TookLost(j, waits, k);
    }
  }

  lemma {:induction false} TookLost(j: Job, waits: seq<Wait>, k: Job)
    requires j.aio != [] && waits != [] && k.aio == j.aio[1..] && k.sink == j.sink && k.shown == j.shown
    requires k.nTransfers == j.nTransfers + Delivers(j.source, j.aio[0], waits[0])
    requires Appends(j.source, j.aio[0], waits[0]) == []
    ensures Took(j, waits, k, 1)
  {
  }

  // ----- uploads -----

  /** The first answer to one of `n` requests that is not an acknowledgement is a failed wait. */
  ghost predicate HitsFailedAck(n: nat, waits: seq<Wait>) { exists k: nat :: FailsAckAt(n, waits, k) }

  ghost predicate FailsAckAt(n: nat, waits: seq<Wait>, k: nat)
  {
    k < n && k < |waits| && waits[k].Failed? && forall i :: 0 <= i < k ==> waits[i].Done?
  }

  lemma {:induction false} HitsFailedAckStep(n: nat, waits: seq<Wait>)
    requires 0 < n && waits != [] && waits[0].Done?
    ensures HitsFailedAck(n, waits) <==> HitsFailedAck(n - 1, waits[1..])
  {
    if HitsFailedAck(n, waits) {
      var k: nat :| FailsAckAt(n, waits, k);
      assert FailsAckAt(n - 1, waits[1..], k - 1);
    }
    if HitsFailedAck(n - 1, waits[1..]) {
      var k: nat :| FailsAckAt(n - 1, waits[1..], k);
      assert forall i :: 1 <= i < k + 1 ==> waits[i] == waits[1..][i - 1];
      assert FailsAckAt(n, waits, k + 1);
    }
  }

  lemma {:induction false} HitsFailedAckNow(n: nat, waits: seq<Wait>)
    requires n == 0 || waits == [] || !waits[0].Done?
    ensures HitsFailedAck(n, waits) <==> 0 < n && waits != [] && waits[0].Failed?
  {
    if 0 < n && waits != [] && waits[0].Failed? {
      assert FailsAckAt(n, waits, 0);
    }
  }

  lemma {:induction false} AckFailsIff(j: Job, waits: seq<Wait>, k: Job)
    requires j.stage in {READ, CLOSE} && k == AwaitWrites(j, waits)
    ensures k.stage.ERR? <==> HitsFailedAck(|j.aio|, waits)
    decreases |waits|
  {
    if j.aio != [] && waits != [] && waits[0].Done? {
      HitsFailedAckStep(|j.aio|, waits);
      AckFailsIff(Counted(j, j.aio[0].len), waits[1..], k);
    } else {
      HitsFailedAckNow(|j.aio|, waits);
    }
  }

  /**
   * A READ visit of an upload ends in ERR exactly if the first answer that is not an acknowledgement is a
   * failed wait, whatever has been counted.
   */
  lemma {:induction false} UploadVisitFailsIff(j: Job, a: Answers, k: Job)
    requires j.dir.Upload? && j.stage.READ? && k == Read(j, a)
    ensures k.stage in {READ, CLOSE, ERR}
    ensures k.stage.ERR? <==> HitsFailedAck(|j.aio|, a.waits)
  {
    var w := AwaitWrites(j, a.waits);
    AckFailsIff(j, a.waits, w);
    AwaitWritesFrame(j, a.waits, w);
    if |w.aio| < CONCURRENT {
      BeginWritesFrame(w, 0, CONCURRENT - |w.aio|, a.begins, k);
    }
  }

  /** Acknowledgements are for the oldest requests in order, and count those requests in full. */
  lemma {:induction false} AcksTaken(j: Job, waits: seq<Wait>, k: Job) returns (n: nat)
    requires k == AwaitWrites(j, waits)
    ensures n <= |j.aio| && n <= |waits| && forall i :: 0 <= i < n ==> waits[i].Done?
    ensures n == |j.aio| || n == |waits| || !waits[n].Done?
    ensures k.aio == j.aio[n..] && k.nTransfers == j.nTransfers + Sum(j.aio[..n])
    decreases |waits|
  {
    n := 0;
    if j.aio != [] && waits != [] && waits[0].Done? {
      var m := AcksTaken(Counted(j, j.aio[0].len), waits[1..], k);
      n := m + 1;
      assert j.aio[..n][1..] == j.aio[1..][..m];
      assert forall i :: 1 <= i < |waits| ==> waits[i] == waits[1..][i - 1];
    }
  }

  // ----- leaving -----

  /** An entry in ERR is taken off by its next visit, with Fail shown and what it held closed. */
  lemma {:induction false} ErrorLeaves(j: Job, visits: seq<Answers>, r: Outcome)
    requires Related(j) && j.stage.ERR? && visits != [] && r == Run(Kept(j), visits)
    ensures r.Left? && r.entry.state.Fail? && Balanced(r.entry)
    ensures r.entry.sink == j.sink && r.entry.nTransfers == j.nTransfers
  {
    var o := Step(j, visits[0]);
    CleanBalances(j);
    assert Run(o, visits[1..]) == o;
  }

  /** What makes a READ visit fail, for a download of which the visit does not complete the count, and for an upload. */
  ghost predicate VisitFails(j: Job, a: Answers)
  {
    if j.dir.Download? then HitsFailure(|j.aio|, a.waits) && Read(j, a).nTransfers != j.size
    else HitsFailedAck(|j.aio|, a.waits)
  }

  /**
   * Whatever the later answers, a transfer whose visit fails is off the list one visit later, shown as
   * failed, with every handle it opened closed once.
   */
  lemma {:induction false} FailedVisitLeaves(j: Job, visits: seq<Answers>, r: Outcome)
    requires Related(j) && j.stage.READ? && 2 <= |visits| && VisitFails(j, visits[0])
    requires r == Run(Kept(j), visits)
    ensures r.Left? && r.entry.state.Fail? && Balanced(r.entry)
  {
    var k := Read(j, visits[0]);
    ReadRelated(j, visits[0], k);
    if j.dir.Download? {
      DownloadVisitFailsIff(j, visits[0], k);
    } else {
      UploadVisitFailsIff(j, visits[0], k);
    }
    assert Step(j, visits[0]) == Kept(k);
    ErrorLeaves(k, visits[1..], r);
  }

  /**
   * So is one whose files do not both open, from its start; nothing is changed, but that a remote file which
   * was opened for an upload is empty.
   */
  lemma {:induction false} FailedOpenLeaves(dir: Direction, size: nat, shown: nat, source: seq<byte>, sink: seq<byte>,
                                            visits: seq<Answers>)
    requires 2 <= |visits| && !(visits[0].remoteOpens && visits[0].localOpens)
    ensures var r := Run(Kept(Started(dir, size, shown, source, sink)), visits);
            && r.Left? && r.entry.state.Fail? && r.entry.nTransfers == 0
            && r.entry.sink == (if visits[0].remoteOpens && dir.Upload? then [] else sink) && r.entry.shown == shown
            && r.entry.calls == if visits[0].remoteOpens then [OpenRemote, CloseRemote] else []
  {
    var j := Started(dir, size, shown, source, sink);
    var k := Open(j, visits[0]);
    assert Step(j, visits[0]) == Kept(k);
    var o := Step(k, visits[1]);
    assert o.entry.calls == if visits[0].remoteOpens then [OpenRemote, CloseRemote] else [];
    assert Run(Kept(k), visits[1..]) == Run(o, visits[1..][1..]) == o;
  }
}

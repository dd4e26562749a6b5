/** Transfers of files of equal lengths and different bytes: with the same answers they go the same way. */
module TwinTransfers {
  import opened Survival
  import opened TransferJob
  import opened Wrappers

  /** Zeros up to the noted size and ones beyond it. */
  function Marked(size: nat, n: nat): (content: seq<byte>)
    requires size <= n
    ensures |content| == n && forall i :: 0 <= i < n ==> content[i] == if i < size then 0 else 1
  {
    seq(n, i => if i < size then 0 else 1)
  }

  /** Two transfers that differ in nothing but the bytes of their files. */
  ghost predicate Twins(j: Job, k: Job)
  {
    && |k.source| == |j.source| && |k.sink| == |j.sink|
    && k == j.(source := k.source, sink := k.sink)
  }

  lemma {:induction false} TwinsBegin(j: Job, k: Job, asked: nat, i: nat, begins: seq<bool>, p: Job, q: Job)
    requires Twins(j, k) && p == BeginReads(j, asked, i, begins) && q == BeginReads(k, asked, i, begins)
    ensures Twins(p, q)
    decreases CONCURRENT - i
  {
    if i < CONCURRENT && asked < j.size && Begins(begins, i) {
      var len := Min(j.size - asked, j.chunk);
      TwinsBegin(Queued(j, len), Queued(k, len), asked + len, i + 1, begins, p, q);
    }
  }

  lemma {:induction false} TwinsStored(j: Job, k: Job, missing: nat)
    requires Twins(j, k) && j.aio != []
    ensures Got(j, j.aio[0], missing) == Got(k, k.aio[0], missing)
    ensures Twins(Stored(j, missing), Stored(k, missing))
  {
  }

  lemma {:induction false} TwinsAwait(j: Job, k: Job, waits: seq<Wait>, p: Job, q: Job)
    requires Twins(j, k) && p == AwaitReads(j, waits) && q == AwaitReads(k, waits)
    ensures Twins(p, q)
    decreases |waits|
  {
    if j.aio != [] && waits != [] && waits[0].Done? {
      TwinsStored(j, k, waits[0].missing);
      if waits[0].stored {
        TwinsAwait(Stored(j, waits[0].missing), Stored(k, waits[0].missing), waits[1..], p, q);
      }
    }
  }

  lemma {:induction false} TwinsSent(j: Job, k: Job)
    requires Twins(j, k) && j.nRequests < j.size
    ensures Twins(Sent(j), Sent(k)) && Twins(Skipped(j), Skipped(k))
  {
  }

  lemma {:induction false} TwinsBeginWrites(j: Job, k: Job, i: nat, n: nat, begins: seq<bool>, p: Job, q: Job)
    requires Twins(j, k) && p == BeginWrites(j, i, n, begins) && q == BeginWrites(k, i, n, begins)
    ensures Twins(p, q)
    decreases n - i
  {
    if i < n && j.nRequests < j.size {
      TwinsSent(j, k);
      if Begins(begins, i) {
        TwinsBeginWrites(Sent(j), Sent(k), i + 1, n, begins, p, q);
      }
    }
  }

  lemma {:induction false} TwinsAwaitWrites(j: Job, k: Job, waits: seq<Wait>, p: Job, q: Job)
    requires Twins(j, k) && p == AwaitWrites(j, waits) && q == AwaitWrites(k, waits)
    ensures Twins(p, q)
    decreases |waits|
  {
    if j.aio != [] && waits != [] && waits[0].Done? {
      TwinsAwaitWrites(Counted(j, j.aio[0].len), Counted(k, k.aio[0].len), waits[1..], p, q);
    }
  }

  lemma {:induction false} TwinsReadDownload(j: Job, k: Job, a: Answers, p: Job, q: Job)
    requires Twins(j, k) && p == ReadDownload(j, a) && q == ReadDownload(k, a)
    ensures Twins(p, q)
  {
    var v, w := AwaitReads(j, a.waits), AwaitReads(k, a.waits);
    TwinsAwait(j, k, a.waits, v, w);
    if v.size != v.nTransfers && v.aio == [] {
      TwinsBegin(v, w, v.nTransfers, 0, a.begins, p, q);
    }
  }

  lemma {:induction false} TwinsReadUpload(j: Job, k: Job, a: Answers, p: Job, q: Job)
    requires Twins(j, k) && p == ReadUpload(j, a) && q == ReadUpload(k, a)
    ensures Twins(p, q)
  {
    var v, w := AwaitWrites(j, a.waits), AwaitWrites(k, a.waits);
    TwinsAwaitWrites(j, k, a.waits, v, w);
    if |v.aio| < CONCURRENT {
      TwinsBeginWrites(v, w, 0, CONCURRENT - |v.aio|, a.begins, p, q);
    }
  }

  lemma {:induction false} TwinsRead(j: Job, k: Job, a: Answers, p: Job, q: Job)
    requires Twins(j, k) && p == Read(j, a) && q == Read(k, a)
    ensures Twins(p, q)
  {
    if j.dir.Download? {
      TwinsReadDownload(j, k, a, p, q);
    } else {
      TwinsReadUpload(j, k, a, p, q);
    }
  }

  lemma {:induction false} TwinsOpened(j: Job, k: Job, a: Answers, p: Job, q: Job)
    requires Twins(j, k) && a.remoteOpens && a.localOpens && p == Open(j, a) && q == Open(k, a)
    ensures Twins(p, q)
  {
    var v, w := Opened(j, a), Opened(k, a);
    if j.dir.Download? {
      TwinsBegin(v, w, 0, 0, a.openBegins, BeginReads(v, 0, 0, a.openBegins), BeginReads(w, 0, 0, a.openBegins));
    } else {
      TwinsBeginWrites(v, w, 0, CONCURRENT, a.openBegins,
                       BeginWrites(v, 0, CONCURRENT, a.openBegins), BeginWrites(w, 0, CONCURRENT, a.openBegins));
    }
  }

  lemma {:induction false} TwinsOpen(j: Job, k: Job, a: Answers, p: Job, q: Job)
    requires Twins(j, k) && p == Open(j, a) && q == Open(k, a)
    ensures Twins(p, q)
  {
    if a.remoteOpens && a.localOpens {
      TwinsOpened(j, k, a, p, q);
    }
  }

  lemma {:induction false} TwinsStep(j: Job, k: Job, a: Answers, p: Outcome, q: Outcome)
    requires Twins(j, k) && p == Step(j, a) && q == Step(k, a)
    ensures Twins(p.entry, q.entry) && p.Kept? == q.Kept?
  {
    if j.stage.OPEN? {
      var v, w := Open(j, a), Open(k, a);
      TwinsOpen(j, k, a, v, w);
      if v.stage.READ? {
        TwinsRead(v, w, a, p.entry, q.entry);
      }
    } else if j.stage.READ? {
      TwinsRead(j, k, a, p.entry, q.entry);
    }
  }

  lemma {:induction false} TwinsRun(o: Outcome, u: Outcome, visits: seq<Answers>, r: Outcome, t: Outcome)
    requires Twins(o.entry, u.entry) && o.Kept? == u.Kept?
    requires r == Run(o, visits) && t == Run(u, visits)
    ensures Twins(r.entry, t.entry) && r.Kept? == t.Kept?
    decreases |visits|
  {
    if o.Kept? && visits != [] {
      var p, q := Step(o.entry, visits[0]), Step(u.entry, visits[0]);
      TwinsStep(o.entry, u.entry, visits[0], p, q);
      TwinsRun(p, q, visits[1..], r, t);
    }
  }
}

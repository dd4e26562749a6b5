/** Which bytes a batch of reads asks for and a window of writes carries: as many as are allowed, in order. */
module Requests {
  import opened Survival
  import opened TransferJob
  import opened LifeCycle
  import opened Wrappers

  predicate Smallest(n: int, a: int, b: int, c: int)
  {
    n <= a && n <= b && n <= c && (n == a || n == b || n == c)
  }

  /**
   * Requests for consecutive bytes from `from` on, of which `left` are to be asked for and the first `there` can
   * be had; each covers the most that the chunk size, what is left and what is there allow.
   */
  ghost predicate Batch(added: seq<Request>, from: nat, left: int, there: int, chunk: nat)
  {
    added == [] ||
    var r := added[0];
    && r.off == from && 0 < left && Smallest(r.len, chunk, left, there)
    && Batch(added[1..], from + r.len, left - r.len, there - r.len, chunk)
  }

  lemma {:induction false} BatchCons(r: Request, rest: seq<Request>, left: int, there: int, chunk: nat)
    requires 0 < left && Smallest(r.len, chunk, left, there)
    requires Batch(rest, r.off + r.len, left - r.len, there - r.len, chunk)
    ensures Batch([r] + rest, r.off, left, there, chunk) && Sum([r] + rest) == r.len + Sum(rest)
  {
    assert ([r] + rest)[1..] == rest;
  }

  /** `n` begin calls succeeded from the i-th on, and it ended for one of the three reasons there are. */
  ghost predicate Begun(begins: seq<bool>, i: nat, n: nat, most: int, complete: bool)
  {
    && n <= most && (forall m :: i <= m < i + n ==> Begins(begins, m))
    && (n == most || complete || !Begins(begins, i + n))
  }

  lemma {:induction false} BegunCons(begins: seq<bool>, i: nat, n: nat, most: int, complete: bool)
    requires Begins(begins, i) && Begun(begins, i + 1, n, most - 1, complete)
    ensures Begun(begins, i, n + 1, most, complete)
  {
  }

  lemma {:induction false} NothingAdded(begins: seq<bool>, i: nat, most: nat, from: nat, left: int, there: int,
                                        chunk: nat)
    requires most == 0 || left <= 0 || !Begins(begins, i)
    ensures Begun(begins, i, 0, most, left <= 0) && Batch([], from, left, there, chunk)
  {
  }

  /** `added` is what the queue gained on the way from `j` to `k`, `asked` bytes having been asked for before. */
  ghost predicate Asked(j: Job, asked: nat, i: nat, begins: seq<bool>, k: Job, added: seq<Request>)
  {
    && k.aio == j.aio + added && k.cursor == j.cursor + Sum(added)
    && Batch(added, j.cursor, j.size - asked, j.size - asked, j.chunk)
    && Begun(begins, i, |added|, CONCURRENT - i, j.size <= asked + Sum(added))
  }

  lemma {:induction false} AskedNothing(j: Job, asked: nat, i: nat, begins: seq<bool>)
    requires i <= CONCURRENT && (i == CONCURRENT || j.size <= asked || !Begins(begins, i))
    ensures Asked(j, asked, i, begins, j, [])
  {
    NothingAdded(begins, i, CONCURRENT - i, j.cursor, j.size - asked, j.size - asked, j.chunk);
    assert j.aio + [] == j.aio;
  }

  lemma {:induction false} AskedMore(j: Job, asked: nat, i: nat, begins: seq<bool>, len: nat, q: Job, k: Job,
                                     rest: seq<Request>)
    requires q == Queued(j, len) && Begins(begins, i) && asked < j.size
    requires Smallest(len, j.chunk, j.size - asked, j.size - asked)
    requires Asked(q, asked + len, i + 1, begins, k, rest)
    ensures Asked(j, asked, i, begins, k, [Request(j.cursor, len)] + rest)
  {
    hide Begun, Batch;
    var added := [Request(j.cursor, len)] + rest;
    BatchCons(Request(j.cursor, len), rest, j.size - asked, j.size - asked, j.chunk);
    BegunCons(begins, i, |rest|, CONCURRENT - i, j.size <= asked + Sum(added));
    assert j.aio + added == q.aio + rest;
  }

  /** Queueing reads asks for the most that is allowed. */
  lemma {:induction false} ReadsQueued(j: Job, asked: nat, i: nat, begins: seq<bool>, k: Job)
    returns (added: seq<Request>)
    requires i <= CONCURRENT && k == BeginReads(j, asked, i, begins)
    ensures Asked(j, asked, i, begins, k, added)
    decreases CONCURRENT - i
  {
    hide Asked, Begins, BeginReads;
    if i < CONCURRENT && asked < j.size && Begins(begins, i) {
      var len := Min(j.size - asked, j.chunk);
      OneMoreRead(j, asked, i, begins, len);
      var rest := ReadsQueued(Queued(j, len), asked + len, i + 1, begins, k);
      AskedMore(j, asked, i, begins, len, Queued(j, len), k, rest);
      added := [Request(j.cursor, len)] + rest;
    } else {
      NoMoreReads(j, asked, i, begins);
      AskedNothing(j, asked, i, begins);
      added := [];
    }
  }

  /** A chunk is the next piece of the local file, as long as the server, the size and the file allow. */
  lemma {:induction false} ChunkIsLargest(j: Job, data: seq<byte>)
    requires j.nRequests < j.size && j.cursor <= |j.source| && data == NextChunk(j)
    ensures Smallest(|data|, j.chunk, j.size - j.nRequests, |j.source| - j.cursor)
    ensures data == j.source[j.cursor..j.cursor + |data|]
  {
  }

  /** Likewise for the window; the last chunk is `lost` if it was read and the begin call failed. */
  ghost predicate Handed(j: Job, i: nat, n: nat, begins: seq<bool>, k: Job, added: seq<Request>, lost: nat)
  {
    && k.aio == j.aio + added && k.nRequests == j.nRequests + Sum(added)
    && k.cursor == j.cursor + Sum(added) + lost <= |j.source|
    && k.sink == j.sink + j.source[j.cursor..j.cursor + Sum(added)]
    && Batch(added, j.cursor, j.size - j.nRequests, |j.source| - j.cursor, j.chunk)
    && Begun(begins, i, |added|, n - i, j.size <= k.nRequests)
    && if |added| < n - i && k.nRequests < j.size
       then Smallest(lost, j.chunk, j.size - k.nRequests, |j.source| - j.cursor - Sum(added))
       else lost == 0
  }

  lemma {:induction false} HandedNothing(j: Job, i: nat, n: nat, begins: seq<bool>, k: Job, lost: nat)
    requires j.cursor <= |j.source| && i <= n
    requires if i < n && j.nRequests < j.size then !Begins(begins, i) && k == Skipped(j) && lost == |NextChunk(j)|
             else k == j && lost == 0
    ensures Handed(j, i, n, begins, k, [], lost)
  {
    NothingAdded(begins, i, n - i, j.cursor, j.size - j.nRequests, |j.source| - j.cursor, j.chunk);
    assert j.aio + [] == j.aio && j.sink + j.source[j.cursor..j.cursor] == j.sink;
    if i < n && j.nRequests < j.size {
      ChunkIsLargest(j, NextChunk(j));
    }
  }

  lemma {:induction false} HandedMore(j: Job, i: nat, n: nat, begins: seq<bool>, s: Job, k: Job, rest: seq<Request>,
                                      lost: nat)
    requires j.nRequests < j.size && j.cursor <= |j.source| && i < n && s == Sent(j) && Begins(begins, i)
    requires Handed(s, i + 1, n, begins, k, rest, lost)
    ensures Handed(j, i, n, begins, k, [Request(j.cursor, |NextChunk(j)|)] + rest, lost)
  {
    hide Begun, Batch, NextChunk, Sum, Smallest;
    var data := NextChunk(j);
    var added := [Request(j.cursor, |data|)] + rest;
    ChunkIsLargest(j, data);
    BatchCons(Request(j.cursor, |data|), rest, j.size - j.nRequests, |j.source| - j.cursor, j.chunk);
    BegunCons(begins, i, |rest|, n - i, j.size <= k.nRequests);
    assert j.aio + added == s.aio + rest;
    assert data + j.source[s.cursor..s.cursor + Sum(rest)] == j.source[j.cursor..j.cursor + Sum(added)];
  }

  /** Sending carries the most that is allowed, and hands over exactly the bytes of its requests. */
  lemma {:induction false} WritesQueued(j: Job, i: nat, n: nat, begins: seq<bool>, k: Job)
    returns (added: seq<Request>, lost: nat)
    requires i <= n && j.cursor <= |j.source| && k == BeginWrites(j, i, n, begins)
    ensures Handed(j, i, n, begins, k, added, lost)
    decreases n - i
  {
    hide Handed, Begins;
    if i < n && j.nRequests < j.size && Begins(begins, i) {
      var rest;
      ChunkIsLargest(j, NextChunk(j));
      rest, lost := WritesQueued(Sent(j), i + 1, n, begins, k);
      HandedMore(j, i, n, begins, Sent(j), k, rest, lost);
      added := [Request(j.cursor, |NextChunk(j)|)] + rest;
    } else {
      added, lost := [], if i < n && j.nRequests < j.size then |NextChunk(j)| else 0;
      HandedNothing(j, i, n, begins, k, lost);
    }
  }

  /**
   * A transfer starts with the limit of the server if there is one, for either direction, and fills its queue: up
   * to five requests, from the beginning of the file.
   */
  lemma {:induction false} FirstQueue(j: Job, a: Answers, k: Job)
    requires j.stage.OPEN? && j.aio == [] && j.nRequests == 0 && j.cursor == 0
    requires a.remoteOpens && a.localOpens && k == Open(j, a)
    ensures k.stage.READ? && k.state.Transferring? && k.nTransfers == j.nTransfers && k.shown == j.shown
    ensures a.limit.Some? ==> k.chunk == a.limit.value
    ensures a.limit.None? ==> k.chunk == j.chunk
    ensures Batch(k.aio, 0, j.size, if j.dir.Download? then j.size else |j.source|, k.chunk)
    ensures Begun(a.openBegins, 0, |k.aio|, 5, j.size <= Sum(k.aio))
    ensures if j.dir.Download? then k.sink == [] else Sum(k.aio) <= |j.source| && k.sink == j.source[..Sum(k.aio)]
  {
    hide Batch, Begun, BeginReads, BeginWrites;
    var l := Opened(j, a);
    if j.dir.Download? {
      BeginReadsFrame(l, 0, 0, a.openBegins, BeginReads(l, 0, 0, a.openBegins));
      var added := ReadsQueued(l, 0, 0, a.openBegins, BeginReads(l, 0, 0, a.openBegins));
      assert k.aio == added;
    } else {
      var b := BeginWrites(l, 0, CONCURRENT, a.openBegins);
      BeginWritesFrame(l, 0, CONCURRENT, a.openBegins, b);
      var added, lost := WritesQueued(l, 0, CONCURRENT, a.openBegins, b);
      assert k.aio == added;
    }
  }

  /**
   * A visit of a download that has been given all it asked for, and not everything there is, asks for the next
   * batch; as long as something is awaited it asks for nothing.
   */
  lemma {:induction false} NextBatch(j: Job, a: Answers, k: Job) returns (added: seq<Request>)
    requires j.dir.Download? && k == Read(j, a) && k.nTransfers != k.size
    ensures k.aio == AwaitReads(j, a.waits).aio + added && k.cursor == j.cursor + Sum(added)
    ensures AwaitReads(j, a.waits).aio != [] ==> added == []
    ensures AwaitReads(j, a.waits).aio == [] ==>
              && Batch(added, j.cursor, j.size - k.nTransfers, j.size - k.nTransfers, j.chunk)
              && Begun(a.begins, 0, |added|, 5, j.size <= k.nTransfers + Sum(added))
  {
    var w := AwaitReads(j, a.waits);
    AwaitReadsFrame(j, a.waits, w);
    hide Batch, Begun, BeginReads, AwaitReads;
    added := [];
    if w.size != w.nTransfers && w.aio == [] {
      BeginReadsFrame(w, w.nTransfers, 0, a.begins, k);
      added := ReadsQueued(w, w.nTransfers, 0, a.begins, k);
    }
  }

  /** A visit of an upload fills the window up to five requests again, unless the file has been handed over. */
  lemma {:induction false} NextWindow(j: Job, a: Answers, k: Job) returns (added: seq<Request>)
    requires j.dir.Upload? && j.cursor <= |j.source| && k == Read(j, a)
    ensures k.aio == AwaitWrites(j, a.waits).aio + added && k.nRequests == j.nRequests + Sum(added)
    ensures j.cursor + Sum(added) <= k.cursor <= |j.source|
    ensures k.sink == j.sink + j.source[j.cursor..j.cursor + Sum(added)]
    ensures |AwaitWrites(j, a.waits).aio| >= 5 ==> added == []
    ensures |AwaitWrites(j, a.waits).aio| < 5 ==>
              && Batch(added, j.cursor, j.size - j.nRequests, |j.source| - j.cursor, j.chunk)
              && Begun(a.begins, 0, |added|, 5 - |AwaitWrites(j, a.waits).aio|, j.size <= k.nRequests)
  {
    hide Batch, Begun, BeginWrites, AwaitWrites, Sum;
    var w := AwaitWrites(j, a.waits);
    AwaitWritesFrame(j, a.waits, w);
    if |w.aio| < CONCURRENT {
      var lost;
      added, lost := WritesQueued(w, 0, CONCURRENT - |w.aio|, a.begins, k);
    } else {
      added := [];
      SumNothing();
      assert k == w;
    }
  }

  lemma {:induction false} SumNothing()
    ensures Sum([]) == 0
  {
  }
}

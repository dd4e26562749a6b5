/**
 * One entry of the transfer list of CChannelSFTP: what a single visit of
 * AsyncFile does to it, as a function of the entry and of the answers that
 * libssh and the local file system give during that visit.
 */
module TransferJob {
  import opened Survival
  import opened Wrappers

  newtype byte = x: int | 0 <= x < 256

  /** A size limit reported by the server; libssh never reports zero. */
  type Length = n: nat | 0 < n witness 1

  datatype Direction = Upload | Download

  /** CFileTransfer::State, the state both threads see. */
  datatype State = No | Opening | Transferring | Closing | Stop | Finish | Fail {
    predicate Process() { Opening? || Transferring? || Closing? }
    predicate CanStart() { No? || Stop? || Fail? }
  }

  /** CChannelSFTP::STATE, the state only the channel sees. */
  datatype Stage = OPEN | READ | CLOSE | FINISH | ERR

  /** An outstanding request: the first byte it covers and how many. */
  datatype Request = Request(off: nat, len: nat)

  /** The calls that take and give back handles, in the order they happen. */
  datatype Call = OpenRemote | OpenLocal | CloseRemote | CloseLocal

  /**
   * How waiting for the oldest request ends.  A finished read may be `missing`
   * bytes of what was asked; `stored` says whether the local write worked.
   * For a finished write only the fact that it finished matters.
   */
  datatype Wait = Again | Failed | Done(missing: nat, stored: bool)

  /** Everything the outside world decides during one visit of one entry. */
  datatype Answers = Answers(
    remoteOpens: bool, localOpens: bool, limit: Option<Length>,
    openBegins: seq<bool>, waits: seq<Wait>, begins: seq<bool>)

  /**
   * An entry of m_vFiles together with the transfer it belongs to and the two
   * files it connects.  `source` is the file being read and `sink` the one being
   * written; `cursor` is the offset of the next byte taken from `source`.
   */
  datatype Job = Job(
    dir: Direction, size: nat, state: State, shown: nat,
    stage: Stage, remoteHeld: bool, localHeld: bool, chunk: Length,
    aio: seq<Request>, nRequests: nat, nTransfers: nat,
    source: seq<byte>, sink: seq<byte>, cursor: nat, calls: seq<Call>)

  /** The entry stays in the list, or has been erased from it. */
  type Outcome = Visit<Job>

  const BUF_SIZE: Length := 4096
  const CONCURRENT: nat := 5

  /** Bytes that `want` bytes from offset `off` of a file really yield. */
  function Avail(file: seq<byte>, off: nat, want: nat): (n: nat)
    ensures n <= want && (0 < n ==> off + n <= |file|)
    ensures off + want <= |file| ==> n == want
  {
    if |file| <= off then 0 else Min(want, |file| - off)
  }

  function Slice(file: seq<byte>, off: nat, want: nat): (s: seq<byte>)
    ensures |s| == Avail(file, off, want)
  {
    var n := Avail(file, off, want);
    if n == 0 then [] else file[off..off + n]
  }

  /** Whether the i-th begin call of a loop succeeds. */
  predicate Begins(begins: seq<bool>, i: nat) { i < |begins| ==> begins[i] }

  function Sum(aio: seq<Request>): nat
  {
    if aio == [] then 0 else aio[0].len + Sum(aio[1..])
  }

  /** The entry that slotStartFileTransfer appends. */
  function Started(dir: Direction, size: nat, shown: nat, source: seq<byte>, sink: seq<byte>): Job
  {
    Job(dir, size, Opening, shown, OPEN, false, false, BUF_SIZE, [], 0, 0, source, sink, 0, [])
  }

  // ----- download -----

  /** The entry after one more read of `len` bytes has been queued. */
  function Queued(j: Job, len: nat): Job
  {
    j.(aio := j.aio + [Request(j.cursor, len)], cursor := j.cursor + len)
  }

  /** Lines 593-614 and 727-756: queue a batch of reads, `asked` bytes being already asked for. */
  function BeginReads(j: Job, asked: nat, i: nat, begins: seq<bool>): Job
    decreases CONCURRENT - i
  {
    if i >= CONCURRENT || asked >= j.size || !Begins(begins, i) then j
    else
      var len := Min(j.size - asked, j.chunk);
      BeginReads(Queued(j, len), asked + len, i + 1, begins)
  }

  /** Bytes a finished read of `r` delivers. */
  function Got(j: Job, r: Request, missing: nat): (n: nat)
    ensures n <= r.len && (0 < n ==> r.off + n <= |j.source|)
  {
    Avail(j.source, r.off, r.len - Min(missing, r.len))
  }

  /** The bookkeeping of lines 701-705: count the bytes, notice the end, drop the request. */
  function Counted(j: Job, n: nat): Job
    requires j.aio != []
  {
    j.(nTransfers := j.nTransfers + n,
       aio := j.aio[1..],
       stage := if j.size == j.nTransfers + n then CLOSE else j.stage)
  }

  /** Lines 701-718: one finished read whose bytes were written to the local file. */
  function Stored(j: Job, missing: nat): Job
    requires j.aio != []
  {
    var n := Got(j, j.aio[0], missing);
    Counted(j, n).(sink := j.sink + Slice(j.source, j.aio[0].off, n), shown := j.shown + n)
  }

  /** Lines 682-719: take answers for the oldest reads until one is not ready. */
  function AwaitReads(j: Job, waits: seq<Wait>): Job
    decreases |waits|
  {
    if j.aio == [] || waits == [] || waits[0].Again? then j
    else if waits[0].Failed? then j.(stage := ERR)
    else if waits[0].stored then AwaitReads(Stored(j, waits[0].missing), waits[1..])
    else Counted(j, Got(j, j.aio[0], waits[0].missing)).(stage := ERR)
  }

  /** Lines 682-756. */
  function ReadDownload(j: Job, a: Answers): Job
  {
    var w := AwaitReads(j, a.waits);
    if w.size == w.nTransfers then w.(stage := CLOSE)
    else if w.aio != [] then w
    else BeginReads(w, w.nTransfers, 0, a.begins)
  }

  // ----- upload -----

  /** Lines 651-654: the next bytes of the local file, up to a chunk and up to the file size. */
  function NextChunk(j: Job): seq<byte>
    requires j.nRequests < j.size
  {
    Slice(j.source, j.cursor, Min(j.size - j.nRequests, j.chunk))
  }

  /** The entry after the next chunk was read and handed to the server. */
  function Sent(j: Job): Job
    requires j.nRequests < j.size
  {
    var data := NextChunk(j);
    j.(cursor := j.cursor + |data|,
       aio := j.aio + [Request(j.cursor, |data|)],
       nRequests := j.nRequests + |data|,
       sink := j.sink + data)
  }

  /** The entry after the next chunk was read but the begin call failed. */
  function Skipped(j: Job): Job
    requires j.nRequests < j.size
  {
    j.(cursor := j.cursor + |NextChunk(j)|)
  }

  /** Lines 646-669 and 823-847: read and send up to `n` chunks. */
  function BeginWrites(j: Job, i: nat, n: nat, begins: seq<bool>): Job
    decreases n - i
  {
    if i >= n || j.nRequests >= j.size then j
    else if !Begins(begins, i) then Skipped(j)
    else BeginWrites(Sent(j), i + 1, n, begins)
  }

  /** Lines 800-820: take acknowledgements of the oldest writes until one is not ready. */
  function AwaitWrites(j: Job, waits: seq<Wait>): Job
    decreases |waits|
  {
    if j.aio == [] || waits == [] || waits[0].Again? then j
    else if waits[0].Failed? then j.(stage := ERR)
    else AwaitWrites(Counted(j, j.aio[0].len), waits[1..])
  }

  /** Lines 800-847. */
  function ReadUpload(j: Job, a: Answers): Job
  {
    var w := AwaitWrites(j, a.waits);
    if |w.aio| >= CONCURRENT then w
    else BeginWrites(w, 0, CONCURRENT - |w.aio|, a.begins)
  }

  // ----- the switch of AsyncFile -----

  function Read(j: Job, a: Answers): Job
  {
    if j.dir.Download? then ReadDownload(j, a) else ReadUpload(j, a)
  }

  /** Lines 550-590 and 629-637 when both files open; opening for writing empties the file that is written. */
  function Opened(j: Job, a: Answers): Job
  {
    j.(remoteHeld := true, localHeld := true, calls := j.calls + [OpenRemote, OpenLocal], sink := [],
       chunk := if a.limit.Some? then a.limit.value else j.chunk)
  }

  /** Lines 540-676. */
  function Open(j: Job, a: Answers): Job
  {
    if !a.remoteOpens then j.(stage := ERR)
    else if !a.localOpens then
      j.(stage := ERR, remoteHeld := true, calls := j.calls + [OpenRemote],
         sink := if j.dir.Upload? then [] else j.sink)
    else
      var l := Opened(j, a);
      var b := if l.dir.Download? then BeginReads(l, 0, 0, a.openBegins)
               else BeginWrites(l, 0, CONCURRENT, a.openBegins);
      b.(stage := READ, state := Transferring)
  }

  function ReleaseRemote(j: Job): Job
  {
    if j.remoteHeld then j.(remoteHeld := false, calls := j.calls + [CloseRemote]) else j
  }

  function ReleaseLocal(j: Job): Job
  {
    if j.localHeld then j.(localHeld := false, calls := j.calls + [CloseLocal]) else j
  }

  /** CleanFileAIO, lines 888-903. */
  function Clean(j: Job): Job { ReleaseLocal(ReleaseRemote(j)) }

  /** One turn of the loop of AsyncFile, lines 538-883.  A successful OPEN falls through to READ. */
  function Step(j: Job, a: Answers): Outcome
  {
    match j.stage
    case OPEN => var o := Open(j, a); Kept(if o.stage.READ? then Read(o, a) else o)
    case READ => Kept(Read(j, a))
    case CLOSE => Kept(j.(stage := FINISH, state := Closing))
    case FINISH => Left(Clean(j).(state := Finish))
    case ERR => Left(Clean(j).(state := Fail))
  }

  /** What slotStopFileTransfer does to the entry it removes, lines 519-529. */
  function Stopped(j: Job): Job { ReleaseRemote(ReleaseLocal(j)).(state := Stop) }

  /** Consecutive visits of one entry until it leaves the list. */
  function Run(o: Outcome, visits: seq<Answers>): Outcome
    decreases |visits|
  {
    if o.Left? || visits == [] then o else Run(Step(o.entry, visits[0]), visits[1..])
  }
}

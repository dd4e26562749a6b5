/** Uploads: exactly when a finished copy is right, for files that have grown since they were listed too. */
module UploadContent {
  import opened Survival
  import opened TransferJob
  import opened Progress
  import opened TwinTransfers
  import opened Upload

  /** How a run ends for a local file of given content. */
  function Ended(size: nat, shown: nat, source: seq<byte>, old_sink: seq<byte>, visits: seq<Answers>): Outcome
  {
    Run(Kept(Started(Upload, size, shown, source, old_sink)), visits)
  }

  /** With the same answers a file of the same length is sent alike, whatever its bytes. */
  lemma {:induction false} ContentDoesNotSteer(size: nat, shown: nat, source: seq<byte>, content: seq<byte>,
                                               old_sink: seq<byte>, visits: seq<Answers>)
    requires |content| == |source|
    ensures var r := Ended(size, shown, source, old_sink, visits);
            var t := Ended(size, shown, content, old_sink, visits);
            Twins(r.entry, t.entry) && r.Kept? == t.Kept? && Skip(t.entry) == Skip(r.entry)
  {
    var j, k := Started(Upload, size, shown, source, old_sink), Started(Upload, size, shown, content, old_sink);
    TwinsRun(Kept(j), Kept(k), visits, Run(Kept(j), visits), Run(Kept(k), visits));
  }

  /** Every local file of this length is sent right by this run. */
  ghost predicate CopiesRight(size: nat, shown: nat, n: nat, old_sink: seq<byte>, visits: seq<Answers>)
  {
    forall content: seq<byte> | |content| == n && size <= n ::
      Ended(size, shown, content, old_sink, visits).entry.sink == content[..size]
  }

  lemma {:induction false} FinishedBytes(k: Job, base: nat)
    requires Inv(k, base) && k.stage.FINISH?
    ensures 0 < k.size == |k.sink| && 0 <= Skip(k) && k.size + Skip(k) <= |k.source|
    ensures Skip(k) == 0 ==> k.sink == k.source[..k.size]
    ensures k.sink[k.size - 1] == k.source[k.size + Skip(k) - 1]
  {
  }

  lemma {:induction false} FinishedFacts(size: nat, shown: nat, source: seq<byte>, old_sink: seq<byte>,
                                         visits: seq<Answers>, r: Outcome)
    requires r == Ended(size, shown, source, old_sink, visits) && Finished(r)
    ensures r.entry.source == source && r.entry.size == size > 0
    ensures |r.entry.sink| == size && 0 <= Skip(r.entry) && size + Skip(r.entry) <= |source|
    ensures Skip(r.entry) == 0 ==> r.entry.sink == source[..size]
    ensures r.entry.sink[size - 1] == source[size + Skip(r.entry) - 1]
  {
    hide Run, Window;
    var j := Started(Upload, size, shown, source, old_sink);
    RunKeeps(Kept(j), visits, shown, r);
    FinishedBytes(r.entry, shown);
  }

  /** A run that drops a chunk sends the marked file wrong: its last byte comes from beyond the size. */
  lemma {:induction false} MarkedIsWrong(size: nat, shown: nat, source: seq<byte>, old_sink: seq<byte>,
                                         visits: seq<Answers>, r: Outcome, t: Outcome)
    requires r == Ended(size, shown, source, old_sink, visits) && Finished(r) && Skip(r.entry) > 0
    requires size <= |source| && t == Ended(size, shown, Marked(size, |source|), old_sink, visits)
    ensures t.entry.sink != Marked(size, |source|)[..size]
  {
    FinishedFacts(size, shown, source, old_sink, visits, r);
    ContentDoesNotSteer(size, shown, source, Marked(size, |source|), old_sink, visits);
    FinishedFacts(size, shown, Marked(size, |source|), old_sink, visits, t);
    assert t.entry.sink[size - 1] == 1 && Marked(size, |source|)[..size][size - 1] == 0;
  }

  lemma {:induction false} UnskippedIsRight(size: nat, shown: nat, source: seq<byte>, content: seq<byte>,
                                            old_sink: seq<byte>, visits: seq<Answers>, r: Outcome)
    requires r == Ended(size, shown, source, old_sink, visits) && Finished(r) && Skip(r.entry) == 0
    requires |content| == |source|
    ensures size <= |content| && Ended(size, shown, content, old_sink, visits).entry.sink == content[..size]
  {
    var t := Ended(size, shown, content, old_sink, visits);
    ContentDoesNotSteer(size, shown, source, content, old_sink, visits);
    FinishedFacts(size, shown, content, old_sink, visits, t);
  }

  /**
   * A run that finishes gives the server the right bytes of every local file of that length if and only if
   * no begin call that failed on the way had read any.
   */
  lemma {:induction false} CopyRightIff(size: nat, shown: nat, source: seq<byte>, old_sink: seq<byte>,
                                        visits: seq<Answers>)
    requires Finished(Ended(size, shown, source, old_sink, visits))
    ensures CopiesRight(size, shown, |source|, old_sink, visits) <==>
              Skip(Ended(size, shown, source, old_sink, visits).entry) == 0
  {
    var r := Ended(size, shown, source, old_sink, visits);
    FinishedFacts(size, shown, source, old_sink, visits, r);
    if Skip(r.entry) > 0 {
      MarkedIsWrong(size, shown, source, old_sink, visits, r,
                    Ended(size, shown, Marked(size, |source|), old_sink, visits));
    } else {
      forall content: seq<byte> | |content| == |source| && size <= |source|
        ensures Ended(size, shown, content, old_sink, visits).entry.sink == content[..size]
      {
        UnskippedIsRight(size, shown, source, content, old_sink, visits, r);
      }
    }
  }
}

/** What it takes for a transfer to be over: the measure that every answered visit lowers. */
module Progress {
  import opened Survival
  import opened TransferJob
  import opened Wrappers

  predicate FullAnswer(w: Wait) { w.Again? || (w.Done? && w.missing == 0 && w.stored) }

  predicate AllFull(waits: seq<Wait>) { forall i :: 0 <= i < |waits| ==> FullAnswer(waits[i]) }

  /** The wait may end in any way, but if it ends with data, then with all of it, safely on disk. */
  predicate WholeAnswer(w: Wait) { w.Done? ==> w.missing == 0 && w.stored }

  predicate AllWhole(waits: seq<Wait>) { forall i :: 0 <= i < |waits| ==> WholeAnswer(waits[i]) }

  predicate AllBegin(begins: seq<bool>) { forall i :: 0 <= i < |begins| ==> begins[i] }

  /** A visit in which nothing fails and every answer is a full one. */
  predicate Healthy(a: Answers)
  {
    a.remoteOpens && a.localOpens && AllBegin(a.openBegins) && AllBegin(a.begins) && AllFull(a.waits)
  }

  predicate AllHealthy(visits: seq<Answers>) { forall i :: 0 <= i < |visits| ==> Healthy(visits[i]) }

  /** A visit in which both files open and no wait fails; begin calls may. */
  predicate Responsive(a: Answers) { a.remoteOpens && a.localOpens && AllFull(a.waits) }

  predicate AllResponsive(visits: seq<Answers>) { forall i :: 0 <= i < |visits| ==> Responsive(visits[i]) }

  /** Whether the oldest request of the visit is answered with something else than "again". */
  predicate Answered(a: Answers) { a.waits != [] && a.waits[0].Done? }

  function CountAnswered(visits: seq<Answers>): nat
  {
    if visits == [] then 0 else (if Answered(visits[0]) then 1 else 0) + CountAnswered(visits[1..])
  }

  /** An upper bound on the answered visits an entry still needs. */
  function Fuel(j: Job): int
  {
    match j.stage
    case OPEN => j.size + 4
    case READ => j.size - j.nTransfers + 3
    case CLOSE => 2
    case FINISH => 1
    case ERR => 1
  }

  predicate Finished(o: Outcome) { o.Left? && o.entry.state.Finish? }

  lemma {:induction false} RunEnds(o: Outcome, visits: seq<Answers>)
    requires o.Left?
    ensures Run(o, visits) == o
  {
  }

  /** A visit in which everything succeeds and one request is answered. */
  function OneAnswer(): Answers
  {
    Answers(true, true, None, [], [Done(0, true)], [])
  }

  function OneAnswers(n: nat): (v: seq<Answers>)
    ensures |v| == n && AllHealthy(v) && CountAnswered(v) == n
  {
    if n == 0 then [] else [OneAnswer()] + OneAnswers(n - 1)
  }
}

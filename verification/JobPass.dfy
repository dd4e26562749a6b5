/**
 * A pass of the protocol that nothing interrupts: entry by entry it does what the scan of AsyncFile does, and
 * publishes what became of each.
 */
module JobPass {
  import opened Survival
  import opened TransferJob
  import opened JobProtocol

  /** What the pass makes of an entry and of those after it; those that leave are gone. */
  function Scanned(files: seq<Entry>, visits: seq<Answers>): seq<Entry>
    requires |files| == |visits|
    decreases |files|
  {
    if files == [] then []
    else
      var o := Step(files[0].job, visits[0]);
      (if o.Kept? then [Entry(files[0].f, o.entry)] else []) + Scanned(files[1..], visits[1..])
  }

  /** The states shown after the pass: every entry that is visited shows what its visit made of it. */
  function Shown(pub: map<Id, State>, files: seq<Entry>, visits: seq<Answers>): map<Id, State>
    requires |files| == |visits|
    decreases |files|
  {
    if files == [] then pub
    else Shown(pub[files[0].f := Step(files[0].job, visits[0]).entry.state], files[1..], visits[1..])
  }

  /** The steps of the backend: a visit for every entry, followed by publishing if the entry leaves. */
  function Pass(files: seq<Entry>, visits: seq<Answers>): seq<Action>
    requires |files| == |visits|
    decreases |files|
  {
    if files == [] then []
    else
      [VisitEntry(visits[0])] + (if Step(files[0].job, visits[0]).Left? then [Publish] else [])
      + Pass(files[1..], visits[1..])
  }

  /** The state after the entry at `it` was visited and, if it left, published. */
  function VisitedAt(s: System, it: nat, a: Answers): System
    requires it < |s.files|
  {
    var e := s.files[it];
    var o := Step(e.job, a);
    s.(files := s.files[..it] + (if o.Kept? then [Entry(e.f, o.entry)] else []) + s.files[it + 1..],
       pub := s.pub[e.f := o.entry.state], backend := InPass(if o.Kept? then it + 1 else it))
  }

  lemma {:induction false} OneVisit(s: System, it: nat, a: Answers, more: seq<Action>, run: seq<Action>)
    requires s.backend == InPass(it) && it < |s.files|
    requires run == [VisitEntry(a)] + (if Step(s.files[it].job, a).Left? then [Publish] else []) + more
    ensures Execute(s, run) == Execute(VisitedAt(s, it, a), more)
  {
    var e := s.files[it];
    var t := Apply(s, VisitEntry(a));
    assert run[0] == VisitEntry(a) && Execute(s, run) == Execute(t, run[1..]);
    if Step(e.job, a).Left? {
      assert run[1..][0] == Publish && run[1..][1..] == more;
      assert Apply(t, Publish) == VisitedAt(s, it, a);
    } else {
      assert run[1..] == more;
      assert t == VisitedAt(s, it, a);
    }
  }

  lemma {:induction false} NothingToVisit(s: System)
    ensures Execute(s, Pass([], [])) == s && Scanned([], []) == [] && Shown(s.pub, [], []) == s.pub
  {
  }

  lemma {:induction false} FirstOfPass(pub: map<Id, State>, files: seq<Entry>, visits: seq<Answers>)
    requires |files| == |visits| && files != []
    ensures var o := Step(files[0].job, visits[0]);
            && Pass(files, visits) ==
               [VisitEntry(visits[0])] + (if o.Left? then [Publish] else []) + Pass(files[1..], visits[1..])
            && Scanned(files, visits) ==
               (if o.Kept? then [Entry(files[0].f, o.entry)] else []) + Scanned(files[1..], visits[1..])
            && Shown(pub, files, visits) == Shown(pub[files[0].f := o.entry.state], files[1..], visits[1..])
  {
  }

  /** The list in the middle of a pass: what is in front stays, what follows is still to be visited. */
  lemma {:induction false} ListAfterVisit(s: System, it: nat, a: Answers, t: System, next: nat, mine: seq<Entry>)
    requires it < |s.files| && t == VisitedAt(s, it, a)
    requires var o := Step(s.files[it].job, a);
             && next == (if o.Kept? then it + 1 else it)
             && mine == if o.Kept? then [Entry(s.files[it].f, o.entry)] else []
    ensures t.backend == InPass(next) && next <= |t.files|
    ensures t.files[..next] == s.files[..it] + mine && t.files[next..] == s.files[it..][1..]
  {
    hide Step;
  }

  /**
   * An uninterrupted pass visits every entry once although entries leave on the way: those that stay keep their
   * order, every visited transfer shows what its visit made of it, and nothing else changes.
   */
  lemma {:induction false} PassScans(s: System, it: nat, visits: seq<Answers>)
    requires s.backend == InPass(it) && it <= |s.files| && |visits| == |s.files| - it
    ensures var rest := s.files[it..];
            var files := s.files[..it] + Scanned(rest, visits);
            Execute(s, Pass(rest, visits)) ==
            s.(files := files, pub := Shown(s.pub, rest, visits), backend := InPass(|files|))
    decreases |visits|
  {
    hide Step, Execute, Pass, Scanned, Shown;
    var rest := s.files[it..];
    if visits == [] {
      NothingToVisit(s);
      assert rest == [] && s.files[..it] + [] == s.files;
    } else {
      var t := VisitedAt(s, it, visits[0]);
      var o := Step(rest[0].job, visits[0]);
      var next := if o.Kept? then it + 1 else it;
      var mine := if o.Kept? then [Entry(rest[0].f, o.entry)] else [];
      FirstOfPass(s.pub, rest, visits);
      OneVisit(s, it, visits[0], Pass(rest[1..], visits[1..]), Pass(rest, visits));
      ListAfterVisit(s, it, visits[0], t, next, mine);
      PassScans(t, next, visits[1..]);
      assert s.files[..it] + mine + Scanned(rest[1..], visits[1..]) == s.files[..it] + Scanned(rest, visits);
    }
  }

  ghost predicate DifferentIds(files: seq<Entry>)
  {
    forall i, j :: 0 <= i < j < |files| ==> files[i].f != files[j].f
  }

  /** With one entry for each transfer, every transfer with an entry shows the outcome of its own visit. */
  lemma {:induction false} ShownIs(pub: map<Id, State>, files: seq<Entry>, visits: seq<Answers>, k: nat)
    requires |files| == |visits| && DifferentIds(files) && k < |files|
    ensures var shown := Shown(pub, files, visits);
            files[k].f in shown && shown[files[k].f] == Step(files[k].job, visits[k]).entry.state
    decreases |files|
  {
    var next := pub[files[0].f := Step(files[0].job, visits[0]).entry.state];
    if k == 0 {
      OthersStay(next, files[1..], visits[1..], files[0].f);
    } else {
      ShownIs(next, files[1..], visits[1..], k - 1);
    }
  }

  /** And every other transfer shows what it showed. */
  lemma {:induction false} OthersStay(pub: map<Id, State>, files: seq<Entry>, visits: seq<Answers>, f: Id)
    requires |files| == |visits| && forall i :: 0 <= i < |files| ==> files[i].f != f
    ensures f in Shown(pub, files, visits) <==> f in pub
    ensures f in pub ==> Shown(pub, files, visits)[f] == pub[f]
    decreases |files|
  {
    if files != [] {
      OthersStay(pub[files[0].f := Step(files[0].job, visits[0]).entry.state], files[1..], visits[1..], f);
    }
  }
}

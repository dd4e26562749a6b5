/**
 * The protocol between the list of transfers in the window and the channel in its own thread.
 *
 * The window reads and writes the visible state of a transfer and posts events; the backend takes the
 * events in order and, between events, passes over the entries of the channel.  The steps below may
 * interleave in any way: in particular the backend can move between the two tests that one click makes
 * (FrmFileTransfer.cpp:693 and 696), between setting Opening and posting the event (697 and 698), and the
 * window can act between erasing an entry and publishing its last state (ChannelSFTP.cpp:863-864).
 */
module JobProtocol {
  import opened Survival
  import opened TransferJob
  import opened Wrappers
  import opened LifeCycle

  type Id = nat

  datatype Event = StartEvent(f: Id) | StopEvent(f: Id)

  /** Where the window's thread is inside slotProcessFileTransfer. */
  datatype Ui = Idle | Tested(f: Id) | Posting(f: Id)

  /** Where the backend's thread is; `back` is the place in a pass it returns to after publishing. */
  datatype Backend = Ready | InPass(it: nat) | Leaving(f: Id, last: State, back: Option<nat>)

  datatype Entry = Entry(f: Id, job: Job)

  datatype System = System(
    pub: map<Id, State>, listed: set<Id>, queue: seq<Event>, files: seq<Entry>,
    ui: Ui, backend: Backend, open: bool)

  datatype Action =
    | Add(f: Id, initial: State)
    | Click(f: Id)
    | SecondTest
    | Post
    | Delete(f: Id)
    | Dispatch(started: Job)
    | BeginPass
    | VisitEntry(answers: Answers)
    | EndPass
    | Publish
    | CloseChannel

  function Empty(): System { System(map[], {}, [], [], Idle, Ready, true) }

  /** Index of the first entry of a transfer, or the length of the list. */
  function Find(files: seq<Entry>, f: Id): (i: nat)
    ensures i <= |files|
    ensures i < |files| ==> files[i].f == f
    ensures forall k :: 0 <= k < i ==> files[k].f != f
  {
    if files == [] || files[0].f == f then 0 else 1 + Find(files[1..], f)
  }

  function Without<T>(xs: seq<T>, i: nat): seq<T>
    requires i < |xs|
  {
    xs[..i] + xs[i + 1..]
  }

  /** Whether an action can happen now. */
  predicate Enabled(s: System, a: Action)
  {
    match a
    case Add(f, initial) => s.ui.Idle? && f !in s.pub && (initial.No? || initial.Finish? || initial.Fail?)
    case Click(f) => s.ui.Idle? && f in s.listed && f in s.pub
    case SecondTest => s.ui.Tested? && s.ui.f in s.pub
    case Post => s.ui.Posting?
    case Delete(f) => s.ui.Idle? && f in s.listed && f in s.pub && !s.pub[f].Process()
    case Dispatch(j) =>
      s.backend.Ready? && s.queue != [] && s.queue[0].f in s.pub
      && j == Started(j.dir, j.size, j.shown, j.source, j.sink)
    case BeginPass => s.backend.Ready? && s.open
    case VisitEntry(_) => s.backend.InPass? && s.backend.it < |s.files|
    case EndPass => s.backend.InPass? && |s.files| <= s.backend.it
    case Publish => s.backend.Leaving?
    case CloseChannel => s.backend.Ready? && s.open
  }

  /** Taking the oldest event; a closed channel ignores it (BackendFileTransfer.cpp:105-119). */
  function TakeEvent(s: System, started: Job): System
    requires s.queue != []
  {
    var rest := s.(queue := s.queue[1..]);
    match s.queue[0]
    case StartEvent(f) =>
      if !s.open then rest
      else rest.(pub := s.pub[f := Opening], files := s.files + [Entry(f, started)])
    case StopEvent(f) =>
      var i := Find(s.files, f);
      if !s.open || i == |s.files| then rest
      else rest.(files := Without(s.files, i), backend := Leaving(f, Stopped(s.files[i].job).state, None))
  }

  function VisitOne(s: System, answers: Answers): System
    requires s.backend.InPass? && s.backend.it < |s.files|
  {
    var it := s.backend.it;
    var e := s.files[it];
    match Step(e.job, answers)
    case Kept(j) =>
      s.(files := s.files[it := Entry(e.f, j)], pub := s.pub[e.f := j.state], backend := InPass(it + 1))
    case Left(j) =>
      s.(files := Without(s.files, it), backend := Leaving(e.f, j.state, Some(it)))
  }

  function Apply(s: System, a: Action): System
    requires Enabled(s, a)
  {
    match a
    case Add(f, initial) => s.(pub := s.pub[f := initial], listed := s.listed + {f})
    case Click(f) =>
      s.(ui := Tested(f), queue := if s.pub[f].Process() then s.queue + [StopEvent(f)] else s.queue)
    case SecondTest =>
      var f := s.ui.f;
      if s.pub[f].CanStart() then s.(ui := Posting(f), pub := s.pub[f := Opening]) else s.(ui := Idle)
    case Post => s.(ui := Idle, queue := s.queue + [StartEvent(s.ui.f)])
    case Delete(f) => s.(listed := s.listed - {f})
    case Dispatch(started) => TakeEvent(s, started)
    case BeginPass => s.(backend := InPass(0))
    case VisitEntry(answers) => VisitOne(s, answers)
    case EndPass => s.(backend := Ready)
    case Publish =>
      s.(pub := s.pub[s.backend.f := s.backend.last],
         backend := if s.backend.back.Some? then InPass(s.backend.back.value) else Ready)
    case CloseChannel => s.(files := [], open := false)
  }

  /** Any interleaving: actions that are not enabled do nothing. */
  function Execute(s: System, run: seq<Action>): System
    decreases |run|
  {
    if run == [] then s
    else Execute(if Enabled(s, run[0]) then Apply(s, run[0]) else s, run[1..])
  }

  // ----- the invariant -----

  /** Start events of a transfer that wait in the queue. */
  function Pending(queue: seq<Event>, f: Id): nat
  {
    if queue == [] then 0 else (if queue[0] == StartEvent(f) then 1 else 0) + Pending(queue[1..], f)
  }

  /** Entries of the channel that work on a transfer. */
  function Working(files: seq<Entry>, f: Id): nat
  {
    if files == [] then 0 else (if files[0].f == f then 1 else 0) + Working(files[1..], f)
  }

  /** A transfer whose start is about to be posted, and one that is erased but not yet published. */
  function InHand(s: System, f: Id): nat
  {
    (if s.ui == Posting(f) then 1 else 0) + (if s.backend.Leaving? && s.backend.f == f then 1 else 0)
  }

  /** Everything that stands for a transfer being worked on. */
  function Tokens(s: System, f: Id): nat { Pending(s.queue, f) + Working(s.files, f) + InHand(s, f) }

  ghost predicate EntriesOk(s: System)
  {
    forall i :: 0 <= i < |s.files| ==>
      && s.files[i].f in s.pub && Related(s.files[i].job) && s.pub[s.files[i].f] == s.files[i].job.state
  }

  predicate InProcess(s: System, f: Id) { f in s.pub && s.pub[f].Process() }

  ghost predicate Ids(s: System)
  {
    && s.listed <= s.pub.Keys
    && (forall i :: 0 <= i < |s.queue| ==> s.queue[i].f in s.pub)
    && (!s.ui.Idle? ==> s.ui.f in s.listed)
    && (s.backend.Leaving? ==> s.backend.f in s.pub && s.backend.last in {Stop, Finish, Fail})
    && (forall f :: InProcess(s, f) ==> f in s.listed)
  }

  /** While the channel is open, exactly the transfers in process have a token, and they have one. */
  ghost predicate OneToken(s: System)
  {
    forall f :: Tokens(s, f) == if InProcess(s, f) then 1 else 0
  }

  ghost predicate Inv(s: System)
  {
    Ids(s) && EntriesOk(s) && (if s.open then OneToken(s) else s.files == [] && s.backend.Ready?)
  }

  lemma {:induction false} PendingSnoc(queue: seq<Event>, e: Event, f: Id)
    ensures Pending(queue + [e], f) == Pending(queue, f) + (if e == StartEvent(f) then 1 else 0)
  {
    if queue == [] {
      assert (queue + [e])[1..] == [];
    } else {
      PendingSnoc(queue[1..], e, f);
      assert (queue + [e])[1..] == queue[1..] + [e];
    }
  }

  lemma {:induction false} WorkingConcat(xs: seq<Entry>, ys: seq<Entry>, f: Id)
    ensures Working(xs + ys, f) == Working(xs, f) + Working(ys, f)
  {
    if xs == [] {
      assert xs + ys == ys;
    } else {
      WorkingConcat(xs[1..], ys, f);
      assert (xs + ys)[1..] == xs[1..] + ys;
    }
  }

  lemma {:induction false} WorkingAt(files: seq<Entry>, i: nat, f: Id)
    requires i < |files|
    ensures Working(files, f) == Working(Without(files, i), f) + (if files[i].f == f then 1 else 0)
  {
    WorkingConcat(files[..i], files[i + 1..], f);
    WorkingConcat(files[..i], files[i..], f);
    assert files == files[..i] + files[i..];
    assert files[i..][1..] == files[i + 1..];
  }

  lemma {:induction false} WorkingUpdate(files: seq<Entry>, i: nat, e: Entry, f: Id)
    requires i < |files| && e.f == files[i].f
    ensures Working(files[i := e], f) == Working(files, f)
  {
    WorkingAt(files, i, f);
    WorkingAt(files[i := e], i, f);
    assert Without(files[i := e], i) == Without(files, i);
  }

  /** Entries at two places of one transfer count twice. */
  lemma {:induction false} WorkingTwice(files: seq<Entry>, i: nat, k: nat)
    requires i < k < |files| && files[i].f == files[k].f
    ensures Working(files, files[i].f) >= 2
  {
    WorkingAt(files, k, files[i].f);
    WorkingAt(Without(files, k), i, files[i].f);
  }

  /** A transfer without entries is that of no entry. */
  lemma {:induction false} NotWorking(files: seq<Entry>, f: Id)
    requires Working(files, f) == 0
    ensures forall i :: 0 <= i < |files| ==> files[i].f != f
  {
    forall i | 0 <= i < |files| ensures files[i].f != f {
      WorkingAt(files, i, f);
    }
  }

  /** With one token each, no two entries are of the same transfer. */
  lemma {:induction false} EntriesDistinct(s: System)
    requires OneToken(s)
    ensures forall i, k :: 0 <= i < k < |s.files| ==> s.files[i].f != s.files[k].f
  {
    forall i, k | 0 <= i < k < |s.files| ensures s.files[i].f != s.files[k].f {
      assert Tokens(s, s.files[i].f) <= 1;
      if s.files[i].f == s.files[k].f {
        WorkingTwice(s.files, i, k);
      }
    }
  }

  // ----- conservation of tokens -----

  /** Tokens are made by the second test of a click and destroyed by publishing, one at a time. */
  function Change(s: System, a: Action, f: Id): int
    requires Enabled(s, a)
  {
    if a.SecondTest? && s.ui.f == f && s.pub[f].CanStart() then 1
    else if a.Publish? && s.backend.f == f then -1
    else 0
  }

  lemma {:induction false} TakeEventTokens(s: System, started: Job, f: Id)
    requires s.open && s.backend.Ready? && s.queue != []
    ensures Tokens(TakeEvent(s, started), f) == Tokens(s, f)
  {
    match s.queue[0]
    case StartEvent(g) =>
      WorkingConcat(s.files, [Entry(g, started)], f);
      assert [Entry(g, started)][1..] == [];
    case StopEvent(g) =>
      var i := Find(s.files, g);
      if i < |s.files| {
        WorkingAt(s.files, i, f);
      }
  }

  lemma {:induction false} VisitTokens(s: System, answers: Answers, f: Id, o: Outcome)
    requires s.backend.InPass? && s.backend.it < |s.files|
    requires o == Step(s.files[s.backend.it].job, answers)
    ensures Tokens(VisitOne(s, answers), f) == Tokens(s, f)
  {
    var it := s.backend.it;
    if o.Kept? {
      WorkingUpdate(s.files, it, Entry(s.files[it].f, o.entry), f);
    } else {
      WorkingAt(s.files, it, f);
    }
  }

  /** Every action of an open channel but those two only moves tokens about. */
  lemma {:induction false} TokensConserved(s: System, a: Action, f: Id)
    requires s.open && Enabled(s, a) && !a.CloseChannel?
    ensures Tokens(Apply(s, a), f) == Tokens(s, f) + Change(s, a, f)
  {
    match a
    case Click(g) => PendingSnoc(s.queue, StopEvent(g), f);
    case Post => PendingSnoc(s.queue, StartEvent(s.ui.f), f);
    case Dispatch(j) => TakeEventTokens(s, j, f);
    case VisitEntry(answers) => VisitTokens(s, answers, f, Step(s.files[s.backend.it].job, answers));
    case _ =>
  }

  // ----- every step keeps the invariant -----

  /** A start event is never taken while the channel still has an entry of its transfer. */
  lemma {:induction false} StartFindsNoEntry(s: System)
    requires Inv(s) && s.open && s.queue != [] && s.queue[0].StartEvent?
    ensures InProcess(s, s.queue[0].f)
    ensures forall i :: 0 <= i < |s.files| ==> s.files[i].f != s.queue[0].f
  {
    var f := s.queue[0].f;
    assert Tokens(s, f) >= 1;
    NotWorking(s.files, f);
  }

  lemma {:induction false} UiIds(s: System, a: Action)
    requires Inv(s) && Enabled(s, a) && (a.Add? || a.Click? || a.SecondTest? || a.Post? || a.Delete?)
    ensures Ids(Apply(s, a))
  {
  }

  lemma {:induction false} UiEntries(s: System, a: Action)
    requires Inv(s) && Enabled(s, a) && (a.Add? || a.Click? || a.SecondTest? || a.Post? || a.Delete?)
    ensures EntriesOk(Apply(s, a))
  {
    if a.SecondTest? && s.open && s.pub[s.ui.f].CanStart() {
      assert Tokens(s, s.ui.f) == 0;
      NotWorking(s.files, s.ui.f);
    }
  }

  lemma {:induction false} DispatchIds(s: System, started: Job)
    requires Inv(s) && Enabled(s, Dispatch(started))
    ensures Ids(TakeEvent(s, started)) && EntriesOk(TakeEvent(s, started))
    ensures forall f :: InProcess(TakeEvent(s, started), f) == InProcess(s, f)
  {
    if s.open && s.queue[0].StartEvent? {
      StartFindsNoEntry(s);
    }
  }

  lemma {:induction false} VisitEntries(s: System, answers: Answers, o: Outcome)
    requires Inv(s) && Enabled(s, VisitEntry(answers)) && o == Step(s.files[s.backend.it].job, answers)
    ensures EntriesOk(VisitOne(s, answers))
  {
    StepRelated(s.files[s.backend.it].job, answers, o);
    EntriesDistinct(s);
    var t := VisitOne(s, answers);
    var it := s.backend.it;
    forall i | 0 <= i < |t.files|
      ensures t.files[i].f in t.pub && Related(t.files[i].job) && t.pub[t.files[i].f] == t.files[i].job.state
    {
      if o.Kept? {
        assert i != it ==> t.files[i] == s.files[i] && s.files[i].f != s.files[it].f;
      } else {
        assert t.files[i] == s.files[if i < it then i else i + 1];
      }
    }
  }

  lemma {:induction false} VisitIds(s: System, answers: Answers, o: Outcome)
    requires Inv(s) && Enabled(s, VisitEntry(answers)) && o == Step(s.files[s.backend.it].job, answers)
    ensures Ids(VisitOne(s, answers)) && EntriesOk(VisitOne(s, answers))
    ensures forall f :: InProcess(VisitOne(s, answers), f) == InProcess(s, f)
  {
    var e := s.files[s.backend.it];
    StepRelated(e.job, answers, o);
    VisitEntries(s, answers, o);
    assert InProcess(s, e.f);
  }

  lemma {:induction false} PublishIds(s: System)
    requires Inv(s) && Enabled(s, Publish)
    ensures Ids(Apply(s, Publish)) && EntriesOk(Apply(s, Publish))
    ensures InProcess(s, s.backend.f) && !InProcess(Apply(s, Publish), s.backend.f)
  {
    assert Tokens(s, s.backend.f) >= 1;
    NotWorking(s.files, s.backend.f);
  }

  /** An action changes which transfers are in process just as it changes the tokens. */
  lemma {:induction false} ProcessFollowsTokens(s: System, a: Action, f: Id)
    requires Inv(s) && s.open && Enabled(s, a) && !a.CloseChannel?
    ensures (if InProcess(Apply(s, a), f) then 1 else 0) == (if InProcess(s, f) then 1 else 0) + Change(s, a, f)
  {
    match a
    case Dispatch(j) => DispatchIds(s, j);
    case VisitEntry(answers) => VisitIds(s, answers, Step(s.files[s.backend.it].job, answers));
    case Publish => PublishIds(s);
    case _ =>
  }

  lemma {:induction false} ActionIds(s: System, a: Action)
    requires Inv(s) && Enabled(s, a)
    ensures Ids(Apply(s, a)) && EntriesOk(Apply(s, a))
  {
    match a
    case Dispatch(j) => DispatchIds(s, j);
    case VisitEntry(answers) => VisitIds(s, answers, Step(s.files[s.backend.it].job, answers));
    case Publish => PublishIds(s);
    case BeginPass =>
    case EndPass =>
    case CloseChannel =>
    case _ => UiIds(s, a); UiEntries(s, a);
  }

  lemma {:induction false} ActionKeeps(s: System, a: Action)
    requires Inv(s) && Enabled(s, a)
    ensures Inv(Apply(s, a))
  {
    ActionIds(s, a);
    if s.open && !a.CloseChannel? {
      forall f ensures Tokens(Apply(s, a), f) == if InProcess(Apply(s, a), f) then 1 else 0 {
        TokensConserved(s, a, f);
        ProcessFollowsTokens(s, a, f);
      }
    }
  }

  lemma {:induction false} RunKeeps(s: System, run: seq<Action>)
    requires Inv(s)
    ensures Inv(Execute(s, run))
    decreases |run|
  {
    if run != [] {
      if Enabled(s, run[0]) {
        ActionKeeps(s, run[0]);
        RunKeeps(Apply(s, run[0]), run[1..]);
      } else {
        RunKeeps(s, run[1..]);
      }
    }
  }

  // ----- what it means for the user -----

  /** The threads are between two slots: nothing is half done. */
  predicate Quiet(s: System) { !s.ui.Posting? && !s.backend.Leaving? }

  /**
   * In every interleaving, while the channel is open: a transfer is shown in process exactly when
   * either one start event of it waits or one entry works on it, and otherwise neither exists.
   */
  lemma {:induction false} ProcessIffOneOwner(run: seq<Action>, f: Id)
    ensures var s := Execute(Empty(), run);
            s.open && Quiet(s) && f in s.pub ==>
              && (s.pub[f].Process() <==> Pending(s.queue, f) + Working(s.files, f) == 1)
              && (!s.pub[f].Process() <==> Pending(s.queue, f) == 0 && Working(s.files, f) == 0)
  {
    RunKeeps(Empty(), run);
    var s := Execute(Empty(), run);
    if s.open && Quiet(s) && f in s.pub {
      assert Tokens(s, f) == Pending(s.queue, f) + Working(s.files, f);
    }
  }

  /** No transfer ever has two entries, so no file is moved by two jobs at once. */
  lemma {:induction false} NeverTwoJobs(run: seq<Action>, i: nat, k: nat)
    ensures var s := Execute(Empty(), run);
            i < k < |s.files| ==> s.files[i].f != s.files[k].f
  {
    RunKeeps(Empty(), run);
    var s := Execute(Empty(), run);
    if s.open {
      EntriesDistinct(s);
    }
  }

  /** A transfer taken off the list is not worked on, and no event will make it so. */
  lemma {:induction false} DeletedIsIdle(run: seq<Action>, f: Id)
    ensures var s := Execute(Empty(), run);
            s.open && f in s.pub && f !in s.listed ==> Tokens(s, f) == 0
  {
    RunKeeps(Empty(), run);
  }

  /**
   * Closing the channel empties its list without publishing anything: a transfer shown in process from
   * then on stays so, whatever the user does, and can be neither started again nor deleted.
   */
  lemma {:induction false} ClosedChannelStrands(s: System, run: seq<Action>, f: Id)
    requires Inv(s) && !s.open && f in s.pub && s.pub[f].Process()
    ensures var t := Execute(s, run);
            f in t.pub && t.pub[f] == s.pub[f] && f in t.listed && !Enabled(t, Delete(f))
    decreases |run|
  {
    if run != [] {
      if Enabled(s, run[0]) {
        ActionKeeps(s, run[0]);
        assert !run[0].VisitEntry? && !run[0].Publish?;
        ClosedChannelStrands(Apply(s, run[0]), run[1..], f);
      } else {
        ClosedChannelStrands(s, run[1..], f);
      }
    }
  }

  // ----- stopping -----

  /** A stop event of the transfer waits at place i, and no start event of it behind that. */
  ghost predicate StopAt(queue: seq<Event>, f: Id, i: nat)
  {
    i < |queue| && queue[i] == StopEvent(f) && Pending(queue[i..], f) == 0
  }

  predicate IsLeaving(s: System, f: Id) { s.backend.Leaving? && s.backend.f == f }

  /** The user is not about to start the transfer, and unless it is idle or leaving its end is queued. */
  ghost predicate Halting(s: System, f: Id)
  {
    && (!s.ui.Idle? ==> s.ui.f != f)
    && (InProcess(s, f) && !IsLeaving(s, f) ==> exists i: nat :: StopAt(s.queue, f, i))
  }

  lemma {:induction false} StopAtSnoc(queue: seq<Event>, e: Event, f: Id, i: nat)
    requires StopAt(queue, f, i) && e != StartEvent(f)
    ensures StopAt(queue + [e], f, i)
  {
    PendingSnoc(queue[i..], e, f);
    assert (queue + [e])[i..] == queue[i..] + [e];
  }

  lemma {:induction false} StopAtTail(queue: seq<Event>, f: Id, i: nat)
    requires StopAt(queue, f, i) && 0 < i
    ensures StopAt(queue[1..], f, i - 1)
  {
    assert queue[1..][i - 1..] == queue[i..];
  }

  /** Taking the oldest event: the stop itself finds the entry, as no start is left before it. */
  lemma {:induction false} DispatchHalts(s: System, started: Job, f: Id, i: nat)
    requires Inv(s) && s.open && Enabled(s, Dispatch(started)) && s.ui != Posting(f)
    requires InProcess(s, f) && StopAt(s.queue, f, i)
    ensures var t := TakeEvent(s, started);
            t.ui == s.ui && (IsLeaving(t, f) || exists k: nat :: StopAt(t.queue, f, k))
  {
    DispatchIds(s, started);
    if i > 0 {
      StopAtTail(s.queue, f, i);
    } else {
      assert s.queue[0..] == s.queue;
      assert Tokens(s, f) == Working(s.files, f) == 1;
      if Find(s.files, f) == |s.files| {
        NeverWorking(s.files, f);
      }
    }
  }

  lemma {:induction false} NeverWorking(files: seq<Entry>, f: Id)
    requires forall i :: 0 <= i < |files| ==> files[i].f != f
    ensures Working(files, f) == 0
  {
    if files != [] {
      NeverWorking(files[1..], f);
    }
  }

  lemma {:induction false} ActionHalts(s: System, a: Action, f: Id)
    requires Inv(s) && s.open && Enabled(s, a) && a != Click(f) && !a.CloseChannel? && Halting(s, f)
    ensures Halting(Apply(s, a), f)
  {
    ProcessFollowsTokens(s, a, f);
    if InProcess(s, f) && !IsLeaving(s, f) {
      var i: nat :| StopAt(s.queue, f, i);
      match a
      case Click(g) =>
        StopAtSnoc(s.queue, StopEvent(g), f, i);
        assert StopAt(Apply(s, a).queue, f, i);
      case Post =>
        StopAtSnoc(s.queue, StartEvent(s.ui.f), f, i);
        assert StopAt(Apply(s, a).queue, f, i);
      case Dispatch(j) => DispatchHalts(s, j, f, i);
      case _ => assert StopAt(Apply(s, a).queue, f, i);
    }
  }

  lemma {:induction false} RunHalts(s: System, run: seq<Action>, f: Id)
    requires Inv(s) && (s.open ==> Halting(s, f)) && Click(f) !in run
    ensures var t := Execute(s, run); t.open ==> Inv(t) && Halting(t, f)
    decreases |run|
  {
    if run != [] {
      assert Click(f) !in run[1..] && run[0] != Click(f);
      if Enabled(s, run[0]) {
        ActionKeeps(s, run[0]);
        if s.open && !run[0].CloseChannel? {
          ActionHalts(s, run[0], f);
        }
        RunHalts(Apply(s, run[0]), run[1..], f);
      } else {
        RunHalts(s, run[1..], f);
      }
    }
  }

  /** Between the two tests of a click on the transfer: its stop is queued, unless it is idle or leaving. */
  ghost predicate Between(s: System, f: Id)
  {
    && s.ui == Tested(f) && f in s.pub
    && (InProcess(s, f) && !IsLeaving(s, f) ==> exists i: nat :: StopAt(s.queue, f, i))
  }

  /** Any step but the second test: the window can do nothing else, and the channel keeps or ends it. */
  lemma {:induction false} ActionBetween(s: System, a: Action, f: Id)
    requires Inv(s) && s.open && Enabled(s, a) && a != SecondTest && !a.CloseChannel? && Between(s, f)
    ensures Between(Apply(s, a), f)
  {
    ProcessFollowsTokens(s, a, f);
    if InProcess(s, f) && !IsLeaving(s, f) {
      var i: nat :| StopAt(s.queue, f, i);
      if a.Dispatch? {
        DispatchHalts(s, a.started, f, i);
      } else {
        assert StopAt(Apply(s, a).queue, f, i);
      }
    }
  }

  lemma {:induction false} RunBetween(s: System, mid: seq<Action>, f: Id)
    requires Inv(s) && s.ui == Tested(f) && f in s.pub && (s.open ==> Between(s, f)) && SecondTest !in mid
    ensures var m := Execute(s, mid);
            Inv(m) && m.ui == Tested(f) && f in m.pub && (m.open ==> Between(m, f))
    decreases |mid|
  {
    if mid != [] {
      assert SecondTest !in mid[1..] && mid[0] != SecondTest;
      if Enabled(s, mid[0]) {
        ActionKeeps(s, mid[0]);
        if s.open && !mid[0].CloseChannel? {
          ActionBetween(s, mid[0], f);
        }
        RunBetween(Apply(s, mid[0]), mid[1..], f);
      } else {
        RunBetween(s, mid[1..], f);
      }
    }
  }

  /** The first test of a click on a transfer in process: its stop is at the end of the queue. */
  lemma {:induction false} ClickQueuesStop(s: System, f: Id)
    requires Inv(s) && s.open && s.ui.Idle? && InProcess(s, f)
    ensures Enabled(s, Click(f)) && Inv(Apply(s, Click(f))) && Between(Apply(s, Click(f)), f)
  {
    var c := Apply(s, Click(f));
    ActionKeeps(s, Click(f));
    assert c.queue[|s.queue|..] == [StopEvent(f)] && [StopEvent(f)][1..] == [];
    assert StopAt(c.queue, f, |s.queue|);
  }

  /** The state between the two tests of a click, after whatever else has happened meanwhile. */
  function Midway(s: System, mid: seq<Action>, f: Id): System
    requires Enabled(s, Click(f))
  {
    Execute(Apply(s, Click(f)), mid)
  }

  /**
   * A click on a transfer in process, with any steps of the channel between its two tests, ends the transfer
   * unless the second test finds that it can be started: in every continuation without another click on
   * it, once the queue is empty and nothing of it is being published, it is not in process any more.
   */
  lemma {:induction false} StopIsHonoured(s: System, mid: seq<Action>, run: seq<Action>, f: Id)
    requires Inv(s) && s.open && s.ui.Idle? && InProcess(s, f) && SecondTest !in mid && Click(f) !in run
    ensures Enabled(s, Click(f)) && f in Midway(s, mid, f).pub
    ensures var m := Midway(s, mid, f);
            var t := Execute(m, [SecondTest] + run);
            !m.pub[f].CanStart() && t.open && t.queue == [] && !IsLeaving(t, f) ==> !InProcess(t, f)
  {
    ClickQueuesStop(s, f);
    RunBetween(Apply(s, Click(f)), mid, f);
    var m := Midway(s, mid, f);
    ActionKeeps(m, SecondTest);
    var d := Apply(m, SecondTest);
    if !m.pub[f].CanStart() {
      RunHalts(d, run, f);
      assert ([SecondTest] + run)[1..] == run;
    }
  }

  /** Whether the channel publishes Stop or Fail for the transfer in one of the steps. */
  predicate Publishes(s: System, run: seq<Action>, f: Id)
    decreases |run|
  {
    run != [] &&
    if !Enabled(s, run[0]) then Publishes(s, run[1..], f)
    else
      (run[0].Publish? && s.backend.f == f && s.backend.last.CanStart()) || Publishes(Apply(s, run[0]), run[1..], f)
  }

  /** No other step changes whether a transfer that is between the two tests can be started. */
  lemma {:induction false} OthersKeepStart(s: System, a: Action, f: Id)
    requires Inv(s) && Enabled(s, a) && s.ui == Tested(f) && f in s.pub
    requires a != SecondTest && !(a.Publish? && s.backend.f == f)
    ensures var t := Apply(s, a);
            && f in t.pub && t.ui == Tested(f)
            && InProcess(t, f) == InProcess(s, f) && t.pub[f].CanStart() == s.pub[f].CanStart()
  {
    if s.open && !a.CloseChannel? {
      ProcessFollowsTokens(s, a, f);
    }
  }

  lemma {:induction false} StartableIff(s: System, mid: seq<Action>, f: Id)
    requires Inv(s) && s.ui == Tested(f) && f in s.pub && SecondTest !in mid
    ensures var m := Execute(s, mid);
            f in m.pub && (m.pub[f].CanStart() <==> s.pub[f].CanStart() || Publishes(s, mid, f))
    ensures !InProcess(s, f) ==> !Publishes(s, mid, f)
    decreases |mid|
  {
    if mid != [] {
      var a := mid[0];
      assert SecondTest !in mid[1..] && a != SecondTest;
      if !Enabled(s, a) {
        StartableIff(s, mid[1..], f);
      } else {
        ActionKeeps(s, a);
        if a.Publish? && s.backend.f == f {
          PublishIds(s);
        } else {
          OthersKeepStart(s, a, f);
        }
        StartableIff(Apply(s, a), mid[1..], f);
      }
    }
  }

  /** A stop event taken while an entry works on its transfer: it is shown as stopped, and can be started again. */
  lemma {:induction false} StopIsShown(s: System, started: Job)
    requires Inv(s) && s.open && Enabled(s, Dispatch(started)) && s.queue[0].StopEvent?
    ensures var f := s.queue[0].f;
            var t := Apply(s, Dispatch(started));
            if Find(s.files, f) < |s.files|
            then Enabled(t, Publish) && Apply(t, Publish).pub == s.pub[f := Stop]
                 && Working(Apply(t, Publish).files, f) == 0
            else t == s.(queue := s.queue[1..])
  {
    var f := s.queue[0].f;
    var i := Find(s.files, f);
    if i < |s.files| {
      StopsAndCleansOnly(s.files[i].job);
      WorkingAt(s.files, i, f);
      assert Tokens(s, f) <= 1;
    }
  }

  /**
   * The click that was meant to stop the transfer starts it again, its start event being posted, if and only
   * if the channel has published Stop or Fail for it between the two tests.
   */
  lemma {:induction false} StopClickRestartsIff(s: System, mid: seq<Action>, f: Id)
    requires Inv(s) && s.open && s.ui.Idle? && InProcess(s, f) && SecondTest !in mid
    ensures Enabled(s, Click(f)) && f in Midway(s, mid, f).pub
    ensures var m := Midway(s, mid, f);
            var n := Execute(m, [SecondTest, Post]);
            && (m.pub[f].CanStart() <==> Publishes(Apply(s, Click(f)), mid, f))
            && (n.queue == m.queue + [StartEvent(f)] <==> Publishes(Apply(s, Click(f)), mid, f))
            && (m.pub[f].CanStart() ==> n.pub == m.pub[f := Opening])
            && (!m.pub[f].CanStart() ==> n.queue == m.queue && n.pub == m.pub)
            && n.ui == Idle
  {
    ClickQueuesStop(s, f);
    RunBetween(Apply(s, Click(f)), mid, f);
    StartableIff(Apply(s, Click(f)), mid, f);
    SecondTestPosts(Midway(s, mid, f), f);
  }

  lemma {:induction false} SecondTestPosts(m: System, f: Id)
    requires m.ui == Tested(f) && f in m.pub
    ensures var n := Execute(m, [SecondTest, Post]);
            && (n.queue == m.queue + [StartEvent(f)] <==> m.pub[f].CanStart())
            && (m.pub[f].CanStart() ==> n.pub == m.pub[f := Opening])
            && (!m.pub[f].CanStart() ==> n.queue == m.queue && n.pub == m.pub)
            && n.ui == Idle
  {
    var d := Apply(m, SecondTest);
    var two := [SecondTest, Post];
    assert two[1..] == [Post] && [Post][1..] == [];
    assert Execute(m, two) == Execute(d, [Post]);
    assert |m.queue + [StartEvent(f)]| != |m.queue|;
  }

  /**
   * This does happen: the channel has only to publish Stop or Fail, and not Finish, between the two tests.
   */
  lemma {:induction false} StopClickRestarts(s: System, f: Id)
    requires Inv(s) && s.open && s.ui.Idle? && IsLeaving(s, f)
    ensures var t := Execute(s, [Click(f), Publish, SecondTest, Post]);
            && f in t.pub && t.pub[f] == (if s.backend.last.Finish? then Finish else Opening)
            && t.queue == s.queue + (if s.backend.last.Finish? then [StopEvent(f)] else [StopEvent(f), StartEvent(f)])
  {
    PublishIds(s);
    var c := Apply(s, Click(f));
    var d := Apply(c, Publish);
    var e := Apply(d, SecondTest);
    var all := [Click(f), Publish, SecondTest, Post];
    assert all[1..] == [Publish, SecondTest, Post] && all[1..][1..] == [SecondTest, Post];
    assert all[1..][1..][1..] == [Post] && all[1..][1..][1..][1..] == [];
    assert Execute(s, all) == Execute(c, all[1..]) == Execute(d, all[1..][1..]) == Execute(e, [Post]);
    assert [Post][1..] == [];
  }

  // ----- from the beginning -----

  lemma {:induction false} Taken(s: System, run: seq<Action>, t: System)
    requires run != [] && Enabled(s, run[0]) && t == Apply(s, run[0])
    ensures Execute(s, run) == Execute(t, run[1..])
  {
  }

  /** A transfer is listed and clicked on, and the channel takes it up. */
  function TakeUp(f: Id, started: Job): seq<Action>
  {
    [Add(f, No), Click(f), SecondTest, Post, Dispatch(started)]
  }

  function TakenUp(f: Id, started: Job): System
  {
    System(map[f := Opening], {f}, [], [Entry(f, started)], Idle, Ready, true)
  }

  lemma {:induction false} TakeUpReaches(f: Id, started: Job, rest: seq<Action>)
    requires started == Started(started.dir, started.size, started.shown, started.source, started.sink)
    ensures Execute(Empty(), TakeUp(f, started) + rest) == Execute(TakenUp(f, started), rest)
  {
    var run := TakeUp(f, started) + rest;
    var a := System(map[f := No], {f}, [], [], Idle, Ready, true);
    var b := a.(ui := Tested(f));
    var c := a.(ui := Posting(f), pub := map[f := Opening]);
    var d := c.(ui := Idle, queue := [StartEvent(f)]);
    Taken(Empty(), run, a);
    Taken(a, run[1..], b);
    Taken(b, run[2..], c);
    Taken(c, run[3..], d);
    Taken(d, run[4..], TakenUp(f, started));
    assert run[5..] == rest;
  }

  /** The remote file does not open, and the next pass erases the entry. */
  function FailAndErase(a: Answers, b: Answers): seq<Action>
  {
    [BeginPass, VisitEntry(a), EndPass, BeginPass, VisitEntry(b)]
  }

  lemma {:induction false} FailureReaches(f: Id, started: Job, a: Answers, b: Answers)
    requires started == Started(started.dir, started.size, started.shown, started.source, started.sink)
    requires !a.remoteOpens
    ensures Execute(TakenUp(f, started), FailAndErase(a, b)) ==
            TakenUp(f, started).(files := [], backend := Leaving(f, Fail, Some(0)))
  {
    var run := FailAndErase(a, b);
    var s := TakenUp(f, started);
    var failed := started.(stage := ERR);
    var p := s.(backend := InPass(0));
    var q := p.(files := [Entry(f, failed)], backend := InPass(1));
    assert Step(started, a) == Kept(failed);
    assert q.pub == p.pub[f := failed.state];
    assert VisitOne(p, a) == q;
    var u := q.(backend := InPass(0));
    assert Step(failed, b).Left? && Step(failed, b).entry.state == Fail;
    var v := u.(files := [], backend := Leaving(f, Fail, Some(0)));
    assert VisitOne(u, b) == v;
    Taken(s, run, p);
    Taken(p, run[1..], q);
    Taken(q, run[2..], q.(backend := Ready));
    Taken(q.(backend := Ready), run[3..], u);
    Taken(u, run[4..], v);
  }

  /**
   * From an empty list: a transfer whose remote file does not open is being taken off when the user clicks to
   * stop it, and it is started again.
   */
  lemma {:induction false} RestartHappens(f: Id, started: Job, a: Answers, b: Answers)
    requires started == Started(started.dir, started.size, started.shown, started.source, started.sink)
    requires !a.remoteOpens
    ensures var s := Execute(Empty(), TakeUp(f, started) + FailAndErase(a, b));
            var t := Execute(s, [Click(f), Publish, SecondTest, Post]);
            && Inv(s) && InProcess(s, f)
            && f in t.pub && t.pub[f] == Opening && t.queue == [StopEvent(f), StartEvent(f)]
  {
    var run := TakeUp(f, started) + FailAndErase(a, b);
    RunKeeps(Empty(), run);
    TakeUpReaches(f, started, FailAndErase(a, b));
    FailureReaches(f, started, a, b);
    StopClickRestarts(Execute(Empty(), run), f);
  }

  /** From an empty list: a transfer is taken up, the channel closes, and the transfer stays in process for good. */
  lemma {:induction false} StrandingHappens(f: Id, started: Job, run: seq<Action>)
    requires started == Started(started.dir, started.size, started.shown, started.source, started.sink)
    ensures var s := Execute(Empty(), TakeUp(f, started) + [CloseChannel]);
            var t := Execute(s, run);
            Inv(s) && InProcess(s, f) && InProcess(t, f) && !Enabled(t, Delete(f))
  {
    RunKeeps(Empty(), TakeUp(f, started) + [CloseChannel]);
    TakeUpReaches(f, started, [CloseChannel]);
    var u := TakenUp(f, started);
    Taken(u, [CloseChannel], u.(files := [], open := false));
    ClosedChannelStrands(u.(files := [], open := false), run, f);
  }
}

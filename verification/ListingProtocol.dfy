/**
 * How directory listings travel: a tree model asks for a node at most once, the request waits as an event,
 * becomes a reader of the channel and comes back as a reply that is offered to every model.
 *
 * Nodes are named by numbers that are never used twice; `owner` remembers which model made a node, also
 * after the node is gone.  All models live in the window's thread, readers and events in the backend's.
 *
 * A reply for a deleted node that a model still waits for is written through a pointer to that node.  What
 * the program does then is not defined: the system is `broken` from there on and makes no further step.
 */
module ListingProtocol {
  import opened ListingModel

  type Id = nat

  /** CChannelSFTP::STATE of a directory reader. */
  datatype Stage = OPEN | READ | CLOSE | FINISH | ERR

  datatype Reader = Reader(node: Id, stage: Stage)

  datatype System = System(
    models: seq<Model<Id>>, owner: map<Id, nat>, queue: seq<Id>, readers: seq<Reader>, replies: seq<Id>,
    open: bool, broken: bool)

  datatype Action =
    | SetRootPath(m: nat, root: Id)
    | FetchMore(m: nat, p: Id)
    | SetNo(m: nat, p: Id)
    | RemoveNodes(m: nat, dead: set<Id>)
    | Dispatch
    | StepReader(i: nat, next: Stage)
    | Deliver(kids: set<Id>)
    | CloseChannel

  /** The transitions of AsyncReadDir that keep a reader in the list, lines 409-490. */
  predicate ReaderMoves(a: Stage, b: Stage)
  {
    match a
    case OPEN => b in {OPEN, READ, FINISH, ERR}
    case READ => b in {READ, CLOSE, ERR}
    case CLOSE => b == FINISH
    case ERR => b == CLOSE
    case FINISH => b == FINISH
  }

  /** The model that made a node gets the new nodes of its listing. */
  predicate Fresh(s: System, kids: set<Id>) { kids !! s.owner.Keys }

  predicate Enabled(s: System, a: Action)
  {
    !s.broken &&
    match a
    case SetRootPath(m, root) => m < |s.models| && root !in s.owner
    case FetchMore(m, p) => m < |s.models| && p in s.models[m].nodes
    case SetNo(m, p) => m < |s.models| && p in s.models[m].nodes
    case RemoveNodes(m, dead) => m < |s.models| && dead <= s.models[m].nodes.Keys
    case Dispatch => s.queue != []
    case StepReader(i, next) => i < |s.readers| && ReaderMoves(s.readers[i].stage, next)
    case Deliver(kids) => s.replies != [] && s.replies[0] in s.owner && Fresh(s, kids)
    case CloseChannel => s.open
  }

  /** Whether the channel already has a reader for a node, lines 386-391. */
  function FindReader(readers: seq<Reader>, p: Id): (i: nat)
    ensures i <= |readers|
    ensures i < |readers| ==> readers[i].node == p
    ensures i == |readers| ==> forall k :: 0 <= k < |readers| ==> readers[k].node != p
  {
    if readers == [] || readers[0].node == p then 0 else 1 + FindReader(readers[1..], p)
  }

  /** Whether a model waits for a node that it does not have any more. */
  predicate WaitsForDead(model: Model<Id>, p: Id) { p in model.getFolder && p !in model.nodes }

  predicate AnyWaitsForDead(models: seq<Model<Id>>, p: Id)
  {
    exists m :: 0 <= m < |models| && WaitsForDead(models[m], p)
  }

  /** What a reply does to a model that does not wait for a deleted node with it. */
  function Offered(model: Model<Id>, p: Id, kids: set<Id>): Model<Id>
  {
    if WaitsForDead(model, p) then model else Receive(model, p, kids)
  }

  function ReceiveAll(models: seq<Model<Id>>, p: Id, owner: nat, kids: set<Id>): (r: seq<Model<Id>>)
    ensures |r| == |models|
    ensures forall m :: 0 <= m < |models| ==> r[m] == Offered(models[m], p, if m == owner then kids else {})
  {
    seq(|models|, m requires 0 <= m < |models| => Offered(models[m], p, if m == owner then kids else {}))
  }

  function Apply(s: System, a: Action): System
    requires Enabled(s, a)
  {
    match a
    case SetRootPath(m, root) =>
      s.(models := s.models[m := Model(map[root := No], [])], owner := s.owner[root := m])
    case FetchMore(m, p) =>
      var (model, asks) := Fetch(s.models[m], p);
      s.(models := s.models[m := model], queue := if asks then s.queue + [p] else s.queue)
    case SetNo(m, p) =>
      s.(models := s.models[m := s.models[m].(nodes := s.models[m].nodes[p := No])])
    case RemoveNodes(m, dead) =>
      s.(models := s.models[m := s.models[m].(nodes := s.models[m].nodes - dead)])
    case Dispatch =>
      var p := s.queue[0];
      if !s.open || FindReader(s.readers, p) < |s.readers| then s.(queue := s.queue[1..])
      else s.(queue := s.queue[1..], readers := s.readers + [Reader(p, OPEN)])
    case StepReader(i, next) =>
      if s.readers[i].stage.FINISH? then
        s.(readers := Without(s.readers, i), replies := s.replies + [s.readers[i].node])
      else s.(readers := s.readers[i := s.readers[i].(stage := next)])
    case Deliver(kids) =>
      var p := s.replies[0];
      var m := s.owner[p];
      if AnyWaitsForDead(s.models, p) then s.(broken := true)
      else
        s.(models := ReceiveAll(s.models, p, m, kids), replies := s.replies[1..],
           owner := s.owner + (map k | k in kids :: m))
    case CloseChannel => s.(readers := [], open := false)
  }

  /** Any interleaving: actions that are not enabled do nothing. */
  function Execute(s: System, run: seq<Action>): System
    decreases |run|
  {
    if run == [] then s
    else Execute(if Enabled(s, run[0]) then Apply(s, run[0]) else s, run[1..])
  }

  /** Models that have not been given a root yet. */
  function Empty(n: nat): System
  {
    System(seq(n, _ => Model(map[], [])), map[], [], [], [], true, false)
  }

  // ----- the invariant -----

  function Count(xs: seq<Id>, p: Id): nat
  {
    if xs == [] then 0 else (if xs[0] == p then 1 else 0) + Count(xs[1..], p)
  }

  function Reading(readers: seq<Reader>, p: Id): nat
  {
    if readers == [] then 0 else (if readers[0].node == p then 1 else 0) + Reading(readers[1..], p)
  }

  /** Everything under way for a node: its waiting request, its reader and its reply. */
  function UnderWay(s: System, p: Id): nat
  {
    Count(s.queue, p) + Reading(s.readers, p) + Count(s.replies, p)
  }

  /** How much may be under way for a node of a model: one listing if the model waits for it. */
  function Expected(model: Model<Id>, p: Id): nat { if p in model.getFolder then 1 else 0 }

  /** A model waits for a node at most once; while the channel is open, exactly as long as something is under way. */
  ghost predicate ModelOk(s: System, m: nat)
    requires m < |s.models|
  {
    var w := s.models[m];
    && (forall p :: Count(w.getFolder, p) <= 1)
    && (forall p :: p in w.getFolder ==> p in s.owner && s.owner[p] == m && (s.open ==> UnderWay(s, p) == 1))
    && (forall p :: p in w.nodes ==> p in s.owner && s.owner[p] == m)
    && (forall p :: p in w.nodes ==>
          UnderWay(s, p) <= Expected(w, p) && (s.open ==> UnderWay(s, p) == Expected(w, p)))
    && (forall p :: p in w.nodes && w.nodes[p].Getting? ==> p in w.getFolder)
  }

  ghost predicate Inv(s: System)
  {
    && (forall m :: 0 <= m < |s.models| ==> ModelOk(s, m))
    && (forall p :: UnderWay(s, p) <= if p in s.owner then 1 else 0)
    && (!s.open ==> s.readers == [])
  }

  lemma {:induction false} CountConcat(xs: seq<Id>, ys: seq<Id>, p: Id)
    ensures Count(xs + ys, p) == Count(xs, p) + Count(ys, p)
  {
    if xs == [] {
      assert xs + ys == ys;
    } else {
      CountConcat(xs[1..], ys, p);
      assert (xs + ys)[1..] == xs[1..] + ys;
    }
  }

  lemma {:induction false} CountSnoc(xs: seq<Id>, q: Id, p: Id)
    ensures Count(xs + [q], p) == Count(xs, p) + (if q == p then 1 else 0)
  {
    CountConcat(xs, [q], p);
    assert [q][1..] == [];
  }

  lemma {:induction false} CountWithout(xs: seq<Id>, i: nat, p: Id)
    requires i < |xs|
    ensures Count(xs, p) == Count(Without(xs, i), p) + (if xs[i] == p then 1 else 0)
  {
    CountConcat(xs[..i], xs[i + 1..], p);
    CountConcat(xs[..i], xs[i..], p);
    assert xs == xs[..i] + xs[i..] && xs[i..][1..] == xs[i + 1..];
  }

  lemma {:induction false} CountIn(xs: seq<Id>, p: Id)
    ensures Count(xs, p) > 0 <==> p in xs
  {
    if xs != [] {
      CountIn(xs[1..], p);
      assert xs == [xs[0]] + xs[1..];
    }
  }

  lemma {:induction false} ReadingConcat(xs: seq<Reader>, ys: seq<Reader>, p: Id)
    ensures Reading(xs + ys, p) == Reading(xs, p) + Reading(ys, p)
  {
    if xs == [] {
      assert xs + ys == ys;
    } else {
      ReadingConcat(xs[1..], ys, p);
      assert (xs + ys)[1..] == xs[1..] + ys;
    }
  }

  lemma {:induction false} ReadingAt(xs: seq<Reader>, i: nat, p: Id)
    requires i < |xs|
    ensures Reading(xs, p) == Reading(Without(xs, i), p) + (if xs[i].node == p then 1 else 0)
  {
    ReadingConcat(xs[..i], xs[i + 1..], p);
    ReadingConcat(xs[..i], xs[i..], p);
    assert xs == xs[..i] + xs[i..] && xs[i..][1..] == xs[i + 1..];
  }

  lemma {:induction false} ReadingUpdate(xs: seq<Reader>, i: nat, r: Reader, p: Id)
    requires i < |xs| && r.node == xs[i].node
    ensures Reading(xs[i := r], p) == Reading(xs, p)
  {
    ReadingAt(xs, i, p);
    ReadingAt(xs[i := r], i, p);
    assert Without(xs[i := r], i) == Without(xs, i);
  }

  // ----- conservation -----

  /**
   * Asking makes a request and delivering ends it; a closed channel drops readers and requests; nothing
   * else changes how much is under way.
   */
  function Change(s: System, a: Action, p: Id): int
    requires Enabled(s, a)
  {
    if a.FetchMore? && a.p == p && Fetch(s.models[a.m], p).1 then 1
    else if a.Deliver? && s.replies[0] == p && !AnyWaitsForDead(s.models, p) then -1
    else if a.Dispatch? && !s.open && s.queue[0] == p then -1
    else if a.CloseChannel? then 0 - Reading(s.readers, p)
    else 0
  }

  /** The channel's own test for a second reader never finds one. */
  lemma {:induction false} DispatchIsNew(s: System)
    requires Inv(s) && s.queue != []
    ensures FindReader(s.readers, s.queue[0]) == |s.readers|
  {
    var p := s.queue[0];
    var i := FindReader(s.readers, p);
    assert UnderWay(s, p) <= 1;
    if i < |s.readers| {
      ReadingAt(s.readers, i, p);
    }
  }

  lemma {:induction false} Conserved(s: System, a: Action, p: Id)
    requires Inv(s) && Enabled(s, a)
    ensures UnderWay(Apply(s, a), p) == UnderWay(s, p) + Change(s, a, p)
  {
    match a
    case FetchMore(_, q) => CountSnoc(s.queue, q, p);
    case Dispatch =>
      DispatchIsNew(s);
      assert s.queue == [s.queue[0]] + s.queue[1..];
      ReadingConcat(s.readers, [Reader(s.queue[0], OPEN)], p);
      assert [Reader(s.queue[0], OPEN)][1..] == [];
    case StepReader(i, next) =>
      ReadingAt(s.readers, i, p);
      CountSnoc(s.replies, s.readers[i].node, p);
      ReadingUpdate(s.readers, i, s.readers[i].(stage := next), p);
    case _ =>
  }

  // ----- every step keeps the invariant -----

  lemma {:induction false} FetchCounts(s: System, m: nat, q: Id, k: nat)
    requires Inv(s) && Enabled(s, FetchMore(m, q)) && k < |s.models|
    ensures forall p :: Count(Apply(s, FetchMore(m, q)).models[k].getFolder, p) <= 1
  {
    var t := Apply(s, FetchMore(m, q));
    assert ModelOk(s, k);
    forall p ensures Count(t.models[k].getFolder, p) <= 1 {
      CountSnoc(s.models[k].getFolder, q, p);
      CountIn(s.models[k].getFolder, p);
    }
  }

  lemma {:induction false} FetchKeeps(s: System, m: nat, q: Id, k: nat)
    requires Inv(s) && Enabled(s, FetchMore(m, q)) && k < |s.models|
    ensures ModelOk(Apply(s, FetchMore(m, q)), k)
  {
    var t := Apply(s, FetchMore(m, q));
    assert ModelOk(s, m) && ModelOk(s, k);
    forall p ensures UnderWay(t, p) == UnderWay(s, p) + Change(s, FetchMore(m, q), p) {
      Conserved(s, FetchMore(m, q), p);
    }
    FetchCounts(s, m, q, k);
  }

  /** A reply to a node a model does not wait for leaves that model as it is. */
  lemma {:induction false} ReceiveOthers(model: Model<Id>, p: Id, kids: set<Id>)
    requires p !in model.getFolder
    ensures Receive(model, p, kids) == model
  {
  }

  lemma {:induction false} FolderWithout(xs: seq<Id>, i: nat)
    requires i < |xs| && forall p :: Count(xs, p) <= 1
    ensures forall p :: Count(Without(xs, i), p) <= 1 && (p in Without(xs, i) <==> p in xs && p != xs[i])
  {
    forall p ensures Count(Without(xs, i), p) <= 1 && (p in Without(xs, i) <==> p in xs && p != xs[i]) {
      CountWithout(xs, i, p);
      CountIn(xs, p);
      CountIn(Without(xs, i), p);
    }
  }

  /** The reply reaches a model that waits for the node. */
  lemma {:induction false} DeliverToAsker(s: System, kids: set<Id>, k: nat)
    requires Inv(s) && Enabled(s, Deliver(kids)) && k < |s.models| && !AnyWaitsForDead(s.models, s.replies[0])
    requires s.replies[0] in s.models[k].getFolder
    ensures ModelOk(Apply(s, Deliver(kids)), k)
  {
    hide UnderWay, Count, Find, Without;
    var t := Apply(s, Deliver(kids));
    var q := s.replies[0];
    var w := s.models[k];
    assert ModelOk(s, k);
    forall p ensures UnderWay(t, p) == UnderWay(s, p) + Change(s, Deliver(kids), p) {
      Conserved(s, Deliver(kids), p);
    }
    FolderWithout(w.getFolder, Find(w.getFolder, q));
    assert !WaitsForDead(w, q) && k == s.owner[q];
    assert t.models[k] == Receive(w, q, kids);
  }

  /** The reply is offered to a model that does not wait for the node. */
  lemma {:induction false} DeliverToOther(s: System, kids: set<Id>, k: nat)
    requires Inv(s) && Enabled(s, Deliver(kids)) && k < |s.models| && !AnyWaitsForDead(s.models, s.replies[0])
    requires s.replies[0] !in s.models[k].getFolder
    ensures ModelOk(Apply(s, Deliver(kids)), k)
  {
    var t := Apply(s, Deliver(kids));
    assert ModelOk(s, k);
    forall p ensures UnderWay(t, p) == UnderWay(s, p) + Change(s, Deliver(kids), p) {
      Conserved(s, Deliver(kids), p);
    }
    ReceiveOthers(s.models[k], s.replies[0], if k == s.owner[s.replies[0]] then kids else {});
    assert t.models[k] == s.models[k];
  }

  lemma {:induction false} DeliverKeeps(s: System, kids: set<Id>, k: nat)
    requires Inv(s) && Enabled(s, Deliver(kids)) && k < |s.models| && !AnyWaitsForDead(s.models, s.replies[0])
    ensures ModelOk(Apply(s, Deliver(kids)), k)
  {
    if s.replies[0] in s.models[k].getFolder {
      DeliverToAsker(s, kids, k);
    } else {
      DeliverToOther(s, kids, k);
    }
  }

  /** The channel does not touch the models. */
  lemma {:induction false} ChannelKeeps(s: System, a: Action, k: nat)
    requires Inv(s) && Enabled(s, a) && k < |s.models| && (a.Dispatch? || a.StepReader? || a.CloseChannel?)
    ensures ModelOk(Apply(s, a), k)
  {
    var t := Apply(s, a);
    assert ModelOk(s, k);
    forall p ensures UnderWay(t, p) <= UnderWay(s, p) && (t.open ==> UnderWay(t, p) == UnderWay(s, p)) {
      Conserved(s, a, p);
    }
    assert t.models[k] == s.models[k] && t.owner == s.owner;
  }

  ghost predicate Counted(xs: seq<Id>) { forall p :: Count(xs, p) <= 1 }

  lemma {:induction false} RootCounts(s: System, a: Action, k: nat)
    requires Inv(s) && Enabled(s, a) && k < |s.models| && (a.SetRootPath? || a.SetNo? || a.RemoveNodes?)
    ensures Counted(Apply(s, a).models[k].getFolder)
  {
    assert ModelOk(s, k);
  }

  /** What a tree does on its own asks for nothing. */
  lemma {:induction false} TreeKeeps(s: System, a: Action, k: nat)
    requires Inv(s) && Enabled(s, a) && k < |s.models| && (a.SetRootPath? || a.SetNo? || a.RemoveNodes?)
    ensures ModelOk(Apply(s, a), k)
  {
    hide UnderWay, Count;
    var t := Apply(s, a);
    assert ModelOk(s, k);
    forall p ensures UnderWay(t, p) == UnderWay(s, p) {
      Conserved(s, a, p);
    }
    assert Counted(t.models[k].getFolder) by {
      RootCounts(s, a, k);
    }
    if a.SetRootPath? {
      assert UnderWay(s, a.root) == 0;
    }
  }

  lemma {:induction false} LocalKeeps(s: System, a: Action, k: nat)
    requires Inv(s) && Enabled(s, a) && k < |s.models| && !a.FetchMore? && !a.Deliver?
    ensures ModelOk(Apply(s, a), k)
  {
    if a.SetRootPath? || a.SetNo? || a.RemoveNodes? {
      TreeKeeps(s, a, k);
    } else {
      ChannelKeeps(s, a, k);
    }
  }

  lemma {:induction false} SameUnderWay(s: System, t: System, k: nat)
    requires k < |s.models| && ModelOk(s, k) && t == s.(broken := true)
    ensures ModelOk(t, k)
  {
    assert forall p :: UnderWay(t, p) == UnderWay(s, p);
  }

  lemma {:induction false} ActionKeeps(s: System, a: Action)
    requires Inv(s) && Enabled(s, a)
    ensures Inv(Apply(s, a))
  {
    var t := Apply(s, a);
    forall k | 0 <= k < |t.models| ensures ModelOk(t, k) {
      match a
      case FetchMore(m, q) => FetchKeeps(s, m, q, k);
      case Deliver(kids) =>
        assert ModelOk(s, k);
        if !AnyWaitsForDead(s.models, s.replies[0]) {
          DeliverKeeps(s, kids, k);
        } else {
          SameUnderWay(s, t, k);
        }
      case _ => LocalKeeps(s, a, k);
    }
    forall p ensures UnderWay(t, p) <= if p in t.owner then 1 else 0 {
      Conserved(s, a, p);
      if a.FetchMore? {
        assert ModelOk(s, a.m);
      }
    }
  }

  lemma {:induction false} RunKeeps(s: System, run: seq<Action>)
    requires Inv(s)
    ensures Inv(Execute(s, run)) && |Execute(s, run).models| == |s.models|
    decreases |run|
  {
    if run != [] {
      if Enabled(s, run[0]) {
        ActionKeeps(s, run[0]);
        RunKeeps(Apply(s, run[0]), run[1..]);
      } else {
        RunKeeps(s, run[1..]);
      }
    }
  }

  // ----- what it means -----

  /**
   * In every interleaving, for every live node of every model, while the channel is open: one thing is under
   * way for it exactly while the model waits for it, otherwise nothing is.  A closed channel may have
   * dropped what was under way.  A node shown as being listed is waited for, and none twice.
   */
  lemma {:induction false} OneListingPerNode(n: nat, run: seq<Action>, m: nat, p: Id)
    requires m < n
    ensures var s := Execute(Empty(n), run);
            && m < |s.models|
            && (p in s.models[m].nodes ==>
                  && UnderWay(s, p) <= (if p in s.models[m].getFolder then 1 else 0)
                  && (s.open ==> UnderWay(s, p) == (if p in s.models[m].getFolder then 1 else 0))
                  && (s.models[m].nodes[p].Getting? ==> p in s.models[m].getFolder))
            && Count(s.models[m].getFolder, p) <= 1
  {
    RunKeeps(Empty(n), run);
    var s := Execute(Empty(n), run);
    assert ModelOk(s, m);
  }

  /** A reply changes no model but the one that made the node and still waits for it. */
  lemma {:induction false} ReplyChangesOnlyAsker(n: nat, run: seq<Action>, kids: set<Id>, m: nat)
    requires m < n
    ensures var s := Execute(Empty(n), run);
            Enabled(s, Deliver(kids)) && m < |s.models| && Apply(s, Deliver(kids)).models[m] != s.models[m] ==>
              s.owner[s.replies[0]] == m && s.replies[0] in s.models[m].getFolder
  {
    RunKeeps(Empty(n), run);
    var s := Execute(Empty(n), run);
    if Enabled(s, Deliver(kids)) {
      if s.replies[0] !in s.models[m].getFolder {
        ReceiveOthers(s.models[m], s.replies[0], {});
      }
      assert ModelOk(s, m);
    }
  }

  // ----- closing the channel -----

  /** Nothing will answer for a node that a model waits for: the channel is closed and no reply is on its way. */
  ghost predicate Stranded(s: System, m: nat, p: Id)
  {
    !s.open && m < |s.models| && p in s.models[m].getFolder && Count(s.replies, p) == 0
  }

  lemma {:induction false} ActionStrands(s: System, a: Action, m: nat, p: Id)
    requires Inv(s) && Stranded(s, m, p) && Enabled(s, a) && !(a.SetRootPath? && a.m == m)
    ensures Stranded(Apply(s, a), m, p)
  {
    if a.Deliver? && !AnyWaitsForDead(s.models, s.replies[0]) {
      var w, q := s.models[m], s.replies[0];
      var i := Find(w.getFolder, q);
      assert s.replies == [q] + s.replies[1..];
      if i < |w.getFolder| {
        var k :| 0 <= k < |w.getFolder| && w.getFolder[k] == p;
        assert k != i;
        assert Without(w.getFolder, i)[if k < i then k else k - 1] == p;
      }
    }
  }

  /**
   * Such a node stays waited for in every run that does not give its model a new root, and so no refresh of
   * it asks for anything any more.
   */
  lemma {:induction false} ClosedListingStrands(s: System, run: seq<Action>, m: nat, p: Id)
    requires Inv(s) && Stranded(s, m, p)
    requires forall i :: 0 <= i < |run| ==> !(run[i].SetRootPath? && run[i].m == m)
    ensures var t := Execute(s, run);
            && m < |t.models| && p in t.models[m].getFolder
            && (p in t.models[m].nodes ==> !Fetch(t.models[m].(nodes := t.models[m].nodes[p := No]), p).1)
    decreases |run|
  {
    if run != [] {
      assert forall i :: 0 <= i < |run[1..]| ==> run[1..][i] == run[i + 1];
      if Enabled(s, run[0]) {
        ActionKeeps(s, run[0]);
        ActionStrands(s, run[0], m, p);
        ClosedListingStrands(Apply(s, run[0]), run[1..], m, p);
      } else {
        ClosedListingStrands(s, run[1..], m, p);
      }
    }
  }

  /** Closing strands, of the nodes waited for, exactly those whose reply is not on its way yet. */
  lemma {:induction false} CloseStrandsIff(s: System, m: nat, p: Id)
    requires Inv(s) && Enabled(s, CloseChannel) && m < |s.models| && p in s.models[m].getFolder
    ensures Stranded(Apply(s, CloseChannel), m, p) <==> Count(s.queue, p) + Reading(s.readers, p) == 1
  {
    assert ModelOk(s, m);
  }

  // ----- removing nodes -----

  /** Whether a model waits only for nodes it still has. */
  predicate WaitsForLive(model: Model<Id>) { forall p :: p in model.getFolder ==> p in model.nodes }

  ghost predicate AllWaitForLive(s: System) { forall m :: 0 <= m < |s.models| ==> WaitsForLive(s.models[m]) }

  /** A removal takes only nodes that the model does not wait for; other steps may do as they like. */
  predicate CarefulStep(s: System, a: Action)
  {
    a.RemoveNodes? && a.m < |s.models| ==> forall p :: p in a.dead ==> p !in s.models[a.m].getFolder
  }

  predicate Careful(s: System, run: seq<Action>)
    decreases |run|
  {
    run == [] ||
    (CarefulStep(s, run[0]) && Careful(if Enabled(s, run[0]) then Apply(s, run[0]) else s, run[1..]))
  }

  /** Every careful step keeps that models wait only for live nodes. */
  lemma {:induction false} ReceiveKeepsLive(w: Model<Id>, q: Id, kids: set<Id>)
    requires WaitsForLive(w)
    ensures WaitsForLive(Receive(w, q, kids))
  {
    var i := Find(w.getFolder, q);
    if i < |w.getFolder| {
      assert forall p :: p in Without(w.getFolder, i) ==> p in w.getFolder;
    }
  }

  lemma {:induction false} StepKeepsLive(s: System, a: Action, k: nat)
    requires Inv(s) && Enabled(s, a) && CarefulStep(s, a) && k < |s.models| && AllWaitForLive(s)
    ensures WaitsForLive(Apply(s, a).models[k])
  {
    assert WaitsForLive(s.models[k]);
    if a.Deliver? {
      CareNeverBreaks(s, a);
      var q := s.replies[0];
      ReceiveKeepsLive(s.models[k], q, if k == s.owner[q] then a.kids else {});
    } else if a.FetchMore? && a.m == k {
      assert WaitsForLive(Fetch(s.models[k], a.p).0);
    } else if a.RemoveNodes? && a.m == k {
      assert forall p :: p in s.models[k].getFolder ==> p !in a.dead;
    }
  }

  lemma {:induction false} CarefulKeepsLive(s: System, run: seq<Action>)
    requires Inv(s) && !s.broken && AllWaitForLive(s) && Careful(s, run)
    ensures var t := Execute(s, run); !t.broken && AllWaitForLive(t)
    decreases |run|
  {
    if run != [] {
      if Enabled(s, run[0]) {
        ActionKeeps(s, run[0]);
        var t := Apply(s, run[0]);
        forall k | 0 <= k < |t.models| ensures WaitsForLive(t.models[k]) {
          StepKeepsLive(s, run[0], k);
        }
        CareNeverBreaks(s, run[0]);
        CarefulKeepsLive(t, run[1..]);
      } else {
        CarefulKeepsLive(s, run[1..]);
      }
    }
  }

  lemma {:induction false} CareNeverBreaks(s: System, a: Action)
    requires Inv(s) && Enabled(s, a) && AllWaitForLive(s)
    ensures !Apply(s, a).broken
  {
    if a.Deliver? {
      assert forall m :: 0 <= m < |s.models| ==> WaitsForLive(s.models[m]) && !WaitsForDead(s.models[m], s.replies[0]);
    }
  }

  /** In every interleaving whose removals take no node that is being listed, nothing is written to a deleted node. */
  lemma {:induction false} CarefulNeverBreaks(n: nat, run: seq<Action>)
    requires Careful(Empty(n), run)
    ensures !Execute(Empty(n), run).broken
  {
    CarefulKeepsLive(Empty(n), run);
  }

  predicate NoRemovals(run: seq<Action>) { forall i :: 0 <= i < |run| ==> !run[i].RemoveNodes? }

  lemma {:induction false} NoRemovalsCareful(s: System, run: seq<Action>)
    requires NoRemovals(run)
    ensures Careful(s, run)
    decreases |run|
  {
    if run != [] {
      assert forall i :: 0 <= i < |run[1..]| ==> run[1..][i] == run[i + 1];
      NoRemovalsCareful(if Enabled(s, run[0]) then Apply(s, run[0]) else s, run[1..]);
    }
  }

  /** A model of an open channel waits for a node that is gone. */
  ghost predicate Fatal(s: System, m: nat, p: Id)
  {
    Inv(s) && s.open && !s.broken && m < |s.models| && WaitsForDead(s.models[m], p)
  }

  lemma {:induction false} Prepended(s: System, a: Action, rest: seq<Action>)
    requires Enabled(s, a) && !a.RemoveNodes? && NoRemovals(rest) && Execute(Apply(s, a), rest).broken
    ensures Execute(s, [a] + rest).broken && NoRemovals([a] + rest)
  {
    assert ([a] + rest)[1..] == rest;
  }

  lemma {:induction false} Owned(s: System, p: Id)
    requires Inv(s) && s.replies != [] && p == s.replies[0]
    ensures p in s.owner
  {
    assert UnderWay(s, p) >= 1;
  }

  /** The reply for the node is on its way: delivering what is before it, and then it, breaks the system. */
  lemma {:induction false} ReplyBreaks(s: System, m: nat, p: Id) returns (run: seq<Action>)
    requires Fatal(s, m, p) && Count(s.replies, p) > 0
    ensures Execute(s, run).broken && NoRemovals(run)
    decreases |s.replies|
  {
    Owned(s, s.replies[0]);
    var a := Deliver({});
    var t := Apply(s, a);
    var rest: seq<Action> := [];
    if !AnyWaitsForDead(s.models, s.replies[0]) {
      ActionKeeps(s, a);
      assert s.replies[0] != p by {
        assert WaitsForDead(s.models[m], p);
      }
      StillDead(s, m, p);
      rest := ReplyBreaks(t, m, p);
    }
    run := [a] + rest;
    Prepended(s, a, rest);
  }

  /** A reply for another node leaves it so. */
  lemma {:induction false} StillDead(s: System, m: nat, p: Id)
    requires Fatal(s, m, p) && Enabled(s, Deliver({})) && !AnyWaitsForDead(s.models, s.replies[0])
    requires s.replies[0] != p
    ensures WaitsForDead(Apply(s, Deliver({})).models[m], p)
  {
    var w, q := s.models[m], s.replies[0];
    var i := Find(w.getFolder, q);
    if i < |w.getFolder| {
      var k :| 0 <= k < |w.getFolder| && w.getFolder[k] == p;
      assert Without(w.getFolder, i)[if k < i then k else k - 1] == p;
    }
  }

  /** Moves a reader has still to make before it replies. */
  function Rank(stage: Stage): nat
  {
    match stage
    case OPEN => 3
    case READ => 3
    case ERR => 3
    case CLOSE => 2
    case FINISH => 1
  }

  /** The node has a reader: it can finish and reply. */
  lemma {:induction false} ReaderBreaks(s: System, m: nat, p: Id, i: nat) returns (run: seq<Action>)
    requires Fatal(s, m, p) && i < |s.readers| && s.readers[i].node == p
    ensures Execute(s, run).broken && NoRemovals(run)
    decreases Rank(s.readers[i].stage)
  {
    var stage := s.readers[i].stage;
    var next := if stage.CLOSE? || stage.FINISH? || stage.OPEN? then FINISH else CLOSE;
    var a := StepReader(i, next);
    var t := Apply(s, a);
    ActionKeeps(s, a);
    var rest;
    if stage.FINISH? {
      CountSnoc(s.replies, p, p);
      rest := ReplyBreaks(t, m, p);
    } else {
      rest := ReaderBreaks(t, m, p, i);
    }
    run := [a] + rest;
    Prepended(s, a, rest);
  }

  /** The request for the node waits: the events before it can be taken, and then it. */
  lemma {:induction false} RequestBreaks(s: System, m: nat, p: Id) returns (run: seq<Action>)
    requires Fatal(s, m, p) && Count(s.queue, p) > 0
    ensures Execute(s, run).broken && NoRemovals(run)
    decreases |s.queue|
  {
    var t := Apply(s, Dispatch);
    ActionKeeps(s, Dispatch);
    DispatchIsNew(s);
    var rest;
    if s.queue[0] == p {
      rest := ReaderBreaks(t, m, p, |s.readers|);
    } else {
      rest := RequestBreaks(t, m, p);
    }
    run := [Dispatch] + rest;
    Prepended(s, Dispatch, rest);
  }

  lemma {:induction false} ReadingAtSome(readers: seq<Reader>, p: Id) returns (i: nat)
    requires Reading(readers, p) > 0
    ensures i < |readers| && readers[i].node == p
  {
    if readers[0].node == p {
      i := 0;
    } else {
      i := ReadingAtSome(readers[1..], p);
      i := i + 1;
    }
  }

  lemma {:induction false} FatalBreaks(s: System, m: nat, p: Id) returns (run: seq<Action>)
    requires Fatal(s, m, p)
    ensures Execute(s, run).broken && NoRemovals(run)
  {
    assert ModelOk(s, m);
    assert UnderWay(s, p) == 1;
    if Count(s.queue, p) > 0 {
      run := RequestBreaks(s, m, p);
    } else if Reading(s.readers, p) > 0 {
      var i := ReadingAtSome(s.readers, p);
      run := ReaderBreaks(s, m, p, i);
    } else {
      run := ReplyBreaks(s, m, p);
    }
  }

  /** Some continuation, careful from here on, writes to a deleted node. */
  ghost predicate CanBreak(s: System)
  {
    exists run :: Careful(s, run) && Execute(s, run).broken
  }

  /**
   * Removing nodes leaves m_GetFolder alone (RemoveDir and setData do not touch it).  So, on an open channel
   * whose models wait only for live nodes, a removal lets a later reply write to a deleted node if and only
   * if one of the removed nodes was being listed, however careful everything after it is.
   */
  lemma {:induction false} RemovalSafeIff(s: System, m: nat, dead: set<Id>)
    requires Inv(s) && s.open && Enabled(s, RemoveNodes(m, dead)) && AllWaitForLive(s)
    ensures CanBreak(Apply(s, RemoveNodes(m, dead))) <==> exists p :: p in dead && p in s.models[m].getFolder
  {
    var a := RemoveNodes(m, dead);
    var t := Apply(s, a);
    ActionKeeps(s, a);
    if p :| p in dead && p in s.models[m].getFolder {
      var run := FatalBreaks(t, m, p);
      NoRemovalsCareful(t, run);
      assert Careful(t, run) && Execute(t, run).broken;
    } else {
      forall k | 0 <= k < |t.models| ensures WaitsForLive(t.models[k]) {
        StepKeepsLive(s, a, k);
      }
      forall run | Careful(t, run) ensures !Execute(t, run).broken {
        CarefulKeepsLive(t, run);
      }
    }
  }

  // ----- from the beginning -----

  lemma {:induction false} Taken(s: System, run: seq<Action>, t: System)
    requires run != [] && Enabled(s, run[0]) && t == Apply(s, run[0])
    ensures Execute(s, run) == Execute(t, run[1..])
  {
  }

  lemma {:induction false} ExecuteConcat(s: System, xs: seq<Action>, ys: seq<Action>)
    ensures Execute(s, xs + ys) == Execute(Execute(s, xs), ys)
    decreases |xs|
  {
    if xs == [] {
      assert xs + ys == ys;
    } else {
      assert (xs + ys)[1..] == xs[1..] + ys;
      ExecuteConcat(if Enabled(s, xs[0]) then Apply(s, xs[0]) else s, xs[1..], ys);
    }
  }

  /** A root is listed, turns out to hold one directory, and that is asked for. */
  function ListChild(root: Id, kid: Id): seq<Action>
  {
    [SetRootPath(0, root), FetchMore(0, root), Dispatch, StepReader(0, FINISH), StepReader(0, FINISH),
     Deliver({kid}), FetchMore(0, kid)]
  }

  function RootOnly(root: Id, state: NodeState, getFolder: seq<Id>): System
  {
    System([Model(map[root := state], getFolder)], map[root := 0], [], [], [], true, false)
  }

  function ChildListed(root: Id, kid: Id): System
  {
    System([Model(map[root := NodeState.Ok, kid := Getting], [kid])], map[root := 0, kid := 0],
           [kid], [], [], true, false)
  }

  function ChildKnown(root: Id, kid: Id): System
  {
    System([Model(map[root := NodeState.Ok, kid := NodeState.No], [])], map[root := 0, kid := 0],
           [], [], [], true, false)
  }

  lemma {:induction false} RootSet(root: Id)
    ensures Enabled(Empty(1), SetRootPath(0, root))
    ensures Apply(Empty(1), SetRootPath(0, root)) == RootOnly(root, NodeState.No, [])
  {
    var t := Apply(Empty(1), SetRootPath(0, root));
    assert t.models == [Model(map[root := NodeState.No], [])];
  }

  lemma {:induction false} RootAsked(root: Id)
    ensures var s := RootOnly(root, NodeState.No, []);
            && Enabled(s, FetchMore(0, root))
            && Apply(s, FetchMore(0, root)) == RootOnly(root, Getting, [root]).(queue := [root])
  {
    var w, none: seq<Id> := Model(map[root := NodeState.No], []), [];
    assert w.nodes[root := Getting] == map[root := Getting] && none + [root] == [root];
    assert Fetch(w, root) == (Model(map[root := Getting], [root]), true);
    assert [w][0 := Model(map[root := Getting], [root])] == [Model(map[root := Getting], [root])];
  }

  /** The request becomes a reader, which finishes and replies. */
  lemma {:induction false} RootRead(root: Id, run: seq<Action>)
    requires 3 <= |run| && run[0] == Dispatch && run[1] == run[2] == StepReader(0, FINISH)
    ensures Execute(RootOnly(root, Getting, [root]).(queue := [root]), run) ==
            Execute(RootOnly(root, Getting, [root]).(replies := [root]), run[3..])
  {
    var b := RootOnly(root, Getting, [root]);
    var c := b.(readers := [Reader(root, OPEN)]);
    var d := b.(readers := [Reader(root, FINISH)]);
    Taken(b.(queue := [root]), run, c);
    Taken(c, run[1..], d);
    var one := [Reader(root, FINISH)];
    assert d.readers == one && one[..0] + one[0 + 1..] == [];
    Taken(d, run[2..], b.(replies := [root]));
  }

  lemma {:induction false} RootDelivered(root: Id, kid: Id, kids: set<Id>)
    requires kid != root && kids == {kid}
    ensures var s := RootOnly(root, Getting, [root]).(replies := [root]);
            Enabled(s, Deliver(kids)) && Apply(s, Deliver(kids)) == ChildKnown(root, kid)
  {
    var s, t := RootOnly(root, Getting, [root]).(replies := [root]), ChildKnown(root, kid);
    var w := s.models[0];
    assert !AnyWaitsForDead(s.models, root);
    assert Find(w.getFolder, root) == 0 && Without(w.getFolder, 0) == [];
    assert Receive(w, root, kids) == t.models[0];
    assert ReceiveAll(s.models, root, 0, kids) == t.models;
    assert s.owner + (map k | k in kids :: 0) == t.owner;
  }

  lemma {:induction false} ChildAsked(root: Id, kid: Id)
    requires kid != root
    ensures var s := ChildKnown(root, kid);
            Enabled(s, FetchMore(0, kid)) && Apply(s, FetchMore(0, kid)) == ChildListed(root, kid)
  {
    var w, v := ChildKnown(root, kid).models[0], ChildListed(root, kid).models[0];
    var none: seq<Id> := [];
    assert w.nodes[kid := Getting] == v.nodes && none + [kid] == [kid];
    assert Fetch(w, kid) == (v, true);
    assert [w][0 := v] == [v];
  }

  lemma {:induction false} ListChildReaches(root: Id, kid: Id)
    requires root != kid
    ensures Execute(Empty(1), ListChild(root, kid)) == ChildListed(root, kid)
  {
    hide Apply, Enabled;
    var run := ListChild(root, kid);
    RootSet(root);
    Taken(Empty(1), run, RootOnly(root, NodeState.No, []));
    RootAsked(root);
    var asked := RootOnly(root, Getting, [root]).(queue := [root]);
    Taken(RootOnly(root, NodeState.No, []), run[1..], asked);
    RootRead(root, run[2..]);
    assert run[2..][3..] == run[5..];
    RootDelivered(root, kid, {kid});
    Taken(RootOnly(root, Getting, [root]).(replies := [root]), run[5..], ChildKnown(root, kid));
    ChildAsked(root, kid);
    Taken(ChildKnown(root, kid), run[6..], ChildListed(root, kid));
    assert |run| == 7;
  }

  /**
   * From a model without a root: a directory is listed, a directory in it is asked for and removed, and the
   * reply is written to it.
   */
  lemma {:induction false} DeletedNodeIsWritten(root: Id, kid: Id) returns (run: seq<Action>)
    requires root != kid
    ensures ListChild(root, kid) + [RemoveNodes(0, {kid})] <= run && Execute(Empty(1), run).broken
  {
    var first := ListChild(root, kid) + [RemoveNodes(0, {kid})];
    var s := ChildListed(root, kid);
    var t := Apply(s, RemoveNodes(0, {kid}));
    ListChildReaches(root, kid);
    ExecuteConcat(Empty(1), ListChild(root, kid), [RemoveNodes(0, {kid})]);
    Taken(s, [RemoveNodes(0, {kid})], t);
    RunKeeps(Empty(1), first);
    var rest := FatalBreaks(t, 0, kid);
    run := first + rest;
    ExecuteConcat(Empty(1), first, rest);
  }

  /** From a model without a root: the channel closes while that directory is being listed, and it stays so. */
  lemma {:induction false} StrandingHappens(root: Id, kid: Id)
    requires root != kid
    ensures var s := Execute(Empty(1), ListChild(root, kid) + [CloseChannel]);
            Inv(s) && Stranded(s, 0, kid) && kid in s.models[0].nodes && s.models[0].nodes[kid] == Getting
  {
    var s := ChildListed(root, kid);
    ListChildReaches(root, kid);
    ExecuteConcat(Empty(1), ListChild(root, kid), [CloseChannel]);
    Taken(s, [CloseChannel], s.(open := false));
    RunKeeps(Empty(1), ListChild(root, kid) + [CloseChannel]);
  }
}

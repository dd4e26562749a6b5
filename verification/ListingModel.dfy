/**
 * What asking for a directory and receiving its listing do to a tree model, whatever its nodes are:
 * numbers in the protocol, objects in the tree itself.
 */
module ListingModel {

  /** CRemoteFileSystem::State. */
  datatype NodeState = No | Getting | Ok

  /** A tree model: its live nodes with their states, and the nodes it is waiting for. */
  datatype Model<!Id(==)> = Model(nodes: map<Id, NodeState>, getFolder: seq<Id>)

  function Find<Id(==)>(xs: seq<Id>, p: Id): (i: nat)
    ensures i <= |xs|
    ensures i < |xs| ==> xs[i] == p
    ensures i == |xs| <==> p !in xs
  {
    if xs == [] || xs[0] == p then 0 else 1 + Find(xs[1..], p)
  }

  function Without<T>(xs: seq<T>, i: nat): seq<T>
    requires i < |xs|
  {
    xs[..i] + xs[i + 1..]
  }

  /** fetchMore, lines 551-559, for a directory with a path: the new model and whether it asks. */
  function Fetch<Id(==)>(model: Model<Id>, p: Id): (r: (Model<Id>, bool))
    requires p in model.nodes
  {
    if model.nodes[p] != No || p in model.getFolder then (model, false)
    else (Model(model.nodes[p := Getting], model.getFolder + [p]), true)
  }

  /**
   * slotGetDir of a model, lines 572-607: nothing happens unless it is waiting for the node.  Then the node
   * is written to, so it must still be there.
   */
  function Receive<Id(==)>(model: Model<Id>, p: Id, kids: set<Id>): Model<Id>
    requires p in model.getFolder ==> p in model.nodes
  {
    var i := Find(model.getFolder, p);
    if i == |model.getFolder| then model
    else Model(model.nodes[p := Ok] + (map k | k in kids :: No), Without(model.getFolder, i))
  }

  /** A directory is asked for exactly if it was never asked for and is not waited for, and then it is awaited. */
  lemma {:induction false} FetchAsksIff<Id>(model: Model<Id>, p: Id, m: Model<Id>, asks: bool)
    requires p in model.nodes && (m, asks) == Fetch(model, p)
    ensures asks <==> model.nodes[p].No? && p !in model.getFolder
    ensures m.nodes.Keys == model.nodes.Keys && forall q | q in m.nodes && q != p :: m.nodes[q] == model.nodes[q]
    ensures m.nodes[p] == if asks then Getting else model.nodes[p]
    ensures m.getFolder == if asks then model.getFolder + [p] else model.getFolder
  {
  }

  /**
   * A reply that is awaited marks its node, adds the new nodes as never asked for, and is awaited once less;
   * one that is not changes nothing.
   */
  lemma {:induction false} ReceiveMarks<Id>(model: Model<Id>, p: Id, kids: set<Id>, m: Model<Id>)
    requires (p in model.getFolder ==> p in model.nodes) && p !in kids && m == Receive(model, p, kids)
    ensures p !in model.getFolder ==> m == model
    ensures p in model.getFolder ==>
              && m.nodes.Keys == model.nodes.Keys + kids && m.nodes[p].Ok?
              && (forall q | q in m.nodes && q != p :: m.nodes[q] == if q in kids then No else model.nodes[q])
              && multiset(model.getFolder) == multiset(m.getFolder) + multiset{p}
  {
    if p in model.getFolder {
      var i := Find(model.getFolder, p);
      assert model.getFolder == model.getFolder[..i] + [p] + model.getFolder[i + 1..];
    }
  }
}

/** The lazily listed tree of remote directories (Plugins/FileTransfer/RemoteFileSystemModel.cpp). */
module RemoteTree {
  import opened ListingModel

  datatype Type = FILE | DRIVE | DIR | SYMLINK | SPECIAL

  /** One line of a directory listing. */
  datatype Item = Item(path: string, types: set<Type>)

  const COLUMNS := 6

  // ----- what a listing does to the paths of the children -----

  /** Line 593: entries whose type does not meet the filter of the model are passed over. */
  predicate Shown(item: Item, filter: set<Type>) { item.types * filter != {} }

  /** Paths of the children after a listing: new ones go to the end, known ones stay where they are. */
  function Listed(paths: seq<string>, items: seq<Item>, filter: set<Type>): seq<string>
    decreases |items|
  {
    if items == [] then paths
    else if !Shown(items[0], filter) || items[0].path in paths then Listed(paths, items[1..], filter)
    else Listed(paths + [items[0].path], items[1..], filter)
  }

  /** The node was made for one of the items, of which the filter has some type. */
  ghost predicate MadeFor(path: string, types: set<Type>, items: seq<Item>, filter: set<Type>)
  {
    exists i :: 0 <= i < |items| && items[i].path == path && items[i].types == types && Meets(types, filter)
  }

  ghost predicate Meets(types: set<Type>, filter: set<Type>) { exists t :: t in types && t in filter }

  ghost predicate Distinct(paths: seq<string>)
  {
    forall i, j :: 0 <= i < j < |paths| ==> paths[i] != paths[j]
  }

  /** Old children keep their places, no path appears twice, and exactly the listed ones are there. */
  lemma {:induction false} ListedAppends(paths: seq<string>, items: seq<Item>, filter: set<Type>)
    requires Distinct(paths)
    ensures var r := Listed(paths, items, filter);
            && paths <= r && Distinct(r)
            && forall q :: q in r <==>
                 q in paths || exists i :: 0 <= i < |items| && Shown(items[i], filter) && items[i].path == q
    decreases |items|
  {
    if items != [] {
      var next := if !Shown(items[0], filter) || items[0].path in paths then paths else paths + [items[0].path];
      ListedAppends(next, items[1..], filter);
      var r := Listed(paths, items, filter);
      assert r == Listed(next, items[1..], filter);
      forall q ensures q in r <==>
                         q in paths || exists i :: 0 <= i < |items| && Shown(items[i], filter) && items[i].path == q
      {
        if i :| 0 <= i < |items| && Shown(items[i], filter) && items[i].path == q {
          if i > 0 {
            assert items[1..][i - 1].path == q;
          }
        }
        if i :| 0 <= i < |items[1..]| && Shown(items[1..][i], filter) && items[1..][i].path == q {
          assert items[i + 1].path == q;
        }
      }
    }
  }

  lemma {:induction false} ShownMeets(items: seq<Item>, i: nat, filter: set<Type>)
    requires i < |items| && Shown(items[i], filter)
    ensures MadeFor(items[i].path, items[i].types, items, filter)
  {
    var t :| t in items[i].types * filter;
    assert Meets(items[i].types, filter);
  }

  /** Listing paths that are all there already changes nothing. */
  lemma {:induction false} ListedKnown(paths: seq<string>, items: seq<Item>, filter: set<Type>)
    requires forall i :: 0 <= i < |items| && Shown(items[i], filter) ==> items[i].path in paths
    ensures Listed(paths, items, filter) == paths
    decreases |items|
  {
    if items != [] {
      assert forall i :: 0 <= i < |items[1..]| ==> items[1..][i] == items[i + 1];
      ListedKnown(paths, items[1..], filter);
    }
  }

  /** The same listing once more, as after a refresh, changes nothing. */
  lemma {:induction false} ListedTwice(paths: seq<string>, items: seq<Item>, filter: set<Type>)
    requires Distinct(paths)
    ensures Listed(Listed(paths, items, filter), items, filter) == Listed(paths, items, filter)
  {
    ListedAppends(paths, items, filter);
    ListedKnown(Listed(paths, items, filter), items, filter);
  }

  // ----- the objects -----

  /** CRemoteFileSystem. */
  class Node {
    const path: string
    const types: set<Type>
    var parent: Node?
    var child: seq<Node>
    var state: NodeState
    /** Distance from the root. */
    ghost var depth: nat

    constructor (path: string, types: set<Type>)
      ensures this.path == path && this.types == types && parent == null && child == [] && state == No
      ensures depth == 0
    {
      this.path, this.types := path, types;
      parent, child, state, depth := null, [], No, 0;
    }

    /** Lines 206-214. */
    method IndexOfPath(path: string) returns (index: int)
      ensures -1 <= index < |child|
      ensures index >= 0 ==> child[index].path == path
      ensures index == -1 ==> forall i :: 0 <= i < |child| ==> child[i].path != path
    {
      index := 0;
      while index < |child|
        invariant 0 <= index <= |child|
        invariant forall i :: 0 <= i < index ==> child[i].path != path
      {
        if child[index].path == path {
          return;
        }
        index := index + 1;
      }
      index := -1;
    }
  }

  function Paths(nodes: seq<Node>): (ps: seq<string>)
    ensures |ps| == |nodes| && forall i :: 0 <= i < |nodes| ==> ps[i] == nodes[i].path
  {
    seq(|nodes|, i requires 0 <= i < |nodes| => nodes[i].path)
  }

  ghost predicate DifferentPaths(nodes: seq<Node>)
  {
    forall i, j :: 0 <= i < j < |nodes| ==> nodes[i].path != nodes[j].path
  }

  lemma {:induction false} PathsSnoc(nodes: seq<Node>, n: Node)
    ensures Paths(nodes + [n]) == Paths(nodes) + [n.path]
  {
  }

  /** QVector::indexOf. */
  function IndexIn(nodes: seq<Node>, n: Node): (i: int)
    ensures -1 <= i < |nodes|
    ensures i >= 0 ==> nodes[i] == n
    ensures i == -1 <==> n !in nodes
  {
    if nodes == [] then -1
    else if nodes[0] == n then 0
    else
      var k := IndexIn(nodes[1..], n);
      if k < 0 then -1 else k + 1
  }

  lemma {:induction false} ReceiveOther<Id>(model: Model<Id>, p: Id)
    requires p !in model.getFolder
    ensures Receive(model, p, {}) == model
  {
  }

  /** Marking a node and adding its new children one after the other is what a reply does. */
  lemma {:induction false} ReceiveKids<Id>(model: Model<Id>, p: Id, kids: set<Id>)
    requires p in model.getFolder && p in model.nodes
    ensures Receive(model, p, kids) == WithKids(Receive(model, p, {}), kids)
  {
    ReceiveNothing(model, p);
  }

  ghost function WithKids<Id>(model: Model<Id>, kids: set<Id>): Model<Id>
  {
    model.(nodes := model.nodes + (map k | k in kids :: No))
  }

  /** A node that was just listed: never asked for, without children, and made for one of the items. */
  ghost predicate MadeNow(n: Node, items: seq<Item>, filter: set<Type>)
    reads n`state, n`child
  {
    n.state.No? && n.child == [] && MadeFor(n.path, n.types, items, filter)
  }

  lemma {:induction false} ReceiveNothing<Id>(model: Model<Id>, p: Id)
    requires p in model.getFolder && p in model.nodes
    ensures Receive(model, p, {}) ==
            Model(model.nodes[p := Ok], Without(model.getFolder, Find(model.getFolder, p)))
  {
    var none: set<Id> := {};
    assert model.nodes[p := Ok] + (map k | k in none :: No) == model.nodes[p := Ok];
  }

  /** QModelIndex. */
  datatype ModelIndex = Invalid | Index(row: int, col: int, node: Node)

  class RemoteFileSystemModel {
    var root: Node?
    const filter: set<Type>
    var getFolder: seq<Node>
    /** The nodes of the tree. */
    ghost var nodes: set<Node>

    constructor (filter: set<Type>)
      ensures Valid() && root == null && nodes == {} && getFolder == [] && this.filter == filter
    {
      this.filter := filter;
      root, getFolder, nodes := null, [], {};
    }

    /** A node hangs from its parent, and its children, with different paths, hang from it. */
    ghost predicate NodeOk(n: Node)
      reads `root, `nodes, nodes`parent, nodes`child, nodes`depth, n`parent, n`child, n`depth
    {
      && (n.parent == null <==> n == root)
      && (n.parent != null ==> n.parent in nodes && n in n.parent.child && n.depth == n.parent.depth + 1)
      && (forall i :: 0 <= i < |n.child| ==> n.child[i] in nodes && n.child[i].parent == n)
      && DifferentPaths(n.child)
    }

    ghost predicate Valid()
      reads `root, `nodes, nodes`parent, nodes`child, nodes`depth
    {
      && (root != null ==> root in nodes)
      && (forall n {:trigger NodeOk(n)} | n in nodes :: NodeOk(n))
    }

    // ----- acyclicity -----

    /** `a` is reached from `n` by going to the parent k times. */
    ghost predicate Ancestor(a: Node, n: Node, k: nat)
      reads this, nodes
      requires n in nodes && Valid()
      decreases k
    {
      assert NodeOk(n);
      if k == 0 then a == n else n.parent != null && Ancestor(a, n.parent, k - 1)
    }

    lemma {:induction false} AncestorDepth(a: Node, n: Node, k: nat)
      requires Valid() && n in nodes && Ancestor(a, n, k)
      ensures a in nodes && n.depth == a.depth + k
      decreases k
    {
      assert NodeOk(n);
      if k > 0 {
        AncestorDepth(a, n.parent, k - 1);
      }
    }

    /** No node is above itself. */
    lemma {:induction false} Acyclic(n: Node, k: nat)
      requires Valid() && n in nodes && 0 < k
      ensures !Ancestor(n, n, k)
    {
      if Ancestor(n, n, k) {
        AncestorDepth(n, n, k);
      }
    }

    /** Every node hangs from the root. */
    lemma {:induction false} RootIsAbove(n: Node)
      requires Valid() && n in nodes
      ensures root != null && exists k: nat :: Ancestor(root, n, k)
      decreases n.depth
    {
      assert NodeOk(n);
      if n.parent == null {
        assert Ancestor(root, n, 0);
      } else {
        RootIsAbove(n.parent);
        var k: nat :| Ancestor(root, n.parent, k);
        assert Ancestor(root, n, k + 1);
      }
    }

    // ----- indexes -----

    /** Lines 470-483.  A column equal to the number of columns still passes. */
    ghost function IndexOf(n: Node, col: int): ModelIndex
      reads this, n, if n.parent != null then {n.parent} else {}
    {
      var row := if n.parent != null then IndexIn(n.parent.child, n) else if n == root then 0 else -1;
      if row < 0 || col < 0 || COLUMNS < col then Invalid else Index(row, col, n)
    }

    /** hasIndex and lines 485-501: an invalid parent has no rows, so it yields nothing. */
    ghost function IndexAt(row: int, col: int, parent: ModelIndex): ModelIndex
      reads this, if parent.Index? then {parent.node} else {}
    {
      match parent
      case Invalid => Invalid
      case Index(_, _, p) =>
        if 0 <= row < |p.child| && 0 <= col < COLUMNS then Index(row, col, p.child[row]) else Invalid
    }

    /** Lines 503-515. */
    ghost function ParentOf(index: ModelIndex): ModelIndex
      requires Valid() && (index.Index? ==> index.node in nodes)
      reads this, nodes
    {
      match index
      case Invalid => Invalid
      case Index(_, _, n) =>
        assert NodeOk(n) && (n.parent != null ==> NodeOk(n.parent));
        if n.parent == null then Invalid else IndexOf(n.parent, 0)
    }

    /** The index of every node is valid and points back at the node. */
    lemma {:induction false} IndexPointsBack(n: Node, col: int)
      requires Valid() && n in nodes && 0 <= col <= COLUMNS
      ensures IndexOf(n, col).Index? && IndexOf(n, col).node == n && IndexOf(n, col).col == col
    {
      assert NodeOk(n);
    }

    /** For every node but the root, asking the parent's index for the node's row gives the node's index. */
    lemma {:induction false} IndexRoundTrip(n: Node, col: int)
      requires Valid() && n in nodes && n != root && 0 <= col < COLUMNS
      ensures var i := IndexOf(n, col);
              && i.Index? && i.node == n
              && IndexAt(i.row, 0, ParentOf(i)) == IndexOf(n, 0)
              && IndexAt(i.row, col, ParentOf(i)) == i
    {
      assert NodeOk(n);
      assert NodeOk(n.parent);
    }

    /** And the parent of what is found in a row of a node is that node. */
    lemma {:induction false} ParentRoundTrip(p: Node, row: int, col: int)
      requires Valid() && p in nodes && 0 <= row < |p.child| && 0 <= col < COLUMNS
      ensures IndexAt(row, col, IndexOf(p, 0)) == IndexOf(p.child[row], col)
      ensures var i := IndexAt(row, col, IndexOf(p, 0));
              i.Index? && i.node in nodes && ParentOf(i) == IndexOf(p, 0)
    {
      assert NodeOk(p);
      var c := p.child[row];
      assert NodeOk(c);
      assert IndexIn(p.child, c) == row;
    }

    // ----- changes -----

    /** Lines 167-184: a child whose path is already there is dropped. */
    method AppendChild(p: Node, c: Node) returns (added: bool)
      requires Valid() && p in nodes && c !in nodes && c.parent == null && c.child == []
      modifies this`nodes, p`child, c`parent, c`depth
      ensures Valid() && added == (c.path !in Paths(old(p.child)))
      ensures p.child == if added then old(p.child) + [c] else old(p.child)
      ensures nodes == if added then old(nodes) + {c} else old(nodes)
      ensures !added ==> c.parent == null
    {
      assert NodeOk(p);
      var i := p.IndexOfPath(c.path);
      if i != -1 {
        assert Paths(p.child)[i] == c.path;
        return false;
      }
      p.child := p.child + [c];
      c.parent := p;
      c.depth := p.depth + 1;
      nodes := nodes + {c};
      assert NodeOk(c) by {
        assert c == p.child[|p.child| - 1];
      }
      forall n | n in old(nodes) ensures NodeOk(n) {
        assert old(NodeOk(n));
        assert n != p ==> n.child == old(n.child);
        assert n.parent != null ==> old(n.parent.child) <= n.parent.child;
      }
      return true;
    }

    /** The nodes below `p`, and `p` itself. */
    ghost predicate Below(n: Node, p: Node)
      requires Valid() && n in nodes
      reads this, nodes
      decreases n.depth
    {
      assert NodeOk(n);
      n == p || (n.parent != null && Below(n.parent, p))
    }

    ghost function Subtree(p: Node): set<Node>
      requires Valid()
      reads this, nodes
    {
      set n | n in nodes && Below(n, p)
    }

    /**
     * Lines 643-649: a node leaves its parent's children and is deleted with everything below it.
     * The nodes the model waits for are left alone.
     */
    method RemoveNode(p: Node, q: Node)
      requires Valid() && p in nodes && p.parent == q
      modifies this`nodes, q`child
      ensures Valid() && nodes == old(nodes - Subtree(p)) && getFolder == old(getFolder)
      ensures exists i :: 0 <= i < |old(q.child)| && old(q.child)[i] == p
                          && q.child == old(q.child)[..i] + old(q.child)[i + 1..]
    {
      assert NodeOk(p) && NodeOk(q);
      RootIsAbove(p);
      assert NodeOk(root);
      var i := IndexIn(q.child, p);
      nodes := nodes - Subtree(p);
      q.child := q.child[..i] + q.child[i + 1..];
      assert root in nodes;
      forall n | n in nodes ensures NodeOk(n) {
        assert old(NodeOk(n));
        assert n.parent != null ==> old(NodeOk(n.parent)) && n.parent in nodes;
        forall k | 0 <= k < |n.child| ensures n.child[k] in nodes && n.child[k].parent == n {
          assert n.child[k] in old(n.child);
          assert old(NodeOk(n.child[k]));
        }
        if n.parent == q {
          assert n in old(q.child) && n != p;
        }
      }
    }

    // ----- listing -----

    /** The model as the listing protocol sees it. */
    ghost function View(): Model<Node>
      reads this, nodes
    {
      Model(map n | n in nodes :: n.state, getFolder)
    }

    /** Lines 352-368. */
    method SetRootPath(path: string) returns (index: ModelIndex)
      requires Valid()
      modifies this`root, this`nodes, this`getFolder
      ensures Valid()
      ensures path == "" ==> index == Invalid
      ensures path == "" || (old(root) != null && old(root).path == path) ==>
                root == old(root) && nodes == old(nodes) && getFolder == old(getFolder)
      ensures path != "" ==> root != null && root.path == path && index == IndexOf(root, 0) && index.Index?
      ensures path != "" && (old(root) == null || old(root).path != path) ==>
                fresh(root) && nodes == {root} && root.state == No && root.child == [] && getFolder == []
    {
      if path == "" {
        return Invalid;
      }
      if root != null && root.path == path {
        assert NodeOk(root);
        return IndexAtTop(root);
      }
      getFolder := [];
      var r := new Node(path, {DIR});
      root := r;
      nodes := {r};
      assert NodeOk(r);
      return IndexAtTop(r);
    }

    /** Lines 470-483 for a node without a parent. */
    function IndexAtTop(n: Node): (i: ModelIndex)
      reads this, n
      ensures n == root && n.parent == null ==> i == IndexOf(n, 0) && i.Index?
    {
      if n == root then Index(0, 0, n) else Invalid
    }

    /** Lines 533-561; `asks` tells whether sigGetDir is sent. */
    method FetchMore(parent: Node?) returns (asks: bool)
      requires Valid() && (parent != null ==> parent in nodes)
      modifies this`getFolder, nodes`state
      ensures Valid()
      ensures var p := if parent != null then parent else root;
              if p == null || FILE in p.types || p.path == "" then !asks && View() == old(View())
              else (View(), asks) == Fetch(old(View()), p as Node)
      ensures var p := if parent != null then parent else root;
              && (asks <==> p != null && FILE !in p.types && p.path != "" && old(p.state).No? && p !in old(getFolder))
              && (asks ==> p.state.Getting? && getFolder == old(getFolder) + [p])
              && (!asks ==> getFolder == old(getFolder) && forall n | n in nodes :: n.state == old(n.state))
    {
      var p := if parent != null then parent else root;
      if p == null || FILE in p.types || p.path == "" || p.state != No || p in getFolder {
        return false;
      }
      getFolder := getFolder + [p];
      p.state := Getting;
      assert View().nodes == old(View()).nodes[p as Node := Getting];
      return true;
    }

    /** slotTreeRemoteRefresh of FrmFileTransfer.cpp, lines 534-544. */
    method Refresh(p: Node) returns (asks: bool)
      requires Valid() && p in nodes
      modifies this`getFolder, nodes`state
      ensures Valid()
      ensures p.path == "" ==> !asks && View() == old(View())
      ensures p.path != "" ==>
                var m := old(View()).(nodes := old(View()).nodes[p := No]);
                (View(), asks) == if FILE in p.types then (m, false) else Fetch(m, p)
      ensures asks <==> p.path != "" && FILE !in p.types && p !in old(getFolder)
      ensures p.path != "" ==> p.state == if asks then Getting else No
    {
      if p.path == "" {
        return false;
      }
      p.state := No;
      assert View() == old(View()).(nodes := old(View()).nodes[p := No]);
      asks := FetchMore(p);
    }

    /**
     * Lines 563-609.  A reply for a node the model does not wait for changes nothing; otherwise the node is
     * marked as listed and gets the listed children it does not have yet, at the end, in order.  The model
     * must not wait for a node that was deleted.
     */
    method SlotGetDir(p: Node, contents: seq<Item>)
      requires Valid() && (p in getFolder ==> p in nodes)
      modifies this`getFolder, this`nodes, p`state, p`child
      ensures Valid() && old(nodes) <= nodes && fresh(nodes - old(nodes))
      ensures View() == Receive(old(View()), p, nodes - old(nodes))
      ensures p !in old(getFolder) ==> nodes == old(nodes) && unchanged(p)
      ensures p in old(getFolder) ==>
                old(p.child) <= p.child && Paths(p.child) == Listed(Paths(old(p.child)), contents, filter)
      ensures p in old(getFolder) ==> p.state.Ok? && multiset(old(getFolder)) == multiset(getFolder) + multiset{p}
      ensures forall n | n in nodes - old(nodes) :: MadeNow(n, contents, filter)
      ensures forall i :: |old(p.child)| <= i < |p.child| ==> p.child[i] in nodes - old(nodes)
    {
      hide Listed, MadeNow, Receive, Find;
      if p !in getFolder {
        ReceiveOther(View(), p);
        assert nodes - old(nodes) == {};
        return;
      }
      MarkListed(p);
      AddListed(p, contents);
      ReceiveKids(old(View()), p, nodes - old(nodes));
    }

    /** Lines 572-582: the node is not waited for any more. */
    method MarkListed(p: Node)
      requires Valid() && p in getFolder && p in nodes
      modifies this`getFolder, p`state
      ensures Valid() && View() == Receive(old(View()), p, {})
      ensures p.state.Ok? && multiset(old(getFolder)) == multiset(getFolder) + multiset{p}
    {
      var i := Find(getFolder, p);
      assert getFolder == getFolder[..i] + [p] + getFolder[i + 1..];
      getFolder := getFolder[..i] + getFolder[i + 1..];
      p.state := Ok;
      assert View().nodes == old(View()).nodes[p := Ok];
      ReceiveNothing(old(View()), p);
    }

    /** Lines 591-601. */
    method AddListed(p: Node, contents: seq<Item>)
      requires Valid() && p in nodes
      modifies this`nodes, p`child
      ensures Valid() && old(nodes) <= nodes && fresh(nodes - old(nodes))
      ensures old(p.child) <= p.child && Paths(p.child) == Listed(Paths(old(p.child)), contents, filter)
      ensures View() == WithKids(old(View()), nodes - old(nodes))
      ensures forall n | n in nodes - old(nodes) :: MadeNow(n, contents, filter)
      ensures forall i :: |old(p.child)| <= i < |p.child| ==> p.child[i] in nodes - old(nodes)
    {
      hide NodeOk, MadeFor;
      ghost var result := Listed(Paths(p.child), contents, filter);
      var k := 0;
      while k < |contents|
        invariant k <= |contents| && Valid()
        invariant old(nodes) <= nodes && fresh(nodes - old(nodes))
        invariant old(p.child) <= p.child && result == Listed(Paths(p.child), contents[k..], filter)
        invariant forall n | n in nodes - old(nodes) :: MadeNow(n, contents, filter)
        invariant forall i :: |old(p.child)| <= i < |p.child| ==> p.child[i] in nodes - old(nodes)
      {
        assert contents[k..][1..] == contents[k + 1..];
        AddItem(p, contents, k);
        k := k + 1;
      }
      ghost var kids := nodes - old(nodes);
      assert forall n | n in kids :: n.state == No;
      assert View().nodes == old(View()).nodes + (map n | n in kids :: No);
    }

    /** One item of a listing, lines 593-601: a node for it, unless it is filtered out or its path is there. */
    method AddItem(p: Node, contents: seq<Item>, k: nat)
      requires Valid() && p in nodes && k < |contents|
      modifies this`nodes, p`child
      ensures Valid() && old(nodes) <= nodes && fresh(nodes - old(nodes))
      ensures forall n | n in nodes - old(nodes) :: MadeNow(n, contents, filter)
      ensures p.child == old(p.child) || exists c | c in nodes - old(nodes) :: p.child == old(p.child) + [c]
      ensures var item, paths := contents[k], Paths(old(p.child));
              Paths(p.child) == if !Shown(item, filter) || item.path in paths then paths else paths + [item.path]
    {
      var item := contents[k];
      if Shown(item, filter) {
        ShownMeets(contents, k, filter);
        var c := new Node(item.path, item.types);
        PathsSnoc(p.child, c);
        assert MadeNow(c, contents, filter);
        var added := AppendChild(p, c);
        assert added ==> c in nodes - old(nodes);
      }
    }
  }
}

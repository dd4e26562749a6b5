/**
 * One directory listing in the channel: what a visit of AsyncReadDir does to a reader, as a function of
 * the reader and of the answers of libssh (Plugins/FileTransfer/ChannelSFTP.cpp).
 */
module DirReader {
  import LP = ListingProtocol
  import opened RemoteTree
  import opened Survival
  import opened Wrappers

  type Stage = LP.Stage

  /** The file types that libssh reports. */
  datatype Kind = Regular | Directory | Symlink | Special | Unknown

  datatype Attributes = Attributes(name: string, kind: Kind)

  /** How opening a directory ends; `Ended` is an error that reports success or end of file. */
  datatype Opening = Opened | Ended | Denied | Refused

  /** What is reported once no further entry comes. */
  datatype Reading = Eof | NotYet | Broken

  /** Everything libssh decides during one visit: `count` entries arrive in this one. */
  datatype Answers = Answers(opening: Opening, count: nat, reading: Reading, closes: bool)

  datatype Call = OpenDir | CloseDir

  /** A DIR_READER, with the entries of the directory it reads and how many of them it has read. */
  datatype Reader = Reader(
    node: LP.Id, path: string, stage: Stage, held: bool, found: seq<Item>, failed: bool,
    dir: seq<Attributes>, pos: nat, calls: seq<Call>)

  /** The reader stays in the list, or has sent its reply and been erased. */
  type Outcome = Visit<Reader>

  // ----- entries -----

  function TypeOf(kind: Kind): Option<Type>
  {
    match kind
    case Directory => Some(DIR)
    case Symlink => Some(SYMLINK)
    case Regular => Some(FILE)
    case Special => Some(SPECIAL)
    case Unknown => None
  }

  /** Lines 130-133. */
  function Join(path: string, name: string): string
  {
    if path != "" && path[|path| - 1] == '/' then path + name else path + "/" + name
  }

  /** Lines 101-140. */
  function FileNode(path: string, a: Attributes): Option<Item>
  {
    if a.name == "." || a.name == ".." || TypeOf(a.kind).None? then None
    else Some(Item(Join(path, a.name), {TypeOf(a.kind).value}))
  }

  /** What one entry adds to the nodes found. */
  function NodesOf(path: string, a: Attributes): seq<Item>
  {
    match FileNode(path, a) case Some(item) => [item] case None => []
  }

  function FileNodes(path: string, dir: seq<Attributes>): seq<Item>
  {
    if dir == [] then [] else NodesOf(path, dir[0]) + FileNodes(path, dir[1..])
  }

  lemma {:induction false} FileNodesConcat(path: string, xs: seq<Attributes>, ys: seq<Attributes>)
    ensures FileNodes(path, xs + ys) == FileNodes(path, xs) + FileNodes(path, ys)
  {
    if xs == [] {
      assert xs + ys == ys;
    } else {
      assert (xs + ys)[1..] == xs[1..] + ys;
      FileNodesConcat(path, xs[1..], ys);
    }
  }

  lemma {:induction false} FileNodesNext(path: string, es: seq<Attributes>, k: nat)
    requires k < |es|
    ensures FileNodes(path, es[..k + 1]) == FileNodes(path, es[..k]) + NodesOf(path, es[k])
  {
    assert es[..k + 1] == es[..k] + [es[k]] && [es[k]][1..] == [];
    FileNodesConcat(path, es[..k], [es[k]]);
  }

  /** What is found is found for an entry of the directory. */
  lemma {:induction false} FileNodesFrom(path: string, dir: seq<Attributes>, k: nat) returns (i: nat)
    requires k < |FileNodes(path, dir)|
    ensures i < |dir| && FileNode(path, dir[i]) == Some(FileNodes(path, dir)[k])
  {
    if k == 0 && FileNode(path, dir[0]).Some? {
      i := 0;
    } else {
      var d := if FileNode(path, dir[0]).Some? then 1 else 0;
      var j := FileNodesFrom(path, dir[1..], k - d);
      i := j + 1;
    }
  }

  // ----- which entries are listed, and as what -----

  /** An entry that is listed: neither the directory itself nor the one above it, and of a known kind. */
  predicate Listable(a: Attributes) { a.name != "." && a.name != ".." && a.kind != Unknown }

  function Listables(dir: seq<Attributes>): seq<Attributes>
  {
    if dir == [] then [] else (if Listable(dir[0]) then [dir[0]] else []) + Listables(dir[1..])
  }

  /** The node of an entry: its path continues the one of the directory, and its one type tells its kind. */
  predicate Lists(item: Item, path: string, a: Attributes)
  {
    && item.path == path + (if path != "" && path[|path| - 1] == '/' then "" else "/") + a.name
    && (item.types == {DIR} <==> a.kind == Directory) && (item.types == {SYMLINK} <==> a.kind == Symlink)
    && (item.types == {FILE} <==> a.kind == Regular) && (item.types == {SPECIAL} <==> a.kind == Special)
  }

  /** An entry makes a node exactly if it is listable, and the node is its own. */
  lemma {:induction false} EntryMakesNode(path: string, a: Attributes)
    ensures NodesOf(path, a) == [] <==> !Listable(a)
    ensures Listable(a) ==> |NodesOf(path, a)| == 1 && Lists(NodesOf(path, a)[0], path, a)
  {
    assert {DIR} != {FILE} && {DIR} != {SYMLINK} && {DIR} != {SPECIAL} by { assert DIR !in {FILE, SYMLINK, SPECIAL}; }
    assert {FILE} != {SYMLINK} && {FILE} != {SPECIAL} by { assert FILE !in {SYMLINK, SPECIAL}; }
    assert {SYMLINK} != {SPECIAL} by { assert SYMLINK !in {SPECIAL}; }
  }

  /** One node for every listable entry, in the order of the directory. */
  lemma {:induction false} FileNodesList(path: string, dir: seq<Attributes>)
    ensures |FileNodes(path, dir)| == |Listables(dir)|
    ensures forall k :: 0 <= k < |Listables(dir)| ==> Lists(FileNodes(path, dir)[k], path, Listables(dir)[k])
  {
    hide NodesOf, Lists;
    if dir != [] {
      var head, rest := NodesOf(path, dir[0]), FileNodes(path, dir[1..]);
      EntryMakesNode(path, dir[0]);
      FileNodesList(path, dir[1..]);
      forall k | 0 <= k < |Listables(dir)| ensures Lists(FileNodes(path, dir)[k], path, Listables(dir)[k]) {
        if !Listable(dir[0]) {
          assert FileNodes(path, dir) == rest && Listables(dir) == Listables(dir[1..]);
        } else if k > 0 {
          assert FileNodes(path, dir)[k] == rest[k - 1] && Listables(dir)[k] == Listables(dir[1..])[k - 1];
        }
      }
    }
  }

  ghost predicate DifferentNames(dir: seq<Attributes>)
  {
    forall i, j :: 0 <= i < j < |dir| ==> dir[i].name != dir[j].name
  }

  function ItemPaths(items: seq<Item>): (ps: seq<string>)
    ensures |ps| == |items| && forall i :: 0 <= i < |items| ==> ps[i] == items[i].path
  {
    seq(|items|, i requires 0 <= i < |items| => items[i].path)
  }

  /** Different names make different paths, so a listing has no path twice. */
  lemma {:induction false} PathsDiffer(path: string, dir: seq<Attributes>)
    requires DifferentNames(dir)
    ensures Distinct(ItemPaths(FileNodes(path, dir)))
  {
    if dir != [] {
      PathsDiffer(path, dir[1..]);
      var rest := FileNodes(path, dir[1..]);
      if FileNode(path, dir[0]).Some? {
        forall k | 0 <= k < |rest| ensures rest[k].path != Join(path, dir[0].name) {
          var i := FileNodesFrom(path, dir[1..], k);
          JoinInjective(path, dir[0].name, dir[i + 1].name);
        }
      }
    }
  }

  lemma {:induction false} JoinInjective(path: string, a: string, b: string)
    requires a != b
    ensures Join(path, a) != Join(path, b)
  {
    var n := |Join(path, "")|;
    assert Join(path, a)[n..] == a && Join(path, b)[n..] == b;
  }

  // ----- a visit -----

  /** Entries that arrive in this visit. */
  function Arriving(r: Reader, count: nat): seq<Attributes>
  {
    if r.pos <= |r.dir| then r.dir[r.pos..r.pos + Min(count, |r.dir| - r.pos)] else []
  }

  /** Lines 434-440: all entries that are there are read. */
  function Fetched(r: Reader, count: nat): Reader
  {
    var es := Arriving(r, count);
    r.(found := r.found + FileNodes(r.path, es), pos := r.pos + |es|)
  }

  /** Lines 410-432. */
  function Open(r: Reader, a: Answers): Reader
  {
    match a.opening
    case Opened => r.(held := true, stage := LP.READ, calls := r.calls + [OpenDir])
    case Ended => r.(stage := LP.FINISH)
    case Denied => r
    case Refused => r.(stage := LP.ERR, failed := true)
  }

  /** Lines 433-458.  End of file without the directory being at its end changes nothing. */
  function Read(r: Reader, a: Answers): Reader
  {
    var f := Fetched(r, a.count);
    if a.reading.Eof? && f.pos == |f.dir| then f.(stage := LP.CLOSE)
    else if a.reading.Broken? then f.(stage := LP.ERR, failed := true)
    else f
  }

  /** Lines 459-476.  A close that fails leaves the handle in the reader. */
  function Close(r: Reader, a: Answers): Reader
  {
    if !r.held then r.(stage := LP.FINISH)
    else
      var c := r.(stage := LP.FINISH, calls := r.calls + [CloseDir]);
      if a.closes then c.(held := false) else c.(failed := true)
  }

  /** One turn of the loop of AsyncReadDir, lines 407-492. */
  function Step(r: Reader, a: Answers): Outcome
  {
    match r.stage
    case OPEN => Kept(Open(r, a))
    case READ => Kept(Read(r, a))
    case CLOSE => Kept(Close(r, a))
    case FINISH => Left(r)
    case ERR => Kept(r.(stage := LP.CLOSE))
  }

  function Run(o: Outcome, visits: seq<Answers>): Outcome
    decreases |visits|
  {
    if o.Left? || visits == [] then o else Run(Step(o.entry, visits[0]), visits[1..])
  }

  lemma {:induction false} RunStep(r: Reader, visits: seq<Answers>, o: Outcome)
    requires visits != [] && o == Step(r, visits[0])
    ensures Run(Kept(r), visits) == Run(o, visits[1..])
  {
  }

  /** The reader slotGetDir appends, lines 392-400. */
  function Asked(node: LP.Id, path: string, dir: seq<Attributes>): Reader
  {
    Reader(node, path, LP.OPEN, false, [], false, dir, 0, [])
  }

  // ----- what every visit keeps -----

  ghost predicate Handles(r: Reader)
  {
    match r.stage
    case OPEN => !r.held && r.calls == []
    case READ => r.held && r.calls == [OpenDir]
    case CLOSE => if r.held then r.calls == [OpenDir] else r.calls == []
    case ERR => if r.held then r.calls == [OpenDir] else r.calls == []
    case FINISH => r.calls == [OpenDir, CloseDir] || (!r.held && r.calls == [])
  }

  /**
   * What was found is what the entries read so far make, in their order, and a reader that is past
   * reading without an error has read them all.
   */
  ghost predicate Inv(r: Reader)
  {
    && Handles(r)
    && r.pos <= |r.dir| && r.found == FileNodes(r.path, r.dir[..r.pos])
    && (r.stage.OPEN? ==> r.pos == 0 && !r.failed)
    && (r.stage.CLOSE? || r.stage.FINISH? ==> r.failed || r.calls == [] || r.pos == |r.dir|)
    && (r.stage.CLOSE? && !r.failed ==> r.held)
    && (r.stage.ERR? ==> r.failed) && (r.stage.READ? ==> !r.failed)
    && (r.stage.FINISH? && r.held ==> r.failed)
  }

  lemma {:induction false} FetchedKeeps(r: Reader, count: nat)
    requires r.pos <= |r.dir| && r.found == FileNodes(r.path, r.dir[..r.pos])
    ensures var f := Fetched(r, count);
            && f.pos == r.pos + Min(count, |r.dir| - r.pos) <= |f.dir|
            && f.found == FileNodes(f.path, f.dir[..f.pos])
  {
    var es := Arriving(r, count);
    assert r.dir[..r.pos + |es|] == r.dir[..r.pos] + es;
    FileNodesConcat(r.path, r.dir[..r.pos], es);
  }

  /** Every visit keeps the invariant and makes one of the moves of the listing protocol. */
  lemma {:induction false} StepKeeps(r: Reader, a: Answers, o: Outcome)
    requires Inv(r) && o == Step(r, a)
    ensures Inv(o.entry) && o.entry.node == r.node && o.entry.path == r.path && o.entry.dir == r.dir
    ensures o.Left? <==> r.stage.FINISH?
    ensures o.Kept? ==> LP.ReaderMoves(r.stage, o.entry.stage)
  {
    if r.stage.READ? {
      FetchedKeeps(r, a.count);
    }
  }

  lemma {:induction false} RunKeeps(o: Outcome, visits: seq<Answers>, t: Outcome)
    requires Inv(o.entry) && (o.Left? ==> o.entry.stage.FINISH?) && t == Run(o, visits)
    ensures Inv(t.entry) && (t.Left? ==> t.entry.stage.FINISH?)
    ensures t.entry.node == o.entry.node && t.entry.path == o.entry.path && t.entry.dir == o.entry.dir
    decreases |visits|
  {
    if o.Kept? && visits != [] {
      StepKeeps(o.entry, visits[0], Step(o.entry, visits[0]));
      RunKeeps(Step(o.entry, visits[0]), visits[1..], t);
    }
  }

  /**
   * However libssh answers: the reply is for the node that was asked for and lists a leading part of the
   * directory in order, the whole of it if the directory was opened and no call failed; and a directory
   * that was opened has been closed once.
   */
  lemma {:induction false} ReplyIsDirectory(node: LP.Id, path: string, dir: seq<Attributes>, visits: seq<Answers>)
    ensures var t := Run(Kept(Asked(node, path, dir)), visits);
            t.Left? ==>
              && t.entry.node == node && t.entry.pos <= |dir| && t.entry.found == FileNodes(path, dir[..t.entry.pos])
              && (t.entry.calls == [] || t.entry.calls == [OpenDir, CloseDir])
              && (!t.entry.failed && t.entry.calls != [] ==> t.entry.found == FileNodes(path, dir))
  {
    var r := Asked(node, path, dir);
    RunKeeps(Kept(r), visits, Run(Kept(r), visits));
    assert dir[..|dir|] == dir;
  }

  /** A listing has one node for every listable entry of a directory, in order. */
  ghost predicate ListsAll(found: seq<Item>, path: string, dir: seq<Attributes>)
  {
    && |found| == |Listables(dir)|
    && forall k :: 0 <= k < |found| ==> Lists(found[k], path, Listables(dir)[k])
  }

  /**
   * However libssh answers, a reply lists the entries that were read, and no others; and every entry of the
   * directory if it was opened and no call failed.
   */
  lemma {:induction false} ReplyLists(node: LP.Id, path: string, dir: seq<Attributes>, visits: seq<Answers>)
    ensures var t := Run(Kept(Asked(node, path, dir)), visits);
            t.Left? ==>
              && t.entry.pos <= |dir| && ListsAll(t.entry.found, path, dir[..t.entry.pos])
              && (!t.entry.failed && t.entry.calls != [] ==> ListsAll(t.entry.found, path, dir))
  {
    var t := Run(Kept(Asked(node, path, dir)), visits);
    ReplyIsDirectory(node, path, dir, visits);
    if t.Left? {
      FileNodesList(path, dir[..t.entry.pos]);
      FileNodesList(path, dir);
    }
  }

  /** What a visit does to the stage, to what is listed and to the error, for every answer. */
  lemma {:induction false} VisitOutcome(r: Reader, a: Answers, o: Outcome)
    requires Inv(r) && o == Step(r, a)
    ensures r.stage.OPEN? ==>
              && (o.entry.stage.READ? <==> a.opening.Opened?) && (o.entry.stage.FINISH? <==> a.opening.Ended?)
              && (o.entry == r <==> a.opening.Denied?) && (o.entry.stage.ERR? <==> a.opening.Refused?)
              && o.entry.found == []
    ensures r.stage.READ? ==>
              && ListsAll(o.entry.found, r.path, r.dir[..o.entry.pos])
              && o.entry.pos == (if r.pos + a.count <= |r.dir| then r.pos + a.count else |r.dir|)
              && (o.entry.stage.CLOSE? <==> a.reading.Eof? && o.entry.pos == |r.dir|)
              && (o.entry.stage.ERR? <==> a.reading.Broken?) && (o.entry.failed <==> a.reading.Broken?)
              && (o.entry.stage.CLOSE? || o.entry.stage.ERR? || o.entry.stage.READ?)
    ensures r.stage.ERR? ==> o.Kept? && o.entry.stage.CLOSE? && o.entry.found == r.found
    ensures r.stage.CLOSE? ==>
              && o.Kept? && o.entry.stage.FINISH? && o.entry.found == r.found
              && (o.entry.held <==> r.held && !a.closes) && (o.entry.failed <==> r.failed || o.entry.held)
    ensures r.stage.FINISH? ==> o == Left(r)
  {
    StepKeeps(r, a, o);
    if r.stage.OPEN? {
      assert r.dir[..0] == [];
    }
    if r.stage.READ? {
      FetchedKeeps(r, a.count);
      FileNodesList(r.path, r.dir[..o.entry.pos]);
    }
  }

  /** A directory to which access is denied is asked for again in every visit, and nothing is replied. */
  lemma {:induction false} DeniedForever(r: Reader, visits: seq<Answers>)
    requires r.stage.OPEN? && forall i :: 0 <= i < |visits| ==> visits[i].opening.Denied?
    ensures Run(Kept(r), visits) == Kept(r)
    decreases |visits|
  {
    if visits != [] {
      RunStep(r, visits, Kept(r));
      DeniedForever(r, visits[1..]);
    }
  }

  // ----- exactly when a reply is whole -----

  predicate IsReading(r: Reader) { r.stage.OPEN? || r.stage.READ? }

  /**
   * Whether a visit ends the reading of a directory before its end: opening is refused, or reports an error
   * that is none, or reading breaks, and there are entries that have not arrived.
   */
  predicate Breaks(r: Reader, a: Answers)
  {
    match r.stage
    case OPEN => (a.opening.Ended? || a.opening.Refused?) && r.pos < |r.dir|
    case READ => a.reading.Broken? && Fetched(r, a.count).pos < |r.dir|
    case _ => false
  }

  /** Whether one of the visits does so.  What happens when the directory is closed does not matter. */
  predicate BreaksOff(r: Reader, visits: seq<Answers>)
    decreases |visits|
  {
    visits != [] && IsReading(r) && (Breaks(r, visits[0]) || BreaksOff(Step(r, visits[0]).entry, visits[1..]))
  }

  /** Once reading is over nothing more is read. */
  lemma {:induction false} PosStays(o: Outcome, visits: seq<Answers>)
    requires !IsReading(o.entry)
    ensures Run(o, visits).entry.pos == o.entry.pos && Run(o, visits).entry.dir == o.entry.dir
    ensures !IsReading(Run(o, visits).entry)
    decreases |visits|
  {
    if o.Kept? && visits != [] {
      PosStays(Step(o.entry, visits[0]), visits[1..]);
    }
  }

  lemma {:induction false} BreaksIff(r: Reader, a: Answers, o: Outcome)
    requires Inv(r) && IsReading(r) && o == Step(r, a)
    ensures o.Kept? && (!IsReading(o.entry) ==> (Breaks(r, a) <==> o.entry.pos < |o.entry.dir|))
    ensures IsReading(o.entry) ==> !Breaks(r, a)
  {
    if r.stage.READ? {
      FetchedKeeps(r, a.count);
    }
  }

  lemma {:induction false} AllReadIff(r: Reader, visits: seq<Answers>, t: Outcome)
    requires Inv(r) && IsReading(r) && t == Run(Kept(r), visits)
    ensures t.Left? ==> (t.entry.pos == |r.dir| <==> !BreaksOff(r, visits))
    decreases |visits|
  {
    if visits != [] {
      var o := Step(r, visits[0]);
      StepKeeps(r, visits[0], o);
      BreaksIff(r, visits[0], o);
      if IsReading(o.entry) {
        AllReadIff(o.entry, visits[1..], t);
      } else {
        PosStays(o, visits[1..]);
      }
    }
  }

  /**
   * However libssh answers, a reply lists the whole directory if and only if what was not read holds nothing
   * to list; and all of it was read if and only if no visit broke the reading off.
   */
  lemma {:induction false} ReplyWholeIff(node: LP.Id, path: string, dir: seq<Attributes>, visits: seq<Answers>)
    ensures var r := Asked(node, path, dir);
            var t := Run(Kept(r), visits);
            t.Left? ==>
              && t.entry.pos <= |dir|
              && (t.entry.found == FileNodes(path, dir) <==> FileNodes(path, dir[t.entry.pos..]) == [])
              && (t.entry.pos == |dir| <==> !BreaksOff(r, visits))
  {
    var r := Asked(node, path, dir);
    var t := Run(Kept(r), visits);
    RunKeeps(Kept(r), visits, t);
    AllReadIff(r, visits, t);
    var pos := t.entry.pos;
    assert dir == dir[..pos] + dir[pos..];
    FileNodesConcat(path, dir[..pos], dir[pos..]);
  }

  /**
   * From asking to the reply: whatever the directory holds, if it opens and its reading breaks before an entry
   * has arrived, the reply says that it is empty, and nothing else.
   */
  lemma {:induction false} BrokenListingReplies(node: LP.Id, path: string, dir: seq<Attributes>, visits: seq<Answers>)
    requires |visits| == 5 && visits[0].opening.Opened? && visits[1].count == 0 && visits[1].reading.Broken?
    ensures var t := Run(Kept(Asked(node, path, dir)), visits);
            t.Left? && t.entry.node == node && t.entry.found == []
  {
    var r := Asked(node, path, dir);
    var a := Open(r, visits[0]);
    assert Arriving(a, 0) == [];
    var b := Read(a, visits[1]);
    assert b.stage.ERR? && b.found == [];
    var c := b.(stage := LP.CLOSE);
    var d := Close(c, visits[3]);
    assert Step(c, visits[3]) == Kept(d) && visits[3..][0] == visits[3];
    RunStep(r, visits, Kept(a));
    RunStep(a, visits[1..], Kept(b));
    RunStep(b, visits[2..], Kept(c));
    RunStep(c, visits[3..], Kept(d));
    RunStep(d, visits[4..], Left(d));
  }

  // ----- ending -----

  /** A visit in which nothing fails and something arrives. */
  predicate Healthy(a: Answers) { a.opening.Opened? && 0 < a.count && a.reading.Eof? && a.closes }

  /** Visits a reader still needs when all of them are healthy. */
  function Fuel(r: Reader): nat
    requires r.pos <= |r.dir|
  {
    match r.stage
    case OPEN => |r.dir| + 4
    case READ => |r.dir| - r.pos + 3
    case ERR => 3
    case CLOSE => 2
    case FINISH => 1
  }

  /** A listing that can still be whole. */
  ghost predicate Live(r: Reader) { Inv(r) && !r.failed && (r.stage.FINISH? ==> r.calls != []) }

  lemma {:induction false} StepLive(r: Reader, a: Answers, o: Outcome)
    requires Live(r) && Healthy(a) && o == Step(r, a)
    ensures Live(o.entry) && o.entry.path == r.path && o.entry.dir == r.dir && (o.Kept? ==> Fuel(o.entry) < Fuel(r))
    ensures o.Left? <==> r.stage.FINISH?
  {
    StepKeeps(r, a, o);
    if r.stage.READ? {
      FetchedKeeps(r, a.count);
    }
  }

  /** Every listing whose visits are healthy is over, and whole, after one visit per entry and four more. */
  lemma {:induction false} ListingCompletes(r: Reader, visits: seq<Answers>, t: Outcome)
    requires Live(r) && Fuel(r) <= |visits| && t == Run(Kept(r), visits)
    requires forall i :: 0 <= i < |visits| ==> Healthy(visits[i])
    ensures t.Left? && t.entry.found == FileNodes(r.path, r.dir) && t.entry.calls == [OpenDir, CloseDir]
    decreases |visits|
  {
    var o := Step(r, visits[0]);
    StepLive(r, visits[0], o);
    if o.Kept? {
      ListingCompletes(o.entry, visits[1..], t);
    } else {
      assert t == o;
      assert r.dir[..|r.dir|] == r.dir;
    }
  }

  // ----- what the tree makes of the reply -----

  ghost predicate AllNew(paths: seq<string>, items: seq<Item>)
  {
    Distinct(ItemPaths(items)) && forall i :: 0 <= i < |items| ==> items[i].path !in paths
  }

  lemma {:induction false} AllNewTail(paths: seq<string>, items: seq<Item>)
    requires items != [] && AllNew(paths, items)
    ensures items[0].path !in paths && AllNew(paths, items[1..]) && AllNew(paths + [items[0].path], items[1..])
  {
    var rest := items[1..];
    assert forall i :: 0 <= i < |rest| ==> ItemPaths(rest)[i] == ItemPaths(items)[i + 1];
    forall i | 0 <= i < |rest| ensures rest[i].path !in paths && rest[i].path != items[0].path {
      assert rest[i] == items[i + 1] && ItemPaths(items)[0] != ItemPaths(items)[i + 1];
    }
  }

  /** Listing items without repetition into a node that has none of them appends those that are shown. */
  lemma {:induction false} ListedFresh(paths: seq<string>, items: seq<Item>, filter: set<Type>)
    requires AllNew(paths, items)
    ensures Listed(paths, items, filter) == paths + ShownPaths(items, filter)
    decreases |items|
  {
    hide AllNew, Shown;
    if items != [] {
      AllNewTail(paths, items);
      var rest := items[1..];
      if Shown(items[0], filter) {
        ListedFresh(paths + [items[0].path], rest, filter);
        assert paths + [items[0].path] + ShownPaths(rest, filter) ==
               paths + ([items[0].path] + ShownPaths(rest, filter));
      } else {
        ListedFresh(paths, rest, filter);
      }
    }
  }

  function ShownPaths(items: seq<Item>, filter: set<Type>): seq<string>
  {
    if items == [] then []
    else (if Shown(items[0], filter) then [items[0].path] else []) + ShownPaths(items[1..], filter)
  }

  /**
   * From the server to the tree: when the whole of a directory with different names reaches a node without
   * children, its children are the shown entries of that directory, in order.
   */
  lemma {:induction false} FirstListing(path: string, dir: seq<Attributes>, filter: set<Type>)
    requires DifferentNames(dir)
    ensures Listed([], FileNodes(path, dir), filter) == ShownPaths(FileNodes(path, dir), filter)
  {
    PathsDiffer(path, dir);
    ListedFresh([], FileNodes(path, dir), filter);
  }

  // ----- closing the channel -----

  /** Lines 356-361. */
  function Shut(r: Reader): Reader
  {
    if r.held then r.(held := false, calls := r.calls + [CloseDir]) else r
  }

  function Closes(calls: seq<Call>): nat { multiset(calls)[CloseDir] }
  function Opens(calls: seq<Call>): nat { multiset(calls)[OpenDir] }

  /**
   * Closing the channel closes every directory as often as it was opened exactly unless the reader is
   * in FINISH with its handle still in it, which is where a close that failed leaves it.
   */
  lemma {:induction false} ClosedOnceIff(r: Reader)
    requires Inv(r)
    ensures Closes(Shut(r).calls) == Opens(Shut(r).calls) <==> !(r.stage.FINISH? && r.held)
  {
  }

  lemma {:induction false} ReadToEnd(r: Reader, a: Answers, f: Reader)
    requires r.stage.READ? && r.pos == 0 && |r.dir| <= a.count && a.reading.Eof? && f == Read(r, a)
    ensures f.stage.CLOSE? && f.held == r.held && f.calls == r.calls
  {
  }

  lemma {:induction false} CloseFailed(r: Reader, a: Answers, c: Reader)
    requires r.stage.CLOSE? && r.held && r.calls == [OpenDir] && !a.closes && c == Close(r, a)
    ensures c.stage.FINISH? && c.held && Opens(Shut(c).calls) == 1 && Closes(Shut(c).calls) == 2
  {
    assert Shut(c).calls == [OpenDir, CloseDir, CloseDir];
  }

  /**
   * From asking on: a directory that is opened, read to its end in one visit, and whose close fails is in
   * FINISH with its handle; a channel that closes then closes it a second time.
   */
  lemma {:induction false} ClosedTwice(node: LP.Id, path: string, dir: seq<Attributes>, visits: seq<Answers>,
                                       t: Outcome)
    requires |visits| == 3 && visits[0].opening.Opened? && |dir| <= visits[1].count && visits[1].reading.Eof?
    requires !visits[2].closes && t == Run(Kept(Asked(node, path, dir)), visits)
    ensures t.Kept? && t.entry.stage.FINISH? && t.entry.held
    ensures Opens(Shut(t.entry).calls) == 1 && Closes(Shut(t.entry).calls) == 2
  {
    var r := Asked(node, path, dir);
    var a := Open(r, visits[0]);
    var b := Read(a, visits[1]);
    var c := Close(b, visits[2]);
    ReadToEnd(a, visits[1], b);
    RunStep(r, visits, Kept(a));
    RunStep(a, visits[1..], Kept(b));
    RunStep(b, visits[2..], Kept(c));
    CloseFailed(b, visits[2], c);
  }
}

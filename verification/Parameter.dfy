/** The tree of parameter categories and how it is saved and loaded (Src/Parameter.cpp). */
module Parameter {
  import opened Settings

  /**
   * A CParameter.  `own` are the keys its OnSave writes and its OnLoad reads, with their current values;
   * `saveRet` and `loadRet` are what those two return.
   */
  datatype Param = Param(
    prefix: string, modified: bool, own: seq<Entry>, saveRet: int, loadRet: int, category: seq<Param>)

  /** The text before the keys of a parameter inside groups that put `at` before theirs. */
  function Inside(p: Param, at: string): string
  {
    if p.prefix == "" then at else at + p.prefix + "/"
  }

  function Under(at: string, es: seq<Entry>): (r: seq<Entry>)
    ensures |r| == |es|
    ensures forall i :: 0 <= i < |es| ==> r[i] == Entry(at + es[i].key, es[i].value)
  {
    seq(|es|, i requires 0 <= i < |es| => Entry(at + es[i].key, es[i].value))
  }

  // ----- what saving writes -----

  /** The entries of a whole tree, in the order of the visit. */
  function Entries(p: Param, at: string): seq<Entry>
    decreases p, 1
  {
    Under(Inside(p, at), p.own) + EntriesOf(p.category, Inside(p, at))
  }

  function EntriesOf(ps: seq<Param>, at: string): seq<Entry>
    decreases ps, 0
  {
    if ps == [] then [] else Entries(ps[0], at) + EntriesOf(ps[1..], at)
  }

  /** Whether OnSave succeeds in every parameter of the tree. */
  predicate SavesWell(p: Param)
    decreases p, 1
  {
    p.saveRet == 0 && AllSaveWell(p.category)
  }

  predicate AllSaveWell(ps: seq<Param>)
    decreases ps, 0
  {
    ps == [] || (SavesWell(ps[0]) && AllSaveWell(ps[1..]))
  }

  /** The entries written up to the first OnSave that fails, and what it returns. */
  function Written(p: Param, at: string): (seq<Entry>, int)
    decreases p, 1
  {
    var own := Under(Inside(p, at), p.own);
    if p.saveRet != 0 then (own, p.saveRet)
    else
      var (rest, ret) := WrittenOf(p.category, Inside(p, at));
      (own + rest, ret)
  }

  function WrittenOf(ps: seq<Param>, at: string): (seq<Entry>, int)
    decreases ps, 0
  {
    if ps == [] then ([], 0)
    else
      var (first, ret) := Written(ps[0], at);
      if ret != 0 then (first, ret)
      else
        var (rest, ret) := WrittenOf(ps[1..], at);
        (first + rest, ret)
  }

  /** Saving writes the entries of the tree from the front: all of them exactly when nothing fails. */
  lemma {:induction false} WrittenIsPrefix(p: Param, at: string)
    ensures Written(p, at).0 <= Entries(p, at)
    ensures Written(p, at).1 == 0 <==> SavesWell(p)
    ensures SavesWell(p) ==> Written(p, at).0 == Entries(p, at)
    decreases p, 1
  {
    WrittenOfIsPrefix(p.category, Inside(p, at));
  }

  lemma {:induction false} WrittenOfIsPrefix(ps: seq<Param>, at: string)
    ensures WrittenOf(ps, at).0 <= EntriesOf(ps, at)
    ensures WrittenOf(ps, at).1 == 0 <==> AllSaveWell(ps)
    ensures AllSaveWell(ps) ==> WrittenOf(ps, at).0 == EntriesOf(ps, at)
    decreases ps, 0
  {
    if ps != [] {
      WrittenIsPrefix(ps[0], at);
      WrittenOfIsPrefix(ps[1..], at);
    }
  }

  // ----- what loading reads -----

  function ReadOwn(es: seq<Entry>, store: Store, at: string): (r: seq<Entry>)
    ensures |r| == |es|
    ensures forall i :: 0 <= i < |es| ==>
              r[i] == Entry(es[i].key, Lookup(store, at + es[i].key, es[i].value))
  {
    seq(|es|, i requires 0 <= i < |es| => Entry(es[i].key, Lookup(store, at + es[i].key, es[i].value)))
  }

  /** The tree after loading, and what Load returns. */
  function Loaded(p: Param, store: Store, at: string): (Param, int)
    decreases p, 1
  {
    var q := p.(own := ReadOwn(p.own, store, Inside(p, at)));
    if p.loadRet != 0 then (q, p.loadRet)
    else
      var (category, ret) := LoadedAll(p.category, store, Inside(p, at));
      (q.(category := category), ret)
  }

  function LoadedAll(ps: seq<Param>, store: Store, at: string): (r: (seq<Param>, int))
    ensures |r.0| == |ps|
    decreases ps, 0
  {
    if ps == [] then ([], 0)
    else
      var (first, ret) := Loaded(ps[0], store, at);
      if ret != 0 then ([first] + ps[1..], ret)
      else
        var (rest, ret) := LoadedAll(ps[1..], store, at);
        ([first] + rest, ret)
  }

  predicate LoadsWell(p: Param)
    decreases p, 1
  {
    p.loadRet == 0 && AllLoadWell(p.category)
  }

  predicate AllLoadWell(ps: seq<Param>)
    decreases ps, 0
  {
    ps == [] || (LoadsWell(ps[0]) && AllLoadWell(ps[1..]))
  }

  // ----- round trip -----

  /** Trees of the same classes: they may differ in their values and flags only. */
  ghost predicate Alike(p: Param, q: Param)
    decreases p, 1
  {
    && p.prefix == q.prefix && |p.own| == |q.own|
    && (forall i :: 0 <= i < |p.own| ==> p.own[i].key == q.own[i].key)
    && AllAlike(p.category, q.category)
  }

  ghost predicate AllAlike(ps: seq<Param>, qs: seq<Param>)
    decreases ps, 0
  {
    |ps| == |qs| && (ps == [] || (Alike(ps[0], qs[0]) && AllAlike(ps[1..], qs[1..])))
  }

  /** `q` with the values of `p`. */
  ghost function Restored(q: Param, p: Param): Param
    requires Alike(p, q)
    decreases p, 1
  {
    q.(own := p.own, category := RestoredAll(q.category, p.category))
  }

  ghost function RestoredAll(qs: seq<Param>, ps: seq<Param>): seq<Param>
    requires AllAlike(ps, qs)
    decreases ps, 0
  {
    if ps == [] then [] else [Restored(qs[0], ps[0])] + RestoredAll(qs[1..], ps[1..])
  }

  lemma {:induction false} HoldsSplit(store: Store, xs: seq<Entry>, ys: seq<Entry>)
    requires Holds(store, xs + ys)
    ensures Holds(store, xs) && Holds(store, ys)
  {
    assert forall i :: 0 <= i < |xs| ==> xs[i] == (xs + ys)[i];
    assert forall i :: 0 <= i < |ys| ==> ys[i] == (xs + ys)[|xs| + i];
  }

  /** Loading from a store that holds the entries of a tree gives the values of that tree. */
  lemma {:induction false} LoadRestores(p: Param, q: Param, store: Store, at: string)
    requires Alike(p, q) && LoadsWell(q) && Holds(store, Entries(p, at))
    ensures Loaded(q, store, at) == (Restored(q, p), 0)
    decreases p, 1
  {
    var inside := Inside(p, at);
    HoldsSplit(store, Under(inside, p.own), EntriesOf(p.category, inside));
    forall i | 0 <= i < |p.own| ensures ReadOwn(q.own, store, inside)[i] == p.own[i] {
      assert Under(inside, p.own)[i].key == inside + p.own[i].key;
    }
    assert ReadOwn(q.own, store, inside) == p.own;
    LoadAllRestores(p.category, q.category, store, inside);
  }

  lemma {:induction false} LoadAllRestores(ps: seq<Param>, qs: seq<Param>, store: Store, at: string)
    requires AllAlike(ps, qs) && AllLoadWell(qs) && Holds(store, EntriesOf(ps, at))
    ensures LoadedAll(qs, store, at) == (RestoredAll(qs, ps), 0)
    decreases ps, 0
  {
    if ps != [] {
      HoldsSplit(store, Entries(ps[0], at), EntriesOf(ps[1..], at));
      LoadRestores(ps[0], qs[0], store, at);
      LoadAllRestores(ps[1..], qs[1..], store, at);
    }
  }

  /** And if loading gives those values, the store holds the entries, provided it has their keys. */
  lemma {:induction false} LoadShows(p: Param, q: Param, store: Store, at: string)
    requires Alike(p, q) && LoadsWell(q) && Loaded(q, store, at) == (Restored(q, p), 0)
    requires forall i :: 0 <= i < |Entries(p, at)| ==> Entries(p, at)[i].key in store
    ensures Holds(store, Entries(p, at))
    decreases p, 1
  {
    var inside := Inside(p, at);
    var own, rest := Under(inside, p.own), EntriesOf(p.category, inside);
    assert forall i :: 0 <= i < |own| ==> own[i] == Entries(p, at)[i];
    assert forall i :: 0 <= i < |rest| ==> rest[i] == Entries(p, at)[|own| + i];
    forall i | 0 <= i < |own| ensures own[i].key in store && store[own[i].key] == own[i].value {
      assert ReadOwn(q.own, store, inside)[i] == p.own[i];
    }
    LoadAllShows(p.category, q.category, store, inside);
  }

  lemma {:induction false} LoadAllShows(ps: seq<Param>, qs: seq<Param>, store: Store, at: string)
    requires AllAlike(ps, qs) && AllLoadWell(qs) && LoadedAll(qs, store, at) == (RestoredAll(qs, ps), 0)
    requires forall i :: 0 <= i < |EntriesOf(ps, at)| ==> EntriesOf(ps, at)[i].key in store
    ensures Holds(store, EntriesOf(ps, at))
    decreases ps, 0
  {
    if ps != [] {
      assert EntriesOf(ps, at) == Entries(ps[0], at) + EntriesOf(ps[1..], at);
      KeysSplit(Entries(ps[0], at), EntriesOf(ps[1..], at), store);
      LoadAllSplit(ps, qs, store, at);
      LoadShows(ps[0], qs[0], store, at);
      LoadAllShows(ps[1..], qs[1..], store, at);
      HoldsJoin(store, Entries(ps[0], at), EntriesOf(ps[1..], at));
    }
  }

  lemma {:induction false} KeysSplit(xs: seq<Entry>, ys: seq<Entry>, store: Store)
    requires forall i :: 0 <= i < |xs + ys| ==> (xs + ys)[i].key in store
    ensures forall i :: 0 <= i < |xs| ==> xs[i].key in store
    ensures forall i :: 0 <= i < |ys| ==> ys[i].key in store
  {
    assert forall i :: 0 <= i < |xs| ==> xs[i] == (xs + ys)[i];
    assert forall i :: 0 <= i < |ys| ==> ys[i] == (xs + ys)[|xs| + i];
  }

  lemma {:induction false} HoldsJoin(store: Store, xs: seq<Entry>, ys: seq<Entry>)
    requires Holds(store, xs) && Holds(store, ys)
    ensures Holds(store, xs + ys)
  {
  }

  lemma {:induction false} LoadAllSplit(ps: seq<Param>, qs: seq<Param>, store: Store, at: string)
    requires AllAlike(ps, qs) && AllLoadWell(qs) && ps != []
    requires LoadedAll(qs, store, at) == (RestoredAll(qs, ps), 0)
    ensures Loaded(qs[0], store, at) == (Restored(qs[0], ps[0]), 0)
    ensures LoadedAll(qs[1..], store, at) == (RestoredAll(qs[1..], ps[1..]), 0)
  {
    hide Loaded, Restored;
    var f, r := Loaded(qs[0], store, at), LoadedAll(qs[1..], store, at);
    LoadRet(qs[0], store, at);
    assert LoadedAll(qs, store, at).0 == [f.0] + r.0;
    assert RestoredAll(qs, ps)[0] == Restored(qs[0], ps[0]);
    assert RestoredAll(qs, ps)[1..] == RestoredAll(qs[1..], ps[1..]);
    assert ([f.0] + r.0)[1..] == r.0;
  }

  lemma {:induction false} LoadRet(p: Param, store: Store, at: string)
    requires LoadsWell(p)
    ensures Loaded(p, store, at).1 == 0
    decreases p, 1
  {
    LoadAllRet(p.category, store, Inside(p, at));
  }

  lemma {:induction false} LoadAllRet(ps: seq<Param>, store: Store, at: string)
    requires AllLoadWell(ps)
    ensures LoadedAll(ps, store, at).1 == 0
    decreases ps, 0
  {
    if ps != [] {
      LoadRet(ps[0], store, at);
      LoadAllRet(ps[1..], store, at);
    }
  }

  /**
   * Saving a tree over any store and loading it into any tree of the same classes gives its values back
   * exactly when no two of its parameters give one full key different values.
   */
  lemma {:induction false} SaveThenLoad(p: Param, q: Param, store: Store, at: string)
    requires Alike(p, q) && SavesWell(p) && LoadsWell(q)
    ensures Loaded(q, WriteAll(store, Written(p, at).0), at) == (Restored(q, p), 0) <==> Agreeing(Entries(p, at))
  {
    WrittenIsPrefix(p, at);
    var es := Entries(p, at);
    var saved := WriteAll(store, es);
    WriteAllHolds(store, es);
    if Agreeing(es) {
      LoadRestores(p, q, saved, at);
    }
    if Loaded(q, saved, at) == (Restored(q, p), 0) {
      forall i | 0 <= i < |es| ensures es[i].key in saved {
        WriteAllHas(store, es, i);
      }
      LoadShows(p, q, saved, at);
    }
  }

  /** Saving, whether it succeeds or not, touches no key outside the tree. */
  lemma {:induction false} SaveFrame(p: Param, store: Store, at: string, key: string)
    requires forall i :: 0 <= i < |Entries(p, at)| ==> Entries(p, at)[i].key != key
    ensures Lookup(WriteAll(store, Written(p, at).0), key, Number(0)) == Lookup(store, key, Number(0))
    ensures key in WriteAll(store, Written(p, at).0) <==> key in store
  {
    WrittenIsPrefix(p, at);
    WriteAllFrame(store, Written(p, at).0, key);
  }

  /** After a failure the keys that come later in the visit keep what they had. */
  lemma {:induction false} SaveStopsAtFailure(p: Param, store: Store, at: string, i: nat)
    requires |Written(p, at).0| <= i < |Entries(p, at)|
    requires forall e | e in Written(p, at).0 :: e.key != Entries(p, at)[i].key
    ensures Written(p, at).1 != 0
    ensures var key := Entries(p, at)[i].key;
            Lookup(WriteAll(store, Written(p, at).0), key, Number(0)) == Lookup(store, key, Number(0))
  {
    WrittenIsPrefix(p, at);
    WriteAllFrame(store, Written(p, at).0, Entries(p, at)[i].key);
  }

  // ----- the order of the visit -----

  /** A visit of one parameter: the text before its keys, its keys and values, what OnSave and OnLoad return. */
  datatype Visit = Visit(at: string, own: seq<Entry>, saveRet: int, loadRet: int)

  /** All parameters of a tree: each after its parent, with the prefixes from the root down before its keys. */
  function Visits(p: Param, at: string): seq<Visit>
    decreases p, 1
  {
    var inside := if p.prefix == "" then at else at + p.prefix + "/";
    [Visit(inside, p.own, p.saveRet, p.loadRet)] + VisitsOf(p.category, inside)
  }

  function VisitsOf(ps: seq<Param>, at: string): seq<Visit>
    decreases ps, 0
  {
    if ps == [] then [] else Visits(ps[0], at) + VisitsOf(ps[1..], at)
  }

  /** The entries of the visits, one after the other. */
  function Texts(vs: seq<Visit>): seq<Entry>
  {
    if vs == [] then [] else Under(vs[0].at, vs[0].own) + Texts(vs[1..])
  }

  lemma {:induction false} TextsConcat(xs: seq<Visit>, ys: seq<Visit>)
    ensures Texts(xs + ys) == Texts(xs) + Texts(ys)
  {
    if xs == [] {
      assert xs + ys == ys;
    } else {
      assert (xs + ys)[1..] == xs[1..] + ys;
      TextsConcat(xs[1..], ys);
    }
  }

  /** The first `n` visits succeed and the next one, if any, returns `ret`, which is then no success. */
  ghost predicate StopsAt(vs: seq<Visit>, n: nat, ret: int, saving: bool)
  {
    && n <= |vs| && (forall k :: 0 <= k < n ==> (if saving then vs[k].saveRet else vs[k].loadRet) == 0)
    && if n == |vs| then ret == 0 else ret != 0 && ret == if saving then vs[n].saveRet else vs[n].loadRet
  }

  /** The visits up to the one that fails. */
  function UpTo(vs: seq<Visit>, n: nat): (r: seq<Visit>)
    requires n <= |vs|
  {
    if n < |vs| then vs[..n + 1] else vs
  }

  /** Saving writes the entries of every visit up to the first that fails, with those of that one, in order. */
  lemma {:induction false} WrittenUpToFailure(p: Param, at: string) returns (n: nat)
    ensures StopsAt(Visits(p, at), n, Written(p, at).1, true)
    ensures Written(p, at).0 == Texts(UpTo(Visits(p, at), n))
    decreases p, 1
  {
    var vs, rest := Visits(p, at), VisitsOf(p.category, Inside(p, at));
    var own := Under(Inside(p, at), p.own);
    if p.saveRet != 0 {
      n := 0;
      assert UpTo(vs, 0)[1..] == [];
    } else {
      var m := WrittenOfUpToFailure(p.category, Inside(p, at));
      n := m + 1;
      StopsLater(vs[0], rest, m, Written(p, at).1, true);
      assert UpTo(vs, n)[1..] == UpTo(rest, m);
    }
  }

  lemma {:induction false} StopsLater(v: Visit, rest: seq<Visit>, m: nat, ret: int, saving: bool)
    requires StopsAt(rest, m, ret, saving) && (if saving then v.saveRet else v.loadRet) == 0
    ensures StopsAt([v] + rest, m + 1, ret, saving)
  {
  }

  /** Of two lists of visits, the second begins when the first has succeeded. */
  lemma {:induction false} StopsInFirst(xs: seq<Visit>, ys: seq<Visit>, n: nat, ret: int, saving: bool)
    requires StopsAt(xs, n, ret, saving) && n < |xs|
    ensures StopsAt(xs + ys, n, ret, saving)
  {
  }

  lemma {:induction false} StopsInSecond(xs: seq<Visit>, ys: seq<Visit>, m: nat, ret: int, saving: bool)
    requires StopsAt(xs, |xs|, 0, saving) && StopsAt(ys, m, ret, saving)
    ensures StopsAt(xs + ys, |xs| + m, ret, saving)
  {
  }

  lemma {:induction false} NoTexts()
    ensures Texts([]) == []
  {
  }

  lemma {:induction false} WrittenOfUpToFailure(ps: seq<Param>, at: string) returns (n: nat)
    ensures StopsAt(VisitsOf(ps, at), n, WrittenOf(ps, at).1, true)
    ensures WrittenOf(ps, at).0 == Texts(UpTo(VisitsOf(ps, at), n))
    decreases ps, 0
  {
    hide Written, Visits, Texts;
    if ps == [] {
      n := 0;
      NoTexts();
    } else {
      var xs, ys := Visits(ps[0], at), VisitsOf(ps[1..], at);
      n := WrittenUpToFailure(ps[0], at);
      if n < |xs| {
        StopsInFirst(xs, ys, n, Written(ps[0], at).1, true);
        assert UpTo(xs + ys, n) == UpTo(xs, n);
      } else {
        var m := WrittenOfUpToFailure(ps[1..], at);
        StopsInSecond(xs, ys, m, WrittenOf(ps[1..], at).1, true);
        assert UpTo(xs + ys, |xs| + m) == xs + UpTo(ys, m);
        TextsConcat(xs, UpTo(ys, m));
        n := |xs| + m;
      }
    }
  }

  /** After loading, a visited parameter has the values of the store for its keys, and its own for missing ones. */
  ghost predicate Took(v: Visit, w: Visit, store: Store)
  {
    && w.at == v.at && w.saveRet == v.saveRet && w.loadRet == v.loadRet && |w.own| == |v.own|
    && forall i :: 0 <= i < |v.own| ==>
         && w.own[i].key == v.own[i].key
         && var key := v.at + v.own[i].key; w.own[i].value == if key in store then store[key] else v.own[i].value
  }

  /** Up to and with the n-th visit the values were taken from the store, after it nothing has changed. */
  ghost predicate TookUpTo(vs: seq<Visit>, ws: seq<Visit>, n: nat, store: Store)
  {
    && |vs| == |ws|
    && (forall k :: 0 <= k < |vs| && k <= n ==> Took(vs[k], ws[k], store))
    && (forall k :: n < k < |vs| ==> ws[k] == vs[k])
  }

  lemma {:induction false} TookOne(p: Param, store: Store, at: string, q: Param)
    requires q == p.(own := ReadOwn(p.own, store, Inside(p, at)))
    ensures Took(Visits(p, at)[0], Visits(q, at)[0], store)
  {
  }

  lemma {:induction false} TookConcat(xs: seq<Visit>, ys: seq<Visit>, xs': seq<Visit>, ys': seq<Visit>, n: nat,
                                      m: nat, store: Store)
    requires |xs| <= n && TookUpTo(xs, xs', n, store) && TookUpTo(ys, ys', m, store)
    ensures TookUpTo(xs + ys, xs' + ys', |xs| + m, store)
  {
  }

  lemma {:induction false} TookThenNothing(xs: seq<Visit>, ys: seq<Visit>, xs': seq<Visit>, n: nat, store: Store)
    requires n < |xs| && TookUpTo(xs, xs', n, store)
    ensures TookUpTo(xs + ys, xs' + ys, n, store)
  {
  }

  /**
   * Loading takes the values of every visit up to the first that fails, with those of that one, and leaves all
   * later parameters as they were.
   */
  lemma {:induction false} LoadedUpToFailure(p: Param, store: Store, at: string) returns (n: nat)
    ensures StopsAt(Visits(p, at), n, Loaded(p, store, at).1, false)
    ensures TookUpTo(Visits(p, at), Visits(Loaded(p, store, at).0, at), n, store)
    decreases p, 1
  {
    var inside := Inside(p, at);
    var q := p.(own := ReadOwn(p.own, store, inside));
    var v, w, rest := Visits(p, at)[0], Visits(q, at)[0], VisitsOf(p.category, inside);
    TookOne(p, store, at, q);
    if p.loadRet != 0 {
      n := 0;
      assert Visits(q, at) == [w] + rest;
    } else {
      var (category, ret) := LoadedAll(p.category, store, inside);
      var m := LoadedAllUpToFailure(p.category, store, inside);
      n := m + 1;
      StopsLater(v, rest, m, ret, false);
      assert Visits(q.(category := category), at) == [w] + VisitsOf(category, inside);
      TookConcat([v], rest, [w], VisitsOf(category, inside), 1, m, store);
    }
  }

  lemma {:induction false} LoadedAllUpToFailure(ps: seq<Param>, store: Store, at: string) returns (n: nat)
    ensures StopsAt(VisitsOf(ps, at), n, LoadedAll(ps, store, at).1, false)
    ensures TookUpTo(VisitsOf(ps, at), VisitsOf(LoadedAll(ps, store, at).0, at), n, store)
    decreases ps, 0
  {
    if ps == [] {
      n := 0;
    } else {
      var xs, ys := Visits(ps[0], at), VisitsOf(ps[1..], at);
      var (first, ret) := Loaded(ps[0], store, at);
      n := LoadedUpToFailure(ps[0], store, at);
      var xs' := Visits(first, at);
      if ret != 0 {
        StopsInFirst(xs, ys, n, ret, false);
        TookThenNothing(xs, ys, xs', n, store);
        assert LoadedAll(ps, store, at).0[1..] == ps[1..];
      } else {
        var m := LoadedAllUpToFailure(ps[1..], store, at);
        var rest := LoadedAll(ps[1..], store, at);
        StopsInSecond(xs, ys, m, rest.1, false);
        TookConcat(xs, ys, xs', VisitsOf(rest.0, at), n, m, store);
        assert LoadedAll(ps, store, at).0[1..] == rest.0;
        n := |xs| + m;
      }
    }
  }

  // ----- the operations -----

  /** Src/Parameter.cpp:81-101; children are saved with the default of bForce, Src/Parameter.h:254. */
  method Save(p: Param, settings: QSettings, force: bool := true) returns (ret: int)
    modifies settings
    ensures settings.groups == old(settings.groups)
    ensures !p.modified && !force ==> ret == 0 && settings.store == old(settings.store)
    ensures p.modified || force ==>
              var (es, r) := Written(p, Prefix(settings.groups));
              settings.store == WriteAll(old(settings.store), es) && ret == r
    decreases p, 1
  {
    if !p.modified && !force {
      return 0;
    }
    ghost var inside := Inside(p, Prefix(settings.groups));
    PrefixSnoc(settings.groups, p.prefix);
    if p.prefix != "" {
      settings.BeginGroup(p.prefix);
    }
    OnSave(p, settings);
    ret := p.saveRet;
    if ret == 0 {
      ret := SaveCategory(p.category, settings);
      WriteAllConcat(old(settings.store), Under(inside, p.own), WrittenOf(p.category, inside).0);
    }
    if p.prefix != "" {
      settings.EndGroup();
    }
  }

  /** The derived class writes its own keys. */
  method OnSave(p: Param, settings: QSettings)
    modifies settings`store
    ensures settings.store == WriteAll(old(settings.store), Under(Prefix(settings.groups), p.own))
  {
    ghost var at := Prefix(settings.groups);
    ghost var es := Under(at, p.own);
    var i := 0;
    while i < |p.own|
      invariant i <= |p.own|
      invariant WriteAll(old(settings.store), es) == WriteAll(settings.store, es[i..])
    {
      assert es[i..][0] == Entry(at + p.own[i].key, p.own[i].value) && es[i..][1..] == es[i + 1..];
      settings.SetValue(p.own[i].key, p.own[i].value);
      i := i + 1;
    }
  }

  /** Lines 92-95. */
  method SaveCategory(ps: seq<Param>, settings: QSettings) returns (ret: int)
    modifies settings
    ensures settings.groups == old(settings.groups)
    ensures var (es, r) := WrittenOf(ps, Prefix(settings.groups));
            settings.store == WriteAll(old(settings.store), es) && ret == r
    decreases ps, 0
  {
    ghost var at := Prefix(settings.groups);
    if ps == [] {
      return 0;
    }
    ret := Save(ps[0], settings);
    if ret == 0 {
      ghost var first := Written(ps[0], at).0;
      ret := SaveCategory(ps[1..], settings);
      WriteAllConcat(old(settings.store), first, WrittenOf(ps[1..], at).0);
    }
  }

  /** Src/Parameter.cpp:60-79. */
  method Load(p: Param, settings: QSettings) returns (q: Param, ret: int)
    modifies settings`groups
    ensures settings.groups == old(settings.groups)
    ensures (q, ret) == Loaded(p, settings.store, Prefix(settings.groups))
    decreases p, 1
  {
    PrefixSnoc(settings.groups, p.prefix);
    if p.prefix != "" {
      settings.BeginGroup(p.prefix);
    }
    var own := OnLoad(p, settings);
    q := p.(own := own);
    ret := p.loadRet;
    if ret == 0 {
      var category;
      category, ret := LoadCategory(p.category, settings);
      q := q.(category := category);
    }
    if p.prefix != "" {
      settings.EndGroup();
    }
  }

  /** The derived class reads its own keys, keeping the current value of one that is missing. */
  method OnLoad(p: Param, settings: QSettings) returns (own: seq<Entry>)
    ensures own == ReadOwn(p.own, settings.store, Prefix(settings.groups))
  {
    own := [];
    var i := 0;
    while i < |p.own|
      invariant i <= |p.own| && own == ReadOwn(p.own, settings.store, Prefix(settings.groups))[..i]
    {
      var v := settings.GetValue(p.own[i].key, p.own[i].value);
      own := own + [Entry(p.own[i].key, v)];
      i := i + 1;
    }
  }

  /** Lines 70-73. */
  method LoadCategory(ps: seq<Param>, settings: QSettings) returns (qs: seq<Param>, ret: int)
    modifies settings`groups
    ensures settings.groups == old(settings.groups)
    ensures (qs, ret) == LoadedAll(ps, settings.store, Prefix(settings.groups))
    decreases ps, 0
  {
    if ps == [] {
      return [], 0;
    }
    var first;
    first, ret := Load(ps[0], settings);
    if ret != 0 {
      return [first] + ps[1..], ret;
    }
    var rest;
    rest, ret := LoadCategory(ps[1..], settings);
    qs := [first] + rest;
  }
}

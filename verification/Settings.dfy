/** The grouped key/value store, QSettings, as far as saving and loading need it. */
module Settings {

  datatype Value = Number(n: int) | Text(s: string)

  type Store = map<string, Value>

  datatype Entry = Entry(key: string, value: Value)

  /** The text that the open groups put before a key. */
  function Prefix(groups: seq<string>): string
  {
    if groups == [] then "" else groups[0] + "/" + Prefix(groups[1..])
  }

  function Lookup(store: Store, key: string, default: Value): Value
  {
    if key in store then store[key] else default
  }

  /** The store after a list of entries was written in order. */
  function WriteAll(store: Store, es: seq<Entry>): Store
    decreases |es|
  {
    if es == [] then store else WriteAll(store[es[0].key := es[0].value], es[1..])
  }

  /** No key is given two values. */
  ghost predicate Agreeing(es: seq<Entry>)
  {
    forall i, j :: 0 <= i < j < |es| && es[i].key == es[j].key ==> es[i].value == es[j].value
  }

  /** Every entry is in the store. */
  ghost predicate Holds(store: Store, es: seq<Entry>)
  {
    forall i :: 0 <= i < |es| ==> es[i].key in store && store[es[i].key] == es[i].value
  }

  lemma {:induction false} WriteAllFrame(store: Store, es: seq<Entry>, key: string)
    requires forall i :: 0 <= i < |es| ==> es[i].key != key
    ensures key in WriteAll(store, es) <==> key in store
    ensures key in store ==> WriteAll(store, es)[key] == store[key]
    decreases |es|
  {
    if es != [] {
      WriteAllFrame(store[es[0].key := es[0].value], es[1..], key);
    }
  }

  lemma {:induction false} WriteAllKeeps(store: Store, es: seq<Entry>, e: Entry)
    requires e.key in store && store[e.key] == e.value
    requires forall i :: 0 <= i < |es| && es[i].key == e.key ==> es[i].value == e.value
    ensures e.key in WriteAll(store, es) && WriteAll(store, es)[e.key] == e.value
    decreases |es|
  {
    if es != [] {
      WriteAllKeeps(store[es[0].key := es[0].value], es[1..], e);
    }
  }

  lemma {:induction false} WriteAllHas(store: Store, es: seq<Entry>, i: nat)
    requires i < |es|
    ensures es[i].key in WriteAll(store, es)
    decreases |es|
  {
    var next := store[es[0].key := es[0].value];
    if i > 0 {
      WriteAllHas(next, es[1..], i - 1);
    } else if exists k :: 1 <= k < |es| && es[k].key == es[0].key {
      var k :| 1 <= k < |es| && es[k].key == es[0].key;
      WriteAllHas(next, es[1..], k - 1);
    } else {
      WriteAllFrame(next, es[1..], es[0].key);
    }
  }

  /** What was written can be read back exactly when no key was given two values. */
  lemma {:induction false} WriteAllHolds(store: Store, es: seq<Entry>)
    ensures Holds(WriteAll(store, es), es) <==> Agreeing(es)
    decreases |es|
  {
    if Agreeing(es) && es != [] {
      var next := store[es[0].key := es[0].value];
      WriteAllHolds(next, es[1..]);
      WriteAllKeeps(next, es[1..], es[0]);
      forall i | 0 <= i < |es|
        ensures es[i].key in WriteAll(store, es) && WriteAll(store, es)[es[i].key] == es[i].value
      {
        if i > 0 {
          assert es[i] == es[1..][i - 1];
        }
      }
    }
  }

  /** Writing what is there already changes nothing. */
  lemma {:induction false} WriteAllSame(store: Store, es: seq<Entry>)
    requires Holds(store, es)
    ensures WriteAll(store, es) == store
    decreases |es|
  {
    if es != [] {
      assert store[es[0].key := es[0].value] == store;
      assert forall i :: 0 <= i < |es[1..]| ==> es[1..][i] == es[i + 1];
      WriteAllSame(store, es[1..]);
    }
  }

  lemma {:induction false} WriteAllConcat(store: Store, xs: seq<Entry>, ys: seq<Entry>)
    ensures WriteAll(store, xs + ys) == WriteAll(WriteAll(store, xs), ys)
    decreases |xs|
  {
    if xs == [] {
      assert xs + ys == ys;
    } else {
      assert (xs + ys)[1..] == xs[1..] + ys;
      WriteAllConcat(store[xs[0].key := xs[0].value], xs[1..], ys);
    }
  }

  lemma {:induction false} PrefixSnoc(groups: seq<string>, g: string)
    ensures Prefix(groups + [g]) == Prefix(groups) + g + "/"
  {
    if groups == [] {
      assert (groups + [g])[1..] == [];
    } else {
      PrefixSnoc(groups[1..], g);
      assert (groups + [g])[1..] == groups[1..] + [g];
    }
  }

  class QSettings {
    var store: Store
    var groups: seq<string>

    constructor ()
      ensures store == map[] && groups == []
    {
      store, groups := map[], [];
    }

    method BeginGroup(g: string)
      modifies this`groups
      ensures groups == old(groups) + [g]
    {
      groups := groups + [g];
    }

    method EndGroup()
      requires groups != []
      modifies this`groups
      ensures groups == old(groups)[..|old(groups)| - 1]
    {
      groups := groups[..|groups| - 1];
    }

    method SetValue(key: string, value: Value)
      modifies this`store
      ensures store == old(store)[Prefix(groups) + key := value]
    {
      store := store[Prefix(groups) + key := value];
    }

    method GetValue(key: string, default: Value) returns (value: Value)
      ensures value == Lookup(store, Prefix(groups) + key, default)
    {
      value := Lookup(store, Prefix(groups) + key, default);
    }
  }
}

/** Saving and loading the list of transfers (Plugins/FileTransfer/ListFileModel.cpp). */
module TransferList {
  import opened Settings

  /** The codes of CFileTransfer::State and CFileTransfer::Direction, ListFileModel.h:14-17 and 53-63. */
  const STATE_NO := 0x01
  const STATE_FINISH := 0x20
  const STATE_FAIL := 0x40
  const DIRECTION_UPLOAD := 0
  const DEFAULT_PERMISSION := 0x0644

  /** The fields of a CFileTransfer that are saved; `finishTime` is its text, empty when there is none. */
  datatype Transfer = Transfer(
    localFile: string, direction: int, remoteFile: string, remotePermission: int,
    fileSize: int, transferSize: int, state: int, explanation: string, finishTime: string)

  /** Lines 442-443 and 467-469: only ended transfers keep their state. */
  function SavedState(state: int): int
  {
    if state == STATE_FINISH || state == STATE_FAIL then state else STATE_NO
  }

  function Normal(f: Transfer): Transfer { f.(state := SavedState(f.state)) }

  function NormalAll(files: seq<Transfer>): (r: seq<Transfer>)
    ensures |r| == |files| && forall i :: 0 <= i < |files| ==> r[i] == Normal(files[i])
  {
    seq(|files|, i requires 0 <= i < |files| => Normal(files[i]))
  }

  // ----- keys -----

  /** QString::number. */
  function Digits(n: nat): (s: string)
    ensures s != [] && forall k :: 0 <= k < |s| ==> '0' <= s[k] <= '9'
  {
    var d := ['0' + (n % 10) as char];
    if n < 10 then d else Digits(n / 10) + d
  }

  lemma {:induction false} DigitsInjective(m: nat, n: nat)
    requires Digits(m) == Digits(n)
    ensures m == n
  {
    var s, t := Digits(m), Digits(n);
    assert s[|s| - 1] == '0' + (m % 10) as char && t[|t| - 1] == '0' + (n % 10) as char;
    assert m % 10 == n % 10;
    if m >= 10 && n >= 10 {
      assert s[..|s| - 1] == Digits(m / 10) && t[..|t| - 1] == Digits(n / 10);
      DigitsInjective(m / 10, n / 10);
    }
  }

  function Group(i: nat): string { "Model/ListFile/FileTransfer" + Digits(i) }

  const COUNT_KEY := "Model/ListFile/Count"

  function FirstSlash(s: string): nat
  {
    if s == [] || s[0] == '/' then 0 else 1 + FirstSlash(s[1..])
  }

  lemma {:induction false} FirstSlashAt(a: string, x: string)
    requires '/' !in a
    ensures FirstSlash(a + "/" + x) == |a|
  {
    if a == [] {
      assert a + "/" + x == "/" + x;
    } else {
      FirstSlashAt(a[1..], x);
      assert (a + "/" + x)[1..] == a[1..] + "/" + x;
    }
  }

  /** Text up to a slash and text after it determine each other's place. */
  lemma {:induction false} SlashSplits(a: string, b: string, x: string, y: string)
    requires a + "/" + x == b + "/" + y && '/' !in a && '/' !in b
    ensures a == b && x == y
  {
    FirstSlashAt(a, x);
    FirstSlashAt(b, y);
    var s, t := a + "/" + x, b + "/" + y;
    assert a == s[..|a|] && b == t[..|b|];
    assert x == s[|a| + 1..] && y == t[|b| + 1..];
  }

  /** The groups of different transfers share no key, whatever is appended. */
  lemma {:induction false} GroupsDisjoint(i: nat, j: nat, x: string, y: string)
    requires Group(i) + "/" + x == Group(j) + "/" + y
    ensures i == j && x == y
  {
    var p := "Model/ListFile/FileTransfer";
    var s, t := Group(i) + "/" + x, Group(j) + "/" + y;
    assert s == p + (Digits(i) + "/" + x) && t == p + (Digits(j) + "/" + y);
    assert s[|p|..] == Digits(i) + "/" + x && t[|p|..] == Digits(j) + "/" + y;
    SlashSplits(Digits(i), Digits(j), x, y);
    DigitsInjective(i, j);
  }

  lemma {:induction false} CountKeyApart(i: nat, x: string)
    ensures Group(i) + "/" + x != COUNT_KEY
  {
    assert (Group(i) + "/" + x)[15] == 'F' && COUNT_KEY[15] == 'C';
  }

  // ----- what is written -----

  /** Lines 461-473, in order, inside the group of the i-th transfer. */
  function Fields(f: Transfer): seq<Entry>
  {
    [Entry("Local/File", Text(f.localFile)),
     Entry("Direction", Number(f.direction)),
     Entry("Remote/File", Text(f.remoteFile)),
     Entry("Remote/Permission", Number(f.remotePermission)),
     Entry("File/Size", Number(f.fileSize)),
     Entry("File/Size/Transfer", Number(f.transferSize)),
     Entry("State", Number(SavedState(f.state))),
     Entry("Explanation", Text(f.explanation)),
     Entry("FinishTime", Text(f.finishTime))]
  }

  function InGroup(i: nat, es: seq<Entry>): (r: seq<Entry>)
    ensures |r| == |es|
    ensures forall k :: 0 <= k < |es| ==> r[k] == Entry(Group(i) + "/" + es[k].key, es[k].value)
  {
    seq(|es|, k requires 0 <= k < |es| => Entry(Group(i) + "/" + es[k].key, es[k].value))
  }

  /** The entries of transfers number `from` and up. */
  function EntriesFrom(files: seq<Transfer>, from: nat): seq<Entry>
    requires from <= |files|
    decreases |files| - from
  {
    if from == |files| then [] else InGroup(from, Fields(files[from])) + EntriesFrom(files, from + 1)
  }

  function Entries(files: seq<Transfer>): seq<Entry>
  {
    [Entry(COUNT_KEY, Number(|files|))] + EntriesFrom(files, 0)
  }

  lemma {:induction false} FieldsDiffer(f: Transfer)
    ensures forall k, l :: 0 <= k < l < 9 ==> Fields(f)[k].key != Fields(f)[l].key
  {
    assert "Local/File"[0] == 'L' && "Direction"[0] == 'D' && "Remote/File"[0] == 'R' && "File/Size"[0] == 'F';
    assert "Remote/File"[7] == 'F' && "Remote/Permission"[7] == 'P';
    assert "FinishTime"[2] == 'n' && "File/Size"[2] == 'l' && "File/Size/Transfer"[2] == 'l';
    assert |"File/Size"| == 9 && |"File/Size/Transfer"| == 18;
    assert "State"[0] == 'S' && "Explanation"[0] == 'E';
  }

  /** Every entry after the count belongs to the group of a transfer not before `from`. */
  lemma {:induction false} EntriesFromAt(files: seq<Transfer>, from: nat, k: nat) returns (i: nat, l: nat)
    requires from <= |files| && k < |EntriesFrom(files, from)|
    ensures from <= i < |files| && l < 9
    ensures EntriesFrom(files, from)[k] == InGroup(i, Fields(files[i]))[l]
    decreases |files| - from
  {
    if k < 9 {
      i, l := from, k;
    } else {
      i, l := EntriesFromAt(files, from + 1, k - 9);
    }
  }

  lemma {:induction false} EntriesFromAgree(files: seq<Transfer>, from: nat)
    requires from <= |files|
    ensures Agreeing(EntriesFrom(files, from))
    decreases |files| - from
  {
    if from < |files| {
      EntriesFromAgree(files, from + 1);
      var mine, rest := InGroup(from, Fields(files[from])), EntriesFrom(files, from + 1);
      var es: seq<Entry> := mine + rest;
      FieldsDiffer(files[from]);
      forall k: nat, l: nat | k < l < |es| && es[k].key == es[l].key
        ensures es[k].value == es[l].value
      {
        if k < 9 {
          if l < 9 {
            GroupsDisjoint(from, from, Fields(files[from])[k].key, Fields(files[from])[l].key);
          } else {
            var i, n := EntriesFromAt(files, from + 1, l - 9);
            GroupsDisjoint(from, i, Fields(files[from])[k].key, Fields(files[i])[n].key);
          }
        } else {
          assert rest[k - 9].key == rest[l - 9].key;
        }
      }
    }
  }

  /** No key is written twice with different values. */
  lemma {:induction false} EntriesAgree(files: seq<Transfer>)
    ensures Agreeing(Entries(files))
  {
    EntriesFromAgree(files, 0);
    var es := Entries(files);
    forall l | 1 <= l < |es| ensures es[l].key != es[0].key {
      var i, n := EntriesFromAt(files, 0, l - 1);
      CountKeyApart(i, Fields(files[i])[n].key);
    }
    assert forall l :: 1 <= l < |es| ==> es[l] == EntriesFrom(files, 0)[l - 1];
  }

  // ----- what is read -----

  function ToInt(v: Value): int { if v.Number? then v.n else 0 }
  function ToText(v: Value): string { if v.Text? then v.s else "" }

  function Field(store: Store, i: nat, name: string, default: Value): Value
  {
    Lookup(store, Group(i) + "/" + name, default)
  }

  /** Lines 432-447: a new transfer from the i-th group. */
  function LoadedOne(store: Store, i: nat): Transfer
  {
    Transfer(
      ToText(Field(store, i, "Local/File", Text(""))),
      ToInt(Field(store, i, "Direction", Number(DIRECTION_UPLOAD))),
      ToText(Field(store, i, "Remote/File", Text(""))),
      ToInt(Field(store, i, "Remote/Permission", Number(DEFAULT_PERMISSION))),
      ToInt(Field(store, i, "File/Size", Number(0))),
      ToInt(Field(store, i, "File/Size/Transfer", Number(0))),
      SavedState(ToInt(Field(store, i, "State", Number(STATE_NO)))),
      ToText(Field(store, i, "Explanation", Text(""))),
      ToText(Field(store, i, "FinishTime", Text(""))))
  }

  /** What Load appends. */
  function Loaded(store: Store): seq<Transfer>
  {
    var n := ToInt(Lookup(store, COUNT_KEY, Number(0)));
    if n <= 0 then [] else seq(n, i requires 0 <= i < n => LoadedOne(store, i))
  }

  lemma {:induction false} LoadedNext(store: Store, i: nat)
    requires i < ToInt(Lookup(store, COUNT_KEY, Number(0)))
    ensures i < |Loaded(store)| && Loaded(store)[..i + 1] == Loaded(store)[..i] + [LoadedOne(store, i)]
  {
  }

  function Saved(store: Store, files: seq<Transfer>): Store { WriteAll(store, Entries(files)) }

  lemma {:induction false} HoldsFrom(store: Store, files: seq<Transfer>, from: nat, i: nat)
    requires from <= i < |files| && Holds(store, EntriesFrom(files, from))
    ensures Holds(store, InGroup(i, Fields(files[i])))
    decreases |files| - from
  {
    var mine, rest := InGroup(from, Fields(files[from])), EntriesFrom(files, from + 1);
    assert forall k :: 0 <= k < |mine| ==> mine[k] == EntriesFrom(files, from)[k];
    assert forall k :: 0 <= k < |rest| ==> rest[k] == EntriesFrom(files, from)[|mine| + k];
    if from < i {
      HoldsFrom(store, files, from + 1, i);
    }
  }

  lemma {:induction false} LoadOneRestores(store: Store, f: Transfer, i: nat)
    requires Holds(store, InGroup(i, Fields(f)))
    ensures LoadedOne(store, i) == Normal(f)
  {
    var es, fs := InGroup(i, Fields(f)), Fields(f);
    assert forall k :: 0 <= k < 9 ==> Field(store, i, fs[k].key, Number(0)) == fs[k].value;
    assert es[0].key == Group(i) + "/" + "Local/File" && es[1].key == Group(i) + "/" + "Direction";
    assert es[2].key == Group(i) + "/" + "Remote/File" && es[3].key == Group(i) + "/" + "Remote/Permission";
    assert es[4].key == Group(i) + "/" + "File/Size" && es[5].key == Group(i) + "/" + "File/Size/Transfer";
    assert es[6].key == Group(i) + "/" + "State" && es[7].key == Group(i) + "/" + "Explanation";
    assert es[8].key == Group(i) + "/" + "FinishTime";
  }

  /** Loading what was saved, over any older store, gives the list with its states normalised. */
  lemma {:induction false} SaveThenLoad(store: Store, files: seq<Transfer>)
    ensures Loaded(Saved(store, files)) == NormalAll(files)
  {
    var saved := Saved(store, files);
    EntriesAgree(files);
    WriteAllHolds(store, Entries(files));
    assert Entries(files)[0].key == COUNT_KEY;
    assert forall k :: 0 <= k < |EntriesFrom(files, 0)| ==> EntriesFrom(files, 0)[k] == Entries(files)[k + 1];
    forall i | 0 <= i < |files| ensures LoadedOne(saved, i) == Normal(files[i]) {
      HoldsFrom(saved, files, 0, i);
      LoadOneRestores(saved, files[i], i);
    }
  }

  lemma {:induction false} NormalFields(f: Transfer)
    ensures Fields(Normal(f)) == Fields(f)
  {
  }

  lemma {:induction false} NormalEntries(files: seq<Transfer>, from: nat)
    requires from <= |files|
    ensures EntriesFrom(NormalAll(files), from) == EntriesFrom(files, from)
    decreases |files| - from
  {
    if from < |files| {
      NormalFields(files[from]);
      NormalEntries(files, from + 1);
    }
  }

  /** Saving again what was loaded from a saved list changes nothing. */
  lemma {:induction false} LoadThenSave(store: Store, files: seq<Transfer>)
    ensures var saved := Saved(store, files); Saved(saved, Loaded(saved)) == saved
  {
    var saved := Saved(store, files);
    SaveThenLoad(store, files);
    NormalEntries(files, 0);
    EntriesAgree(files);
    WriteAllHolds(store, Entries(files));
    WriteAllSame(saved, Entries(files));
  }

  // ----- keys and values as they stand in the file -----

  /** The number in a group is decimal, without leading zeros. */
  lemma {:induction false} DigitsAreDecimal(n: nat, d: nat)
    requires d < 10
    ensures Digits(d) == ["0123456789"[d]]
    ensures 0 < n ==> Digits(10 * n + d) == Digits(n) + ["0123456789"[d]]
  {
    assert (10 * n + d) / 10 == n && (10 * n + d) % 10 == d;
  }

  predicate IsText(store: Store, key: string, text: string, missing: string)
  {
    if key in store then (store[key].Text? && text == store[key].s) || (store[key].Number? && text == "")
    else text == missing
  }

  predicate IsNumber(store: Store, key: string, n: int, missing: int)
  {
    if key in store then (store[key].Number? && n == store[key].n) || (store[key].Text? && n == 0) else n == missing
  }

  /** The state is that of a finished or a failed transfer, or else that of one not yet started. */
  predicate Settled(state: int, from: int)
  {
    (state == 0x20 && from == 0x20) || (state == 0x40 && from == 0x40)
    || (state == 0x01 && from != 0x20 && from != 0x40)
  }

  lemma {:induction false} LoadedOneFields(store: Store, i: nat, f: Transfer, g: string)
    requires f == LoadedOne(store, i) && g == "Model/ListFile/FileTransfer" + Digits(i)
    ensures IsText(store, g + "/" + "Local/File", f.localFile, "")
    ensures IsNumber(store, g + "/" + "Direction", f.direction, 0)
    ensures IsText(store, g + "/" + "Remote/File", f.remoteFile, "")
    ensures IsNumber(store, g + "/" + "Remote/Permission", f.remotePermission, 0x0644)
    ensures IsNumber(store, g + "/" + "File/Size", f.fileSize, 0)
    ensures IsNumber(store, g + "/" + "File/Size/Transfer", f.transferSize, 0)
    ensures IsText(store, g + "/" + "Explanation", f.explanation, "")
    ensures IsText(store, g + "/" + "FinishTime", f.finishTime, "")
    ensures exists state :: IsNumber(store, g + "/" + "State", state, 0x01) && Settled(f.state, state)
  {
    var state := ToInt(Field(store, i, "State", Number(STATE_NO)));
    assert IsNumber(store, g + "/" + "State", state, 0x01) && Settled(f.state, state);
  }

  /** As many transfers are loaded as the count says, none if it is missing or negative, each from its own group. */
  lemma {:induction false} LoadedFields(store: Store, count: int)
    requires IsNumber(store, "Model/ListFile/Count", count, 0)
    ensures |Loaded(store)| == if count < 0 then 0 else count
    ensures forall i :: 0 <= i < |Loaded(store)| ==> Loaded(store)[i] == LoadedOne(store, i)
  {
  }

  ghost predicate Stores(store: Store, key: string, value: Value) { key in store && store[key] == value }

  /** What saving leaves in the settings for the i-th transfer, key by key. */
  lemma {:induction false} SavedFields(store: Store, files: seq<Transfer>, i: nat, g: string, saved: Store)
    requires i < |files| && g == "Model/ListFile/FileTransfer" + Digits(i) && saved == Saved(store, files)
    ensures Stores(saved, "Model/ListFile/Count", Number(|files|))
    ensures Stores(saved, g + "/" + "Local/File", Text(files[i].localFile))
    ensures Stores(saved, g + "/" + "Direction", Number(files[i].direction))
    ensures Stores(saved, g + "/" + "Remote/File", Text(files[i].remoteFile))
    ensures Stores(saved, g + "/" + "Remote/Permission", Number(files[i].remotePermission))
    ensures Stores(saved, g + "/" + "File/Size", Number(files[i].fileSize))
    ensures Stores(saved, g + "/" + "File/Size/Transfer", Number(files[i].transferSize))
    ensures Stores(saved, g + "/" + "Explanation", Text(files[i].explanation))
    ensures Stores(saved, g + "/" + "FinishTime", Text(files[i].finishTime))
    ensures exists state :: Settled(state, files[i].state) && Stores(saved, g + "/" + "State", Number(state))
  {
    SavedHolds(store, files, i, saved);
    var es, fs := InGroup(i, Fields(files[i])), Fields(files[i]);
    assert Group(i) == g;
    forall k | 0 <= k < 9 ensures Stores(saved, g + "/" + fs[k].key, fs[k].value) {
      assert es[k] == Entry(g + "/" + fs[k].key, fs[k].value);
    }
    FieldsStored(saved, g, files[i]);
  }

  lemma {:induction false} FieldsStored(saved: Store, g: string, f: Transfer)
    requires forall k {:trigger Fields(f)[k]} :: 0 <= k < 9 ==>
               Stores(saved, g + "/" + Fields(f)[k].key, Fields(f)[k].value)
    ensures Stores(saved, g + "/" + "Local/File", Text(f.localFile))
    ensures Stores(saved, g + "/" + "Direction", Number(f.direction))
    ensures Stores(saved, g + "/" + "Remote/File", Text(f.remoteFile))
    ensures Stores(saved, g + "/" + "Remote/Permission", Number(f.remotePermission))
    ensures Stores(saved, g + "/" + "File/Size", Number(f.fileSize))
    ensures Stores(saved, g + "/" + "File/Size/Transfer", Number(f.transferSize))
    ensures Stores(saved, g + "/" + "Explanation", Text(f.explanation))
    ensures Stores(saved, g + "/" + "FinishTime", Text(f.finishTime))
    ensures exists state :: Settled(state, f.state) && Stores(saved, g + "/" + "State", Number(state))
  {
    var fs := Fields(f);
    assert fs[0].key == "Local/File" && fs[1].key == "Direction" && fs[2].key == "Remote/File";
    assert fs[3].key == "Remote/Permission" && fs[4].key == "File/Size" && fs[5].key == "File/Size/Transfer";
    assert fs[7].key == "Explanation" && fs[8].key == "FinishTime";
    assert fs[6].key == "State" && Settled(SavedState(f.state), f.state);
  }

  lemma {:induction false} SavedHolds(store: Store, files: seq<Transfer>, i: nat, saved: Store)
    requires i < |files| && saved == Saved(store, files)
    ensures Stores(saved, COUNT_KEY, Number(|files|)) && Holds(saved, InGroup(i, Fields(files[i])))
  {
    EntriesAgree(files);
    WriteAllHolds(store, Entries(files));
    assert Entries(files)[0] == Entry(COUNT_KEY, Number(|files|));
    assert forall k :: 0 <= k < |EntriesFrom(files, 0)| ==> EntriesFrom(files, 0)[k] == Entries(files)[k + 1];
    HoldsFrom(saved, files, 0, i);
  }

  // ----- the model -----

  /** CListFileModel. */
  class ListFileModel {
    var m_lstFile: seq<Transfer>

    constructor ()
      ensures m_lstFile == []
    {
      m_lstFile := [];
    }

    /** Lines 455-477. */
    method Save(settings: QSettings)
      requires settings.groups == []
      modifies settings
      ensures settings.store == Saved(old(settings.store), m_lstFile) && settings.groups == []
    {
      ghost var all := Entries(m_lstFile);
      assert Prefix([]) + COUNT_KEY == COUNT_KEY;
      settings.SetValue(COUNT_KEY, Number(|m_lstFile|));
      assert settings.store == old(settings.store)[COUNT_KEY := Number(|m_lstFile|)];
      assert all[0] == Entry(COUNT_KEY, Number(|m_lstFile|)) && all[1..] == EntriesFrom(m_lstFile, 0);
      var i := 0;
      while i < |m_lstFile|
        invariant i <= |m_lstFile| && settings.groups == []
        invariant WriteAll(old(settings.store), all) == WriteAll(settings.store, EntriesFrom(m_lstFile, i))
      {
        WriteAllConcat(settings.store, InGroup(i, Fields(m_lstFile[i])), EntriesFrom(m_lstFile, i + 1));
        SaveOne(settings, i, m_lstFile[i]);
        i := i + 1;
      }
    }

    /** Lines 459-474. */
    method SaveOne(settings: QSettings, i: nat, f: Transfer)
      requires settings.groups == []
      modifies settings
      ensures settings.store == WriteAll(old(settings.store), InGroup(i, Fields(f))) && settings.groups == []
    {
      settings.BeginGroup(Group(i));
      PrefixSnoc([], Group(i));
      assert Prefix(settings.groups) == Group(i) + "/";
      ghost var es := InGroup(i, Fields(f));
      var fields := Fields(f);
      var k := 0;
      while k < |fields|
        invariant k <= |fields| && settings.groups == [Group(i)]
        invariant WriteAll(old(settings.store), es) == WriteAll(settings.store, es[k..])
      {
        assert es[k..][0] == es[k] && es[k..][1..] == es[k + 1..];
        settings.SetValue(fields[k].key, fields[k].value);
        k := k + 1;
      }
      settings.EndGroup();
    }

    /** Lines 425-453. */
    method Load(settings: QSettings)
      requires settings.groups == []
      modifies this, settings`groups
      ensures m_lstFile == old(m_lstFile) + Loaded(settings.store) && settings.groups == []
    {
      assert Prefix([]) + COUNT_KEY == COUNT_KEY;
      var v := settings.GetValue(COUNT_KEY, Number(0));
      var n := ToInt(v);
      ghost var all := Loaded(settings.store);
      var i := 0;
      while i < n
        invariant 0 <= i <= |all| && settings.groups == []
        invariant m_lstFile == old(m_lstFile) + all[..i]
      {
        LoadedNext(settings.store, i);
        var f := LoadOne(settings, i);
        m_lstFile := m_lstFile + [f];
        i := i + 1;
      }
    }

    /** Lines 431-448. */
    method LoadOne(settings: QSettings, i: nat) returns (f: Transfer)
      requires settings.groups == []
      modifies settings`groups
      ensures f == LoadedOne(settings.store, i) && settings.groups == []
    {
      settings.BeginGroup(Group(i));
      PrefixSnoc([], Group(i));
      assert Prefix(settings.groups) == Group(i) + "/";
      var localFile := settings.GetValue("Local/File", Text(""));
      var direction := settings.GetValue("Direction", Number(DIRECTION_UPLOAD));
      var remoteFile := settings.GetValue("Remote/File", Text(""));
      var permission := settings.GetValue("Remote/Permission", Number(DEFAULT_PERMISSION));
      var size := settings.GetValue("File/Size", Number(0));
      var transferred := settings.GetValue("File/Size/Transfer", Number(0));
      var state := settings.GetValue("State", Number(STATE_NO));
      var explanation := settings.GetValue("Explanation", Text(""));
      var finished := settings.GetValue("FinishTime", Text(""));
      f := Transfer(ToText(localFile), ToInt(direction), ToText(remoteFile), ToInt(permission), ToInt(size),
                    ToInt(transferred), SavedState(ToInt(state)), ToText(explanation), ToText(finished));
      settings.EndGroup();
    }
  }
}

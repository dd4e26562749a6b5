/** Saving and restoring a password under the key of the user (Src/ParameterOperate.cpp). */
module Password {
  import opened Wrappers

  /** What the cipher is keyed with: a text, or its built-in default when none was set. */
  type Secret = Option<string>

  /** RabbitCommon::CEncrypt and the digest of PasswordSum, as functions. */
  datatype Cipher = Cipher(
    encode: (Secret, string) -> string, decode: (Secret, string) -> Option<string>, sum: (string, string) -> string)

  /** What the round trip needs of the cipher. */
  ghost predicate Sound(c: Cipher)
  {
    forall s, p :: p != "" ==> c.encode(s, p) != "" && c.decode(s, c.encode(s, p)) == Some(p)
  }

  datatype PromptType = No | First

  /** CParameterPlugin; `random` is empty when the global parameters have no random password. */
  datatype Plugin = Plugin(key: string, prompt: PromptType, count: int, random: string)

  /** The plugin parameters, the settings and the number of dialogs opened so far. */
  datatype World = World(plugin: Option<Plugin>, store: map<string, string>, dialogs: nat)

  function Key(w: World): string { if w.plugin.Some? then w.plugin.value.key else "" }

  /** Lines 94-104 and 179-186. */
  function SecretOf(w: World): Secret
  {
    if Key(w) != "" then Some(Key(w))
    else if w.plugin.Some? && w.plugin.value.random != "" then Some(w.plugin.value.random)
    else None
  }

  function Get(store: map<string, string>, name: string): string { if name in store then store[name] else "" }

  function SumName(name: string): string { name + "_sum" }

  /** Whether the user may be asked for the key now. */
  predicate MayAsk(w: World)
  {
    w.plugin.Some? && Key(w) == "" && w.plugin.value.prompt.First? && w.plugin.value.count < 1
  }

  /** The dialog is opened and answered with `answer`, None if it was dismissed. */
  function Asked(w: World, answer: Option<string>): World
    requires w.plugin.Some?
  {
    var p := w.plugin.value;
    w.(dialogs := w.dialogs + 1,
       plugin := Some(p.(count := p.count + 1, key := if answer.Some? then answer.value else p.key)))
  }

  /** Lines 139-193. */
  function Saved(c: Cipher, w: World, name: string, password: string, save: bool, answer: Option<string>): World
  {
    if !save then w.(store := w.store - {name, SumName(name)})
    else
      var a := if MayAsk(w) then Asked(w, answer) else w;
      if password == "" then a
      else a.(store := a.store[name := c.encode(SecretOf(a), password)][SumName(name) := c.sum(password, Key(a))])
  }

  /** How loading ends: what it returns and the password, None if the caller's is left alone. */
  datatype Outcome = Outcome(world: World, ret: int, password: Option<string>)

  /** Lines 83-137.  After the dialog the key is not empty, so there is no second round. */
  function Loaded(c: Cipher, w: World, name: string, answer: Option<string>): Outcome
    decreases Key(w) == ""
  {
    var stored := Get(w.store, name);
    if stored == "" then Outcome(w, 0, None)
    else
      var p := c.decode(SecretOf(w), stored);
      if p.Some? && c.sum(p.value, Key(w)) == Get(w.store, SumName(name)) then Outcome(w, 0, p)
      else if !MayAsk(w) then Outcome(w, -1, p)
      else if answer == None || answer.value == "" then Outcome(Asked(w, None), -1, p)
      else Loaded(c, Asked(w, answer), name, answer)
  }

  /** Whether what is stored decodes under the present key to a password of the stored digest. */
  ghost predicate Readable(c: Cipher, w: World, name: string, password: string)
  {
    && Get(w.store, name) != "" && c.decode(SecretOf(w), Get(w.store, name)) == Some(password)
    && Get(w.store, SumName(name)) == c.sum(password, Key(w))
  }

  lemma {:induction false} ReadableLoads(c: Cipher, w: World, name: string, password: string, answer: Option<string>)
    requires Readable(c, w, name, password)
    ensures Loaded(c, w, name, answer) == Outcome(w, 0, Some(password))
  {
  }

  /**
   * A password that is not empty comes back, without a dialog, whatever was stored before and whether the
   * key was there, was typed into the dialog or was refused.
   */
  lemma {:induction false} SaveThenLoad(c: Cipher, w: World, name: string, password: string, typed: Option<string>,
                                        later: Option<string>)
    requires Sound(c) && password != ""
    ensures var s := Saved(c, w, name, password, true, typed);
            Loaded(c, s, name, later) == Outcome(s, 0, Some(password))
  {
    var s := Saved(c, w, name, password, true, typed);
    assert |SumName(name)| == |name| + 4;
    var a := if MayAsk(w) then Asked(w, typed) else w;
    assert SecretOf(s) == SecretOf(a) && Key(s) == Key(a);
    ReadableLoads(c, s, name, password, later);
  }

  /** What is stored happens to decode under the present key to a text of the stored digest. */
  ghost predicate Matches(c: Cipher, w: World, name: string)
  {
    var p := c.decode(SecretOf(w), Get(w.store, name));
    p.Some? && c.sum(p.value, Key(w)) == Get(w.store, SumName(name))
  }

  lemma {:induction false} SavedEntries(c: Cipher, w: World, name: string, password: string, typed: Option<string>,
                                        s: World)
    requires Sound(c) && password != "" && s == Saved(c, w, name, password, true, typed)
    ensures Get(s.store, name) == c.encode(SecretOf(s), password) != ""
    ensures Get(s.store, SumName(name)) == c.sum(password, Key(s))
  {
    assert |SumName(name)| == |name| + 4;
    var a := if MayAsk(w) then Asked(w, typed) else w;
    assert SecretOf(s) == SecretOf(a) && Key(s) == Key(a);
  }

  /**
   * In a later session, which has the store and not the key: loading opens one dialog, and typing the key
   * into it gives the password back, with the key kept for the session.  There is no dialog only if the
   * stored text happens to match under the secret used without a key, and then what it decodes to is returned.
   */
  lemma {:induction false} LaterSession(c: Cipher, w: World, v: World, name: string, password: string,
                                        typed: Option<string>)
    requires Sound(c) && password != ""
    requires var s := Saved(c, w, name, password, true, typed); Key(s) != "" && v.store == s.store && MayAsk(v)
    ensures var key := Key(Saved(c, w, name, password, true, typed));
            var t := Loaded(c, v, name, Some(key));
            if Matches(c, v, name) then t == Outcome(v, 0, c.decode(SecretOf(v), Get(v.store, name)))
            else t == Outcome(Asked(v, Some(key)), 0, Some(password))
                 && t.world.dialogs == v.dialogs + 1 && Key(t.world) == key && t.world.store == v.store
  {
    var s := Saved(c, w, name, password, true, typed);
    SavedEntries(c, w, name, password, typed, s);
    if !Matches(c, v, name) {
      var u := Asked(v, Some(Key(s)));
      ReadableLoads(c, u, name, password, Some(Key(s)));
    }
  }

  /** A dialog that is dismissed or left empty, and a key that does not match, cost one dialog and give nothing. */
  lemma {:induction false} WrongKeyTyped(c: Cipher, v: World, name: string, answer: Option<string>)
    requires MayAsk(v) && Get(v.store, name) != "" && !Matches(c, v, name)
    requires answer.Some? && answer.value != "" ==> !Matches(c, Asked(v, answer), name)
    ensures Loaded(c, v, name, answer).ret == -1 && Loaded(c, v, name, answer).world.dialogs == v.dialogs + 1
  {
    if answer.Some? && answer.value != "" {
      assert !MayAsk(Asked(v, answer));
    }
  }

  /** Once something was saved the user may not be asked any more. */
  lemma {:induction false} SaveAsksFirst(c: Cipher, w: World, name: string, password: string, typed: Option<string>)
    requires w.plugin.Some? ==> 0 <= w.plugin.value.count
    ensures !MayAsk(Saved(c, w, name, password, true, typed))
  {
  }

  /** Saving an empty password writes nothing, so the one saved before it is what comes back. */
  lemma {:induction false} EmptyPasswordKeepsOld(c: Cipher, w: World, name: string, older: string,
                                                 typed: Option<string>, typed2: Option<string>, later: Option<string>)
    requires Sound(c) && older != "" && (w.plugin.Some? ==> 0 <= w.plugin.value.count)
    ensures var s := Saved(c, w, name, older, true, typed);
            var t := Saved(c, s, name, "", true, typed2);
            t == s && Loaded(c, t, name, later) == Outcome(t, 0, Some(older))
  {
    SaveAsksFirst(c, w, name, older, typed);
    SaveThenLoad(c, w, name, older, typed, later);
  }

  /** A removed password is not there any more: the caller's stays as it is. */
  lemma {:induction false} RemoveThenLoad(c: Cipher, w: World, name: string, password: string,
                                          typed: Option<string>, later: Option<string>)
    ensures var s := Saved(c, w, name, password, false, typed);
            Loaded(c, s, name, later) == Outcome(s, 0, None)
  {
  }

  // ----- how often the user is asked -----

  datatype Operation =
    | Save(name: string, password: string, save: bool, answer: Option<string>)
    | Load(name: string, answer: Option<string>)

  function Done(c: Cipher, w: World, op: Operation): World
  {
    match op
    case Save(name, password, save, answer) => Saved(c, w, name, password, save, answer)
    case Load(name, answer) => Loaded(c, w, name, answer).world
  }

  function DoneAll(c: Cipher, w: World, ops: seq<Operation>): World
    decreases |ops|
  {
    if ops == [] then w else DoneAll(c, Done(c, w, ops[0]), ops[1..])
  }

  /** Every dialog is counted, and none is opened once one has been. */
  ghost predicate Counted(w: World, v: World)
  {
    && v.plugin.Some? == w.plugin.Some?
    && (w.plugin.None? ==> v.dialogs == w.dialogs)
    && (w.plugin.Some? ==>
          && v.plugin.value.prompt == w.plugin.value.prompt
          && v.dialogs - w.dialogs == v.plugin.value.count - w.plugin.value.count
          && w.plugin.value.count <= v.plugin.value.count
          && (w.plugin.value.count < v.plugin.value.count ==>
                v.plugin.value.count <= 1 && w.plugin.value.prompt.First?))
  }

  lemma {:induction false} LoadCounts(c: Cipher, w: World, name: string, answer: Option<string>)
    ensures Counted(w, Loaded(c, w, name, answer).world)
  {
    if MayAsk(w) && answer.Some? && answer.value != "" {
      assert !MayAsk(Asked(w, answer));
    }
  }

  lemma {:induction false} AllCounts(c: Cipher, w: World, ops: seq<Operation>)
    ensures Counted(w, DoneAll(c, w, ops))
    decreases |ops|
  {
    if ops != [] {
      var v := Done(c, w, ops[0]);
      if ops[0].Load? {
        LoadCounts(c, w, ops[0].name, ops[0].answer);
      }
      AllCounts(c, v, ops[1..]);
    }
  }

  /** However many passwords are loaded and saved, the user is asked at most once. */
  lemma {:induction false} AskedAtMostOnce(c: Cipher, w: World, ops: seq<Operation>)
    requires w.plugin.Some? ==> 0 <= w.plugin.value.count
    ensures DoneAll(c, w, ops).dialogs <= w.dialogs + 1
    ensures (w.plugin.None? || w.plugin.value.prompt.No? || w.plugin.value.count >= 1) ==>
              DoneAll(c, w, ops).dialogs == w.dialogs
  {
    AllCounts(c, w, ops);
  }

  // ----- what is stored, and under which key -----

  /** The session has the key k, which is not empty. */
  predicate HasKey(w: World, k: string) { k != "" && w.plugin.Some? && w.plugin.value.key == k }

  /** The session has no key, and the global parameters hold the random password r. */
  predicate HasRandom(w: World, r: string)
  {
    r != "" && w.plugin.Some? && w.plugin.value.key == "" && w.plugin.value.random == r
  }

  predicate HasNeither(w: World)
  {
    w.plugin.Some? ==> w.plugin.value.key == "" && w.plugin.value.random == ""
  }

  /** The user is asked: the plugin wants one prompt, there was none yet, and there is no key. */
  predicate Asks(w: World)
  {
    w.plugin.Some? && w.plugin.value.key == "" && w.plugin.value.prompt == First && w.plugin.value.count < 1
  }

  /** `s` is `w` after one dialog, in which the key became k. */
  predicate Prompted(w: World, s: World, k: string)
  {
    && w.plugin.Some? && s.plugin.Some? && s.dialogs == w.dialogs + 1
    && s.plugin.value.count == w.plugin.value.count + 1 && s.plugin.value.key == k
    && s.plugin.value.prompt == w.plugin.value.prompt && s.plugin.value.random == w.plugin.value.random
  }

  /**
   * Saving asks for the key if it is missing and may be asked for, and takes what is typed; then the password is
   * encoded with the key, or with the random password if there is no key, or else with the default of the
   * cipher, and its digest is that of the password and the key.  Everything else in the settings stays.
   */
  lemma {:induction false} SavedValues(c: Cipher, w: World, name: string, password: string, typed: Option<string>,
                                       s: World)
    requires s == Saved(c, w, name, password, true, typed)
    ensures if Asks(w) then Prompted(w, s, if typed.Some? then typed.value else "")
            else s.plugin == w.plugin && s.dialogs == w.dialogs
    ensures forall n :: n != name && n != name + "_sum" ==>
                          (n in s.store <==> n in w.store) && (n in w.store ==> s.store[n] == w.store[n])
    ensures password == "" ==> s.store == w.store
    ensures password != "" ==> name in s.store && name + "_sum" in s.store
    ensures forall k :: password != "" && HasKey(s, k) ==>
                          s.store[name] == c.encode(Some(k), password) && s.store[name + "_sum"] == c.sum(password, k)
    ensures forall r :: password != "" && HasRandom(s, r) ==>
                          s.store[name] == c.encode(Some(r), password) && s.store[name + "_sum"] == c.sum(password, "")
    ensures password != "" && HasNeither(s) ==>
              s.store[name] == c.encode(None, password) && s.store[name + "_sum"] == c.sum(password, "")
  {
    assert |SumName(name)| == |name| + 4;
  }

  /** Loading with a key in the session decodes with that key, never asks, and succeeds exactly if the digest agrees. */
  lemma {:induction false} LoadedWithKey(c: Cipher, w: World, name: string, answer: Option<string>, k: string,
                                         t: Outcome)
    requires HasKey(w, k) && t == Loaded(c, w, name, answer) && name in w.store && w.store[name] != ""
    ensures t.world == w && t.password == c.decode(Some(k), w.store[name])
    ensures t.ret == if t.password.Some? && c.sum(t.password.value, k) == Get(w.store, name + "_sum") then 0 else -1
  {
    assert SumName(name) == name + "_sum";
  }

  /**
   * Loading without a key decodes with the random password or the default; only if that gives no text of the stored
   * digest is the user asked, if that is still allowed, and a key that is typed then decodes in its place.
   */
  lemma {:induction false} LoadedWithoutKey(c: Cipher, w: World, name: string, answer: Option<string>, r: string,
                                            t: Outcome)
    requires HasRandom(w, r) || (HasNeither(w) && r == "")
    requires t == Loaded(c, w, name, answer) && name in w.store && w.store[name] != ""
    ensures var p := c.decode(if r == "" then None else Some(r), w.store[name]);
            var sum := Get(w.store, name + "_sum");
            if p.Some? && c.sum(p.value, "") == sum then t == Outcome(w, 0, p)
            else if !Asks(w) then t == Outcome(w, -1, p)
            else
              && t.world.store == w.store
              && if answer.None? || answer.value == "" then Prompted(w, t.world, "") && t.ret == -1 && t.password == p
                 else
                   && Prompted(w, t.world, answer.value) && t.password == c.decode(Some(answer.value), w.store[name])
                   && t.ret == if t.password.Some? && c.sum(t.password.value, answer.value) == sum then 0 else -1
  {
    assert SumName(name) == name + "_sum";
    if Asks(w) && answer.Some? && answer.value != "" {
      LoadedWithKey(c, Asked(w, answer), name, answer, answer.value, Loaded(c, Asked(w, answer), name, answer));
    }
  }

  /** What is encoded with one secret gives nothing under another. */
  ghost predicate Exclusive(c: Cipher)
  {
    forall s, t, p :: s != t && p != "" ==> c.decode(t, c.encode(s, p)) == None
  }

  /** The store holds a password that was saved under the key k, and the random password of the session is not k. */
  ghost predicate Locked(c: Cipher, v: World, name: string, password: string, k: string)
  {
    && name in v.store && v.store[name] == c.encode(Some(k), password)
    && Get(v.store, name + "_sum") == c.sum(password, k)
    && (v.plugin.Some? ==> v.plugin.value.random != k)
  }

  /**
   * A password saved under a key is loaded by a session with these settings exactly if the session has that key, or
   * may ask for one and it is typed.  Otherwise loading fails and gives nothing.
   */
  lemma {:induction false} LoadsIffKey(c: Cipher, v: World, name: string, password: string, k: string,
                                       answer: Option<string>, t: Outcome)
    requires Sound(c) && Exclusive(c) && password != "" && k != "" && Locked(c, v, name, password, k)
    requires t == Loaded(c, v, name, answer)
    ensures if HasKey(v, k) || (Asks(v) && answer == Some(k)) then t.ret == 0 && t.password == Some(password)
            else t.ret == -1 && t.password == None
  {
    if v.plugin.Some? && v.plugin.value.key != "" {
      LoadedWithKey(c, v, name, answer, v.plugin.value.key, t);
    } else {
      LoadedWithoutKey(c, v, name, answer, if v.plugin.Some? then v.plugin.value.random else "", t);
    }
  }

  /** The operation does not type the key k, and does not save or remove the password of this name. */
  predicate Unaware(op: Operation, name: string, k: string)
  {
    && op.answer != Some(k)
    && (op.Save? ==> {op.name, op.name + "_sum"} !! {name, name + "_sum"})
  }

  lemma {:induction false} UnawareStep(c: Cipher, v: World, op: Operation, name: string, password: string, k: string,
                                       u: World)
    requires k != "" && Locked(c, v, name, password, k) && !HasKey(v, k) && Unaware(op, name, k)
    requires u == Done(c, v, op)
    ensures Locked(c, u, name, password, k) && !HasKey(u, k)
  {
    if op.Save? {
      if op.save {
        SavedValues(c, v, op.name, op.password, op.answer, u);
      }
    } else if op.name in v.store && v.store[op.name] != "" {
      var t := Loaded(c, v, op.name, op.answer);
      if v.plugin.Some? && v.plugin.value.key != "" {
        LoadedWithKey(c, v, op.name, op.answer, v.plugin.value.key, t);
      } else {
        LoadedWithoutKey(c, v, op.name, op.answer, if v.plugin.Some? then v.plugin.value.random else "", t);
      }
    }
  }

  /**
   * A password saved under a key stays locked: whatever a session without that key saves and loads, as long as the
   * key is not typed and the password is not saved over or removed, loading it gives nothing.
   */
  lemma {:induction false} NeverWithoutKey(c: Cipher, v: World, ops: seq<Operation>, name: string, password: string,
                                           k: string, answer: Option<string>)
    requires Sound(c) && Exclusive(c) && password != "" && k != ""
    requires Locked(c, v, name, password, k) && !HasKey(v, k) && answer != Some(k)
    requires forall i :: 0 <= i < |ops| ==> Unaware(ops[i], name, k)
    ensures var t := Loaded(c, DoneAll(c, v, ops), name, answer); t.ret == -1 && t.password == None
    decreases |ops|
  {
    if ops == [] {
      LoadsIffKey(c, v, name, password, k, answer, Loaded(c, v, name, answer));
    } else {
      var u := Done(c, v, ops[0]);
      UnawareStep(c, v, ops[0], name, password, k, u);
      NeverWithoutKey(c, u, ops[1..], name, password, k, answer);
    }
  }

  /** Saving with a key in the session, or typed into the dialog, locks the password under that key. */
  lemma {:induction false} SavedIsLocked(c: Cipher, w: World, v: World, name: string, password: string, k: string,
                                         typed: Option<string>, s: World)
    requires password != "" && s == Saved(c, w, name, password, true, typed) && k != "" && v.store == s.store
    requires HasKey(w, k) || (Asks(w) && typed == Some(k))
    requires v.plugin.Some? ==> v.plugin.value.random != k
    ensures HasKey(s, k) && Locked(c, v, name, password, k)
  {
    SavedValues(c, w, name, password, typed, s);
  }

  // ----- the operations -----

  class ParameterOperate {
    var m_pParameterPlugin: Option<Plugin>
    var settings: map<string, string>
    ghost var dialogs: nat
    const cipher: Cipher

    ghost function Value(): World
      reads this
    {
      World(m_pParameterPlugin, settings, dialogs)
    }

    constructor (cipher: Cipher, plugin: Option<Plugin>, settings: map<string, string>)
      ensures this.cipher == cipher && Value() == World(plugin, settings, 0)
    {
      this.cipher, m_pParameterPlugin, this.settings, dialogs := cipher, plugin, settings, 0;
    }

    /** Lines 126-133 and 165-171: the count goes up before the dialog opens. */
    method Ask(answer: Option<string>)
      requires m_pParameterPlugin.Some?
      modifies this`m_pParameterPlugin, this`dialogs
      ensures Value() == Asked(old(Value()), answer)
    {
      var p := m_pParameterPlugin.value;
      p := p.(count := p.count + 1);
      dialogs := dialogs + 1;
      if answer.Some? {
        p := p.(key := answer.value);
      }
      m_pParameterPlugin := Some(p);
    }

    method CanAsk() returns (b: bool)
      ensures b == MayAsk(Value())
    {
      b := m_pParameterPlugin.Some? && m_pParameterPlugin.value.key == ""
        && m_pParameterPlugin.value.prompt == First && m_pParameterPlugin.value.count < 1;
    }

    method SecretNow() returns (secret: Secret, key: string)
      ensures secret == SecretOf(Value()) && key == Key(Value())
    {
      key := if m_pParameterPlugin.Some? then m_pParameterPlugin.value.key else "";
      secret := None;
      if key != "" {
        secret := Some(key);
      } else if m_pParameterPlugin.Some? && m_pParameterPlugin.value.random != "" {
        secret := Some(m_pParameterPlugin.value.random);
      }
    }

    method SavePassword(name: string, password: string, save: bool, answer: Option<string>)
      modifies this
      ensures Value() == Saved(cipher, old(Value()), name, password, save, answer)
      ensures save && password != "" ==> name in settings
      ensures forall k :: save && password != "" && HasKey(Value(), k) ==>
                            settings[name] == cipher.encode(Some(k), password)
      ensures forall r :: save && password != "" && HasRandom(Value(), r) ==>
                            settings[name] == cipher.encode(Some(r), password)
      ensures save && password != "" && HasNeither(Value()) ==> settings[name] == cipher.encode(None, password)
      ensures !save ==> name !in settings && name + "_sum" !in settings
    {
      if save {
        SavedValues(cipher, Value(), name, password, answer, Saved(cipher, Value(), name, password, true, answer));
      }
      if !save {
        settings := settings - {name, name + "_sum"};
        return;
      }
      var ask := CanAsk();
      if ask {
        Ask(answer);
      }
      if password == "" {
        return;
      }
      var secret, key := SecretNow();
      settings := settings[name := cipher.encode(secret, password)];
      settings := settings[name + "_sum" := cipher.sum(password, key)];
    }

    method LoadPassword(name: string, answer: Option<string>) returns (ret: int, password: Option<string>)
      modifies this
      ensures Outcome(Value(), ret, password) == Loaded(cipher, old(Value()), name, answer)
      ensures forall k :: HasKey(old(Value()), k) && name in settings && settings[name] != "" ==>
                            password == cipher.decode(Some(k), settings[name])
      decreases Key(Value()) == ""
    {
      var stored := if name in settings then settings[name] else "";
      if stored == "" {
        return 0, None;
      }
      var secret, key := SecretNow();
      password := cipher.decode(secret, stored);
      if password.Some? {
        var sum := if name + "_sum" in settings then settings[name + "_sum"] else "";
        if cipher.sum(password.value, key) == sum {
          return 0, password;
        }
      }
      var ask := CanAsk();
      if !ask {
        return -1, password;
      }
      if answer == None || answer.value == "" {
        Ask(None);
        return -1, password;
      }
      Ask(answer);
      ret, password := LoadPassword(name, answer);
    }
  }
}

/** The preference store of the overlay (the `AguiaAPI` object): every
    preference lives in localStorage under the key `aguia_<name>` as JSON
    text; saves always write locally first and only then may try the
    server, and loads overlay the server's values on the local ones. */
module Preferences {
  import opened Js

  /** localStorage, restricted to what the overlay reads and writes. */
  type Store = map<string, Item>

  /** A preferences object, as its ordered list of own properties. */
  type Entries = seq<(string, Value)>

  const Prefix := "aguia_"

  function Key(pref: string): (k: string)
    ensures |k| == |Prefix| + |pref| && k[|Prefix|..] == pref
  {
    Prefix + pref
  }

  lemma KeyInjective(a: string, b: string)
    requires Key(a) == Key(b)
    ensures a == b
  {
    assert a == Key(a)[|Prefix|..];
  }

  /** `localStorage.setItem('aguia_' + pref, JSON.stringify(value))`. */
  function Write(store: Store, pref: string, value: Value): Store
  {
    store[Key(pref) := Json(value)]
  }

  /** `getFromLocalStorage(key, default)`: the stored value, or the default
      when the key is absent or its text is not JSON. */
  function GetFromLocalStorage(store: Store, pref: string, default: Value): (r: Value)
    ensures Key(pref) !in store ==> r == default
    ensures Key(pref) in store && store[Key(pref)].Garbage? ==> r == default
    ensures Key(pref) in store && store[Key(pref)].Json? ==> r == store[Key(pref)].value
  {
    if Key(pref) !in store then default
    else match store[Key(pref)]
      case Json(v) => v
      case Garbage(_) => default
  }

  /** What a save writes is what a later read returns. */
  lemma WriteThenGet(store: Store, pref: string, value: Value, default: Value)
    ensures GetFromLocalStorage(Write(store, pref, value), pref, default) == value
  {
  }

  /** A save leaves every other preference as it was. */
  lemma WriteKeepsOthers(store: Store, pref: string, value: Value, other: string, default: Value)
    requires other != pref
    ensures GetFromLocalStorage(Write(store, pref, value), other, default)
         == GetFromLocalStorage(store, other, default)
  {
    if Key(other) == Key(pref) {
      KeyInjective(other, pref);
    }
  }

  // ---------------------------------------------------------------------
  // Preference objects as ordered entries

  predicate DistinctKeys(es: Entries)
  {
    forall i, j | 0 <= i < j < |es| :: es[i].0 != es[j].0
  }

  predicate HasKey<K(==)>(es: seq<(K, Value)>, k: K)
  {
    exists i | 0 <= i < |es| :: es[i].0 == k
  }

  /** `obj[k]`, with `None` for a missing property. */
  function Lookup(es: Entries, k: string): (r: Option<Value>)
    ensures r.Some? <==> HasKey(es, k)
    ensures r.Some? ==> exists i | 0 <= i < |es| :: es[i] == (k, r.value)
  {
    if es == [] then None
    else if es[0].0 == k then
      assert es[0] == (k, es[0].1);
      Some(es[0].1)
    else
      var r := Lookup(es[1..], k);
      assert HasKey(es, k) ==> HasKey(es[1..], k) by {
        if HasKey(es, k) {
          var i :| 0 <= i < |es| && es[i].0 == k;
          assert es[1..][i - 1].0 == k;
        }
      }
      if r.Some? then
        var i :| 0 <= i < |es[1..]| && es[1..][i] == (k, r.value);
        assert es[i + 1] == (k, r.value);
        r
      else r
  }

  lemma LookupAt(es: Entries, i: int)
    requires DistinctKeys(es) && 0 <= i < |es|
    ensures Lookup(es, es[i].0) == Some(es[i].1)
  {
    var r := Lookup(es, es[i].0);
    assert HasKey(es, es[i].0);
    var j :| 0 <= j < |es| && es[j] == (es[i].0, r.value);
    assert j == i;
  }

  /** The entries of `server` whose key `local` does not have, in order. */
  function NewEntries(server: Entries, local: Entries): (r: Entries)
    ensures forall e | e in r :: e in server && !HasKey(local, e.0)
    ensures forall e | e in server && !HasKey(local, e.0) :: e in r
  {
    if server == [] then []
    else
      var rest := NewEntries(server[1..], local);
      if HasKey(local, server[0].0) then rest else [server[0]] + rest
  }

  /** `{ ...local, ...server }`: the local properties in their order with
      the server's value where it has one, then the server's other
      properties in theirs. */
  function Merge(local: Entries, server: Entries): (r: Entries)
    ensures |r| >= |local| && forall i | 0 <= i < |local| :: r[i].0 == local[i].0
  {
    var overlaid := seq(|local|, i requires 0 <= i < |local| =>
      (local[i].0, match Lookup(server, local[i].0) case Some(v) => v case None => local[i].1));
    overlaid + NewEntries(server, local)
  }

  lemma NewEntriesDistinct(server: Entries, local: Entries)
    requires DistinctKeys(server)
    ensures DistinctKeys(NewEntries(server, local))
  {
    if server != [] {
      NewEntriesDistinct(server[1..], local);
      var rest := NewEntries(server[1..], local);
      if !HasKey(local, server[0].0) {
        forall e | e in rest
          ensures e.0 != server[0].0
        {
          var j :| 0 <= j < |server[1..]| && server[1..][j] == e;
        }
        var r := [server[0]] + rest;
        forall i, j | 0 <= i < j < |r|
          ensures r[i].0 != r[j].0
        {
          if i == 0 {
            assert r[j] in rest;
          } else {
            assert r[i] == rest[i - 1] && r[j] == rest[j - 1];
          }
        }
      }
    }
  }

  /** The merged object names no property twice. */
  lemma MergeDistinct(local: Entries, server: Entries)
    requires DistinctKeys(local) && DistinctKeys(server)
    ensures DistinctKeys(Merge(local, server))
  {
    var m := Merge(local, server);
    var added := NewEntries(server, local);
    NewEntriesDistinct(server, local);
    forall i, j | 0 <= i < j < |m|
      ensures m[i].0 != m[j].0
    {
      if j < |local| {
      } else if i >= |local| {
        assert m[i] == added[i - |local|] && m[j] == added[j - |local|];
      } else {
        assert m[j] in added;
        assert m[i].0 == local[i].0;
      }
    }
  }

  /** Every property of the merged object comes from one of the two sides. */
  lemma MergeKeys(local: Entries, server: Entries, k: string)
    ensures HasKey(Merge(local, server), k) ==> HasKey(local, k) || HasKey(server, k)
  {
    var m := Merge(local, server);
    if HasKey(m, k) {
      var i :| 0 <= i < |m| && m[i].0 == k;
      if i >= |local| {
        assert m[i] in NewEntries(server, local);
      } else {
        assert local[i].0 == k;
      }
    }
  }

  /** The merged object has distinct keys, and on every key the server's
      value wins, while keys only the local side has keep the local value. */
  lemma MergeServerWins(local: Entries, server: Entries, k: string)
    requires DistinctKeys(local) && DistinctKeys(server)
    ensures DistinctKeys(Merge(local, server))
    ensures Lookup(Merge(local, server), k)
         == (if Lookup(server, k).Some? then Lookup(server, k) else Lookup(local, k))
  {
    var m := Merge(local, server);
    MergeDistinct(local, server);
    if HasKey(local, k) {
      var i :| 0 <= i < |local| && local[i].0 == k;
      LookupAt(m, i);
      LookupAt(local, i);
    } else if Lookup(server, k).Some? {
      var v := Lookup(server, k).value;
      var added := NewEntries(server, local);
      assert (k, v) in added;
      var i :| 0 <= i < |added| && added[i] == (k, v);
      assert m[|local| + i] == (k, v);
      LookupAt(m, |local| + i);
    } else {
      MergeKeys(local, server, k);
    }
  }

  /** Writing every entry of an object to the store, in order. */
  function WriteAll(store: Store, es: Entries): Store
    decreases |es|
  {
    if es == [] then store else WriteAll(Write(store, es[0].0, es[0].1), es[1..])
  }

  lemma {:induction false} WriteAllStores(store: Store, es: Entries, i: int)
    requires DistinctKeys(es) && 0 <= i < |es|
    ensures Key(es[i].0) in WriteAll(store, es)
    ensures WriteAll(store, es)[Key(es[i].0)] == Json(es[i].1)
    decreases |es|
  {
    if i == 0 {
      WriteAllKeeps(Write(store, es[0].0, es[0].1), es[1..], Key(es[0].0));
    } else {
      WriteAllStores(Write(store, es[0].0, es[0].1), es[1..], i - 1);
    }
  }

  /** Writing an object's entries leaves every key it does not name alone. */
  lemma {:induction false} WriteAllKeeps(store: Store, es: Entries, x: string)
    requires forall i | 0 <= i < |es| :: Key(es[i].0) != x
    ensures x in WriteAll(store, es) <==> x in store
    ensures x in store ==> WriteAll(store, es)[x] == store[x]
    decreases |es|
  {
    if es != [] {
      WriteAllKeeps(Write(store, es[0].0, es[0].1), es[1..], x);
    }
  }

  /** The value of the last entry for `pref` in a sequence of saves. */
  function LastWrite<K(==)>(es: seq<(K, Value)>, pref: K): (r: Option<Value>)
    ensures r.Some? <==> HasKey(es, pref)
    ensures r.Some? ==> (pref, r.value) in es
  {
    if es == [] then None
    else if es[|es| - 1].0 == pref then Some(es[|es| - 1].1)
    else
      var r := LastWrite(es[..|es| - 1], pref);
      assert HasKey(es, pref) ==> HasKey(es[..|es| - 1], pref) by {
        if HasKey(es, pref) {
          var i :| 0 <= i < |es| && es[i].0 == pref;
          assert es[..|es| - 1][i].0 == pref;
        }
      }
      assert r.Some? ==> (pref, r.value) in es by {
        if r.Some? {
          var i :| 0 <= i < |es| - 1 && es[..|es| - 1][i] == (pref, r.value);
          assert es[i] == (pref, r.value);
        }
      }
      r
  }

  lemma LastWriteAppend<K>(a: seq<(K, Value)>, b: seq<(K, Value)>, pref: K)
    ensures LastWrite(a + b, pref) == if LastWrite(b, pref).Some? then LastWrite(b, pref) else LastWrite(a, pref)
    decreases |b|
  {
    if b == [] {
      assert a + b == a;
    } else {
      assert (a + b)[..|a + b| - 1] == a + b[..|b| - 1];
      LastWriteAppend(a, b[..|b| - 1], pref);
    }
  }

  lemma {:induction false} WriteAllAppend(store: Store, a: Entries, b: Entries)
    ensures WriteAll(store, a + b) == WriteAll(WriteAll(store, a), b)
    decreases |a|
  {
    if a == [] {
      assert a + b == b;
    } else {
      assert (a + b)[0] == a[0] && (a + b)[1..] == a[1..] + b;
      WriteAllAppend(Write(store, a[0].0, a[0].1), a[1..], b);
    }
  }

  /** After a sequence of saves, a preference reads as the last value saved
      for it, or as before when none was. */
  lemma {:induction false} StoredAfter(store: Store, es: Entries, pref: string, default: Value)
    ensures GetFromLocalStorage(WriteAll(store, es), pref, default)
         == match LastWrite(es, pref)
            case Some(v) => v
            case None => GetFromLocalStorage(store, pref, default)
    decreases |es|
  {
    if es != [] {
      var init, last := es[..|es| - 1], es[|es| - 1];
      assert es == init + [last];
      WriteAllAppend(store, init, [last]);
      StoredAfter(store, init, pref, default);
      if last.0 != pref {
        WriteKeepsOthers(WriteAll(store, init), last.0, last.1, pref, default);
      }
    }
  }

  /** `localStorage.getItem('aguia_' + pref)`: the raw item, or null. */
  function GetItem(store: Store, pref: string): Option<Item>
  {
    if Key(pref) in store then Some(store[Key(pref)]) else None
  }

  /** After a sequence of saves, the raw item of a preference is the JSON
      text of the last value saved for it, or what it was before. */
  lemma {:induction false} GetItemAfter(store: Store, es: Entries, pref: string)
    ensures GetItem(WriteAll(store, es), pref)
         == match LastWrite(es, pref)
            case Some(v) => Some(Json(v))
            case None => GetItem(store, pref)
    decreases |es|
  {
    if es != [] {
      var init, last := es[..|es| - 1], es[|es| - 1];
      assert es == init + [last];
      WriteAllAppend(store, init, [last]);
      GetItemAfter(store, init, pref);
      if last.0 != pref && Key(last.0) == Key(pref) {
        KeyInjective(last.0, pref);
      }
    }
  }

  // ---------------------------------------------------------------------
  // loadFromLocalStorage

  /** The properties `loadFromLocalStorage` reads, in order, with defaults. */
  const PrefDefaults: Entries := [
    ("fontSize", Num(100)), ("highContrast", Bool(false)), ("colorIntensityMode", Num(0)),
    ("reduceAnimations", Bool(false)), ("highlightedLetters", Num(0)),
    ("readableFonts", Bool(false)), ("fontMode", Num(0)), ("lineSpacing", Num(0)),
    ("letterSpacing", Num(0)), ("textToSpeech", Bool(false)), ("readingHelper", Bool(false)),
    ("emphasizeLinks", Bool(false)), ("headerHighlight", Bool(false)),
    ("colorblind", Str("none")), ("readingMaskMode", Num(0)),
    ("horizontalMaskLevel", Num(0)), ("verticalMaskLevel", Num(0)),
    ("customCursor", Bool(false))]

  /** The legacy flag is honoured only when it is stored as JSON `true`. */
  predicate InvertedColors(store: Store)
  {
    GetFromLocalStorage(store, "invertedColors", Bool(false)) == Bool(true)
  }

  /** `loadFromLocalStorage()`: every known preference read with its default,
      then `colorIntensityMode` forced to 3 by the legacy `invertedColors`. */
  function LoadFromLocalStorage(store: Store): (r: Entries)
    ensures |r| == |PrefDefaults|
    ensures forall i | 0 <= i < |r| :: r[i].0 == PrefDefaults[i].0
    ensures forall i | 0 <= i < |r| && PrefDefaults[i].0 != "colorIntensityMode" ::
      r[i].1 == GetFromLocalStorage(store, PrefDefaults[i].0, PrefDefaults[i].1)
    ensures r[2].1 == (if InvertedColors(store) then Num(3)
                       else GetFromLocalStorage(store, "colorIntensityMode", Num(0)))
  {
    var inverted := InvertedColors(store);
    seq(|PrefDefaults|, i requires 0 <= i < |PrefDefaults| =>
      var (k, d) := PrefDefaults[i];
      (k, if k == "colorIntensityMode" && inverted then Num(3) else GetFromLocalStorage(store, k, d)))
  }

  /** With nothing stored, loading yields exactly the defaults. */
  lemma LoadFromEmptyStore()
    ensures LoadFromLocalStorage(map[]) == PrefDefaults
  {
    var r := LoadFromLocalStorage(map[]);
    assert !InvertedColors(map[]);
    assert forall i | 0 <= i < |r| :: r[i] == PrefDefaults[i];
  }

  lemma PrefDefaultsDistinct()
    ensures DistinctKeys(PrefDefaults)
  {
    var a, b := PrefDefaults[..9], PrefDefaults[9..];
    assert PrefDefaults == a + b;
    FirstDefaultsDistinct();
    LastDefaultsDistinct();
    DefaultsHalvesApart();
  }

  lemma FirstDefaultsDistinct()
    ensures DistinctKeys(PrefDefaults[..9])
  {
  }

  lemma LastDefaultsDistinct()
    ensures DistinctKeys(PrefDefaults[9..])
  {
  }

  lemma DefaultsHalvesApart()
    ensures forall i, j | 0 <= i < 9 <= j < |PrefDefaults| :: PrefDefaults[i].0 != PrefDefaults[j].0
  {
  }

  /** What `loadFromLocalStorage` returns has distinct keys. */
  lemma LoadedDistinct(store: Store)
    ensures DistinctKeys(LoadFromLocalStorage(store))
  {
    PrefDefaultsDistinct();
  }

  // ---------------------------------------------------------------------
  // savePreference

  /** What the server's answer to a save request turned out to be. */
  datatype ServerReply =
    | JsonBody(success: Value, message: Value)  // a JSON object; absent fields are Null
    | NotJson                                    // a reply without a JSON content type
    | NetworkFailure(reason: string)             // fetch itself failed

  /** The object a save resolves with. A server object that reports success
      is passed through (`local` absent); the others are built locally. */
  datatype SaveResult = SaveResult(
    success: Value, local: bool, serverError: Option<Value>, error: Option<string>, skippedServer: bool)

  /** How the promise returned by `savePreference` settles: it rejects only
      when the local write itself throws. */
  datatype Settlement = Resolved(result: SaveResult) | Rejected(reason: string)

  const NotJsonMessage := "Resposta n\U{E3}o-JSON do servidor"

  /** `autoSync` starts as true unless something set it before. */
  function InitialAutoSync(preset: Option<Value>): Value
  {
    if preset.None? then Bool(true) else preset.value
  }

  /** A server request is made only when `autoSync` or `options.server === true`
      asks for one and the page has a server address. */
  predicate SyncAttempted(autoSync: Value, forceServer: bool, hasEndpoint: bool)
  {
    (Truthy(autoSync) || forceServer) && hasEndpoint
  }

  /** The object a save resolves with once the local write has succeeded. */
  function SaveOutcome(autoSync: Value, forceServer: bool, hasEndpoint: bool, reply: ServerReply): (r: SaveResult)
  {
    if !SyncAttempted(autoSync, forceServer, hasEndpoint) then
      SaveResult(Bool(true), true, None, None, true)
    else match reply
      case JsonBody(success, message) =>
        if Truthy(success) then SaveResult(success, false, None, None, false)
        else SaveResult(Bool(true), true, Some(message), None, false)
      case NotJson => SaveResult(Bool(true), true, None, Some(NotJsonMessage), false)
      case NetworkFailure(reason) => SaveResult(Bool(true), true, None, Some(reason), false)
  }

  /** A save whose local write succeeded always reports success, and it
      reports `skippedServer` exactly when no request was made. */
  lemma SaveAlwaysSucceeds(autoSync: Value, forceServer: bool, hasEndpoint: bool, reply: ServerReply)
    ensures Truthy(SaveOutcome(autoSync, forceServer, hasEndpoint, reply).success)
    ensures SaveOutcome(autoSync, forceServer, hasEndpoint, reply).skippedServer
        <==> !SyncAttempted(autoSync, forceServer, hasEndpoint)
    ensures !SyncAttempted(autoSync, forceServer, hasEndpoint) ==>
      SaveOutcome(autoSync, forceServer, hasEndpoint, reply).local
  {
  }

  /** The entry `saveAll` records for one preference. */
  function SaveAllEntry(autoSync: Value, hasEndpoint: bool, writeError: Option<string>, reply: ServerReply): SaveResult
  {
    match writeError
    case Some(e) => SaveResult(Bool(false), false, None, Some(if e != "" then e else "erro"), false)
    case None => SaveOutcome(autoSync, true, hasEndpoint, reply)
  }

  /** The store after saving each entry whose write did not throw. */
  function WriteSaved(store: Store, es: Entries, writeErrors: seq<Option<string>>): Store
    requires |writeErrors| == |es|
    decreases |es|
  {
    if es == [] then store
    else
      var next := if writeErrors[0].None? then Write(store, es[0].0, es[0].1) else store;
      WriteSaved(next, es[1..], writeErrors[1..])
  }

  /** Without write failures, `saveAll` leaves the same store as writing
      every entry. */
  lemma {:induction false} WriteSavedAll(store: Store, es: Entries, writeErrors: seq<Option<string>>)
    requires |writeErrors| == |es|
    requires forall i | 0 <= i < |es| :: writeErrors[i].None?
    ensures WriteSaved(store, es, writeErrors) == WriteAll(store, es)
    decreases |es|
  {
    if es != [] {
      WriteSavedAll(Write(store, es[0].0, es[0].1), es[1..], writeErrors[1..]);
    }
  }

  /** What the server's answer to a load request turned out to be. */
  datatype LoadReply =
    | LoadJson(success: Value, preferences: Option<Entries>)
    | LoadNotJson
    | LoadFailure

  predicate LoadAccepted(hasEndpoint: bool, reply: LoadReply)
  {
    hasEndpoint && reply.LoadJson? && Truthy(reply.success) && reply.preferences.Some?
  }

  /** How many keys of `n` the write-back writes when the `setItem` of key
      number `failAt` throws (none throws when `failAt` is `None` or past
      the end). */
  function Written(n: nat, failAt: Option<nat>): (w: nat)
    ensures w <= n
  {
    if failAt.Some? && failAt.value < n then failAt.value else n
  }

  /** What `loadPreferences()` resolves with, and the store it leaves. On an
      accepted reply the merged object is written back key by key; a
      throwing write ends in the promise's `catch`, which resolves with the
      local values and leaves the keys before it written. On any other reply
      the local values, with the store untouched. */
  function LoadOutcome(store: Store, hasEndpoint: bool, reply: LoadReply, failAt: Option<nat>): (Entries, Store)
  {
    var local := LoadFromLocalStorage(store);
    if !LoadAccepted(hasEndpoint, reply) then (local, store)
    else
      var merged := Merge(local, reply.preferences.value);
      var n := Written(|merged|, failAt);
      (if n == |merged| then merged else local, WriteAll(store, merged[..n]))
  }

  /** Without an accepted reply the load is the local one, and the store is
      untouched. */
  lemma LoadOutcomeLocal(store: Store, hasEndpoint: bool, reply: LoadReply, failAt: Option<nat>)
    requires !LoadAccepted(hasEndpoint, reply)
    ensures LoadOutcome(store, hasEndpoint, reply, failAt) == (LoadFromLocalStorage(store), store)
  {
  }

  /** On an accepted reply whose write-back goes through, the load resolves
      with the server's value on every key the server sends and the local
      value on the others, and the store then holds each of them. */
  lemma LoadServerWins(store: Store, hasEndpoint: bool, reply: LoadReply, failAt: Option<nat>,
                       k: string, default: Value)
    requires LoadAccepted(hasEndpoint, reply) && DistinctKeys(reply.preferences.value)
    requires var merged := Merge(LoadFromLocalStorage(store), reply.preferences.value);
      Written(|merged|, failAt) == |merged|
    ensures var r := LoadOutcome(store, hasEndpoint, reply, failAt);
      var server := reply.preferences.value;
      && Lookup(r.0, k) == (if Lookup(server, k).Some? then Lookup(server, k)
                            else Lookup(LoadFromLocalStorage(store), k))
      && (Lookup(r.0, k).Some? ==> GetFromLocalStorage(r.1, k, default) == Lookup(r.0, k).value)
  {
    var local := LoadFromLocalStorage(store);
    var merged := Merge(local, reply.preferences.value);
    LoadedDistinct(store);
    MergeServerWins(local, reply.preferences.value, k);
    assert merged[..|merged|] == merged;
    var v := Lookup(merged, k);
    if v.Some? {
      var i :| 0 <= i < |merged| && merged[i] == (k, v.value);
      LoadedThenRead(store, merged, i, default);
    }
  }

  /** When a write of the write-back throws, the load resolves with the local
      values, and only the merged keys before the throwing one were written. */
  lemma LoadWriteFails(store: Store, hasEndpoint: bool, reply: LoadReply, failAt: Option<nat>,
                       k: string, default: Value)
    requires LoadAccepted(hasEndpoint, reply) && DistinctKeys(reply.preferences.value)
    requires var merged := Merge(LoadFromLocalStorage(store), reply.preferences.value);
      Written(|merged|, failAt) < |merged|
    ensures var r := LoadOutcome(store, hasEndpoint, reply, failAt);
      var merged := Merge(LoadFromLocalStorage(store), reply.preferences.value);
      && r.0 == LoadFromLocalStorage(store)
      && GetFromLocalStorage(r.1, k, default)
         == if HasKey(merged[..failAt.value], k) then Lookup(merged, k).value
            else GetFromLocalStorage(store, k, default)
  {
    var local := LoadFromLocalStorage(store);
    var merged := Merge(local, reply.preferences.value);
    var done := merged[..failAt.value];
    LoadedDistinct(store);
    MergeDistinct(local, reply.preferences.value);
    StoredAfter(store, done, k, default);
    if HasKey(done, k) {
      var i :| 0 <= i < |done| && done[i].0 == k;
      LastWriteOfDistinct(done, i);
      LookupAt(merged, i);
    }
  }

  /** In entries with distinct keys, the last write of a key is its only one. */
  lemma LastWriteOfDistinct(es: Entries, i: int)
    requires DistinctKeys(es) && 0 <= i < |es|
    ensures LastWrite(es, es[i].0) == Some(es[i].1)
  {
    var r := LastWrite(es, es[i].0);
    var j :| 0 <= j < |es| && es[j] == (es[i].0, r.value);
    assert j == i;
  }

  /** The `AguiaAPI` object: localStorage plus the `autoSync` switch. */
  class PreferenceApi {
    var store: Store
    var autoSync: Value

    constructor (store0: Store, preset: Option<Value>)
      ensures store == store0 && autoSync == InitialAutoSync(preset)
    {
      store := store0;
      autoSync := InitialAutoSync(preset);
    }

    /** `savePreference(pref, value, {server: forceServer})`: the local write
        comes first; a throwing write rejects the promise, every other path
        resolves. */
    method SavePreference(pref: string, value: Value, forceServer: bool, hasEndpoint: bool,
                          writeError: Option<string>, reply: ServerReply)
      returns (s: Settlement)
      modifies this
      ensures autoSync == old(autoSync)
      ensures writeError.None? ==> store == Write(old(store), pref, value)
      ensures writeError.Some? ==> store == old(store)
      ensures s == (if writeError.Some? then Rejected(writeError.value)
                    else Resolved(SaveOutcome(autoSync, forceServer, hasEndpoint, reply)))
    {
      if writeError.Some? {
        return Rejected(writeError.value);
      }
      store := Write(store, pref, value);
      s := Resolved(SaveOutcome(autoSync, forceServer, hasEndpoint, reply));
    }

    /** `loadPreferences()`: on an accepted reply, the merge of local and
        server values, written back key by key until a write throws at
        `failAt`; otherwise the local values, the store untouched. */
    method LoadPreferences(hasEndpoint: bool, reply: LoadReply, failAt: Option<nat>) returns (prefs: Entries)
      requires reply.LoadJson? && reply.preferences.Some? ==> DistinctKeys(reply.preferences.value)
      modifies this
      ensures autoSync == old(autoSync)
      ensures (prefs, store) == LoadOutcome(old(store), hasEndpoint, reply, failAt)
      ensures !LoadAccepted(hasEndpoint, reply) ==>
        prefs == LoadFromLocalStorage(old(store)) && store == old(store)
    {
      var local := LoadFromLocalStorage(store);
      if !LoadAccepted(hasEndpoint, reply) {
        return local;
      }
      var merged := Merge(local, reply.preferences.value);
      var ok := WriteBack(merged, failAt);
      prefs := if ok then merged else local;
    }

    /** The `Object.keys(merged).forEach(...)` loop writing a merged object
        back to localStorage; `ok` is false when the write of key `failAt`
        throws, which ends the loop. */
    method WriteBack(es: Entries, failAt: Option<nat>) returns (ok: bool)
      modifies this
      ensures autoSync == old(autoSync)
      ensures ok <==> Written(|es|, failAt) == |es|
      ensures store == WriteAll(old(store), es[..Written(|es|, failAt)])
    {
      var i := 0;
      while i < |es|
        invariant 0 <= i <= Written(|es|, failAt)
        invariant autoSync == old(autoSync)
        invariant store == WriteAll(old(store), es[..i])
      {
        if failAt == Some(i) {
          return false;
        }
        assert es[..i + 1] == es[..i] + [es[i]];
        WriteAllAppend(old(store), es[..i], [es[i]]);
        store := Write(store, es[i].0, es[i].1);
        i := i + 1;
      }
      return true;
    }

    /** `saveAll(preferences)`: each entry saved in turn with `server: true`;
        `allOk` holds exactly when every recorded result has a truthy
        `success`. */
    method SaveAll(preferences: Option<Entries>, hasEndpoint: bool,
                   writeErrors: seq<Option<string>>, replies: seq<ServerReply>)
      returns (results: seq<(string, SaveResult)>, allOk: bool)
      requires var es := if preferences.Some? then preferences.value else [];
        |writeErrors| == |es| && |replies| == |es|
      modifies this
      ensures autoSync == old(autoSync)
      ensures var es := if preferences.Some? then preferences.value else [];
        && |results| == |es|
        && (forall i | 0 <= i < |es| ::
              results[i] == (es[i].0, SaveAllEntry(autoSync, hasEndpoint, writeErrors[i], replies[i])))
        && store == WriteSaved(old(store), es, writeErrors)
      ensures allOk <==> forall i | 0 <= i < |results| :: Truthy(results[i].1.success)
    {
      var es := if preferences.Some? then preferences.value else [];
      if es == [] {
        return [], true;
      }
      results := [];
      var i := 0;
      while i < |es|
        invariant 0 <= i <= |es| && |results| == i
        invariant autoSync == old(autoSync)
        invariant forall j | 0 <= j < i ::
          results[j] == (es[j].0, SaveAllEntry(autoSync, hasEndpoint, writeErrors[j], replies[j]))
        invariant WriteSaved(old(store), es, writeErrors) == WriteSaved(store, es[i..], writeErrors[i..])
      {
        assert es[i..][1..] == es[i + 1..];
        assert writeErrors[i..][1..] == writeErrors[i + 1..];
        var s := SavePreference(es[i].0, es[i].1, true, hasEndpoint, writeErrors[i], replies[i]);
        var r := match s
          case Resolved(r) => r
          case Rejected(e) => SaveResult(Bool(false), false, None, Some(if e != "" then e else "erro"), false);
        results := results + [(es[i].0, r)];
        i := i + 1;
      }
      allOk := true;
      var j := 0;
      while j < |results|
        invariant 0 <= j <= |results|
        invariant allOk <==> forall k | 0 <= k < j :: Truthy(results[k].1.success)
      {
        allOk := allOk && Truthy(results[j].1.success);
        j := j + 1;
      }
    }

    /** `commitLocalToServer()`: `saveAll` of what is stored locally. */
    method CommitLocalToServer(hasEndpoint: bool, writeErrors: seq<Option<string>>, replies: seq<ServerReply>)
      returns (results: seq<(string, SaveResult)>, allOk: bool)
      requires |writeErrors| == |PrefDefaults| && |replies| == |PrefDefaults|
      modifies this
      ensures autoSync == old(autoSync)
      ensures |results| == |PrefDefaults|
      ensures forall i | 0 <= i < |results| :: results[i].0 == PrefDefaults[i].0
      ensures forall i | 0 <= i < |results| ::
        results[i].1 == SaveAllEntry(autoSync, hasEndpoint, writeErrors[i], replies[i])
      ensures store == WriteSaved(old(store), LoadFromLocalStorage(old(store)), writeErrors)
      ensures allOk <==> forall i | 0 <= i < |results| :: Truthy(results[i].1.success)
    {
      var prefs := LoadFromLocalStorage(store);
      results, allOk := SaveAll(Some(prefs), hasEndpoint, writeErrors, replies);
    }
  }

  /** `saveAll` reports `allOk` exactly when no local write threw: a save
      whose write went through always resolves with a truthy `success`. */
  lemma SaveAllOkIffNoWriteFailed(autoSync: Value, hasEndpoint: bool, es: Entries,
                                  writeErrors: seq<Option<string>>, replies: seq<ServerReply>)
    requires |writeErrors| == |es| && |replies| == |es|
    ensures (forall i | 0 <= i < |es| ::
               Truthy(SaveAllEntry(autoSync, hasEndpoint, writeErrors[i], replies[i]).success))
        <==> (forall i | 0 <= i < |es| :: writeErrors[i].None?)
  {
    forall i | 0 <= i < |es|
      ensures Truthy(SaveAllEntry(autoSync, hasEndpoint, writeErrors[i], replies[i]).success)
          <==> writeErrors[i].None?
    {
      SaveAlwaysSucceeds(autoSync, true, hasEndpoint, replies[i]);
    }
  }

  /** After an accepted load, every merged preference reads back as its
      merged value. */
  lemma LoadedThenRead(store: Store, merged: Entries, i: int, default: Value)
    requires DistinctKeys(merged) && 0 <= i < |merged|
    ensures GetFromLocalStorage(WriteAll(store, merged), merged[i].0, default) == merged[i].1
  {
    WriteAllStores(store, merged, i);
  }
}

/** Reading the accessibility menu aloud: the list of menu entries with
    duplicates removed (`gatherMenuDescriptions`), and the run counter that
    lets a newer reading, a cancel or the end of a list silence every
    callback of an older one (`speakLinesSequentially` and the read-menu
    button). The speech engine and its timers are not modelled: what the
    model keeps is which callback may still act. */
module MenuSpeech {
  import opened Js

  // ---------------------------------------------------------------------
  // De-duplication of the gathered entries

  /** One gathered entry: its text and the menu element it was read from,
      if any (elements are identified by number). */
  datatype MenuItem = MenuItem(text: string, el: Option<nat>)

  /** `String(it.text).trim()`, the text the page's pass compares. The pass
      and its properties below are stated for any text key `key`, so that
      they hold for this one in particular. */
  function TextKey(it: MenuItem): string
  {
    Trim(it.text)
  }

  /** Two entries that the de-duplication treats as the same: a shared
      nonempty key, or the same element. */
  predicate Clash(a: MenuItem, b: MenuItem, key: MenuItem -> string)
  {
    (key(a) != "" && key(a) == key(b)) || (a.el.Some? && a.el == b.el)
  }

  /** The `seenTexts` set after keeping `kept`. */
  function TextsOf(kept: seq<MenuItem>, key: MenuItem -> string): set<string>
  {
    set i | 0 <= i < |kept| && key(kept[i]) != "" :: key(kept[i])
  }

  /** The `seenEls` set after keeping `kept`. */
  function ElsOf(kept: seq<MenuItem>): set<nat>
  {
    set i | 0 <= i < |kept| && kept[i].el.Some? :: kept[i].el.value
  }

  /** The two early returns of the `forEach` body. */
  predicate Skipped(it: MenuItem, texts: set<string>, els: set<nat>, key: MenuItem -> string)
  {
    (key(it) != "" && key(it) in texts) || (it.el.Some? && it.el.value in els)
  }

  /** The entries the pass keeps, in their original order. */
  function Unique(items: seq<MenuItem>, key: MenuItem -> string): seq<MenuItem>
    decreases |items|
  {
    if items == [] then []
    else
      var u := Unique(items[..|items| - 1], key);
      var it := items[|items| - 1];
      if Skipped(it, TextsOf(u, key), ElsOf(u), key) then u else u + [it]
  }

  /** The seen sets skip exactly the entries that clash with a kept one. */
  lemma SkippedIffClash(it: MenuItem, kept: seq<MenuItem>, key: MenuItem -> string)
    ensures Skipped(it, TextsOf(kept, key), ElsOf(kept), key) <==>
            exists k | 0 <= k < |kept| :: Clash(kept[k], it, key)
  {
    if Skipped(it, TextsOf(kept, key), ElsOf(kept), key) {
      if key(it) != "" && key(it) in TextsOf(kept, key) {
        var k :| 0 <= k < |kept| && key(kept[k]) != "" && key(kept[k]) == key(it);
        assert Clash(kept[k], it, key);
      } else {
        var k :| 0 <= k < |kept| && kept[k].el.Some? && kept[k].el.value == it.el.value;
        assert Clash(kept[k], it, key);
      }
    }
    if exists k | 0 <= k < |kept| :: Clash(kept[k], it, key) {
      var k :| 0 <= k < |kept| && Clash(kept[k], it, key);
      if key(kept[k]) != "" && key(kept[k]) == key(it) {
        assert key(it) in TextsOf(kept, key);
      } else {
        assert it.el.value in ElsOf(kept);
      }
    }
  }

  /** Clashing is symmetric. */
  lemma ClashSymmetric(a: MenuItem, b: MenuItem, key: MenuItem -> string)
    ensures Clash(a, b, key) <==> Clash(b, a, key)
  {
  }

  /** One more entry: it is kept exactly when it clashes with no kept one. */
  lemma UniqueStep(items: seq<MenuItem>, key: MenuItem -> string)
    requires items != []
    ensures var u, it := Unique(items[..|items| - 1], key), items[|items| - 1];
      Unique(items, key) == if exists k | 0 <= k < |u| :: Clash(u[k], it, key) then u else u + [it]
  {
    SkippedIffClash(items[|items| - 1], Unique(items[..|items| - 1], key), key);
  }

  /** Every kept entry is an input entry. */
  lemma {:induction false} UniqueFromItems(items: seq<MenuItem>, key: MenuItem -> string)
    ensures |Unique(items, key)| <= |items|
    ensures forall x | x in Unique(items, key) :: x in items
    decreases |items|
  {
    if items != [] {
      var init := items[..|items| - 1];
      UniqueFromItems(init, key);
      assert forall x | x in init :: x in items;
    }
  }

  /** No two kept entries clash. */
  lemma {:induction false} UniqueNoClash(items: seq<MenuItem>, key: MenuItem -> string)
    ensures var u := Unique(items, key); forall i, j | 0 <= i < j < |u| :: !Clash(u[i], u[j], key)
    decreases |items|
  {
    if items != [] {
      var init := items[..|items| - 1];
      var it := items[|items| - 1];
      var u := Unique(init, key);
      UniqueNoClash(init, key);
      UniqueStep(items, key);
      if Unique(items, key) != u {
        var v := u + [it];
        forall i, j | 0 <= i < j < |v|
          ensures !Clash(v[i], v[j], key)
        {
          if j == |u| {
            ClashSymmetric(u[i], it, key);
            assert v[i] == u[i] && v[j] == it;
          } else {
            assert v[i] == u[i] && v[j] == u[j];
          }
        }
      }
    }
  }

  /** `x` is kept in `u` or clashes with an entry kept there. */
  predicate Covered(u: seq<MenuItem>, x: MenuItem, key: MenuItem -> string)
  {
    x in u || exists k | 0 <= k < |u| :: Clash(u[k], x, key)
  }

  lemma CoveredPrefix(u: seq<MenuItem>, v: seq<MenuItem>, x: MenuItem, key: MenuItem -> string)
    requires |u| <= |v| && v[..|u|] == u && Covered(u, x, key)
    ensures Covered(v, x, key)
  {
    if x in u {
      var i :| 0 <= i < |u| && u[i] == x;
      assert v[i] == x;
    } else {
      var k :| 0 <= k < |u| && Clash(u[k], x, key);
      assert v[k] == u[k];
    }
  }

  /** Every input entry is kept or clashes with a kept one. */
  lemma {:induction false} UniqueCovers(items: seq<MenuItem>, key: MenuItem -> string)
    ensures forall i | 0 <= i < |items| :: Covered(Unique(items, key), items[i], key)
    decreases |items|
  {
    if items != [] {
      var init := items[..|items| - 1];
      var it := items[|items| - 1];
      var u := Unique(init, key);
      UniqueCovers(init, key);
      UniqueStep(items, key);
      var w := Unique(items, key);
      assert w[..|u|] == u;
      assert Covered(w, it, key) by {
        if w != u {
          assert w[|u|] == it;
        }
      }
      forall i | 0 <= i < |items|
        ensures Covered(w, items[i], key)
      {
        if i < |init| {
          assert items[i] == init[i];
          CoveredPrefix(u, w, init[i], key);
        }
      }
    }
  }

  /** The kept entries are pairwise distinct in key and element, each is
      an input entry, and every input entry is kept or clashes with a kept
      one. */
  lemma UniqueDistinct(items: seq<MenuItem>, key: MenuItem -> string)
    ensures var u := Unique(items, key);
      && |u| <= |items|
      && (forall i, j | 0 <= i < j < |u| :: !Clash(u[i], u[j], key))
      && (forall x | x in u :: x in items)
      && (forall i | 0 <= i < |items| :: items[i] in u || exists k | 0 <= k < |u| :: Clash(u[k], items[i], key))
  {
    UniqueFromItems(items, key);
    UniqueNoClash(items, key);
    UniqueCovers(items, key);
  }

  /** The first entry is always kept. */
  lemma {:induction false} FirstKept(items: seq<MenuItem>, key: MenuItem -> string)
    requires items != []
    ensures Unique(items, key) != [] && Unique(items, key)[0] == items[0]
    decreases |items|
  {
    if |items| > 1 {
      var init := items[..|items| - 1];
      FirstKept(init, key);
      assert init[0] == items[0];
    }
  }

  /** A list with no clashing entries is kept whole. */
  lemma {:induction false} UniqueOfDistinct(items: seq<MenuItem>, key: MenuItem -> string)
    requires forall i, j | 0 <= i < j < |items| :: !Clash(items[i], items[j], key)
    ensures Unique(items, key) == items
    decreases |items|
  {
    if items != [] {
      var init := items[..|items| - 1];
      var it := items[|items| - 1];
      UniqueOfDistinct(init, key);
      SkippedIffClash(it, init, key);
      assert init + [it] == items;
    }
  }

  /** Removing duplicates twice removes nothing more. */
  lemma UniqueIdempotent(items: seq<MenuItem>, key: MenuItem -> string)
    ensures Unique(Unique(items, key), key) == Unique(items, key)
  {
    UniqueDistinct(items, key);
    UniqueOfDistinct(Unique(items, key), key);
  }

  /** Keeping one more entry adds its key and element to the seen sets. */
  lemma SeenAfterKeep(kept: seq<MenuItem>, it: MenuItem, key: MenuItem -> string)
    ensures TextsOf(kept + [it], key) == TextsOf(kept, key) + (if key(it) != "" then {key(it)} else {})
    ensures ElsOf(kept + [it]) == ElsOf(kept) + (if it.el.Some? then {it.el.value} else {})
  {
    var k := kept + [it];
    forall x | x in TextsOf(k, key)
      ensures x in TextsOf(kept, key) || (key(it) != "" && x == key(it))
    {
      var i :| 0 <= i < |k| && key(k[i]) != "" && key(k[i]) == x;
      if i < |kept| {
        assert k[i] == kept[i];
      }
    }
    forall x | x in TextsOf(kept, key)
      ensures x in TextsOf(k, key)
    {
      var i :| 0 <= i < |kept| && key(kept[i]) != "" && key(kept[i]) == x;
      assert k[i] == kept[i];
    }
    if key(it) != "" {
      assert k[|kept|] == it;
      assert key(it) in TextsOf(k, key);
    }
    forall x | x in ElsOf(k)
      ensures x in ElsOf(kept) || (it.el.Some? && x == it.el.value)
    {
      var i :| 0 <= i < |k| && k[i].el.Some? && k[i].el.value == x;
      if i < |kept| {
        assert k[i] == kept[i];
      }
    }
    forall x | x in ElsOf(kept)
      ensures x in ElsOf(k)
    {
      var i :| 0 <= i < |kept| && kept[i].el.Some? && kept[i].el.value == x;
      assert k[i] == kept[i];
    }
    if it.el.Some? {
      assert k[|kept|] == it;
      assert it.el.value in ElsOf(k);
    }
  }

  /** The pass over one more entry: skipped when the seen sets hold its
      key or element, kept at the end otherwise. */
  lemma UniqueAppend(items: seq<MenuItem>, i: nat, key: MenuItem -> string)
    requires i < |items|
    ensures var u := Unique(items[..i], key);
      Unique(items[..i + 1], key) == if Skipped(items[i], TextsOf(u, key), ElsOf(u), key) then u else u + [items[i]]
  {
    assert items[..i + 1][..i] == items[..i];
  }

  /** The `forEach` pass with its two seen sets, comparing entries by
      `key`; the page's pass is `Dedup(items, TextKey)`. */
  method Dedup(items: seq<MenuItem>, key: MenuItem -> string) returns (unique: seq<MenuItem>)
    ensures unique == Unique(items, key)
  {
    var seenTexts: set<string> := {};
    var seenEls: set<nat> := {};
    unique := [];
    var i := 0;
    while i < |items|
      invariant 0 <= i <= |items|
      invariant unique == Unique(items[..i], key)
      invariant seenTexts == TextsOf(unique, key) && seenEls == ElsOf(unique)
    {
      var it := items[i];
      UniqueAppend(items, i, key);
      var txt := key(it);
      if !((txt != "" && txt in seenTexts) || (it.el.Some? && it.el.value in seenEls)) {
        SeenAfterKeep(unique, it, key);
        if txt != "" {
          seenTexts := seenTexts + {txt};
        }
        if it.el.Some? {
          seenEls := seenEls + {it.el.value};
        }
        unique := unique + [it];
      }
      i := i + 1;
    }
    assert items[..i] == items;
  }

  // ---------------------------------------------------------------------
  // The run counter

  /** `menuReadingActive` and `menuSpeechRunId`. */
  datatype Reading = Reading(active: bool, runId: int)

  /** What one call of `speakNext` does. */
  datatype Step = Stale | Cancelled | Finished | Speak(index: nat)

  /** Starting a reading: a new run id, captured by the run, and the
      reading marked active. */
  function Begin(r: Reading): Reading
  {
    Reading(true, r.runId + 1)
  }

  /** `speakNext` of the run holding `localRunId`, at position `index` of
      a list of `count` entries: a superseded run stops; a cancelled one
      and a finished one stop and retire the current id; otherwise the
      entry is spoken. */
  function Next(r: Reading, localRunId: int, index: nat, count: nat): (Reading, Step)
  {
    if localRunId != r.runId then (r, Stale)
    else if !r.active then (Reading(false, r.runId + 1), Cancelled)
    else if index >= count then (Reading(false, r.runId + 1), Finished)
    else (r, Speak(index))
  }

  /** The stop performed by the read-menu button and by `resetAll` when a
      reading is active or the engine is speaking. */
  function Interrupted(r: Reading, speaking: bool): Reading
  {
    if r.active || speaking then Reading(false, r.runId + 1) else r
  }

  /** Anything that happens to the reading state. */
  datatype Event = StartEvent | NextEvent(localRunId: int, index: nat, count: nat) | InterruptEvent(speaking: bool)

  function After(r: Reading, e: Event): Reading
  {
    match e
    case StartEvent => Begin(r)
    case NextEvent(id, i, n) => Next(r, id, i, n).0
    case InterruptEvent(speaking) => Interrupted(r, speaking)
  }

  function Replay(r: Reading, es: seq<Event>): Reading
    decreases |es|
  {
    if es == [] then r else Replay(After(r, es[0]), es[1..])
  }

  /** Only the current run speaks, and only while the reading is active. */
  lemma SpeaksOnlyCurrent(r: Reading, localRunId: int, index: nat, count: nat)
    ensures Next(r, localRunId, index, count).1.Speak? <==> localRunId == r.runId && r.active && index < count
    ensures Next(r, localRunId, index, count).1.Stale? ==> Next(r, localRunId, index, count).0 == r
  {
  }

  /** Every start, cancel, finish and interruption retires the current run
      id; nothing lowers it. */
  lemma RunIdRetired(r: Reading, e: Event)
    ensures After(r, e).runId >= r.runId
    ensures e.StartEvent? ==> After(r, e).runId > r.runId
    ensures e.NextEvent? && !Next(r, e.localRunId, e.index, e.count).1.Speak? && e.localRunId == r.runId
            ==> After(r, e).runId > r.runId
    ensures e.InterruptEvent? && (r.active || e.speaking) ==> After(r, e).runId > r.runId
  {
  }

  /** Once superseded, a run stays silent whatever happens afterwards: its
      id stays below the counter, so every later `speakNext` of it stops at
      the first check and changes nothing. */
  lemma {:induction false} SupersededStaysStale(r: Reading, es: seq<Event>, localRunId: int, index: nat, count: nat)
    requires localRunId < r.runId
    ensures localRunId < Replay(r, es).runId
    ensures Next(Replay(r, es), localRunId, index, count) == (Replay(r, es), Stale)
    decreases |es|
  {
    if es != [] {
      RunIdRetired(r, es[0]);
      SupersededStaysStale(After(r, es[0]), es[1..], localRunId, index, count);
    }
  }

  /** The two variables, with the operations that change them. */
  class MenuReader {
    var menuReadingActive: bool
    var menuSpeechRunId: int

    function Snapshot(): Reading
      reads this
    {
      Reading(menuReadingActive, menuSpeechRunId)
    }

    constructor ()
      ensures Snapshot() == Reading(false, 0)
    {
      menuReadingActive := false;
      menuSpeechRunId := 0;
    }

    /** The guard of the utterance and timer callbacks: a callback of a run
        whose id is no longer current returns at once. */
    predicate Current(localRunId: int)
      reads this
    {
      localRunId == menuSpeechRunId
    }

    /** The start of `speakLinesSequentially`. */
    method Start() returns (localRunId: int)
      modifies this
      ensures Snapshot() == Begin(old(Snapshot()))
      ensures localRunId == menuSpeechRunId && localRunId > old(menuSpeechRunId)
    {
      menuSpeechRunId := menuSpeechRunId + 1;
      localRunId := menuSpeechRunId;
      menuReadingActive := true;
    }

    /** `speakNext` of the run that captured `localRunId`. */
    method SpeakNext(localRunId: int, index: nat, count: nat) returns (step: Step)
      modifies this
      ensures (Snapshot(), step) == Next(old(Snapshot()), localRunId, index, count)
    {
      if localRunId != menuSpeechRunId {
        return Stale;
      }
      if !menuReadingActive {
        menuSpeechRunId := menuSpeechRunId + 1;
        return Cancelled;
      }
      if index >= count {
        menuReadingActive := false;
        menuSpeechRunId := menuSpeechRunId + 1;
        return Finished;
      }
      step := Speak(index);
    }

    /** The read-menu button pressed during a reading, and the start of
        `resetAll`: the reading is cancelled and the current id retired. */
    method Interrupt(speaking: bool)
      modifies this
      ensures Snapshot() == Interrupted(old(Snapshot()), speaking)
    {
      if menuReadingActive || speaking {
        menuReadingActive := false;
        menuSpeechRunId := menuSpeechRunId + 1;
      }
    }
  }
}

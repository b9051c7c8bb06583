/** Restoring the settings when a page loads: `applyUserPreferences` in
    acessibilidade_wcag.js takes the preferences object that
    `AguiaAPI.loadPreferences()` resolves with (the local values, overlaid
    by the server's when the server accepts the request) and sets the
    setting variables from it, then restores the colour-blind filters from
    the raw `aguia_colorblind_modes` item. It keeps at most one reading mask
    on, but sets contrast and colour intensity independently of each
    other. */
module SettingsLoad {
  import opened Js
  import opened Preferences
  import opened SettingsState
  import opened SettingsPersist

  /** The `preferences` object, by property; a property that is not there
      reads as undefined. */
  type Properties = map<Pref, Value>

  /** The properties `applyUserPreferences` reads. */
  const Read: set<Pref> := {
    FontSize, HighContrast, ColorIntensityMode, FontMode, ReadableFonts, LineSpacing,
    LetterSpacing, FlagKey(TextToSpeech), FlagKey(ReadingHelper), FlagKey(EmphasizeLinks),
    FlagKey(HeaderHighlight), FlagKey(HideImages), ReadingMaskMode, HorizontalMaskLevel,
    VerticalMaskLevel, FlagKey(CustomCursor), FlagKey(ReduceAnimations), HighlightedLetters,
    ColorBlind}

  /** An object given as its ordered own properties, seen through the names
      `applyUserPreferences` reads. */
  function PropertiesOf(es: Entries): Properties
  {
    map p | p in Read && HasKey(es, Name(p)) :: Lookup(es, Name(p)).value
  }

  /** `if (preferences.x)`. */
  predicate IsTruthy(ps: Properties, p: Pref)
  {
    p in ps && Truthy(ps[p])
  }

  /** `preferences.x && preferences.x > 0`, for a property stored as a
      number. */
  predicate IsPositive(ps: Properties, p: Pref)
  {
    p in ps && ps[p].Num? && ps[p].n > 0
  }

  /** `parseInt(preferences.x) || 0`; `parseInt(undefined)` is NaN. */
  function IntOr0(ps: Properties, p: Pref): int
  {
    if p in ps then ParseIntOr0(ps[p]) else 0
  }

  /** `preferences.x || 1` for a mask level stored as a number. */
  function LevelOr1(ps: Properties, p: Pref): int
  {
    if p in ps && ps[p].Num? && ps[p].n != 0 then ps[p].n else 1
  }

  // ---------------------------------------------------------------------
  // applyUserPreferences, part by part

  /** A font size other than 100 goes through `setFontSize`, which saves it. */
  function ApplyFontSize(m: Settings, ps: Properties): Effect
  {
    if FontSize in ps && ps[FontSize].Num? && ps[FontSize].n != 0 && ps[FontSize].n != 100
    then SetFontSize(m, ps[FontSize].n)
    else Effect(m, [])
  }

  /** Font mode (falling back to the old `readableFonts` flag), both
      spacings (line spacing also accepts the old `true`) and highlighted
      letters; nothing is switched off. */
  function ApplyText(t: Text, ps: Properties): Text
  {
    var incoming := IntOr0(ps, FontMode);
    var mode := if incoming == 0 && IsTruthy(ps, ReadableFonts) then 1 else incoming;
    var line := IntOr0(ps, LineSpacing);
    var letter := IntOr0(ps, LetterSpacing);
    t.(fontMode := mode,
       readableFonts := if mode > 0 then true else t.readableFonts,
       lineSpacing := if 0 < line <= 3 then line
                      else if LineSpacing in ps && ps[LineSpacing] == Bool(true) then 2
                      else t.lineSpacing,
       letterSpacing := if 0 < letter <= 3 then letter else t.letterSpacing,
       highlightedLetters := if IntOr0(ps, HighlightedLetters) > 0 then 1 else t.highlightedLetters)
  }

  /** Contrast is switched on when set; the intensity is always assigned,
      whatever the contrast. */
  function ApplyColour(c: Colour, ps: Properties): Colour
  {
    c.(highContrast := if IsTruthy(ps, HighContrast) then true else c.highContrast,
       colorIntensity := IntOr0(ps, ColorIntensityMode))
  }

  /** The reading masks: the mode first, then a positive horizontal level,
      then a positive vertical level, each switching the other mask off. */
  function ApplyMasks(k: Masks, ps: Properties): (r: Masks)
    ensures k.horizontal == 0 || k.vertical == 0 ==> r.horizontal == 0 || r.vertical == 0
    ensures IsPositive(ps, VerticalMaskLevel) ==> r == Masks(2, 0, ps[VerticalMaskLevel].n)
    ensures IsPositive(ps, HorizontalMaskLevel) && !IsPositive(ps, VerticalMaskLevel)
            ==> r == Masks(1, ps[HorizontalMaskLevel].n, 0)
  {
    var k1 :=
      if IsPositive(ps, ReadingMaskMode) then
        var mode := ps[ReadingMaskMode].n;
        if mode == 1 then Masks(1, LevelOr1(ps, HorizontalMaskLevel), 0)
        else if mode == 2 then Masks(2, 0, LevelOr1(ps, VerticalMaskLevel))
        else k.(readingMaskMode := mode)
      else k;
    var k2 := if IsPositive(ps, HorizontalMaskLevel) then Masks(1, ps[HorizontalMaskLevel].n, 0) else k1;
    if IsPositive(ps, VerticalMaskLevel) then Masks(2, 0, ps[VerticalMaskLevel].n) else k2
  }

  /** The features `applyUserPreferences` switches on when set. */
  const SwitchedOnWhenSet: set<Flag> :=
    {TextToSpeech, ReadingHelper, EmphasizeLinks, HeaderHighlight, HideImages, CustomCursor}

  /** The on/off features: the ones above only ever switched on, reduced
      animations assigned whenever the property is defined. */
  function ApplyFlags(flags: set<Flag>, ps: Properties): set<Flag>
  {
    var on := set f | f in SwitchedOnWhenSet && IsTruthy(ps, FlagKey(f));
    var raised := flags + on;
    if FlagKey(ReduceAnimations) in ps
    then SetFlag(raised, ReduceAnimations, Truthy(ps[FlagKey(ReduceAnimations)]))
    else raised
  }

  /** `modes.filter(m => allowed.includes(m))`. */
  function AllowedIn(vs: seq<Value>): (r: seq<string>)
    ensures forall i | 0 <= i < |r| :: r[i] in AllowedModes
    ensures |r| <= |vs|
  {
    if vs == [] then []
    else (if vs[0].Str? && vs[0].s in AllowedModes then [vs[0].s] else []) + AllowedIn(vs[1..])
  }

  /** A raw localStorage item read in a condition: JSON text is never empty. */
  predicate ItemTruthy(item: Item)
  {
    match item
    case Json(_) => true
    case Garbage(text) => text != []
  }

  /** The colour-blind modes the load restores, or `None` when the `try`
      block is left by an exception: unparsable text, or parsed JSON that is
      truthy but not an array (which has no `filter`). Without a stored list,
      the single `colorblind` preference stands in. */
  function SavedModes(item: Option<Item>, colorblind: Option<Value>): (r: Option<seq<string>>)
    ensures r.Some? ==> forall i | 0 <= i < |r.value| :: r.value[i] in AllowedModes
  {
    if item.Some? && ItemTruthy(item.value) then
      match item.value
      case Json(v) =>
        if !Truthy(v) then Some([])
        else if v.Arr? then Some(AllowedIn(v.items))
        else None
      case Garbage(_) => None
    else if colorblind.Some? && Truthy(colorblind.value) && colorblind.value != Str("none")
    then Some(AllowedIn([colorblind.value]))
    else Some([])
  }

  /** A nonempty list of restored modes goes through `setColorBlindModes`,
      as written: the intensity is zeroed in memory and not saved. */
  function ApplyColorBlind(m: Settings, ps: Properties, modesItem: Option<Item>): Effect
  {
    var modes := SavedModes(modesItem, if ColorBlind in ps then Some(ps[ColorBlind]) else None);
    if modes.Some? && modes.value != [] then SetColorBlindModesAsWritten(m, modes.value) else Effect(m, [])
  }

  /** `applyUserPreferences(preferences)`, with `modesItem` the raw
      `aguia_colorblind_modes` item it reads from localStorage. It never
      leaves both masks on when at most one was on before. */
  function Apply(m: Settings, ps: Properties, modesItem: Option<Item>): (r: Effect)
    ensures m.masks.horizontal == 0 || m.masks.vertical == 0 ==>
            r.mem.masks.horizontal == 0 || r.mem.masks.vertical == 0
  {
    var e := ApplyFontSize(m, ps);
    var m1 := Settings(ApplyText(e.mem.text, ps), ApplyColour(e.mem.colour, ps),
                       ApplyMasks(e.mem.masks, ps), ApplyFlags(e.mem.flags, ps));
    Then(e, ApplyColorBlind(m1, ps, modesItem))
  }

  /** A page load: the declared initial values, then `applyUserPreferences`
      of what `AguiaAPI.loadPreferences()` resolves with for the server's
      `reply` (module Preferences), reading the colour-blind list from the
      store as that load left it. */
  function Reload(store: Store, hasEndpoint: bool, reply: LoadReply, failAt: Option<nat>): Effect
  {
    var r := LoadOutcome(store, hasEndpoint, reply, failAt);
    ApplyLoaded(r.0, r.1)
  }

  /** `applyUserPreferences` of a resolved preferences object, over the
      declared initial values, with the colour-blind list read from `store`. */
  function ApplyLoaded(prefs: Entries, store: Store): Effect
  {
    Apply(Defaults, PropertiesOf(prefs), GetItem(store, Name(ColorBlindModes)))
  }

  /** The store after a page load: the write-back of the load, then the
      saves of `applyUserPreferences`. */
  function Reloaded(store: Store, hasEndpoint: bool, reply: LoadReply, failAt: Option<nat>): Store
  {
    var r := LoadOutcome(store, hasEndpoint, reply, failAt);
    WriteAll(r.1, Named(ApplyLoaded(r.0, r.1).saves))
  }

  // ---------------------------------------------------------------------
  // What a reload reads

  /** The properties `loadFromLocalStorage` reads: all those
      `applyUserPreferences` reads except `hideImages`. */
  predicate Loaded(p: Pref)
  {
    match p
    case ColorBlindModes => false
    case LegacyInvertedColors => false
    case Magnifier => false
    case MagnifierEnabled => false
    case FlagKey(f) => f != HideImages && f != ImageInterpreter
    case _ => true
  }

  lemma LoadedAreRead(p: Pref)
    requires Loaded(p)
    ensures p in Read && p != FlagKey(HideImages) && Setting(Defaults, p).Some?
  {
  }

  /** Where `loadFromLocalStorage` puts each property it reads. */
  function LoadIndex(p: Pref): nat
  {
    match p
    case FontSize => 0
    case HighContrast => 1
    case ColorIntensityMode => 2
    case FlagKey(ReduceAnimations) => 3
    case HighlightedLetters => 4
    case ReadableFonts => 5
    case FontMode => 6
    case LineSpacing => 7
    case LetterSpacing => 8
    case FlagKey(TextToSpeech) => 9
    case FlagKey(ReadingHelper) => 10
    case FlagKey(EmphasizeLinks) => 11
    case FlagKey(HeaderHighlight) => 12
    case ColorBlind => 13
    case ReadingMaskMode => 14
    case HorizontalMaskLevel => 15
    case VerticalMaskLevel => 16
    case FlagKey(CustomCursor) => 17
    case _ => 18
  }

  /** The defaults `loadFromLocalStorage` reads with are the declared
      initial values of the variables. */
  lemma LoadIndexNames(p: Pref)
    requires Loaded(p)
    ensures LoadIndex(p) < |PrefDefaults|
    ensures PrefDefaults[LoadIndex(p)] == (Name(p), Setting(Defaults, p).value)
  {
  }

  /** `hideImages` is not among the properties `loadFromLocalStorage` reads. */
  lemma HideImagesNotLoaded()
    ensures forall i | 0 <= i < |PrefDefaults| :: PrefDefaults[i].0 != Name(FlagKey(HideImages))
  {
  }

  /** A property found at index `i` of distinct entries. */
  lemma PropertyAt(es: Entries, i: int, p: Pref)
    requires DistinctKeys(es) && 0 <= i < |es| && es[i].0 == Name(p) && p in Read
    ensures p in PropertiesOf(es) && PropertiesOf(es)[p] == es[i].1
  {
    LookupAt(es, i);
  }

  /** `AguiaAPI.loadFromLocalStorage()` seen as properties: every property
      `applyUserPreferences` reads except `hideImages` is there, with the
      stored value or its default; the legacy flag turns the intensity into
      greyscale. */
  lemma StoredProperty(store: Store, p: Pref)
    requires Loaded(p)
    ensures var ps := PropertiesOf(LoadFromLocalStorage(store));
      && p in ps
      && ps[p] == if p == ColorIntensityMode && InvertedColors(store) then Num(3)
                  else GetFromLocalStorage(store, Name(p), Setting(Defaults, p).value)
  {
    var es := LoadFromLocalStorage(store);
    var i := LoadIndex(p);
    LoadedDistinct(store);
    LoadedAreRead(p);
    LoadIndexNames(p);
    assert es[i].0 == Name(p);
    PropertyAt(es, i, p);
    if p != ColorIntensityMode {
      NameRoundTrip(p);
      NameRoundTrip(ColorIntensityMode);
      assert PrefDefaults[i].0 != "colorIntensityMode";
      assert es[i].1 == GetFromLocalStorage(store, PrefDefaults[i].0, PrefDefaults[i].1);
    } else {
      assert i == 2;
    }
  }

  lemma HideImagesNotStored(store: Store)
    ensures FlagKey(HideImages) !in PropertiesOf(LoadFromLocalStorage(store))
  {
    HideImagesNotLoaded();
    assert !HasKey(LoadFromLocalStorage(store), Name(FlagKey(HideImages)));
  }

  /** The properties give every loaded setting of `m` its value. */
  ghost predicate Describes(ps: Properties, m: Settings)
  {
    forall p | Loaded(p) :: p in ps && Setting(m, p) == Some(ps[p])
  }

  /** A store that holds `m` loads each property as `m`'s value. */
  lemma PersistedProperty(m: Settings, store: Store, p: Pref)
    requires Persisted(m, store) && Loaded(p)
    ensures var ps := PropertiesOf(LoadFromLocalStorage(store));
      p in ps && Setting(m, p) == Some(ps[p])
  {
    PersistedNotInverted(m, store);
    LoadedAreRead(p);
    StoredProperty(store, p);
    assert GetFromLocalStorage(store, Name(p), Setting(Defaults, p).value) == Setting(m, p).value;
  }

  /** A store that holds `m` loads as properties describing `m`. */
  lemma PersistedDescribes(m: Settings, store: Store)
    requires Persisted(m, store)
    ensures Describes(PropertiesOf(LoadFromLocalStorage(store)), m)
    ensures FlagKey(HideImages) !in PropertiesOf(LoadFromLocalStorage(store))
  {
    var ps := PropertiesOf(LoadFromLocalStorage(store));
    HideImagesNotStored(store);
    forall p | Loaded(p)
      ensures p in ps && Setting(m, p) == Some(ps[p])
    {
      PersistedProperty(m, store, p);
    }
  }

  /** The stored colour-blind modes agree with the single mode `mode`: the
      load restores no list exactly when `mode` is 'none', and otherwise a
      list headed by `mode`. */
  predicate ModesFor(item: Option<Item>, mode: string)
  {
    match SavedModes(item, Some(Str(mode)))
    case None => false
    case Some(modes) => (modes == [] <==> mode == "none") && (modes != [] ==> modes[0] == mode)
  }

  /** The settings a reload can bring back: everything but the two features
      `loadFromLocalStorage` does not read. */
  function Restorable(m: Settings): Settings
  {
    m.(flags := m.flags - {HideImages, ImageInterpreter})
  }

  /** The settings a load brings back from properties that describe `m`:
      the restorable ones, with hidden images switched on when the
      properties (from the server) set them. */
  function Restored(m: Settings, ps: Properties): Settings
  {
    var r := Restorable(m);
    r.(flags := r.flags + if IsTruthy(ps, FlagKey(HideImages)) then {HideImages} else {})
  }

  // ---------------------------------------------------------------------
  // Reloading a store that holds valid settings brings them back

  lemma FontSizeRestored(m: Settings, ps: Properties)
    requires Describes(ps, m) && TextValid(m.text)
    ensures ApplyFontSize(Defaults, ps).mem == Defaults.(text := Defaults.text.(fontSize := m.text.fontSize))
    ensures SavesFinal(ApplyFontSize(Defaults, ps).saves, m)
  {
    assert Loaded(FontSize);
  }

  lemma TextRestored(m: Settings, ps: Properties)
    requires Describes(ps, m) && TextValid(m.text)
    ensures ApplyText(Defaults.text.(fontSize := m.text.fontSize), ps) == m.text
  {
    assert Loaded(FontMode) && Loaded(ReadableFonts) && Loaded(LineSpacing);
    assert Loaded(LetterSpacing) && Loaded(HighlightedLetters);
  }

  lemma ColourRestored(m: Settings, ps: Properties)
    requires Describes(ps, m)
    ensures ApplyColour(Defaults.colour, ps) == m.colour.(colorBlindMode := "none")
  {
    assert Loaded(HighContrast) && Loaded(ColorIntensityMode);
  }

  lemma MasksRestored(m: Settings, ps: Properties)
    requires Describes(ps, m) && MaskConsistent(m.masks)
    ensures ApplyMasks(Defaults.masks, ps) == m.masks
  {
    assert Loaded(ReadingMaskMode) && Loaded(HorizontalMaskLevel) && Loaded(VerticalMaskLevel);
  }

  lemma FlagsRestored(m: Settings, ps: Properties)
    requires Describes(ps, m)
    ensures ApplyFlags({}, ps) == Restored(m, ps).flags
  {
    forall f: Flag
      ensures f in ApplyFlags({}, ps) <==> f in Restored(m, ps).flags
    {
      FlagRestored(m, ps, f);
    }
  }

  lemma FlagRestored(m: Settings, ps: Properties, f: Flag)
    requires Describes(ps, m)
    ensures f in ApplyFlags({}, ps) <==> f in Restored(m, ps).flags
  {
    var on := set g | g in SwitchedOnWhenSet && IsTruthy(ps, FlagKey(g));
    assert f in ApplyFlags({}, ps) <==>
      if f == ReduceAnimations then Truthy(ps[FlagKey(ReduceAnimations)]) else f in on
    by {
      assert Loaded(FlagKey(ReduceAnimations));
    }
    if f == HideImages {
      assert f in Restored(m, ps).flags <==> IsTruthy(ps, FlagKey(HideImages));
    } else if f == ImageInterpreter {
      assert f !in Restored(m, ps).flags;
    } else {
      assert Loaded(FlagKey(f));
      assert f in Restored(m, ps).flags <==> f in m.flags;
    }
  }

  lemma ColorBlindRestored(m: Settings, ps: Properties, modesItem: Option<Item>)
    requires Describes(ps, m) && ColourValid(m.colour) && ModesFor(modesItem, m.colour.colorBlindMode)
    ensures var e := ApplyColorBlind(Restored(m, ps).(colour := m.colour.(colorBlindMode := "none")), ps, modesItem);
      e.mem == Restored(m, ps) && SavesFinal(e.saves, m)
  {
    assert Loaded(ColorBlind);
  }

  /** Applied to the declared initial values, properties describing valid
      settings bring them back, up to the two features not loaded (hidden
      images come on when the properties set them), and the only saves made
      on the way write the values they bring back. */
  lemma ApplyRestores(m: Settings, ps: Properties, modesItem: Option<Item>)
    requires Valid(m) && Describes(ps, m)
    requires ModesFor(modesItem, m.colour.colorBlindMode)
    ensures Apply(Defaults, ps, modesItem).mem == Restored(m, ps)
    ensures SavesFinal(Apply(Defaults, ps, modesItem).saves, m)
  {
    var e := ApplyFontSize(Defaults, ps);
    FontSizeRestored(m, ps);
    TextRestored(m, ps);
    ColourRestored(m, ps);
    MasksRestored(m, ps);
    FlagsRestored(m, ps);
    var m1 := Settings(ApplyText(e.mem.text, ps), ApplyColour(e.mem.colour, ps),
                       ApplyMasks(e.mem.masks, ps), ApplyFlags(e.mem.flags, ps));
    assert m1 == Restored(m, ps).(colour := m.colour.(colorBlindMode := "none"));
    ColorBlindRestored(m, ps, modesItem);
  }

  /** Saves that write only the values `m` already has keep a store that
      holds `m` holding it. */
  lemma PersistedKept(m: Settings, store: Store, es: Saves)
    requires Persisted(m, store) && SavesFinal(es, m)
    ensures Persisted(m, WriteAll(store, Named(es)))
  {
    forall p | Setting(m, p).Some?
      ensures GetFromLocalStorage(WriteAll(store, Named(es)), Name(p), Setting(Defaults, p).value)
           == Setting(m, p).value
    {
      StoredAfterNamed(store, es, p, Setting(Defaults, p).value);
      var r := LastWrite(es, p);
      if r.Some? {
        var i :| 0 <= i < |es| && es[i] == (p, r.value);
      }
    }
  }

  /** The stored colour-blind list agrees with the current mode. */
  predicate ModesStored(m: Settings, store: Store)
  {
    ModesFor(GetItem(store, Name(ColorBlindModes)), m.colour.colorBlindMode)
  }

  /** A page load that gets no accepted reply from the server, from a store
      that holds valid settings with a colour-blind list that agrees with
      them, brings the settings back (but for hidden images and the image
      interpreter), and the store still holds them. */
  lemma ReloadRestores(m: Settings, store: Store, hasEndpoint: bool, reply: LoadReply, failAt: Option<nat>)
    requires !LoadAccepted(hasEndpoint, reply)
    requires Valid(m) && Persisted(m, store) && ModesStored(m, store)
    ensures Reload(store, hasEndpoint, reply, failAt).mem == Restorable(m)
    ensures Persisted(m, Reloaded(store, hasEndpoint, reply, failAt))
  {
    var ps := PropertiesOf(LoadFromLocalStorage(store));
    var item := GetItem(store, Name(ColorBlindModes));
    var e := Apply(Defaults, ps, item);
    ReloadLocal(store, hasEndpoint, reply, failAt);
    PersistedDescribes(m, store);
    ApplyRestores(m, ps, item);
    RestoredLocally(m, ps);
    PersistedKept(m, store, e.saves);
  }

  lemma RestoredLocally(m: Settings, ps: Properties)
    requires FlagKey(HideImages) !in ps
    ensures Restored(m, ps) == Restorable(m)
  {
    assert !IsTruthy(ps, FlagKey(HideImages));
  }

  /** Without an accepted reply, a page load applies the local values to the
      store as it was. */
  lemma ReloadLocal(store: Store, hasEndpoint: bool, reply: LoadReply, failAt: Option<nat>)
    requires !LoadAccepted(hasEndpoint, reply)
    ensures Reload(store, hasEndpoint, reply, failAt) == ApplyLoaded(LoadFromLocalStorage(store), store)
    ensures Reloaded(store, hasEndpoint, reply, failAt)
         == WriteAll(store, Named(ApplyLoaded(LoadFromLocalStorage(store), store).saves))
  {
    LoadOutcomeLocal(store, hasEndpoint, reply, failAt);
    ReloadFrom(store, hasEndpoint, reply, failAt, LoadFromLocalStorage(store), store);
    ReloadedFrom(store, hasEndpoint, reply, failAt, LoadFromLocalStorage(store), store);
  }

  /** A page load applies what `loadPreferences` settled on, reading the
      colour-blind modes from the store it left. */
  lemma ReloadFrom(store: Store, hasEndpoint: bool, reply: LoadReply, failAt: Option<nat>, prefs: Entries, after: Store)
    requires LoadOutcome(store, hasEndpoint, reply, failAt) == (prefs, after)
    ensures Reload(store, hasEndpoint, reply, failAt) == ApplyLoaded(prefs, after)
  {
  }

  /** The store a page load leaves: what `loadPreferences` left, with the
      saves of applying what it settled on. */
  lemma ReloadedFrom(store: Store, hasEndpoint: bool, reply: LoadReply, failAt: Option<nat>, prefs: Entries, after: Store)
    requires LoadOutcome(store, hasEndpoint, reply, failAt) == (prefs, after)
    ensures Reloaded(store, hasEndpoint, reply, failAt) == WriteAll(after, Named(ApplyLoaded(prefs, after).saves))
  {
  }

  /** Every setting a load reads is stored as its value in `m`. */
  ghost predicate LoadedStored(m: Settings, store: Store)
  {
    forall p | Loaded(p) ::
      Setting(m, p).Some? && GetFromLocalStorage(store, Name(p), Setting(Defaults, p).value) == Setting(m, p).value
  }

  /** With an accepted reply whose write-back goes through, the server's
      values win: a read preference the reply names is applied as the
      server's value, and the store then holds that value. */
  lemma ReloadServerWins(store: Store, hasEndpoint: bool, reply: LoadReply, failAt: Option<nat>,
                         p: Pref, default: Value)
    requires LoadAccepted(hasEndpoint, reply) && DistinctKeys(reply.preferences.value)
    requires var merged := Merge(LoadFromLocalStorage(store), reply.preferences.value);
      Written(|merged|, failAt) == |merged|
    requires p in Read && HasKey(reply.preferences.value, Name(p))
    ensures var r := LoadOutcome(store, hasEndpoint, reply, failAt);
      var v := Lookup(reply.preferences.value, Name(p)).value;
      && p in PropertiesOf(r.0) && PropertiesOf(r.0)[p] == v
      && GetFromLocalStorage(r.1, Name(p), default) == v
  {
    LoadServerWins(store, hasEndpoint, reply, failAt, Name(p), default);
  }

  /** With an accepted reply whose write-back goes through, a page load
      brings back the valid settings the merged properties describe (hidden
      images included when the server sets them), and afterwards the store
      holds every setting a load reads as that value. */
  lemma ReloadAccepted(m: Settings, store: Store, hasEndpoint: bool, reply: LoadReply, failAt: Option<nat>)
    requires LoadAccepted(hasEndpoint, reply) && DistinctKeys(reply.preferences.value)
    requires var merged := Merge(LoadFromLocalStorage(store), reply.preferences.value);
      Written(|merged|, failAt) == |merged|
    requires var r := LoadOutcome(store, hasEndpoint, reply, failAt);
      Valid(m) && Describes(PropertiesOf(r.0), m) && ModesStored(m, r.1)
    ensures var ps := PropertiesOf(LoadOutcome(store, hasEndpoint, reply, failAt).0);
      Reload(store, hasEndpoint, reply, failAt).mem == Restored(m, ps)
    ensures LoadedStored(m, Reloaded(store, hasEndpoint, reply, failAt))
  {
    var r := LoadOutcome(store, hasEndpoint, reply, failAt);
    var ps := PropertiesOf(r.0);
    var item := GetItem(r.1, Name(ColorBlindModes));
    var e := Apply(Defaults, ps, item);
    assert Reload(store, hasEndpoint, reply, failAt) == e;
    ApplyRestores(m, ps, item);
    AcceptedStored(m, store, hasEndpoint, reply, failAt);
    LoadedKept(m, r.1, e.saves);
  }

  /** The write-back of an accepted load leaves in the store every loaded
      setting of the settings its merged properties describe. */
  lemma AcceptedStored(m: Settings, store: Store, hasEndpoint: bool, reply: LoadReply, failAt: Option<nat>)
    requires LoadAccepted(hasEndpoint, reply) && DistinctKeys(reply.preferences.value)
    requires var merged := Merge(LoadFromLocalStorage(store), reply.preferences.value);
      Written(|merged|, failAt) == |merged|
    requires Describes(PropertiesOf(LoadOutcome(store, hasEndpoint, reply, failAt).0), m)
    ensures LoadedStored(m, LoadOutcome(store, hasEndpoint, reply, failAt).1)
  {
    var r := LoadOutcome(store, hasEndpoint, reply, failAt);
    var ps := PropertiesOf(r.0);
    forall p | Loaded(p)
      ensures Setting(m, p).Some?
      ensures GetFromLocalStorage(r.1, Name(p), Setting(Defaults, p).value) == Setting(m, p).value
    {
      LoadedAreRead(p);
      LoadServerWins(store, hasEndpoint, reply, failAt, Name(p), Setting(Defaults, p).value);
    }
  }

  /** Saves that write final values keep every loaded setting stored. */
  lemma LoadedKept(m: Settings, store: Store, es: Saves)
    requires LoadedStored(m, store) && SavesFinal(es, m)
    ensures LoadedStored(m, WriteAll(store, Named(es)))
  {
    forall p | Loaded(p)
      ensures Setting(m, p).Some?
      ensures GetFromLocalStorage(WriteAll(store, Named(es)), Name(p), Setting(Defaults, p).value)
           == Setting(m, p).value
    {
      StoredAfterNamed(store, es, p, Setting(Defaults, p).value);
      var w := LastWrite(es, p);
      if w.Some? {
        var i :| 0 <= i < |es| && es[i] == (p, w.value);
      }
    }
  }

  /** Filtering a stored list of allowed modes gives the list back. */
  lemma {:induction false} AllowedInModes(modes: seq<string>)
    requires forall i | 0 <= i < |modes| :: modes[i] in AllowedModes
    ensures AllowedIn(ModesValue(modes).items) == modes
  {
    if modes != [] {
      assert ModesValue(modes).items[1..] == ModesValue(modes[1..]).items;
      AllowedInModes(modes[1..]);
    }
  }

  /** The restored list, when there is one, is what the load writes to
      `aguia_colorblind_modes`; otherwise it writes nothing there. */
  lemma ApplyWritesModes(m: Settings, ps: Properties, modesItem: Option<Item>)
    ensures var modes := SavedModes(modesItem, if ColorBlind in ps then Some(ps[ColorBlind]) else None);
      LastWrite(Apply(m, ps, modesItem).saves, ColorBlindModes)
        == if modes.Some? && modes.value != [] then Some(ModesValue(modes.value)) else None
  {
    var ef := ApplyFontSize(m, ps);
    var m1 := Settings(ApplyText(ef.mem.text, ps), ApplyColour(ef.mem.colour, ps),
                       ApplyMasks(ef.mem.masks, ps), ApplyFlags(ef.mem.flags, ps));
    var ec := ApplyColorBlind(m1, ps, modesItem);
    LastWriteAppend(ef.saves, ec.saves, ColorBlindModes);
    if ec.saves != [] {
      LastWriteSplit(ec.saves, 1, ColorBlindModes);
      assert !HasKey(ec.saves[1..], ColorBlindModes);
    }
  }

  /** Writing an allowed list headed by `mode` makes the stored list agree
      with `mode`. */
  lemma ModesWritten(store: Store, es: Saves, mode: string, modes: seq<string>)
    requires modes != [] && modes[0] == mode && forall i | 0 <= i < |modes| :: modes[i] in AllowedModes
    requires LastWrite(es, ColorBlindModes) == Some(ModesValue(modes))
    ensures ModesFor(GetItem(WriteAll(store, Named(es)), Name(ColorBlindModes)), mode)
  {
    var item := GetItem(WriteAll(store, Named(es)), Name(ColorBlindModes));
    GetItemAfter(store, Named(es), Name(ColorBlindModes));
    LastWriteNamed(es, ColorBlindModes);
    assert item == Some(Json(ModesValue(modes)));
    AllowedInModes(modes);
    assert SavedModes(item, Some(Str(mode))) == Some(modes);
  }

  /** Saves that do not write the list leave it as it was. */
  lemma ModesUnwritten(store: Store, es: Saves)
    requires !HasKey(es, ColorBlindModes)
    ensures GetItem(WriteAll(store, Named(es)), Name(ColorBlindModes)) == GetItem(store, Name(ColorBlindModes))
  {
    GetItemAfter(store, Named(es), Name(ColorBlindModes));
    LastWriteNamed(es, ColorBlindModes);
  }

  /** The colour-blind list a page load without an accepted reply writes
      back agrees with the mode it restores. */
  lemma ReloadKeepsModes(m: Settings, store: Store, hasEndpoint: bool, reply: LoadReply, failAt: Option<nat>)
    requires !LoadAccepted(hasEndpoint, reply)
    requires Persisted(m, store) && ModesStored(m, store)
    ensures ModesStored(m, Reloaded(store, hasEndpoint, reply, failAt))
  {
    var ps := PropertiesOf(LoadFromLocalStorage(store));
    var item := GetItem(store, Name(ColorBlindModes));
    var saves := Reload(store, hasEndpoint, reply, failAt).saves;
    ReloadLocal(store, hasEndpoint, reply, failAt);
    PersistedProperty(m, store, ColorBlind);
    ApplyWritesModes(Defaults, ps, item);
    var modes := SavedModes(item, Some(Str(m.colour.colorBlindMode)));
    if modes.Some? && modes.value != [] {
      ModesWritten(store, saves, m.colour.colorBlindMode, modes.value);
    } else {
      ModesUnwritten(store, saves);
    }
  }

  /** Writing the empty list makes the stored list agree with 'none'. */
  lemma ModesCleared(store: Store, es: Saves)
    requires LastWrite(es, ColorBlindModes) == Some(ModesValue([]))
    ensures ModesFor(GetItem(WriteAll(store, Named(es)), Name(ColorBlindModes)), "none")
  {
    GetItemAfter(store, Named(es), Name(ColorBlindModes));
    LastWriteNamed(es, ColorBlindModes);
  }

  /** A store holding settings without colour-blind filters reloads their
      contrast and intensity as they are, valid or not, when the server
      accepts no request. */
  lemma ReloadColour(k: Settings, store: Store, hasEndpoint: bool, reply: LoadReply, failAt: Option<nat>)
    requires !LoadAccepted(hasEndpoint, reply)
    requires Persisted(k, store) && ModesStored(k, store) && k.colour.colorBlindMode == "none"
    ensures Reload(store, hasEndpoint, reply, failAt).mem.colour == k.colour
  {
    var ps := PropertiesOf(LoadFromLocalStorage(store));
    ReloadLocal(store, hasEndpoint, reply, failAt);
    PersistedDescribes(k, store);
    ColourRestored(k, ps);
    assert Loaded(ColorBlind);
    var item := GetItem(store, Name(ColorBlindModes));
    assert SavedModes(item, Some(ps[ColorBlind])) == Some([]);
    ApplyKeepsColour(Defaults, ps, item);
  }

  lemma ApplyKeepsColour(m: Settings, ps: Properties, modesItem: Option<Item>)
    requires SavedModes(modesItem, if ColorBlind in ps then Some(ps[ColorBlind]) else None) == Some([])
    ensures Apply(m, ps, modesItem).mem.colour == ApplyColour(m.colour, ps)
  {
  }

  /** The masks a page load ends with are those the mask part computes from
      the properties the load resolves with. */
  lemma ReloadMasks(store: Store, hasEndpoint: bool, reply: LoadReply, failAt: Option<nat>)
    ensures var r := LoadOutcome(store, hasEndpoint, reply, failAt);
      Reload(store, hasEndpoint, reply, failAt).mem.masks == ApplyMasks(Defaults.masks, PropertiesOf(r.0))
  {
    var r := LoadOutcome(store, hasEndpoint, reply, failAt);
    ApplyKeepsMasks(Defaults, PropertiesOf(r.0), GetItem(r.1, Name(ColorBlindModes)));
  }

  lemma ApplyKeepsMasks(m: Settings, ps: Properties, modesItem: Option<Item>)
    ensures Apply(m, ps, modesItem).mem.masks == ApplyMasks(m.masks, ps)
  {
  }

  // ---------------------------------------------------------------------
  // What the unsaved switch-offs of the source do at the next page load

  /** `toggleColorIntensity()` as written, from high contrast: the next page
      load switches contrast and low intensity on together, which no menu
      transition does. */
  lemma ReloadAfterIntensityAsWritten(m: Settings, store: Store, hasEndpoint: bool, reply: LoadReply, failAt: Option<nat>)
    requires !LoadAccepted(hasEndpoint, reply)
    requires Valid(m) && Persisted(m, store) && m.colour.highContrast
    ensures var w := ToggleColorIntensityAsWritten(m);
      var r := Reload(WriteAll(store, Named(w.saves)), hasEndpoint, reply, failAt).mem;
      && !w.mem.colour.highContrast
      && r.colour.highContrast && r.colour.colorIntensity == 1
      && !ContrastExclusive(r.colour)
  {
    var w := ToggleColorIntensityAsWritten(m);
    IntensityAsWrittenStored(m, store);
    ReloadColour(w.mem.(colour := Colour(true, 1, "none")), WriteAll(store, Named(w.saves)), hasEndpoint, reply, failAt);
  }

  /** The store after `toggleColorIntensity()` as written, from a contrast
      that was on: it describes the new settings with the contrast still on. */
  lemma IntensityAsWrittenStored(m: Settings, store: Store)
    requires Valid(m) && Persisted(m, store) && m.colour.highContrast
    ensures var w := ToggleColorIntensityAsWritten(m);
      var stale := w.mem.(colour := Colour(true, 1, "none"));
      var s := WriteAll(store, Named(w.saves));
      && w.mem.colour == Colour(false, 1, "none")
      && Persisted(stale, s) && ModesStored(stale, s)
  {
    var w := ToggleColorIntensityAsWritten(m);
    assert JsRem(m.colour.colorIntensity + 1, 4) == 1;
    assert w.mem.colour == Colour(false, 1, "none");
    var stale := w.mem.(colour := Colour(true, 1, "none"));
    AgreeByFinalValues(m, Effect(stale, w.saves));
    PersistStep(m, store, Effect(stale, w.saves));
    assert LastWrite(w.saves, ColorBlindModes) == Some(ModesValue([])) by {
      LastWriteSplit(w.saves, 2, ColorBlindModes);
      LastWriteSplit(w.saves[..2], 1, ColorBlindModes);
    }
    ModesCleared(store, w.saves);
  }

  /** `toggleHorizontalMask()` as written, with a vertical mask on: the next
      page load shows the old vertical mask instead of the horizontal one
      just chosen. */
  lemma ReloadAfterHorizontalAsWritten(m: Settings, store: Store, hasEndpoint: bool, reply: LoadReply, failAt: Option<nat>)
    requires !LoadAccepted(hasEndpoint, reply)
    requires Valid(m) && Persisted(m, store) && m.masks.vertical > 0
    ensures var w := ToggleHorizontalMaskAsWritten(m);
      && w.mem.masks == Masks(1, 1, 0)
      && Reload(WriteAll(store, Named(w.saves)), hasEndpoint, reply, failAt).mem.masks == Masks(2, 0, m.masks.vertical)
  {
    var w := ToggleHorizontalMaskAsWritten(m);
    assert JsRem(m.masks.horizontal + 1, 4) == 1;
    var stale := w.mem.(masks := Masks(1, 1, m.masks.vertical));
    var s := WriteAll(store, Named(w.saves));
    AgreeByFinalValues(m, Effect(stale, w.saves));
    PersistStep(m, store, Effect(stale, w.saves));
    PersistedProperty(stale, s, VerticalMaskLevel);
    ReloadMasks(s, hasEndpoint, reply, failAt);
  }

  /** `setColorBlindModes()` as written, used to pick a filter while an
      intensity was on and then to switch the filter off: the memory has no
      intensity, yet the next page load brings the old one back. */
  lemma ReloadAfterColorBlindAsWritten(m: Settings, store: Store, mode: string, hasEndpoint: bool, reply: LoadReply, failAt: Option<nat>)
    requires !LoadAccepted(hasEndpoint, reply)
    requires Persisted(m, store) && m.colour.colorIntensity > 0
    ensures var w1 := SetColorBlindModesAsWritten(m, [mode]);
      var w2 := SetColorBlindModesAsWritten(w1.mem, []);
      var s := WriteAll(WriteAll(store, Named(w1.saves)), Named(w2.saves));
      && w2.mem.colour.colorIntensity == 0
      && Reload(s, hasEndpoint, reply, failAt).mem.colour.colorIntensity == m.colour.colorIntensity
  {
    var w1 := SetColorBlindModesAsWritten(m, [mode]);
    var w2 := SetColorBlindModesAsWritten(w1.mem, []);
    var k := m.colour.colorIntensity;
    var stale1 := w1.mem.(colour := w1.mem.colour.(colorIntensity := k));
    var stale2 := w2.mem.(colour := w2.mem.colour.(colorIntensity := k));
    var s1 := WriteAll(store, Named(w1.saves));
    var s2 := WriteAll(s1, Named(w2.saves));
    ColorBlindAsWrittenStored(m, store, [mode]);
    ColorBlindOffAsWrittenStored(stale1, s1, w1.mem);
    ReloadColour(stale2, s2, hasEndpoint, reply, failAt);
  }

  /** `resetAll()` goes through `setColorBlindModes([])` as written too: after
      a filter was picked while an intensity was on, resetting everything
      leaves no intensity in memory, yet the next page load brings the old
      one back. */
  lemma ReloadAfterResetAll(m: Settings, store: Store, mode: string, hasEndpoint: bool, reply: LoadReply, failAt: Option<nat>)
    requires !LoadAccepted(hasEndpoint, reply)
    requires Persisted(m, store) && m.colour.colorIntensity > 0
    ensures var w := SetColorBlindModesAsWritten(m, [mode]);
      var e := ResetAll(w.mem);
      var s := WriteAll(WriteAll(store, Named(w.saves)), Named(e.saves));
      && e.mem.colour.colorIntensity == 0
      && Reload(s, hasEndpoint, reply, failAt).mem.colour.colorIntensity == m.colour.colorIntensity
  {
    var w := SetColorBlindModesAsWritten(m, [mode]);
    var e := ResetAll(w.mem);
    var k := m.colour.colorIntensity;
    var stale1 := w.mem.(colour := w.mem.colour.(colorIntensity := k));
    var stale2 := e.mem.(colour := e.mem.colour.(colorIntensity := k));
    var s1 := WriteAll(store, Named(w.saves));
    var s2 := WriteAll(s1, Named(e.saves));
    ColorBlindAsWrittenStored(m, store, [mode]);
    ResetAllAgrees(w.mem);
    ResetAllSavesNoIntensity(w.mem);
    ResetAllLeavesStoredIntensity(w.mem, s1);
    AgreeWithStaleIntensity(w.mem, e, k);
    PersistStep(stale1, s1, Effect(stale2, e.saves));
    ResetAllClearsModes(w.mem);
    ModesCleared(s1, e.saves);
    ReloadColour(stale2, s2, hasEndpoint, reply, failAt);
  }

  /** The store after `setColorBlindModes(modes)` as written describes the
      new settings with the old intensity. */
  lemma ColorBlindAsWrittenStored(m: Settings, store: Store, modes: seq<string>)
    requires Persisted(m, store)
    ensures var w := SetColorBlindModesAsWritten(m, modes);
      var stale := w.mem.(colour := w.mem.colour.(colorIntensity := m.colour.colorIntensity));
      Persisted(stale, WriteAll(store, Named(w.saves)))
  {
    var w := SetColorBlindModesAsWritten(m, modes);
    var stale := w.mem.(colour := w.mem.colour.(colorIntensity := m.colour.colorIntensity));
    AgreeByFinalValues(m, Effect(stale, w.saves));
    PersistStep(m, store, Effect(stale, w.saves));
  }

  /** Switching the filters off as written then leaves that intensity in the
      store, with the filter list cleared. */
  lemma ColorBlindOffAsWrittenStored(stale: Settings, store: Store, mem: Settings)
    requires Persisted(stale, store) && stale == mem.(colour := mem.colour.(colorIntensity := stale.colour.colorIntensity))
    ensures var w := SetColorBlindModesAsWritten(mem, []);
      var stale2 := w.mem.(colour := w.mem.colour.(colorIntensity := stale.colour.colorIntensity));
      var s := WriteAll(store, Named(w.saves));
      && w.mem.colour.colorIntensity == 0
      && Persisted(stale2, s) && ModesStored(stale2, s) && stale2.colour.colorBlindMode == "none"
  {
    var w := SetColorBlindModesAsWritten(mem, []);
    var stale2 := w.mem.(colour := w.mem.colour.(colorIntensity := stale.colour.colorIntensity));
    AgreeByFinalValues(stale, Effect(stale2, w.saves));
    PersistStep(stale, store, Effect(stale2, w.saves));
    assert LastWrite(w.saves, ColorBlindModes) == Some(ModesValue([])) by {
      LastWriteSplit(w.saves, 1, ColorBlindModes);
    }
    ModesCleared(store, w.saves);
  }
}

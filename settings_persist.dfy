/** What the saved preferences say about the setting variables: when every
    setting is stored as its current value, a transition keeps it that way
    exactly when its saves record every variable it changes. The corrected
    transitions do; three of the source's transitions change a variable in
    memory without saving it. */
module SettingsPersist {
  import opened Js
  import opened Preferences
  import opened SettingsState

  /** The value the variables give a preference, for the preferences that
      mirror a variable. The legacy inverted-colours flag mirrors nothing
      and must read as false. */
  function Setting(m: Settings, p: Pref): Option<Value>
  {
    match p
    case FontSize => Some(Num(m.text.fontSize))
    case FontMode => Some(Num(m.text.fontMode))
    case ReadableFonts => Some(Bool(m.text.readableFonts))
    case LineSpacing => Some(Num(m.text.lineSpacing))
    case LetterSpacing => Some(Num(m.text.letterSpacing))
    case HighlightedLetters => Some(Num(m.text.highlightedLetters))
    case HighContrast => Some(Bool(m.colour.highContrast))
    case ColorIntensityMode => Some(Num(m.colour.colorIntensity))
    case ColorBlind => Some(Str(m.colour.colorBlindMode))
    case LegacyInvertedColors => Some(Bool(false))
    case ReadingMaskMode => Some(Num(m.masks.readingMaskMode))
    case HorizontalMaskLevel => Some(Num(m.masks.horizontal))
    case VerticalMaskLevel => Some(Num(m.masks.vertical))
    case FlagKey(f) => Some(Bool(f in m.flags))
    case ColorBlindModes => None
    case Magnifier => None
    case MagnifierEnabled => None
  }

  /** After `saves`, preference `p` reads as `after` in a store where it read
      as `before`: the last save of it wrote `after`, or there was none and
      the value did not change. */
  predicate Tracks(saves: Saves, p: Pref, before: Value, after: Value)
  {
    match LastWrite(saves, p)
    case None => after == before
    case Some(v) => v == after
  }

  /** The saves of `e` record every variable it changes from `m`, and never
      set the legacy inverted-colours flag. */
  ghost predicate SavesAgree(m: Settings, e: Effect)
  {
    forall p | Setting(m, p).Some? :: Tracks(e.saves, p, Setting(m, p).value, Setting(e.mem, p).value)
  }

  /** Every setting variable is stored as its current value, read with the
      default `loadFromLocalStorage` uses, which is the variable's declared
      initial value; the legacy inverted-colours flag reads as false. */
  ghost predicate Persisted(m: Settings, store: Store)
  {
    forall p | Setting(m, p).Some? ::
      GetFromLocalStorage(store, Name(p), Setting(Defaults, p).value) == Setting(m, p).value
  }

  /** A fresh browser, with nothing stored, agrees with the initial values,
      and the legacy flag reads as unset. */
  lemma EmptyStorePersisted()
    ensures Persisted(Defaults, map[])
    ensures !InvertedColors(map[])
  {
  }

  /** A persisted state never has the legacy inverted-colours flag set. */
  lemma PersistedNotInverted(m: Settings, store: Store)
    requires Persisted(m, store)
    ensures !InvertedColors(store)
  {
    assert Setting(m, LegacyInvertedColors).Some?;
  }

  /** After a sequence of saves, a preference reads as the last value saved
      for it, or as before when none was. */
  lemma StoredAfterNamed(store: Store, es: Saves, p: Pref, default: Value)
    ensures GetFromLocalStorage(WriteAll(store, Named(es)), Name(p), default)
         == match LastWrite(es, p)
            case Some(v) => v
            case None => GetFromLocalStorage(store, Name(p), default)
  {
    StoredAfter(store, Named(es), Name(p), default);
    LastWriteNamed(es, p);
  }

  /** A transition whose saves record its changes keeps the store in step
      with the variables. */
  lemma PersistStep(m: Settings, store: Store, e: Effect)
    requires Persisted(m, store) && SavesAgree(m, e)
    ensures Persisted(e.mem, WriteAll(store, Named(e.saves)))
  {
    forall p | Setting(e.mem, p).Some?
      ensures GetFromLocalStorage(WriteAll(store, Named(e.saves)), Name(p), Setting(Defaults, p).value)
           == Setting(e.mem, p).value
    {
      assert Setting(m, p).Some?;
      PersistOne(store, e.saves, p, Setting(Defaults, p).value, Setting(m, p).value, Setting(e.mem, p).value);
    }
  }

  /** One preference of `PersistStep`: stored as its old value and tracked
      by the saves, it is stored as its new value after them. */
  lemma PersistOne(store: Store, es: Saves, p: Pref, default: Value, before: Value, after: Value)
    requires GetFromLocalStorage(store, Name(p), default) == before
    requires Tracks(es, p, before, after)
    ensures GetFromLocalStorage(WriteAll(store, Named(es)), Name(p), default) == after
  {
    StoredAfterNamed(store, es, p, default);
  }

  /** Agreement composes: two transitions that each record their changes
      record, together, every change of the pair. */
  lemma ThenAgrees(m: Settings, e1: Effect, e2: Effect)
    requires SavesAgree(m, e1) && SavesAgree(e1.mem, e2)
    ensures SavesAgree(m, Then(e1, e2))
  {
    forall p | Setting(m, p).Some?
      ensures Tracks(e1.saves + e2.saves, p, Setting(m, p).value, Setting(e2.mem, p).value)
    {
      assert Setting(e1.mem, p).Some?;
      LastWriteAppend(e1.saves, e2.saves, p);
    }
  }

  // ---------------------------------------------------------------------
  // The corrected transitions record every change they make

  /** The last save of `p` comes from the part after `k` when that part saves
      `p` at all, and from the part before otherwise. */
  lemma LastWriteSplit(es: Saves, k: nat, p: Pref)
    requires k <= |es|
    ensures LastWrite(es, p)
         == if LastWrite(es[k..], p).Some? then LastWrite(es[k..], p) else LastWrite(es[..k], p)
  {
    assert es == es[..k] + es[k..];
    LastWriteAppend(es[..k], es[k..], p);
  }

  /** Every save writes the value its setting ends with. */
  ghost predicate SavesFinal(es: Saves, m1: Settings)
  {
    forall i | 0 <= i < |es| :: Setting(m1, es[i].0).Some? ==> Setting(m1, es[i].0) == Some(es[i].1)
  }

  /** Every setting that changes is saved with its new value. */
  ghost predicate ChangesSaved(m0: Settings, m1: Settings, es: Saves)
  {
    forall p | Setting(m0, p).Some? && Setting(m0, p) != Setting(m1, p) :: (p, Setting(m1, p).value) in es
  }

  /** Saves that only write final values and cover every change record the
      transition, whatever their order and repetitions. */
  lemma AgreeByFinalValues(m: Settings, e: Effect)
    requires SavesFinal(e.saves, e.mem) && ChangesSaved(m, e.mem, e.saves)
    ensures SavesAgree(m, e)
  {
    forall p | Setting(m, p).Some?
      ensures Tracks(e.saves, p, Setting(m, p).value, Setting(e.mem, p).value)
    {
      var r := LastWrite(e.saves, p);
      if r.Some? {
        var i :| 0 <= i < |e.saves| && e.saves[i] == (p, r.value);
      }
    }
  }

  // Each transition of the menu, with the corrections, records every change
  // it makes.

  lemma FontSizeAgrees(m: Settings, size: int)
    ensures SavesAgree(m, SetFontSize(m, size))
    ensures SavesAgree(m, IncreaseFontSize(m))
    ensures SavesAgree(m, DecreaseFontSize(m))
  {
    AgreeByFinalValues(m, SetFontSize(m, size));
    AgreeByFinalValues(m, IncreaseFontSize(m));
    AgreeByFinalValues(m, DecreaseFontSize(m));
  }

  lemma ToggleHighContrastAgrees(m: Settings)
    ensures SavesAgree(m, ToggleHighContrast(m))
  {
    AgreeByFinalValues(m, ToggleHighContrast(m));
  }

  lemma ToggleColorIntensityAgrees(m: Settings)
    ensures SavesAgree(m, ToggleColorIntensity(m))
  {
    AgreeByFinalValues(m, ToggleColorIntensity(m));
  }

  lemma ResetContrastAgrees(m: Settings)
    ensures SavesAgree(m, ResetContrast(m))
  {
    AgreeByFinalValues(m, ResetContrast(m));
  }

  lemma SetColorBlindModesAgrees(m: Settings, modes: seq<string>)
    ensures SavesAgree(m, SetColorBlindModes(m, modes))
  {
    AgreeByFinalValues(m, SetColorBlindModes(m, modes));
  }

  lemma SetColorBlindModeAgrees(m: Settings, mode: string)
    ensures SavesAgree(m, SetColorBlindMode(m, mode))
  {
    AgreeByFinalValues(m, SetColorBlindMode(m, mode));
  }

  lemma ToggleReadableFontsAgrees(m: Settings)
    ensures SavesAgree(m, ToggleReadableFonts(m))
  {
    AgreeByFinalValues(m, ToggleReadableFonts(m));
  }

  lemma SpacingAgrees(m: Settings)
    ensures SavesAgree(m, ToggleLineSpacing(m))
    ensures SavesAgree(m, ToggleLetterSpacing(m))
  {
    AgreeByFinalValues(m, ToggleLineSpacing(m));
    AgreeByFinalValues(m, ToggleLetterSpacing(m));
  }

  lemma ToggleHighlightedLettersAgrees(m: Settings)
    ensures SavesAgree(m, ToggleHighlightedLetters(m))
  {
    AgreeByFinalValues(m, ToggleHighlightedLetters(m));
  }

  lemma FlagAgrees(m: Settings, f: Flag)
    ensures SavesAgree(m, ToggleFlag(m, f))
    ensures SavesAgree(m, ClearFlag(m, f))
  {
    AgreeByFinalValues(m, ToggleFlag(m, f));
    AgreeByFinalValues(m, ClearFlag(m, f));
  }

  lemma ToggleHorizontalMaskAgrees(m: Settings)
    ensures SavesAgree(m, ToggleHorizontalMask(m))
  {
    AgreeByFinalValues(m, ToggleHorizontalMask(m));
  }

  lemma ToggleVerticalMaskAgrees(m: Settings)
    ensures SavesAgree(m, ToggleVerticalMask(m))
  {
    AgreeByFinalValues(m, ToggleVerticalMask(m));
  }

  lemma ResetReadingMaskAndCursorAgrees(m: Settings)
    ensures SavesAgree(m, ResetReadingMaskAndCursor(m))
  {
    AgreeByFinalValues(m, ResetReadingMaskAndCursor(m));
  }

  // The stages of `resetAll()` that are not menu transitions of their own.

  lemma SwitchOffMagnifierAgrees(m: Settings)
    ensures SavesAgree(m, SwitchOffMagnifier(m))
  {
    AgreeByFinalValues(m, SwitchOffMagnifier(m));
  }

  lemma ZeroMaskLevelsAgrees(m: Settings)
    requires CustomCursor !in m.flags
    ensures SavesAgree(m, ZeroMaskLevels(m))
  {
    AgreeByFinalValues(m, ZeroMaskLevels(m));
  }

  lemma ResetFontsAndSpacingAgrees(m: Settings)
    ensures SavesAgree(m, ResetFontsAndSpacing(m))
  {
    AgreeByFinalValues(m, ResetFontsAndSpacing(m));
  }

  lemma ResetHighlightedLettersAgrees(m: Settings)
    ensures SavesAgree(m, ResetHighlightedLetters(m))
  {
    AgreeByFinalValues(m, ResetHighlightedLetters(m));
  }

  lemma ClearColorBlindModeAgrees(m: Settings)
    ensures SavesAgree(m, ClearColorBlindMode(m))
  {
    AgreeByFinalValues(m, ClearColorBlindMode(m));
  }

  /** The first part of `resetAll()` records every change it makes. */
  lemma ResetLayoutAgrees(m: Settings)
    ensures SavesAgree(m, ResetLayout(m))
  {
    var e1 := SetFontSize(m, 100);
    FontSizeAgrees(m, 100);
    var e2 := Then(e1, ResetContrast(e1.mem));
    ResetContrastAgrees(e1.mem);
    ThenAgrees(m, e1, ResetContrast(e1.mem));
    var e3 := Then(e2, ClearFlag(e2.mem, HideImages));
    FlagAgrees(e2.mem, HideImages);
    ThenAgrees(m, e2, ClearFlag(e2.mem, HideImages));
    var e4 := Then(e3, SwitchOffMagnifier(e3.mem));
    SwitchOffMagnifierAgrees(e3.mem);
    ThenAgrees(m, e3, SwitchOffMagnifier(e3.mem));
    var e5 := Then(e4, ResetReadingMaskAndCursor(e4.mem));
    ResetReadingMaskAndCursorAgrees(e4.mem);
    ThenAgrees(m, e4, ResetReadingMaskAndCursor(e4.mem));
    var e6 := Then(e5, ZeroMaskLevels(e5.mem));
    ZeroMaskLevelsAgrees(e5.mem);
    ThenAgrees(m, e5, ZeroMaskLevels(e5.mem));
    ResetFontsAndSpacingAgrees(e6.mem);
    ThenAgrees(m, e6, ResetFontsAndSpacing(e6.mem));
  }

  /** The second part of `resetAll()` records every change it makes, when it
      starts where the first part leaves off from an intensity that is not
      negative: the forced assignments then change nothing, and the filter
      reset as written has no intensity to drop. */
  lemma ResetAidsAgrees(m: Settings)
    requires m.text.fontMode == 0 && !m.text.readableFonts && m.text.lineSpacing == 0 && m.text.letterSpacing == 0
    requires !m.colour.highContrast && m.colour.colorIntensity == 0 && m.masks == Masks(0, 0, 0)
    requires HideImages !in m.flags && CustomCursor !in m.flags
    ensures SavesAgree(m, ResetAids(m))
  {
    var e1 := ClearFlag(m, TextToSpeech);
    FlagAgrees(m, TextToSpeech);
    var e2 := Then(e1, ClearFlag(e1.mem, ReadingHelper));
    FlagAgrees(e1.mem, ReadingHelper);
    ThenAgrees(m, e1, ClearFlag(e1.mem, ReadingHelper));
    var e3 := Then(e2, ClearFlag(e2.mem, EmphasizeLinks));
    FlagAgrees(e2.mem, EmphasizeLinks);
    ThenAgrees(m, e2, ClearFlag(e2.mem, EmphasizeLinks));
    var e4 := Then(e3, ClearFlag(e3.mem, HeaderHighlight));
    FlagAgrees(e3.mem, HeaderHighlight);
    ThenAgrees(m, e3, ClearFlag(e3.mem, HeaderHighlight));
    var e5 := Then(e4, ResetHighlightedLetters(e4.mem));
    ResetHighlightedLettersAgrees(e4.mem);
    ThenAgrees(m, e4, ResetHighlightedLetters(e4.mem));
    var e6 := Then(e5, SetColorBlindModesAsWritten(e5.mem, []));
    SetColorBlindModesAsWrittenAgrees(e5.mem, []);
    ThenAgrees(m, e5, SetColorBlindModesAsWritten(e5.mem, []));
    var e7 := Then(e6, ClearColorBlindMode(e6.mem));
    ClearColorBlindModeAgrees(e6.mem);
    ThenAgrees(m, e6, ClearColorBlindMode(e6.mem));
    var e8 := Then(e7, ForceInitialValues(e7.mem));
    assert ForceInitialValues(e7.mem).mem == e7.mem;
    ThenAgrees(m, e7, ForceInitialValues(e7.mem));
    var e9 := Then(e8, ClearFlag(e8.mem, ReduceAnimations));
    FlagAgrees(e8.mem, ReduceAnimations);
    ThenAgrees(m, e8, ClearFlag(e8.mem, ReduceAnimations));
    FlagAgrees(e9.mem, ImageInterpreter);
    ThenAgrees(m, e9, ClearFlag(e9.mem, ImageInterpreter));
  }

  /** The saves of the second part of `resetAll()`, the same whatever the
      settings. */
  const AidsSaves: Saves := [
    (FlagKey(TextToSpeech), Bool(false)), (FlagKey(ReadingHelper), Bool(false)),
    (FlagKey(EmphasizeLinks), Bool(false)), (FlagKey(HeaderHighlight), Bool(false)),
    (HighlightedLetters, Num(0)), (ColorBlindModes, ModesValue([])), (ColorBlind, Str("none")),
    (ColorBlind, Str("none")), (MagnifierEnabled, Bool(false)), (Magnifier, Bool(false)),
    (FlagKey(ReduceAnimations), Bool(false)), (FlagKey(ImageInterpreter), Bool(false))]

  lemma ResetAidsSaves(m: Settings)
    ensures ResetAids(m).saves == AidsSaves
  {
  }

  /** The last colour-blind list `resetAll()` saves is the empty one. */
  lemma ResetAllClearsModes(m: Settings)
    ensures LastWrite(ResetAll(m).saves, ColorBlindModes) == Some(ModesValue([]))
  {
    var l := ResetLayout(m);
    ResetAidsSaves(l.mem);
    assert ResetAll(m).saves == l.saves + AidsSaves;
    AidsSavesClearModes();
    LastWriteAppend(l.saves, AidsSaves, ColorBlindModes);
  }

  lemma AidsSavesClearModes()
    ensures LastWrite(AidsSaves, ColorBlindModes) == Some(ModesValue([]))
  {
    LastWriteSplit(AidsSaves, 6, ColorBlindModes);
    assert !HasKey(AidsSaves[6..], ColorBlindModes);
  }

  /** The contrast reset saves an intensity only when one is on. */
  lemma ResetContrastSavesNoIntensity(m: Settings)
    requires m.colour.colorIntensity <= 0
    ensures !HasKey(ResetContrast(m).saves, ColorIntensityMode)
  {
    var c := m.colour;
    var a: Saves := if c.highContrast then [(HighContrast, Bool(false))] else [];
    var b: Saves := if c.colorBlindMode != "none" then [(ColorBlind, Str("none"))] else [];
    assert ResetContrast(m).saves == a + b + [(HighContrast, Bool(false)), (LegacyInvertedColors, Bool(false))];
  }

  /** The saves of the first part of `resetAll()` after the contrast reset,
      the same whatever the settings. */
  const LayoutSaves: Saves := [
    (FlagKey(HideImages), Bool(false)), (MagnifierEnabled, Bool(false)), (Magnifier, Bool(false)),
    (ReadingMaskMode, Num(0)), (HorizontalMaskLevel, Num(0)), (VerticalMaskLevel, Num(0)),
    (FlagKey(CustomCursor), Bool(false)), (HorizontalMaskLevel, Num(0)), (VerticalMaskLevel, Num(0)),
    (FlagKey(CustomCursor), Bool(false)), (ReadableFonts, Bool(false)), (FontMode, Num(0)),
    (LineSpacing, Num(0)), (LetterSpacing, Num(0))]

  lemma ResetLayoutSaves(m: Settings)
    ensures var e1 := SetFontSize(m, 100);
      ResetLayout(m).saves == e1.saves + ResetContrast(e1.mem).saves + LayoutSaves
  {
  }

  /** From settings with no intensity on, `resetAll()` saves no intensity:
      its only intensity save is the contrast reset's, and the filter reset
      as written saves none. */
  lemma ResetAllSavesNoIntensity(m: Settings)
    requires m.colour.colorIntensity <= 0
    ensures !HasKey(ResetAll(m).saves, ColorIntensityMode)
  {
    var e1 := SetFontSize(m, 100);
    var c := ResetContrast(e1.mem);
    ResetContrastSavesNoIntensity(e1.mem);
    var l := ResetLayout(m);
    ResetLayoutSaves(m);
    ResetAidsSaves(l.mem);
    assert !HasKey(LayoutSaves, ColorIntensityMode);
    assert !HasKey(AidsSaves, ColorIntensityMode);
    LastWriteAppend(e1.saves, c.saves, ColorIntensityMode);
    LastWriteAppend(e1.saves + c.saves, LayoutSaves, ColorIntensityMode);
    LastWriteAppend(l.saves, AidsSaves, ColorIntensityMode);
  }

  /** `resetAll()` records every change it makes exactly when the intensity
      is not negative: a negative one is zeroed in memory by the filter
      reset as written and never saved. */
  lemma ResetAllAgrees(m: Settings)
    ensures SavesAgree(m, ResetAll(m)) <==> m.colour.colorIntensity >= 0
  {
    var l := ResetLayout(m);
    if m.colour.colorIntensity >= 0 {
      ResetLayoutAgrees(m);
      ResetAidsAgrees(l.mem);
      ThenAgrees(m, l, ResetAids(l.mem));
    } else {
      ResetAllSavesNoIntensity(m);
      var r := ResetAll(m);
      assert r.mem.colour.colorIntensity == 0;
      assert Setting(m, ColorIntensityMode).Some?;
      assert !Tracks(r.saves, ColorIntensityMode, Setting(m, ColorIntensityMode).value,
                     Setting(r.mem, ColorIntensityMode).value);
    }
  }

  /** `resetAll()` does not repair a stored intensity that memory no longer
      has: with no intensity on, the stored one survives the reset. */
  lemma ResetAllLeavesStoredIntensity(m: Settings, store: Store)
    requires m.colour.colorIntensity <= 0
    ensures ResetAll(m).mem.colour.colorIntensity == 0
    ensures GetFromLocalStorage(WriteAll(store, Named(ResetAll(m).saves)), Name(ColorIntensityMode), Num(0))
         == GetFromLocalStorage(store, Name(ColorIntensityMode), Num(0))
  {
    ResetAllSavesNoIntensity(m);
    StoredAfterNamed(store, ResetAll(m).saves, ColorIntensityMode, Num(0));
  }

  /** Agreement does not depend on the intensity when no save writes it:
      the same saves keep a store with any intensity in step. */
  lemma AgreeWithStaleIntensity(m: Settings, e: Effect, k: int)
    requires SavesAgree(m, e) && !HasKey(e.saves, ColorIntensityMode)
    ensures SavesAgree(m.(colour := m.colour.(colorIntensity := k)),
                       Effect(e.mem.(colour := e.mem.colour.(colorIntensity := k)), e.saves))
  {
    var m' := m.(colour := m.colour.(colorIntensity := k));
    var e' := Effect(e.mem.(colour := e.mem.colour.(colorIntensity := k)), e.saves);
    forall p | Setting(m', p).Some?
      ensures Tracks(e'.saves, p, Setting(m', p).value, Setting(e'.mem, p).value)
    {
      if p != ColorIntensityMode {
        assert Setting(m', p) == Setting(m, p) && Setting(e'.mem, p) == Setting(e.mem, p);
      }
    }
  }

  // ---------------------------------------------------------------------
  // The transitions as written: each records its changes exactly when it
  // does not switch off a second feature in memory.

  /** `toggleColorIntensity()` as written loses the contrast switch-off:
      its saves record its changes exactly when contrast was off or the new
      intensity is 0. */
  lemma ToggleColorIntensityAsWrittenAgrees(m: Settings)
    ensures var w := ToggleColorIntensityAsWritten(m);
      SavesAgree(m, w) <==> !(m.colour.highContrast && w.mem.colour.colorIntensity > 0)
  {
    var w := ToggleColorIntensityAsWritten(m);
    if m.colour.highContrast && w.mem.colour.colorIntensity > 0 {
      assert !HasKey(w.saves, HighContrast);
      assert !Tracks(w.saves, HighContrast, Setting(m, HighContrast).value, Setting(w.mem, HighContrast).value);
    } else {
      ToggleColorIntensityAgrees(m);
      assert ToggleColorIntensity(m) == w;
    }
  }

  /** `setColorBlindModes()` as written loses the intensity switch-off:
      its saves record its changes exactly when the intensity was 0. */
  lemma SetColorBlindModesAsWrittenAgrees(m: Settings, modes: seq<string>)
    ensures SavesAgree(m, SetColorBlindModesAsWritten(m, modes)) <==> m.colour.colorIntensity == 0
  {
    var w := SetColorBlindModesAsWritten(m, modes);
    if m.colour.colorIntensity != 0 {
      assert !HasKey(w.saves, ColorIntensityMode);
      assert !Tracks(w.saves, ColorIntensityMode, Setting(m, ColorIntensityMode).value, Setting(w.mem, ColorIntensityMode).value);
    } else {
      AgreeByFinalValues(m, w);
    }
  }

  /** `toggleHorizontalMask()` as written loses the vertical switch-off:
      its saves record its changes exactly when no vertical mask was on. */
  lemma ToggleHorizontalMaskAsWrittenAgrees(m: Settings)
    ensures SavesAgree(m, ToggleHorizontalMaskAsWritten(m)) <==> m.masks.vertical <= 0
  {
    var w := ToggleHorizontalMaskAsWritten(m);
    if m.masks.vertical > 0 {
      assert !HasKey(w.saves, VerticalMaskLevel);
      assert !Tracks(w.saves, VerticalMaskLevel, Setting(m, VerticalMaskLevel).value, Setting(w.mem, VerticalMaskLevel).value);
    } else {
      ToggleHorizontalMaskAgrees(m);
      assert ToggleHorizontalMask(m) == w;
    }
  }

  /** `toggleVerticalMask()` as written loses the horizontal switch-off:
      its saves record its changes exactly when no horizontal mask was on. */
  lemma ToggleVerticalMaskAsWrittenAgrees(m: Settings)
    ensures SavesAgree(m, ToggleVerticalMaskAsWritten(m)) <==> m.masks.horizontal <= 0
  {
    var w := ToggleVerticalMaskAsWritten(m);
    if m.masks.horizontal > 0 {
      assert !HasKey(w.saves, HorizontalMaskLevel);
      assert !Tracks(w.saves, HorizontalMaskLevel, Setting(m, HorizontalMaskLevel).value, Setting(w.mem, HorizontalMaskLevel).value);
    } else {
      ToggleVerticalMaskAgrees(m);
      assert ToggleVerticalMask(m) == w;
    }
  }

  /** In the store: after `toggleColorIntensity()` as written switches
      contrast off in memory, the store still says contrast is on, next to
      the new intensity. */
  lemma IntensityLeavesContrastStored(m: Settings, store: Store)
    requires Persisted(m, store) && m.colour.highContrast && m.colour.colorIntensity == 0
    ensures var w := ToggleColorIntensityAsWritten(m);
      var s := WriteAll(store, Named(w.saves));
      && !w.mem.colour.highContrast && w.mem.colour.colorIntensity == 1
      && GetFromLocalStorage(s, Name(HighContrast), Bool(false)) == Bool(true)
      && GetFromLocalStorage(s, Name(ColorIntensityMode), Num(0)) == Num(1)
      && !Persisted(w.mem, s)
  {
    var w := ToggleColorIntensityAsWritten(m);
    assert Setting(m, HighContrast).Some?;
    assert !HasKey(w.saves, HighContrast);
    StoredAfterNamed(store, w.saves, HighContrast, Bool(false));
    StoredAfterNamed(store, w.saves, ColorIntensityMode, Num(0));
    assert Setting(w.mem, HighContrast).Some?;
  }

  /** In the store: after `setColorBlindModes()` as written zeroes the
      intensity in memory, the store keeps the old intensity. */
  lemma ColorBlindLeavesIntensityStored(m: Settings, store: Store, modes: seq<string>)
    requires Persisted(m, store) && m.colour.colorIntensity > 0
    ensures var w := SetColorBlindModesAsWritten(m, modes);
      var s := WriteAll(store, Named(w.saves));
      && w.mem.colour.colorIntensity == 0
      && GetFromLocalStorage(s, Name(ColorIntensityMode), Num(0)) == Num(m.colour.colorIntensity)
      && !Persisted(w.mem, s)
  {
    var w := SetColorBlindModesAsWritten(m, modes);
    assert Setting(m, ColorIntensityMode).Some?;
    assert !HasKey(w.saves, ColorIntensityMode);
    StoredAfterNamed(store, w.saves, ColorIntensityMode, Num(0));
    assert Setting(w.mem, ColorIntensityMode).Some?;
  }

  /** `toggleHorizontalMask()` as written, with the vertical mask on, saves
      the horizontal level 1 and the mode 1. */
  lemma HorizontalAsWrittenSaves(m: Settings, store: Store)
    requires MaskConsistent(m.masks) && m.masks.vertical > 0
    ensures var s := WriteAll(store, Named(ToggleHorizontalMaskAsWritten(m).saves));
      && GetFromLocalStorage(s, Name(HorizontalMaskLevel), Num(0)) == Num(1)
      && GetFromLocalStorage(s, Name(ReadingMaskMode), Num(0)) == Num(1)
  {
    var es: Saves := [(HorizontalMaskLevel, Num(1)), (ReadingMaskMode, Num(1))];
    assert ToggleHorizontalMaskAsWritten(m).saves == es;
    StoredAfterNamed(store, es, HorizontalMaskLevel, Num(0));
    LastWriteSplit(es, 1, ReadingMaskMode);
    StoredAfterNamed(store, es, ReadingMaskMode, Num(0));
  }

  /** ... and leaves the stored vertical level as it was. */
  lemma HorizontalAsWrittenKeepsVertical(m: Settings, store: Store)
    requires Persisted(m, store) && MaskConsistent(m.masks) && m.masks.vertical > 0
    ensures var s := WriteAll(store, Named(ToggleHorizontalMaskAsWritten(m).saves));
      GetFromLocalStorage(s, Name(VerticalMaskLevel), Num(0)) == Num(m.masks.vertical)
  {
    var es: Saves := [(HorizontalMaskLevel, Num(1)), (ReadingMaskMode, Num(1))];
    assert ToggleHorizontalMaskAsWritten(m).saves == es;
    assert Setting(m, VerticalMaskLevel).Some?;
    assert !HasKey(es, VerticalMaskLevel);
    StoredAfterNamed(store, es, VerticalMaskLevel, Num(0));
  }

  /** In the store: after `toggleHorizontalMask()` as written switches the
      vertical mask off in memory, the store holds both masks on. */
  lemma HorizontalLeavesVerticalStored(m: Settings, store: Store)
    requires Persisted(m, store) && MaskConsistent(m.masks) && m.masks.vertical > 0
    ensures var w := ToggleHorizontalMaskAsWritten(m);
      var s := WriteAll(store, Named(w.saves));
      && w.mem.masks == Masks(1, 1, 0)
      && GetFromLocalStorage(s, Name(HorizontalMaskLevel), Num(0)) == Num(1)
      && GetFromLocalStorage(s, Name(VerticalMaskLevel), Num(0)) == Num(m.masks.vertical)
      && GetFromLocalStorage(s, Name(ReadingMaskMode), Num(0)) == Num(1)
      && !Persisted(w.mem, s)
  {
    HorizontalAsWrittenSaves(m, store);
    HorizontalAsWrittenKeepsVertical(m, store);
    var w := ToggleHorizontalMaskAsWritten(m);
    assert Setting(w.mem, VerticalMaskLevel).Some?;
  }

  /** `toggleVerticalMask()` as written, with the horizontal mask on, saves
      the vertical level 1. */
  lemma VerticalAsWrittenSaves(m: Settings, store: Store)
    requires MaskConsistent(m.masks) && m.masks.horizontal > 0
    ensures var s := WriteAll(store, Named(ToggleVerticalMaskAsWritten(m).saves));
      GetFromLocalStorage(s, Name(VerticalMaskLevel), Num(0)) == Num(1)
  {
    var es: Saves := [(VerticalMaskLevel, Num(1)), (ReadingMaskMode, Num(2))];
    assert ToggleVerticalMaskAsWritten(m).saves == es;
    LastWriteSplit(es, 1, VerticalMaskLevel);
    StoredAfterNamed(store, es, VerticalMaskLevel, Num(0));
  }

  /** ... and leaves the stored horizontal level as it was. */
  lemma VerticalAsWrittenKeepsHorizontal(m: Settings, store: Store)
    requires Persisted(m, store) && MaskConsistent(m.masks) && m.masks.horizontal > 0
    ensures var s := WriteAll(store, Named(ToggleVerticalMaskAsWritten(m).saves));
      GetFromLocalStorage(s, Name(HorizontalMaskLevel), Num(0)) == Num(m.masks.horizontal)
  {
    var es: Saves := [(VerticalMaskLevel, Num(1)), (ReadingMaskMode, Num(2))];
    assert ToggleVerticalMaskAsWritten(m).saves == es;
    assert Setting(m, HorizontalMaskLevel).Some?;
    assert !HasKey(es, HorizontalMaskLevel);
    StoredAfterNamed(store, es, HorizontalMaskLevel, Num(0));
  }

  /** In the store: after `toggleVerticalMask()` as written switches the
      horizontal mask off in memory, the store keeps the horizontal level. */
  lemma VerticalLeavesHorizontalStored(m: Settings, store: Store)
    requires Persisted(m, store) && MaskConsistent(m.masks) && m.masks.horizontal > 0
    ensures var w := ToggleVerticalMaskAsWritten(m);
      var s := WriteAll(store, Named(w.saves));
      && w.mem.masks == Masks(2, 0, 1)
      && GetFromLocalStorage(s, Name(HorizontalMaskLevel), Num(0)) == Num(m.masks.horizontal)
      && GetFromLocalStorage(s, Name(VerticalMaskLevel), Num(0)) == Num(1)
      && !Persisted(w.mem, s)
  {
    VerticalAsWrittenSaves(m, store);
    VerticalAsWrittenKeepsHorizontal(m, store);
    var w := ToggleVerticalMaskAsWritten(m);
    assert Setting(w.mem, HorizontalMaskLevel).Some?;
  }
}

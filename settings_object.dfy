/** The settings variables of the overlay as an object whose methods update
    them in place, in the order of the source, and save through
    `saveUserPreference` (a local write while automatic sync is off). Each
    method is proved to make the transition of module SettingsState (`Did`),
    and the lemmas below prove that each of those transitions keeps the
    reload invariant `Kept`: valid settings, every one of them stored, and a
    stored colour-blind list that agrees with the current mode. With
    `SettingsLoad.ReloadRestores` this is the guarantee that a page reload
    brings the settings back. */
module Overlay {
  import opened Js
  import opened Preferences
  import S = SettingsState
  import opened SettingsPersist
  import opened SettingsLoad
  import opened MenuSpeech
  import SettingsProps

  /** Saves issued one after another are written as one sequence. */
  lemma Committed(base: Store, done: S.Saves, es: S.Saves)
    ensures WriteAll(WriteAll(base, S.Named(done)), S.Named(es)) == WriteAll(base, S.Named(done + es))
  {
    assert S.Named(done + es) == S.Named(done) + S.Named(es);
    WriteAllAppend(base, S.Named(done), S.Named(es));
  }

  /** The list of modes the colour-blind panel passes in. */
  predicate PanelModes(modes: seq<string>)
  {
    forall i | 0 <= i < |modes| :: modes[i] in S.AllowedModes
  }

  /** The reload invariant: valid settings, each stored as its value, and a
      stored colour-blind list that agrees with the current mode. */
  ghost predicate Kept(m: S.Settings, store: Store)
  {
    S.Valid(m) && Persisted(m, store) && ModesStored(m, store)
  }

  /** The store after a transition's saves. */
  function Saved(store: Store, e: S.Effect): Store
  {
    WriteAll(store, S.Named(e.saves))
  }

  /** A transition that keeps the settings valid, saves every change, and
      neither writes the colour-blind list nor changes the mode keeps the
      invariant. */
  lemma KeptWithoutModes(m: S.Settings, store: Store, e: S.Effect)
    requires Kept(m, store) && SavesAgree(m, e) && S.Valid(e.mem)
    requires !HasKey(e.saves, S.ColorBlindModes) && e.mem.colour.colorBlindMode == m.colour.colorBlindMode
    ensures Kept(e.mem, Saved(store, e))
  {
    PersistStep(m, store, e);
    ModesUnwritten(store, e.saves);
  }

  lemma FontSizeKept(m: S.Settings, store: Store)
    requires Kept(m, store)
    ensures Kept(S.IncreaseFontSize(m).mem, Saved(store, S.IncreaseFontSize(m)))
    ensures Kept(S.DecreaseFontSize(m).mem, Saved(store, S.DecreaseFontSize(m)))
  {
    FontSizeAgrees(m, 100);
    SettingsProps.FontSizeSteps(m);
    KeptWithoutModes(m, store, S.IncreaseFontSize(m));
    KeptWithoutModes(m, store, S.DecreaseFontSize(m));
  }

  lemma ToggleHighContrastKept(m: S.Settings, store: Store)
    requires Kept(m, store)
    ensures Kept(S.ToggleHighContrast(m).mem, Saved(store, S.ToggleHighContrast(m)))
  {
    ToggleHighContrastAgrees(m);
    KeptWithoutModes(m, store, S.ToggleHighContrast(m));
  }

  lemma ToggleColorIntensityKept(m: S.Settings, store: Store)
    requires Kept(m, store)
    ensures Kept(S.ToggleColorIntensity(m).mem, Saved(store, S.ToggleColorIntensity(m)))
  {
    var e := S.ToggleColorIntensity(m);
    SettingsProps.IntensityCycle(m);
    SettingsProps.IntensityAndColorBlind(m, []);
    assert S.Valid(e.mem);
    ToggleColorIntensityAgrees(m);
    PersistStep(m, store, e);
    ToggleColorIntensityModes(m, store);
  }

  /** The colour-blind list the intensity toggle leaves in the store agrees
      with the new mode: cleared when an intensity comes on, untouched when
      it goes off. */
  lemma ToggleColorIntensityModes(m: S.Settings, store: Store)
    requires Kept(m, store)
    ensures ModesStored(S.ToggleColorIntensity(m).mem, Saved(store, S.ToggleColorIntensity(m)))
  {
    var e := S.ToggleColorIntensity(m);
    SettingsProps.IntensityCycle(m);
    SettingsProps.IntensityAndColorBlind(m, []);
    if e.mem.colour.colorIntensity > 0 {
      ModesCleared(store, e.saves);
    } else {
      assert LastWrite(e.saves, S.ColorBlindModes).None?;
      ModesUnwritten(store, e.saves);
    }
  }

  lemma SetColorBlindModesKept(m: S.Settings, store: Store, modes: seq<string>)
    requires Kept(m, store) && PanelModes(modes)
    ensures Kept(S.SetColorBlindModes(m, modes).mem, Saved(store, S.SetColorBlindModes(m, modes)))
  {
    var e := S.SetColorBlindModes(m, modes);
    SetColorBlindModesAgrees(m, modes);
    PersistStep(m, store, e);
    SetColorBlindModesStored(m, store, modes);
  }

  /** The list `setColorBlindModes(modes)` stores agrees with the mode it
      sets: cleared for no filter, the list itself otherwise. */
  lemma SetColorBlindModesStored(m: S.Settings, store: Store, modes: seq<string>)
    requires PanelModes(modes)
    ensures ModesStored(S.SetColorBlindModes(m, modes).mem, Saved(store, S.SetColorBlindModes(m, modes)))
  {
    var e := S.SetColorBlindModes(m, modes);
    assert LastWrite(e.saves, S.ColorBlindModes) == Some(S.ModesValue(modes)) by {
      LastWriteSplit(e.saves, 1, S.ColorBlindModes);
    }
    if modes == [] {
      ModesCleared(store, e.saves);
    } else {
      ModesWritten(store, e.saves, modes[0], modes);
    }
  }

  lemma ToggleReadableFontsKept(m: S.Settings, store: Store)
    requires Kept(m, store)
    ensures Kept(S.ToggleReadableFonts(m).mem, Saved(store, S.ToggleReadableFonts(m)))
  {
    ToggleReadableFontsAgrees(m);
    SettingsProps.FontModeCycle(m);
    KeptWithoutModes(m, store, S.ToggleReadableFonts(m));
  }

  lemma SpacingKept(m: S.Settings, store: Store)
    requires Kept(m, store)
    ensures Kept(S.ToggleLineSpacing(m).mem, Saved(store, S.ToggleLineSpacing(m)))
    ensures Kept(S.ToggleLetterSpacing(m).mem, Saved(store, S.ToggleLetterSpacing(m)))
  {
    SpacingAgrees(m);
    KeptWithoutModes(m, store, S.ToggleLineSpacing(m));
    KeptWithoutModes(m, store, S.ToggleLetterSpacing(m));
  }

  lemma ToggleHighlightedLettersKept(m: S.Settings, store: Store)
    requires Kept(m, store)
    ensures Kept(S.ToggleHighlightedLetters(m).mem, Saved(store, S.ToggleHighlightedLetters(m)))
  {
    ToggleHighlightedLettersAgrees(m);
    KeptWithoutModes(m, store, S.ToggleHighlightedLetters(m));
  }

  lemma ToggleFlagKept(m: S.Settings, store: Store, f: S.Flag)
    requires Kept(m, store)
    ensures Kept(S.ToggleFlag(m, f).mem, Saved(store, S.ToggleFlag(m, f)))
  {
    FlagAgrees(m, f);
    KeptWithoutModes(m, store, S.ToggleFlag(m, f));
  }

  lemma ToggleHorizontalMaskKept(m: S.Settings, store: Store)
    requires Kept(m, store)
    ensures Kept(S.ToggleHorizontalMask(m).mem, Saved(store, S.ToggleHorizontalMask(m)))
  {
    ToggleHorizontalMaskAgrees(m);
    SettingsProps.HorizontalMaskToggle(m);
    KeptWithoutModes(m, store, S.ToggleHorizontalMask(m));
  }

  lemma ToggleVerticalMaskKept(m: S.Settings, store: Store)
    requires Kept(m, store)
    ensures Kept(S.ToggleVerticalMask(m).mem, Saved(store, S.ToggleVerticalMask(m)))
  {
    ToggleVerticalMaskAgrees(m);
    SettingsProps.VerticalMaskToggle(m);
    KeptWithoutModes(m, store, S.ToggleVerticalMask(m));
  }

  lemma ResetReadingMaskAndCursorKept(m: S.Settings, store: Store)
    requires Kept(m, store)
    ensures Kept(S.ResetReadingMaskAndCursor(m).mem, Saved(store, S.ResetReadingMaskAndCursor(m)))
  {
    ResetReadingMaskAndCursorAgrees(m);
    KeptWithoutModes(m, store, S.ResetReadingMaskAndCursor(m));
  }

  /** Any transition that ends at the defaults, saves every change and
      clears the colour-blind list last leaves the invariant behind. */
  lemma KeptAtDefaults(m: S.Settings, store: Store, e: S.Effect)
    requires Persisted(m, store) && SavesAgree(m, e) && e.mem == S.Defaults
    requires LastWrite(e.saves, S.ColorBlindModes) == Some(S.ModesValue([]))
    ensures Kept(e.mem, Saved(store, e))
  {
    PersistStep(m, store, e);
    ModesCleared(store, e.saves);
  }

  /** `resetAll` establishes the invariant from any settings whose values
      are stored and whose intensity is not negative: it ends at the
      defaults with everything saved and the colour-blind list cleared.
      (From a negative intensity it zeroes the intensity without saving it:
      `SettingsPersist.ResetAllAgrees`.) */
  lemma ResetAllKept(m: S.Settings, store: Store)
    requires Persisted(m, store) && m.colour.colorIntensity >= 0
    ensures S.ResetAll(m).mem == S.Defaults
    ensures Kept(S.ResetAll(m).mem, Saved(store, S.ResetAll(m)))
  {
    SettingsProps.ResetAllDefaults(m);
    ResetAllAgrees(m);
    ResetAllClearsModes(m);
    KeptAtDefaults(m, store, S.ResetAll(m));
  }

  /** The overlay's settings object. The source keeps twelve top-level
      variables for the settings (`currentFontSize`, `fontMode`, ...,
      `verticalMaskLevel`); they are grouped here as the three records of
      SettingsState, next to the set of switched-on features and the
      browser's localStorage. */
  class Settings {
    /** currentFontSize, fontMode, readableFontsEnabled, lineSpacingLevel,
        letterSpacingLevel, highlightedLettersLevel. */
    var text: S.Text
    /** highContrastEnabled, colorIntensityMode, colorBlindMode. */
    var colour: S.Colour
    /** readingMaskMode, horizontalMaskLevel, verticalMaskLevel. */
    var masks: S.Masks
    /** The eight on/off features that are switched on. */
    var enabled: set<S.Flag>
    /** The browser's localStorage. */
    var store: Store

    function State(): S.Settings
      reads this
    {
      S.Settings(text, colour, masks, enabled)
    }

    /** The object has made transition `e` from the store `s0`: its
        variables are the new ones and the store holds the saves. */
    ghost predicate Did(e: S.Effect, s0: Store)
      reads this
    {
      State() == e.mem && store == Saved(s0, e)
    }

    /** The page load: the variables as `applyUserPreferences` leaves them
        for what `loadPreferences` resolves with given the server's `reply`,
        and the store after the load's write-back and its saves (what that
        restores is stated by `ReloadRestores` and `ReloadAccepted`). */
    constructor Load(s: Store, hasEndpoint: bool, reply: LoadReply, failAt: Option<nat>)
      ensures Did(Reload(s, hasEndpoint, reply, failAt), LoadOutcome(s, hasEndpoint, reply, failAt).1)
      ensures store == Reloaded(s, hasEndpoint, reply, failAt)
    {
      new;
      Become(Reload(s, hasEndpoint, reply, failAt), LoadOutcome(s, hasEndpoint, reply, failAt).1);
    }

    /** Takes on the variables of `e` and writes its saves to `s0`. */
    method Become(e: S.Effect, s0: Store)
      modifies this
      ensures Did(e, s0)
    {
      text, colour, masks, enabled := e.mem.text, e.mem.colour, e.mem.masks, e.mem.flags;
      store := Saved(s0, e);
    }

    // Each operation collects its `saveUserPreference(pref, value)` calls
    // (local writes, module Preferences) in `saves`, in the order of the
    // source, and writes them to the store when it returns.

    /** `setFontSize(size)`. */
    method SetFontSize(size: int)
      modifies this
      ensures Did(S.SetFontSize(old(State()), size), old(store))
    {
      text := text.(fontSize := size);
      var saves: S.Saves := [(S.FontSize, Num(size))];
      store := WriteAll(store, S.Named(saves));
    }

    /** `increaseFontSize()`: `resetFontSize()` from 150 up. */
    method IncreaseFontSize()
      modifies this
      ensures Did(S.IncreaseFontSize(old(State())), old(store))
    {
      if text.fontSize >= 150 {
        SetFontSize(100);
      } else {
        SetFontSize(text.fontSize + 10);
      }
    }

    /** `decreaseFontSize()`. */
    method DecreaseFontSize()
      modifies this
      ensures Did(S.DecreaseFontSize(old(State())), old(store))
    {
      if text.fontSize > 100 {
        SetFontSize(text.fontSize - 10);
      } else {
        assert S.Named([]) == [];
      }
    }

    /** `toggleHighContrast()`. */
    method ToggleHighContrast()
      modifies this
      ensures Did(S.ToggleHighContrast(old(State())), old(store))
    {
      var saves: S.Saves := [];
      colour := colour.(highContrast := !colour.highContrast);
      if colour.highContrast && colour.colorIntensity > 0 {
        colour := colour.(colorIntensity := 0);
        saves := [(S.ColorIntensityMode, Num(0))];
      }
      saves := saves + [(S.HighContrast, Bool(colour.highContrast))];
      store := WriteAll(store, S.Named(saves));
    }

    /** `toggleColorIntensity()`, with the contrast switch-off saved. */
    method ToggleColorIntensity()
      modifies this
      ensures Did(S.ToggleColorIntensity(old(State())), old(store))
    {
      ghost var e := S.ToggleColorIntensity(State());
      var saves: S.Saves := [];
      var mode := JsRem(colour.colorIntensity + 1, 4);
      colour := colour.(colorIntensity := mode);
      var switchedOff := false;
      if mode > 0 && colour.highContrast {
        colour := colour.(highContrast := false);
        switchedOff := true;
      }
      if mode > 0 {
        colour := colour.(colorBlindMode := "none");
        saves := [(S.ColorBlind, Str("none")), (S.ColorBlindModes, Arr([]))];
      }
      saves := saves + [(S.ColorIntensityMode, Num(mode))];
      if switchedOff {
        saves := saves + [(S.HighContrast, Bool(false))];
      }
      assert colour == e.mem.colour;
      assert saves == e.saves;
      store := WriteAll(store, S.Named(saves));
    }

    /** `resetContrast()`. Alone it leaves the stored colour-blind list
        behind; `resetAll`, its only caller, clears the list afterwards. */
    method ResetContrast()
      modifies this
      ensures Did(S.ResetContrast(old(State())), old(store))
    {
      ghost var e := S.ResetContrast(State());
      var saves: S.Saves := [];
      if colour.highContrast {
        colour := colour.(highContrast := false);
        saves := [(S.HighContrast, Bool(false))];
      }
      if colour.colorIntensity > 0 {
        colour := colour.(colorIntensity := 0);
        saves := saves + [(S.ColorIntensityMode, Num(0))];
      }
      if colour.colorBlindMode != "none" {
        colour := colour.(colorBlindMode := "none");
        saves := saves + [(S.ColorBlind, Str("none"))];
      }
      saves := saves + [(S.HighContrast, Bool(false)), (S.LegacyInvertedColors, Bool(false))];
      assert colour == e.mem.colour;
      assert saves == e.saves;
      store := WriteAll(store, S.Named(saves));
    }

    /** `setColorBlindModes(modes)` as written: the intensity is zeroed but
        not saved. */
    method SetColorBlindModesAsWritten(modes: seq<string>)
      modifies this
      ensures Did(S.SetColorBlindModesAsWritten(old(State()), modes), old(store))
    {
      var first := if |modes| > 0 then modes[0] else "none";
      colour := colour.(colorIntensity := 0, colorBlindMode := first);
      var saves: S.Saves := [(S.ColorBlindModes, S.ModesValue(modes)), (S.ColorBlind, Str(first))];
      store := WriteAll(store, S.Named(saves));
    }

    /** `setColorBlindModes(modes)`, with the zeroed intensity saved. */
    method SetColorBlindModes(modes: seq<string>)
      modifies this
      ensures Did(S.SetColorBlindModes(old(State()), modes), old(store))
    {
      ghost var m, s := State(), store;
      SetColorBlindModesAsWritten(modes);
      store := WriteAll(store, S.Named([(S.ColorIntensityMode, Num(0))]));
      Committed(s, S.SetColorBlindModesAsWritten(m, modes).saves, [(S.ColorIntensityMode, Num(0))]);
    }

    /** `setColorBlindMode(mode)`. */
    method SetColorBlindMode(mode: string)
      modifies this
      ensures Did(S.SetColorBlindMode(old(State()), mode), old(store))
    {
      SetColorBlindModes(if mode == "none" then [] else [mode]);
    }

    /** `toggleReadableFonts()`. */
    method ToggleReadableFonts()
      modifies this
      ensures Did(S.ToggleReadableFonts(old(State())), old(store))
    {
      var mode := JsRem(text.fontMode + 1, 3);
      text := text.(fontMode := mode);
      if mode == 0 {
        text := text.(readableFonts := false);
      } else if mode == 1 || mode == 2 {
        text := text.(readableFonts := true);
      }
      var saves: S.Saves := [(S.ReadableFonts, Bool(text.readableFonts)), (S.FontMode, Num(mode))];
      store := WriteAll(store, S.Named(saves));
    }

    /** `toggleLineSpacing()`. */
    method ToggleLineSpacing()
      modifies this
      ensures Did(S.ToggleLineSpacing(old(State())), old(store))
    {
      var level := JsRem(text.lineSpacing + 1, 4);
      text := text.(lineSpacing := level);
      var saves: S.Saves := [(S.LineSpacing, Num(level))];
      store := WriteAll(store, S.Named(saves));
    }

    /** `toggleLetterSpacing()`. */
    method ToggleLetterSpacing()
      modifies this
      ensures Did(S.ToggleLetterSpacing(old(State())), old(store))
    {
      var level := JsRem(text.letterSpacing + 1, 4);
      text := text.(letterSpacing := level);
      var saves: S.Saves := [(S.LetterSpacing, Num(level))];
      store := WriteAll(store, S.Named(saves));
    }

    /** `toggleHighlightedLetters()`. */
    method ToggleHighlightedLetters()
      modifies this
      ensures Did(S.ToggleHighlightedLetters(old(State())), old(store))
    {
      var level := if text.highlightedLetters == 0 then 1 else 0;
      text := text.(highlightedLetters := level);
      var saves: S.Saves := [(S.HighlightedLetters, Num(level))];
      store := WriteAll(store, S.Named(saves));
    }

    /** The eight `toggleX()` functions of the on/off features. */
    method ToggleFlag(f: S.Flag)
      modifies this
      ensures Did(S.ToggleFlag(old(State()), f), old(store))
    {
      var on := f !in enabled;
      enabled := if on then enabled + {f} else enabled - {f};
      var saves: S.Saves := [(S.FlagKey(f), Bool(on))];
      store := WriteAll(store, S.Named(saves));
    }

    /** `toggleHorizontalMask()`, with the vertical switch-off saved. */
    method ToggleHorizontalMask()
      modifies this
      ensures Did(S.ToggleHorizontalMask(old(State())), old(store))
    {
      var saves: S.Saves := [];
      if masks.vertical > 0 {
        masks := masks.(vertical := 0);
        saves := [(S.VerticalMaskLevel, Num(0))];
      }
      var level := JsRem(masks.horizontal + 1, 4);
      masks := masks.(horizontal := level, readingMaskMode := if level > 0 then 1 else 0);
      saves := saves + [(S.HorizontalMaskLevel, Num(level)), (S.ReadingMaskMode, Num(masks.readingMaskMode))];
      store := WriteAll(store, S.Named(saves));
    }

    /** `toggleVerticalMask()`, with the horizontal switch-off saved. */
    method ToggleVerticalMask()
      modifies this
      ensures Did(S.ToggleVerticalMask(old(State())), old(store))
    {
      var saves: S.Saves := [];
      if masks.horizontal > 0 {
        masks := masks.(horizontal := 0);
        saves := [(S.HorizontalMaskLevel, Num(0))];
      }
      var level := JsRem(masks.vertical + 1, 4);
      masks := masks.(vertical := level, readingMaskMode := if level > 0 then 2 else 0);
      saves := saves + [(S.VerticalMaskLevel, Num(level)), (S.ReadingMaskMode, Num(masks.readingMaskMode))];
      store := WriteAll(store, S.Named(saves));
    }

    /** `resetReadingMaskAndCursor()`. */
    method ResetReadingMaskAndCursor()
      modifies this
      ensures Did(S.ResetReadingMaskAndCursor(old(State())), old(store))
    {
      masks := S.Masks(0, 0, 0);
      enabled := enabled - {S.CustomCursor};
      var saves: S.Saves := [(S.ReadingMaskMode, Num(0)), (S.HorizontalMaskLevel, Num(0)),
                             (S.VerticalMaskLevel, Num(0)), (S.FlagKey(S.CustomCursor), Bool(false))];
      store := WriteAll(store, S.Named(saves));
    }

    // -------------------------------------------------------------------
    // The blocks of `resetAll()`

    /** A feature reset by `resetAll()`: its toggle when it is on, a direct
        save of false when it is off. */
    method ClearFlag(f: S.Flag)
      modifies this
      ensures Did(S.ClearFlag(old(State()), f), old(store))
    {
      if f in enabled {
        ToggleFlag(f);
      } else {
        var saves: S.Saves := [(S.FlagKey(f), Bool(false))];
        store := WriteAll(store, S.Named(saves));
      }
    }

    /** The magnifier switched off, both its keys saved. */
    method SwitchOffMagnifier()
      modifies this
      ensures Did(S.SwitchOffMagnifier(old(State())), old(store))
    {
      var saves: S.Saves := [(S.MagnifierEnabled, Bool(false)), (S.Magnifier, Bool(false))];
      store := WriteAll(store, S.Named(saves));
    }

    /** The mask levels forced to 0 and saved with the cursor. */
    method ZeroMaskLevels()
      modifies this
      ensures Did(S.ZeroMaskLevels(old(State())), old(store))
    {
      masks := masks.(horizontal := 0, vertical := 0);
      var saves: S.Saves := [(S.HorizontalMaskLevel, Num(0)), (S.VerticalMaskLevel, Num(0)),
                             (S.FlagKey(S.CustomCursor), Bool(false))];
      store := WriteAll(store, S.Named(saves));
    }

    /** Fonts and both spacings back to 0 and saved. */
    method ResetFontsAndSpacing()
      modifies this
      ensures Did(S.ResetFontsAndSpacing(old(State())), old(store))
    {
      text := text.(fontMode := 0, readableFonts := false);
      var saves: S.Saves := [(S.ReadableFonts, Bool(false)), (S.FontMode, Num(0))];
      text := text.(lineSpacing := 0, letterSpacing := 0);
      saves := saves + [(S.LineSpacing, Num(0)), (S.LetterSpacing, Num(0))];
      assert saves == S.ResetFontsAndSpacing(old(State())).saves;
      store := WriteAll(store, S.Named(saves));
    }

    /** Highlighted letters: the toggle when on, otherwise 0 saved. */
    method ResetHighlightedLetters()
      modifies this
      ensures Did(S.ResetHighlightedLetters(old(State())), old(store))
    {
      if text.highlightedLetters > 0 {
        ToggleHighlightedLetters();
      } else {
        text := text.(highlightedLetters := 0);
        var saves: S.Saves := [(S.HighlightedLetters, Num(0))];
        store := WriteAll(store, S.Named(saves));
      }
    }

    /** The single colour-blind preference back to 'none', and the
        magnifier saved off again. */
    method ClearColorBlindMode()
      modifies this
      ensures Did(S.ClearColorBlindMode(old(State())), old(store))
    {
      colour := colour.(colorBlindMode := "none");
      var saves: S.Saves := [(S.ColorBlind, Str("none")), (S.MagnifierEnabled, Bool(false)), (S.Magnifier, Bool(false))];
      store := WriteAll(store, S.Named(saves));
    }

    /** The closing assignments of `resetAll()`. */
    method ForceInitialValues()
      modifies this
      ensures Did(S.ForceInitialValues(old(State())), old(store))
    {
      text := text.(fontMode := 0, readableFonts := false, lineSpacing := 0, letterSpacing := 0, highlightedLetters := 0);
      colour := colour.(highContrast := false, colorBlindMode := "none");
      masks := S.Masks(0, 0, 0);
      enabled := enabled - {S.HideImages, S.CustomCursor, S.TextToSpeech, S.ReadingHelper, S.EmphasizeLinks, S.HeaderHighlight};
      assert S.Named([]) == [];
    }

    /** `resetAll()` up to the spacing resets. */
    method ResetLayout()
      modifies this
      ensures Did(S.ResetLayout(old(State())), old(store))
    {
      ghost var m, s := State(), store;
      SetFontSize(100);
      ghost var e := S.SetFontSize(m, 100);
      ResetContrast();
      Committed(s, e.saves, S.ResetContrast(e.mem).saves);
      e := S.Then(e, S.ResetContrast(e.mem));
      ClearFlag(S.HideImages);
      Committed(s, e.saves, S.ClearFlag(e.mem, S.HideImages).saves);
      e := S.Then(e, S.ClearFlag(e.mem, S.HideImages));
      SwitchOffMagnifier();
      Committed(s, e.saves, S.SwitchOffMagnifier(e.mem).saves);
      e := S.Then(e, S.SwitchOffMagnifier(e.mem));
      ResetReadingMaskAndCursor();
      Committed(s, e.saves, S.ResetReadingMaskAndCursor(e.mem).saves);
      e := S.Then(e, S.ResetReadingMaskAndCursor(e.mem));
      ZeroMaskLevels();
      Committed(s, e.saves, S.ZeroMaskLevels(e.mem).saves);
      e := S.Then(e, S.ZeroMaskLevels(e.mem));
      ResetFontsAndSpacing();
      Committed(s, e.saves, S.ResetFontsAndSpacing(e.mem).saves);
    }

    /** The rest of `resetAll()`, from the reading aids on. */
    method ResetAids()
      modifies this
      ensures Did(S.ResetAids(old(State())), old(store))
    {
      ghost var m, s := State(), store;
      ClearFlag(S.TextToSpeech);
      ghost var e := S.ClearFlag(m, S.TextToSpeech);
      ClearFlag(S.ReadingHelper);
      Committed(s, e.saves, S.ClearFlag(e.mem, S.ReadingHelper).saves);
      e := S.Then(e, S.ClearFlag(e.mem, S.ReadingHelper));
      ClearFlag(S.EmphasizeLinks);
      Committed(s, e.saves, S.ClearFlag(e.mem, S.EmphasizeLinks).saves);
      e := S.Then(e, S.ClearFlag(e.mem, S.EmphasizeLinks));
      ClearFlag(S.HeaderHighlight);
      Committed(s, e.saves, S.ClearFlag(e.mem, S.HeaderHighlight).saves);
      e := S.Then(e, S.ClearFlag(e.mem, S.HeaderHighlight));
      ResetHighlightedLetters();
      Committed(s, e.saves, S.ResetHighlightedLetters(e.mem).saves);
      e := S.Then(e, S.ResetHighlightedLetters(e.mem));
      SetColorBlindModesAsWritten([]);
      Committed(s, e.saves, S.SetColorBlindModesAsWritten(e.mem, []).saves);
      e := S.Then(e, S.SetColorBlindModesAsWritten(e.mem, []));
      ClearColorBlindMode();
      Committed(s, e.saves, S.ClearColorBlindMode(e.mem).saves);
      e := S.Then(e, S.ClearColorBlindMode(e.mem));
      ForceInitialValues();
      Committed(s, e.saves, S.ForceInitialValues(e.mem).saves);
      e := S.Then(e, S.ForceInitialValues(e.mem));
      ClearFlag(S.ReduceAnimations);
      Committed(s, e.saves, S.ClearFlag(e.mem, S.ReduceAnimations).saves);
      e := S.Then(e, S.ClearFlag(e.mem, S.ReduceAnimations));
      ClearFlag(S.ImageInterpreter);
      Committed(s, e.saves, S.ClearFlag(e.mem, S.ImageInterpreter).saves);
    }

    /** `resetAll()`: the menu reading is interrupted first, then every
        setting is put back and saved. Afterwards the variables are the
        defaults (`ResetAllKept` adds that the invariant then holds whenever
        the values were stored before and the intensity was not negative). */
    method ResetAll(reader: MenuReader, speaking: bool)
      modifies this, reader
      ensures Did(S.ResetAll(old(State())), old(store))
      ensures reader.Snapshot() == Interrupted(old(reader.Snapshot()), speaking)
      ensures State() == S.Defaults
    {
      ghost var m, s := State(), store;
      reader.Interrupt(speaking);
      ResetLayout();
      ghost var e := S.ResetLayout(m);
      ResetAids();
      Committed(s, e.saves, S.ResetAids(e.mem).saves);
      SettingsProps.ResetAllDefaults(m);
    }
  }
}

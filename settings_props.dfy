/** Properties of the menu transitions on the setting variables: the font
    scale, the mutual exclusions, the cycles, the flags and `resetAll()`. */
module SettingsProps {
  import opened Js
  import opened Preferences
  import opened SettingsState

  /** The font size moves along the slider positions: up by 10 below 150 and
      back to 100 from there, down by 10 only above 100, and every change is
      saved as the new size. */
  lemma FontSizeSteps(m: Settings)
    requires OnScale(m.text.fontSize)
    ensures var e := IncreaseFontSize(m);
      && OnScale(e.mem.text.fontSize)
      && e.mem.text.fontSize == (if m.text.fontSize == 150 then 100 else m.text.fontSize + 10)
      && e.saves == [(FontSize, Num(e.mem.text.fontSize))]
    ensures var e := DecreaseFontSize(m);
      && OnScale(e.mem.text.fontSize)
      && (m.text.fontSize == 100 ==> e == Effect(m, []))
      && (m.text.fontSize > 100 ==>
            e.mem.text.fontSize == m.text.fontSize - 10 && e.saves == [(FontSize, Num(e.mem.text.fontSize))])
  {
    var n := m.text.fontSize;
    assert n == 100 || n == 110 || n == 120 || n == 130 || n == 140 || n == 150;
  }

  /** Six presses of "increase" from 100 pass through every other size once
      and come back to 100. */
  lemma SixIncreasesReturn(m: Settings)
    requires m.text.fontSize == 100
    ensures var m1 := IncreaseFontSize(m).mem; var m2 := IncreaseFontSize(m1).mem;
            var m3 := IncreaseFontSize(m2).mem; var m4 := IncreaseFontSize(m3).mem;
            var m5 := IncreaseFontSize(m4).mem; var m6 := IncreaseFontSize(m5).mem;
            [m1.text.fontSize, m2.text.fontSize, m3.text.fontSize, m4.text.fontSize, m5.text.fontSize, m6.text.fontSize]
              == [110, 120, 130, 140, 150, 100]
            && m6 == m
  {
  }

  /** After any of the four colour transitions, contrast and intensity are
      not both on, whatever the settings before. */
  lemma ContrastExcludesIntensity(m: Settings, modes: seq<string>)
    ensures ContrastExclusive(ToggleHighContrast(m).mem.colour)
    ensures ContrastExclusive(ToggleColorIntensity(m).mem.colour)
    ensures ContrastExclusive(SetColorBlindModes(m, modes).mem.colour)
    ensures ContrastExclusive(ResetContrast(m).mem.colour)
  {
  }

  /** Entering a nonzero intensity clears the colour-blind filter, in memory
      and in the saved preferences; choosing colour-blind modes zeroes the
      intensity and takes the first mode, or 'none' for an empty list, and
      saves the list, the mode and the intensity. */
  lemma IntensityAndColorBlind(m: Settings, modes: seq<string>)
    ensures var e := ToggleColorIntensity(m);
      e.mem.colour.colorIntensity > 0 ==>
        && e.mem.colour.colorBlindMode == "none" && !e.mem.colour.highContrast
        && LastWrite(e.saves, ColorBlind) == Some(Str("none"))
        && LastWrite(e.saves, ColorBlindModes) == Some(Arr([]))
    ensures var e := SetColorBlindModes(m, modes);
      && e.mem.colour.colorIntensity == 0
      && e.mem.colour.colorBlindMode == (if modes == [] then "none" else modes[0])
      && LastWrite(e.saves, ColorBlind) == Some(Str(e.mem.colour.colorBlindMode))
      && LastWrite(e.saves, ColorBlindModes) == Some(ModesValue(modes))
      && LastWrite(e.saves, ColorIntensityMode) == Some(Num(0))
  {
    var t := ToggleColorIntensity(m);
    var w := ToggleColorIntensityAsWritten(m);
    if t.mem.colour.colorIntensity > 0 {
      var cleared := [(ColorBlind, Str("none")), (ColorBlindModes, Arr([]))];
      var tail := [(ColorIntensityMode, Num(t.mem.colour.colorIntensity))];
      assert w.saves == cleared + tail;
      LastWriteAppend(cleared, tail, ColorBlind);
      LastWriteAppend(cleared, tail, ColorBlindModes);
      LastWriteAppend(cleared + tail, t.saves[|w.saves|..], ColorBlind);
      LastWriteAppend(cleared + tail, t.saves[|w.saves|..], ColorBlindModes);
      assert t.saves == w.saves + t.saves[|w.saves|..];
    }
    var e := SetColorBlindModes(m, modes);
    var listed := [(ColorBlindModes, ModesValue(modes))];
    var rest := [(ColorBlind, Str(FirstMode(modes))), (ColorIntensityMode, Num(0))];
    assert e.saves == listed + rest;
    LastWriteAppend(listed, rest, ColorBlindModes);
  }

  /** Toggling the horizontal mask first switches the vertical one off; the
      level steps round 0, 1, 2, 3 and the mode is 1 exactly when the level
      is above 0. */
  lemma HorizontalMaskToggle(m: Settings)
    requires MaskConsistent(m.masks)
    ensures var k := ToggleHorizontalMask(m).mem.masks;
      && k.vertical == 0 && k.horizontal == (m.masks.horizontal + 1) % 4
      && k.readingMaskMode == (if k.horizontal > 0 then 1 else 0)
      && MaskConsistent(k)
  {
  }

  /** The mirror image for the vertical mask, with mode 2. */
  lemma VerticalMaskToggle(m: Settings)
    requires MaskConsistent(m.masks)
    ensures var k := ToggleVerticalMask(m).mem.masks;
      && k.horizontal == 0 && k.vertical == (m.masks.vertical + 1) % 4
      && k.readingMaskMode == (if k.vertical > 0 then 2 else 0)
      && MaskConsistent(k)
  {
  }

  /** Every press of the intensity button moves it one step round 0, 1, 2,
      3, so four presses bring it back. */
  lemma IntensityCycle(m: Settings)
    requires 0 <= m.colour.colorIntensity <= 3
    ensures ToggleColorIntensity(m).mem.colour.colorIntensity == (m.colour.colorIntensity + 1) % 4
    ensures var m1 := ToggleColorIntensity(m).mem; var m2 := ToggleColorIntensity(m1).mem;
            var m3 := ToggleColorIntensity(m2).mem;
            ToggleColorIntensity(m3).mem.colour.colorIntensity == m.colour.colorIntensity
  {
  }

  /** Line spacing steps round 0, 1, 2, 3 and comes back after four presses. */
  lemma LineSpacingCycle(m: Settings)
    requires 0 <= m.text.lineSpacing <= 3
    ensures ToggleLineSpacing(m).mem.text.lineSpacing == (m.text.lineSpacing + 1) % 4
    ensures var m1 := ToggleLineSpacing(m).mem; var m2 := ToggleLineSpacing(m1).mem;
            var m3 := ToggleLineSpacing(m2).mem;
            ToggleLineSpacing(m3).mem == m
  {
  }

  /** Letter spacing steps round 0, 1, 2, 3 and comes back after four presses. */
  lemma LetterSpacingCycle(m: Settings)
    requires 0 <= m.text.letterSpacing <= 3
    ensures ToggleLetterSpacing(m).mem.text.letterSpacing == (m.text.letterSpacing + 1) % 4
    ensures var m1 := ToggleLetterSpacing(m).mem; var m2 := ToggleLetterSpacing(m1).mem;
            var m3 := ToggleLetterSpacing(m2).mem;
            ToggleLetterSpacing(m3).mem == m
  {
  }

  /** The font mode steps round 0, 1, 2 and comes back after three presses;
      readable fonts are on exactly when the mode is not 0. */
  lemma FontModeCycle(m: Settings)
    requires 0 <= m.text.fontMode <= 2
    ensures var t := ToggleReadableFonts(m).mem.text;
      t.fontMode == (m.text.fontMode + 1) % 3 && t.readableFonts == (t.fontMode > 0)
    ensures var m1 := ToggleReadableFonts(m).mem; var m2 := ToggleReadableFonts(m1).mem;
            ToggleReadableFonts(m2).mem.text.fontMode == m.text.fontMode
  {
  }

  /** Highlighted letters alternate between 0 and 1. */
  lemma HighlightCycle(m: Settings)
    requires 0 <= m.text.highlightedLetters <= 1
    ensures ToggleHighlightedLetters(m).mem.text.highlightedLetters == 1 - m.text.highlightedLetters
    ensures ToggleHighlightedLetters(ToggleHighlightedLetters(m).mem).mem == m
  {
  }

  /** Every flag toggle flips exactly its own flag, saves the new value, and
      two toggles restore the settings. */
  lemma FlagToggle(m: Settings, f: Flag)
    ensures var t := ToggleFlag(m, f).mem;
      && (f in t.flags <==> f !in m.flags)
      && t.flags - {f} == m.flags - {f}
      && t.text == m.text && t.colour == m.colour && t.masks == m.masks
    ensures ToggleFlag(m, f).saves == [(FlagKey(f), Bool(f !in m.flags))]
    ensures ToggleFlag(ToggleFlag(m, f).mem, f).mem == m
  {
  }

  /** `resetAll()` leaves every setting at its declared initial value. */
  lemma ResetAllDefaults(m: Settings)
    ensures ResetAll(m).mem == Defaults
  {
    var r := ResetAll(m).mem;
    assert r.text == Defaults.text && r.colour == Defaults.colour && r.masks == Defaults.masks;
    forall f: Flag
      ensures f !in r.flags
    {
      match f
      case TextToSpeech =>
      case ReadingHelper =>
      case EmphasizeLinks =>
      case HeaderHighlight =>
      case HideImages =>
      case ImageInterpreter =>
      case CustomCursor =>
      case ReduceAnimations =>
    }
  }

  /** The font, spacing and letter transitions keep the settings valid. */
  lemma TextTransitionsKeepValid(m: Settings)
    requires Valid(m)
    ensures Valid(IncreaseFontSize(m).mem) && Valid(DecreaseFontSize(m).mem)
    ensures Valid(ToggleReadableFonts(m).mem) && Valid(ToggleHighlightedLetters(m).mem)
    ensures Valid(ToggleLineSpacing(m).mem) && Valid(ToggleLetterSpacing(m).mem)
  {
    FontSizeSteps(m);
  }

  /** The contrast, intensity and colour-blind transitions keep the
      settings valid (for modes the panel offers). */
  lemma ColourTransitionsKeepValid(m: Settings, modes: seq<string>)
    requires Valid(m)
    requires forall i | 0 <= i < |modes| :: modes[i] in AllowedModes
    ensures Valid(ToggleHighContrast(m).mem) && Valid(ToggleColorIntensity(m).mem)
    ensures Valid(SetColorBlindModes(m, modes).mem) && Valid(ResetContrast(m).mem)
  {
  }

  /** The feature, mask and reset transitions keep the settings valid. */
  lemma OtherTransitionsKeepValid(m: Settings, f: Flag)
    requires Valid(m)
    ensures Valid(ToggleFlag(m, f).mem)
    ensures Valid(ToggleHorizontalMask(m).mem) && Valid(ToggleVerticalMask(m).mem)
    ensures Valid(ResetReadingMaskAndCursor(m).mem) && Valid(ResetAll(m).mem)
  {
    HorizontalMaskToggle(m);
    VerticalMaskToggle(m);
    ResetAllDefaults(m);
  }
}

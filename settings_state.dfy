/** The accessibility settings of the overlay menu and the transitions its
    buttons make on them (acessibilidade_wcag.js). Every transition is a
    function from the setting variables to an `Effect`: the new variables
    and the preferences it saves, in order. The class in module Overlay runs
    these transitions in place on its fields and on localStorage. */
module SettingsState {
  import opened Js
  import opened Preferences

  /** The text variables. */
  datatype Text = Text(
    fontSize: int,            // currentFontSize, a percentage
    fontMode: int,            // 0 default, 1 readable fonts, 2 OpenDyslexic
    readableFonts: bool,      // readableFontsEnabled
    lineSpacing: int,         // lineSpacingLevel 0..3
    letterSpacing: int,       // letterSpacingLevel 0..3
    highlightedLetters: int)  // highlightedLettersLevel 0 or 1

  /** The colour variables. */
  datatype Colour = Colour(
    highContrast: bool,       // highContrastEnabled
    colorIntensity: int,      // colorIntensityMode: 0 normal, 1 low, 2 high, 3 greyscale
    colorBlindMode: string)   // 'none' or the first active filter

  /** The reading-mask variables. */
  datatype Masks = Masks(
    readingMaskMode: int,     // 0 off, 1 horizontal, 2 vertical
    horizontal: int,          // horizontalMaskLevel 0..3
    vertical: int)            // verticalMaskLevel 0..3

  /** The features that are simply on or off, each an `xEnabled` variable. */
  datatype Flag = TextToSpeech | ReadingHelper | EmphasizeLinks | HeaderHighlight
                | HideImages | ImageInterpreter | CustomCursor | ReduceAnimations

  /** The module-level setting variables; `flags` holds the features that
      are on. */
  datatype Settings = Settings(text: Text, colour: Colour, masks: Masks, flags: set<Flag>)

  /** The values the variables are declared with. */
  const Defaults := Settings(Text(100, 0, false, 0, 0, 0), Colour(false, 0, "none"), Masks(0, 0, 0), {})

  /** The preferences the menu saves. */
  datatype Pref =
    | FontSize | FontMode | ReadableFonts | LineSpacing | LetterSpacing | HighlightedLetters
    | HighContrast | ColorIntensityMode | ColorBlind | ColorBlindModes | LegacyInvertedColors
    | ReadingMaskMode | HorizontalMaskLevel | VerticalMaskLevel
    | Magnifier | MagnifierEnabled
    | FlagKey(flag: Flag)

  /** The preference each flag is saved under. */
  function FlagName(f: Flag): string
  {
    match f
    case TextToSpeech => "textToSpeech"
    case ReadingHelper => "readingHelper"
    case EmphasizeLinks => "emphasizeLinks"
    case HeaderHighlight => "headerHighlight"
    case HideImages => "hideImages"
    case ImageInterpreter => "imageInterpreter"
    case CustomCursor => "customCursor"
    case ReduceAnimations => "reduceAnimations"
  }

  /** The name a preference is saved under (the `aguia_` key without its
      prefix). */
  function Name(p: Pref): string
  {
    match p
    case FontSize => "fontSize"
    case FontMode => "fontMode"
    case ReadableFonts => "readableFonts"
    case LineSpacing => "lineSpacing"
    case LetterSpacing => "letterSpacing"
    case HighlightedLetters => "highlightedLetters"
    case HighContrast => "highContrast"
    case ColorIntensityMode => "colorIntensityMode"
    case ColorBlind => "colorblind"
    case ColorBlindModes => "colorblind_modes"
    case LegacyInvertedColors => "invertedColors"
    case ReadingMaskMode => "readingMaskMode"
    case HorizontalMaskLevel => "horizontalMaskLevel"
    case VerticalMaskLevel => "verticalMaskLevel"
    case Magnifier => "magnifier"
    case MagnifierEnabled => "magnifier_enabled"
    case FlagKey(f) => FlagName(f)
  }

  /** The preference saved under a name, if any; names are grouped by
      length. */
  function FromName(s: string): Option<Pref>
  {
    match |s|
    case 8 =>
      if s == "fontSize" then Some(FontSize)
      else if s == "fontMode" then Some(FontMode)
      else None
    case 9 => if s == "magnifier" then Some(Magnifier) else None
    case 10 =>
      if s == "colorblind" then Some(ColorBlind)
      else if s == "hideImages" then Some(FlagKey(HideImages))
      else None
    case 11 => if s == "lineSpacing" then Some(LineSpacing) else None
    case 12 =>
      if s == "highContrast" then Some(HighContrast)
      else if s == "textToSpeech" then Some(FlagKey(TextToSpeech))
      else if s == "customCursor" then Some(FlagKey(CustomCursor))
      else None
    case 13 =>
      if s == "readableFonts" then Some(ReadableFonts)
      else if s == "letterSpacing" then Some(LetterSpacing)
      else if s == "readingHelper" then Some(FlagKey(ReadingHelper))
      else None
    case 14 =>
      if s == "invertedColors" then Some(LegacyInvertedColors)
      else if s == "emphasizeLinks" then Some(FlagKey(EmphasizeLinks))
      else None
    case 15 =>
      if s == "readingMaskMode" then Some(ReadingMaskMode)
      else if s == "headerHighlight" then Some(FlagKey(HeaderHighlight))
      else None
    case 16 =>
      if s == "colorblind_modes" then Some(ColorBlindModes)
      else if s == "imageInterpreter" then Some(FlagKey(ImageInterpreter))
      else if s == "reduceAnimations" then Some(FlagKey(ReduceAnimations))
      else None
    case 17 =>
      if s == "verticalMaskLevel" then Some(VerticalMaskLevel)
      else if s == "magnifier_enabled" then Some(MagnifierEnabled)
      else None
    case 18 =>
      if s == "highlightedLetters" then Some(HighlightedLetters)
      else if s == "colorIntensityMode" then Some(ColorIntensityMode)
      else None
    case 19 => if s == "horizontalMaskLevel" then Some(HorizontalMaskLevel) else None
    case _ => None
  }

  /** Every preference is found again from its name, so no two share one. */
  lemma NameRoundTrip(p: Pref)
    ensures FromName(Name(p)) == Some(p)
  {
    match p
    case FontSize =>
    case FontMode =>
    case ReadableFonts =>
    case LineSpacing =>
    case LetterSpacing =>
    case HighlightedLetters =>
    case HighContrast =>
    case ColorIntensityMode =>
    case ColorBlind =>
    case ColorBlindModes =>
    case LegacyInvertedColors =>
    case ReadingMaskMode =>
    case HorizontalMaskLevel =>
    case VerticalMaskLevel =>
    case Magnifier =>
    case MagnifierEnabled =>
    case FlagKey(f) => FlagNameRoundTrip(f);
  }

  lemma FlagNameRoundTrip(f: Flag)
    ensures FromName(FlagName(f)) == Some(FlagKey(f))
  {
    match f
    case TextToSpeech =>
    case ReadingHelper =>
    case EmphasizeLinks =>
    case HeaderHighlight =>
    case HideImages =>
    case ImageInterpreter =>
    case CustomCursor =>
    case ReduceAnimations =>
  }

  /** A sequence of saves of known preferences, in order. */
  type Saves = seq<(Pref, Value)>

  /** The same saves as localStorage sees them. */
  function Named(es: Saves): (r: Entries)
    ensures |r| == |es|
    ensures forall i | 0 <= i < |es| :: r[i] == (Name(es[i].0), es[i].1)
  {
    seq(|es|, i requires 0 <= i < |es| => (Name(es[i].0), es[i].1))
  }

  /** Naming the keys does not change which save of a preference is last. */
  lemma {:induction false} LastWriteNamed(es: Saves, p: Pref)
    ensures LastWrite(Named(es), Name(p)) == LastWrite(es, p)
    decreases |es|
  {
    if es != [] {
      var init := es[..|es| - 1];
      assert Named(es)[..|es| - 1] == Named(init);
      LastWriteNamed(init, p);
      NameRoundTrip(p);
      NameRoundTrip(es[|es| - 1].0);
    }
  }

  /** What a transition leaves behind: the new variables, and the
      `saveUserPreference` calls and direct localStorage writes it made, in
      order. With `autoSync` switched off by this file, each of them is a
      local write (module Preferences). */
  datatype Effect = Effect(mem: Settings, saves: Saves)

  /** One transition followed by another that started from its variables. */
  function Then(first: Effect, next: Effect): Effect
  {
    Effect(next.mem, first.saves + next.saves)
  }

  const AllowedModes: seq<string> := ["protanopia", "deuteranopia", "tritanopia"]

  // ---------------------------------------------------------------------
  // Font size

  /** The positions of the font-size slider: 100 to 150 in steps of 10. */
  const FontSizes: seq<int> := [100, 110, 120, 130, 140, 150]

  predicate OnScale(size: int)
  {
    size in FontSizes
  }

  /** `setFontSize(size)`: the size is adopted and saved. */
  function SetFontSize(m: Settings, size: int): Effect
  {
    Effect(m.(text := m.text.(fontSize := size)), [(FontSize, Num(size))])
  }

  /** `increaseFontSize()`: 10 points up, and back to 100 (`resetFontSize`)
      from 150 or above. */
  function IncreaseFontSize(m: Settings): Effect
  {
    SetFontSize(m, if m.text.fontSize >= 150 then 100 else m.text.fontSize + 10)
  }

  /** `decreaseFontSize()`: 10 points down, only above 100. */
  function DecreaseFontSize(m: Settings): Effect
  {
    if m.text.fontSize > 100 then SetFontSize(m, m.text.fontSize - 10) else Effect(m, [])
  }

  // ---------------------------------------------------------------------
  // Contrast, colour intensity and colour-blind filters

  /** `toggleHighContrast()`: switching contrast on switches intensity off. */
  function ToggleHighContrast(m: Settings): Effect
  {
    var on := !m.colour.highContrast;
    var clear := on && m.colour.colorIntensity > 0;
    Effect(m.(colour := m.colour.(highContrast := on,
                                  colorIntensity := if clear then 0 else m.colour.colorIntensity)),
           (if clear then [(ColorIntensityMode, Num(0))] else []) + [(HighContrast, Bool(on))])
  }

  /** `toggleColorIntensity()` as written: a nonzero intensity switches
      contrast off in memory only, and clears the colour-blind filters. */
  function ToggleColorIntensityAsWritten(m: Settings): Effect
  {
    var mode := JsRem(m.colour.colorIntensity + 1, 4);
    Effect(m.(colour := if mode > 0 then Colour(false, mode, "none") else m.colour.(colorIntensity := mode)),
           (if mode > 0 then [(ColorBlind, Str("none")), (ColorBlindModes, Arr([]))] else [])
           + [(ColorIntensityMode, Num(mode))])
  }

  /** `toggleColorIntensity()` with the contrast switch-off saved as well. */
  function ToggleColorIntensity(m: Settings): Effect
  {
    var e := ToggleColorIntensityAsWritten(m);
    var switchedOff := e.mem.colour.colorIntensity > 0 && m.colour.highContrast;
    Effect(e.mem, e.saves + if switchedOff then [(HighContrast, Bool(false))] else [])
  }

  /** `resetContrast()`: contrast, intensity and the single colour-blind
      preference back to off, each saved when it was on, then two forced
      saves. */
  function ResetContrast(m: Settings): Effect
  {
    var c := m.colour;
    Effect(m.(colour := Colour(false, if c.colorIntensity > 0 then 0 else c.colorIntensity, "none")),
           (if c.highContrast then [(HighContrast, Bool(false))] else [])
           + (if c.colorIntensity > 0 then [(ColorIntensityMode, Num(0))] else [])
           + (if c.colorBlindMode != "none" then [(ColorBlind, Str("none"))] else [])
           + [(HighContrast, Bool(false)), (LegacyInvertedColors, Bool(false))])
  }

  /** `JSON.stringify(modes)` of a list of mode names. */
  function ModesValue(modes: seq<string>): (r: Value)
    ensures r.Arr? && |r.items| == |modes|
    ensures forall i | 0 <= i < |modes| :: r.items[i] == Str(modes[i])
  {
    Arr(seq(|modes|, i requires 0 <= i < |modes| => Str(modes[i])))
  }

  function FirstMode(modes: seq<string>): string
  {
    if |modes| > 0 then modes[0] else "none"
  }

  /** `setColorBlindModes(modes)` as written: intensity is zeroed in memory
      only; the list and the first mode are saved. */
  function SetColorBlindModesAsWritten(m: Settings, modes: seq<string>): Effect
  {
    Effect(m.(colour := m.colour.(colorIntensity := 0, colorBlindMode := FirstMode(modes))),
           [(ColorBlindModes, ModesValue(modes)), (ColorBlind, Str(FirstMode(modes)))])
  }

  /** `setColorBlindModes(modes)` with the zeroed intensity saved as well. */
  function SetColorBlindModes(m: Settings, modes: seq<string>): Effect
  {
    var e := SetColorBlindModesAsWritten(m, modes);
    Effect(e.mem, e.saves + [(ColorIntensityMode, Num(0))])
  }

  /** `setColorBlindMode(mode)`: the single-mode entry point. */
  function SetColorBlindMode(m: Settings, mode: string): Effect
  {
    SetColorBlindModes(m, if mode == "none" then [] else [mode])
  }

  // ---------------------------------------------------------------------
  // Fonts, spacing, highlighted letters

  /** `toggleReadableFonts()`: the font mode cycles through 0, 1, 2; the
      switch statement sets the flag only for those three values. */
  function ToggleReadableFonts(m: Settings): Effect
  {
    var mode := JsRem(m.text.fontMode + 1, 3);
    var readable := if mode == 0 then false else if mode == 1 || mode == 2 then true else m.text.readableFonts;
    Effect(m.(text := m.text.(fontMode := mode, readableFonts := readable)),
           [(ReadableFonts, Bool(readable)), (FontMode, Num(mode))])
  }

  function ToggleLineSpacing(m: Settings): Effect
  {
    var level := JsRem(m.text.lineSpacing + 1, 4);
    Effect(m.(text := m.text.(lineSpacing := level)), [(LineSpacing, Num(level))])
  }

  function ToggleLetterSpacing(m: Settings): Effect
  {
    var level := JsRem(m.text.letterSpacing + 1, 4);
    Effect(m.(text := m.text.(letterSpacing := level)), [(LetterSpacing, Num(level))])
  }

  /** `toggleHighlightedLetters()`: 0 becomes 1, anything else becomes 0. */
  function ToggleHighlightedLetters(m: Settings): Effect
  {
    var level := if m.text.highlightedLetters == 0 then 1 else 0;
    Effect(m.(text := m.text.(highlightedLetters := level)), [(HighlightedLetters, Num(level))])
  }

  // ---------------------------------------------------------------------
  // On/off features

  /** Assigning one flag. */
  function SetFlag(flags: set<Flag>, f: Flag, on: bool): set<Flag>
  {
    if on then flags + {f} else flags - {f}
  }

  /** The eight `toggleX()` functions that flip one flag and save it. */
  function ToggleFlag(m: Settings, f: Flag): Effect
  {
    var on := f !in m.flags;
    Effect(m.(flags := SetFlag(m.flags, f, on)), [(FlagKey(f), Bool(on))])
  }

  /** The forced reset of one flag in `resetAll()`: when it is on, its toggle
      runs and saves false; when it is off, false is saved directly. */
  function ClearFlag(m: Settings, f: Flag): Effect
  {
    Effect(m.(flags := m.flags - {f}), [(FlagKey(f), Bool(false))])
  }

  // ---------------------------------------------------------------------
  // Reading masks

  /** `readingMaskMode` as the toggles derive it from the two levels. */
  function MaskMode(horizontal: int, vertical: int): int
  {
    if horizontal > 0 then 1 else if vertical > 0 then 2 else 0
  }

  /** `toggleHorizontalMask()` as written: the vertical mask is switched off
      in memory only. */
  function ToggleHorizontalMaskAsWritten(m: Settings): Effect
  {
    var vertical := if m.masks.vertical > 0 then 0 else m.masks.vertical;
    var level := JsRem(m.masks.horizontal + 1, 4);
    var mode := if level > 0 then 1 else 0;
    Effect(m.(masks := Masks(mode, level, vertical)),
           [(HorizontalMaskLevel, Num(level)), (ReadingMaskMode, Num(mode))])
  }

  /** `toggleHorizontalMask()` with the vertical switch-off saved as well. */
  function ToggleHorizontalMask(m: Settings): Effect
  {
    var e := ToggleHorizontalMaskAsWritten(m);
    Effect(e.mem, (if m.masks.vertical > 0 then [(VerticalMaskLevel, Num(0))] else []) + e.saves)
  }

  /** `toggleVerticalMask()` as written: the mirror image of the horizontal
      toggle, with the same unsaved switch-off. */
  function ToggleVerticalMaskAsWritten(m: Settings): Effect
  {
    var horizontal := if m.masks.horizontal > 0 then 0 else m.masks.horizontal;
    var level := JsRem(m.masks.vertical + 1, 4);
    var mode := if level > 0 then 2 else 0;
    Effect(m.(masks := Masks(mode, horizontal, level)),
           [(VerticalMaskLevel, Num(level)), (ReadingMaskMode, Num(mode))])
  }

  /** `toggleVerticalMask()` with the horizontal switch-off saved as well. */
  function ToggleVerticalMask(m: Settings): Effect
  {
    var e := ToggleVerticalMaskAsWritten(m);
    Effect(e.mem, (if m.masks.horizontal > 0 then [(HorizontalMaskLevel, Num(0))] else []) + e.saves)
  }

  /** `resetReadingMaskAndCursor()`. */
  function ResetReadingMaskAndCursor(m: Settings): Effect
  {
    Effect(m.(masks := Masks(0, 0, 0), flags := m.flags - {CustomCursor}),
           [(ReadingMaskMode, Num(0)), (HorizontalMaskLevel, Num(0)),
            (VerticalMaskLevel, Num(0)), (FlagKey(CustomCursor), Bool(false))])
  }

  // ---------------------------------------------------------------------
  // resetAll

  /** The magnifier is switched off and both its preferences saved. */
  function SwitchOffMagnifier(m: Settings): Effect
  {
    Effect(m, [(MagnifierEnabled, Bool(false)), (Magnifier, Bool(false))])
  }

  /** The mask levels forced to 0 after `resetReadingMaskAndCursor`. */
  function ZeroMaskLevels(m: Settings): Effect
  {
    Effect(m.(masks := m.masks.(horizontal := 0, vertical := 0)),
      [(HorizontalMaskLevel, Num(0)), (VerticalMaskLevel, Num(0)), (FlagKey(CustomCursor), Bool(false))])
  }

  /** Readable fonts, font mode and both spacings back to 0. */
  function ResetFontsAndSpacing(m: Settings): Effect
  {
    Effect(m.(text := m.text.(fontMode := 0, readableFonts := false, lineSpacing := 0, letterSpacing := 0)),
      [(ReadableFonts, Bool(false)), (FontMode, Num(0)), (LineSpacing, Num(0)), (LetterSpacing, Num(0))])
  }

  /** `resetAll()` up to and including the spacing resets: font size,
      contrast, hidden images, the magnifier, masks and cursor, fonts and
      spacing. */
  function ResetLayout(m: Settings): Effect
  {
    var e1 := SetFontSize(m, 100);
    var e2 := Then(e1, ResetContrast(e1.mem));
    var e3 := Then(e2, ClearFlag(e2.mem, HideImages));
    var e4 := Then(e3, SwitchOffMagnifier(e3.mem));
    var e5 := Then(e4, ResetReadingMaskAndCursor(e4.mem));
    var e6 := Then(e5, ZeroMaskLevels(e5.mem));
    Then(e6, ResetFontsAndSpacing(e6.mem))
  }

  /** Highlighted letters back to 0. */
  function ResetHighlightedLetters(m: Settings): Effect
  {
    Effect(m.(text := m.text.(highlightedLetters := 0)), [(HighlightedLetters, Num(0))])
  }

  /** The single colour-blind preference back to 'none', with the magnifier
      switched off again. */
  function ClearColorBlindMode(m: Settings): Effect
  {
    Effect(m.(colour := m.colour.(colorBlindMode := "none")),
      [(ColorBlind, Str("none")), (MagnifierEnabled, Bool(false)), (Magnifier, Bool(false))])
  }

  /** The closing assignments of `resetAll()` that put the variables back
      to their initial values without saving anything. */
  function ForceInitialValues(m: Settings): Effect
  {
    Effect(Settings(
      m.text.(fontMode := 0, readableFonts := false, lineSpacing := 0, letterSpacing := 0, highlightedLetters := 0),
      m.colour.(highContrast := false, colorBlindMode := "none"),
      Masks(0, 0, 0),
      m.flags - {HideImages, CustomCursor, TextToSpeech, ReadingHelper, EmphasizeLinks, HeaderHighlight}), [])
  }

  /** The rest of `resetAll()`: the reading aids, highlighted letters, the
      colour-blind filters (through `setColorBlindModes([])` as written,
      which saves no intensity), the magnifier again, the forced
      assignments, reduced animations and the image interpreter. */
  function ResetAids(m: Settings): Effect
  {
    var e1 := ClearFlag(m, TextToSpeech);
    var e2 := Then(e1, ClearFlag(e1.mem, ReadingHelper));
    var e3 := Then(e2, ClearFlag(e2.mem, EmphasizeLinks));
    var e4 := Then(e3, ClearFlag(e3.mem, HeaderHighlight));
    var e5 := Then(e4, ResetHighlightedLetters(e4.mem));
    var e6 := Then(e5, SetColorBlindModesAsWritten(e5.mem, []));
    var e7 := Then(e6, ClearColorBlindMode(e6.mem));
    var e8 := Then(e7, ForceInitialValues(e7.mem));
    var e9 := Then(e8, ClearFlag(e8.mem, ReduceAnimations));
    Then(e9, ClearFlag(e9.mem, ImageInterpreter))
  }

  /** `resetAll()`, in the order of the source. */
  function ResetAll(m: Settings): Effect
  {
    var e := ResetLayout(m);
    Then(e, ResetAids(e.mem))
  }

  // ---------------------------------------------------------------------
  // Invariants

  /** High contrast and a colour-intensity filter are never on together. */
  predicate ContrastExclusive(c: Colour)
  {
    !(c.highContrast && c.colorIntensity > 0)
  }

  /** A colour-intensity filter and a colour-blind filter are never on
      together. */
  predicate IntensityExclusive(c: Colour)
  {
    c.colorIntensity > 0 ==> c.colorBlindMode == "none"
  }

  /** The mask levels are in range, at most one is on, and
      `readingMaskMode` names it. */
  predicate MaskConsistent(k: Masks)
  {
    && (k.horizontal == 0 || k.vertical == 0)
    && 0 <= k.horizontal <= 3 && 0 <= k.vertical <= 3
    && k.readingMaskMode == MaskMode(k.horizontal, k.vertical)
  }

  predicate TextValid(t: Text)
  {
    && OnScale(t.fontSize)
    && 0 <= t.fontMode <= 2 && t.readableFonts == (t.fontMode > 0)
    && 0 <= t.lineSpacing <= 3 && 0 <= t.letterSpacing <= 3
    && 0 <= t.highlightedLetters <= 1
  }

  predicate ColourValid(c: Colour)
  {
    && 0 <= c.colorIntensity <= 3
    && (c.colorBlindMode == "none" || c.colorBlindMode in AllowedModes)
    && ContrastExclusive(c) && IntensityExclusive(c)
  }

  /** What the menu's own transitions keep true of the settings. */
  predicate Valid(m: Settings)
  {
    TextValid(m.text) && ColourValid(m.colour) && MaskConsistent(m.masks)
  }
}

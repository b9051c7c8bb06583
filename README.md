# AGUIA accessibility overlay — a Dafny model of its logic

AGUIA is an accessibility overlay for Moodle pages. It adds a menu that
changes font size, contrast, colour filters, spacing, reading masks and
similar aids. It saves every choice in `localStorage` under `aguia_<name>` and
can sync it with the server. It can read the menu aloud, and it ships a text
magnifier, a listener registry, an error detector and a public page with a
contact form and a Gemini image-description demo. This project models the
logic under the DOM glue and proves what that logic guarantees.

| file | module | what it models |
|---|---|---|
| `js.dfy` | `Js` | JavaScript semantics the rest relies on: `\s`, `trim()`, `includes()`, truncating `%`, truthiness, JSON values and stored items |
| `preferences.dfy` | `Preferences` | `AguiaAPI`: `savePreference`, `getFromLocalStorage`, `loadFromLocalStorage`, `loadPreferences`, `saveAll`, `commitLocalToServer`, with server replies as inputs |
| `settings_state.dfy` | `SettingsState` | the settings variables of the menu and every transition its buttons make, each as the new variables plus the preferences it saves, in order |
| `settings_props.dfy` | `SettingsProps` | the font-size scale, the cyclic toggles, the exclusion rules and `resetAll` |
| `settings_persist.dfy` | `SettingsPersist` | that every transition saves every variable it changes, so the store keeps describing the settings |
| `settings_load.dfy` | `SettingsLoad` | `applyUserPreferences` over what `loadPreferences` resolves with: the page-load transition; that a load the server does not answer restores what was saved; that the values of an accepted server reply win and are stored |
| `settings_object.dfy` | `Overlay` | the settings as an object updated in place, whose methods make exactly the transitions above and keep the reload invariant |
| `menu_speech.dfy` | `MenuSpeech` | the de-duplication of `gatherMenuDescriptions` and the run-id scheme of `speakLinesSequentially` |
| `escape_html.dfy` | `HtmlEscape` | `escapeHtml` |
| `listeners.dfy` | `Listeners` | the registry of `gerenciamento_memoria.js` |
| `error_log.dfy` | `ErrorLog` | the capped error log of `detecao_erros.js` |
| `magnifier.dfy` | `Magnifier` | the magnifier's creation, toggle and saved state, `findTextElement` and `cleanupText` |
| `site_forms.dfy` | `SiteForms` | `isValidEmail`, the contact form, the image preview and the checks made before an image is sent |

Three transitions of the menu forget to save a variable they change. The
model keeps each one as written and proves what goes wrong on the next page
load. `resetAll` and the page load call one of them, `setColorBlindModes`,
and use it as written. The menu's own transitions and the reload invariant
use a corrected version, and their rows below say "corrected" (see
"## Findings").

## Model

| member | source | states |
|---|---|---|
| Js.Trim | aguia-plugin/js/acessibilidade_wcag.js:212 | `trim()` is the text without its leading and trailing whitespace: empty exactly when the text is all whitespace, otherwise the slice between the two runs, which neither starts nor ends with whitespace |
| Js.FirstIndexOf | script.js:183 | the position of the first occurrence of a character, or the length when there is none |
| Js.FirstIndexIs | script.js:183 | an occurrence with none before it is the first one |
| Js.JsRem | aguia-plugin/js/acessibilidade_wcag.js:2407 | JavaScript's `%`: the remainder has the sign of the dividend, is smaller than the divisor in size, and differs from the dividend by a multiple of the divisor |
| Js.ParseIntOr0 | aguia-plugin/js/acessibilidade_wcag.js:3805 | `parseInt(v) \|\| 0` of a stored value: a number gives itself, `null` and booleans give 0 |
| Preferences.Key | aguia-plugin/js/api_preferencias.js:43 | the storage key is `aguia_` followed by the preference name |
| Preferences.KeyInjective | aguia-plugin/js/api_preferencias.js:43 | two preference names never share a storage key |
| Preferences.GetFromLocalStorage | aguia-plugin/js/api_preferencias.js:144-148 | a missing key or text that is not JSON gives the default; otherwise the parsed value |
| Preferences.WriteThenGet | aguia-plugin/js/api_preferencias.js:43 | after the local write of a save, reading that preference gives the saved value |
| Preferences.WriteKeepsOthers | aguia-plugin/js/api_preferencias.js:43 | a save leaves every other preference reading as before |
| Preferences.NewEntries | aguia-plugin/js/api_preferencias.js:120 | the server properties the spread adds are exactly those the local object lacks |
| Preferences.Merge | aguia-plugin/js/api_preferencias.js:120 | the spread keeps every local key in its place and order, the server's new keys coming after them |
| Preferences.MergeServerWins | aguia-plugin/js/api_preferencias.js:120 | the merged object has no key twice; on a shared key the server's value wins; a key only the local side has keeps its local value |
| Preferences.MergeKeys | aguia-plugin/js/api_preferencias.js:120 | every property of the merged object comes from one of the two sides |
| Preferences.WriteAllStores | aguia-plugin/js/api_preferencias.js:121-123 | after the write-back every merged key is stored as its merged value |
| Preferences.StoredAfter | aguia-plugin/js/api_preferencias.js:43 | after a sequence of local writes a preference reads as the last value written for it, or as before when none was |
| Preferences.LoadedThenRead | aguia-plugin/js/api_preferencias.js:121-123 | after the write-back, reading any merged preference gives its merged value |
| Preferences.LoadServerWins | aguia-plugin/js/api_preferencias.js:119-124 | with an accepted reply and a complete write-back, a key resolves to the server's value when the reply has it and to the local value otherwise, and the store then holds that value |
| Preferences.LoadWriteFails | aguia-plugin/js/api_preferencias.js:119-129 | when a write-back throws, the load resolves with the local values, and a key reads its merged value only if it was written before the failure |
| Preferences.LoadFromLocalStorage | aguia-plugin/js/api_preferencias.js:150-176 | the eighteen properties in order, each read with its default; `colorIntensityMode` is forced to 3 when `invertedColors` is stored as `true`, and is otherwise the stored value or 0 |
| Preferences.LoadFromEmptyStore | aguia-plugin/js/api_preferencias.js:152-171 | with nothing stored the load gives exactly the defaults |
| Preferences.LoadedDistinct | aguia-plugin/js/api_preferencias.js:152-171 | the loaded object names no property twice |
| Preferences.SaveAlwaysSucceeds | aguia-plugin/js/api_preferencias.js:45-86 | `Preferences.SaveOutcome`: once the local write is done a save reports success on every path; `skippedServer` is set exactly when no request was made, and the result is then marked local |
| Preferences.WriteSavedAll | aguia-plugin/js/api_preferencias.js:186-192 | when no write throws, saving entry by entry leaves the same store as writing them all |
| Preferences.SaveAllOkIffNoWriteFailed | aguia-plugin/js/api_preferencias.js:194 | `Preferences.SaveAllEntry`: `allOk` of a batch holds exactly when no local write of it threw |
| Preferences.PreferenceApi.constructor | aguia-plugin/js/api_preferencias.js:13-15 | `autoSync` starts true unless it was already set |
| Preferences.PreferenceApi.SavePreference | aguia-plugin/js/api_preferencias.js:40-88 | the local write happens first and only it can reject; otherwise the promise resolves with the outcome of the server reply; `autoSync` is untouched |
| Preferences.PreferenceApi.LoadPreferences | aguia-plugin/js/api_preferencias.js:97-134 | on an accepted reply, the local values overlaid by the server's, written back key by key; when a write-back throws, the load resolves with the local values and only the keys written before it are stored; on any other reply, the local values with the store unchanged |
| Preferences.PreferenceApi.WriteBack | aguia-plugin/js/api_preferencias.js:121-123 | the merged keys are written in order until one throws; `ok` holds exactly when none threw, and the store then holds the keys written |
| Preferences.PreferenceApi.SaveAll | aguia-plugin/js/api_preferencias.js:179-197 | one result per entry, in entry order, each the outcome of a forced save; the store gets every entry whose write did not throw; `allOk` holds exactly when every result has `success`, so an empty or missing object gives `allOk` |
| Preferences.PreferenceApi.CommitLocalToServer | aguia-plugin/js/api_preferencias.js:200-203 | `saveAll` of what `loadFromLocalStorage` returns: one result per loaded property, in order, each the forced save of that property |
| SettingsState.NameRoundTrip | aguia-plugin/js/acessibilidade_wcag.js:3610-3668 | each preference the menu saves has its own name, and the name gives the preference back |
| SettingsState.FlagNameRoundTrip | aguia-plugin/js/acessibilidade_wcag.js:3610-3668 | the same for the preference of each on/off feature |
| SettingsProps.FontSizeSteps | aguia-plugin/js/acessibilidade_wcag.js:2209-2261 | on the scale 100, 110, …, 150, an increase adds 10 below 150 and goes back to 100 at 150; a decrease subtracts 10 only above 100; both stay on the scale |
| SettingsProps.SixIncreasesReturn | aguia-plugin/js/acessibilidade_wcag.js:2211-2218 | six increases from 100 come back to 100 |
| SettingsProps.ContrastExcludesIntensity | aguia-plugin/js/acessibilidade_wcag.js:2353-2611 | after toggling contrast, toggling intensity, choosing colour-blind filters or resetting contrast, high contrast and a colour intensity are never on together |
| SettingsProps.IntensityAndColorBlind | aguia-plugin/js/acessibilidade_wcag.js:2405-2611 | a nonzero intensity sets the colour-blind mode to 'none'; the corrected filter choice zeroes the intensity and sets the mode to the first filter, or 'none' for no filter |
| SettingsProps.IntensityCycle | aguia-plugin/js/acessibilidade_wcag.js:2405-2492 | the intensity steps through 0, 1, 2, 3 and is back after four toggles |
| SettingsProps.LineSpacingCycle | aguia-plugin/js/acessibilidade_wcag.js:2696-2755 | line spacing steps modulo 4 and is back after four toggles |
| SettingsProps.LetterSpacingCycle | aguia-plugin/js/acessibilidade_wcag.js:2757-2808 | letter spacing steps modulo 4 and is back after four toggles |
| SettingsProps.FontModeCycle | aguia-plugin/js/acessibilidade_wcag.js:2623-2693 | the font mode steps modulo 3, readable fonts are on exactly when the mode is nonzero, and three toggles come back |
| SettingsProps.HighlightCycle | aguia-plugin/js/acessibilidade_wcag.js:4618-4675 | highlighted letters alternate between 0 and 1, so two toggles come back |
| SettingsProps.FlagToggle | aguia-plugin/js/acessibilidade_wcag.js:3129-3218 | an on/off toggle flips only its own feature, saves its new state, and two toggles come back |
| SettingsProps.HorizontalMaskToggle | aguia-plugin/js/acessibilidade_wcag.js:4280-4352 | the vertical level goes to 0, the horizontal one steps modulo 4, and the mask mode is 1 exactly when that level is positive |
| SettingsProps.VerticalMaskToggle | aguia-plugin/js/acessibilidade_wcag.js:4355-4427 | the same with the roles of the two masks swapped; the mode is then 2 |
| SettingsProps.ResetAllDefaults | aguia-plugin/js/acessibilidade_wcag.js:3221-3607 | after `resetAll` every settings variable is back at its declared value |
| SettingsProps.TextTransitionsKeepValid | aguia-plugin/js/acessibilidade_wcag.js:2209-2808 | the font and spacing transitions keep the settings in their ranges and keep the exclusions |
| SettingsProps.ColourTransitionsKeepValid | aguia-plugin/js/acessibilidade_wcag.js:2353-2611 | the contrast, intensity and filter transitions keep the settings valid, for filters the panel offers |
| SettingsProps.OtherTransitionsKeepValid | aguia-plugin/js/acessibilidade_wcag.js:4280-4612 | the on/off toggles, both mask toggles, the mask and cursor reset and `resetAll` keep the settings valid |
| SettingsPersist.EmptyStorePersisted | aguia-plugin/js/api_preferencias.js:152-171 | an empty store describes the declared settings, and holds no legacy inverted colours |
| SettingsPersist.PersistedNotInverted | aguia-plugin/js/api_preferencias.js:172-174 | a store that describes the settings never holds the legacy `invertedColors` flag as `true` |
| SettingsPersist.PersistStep | aguia-plugin/js/acessibilidade_wcag.js:3610-3668 | a transition that saves the final value of everything it changes takes a store that describes the old settings to one that describes the new ones |
| SettingsPersist.ThenAgrees | aguia-plugin/js/acessibilidade_wcag.js:3221-3607 | two transitions that each save their changes, run one after the other, save theirs too |
| SettingsPersist.FontSizeAgrees | aguia-plugin/js/acessibilidade_wcag.js:2209-2316 | `SettingsState.SetFontSize`, `IncreaseFontSize`, `DecreaseFontSize`: setting, increasing and decreasing the font size save every change |
| SettingsPersist.ToggleHighContrastAgrees | aguia-plugin/js/acessibilidade_wcag.js:2353-2402 | `SettingsState.ToggleHighContrast`: toggling contrast saves every change |
| SettingsPersist.ToggleColorIntensityAgrees | aguia-plugin/js/acessibilidade_wcag.js:2405-2492 | `SettingsState.ToggleColorIntensity`: the corrected intensity toggle saves every change |
| SettingsPersist.ResetContrastAgrees | aguia-plugin/js/acessibilidade_wcag.js:2495-2545 | `SettingsState.ResetContrast`: resetting contrast saves every change |
| SettingsPersist.SetColorBlindModesAgrees | aguia-plugin/js/acessibilidade_wcag.js:2548-2611 | `SettingsState.SetColorBlindModes`: the corrected filter choice saves every change |
| SettingsPersist.SetColorBlindModeAgrees | aguia-plugin/js/acessibilidade_wcag.js:2614-2620 | `SettingsState.SetColorBlindMode`: the corrected single-filter choice saves every change |
| SettingsPersist.ToggleReadableFontsAgrees | aguia-plugin/js/acessibilidade_wcag.js:2623-2693 | `SettingsState.ToggleReadableFonts`: the font-mode toggle saves every change |
| SettingsPersist.SpacingAgrees | aguia-plugin/js/acessibilidade_wcag.js:2696-2808 | `SettingsState.ToggleLineSpacing`, `ToggleLetterSpacing`: both spacing toggles save every change |
| SettingsPersist.ToggleHighlightedLettersAgrees | aguia-plugin/js/acessibilidade_wcag.js:4618-4675 | `SettingsState.ToggleHighlightedLetters`: the highlighted-letters toggle saves every change |
| SettingsPersist.FlagAgrees | aguia-plugin/js/acessibilidade_wcag.js:3129-3218 | `SettingsState.ToggleFlag`, `ClearFlag`: toggling or clearing an on/off feature saves every change |
| SettingsPersist.ToggleHorizontalMaskAgrees | aguia-plugin/js/acessibilidade_wcag.js:4280-4352 | `SettingsState.ToggleHorizontalMask`: the corrected horizontal-mask toggle saves every change |
| SettingsPersist.ToggleVerticalMaskAgrees | aguia-plugin/js/acessibilidade_wcag.js:4355-4427 | `SettingsState.ToggleVerticalMask`: the corrected vertical-mask toggle saves every change |
| SettingsPersist.ResetReadingMaskAndCursorAgrees | aguia-plugin/js/acessibilidade_wcag.js:4559-4612 | `SettingsState.ResetReadingMaskAndCursor`: the mask and cursor reset saves every change |
| SettingsPersist.SwitchOffMagnifierAgrees | aguia-plugin/js/acessibilidade_wcag.js:3272-3273 | `SettingsState.SwitchOffMagnifier`: switching the magnifier off in `resetAll` saves both of its preferences |
| SettingsPersist.ZeroMaskLevelsAgrees | aguia-plugin/js/acessibilidade_wcag.js:3279-3292 | `SettingsState.ZeroMaskLevels`: zeroing the mask levels in `resetAll` saves every change |
| SettingsPersist.ResetFontsAndSpacingAgrees | aguia-plugin/js/acessibilidade_wcag.js:3348-3399 | `SettingsState.ResetFontsAndSpacing`: the font and spacing resets of `resetAll` save every change |
| SettingsPersist.ResetHighlightedLettersAgrees | aguia-plugin/js/acessibilidade_wcag.js:3476-3496 | `SettingsState.ResetHighlightedLetters`: the highlighted-letters reset saves every change |
| SettingsPersist.ClearColorBlindModeAgrees | aguia-plugin/js/acessibilidade_wcag.js:3501-3556 | `SettingsState.ClearColorBlindMode`: clearing the filters in `resetAll` saves every change |
| SettingsPersist.ResetLayoutAgrees | aguia-plugin/js/acessibilidade_wcag.js:3221-3399 | `SettingsState.ResetLayout`: the first half of `resetAll` saves every change |
| SettingsPersist.ResetAidsAgrees | aguia-plugin/js/acessibilidade_wcag.js:3401-3603 | `SettingsState.ResetAids`: the second half of `resetAll`, with its filter clearing as written, saves every change once the first half has turned contrast, intensity and the masks off |
| SettingsPersist.ResetAllAgrees | aguia-plugin/js/acessibilidade_wcag.js:3221-3607 | `SettingsState.ResetAll`: `resetAll` as written saves every change exactly when the intensity is not negative; from a negative one it zeroes the intensity without saving it |
| SettingsPersist.ResetAidsSaves | aguia-plugin/js/acessibilidade_wcag.js:3401-3603 | the second half of `resetAll` saves the four aids off, highlighted letters 0, the empty filter list, 'none' twice, the magnifier off, reduced animations off and the image interpreter off, and no intensity |
| SettingsPersist.ResetLayoutSaves | aguia-plugin/js/acessibilidade_wcag.js:3221-3399 | after the font size and contrast resets, the first half of `resetAll` saves hidden images, the magnifier, the mask and cursor keys and the font and spacing keys, and no intensity |
| SettingsPersist.ResetAllClearsModes | aguia-plugin/js/acessibilidade_wcag.js:3501 | the last filter list `resetAll` saves is the empty one |
| SettingsPersist.ResetContrastSavesNoIntensity | aguia-plugin/js/acessibilidade_wcag.js:2495-2545 | resetting contrast with no intensity on saves no intensity |
| SettingsPersist.ResetAllSavesNoIntensity | aguia-plugin/js/acessibilidade_wcag.js:3221-3607 | with no intensity on, `resetAll` saves no intensity at all |
| SettingsPersist.ResetAllLeavesStoredIntensity | aguia-plugin/js/acessibilidade_wcag.js:3501 | with no intensity on in memory, `resetAll` leaves whatever intensity the store holds |
| SettingsPersist.AgreeWithStaleIntensity | aguia-plugin/js/acessibilidade_wcag.js:3221-3607 | a transition that saves its changes but no intensity still does so when memory and store both carry another intensity |
| SettingsPersist.ToggleColorIntensityAsWrittenAgrees | aguia-plugin/js/acessibilidade_wcag.js:2407-2416 | `SettingsState.ToggleColorIntensityAsWritten`: the intensity toggle as written saves every change exactly when high contrast was off |
| SettingsPersist.SetColorBlindModesAsWrittenAgrees | aguia-plugin/js/acessibilidade_wcag.js:2574 | `SettingsState.SetColorBlindModesAsWritten`: the filter choice as written saves every change exactly when no intensity was on |
| SettingsPersist.ToggleHorizontalMaskAsWrittenAgrees | aguia-plugin/js/acessibilidade_wcag.js:4282-4283 | `SettingsState.ToggleHorizontalMaskAsWritten`: the horizontal-mask toggle as written saves every change exactly when the vertical mask was off |
| SettingsPersist.ToggleVerticalMaskAsWrittenAgrees | aguia-plugin/js/acessibilidade_wcag.js:4357-4358 | `SettingsState.ToggleVerticalMaskAsWritten`: the vertical-mask toggle as written saves every change exactly when the horizontal mask was off |
| SettingsPersist.IntensityLeavesContrastStored | aguia-plugin/js/acessibilidade_wcag.js:2407-2416 | as written, from high contrast, the toggle turns contrast off in memory while the store still reads it as on |
| SettingsPersist.ColorBlindLeavesIntensityStored | aguia-plugin/js/acessibilidade_wcag.js:2574 | as written, with an intensity on, choosing filters zeroes it in memory while the store keeps the old intensity |
| SettingsPersist.HorizontalLeavesVerticalStored | aguia-plugin/js/acessibilidade_wcag.js:4282-4283 | as written, with the vertical mask on, the horizontal toggle zeroes it in memory while the store keeps the old level |
| SettingsPersist.VerticalLeavesHorizontalStored | aguia-plugin/js/acessibilidade_wcag.js:4357-4358 | the same for the vertical toggle and the stored horizontal level |
| SettingsLoad.ApplyMasks | aguia-plugin/js/acessibilidade_wcag.js:4000-4078 | a stored vertical level wins over a horizontal one, so after a load at most one mask level is nonzero |
| SettingsLoad.AllowedIn | aguia-plugin/js/acessibilidade_wcag.js:4156-4179 | the saved list is filtered to the modes the panel knows |
| SettingsLoad.SavedModes | aguia-plugin/js/acessibilidade_wcag.js:4156-4179 | the modes a load restores are always modes the panel knows |
| SettingsLoad.Apply | aguia-plugin/js/acessibilidade_wcag.js:3773-4184 | applying stored preferences, with the filter step through `setColorBlindModes` as written, keeps the masks exclusive when they were |
| SettingsLoad.LoadIndexNames | aguia-plugin/js/api_preferencias.js:152-171 | every preference the menu reads back has its slot, with its default, among the loaded properties |
| SettingsLoad.HideImagesNotLoaded | aguia-plugin/js/api_preferencias.js:152-171 | `hideImages` is not among the loaded properties |
| SettingsLoad.StoredProperty | aguia-plugin/js/api_preferencias.js:150-176 | each loaded property holds what the store holds for it, or its default |
| SettingsLoad.HideImagesNotStored | aguia-plugin/js/api_preferencias.js:150-176 | whatever the store holds, the load never yields `hideImages` |
| SettingsLoad.PersistedProperty | aguia-plugin/js/api_preferencias.js:150-176 | from a store that describes the settings, every loaded property is the current value |
| SettingsLoad.PersistedDescribes | aguia-plugin/js/api_preferencias.js:150-176 | the loaded properties of such a store describe the settings |
| SettingsLoad.FontSizeRestored | aguia-plugin/js/acessibilidade_wcag.js:3775-3777 | `SettingsLoad.ApplyFontSize`: the stored font size is restored and saved again |
| SettingsLoad.TextRestored | aguia-plugin/js/acessibilidade_wcag.js:3825-3919 | `SettingsLoad.ApplyText`: the font mode, readable fonts, spacings and highlighted letters come back |
| SettingsLoad.ColourRestored | aguia-plugin/js/acessibilidade_wcag.js:3793-3821 | `SettingsLoad.ApplyColour`: contrast and intensity come back, with the single filter mode left at 'none' |
| SettingsLoad.MasksRestored | aguia-plugin/js/acessibilidade_wcag.js:4000-4078 | exclusive masks come back exactly |
| SettingsLoad.FlagsRestored | aguia-plugin/js/acessibilidade_wcag.js:3938-4112 | `SettingsLoad.ApplyFlags`: the on/off features come back, except those never read on load; hidden images come on when the properties set them |
| SettingsLoad.FlagRestored | aguia-plugin/js/acessibilidade_wcag.js:3938-4112 | one feature is on after the load exactly when it was on and is read on load, or it is hidden images and the properties set them |
| SettingsLoad.ColorBlindRestored | aguia-plugin/js/acessibilidade_wcag.js:4156-4179 | `SettingsLoad.ApplyColorBlind`: a saved filter list that agrees with the mode brings the mode back, through `setColorBlindModes` as written |
| SettingsLoad.ApplyRestores | aguia-plugin/js/acessibilidade_wcag.js:3773-4184 | `SettingsLoad.Apply`: applying properties that describe valid settings gives those settings back (minus the features never read, with hidden images on when the properties set them) and saves their final values |
| SettingsLoad.ReloadRestores | aguia-plugin/js/acessibilidade_wcag.js:3773-4184 | a page load the server does not answer with an accepted reply, from a store that describes valid settings, restores them, and the store then still describes them |
| SettingsLoad.ReloadLocal | aguia-plugin/js/api_preferencias.js:97-134 | `SettingsLoad.Reload`, `Reloaded`: without an accepted reply the load applies the local values to the store as it was, and writes nothing back |
| SettingsLoad.ReloadServerWins | aguia-plugin/js/api_preferencias.js:119-124 | with an accepted reply and a complete write-back, a read preference the reply names is applied as the server's value, and the store holds that value |
| SettingsLoad.ReloadAccepted | aguia-plugin/js/acessibilidade_wcag.js:3773-4184 | `SettingsLoad.Reload`, `Reloaded`: with an accepted reply and a complete write-back, the load restores the valid settings the merged properties describe, and the store then holds every setting a load reads as that value |
| SettingsLoad.AcceptedStored | aguia-plugin/js/api_preferencias.js:119-124 | after a complete write-back every setting a load reads is stored as its merged value |
| SettingsLoad.LoadedKept | aguia-plugin/js/acessibilidade_wcag.js:3773-4184 | saves of final values keep every loaded setting stored |
| SettingsLoad.AllowedInModes | aguia-plugin/js/acessibilidade_wcag.js:4156-4179 | filtering a list of known modes leaves it unchanged |
| SettingsLoad.ApplyWritesModes | aguia-plugin/js/acessibilidade_wcag.js:4156-4179 | the load writes the filter list back exactly when it restores a nonempty one |
| SettingsLoad.ModesWritten | aguia-plugin/js/acessibilidade_wcag.js:2609-2610 | after saving a nonempty list whose first entry is the mode, the stored list agrees with the mode |
| SettingsLoad.ModesUnwritten | aguia-plugin/js/acessibilidade_wcag.js:2609-2610 | saves that do not touch the list leave it as it was |
| SettingsLoad.ReloadKeepsModes | aguia-plugin/js/acessibilidade_wcag.js:4156-4179 | a page load without an accepted reply keeps an agreeing filter list agreeing |
| SettingsLoad.ModesCleared | aguia-plugin/js/acessibilidade_wcag.js:3501 | after saving the empty list, the stored list agrees with mode 'none' |
| SettingsLoad.ReloadColour | aguia-plugin/js/acessibilidade_wcag.js:3793-3821 | with no filter on and no accepted reply, a load brings contrast and intensity back as stored, valid or not |
| SettingsLoad.ApplyKeepsColour | aguia-plugin/js/acessibilidade_wcag.js:4156-4179 | when no filter is restored the filter step changes no colour variable |
| SettingsLoad.ReloadMasks | aguia-plugin/js/acessibilidade_wcag.js:4000-4078 | the masks after a page load are those the mask step computes from the properties the load resolves with |
| SettingsLoad.ApplyKeepsMasks | aguia-plugin/js/acessibilidade_wcag.js:4000-4078 | no later step of the load changes the masks |
| SettingsLoad.ReloadAfterIntensityAsWritten | aguia-plugin/js/acessibilidade_wcag.js:2407-2416 | as written, toggling intensity from high contrast turns contrast off, but the next load without an accepted reply has contrast and intensity 1 on together |
| SettingsLoad.IntensityAsWrittenStored | aguia-plugin/js/acessibilidade_wcag.js:2407-2416 | after the intensity toggle as written from high contrast, the store describes the new settings with contrast still on |
| SettingsLoad.ReloadAfterHorizontalAsWritten | aguia-plugin/js/acessibilidade_wcag.js:4282-4283 | as written, choosing the horizontal mask while the vertical one is on shows the old vertical mask after the next load without an accepted reply |
| SettingsLoad.ReloadAfterColorBlindAsWritten | aguia-plugin/js/acessibilidade_wcag.js:2574 | as written, picking a filter and then none leaves no intensity in memory, but the next load without an accepted reply brings the old intensity back |
| SettingsLoad.ReloadAfterResetAll | aguia-plugin/js/acessibilidade_wcag.js:3501 | as written, picking a filter while an intensity is on and then resetting everything leaves no intensity in memory, but the next load without an accepted reply brings the old intensity back |
| SettingsLoad.ColorBlindAsWrittenStored | aguia-plugin/js/acessibilidade_wcag.js:2574 | after the filter choice as written, the store describes the new settings with the old intensity |
| SettingsLoad.ColorBlindOffAsWrittenStored | aguia-plugin/js/acessibilidade_wcag.js:2574 | switching the filters off as written then leaves that intensity stored, with the filter list cleared |
| Overlay.Committed | aguia-plugin/js/acessibilidade_wcag.js:3610-3668 | saves made one after another leave the store that one batch of them would |
| Overlay.KeptWithoutModes | aguia-plugin/js/acessibilidade_wcag.js:3610-3668 | a valid transition that saves its changes and leaves the filters alone keeps the reload invariant |
| Overlay.FontSizeKept | aguia-plugin/js/acessibilidade_wcag.js:2209-2261 | increasing and decreasing the font size keep the reload invariant |
| Overlay.ToggleHighContrastKept | aguia-plugin/js/acessibilidade_wcag.js:2353-2402 | toggling contrast keeps the reload invariant |
| Overlay.ToggleColorIntensityKept | aguia-plugin/js/acessibilidade_wcag.js:2405-2492 | the corrected intensity toggle keeps the reload invariant |
| Overlay.ToggleColorIntensityModes | aguia-plugin/js/acessibilidade_wcag.js:2405-2492 | the filter list the intensity toggle leaves agrees with the new mode |
| Overlay.SetColorBlindModesKept | aguia-plugin/js/acessibilidade_wcag.js:2548-2611 | the corrected filter choice keeps the reload invariant, for lists the panel builds |
| Overlay.SetColorBlindModesStored | aguia-plugin/js/acessibilidade_wcag.js:2609-2610 | the filter list the choice stores agrees with the mode it sets, for lists the panel builds |
| Overlay.ToggleReadableFontsKept | aguia-plugin/js/acessibilidade_wcag.js:2623-2693 | the font-mode toggle keeps the reload invariant |
| Overlay.SpacingKept | aguia-plugin/js/acessibilidade_wcag.js:2696-2808 | both spacing toggles keep the reload invariant |
| Overlay.ToggleHighlightedLettersKept | aguia-plugin/js/acessibilidade_wcag.js:4618-4675 | the highlighted-letters toggle keeps the reload invariant |
| Overlay.ToggleFlagKept | aguia-plugin/js/acessibilidade_wcag.js:3129-3218 | every on/off toggle keeps the reload invariant |
| Overlay.ToggleHorizontalMaskKept | aguia-plugin/js/acessibilidade_wcag.js:4280-4352 | the corrected horizontal-mask toggle keeps the reload invariant |
| Overlay.ToggleVerticalMaskKept | aguia-plugin/js/acessibilidade_wcag.js:4355-4427 | the corrected vertical-mask toggle keeps the reload invariant |
| Overlay.ResetReadingMaskAndCursorKept | aguia-plugin/js/acessibilidade_wcag.js:4559-4612 | the mask and cursor reset keeps the reload invariant |
| Overlay.KeptAtDefaults | aguia-plugin/js/acessibilidade_wcag.js:3221-3607 | a transition that ends at the defaults, saves its changes and saves the empty filter list establishes the reload invariant |
| Overlay.ResetAllKept | aguia-plugin/js/acessibilidade_wcag.js:3221-3607 | from stored settings whose intensity is not negative, `resetAll` reaches the defaults and establishes the reload invariant |
| Overlay.Settings.Load | aguia-plugin/js/acessibilidade_wcag.js:3773-4184 | the page load sets the variables and the store as the load transition does for the server's reply, after the write-back of `loadPreferences` |
| Overlay.Settings.SetFontSize | aguia-plugin/js/acessibilidade_wcag.js:2264-2316 | the object makes the `setFontSize` transition in place |
| Overlay.Settings.IncreaseFontSize | aguia-plugin/js/acessibilidade_wcag.js:2209-2245 | the object makes the increase transition |
| Overlay.Settings.DecreaseFontSize | aguia-plugin/js/acessibilidade_wcag.js:2248-2261 | the object makes the decrease transition |
| Overlay.Settings.ToggleHighContrast | aguia-plugin/js/acessibilidade_wcag.js:2353-2402 | the object makes the contrast toggle |
| Overlay.Settings.ToggleColorIntensity | aguia-plugin/js/acessibilidade_wcag.js:2405-2492 | the object makes the corrected intensity toggle |
| Overlay.Settings.ResetContrast | aguia-plugin/js/acessibilidade_wcag.js:2495-2545 | the object makes the contrast reset |
| Overlay.Settings.SetColorBlindModes | aguia-plugin/js/acessibilidade_wcag.js:2548-2611 | the object makes the corrected filter choice |
| Overlay.Settings.SetColorBlindModesAsWritten | aguia-plugin/js/acessibilidade_wcag.js:2548-2611 | the object makes the filter choice as written: intensity zeroed, only the list and the first mode saved |
| Overlay.Settings.SetColorBlindMode | aguia-plugin/js/acessibilidade_wcag.js:2614-2620 | the object makes the corrected single-filter choice |
| Overlay.Settings.ToggleReadableFonts | aguia-plugin/js/acessibilidade_wcag.js:2623-2693 | the object makes the font-mode toggle |
| Overlay.Settings.ToggleLineSpacing | aguia-plugin/js/acessibilidade_wcag.js:2696-2754 | the object makes the line-spacing toggle |
| Overlay.Settings.ToggleLetterSpacing | aguia-plugin/js/acessibilidade_wcag.js:2757-2808 | the object makes the letter-spacing toggle |
| Overlay.Settings.ToggleHighlightedLetters | aguia-plugin/js/acessibilidade_wcag.js:4618-4675 | the object makes the highlighted-letters toggle |
| Overlay.Settings.ToggleFlag | aguia-plugin/js/acessibilidade_wcag.js:3129-3218 | the object makes an on/off toggle |
| Overlay.Settings.ToggleHorizontalMask | aguia-plugin/js/acessibilidade_wcag.js:4280-4352 | the object makes the corrected horizontal-mask toggle |
| Overlay.Settings.ToggleVerticalMask | aguia-plugin/js/acessibilidade_wcag.js:4355-4427 | the object makes the corrected vertical-mask toggle |
| Overlay.Settings.ResetReadingMaskAndCursor | aguia-plugin/js/acessibilidade_wcag.js:4559-4612 | the object makes the mask and cursor reset |
| Overlay.Settings.ClearFlag | aguia-plugin/js/acessibilidade_wcag.js:3401-3471 | a feature `resetAll` clears: its toggle when on, then false saved |
| Overlay.Settings.SwitchOffMagnifier | aguia-plugin/js/acessibilidade_wcag.js:3272-3273 | the magnifier saved off under both keys |
| Overlay.Settings.ZeroMaskLevels | aguia-plugin/js/acessibilidade_wcag.js:3279-3292 | both mask levels zeroed and saved with the cursor |
| Overlay.Settings.ResetFontsAndSpacing | aguia-plugin/js/acessibilidade_wcag.js:3348-3399 | font mode, readable fonts and both spacings zeroed and saved |
| Overlay.Settings.ResetHighlightedLetters | aguia-plugin/js/acessibilidade_wcag.js:3476-3496 | highlighted letters toggled off when on, and 0 saved |
| Overlay.Settings.ClearColorBlindMode | aguia-plugin/js/acessibilidade_wcag.js:3501-3556 | the single filter mode back to 'none' and saved, the magnifier saved off again |
| Overlay.Settings.ForceInitialValues | aguia-plugin/js/acessibilidade_wcag.js:3559-3576 | the closing assignments of `resetAll`, with nothing saved |
| Overlay.Settings.ResetLayout | aguia-plugin/js/acessibilidade_wcag.js:3221-3399 | the object makes the first half of `resetAll` |
| Overlay.Settings.ResetAids | aguia-plugin/js/acessibilidade_wcag.js:3401-3603 | the object makes the second half of `resetAll`, clearing the filters through `setColorBlindModes([])` as written |
| Overlay.Settings.ResetAll | aguia-plugin/js/acessibilidade_wcag.js:3221-3607 | the menu reading is interrupted, the object makes the `resetAll` transition, and every variable ends at its declared value |
| MenuSpeech.SkippedIffClash | aguia-plugin/js/acessibilidade_wcag.js:208-220 | for any text key, the two seen sets skip an entry exactly when it clashes with one already kept |
| MenuSpeech.ClashSymmetric | aguia-plugin/js/acessibilidade_wcag.js:208-220 | a clash between two entries does not depend on their order |
| MenuSpeech.UniqueDistinct | aguia-plugin/js/acessibilidade_wcag.js:208-220 | `MenuSpeech.Unique`: no two kept entries share a nonempty key (the page uses the trimmed text) or an element; each kept entry is an input entry, and every input entry is kept or clashes with a kept one |
| MenuSpeech.FirstKept | aguia-plugin/js/acessibilidade_wcag.js:208-220 | the first entry is always kept |
| MenuSpeech.UniqueOfDistinct | aguia-plugin/js/acessibilidade_wcag.js:208-220 | a list without clashes is kept whole |
| MenuSpeech.UniqueIdempotent | aguia-plugin/js/acessibilidade_wcag.js:208-220 | de-duplicating twice is de-duplicating once |
| MenuSpeech.Dedup | aguia-plugin/js/acessibilidade_wcag.js:208-220 | for any text key, the loop with its two seen sets keeps exactly the de-duplicated list; the page runs it with the trimmed text |
| MenuSpeech.SpeaksOnlyCurrent | aguia-plugin/js/acessibilidade_wcag.js:274-303 | `MenuSpeech.Next`: a callback speaks exactly when its run is current, the reading is active and entries remain; a superseded callback changes nothing |
| MenuSpeech.RunIdRetired | aguia-plugin/js/acessibilidade_wcag.js:257-335 | `MenuSpeech.Next`, `Interrupted`: the run id never goes down, and each start, cancel, finish and interruption raises it |
| MenuSpeech.SupersededStaysStale | aguia-plugin/js/acessibilidade_wcag.js:274-282 | once a run is superseded, whatever happens later, its callbacks change nothing |
| MenuSpeech.MenuReader.constructor | aguia-plugin/js/acessibilidade_wcag.js:246-362 | no reading is active and the run id is 0 |
| MenuSpeech.MenuReader.Start | aguia-plugin/js/acessibilidade_wcag.js:257-260 | a new, larger run id, captured by the new run; the reading becomes active |
| MenuSpeech.MenuReader.SpeakNext | aguia-plugin/js/acessibilidade_wcag.js:274-359 | one callback makes the step `Next` describes |
| MenuSpeech.MenuReader.Interrupt | aguia-plugin/js/acessibilidade_wcag.js:1369-1373 | `MenuSpeech.Interrupted`: an active reading or a speaking engine is stopped and the run id retired; otherwise nothing changes |
| HtmlEscape.ReplaceChar | aguia-plugin/js/acessibilidade_wcag.js:867-874 | a replacement leaves a text without the character unchanged |
| HtmlEscape.EscapeHtmlAppend | aguia-plugin/js/acessibilidade_wcag.js:867-874 | escaping a concatenation escapes each part |
| HtmlEscape.EscapeHtmlChar | aguia-plugin/js/acessibilidade_wcag.js:867-874 | one character becomes its entity, untouched by later passes, because `&` goes first |
| HtmlEscape.EscapeHtmlIsEscapeEach | aguia-plugin/js/acessibilidade_wcag.js:867-874 | `HtmlEscape.EscapeHtml`: the chain of five replacements equals escaping each character on its own |
| HtmlEscape.EscapeHtmlPlain | aguia-plugin/js/acessibilidade_wcag.js:867-874 | `HtmlEscape.EscapeHtml`: the result holds no `<`, `>`, `"` or `'` and is never shorter than the input |
| HtmlEscape.EscapeHtmlRoundTrip | aguia-plugin/js/acessibilidade_wcag.js:867-874 | `HtmlEscape.EscapeHtml`: decoding the five entities gives the input back |
| Listeners.ReverseAt | aguia-plugin/js/gerenciamento_memoria.js:44-55 | records are removed last in, first out |
| Listeners.ReverseSameRecords | aguia-plugin/js/gerenciamento_memoria.js:44-55 | draining removes every record exactly once |
| Listeners.WithoutAppend | aguia-plugin/js/gerenciamento_memoria.js:73-93 | filtering works piece by piece, so the kept records keep their relative order |
| Listeners.WithoutKeeps | aguia-plugin/js/gerenciamento_memoria.js:73-93 | a record stays exactly when it was registered for another element |
| Listeners.WithoutOfSplit | aguia-plugin/js/gerenciamento_memoria.js:73-93 | the kept and the removed records together are the registry, nothing lost or doubled |
| Listeners.WithoutTwice | aguia-plugin/js/gerenciamento_memoria.js:73-93 | cleaning the same element twice is cleaning it once |
| Listeners.Registry.constructor | aguia-plugin/js/gerenciamento_memoria.js:11 | the registry starts empty |
| Listeners.Registry.Register | aguia-plugin/js/gerenciamento_memoria.js:20-37 | a missing element, type or handler, or a throwing `addEventListener`, changes nothing; otherwise exactly one record is appended and attached |
| Listeners.Registry.CleanupAll | aguia-plugin/js/gerenciamento_memoria.js:42-60 | the registry ends empty and every record is detached, last registered first |
| Listeners.Registry.CleanupElement | aguia-plugin/js/gerenciamento_memoria.js:66-97 | a null element changes nothing; otherwise exactly that element's records are detached, in order, and the others remain in order |
| ErrorLog.Record | aguia-plugin/js/detecao_erros.js:21-70 | below the cap an event appends one entry and raises the count; at the cap nothing changes; the count stays the log length and at most 50 |
| ErrorLog.RecordAllKeepsFirst | aguia-plugin/js/detecao_erros.js:21-70 | any sequence of events appends exactly those that fit under the cap, in order |
| ErrorLog.LogKeepsFirstFifty | aguia-plugin/js/detecao_erros.js:12-13 | from an empty log the first fifty events are kept, in order |
| ErrorLog.Detector.constructor | aguia-plugin/js/detecao_erros.js:12-13 | the log starts empty with a zero count |
| ErrorLog.Detector.OnError | aguia-plugin/js/detecao_erros.js:21-49 | an error is recorded under the cap; `preventDefault` is called exactly for a recorded error from the plugin's own files, and only then is recovery tried |
| ErrorLog.Detector.RecoverFromError | aguia-plugin/js/detecao_erros.js:76-89 | the highlighted-letters level becomes 0 only when the message mentions `highlightedLetters` and the level is falsy; the log is untouched |
| ErrorLog.Detector.OnRejection | aguia-plugin/js/detecao_erros.js:54-70 | a rejection is recorded under the cap, with 'Promessa rejeitada' when it has no reason |
| ErrorLog.Detector.GetErrorLog | aguia-plugin/js/detecao_erros.js:99-101 | returns the log's entries and changes nothing |
| ErrorLog.Detector.ClearErrorLog | aguia-plugin/js/detecao_erros.js:108-112 | the log is emptied and the count reset to 0 |
| Magnifier.StoredText | aguia-plugin/js/ampliador_autonomo.js:119-126 | the saved text is 'true' exactly for an active magnifier |
| Magnifier.StoredStateRestores | aguia-plugin/js/ampliador_autonomo.js:87-92 | saving a state and restoring gives it back; only the exact text 'true' restores an active state |
| Magnifier.Page.constructor | aguia-plugin/js/ampliador_autonomo.js:29-98 | the page with the given ids and storage, nothing active |
| Magnifier.Page.CreateMagnifier | aguia-plugin/js/ampliador_autonomo.js:29-51 | the magnifier is created exactly when its id is absent; nothing else changes |
| Magnifier.Page.CreateButton | aguia-plugin/js/ampliador_autonomo.js:61-98 | the button is created exactly when its id is absent, and then starts active only if the stored text is 'true'; the storage is not written |
| Magnifier.Page.ToggleMagnifier | aguia-plugin/js/ampliador_autonomo.js:107-127 | the button flips, the scope follows it, and the stored text becomes 'true' exactly when it is now active |
| Magnifier.Tagged | aguia-plugin/js/ampliador_autonomo.js:177-178 | `querySelectorAll(tag)` yields every descendant with that tag and nothing else, never more nodes than there are |
| Magnifier.TaggedAppend | aguia-plugin/js/ampliador_autonomo.js:177-178 | the selection keeps document order: selecting from two runs of nodes selects from the first, then from the second |
| Magnifier.FirstReadable | aguia-plugin/js/ampliador_autonomo.js:179-183 | a node whose trimmed text is longer than one character and with no such node before it, or none when there is none |
| Magnifier.FindTextElement | aguia-plugin/js/ampliador_autonomo.js:139-187 | the loops return what the specification function `FindText` gives |
| Magnifier.HasDirectText | aguia-plugin/js/ampliador_autonomo.js:160-173 | found exactly when some child is a text node whose trimmed text is longer than one character |
| Magnifier.SearchChildren | aguia-plugin/js/ampliador_autonomo.js:177-184 | the nested loops find the first readable descendant, tag by tag in the order of the content tags |
| Magnifier.SearchTagsFinds | aguia-plugin/js/ampliador_autonomo.js:177-184 | what the tag search finds is a readable descendant with a content tag |
| Magnifier.FindTextResult | aguia-plugin/js/ampliador_autonomo.js:139-187 | `Magnifier.FindText`: null exactly for the avoided tags; a content-tag element with readable text is itself the answer; otherwise the answer is the element or a readable content-tag descendant |
| Magnifier.CollapseBlankLines | aguia-plugin/js/ampliador_autonomo.js:256 | never longer, no new character, and a text without a line feed is unchanged |
| Magnifier.RemoveBraces | aguia-plugin/js/ampliador_autonomo.js:259 | never longer, no new character, and no brace left |
| Magnifier.StripDeclarations | aguia-plugin/js/ampliador_autonomo.js:264-265 | never longer and no new character |
| Magnifier.StripWithoutColon | aguia-plugin/js/ampliador_autonomo.js:264-265 | every declaration holds a colon, so a text without one is unchanged |
| Magnifier.CollapseRuns | aguia-plugin/js/ampliador_autonomo.js:272 | never longer, only a space added, and a leading non-space character kept |
| Magnifier.Truncate | aguia-plugin/js/ampliador_autonomo.js:275-277 | at most 503 characters, only dots added, and a text of at most 500 is unchanged |
| Magnifier.Blank | aguia-plugin/js/ampliador_autonomo.js:278 | the same length, with each square bracket, hash and dot turned into a space |
| Magnifier.CollapsedHasNoDoubleSpace | aguia-plugin/js/ampliador_autonomo.js:285 | after collapsing runs of two or more, no two whitespace characters are adjacent |
| Magnifier.CollapseKeepsSingleSpaces | aguia-plugin/js/ampliador_autonomo.js:285 | a text without adjacent whitespace is left unchanged |
| Magnifier.CollapseIdempotent | aguia-plugin/js/ampliador_autonomo.js:285 | collapsing twice is collapsing once |
| Magnifier.TruncateNoDoubleSpace | aguia-plugin/js/ampliador_autonomo.js:288-290 | the cut adds no adjacent whitespace |
| Magnifier.CleanupFirstPass | aguia-plugin/js/ampliador_autonomo.js:256-272 | no brace survives the first half of the clean-up |
| Magnifier.CleanupSecondPass | aguia-plugin/js/ampliador_autonomo.js:278-285 | the second half leaves no brace, square bracket, hash or dot, and no adjacent whitespace |
| Magnifier.CleanupTextClean | aguia-plugin/js/ampliador_autonomo.js:254-293 | `Magnifier.CleanupText`: the cleaned text has at most 503 characters, no brace, square bracket or hash, no adjacent whitespace, and a dot only in the final '...' of the cut |
| SiteForms.ValidEmailHasShape | script.js:182-185 | every address the check accepts matches the pattern |
| SiteForms.ShapeIsValidEmail | script.js:182-185 | every address matching the pattern is accepted |
| SiteForms.IsValidEmailMeansShape | script.js:182-185 | `SiteForms.IsValidEmail`: the check accepts exactly the addresses of the pattern |
| SiteForms.ValidEmailOneAt | script.js:182-185 | an accepted address has no whitespace and exactly one `@` |
| SiteForms.SubmitOrder | script.js:163-178 | `SiteForms.SubmitNotice`: an empty field is reported first; an invalid address only when every field is filled; success exactly for filled fields and a valid address |
| SiteForms.ContactForm.Submit | script.js:155-179 | a submission shows one notification; the fields are reset only after success |
| SiteForms.Preview.constructor | script.js:450 | no selection, the placeholder hidden, no object URL |
| SiteForms.Preview.Select | script.js:452 | the user's choice in the file input, nothing else changed |
| SiteForms.Preview.OnChange | script.js:451-478 | with no file the placeholder shows, the held URL is revoked and none is created; a non-image is refused with a notice and the input cleared, creating and revoking nothing; an image revokes the held URL and shows under one new URL; the selection is otherwise kept, and at most one URL stays alive |
| SiteForms.Preview.Clear | script.js:436-446 | the placeholder is shown hidden and the input cleared; the URL is kept |
| SiteForms.PrecheckOrder | script.js:482-500 | `SiteForms.Precheck`: the request goes ahead exactly with a key that is not blank and a file of at most 4 MiB; a blank key is reported first, then a missing file |

## Left out

- DOM rendering: class lists, styles, `innerHTML`, icons, focus handling, status messages and notification rendering. The model keeps only the variables these reflect.
- The server and the network: `fetch` to the preference endpoints and to the Gemini API. A reply is an input of the model (`ServerReply`, `LoadReply`). So is a local write that throws: `writeErrors` in `saveAll`, and `failAt`, the key at which the write-back of `loadPreferences` throws. The single write of `savePreference` is not modelled as failing.
- The speech engine and timers: `speechSynthesis`, `setTimeout`, and the order in which callbacks fire. Only the run counter that decides whether a callback may act is modelled.
- `gatherMenuDescriptions` apart from its de-duplication: walking the DOM before it, and sorting the kept entries into document order after it (acessibilidade_wcag.js:222-240). `Unique` gives the kept entries in their order before that sort.
- `JSON.parse` and `JSON.stringify`: a stored item is a parsed value or text that does not parse (`Item`).
- Numeric preferences stored as something other than a number count as not positive; the `|| 1` fallbacks are modelled on that basis.
- `hideImages` and `imageInterpreter` are saved but never read back by `loadFromLocalStorage` (api_preferencias.js:152-171). A reload therefore does not restore them, and the restore lemmas state that (`Restorable`).
- Overlay.Settings.SetColorBlindModes: models the corrected choice, which also saves `colorIntensityMode` 0; the source saves only the list and the first mode (acessibilidade_wcag.js:2574). The method as written is `SetColorBlindModesAsWritten`.
- Overlay.Settings.SetColorBlindMode: goes through the corrected `SetColorBlindModes`, for the same reason.
- SettingsPersist.SetColorBlindModeAgrees: stated for the corrected choice; as written the choice saves every change only when no intensity was on (`SetColorBlindModesAsWrittenAgrees`).
- SettingsProps.IntensityAndColorBlind: stated for the corrected choice; the memory it describes is the same as written, only the saves differ.
- Overlay.SetColorBlindModesKept: the reload invariant is kept by the corrected choice only; as written it fails when an intensity was on (`SettingsLoad.ReloadAfterColorBlindAsWritten`).
- Overlay.ResetAllKept: proved only from a stored intensity that is not negative. From a negative one `resetAll` as written zeroes the intensity without saving it, so the store no longer describes the defaults (`SettingsPersist.ResetAllAgrees`).
- Js.ParseIntOr0: `parseInt` of text is read as an optional sign and leading decimal digits. A hexadecimal prefix (`"0x1A"` gives 26), a leading `Infinity`, arrays (`parseInt([3])` is 3) and other objects converted through `String` are not modelled; numbers in the model are integers, so the truncation of a fractional number is not modelled either.
- Overlay.Settings.SetColorBlindModes: the reload invariant is proved only for the mode lists the colour-blind panel builds (`PanelModes`). An arbitrary list can hold modes that a reload filters out.
- The saves of one menu operation are applied to the store together when the operation returns. The source writes them one by one, and no other code runs in between.
- The twelve module-level variables are grouped into three records plus a set of the features that are on. The transitions are the same.
- `window.highlightedLettersLevel` in the error detector is a separate value, not the menu's variable.
- `stripFormatting` (acessibilidade_wcag.js:848-865) and the rest of the image-description card, except `escapeHtml`.
- `String(...)` conversions of values that are not strings. Texts are taken as given.
- The `silent` parameters only suppress status messages, so they are not parameters of the model.
- The code after `return element;` in `findTextElement` (ampliador_autonomo.js:189-242) is unreachable and is not modelled.
- `.length` counts UTF-16 code units, while the model counts characters. The two differ only outside the Basic Multilingual Plane.
- Magnifier.Page.CreateButton: the source finds the scope element through a lookup chain that differs from the one `toggleMagnifier` uses. Both are modelled as one `scopeActive` flag.
- SiteForms.Preview.OnChange: the early return when the page has no preview element is not modelled; the preview is assumed present.
- `updateMagnifier`, event wiring and positioning of the magnifier; the pixel geometry of the reading masks and of `setFontSize`.
- The Gemini model selection saved in `localStorage`, and the request itself after the checks.
- `patch-standalone.js` (environment shim), `init.js` (dependency polling) and `icones_acessibilidade.js` (SVG strings).

## Findings

| source | as written | input that shows it | evidently intended | confidence | as-written member | corrected member |
|---|---|---|---|---|---|---|
| aguia-plugin/js/acessibilidade_wcag.js:2407-2416 | `toggleColorIntensity` turns high contrast off in memory but never saves `highContrast` | high contrast on, intensity 0, toggle intensity, reload: contrast and intensity 1 both on | save `highContrast` false whenever the toggle turns it off | not executed | SettingsLoad.ReloadAfterIntensityAsWritten | Overlay.ToggleColorIntensityKept |
| aguia-plugin/js/acessibilidade_wcag.js:4282-4283 | `toggleHorizontalMask` zeroes `verticalMaskLevel` in memory but never saves it (and `toggleVerticalMask` likewise at 4357-4358) | vertical mask at level 1, toggle the horizontal mask, reload: the vertical mask returns instead of the horizontal one | save the zeroed level of the other mask | not executed | SettingsLoad.ReloadAfterHorizontalAsWritten | Overlay.ToggleHorizontalMaskKept |
| aguia-plugin/js/acessibilidade_wcag.js:2574 | `setColorBlindModes` sets `colorIntensityMode` to 0 without saving it; `resetAll` (3501) and the page load (4171) call it too, so a reset does not repair the stale stored intensity either (`SettingsLoad.ReloadAfterResetAll`) | intensity 2, pick a filter, pick none (or reset everything), reload: intensity 2 is back | save `colorIntensityMode` 0 when it is cleared | not executed | SettingsLoad.ReloadAfterColorBlindAsWritten | Overlay.SetColorBlindModesKept |

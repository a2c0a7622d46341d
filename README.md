# Palette engines of the shadcn/ui colour palette generator

The generator builds the nineteen CSS colour roles of a shadcn/ui theme
(`primary`, `primary-foreground`, …, `border`, `input`, `ring`) and exports
them as CSS custom properties. It does so with two engines, each inside a
React component:

- the **random-hue engine** (`src/components/PaletteGenerator.tsx`) draws one
  base hue. It builds a light and a dark palette from it, clamps every
  lightness to [5, 95], and picks near-black or near-white foregrounds of the
  base hue. It exports the light palette under `:root` and the dark one under
  `.dark`, with the `hsl(` notation stripped. It can also reload a shared
  palette pair from the URL.
- the **emotion engine** (`src/components/PalleteGenerator.tsx`) maps an
  emotion to a hex colour and reads its hue and saturation. It builds one
  palette for the current mode: four accents, a loop adding flat black or
  white foregrounds, a loop over the `remainingColors` table, and the ring.
  It exports that single palette, values verbatim, under both `:root` and
  `.dark`.

The Dafny modules follow that structure:

| module | file | models |
|---|---|---|
| `Wrappers` | wrappers.dfy | `Option` |
| `Strings` | strings.dfy | decimal printing and parsing, `replace`, `split` and `join` on strings |
| `Records` | records.dfy | a JavaScript object used as a record: values plus key insertion order |
| `Hsl` | hsl.dfy | the `hsl(H, S%, L%)` notation, `Math.round`, `% 360`, and the chroma-js calls as parameters |
| `HueEngine` | hue_engine.dfy | `generatePaletteForMode`, its `generateColor` and `getContrastColor` |
| `HueSnippet` | hue_snippet.dfy | `formatColorValue` and `generateCssSnippet` of the random-hue component |
| `HueComponent` | hue_component.dfy | the random-hue component's state and handlers, as the class `Generator` |
| `EmotionEngine` | emotion_engine.dfy | the emotion tables and `generateAccessiblePalette` |
| `EmotionSnippet` | emotion_snippet.dfy | `generateCssSnippet` of the emotion component |
| `EmotionComponent` | emotion_component.dfy | the emotion component's state and handlers, as the class `Generator` |

How the model is built:

- **Palettes.** A palette is a `Record`: a map plus the order in which its
  keys were first assigned. This is what `Object.entries` and the exported
  snippet follow.
- **Numbers.** Numbers are reals. `Math.round` is round-half-up
  (`floor(x + 1/2)`). `x % 360` is the truncating remainder, which keeps the
  sign of `x`.
- **Builders.** Each palette builder is a method that makes the source's
  assignments and runs its `forEach` loops. It is proved equal to a
  specification function. The properties are lemmas about that function.
- **The emotion palette's partner.** The emotion palette is checked against
  an independent list (`EmotionEngine.Reference`): the accents, their
  contrast colours and the table rows, written out in order.

The model follows the code as written. Two consequences are stated as
lemmas:

- In the emotion engine, the table's dark-mode lightnesses are inverted a
  second time by `generateColor`. A dark background comes out at 90%
  lightness (`EmotionEngine.SurfaceLightness`).
- In the random-hue engine, `Math.round(hue % 360)` can give a hue of 360
  (`HueEngine.HueCanBe360`).

## Model

| member | source | states |
|---|---|---|
| `Strings.DeleteFirstAtStart` | src/components/PaletteGenerator.tsx:141 | `replace` with a string pattern (`DeleteFirst`) removes that pattern where it starts the string |
| `Strings.DeleteFirstChar` | src/components/PaletteGenerator.tsx:141 | replacing one character removes only its first occurrence, keeping what comes before and after it |
| `Strings.RemoveAll` | src/components/PaletteGenerator.tsx:141-143 | `replace(/,/g, "")` leaves no comma and adds no character |
| `Strings.RemoveAllConcat` | src/components/PaletteGenerator.tsx:141-143 | removing every comma from a concatenation removes them from each part |
| `Strings.RemoveAllAbsent` | src/components/PaletteGenerator.tsx:141-143 | a string without commas is left as it is |
| `Hsl.RoundHalfUp` | src/components/PaletteGenerator.tsx:64-66 | `Math.round` gives an integer within one half of its argument, halves rounded up |
| `Hsl.Mod360` | src/components/PaletteGenerator.tsx:64 | `% 360` of a non-negative number lies in [0, 360), of a negative one in (-360, 0]; it keeps numbers already in (-360, 360), takes 360 from those in [360, 720), and always differs from its argument by a whole multiple of 360 |
| `Hsl.ParseRender` | src/components/PaletteGenerator.tsx:70 | every colour the `hsl(${h}, ${s}%, ${l}%)` template prints (`Render`) reads back as the same three components |
| `Hsl.RenderInjective` | src/components/PaletteGenerator.tsx:70 | two colours that print the same are the same colour |
| `Records.Set` | src/components/PaletteGenerator.tsx:73 | after `p[k] = v`, reading `k` gives `v` and every other key reads as before; a new key is appended to the order and a present one keeps its place |
| `Records.SetWellFormed` | src/components/PaletteGenerator.tsx:73 | an assignment keeps every key listed once; a new key goes to the end of the order, a present one stays where it is |
| `HueEngine.ColorOf` | src/components/PaletteGenerator.tsx:59-71 | `generateColor`: the lightness is the rounded percentage clamped to [5, 95], the saturation the rounded percentage; a hue in [0, 360) is rounded as it is, one in [360, 720) after taking 360 from it, and any non-negative hue ends in [0, 360] |
| `HueEngine.GeneratedColor` | src/components/PaletteGenerator.tsx:59-71 | `generateColor` (`GenerateColor`) prints a colour that reads back as exactly the components `ColorOf` states |
| `HueEngine.ModeDoesNotChangeColor` | src/components/PaletteGenerator.tsx:67-69 | the two branches of the mode clamp are the same, so the mode never changes a colour |
| `HueEngine.GeneratedInRange` | src/components/PaletteGenerator.tsx:64-70 | every colour made from a non-negative hue parses back with hue in [0, 360] and lightness in [5, 95] |
| `HueEngine.HueCanBe360` | src/components/PaletteGenerator.tsx:64 | example, a witness that the closed bound of `PaletteInRange` is reached: with base hue 359.5 the primary has hue 360 |
| `HueEngine.WithAccents` | src/components/PaletteGenerator.tsx:73-80 | the four accent assignments leave the accent roles, in order |
| `HueEngine.AccentsDomain` | src/components/PaletteGenerator.tsx:73-80 | after them the record holds exactly `primary`, `secondary`, `accent` and `destructive` |
| `HueEngine.WithForegrounds` | src/components/PaletteGenerator.tsx:90-92 | the foreground loop keeps every key the record already has |
| `HueEngine.ForegroundsKeepOthers` | src/components/PaletteGenerator.tsx:90-92 | the foreground loop writes only the `-foreground` names of its keys |
| `HueEngine.ForegroundsOrder` | src/components/PaletteGenerator.tsx:90-92 | with fresh names, the loop appends one foreground per key, in key order |
| `HueEngine.ForegroundsValues` | src/components/PaletteGenerator.tsx:82-92 | each foreground is the contrast colour (`ContrastColor`, `getContrastColor`) of its key's value before the loop |
| `HueEngine.LoopOverAccents` | src/components/PaletteGenerator.tsx:82-92 | over the accents, the loop keeps them and gives each foreground its accent's contrast colour |
| `HueEngine.WithSurfaces` | src/components/PaletteGenerator.tsx:94-107 | the background, card and popover assignments keep every key already present |
| `HueEngine.SurfacesKeepOthers` | src/components/PaletteGenerator.tsx:94-107 | they write only the six surface roles |
| `HueEngine.SurfacesOrder` | src/components/PaletteGenerator.tsx:94-107 | the background, card and popover roles are appended in their order |
| `HueEngine.SurfacesValues` | src/components/PaletteGenerator.tsx:94-107 | their colours; `card-foreground` and `popover-foreground` copy `foreground`, and `popover` copies `background` |
| `HueEngine.DetailsKeepOthers` | src/components/PaletteGenerator.tsx:108-116 | the muted, border, input and ring assignments (`WithDetails`) write only those five roles |
| `HueEngine.DetailsOrder` | src/components/PaletteGenerator.tsx:108-116 | the muted, border, input and ring roles are appended in their order |
| `HueEngine.DetailsValues` | src/components/PaletteGenerator.tsx:108-116 | the colours `WithDetails` assigns; `input` copies `border`, and `ring` is `primary` at alpha 0.3 |
| `HueEngine.DetailsKeepSurfaces` | src/components/PaletteGenerator.tsx:108-116 | the last assignments leave the surface roles as they were |
| `HueEngine.LaterPhasesKeepEarlyRoles` | src/components/PaletteGenerator.tsx:94-116 | the assignments after the loop leave the accents and their foregrounds as they were |
| `HueEngine.RoleOrderDistinct` | src/components/PaletteGenerator.tsx:73-116 | the nineteen roles assigned are distinct |
| `HueEngine.PaletteOrder` | src/components/PaletteGenerator.tsx:73-116 | a generated palette lists its nineteen roles in assignment order |
| `HueEngine.PaletteWellFormed` | src/components/PaletteGenerator.tsx:56-118 | a generated palette lists each key once |
| `HueEngine.PaletteRoles` | src/components/PaletteGenerator.tsx:56-118 | a palette `generatePaletteForMode` builds (`PaletteWith` for a given `generateColor`, `PaletteForMode` for the mode's own): well formed, roles in assignment order, each holding its colour, the aliases copies |
| `HueEngine.PaletteAccents` | src/components/PaletteGenerator.tsx:73-80 | `primary` at the base hue, `secondary` and `accent` at +30 and +60 (mod 360), `destructive` at hue 0 |
| `HueEngine.AccentColors` | src/components/PaletteGenerator.tsx:55-80 | for a base hue in [0, 360), the accents' exact colours: saturations 60%, 50%, 70%, 85%; `destructive` at hue 0 whatever the base hue |
| `HueEngine.PaletteForegrounds` | src/components/PaletteGenerator.tsx:82-92 | each accent's foreground is the contrast colour of that accent in the finished palette |
| `HueEngine.ForegroundColors` | src/components/PaletteGenerator.tsx:82-92 | that foreground, `getContrastColor` (`ContrastColor`) of the accent, is `generateColor(baseHue, 0.1, 0.1)` above luminance 0.5 and `generateColor(baseHue, 0.1, 0.9)` otherwise, printed out |
| `HueEngine.PaletteSurfaces` | src/components/PaletteGenerator.tsx:94-107 | the surface colours of a palette; `card-foreground` = `popover-foreground` = `foreground`, `popover` = `background` |
| `HueEngine.PaletteDetails` | src/components/PaletteGenerator.tsx:108-116 | the last colours of a palette; `input` = `border`, `ring` from `primary` |
| `HueEngine.PaletteInRange` | src/components/PaletteGenerator.tsx:64-70 | in both modes every role but `ring` has lightness in [5, 95] and hue in [0, 360] |
| `HueEngine.ModesShareHues` | src/components/PaletteGenerator.tsx:121-124 | the light and dark palettes of one call give each accent the same hue |
| `HueEngine.BuildPaletteForMode` | src/components/PaletteGenerator.tsx:56-118 | the assignments and the `forEach` loop build exactly the specified palette |
| `HueSnippet.FormatColorValue` | src/components/PaletteGenerator.tsx:139-144 | `formatColorValue` leaves no comma and adds no character |
| `HueSnippet.FormatRendered` | src/components/PaletteGenerator.tsx:139-141 | a printed colour `hsl(h, s%, l%)` becomes `h s% l%` |
| `HueSnippet.FormatExample` | src/components/PaletteGenerator.tsx:139-141 | example: `hsl(210, 60%, 40%)` becomes `210 60% 40%` |
| `HueSnippet.FormatHslPrefixed` | src/components/PaletteGenerator.tsx:140-141 | any string opening with `hsl(` loses that opening, then the first `)` of the rest, then every comma |
| `HueSnippet.FormatOther` | src/components/PaletteGenerator.tsx:143 | a string not starting with `hsl` only loses its commas |
| `HueSnippet.SnippetLines` | src/components/PaletteGenerator.tsx:146-158 | the snippet (`CssSnippet`) line by line: `:root {`, one `  --key: value;` line per light entry in `Object.entries` order with the value formatted (`Block`), the radius, `}`, a blank line, `.dark {`, the dark entries likewise, `}` |
| `HueComponent.FlagText` | src/components/PaletteGenerator.tsx:135 | the URL's `dark` parameter is written as `true` or `false` |
| `HueComponent.FlagRoundTrip` | src/components/PaletteGenerator.tsx:38 | the flag written is the flag read back |
| `HueComponent.OnlyTrueIsDark` | src/components/PaletteGenerator.tsx:38 | only the exact text `true` reads as dark; `True`, `1` and a missing parameter read as light |
| `HueComponent.Generator.constructor` | src/components/PaletteGenerator.tsx:22-27 | empty palettes, no snippet, light mode |
| `HueComponent.Generator.LoadPaletteFromUrl` | src/components/PaletteGenerator.tsx:30-51 | with a palette parameter: adopt the decoded pair and the `dark` flag, or change nothing when decoding throws; without one: dark exactly when the theme is `dark`, or is `system` and the system theme is `dark` (`EffectiveTheme`) |
| `HueComponent.Generator.GenerateAccessiblePalette` | src/components/PaletteGenerator.tsx:53-131 | one base hue in [0, 360) for both the light and the dark palette |
| `HueComponent.Generator.OnModeChange` | src/components/PaletteGenerator.tsx:195-202 | set the mode; generate a pair only when the light palette is empty, otherwise keep the palettes |
| `HueComponent.Generator.GenerateCssSnippet` | src/components/PaletteGenerator.tsx:146-160 | the snippet of the current palettes |
| `EmotionEngine.Find` | src/components/PalleteGenerator.tsx:67 | `find` gives the colour of the first entry with the name, `None` exactly when no entry has it |
| `EmotionEngine.EmotionNamesDistinct` | src/components/PalleteGenerator.tsx:25-34 | no two emotions share a name |
| `EmotionEngine.BaseColorOfEmotion` | src/components/PalleteGenerator.tsx:25-34 | each emotion of the table gets its own colour |
| `EmotionEngine.UnknownEmotionIsBlack` | src/components/PalleteGenerator.tsx:66-67 | the base colour (`BaseColor`) of a name outside the table is `#000000` |
| `EmotionEngine.NoEmotionIsBlack` | src/components/PalleteGenerator.tsx:66-67 | so does the empty name, before any selection |
| `EmotionEngine.EmotionBaseComponents` | src/components/PalleteGenerator.tsx:66-73 | a selected emotion's base hue and saturation (`BaseHue`, `BaseSaturation`) are those chroma-js reads from its own colour, an undefined one reading as 0 |
| `EmotionEngine.UnknownEmotionComponents` | src/components/PalleteGenerator.tsx:66-73 | with no emotion or an unknown one they are those of `#000000`, an undefined one reading as 0 |
| `EmotionEngine.Clamp01` | src/components/PalleteGenerator.tsx:81-83 | `Math.max(0, Math.min(1, x))` lies in [0, 1], is `x` inside it and the nearer bound outside |
| `EmotionEngine.ColorOf` | src/components/PalleteGenerator.tsx:75-86 | saturation and lightness in [0, 100]; for lightness in [0, 1], `round(l·100)` in light mode and `round((1 − l)·100)` in dark mode; a hue in [0, 360) is rounded as it is, one in [360, 720) after taking 360 from it; `GenerateColor` prints these components, which read back as themselves by `Hsl.ParseRender` |
| `EmotionEngine.DarkMirrorsLight` | src/components/PalleteGenerator.tsx:82-84 | the dark colour is the light colour of `1 − l`, whose lightness is 100 less the light one unless rounding ties |
| `EmotionEngine.ContrastRendered` | src/components/PalleteGenerator.tsx:103-107 | the two colours `getContrastColor` (`ContrastColor`) can answer are the notation's black and white |
| `EmotionEngine.WithForegrounds` | src/components/PalleteGenerator.tsx:110-114 | the foreground loop keeps every key and keeps the record well formed |
| `EmotionEngine.ForegroundsOfAccents` | src/components/PalleteGenerator.tsx:110-114 | over accent keys, the loop assigns their contrast colours under the `-foreground` names, in order |
| `EmotionEngine.ForegroundsSkipOthers` | src/components/PalleteGenerator.tsx:111 | keys that are not accents get no foreground |
| `EmotionEngine.SetAllOrder` | src/components/PalleteGenerator.tsx:142-144 | distinct new keys are appended in the order assigned |
| `EmotionEngine.SetAllValue` | src/components/PalleteGenerator.tsx:142-144 | with distinct keys, each key ends with its own value |
| `EmotionEngine.AfterForegrounds` | src/components/PalleteGenerator.tsx:89-114 | the accents then the loop are the accents then their foregrounds, assigned in list order |
| `EmotionEngine.ReferenceKeys` | src/components/PalleteGenerator.tsx:89-147 | the listed roles are distinct and, followed by `ring`, are the nineteen roles in assignment order |
| `EmotionEngine.AssembleEntries` | src/components/PalleteGenerator.tsx:88-147 | the assembled record is well formed, in role order, holding every listed value, with the ring from the primary |
| `EmotionEngine.PaletteEntries` | src/components/PalleteGenerator.tsx:64-149 | the generated palette (`PaletteFor`: the accents, the foreground loop, the table rows, the ring) holds exactly the independent list, in its order, then the ring |
| `EmotionEngine.ColorKeysAreRoles` | src/components/PalleteGenerator.tsx:36-56 | `colorKeys` names exactly the nineteen roles |
| `EmotionEngine.PaletteKeys` | src/components/PalleteGenerator.tsx:89-147 | the palette has 19 keys, exactly those `colorKeys` names, although `colorKeys` is never read |
| `EmotionEngine.PalettePercentages` | src/components/PalleteGenerator.tsx:81-85 | every value but `ring` is in the notation with saturation and lightness in [0, 100], in both modes |
| `EmotionEngine.ForegroundRule` | src/components/PalleteGenerator.tsx:103-114 | each accent foreground is `hsl(0, 0%, 0%)` above luminance 0.5 and `hsl(0, 0%, 100%)` otherwise |
| `EmotionEngine.PaletteTableRows` | src/components/PalleteGenerator.tsx:117-144 | every row of `remainingColors` (`RemainingColors`) ends in the palette as its key and `generateColor` of its parameters (`Generated`) |
| `EmotionEngine.Aliases` | src/components/PalleteGenerator.tsx:117-144 | `card-foreground` and `popover-foreground` equal `foreground`, `popover` equals `background`, `input` equals `border` |
| `EmotionEngine.RingOfPrimary` | src/components/PalleteGenerator.tsx:147 | the ring is the primary at alpha 0.3 |
| `EmotionEngine.PaletteAccent` | src/components/PalleteGenerator.tsx:89-100 | each of the four accents (`Accents`) ends in the palette with the colour `generateColor` gives it |
| `EmotionEngine.DestructiveFixed` | src/components/PalleteGenerator.tsx:100 | `destructive` is `hsl(0, 85%, 50%)` in both modes |
| `EmotionEngine.SurfaceLightness` | src/components/PalleteGenerator.tsx:118-119 | background lightness 98% light and 90% dark, foreground 20% light and 10% dark: the dark values are inverted twice |
| `EmotionEngine.BuildPalette` | src/components/PalleteGenerator.tsx:68-147 | the assignments and both loops build exactly the specified palette |
| `EmotionEngine.AccentsAssigned` | src/components/PalleteGenerator.tsx:89-100 | the four accent assignments are the accent list assigned in order |
| `EmotionEngine.AddForegrounds` | src/components/PalleteGenerator.tsx:110-114 | the loop over the keys present when it starts is the specified foreground step |
| `EmotionEngine.AddRows` | src/components/PalleteGenerator.tsx:142-144 | the loop over the table is the table's rows assigned in order |
| `EmotionEngine.Complete` | src/components/PalleteGenerator.tsx:109-147 | both loops and the ring, after the accents, give the specified palette |
| `EmotionSnippet.SnippetLines` | src/components/PalleteGenerator.tsx:156-170 | the snippet (`CssSnippet`) line by line: `:root {`, one `  --key: value;` line per entry in insertion order with the value verbatim (`Lines`), the radius, `}`, a blank line, `.dark {`, the same entries, `}` |
| `EmotionComponent.Generator.constructor` | src/components/PalleteGenerator.tsx:59-62 | no emotion, an empty palette, no snippet, light mode |
| `EmotionComponent.Generator.SelectEmotion` | src/components/PalleteGenerator.tsx:185 | selecting an emotion sets it and nothing else |
| `EmotionComponent.Generator.SetDarkMode` | src/components/PalleteGenerator.tsx:202 | the switch sets the mode and does not regenerate the palette |
| `EmotionComponent.Generator.GenerateAccessiblePalette` | src/components/PalleteGenerator.tsx:64-154 | the palette for the chosen emotion's hue and saturation in the current mode, well formed |
| `EmotionComponent.Generator.GenerateCssSnippet` | src/components/PalleteGenerator.tsx:156-171 | the snippet of the current palette |

## Left out

- chroma-js colour science: `luminance()` (the WCAG relative luminance),
  `alpha(0.3).css()` and the hex-to-HSL reading are parameters of type
  `Chroma`. The model says nothing about their values. So it does not state
  that a foreground actually contrasts with its accent, nor what text the
  ring holds.
- Floating point: numbers are exact reals, and `Math.round` is round half
  up. IEEE rounding error (for example the dark foreground's `(1 - 0.9) * 100`,
  which is `9.999999999999998` rather than 10, though it still rounds to 10) is
  not modelled.
- `Math.random()` is the parameter `baseHue` of the random-hue engine,
  required to lie in [0, 360).
- `btoa`/`atob` and `JSON.stringify`/`JSON.parse` are the decoding function
  `decode`: `None` where they throw. A decoded pair is assumed well formed
  (a record with each key listed once).
- JSON of another shape in the `palette` parameter: the component stores
  whatever `JSON.parse` returns without checking it
  (src/components/PaletteGenerator.tsx:36-37). `decode` can only return a
  `{ light, dark }` pair of string records, so this case is not modelled.
- `updateURL` and `window.history.pushState`: the URL the component writes
  is not modelled beyond the `dark` flag's text (`HueComponent.FlagText`).
  The mode-toggle branch that only rewrites the URL keeps the palettes.
- `navigator.clipboard`, `alert`, `console.error`, the Share Link button,
  the dialog, Mockup, ModeToggle and the React render and effect cycle are
  not modelled.
- The `try`/`catch` around each `generateAccessiblePalette`: inside the
  palette builders only chroma-js could throw, and it is a parameter that
  always answers. In the random-hue component the `try` also wraps
  `updateURL`, whose `btoa` and `pushState` can throw. That call comes after
  `setPalettes`, so a throw there changes nothing the model tracks.
- `HueComponent.Generator.GenerateCssSnippet` and
  `EmotionComponent.Generator.GenerateCssSnippet` require the palettes to be
  well formed, which every handler of the model preserves. A record that
  lists a key twice cannot arise in the source.
- `EmotionComponent.Generator.GenerateAccessiblePalette`: the Generate
  button is disabled while no emotion is chosen. The model allows the call
  anyway; the empty name falls back to black (`EmotionEngine.NoEmotionIsBlack`).
- `HueSnippet.FormatColorValue`: its own contract states only that no comma
  is left and nothing is added. Its exact result is stated for printed
  colours (`HueSnippet.FormatRendered`), for any string opening with `hsl(`
  (`HueSnippet.FormatHslPrefixed`) and for strings not starting with `hsl`
  (`HueSnippet.FormatOther`). A string starting with `hsl` but not `hsl(`,
  such as an `hsla(…)` value loaded from the URL, has no lemma of its own.
- `EmotionEngine.ColorOf`: the exact lightness and saturation are stated
  for arguments in [0, 1]. Outside that range it states only the bounds the
  clamp gives.

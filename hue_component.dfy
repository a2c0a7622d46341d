/**
 * The state of the random-hue component (src/components/PaletteGenerator.tsx)
 * and the handlers that update it: loading a shared palette from the URL,
 * generating a palette pair, toggling the mode and exporting the stylesheet.
 *
 * The query string, the theme hook and `Math.random()` become parameters; the
 * Base64-and-JSON decoding of a shared palette becomes the function `decode`,
 * `None` where `atob` or `JSON.parse` throws.
 */
module HueComponent {

  import opened Wrappers
  import opened Records
  import opened Hsl
  import opened HueEngine
  import opened HueSnippet

  /** `if (urlPalette)`: a missing parameter and the empty string are both falsy. */
  predicate Truthy(param: Option<string>) {
    param.Some? && param.value != ""
  }

  /** `dark === "true"`: only that exact text, and not a missing parameter, means dark. */
  predicate DarkFlag(dark: Option<string>) {
    dark == Some("true")
  }

  /** How `updateURL` writes the mode into the `dark` parameter. */
  function FlagText(isDark: bool): (r: string)
    ensures r == "true" || r == "false"
  {
    if isDark then "true" else "false"
  }

  /** The flag `updateURL` writes is the flag the loader reads back. */
  lemma FlagRoundTrip(isDark: bool)
    ensures DarkFlag(Some(FlagText(isDark))) == isDark
  {
  }

  /** Any other text, however close, reads as light. */
  lemma OnlyTrueIsDark(dark: Option<string>)
    ensures DarkFlag(dark) <==> dark.Some? && dark.value == "true"
    ensures !DarkFlag(Some("True")) && !DarkFlag(Some("1")) && !DarkFlag(None)
  {
  }

  /** `theme === "system" ? systemTheme : theme`. */
  function EffectiveTheme(theme: Option<string>, systemTheme: Option<string>): (r: Option<string>)
    ensures theme == Some("system") ==> r == systemTheme
    ensures theme != Some("system") ==> r == theme
  {
    if theme == Some("system") then systemTheme else theme
  }

  class Generator {

    /** The `{ light, dark }` palettes. */
    var palettes: Palettes
    /** The exported stylesheet text. */
    var cssSnippet: string
    var isDarkMode: bool

    /** Both palettes are records whose keys are listed once each. */
    ghost predicate Valid()
      reads this
    {
      WellFormed(palettes.light) && WellFormed(palettes.dark)
    }

    /** The initial state: empty palettes, no snippet, light mode. */
    constructor()
      ensures palettes == Palettes(Empty, Empty) && cssSnippet == "" && !isDarkMode
      ensures Valid()
    {
      palettes := Palettes(Empty, Empty);
      cssSnippet := "";
      isDarkMode := false;
    }

    /**
     * `loadPaletteFromURL`: with a `palette` parameter, adopt what it decodes
     * to and take the mode from `dark`, or change nothing when decoding
     * throws; without one, take the mode from the theme.
     */
    method LoadPaletteFromUrl(palette: Option<string>, dark: Option<string>, decode: string -> Option<Palettes>,
                              theme: Option<string>, systemTheme: Option<string>)
      requires Valid()
      requires forall s :: decode(s).Some? ==> WellFormed(decode(s).value.light) && WellFormed(decode(s).value.dark)
      modifies this
      ensures Valid()
      ensures cssSnippet == old(cssSnippet)
      ensures Truthy(palette) && decode(palette.value).Some? ==>
        palettes == decode(palette.value).value && isDarkMode == DarkFlag(dark)
      ensures Truthy(palette) && decode(palette.value).None? ==>
        palettes == old(palettes) && isDarkMode == old(isDarkMode)
      ensures !Truthy(palette) ==>
        palettes == old(palettes) && isDarkMode == (EffectiveTheme(theme, systemTheme) == Some("dark"))
    {
      if Truthy(palette) {
        var decoded := decode(palette.value);
        if decoded.Some? {
          palettes := decoded.value;
          isDarkMode := DarkFlag(dark);
        }
      } else {
        var effectiveTheme := EffectiveTheme(theme, systemTheme);
        isDarkMode := effectiveTheme == Some("dark");
      }
    }

    /**
     * `generateAccessiblePalette`: one base hue, drawn from [0, 360), for
     * both the light and the dark palette.
     */
    method GenerateAccessiblePalette(baseHue: real, chroma: Chroma)
      requires 0.0 <= baseHue < 360.0
      modifies this`palettes
      ensures palettes.light == PaletteForMode(baseHue, false, chroma)
      ensures palettes.dark == PaletteForMode(baseHue, true, chroma)
      ensures Valid()
    {
      var light := BuildPaletteForMode(baseHue, false, ColorGenerator(false), chroma);
      var dark := BuildPaletteForMode(baseHue, true, ColorGenerator(true), chroma);
      PaletteWellFormed(baseHue, false, ColorGenerator(false), chroma);
      PaletteWellFormed(baseHue, true, ColorGenerator(true), chroma);
      palettes := Palettes(light, dark);
    }

    /**
     * The mode toggle: set the mode, and generate a palette pair only when
     * the light palette is still empty (otherwise the source only rewrites
     * the URL).
     */
    method OnModeChange(checked: bool, baseHue: real, chroma: Chroma)
      requires 0.0 <= baseHue < 360.0
      requires Valid()
      modifies this`isDarkMode, this`palettes
      ensures isDarkMode == checked
      ensures Valid()
      ensures |old(palettes.light.order)| > 0 ==> palettes == old(palettes)
      ensures |old(palettes.light.order)| == 0 ==>
        palettes.light == PaletteForMode(baseHue, false, chroma) && palettes.dark == PaletteForMode(baseHue, true, chroma)
    {
      isDarkMode := checked;
      if |palettes.light.order| == 0 {
        GenerateAccessiblePalette(baseHue, chroma);
      } else {
        assert Valid();
      }
    }

    /** `generateCssSnippet`: the stylesheet for the current palettes. */
    method GenerateCssSnippet()
      requires Valid()
      modifies this`cssSnippet
      ensures cssSnippet == CssSnippet(palettes.light, palettes.dark)
    {
      cssSnippet := CssSnippet(palettes.light, palettes.dark);
    }
  }
}

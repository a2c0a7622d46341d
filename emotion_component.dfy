/**
 * The state of the emotion component (src/components/PalleteGenerator.tsx)
 * and its handlers: choosing an emotion, switching the mode, generating the
 * palette for both and exporting the stylesheet.
 *
 * chroma-js is the `Chroma` parameter; the mode switch does not regenerate
 * the palette, which keeps the mode it was generated for until the next
 * generation.
 */
module EmotionComponent {

  import opened Records
  import opened Hsl
  import opened EmotionEngine
  import opened EmotionSnippet

  class Generator {

    /** The chosen emotion, `""` until one is selected. */
    var baseEmotion: string
    var palette: Record
    /** The exported stylesheet text. */
    var cssSnippet: string
    var isDarkMode: bool

    /** The palette is a record whose keys are listed once each. */
    ghost predicate Valid()
      reads this
    {
      WellFormed(palette)
    }

    /** The initial state: no emotion, an empty palette, no snippet, light mode. */
    constructor()
      ensures baseEmotion == "" && palette == Empty && cssSnippet == "" && !isDarkMode
      ensures Valid()
    {
      baseEmotion := "";
      palette := Empty;
      cssSnippet := "";
      isDarkMode := false;
    }

    /** The emotion selector's `onValueChange`. */
    method SelectEmotion(name: string)
      modifies this`baseEmotion
      ensures baseEmotion == name
    {
      baseEmotion := name;
    }

    /** The switch's `onCheckedChange`: only the mode changes, the palette stays as generated. */
    method SetDarkMode(checked: bool)
      modifies this`isDarkMode
      ensures isDarkMode == checked
    {
      isDarkMode := checked;
    }

    /**
     * `generateAccessiblePalette`: the palette for the chosen emotion's hue and
     * saturation (zero when chroma-js gives none), in the current mode.
     */
    method GenerateAccessiblePalette(chroma: Chroma)
      modifies this`palette
      ensures palette == PaletteFor(BaseHue(chroma, baseEmotion), BaseSaturation(chroma, baseEmotion), isDarkMode, chroma)
      ensures Valid()
    {
      var baseHue := BaseHue(chroma, baseEmotion);
      var baseSaturation := BaseSaturation(chroma, baseEmotion);
      palette := BuildPalette(baseHue, baseSaturation, isDarkMode, chroma);
      PaletteEntries(baseHue, baseSaturation, isDarkMode, chroma);
    }

    /** `generateCssSnippet`: the stylesheet for the current palette. */
    method GenerateCssSnippet()
      requires Valid()
      modifies this`cssSnippet
      ensures cssSnippet == CssSnippet(palette)
    {
      cssSnippet := CssSnippet(palette);
    }
  }
}

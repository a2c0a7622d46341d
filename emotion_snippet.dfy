/**
 * The stylesheet export of the emotion engine (src/components/PalleteGenerator.tsx,
 * `generateCssSnippet`): the one palette, its values printed as they are,
 * under `:root` with the radius and again under `.dark`.
 */
module EmotionSnippet {

  import opened Strings
  import opened Records
  import HueSnippet

  /** The declarations of the palette, one per entry in insertion order, each value verbatim. */
  // Its ensures unfold the body for the proofs; what it promises is proved in SnippetLines.
  function Lines(p: Record): (lines: seq<string>)
    requires WellFormed(p)
    ensures |lines| == |p.order|
    ensures forall i :: 0 <= i < |lines| ==> lines[i] == Declaration(p.order[i], p.values[p.order[i]])
  {
    Declarations(p, v => v)
  }

  /** The `:root` block, with the radius after the palette. */
  function LightSnippet(p: Record): string
    requires WellFormed(p)
  {
    ":root {\n" + Join(Lines(p), '\n') + "\n  --radius: 0.5rem;\n}"
  }

  /** The `.dark` block: the same declarations, without the radius. */
  function DarkSnippet(p: Record): string
    requires WellFormed(p)
  {
    ".dark {\n" + Join(Lines(p), '\n') + "\n}"
  }

  /** The two blocks, separated by a blank line. */
  function CssSnippet(p: Record): string
    requires WellFormed(p)
  {
    LightSnippet(p) + "\n\n" + DarkSnippet(p)
  }

  /** No declaration of a single-line record holds a line break. */
  lemma LinesSingleLine(p: Record)
    requires WellFormed(p) && SingleLine(p)
    ensures forall i :: 0 <= i < |Lines(p)| ==> '\n' !in Lines(p)[i]
  {
    forall i | 0 <= i < |Lines(p)|
      ensures '\n' !in Lines(p)[i]
    {
      var k := p.order[i];
      assert '\n' !in k && '\n' !in p.values[k];
      assert Lines(p)[i] == "  --" + k + ": " + p.values[k] + ";";
    }
  }

  /**
   * Read line by line, the snippet is `:root {`, a declaration per entry, the
   * radius, `}`, a blank line, `.dark {`, the same declarations again and `}`:
   * both modes get the one palette, whichever mode it was generated for.
   */
  lemma SnippetLines(p: Record)
    requires WellFormed(p) && SingleLine(p)
    ensures Split(CssSnippet(p), '\n')
      == [":root {"] + Pieces(Lines(p)) + ["  --radius: 0.5rem;", "}", "", ".dark {"] + Pieces(Lines(p)) + ["}"]
  {
    var body := Join(Lines(p), '\n');
    assert CssSnippet(p) == ":root {\n" + body + "\n  --radius: 0.5rem;\n}\n\n.dark {\n" + body + "\n}";
    LinesSingleLine(p);
    HueSnippet.SplitFrame(Lines(p), Lines(p));
  }
}

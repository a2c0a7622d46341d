/**
 * The stylesheet export of the random-hue engine (src/components/PaletteGenerator.tsx):
 * `formatColorValue`, which turns `hsl(h, s%, l%)` into the space-separated
 * `h s% l%` form, and `generateCssSnippet`, which prints the light palette
 * under `:root` and the dark one under `.dark`.
 */
module HueSnippet {

  import opened Strings
  import opened Records
  import opened Hsl

  /**
   * `formatColorValue`: on a string starting with `hsl`, drop the first `hsl(`
   * and then the first `)`; on any string, drop every comma.
   */
  function FormatColorValue(color: string): (r: string)
    ensures ',' !in r
    ensures forall c :: c in r ==> c in color
  {
    if StartsWith(color, "hsl") then RemoveAll(DeleteFirst(DeleteFirst(color, "hsl("), ")"), ',')
    else RemoveAll(color, ',')
  }

  /** Dropping the commas of `h, s%, l%` leaves `h s% l%`. */
  lemma RemoveCommas(h: string, sat: string, l: string)
    requires ',' !in h && ',' !in sat && ',' !in l
    ensures RemoveAll(h + [','] + ((" " + sat + "%") + [','] + (" " + l + "%")), ',')
      == h + (" " + sat + "%") + (" " + l + "%")
  {
    RemoveAllAfter(h, ',', (" " + sat + "%") + [','] + (" " + l + "%"));
    RemoveAllAfter(" " + sat + "%", ',', " " + l + "%");
    RemoveAllAbsent(" " + l + "%", ',');
  }

  /** Dropping `hsl(` and then the first `)` from `hsl(body)` leaves the body, when it holds no `)`. */
  lemma StripNotation(body: string)
    requires ')' !in body
    ensures StartsWith("hsl(" + (body + ")"), "hsl")
    ensures DeleteFirst(DeleteFirst("hsl(" + (body + ")"), "hsl("), ")") == body
  {
    assert ("hsl(" + (body + ")"))[..3] == "hsl";
    DeleteFirstAtStart("hsl(", body + ")");
    DeleteFirstChar(body, ')', []);
    assert body + ")" == body + [')'] + [];
  }

  /** A rendered colour is `hsl(`, its components separated by commas, and `)`. */
  lemma RenderedNotation(c: Color)
    ensures var h, sat, l := IntToString(c.h), IntToString(c.s), IntToString(c.l);
      Render(c) == "hsl(" + (h + [','] + ((" " + sat + "%") + [','] + (" " + l + "%")) + ")")
  {
    var s := Render(c);
    RenderBody(IntToString(c.h), IntToString(c.s), IntToString(c.l));
    assert s == s[..4] + s[4..|s| - 1] + [s[|s| - 1]];
  }

  /** A rendered colour comes out as its three components separated by spaces. */
  lemma FormatRendered(c: Color)
    ensures FormatColorValue(Render(c))
      == IntToString(c.h) + " " + IntToString(c.s) + "%" + " " + IntToString(c.l) + "%"
  {
    var h, sat, l := IntToString(c.h), IntToString(c.s), IntToString(c.l);
    var body := h + [','] + ((" " + sat + "%") + [','] + (" " + l + "%"));
    RenderedNotation(c);
    StripNotation(body);
    RemoveCommas(h, sat, l);
  }

  lemma ExampleDigits()
    ensures IntToString(210) == "210" && IntToString(60) == "60" && IntToString(40) == "40"
  {
    assert NatToString(21) == NatToString(2) + [DigitChar(1)] == "21";
    assert NatToString(210) == NatToString(21) + [DigitChar(0)] == "210";
    assert NatToString(60) == NatToString(6) + [DigitChar(0)] == "60";
    assert NatToString(40) == NatToString(4) + [DigitChar(0)] == "40";
  }

  /** For example: `hsl(210, 60%, 40%)` becomes `210 60% 40%`. */
  lemma FormatExample(color: string)
    requires color == "hsl(210, 60%, 40%)"
    ensures FormatColorValue(color) == "210 60% 40%"
  {
    ExampleDigits();
    assert Render(Color(210, 60, 40)) == color;
    FormatRendered(Color(210, 60, 40));
  }

  /**
   * Any string opening with `hsl(`, printed here or not: the opening goes, then
   * the first `)` of the rest, then every comma.
   */
  lemma FormatHslPrefixed(rest: string)
    ensures FormatColorValue("hsl(" + rest) == RemoveAll(DeleteFirst(rest, ")"), ',')
  {
    assert ("hsl(" + rest)[..3] == "hsl";
    DeleteFirstAtStart("hsl(", rest);
  }

  /** A string that does not start with `hsl` only loses its commas. */
  lemma FormatOther(color: string)
    requires !StartsWith(color, "hsl")
    ensures FormatColorValue(color) == RemoveAll(color, ',')
    ensures ',' !in color ==> FormatColorValue(color) == color
  {
    if ',' !in color {
      RemoveAllAbsent(color, ',');
    }
  }

  /** The lines of one block: a declaration per entry, in insertion order. */
  // Its ensures unfold the body for the proofs; what it promises is proved in SnippetLines.
  function Block(p: Record): (lines: seq<string>)
    requires WellFormed(p)
    ensures |lines| == |p.order|
    ensures forall i :: 0 <= i < |lines| ==>
      lines[i] == Declaration(p.order[i], FormatColorValue(p.values[p.order[i]]))
  {
    Declarations(p, FormatColorValue)
  }

  /** `generateCssSnippet`: the light palette under `:root`, with the radius, and the dark one under `.dark`. */
  function CssSnippet(light: Record, dark: Record): string
    requires WellFormed(light) && WellFormed(dark)
  {
    ":root {\n" + Join(Block(light), '\n') + "\n  --radius: 0.5rem;\n}\n\n.dark {\n"
      + Join(Block(dark), '\n') + "\n}"
  }

  /** No declaration of a single-line record holds a line break. */
  lemma BlockSingleLine(p: Record)
    requires WellFormed(p) && SingleLine(p)
    ensures forall i :: 0 <= i < |Block(p)| ==> '\n' !in Block(p)[i]
  {
    forall i | 0 <= i < |Block(p)|
      ensures '\n' !in Block(p)[i]
    {
      var k := p.order[i];
      assert '\n' !in k && '\n' !in p.values[k];
      assert Block(p)[i] == "  --" + k + ": " + FormatColorValue(p.values[k]) + ";";
    }
  }

  /**
   * Read line by line, the snippet is `:root {`, a declaration per light entry,
   * the radius, `}`, a blank line, `.dark {`, a declaration per dark entry and
   * `}`: the radius is declared in `:root` only. An empty palette leaves one
   * empty line in its block.
   */
  lemma SnippetLines(light: Record, dark: Record)
    requires WellFormed(light) && WellFormed(dark) && SingleLine(light) && SingleLine(dark)
    ensures Split(CssSnippet(light, dark), '\n')
      == [":root {"] + Pieces(Block(light)) + ["  --radius: 0.5rem;", "}", "", ".dark {"] + Pieces(Block(dark)) + ["}"]
  {
    BlockSingleLine(light);
    BlockSingleLine(dark);
    SplitFrame(Block(light), Block(dark));
  }

  /** Splitting the snippet's frame around two blocks of single lines. */
  lemma {:induction false} SplitFrame(la: seq<string>, lb: seq<string>)
    requires forall i :: 0 <= i < |la| ==> '\n' !in la[i]
    requires forall i :: 0 <= i < |lb| ==> '\n' !in lb[i]
    ensures Split(":root {\n" + Join(la, '\n') + "\n  --radius: 0.5rem;\n}\n\n.dark {\n" + Join(lb, '\n') + "\n}", '\n')
      == [":root {"] + Pieces(la) + ["  --radius: 0.5rem;", "}", "", ".dark {"] + Pieces(lb) + ["}"]
  {
    var a, b := Join(la, '\n'), Join(lb, '\n');
    var r6 := b + "\n" + "}";
    var r5 := ".dark {" + "\n" + r6;
    var r4 := "" + "\n" + r5;
    var r3 := "}" + "\n" + r4;
    var r2 := "  --radius: 0.5rem;" + "\n" + r3;
    var r1 := a + "\n" + r2;
    SnippetText(a, b);
    SplitJoinThen(lb, '\n', "}");
    SplitWithout("}", '\n');
    var t6 := Pieces(lb) + ["}"];
    assert Split(r6, '\n') == t6;
    SplitAt(".dark {", '\n', r6);
    SplitAt("", '\n', r5);
    SplitAt("}", '\n', r4);
    SplitAt("  --radius: 0.5rem;", '\n', r3);
    var t2 := ["  --radius: 0.5rem;"] + (["}"] + ([""] + ([".dark {"] + t6)));
    assert Split(r2, '\n') == t2;
    SplitJoinThen(la, '\n', r2);
    SplitAt(":root {", '\n', r1);
    assert Split(":root {" + "\n" + r1, '\n') == [":root {"] + (Pieces(la) + t2);
    FrameLines(Pieces(la), Pieces(lb));
  }

  lemma FrameLines(a: seq<string>, b: seq<string>)
    ensures [":root {"] + (a + (["  --radius: 0.5rem;"] + (["}"] + ([""] + ([".dark {"] + (b + ["}"]))))))
      == [":root {"] + a + ["  --radius: 0.5rem;", "}", "", ".dark {"] + b + ["}"]
  {
  }

  /** The snippet's text, cut at the line breaks outside the two blocks. */
  lemma SnippetText(a: string, b: string)
    ensures ":root {\n" + a + "\n  --radius: 0.5rem;\n}\n\n.dark {\n" + b + "\n}"
      == ":root {" + "\n" + (a + "\n" + ("  --radius: 0.5rem;" + "\n" + ("}" + "\n" + ("" + "\n" + (".dark {" + "\n" + (b + "\n" + "}"))))))
  {
  }
}

/**
 * Colours as both engines write them: the HSL functional notation of CSS
 * Color Module Level 3 (section 4.2.4), `hsl(H, S%, L%)`, with integer
 * components. Also the number handling both engines share: `Math.round`
 * (round half up) and the remainder operator `% 360` on numbers, modelled
 * on unbounded reals, and the chroma-js calls they make, which the model
 * takes as given functions.
 */
module Hsl {

  import opened Wrappers
  import opened Strings

  datatype Color = Color(h: int, s: int, l: int)

  /** The template literal `hsl(${h}, ${s}%, ${l}%)`. */
  function Render(c: Color): string {
    "hsl(" + IntToString(c.h) + ", " + IntToString(c.s) + "%, " + IntToString(c.l) + "%)"
  }

  predicate IsPercentField(f: string) {
    |f| >= 2 && f[0] == ' ' && f[|f| - 1] == '%'
  }

  /** Reads the notation back: `hsl(`, three comma-separated integers, the last two percentages, `)`. */
  function Parse(s: string): Option<Color> {
    if |s| >= 5 && StartsWith(s, "hsl(") && s[|s| - 1] == ')' then
      var parts := Split(s[4..|s| - 1], ',');
      if |parts| == 3 && IsPercentField(parts[1]) && IsPercentField(parts[2]) then
        var h := ParseInt(parts[0]);
        var sat := ParseInt(parts[1][1..|parts[1]| - 1]);
        var l := ParseInt(parts[2][1..|parts[2]| - 1]);
        if h.Some? && sat.Some? && l.Some? then Some(Color(h.value, sat.value, l.value)) else None
      else None
    else None
  }

  /** The part of a rendered colour between `hsl(` and `)`. */
  lemma {:induction false} RenderBody(h: string, sat: string, l: string)
    ensures var s := "hsl(" + h + ", " + sat + "%, " + l + "%)";
      |s| >= 5 && StartsWith(s, "hsl(") && s[|s| - 1] == ')' &&
      s[4..|s| - 1] == h + [','] + ((" " + sat + "%") + [','] + (" " + l + "%"))
  {
    var s := "hsl(" + h + ", " + sat + "%, " + l + "%)";
    var body := h + [','] + ((" " + sat + "%") + [','] + (" " + l + "%"));
    assert s == "hsl(" + body + ")";
  }

  /** The three fields of a rendered colour, split at its commas. */
  lemma {:induction false} RenderFields(h: string, sat: string, l: string)
    requires ',' !in h && ',' !in sat && ',' !in l
    ensures Split(h + [','] + ((" " + sat + "%") + [','] + (" " + l + "%")), ',')
      == [h, " " + sat + "%", " " + l + "%"]
  {
    SplitAt(h, ',', (" " + sat + "%") + [','] + (" " + l + "%"));
    SplitAt(" " + sat + "%", ',', " " + l + "%");
    SplitWithout(" " + l + "%", ',');
  }

  /** Every rendered colour reads back as itself, so a rendered string determines its components. */
  lemma ParseRender(c: Color)
    ensures Parse(Render(c)) == Some(c)
  {
    var h, sat, l := IntToString(c.h), IntToString(c.s), IntToString(c.l);
    RenderBody(h, sat, l);
    RenderFields(h, sat, l);
    assert (" " + sat + "%")[1..|sat| + 1] == sat;
    assert (" " + l + "%")[1..|l| + 1] == l;
    ParseIntToString(c.h);
    ParseIntToString(c.s);
    ParseIntToString(c.l);
  }

  lemma RenderInjective(a: Color, b: Color)
    requires Render(a) == Render(b)
    ensures a == b
  {
    ParseRender(a);
    ParseRender(b);
  }

  /** `Math.round(x)`: the integer nearest to `x`, halves rounded up. */
  function RoundHalfUp(x: real): (r: int)
    ensures x - 0.5 < r as real <= x + 0.5
  {
    (x + 0.5).Floor
  }

  /** `x % 360` on numbers: the remainder of truncating division, with the sign of `x`. */
  function Mod360(x: real): (r: real)
    ensures 0.0 <= x ==> 0.0 <= r < 360.0
    ensures x < 0.0 ==> -360.0 < r <= 0.0
    ensures 0.0 <= x < 360.0 ==> r == x
    ensures 360.0 <= x < 720.0 ==> r == x - 360.0
    ensures -360.0 < x < 0.0 ==> r == x
    ensures (x - r) / 360.0 == ((x - r) / 360.0).Floor as real
  {
    var q := x / 360.0;
    var t := if q >= 0.0 then q.Floor else -((-q).Floor);
    x - 360.0 * t as real
  }

  function Min(a: int, b: int): int {
    if a <= b then a else b
  }

  function Max(a: int, b: int): int {
    if a >= b then a else b
  }

  /**
   * The chroma-js calls the engines make, given as functions: the relative
   * luminance of a colour string, `chroma(c).alpha(a).css()`, and the hue and
   * saturation of a colour (`get("hsl.h")`, `get("hsl.s")`), `None` where
   * chroma yields `NaN`.
   */
  datatype Chroma = Chroma(
    luminance: string -> real,
    withAlpha: (string, real) -> string,
    hslHue: string -> Option<real>,
    hslSaturation: string -> Option<real>)
}

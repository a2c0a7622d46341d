/**
 * The emotion-based palette engine of src/components/PalleteGenerator.tsx.
 *
 * An emotion names a hex colour; its hue and saturation (read through
 * chroma-js, given here as the functions of a `Chroma` value) seed one
 * palette of nineteen roles for the current mode. The palette is built by
 * assignments into an empty record: four accents, a `forEach` over the keys
 * that adds their foregrounds, a `forEach` over the `remainingColors` table
 * and the ring.
 */
module EmotionEngine {

  import opened Wrappers
  import opened Strings
  import opened Records
  import opened Hsl
  import HueEngine

  /** An entry of the `emotions` table. */
  datatype Emotion = Emotion(name: string, color: string)

  const Emotions: seq<Emotion> := [
    Emotion("Trust and Stability", "#0000FF"),
    Emotion("Energy and Excitement", "#FF0000"),
    Emotion("Optimism and Cheerfulness", "#FFFF00"),
    Emotion("Growth and Harmony", "#00FF00"),
    Emotion("Luxury and Creativity", "#800080"),
    Emotion("Friendliness and Confidence", "#FFA500"),
    Emotion("Sophistication and Elegance", "#000000"),
    Emotion("Purity and Simplicity", "#FFFFFF")]

  /** The `colorKeys` table: the roles a palette is meant to have (the component never reads it). */
  const ColorKeys: seq<string> := [
    "background", "foreground", "card", "card-foreground", "popover", "popover-foreground",
    "primary", "primary-foreground", "secondary", "secondary-foreground", "muted", "muted-foreground",
    "accent", "accent-foreground", "destructive", "destructive-foreground", "border", "input", "ring"]

  /** `emotions.find((e) => e.name === name)?.color`: the colour of the first entry with that name. */
  function Find(es: seq<Emotion>, name: string): (r: Option<string>)
    ensures r.None? <==> forall i :: 0 <= i < |es| ==> es[i].name != name
    ensures forall i :: 0 <= i < |es| && es[i].name == name ==>
                          (forall j :: 0 <= j < i ==> es[j].name != name) ==> r == Some(es[i].color)
  {
    if es == [] then None
    else if es[0].name == name then Some(es[0].color)
    else
      Find(es[1..], name)
  }

  /** `… || "#000000"`: an unknown emotion, or none, falls back to black. */
  function BaseColor(name: string): string {
    var found := Find(Emotions, name);
    if found.Some? && found.value != "" then found.value else "#000000"
  }

  /** No two emotions share a name. */
  lemma EmotionNamesDistinct()
    ensures forall i, j :: 0 <= i < j < |Emotions| ==> Emotions[i].name != Emotions[j].name
  {
    forall i, j | 0 <= i < j < |Emotions|
      ensures Emotions[i].name != Emotions[j].name
    {
      assert i == 0 || i == 1 || i == 2 || i == 3 || i == 4 || i == 5 || i == 6;
    }
  }

  /** Each emotion of the table gets its own colour. */
  lemma BaseColorOfEmotion(i: int)
    requires 0 <= i < |Emotions|
    ensures BaseColor(Emotions[i].name) == Emotions[i].color
  {
    EmotionNamesDistinct();
    assert Emotions[i].color != "" by {
      assert i == 0 || i == 1 || i == 2 || i == 3 || i == 4 || i == 5 || i == 6 || i == 7;
    }
  }

  /** A name outside the table gets black. */
  lemma UnknownEmotionIsBlack(name: string)
    requires forall i :: 0 <= i < |Emotions| ==> Emotions[i].name != name
    ensures BaseColor(name) == "#000000"
  {
  }

  /** So does the empty name, before any emotion is selected. */
  lemma NoEmotionIsBlack()
    ensures BaseColor("") == "#000000"
  {
    forall i | 0 <= i < |Emotions|
      ensures Emotions[i].name != ""
    {
      assert i == 0 || i == 1 || i == 2 || i == 3 || i == 4 || i == 5 || i == 6 || i == 7;
    }
    UnknownEmotionIsBlack("");
  }

  /** `x || 0`: an undefined (NaN) component reads as 0. */
  function OrZero(x: Option<real>): real {
    x.GetOr(0.0)
  }

  /** `chroma(baseColor).get("hsl.h") || 0` */
  // Its ensures unfold the body for the proofs; what it promises is proved in EmotionBaseComponents and UnknownEmotionComponents.
  function BaseHue(chroma: Chroma, name: string): (r: real)
    ensures chroma.hslHue(BaseColor(name)).None? ==> r == 0.0
    ensures chroma.hslHue(BaseColor(name)).Some? ==> r == chroma.hslHue(BaseColor(name)).value
  {
    OrZero(chroma.hslHue(BaseColor(name)))
  }

  /**
   * The base hue and saturation of a selected emotion are those chroma-js
   * reads from the emotion's own colour, an undefined one reading as 0.
   */
  lemma EmotionBaseComponents(chroma: Chroma, i: int)
    requires 0 <= i < |Emotions|
    ensures chroma.hslHue(Emotions[i].color).Some? ==>
              BaseHue(chroma, Emotions[i].name) == chroma.hslHue(Emotions[i].color).value
    ensures chroma.hslHue(Emotions[i].color).None? ==> BaseHue(chroma, Emotions[i].name) == 0.0
    ensures chroma.hslSaturation(Emotions[i].color).Some? ==>
              BaseSaturation(chroma, Emotions[i].name) == chroma.hslSaturation(Emotions[i].color).value
    ensures chroma.hslSaturation(Emotions[i].color).None? ==> BaseSaturation(chroma, Emotions[i].name) == 0.0
  {
    BaseColorOfEmotion(i);
  }

  /** With no emotion selected, or an unknown one, they are those of black. */
  lemma UnknownEmotionComponents(chroma: Chroma, name: string)
    requires forall i :: 0 <= i < |Emotions| ==> Emotions[i].name != name
    ensures chroma.hslHue("#000000").Some? ==> BaseHue(chroma, name) == chroma.hslHue("#000000").value
    ensures chroma.hslHue("#000000").None? ==> BaseHue(chroma, name) == 0.0
    ensures chroma.hslSaturation("#000000").Some? ==>
              BaseSaturation(chroma, name) == chroma.hslSaturation("#000000").value
    ensures chroma.hslSaturation("#000000").None? ==> BaseSaturation(chroma, name) == 0.0
  {
    UnknownEmotionIsBlack(name);
  }

  /** `chroma(baseColor).get("hsl.s") || 0` */
  // Its ensures unfold the body for the proofs; what it promises is proved in EmotionBaseComponents and UnknownEmotionComponents.
  function BaseSaturation(chroma: Chroma, name: string): (r: real)
    ensures chroma.hslSaturation(BaseColor(name)).None? ==> r == 0.0
    ensures chroma.hslSaturation(BaseColor(name)).Some? ==> r == chroma.hslSaturation(BaseColor(name)).value
  {
    OrZero(chroma.hslSaturation(BaseColor(name)))
  }

  /** `Math.max(0, Math.min(1, x))` */
  function Clamp01(x: real): (r: real)
    ensures 0.0 <= r <= 1.0
    ensures 0.0 <= x <= 1.0 ==> r == x
    ensures x < 0.0 ==> r == 0.0
    ensures 1.0 < x ==> r == 1.0
  {
    var m := if 1.0 < x then 1.0 else x;
    if 0.0 > m then 0.0 else m
  }

  /**
   * `generateColor`: the hue wrapped by `% 360` and rounded; the saturation
   * and the lightness clamped to [0, 1] and rounded as percentages, the
   * lightness first inverted in dark mode.
   */
  function ColorOf(hue: real, saturation: real, lightness: real, isDark: bool): (c: Color)
    ensures 0 <= c.s <= 100 && 0 <= c.l <= 100
    ensures 0.0 <= hue ==> 0 <= c.h <= 360
    ensures 0.0 <= hue < 360.0 ==> c.h == RoundHalfUp(hue)
    ensures 360.0 <= hue < 720.0 ==> c.h == RoundHalfUp(hue - 360.0)
    ensures 0.0 <= saturation <= 1.0 ==> c.s == RoundHalfUp(saturation * 100.0)
    ensures 0.0 <= lightness <= 1.0 && !isDark ==> c.l == RoundHalfUp(lightness * 100.0)
    ensures 0.0 <= lightness <= 1.0 && isDark ==> c.l == RoundHalfUp((1.0 - lightness) * 100.0)
  {
    var h := RoundHalfUp(Mod360(hue));
    var s := RoundHalfUp(Clamp01(saturation) * 100.0);
    var l := RoundHalfUp(Clamp01(if isDark then 1.0 - lightness else lightness) * 100.0);
    Color(h, s, l)
  }

  /** Rounding `100 - x` gives `100` less the rounding of `x`, unless `x` lies exactly halfway between two integers. */
  lemma MirrorRound(x: real)
    requires (x + 0.5).Floor as real != x + 0.5
    ensures RoundHalfUp(100.0 - x) == 100 - RoundHalfUp(x)
  {
    var f := (x + 0.5).Floor;
    assert f as real < x + 0.5 < f as real + 1.0;
    assert (100 - f) as real <= 100.0 - x + 0.5 < (100 - f) as real + 1.0;
  }

  /**
   * Dark mode is light mode with the lightness mirrored: `l` in the dark is
   * `1 - l` in the light, so the dark percentage is 100 less the light one
   * (barring a tie in the rounding).
   */
  lemma DarkMirrorsLight(hue: real, saturation: real, lightness: real)
    ensures ColorOf(hue, saturation, lightness, true) == ColorOf(hue, saturation, 1.0 - lightness, false)
    ensures var x := Clamp01(lightness) * 100.0;
      (x + 0.5).Floor as real != x + 0.5 ==>
        ColorOf(hue, saturation, lightness, true).l == 100 - ColorOf(hue, saturation, lightness, false).l
  {
    var x := Clamp01(lightness) * 100.0;
    assert Clamp01(1.0 - lightness) * 100.0 == 100.0 - x;
    if (x + 0.5).Floor as real != x + 0.5 {
      MirrorRound(x);
    }
  }

  function GenerateColor(hue: real, saturation: real, lightness: real, isDark: bool): (r: string)
  {
    Render(ColorOf(hue, saturation, lightness, isDark))
  }

  /** The contrast colours of the simplified `getContrastColor`. */
  const Black: string := "hsl(0, 0%, 0%)"
  const White: string := "hsl(0, 0%, 100%)"

  /** `getContrastColor`: flat black on a background whose luminance is above 0.5, flat white otherwise. */
  function ContrastColor(bgColor: string, chroma: Chroma): string {
    if chroma.luminance(bgColor) > 0.5 then Black else White
  }

  /** The two contrast colours are the notation's black and white. */
  lemma ContrastRendered()
    ensures Black == Render(Color(0, 0, 0)) && White == Render(Color(0, 0, 100))
  {
    assert NatToString(10) == NatToString(1) + [DigitChar(0)] == "10";
    assert NatToString(100) == NatToString(10) + [DigitChar(0)] == "100";
  }

  /** An assignment `newPalette[key] = value`. */
  type Entry = (string, string)

  // Its ensures unfold the body for the proofs; what it promises is proved in SetAllOrder and ReferenceKeys.
  function Keys(es: seq<Entry>): (ks: seq<string>)
    ensures |ks| == |es|
    ensures forall i :: 0 <= i < |es| ==> ks[i] == es[i].0
  {
    seq(|es|, i requires 0 <= i < |es| => es[i].0)
  }

  /** The assignments of `es`, one after the other. */
  function SetAll(p: Record, es: seq<Entry>): (r: Record)
    ensures forall k :: k in p.values ==> k in r.values
    ensures forall i :: 0 <= i < |es| ==> es[i].0 in r.values
    ensures WellFormed(p) ==> WellFormed(r)
    decreases |es|
  {
    if es == [] then p
    else
      var q := Set(p, es[0].0, es[0].1);
      assert WellFormed(p) ==> WellFormed(q) by {
        if WellFormed(p) {
          SetWellFormed(p, es[0].0, es[0].1);
        }
      }
      SetAll(q, es[1..])
  }

  /** Lines 89-100: the four accents, from the base hue and saturation. */
  function Accents(baseHue: real, baseSaturation: real, isDark: bool): seq<Entry> {
    [("primary", GenerateColor(baseHue, baseSaturation, 0.5, isDark)),
     ("secondary", GenerateColor(Mod360(baseHue + 30.0), baseSaturation * 0.5, 0.8, isDark)),
     ("accent", GenerateColor(Mod360(baseHue + 60.0), baseSaturation * 0.7, 0.7, isDark)),
     ("destructive", GenerateColor(0.0, 0.85, 0.5, isDark))]
  }

  /**
   * Lines 110-114: for each key in order, when it names an accent, its
   * contrast colour under `${key}-foreground`, read from the record as the
   * previous steps left it.
   */
  function WithForegrounds(p: Record, keys: seq<string>, chroma: Chroma): (r: Record)
    requires forall i :: 0 <= i < |keys| ==> keys[i] in p.values
    ensures forall k :: k in p.values ==> k in r.values
    ensures WellFormed(p) ==> WellFormed(r)
    decreases |keys|
  {
    if keys == [] then p
    else
      var key := keys[0];
      var q := if key in HueEngine.AccentRoles
        then Set(p, HueEngine.Foreground(key), ContrastColor(p.values[key], chroma))
        else p;
      assert WellFormed(p) ==> WellFormed(q) by {
        if WellFormed(p) && key in HueEngine.AccentRoles {
          SetWellFormed(p, HueEngine.Foreground(key), ContrastColor(p.values[key], chroma));
        }
      }
      WithForegrounds(q, keys[1..], chroma)
  }

  /** Lines 117-140: the `remainingColors` table, each role with its hue, saturation and lightness. */
  function RemainingColors(baseHue: real, baseSaturation: real, isDark: bool): seq<(string, (real, real, real))> {
    [("background", (baseHue, baseSaturation * 0.1, if isDark then 0.1 else 0.98)),
     ("foreground", (baseHue, baseSaturation * 0.2, if isDark then 0.9 else 0.2)),
     ("card", (baseHue, baseSaturation * 0.05, if isDark then 0.15 else 0.99)),
     ("card-foreground", (baseHue, baseSaturation * 0.2, if isDark then 0.9 else 0.2)),
     ("popover", (baseHue, baseSaturation * 0.1, if isDark then 0.1 else 0.98)),
     ("popover-foreground", (baseHue, baseSaturation * 0.2, if isDark then 0.9 else 0.2)),
     ("muted", (baseHue, baseSaturation * 0.2, if isDark then 0.2 else 0.96)),
     ("muted-foreground", (baseHue, baseSaturation * 0.3, if isDark then 0.8 else 0.4)),
     ("border", (baseHue, baseSaturation * 0.15, if isDark then 0.3 else 0.85)),
     ("input", (baseHue, baseSaturation * 0.15, if isDark then 0.3 else 0.85))]
  }

  /** Lines 142-144: the rows of a table through `generateColor`. */
  // Its ensures unfold the body for the proofs; what it promises is proved in PaletteTableRows.
  function Generated(table: seq<(string, (real, real, real))>, isDark: bool): (es: seq<Entry>)
    ensures |es| == |table|
    ensures forall i :: 0 <= i < |table| ==>
      es[i] == (table[i].0, GenerateColor(table[i].1.0, table[i].1.1, table[i].1.2, isDark))
  {
    seq(|table|, i requires 0 <= i < |table| => (table[i].0, GenerateColor(table[i].1.0, table[i].1.1, table[i].1.2, isDark)))
  }

  /**
   * The assignments of `generateAccessiblePalette` into an empty record: the
   * accents, the foreground loop over the keys they leave, the rows of the
   * table and the ring, read from the primary.
   */
  function Assemble(accents: seq<Entry>, table: seq<Entry>, chroma: Chroma): Record
    requires |accents| > 0 && accents[0].0 == "primary"
  {
    var a := SetAll(Empty, accents);
    var f := WithForegrounds(a, a.order, chroma);
    var r := SetAll(f, table);
    Set(r, "ring", chroma.withAlpha(r.values["primary"], 0.3))
  }

  /** `generateAccessiblePalette` for a base hue and saturation, in the given mode. */
  function PaletteFor(baseHue: real, baseSaturation: real, isDark: bool, chroma: Chroma): Record {
    Assemble(Accents(baseHue, baseSaturation, isDark), Generated(RemainingColors(baseHue, baseSaturation, isDark), isDark), chroma)
  }

  lemma KeysConcat(a: seq<Entry>, b: seq<Entry>)
    ensures Keys(a + b) == Keys(a) + Keys(b)
  {
  }

  /** An assignment of `es` writes only keys of `es`. */
  lemma {:induction false} SetAllKeeps(p: Record, es: seq<Entry>, k: string)
    requires k !in Keys(es)
    ensures Get(SetAll(p, es), k) == Get(p, k)
    decreases |es|
  {
    if es != [] {
      assert Keys(es)[0] != k;
      assert Keys(es[1..]) == Keys(es)[1..];
      SetAllKeeps(Set(p, es[0].0, es[0].1), es[1..], k);
    }
  }

  /** Keys of `es` that are new and distinct are appended in the order of `es`. */
  lemma {:induction false} SetAllOrder(p: Record, es: seq<Entry>)
    requires Distinct(Keys(es))
    requires forall i :: 0 <= i < |es| ==> es[i].0 !in p.values
    ensures SetAll(p, es).order == p.order + Keys(es)
    decreases |es|
  {
    if es == [] {
      assert Keys(es) == [];
      assert p.order + [] == p.order;
    } else {
      var k := es[0].0;
      var q := Set(p, k, es[0].1);
      var rest := es[1..];
      var ks := Keys(rest);
      assert Keys(es) == [k] + ks by {
        assert ks == Keys(es)[1..];
      }
      assert Distinct(ks) && forall i :: 0 <= i < |rest| ==> rest[i].0 != k && rest[i].0 !in p.values by {
        assert ks == Keys(es)[1..];
        forall i | 0 <= i < |rest|
          ensures rest[i].0 != k && rest[i].0 !in p.values
        {
          assert rest[i] == es[i + 1];
          assert Keys(es)[0] != Keys(es)[i + 1];
        }
      }
      FreshAfterSet(p, k, es[0].1, rest);
      SetAllOrder(q, rest);
      AppendAssoc(p.order, [k], ks);
    }
  }

  /** A key assigned fresh is appended, and leaves the other fresh keys fresh. */
  lemma FreshAfterSet(p: Record, k: string, v: string, rest: seq<Entry>)
    requires k !in p.values
    requires forall i :: 0 <= i < |rest| ==> rest[i].0 != k && rest[i].0 !in p.values
    ensures Set(p, k, v).order == p.order + [k]
    ensures forall i :: 0 <= i < |rest| ==> rest[i].0 !in Set(p, k, v).values
  {
  }

  /** When the keys of `es` are distinct, each ends up holding its own value. */
  lemma {:induction false} SetAllValue(p: Record, es: seq<Entry>, i: int)
    requires Distinct(Keys(es)) && 0 <= i < |es|
    ensures Get(SetAll(p, es), es[i].0) == Some(es[i].1)
    decreases |es|
  {
    var q := Set(p, es[0].0, es[0].1);
    var rest := es[1..];
    assert Keys(rest) == Keys(es)[1..];
    if i == 0 {
      assert es[0].0 !in Keys(rest) by {
        forall j | 0 <= j < |rest|
          ensures Keys(rest)[j] != es[0].0
        {
          assert Keys(es)[0] != Keys(es)[j + 1];
        }
      }
      SetAllKeeps(q, rest, es[0].0);
    } else {
      assert es[i] == rest[i - 1];
      SetAllValue(q, rest, i - 1);
    }
  }

  /** Assigning `a` and then `b` is assigning `a + b`. */
  lemma {:induction false} SetAllConcat(p: Record, a: seq<Entry>, b: seq<Entry>)
    ensures SetAll(p, a + b) == SetAll(SetAll(p, a), b)
    decreases |a|
  {
    if a == [] {
      assert a + b == b;
    } else {
      assert (a + b)[0] == a[0] && (a + b)[1..] == a[1..] + b;
      SetAllConcat(Set(p, a[0].0, a[0].1), a[1..], b);
    }
  }

  /** The foregrounds of accent entries: each accent's contrast colour under its `-foreground` name. */
  // Its ensures unfold the body for the proofs; what it promises is proved in ForegroundsOfAccents and PaletteEntries.
  function Foregrounds(es: seq<Entry>, chroma: Chroma): (fs: seq<Entry>)
    ensures |fs| == |es|
    ensures forall i :: 0 <= i < |es| ==> fs[i] == (HueEngine.Foreground(es[i].0), ContrastColor(es[i].1, chroma))
  {
    seq(|es|, i requires 0 <= i < |es| => (HueEngine.Foreground(es[i].0), ContrastColor(es[i].1, chroma)))
  }

  /**
   * Over keys that all name accents, present with the values of `es`, the
   * loop assigns the contrast colours of those values, in order.
   */
  lemma {:induction false} ForegroundsOfAccents(p: Record, es: seq<Entry>, chroma: Chroma)
    requires forall i :: 0 <= i < |es| ==> es[i].0 in HueEngine.AccentRoles
    requires forall i :: 0 <= i < |es| ==> es[i].0 in p.values && p.values[es[i].0] == es[i].1
    requires forall i, j :: 0 <= i < |es| && 0 <= j < |es| ==> es[i].0 != HueEngine.Foreground(es[j].0)
    ensures WithForegrounds(p, Keys(es), chroma) == SetAll(p, Foregrounds(es, chroma))
    decreases |es|
  {
    if es != [] {
      var key := es[0].0;
      var q := Set(p, HueEngine.Foreground(key), ContrastColor(es[0].1, chroma));
      var rest := es[1..];
      assert Keys(es)[1..] == Keys(rest);
      assert forall i :: 0 <= i < |rest| ==> rest[i] == es[i + 1];
      ForegroundsOfAccents(q, rest, chroma);
      assert Foregrounds(es, chroma)[1..] == Foregrounds(rest, chroma);
    }
  }

  /** Keys that name no accent get no foreground: the loop leaves the record as it is. */
  lemma {:induction false} ForegroundsSkipOthers(p: Record, keys: seq<string>, chroma: Chroma)
    requires forall i :: 0 <= i < |keys| ==> keys[i] in p.values && keys[i] !in HueEngine.AccentRoles
    ensures WithForegrounds(p, keys, chroma) == p
    decreases |keys|
  {
    if keys != [] {
      ForegroundsSkipOthers(p, keys[1..], chroma);
    }
  }

  /**
   * The palette written out as a list, independently of the loops: the
   * accents, their contrast colours and the table's rows, in the order the
   * roles are first assigned. The ring, read from the record, is not listed.
   */
  function Reference(baseHue: real, baseSaturation: real, isDark: bool, chroma: Chroma): seq<Entry> {
    var accents := Accents(baseHue, baseSaturation, isDark);
    accents + Foregrounds(accents, chroma) + Generated(RemainingColors(baseHue, baseSaturation, isDark), isDark)
  }

  lemma AccentKeys(baseHue: real, baseSaturation: real, isDark: bool)
    ensures Keys(Accents(baseHue, baseSaturation, isDark)) == HueEngine.AccentRoles
  {
  }

  lemma ForegroundKeys(accents: seq<Entry>, chroma: Chroma)
    requires Keys(accents) == HueEngine.AccentRoles
    ensures Keys(Foregrounds(accents, chroma)) == HueEngine.ForegroundRoles
  {
    HueEngine.ForegroundRolesOfAccents();
  }

  lemma TableKeys(baseHue: real, baseSaturation: real, isDark: bool)
    ensures Keys(Generated(RemainingColors(baseHue, baseSaturation, isDark), isDark))
      == HueEngine.SurfaceRoles + HueEngine.DetailRoles[..4]
  {
  }

  /** The first eighteen roles of the hue engine: distinct, and followed only by the ring. */
  lemma RolesBeforeRing()
    ensures var ks := HueEngine.AccentRoles + HueEngine.ForegroundRoles + (HueEngine.SurfaceRoles + HueEngine.DetailRoles[..4]);
      ks + ["ring"] == HueEngine.RoleOrder && Distinct(ks) && "ring" !in ks
  {
    var ks := HueEngine.AccentRoles + HueEngine.ForegroundRoles + (HueEngine.SurfaceRoles + HueEngine.DetailRoles[..4]);
    var ro := HueEngine.RoleOrder;
    assert ks + ["ring"] == ro;
    HueEngine.RoleOrderDistinct();
    assert forall i :: 0 <= i < |ks| ==> ks[i] == ro[i];
    assert ro[18] == "ring";
  }

  /** The roles of the list are the nineteen roles of the hue engine, less the ring. */
  lemma ReferenceKeys(baseHue: real, baseSaturation: real, isDark: bool, chroma: Chroma)
    ensures Keys(Reference(baseHue, baseSaturation, isDark, chroma)) + ["ring"] == HueEngine.RoleOrder
    ensures Distinct(Keys(Reference(baseHue, baseSaturation, isDark, chroma)))
    ensures "ring" !in Keys(Reference(baseHue, baseSaturation, isDark, chroma))
  {
    var accents := Accents(baseHue, baseSaturation, isDark);
    var fs := Foregrounds(accents, chroma);
    var table := Generated(RemainingColors(baseHue, baseSaturation, isDark), isDark);
    AccentKeys(baseHue, baseSaturation, isDark);
    ForegroundKeys(accents, chroma);
    TableKeys(baseHue, baseSaturation, isDark);
    KeysConcat(accents, fs);
    KeysConcat(accents + fs, table);
    RolesBeforeRing();
  }

  /** No accent role is the foreground role of an accent. */
  lemma AccentsAreNotForegrounds()
    ensures forall i, j :: 0 <= i < 4 && 0 <= j < 4 ==> HueEngine.AccentRoles[i] != HueEngine.Foreground(HueEngine.AccentRoles[j])
  {
    HueEngine.ForegroundRolesOfAccents();
    RolesBeforeRing();
    var ks := HueEngine.AccentRoles + HueEngine.ForegroundRoles + (HueEngine.SurfaceRoles + HueEngine.DetailRoles[..4]);
    forall i, j | 0 <= i < 4 && 0 <= j < 4
      ensures HueEngine.AccentRoles[i] != HueEngine.ForegroundRoles[j]
    {
      assert ks[i] == HueEngine.AccentRoles[i] && ks[4 + j] == HueEngine.ForegroundRoles[j];
    }
  }

  /** After accents with the accent roles as keys and the foreground loop, the record is the accents and foregrounds assigned in list order. */
  lemma AfterForegrounds(accents: seq<Entry>, chroma: Chroma)
    requires Keys(accents) == HueEngine.AccentRoles
    ensures var a := SetAll(Empty, accents);
      WithForegrounds(a, a.order, chroma) == SetAll(Empty, accents + Foregrounds(accents, chroma))
  {
    var a := SetAll(Empty, accents);
    assert Distinct(Keys(accents)) by {
      RolesBeforeRing();
      var ks := HueEngine.AccentRoles + HueEngine.ForegroundRoles + (HueEngine.SurfaceRoles + HueEngine.DetailRoles[..4]);
      assert forall i :: 0 <= i < 4 ==> ks[i] == HueEngine.AccentRoles[i];
    }
    SetAllOrder(Empty, accents);
    assert a.order == Keys(accents);
    forall i | 0 <= i < |accents|
      ensures accents[i].0 in a.values && a.values[accents[i].0] == accents[i].1
    {
      SetAllValue(Empty, accents, i);
    }
    assert forall i :: 0 <= i < |accents| ==> accents[i].0 == HueEngine.AccentRoles[i];
    assert forall i :: 0 <= i < |accents| ==> accents[i].0 in HueEngine.AccentRoles;
    AccentsAreNotForegrounds();
    ForegroundsOfAccents(a, accents, chroma);
    SetAllConcat(Empty, accents, Foregrounds(accents, chroma));
  }

  /**
   * Assembled from accents and a table whose keys are, in order, the hue
   * engine's roles less the ring, the palette is the list assigned in order
   * and then the ring.
   */
  lemma AssembleEntries(accents: seq<Entry>, table: seq<Entry>, chroma: Chroma)
    requires Keys(accents) == HueEngine.AccentRoles
    requires Keys(table) == HueEngine.SurfaceRoles + HueEngine.DetailRoles[..4]
    ensures var p, es := Assemble(accents, table, chroma), accents + Foregrounds(accents, chroma) + table;
      && WellFormed(p) && p.order == HueEngine.RoleOrder
      && (forall i :: 0 <= i < |es| ==> Get(p, es[i].0) == Some(es[i].1))
      && Get(p, "ring") == Some(chroma.withAlpha(accents[0].1, 0.3))
  {
    var fs := Foregrounds(accents, chroma);
    var es := accents + fs + table;
    var a := SetAll(Empty, accents);
    var f := WithForegrounds(a, a.order, chroma);
    var r := SetAll(f, table);
    assert r == SetAll(Empty, es) by {
      AfterForegrounds(accents, chroma);
      SetAllConcat(Empty, accents + fs, table);
    }
    assert Keys(es) + ["ring"] == HueEngine.RoleOrder && Distinct(Keys(es)) && "ring" !in Keys(es) by {
      ForegroundKeys(accents, chroma);
      KeysConcat(accents, fs);
      KeysConcat(accents + fs, table);
      RolesBeforeRing();
    }
    SetAllOrder(Empty, es);
    SetAllValues(Empty, es);
    assert es[0].0 == Keys(accents)[0] == "primary";
    assert r.values["primary"] == accents[0].1 by {
      assert es[0] == accents[0];
      assert Get(r, es[0].0) == Some(es[0].1);
    }
    RingLast(r, es, chroma.withAlpha(r.values["primary"], 0.3));
    assert Assemble(accents, table, chroma) == Set(r, "ring", chroma.withAlpha(r.values["primary"], 0.3));
  }

  /** When the keys of `es` are distinct, every one ends up holding its own value. */
  lemma SetAllValues(p: Record, es: seq<Entry>)
    requires Distinct(Keys(es))
    ensures forall i :: 0 <= i < |es| ==> Get(SetAll(p, es), es[i].0) == Some(es[i].1)
  {
    forall i | 0 <= i < |es|
      ensures Get(SetAll(p, es), es[i].0) == Some(es[i].1)
    {
      SetAllValue(p, es, i);
    }
  }

  /** The ring, assigned last to a record of the listed entries, adds itself at the end and changes no entry. */
  lemma RingLast(r: Record, es: seq<Entry>, ring: string)
    requires WellFormed(r) && r.order == Keys(es) && "ring" !in Keys(es)
    requires forall i :: 0 <= i < |es| ==> Get(r, es[i].0) == Some(es[i].1)
    ensures var p := Set(r, "ring", ring);
      && WellFormed(p) && p.order == Keys(es) + ["ring"] && Get(p, "ring") == Some(ring)
      && forall i :: 0 <= i < |es| ==> Get(p, es[i].0) == Some(es[i].1)
  {
    SetWellFormed(r, "ring", ring);
    assert forall i :: 0 <= i < |es| ==> es[i].0 == Keys(es)[i];
  }

  /**
   * The generated palette: a well-formed record with the hue engine's
   * nineteen roles in its order, each role of the list holding its listed
   * value, and the ring the primary colour at alpha 0.3.
   */
  lemma PaletteEntries(baseHue: real, baseSaturation: real, isDark: bool, chroma: Chroma)
    ensures var p, es := PaletteFor(baseHue, baseSaturation, isDark, chroma), Reference(baseHue, baseSaturation, isDark, chroma);
      && WellFormed(p) && p.order == HueEngine.RoleOrder
      && (forall i :: 0 <= i < |es| ==> Get(p, es[i].0) == Some(es[i].1))
      && Get(p, "ring") == Some(chroma.withAlpha(es[0].1, 0.3))
  {
    AccentKeys(baseHue, baseSaturation, isDark);
    TableKeys(baseHue, baseSaturation, isDark);
    AssembleEntries(Accents(baseHue, baseSaturation, isDark), Generated(RemainingColors(baseHue, baseSaturation, isDark), isDark), chroma);
  }

  /** Every role named in `colorKeys` is one of the nineteen roles. */
  lemma ColorKeyIsRole(k: string)
    requires k in ColorKeys
    ensures k in HueEngine.RoleOrder
  {
    var ro := HueEngine.RoleOrder;
    assert ColorKeys == [ro[8], ro[9], ro[10], ro[11], ro[12], ro[13], ro[0], ro[4], ro[1], ro[5],
                         ro[14], ro[15], ro[2], ro[6], ro[3], ro[7], ro[16], ro[17], ro[18]];
  }

  /** `colorKeys` names exactly the nineteen roles, in another order. */
  lemma ColorKeysAreRoles(k: string)
    ensures k in ColorKeys <==> k in HueEngine.RoleOrder
  {
    if k in HueEngine.RoleOrder {
      HueEngine.RoleOrderMembers(k);
    }
    if k in ColorKeys {
      ColorKeyIsRole(k);
    }
  }

  /**
   * The palette has exactly the roles `colorKeys` names, although the
   * component never reads that table: foregrounds are added for the four
   * accents only, and the table supplies the rest.
   */
  lemma PaletteKeys(baseHue: real, baseSaturation: real, isDark: bool, chroma: Chroma)
    ensures var p := PaletteFor(baseHue, baseSaturation, isDark, chroma);
      |p.order| == 19 && forall k :: k in p.values <==> k in ColorKeys
  {
    PaletteEntries(baseHue, baseSaturation, isDark, chroma);
    HueEngine.RoleOrderDistinct();
    forall k | true
      ensures k in ColorKeys <==> k in HueEngine.RoleOrder
    {
      ColorKeysAreRoles(k);
    }
  }

  /** A colour string in the notation whose saturation and lightness are percentages in [0, 100]. */
  predicate Percentages(v: string) {
    var c := Parse(v);
    c.Some? && 0 <= c.value.s <= 100 && 0 <= c.value.l <= 100
  }

  lemma GeneratedPercentages()
    ensures forall h, s, l, isDark :: Percentages(GenerateColor(h, s, l, isDark))
  {
    forall h, s, l, isDark
      ensures Percentages(GenerateColor(h, s, l, isDark))
    {
      ParseRender(ColorOf(h, s, l, isDark));
    }
  }

  lemma ContrastPercentages(chroma: Chroma)
    ensures forall bg :: Percentages(ContrastColor(bg, chroma))
  {
    ContrastRendered();
    ParseRender(Color(0, 0, 0));
    ParseRender(Color(0, 0, 100));
  }

  lemma AccentPercentages(baseHue: real, baseSaturation: real, isDark: bool)
    ensures var accents := Accents(baseHue, baseSaturation, isDark);
      forall i :: 0 <= i < |accents| ==> Percentages(accents[i].1)
  {
    var accents := Accents(baseHue, baseSaturation, isDark);
    GeneratedPercentages();
    forall i | 0 <= i < |accents|
      ensures Percentages(accents[i].1)
    {
      assert i == 0 || i == 1 || i == 2 || i == 3;
    }
  }

  lemma TablePercentages(table: seq<(string, (real, real, real))>, isDark: bool)
    ensures var es := Generated(table, isDark);
      forall i :: 0 <= i < |es| ==> Percentages(es[i].1)
  {
    GeneratedPercentages();
  }

  lemma ForegroundPercentages(accents: seq<Entry>, chroma: Chroma)
    ensures var fs := Foregrounds(accents, chroma);
      forall i :: 0 <= i < |fs| ==> Percentages(fs[i].1)
  {
    ContrastPercentages(chroma);
  }

  /** Every value of the list is in the notation with percentages in [0, 100]. */
  lemma ReferencePercentages(baseHue: real, baseSaturation: real, isDark: bool, chroma: Chroma)
    ensures var es := Reference(baseHue, baseSaturation, isDark, chroma);
      forall i :: 0 <= i < |es| ==> Percentages(es[i].1)
  {
    var accents := Accents(baseHue, baseSaturation, isDark);
    AccentPercentages(baseHue, baseSaturation, isDark);
    ForegroundPercentages(accents, chroma);
    TablePercentages(RemainingColors(baseHue, baseSaturation, isDark), isDark);
    ListPercentages(accents, Foregrounds(accents, chroma), Generated(RemainingColors(baseHue, baseSaturation, isDark), isDark));
  }

  lemma ListPercentages(a: seq<Entry>, b: seq<Entry>, c: seq<Entry>)
    requires forall i :: 0 <= i < |a| ==> Percentages(a[i].1)
    requires forall i :: 0 <= i < |b| ==> Percentages(b[i].1)
    requires forall i :: 0 <= i < |c| ==> Percentages(c[i].1)
    ensures forall i :: 0 <= i < |a + b + c| ==> Percentages((a + b + c)[i].1)
  {
    forall i | 0 <= i < |a + b + c|
      ensures Percentages((a + b + c)[i].1)
    {
      if i < |a| {
        assert (a + b + c)[i] == a[i];
      } else if i < |a| + |b| {
        assert (a + b + c)[i] == b[i - |a|];
      } else {
        assert (a + b + c)[i] == c[i - |a| - |b|];
      }
    }
  }

  /** A record of listed entries and a ring: every role but the ring holds a value of the list. */
  lemma ListedValues(p: Record, es: seq<Entry>, k: string)
    requires WellFormed(p) && p.order == Keys(es) + ["ring"]
    requires forall i :: 0 <= i < |es| ==> Get(p, es[i].0) == Some(es[i].1)
    requires k in p.values && k != "ring"
    ensures exists i :: 0 <= i < |es| && p.values[k] == es[i].1
  {
    assert k in p.order;
    var j :| 0 <= j < |p.order| && p.order[j] == k;
    assert j < |es| && Keys(es)[j] == k;
    assert Get(p, es[j].0) == Some(es[j].1);
  }

  /**
   * Every value of the palette but the ring is in the notation with its
   * saturation and its lightness in [0, 100], in either mode, whatever the
   * base saturation: both are clamped to [0, 1] before scaling.
   */
  lemma PalettePercentages(baseHue: real, baseSaturation: real, isDark: bool, chroma: Chroma)
    ensures var p := PaletteFor(baseHue, baseSaturation, isDark, chroma);
      forall k :: k in p.values && k != "ring" ==> Percentages(p.values[k])
  {
    var p := PaletteFor(baseHue, baseSaturation, isDark, chroma);
    var es := Reference(baseHue, baseSaturation, isDark, chroma);
    PaletteEntries(baseHue, baseSaturation, isDark, chroma);
    ReferenceKeys(baseHue, baseSaturation, isDark, chroma);
    ReferencePercentages(baseHue, baseSaturation, isDark, chroma);
    forall k | k in p.values && k != "ring"
      ensures Percentages(p.values[k])
    {
      ListedValues(p, es, k);
    }
  }

  /**
   * Each accent's foreground is flat black when the accent's luminance is
   * above 0.5 and flat white otherwise.
   */
  lemma ForegroundRule(baseHue: real, baseSaturation: real, isDark: bool, chroma: Chroma, i: int)
    requires 0 <= i < 4
    ensures var p := PaletteFor(baseHue, baseSaturation, isDark, chroma);
      && HueEngine.AccentRoles[i] in p.values
      && Get(p, HueEngine.ForegroundRoles[i])
        == Some(if chroma.luminance(p.values[HueEngine.AccentRoles[i]]) > 0.5 then "hsl(0, 0%, 0%)" else "hsl(0, 0%, 100%)")
  {
    PaletteEntries(baseHue, baseSaturation, isDark, chroma);
    AccentKeys(baseHue, baseSaturation, isDark);
    ListedForeground(PaletteFor(baseHue, baseSaturation, isDark, chroma), Accents(baseHue, baseSaturation, isDark),
      Generated(RemainingColors(baseHue, baseSaturation, isDark), isDark), chroma, i);
  }

  /** The foreground rule, for any record holding the listed accents and their foregrounds. */
  lemma ListedForeground(p: Record, accents: seq<Entry>, table: seq<Entry>, chroma: Chroma, i: int)
    requires Keys(accents) == HueEngine.AccentRoles && 0 <= i < 4
    requires var es := accents + Foregrounds(accents, chroma) + table;
      forall j :: 0 <= j < |es| ==> Get(p, es[j].0) == Some(es[j].1)
    ensures HueEngine.AccentRoles[i] in p.values
    ensures Get(p, HueEngine.ForegroundRoles[i])
      == Some(if chroma.luminance(p.values[HueEngine.AccentRoles[i]]) > 0.5 then "hsl(0, 0%, 0%)" else "hsl(0, 0%, 100%)")
  {
    var fs := Foregrounds(accents, chroma);
    var es := accents + fs + table;
    HueEngine.ForegroundRolesOfAccents();
    assert es[i] == accents[i] && accents[i].0 == Keys(accents)[i];
    assert es[4 + i] == fs[i];
  }

  /** Every row of the `remainingColors` table is in `p`, through `generateColor`. */
  predicate HasTableRows(p: Record, baseHue: real, baseSaturation: real, isDark: bool) {
    var table := RemainingColors(baseHue, baseSaturation, isDark);
    forall j :: 0 <= j < |table| ==>
      Get(p, table[j].0) == Some(GenerateColor(table[j].1.0, table[j].1.1, table[j].1.2, isDark))
  }

  /** Each row of the `remainingColors` table ends up in the palette, through `generateColor`. */
  lemma PaletteTableRows(baseHue: real, baseSaturation: real, isDark: bool, chroma: Chroma)
    ensures HasTableRows(PaletteFor(baseHue, baseSaturation, isDark, chroma), baseHue, baseSaturation, isDark)
  {
    var accents := Accents(baseHue, baseSaturation, isDark);
    var table := Generated(RemainingColors(baseHue, baseSaturation, isDark), isDark);
    PaletteEntries(baseHue, baseSaturation, isDark, chroma);
    forall j | 0 <= j < |table|
      ensures Get(PaletteFor(baseHue, baseSaturation, isDark, chroma), table[j].0) == Some(table[j].1)
    {
      ThirdPart(accents, Foregrounds(accents, chroma), table, j);
    }
  }

  lemma ThirdPart(a: seq<Entry>, b: seq<Entry>, c: seq<Entry>, j: int)
    requires |a| == 4 && |b| == 4 && 0 <= j < |c|
    ensures 8 + j < |a + b + c| && (a + b + c)[8 + j] == c[j]
  {
  }

  /** The table gives the foreground aliases the parameters of `foreground`. */
  lemma TableForegroundAliases(p: Record, baseHue: real, baseSaturation: real, isDark: bool)
    requires HasTableRows(p, baseHue, baseSaturation, isDark)
    ensures && Get(p, "foreground").Some?
      && Get(p, "card-foreground") == Get(p, "foreground")
      && Get(p, "popover-foreground") == Get(p, "foreground")
  {
    var t := RemainingColors(baseHue, baseSaturation, isDark);
    assert t[1].0 == "foreground" && t[3].0 == "card-foreground" && t[5].0 == "popover-foreground";
    assert t[1].1 == t[3].1 == t[5].1;
  }

  /** The table gives `popover` the parameters of `background`, and `input` those of `border`. */
  lemma TableSurfaceAliases(p: Record, baseHue: real, baseSaturation: real, isDark: bool)
    requires HasTableRows(p, baseHue, baseSaturation, isDark)
    ensures && Get(p, "background").Some? && Get(p, "border").Some?
      && Get(p, "popover") == Get(p, "background")
      && Get(p, "input") == Get(p, "border")
  {
    var t := RemainingColors(baseHue, baseSaturation, isDark);
    assert t[0].0 == "background" && t[4].0 == "popover" && t[0].1 == t[4].1;
    assert t[8].0 == "border" && t[9].0 == "input" && t[8].1 == t[9].1;
  }

  /**
   * The aliases come out equal, because the table gives them the same
   * parameters: `card-foreground` and `popover-foreground` are `foreground`,
   * `popover` is `background` and `input` is `border`.
   */
  lemma Aliases(baseHue: real, baseSaturation: real, isDark: bool, chroma: Chroma)
    ensures var p := PaletteFor(baseHue, baseSaturation, isDark, chroma);
      && Get(p, "foreground").Some? && Get(p, "background").Some? && Get(p, "border").Some?
      && Get(p, "card-foreground") == Get(p, "foreground")
      && Get(p, "popover-foreground") == Get(p, "foreground")
      && Get(p, "popover") == Get(p, "background")
      && Get(p, "input") == Get(p, "border")
  {
    PaletteTableRows(baseHue, baseSaturation, isDark, chroma);
    TableForegroundAliases(PaletteFor(baseHue, baseSaturation, isDark, chroma), baseHue, baseSaturation, isDark);
    TableSurfaceAliases(PaletteFor(baseHue, baseSaturation, isDark, chroma), baseHue, baseSaturation, isDark);
  }

  /** The ring is the primary colour at alpha 0.3. */
  lemma RingOfPrimary(baseHue: real, baseSaturation: real, isDark: bool, chroma: Chroma)
    ensures var p := PaletteFor(baseHue, baseSaturation, isDark, chroma);
      "primary" in p.values && Get(p, "ring") == Some(chroma.withAlpha(p.values["primary"], 0.3))
  {
    PaletteEntries(baseHue, baseSaturation, isDark, chroma);
  }

  /** Each accent ends up in the palette with the colour `generateColor` gives it. */
  lemma PaletteAccent(baseHue: real, baseSaturation: real, isDark: bool, chroma: Chroma, j: int)
    requires 0 <= j < 4
    ensures var e := Accents(baseHue, baseSaturation, isDark)[j];
      Get(PaletteFor(baseHue, baseSaturation, isDark, chroma), e.0) == Some(e.1)
  {
    var accents := Accents(baseHue, baseSaturation, isDark);
    PaletteEntries(baseHue, baseSaturation, isDark, chroma);
    assert Reference(baseHue, baseSaturation, isDark, chroma)[j] == accents[j];
  }

  /** `destructive` is the same fixed red in both modes: its lightness, 0.5, is its own mirror. */
  lemma DestructiveFixed(baseHue: real, baseSaturation: real, isDark: bool, chroma: Chroma)
    ensures Get(PaletteFor(baseHue, baseSaturation, isDark, chroma), "destructive") == Some("hsl(0, 85%, 50%)")
  {
    PaletteAccent(baseHue, baseSaturation, isDark, chroma, 3);
    DestructiveColor(isDark);
  }

  lemma DestructiveColor(isDark: bool)
    ensures GenerateColor(0.0, 0.85, 0.5, isDark) == "hsl(0, 85%, 50%)"
  {
    assert ColorOf(0.0, 0.85, 0.5, isDark) == Color(0, 85, 50);
    assert NatToString(85) == NatToString(8) + [DigitChar(5)] == "85";
    assert NatToString(50) == NatToString(5) + [DigitChar(0)] == "50";
  }

  /** The lightnesses of the background and the foreground rows, each inverted once by `generateColor` in dark mode. */
  lemma TableLightness(p: Record, baseHue: real, baseSaturation: real, isDark: bool)
    requires HasTableRows(p, baseHue, baseSaturation, isDark)
    ensures var h := RoundHalfUp(Mod360(baseHue));
      var sb, sf := RoundHalfUp(Clamp01(baseSaturation * 0.1) * 100.0), RoundHalfUp(Clamp01(baseSaturation * 0.2) * 100.0);
      && Get(p, "background") == Some(Render(Color(h, sb, if isDark then 90 else 98)))
      && Get(p, "foreground") == Some(Render(Color(h, sf, if isDark then 10 else 20)))
  {
    var t := RemainingColors(baseHue, baseSaturation, isDark);
    assert t[0].0 == "background" && t[1].0 == "foreground";
    assert ColorOf(baseHue, baseSaturation * 0.1, t[0].1.2, isDark).l == if isDark then 90 else 98;
    assert ColorOf(baseHue, baseSaturation * 0.2, t[1].1.2, isDark).l == if isDark then 10 else 20;
  }

  /**
   * The table's lightnesses are inverted a second time by `generateColor`:
   * the dark background, listed as 0.1, comes out at 90%, and the dark
   * foreground, listed as 0.9, at 10%; in light mode they are 98% and 20%.
   */
  lemma SurfaceLightness(baseHue: real, baseSaturation: real, isDark: bool, chroma: Chroma)
    ensures var p := PaletteFor(baseHue, baseSaturation, isDark, chroma);
      var h := RoundHalfUp(Mod360(baseHue));
      var sb, sf := RoundHalfUp(Clamp01(baseSaturation * 0.1) * 100.0), RoundHalfUp(Clamp01(baseSaturation * 0.2) * 100.0);
      && Get(p, "background") == Some(Render(Color(h, sb, if isDark then 90 else 98)))
      && Get(p, "foreground") == Some(Render(Color(h, sf, if isDark then 10 else 20)))
  {
    PaletteTableRows(baseHue, baseSaturation, isDark, chroma);
    TableLightness(PaletteFor(baseHue, baseSaturation, isDark, chroma), baseHue, baseSaturation, isDark);
  }

  /**
   * `generateAccessiblePalette` as the source runs it: four assignments, a
   * loop over the keys present after them, a loop over the table and the ring.
   */
  method BuildPalette(baseHue: real, baseSaturation: real, isDark: bool, chroma: Chroma) returns (p: Record)
    ensures p == PaletteFor(baseHue, baseSaturation, isDark, chroma)
  {
    p := Empty;
    p := Set(p, "primary", GenerateColor(baseHue, baseSaturation, 0.5, isDark));
    p := Set(p, "secondary", GenerateColor(Mod360(baseHue + 30.0), baseSaturation * 0.5, 0.8, isDark));
    p := Set(p, "accent", GenerateColor(Mod360(baseHue + 60.0), baseSaturation * 0.7, 0.7, isDark));
    p := Set(p, "destructive", GenerateColor(0.0, 0.85, 0.5, isDark));
    AccentsAssigned(Accents(baseHue, baseSaturation, isDark));
    p := Complete(p, Accents(baseHue, baseSaturation, isDark), RemainingColors(baseHue, baseSaturation, isDark), isDark, chroma);
  }

  /** The four accent assignments, one after the other, are those of the accent list. */
  lemma AccentsAssigned(es: seq<Entry>)
    requires |es| == 4
    ensures SetAll(Empty, es)
      == Set(Set(Set(Set(Empty, es[0].0, es[0].1), es[1].0, es[1].1), es[2].0, es[2].1), es[3].0, es[3].1)
  {
    var p1 := Set(Empty, es[0].0, es[0].1);
    var p2 := Set(p1, es[1].0, es[1].1);
    var p3 := Set(p2, es[2].0, es[2].1);
    SetAllStep(Empty, es);
    SetAllStep(p1, es[1..]);
    SetAllStep(p2, es[2..]);
    SetAllStep(p3, es[3..]);
    assert es[1..][0] == es[1] && es[1..][1..] == es[2..];
    assert es[2..][0] == es[2] && es[2..][1..] == es[3..];
    assert es[3..][0] == es[3] && es[3..][1..] == [];
  }

  /** One step of the assignment loop. */
  lemma SetAllStep(p: Record, es: seq<Entry>)
    requires es != []
    ensures SetAll(p, es) == SetAll(Set(p, es[0].0, es[0].1), es[1..])
  {
  }

  /** Everything after the accents: the two loops and the ring. */
  method Complete(a: Record, ghost accents: seq<Entry>, rows: seq<(string, (real, real, real))>, isDark: bool, chroma: Chroma)
    returns (p: Record)
    requires |accents| > 0 && accents[0].0 == "primary"
    requires a == SetAll(Empty, accents)
    ensures p == Assemble(accents, Generated(rows, isDark), chroma)
  {
    assert WellFormed(a) by {
      assert WellFormed(Empty);
    }
    p := AddForegrounds(a, chroma);
    p := AddRows(p, rows, isDark);
    p := Set(p, "ring", chroma.withAlpha(p.values["primary"], 0.3));
  }

  /** Lines 110-114: the loop over the keys present when it starts, adding the accents' foregrounds. */
  method AddForegrounds(p0: Record, chroma: Chroma) returns (p: Record)
    requires forall k :: k in p0.order ==> k in p0.values
    ensures p == WithForegrounds(p0, p0.order, chroma)
  {
    p := p0;
    var keys := p0.order;
    var i := 0;
    while i < |keys|
      invariant 0 <= i <= |keys|
      invariant forall k :: k in p0.values ==> k in p.values
      invariant WithForegrounds(p, keys[i..], chroma) == WithForegrounds(p0, keys, chroma)
    {
      var key := keys[i];
      assert keys[i..][1..] == keys[i + 1..];
      if key in HueEngine.AccentRoles {
        p := Set(p, HueEngine.Foreground(key), ContrastColor(p.values[key], chroma));
      }
      i := i + 1;
    }
  }

  /** Lines 142-144: the loop over the table's rows, assigning each its generated colour. */
  method AddRows(p0: Record, rows: seq<(string, (real, real, real))>, isDark: bool) returns (p: Record)
    ensures p == SetAll(p0, Generated(rows, isDark))
  {
    p := p0;
    ghost var table := Generated(rows, isDark);
    var i := 0;
    while i < |rows|
      invariant 0 <= i <= |rows|
      invariant SetAll(p, table[i..]) == SetAll(p0, table)
    {
      assert table[i..][1..] == table[i + 1..];
      p := Set(p, rows[i].0, GenerateColor(rows[i].1.0, rows[i].1.1, rows[i].1.2, isDark));
      i := i + 1;
    }
  }
}

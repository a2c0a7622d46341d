/**
 * The random-hue palette engine of src/components/PaletteGenerator.tsx.
 *
 * One base hue seeds a light and a dark palette of nineteen colour roles.
 * `Math.random()` becomes the parameter `baseHue`, the chroma-js calls
 * become the functions of a `Chroma` value, and the component's React
 * state becomes the fields of the class `Generator`.
 */
module HueEngine {

  import opened Wrappers
  import opened Strings
  import opened Records
  import opened Hsl

  type Palette = Record

  /** The `{ light, dark }` pair the component keeps and shares. */
  datatype Palettes = Palettes(light: Palette, dark: Palette)

  /** The roles whose foregrounds the `forEach` loop adds, in its order. */
  const AccentRoles: seq<string> := ["primary", "secondary", "accent", "destructive"]

  /** The background, card and popover roles assigned after the foregrounds, in their order. */
  const SurfaceRoles: seq<string> := [
    "background", "foreground", "card", "card-foreground", "popover", "popover-foreground"]

  /** The roles assigned last, in their order. */
  const DetailRoles: seq<string> := ["muted", "muted-foreground", "border", "input", "ring"]

  /** `${key}-foreground` */
  function Foreground(key: string): string {
    key + "-foreground"
  }

  function ForegroundsOf(keys: seq<string>): (fs: seq<string>)
    ensures |fs| == |keys|
  {
    if keys == [] then [] else [Foreground(keys[0])] + ForegroundsOf(keys[1..])
  }

  /** The foreground roles the loop adds. */
  const ForegroundRoles: seq<string> :=
    ["primary-foreground", "secondary-foreground", "accent-foreground", "destructive-foreground"]

  lemma ForegroundRolesOfAccents()
    ensures ForegroundsOf(AccentRoles) == ForegroundRoles
    ensures forall i :: 0 <= i < 4 ==> Foreground(AccentRoles[i]) == ForegroundRoles[i]
  {
    var a := AccentRoles;
    assert ForegroundsOf(a[3..]) == [Foreground("destructive")] + ForegroundsOf([]);
    assert ForegroundsOf(a[2..]) == [Foreground("accent")] + ForegroundsOf(a[3..]);
    assert ForegroundsOf(a[1..]) == [Foreground("secondary")] + ForegroundsOf(a[2..]);
    assert ForegroundsOf(a) == [Foreground("primary")] + ForegroundsOf(a[1..]);
    assert Foreground("primary") == "primary-foreground";
    assert Foreground("secondary") == "secondary-foreground";
    assert Foreground("accent") == "accent-foreground";
    assert Foreground("destructive") == "destructive-foreground";
  }

  /** The nineteen roles of a generated palette, in the order they are assigned. */
  const RoleOrder: seq<string> := AccentRoles + ForegroundRoles + SurfaceRoles + DetailRoles

  /** No role is assigned twice: the nineteen roles are distinct. */
  lemma RoleOrderDistinct()
    ensures |RoleOrder| == 19 && Distinct(RoleOrder)
  {
    var a, f, s, d := AccentRoles, ForegroundRoles, SurfaceRoles, DetailRoles;
    forall i, j | 0 <= i < j < 4
      ensures a[i] != a[j] && f[i] != f[j]
    {
      assert i == 0 || i == 1 || i == 2 || i == 3;
    }
    forall i, j | 0 <= i < j < 6
      ensures s[i] != s[j]
    {
      assert i == 0 || i == 1 || i == 2 || i == 3 || i == 4 || i == 5;
    }
    forall i, j | 0 <= i < j < 5
      ensures d[i] != d[j]
    {
      assert i == 0 || i == 1 || i == 2 || i == 3 || i == 4;
    }
    forall i, j | 0 <= i < 4 && 0 <= j < 4
      ensures a[i] != f[j]
    {
      assert i == 0 || i == 1 || i == 2 || i == 3;
    }
    DistinctAppend(a, f);
    forall i, j | 0 <= i < 8 && 0 <= j < 6
      ensures (a + f)[i] != s[j]
    {
      assert j == 0 || j == 1 || j == 2 || j == 3 || j == 4 || j == 5;
    }
    DistinctAppend(a + f, s);
    forall i, j | 0 <= i < 14 && 0 <= j < 5
      ensures (a + f + s)[i] != d[j]
    {
      assert j == 0 || j == 1 || j == 2 || j == 3 || j == 4;
    }
    DistinctAppend(a + f + s, d);
  }

  /**
   * `generateColor`: the hue wrapped by `% 360` and rounded, the saturation
   * as a rounded percentage, the lightness as a rounded percentage clamped
   * to [5, 95]. The clamp has a branch per mode, and the two are the same.
   */
  function ColorOf(hue: real, saturation: real, lightness: real, isDark: bool): (c: Color)
    ensures 5 <= c.l <= 95
    ensures 0.0 <= hue ==> 0 <= c.h <= 360
    ensures 0.0 <= hue < 360.0 ==> c.h == RoundHalfUp(hue)
    ensures 360.0 <= hue < 720.0 ==> c.h == RoundHalfUp(hue - 360.0)
    ensures c.s == RoundHalfUp(saturation * 100.0)
    ensures 5 <= RoundHalfUp(lightness * 100.0) <= 95 ==> c.l == RoundHalfUp(lightness * 100.0)
    ensures RoundHalfUp(lightness * 100.0) < 5 ==> c.l == 5
    ensures RoundHalfUp(lightness * 100.0) > 95 ==> c.l == 95
  {
    var h := RoundHalfUp(Mod360(hue));
    var s := RoundHalfUp(saturation * 100.0);
    var l := RoundHalfUp(lightness * 100.0);
    var adjustedL := if isDark then Max(5, Min(l, 95)) else Max(5, Min(l, 95));
    Color(h, s, adjustedL)
  }

  function GenerateColor(hue: real, saturation: real, lightness: real, isDark: bool): string {
    Render(ColorOf(hue, saturation, lightness, isDark))
  }

  /** The mode only selects between two identical clamps: it never changes a colour. */
  lemma ModeDoesNotChangeColor(hue: real, saturation: real, lightness: real)
    ensures ColorOf(hue, saturation, lightness, true) == ColorOf(hue, saturation, lightness, false)
  {
  }

  /** A `generateColor` closure: hue, saturation and lightness to a colour string. */
  type ColorFn = (real, real, real) -> string

  /** The `generateColor` closure of one call of `generatePaletteForMode`. */
  function ColorGenerator(isDark: bool): ColorFn {
    (hue, saturation, lightness) => GenerateColor(hue, saturation, lightness, isDark)
  }

  /** `getContrastColor`: a near-black or near-white of the base hue, by luminance. */
  function ContrastColor(background: string, baseHue: real, generateColor: ColorFn, chroma: Chroma): string {
    if chroma.luminance(background) > 0.5 then generateColor(baseHue, 0.1, 0.1)
    else generateColor(baseHue, 0.1, 0.9)
  }

  /** Lines 73-80: the accent roles, assigned into an empty record. */
  function WithAccents(baseHue: real, isDark: bool, generateColor: ColorFn): (p: Palette)
    ensures p.order == AccentRoles
    ensures forall i :: 0 <= i < |AccentRoles| ==> AccentRoles[i] in p.values
  {
    var p := Set(Empty, "primary", generateColor(baseHue, 0.6, if isDark then 0.6 else 0.4));
    var p := Set(p, "secondary", generateColor(Mod360(baseHue + 30.0), 0.5, if isDark then 0.7 else 0.3));
    var p := Set(p, "accent", generateColor(Mod360(baseHue + 60.0), 0.7, 0.5));
    Set(p, "destructive", generateColor(0.0, 0.85, if isDark then 0.6 else 0.4))
  }

  /**
   * Lines 90-92: the `forEach` over `keys`, in order, each step reading the
   * record as the previous steps left it.
   */
  function WithForegrounds(p: Palette, keys: seq<string>, baseHue: real, generateColor: ColorFn, chroma: Chroma): (r: Palette)
    requires forall i :: 0 <= i < |keys| ==> keys[i] in p.values
    ensures forall k :: k in p.values ==> k in r.values
    decreases |keys|
  {
    if keys == [] then p
    else
      var key := keys[0];
      var q := Set(p, Foreground(key), ContrastColor(p.values[key], baseHue, generateColor, chroma));
      WithForegrounds(q, keys[1..], baseHue, generateColor, chroma)
  }

  /** The loop writes only the foreground names of its keys. */
  lemma {:induction false} ForegroundsKeepOthers(p: Palette, keys: seq<string>, baseHue: real, generateColor: ColorFn, chroma: Chroma, k: string)
    requires forall i :: 0 <= i < |keys| ==> keys[i] in p.values
    requires forall i :: 0 <= i < |keys| ==> k != Foreground(keys[i])
    ensures Get(WithForegrounds(p, keys, baseHue, generateColor, chroma), k) == Get(p, k)
    decreases |keys|
  {
    if keys != [] {
      var q := Set(p, Foreground(keys[0]), ContrastColor(p.values[keys[0]], baseHue, generateColor, chroma));
      assert WithForegrounds(p, keys, baseHue, generateColor, chroma) == WithForegrounds(q, keys[1..], baseHue, generateColor, chroma);
      assert forall i :: 0 <= i < |keys| - 1 ==> k != Foreground(keys[1..][i]) by {
        forall i | 0 <= i < |keys| - 1
          ensures k != Foreground(keys[1..][i])
        {
          assert keys[1..][i] == keys[i + 1];
        }
      }
      ForegroundsKeepOthers(q, keys[1..], baseHue, generateColor, chroma, k);
    }
  }

  /** Foreground names that are distinct and new to `p`: then no step of the loop moves or overwrites another. */
  predicate FreshForegrounds(p: Palette, keys: seq<string>) {
    (forall i, j :: 0 <= i < j < |keys| ==> Foreground(keys[i]) != Foreground(keys[j])) &&
    (forall i :: 0 <= i < |keys| ==> Foreground(keys[i]) !in p.values)
  }

  /** After the first step, the remaining foreground names are still fresh. */
  lemma FreshRest(p: Palette, keys: seq<string>, v: string)
    requires keys != [] && FreshForegrounds(p, keys)
    ensures FreshForegrounds(Set(p, Foreground(keys[0]), v), keys[1..])
  {
    var q := Set(p, Foreground(keys[0]), v);
    var rest := keys[1..];
    forall i | 0 <= i < |rest|
      ensures Foreground(rest[i]) !in q.values
    {
      assert rest[i] == keys[i + 1];
    }
    forall i, j | 0 <= i < j < |rest|
      ensures Foreground(rest[i]) != Foreground(rest[j])
    {
      assert rest[i] == keys[i + 1] && rest[j] == keys[j + 1];
    }
  }

  /** With fresh names, the loop appends one foreground per key, in the order of the keys. */
  lemma {:induction false} ForegroundsOrder(p: Palette, keys: seq<string>, baseHue: real, generateColor: ColorFn, chroma: Chroma)
    requires forall i :: 0 <= i < |keys| ==> keys[i] in p.values
    requires FreshForegrounds(p, keys)
    ensures WithForegrounds(p, keys, baseHue, generateColor, chroma).order == p.order + ForegroundsOf(keys)
    decreases |keys|
  {
    if keys != [] {
      var v := ContrastColor(p.values[keys[0]], baseHue, generateColor, chroma);
      var q := Set(p, Foreground(keys[0]), v);
      assert WithForegrounds(p, keys, baseHue, generateColor, chroma) == WithForegrounds(q, keys[1..], baseHue, generateColor, chroma);
      FreshRest(p, keys, v);
      ForegroundsOrder(q, keys[1..], baseHue, generateColor, chroma);
      assert Foreground(keys[0]) !in p.values;
      assert q.order == p.order + [Foreground(keys[0])];
      AppendAssoc(p.order, [Foreground(keys[0])], ForegroundsOf(keys[1..]));
    }
  }

  /** No key is the foreground name of a key. */
  predicate NoForegroundKeys(keys: seq<string>) {
    forall i, j :: 0 <= i < |keys| && 0 <= j < |keys| ==> keys[i] != Foreground(keys[j])
  }

  /**
   * With fresh names, and no key being a foreground name, each foreground is
   * the contrast colour of the value its key had before the loop.
   */
  lemma {:induction false} ForegroundsValues(p: Palette, keys: seq<string>, baseHue: real, generateColor: ColorFn, chroma: Chroma, i: nat)
    requires forall i :: 0 <= i < |keys| ==> keys[i] in p.values
    requires FreshForegrounds(p, keys) && NoForegroundKeys(keys) && i < |keys|
    ensures Get(WithForegrounds(p, keys, baseHue, generateColor, chroma), Foreground(keys[i]))
      == Some(ContrastColor(p.values[keys[i]], baseHue, generateColor, chroma))
    decreases |keys|
  {
    var v := ContrastColor(p.values[keys[0]], baseHue, generateColor, chroma);
    var q := Set(p, Foreground(keys[0]), v);
    var rest := keys[1..];
    assert WithForegrounds(p, keys, baseHue, generateColor, chroma) == WithForegrounds(q, rest, baseHue, generateColor, chroma);
    if i == 0 {
      forall j | 0 <= j < |rest|
        ensures Foreground(keys[0]) != Foreground(rest[j])
      {
        assert rest[j] == keys[j + 1];
      }
      ForegroundsKeepOthers(q, rest, baseHue, generateColor, chroma, Foreground(keys[0]));
    } else {
      FreshRest(p, keys, v);
      assert NoForegroundKeys(rest) by {
        forall a, b | 0 <= a < |rest| && 0 <= b < |rest|
          ensures rest[a] != Foreground(rest[b])
        {
          assert rest[a] == keys[a + 1] && rest[b] == keys[b + 1];
        }
      }
      ForegroundsValues(q, rest, baseHue, generateColor, chroma, i - 1);
      assert rest[i - 1] == keys[i] && keys[i] != Foreground(keys[0]);
    }
  }

  /** Lines 94-107: the background, card and popover roles; the aliases copy what they read. */
  function WithSurfaces(p: Palette, baseHue: real, isDark: bool, generateColor: ColorFn): (r: Palette)
    ensures forall k :: k in p.values ==> k in r.values
  {
    var p := Set(p, "background", generateColor(baseHue, 0.1, if isDark then 0.1 else 0.95));
    var p := Set(p, "foreground", generateColor(baseHue, 0.1, if isDark then 0.9 else 0.1));
    var p := Set(p, "card", generateColor(baseHue, 0.05, if isDark then 0.15 else 0.98));
    var p := Set(p, "card-foreground", p.values["foreground"]);
    var p := Set(p, "popover", p.values["background"]);
    Set(p, "popover-foreground", p.values["foreground"])
  }

  /** The surface assignments write only the surface roles. */
  lemma SurfacesKeepOthers(p: Palette, baseHue: real, isDark: bool, generateColor: ColorFn, k: string)
    requires k !in SurfaceRoles
    ensures Get(WithSurfaces(p, baseHue, isDark, generateColor), k) == Get(p, k)
  {
  }

  predicate NoSurfaceRoles(p: Palette) {
    "background" !in p.values &&
    "foreground" !in p.values &&
    "card" !in p.values &&
    "card-foreground" !in p.values &&
    "popover" !in p.values &&
    "popover-foreground" !in p.values
  }

  /** The surface assignments add none of the last roles. */
  lemma SurfacesKeepDetailsAbsent(p: Palette, baseHue: real, isDark: bool, generateColor: ColorFn)
    requires NoDetailRoles(p)
    ensures NoDetailRoles(WithSurfaces(p, baseHue, isDark, generateColor))
  {
  }

  /** Into a record without them, the surface roles are appended in the order of `SurfaceRoles`. */
  lemma SurfacesOrder(p: Palette, baseHue: real, isDark: bool, generateColor: ColorFn)
    requires NoSurfaceRoles(p)
    ensures WithSurfaces(p, baseHue, isDark, generateColor).order == p.order + SurfaceRoles
  {
    assert WithSurfaces(p, baseHue, isDark, generateColor).order == p.order + ["background"] + ["foreground"] + ["card"] + ["card-foreground"] + ["popover"] + ["popover-foreground"];
  }

  /** The values of the surface roles: each alias holds the value of the role it copies. */
  lemma SurfacesValues(p: Palette, baseHue: real, isDark: bool, generateColor: ColorFn)
    ensures var r := WithSurfaces(p, baseHue, isDark, generateColor);
      && Get(r, "background") == Some(generateColor(baseHue, 0.1, if isDark then 0.1 else 0.95))
      && Get(r, "foreground") == Some(generateColor(baseHue, 0.1, if isDark then 0.9 else 0.1))
      && Get(r, "card") == Some(generateColor(baseHue, 0.05, if isDark then 0.15 else 0.98))
      && Get(r, "card-foreground") == Get(r, "foreground")
      && Get(r, "popover") == Get(r, "background")
      && Get(r, "popover-foreground") == Get(r, "foreground")
  {
  }

  /** Lines 108-116: the muted and border roles, the input alias and the ring made from `primary`. */
  function WithDetails(p: Palette, baseHue: real, isDark: bool, generateColor: ColorFn, chroma: Chroma): Palette
    requires "primary" in p.values
  {
    var p := Set(p, "muted", generateColor(baseHue, 0.2, if isDark then 0.2 else 0.8));
    var p := Set(p, "muted-foreground", generateColor(baseHue, 0.3, if isDark then 0.7 else 0.3));
    var p := Set(p, "border", generateColor(baseHue, 0.15, if isDark then 0.3 else 0.7));
    var p := Set(p, "input", p.values["border"]);
    Set(p, "ring", chroma.withAlpha(p.values["primary"], 0.3))
  }

  /** The last assignments write only their own roles. */
  lemma DetailsKeepOthers(p: Palette, baseHue: real, isDark: bool, generateColor: ColorFn, chroma: Chroma, k: string)
    requires "primary" in p.values && k !in DetailRoles
    ensures Get(WithDetails(p, baseHue, isDark, generateColor, chroma), k) == Get(p, k)
  {
  }

  /** In particular they leave the surface roles as they were. */
  lemma DetailsKeepSurfaces(p: Palette, baseHue: real, isDark: bool, generateColor: ColorFn, chroma: Chroma)
    requires "primary" in p.values
    ensures var r := WithDetails(p, baseHue, isDark, generateColor, chroma);
      && Get(r, "background") == Get(p, "background")
      && Get(r, "foreground") == Get(p, "foreground")
      && Get(r, "card") == Get(p, "card")
      && Get(r, "card-foreground") == Get(p, "card-foreground")
      && Get(r, "popover") == Get(p, "popover")
      && Get(r, "popover-foreground") == Get(p, "popover-foreground")
  {
    SurfacesNotDetails();
    forall k | k in SurfaceRoles
      ensures Get(WithDetails(p, baseHue, isDark, generateColor, chroma), k) == Get(p, k)
    {
      DetailsKeepOthers(p, baseHue, isDark, generateColor, chroma, k);
    }
    SameOnSurfaces(WithDetails(p, baseHue, isDark, generateColor, chroma), p);
  }

  lemma SurfacesNotDetails()
    ensures forall k :: k in SurfaceRoles ==> k !in DetailRoles
  {
    forall k | k in SurfaceRoles
      ensures k !in DetailRoles
    {
      var i :| 0 <= i < 6 && SurfaceRoles[i] == k;
      assert i == 0 || i == 1 || i == 2 || i == 3 || i == 4 || i == 5;
    }
  }

  lemma SameOnSurfaces(r: Palette, p: Palette)
    requires forall k :: k in SurfaceRoles ==> Get(r, k) == Get(p, k)
    ensures
      && Get(r, "background") == Get(p, "background")
      && Get(r, "foreground") == Get(p, "foreground")
      && Get(r, "card") == Get(p, "card")
      && Get(r, "card-foreground") == Get(p, "card-foreground")
      && Get(r, "popover") == Get(p, "popover")
      && Get(r, "popover-foreground") == Get(p, "popover-foreground")
  {
    assert SurfaceRoles == ["background", "foreground", "card", "card-foreground", "popover", "popover-foreground"];
  }

  predicate NoDetailRoles(p: Palette) {
    "muted" !in p.values &&
    "muted-foreground" !in p.values &&
    "border" !in p.values &&
    "input" !in p.values &&
    "ring" !in p.values
  }

  /** Into a record without them, the last roles are appended in the order of `DetailRoles`. */
  lemma DetailsOrder(p: Palette, baseHue: real, isDark: bool, generateColor: ColorFn, chroma: Chroma)
    requires "primary" in p.values && NoDetailRoles(p)
    ensures WithDetails(p, baseHue, isDark, generateColor, chroma).order == p.order + DetailRoles
  {
    assert WithDetails(p, baseHue, isDark, generateColor, chroma).order == p.order + ["muted"] + ["muted-foreground"] + ["border"] + ["input"] + ["ring"];
  }

  /** The values of the last roles: `input` copies `border`, and the ring is made from `primary` as it stood. */
  lemma DetailsValues(p: Palette, baseHue: real, isDark: bool, generateColor: ColorFn, chroma: Chroma)
    requires "primary" in p.values
    ensures var r := WithDetails(p, baseHue, isDark, generateColor, chroma);
      && Get(r, "muted") == Some(generateColor(baseHue, 0.2, if isDark then 0.2 else 0.8))
      && Get(r, "muted-foreground") == Some(generateColor(baseHue, 0.3, if isDark then 0.7 else 0.3))
      && Get(r, "border") == Some(generateColor(baseHue, 0.15, if isDark then 0.3 else 0.7))
      && Get(r, "input") == Get(r, "border")
      && Get(r, "ring") == Some(chroma.withAlpha(p.values["primary"], 0.3))
  {
  }

  /** `generatePaletteForMode`, for a given `generateColor` closure. */
  function PaletteWith(baseHue: real, isDark: bool, generateColor: ColorFn, chroma: Chroma): Palette {
    var p := AfterForegrounds(baseHue, isDark, generateColor, chroma);
    WithDetails(WithSurfaces(p, baseHue, isDark, generateColor), baseHue, isDark, generateColor, chroma)
  }

  /** The record after the accent assignments holds the four accents and nothing else. */
  lemma AccentsDomain(baseHue: real, isDark: bool, generateColor: ColorFn, k: string)
    ensures k in WithAccents(baseHue, isDark, generateColor).values
      <==> k == "primary" || k == "secondary" || k == "accent" || k == "destructive"
  {
  }

  /** The foreground names of the accents are distinct, new to the accent record, and are not accents. */
  lemma AccentsFresh(baseHue: real, isDark: bool, generateColor: ColorFn)
    ensures FreshForegrounds(WithAccents(baseHue, isDark, generateColor), AccentRoles)
    ensures NoForegroundKeys(AccentRoles)
  {
    var a := WithAccents(baseHue, isDark, generateColor);
    ForegroundRolesOfAccents();
    forall i | 0 <= i < 4
      ensures Foreground(AccentRoles[i]) !in a.values
    {
      AccentsDomain(baseHue, isDark, generateColor, ForegroundRoles[i]);
      assert i == 0 || i == 1 || i == 2 || i == 3;
    }
    forall i, j | 0 <= i < 4 && 0 <= j < 4
      ensures AccentRoles[i] != Foreground(AccentRoles[j])
    {
      assert j == 0 || j == 1 || j == 2 || j == 3;
    }
    forall i, j | 0 <= i < j < 4
      ensures Foreground(AccentRoles[i]) != Foreground(AccentRoles[j])
    {
      assert i == 0 || i == 1 || i == 2;
    }
  }

  /** The record the foreground loop leaves, for the accents of one base hue. */
  function AfterForegrounds(baseHue: real, isDark: bool, generateColor: ColorFn, chroma: Chroma): Palette {
    WithForegrounds(WithAccents(baseHue, isDark, generateColor), AccentRoles, baseHue, generateColor, chroma)
  }

  /** A role that is neither an accent nor a foreground of one is still missing after the loop. */
  lemma LaterRoleAbsent(baseHue: real, isDark: bool, generateColor: ColorFn, chroma: Chroma, k: string)
    requires k != "primary" && k != "secondary" && k != "accent" && k != "destructive"
    requires k != "primary-foreground" && k != "secondary-foreground"
    requires k != "accent-foreground" && k != "destructive-foreground"
    ensures k !in AfterForegrounds(baseHue, isDark, generateColor, chroma).values
  {
    ForegroundRolesOfAccents();
    AccentsDomain(baseHue, isDark, generateColor, k);
    forall i | 0 <= i < 4
      ensures k != Foreground(AccentRoles[i])
    {
      assert i == 0 || i == 1 || i == 2 || i == 3;
    }
    ForegroundsKeepOthers(WithAccents(baseHue, isDark, generateColor), AccentRoles, baseHue, generateColor, chroma, k);
  }

  /** After the loop: the accents and their foregrounds, in that order, and none of the later roles. */
  lemma ForegroundStage(baseHue: real, isDark: bool, generateColor: ColorFn, chroma: Chroma)
    ensures var f := AfterForegrounds(baseHue, isDark, generateColor, chroma);
      f.order == AccentRoles + ForegroundRoles && "primary" in f.values && NoSurfaceRoles(f) && NoDetailRoles(f)
  {
    AccentsFresh(baseHue, isDark, generateColor);
    ForegroundsOrder(WithAccents(baseHue, isDark, generateColor), AccentRoles, baseHue, generateColor, chroma);
    ForegroundRolesOfAccents();
    LaterRoleAbsent(baseHue, isDark, generateColor, chroma, "background");
    LaterRoleAbsent(baseHue, isDark, generateColor, chroma, "foreground");
    LaterRoleAbsent(baseHue, isDark, generateColor, chroma, "card");
    LaterRoleAbsent(baseHue, isDark, generateColor, chroma, "card-foreground");
    LaterRoleAbsent(baseHue, isDark, generateColor, chroma, "popover");
    LaterRoleAbsent(baseHue, isDark, generateColor, chroma, "popover-foreground");
    LaterRoleAbsent(baseHue, isDark, generateColor, chroma, "muted");
    LaterRoleAbsent(baseHue, isDark, generateColor, chroma, "muted-foreground");
    LaterRoleAbsent(baseHue, isDark, generateColor, chroma, "border");
    LaterRoleAbsent(baseHue, isDark, generateColor, chroma, "input");
    LaterRoleAbsent(baseHue, isDark, generateColor, chroma, "ring");
  }

  /** After the surface assignments: the surfaces follow the foregrounds, and the last roles are still missing. */
  lemma SurfaceStage(baseHue: real, isDark: bool, generateColor: ColorFn, chroma: Chroma)
    ensures var s := WithSurfaces(AfterForegrounds(baseHue, isDark, generateColor, chroma), baseHue, isDark, generateColor);
      s.order == AccentRoles + ForegroundRoles + SurfaceRoles && "primary" in s.values && NoDetailRoles(s)
  {
    var f := AfterForegrounds(baseHue, isDark, generateColor, chroma);
    ForegroundStage(baseHue, isDark, generateColor, chroma);
    SurfacesOrder(f, baseHue, isDark, generateColor);
    SurfacesKeepDetailsAbsent(f, baseHue, isDark, generateColor);
  }

  /** A generated palette holds the nineteen roles, each once, in the order they are assigned. */
  lemma PaletteOrder(baseHue: real, isDark: bool, generateColor: ColorFn, chroma: Chroma)
    ensures PaletteWith(baseHue, isDark, generateColor, chroma).order == RoleOrder
  {
    var s := WithSurfaces(AfterForegrounds(baseHue, isDark, generateColor, chroma), baseHue, isDark, generateColor);
    SurfaceStage(baseHue, isDark, generateColor, chroma);
    DetailsOrder(s, baseHue, isDark, generateColor, chroma);
  }

  /** `r` and `p` agree on the accents and their foregrounds. */
  predicate SameEarlyRoles(r: Palette, p: Palette) {
    && Get(r, "primary") == Get(p, "primary") && Get(r, "primary-foreground") == Get(p, "primary-foreground")
    && Get(r, "secondary") == Get(p, "secondary") && Get(r, "secondary-foreground") == Get(p, "secondary-foreground")
    && Get(r, "accent") == Get(p, "accent") && Get(r, "accent-foreground") == Get(p, "accent-foreground")
    && Get(r, "destructive") == Get(p, "destructive") && Get(r, "destructive-foreground") == Get(p, "destructive-foreground")
  }

  /** No accent or foreground role is among the roles assigned after them. */
  lemma EarlyRolesNotLater()
    ensures forall k :: k in AccentRoles + ForegroundRoles ==> k !in SurfaceRoles && k !in DetailRoles
  {
    forall k | k in AccentRoles + ForegroundRoles
      ensures k !in SurfaceRoles && k !in DetailRoles
    {
      var i :| 0 <= i < 8 && (AccentRoles + ForegroundRoles)[i] == k;
      assert i == 0 || i == 1 || i == 2 || i == 3 || i == 4 || i == 5 || i == 6 || i == 7;
    }
  }

  lemma SameOnEarlyRoles(r: Palette, p: Palette)
    requires forall k :: k in AccentRoles + ForegroundRoles ==> Get(r, k) == Get(p, k)
    ensures SameEarlyRoles(r, p)
  {
    assert AccentRoles + ForegroundRoles == ["primary", "secondary", "accent", "destructive",
      "primary-foreground", "secondary-foreground", "accent-foreground", "destructive-foreground"];
  }

  lemma SameEarlyRolesChain(p: Palette, s: Palette, r: Palette)
    requires SameEarlyRoles(s, p) && SameEarlyRoles(r, s)
    ensures forall i :: 0 <= i < 4 ==> Get(r, AccentRoles[i]) == Get(p, AccentRoles[i]) && Get(r, ForegroundRoles[i]) == Get(p, ForegroundRoles[i])
  {
    forall i | 0 <= i < 4
      ensures Get(r, AccentRoles[i]) == Get(p, AccentRoles[i]) && Get(r, ForegroundRoles[i]) == Get(p, ForegroundRoles[i])
    {
      assert i == 0 || i == 1 || i == 2 || i == 3;
    }
  }

  /** The surface assignments leave the accents and their foregrounds as they were. */
  lemma SurfacesKeepEarlyRoles(p: Palette, baseHue: real, isDark: bool, generateColor: ColorFn)
    ensures var r := WithSurfaces(p, baseHue, isDark, generateColor);
      SameEarlyRoles(r, p)
  {
    EarlyRolesNotLater();
    forall k | k in AccentRoles + ForegroundRoles
      ensures Get(WithSurfaces(p, baseHue, isDark, generateColor), k) == Get(p, k)
    {
      SurfacesKeepOthers(p, baseHue, isDark, generateColor, k);
    }
    SameOnEarlyRoles(WithSurfaces(p, baseHue, isDark, generateColor), p);
  }

  /** So do the detail assignments. */
  lemma DetailsKeepEarlyRoles(p: Palette, baseHue: real, isDark: bool, generateColor: ColorFn, chroma: Chroma)
    requires "primary" in p.values
    ensures var r := WithDetails(p, baseHue, isDark, generateColor, chroma);
      SameEarlyRoles(r, p)
  {
    EarlyRolesNotLater();
    forall k | k in AccentRoles + ForegroundRoles
      ensures Get(WithDetails(p, baseHue, isDark, generateColor, chroma), k) == Get(p, k)
    {
      DetailsKeepOthers(p, baseHue, isDark, generateColor, chroma, k);
    }
    SameOnEarlyRoles(WithDetails(p, baseHue, isDark, generateColor, chroma), p);
  }

  /** The surface and detail assignments leave the accents and their foregrounds as they were. */
  lemma LaterPhasesKeepEarlyRoles(p: Palette, baseHue: real, isDark: bool, generateColor: ColorFn, chroma: Chroma)
    requires "primary" in p.values
    ensures var r := WithDetails(WithSurfaces(p, baseHue, isDark, generateColor), baseHue, isDark, generateColor, chroma);
      forall i :: 0 <= i < 4 ==> Get(r, AccentRoles[i]) == Get(p, AccentRoles[i]) && Get(r, ForegroundRoles[i]) == Get(p, ForegroundRoles[i])
  {
    var s := WithSurfaces(p, baseHue, isDark, generateColor);
    SurfacesKeepEarlyRoles(p, baseHue, isDark, generateColor);
    DetailsKeepEarlyRoles(s, baseHue, isDark, generateColor, chroma);
    SameEarlyRolesChain(p, s, WithDetails(s, baseHue, isDark, generateColor, chroma));
  }

  /**
   * The loop over the accents, in any record where their foreground names are
   * fresh: the accents stay, and each foreground is the contrast colour of its accent.
   */
  lemma LoopOverAccents(p: Palette, baseHue: real, generateColor: ColorFn, chroma: Chroma)
    requires forall i :: 0 <= i < 4 ==> AccentRoles[i] in p.values
    requires FreshForegrounds(p, AccentRoles) && NoForegroundKeys(AccentRoles)
    ensures var r := WithForegrounds(p, AccentRoles, baseHue, generateColor, chroma);
      forall i :: 0 <= i < 4 ==> (Get(r, AccentRoles[i]) == Get(p, AccentRoles[i])
        && Get(r, ForegroundRoles[i]) == Some(ContrastColor(p.values[AccentRoles[i]], baseHue, generateColor, chroma)))
  {
    ForegroundRolesOfAccents();
    forall i | 0 <= i < 4
      ensures Get(WithForegrounds(p, AccentRoles, baseHue, generateColor, chroma), AccentRoles[i]) == Get(p, AccentRoles[i])
      ensures Get(WithForegrounds(p, AccentRoles, baseHue, generateColor, chroma), ForegroundRoles[i])
        == Some(ContrastColor(p.values[AccentRoles[i]], baseHue, generateColor, chroma))
    {
      ForegroundsKeepOthers(p, AccentRoles, baseHue, generateColor, chroma, AccentRoles[i]);
      ForegroundsValues(p, AccentRoles, baseHue, generateColor, chroma, i);
    }
  }

  /** The roles up to the foregrounds, as the finished palette holds them. */
  lemma EarlyRoles(baseHue: real, isDark: bool, generateColor: ColorFn, chroma: Chroma)
    ensures var a := WithAccents(baseHue, isDark, generateColor);
      var p := PaletteWith(baseHue, isDark, generateColor, chroma);
      forall i :: 0 <= i < 4 ==> (AccentRoles[i] in a.values && Get(p, AccentRoles[i]) == Get(a, AccentRoles[i])
        && Get(p, ForegroundRoles[i]) == Some(ContrastColor(a.values[AccentRoles[i]], baseHue, generateColor, chroma)))
  {
    var a := WithAccents(baseHue, isDark, generateColor);
    AccentsFresh(baseHue, isDark, generateColor);
    LoopOverAccents(a, baseHue, generateColor, chroma);
    ForegroundStage(baseHue, isDark, generateColor, chroma);
    LaterPhasesKeepEarlyRoles(AfterForegrounds(baseHue, isDark, generateColor, chroma), baseHue, isDark, generateColor, chroma);
  }

  /**
   * The accent colours of a generated palette: `primary` at the base hue,
   * `secondary` and `accent` 30 and 60 degrees round the wheel, and
   * `destructive` at hue 0 whatever the base hue.
   */
  lemma PaletteAccents(baseHue: real, isDark: bool, generateColor: ColorFn, chroma: Chroma)
    ensures var p := PaletteWith(baseHue, isDark, generateColor, chroma);
      && Get(p, "primary") == Some(generateColor(baseHue, 0.6, if isDark then 0.6 else 0.4))
      && Get(p, "secondary") == Some(generateColor(Mod360(baseHue + 30.0), 0.5, if isDark then 0.7 else 0.3))
      && Get(p, "accent") == Some(generateColor(Mod360(baseHue + 60.0), 0.7, 0.5))
      && Get(p, "destructive") == Some(generateColor(0.0, 0.85, if isDark then 0.6 else 0.4))
  {
    EarlyRoles(baseHue, isDark, generateColor, chroma);
    assert AccentRoles[0] == "primary" && AccentRoles[1] == "secondary";
    assert AccentRoles[2] == "accent" && AccentRoles[3] == "destructive";
  }

  /** Each accent's foreground is the contrast colour of that accent in the finished palette. */
  lemma PaletteForegrounds(baseHue: real, isDark: bool, generateColor: ColorFn, chroma: Chroma, i: nat)
    requires i < 4
    ensures var p := PaletteWith(baseHue, isDark, generateColor, chroma);
      && AccentRoles[i] in p.values
      && Get(p, ForegroundRoles[i]) == Some(ContrastColor(p.values[AccentRoles[i]], baseHue, generateColor, chroma))
  {
    EarlyRoles(baseHue, isDark, generateColor, chroma);
  }

  /** The surface colours of a generated palette; the card and popover foregrounds and the popover are copies. */
  lemma PaletteSurfaces(baseHue: real, isDark: bool, generateColor: ColorFn, chroma: Chroma)
    ensures var p := PaletteWith(baseHue, isDark, generateColor, chroma);
      && Get(p, "background") == Some(generateColor(baseHue, 0.1, if isDark then 0.1 else 0.95))
      && Get(p, "foreground") == Some(generateColor(baseHue, 0.1, if isDark then 0.9 else 0.1))
      && Get(p, "card") == Some(generateColor(baseHue, 0.05, if isDark then 0.15 else 0.98))
      && Get(p, "card-foreground") == Get(p, "foreground")
      && Get(p, "popover") == Get(p, "background")
      && Get(p, "popover-foreground") == Get(p, "foreground")
  {
    var f := AfterForegrounds(baseHue, isDark, generateColor, chroma);
    var s := WithSurfaces(f, baseHue, isDark, generateColor);
    ForegroundStage(baseHue, isDark, generateColor, chroma);
    SurfacesValues(f, baseHue, isDark, generateColor);
    DetailsKeepSurfaces(s, baseHue, isDark, generateColor, chroma);
  }

  /** The last colours of a generated palette: `input` copies `border`, and `ring` is `primary` at 30% opacity. */
  lemma PaletteDetails(baseHue: real, isDark: bool, generateColor: ColorFn, chroma: Chroma)
    ensures var p := PaletteWith(baseHue, isDark, generateColor, chroma);
      && Get(p, "muted") == Some(generateColor(baseHue, 0.2, if isDark then 0.2 else 0.8))
      && Get(p, "muted-foreground") == Some(generateColor(baseHue, 0.3, if isDark then 0.7 else 0.3))
      && Get(p, "border") == Some(generateColor(baseHue, 0.15, if isDark then 0.3 else 0.7))
      && Get(p, "input") == Get(p, "border")
      && "primary" in p.values && Get(p, "ring") == Some(chroma.withAlpha(p.values["primary"], 0.3))
  {
    var f := AfterForegrounds(baseHue, isDark, generateColor, chroma);
    var s := WithSurfaces(f, baseHue, isDark, generateColor);
    ForegroundStage(baseHue, isDark, generateColor, chroma);
    DetailsValues(s, baseHue, isDark, generateColor, chroma);
    DetailsKeepOthers(s, baseHue, isDark, generateColor, chroma, "primary");
  }

  /** The accent assignments leave a well-formed record. */
  lemma AccentsWellFormed(baseHue: real, isDark: bool, generateColor: ColorFn)
    ensures WellFormed(WithAccents(baseHue, isDark, generateColor))
  {
    var v0 := generateColor(baseHue, 0.6, if isDark then 0.6 else 0.4);
    var v1 := generateColor(Mod360(baseHue + 30.0), 0.5, if isDark then 0.7 else 0.3);
    var v2 := generateColor(Mod360(baseHue + 60.0), 0.7, 0.5);
    var v3 := generateColor(0.0, 0.85, if isDark then 0.6 else 0.4);
    var p0 := Set(Empty, "primary", v0);
    var p1 := Set(p0, "secondary", v1);
    var p2 := Set(p1, "accent", v2);
    SetWellFormed(Empty, "primary", v0);
    SetWellFormed(p0, "secondary", v1);
    SetWellFormed(p1, "accent", v2);
    SetWellFormed(p2, "destructive", v3);
  }

  /** So does every step of the foreground loop. */
  lemma {:induction false} ForegroundsWellFormed(p: Palette, keys: seq<string>, baseHue: real, generateColor: ColorFn, chroma: Chroma)
    requires forall i :: 0 <= i < |keys| ==> keys[i] in p.values
    requires WellFormed(p)
    ensures WellFormed(WithForegrounds(p, keys, baseHue, generateColor, chroma))
    decreases |keys|
  {
    if keys != [] {
      var v := ContrastColor(p.values[keys[0]], baseHue, generateColor, chroma);
      var q := Set(p, Foreground(keys[0]), v);
      assert WithForegrounds(p, keys, baseHue, generateColor, chroma) == WithForegrounds(q, keys[1..], baseHue, generateColor, chroma);
      SetWellFormed(p, Foreground(keys[0]), v);
      ForegroundsWellFormed(q, keys[1..], baseHue, generateColor, chroma);
    }
  }

  /** So do the surface assignments. */
  lemma SurfacesWellFormed(p: Palette, baseHue: real, isDark: bool, generateColor: ColorFn)
    requires WellFormed(p)
    ensures WellFormed(WithSurfaces(p, baseHue, isDark, generateColor))
  {
    var p0 := Set(p, "background", generateColor(baseHue, 0.1, if isDark then 0.1 else 0.95));
    var p1 := Set(p0, "foreground", generateColor(baseHue, 0.1, if isDark then 0.9 else 0.1));
    var p2 := Set(p1, "card", generateColor(baseHue, 0.05, if isDark then 0.15 else 0.98));
    var p3 := Set(p2, "card-foreground", p2.values["foreground"]);
    var p4 := Set(p3, "popover", p3.values["background"]);
    SetWellFormed(p, "background", generateColor(baseHue, 0.1, if isDark then 0.1 else 0.95));
    SetWellFormed(p0, "foreground", generateColor(baseHue, 0.1, if isDark then 0.9 else 0.1));
    SetWellFormed(p1, "card", generateColor(baseHue, 0.05, if isDark then 0.15 else 0.98));
    SetWellFormed(p2, "card-foreground", p2.values["foreground"]);
    SetWellFormed(p3, "popover", p3.values["background"]);
    SetWellFormed(p4, "popover-foreground", p4.values["foreground"]);
  }

  /** So do the detail assignments. */
  lemma DetailsWellFormed(p: Palette, baseHue: real, isDark: bool, generateColor: ColorFn, chroma: Chroma)
    requires "primary" in p.values && WellFormed(p)
    ensures WellFormed(WithDetails(p, baseHue, isDark, generateColor, chroma))
  {
    var p0 := Set(p, "muted", generateColor(baseHue, 0.2, if isDark then 0.2 else 0.8));
    var p1 := Set(p0, "muted-foreground", generateColor(baseHue, 0.3, if isDark then 0.7 else 0.3));
    var p2 := Set(p1, "border", generateColor(baseHue, 0.15, if isDark then 0.3 else 0.7));
    var p3 := Set(p2, "input", p2.values["border"]);
    SetWellFormed(p, "muted", generateColor(baseHue, 0.2, if isDark then 0.2 else 0.8));
    SetWellFormed(p0, "muted-foreground", generateColor(baseHue, 0.3, if isDark then 0.7 else 0.3));
    SetWellFormed(p1, "border", generateColor(baseHue, 0.15, if isDark then 0.3 else 0.7));
    SetWellFormed(p2, "input", p2.values["border"]);
    SetWellFormed(p3, "ring", chroma.withAlpha(p3.values["primary"], 0.3));
  }

  /** A generated palette is a well-formed record: each of its nineteen roles is listed once. */
  lemma PaletteWellFormed(baseHue: real, isDark: bool, generateColor: ColorFn, chroma: Chroma)
    ensures WellFormed(PaletteWith(baseHue, isDark, generateColor, chroma))
  {
    var f := AfterForegrounds(baseHue, isDark, generateColor, chroma);
    AccentsWellFormed(baseHue, isDark, generateColor);
    ForegroundsWellFormed(WithAccents(baseHue, isDark, generateColor), AccentRoles, baseHue, generateColor, chroma);
    ForegroundStage(baseHue, isDark, generateColor, chroma);
    SurfacesWellFormed(f, baseHue, isDark, generateColor);
    DetailsWellFormed(WithSurfaces(f, baseHue, isDark, generateColor), baseHue, isDark, generateColor, chroma);
  }

  /** `generatePaletteForMode(isDark)`. */
  function PaletteForMode(baseHue: real, isDark: bool, chroma: Chroma): Palette {
    PaletteWith(baseHue, isDark, ColorGenerator(isDark), chroma)
  }

  /** A colour string whose hue is in [0, 360] and whose lightness is in [5, 95]. */
  predicate InRange(v: string) {
    var c := Parse(v);
    c.Some? && 0 <= c.value.h <= 360 && 5 <= c.value.l <= 95
  }

  /** `generateColor` writes the components `ColorOf` computes, in a notation that reads back as them. */
  lemma GeneratedColor(hue: real, saturation: real, lightness: real, isDark: bool)
    ensures Parse(GenerateColor(hue, saturation, lightness, isDark)) == Some(ColorOf(hue, saturation, lightness, isDark))
  {
    ParseRender(ColorOf(hue, saturation, lightness, isDark));
  }

  /** Every colour `generateColor` makes from a non-negative hue is in range. */
  lemma GeneratedInRange(hue: real, saturation: real, lightness: real, isDark: bool)
    requires 0.0 <= hue
    ensures InRange(GenerateColor(hue, saturation, lightness, isDark))
  {
    ParseRender(ColorOf(hue, saturation, lightness, isDark));
  }

  /**
   * The content of a palette generated from `baseHue`: every role with the
   * colour it is given, the foregrounds being the contrast colours of their
   * accents and the aliases copies of the roles they read.
   */
  predicate HasRoles(p: Palette, baseHue: real, isDark: bool, generateColor: ColorFn, chroma: Chroma) {
    var primary := generateColor(baseHue, 0.6, if isDark then 0.6 else 0.4);
    var secondary := generateColor(Mod360(baseHue + 30.0), 0.5, if isDark then 0.7 else 0.3);
    var accent := generateColor(Mod360(baseHue + 60.0), 0.7, 0.5);
    var destructive := generateColor(0.0, 0.85, if isDark then 0.6 else 0.4);
    var background := generateColor(baseHue, 0.1, if isDark then 0.1 else 0.95);
    var foreground := generateColor(baseHue, 0.1, if isDark then 0.9 else 0.1);
    var border := generateColor(baseHue, 0.15, if isDark then 0.3 else 0.7);
    && Get(p, "primary") == Some(primary)
    && Get(p, "secondary") == Some(secondary)
    && Get(p, "accent") == Some(accent)
    && Get(p, "destructive") == Some(destructive)
    && Get(p, "primary-foreground") == Some(ContrastColor(primary, baseHue, generateColor, chroma))
    && Get(p, "secondary-foreground") == Some(ContrastColor(secondary, baseHue, generateColor, chroma))
    && Get(p, "accent-foreground") == Some(ContrastColor(accent, baseHue, generateColor, chroma))
    && Get(p, "destructive-foreground") == Some(ContrastColor(destructive, baseHue, generateColor, chroma))
    && Get(p, "background") == Some(background)
    && Get(p, "foreground") == Some(foreground)
    && Get(p, "card") == Some(generateColor(baseHue, 0.05, if isDark then 0.15 else 0.98))
    && Get(p, "card-foreground") == Some(foreground)
    && Get(p, "popover") == Some(background)
    && Get(p, "popover-foreground") == Some(foreground)
    && Get(p, "muted") == Some(generateColor(baseHue, 0.2, if isDark then 0.2 else 0.8))
    && Get(p, "muted-foreground") == Some(generateColor(baseHue, 0.3, if isDark then 0.7 else 0.3))
    && Get(p, "border") == Some(border)
    && Get(p, "input") == Some(border)
    && Get(p, "ring") == Some(chroma.withAlpha(primary, 0.3))
  }

  /** A generated palette: well formed, the nineteen roles in assignment order, each with its colour. */
  lemma PaletteRoles(baseHue: real, isDark: bool, generateColor: ColorFn, chroma: Chroma)
    ensures var p := PaletteWith(baseHue, isDark, generateColor, chroma);
      WellFormed(p) && p.order == RoleOrder && HasRoles(p, baseHue, isDark, generateColor, chroma)
  {
    PaletteWellFormed(baseHue, isDark, generateColor, chroma);
    PaletteOrder(baseHue, isDark, generateColor, chroma);
    PaletteAccents(baseHue, isDark, generateColor, chroma);
    PaletteSurfaces(baseHue, isDark, generateColor, chroma);
    PaletteDetails(baseHue, isDark, generateColor, chroma);
    PaletteForegrounds(baseHue, isDark, generateColor, chroma, 0);
    PaletteForegrounds(baseHue, isDark, generateColor, chroma, 1);
    PaletteForegrounds(baseHue, isDark, generateColor, chroma, 2);
    PaletteForegrounds(baseHue, isDark, generateColor, chroma, 3);
  }

  /** The nineteen roles, spelled out. */
  lemma RoleOrderMembers(k: string)
    requires k in RoleOrder
    ensures || k == "primary" || k == "secondary" || k == "accent" || k == "destructive"
      || k == "primary-foreground" || k == "secondary-foreground" || k == "accent-foreground" || k == "destructive-foreground"
      || k == "background" || k == "foreground" || k == "card" || k == "card-foreground" || k == "popover" || k == "popover-foreground"
      || k == "muted" || k == "muted-foreground" || k == "border" || k == "input" || k == "ring"
  {
    if k in AccentRoles + ForegroundRoles {
      assert k in AccentRoles || k in ForegroundRoles;
    } else if k !in SurfaceRoles {
      assert k in DetailRoles;
    }
  }

  /**
   * Whatever `generateColor` guarantees of the colours it makes from
   * non-negative hues holds of every role of such a palette but `ring`, which
   * chroma-js prints in its own notation.
   */
  lemma RolesSatisfy(p: Palette, baseHue: real, isDark: bool, generateColor: ColorFn, chroma: Chroma, ok: string -> bool)
    requires WellFormed(p) && p.order == RoleOrder && HasRoles(p, baseHue, isDark, generateColor, chroma)
    requires 0.0 <= baseHue
    requires forall h, s, l :: 0.0 <= h ==> ok(generateColor(h, s, l))
    ensures forall k :: k in p.values && k != "ring" ==> ok(p.values[k])
  {
    forall k | k in p.values && k != "ring"
      ensures ok(p.values[k])
    {
      RoleOrderMembers(k);
    }
  }

  lemma GeneratorInRange(isDark: bool)
    ensures forall h, s, l :: 0.0 <= h ==> InRange(ColorGenerator(isDark)(h, s, l))
  {
    forall h, s, l | 0.0 <= h
      ensures InRange(ColorGenerator(isDark)(h, s, l))
    {
      GeneratedInRange(h, s, l, isDark);
    }
  }

  /** Lightness within [5, 95] and hue within [0, 360] in every role but `ring`, in both modes. */
  lemma PaletteInRange(baseHue: real, isDark: bool, chroma: Chroma)
    requires 0.0 <= baseHue
    ensures var p := PaletteForMode(baseHue, isDark, chroma);
      forall k :: k in p.values && k != "ring" ==> InRange(p.values[k])
  {
    GeneratorInRange(isDark);
    PaletteRoles(baseHue, isDark, ColorGenerator(isDark), chroma);
    RolesSatisfy(PaletteForMode(baseHue, isDark, chroma), baseHue, isDark, ColorGenerator(isDark), chroma, InRange);
  }

  /** The components `generateColor` gives the accents. */
  lemma AccentComponents(baseHue: real, isDark: bool)
    requires 0.0 <= baseHue < 360.0
    ensures ColorOf(baseHue, 0.6, if isDark then 0.6 else 0.4, isDark) == Color(RoundHalfUp(baseHue), 60, if isDark then 60 else 40)
    ensures ColorOf(Mod360(baseHue + 30.0), 0.5, if isDark then 0.7 else 0.3, isDark)
      == Color(RoundHalfUp(Mod360(baseHue + 30.0)), 50, if isDark then 70 else 30)
    ensures ColorOf(Mod360(baseHue + 60.0), 0.7, 0.5, isDark) == Color(RoundHalfUp(Mod360(baseHue + 60.0)), 70, 50)
    ensures ColorOf(0.0, 0.85, if isDark then 0.6 else 0.4, isDark) == Color(0, 85, if isDark then 60 else 40)
  {
    var secondary := Mod360(baseHue + 30.0);
    var accent := Mod360(baseHue + 60.0);
    assert Mod360(secondary) == secondary && Mod360(accent) == accent;
    assert RoundHalfUp(0.6 * 100.0) == 60 && RoundHalfUp(0.5 * 100.0) == 50;
    assert RoundHalfUp(0.7 * 100.0) == 70 && RoundHalfUp(0.85 * 100.0) == 85;
    assert RoundHalfUp(0.4 * 100.0) == 40 && RoundHalfUp(0.3 * 100.0) == 30;
    assert RoundHalfUp(0.0) == 0;
  }

  /** The components `generateColor` gives the two contrast colours. */
  lemma ContrastComponents(baseHue: real, isDark: bool)
    requires 0.0 <= baseHue < 360.0
    ensures ColorOf(baseHue, 0.1, 0.1, isDark) == Color(RoundHalfUp(baseHue), 10, 10)
    ensures ColorOf(baseHue, 0.1, 0.9, isDark) == Color(RoundHalfUp(baseHue), 10, 90)
  {
    assert RoundHalfUp(0.1 * 100.0) == 10 && RoundHalfUp(0.9 * 100.0) == 90;
  }

  /** The strings the `generateColor` of a mode gives the accents. */
  lemma AccentStrings(baseHue: real, isDark: bool)
    requires 0.0 <= baseHue < 360.0
    ensures var generateColor := ColorGenerator(isDark);
      && generateColor(baseHue, 0.6, if isDark then 0.6 else 0.4) == Render(Color(RoundHalfUp(baseHue), 60, if isDark then 60 else 40))
      && generateColor(Mod360(baseHue + 30.0), 0.5, if isDark then 0.7 else 0.3)
        == Render(Color(RoundHalfUp(Mod360(baseHue + 30.0)), 50, if isDark then 70 else 30))
      && generateColor(Mod360(baseHue + 60.0), 0.7, 0.5) == Render(Color(RoundHalfUp(Mod360(baseHue + 60.0)), 70, 50))
      && generateColor(0.0, 0.85, if isDark then 0.6 else 0.4) == Render(Color(0, 85, if isDark then 60 else 40))
  {
    AccentComponents(baseHue, isDark);
  }

  /** The contrast colour the `generateColor` of a mode gives a background. */
  lemma ContrastString(background: string, baseHue: real, isDark: bool, chroma: Chroma)
    requires 0.0 <= baseHue < 360.0
    ensures ContrastColor(background, baseHue, ColorGenerator(isDark), chroma)
      == Render(Color(RoundHalfUp(baseHue), 10, if chroma.luminance(background) > 0.5 then 10 else 90))
  {
    ContrastComponents(baseHue, isDark);
  }

  /**
   * The accent colours in either mode, for a base hue drawn from [0, 360):
   * `primary`, `secondary` and `accent` at the base hue, 30 and 60 degrees on,
   * with saturations 60%, 50% and 70%; `destructive` at hue 0 and 85% whatever
   * the base hue.
   */
  lemma AccentColors(baseHue: real, isDark: bool, chroma: Chroma)
    requires 0.0 <= baseHue < 360.0
    ensures var p := PaletteForMode(baseHue, isDark, chroma);
      && Get(p, "primary") == Some(Render(Color(RoundHalfUp(baseHue), 60, if isDark then 60 else 40)))
      && Get(p, "secondary") == Some(Render(Color(RoundHalfUp(Mod360(baseHue + 30.0)), 50, if isDark then 70 else 30)))
      && Get(p, "accent") == Some(Render(Color(RoundHalfUp(Mod360(baseHue + 60.0)), 70, 50)))
      && Get(p, "destructive") == Some(Render(Color(0, 85, if isDark then 60 else 40)))
  {
    PaletteAccents(baseHue, isDark, ColorGenerator(isDark), chroma);
    AccentStrings(baseHue, isDark);
  }

  /**
   * The foreground of each accent in either mode: the base hue at 10%
   * saturation, 10% lightness on a light accent and 90% on a dark one.
   */
  lemma ForegroundColors(baseHue: real, isDark: bool, chroma: Chroma, i: nat)
    requires 0.0 <= baseHue < 360.0 && i < 4
    ensures var p := PaletteForMode(baseHue, isDark, chroma);
      && AccentRoles[i] in p.values
      && Get(p, ForegroundRoles[i]) == Some(Render(Color(RoundHalfUp(baseHue), 10,
        if chroma.luminance(p.values[AccentRoles[i]]) > 0.5 then 10 else 90)))
  {
    var p := PaletteForMode(baseHue, isDark, chroma);
    PaletteForegrounds(baseHue, isDark, ColorGenerator(isDark), chroma, i);
    ContrastString(p.values[AccentRoles[i]], baseHue, isDark, chroma);
  }

  /** The hue of the colour a palette gives a role, when it holds one in `hsl()` notation. */
  function HueOf(p: Palette, k: string): (r: Option<int>)
    ensures r.Some? ==> k in p.values && Parse(p.values[k]).Some? && r.value == Parse(p.values[k]).value.h
  {
    if k in p.values && Parse(p.values[k]).Some? then Some(Parse(p.values[k]).value.h) else None
  }

  /** The light and the dark palette of one base hue give each accent the same hue. */
  lemma ModesShareHues(baseHue: real, chroma: Chroma)
    requires 0.0 <= baseHue < 360.0
    ensures var light, dark := PaletteForMode(baseHue, false, chroma), PaletteForMode(baseHue, true, chroma);
      forall i :: 0 <= i < 4 ==> HueOf(light, AccentRoles[i]).Some? && HueOf(light, AccentRoles[i]) == HueOf(dark, AccentRoles[i])
  {
    var light, dark := PaletteForMode(baseHue, false, chroma), PaletteForMode(baseHue, true, chroma);
    AccentColors(baseHue, false, chroma);
    AccentColors(baseHue, true, chroma);
    ParseRender(Color(RoundHalfUp(baseHue), 60, 40));
    ParseRender(Color(RoundHalfUp(baseHue), 60, 60));
    ParseRender(Color(RoundHalfUp(Mod360(baseHue + 30.0)), 50, 30));
    ParseRender(Color(RoundHalfUp(Mod360(baseHue + 30.0)), 50, 70));
    ParseRender(Color(RoundHalfUp(Mod360(baseHue + 60.0)), 70, 50));
    ParseRender(Color(0, 85, 40));
    ParseRender(Color(0, 85, 60));
    forall i | 0 <= i < 4
      ensures HueOf(light, AccentRoles[i]).Some? && HueOf(light, AccentRoles[i]) == HueOf(dark, AccentRoles[i])
    {
      assert i == 0 || i == 1 || i == 2 || i == 3;
    }
  }

  /** Rounding after `% 360` can give a hue of 360: the closed upper bound of `InRange` is reached. */
  lemma HueCanBe360(isDark: bool, chroma: Chroma)
    ensures Get(PaletteForMode(359.5, isDark, chroma), "primary")
      == Some(Render(Color(360, 60, if isDark then 60 else 40)))
  {
    AccentColors(359.5, isDark, chroma);
    assert RoundHalfUp(359.5) == 360;
  }

  /**
   * `generatePaletteForMode` as the component runs it: successive assignments
   * into an empty record and a `forEach` loop over the accent roles.
   */
  method BuildPaletteForMode(baseHue: real, isDark: bool, generateColor: ColorFn, chroma: Chroma)
    returns (p: Palette)
    ensures p == PaletteWith(baseHue, isDark, generateColor, chroma)
  {
    p := Empty;
    p := Set(p, "primary", generateColor(baseHue, 0.6, if isDark then 0.6 else 0.4));
    p := Set(p, "secondary", generateColor(Mod360(baseHue + 30.0), 0.5, if isDark then 0.7 else 0.3));
    p := Set(p, "accent", generateColor(Mod360(baseHue + 60.0), 0.7, 0.5));
    p := Set(p, "destructive", generateColor(0.0, 0.85, if isDark then 0.6 else 0.4));

    assert p == WithAccents(baseHue, isDark, generateColor);
    ghost var accents := p;
    var keys := AccentRoles;
    var i := 0;
    while i < |keys|
      invariant 0 <= i <= |keys|
      invariant forall k :: k in keys ==> k in p.values
      invariant WithForegrounds(p, keys[i..], baseHue, generateColor, chroma)
        == WithForegrounds(accents, keys, baseHue, generateColor, chroma)
    {
      var key := keys[i];
      assert keys[i..][1..] == keys[i + 1..];
      p := Set(p, Foreground(key), ContrastColor(p.values[key], baseHue, generateColor, chroma));
      i := i + 1;
    }

    p := Set(p, "background", generateColor(baseHue, 0.1, if isDark then 0.1 else 0.95));
    p := Set(p, "foreground", generateColor(baseHue, 0.1, if isDark then 0.9 else 0.1));
    p := Set(p, "card", generateColor(baseHue, 0.05, if isDark then 0.15 else 0.98));
    p := Set(p, "card-foreground", p.values["foreground"]);
    p := Set(p, "popover", p.values["background"]);
    p := Set(p, "popover-foreground", p.values["foreground"]);
    p := Set(p, "muted", generateColor(baseHue, 0.2, if isDark then 0.2 else 0.8));
    p := Set(p, "muted-foreground", generateColor(baseHue, 0.3, if isDark then 0.7 else 0.3));
    p := Set(p, "border", generateColor(baseHue, 0.15, if isDark then 0.3 else 0.7));
    p := Set(p, "input", p.values["border"]);
    p := Set(p, "ring", chroma.withAlpha(p.values["primary"], 0.3));
  }
}

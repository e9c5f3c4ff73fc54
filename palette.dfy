// The palette generator and the colour-harmony generator.
//
// Neither generator computes a colour itself: each one passes HSL triples to
// `hslToHex`, a floating-point conversion that is not part of this model, so
// each generator here returns the triples it would pass, in order.

module Palette {
  import opened Wrappers
  import opened HexCodec

  /** An HSL triple as `rgbToHsl` returns it: all three parts rounded to integers. */
  datatype Hsl = Hsl(h: int, s: int, l: int)

  /** JavaScript's `%`: the remainder takes the sign of the dividend. */
  function JsRem(a: int, m: int): (r: int)
    requires m > 0
    ensures a >= 0 ==> 0 <= r < m
    ensures a < 0 ==> -m < r <= 0
  {
    if a >= 0 then a % m else -((-a) % m)
  }

  /** On a non-negative dividend the JavaScript remainder is the mathematical one. */
  lemma JsRemOfTurn(x: int)
    requires x + 360 >= 0
    ensures JsRem(x + 360, 360) == x % 360
    ensures x >= 0 ==> JsRem(x, 360) == x % 360
  {
    assert (x + 360) % 360 == x % 360 by {
      assert x + 360 == (x / 360 + 1) * 360 + x % 360;
    }
  }

  /** `Math.max(lo, l - d)`: the darker shade, never below `lo`. */
  function Darker(l: int, d: int, lo: int): (r: int)
    ensures r >= lo && r >= l - d && (r == lo || r == l - d)
  {
    if lo > l - d then lo else l - d
  }

  /** `Math.min(hi, l + d)`: the lighter shade, never above `hi`. */
  function Lighter(l: int, d: int, hi: int): (r: int)
    ensures r <= hi && r <= l + d && (r == hi || r == l + d)
  {
    if hi < l + d then hi else l + d
  }

  // ---------------------------------------------------------------------------
  // The five schemes, each first as the triples it yields, then as the loop
  // that builds them.

  const MonochromaticLightness: seq<int> := [20, 35, 50, 65, 80]
  const AnalogousOffsets: seq<int> := [-60, -30, 0, 30, 60]
  const TriadicOffsets: seq<int> := [0, 120, 240]
  const TetradicOffsets: seq<int> := [0, 90, 180, 270]

  /** Five shades of the base hue and saturation, lightness stepping from 20 to 80 by 15. */
  function Monochromatic(base: Hsl): (r: seq<Hsl>)
    ensures |r| == 5
    ensures forall i :: 0 <= i < 5 ==> r[i] == Hsl(base.h, base.s, 20 + 15 * i)
  {
    seq(|MonochromaticLightness|, i requires 0 <= i < |MonochromaticLightness| =>
      Hsl(base.h, base.s, MonochromaticLightness[i]))
  }

  method GenerateMonochromatic(baseHsl: Hsl) returns (colors: seq<Hsl>)
    ensures colors == Monochromatic(baseHsl)
  {
    colors := [];
    var lightnessValues := MonochromaticLightness;
    for i := 0 to |lightnessValues|
      invariant colors == Monochromatic(baseHsl)[..i]
    {
      colors := colors + [Hsl(baseHsl.h, baseHsl.s, lightnessValues[i])];
    }
  }

  /** The base hue and its neighbours at 30 and 60 degrees either side, base saturation and lightness. */
  function Analogous(base: Hsl): (r: seq<Hsl>)
    ensures |r| == 5
    ensures forall i :: 0 <= i < 5 ==> r[i].s == base.s && r[i].l == base.l
  {
    seq(|AnalogousOffsets|, i requires 0 <= i < |AnalogousOffsets| =>
      Hsl(JsRem(base.h + AnalogousOffsets[i] + 360, 360), base.s, base.l))
  }

  method GenerateAnalogous(baseHsl: Hsl) returns (colors: seq<Hsl>)
    ensures colors == Analogous(baseHsl)
  {
    colors := [];
    var hueOffsets := AnalogousOffsets;
    for i := 0 to |hueOffsets|
      invariant colors == Analogous(baseHsl)[..i]
    {
      var hue := JsRem(baseHsl.h + hueOffsets[i] + 360, 360);
      colors := colors + [Hsl(hue, baseHsl.s, baseHsl.l)];
    }
  }

  /**
   * Three shades of `hue`: lightness `l - d` raised to at least 20, `l` itself,
   * and `l + d` lowered to at most 80.
   */
  function ShadeTriple(hue: int, s: int, l: int, d: int): seq<Hsl> {
    [Hsl(hue, s, Darker(l, d, 20)), Hsl(hue, s, l), Hsl(hue, s, Lighter(l, d, 80))]
  }

  /** Three shades of the base hue, then three of the opposite hue, with a lightness step of 20. */
  function Complementary(base: Hsl): (r: seq<Hsl>)
    ensures |r| == 6
  {
    var complementaryHue := JsRem(base.h + 180, 360);
    ShadeTriple(base.h, base.s, base.l, 20) + ShadeTriple(complementaryHue, base.s, base.l, 20)
  }

  /** Three shades, lightness step 10, at each of the hues 0, 120 and 240 degrees from the base. */
  function Triadic(base: Hsl): (r: seq<Hsl>)
    ensures |r| == 9
  {
    seq(9, i requires 0 <= i < 9 =>
      ShadeTriple(JsRem(base.h + TriadicOffsets[i / 3], 360), base.s, base.l, 10)[i % 3])
  }

  method GenerateTriadic(baseHsl: Hsl) returns (colors: seq<Hsl>)
    ensures colors == Triadic(baseHsl)
  {
    colors := [];
    var hueOffsets := TriadicOffsets;
    for i := 0 to |hueOffsets|
      invariant colors == Triadic(baseHsl)[..3 * i]
    {
      var hue := JsRem(baseHsl.h + hueOffsets[i], 360);
      colors := colors + [Hsl(hue, baseHsl.s, Darker(baseHsl.l, 10, 20))];
      colors := colors + [Hsl(hue, baseHsl.s, baseHsl.l)];
      colors := colors + [Hsl(hue, baseHsl.s, Lighter(baseHsl.l, 10, 80))];
    }
  }

  /** At each of the hues 0, 90, 180 and 270 degrees from the base: a less saturated shade, then the base saturation. */
  function Tetradic(base: Hsl): (r: seq<Hsl>)
    ensures |r| == 8
  {
    seq(8, i requires 0 <= i < 8 =>
      Hsl(JsRem(base.h + TetradicOffsets[i / 2], 360),
          if i % 2 == 0 then Darker(base.s, 20, 30) else base.s,
          base.l))
  }

  method GenerateTetradic(baseHsl: Hsl) returns (colors: seq<Hsl>)
    ensures colors == Tetradic(baseHsl)
  {
    colors := [];
    var hueOffsets := TetradicOffsets;
    for i := 0 to |hueOffsets|
      invariant colors == Tetradic(baseHsl)[..2 * i]
    {
      var hue := JsRem(baseHsl.h + hueOffsets[i], 360);
      colors := colors + [Hsl(hue, Darker(baseHsl.s, 20, 30), baseHsl.l)];
      colors := colors + [Hsl(hue, baseHsl.s, baseHsl.l)];
    }
  }

  // ---------------------------------------------------------------------------
  // Dispatch

  /** An entry of a generated palette: a triple for `hslToHex`, or the base colour passed through. */
  datatype Swatch = Shade(hsl: Hsl) | Verbatim(hex: string)

  /** The generated triples as palette entries, in order. */
  function AsSwatches(triples: seq<Hsl>): (r: seq<Swatch>)
    ensures |r| == |triples| && forall i :: 0 <= i < |r| ==> r[i] == Shade(triples[i])
  {
    seq(|triples|, i requires 0 <= i < |triples| => Shade(triples[i]))
  }

  /**
   * `generatePaletteColors`. The base colour comes from a colour input and is
   * always a valid hex colour; `toHsl` stands for `rgbToHsl`.
   */
  function GeneratePaletteColors(baseColor: string, scheme: string, toHsl: Rgb -> Hsl): (r: seq<Swatch>)
    requires HexToRgb(baseColor).Some?
    ensures IsScheme(scheme) ==> |r| >= 5 && forall i :: 0 <= i < |r| ==> r[i].Shade?
    ensures !IsScheme(scheme) ==> r == [Verbatim(baseColor)]
  {
    var baseHsl := toHsl(HexToRgb(baseColor).value);
    match scheme
    case "monochromatic" => AsSwatches(Monochromatic(baseHsl))
    case "analogous" => AsSwatches(Analogous(baseHsl))
    case "complementary" => AsSwatches(Complementary(baseHsl))
    case "triadic" => AsSwatches(Triadic(baseHsl))
    case "tetradic" => AsSwatches(Tetradic(baseHsl))
    case _ => [Verbatim(baseColor)]
  }

  predicate IsScheme(scheme: string) {
    scheme in {"monochromatic", "analogous", "complementary", "triadic", "tetradic"}
  }

  /** Each scheme's size; an unknown scheme returns the base colour alone. */
  lemma PaletteSizes(baseColor: string, scheme: string, toHsl: Rgb -> Hsl)
    requires HexToRgb(baseColor).Some?
    ensures var r := GeneratePaletteColors(baseColor, scheme, toHsl);
      && (scheme == "monochromatic" ==> |r| == 5)
      && (scheme == "analogous" ==> |r| == 5)
      && (scheme == "complementary" ==> |r| == 6)
      && (scheme == "triadic" ==> |r| == 9)
      && (scheme == "tetradic" ==> |r| == 8)
      && (!IsScheme(scheme) ==> r == [Verbatim(baseColor)])
      && (IsScheme(scheme) ==> forall i :: 0 <= i < |r| ==> r[i].Shade?)
  {
  }

  /** Each scheme name selects its own generator, whose triples appear in order. */
  lemma PaletteDispatch(baseColor: string, scheme: string, toHsl: Rgb -> Hsl)
    requires HexToRgb(baseColor).Some?
    ensures var base := toHsl(HexToRgb(baseColor).value);
      var r := GeneratePaletteColors(baseColor, scheme, toHsl);
      && (scheme == "monochromatic" ==> r == AsSwatches(Monochromatic(base)))
      && (scheme == "analogous" ==> r == AsSwatches(Analogous(base)))
      && (scheme == "complementary" ==> r == AsSwatches(Complementary(base)))
      && (scheme == "triadic" ==> r == AsSwatches(Triadic(base)))
      && (scheme == "tetradic" ==> r == AsSwatches(Tetradic(base)))
  {
  }

  // ---------------------------------------------------------------------------
  // Properties of the schemes

  /**
   * Every analogous hue is the base hue turned by its offset, as an angle
   * modulo 360, so it lies in 0..359.
   */
  lemma AnalogousHues(base: Hsl)
    requires 0 <= base.h <= 360
    ensures forall i :: 0 <= i < 5 ==>
      Analogous(base)[i].h == (base.h + AnalogousOffsets[i]) % 360 && 0 <= Analogous(base)[i].h < 360
  {
    forall i | 0 <= i < 5
      ensures Analogous(base)[i].h == (base.h + AnalogousOffsets[i]) % 360
    {
      JsRemOfTurn(base.h + AnalogousOffsets[i]);
    }
  }

  /**
   * The complementary palette: three shades of the base hue, then three of the
   * hue half a turn away, with outer lightness `max(20, l - 20)` and `min(80, l + 20)`.
   */
  lemma ComplementaryShape(base: Hsl)
    requires 0 <= base.h <= 360
    ensures var r := Complementary(base); var opposite := (base.h + 180) % 360;
      && (forall i :: 0 <= i < 3 ==> r[i].h == base.h)
      && (forall i :: 3 <= i < 6 ==> r[i].h == opposite)
      && (forall i :: 0 <= i < 6 ==> r[i].s == base.s)
      && r[0].l == r[3].l == Darker(base.l, 20, 20)
      && r[1].l == r[4].l == base.l
      && r[2].l == r[5].l == Lighter(base.l, 20, 80)
  {
    JsRemOfTurn(base.h + 180);
  }

  /** Triadic: three shades at each of the base hue turned by 0, 120 and 240 degrees. */
  lemma TriadicShape(base: Hsl)
    requires 0 <= base.h <= 360
    ensures var r := Triadic(base);
      && (forall i :: 0 <= i < 9 ==> r[i].h == (base.h + TriadicOffsets[i / 3]) % 360 && 0 <= r[i].h < 360)
      && (forall i :: 0 <= i < 9 ==> r[i].s == base.s)
      && (forall t :: 0 <= t < 3 ==>
            r[3 * t].l == Darker(base.l, 10, 20) && r[3 * t + 1].l == base.l && r[3 * t + 2].l == Lighter(base.l, 10, 80))
  {
    var r := Triadic(base);
    forall i | 0 <= i < 9
      ensures r[i].h == (base.h + TriadicOffsets[i / 3]) % 360
    {
      JsRemOfTurn(base.h + TriadicOffsets[i / 3]);
    }
    forall t | 0 <= t < 3
      ensures r[3 * t].l == Darker(base.l, 10, 20) && r[3 * t + 1].l == base.l && r[3 * t + 2].l == Lighter(base.l, 10, 80)
    {
      assert (3 * t) / 3 == t && (3 * t) % 3 == 0;
      assert (3 * t + 1) / 3 == t && (3 * t + 1) % 3 == 1;
      assert (3 * t + 2) / 3 == t && (3 * t + 2) % 3 == 2;
    }
  }

  /** Tetradic: at each of four quarter turns, saturation `max(30, s - 20)` then the base saturation. */
  lemma TetradicShape(base: Hsl)
    requires 0 <= base.h <= 360
    ensures var r := Tetradic(base);
      && (forall i :: 0 <= i < 8 ==> r[i].h == (base.h + TetradicOffsets[i / 2]) % 360 && 0 <= r[i].h < 360)
      && (forall i :: 0 <= i < 8 ==> r[i].l == base.l)
      && (forall t :: 0 <= t < 4 ==> r[2 * t].s == Darker(base.s, 20, 30) && r[2 * t + 1].s == base.s)
  {
    var r := Tetradic(base);
    forall i | 0 <= i < 8
      ensures r[i].h == (base.h + TetradicOffsets[i / 2]) % 360
    {
      JsRemOfTurn(base.h + TetradicOffsets[i / 2]);
    }
    forall t | 0 <= t < 4
      ensures r[2 * t].s == Darker(base.s, 20, 30) && r[2 * t + 1].s == base.s
    {
      assert (2 * t) / 2 == t && (2 * t) % 2 == 0;
      assert (2 * t + 1) / 2 == t && (2 * t + 1) % 2 == 1;
    }
  }

  /**
   * Each outer shade is bounded on one side only: the darker is never below
   * 20 and the lighter never above 80, and each is the base lightness moved
   * by `d` whenever that stays inside its bound. Past the other bound the
   * order of the two shades reverses.
   */
  lemma ShadeBounds(l: int, d: int)
    requires 0 <= l <= 100 && d >= 0
    ensures 20 <= Darker(l, d, 20) && Lighter(l, d, 80) <= 80
    ensures l - d >= 20 ==> Darker(l, d, 20) == l - d
    ensures l + d <= 80 ==> Lighter(l, d, 80) == l + d
    ensures 20 <= l <= 80 ==> Darker(l, d, 20) <= l <= Lighter(l, d, 80)
    ensures l - d > 80 ==> Darker(l, d, 20) > Lighter(l, d, 80)
    ensures l + d < 20 ==> Darker(l, d, 20) > Lighter(l, d, 80)
  {
  }

  // ---------------------------------------------------------------------------
  // Colour harmony on the wheel

  /**
   * A triple passed to `hslToHex` by the harmony generator. The hue is the
   * angle clicked on the wheel, a fraction, so it is a real here.
   */
  datatype WheelHsl = WheelHsl(h: real, s: int, l: int)

  /** `a % 360` on JavaScript numbers: `a - 360 * trunc(a / 360)`. */
  function JsRealRem360(a: real): (r: real)
    ensures a >= 0.0 ==> 0.0 <= r < 360.0
    decreases if a < 0.0 then 1 else 0
  {
    if a >= 0.0 then FloorMultiple(a); a - 360.0 * ((a / 360.0).Floor as real) else -JsRealRem360(-a)
  }

  /** `(a / 360).Floor * 360` is the largest multiple of 360 not above `a`. */
  lemma FloorMultiple(a: real)
    ensures 0.0 <= a - 360.0 * ((a / 360.0).Floor as real) < 360.0
  {
    var q := (a / 360.0).Floor as real;
    assert q <= a / 360.0 < q + 1.0;
  }

  /** Reference rotation on the wheel, at most one turn back into [0, 360). */
  function RotateAngle(h: real, d: real): real {
    if h + d >= 360.0 then h + d - 360.0 else if h + d < 0.0 then h + d + 360.0 else h + d
  }

  lemma JsRealRemIsRotation(h: real, d: real)
    requires 0.0 <= h + d < 720.0
    ensures JsRealRem360(h + d) == RotateAngle(h, d)
    ensures 0.0 <= RotateAngle(h, d) < 360.0
  {
    var a := h + d;
    if a >= 360.0 {
      assert 1.0 <= a / 360.0 < 2.0;
      assert (a / 360.0).Floor == 1;
    } else {
      assert 0.0 <= a / 360.0 < 1.0;
      assert (a / 360.0).Floor == 0;
    }
  }

  function Pure(h: real): WheelHsl {
    WheelHsl(h, 100, 50)
  }

  /** The harmony types the wheel offers. */
  datatype Harmony = ComplementaryPair | AnalogousTriple | TriadicTriple | SplitComplementary

  /** The `data-harmony` attribute each harmony button carries. */
  function HarmonyOf(name: string): (h: Option<Harmony>)
    ensures h == Some(ComplementaryPair) <==> name == "complementary"
    ensures h == Some(AnalogousTriple) <==> name == "analogous"
    ensures h == Some(TriadicTriple) <==> name == "triadic"
    ensures h == Some(SplitComplementary) <==> name == "split-complementary"
  {
    match name
    case "complementary" => Some(ComplementaryPair)
    case "analogous" => Some(AnalogousTriple)
    case "triadic" => Some(TriadicTriple)
    case "split-complementary" => Some(SplitComplementary)
    case _ => None
  }

  /** The colours of one harmony around `baseHue`. */
  function HarmonyTones(baseHue: real, harmony: Harmony): (tones: seq<WheelHsl>)
    ensures |tones| == |HarmonyOffsets(harmony)|
    ensures forall i :: 0 <= i < |tones| ==> tones[i].s == 100 && tones[i].l == 50
  {
    match harmony
    case ComplementaryPair =>
      [Pure(baseHue), Pure(JsRealRem360(baseHue + 180.0))]
    case AnalogousTriple =>
      [Pure(JsRealRem360(baseHue - 30.0 + 360.0)), Pure(baseHue), Pure(JsRealRem360(baseHue + 30.0))]
    case TriadicTriple =>
      [Pure(baseHue), Pure(JsRealRem360(baseHue + 120.0)), Pure(JsRealRem360(baseHue + 240.0))]
    case SplitComplementary =>
      [Pure(baseHue), Pure(JsRealRem360(baseHue + 150.0)), Pure(JsRealRem360(baseHue + 210.0))]
  }

  /**
   * `generateHarmonyColors`: fully saturated, mid-lightness hues around the
   * base hue; a type no button carries yields no colours.
   */
  function HarmonyColors(baseHue: real, harmonyType: string): (colors: seq<WheelHsl>)
    ensures HarmonyOf(harmonyType) == None ==> colors == []
    ensures forall i :: 0 <= i < |colors| ==> colors[i].s == 100 && colors[i].l == 50
  {
    match HarmonyOf(harmonyType)
    case None => []
    case Some(harmony) => HarmonyTones(baseHue, harmony)
  }

  /** The hue offsets of each harmony, in output order. */
  function HarmonyOffsets(harmony: Harmony): seq<real> {
    match harmony
    case ComplementaryPair => [0.0, 180.0]
    case AnalogousTriple => [-30.0, 0.0, 30.0]
    case TriadicTriple => [0.0, 120.0, 240.0]
    case SplitComplementary => [0.0, 150.0, 210.0]
  }

  /**
   * For a hue on the wheel, each harmony colour is the base hue turned by its
   * offset and lies on the wheel.
   */
  lemma HarmonyHues(baseHue: real, harmonyType: string)
    requires 0.0 <= baseHue < 360.0
    ensures HarmonyOf(harmonyType).Some? ==>
      var colors := HarmonyColors(baseHue, harmonyType); var offsets := HarmonyOffsets(HarmonyOf(harmonyType).value);
      && |colors| == |offsets|
      && (forall i :: 0 <= i < |colors| ==>
            colors[i].h == RotateAngle(baseHue, offsets[i]) && 0.0 <= colors[i].h < 360.0)
  {
    JsRealRemIsRotation(baseHue, 0.0);
    match HarmonyOf(harmonyType)
    case None =>
    case Some(ComplementaryPair) =>
      JsRealRemIsRotation(baseHue, 180.0);
    case Some(AnalogousTriple) =>
      JsRealRemIsRotation(baseHue, 330.0);
      JsRealRemIsRotation(baseHue, 30.0);
      assert RotateAngle(baseHue, 330.0) == RotateAngle(baseHue, -30.0);
    case Some(TriadicTriple) =>
      JsRealRemIsRotation(baseHue, 120.0);
      JsRealRemIsRotation(baseHue, 240.0);
    case Some(SplitComplementary) =>
      JsRealRemIsRotation(baseHue, 150.0);
      JsRealRemIsRotation(baseHue, 210.0);
  }
}

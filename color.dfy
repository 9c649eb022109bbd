/**
 * The colour model of the cover-art sorter: RGB to HSL conversion, the
 * colour record that carries both, and the weighted perceptual distance
 * between two colours.
 */
module ColorModel {

  datatype Hsl = Hsl(h: real, s: real, l: real)

  /** A colour: integer RGB channels and the HSL values derived from them. */
  datatype Color = Color(r: int, g: int, b: int, h: real, s: real, l: real)

  predicate IsChannel(x: real) { 0.0 <= x <= 255.0 }

  /** Hue in degrees in [0, 360), saturation and lightness in percent. */
  predicate HslInRange(c: Hsl) {
    0.0 <= c.h < 360.0 && 0.0 <= c.s <= 100.0 && 0.0 <= c.l <= 100.0
  }

  function Max3(a: real, b: real, c: real): real {
    if a >= b && a >= c then a else if b >= c then b else c
  }

  function Min3(a: real, b: real, c: real): real {
    if a <= b && a <= c then a else if b <= c then b else c
  }

  /** The hue fraction in [0, 1), computed from the channel holding the maximum;
      the red case is checked first, then green, as the `switch (max)` does. */
  function HueFraction(r: real, g: real, b: real, max: real, d: real): real
    requires d > 0.0
  {
    if max == r then ((g - b) / d + (if g < b then 6.0 else 0.0)) / 6.0
    else if max == g then ((b - r) / d + 2.0) / 6.0
    else ((r - g) / d + 4.0) / 6.0
  }

  /** `rgbToHsl`: channels are scaled to [0, 1]; an achromatic colour (all
      channels equal) has hue and saturation 0. */
  function RgbToHsl(r0: real, g0: real, b0: real): (c: Hsl)
    requires IsChannel(r0) && IsChannel(g0) && IsChannel(b0)
    ensures HslInRange(c)
    ensures (r0 == g0 == b0) ==> c.h == 0.0 && c.s == 0.0
    ensures c.s == 0.0 <==> r0 == g0 == b0
    ensures c.l == (Max3(r0, g0, b0) + Min3(r0, g0, b0)) / 2.0 / 255.0 * 100.0
  {
    var r, g, b := r0 / 255.0, g0 / 255.0, b0 / 255.0;
    var max, min := Max3(r, g, b), Min3(r, g, b);
    ScaledExtremes(r0, g0, b0);
    var l := (max + min) / 2.0;
    if max == min then
      Hsl(0.0, 0.0, l * 100.0)
    else
      var d := max - min;
      var s := if l > 0.5 then d / (2.0 - max - min) else d / (max + min);
      SaturationBounds(max, min, l);
      var h := HueFraction(r, g, b, max, d);
      HueFractionBounds(r, g, b, max, min);
      Hsl(h * 360.0, s * 100.0, l * 100.0)
  }

  lemma ScaledExtremes(r0: real, g0: real, b0: real)
    requires IsChannel(r0) && IsChannel(g0) && IsChannel(b0)
    ensures Max3(r0 / 255.0, g0 / 255.0, b0 / 255.0) == Max3(r0, g0, b0) / 255.0
    ensures Min3(r0 / 255.0, g0 / 255.0, b0 / 255.0) == Min3(r0, g0, b0) / 255.0
    ensures Max3(r0, g0, b0) == Min3(r0, g0, b0) <==> r0 == g0 == b0
    ensures 0.0 <= Min3(r0, g0, b0) <= Max3(r0, g0, b0) <= 255.0
  {
  }

  lemma SaturationBounds(max: real, min: real, l: real)
    requires 0.0 <= min < max <= 1.0 && l == (max + min) / 2.0
    ensures l > 0.5 ==> 2.0 - max - min > 0.0 && 0.0 < (max - min) / (2.0 - max - min) <= 1.0
    ensures l <= 0.5 ==> max + min > 0.0 && 0.0 < (max - min) / (max + min) <= 1.0
  {
    if l > 0.5 {
      var q := 2.0 - max - min;
      assert max - min <= q;
      DivisionAtMostOne(max - min, q);
    } else {
      DivisionAtMostOne(max - min, max + min);
    }
  }

  lemma DivisionAtMostOne(x: real, y: real)
    requires 0.0 < x <= y
    ensures 0.0 < x / y <= 1.0
  {
  }

  lemma HueFractionBounds(r: real, g: real, b: real, max: real, min: real)
    requires max == Max3(r, g, b) && min == Min3(r, g, b) && min < max
    ensures 0.0 <= HueFraction(r, g, b, max, max - min) < 1.0
  {
    var d := max - min;
    if max == r {
      RatioBounds(g - b, d);
    } else if max == g {
      RatioBounds(b - r, d);
    } else {
      RatioBounds(r - g, d);
    }
  }

  lemma RatioBounds(x: real, d: real)
    requires d > 0.0 && -d <= x <= d
    ensures -1.0 <= x / d <= 1.0
    ensures x < 0.0 ==> x / d < 0.0
    ensures x >= 0.0 ==> x / d >= 0.0
  {
    DivideMonotone(x, d, d);
    DivideMonotone(-d, x, d);
  }

  lemma DivideMonotone(a: real, b: real, d: real)
    requires a <= b && d > 0.0
    ensures a / d <= b / d
  {
    assert b / d - a / d == (b - a) / d;
  }

  /** For a colour that is not gray the hue is the hue fraction of the scaled
      channels, in degrees. */
  lemma HueOf(r0: real, g0: real, b0: real)
    requires IsChannel(r0) && IsChannel(g0) && IsChannel(b0)
    requires !(r0 == g0 == b0)
    ensures var r, g, b := r0 / 255.0, g0 / 255.0, b0 / 255.0;
      var max, min := Max3(r, g, b), Min3(r, g, b);
      && min < max
      && RgbToHsl(r0, g0, b0).h == HueFraction(r, g, b, max, max - min) * 360.0
  {
    ScaledExtremes(r0, g0, b0);
  }

  /** The hue fraction names the channel of the maximum. */
  lemma HueFractionSector(r: real, g: real, b: real, max: real, min: real)
    requires max == Max3(r, g, b) && min == Min3(r, g, b) && min < max
    ensures var f := HueFraction(r, g, b, max, max - min);
      && (r >= g && r >= b ==> f <= 1.0 / 6.0 || f >= 5.0 / 6.0)
      && (g > r && g >= b ==> 1.0 / 6.0 <= f <= 3.0 / 6.0)
      && (b > r && b > g ==> 3.0 / 6.0 <= f <= 5.0 / 6.0)
  {
    var d := max - min;
    if max == r {
      RatioBounds(g - b, d);
    } else if max == g {
      RatioBounds(b - r, d);
    } else {
      RatioBounds(r - g, d);
    }
  }

  /** The hue names the channel of the maximum: red hues lie within 60 degrees of
      0, green hues in [60, 180] and blue hues in [180, 300]. */
  lemma HueSector(r0: real, g0: real, b0: real)
    requires IsChannel(r0) && IsChannel(g0) && IsChannel(b0)
    requires !(r0 == g0 == b0)
    ensures var h := RgbToHsl(r0, g0, b0).h;
      && (r0 >= g0 && r0 >= b0 ==> h <= 60.0 || h >= 300.0)
      && (g0 > r0 && g0 >= b0 ==> 60.0 <= h <= 180.0)
      && (b0 > r0 && b0 > g0 ==> 180.0 <= h <= 300.0)
  {
    var r, g, b := r0 / 255.0, g0 / 255.0, b0 / 255.0;
    HueOf(r0, g0, b0);
    HueFractionSector(r, g, b, Max3(r, g, b), Min3(r, g, b));
  }

  /** Every colour keeps the invariant that its HSL part is derived from its RGB part. */
  predicate IsDerived(c: Color) {
    IsChannel(c.r as real) && IsChannel(c.g as real) && IsChannel(c.b as real) &&
    RgbToHsl(c.r as real, c.g as real, c.b as real) == Hsl(c.h, c.s, c.l)
  }

  /** `makeColor`. */
  function MakeColor(r: int, g: int, b: int): (c: Color)
    requires 0 <= r <= 255 && 0 <= g <= 255 && 0 <= b <= 255
    ensures c.r == r && c.g == g && c.b == b
    ensures IsDerived(c)
    ensures HslInRange(Hsl(c.h, c.s, c.l))
  {
    var hsl := RgbToHsl(r as real, g as real, b as real);
    Color(r, g, b, hsl.h, hsl.s, hsl.l)
  }

  /** The neutral grey that stands in for an unreadable image. */
  lemma GrayIsAchromatic()
    ensures MakeColor(128, 128, 128).h == 0.0 && MakeColor(128, 128, 128).s == 0.0
    ensures MakeColor(128, 128, 128).l == 128.0 / 255.0 * 100.0
  {
  }

  function Abs(x: real): real { if x < 0.0 then -x else x }

  function MinReal(a: real, b: real): real { if a <= b then a else b }

  /** Circular hue difference, `min(|h1 - h2|, 360 - |h1 - h2|)`. */
  function HueDelta(h1: real, h2: real): (dh: real)
    ensures 0.0 <= h1 < 360.0 && 0.0 <= h2 < 360.0 ==> 0.0 <= dh <= 180.0
    ensures dh == MinReal(Abs(h2 - h1), 360.0 - Abs(h2 - h1))
  {
    MinReal(Abs(h1 - h2), 360.0 - Abs(h1 - h2))
  }

  /** The weighted sum under the square root in `colorDistance`. */
  function WeightedSquare(c1: Color, c2: Color): (w: real)
    ensures w >= 0.0
  {
    var dr, dg, db := (c1.r - c2.r) as real, (c1.g - c2.g) as real, (c1.b - c2.b) as real;
    var dh := HueDelta(c1.h, c2.h);
    var ds, dl := c1.s - c2.s, c1.l - c2.l;
    0.3 * (dr * dr + dg * dg + db * db) + 0.4 * (dh * dh * 4.0) + 0.15 * (ds * ds) + 0.15 * (dl * dl)
  }

  /** The properties of `Math.sqrt` the distance lemmas rely on. */
  ghost predicate SqrtLike(sqrt: real -> real) {
    sqrt(0.0) == 0.0 && forall x :: x >= 0.0 ==> sqrt(x) >= 0.0
  }

  /** `colorDistance`: square root of the weighted RGB, hue, saturation and lightness differences. */
  function ColorDistance(c1: Color, c2: Color, sqrt: real -> real): real {
    sqrt(WeightedSquare(c1, c2))
  }

  lemma ColorDistanceSymmetric(c1: Color, c2: Color, sqrt: real -> real)
    ensures ColorDistance(c1, c2, sqrt) == ColorDistance(c2, c1, sqrt)
  {
    assert WeightedSquare(c1, c2) == WeightedSquare(c2, c1);
  }

  lemma ColorDistanceNonNegative(c1: Color, c2: Color, sqrt: real -> real)
    requires SqrtLike(sqrt)
    ensures ColorDistance(c1, c2, sqrt) >= 0.0
  {
  }

  lemma ColorDistanceSelf(c: Color, sqrt: real -> real)
    requires SqrtLike(sqrt)
    ensures ColorDistance(c, c, sqrt) == 0.0
  {
    assert WeightedSquare(c, c) == 0.0;
  }
}

/**
 * The distance between two palettes used by the grid sequencer: for every
 * colour of one palette the distance to the nearest colour of the other,
 * averaged per direction, and the two directions averaged ("soft
 * Hausdorff": a mean of minima rather than a maximum).
 */
module Palettes {
  import opened ColorModel

  /** A JavaScript distance: a finite number or `Infinity`. */
  datatype Distance = Finite(v: real) | Infinite

  /** `a < b` on distances; `Infinity < Infinity` is false. */
  predicate Less(a: Distance, b: Distance) {
    a.Finite? && (b.Infinite? || a.v < b.v)
  }

  /** The distance from `c` to the nearest colour of `p`. */
  function MinDistance(c: Color, p: seq<Color>, sqrt: real -> real): real
    requires |p| > 0
  {
    if |p| == 1 then ColorDistance(c, p[0], sqrt)
    else
      var m := MinDistance(c, p[..|p| - 1], sqrt);
      var d := ColorDistance(c, p[|p| - 1], sqrt);
      if d < m then d else m
  }

  /** The nearest distance is at most the distance to every colour of `p` and
      is the distance to one of them. */
  lemma {:induction false} MinDistanceIsMinimum(c: Color, p: seq<Color>, sqrt: real -> real)
    requires |p| > 0
    ensures forall j :: 0 <= j < |p| ==> MinDistance(c, p, sqrt) <= ColorDistance(c, p[j], sqrt)
    ensures exists j :: 0 <= j < |p| && MinDistance(c, p, sqrt) == ColorDistance(c, p[j], sqrt)
  {
    if |p| > 1 {
      var init := p[..|p| - 1];
      MinDistanceIsMinimum(c, init, sqrt);
      assert forall j :: 0 <= j < |init| ==> init[j] == p[j];
      var k :| 0 <= k < |init| && MinDistance(c, init, sqrt) == ColorDistance(c, init[k], sqrt);
      if ColorDistance(c, p[|p| - 1], sqrt) < MinDistance(c, init, sqrt) {
        assert MinDistance(c, p, sqrt) == ColorDistance(c, p[|p| - 1], sqrt);
      } else {
        assert MinDistance(c, p, sqrt) == ColorDistance(c, p[k], sqrt);
      }
    }
  }

  /** The sum, over the colours of `p1`, of their distances to the nearest colour of `p2`. */
  function SumMin(p1: seq<Color>, p2: seq<Color>, sqrt: real -> real): real
    requires |p2| > 0
  {
    if |p1| == 0 then 0.0
    else SumMin(p1[..|p1| - 1], p2, sqrt) + MinDistance(p1[|p1| - 1], p2, sqrt)
  }

  /** The average of `n` values summing to `sum`. */
  function Mean(sum: real, n: nat): real
    requires n > 0
  {
    sum / n as real
  }

  lemma MeanNonNegative(sum: real, n: nat)
    requires n > 0 && sum >= 0.0
    ensures Mean(sum, n) >= 0.0
  {
  }

  /** `paletteDistance`: `Infinity` when either palette is empty, otherwise the
      mean of the two directional averages of nearest-colour distances. */
  function SoftHausdorff(p1: seq<Color>, p2: seq<Color>, sqrt: real -> real): Distance {
    if |p1| == 0 || |p2| == 0 then Infinite
    else Finite((Mean(SumMin(p1, p2, sqrt), |p1|) + Mean(SumMin(p2, p1, sqrt), |p2|)) / 2.0)
  }

  /** The distance is infinite exactly when one of the palettes is empty. */
  lemma SoftHausdorffInfinite(p1: seq<Color>, p2: seq<Color>, sqrt: real -> real)
    ensures SoftHausdorff(p1, p2, sqrt).Infinite? <==> |p1| == 0 || |p2| == 0
  {
  }

  /** The distance does not depend on the order of the two palettes. */
  lemma SoftHausdorffSymmetric(p1: seq<Color>, p2: seq<Color>, sqrt: real -> real)
    ensures SoftHausdorff(p1, p2, sqrt) == SoftHausdorff(p2, p1, sqrt)
  {
  }

  lemma MinDistanceNonNegative(c: Color, p: seq<Color>, sqrt: real -> real)
    requires |p| > 0 && SqrtLike(sqrt)
    ensures MinDistance(c, p, sqrt) >= 0.0
  {
    MinDistanceIsMinimum(c, p, sqrt);
    var j :| 0 <= j < |p| && MinDistance(c, p, sqrt) == ColorDistance(c, p[j], sqrt);
    ColorDistanceNonNegative(c, p[j], sqrt);
  }

  lemma {:induction false} SumMinNonNegative(p1: seq<Color>, p2: seq<Color>, sqrt: real -> real)
    requires |p2| > 0 && SqrtLike(sqrt)
    ensures SumMin(p1, p2, sqrt) >= 0.0
  {
    if |p1| > 0 {
      SumMinNonNegative(p1[..|p1| - 1], p2, sqrt);
      MinDistanceNonNegative(p1[|p1| - 1], p2, sqrt);
    }
  }

  /** Palette distances are never negative. */
  lemma SoftHausdorffNonNegative(p1: seq<Color>, p2: seq<Color>, sqrt: real -> real)
    requires SqrtLike(sqrt) && |p1| > 0 && |p2| > 0
    ensures SoftHausdorff(p1, p2, sqrt).Finite? && SoftHausdorff(p1, p2, sqrt).v >= 0.0
  {
    SumMinNonNegative(p1, p2, sqrt);
    SumMinNonNegative(p2, p1, sqrt);
    MeanNonNegative(SumMin(p1, p2, sqrt), |p1|);
    MeanNonNegative(SumMin(p2, p1, sqrt), |p2|);
  }

  /** A colour that occurs in `p` is at distance 0 from it. */
  lemma MinDistanceMember(c: Color, p: seq<Color>, sqrt: real -> real)
    requires |p| > 0 && SqrtLike(sqrt) && c in p
    ensures MinDistance(c, p, sqrt) == 0.0
  {
    var j :| 0 <= j < |p| && p[j] == c;
    MinDistanceIsMinimum(c, p, sqrt);
    ColorDistanceSelf(c, sqrt);
    MinDistanceNonNegative(c, p, sqrt);
  }

  lemma {:induction false} SumMinCovered(p1: seq<Color>, p2: seq<Color>, sqrt: real -> real)
    requires |p2| > 0 && SqrtLike(sqrt)
    requires forall c :: c in p1 ==> c in p2
    ensures SumMin(p1, p2, sqrt) == 0.0
  {
    if |p1| > 0 {
      var init := p1[..|p1| - 1];
      assert forall c :: c in init ==> c in p1;
      SumMinCovered(init, p2, sqrt);
      MinDistanceMember(p1[|p1| - 1], p2, sqrt);
    }
  }

  /** Two non-empty palettes made of the same colours, in any order and with
      any repetitions, are at distance 0; in particular `paletteDistance(p, p) == 0`. */
  lemma SoftHausdorffSameColors(p1: seq<Color>, p2: seq<Color>, sqrt: real -> real)
    requires SqrtLike(sqrt) && |p1| > 0 && |p2| > 0
    requires forall c :: c in p1 <==> c in p2
    ensures SoftHausdorff(p1, p2, sqrt) == Finite(0.0)
  {
    SumMinCovered(p1, p2, sqrt);
    SumMinCovered(p2, p1, sqrt);
  }

  /** The inner loop for a colour `c1` of `p1`: the nearest colour of `p2`. */
  method NearestForward(c1: Color, p2: seq<Color>, sqrt: real -> real) returns (minDist: Distance)
    requires |p2| > 0
    ensures minDist == Finite(MinDistance(c1, p2, sqrt))
  {
    minDist := Infinite;
    for j := 0 to |p2|
      invariant j == 0 ==> minDist == Infinite
      invariant j > 0 ==> minDist == Finite(MinDistance(c1, p2[..j], sqrt))
    {
      var d := ColorDistance(c1, p2[j], sqrt);
      assert p2[..j + 1][..j] == p2[..j];
      if Less(Finite(d), minDist) {
        minDist := Finite(d);
      }
    }
    assert p2[..|p2|] == p2;
  }

  /** The inner loop for a colour `c2` of `p2`: the nearest colour of `p1`,
      measured as `colorDistance(c1, c2)`. */
  method NearestBackward(p1: seq<Color>, c2: Color, sqrt: real -> real) returns (minDist: Distance)
    requires |p1| > 0
    ensures minDist == Finite(MinDistance(c2, p1, sqrt))
  {
    minDist := Infinite;
    for j := 0 to |p1|
      invariant j == 0 ==> minDist == Infinite
      invariant j > 0 ==> minDist == Finite(MinDistance(c2, p1[..j], sqrt))
    {
      var d := ColorDistance(p1[j], c2, sqrt);
      ColorDistanceSymmetric(p1[j], c2, sqrt);
      assert p1[..j + 1][..j] == p1[..j];
      if Less(Finite(d), minDist) {
        minDist := Finite(d);
      }
    }
    assert p1[..|p1|] == p1;
  }

  /** `paletteDistance`, with its two accumulator loops. */
  method PaletteDistance(p1: seq<Color>, p2: seq<Color>, sqrt: real -> real) returns (d: Distance)
    ensures d == SoftHausdorff(p1, p2, sqrt)
  {
    if |p1| == 0 || |p2| == 0 {
      return Infinite;
    }
    var sumMinDist1 := 0.0;
    for i := 0 to |p1|
      invariant sumMinDist1 == SumMin(p1[..i], p2, sqrt)
    {
      var minDist := NearestForward(p1[i], p2, sqrt);
      assert p1[..i + 1][..i] == p1[..i];
      sumMinDist1 := sumMinDist1 + minDist.v;
    }
    var sumMinDist2 := 0.0;
    for i := 0 to |p2|
      invariant sumMinDist2 == SumMin(p2[..i], p1, sqrt)
    {
      var minDist := NearestBackward(p1, p2[i], sqrt);
      assert p2[..i + 1][..i] == p2[..i];
      sumMinDist2 := sumMinDist2 + minDist.v;
    }
    assert p1[..|p1|] == p1 && p2[..|p2|] == p2;
    d := Finite((Mean(sumMinDist1, |p1|) + Mean(sumMinDist2, |p2|)) / 2.0);
  }
}

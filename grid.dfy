/**
 * The grid sequencer of the cover-art sorter (`sortByGrid`): the most vivid
 * release goes first, then each following cell of a five-column grid takes
 * the remaining release whose palette is closest to the cells already placed
 * to its left, above it, and, at the start of a row, at the end of the
 * previous row.
 */
module GridSequencer {
  import opened Wrappers
  import opened ColorModel
  import opened Palettes
  import opened GreedyFill

  /** `GRID_COLUMNS`. */
  const GridColumns: nat := 5

  /** `ReleaseWithPalette`: a release record together with its transient palette. */
  datatype Entry<T> = Entry(release: T, palette: seq<Color>)

  // ---------------------------------------------------------------------------
  // Start item
  // ---------------------------------------------------------------------------

  /** `palette.reduce((sum, c) => sum + c.s, 0)`. */
  function SumSaturation(p: seq<Color>): real {
    if |p| == 0 then 0.0 else SumSaturation(p[..|p| - 1]) + p[|p| - 1].s
  }

  /** `palette.reduce((sum, c) => sum + c.l, 0)`. */
  function SumLightness(p: seq<Color>): real {
    if |p| == 0 then 0.0 else SumLightness(p[..|p| - 1]) + p[|p| - 1].l
  }

  /** `avgS * (100 - |avgL - 50|)`; `None` is the NaN that an empty palette
      produces (0 / 0). */
  function StartScore(p: seq<Color>): Option<real> {
    if |p| == 0 then None
    else
      var avgS := Mean(SumSaturation(p), |p|);
      var avgL := Mean(SumLightness(p), |p|);
      Some(avgS * (100.0 - Abs(avgL - 50.0)))
  }

  /** Sums of percentages lie between 0 and 100 per colour. */
  lemma {:induction false} SumsBounds(p: seq<Color>)
    requires forall c :: c in p ==> 0.0 <= c.s <= 100.0 && 0.0 <= c.l <= 100.0
    ensures 0.0 <= SumSaturation(p) <= 100.0 * |p| as real
    ensures 0.0 <= SumLightness(p) <= 100.0 * |p| as real
  {
    if |p| > 0 {
      assert forall c :: c in p[..|p| - 1] ==> c in p;
      assert p[|p| - 1] in p;
      SumsBounds(p[..|p| - 1]);
    }
  }

  /** The start score is NaN exactly for an empty palette; otherwise the
      average saturation and lightness are percentages and the score lies
      between 0 and 100 * 100. */
  lemma StartScoreBounds(p: seq<Color>)
    requires forall c :: c in p ==> 0.0 <= c.s <= 100.0 && 0.0 <= c.l <= 100.0
    ensures StartScore(p).None? <==> |p| == 0
    ensures StartScore(p).Some? ==>
      && 0.0 <= Mean(SumSaturation(p), |p|) <= 100.0
      && 0.0 <= Mean(SumLightness(p), |p|) <= 100.0
      && 0.0 <= StartScore(p).value <= 10000.0
  {
    if |p| > 0 {
      SumsBounds(p);
      var avgS := Mean(SumSaturation(p), |p|);
      var avgL := Mean(SumLightness(p), |p|);
      MeanOfBounded(SumSaturation(p), |p|);
      MeanOfBounded(SumLightness(p), |p|);
      ScaledPercentage(avgS, 100.0 - Abs(avgL - 50.0));
    }
  }

  /** A percentage times a factor in [0, 100] lies in [0, 100 * 100]. */
  lemma ScaledPercentage(a: real, f: real)
    requires 0.0 <= a <= 100.0 && 0.0 <= f <= 100.0
    ensures 0.0 <= a * f <= 10000.0
  {
    MulMonotone(0.0, a, f);
    MulMonotone(a, 100.0, f);
    assert a * f <= 100.0 * f;
    assert 100.0 * f <= 10000.0;
  }

  lemma MulMonotone(x: real, y: real, z: real)
    requires x <= y && z >= 0.0
    ensures x * z <= y * z
  {
  }

  /** The mean of `n` percentages is a percentage. */
  lemma MeanOfBounded(sum: real, n: nat)
    requires n > 0 && 0.0 <= sum <= 100.0 * n as real
    ensures 0.0 <= Mean(sum, n) <= 100.0
  {
    var m := Mean(sum, n);
    assert m * n as real == sum;
  }

  /** `currScore > bestScore`, false whenever either side is NaN. */
  predicate Greater(a: Option<real>, b: Option<real>) {
    a.Some? && b.Some? && a.value > b.value
  }

  function ScoreOf<T>(xs: seq<Entry<T>>, i: nat): Option<real>
    requires i < |xs|
  {
    StartScore(xs[i].palette)
  }

  /** The `reduce` that picks the start item: the index moves only to a
      strictly greater score, so the first item of maximal score wins. */
  function StartIndex<T>(xs: seq<Entry<T>>): (s: nat)
    requires |xs| > 0
    ensures s < |xs|
    ensures forall j :: 0 <= j < |xs| ==> !Greater(ScoreOf(xs, j), ScoreOf(xs, s))
    ensures forall j :: 0 <= j < s && ScoreOf(xs, j).Some? ==> Greater(ScoreOf(xs, s), ScoreOf(xs, j))
    ensures ScoreOf(xs, 0).None? ==> s == 0
  {
    if |xs| == 1 then 0
    else
      var init := xs[..|xs| - 1];
      var b := StartIndex(init);
      assert forall j :: 0 <= j < |init| ==> ScoreOf(init, j) == ScoreOf(xs, j);
      if Greater(ScoreOf(xs, |xs| - 1), ScoreOf(xs, b)) then |xs| - 1 else b
  }

  // ---------------------------------------------------------------------------
  // Neighbours and candidate scores
  // ---------------------------------------------------------------------------

  /** The cells an empty cell is compared with, as indices into `sorted`. */
  datatype Neighbors = Neighbors(left: Option<nat>, top: Option<nat>, wrap: Option<nat>)

  /** The neighbours of the cell at `position`: `left` in the same row one
      column before, `top` in the same column one row above, and `wrap` only
      in the first column of a later row, where it references
      `position - GRID_COLUMNS + (GRID_COLUMNS - 1)`. */
  function NeighborsAt(position: nat): (n: Neighbors)
    ensures n.left.Some? ==> n.left.value < position
    ensures n.top.Some? ==> n.top.value < position
    ensures n.wrap.Some? ==> n.wrap.value < position
  {
    var col := position % GridColumns;
    var row := position / GridColumns;
    Neighbors(
      if col > 0 then Some(position - 1) else None,
      if row > 0 then Some(position - GridColumns) else None,
      if col == 0 && row > 0 then Some(position - GridColumns + (GridColumns - 1)) else None)
  }

  /** Left is `sorted[p - 1]` exactly when `p % 5 > 0`, top is `sorted[p - 5]`
      exactly when `p >= 5`, and the wrap reference exists exactly in column 0
      of a later row, where it is `sorted[p - 1]`, the last cell of the
      previous row. */
  lemma NeighborGeometry(position: nat)
    ensures var n := NeighborsAt(position);
      (n.left.Some? <==> position % GridColumns > 0) &&
      (n.top.Some? <==> position >= GridColumns) &&
      (n.wrap.Some? <==> position % GridColumns == 0 && position >= GridColumns) &&
      (n.left.Some? ==>
         && n.left.value == position - 1
         && n.left.value / GridColumns == position / GridColumns
         && n.left.value % GridColumns == position % GridColumns - 1) &&
      (n.top.Some? ==>
         && n.top.value == position - GridColumns
         && n.top.value / GridColumns == position / GridColumns - 1
         && n.top.value % GridColumns == position % GridColumns) &&
      (n.wrap.Some? ==>
         && n.wrap.value == position - 1
         && n.wrap.value / GridColumns == position / GridColumns - 1
         && n.wrap.value % GridColumns == GridColumns - 1)
  {
  }

  /** `d * w` for a positive weight; `Infinity * w` is `Infinity`. */
  function Weighted(d: Distance, w: real): Distance {
    if d.Infinite? then Infinite else Finite(d.v * w)
  }

  /** `a + b`, infinite when either side is. */
  function Add(a: Distance, b: Distance): Distance {
    if a.Infinite? || b.Infinite? then Infinite else Finite(a.v + b.v)
  }

  /** `a / n` for a positive count. */
  function DivideBy(a: Distance, n: real): Distance
    requires n > 0.0
  {
    if a.Infinite? then Infinite else Finite(a.v / n)
  }

  /** `neighborCount`: 1 for the left and the top neighbour, 0.5 for the wrap
      reference (the counts, not the weights 1.2, 1.0 and 0.5). */
  function NeighborCount(n: Neighbors): real {
    (if n.left.Some? then 1.0 else 0.0) + (if n.top.Some? then 1.0 else 0.0) + (if n.wrap.Some? then 0.5 else 0.0)
  }

  /** The score from the distances to the three neighbours (each used only
      when the cell has that neighbour): the weighted sum divided by the
      neighbour count. */
  function Combine(n: Neighbors, left: Distance, top: Distance, wrap: Distance): Distance {
    var total := Add(Add(Add(Finite(0.0), if n.left.Some? then Weighted(left, 1.2) else Finite(0.0)),
                         if n.top.Some? then Weighted(top, 1.0) else Finite(0.0)),
                     if n.wrap.Some? then Weighted(wrap, 0.5) else Finite(0.0));
    var count := NeighborCount(n);
    if count > 0.0 then DivideBy(total, count) else total
  }

  /** The palette distance from the candidate to the cell `ref` names. */
  function NeighborDistance<T>(sorted: seq<Entry<T>>, ref: Option<nat>, cand: seq<Color>, sqrt: real -> real): Distance
    requires ref.Some? ==> ref.value < |sorted|
  {
    if ref.Some? then SoftHausdorff(cand, sorted[ref.value].palette, sqrt) else Finite(0.0)
  }

  /** With no such neighbour the distance adds nothing; otherwise it is the
      palette distance, infinite exactly when the candidate's or the
      neighbour's palette is empty and otherwise non-negative. */
  lemma NeighborDistanceCases<T>(sorted: seq<Entry<T>>, ref: Option<nat>, cand: seq<Color>, sqrt: real -> real)
    requires ref.Some? ==> ref.value < |sorted|
    ensures ref.None? ==> NeighborDistance(sorted, ref, cand, sqrt) == Finite(0.0)
    ensures NeighborDistance(sorted, ref, cand, sqrt).Infinite? <==>
      ref.Some? && (|cand| == 0 || |sorted[ref.value].palette| == 0)
    ensures SqrtLike(sqrt) && NeighborDistance(sorted, ref, cand, sqrt).Finite? ==>
      NeighborDistance(sorted, ref, cand, sqrt).v >= 0.0
  {
    if ref.Some? {
      var other := sorted[ref.value].palette;
      SoftHausdorffInfinite(cand, other, sqrt);
      if SqrtLike(sqrt) && |cand| > 0 && |other| > 0 {
        SoftHausdorffNonNegative(cand, other, sqrt);
      }
    }
  }

  /** The score of a candidate palette for the next cell. */
  function Score<T>(sorted: seq<Entry<T>>, cand: seq<Color>, sqrt: real -> real): Distance
    requires |sorted| > 0
  {
    var n := NeighborsAt(|sorted|);
    Combine(n, NeighborDistance(sorted, n.left, cand, sqrt), NeighborDistance(sorted, n.top, cand, sqrt),
            NeighborDistance(sorted, n.wrap, cand, sqrt))
  }

  /** The three shapes of a cell's neighbourhood: in the first row only the
      left neighbour, at the start of a later row the top neighbour and the
      wrap reference to the previous cell, elsewhere left and top. */
  lemma NeighborCases(p: nat)
    requires p > 0
    ensures p < GridColumns ==> NeighborsAt(p) == Neighbors(Some(p - 1), None, None)
    ensures p >= GridColumns && p % GridColumns == 0 ==> NeighborsAt(p) == Neighbors(None, Some(p - GridColumns), Some(p - 1))
    ensures p >= GridColumns && p % GridColumns > 0 ==> NeighborsAt(p) == Neighbors(Some(p - 1), Some(p - GridColumns), None)
  {
    NeighborGeometry(p);
  }

  lemma CombineFirstRow(i: nat, left: Distance, top: Distance, wrap: Distance)
    ensures Combine(Neighbors(Some(i), None, None), left, top, wrap) == Weighted(left, 1.2)
  {
  }

  lemma CombineRowStart(i: nat, j: nat, left: Distance, top: Distance, wrap: Distance)
    ensures Combine(Neighbors(None, Some(i), Some(j)), left, top, wrap) == DivideBy(Add(Weighted(top, 1.0), Weighted(wrap, 0.5)), 1.5)
  {
  }

  lemma CombineInside(i: nat, j: nat, left: Distance, top: Distance, wrap: Distance)
    ensures Combine(Neighbors(Some(i), Some(j), None), left, top, wrap) == DivideBy(Add(Weighted(left, 1.2), Weighted(top, 1.0)), 2.0)
  {
    if left.Finite? && top.Finite? {
      assert 0.0 + left.v * 1.2 + top.v * 1.0 == left.v * 1.2 + top.v * 1.0;
    }
  }

  /** In the first row a candidate is scored against the previous cell only. */
  lemma ScoreFirstRow<T>(sorted: seq<Entry<T>>, cand: seq<Color>, sqrt: real -> real)
    requires 0 < |sorted| < GridColumns
    ensures Score(sorted, cand, sqrt) == Weighted(SoftHausdorff(cand, sorted[|sorted| - 1].palette, sqrt), 1.2)
  {
    var p := |sorted|;
    NeighborCases(p);
    var n := NeighborsAt(p);
    CombineFirstRow(p - 1, NeighborDistance(sorted, n.left, cand, sqrt), NeighborDistance(sorted, n.top, cand, sqrt),
      NeighborDistance(sorted, n.wrap, cand, sqrt));
  }

  /** At the start of a later row a candidate is scored against the cell above
      and, through the wrap reference, the previous cell. */
  lemma ScoreRowStart<T>(sorted: seq<Entry<T>>, cand: seq<Color>, sqrt: real -> real)
    requires |sorted| >= GridColumns && |sorted| % GridColumns == 0
    ensures var p := |sorted|;
      Score(sorted, cand, sqrt) ==
        DivideBy(Add(Weighted(SoftHausdorff(cand, sorted[p - GridColumns].palette, sqrt), 1.0),
                     Weighted(SoftHausdorff(cand, sorted[p - 1].palette, sqrt), 0.5)), 1.5)
  {
    var p := |sorted|;
    NeighborCases(p);
    var n := NeighborsAt(p);
    var above := SoftHausdorff(cand, sorted[p - GridColumns].palette, sqrt);
    var prev := SoftHausdorff(cand, sorted[p - 1].palette, sqrt);
    assert n == Neighbors(None, Some(p - GridColumns), Some(p - 1));
    assert NeighborDistance(sorted, n.top, cand, sqrt) == above;
    assert NeighborDistance(sorted, n.wrap, cand, sqrt) == prev;
    CombineRowStart(p - GridColumns, p - 1, NeighborDistance(sorted, n.left, cand, sqrt), above, prev);
  }

  /** Elsewhere a candidate is scored against the previous cell and the cell above. */
  lemma ScoreInside<T>(sorted: seq<Entry<T>>, cand: seq<Color>, sqrt: real -> real)
    requires |sorted| >= GridColumns && |sorted| % GridColumns > 0
    ensures var p := |sorted|;
      Score(sorted, cand, sqrt) ==
        DivideBy(Add(Weighted(SoftHausdorff(cand, sorted[p - 1].palette, sqrt), 1.2),
                     Weighted(SoftHausdorff(cand, sorted[p - GridColumns].palette, sqrt), 1.0)), 2.0)
  {
    var p := |sorted|;
    NeighborCases(p);
    var n := NeighborsAt(p);
    CombineInside(p - 1, p - GridColumns, NeighborDistance(sorted, n.left, cand, sqrt),
      NeighborDistance(sorted, n.top, cand, sqrt), NeighborDistance(sorted, n.wrap, cand, sqrt));
  }

  /** The score in each of the three neighbourhood shapes, in terms of the
      palette distances to the previous cell and to the cell above. */
  lemma ScoreCases<T>(sorted: seq<Entry<T>>, cand: seq<Color>, sqrt: real -> real)
    requires |sorted| > 0
    ensures var p := |sorted|;
      var prev := SoftHausdorff(cand, sorted[p - 1].palette, sqrt);
      var above := if p >= GridColumns then SoftHausdorff(cand, sorted[p - GridColumns].palette, sqrt) else Infinite;
      && (p < GridColumns ==> Score(sorted, cand, sqrt) == Weighted(prev, 1.2))
      && (p >= GridColumns && p % GridColumns == 0 ==>
            Score(sorted, cand, sqrt) == DivideBy(Add(Weighted(above, 1.0), Weighted(prev, 0.5)), 1.5))
      && (p >= GridColumns && p % GridColumns > 0 ==>
            Score(sorted, cand, sqrt) == DivideBy(Add(Weighted(prev, 1.2), Weighted(above, 1.0)), 2.0))
  {
    var p := |sorted|;
    if p < GridColumns {
      ScoreFirstRow(sorted, cand, sqrt);
    } else if p % GridColumns == 0 {
      ScoreRowStart(sorted, cand, sqrt);
    } else {
      ScoreInside(sorted, cand, sqrt);
    }
  }

  /** A weighted or combined distance is infinite exactly when one of the
      distances going into it is. */
  lemma CombinationInfinite(a: Distance, b: Distance)
    ensures Weighted(a, 1.2).Infinite? <==> a.Infinite?
    ensures DivideBy(Add(Weighted(a, 1.0), Weighted(b, 0.5)), 1.5).Infinite? <==> a.Infinite? || b.Infinite?
    ensures DivideBy(Add(Weighted(b, 1.2), Weighted(a, 1.0)), 2.0).Infinite? <==> a.Infinite? || b.Infinite?
  {
  }

  /** Every cell after the first has a neighbour, and the previous cell is
      always one of them: as the left neighbour, or as the wrap reference at
      the start of a row. */
  lemma PreviousIsNeighbor(p: nat)
    requires p > 0
    ensures NeighborCount(NeighborsAt(p)) > 0.0
    ensures var n := NeighborsAt(p);
      (n.left.Some? && n.left.value == p - 1) || (n.wrap.Some? && n.wrap.value == p - 1)
  {
    NeighborCases(p);
  }

  /** The score is infinite exactly when the candidate's palette, the palette
      of the previous cell or the palette of the cell above is empty. */
  lemma ScoreInfinite<T>(sorted: seq<Entry<T>>, cand: seq<Color>, sqrt: real -> real)
    requires |sorted| > 0
    ensures var p := |sorted|;
      Score(sorted, cand, sqrt).Infinite? <==>
        || |cand| == 0
        || |sorted[p - 1].palette| == 0
        || (p >= GridColumns && |sorted[p - GridColumns].palette| == 0)
  {
    var p := |sorted|;
    ScoreCases(sorted, cand, sqrt);
    var prev := SoftHausdorff(cand, sorted[p - 1].palette, sqrt);
    SoftHausdorffInfinite(cand, sorted[p - 1].palette, sqrt);
    if p < GridColumns {
      CombinationInfinite(prev, prev);
      assert Score(sorted, cand, sqrt).Infinite? <==> prev.Infinite?;
    } else {
      var above := SoftHausdorff(cand, sorted[p - GridColumns].palette, sqrt);
      SoftHausdorffInfinite(cand, sorted[p - GridColumns].palette, sqrt);
      CombinationInfinite(above, prev);
      assert Score(sorted, cand, sqrt).Infinite? <==> above.Infinite? || prev.Infinite?;
    }
  }

  /** The normalisation divides the weighted sum by the neighbour count: in the
      first row a candidate scores 1.2 times its distance to the left
      neighbour, in the first column of a later row the mean of the top and
      wrap distances weighted 1 : 0.5, and elsewhere half of 1.2 times the left
      plus 1 times the top distance. */
  lemma ScoreNormalised<T>(sorted: seq<Entry<T>>, cand: seq<Color>, sqrt: real -> real)
    requires |sorted| > 0 && |cand| > 0
    requires forall i :: 0 <= i < |sorted| ==> |sorted[i].palette| > 0
    ensures var p := |sorted|;
      var s := Score(sorted, cand, sqrt);
      s.Finite? &&
      (p < GridColumns ==>
         s.v == 1.2 * SoftHausdorff(cand, sorted[p - 1].palette, sqrt).v) &&
      (p >= GridColumns && p % GridColumns == 0 ==>
         s.v == (SoftHausdorff(cand, sorted[p - GridColumns].palette, sqrt).v
                 + 0.5 * SoftHausdorff(cand, sorted[p - 1].palette, sqrt).v) / 1.5) &&
      (p >= GridColumns && p % GridColumns > 0 ==>
         s.v == (1.2 * SoftHausdorff(cand, sorted[p - 1].palette, sqrt).v
                 + SoftHausdorff(cand, sorted[p - GridColumns].palette, sqrt).v) / 2.0)
  {
    var p := |sorted|;
    ScoreCases(sorted, cand, sqrt);
    SoftHausdorffInfinite(cand, sorted[p - 1].palette, sqrt);
    if p >= GridColumns {
      SoftHausdorffInfinite(cand, sorted[p - GridColumns].palette, sqrt);
    }
  }

  /** The three combinations of one distance `d` used three ways. */
  lemma CombinationEqual(d: real)
    ensures Weighted(Finite(d), 1.2) == Finite(1.2 * d)
    ensures DivideBy(Add(Weighted(Finite(d), 1.0), Weighted(Finite(d), 0.5)), 1.5) == Finite(d)
    ensures DivideBy(Add(Weighted(Finite(d), 1.2), Weighted(Finite(d), 1.0)), 2.0) == Finite(1.1 * d)
  {
  }

  /** A candidate at the same distance `d` from every neighbour scores 1.2 d in
      the first row, d at the start of a later row and 1.1 d elsewhere: the
      score is not a weighted mean, because it is divided by the neighbour
      count rather than by the sum of the weights. */
  lemma ScoreEqualDistances<T>(sorted: seq<Entry<T>>, cand: seq<Color>, d: real, sqrt: real -> real)
    requires |sorted| > 0 && |cand| > 0
    requires forall i :: 0 <= i < |sorted| ==> SoftHausdorff(cand, sorted[i].palette, sqrt) == Finite(d)
    ensures var p := |sorted|;
      var s := Score(sorted, cand, sqrt);
      (p < GridColumns ==> s == Finite(1.2 * d)) &&
      (p >= GridColumns && p % GridColumns == 0 ==> s == Finite(d)) &&
      (p >= GridColumns && p % GridColumns > 0 ==> s == Finite(1.1 * d))
  {
    var p := |sorted|;
    ScoreCases(sorted, cand, sqrt);
    CombinationEqual(d);
    assert SoftHausdorff(cand, sorted[p - 1].palette, sqrt) == Finite(d);
    if p >= GridColumns {
      assert SoftHausdorff(cand, sorted[p - GridColumns].palette, sqrt) == Finite(d);
    }
  }

  /** The scores of the candidates in the pool, in pool order. */
  function Scores<T>(sorted: seq<Entry<T>>, remaining: seq<Entry<T>>, sqrt: real -> real): (s: seq<Distance>)
    requires |sorted| > 0
    ensures |s| == |remaining|
  {
    seq(|remaining|, j requires 0 <= j < |remaining| => Score(sorted, remaining[j].palette, sqrt))
  }

  /** The index a scan settles on when `bestScore` starts at `Infinity` and only
      a strictly smaller score replaces it: the first position of the minimum
      (the first one when all are infinite). */
  function FirstMin(scores: seq<Distance>, n: nat): (b: nat)
    requires 0 < n <= |scores|
    ensures b < n
  {
    if n == 1 then 0
    else
      var b := FirstMin(scores, n - 1);
      if Less(scores[n - 1], scores[b]) then n - 1 else b
  }

  /** Among the first `n` scores none is below the one picked, and every score
      before it is above it. */
  lemma {:induction false} FirstMinIsFirstMinimum(scores: seq<Distance>, n: nat)
    requires 0 < n <= |scores|
    ensures var b := FirstMin(scores, n);
      && (forall j :: 0 <= j < n ==> !Less(scores[j], scores[b]))
      && (forall j :: 0 <= j < b ==> Less(scores[b], scores[j]))
  {
    if n > 1 {
      FirstMinIsFirstMinimum(scores, n - 1);
    }
  }

  /** One step of the scan: a strictly smaller score takes over, any other
      leaves the current best in place. */
  lemma ScanStep(scores: seq<Distance>, i: nat, bestIdx: nat, bestScore: Distance)
    requires i < |scores|
    requires i == 0 ==> bestIdx == 0 && bestScore == Infinite
    requires i > 0 ==> bestIdx == FirstMin(scores, i) && bestScore == scores[bestIdx]
    ensures Less(scores[i], bestScore) ==> i == FirstMin(scores, i + 1)
    ensures !Less(scores[i], bestScore) ==> bestIdx == FirstMin(scores, i + 1) && bestScore == scores[bestIdx]
  {
  }

  /** The candidate the scan over `remaining` picks. */
  function BestIndex<T>(sorted: seq<Entry<T>>, remaining: seq<Entry<T>>, sqrt: real -> real): (b: nat)
    requires |sorted| > 0 && |remaining| > 0
    ensures b < |remaining|
  {
    FirstMin(Scores(sorted, remaining, sqrt), |remaining|)
  }

  /** The picked candidate has a minimal score, and every candidate before it
      in the pool has a strictly larger one. */
  lemma BestIndexFirstMinimal<T>(sorted: seq<Entry<T>>, remaining: seq<Entry<T>>, sqrt: real -> real)
    requires |sorted| > 0 && |remaining| > 0
    ensures var b := BestIndex(sorted, remaining, sqrt);
      (forall j :: 0 <= j < |remaining| ==>
         !Less(Score(sorted, remaining[j].palette, sqrt), Score(sorted, remaining[b].palette, sqrt))) &&
      (forall j :: 0 <= j < b ==>
         Less(Score(sorted, remaining[b].palette, sqrt), Score(sorted, remaining[j].palette, sqrt)))
  {
    var scores := Scores(sorted, remaining, sqrt);
    FirstMinIsFirstMinimum(scores, |scores|);
    assert forall j :: 0 <= j < |remaining| ==> scores[j] == Score(sorted, remaining[j].palette, sqrt);
  }

  // ---------------------------------------------------------------------------
  // The greedy fill
  // ---------------------------------------------------------------------------

  /** The pick rule of the `while` loop: the first candidate of minimal score. */
  function Pick<T(!new)>(sqrt: real -> real): (seq<Entry<T>>, seq<Entry<T>>) -> nat {
    (sorted: seq<Entry<T>>, remaining: seq<Entry<T>>) =>
      if |sorted| > 0 && |remaining| > 0 then BestIndex(sorted, remaining, sqrt) else 0
  }

  lemma PickIsBest<T(!new)>(sorted: seq<Entry<T>>, remaining: seq<Entry<T>>, sqrt: real -> real)
    requires |sorted| > 0 && |remaining| > 0
    ensures ValidPick(Pick<T>(sqrt))
    ensures Pick(sqrt)(sorted, remaining) == BestIndex(sorted, remaining, sqrt)
  {
    PickValid<T>(sqrt);
  }

  lemma PickValid<T(!new)>(sqrt: real -> real)
    ensures ValidPick(Pick<T>(sqrt))
  {
    forall sorted: seq<Entry<T>>, remaining: seq<Entry<T>> | |remaining| > 0
      ensures Pick(sqrt)(sorted, remaining) < |remaining|
    {
    }
  }

  /** The state before the loop: the start item placed, the rest in input order. */
  function Start<T>(xs: seq<Entry<T>>): (st: State<Entry<T>>)
    requires |xs| > 0
    ensures |st.sorted| == 1 && |st.remaining| == |xs| - 1
  {
    var s := StartIndex(xs);
    State([xs[s]], RemoveAt(xs, s))
  }

  /** The order `sortByGrid` produces. */
  function GridOrder<T(!new)>(xs: seq<Entry<T>>, sqrt: real -> real): (r: seq<Entry<T>>)
    ensures |r| == |xs|
  {
    if |xs| <= 1 then xs
    else
      PickValid<T>(sqrt);
      Fill(Start(xs), Pick(sqrt))
  }

  lemma GridOrderUnfold<T(!new)>(xs: seq<Entry<T>>, sqrt: real -> real)
    requires |xs| > 1
    ensures ValidPick(Pick<T>(sqrt))
    ensures GridOrder(xs, sqrt) == Fill(Start(xs), Pick(sqrt))
  {
    PickValid<T>(sqrt);
  }

  lemma StartInventory<T>(xs: seq<Entry<T>>)
    requires |xs| > 0
    ensures Inventory(Start(xs)) == multiset(xs)
  {
    RemoveAtContents(xs, StartIndex(xs));
  }

  /** The output is a permutation of the input, and an input of at most one
      release is returned as it is. */
  lemma GridOrderPermutation<T(!new)>(xs: seq<Entry<T>>, sqrt: real -> real)
    ensures multiset(GridOrder(xs, sqrt)) == multiset(xs)
    ensures |xs| <= 1 ==> GridOrder(xs, sqrt) == xs
  {
    if |xs| > 1 {
      PickValid<T>(sqrt);
      StartInventory(xs);
      AdvanceNPermutes(Start(xs), |xs| - 1, Pick(sqrt));
    }
  }

  /** The output starts with the first release of maximal start score. */
  lemma GridOrderStart<T(!new)>(xs: seq<Entry<T>>, sqrt: real -> real)
    requires |xs| > 1
    ensures GridOrder(xs, sqrt)[0] == xs[StartIndex(xs)]
  {
    PickValid<T>(sqrt);
    AdvanceNExtends(Start(xs), 0, |xs| - 1, Pick(sqrt));
    assert GridOrder(xs, sqrt)[..1][0] == GridOrder(xs, sqrt)[0];
  }

  /** Before position `p` is filled, the pool holds exactly the releases not
      among the first `p` placed. */
  lemma GridOrderPool<T(!new)>(xs: seq<Entry<T>>, p: nat, sqrt: real -> real)
    requires 1 <= p < |xs|
    ensures ValidPick(Pick<T>(sqrt))
    ensures var pool := AdvanceN(Start(xs), p - 1, Pick(sqrt)).remaining;
      && |pool| > 0
      && multiset(GridOrder(xs, sqrt)[..p]) + multiset(pool) == multiset(xs)
  {
    GridOrderUnfold(xs, sqrt);
    StartInventory(xs);
    FillPool(xs, Start(xs), p, Pick(sqrt));
  }

  /** Position `p` holds the release of the pool that the scan picks when
      scoring against the first `p` placed releases. */
  lemma GridOrderStep<T(!new)>(xs: seq<Entry<T>>, p: nat, sqrt: real -> real)
    requires 1 <= p < |xs|
    ensures ValidPick(Pick<T>(sqrt))
    ensures var r := GridOrder(xs, sqrt);
      var pool := AdvanceN(Start(xs), p - 1, Pick(sqrt)).remaining;
      && |pool| > 0
      && r[p] == pool[BestIndex(r[..p], pool, sqrt)]
  {
    GridOrderUnfold(xs, sqrt);
    FillStep(Start(xs), p, Pick(sqrt));
    var prev := AdvanceN(Start(xs), p - 1, Pick(sqrt));
    PickIsBest(prev.sorted, prev.remaining, sqrt);
  }

  /** The greedy choice: no release of the pool scores strictly below the one
      placed at position `p`, and every release before it in the pool scores
      strictly above it. */
  lemma GridOrderGreedy<T(!new)>(xs: seq<Entry<T>>, p: nat, sqrt: real -> real)
    requires 1 <= p < |xs|
    ensures ValidPick(Pick<T>(sqrt))
    ensures var r := GridOrder(xs, sqrt);
      var pool := AdvanceN(Start(xs), p - 1, Pick(sqrt)).remaining;
      var b := BestIndex(r[..p], pool, sqrt);
      && |pool| > 0
      && r[p] == pool[b]
      && (forall j :: 0 <= j < |pool| ==> !Less(Score(r[..p], pool[j].palette, sqrt), Score(r[..p], r[p].palette, sqrt)))
      && (forall j :: 0 <= j < b ==> Less(Score(r[..p], r[p].palette, sqrt), Score(r[..p], pool[j].palette, sqrt)))
  {
    GridOrderStep(xs, p, sqrt);
    var r := GridOrder(xs, sqrt);
    BestIndexFirstMinimal(r[..p], AdvanceN(Start(xs), p - 1, Pick(sqrt)).remaining, sqrt);
  }

  // ---------------------------------------------------------------------------
  // The imperative sequencer
  // ---------------------------------------------------------------------------

  /** The score of one candidate, accumulated as the loop body does. */
  method CandidateScore<T>(sorted: seq<Entry<T>>, candidate: Entry<T>, sqrt: real -> real) returns (score: Distance)
    requires |sorted| > 0
    ensures score == Score(sorted, candidate.palette, sqrt)
  {
    var position := |sorted|;
    var col := position % GridColumns;
    var row := position / GridColumns;
    ghost var n := NeighborsAt(position);
    ghost var left := NeighborDistance(sorted, n.left, candidate.palette, sqrt);
    ghost var top := NeighborDistance(sorted, n.top, candidate.palette, sqrt);
    ghost var wrap := NeighborDistance(sorted, n.wrap, candidate.palette, sqrt);
    var leftNeighbor: Option<Entry<T>> := if col > 0 then Some(sorted[position - 1]) else None;
    var topNeighbor: Option<Entry<T>> := if row > 0 then Some(sorted[position - GridColumns]) else None;
    score := Finite(0.0);
    var neighborCount := 0.0;
    if leftNeighbor.Some? {
      var d := PaletteDistance(candidate.palette, leftNeighbor.value.palette, sqrt);
      assert d == left;
      score := Add(score, Weighted(d, 1.2));
      neighborCount := neighborCount + 1.0;
    }
    assert score == Add(Finite(0.0), if n.left.Some? then Weighted(left, 1.2) else Finite(0.0));
    if topNeighbor.Some? {
      var d := PaletteDistance(candidate.palette, topNeighbor.value.palette, sqrt);
      assert d == top;
      score := Add(score, Weighted(d, 1.0));
      neighborCount := neighborCount + 1.0;
    }
    if col == 0 && row > 0 {
      var topRightNeighbor := sorted[position - GridColumns + (GridColumns - 1)];
      var d := PaletteDistance(candidate.palette, topRightNeighbor.palette, sqrt);
      assert d == wrap;
      score := Add(score, Weighted(d, 0.5));
      neighborCount := neighborCount + 0.5;
    }
    assert neighborCount == NeighborCount(n);
    if neighborCount > 0.0 {
      score := DivideBy(score, neighborCount);
    }
  }

  /** The scan over the remaining candidates for one position. */
  method BestCandidate<T>(sorted: seq<Entry<T>>, remaining: seq<Entry<T>>, sqrt: real -> real) returns (bestIdx: nat)
    requires |sorted| > 0 && |remaining| > 0
    ensures bestIdx == BestIndex(sorted, remaining, sqrt)
  {
    ghost var scores := Scores(sorted, remaining, sqrt);
    bestIdx := 0;
    var bestScore := Infinite;
    for i := 0 to |remaining|
      invariant bestIdx < |remaining|
      invariant i == 0 ==> bestIdx == 0 && bestScore == Infinite
      invariant i > 0 ==> bestIdx == FirstMin(scores, i) && bestScore == scores[bestIdx]
    {
      var score := CandidateScore(sorted, remaining[i], sqrt);
      assert score == scores[i];
      ScanStep(scores, i, bestIdx, bestScore);
      if Less(score, bestScore) {
        bestScore := score;
        bestIdx := i;
      }
    }
  }

  /** `sortByGrid`. */
  method SortByGrid<T(!new)>(releases: seq<Entry<T>>, sqrt: real -> real) returns (sorted: seq<Entry<T>>)
    ensures sorted == GridOrder(releases, sqrt)
  {
    if |releases| <= 1 {
      return releases;
    }
    var remaining := releases;
    var startIndex := StartIndex(remaining);
    sorted := [remaining[startIndex]];
    remaining := RemoveAt(remaining, startIndex);
    PickValid<T>(sqrt);
    ghost var pick := Pick<T>(sqrt);
    ghost var start := Start(releases);
    while |remaining| > 0
      invariant 0 < |sorted| <= |releases| && |sorted| + |remaining| == |releases|
      invariant State(sorted, remaining) == AdvanceN(start, |sorted| - 1, pick)
      decreases |remaining|
    {
      var bestIdx := BestCandidate(sorted, remaining, sqrt);
      PickIsBest(sorted, remaining, sqrt);
      AdvanceStep(start, |sorted|, pick);
      sorted := sorted + [remaining[bestIdx]];
      remaining := RemoveAt(remaining, bestIdx);
    }
  }
}

/**
 * Palette extraction by k-means clustering over RGB pixels: k-means++
 * seeding driven by a supplied sequence of random draws, at most
 * `maxIterations` Lloyd rounds, and the final ordering of the centroids by
 * the number of pixels each one attracts.
 *
 * Distances between pixels are compared through their squares: the source
 * compares `Math.sqrt` of these sums, and the square root is monotone, so
 * every comparison (`d < minDist`, `rgbDistance(..) > 1`) has the same
 * outcome; the seeding weights are `minDist * minDist`, the squared sum itself.
 */
module KMeans {

  /** `RGBPoint`: a pixel or a centroid. */
  datatype Rgb = Rgb(r: int, g: int, b: int)

  /** The fallback centroid for an image without pixels. */
  const Gray := Rgb(128, 128, 128)

  predicate InByteRange(p: Rgb) {
    0 <= p.r <= 255 && 0 <= p.g <= 255 && 0 <= p.b <= 255
  }

  predicate AllInByteRange(ps: seq<Rgb>) {
    forall i :: 0 <= i < |ps| ==> InByteRange(ps[i])
  }

  function Square(x: int): (y: int)
    ensures y >= 0
    ensures y == 0 <==> x == 0
  {
    if x >= 0 then PositiveSquare(x); x * x
    else PositiveSquare(-x); (-x) * (-x)
  }

  lemma PositiveSquare(x: int)
    requires x >= 0
    ensures x * x >= 0 && (x * x == 0 <==> x == 0)
  {
    if x > 0 { assert x * x >= x; }
  }

  /** The squared `rgbDistance`. */
  function SqDist(a: Rgb, b: Rgb): (d: int)
    ensures d >= 0
    ensures d == 0 <==> a == b
  {
    Square(a.r - b.r) + Square(a.g - b.g) + Square(a.b - b.b)
  }

  // ---------------------------------------------------------------------------
  // Nearest centroid
  // ---------------------------------------------------------------------------

  /** The index a left-to-right scan with a strict `<` settles on: the first
      position of the minimum. */
  function ArgMinFirst(ds: seq<int>): (m: nat)
    requires |ds| > 0
    ensures m < |ds|
    ensures forall j :: 0 <= j < |ds| ==> ds[m] <= ds[j]
    ensures forall j :: 0 <= j < m ==> ds[j] > ds[m]
  {
    if |ds| == 1 then 0
    else
      var m := ArgMinFirst(ds[..|ds| - 1]);
      if ds[|ds| - 1] < ds[m] then |ds| - 1 else m
  }

  /** One more step of the scan: a strictly smaller value takes over. */
  lemma ArgMinFirstPrefix(ds: seq<int>, i: nat)
    requires i < |ds|
    ensures i == 0 ==> ArgMinFirst(ds[..1]) == 0
    ensures i > 0 ==> ArgMinFirst(ds[..i + 1]) == if ds[i] < ds[ArgMinFirst(ds[..i])] then i else ArgMinFirst(ds[..i])
  {
    var q := ds[..i + 1];
    assert q[..i] == ds[..i];
  }

  function DistancesTo(p: Rgb, cs: seq<Rgb>): (ds: seq<int>)
    ensures |ds| == |cs|
    ensures forall i :: 0 <= i < |cs| ==> ds[i] == SqDist(p, cs[i])
  {
    seq(|cs|, i requires 0 <= i < |cs| => SqDist(p, cs[i]))
  }

  /** The centroid a pixel is assigned to. */
  function NearestIndex(p: Rgb, cs: seq<Rgb>): (m: nat)
    requires |cs| > 0
    ensures m < |cs|
    ensures forall j :: 0 <= j < |cs| ==> SqDist(p, cs[m]) <= SqDist(p, cs[j])
    ensures forall j :: 0 <= j < m ==> SqDist(p, cs[j]) > SqDist(p, cs[m])
  {
    ArgMinFirst(DistancesTo(p, cs))
  }

  /** The inner loop of the assignment step: `minDist` starts at Infinity
      (here: `seen` is false) and is replaced on a strictly smaller distance. */
  method NearestCentroid(p: Rgb, cs: seq<Rgb>) returns (minIdx: nat)
    requires |cs| > 0
    ensures minIdx == NearestIndex(p, cs)
  {
    var ds := DistancesTo(p, cs);
    var minDist: int := -1;
    var seen := false;
    minIdx := 0;
    for i := 0 to |cs|
      invariant seen <==> i > 0
      invariant seen ==> minIdx == ArgMinFirst(ds[..i]) && minDist == ds[minIdx]
    {
      var d := SqDist(p, cs[i]);
      ArgMinFirstPrefix(ds, i);
      if !seen || d < minDist {
        minDist := d;
        minIdx := i;
      }
      seen := true;
    }
    assert ds[..|cs|] == ds;
  }

  // ---------------------------------------------------------------------------
  // k-means++ seeding
  // ---------------------------------------------------------------------------

  /** A source of `Math.random` draws: the j-th call returns `random(j)`, in [0, 1). */
  ghost predicate IsDrawSource(random: nat -> real) {
    forall j :: 0.0 <= random(j) < 1.0
  }

  /** Squared distance from a pixel to its nearest centroid, `Math.min(...)` squared. */
  function MinSqDist(p: Rgb, cs: seq<Rgb>): (d: int)
    requires |cs| > 0
    ensures d >= 0
    ensures forall j :: 0 <= j < |cs| ==> d <= SqDist(p, cs[j])
  {
    SqDist(p, cs[NearestIndex(p, cs)])
  }

  /** A pixel is at distance zero from the centroids exactly when it is one of them. */
  lemma MinSqDistZero(p: Rgb, cs: seq<Rgb>)
    requires |cs| > 0
    ensures MinSqDist(p, cs) == 0 <==> p in cs
  {
    if p in cs {
      var j :| 0 <= j < |cs| && cs[j] == p;
      assert SqDist(p, cs[j]) == 0;
    }
  }

  /** The seeding weights, `distances` in the source. */
  function SeedWeights(pixels: seq<Rgb>, cs: seq<Rgb>): (ws: seq<int>)
    requires |cs| > 0
    ensures |ws| == |pixels|
    ensures forall i :: 0 <= i < |pixels| ==> ws[i] == MinSqDist(pixels[i], cs)
  {
    seq(|pixels|, i requires 0 <= i < |pixels| => MinSqDist(pixels[i], cs))
  }

  predicate NonNegative(ws: seq<int>) {
    forall i :: 0 <= i < |ws| ==> ws[i] >= 0
  }

  /** `reduce((a, b) => a + b, 0)`. */
  function Total(ws: seq<int>): (t: int)
    ensures NonNegative(ws) ==> t >= 0
  {
    if |ws| == 0 then 0 else ws[0] + Total(ws[1..])
  }

  lemma {:induction false} TotalSnoc(ws: seq<int>, x: int)
    ensures Total(ws + [x]) == Total(ws) + x
  {
    if |ws| > 0 {
      assert (ws + [x])[1..] == ws[1..] + [x];
      TotalSnoc(ws[1..], x);
    }
  }

  /** Non-negative weights with a zero total are all zero. */
  lemma {:induction false} TotalZero(ws: seq<int>)
    requires NonNegative(ws) && Total(ws) == 0
    ensures forall i :: 0 <= i < |ws| ==> ws[i] == 0
  {
    if |ws| > 0 {
      assert NonNegative(ws[1..]);
      TotalZero(ws[1..]);
      forall i | 1 <= i < |ws| ensures ws[i] == 0 {
        assert ws[i] == ws[1..][i - 1];
      }
    }
  }

  /** The index the sampling loop stops at: the first `i` with
      `r - (ws[0] + ... + ws[i]) <= 0`. */
  function Pick(ws: seq<int>, r: real): (m: nat)
    requires |ws| > 0 && NonNegative(ws) && r < Total(ws) as real
    ensures m < |ws|
  {
    if r - ws[0] as real <= 0.0 then 0
    else
      assert NonNegative(ws[1..]);
      assert Total(ws) == ws[0] + Total(ws[1..]);
      1 + Pick(ws[1..], r - ws[0] as real)
  }

  /** Inverse-CDF sampling: the picked index is where the running total first
      reaches `r`. */
  lemma {:induction false} PickBracket(ws: seq<int>, r: real)
    requires |ws| > 0 && NonNegative(ws) && r < Total(ws) as real
    ensures var m := Pick(ws, r);
      (m == 0 || (Total(ws[..m]) as real) < r) && r <= Total(ws[..m + 1]) as real
  {
    var m := Pick(ws, r);
    if r - ws[0] as real <= 0.0 {
      assert ws[..1][1..] == [];
    } else {
      assert NonNegative(ws[1..]);
      PickBracket(ws[1..], r - ws[0] as real);
      assert ws[..m + 1][1..] == ws[1..][..m];
      assert ws[..m][1..] == ws[1..][..m - 1];
    }
  }

  /** A positive draw never picks a pixel of weight zero. */
  lemma PickPositive(ws: seq<int>, r: real)
    requires |ws| > 0 && NonNegative(ws) && r < Total(ws) as real && r > 0.0
    ensures ws[Pick(ws, r)] > 0
  {
    var m := Pick(ws, r);
    PickBracket(ws, r);
    assert ws[..m + 1] == ws[..m] + [ws[m]];
    TotalSnoc(ws[..m], ws[m]);
  }

  /** `Math.random() * totalDist`, below the total. */
  function Threshold(u: real, t: int): (r: real)
    requires 0.0 <= u < 1.0 && t > 0
    ensures 0.0 <= r < t as real
    ensures u > 0.0 ==> r > 0.0
  {
    assert (1.0 - u) * t as real > 0.0;
    u * t as real
  }

  /** `Math.floor(Math.random() * pixels.length)`. */
  function FirstSeedIndex(n: nat, u: real): (i: nat)
    requires n > 0 && 0.0 <= u < 1.0
    ensures i < n
  {
    Threshold(u, n).Floor
  }

  /** The seeding rounds after the first centroid: while fewer than `k`
      centroids are chosen and some pixel lies away from all of them, one more
      pixel is drawn with probability proportional to its weight. */
  function SeedFrom(pixels: seq<Rgb>, k: int, random: nat -> real, cs: seq<Rgb>): (r: seq<Rgb>)
    requires |pixels| > 0 && |cs| > 0 && IsDrawSource(random)
    decreases k - |cs|
  {
    if |cs| >= k then cs
    else
      var ws := SeedWeights(pixels, cs);
      var t := Total(ws);
      if t == 0 then cs
      else SeedFrom(pixels, k, random, NextSeed(pixels, random, cs))
  }

  /** One seeding round: the pixel drawn with probability proportional to its
      weight joins the centroids. */
  function NextSeed(pixels: seq<Rgb>, random: nat -> real, cs: seq<Rgb>): (next: seq<Rgb>)
    requires |pixels| > 0 && |cs| > 0 && IsDrawSource(random)
    requires Total(SeedWeights(pixels, cs)) != 0
    ensures |next| == |cs| + 1 && next[..|cs|] == cs
  {
    var ws := SeedWeights(pixels, cs);
    cs + [pixels[Pick(ws, Threshold(random(|cs|), Total(ws)))]]
  }

  /** The k-means++ seeding of `kMeansClustering`. */
  function Seeds(pixels: seq<Rgb>, k: int, random: nat -> real): (r: seq<Rgb>)
    requires |pixels| > 0 && IsDrawSource(random)
    ensures 0 < |r| && (|r| <= k || |r| == 1)
  {
    var first := [pixels[FirstSeedIndex(|pixels|, random(0))]];
    SeedFromGrows(pixels, k, random, first);
    SeedFrom(pixels, k, random, first)
  }

  /** Seeding only adds centroids, and stops at `k` of them or earlier. */
  lemma {:induction false} SeedFromGrows(pixels: seq<Rgb>, k: int, random: nat -> real, cs: seq<Rgb>)
    requires |pixels| > 0 && |cs| > 0 && IsDrawSource(random)
    ensures var r := SeedFrom(pixels, k, random, cs);
      |cs| <= |r| && r[..|cs|] == cs && (|r| <= k || |r| == |cs|)
    decreases k - |cs|
  {
    if |cs| < k {
      var ws := SeedWeights(pixels, cs);
      var t := Total(ws);
      if t != 0 {
        var next := NextSeed(pixels, random, cs);
        SeedFromGrows(pixels, k, random, next);
        var r := SeedFrom(pixels, k, random, next);
        assert SeedFrom(pixels, k, random, cs) == r;
        PrefixOfPrefix(r, next, |cs|);
        assert next[..|cs|] == cs;
      }
    }
  }

  lemma PrefixOfPrefix(r: seq<Rgb>, a: seq<Rgb>, n: nat)
    requires |a| <= |r| && r[..|a|] == a && n <= |a|
    ensures r[..n] == a[..n]
  {
    assert forall i :: 0 <= i < n ==> r[i] == r[..|a|][i];
  }

  /** Every seeded centroid is one of the input pixels. */
  lemma {:induction false} SeedFromPixels(pixels: seq<Rgb>, k: int, random: nat -> real, cs: seq<Rgb>)
    requires |pixels| > 0 && |cs| > 0 && IsDrawSource(random)
    requires forall c :: c in cs ==> c in pixels
    ensures forall c :: c in SeedFrom(pixels, k, random, cs) ==> c in pixels
    decreases k - |cs|
  {
    if |cs| < k {
      var ws := SeedWeights(pixels, cs);
      var t := Total(ws);
      if t != 0 {
        var next := NextSeed(pixels, random, cs);
        SeedFromPixels(pixels, k, random, next);
      }
    }
  }

  /** Seeding ends before `k` centroids only when every pixel is a centroid. */
  lemma {:induction false} SeedFromEarlyStop(pixels: seq<Rgb>, k: int, random: nat -> real, cs: seq<Rgb>)
    requires |pixels| > 0 && |cs| > 0 && IsDrawSource(random)
    ensures var r := SeedFrom(pixels, k, random, cs);
      |r| < k ==> forall i :: 0 <= i < |pixels| ==> pixels[i] in r
    decreases k - |cs|
  {
    var r := SeedFrom(pixels, k, random, cs);
    if |cs| < k {
      var ws := SeedWeights(pixels, cs);
      var t := Total(ws);
      if t == 0 {
        TotalZero(ws);
        forall i | 0 <= i < |pixels| ensures pixels[i] in r {
          MinSqDistZero(pixels[i], cs);
        }
      } else {
        var next := NextSeed(pixels, random, cs);
        SeedFromEarlyStop(pixels, k, random, next);
      }
    }
  }

  /** A positive draw never picks a pixel that is already a centroid. */
  lemma PickedIsFresh(pixels: seq<Rgb>, cs: seq<Rgb>, u: real)
    requires |pixels| > 0 && |cs| > 0
    requires 0.0 < u < Total(SeedWeights(pixels, cs)) as real
    ensures pixels[Pick(SeedWeights(pixels, cs), u)] !in cs
  {
    var ws := SeedWeights(pixels, cs);
    var m := Pick(ws, u);
    PickPositive(ws, u);
    MinSqDistZero(pixels[m], cs);
  }

  /** A round with a positive draw adds a pixel that is not yet a centroid. */
  lemma NextSeedFresh(pixels: seq<Rgb>, random: nat -> real, cs: seq<Rgb>)
    requires |pixels| > 0 && |cs| > 0 && IsDrawSource(random)
    requires Total(SeedWeights(pixels, cs)) != 0 && random(|cs|) > 0.0
    ensures NextSeed(pixels, random, cs)[|cs|] !in cs
  {
    var ws := SeedWeights(pixels, cs);
    PickedIsFresh(pixels, cs, Threshold(random(|cs|), Total(ws)));
  }

  /** A seeding round with a positive draw adds a pixel that is not yet a
      centroid. */
  lemma {:induction false} SeedFromFresh(pixels: seq<Rgb>, k: int, random: nat -> real, cs: seq<Rgb>, j: nat)
    requires |pixels| > 0 && |cs| > 0 && IsDrawSource(random)
    requires |cs| <= j < |SeedFrom(pixels, k, random, cs)| && random(j) > 0.0
    ensures SeedFrom(pixels, k, random, cs)[j] !in SeedFrom(pixels, k, random, cs)[..j]
    decreases k - |cs|
  {
    var r := SeedFrom(pixels, k, random, cs);
    assert |cs| < k && Total(SeedWeights(pixels, cs)) != 0;
    var next := NextSeed(pixels, random, cs);
    assert r == SeedFrom(pixels, k, random, next);
    SeedFromGrows(pixels, k, random, next);
    if j == |cs| {
      NextSeedFresh(pixels, random, cs);
      PrefixOfPrefix(r, next, j);
      assert r[j] == r[..|next|][j];
    } else {
      SeedFromFresh(pixels, k, random, next, j);
    }
  }

  /** The sampling loop: subtract each weight from `r` and stop at the first
      index where it is no longer positive. */
  method SampleIndex(ws: seq<int>, r0: real) returns (i: nat)
    requires |ws| > 0 && NonNegative(ws) && r0 < Total(ws) as real
    ensures i == Pick(ws, r0)
  {
    var r := r0;
    i := 0;
    while true
      invariant i < |ws|
      invariant NonNegative(ws[i..]) && r < Total(ws[i..]) as real
      invariant Pick(ws, r0) == i + Pick(ws[i..], r)
      decreases |ws| - i
    {
      r := r - ws[i] as real;
      if r <= 0.0 {
        break;
      }
      assert ws[i..][1..] == ws[i + 1..];
      i := i + 1;
    }
  }

  /** The seeding part of `kMeansClustering`. */
  method SeedCentroids(pixels: seq<Rgb>, k: int, random: nat -> real) returns (centroids: seq<Rgb>)
    requires |pixels| > 0 && IsDrawSource(random)
    ensures centroids == Seeds(pixels, k, random)
  {
    centroids := [pixels[FirstSeedIndex(|pixels|, random(0))]];
    while |centroids| < k
      invariant |centroids| > 0
      invariant SeedFrom(pixels, k, random, centroids) == Seeds(pixels, k, random)
      decreases k - |centroids|
    {
      var exhausted, next := SeedRound(pixels, random, centroids);
      if exhausted {
        SeedFromStops(pixels, k, random, centroids);
        break;
      }
      SeedFromContinues(pixels, k, random, centroids);
      centroids := next;
    }
    SeedFromStops(pixels, k, random, centroids);
  }

  /** The body of the seeding loop: the weights, their total, and either the
      `totalDist === 0` exit or the drawn pixel appended. */
  method SeedRound(pixels: seq<Rgb>, random: nat -> real, centroids: seq<Rgb>) returns (exhausted: bool, next: seq<Rgb>)
    requires |pixels| > 0 && |centroids| > 0 && IsDrawSource(random)
    ensures exhausted <==> Total(SeedWeights(pixels, centroids)) == 0
    ensures !exhausted ==> next == NextSeed(pixels, random, centroids)
  {
    var distances := SeedWeights(pixels, centroids);
    var totalDist := Total(distances);
    if totalDist == 0 {
      return true, centroids;
    }
    var r := Threshold(random(|centroids|), totalDist);
    var i := SampleIndex(distances, r);
    next := centroids + [pixels[i]];
    exhausted := false;
  }

  lemma SeedFromStops(pixels: seq<Rgb>, k: int, random: nat -> real, cs: seq<Rgb>)
    requires |pixels| > 0 && |cs| > 0 && IsDrawSource(random)
    requires |cs| >= k || Total(SeedWeights(pixels, cs)) == 0
    ensures SeedFrom(pixels, k, random, cs) == cs
  {
  }

  lemma SeedFromContinues(pixels: seq<Rgb>, k: int, random: nat -> real, cs: seq<Rgb>)
    requires |pixels| > 0 && |cs| > 0 && IsDrawSource(random)
    requires |cs| < k && Total(SeedWeights(pixels, cs)) != 0
    ensures SeedFrom(pixels, k, random, cs) == SeedFrom(pixels, k, random, NextSeed(pixels, random, cs))
  {
  }

  // ---------------------------------------------------------------------------
  // Lloyd refinement
  // ---------------------------------------------------------------------------

  /** The pixels assigned to centroid `i`, in pixel order: `clusters[i]`. */
  function Members(ps: seq<Rgb>, cs: seq<Rgb>, i: nat): (m: seq<Rgb>)
    requires |cs| > 0
    ensures |m| <= |ps|
    ensures forall p :: p in m <==> p in ps && NearestIndex(p, cs) == i
  {
    if |ps| == 0 then []
    else
      var last := ps[|ps| - 1];
      assert ps == ps[..|ps| - 1] + [last];
      Members(ps[..|ps| - 1], cs, i) + (if NearestIndex(last, cs) == i then [last] else [])
  }

  /** The assignment of every pixel to its nearest centroid. */
  function Clusters(ps: seq<Rgb>, cs: seq<Rgb>): (clusters: seq<seq<Rgb>>)
    requires |cs| > 0
    ensures |clusters| == |cs|
    ensures forall i :: 0 <= i < |cs| ==> clusters[i] == Members(ps, cs, i)
  {
    seq(|cs|, i requires 0 <= i < |cs| => Members(ps, cs, i))
  }

  /** The assignment step: every pixel is pushed onto the cluster of its
      nearest centroid. */
  method AssignClusters(pixels: seq<Rgb>, centroids: seq<Rgb>) returns (clusters: seq<seq<Rgb>>)
    requires |centroids| > 0
    ensures clusters == Clusters(pixels, centroids)
  {
    clusters := seq(|centroids|, _ => []);
    for n := 0 to |pixels|
      invariant |clusters| == |centroids|
      invariant forall i :: 0 <= i < |centroids| ==> clusters[i] == Members(pixels[..n], centroids, i)
    {
      var m := NearestCentroid(pixels[n], centroids);
      forall i | 0 <= i < |centroids|
        ensures Members(pixels[..n + 1], centroids, i)
          == Members(pixels[..n], centroids, i) + if m == i then [pixels[n]] else []
      {
        MembersPrefix(pixels, centroids, i, n);
      }
      clusters := clusters[m := clusters[m] + [pixels[n]]];
    }
    assert pixels[..|pixels|] == pixels;
  }

  datatype Channel = Red | Green | Blue

  function Chan(p: Rgb, ch: Channel): int {
    match ch
    case Red => p.r
    case Green => p.g
    case Blue => p.b
  }

  /** `clusters[i].reduce((sum, p) => sum + p[ch], 0)`. */
  function ChannelSum(ps: seq<Rgb>, ch: Channel): int {
    if |ps| == 0 then 0 else Chan(ps[0], ch) + ChannelSum(ps[1..], ch)
  }

  /** A channel sum lies between `|ps|` times any lower and upper bound of the channel. */
  lemma {:induction false} ChannelSumBounds(ps: seq<Rgb>, ch: Channel, lo: int, hi: int)
    requires forall p :: p in ps ==> lo <= Chan(p, ch) <= hi
    ensures |ps| * lo <= ChannelSum(ps, ch) <= |ps| * hi
  {
    if |ps| > 0 {
      assert ps[0] in ps;
      assert forall p :: p in ps[1..] ==> p in ps;
      ChannelSumBounds(ps[1..], ch, lo, hi);
      Distribute(|ps| - 1, lo);
      Distribute(|ps| - 1, hi);
    }
  }

  lemma Distribute(n: int, x: int)
    ensures (n + 1) * x == n * x + x
  {
  }

  /** `Math.round(sum / n)`: the nearest integer, halves rounded up. */
  function RoundedMean(sum: int, n: int): (m: int)
    requires n > 0
    ensures 2 * n * m <= 2 * sum + n < 2 * n * (m + 1)
  {
    (2 * sum + n) / (2 * n)
  }

  /** The rounded mean of values in [lo, hi] stays in [lo, hi]. */
  lemma RoundedMeanBounds(sum: int, n: int, lo: int, hi: int)
    requires n > 0 && n * lo <= sum <= n * hi
    ensures lo <= RoundedMean(sum, n) <= hi
  {
    var m := RoundedMean(sum, n);
    if m < lo {
      MultiplyMonotone(2 * n, m + 1, lo);
    }
    if m > hi {
      MultiplyMonotone(2 * n, hi + 1, m);
    }
  }

  lemma MultiplyMonotone(n: int, a: int, b: int)
    requires n > 0 && a <= b
    ensures n * a <= n * b
  {
    assert n * b - n * a == n * (b - a);
  }

  /** The new centroid of a non-empty cluster: its rounded channel means. */
  function Mean(ps: seq<Rgb>): Rgb
    requires |ps| > 0
  {
    Rgb(RoundedMean(ChannelSum(ps, Red), |ps|),
        RoundedMean(ChannelSum(ps, Green), |ps|),
        RoundedMean(ChannelSum(ps, Blue), |ps|))
  }

  /** Each channel of a cluster's mean lies within that cluster's range of the channel. */
  lemma MeanWithinRange(ps: seq<Rgb>, ch: Channel, lo: int, hi: int)
    requires |ps| > 0
    requires forall p :: p in ps ==> lo <= Chan(p, ch) <= hi
    ensures lo <= Chan(Mean(ps), ch) <= hi
  {
    ChannelSumBounds(ps, ch, lo, hi);
    RoundedMeanBounds(ChannelSum(ps, ch), |ps|, lo, hi);
  }

  /** The mean of byte-valued pixels is byte-valued. */
  lemma MeanInByteRange(ps: seq<Rgb>)
    requires |ps| > 0
    requires forall p :: p in ps ==> InByteRange(p)
    ensures InByteRange(Mean(ps))
  {
    MeanWithinRange(ps, Red, 0, 255);
    MeanWithinRange(ps, Green, 0, 255);
    MeanWithinRange(ps, Blue, 0, 255);
  }

  /** The centroids after one update step: an empty cluster keeps its centroid. */
  function Updated(cs: seq<Rgb>, clusters: seq<seq<Rgb>>): (next: seq<Rgb>)
    requires |clusters| == |cs|
    ensures |next| == |cs|
    ensures forall i :: 0 <= i < |cs| && |clusters[i]| == 0 ==> next[i] == cs[i]
  {
    seq(|cs|, i requires 0 <= i < |cs| => if |clusters[i]| == 0 then cs[i] else Mean(clusters[i]))
  }

  /** `converged` after the first `n` iterations of the update loop: no
      non-empty cluster among the first `n` has its mean more than 1 away from
      its centroid. */
  predicate ConvergedBelow(cs: seq<Rgb>, clusters: seq<seq<Rgb>>, n: nat)
    requires |clusters| == |cs| && n <= |cs|
    decreases n
  {
    n == 0 ||
    (ConvergedBelow(cs, clusters, n - 1) &&
     (|clusters[n - 1]| == 0 || SqDist(cs[n - 1], Mean(clusters[n - 1])) <= 1))
  }

  /** `converged` after the update loop. */
  predicate Converged(cs: seq<Rgb>, clusters: seq<seq<Rgb>>)
    requires |clusters| == |cs|
  {
    ConvergedBelow(cs, clusters, |cs|)
  }

  /** The loop's flag holds exactly when no scanned non-empty cluster's mean
      is more than 1 away from its centroid. */
  lemma {:induction false} ConvergedBelowAll(cs: seq<Rgb>, clusters: seq<seq<Rgb>>, n: nat)
    requires |clusters| == |cs| && n <= |cs|
    ensures ConvergedBelow(cs, clusters, n) <==>
      forall i :: 0 <= i < n && |clusters[i]| > 0 ==> SqDist(cs[i], Mean(clusters[i])) <= 1
    decreases n
  {
    if n > 0 {
      ConvergedBelowAll(cs, clusters, n - 1);
    }
  }

  /** Converged means that no centroid moved by more than 1. */
  lemma ConvergedIffStill(cs: seq<Rgb>, clusters: seq<seq<Rgb>>)
    requires |clusters| == |cs|
    ensures Converged(cs, clusters) <==>
      forall i :: 0 <= i < |cs| ==> SqDist(cs[i], Updated(cs, clusters)[i]) <= 1
  {
    ConvergedBelowAll(cs, clusters, |cs|);
    var next := Updated(cs, clusters);
    if forall i :: 0 <= i < |cs| ==> SqDist(cs[i], next[i]) <= 1 {
      forall i | 0 <= i < |cs| && |clusters[i]| > 0
        ensures SqDist(cs[i], Mean(clusters[i])) <= 1
      {
        assert next[i] == Mean(clusters[i]);
      }
    }
  }

  /** The update loop: every centroid with a non-empty cluster is overwritten
      in place by the cluster's mean. */
  method UpdateCentroids(centroids: array<Rgb>, clusters: seq<seq<Rgb>>) returns (converged: bool)
    requires |clusters| == centroids.Length
    modifies centroids
    ensures centroids[..] == Updated(old(centroids[..]), clusters)
    ensures converged == Converged(old(centroids[..]), clusters)
  {
    ghost var cs := centroids[..];
    ghost var next := Updated(cs, clusters);
    converged := true;
    for i := 0 to centroids.Length
      invariant forall j :: i <= j < centroids.Length ==> centroids[j] == cs[j]
      invariant forall j :: 0 <= j < i ==> centroids[j] == next[j]
      invariant converged == ConvergedBelow(cs, clusters, i)
    {
      if |clusters[i]| == 0 {
        continue;
      }
      var newCentroid := Mean(clusters[i]);
      if SqDist(centroids[i], newCentroid) > 1 {
        converged := false;
      }
      centroids[i] := newCentroid;
    }
    assert centroids[..] == next;
  }

  /** One assignment/update round on the centroids `cs`. */
  function Step(pixels: seq<Rgb>, cs: seq<Rgb>): (next: seq<Rgb>)
    requires |cs| > 0
    ensures |next| == |cs|
  {
    Updated(cs, Clusters(pixels, cs))
  }

  /** Whether the round on `cs` converges. */
  predicate StepConverged(pixels: seq<Rgb>, cs: seq<Rgb>)
    requires |cs| > 0
  {
    ConvergedBelow(cs, Clusters(pixels, cs), |cs|)
  }

  /** A round converges exactly when it moves no centroid by more than 1. */
  lemma StepConvergedIffStill(pixels: seq<Rgb>, cs: seq<Rgb>)
    requires |cs| > 0
    ensures StepConverged(pixels, cs) <==>
      forall i :: 0 <= i < |cs| ==> SqDist(cs[i], Step(pixels, cs)[i]) <= 1
  {
    ConvergedIffStill(cs, Clusters(pixels, cs));
  }

  /** A round keeps byte-valued centroids byte-valued when the clusters are
      drawn from byte-valued pixels. */
  lemma StepInByteRange(pixels: seq<Rgb>, cs: seq<Rgb>)
    requires |cs| > 0
    ensures AllInByteRange(pixels) && AllInByteRange(cs) ==> AllInByteRange(Step(pixels, cs))
  {
    if AllInByteRange(pixels) && AllInByteRange(cs) {
      var clusters := Clusters(pixels, cs);
      forall i | 0 <= i < |cs| && |clusters[i]| > 0
        ensures InByteRange(Mean(clusters[i]))
      {
        forall p | p in clusters[i] ensures InByteRange(p) {
          assert p in pixels;
        }
        MeanInByteRange(clusters[i]);
      }
    }
  }

  /** The outcome of the refinement loop: the centroids, the number of rounds
      run, and whether the last round converged. */
  datatype Refinement = Refinement(centroids: seq<Rgb>, rounds: nat, converged: bool)

  /** At most `budget` assignment/update rounds, stopping after the first
      converged one. */
  function Refine(pixels: seq<Rgb>, cs: seq<Rgb>, budget: nat): (r: Refinement)
    requires |cs| > 0
    ensures |r.centroids| == |cs|
    ensures r.rounds <= budget
    ensures r.converged || r.rounds == budget
    ensures AllInByteRange(pixels) && AllInByteRange(cs) ==> AllInByteRange(r.centroids)
    decreases budget
  {
    if budget == 0 then Refinement(cs, 0, false)
    else
      StepInByteRange(pixels, cs);
      var next := Step(pixels, cs);
      if StepConverged(pixels, cs) then Refinement(next, 1, true)
      else
        var rest := Refine(pixels, next, budget - 1);
        Refinement(rest.centroids, rest.rounds + 1, rest.converged)
  }

  /** One round on the pixels as a function of the centroids. */
  function Round(pixels: seq<Rgb>): seq<Rgb> -> seq<Rgb> {
    cs => if |cs| > 0 then Step(pixels, cs) else cs
  }

  /** Whether the round on the given centroids converges. */
  function Stable(pixels: seq<Rgb>): seq<Rgb> -> bool {
    cs => |cs| > 0 && StepConverged(pixels, cs)
  }

  /** The centroids after `n` rounds from `cs`, whether or not they converge. */
  function Iterate(round: seq<Rgb> -> seq<Rgb>, cs: seq<Rgb>, n: nat): seq<Rgb>
    decreases n
  {
    if n == 0 then cs else Iterate(round, round(cs), n - 1)
  }

  /** The refinement loop for a round `round` and a convergence test `stable`. */
  function Run(round: seq<Rgb> -> seq<Rgb>, stable: seq<Rgb> -> bool, cs: seq<Rgb>, budget: nat): Refinement
    decreases budget
  {
    if budget == 0 then Refinement(cs, 0, false)
    else if stable(cs) then Refinement(round(cs), 1, true)
    else Later(Run(round, stable, round(cs), budget - 1), 1)
  }

  /** The loop runs rounds until one converges: its centroids are those after
      the rounds run, it reports convergence exactly when the last round run
      converged, no earlier round converged, and it runs short of the budget
      only after a converged round. */
  lemma {:induction false} RunIterates(round: seq<Rgb> -> seq<Rgb>, stable: seq<Rgb> -> bool, cs: seq<Rgb>, budget: nat)
    ensures var r := Run(round, stable, cs, budget);
      && r.rounds <= budget
      && (r.converged || r.rounds == budget)
      && r.centroids == Iterate(round, cs, r.rounds)
      && (r.converged <==> r.rounds > 0 && stable(Iterate(round, cs, r.rounds - 1)))
      && forall j: nat :: j + 1 < r.rounds ==> !stable(Iterate(round, cs, j))
    decreases budget
  {
    if budget > 0 && !stable(cs) {
      var next := round(cs);
      var rest := Run(round, stable, next, budget - 1);
      RunIterates(round, stable, next, budget - 1);
      assert Run(round, stable, cs, budget) == Later(rest, 1);
      assert Iterate(round, cs, rest.rounds + 1) == Iterate(round, next, rest.rounds);
      if rest.rounds > 0 {
        assert Iterate(round, cs, rest.rounds) == Iterate(round, next, rest.rounds - 1);
      }
      forall j: nat | j + 1 < rest.rounds + 1
        ensures !stable(Iterate(round, cs, j))
      {
        if j > 0 {
          assert Iterate(round, cs, j) == Iterate(round, next, j - 1);
        }
      }
    }
  }

  /** The refinement is the loop with the k-means round. */
  lemma {:induction false} RefineIsRun(pixels: seq<Rgb>, cs: seq<Rgb>, budget: nat)
    requires |cs| > 0
    ensures Refine(pixels, cs, budget) == Run(Round(pixels), Stable(pixels), cs, budget)
    decreases budget
  {
    if budget > 0 {
      var next := Step(pixels, cs);
      assert Round(pixels)(cs) == next;
      assert Stable(pixels)(cs) == StepConverged(pixels, cs);
      if !StepConverged(pixels, cs) {
        RefineIsRun(pixels, next, budget - 1);
      }
    }
  }

  /** The refinement runs rounds until one converges: its centroids are those
      after the rounds run, it reports convergence exactly when the last round
      run had no centroid move by more than 1, and no earlier round converged. */
  lemma RefineIterates(pixels: seq<Rgb>, cs: seq<Rgb>, budget: nat)
    requires |cs| > 0
    ensures var r := Refine(pixels, cs, budget);
      && r.centroids == Iterate(Round(pixels), cs, r.rounds)
      && (r.converged <==> r.rounds > 0 && Stable(pixels)(Iterate(Round(pixels), cs, r.rounds - 1)))
      && forall j: nat :: j + 1 < r.rounds ==> !Stable(pixels)(Iterate(Round(pixels), cs, j))
  {
    RefineIsRun(pixels, cs, budget);
    RunIterates(Round(pixels), Stable(pixels), cs, budget);
  }

  function Later(r: Refinement, n: nat): Refinement {
    Refinement(r.centroids, r.rounds + n, r.converged)
  }

  /** The iteration loop of `kMeansClustering`. */
  method RefineCentroids(pixels: seq<Rgb>, seeds: seq<Rgb>, maxIterations: nat)
    returns (centroids: seq<Rgb>, rounds: nat, converged: bool)
    requires |seeds| > 0
    ensures Refinement(centroids, rounds, converged) == Refine(pixels, seeds, maxIterations)
  {
    var a := new Rgb[|seeds|](i requires 0 <= i < |seeds| => seeds[i]);
    assert a[..] == seeds;
    rounds := 0;
    converged := false;
    while rounds < maxIterations
      invariant a.Length == |seeds| && rounds <= maxIterations
      invariant Later(Refine(pixels, a[..], maxIterations - rounds), rounds) == Refine(pixels, seeds, maxIterations)
      decreases maxIterations - rounds
    {
      var clusters := AssignClusters(pixels, a[..]);
      ghost var cs := a[..];
      var conv := UpdateCentroids(a, clusters);
      assert a[..] == Step(pixels, cs) && conv == StepConverged(pixels, cs);
      rounds := rounds + 1;
      if conv {
        converged := true;
        break;
      }
    }
    centroids := a[..];
  }

  // ---------------------------------------------------------------------------
  // Ordering by cluster size
  // ---------------------------------------------------------------------------

  /** `clusterSizes`: the number of pixels nearest to each centroid. */
  function Sizes(ps: seq<Rgb>, cs: seq<Rgb>): (sizes: seq<int>)
    requires |cs| > 0
    ensures |sizes| == |cs|
  {
    seq(|cs|, i requires 0 <= i < |cs| => |Members(ps, cs, i)|)
  }

  lemma {:induction false} TotalIncrement(ws: seq<int>, m: nat)
    requires m < |ws|
    ensures Total(ws[m := ws[m] + 1]) == Total(ws) + 1
  {
    if m > 0 {
      assert ws[m := ws[m] + 1][1..] == ws[1..][m - 1 := ws[1..][m - 1] + 1];
      TotalIncrement(ws[1..], m - 1);
    }
  }

  /** Every pixel is counted in exactly one cluster. */
  lemma {:induction false} SizesPartition(ps: seq<Rgb>, cs: seq<Rgb>)
    requires |cs| > 0
    ensures Total(Sizes(ps, cs)) == |ps|
    decreases |ps|
  {
    if |ps| == 0 {
      TotalZeroes(Sizes(ps, cs));
    } else {
      var init := ps[..|ps| - 1];
      var m := NearestIndex(ps[|ps| - 1], cs);
      SizesPartition(init, cs);
      SizesSnoc(ps, cs);
      TotalIncrement(Sizes(init, cs), m);
    }
  }

  /** One more pixel adds one to the size of its nearest centroid's cluster. */
  lemma SizesSnoc(ps: seq<Rgb>, cs: seq<Rgb>)
    requires |cs| > 0 && |ps| > 0
    ensures var m := NearestIndex(ps[|ps| - 1], cs);
      var before := Sizes(ps[..|ps| - 1], cs);
      Sizes(ps, cs) == before[m := before[m] + 1]
  {
    var m := NearestIndex(ps[|ps| - 1], cs);
    var before := Sizes(ps[..|ps| - 1], cs);
    var after := before[m := before[m] + 1];
    forall i | 0 <= i < |cs|
      ensures Sizes(ps, cs)[i] == after[i]
    {
      MembersCountSnoc(ps, cs, i);
    }
  }

  /** Cluster `i` of the first `n + 1` pixels: that of the first `n`, and
      pixel `n` when `i` is its nearest centroid. */
  lemma MembersPrefix(ps: seq<Rgb>, cs: seq<Rgb>, i: nat, n: nat)
    requires |cs| > 0 && n < |ps|
    ensures Members(ps[..n + 1], cs, i)
      == Members(ps[..n], cs, i) + if NearestIndex(ps[n], cs) == i then [ps[n]] else []
  {
    var q := ps[..n + 1];
    assert q[..n] == ps[..n];
  }

  lemma MembersCountSnoc(ps: seq<Rgb>, cs: seq<Rgb>, i: nat)
    requires |cs| > 0 && |ps| > 0
    ensures |Members(ps, cs, i)| == |Members(ps[..|ps| - 1], cs, i)| + if NearestIndex(ps[|ps| - 1], cs) == i then 1 else 0
  {
  }

  lemma {:induction false} TotalZeroes(ws: seq<int>)
    requires forall i :: 0 <= i < |ws| ==> ws[i] == 0
    ensures Total(ws) == 0
  {
    if |ws| > 0 {
      TotalZeroes(ws[1..]);
    }
  }

  /** The callback of `clusterSizes` for centroid `i`: one nearest-centroid
      scan per pixel, counting the pixels that settle on `i`. */
  method CountMembers(pixels: seq<Rgb>, centroids: seq<Rgb>, i: nat) returns (count: int)
    requires |centroids| > 0
    ensures count == |Members(pixels, centroids, i)|
  {
    count := 0;
    for n := 0 to |pixels|
      invariant count == |Members(pixels[..n], centroids, i)|
    {
      var minIdx := NearestCentroid(pixels[n], centroids);
      MembersPrefix(pixels, centroids, i, n);
      if minIdx == i {
        count := count + 1;
      }
    }
    assert pixels[..|pixels|] == pixels;
  }

  /** `clusterSizes`. */
  method ClusterSizes(pixels: seq<Rgb>, centroids: seq<Rgb>) returns (sizes: seq<int>)
    requires |centroids| > 0
    ensures sizes == Sizes(pixels, centroids)
  {
    sizes := [];
    for i := 0 to |centroids|
      invariant |sizes| == i
      invariant forall j :: 0 <= j < i ==> sizes[j] == |Members(pixels, centroids, j)|
    {
      var count := CountMembers(pixels, centroids, i);
      sizes := sizes + [count];
    }
  }

  /** The order of the stable sort by descending size: a larger cluster first,
      and between equal sizes the earlier centroid first. */
  predicate Before(sizes: seq<int>, a: nat, b: nat)
    requires a < |sizes| && b < |sizes|
  {
    sizes[a] > sizes[b] || (sizes[a] == sizes[b] && a < b)
  }

  /** Every index in `s` is below `n`. */
  predicate Below(s: seq<nat>, n: int) {
    forall i :: 0 <= i < |s| ==> s[i] < n
  }

  predicate SortedBySize(sizes: seq<int>, s: seq<nat>)
    requires Below(s, |sizes|)
  {
    forall i, j :: 0 <= i < j < |s| ==> Before(sizes, s[i], s[j])
  }

  /** One step of the stable sort: `x`, later than every index in `s`, goes
      after every index whose size is at least its own. */
  function InsertBySize(sizes: seq<int>, x: nat, s: seq<nat>): (r: seq<nat>)
    requires x < |sizes| && Below(s, x)
    ensures |r| == |s| + 1
    ensures Below(r, x + 1)
  {
    if |s| == 0 then [x]
    else if sizes[s[0]] >= sizes[x] then
      [s[0]] + InsertBySize(sizes, x, s[1..])
    else
      [x] + s
  }

  /** Inserting adds `x` and loses nothing. */
  lemma {:induction false} InsertBySizeContents(sizes: seq<int>, x: nat, s: seq<nat>)
    requires x < |sizes| && Below(s, x)
    ensures multiset(InsertBySize(sizes, x, s)) == multiset(s) + multiset{x}
  {
    if |s| > 0 {
      assert s == [s[0]] + s[1..];
      if sizes[s[0]] >= sizes[x] {
        InsertBySizeContents(sizes, x, s[1..]);
      }
    }
  }

  /** Inserting into a sorted sequence keeps it sorted. */
  lemma {:induction false} InsertSorted(sizes: seq<int>, x: nat, s: seq<nat>)
    requires x < |sizes| && Below(s, x) && SortedBySize(sizes, s)
    ensures SortedBySize(sizes, InsertBySize(sizes, x, s))
  {
    if |s| > 0 && sizes[s[0]] >= sizes[x] {
      var rest := InsertBySize(sizes, x, s[1..]);
      InsertSorted(sizes, x, s[1..]);
      InsertBySizeContents(sizes, x, s[1..]);
      forall j | 0 <= j < |rest| ensures Before(sizes, s[0], rest[j]) {
        assert rest[j] in multiset(rest);
        if rest[j] != x {
          assert rest[j] in s[1..];
        }
      }
      assert InsertBySize(sizes, x, s) == [s[0]] + rest;
    }
  }

  /** The indices `0 .. n - 1` in increasing order. */
  function Range(n: nat): (r: seq<nat>)
    ensures |r| == n && forall i :: 0 <= i < n ==> r[i] == i
  {
    seq(n, i => i)
  }

  /** `centroids.map(...).sort((a, b) => b.size - a.size)`, as a permutation of
      the indices `0 .. n - 1`. */
  function SizeOrder(sizes: seq<int>, n: nat): (r: seq<nat>)
    requires n <= |sizes|
    ensures |r| == n && multiset(r) == multiset(Range(n))
    ensures Below(r, n)
  {
    if n == 0 then []
    else
      assert Range(n) == Range(n - 1) + [n - 1];
      InsertBySizeContents(sizes, n - 1, SizeOrder(sizes, n - 1));
      InsertBySize(sizes, n - 1, SizeOrder(sizes, n - 1))
  }

  /** The size order puts larger clusters first and keeps equal sizes in
      index order. */
  lemma {:induction false} SizeOrderSorted(sizes: seq<int>, n: nat)
    requires n <= |sizes|
    ensures SortedBySize(sizes, SizeOrder(sizes, n))
  {
    if n > 0 {
      SizeOrderSorted(sizes, n - 1);
      InsertSorted(sizes, n - 1, SizeOrder(sizes, n - 1));
    }
  }

  /** `.map(x => x.centroid)`: the centroids in the given index order. */
  function Gather(cs: seq<Rgb>, order: seq<nat>): (r: seq<Rgb>)
    requires Below(order, |cs|)
    ensures |r| == |order|
  {
    if |order| == 0 then [] else [cs[order[0]]] + Gather(cs, order[1..])
  }

  lemma {:induction false} GatherIndex(cs: seq<Rgb>, order: seq<nat>)
    requires Below(order, |cs|)
    ensures forall i :: 0 <= i < |order| ==> Gather(cs, order)[i] == cs[order[i]]
  {
    if |order| > 0 {
      GatherIndex(cs, order[1..]);
    }
  }

  lemma GatherCons(cs: seq<Rgb>, i: nat, order: seq<nat>)
    requires i < |cs| && Below(order, |cs|)
    ensures multiset(Gather(cs, [i] + order)) == multiset{cs[i]} + multiset(Gather(cs, order))
  {
    assert ([i] + order)[1..] == order;
    assert Gather(cs, [i] + order) == [cs[i]] + Gather(cs, order);
  }

  lemma {:induction false} GatherInsert(cs: seq<Rgb>, sizes: seq<int>, x: nat, s: seq<nat>)
    requires |sizes| == |cs| && x < |sizes| && Below(s, x)
    ensures multiset(Gather(cs, InsertBySize(sizes, x, s))) == multiset(Gather(cs, s)) + multiset{cs[x]}
  {
    if |s| > 0 && sizes[s[0]] >= sizes[x] {
      GatherInsert(cs, sizes, x, s[1..]);
      var rest := InsertBySize(sizes, x, s[1..]);
      GatherCons(cs, s[0], rest);
      assert s == [s[0]] + s[1..];
      GatherCons(cs, s[0], s[1..]);
    } else if |s| > 0 {
      GatherCons(cs, x, s);
    }
  }

  /** Gathering along the size order rearranges the first `n` centroids. */
  lemma {:induction false} GatherSizeOrder(cs: seq<Rgb>, sizes: seq<int>, n: nat)
    requires |sizes| == |cs| && n <= |cs|
    ensures multiset(Gather(cs, SizeOrder(sizes, n))) == multiset(cs[..n])
  {
    if n > 0 {
      PrefixSnoc(cs, n);
      var prev := SizeOrder(sizes, n - 1);
      assert multiset(cs[..n]) == multiset(cs[..n - 1]) + multiset{cs[n - 1]};
      assert SizeOrder(sizes, n) == InsertBySize(sizes, n - 1, prev);
      GatherSizeOrder(cs, sizes, n - 1);
      GatherInsert(cs, sizes, n - 1, prev);
    }
  }

  lemma PrefixSnoc(s: seq<Rgb>, n: nat)
    requires 0 < n <= |s|
    ensures s[..n] == s[..n - 1] + [s[n - 1]]
  {
  }

  /** The centroids sorted by descending cluster size, ties in centroid order. */
  function SortBySize(cs: seq<Rgb>, sizes: seq<int>): (r: seq<Rgb>)
    requires |sizes| == |cs|
    ensures |r| == |cs| && multiset(r) == multiset(cs)
  {
    GatherSizeOrder(cs, sizes, |cs|);
    assert cs[..|cs|] == cs;
    Gather(cs, SizeOrder(sizes, |cs|))
  }

  /** The size order is a permutation of the centroid indices. */
  lemma SizeOrderIsPermutation(sizes: seq<int>)
    ensures var o := SizeOrder(sizes, |sizes|);
      |o| == |sizes| && forall e :: 0 <= e < |sizes| ==> e in o
  {
    var o := SizeOrder(sizes, |sizes|);
    assert |multiset(o)| == |multiset(Range(|sizes|))|;
    forall e | 0 <= e < |sizes| ensures e in o {
      assert Range(|sizes|)[e] == e;
      assert e in multiset(Range(|sizes|));
    }
  }

  // ---------------------------------------------------------------------------
  // The whole clustering
  // ---------------------------------------------------------------------------

  /** The centroids after seeding and refinement. */
  function FinalCentroids(pixels: seq<Rgb>, k: int, maxIterations: nat, random: nat -> real): (cs: seq<Rgb>)
    requires |pixels| > 0 && IsDrawSource(random)
    ensures |cs| > 0 && (|cs| <= k || |cs| == 1)
    ensures AllInByteRange(pixels) ==> AllInByteRange(cs)
  {
    var first := [pixels[FirstSeedIndex(|pixels|, random(0))]];
    SeedFromGrows(pixels, k, random, first);
    SeedFromPixels(pixels, k, random, first);
    var seeds := Seeds(pixels, k, random);
    assert AllInByteRange(pixels) ==> AllInByteRange(seeds) by {
      if AllInByteRange(pixels) {
        forall i | 0 <= i < |seeds| ensures InByteRange(seeds[i]) {
          assert seeds[i] in seeds;
        }
      }
    }
    Refine(pixels, seeds, maxIterations).centroids
  }

  /** The final centroids are the seeds after some `n <= maxIterations`
      rounds: either all `maxIterations` of them were run, or round `n` was
      the first in which no centroid moved by more than 1. */
  lemma FinalCentroidsIterate(pixels: seq<Rgb>, k: int, maxIterations: nat, random: nat -> real)
    requires |pixels| > 0 && IsDrawSource(random)
    ensures exists n: nat :: IteratedFrom(pixels, Seeds(pixels, k, random), maxIterations, n,
                                          FinalCentroids(pixels, k, maxIterations, random))
  {
    var seeds := Seeds(pixels, k, random);
    var r := Refine(pixels, seeds, maxIterations);
    RefineIterates(pixels, seeds, maxIterations);
    assert IteratedFrom(pixels, seeds, maxIterations, r.rounds, FinalCentroids(pixels, k, maxIterations, random));
  }

  /** `cs` is the result of `n` rounds from `seeds` that stop early only
      after the first converged round. */
  predicate IteratedFrom(pixels: seq<Rgb>, seeds: seq<Rgb>, maxIterations: nat, n: nat, cs: seq<Rgb>) {
    && n <= maxIterations
    && cs == Iterate(Round(pixels), seeds, n)
    && (n < maxIterations ==> n > 0 && Stable(pixels)(Iterate(Round(pixels), seeds, n - 1)))
    && forall j: nat :: j + 1 < n ==> !Stable(pixels)(Iterate(Round(pixels), seeds, j))
  }

  /** `kMeansClustering(pixels, k, maxIterations)`. */
  function KMeansPalette(pixels: seq<Rgb>, k: int, maxIterations: nat, random: nat -> real): (palette: seq<Rgb>)
    requires IsDrawSource(random)
    ensures |pixels| == 0 ==> palette == [Gray]
    ensures 0 < |pixels| <= k ==> palette == pixels
    ensures |palette| > 0
    ensures |pixels| > k ==> |palette| <= k || |palette| == 1
    ensures AllInByteRange(pixels) ==> AllInByteRange(palette)
  {
    if |pixels| == 0 then [Gray]
    else if |pixels| <= k then pixels
    else
      var cs := FinalCentroids(pixels, k, maxIterations, random);
      var r := SortBySize(cs, Sizes(pixels, cs));
      assert AllInByteRange(pixels) ==> AllInByteRange(r) by {
        if AllInByteRange(pixels) {
          forall i | 0 <= i < |r| ensures InByteRange(r[i]) {
            assert r[i] in multiset(cs);
            var j :| 0 <= j < |cs| && cs[j] == r[i];
          }
        }
      }
      r
  }

  /** With more pixels than `k`, the palette is the final centroids ranked by
      the number of pixels nearest to each: the size order is a permutation of
      the centroid indices, larger clusters first and equal sizes in centroid
      order. */
  lemma KMeansRanked(pixels: seq<Rgb>, k: int, maxIterations: nat, random: nat -> real)
    requires IsDrawSource(random) && |pixels| > k && |pixels| > 0
    ensures var cs := FinalCentroids(pixels, k, maxIterations, random);
      var palette := KMeansPalette(pixels, k, maxIterations, random);
      var sizes := Sizes(pixels, cs);
      var o := SizeOrder(sizes, |cs|);
      |o| == |cs| && (forall e :: 0 <= e < |cs| ==> e in o) &&
      (forall i :: 0 <= i < |cs| ==> o[i] < |cs| && palette[i] == cs[o[i]]) &&
      (forall i, j :: 0 <= i < j < |cs| ==>
         sizes[o[i]] > sizes[o[j]] || (sizes[o[i]] == sizes[o[j]] && o[i] < o[j]))
  {
    var cs := FinalCentroids(pixels, k, maxIterations, random);
    SizeOrderIsPermutation(Sizes(pixels, cs));
    SizeOrderSorted(Sizes(pixels, cs), |cs|);
    GatherIndex(cs, SizeOrder(Sizes(pixels, cs), |cs|));
  }

  /** `kMeansClustering`. */
  method KMeansClustering(pixels: seq<Rgb>, k: int, maxIterations: nat, random: nat -> real)
    returns (palette: seq<Rgb>)
    requires IsDrawSource(random)
    ensures palette == KMeansPalette(pixels, k, maxIterations, random)
  {
    if |pixels| == 0 {
      return [Gray];
    }
    if |pixels| <= k {
      return pixels;
    }
    var seeds := SeedCentroids(pixels, k, random);
    SeedFromGrows(pixels, k, random, [pixels[FirstSeedIndex(|pixels|, random(0))]]);
    var centroids, _, _ := RefineCentroids(pixels, seeds, maxIterations);
    var sizes := ClusterSizes(pixels, centroids);
    palette := SortBySize(centroids, sizes);
  }
}

# Cover-art colour sorting, Discogs import and site helpers, in Dafny

This project models the logic of a personal portfolio site's vinyl collection and gallery:

- **The colour sorter** (`scripts/sort-by-color.ts`).
  - Every release of the saved Discogs collection gets a palette of up to four dominant colours of its cover, found by k-means.
  - The releases are then laid out in a five-column grid. The most vivid cover comes first. Each following cell takes the remaining release whose palette is closest to the cells already placed beside it.
  - The palettes are stripped again before the collection is saved.
- **The Discogs fetcher** (`scripts/fetch-discogs.ts`).
  - It reads the collection page by page, retrying rate-limited requests after a wait, and optionally truncates it.
  - It builds one record per release. A tracklist saved by an earlier run is reused when it is not empty; otherwise the tracklist is fetched and normalised.
- **The preferences endpoint** (`app/api/save-preferences/route.ts`). It validates and trims a track choice and upserts it into the stored preferences. It is disabled in production.
- **The gallery listing** (`lib/gallery.ts`). It keeps the image files of a directory listing and numbers them from 1.
- **`withBasePath`** (`lib/utils.ts`). It prefixes a public asset path with the site's base path.

## Modules

| file | module | models |
|---|---|---|
| `wrappers.dfy` | `Wrappers` | `Option`, `Result` |
| `strings.dfy` | `Strings` | the JavaScript string operations used: `trim`, `startsWith`, `endsWith`, `lastIndexOf`, `slice`, ASCII `toLowerCase`, `join` |
| `records.dfy` | `Records` | the saved release and track records |
| `color.dfy` | `ColorModel` | `rgbToHsl`, `makeColor`, `colorDistance` |
| `kmeans.dfy` | `KMeans` | `rgbDistance`, `kMeansClustering` |
| `palette.dfy` | `Palettes` | `paletteDistance` |
| `fill.dfy` | `GreedyFill` | the greedy `while (remaining.length > 0)` loop of `sortByGrid`, with a generic pick rule |
| `grid.dfy` | `GridSequencer` | `sortByGrid`: start item, neighbours, candidate scores, the scan |
| `sortbycolor.dfy` | `SortByColor` | `extractPalette` after the download, and `main` of the sort script |
| `discogs.dfy` | `Discogs` | `fetchReleaseTracks`, `discogsFetchJson`, `fetchAllCollectionItems`, and `main` of the fetch script |
| `prefs.dfy` | `SavePreferences` | `isSavePreferencesBody`, `POST` |
| `gallery.dfy` | `Gallery` | `getGalleryImages` |
| `basepath.dfy` | `BasePath` | `withBasePath` |

## How the model stands in for the environment

- **`Math.sqrt`** is a parameter `sqrt: real -> real`.
  - The distance lemmas assume only that it is non-negative and maps 0 to 0 (`ColorModel.SqrtLike`).
  - k-means compares squared distances. The square root is monotone, so every comparison of `rgbDistance` has the same outcome, and the seeding weights `minDist * minDist` are the squared sums themselves.
- **`Math.random`** is a draw source `random: nat -> real` with values in [0, 1). The j-th call for an image returns `random(j)`, and release `i` of the collection uses the draws `random(i)`.
- **HTTP replies, the page listing, the release requests, the stored files and the directory listing** are parameters:
  - `discogsFetchJson` gets `respond(a)`, the outcome of attempt `a`: a reply with its status, `Retry-After` header and parsed body (`None` when the body is not JSON), or `Rejected` when `fetch` itself fails;
  - the pagination gets `fetchPage(p)`, the outcome of the request for page `p`;
  - the merge gets `detail(id)`, the outcome of the release request;
  - the endpoint gets the parsed body, or `None` when it is not JSON, and the stored preferences, or `None` when they cannot be read;
  - the gallery gets the listing, or `None` when the directory cannot be read.
- **Sleeps are not performed.** `discogsFetchJson` returns the waits it would sleep, so their lengths are part of its contract.
- **Numbers** are `real`.
  - `Infinity` in `paletteDistance` and the grid scores is the `Infinite` case of `Palettes.Distance`.
  - The `NaN` start score of an empty palette is `None`.
  - A JSON number is finite, infinite or `NaN` (`SavePreferences.Number`).
- **Loops with state.**
  - The in-place overwrite of `centroids[i]` is an `array` update (`KMeans.UpdateCentroids`).
  - The preferences dictionary is a class field updated by `PreferenceStore.Put`.
  - The other loops are methods with invariants, each proved equal to a specification function. The lemmas are stated about those functions.

## Observations from the proofs

- A `releaseId` of `"__proto__"` is answered 200 but stores nothing unless the stored file already has that key: `prefs[releaseId] = ...` then calls the setter inherited from `Object.prototype` and creates no property for `JSON.stringify` to write (`SavePreferences.HandleOutcome`).
- The "top-right" reference at the start of a row (`sorted[position - GRID_COLUMNS + (GRID_COLUMNS - 1)]`) is `sorted[position - 1]`: the last cell of the previous row. So the previous cell is always a neighbour of every later cell, as the left neighbour or as this reference (`GridSequencer.PreviousIsNeighbor`).
- A score is divided by the neighbour count, where the count is 1 for left, 1 for top and 0.5 for the wrap reference. It is not divided by the sum of the weights 1.2, 1.0 and 0.5. So a candidate at the same distance `d` from every neighbour scores 1.2 d in the first row, d at the start of a later row, and 1.1 d elsewhere (`GridSequencer.ScoreEqualDistances`).

## Model

| member | source | states |
|---|---|---|
| ColorModel.RgbToHsl | scripts/sort-by-color.ts:33-62 | hue in [0, 360), saturation and lightness in [0, 100]; an achromatic colour has hue and saturation 0, and saturation is 0 only for achromatic colours; lightness is the mean of the scaled extremes in percent |
| ColorModel.ScaledExtremes | scripts/sort-by-color.ts:34-39 | scaling the channels by 1/255 scales the maximum and minimum; maximum equals minimum exactly when the three channels are equal |
| ColorModel.SaturationBounds | scripts/sort-by-color.ts:44-46 | both saturation formulas divide by a positive number and give a value in (0, 1] |
| ColorModel.HueFractionBounds | scripts/sort-by-color.ts:48-58 | the hue fraction of the `switch (max)` lies in [0, 1) |
| ColorModel.HueFraction | scripts/sort-by-color.ts:48-58 | the `switch (max)` hue fraction; its range is stated by `HueFractionBounds` and its sectors by `HueFractionSector` |
| ColorModel.HueOf | scripts/sort-by-color.ts:44-61 | for a non-gray colour the hue is the hue fraction of the scaled channels times 360 |
| ColorModel.HueFractionSector | scripts/sort-by-color.ts:48-58 | the hue fraction lies in the sector of the channel holding the maximum |
| ColorModel.HueSector | scripts/sort-by-color.ts:44-61 | red-dominant hues lie within 60 degrees of 0, green-dominant in [60, 180], blue-dominant in [180, 300] |
| ColorModel.MakeColor | scripts/sort-by-color.ts:65-68 | the colour keeps its RGB channels and carries the HSL values derived from them, in range |
| ColorModel.GrayIsAchromatic | scripts/sort-by-color.ts:212 | the gray fallback colour has hue 0, saturation 0 and lightness 128/255 in percent |
| ColorModel.HueDelta | scripts/sort-by-color.ts:228-231 | the circular hue difference is between 0 and 180 for hues in [0, 360) |
| ColorModel.WeightedSquare | scripts/sort-by-color.ts:236-241 | the weighted sum under the square root is never negative |
| ColorModel.ColorDistance | scripts/sort-by-color.ts:221-242 | `colorDistance` with the square root as a parameter; its symmetry, sign and self-distance are stated by the three lemmas below |
| ColorModel.ColorDistanceSymmetric | scripts/sort-by-color.ts:221-242 | `colorDistance(c1, c2) == colorDistance(c2, c1)` |
| ColorModel.ColorDistanceNonNegative | scripts/sort-by-color.ts:221-242 | colour distances are never negative |
| ColorModel.ColorDistanceSelf | scripts/sort-by-color.ts:221-242 | a colour is at distance 0 from itself |
| KMeans.SqDist | scripts/sort-by-color.ts:76-81 | the squared `rgbDistance` is non-negative and zero exactly for equal points |
| KMeans.ArgMinFirst | scripts/sort-by-color.ts:119-127 | the scan with strict `<` settles on a minimum, and every earlier value is strictly larger |
| KMeans.ArgMinFirstPrefix | scripts/sort-by-color.ts:121-126 | one more scan step replaces the index only on a strictly smaller value |
| KMeans.DistancesTo | scripts/sort-by-color.ts:121-122 | entry `i` is the squared distance to centroid `i` |
| KMeans.NearestIndex | scripts/sort-by-color.ts:119-127 | a pixel goes to the first nearest centroid |
| KMeans.NearestCentroid | scripts/sort-by-color.ts:119-127 | the inner loop computes the first nearest centroid |
| KMeans.MinSqDist | scripts/sort-by-color.ts:96 | `Math.min` over the centroids: at most the distance to each centroid, never negative |
| KMeans.MinSqDistZero | scripts/sort-by-color.ts:95-98 | a pixel has weight 0 exactly when it already is a centroid |
| KMeans.SeedWeights | scripts/sort-by-color.ts:95-98 | weight `i` is pixel `i`'s squared distance to its nearest centroid |
| KMeans.Total | scripts/sort-by-color.ts:99 | the total of non-negative weights is non-negative |
| KMeans.TotalZero | scripts/sort-by-color.ts:99-101 | a zero total of non-negative weights means every weight is zero |
| KMeans.Pick | scripts/sort-by-color.ts:104-110 | the sampling loop always stops at an index of the weights when the draw is below the total |
| KMeans.PickBracket | scripts/sort-by-color.ts:103-110 | inverse-CDF sampling: the picked index is where the running total first reaches the draw |
| KMeans.PickPositive | scripts/sort-by-color.ts:103-110 | a positive draw never picks a zero weight |
| KMeans.Threshold | scripts/sort-by-color.ts:103 | `Math.random() * totalDist` lies in [0, total), and is positive for a positive draw |
| KMeans.FirstSeedIndex | scripts/sort-by-color.ts:91 | `Math.floor(Math.random() * pixels.length)` is an index of the pixels |
| KMeans.NextSeed | scripts/sort-by-color.ts:103-110 | a seeding round appends exactly one centroid and keeps the earlier ones |
| KMeans.SeedFrom | scripts/sort-by-color.ts:94-111 | the seeding rounds from the given centroids; stated by `SeedFromGrows`, `SeedFromPixels`, `SeedFromEarlyStop`, `SeedFromFresh` and the loop `SeedCentroids` |
| KMeans.SeedFromGrows | scripts/sort-by-color.ts:94-111 | seeding only appends centroids and stops at `k` of them or earlier |
| KMeans.SeedFromPixels | scripts/sort-by-color.ts:91-111 | every seeded centroid is one of the input pixels |
| KMeans.Seeds | scripts/sort-by-color.ts:88-111 | the k-means++ seeds: at least one and at most `k` (or exactly one) |
| KMeans.SeedFromEarlyStop | scripts/sort-by-color.ts:94-101 | seeding stops before `k` centroids only when every pixel is a centroid (total squared distance 0) |
| KMeans.PickedIsFresh | scripts/sort-by-color.ts:103-110 | a positive draw picks a pixel that is not yet a centroid |
| KMeans.NextSeedFresh | scripts/sort-by-color.ts:103-110 | a round with a positive draw adds a pixel that is not yet a centroid |
| KMeans.SeedFromFresh | scripts/sort-by-color.ts:94-111 | each centroid seeded with a positive draw differs from all earlier centroids |
| KMeans.SampleIndex | scripts/sort-by-color.ts:103-110 | the subtract-and-test loop stops at the inverse-CDF index |
| KMeans.SeedRound | scripts/sort-by-color.ts:95-110 | one seeding round: it exits exactly when the total is 0, and otherwise appends the drawn pixel |
| KMeans.SeedFromStops | scripts/sort-by-color.ts:94-101 | seeding ends at `k` centroids or at a zero total |
| KMeans.SeedFromContinues | scripts/sort-by-color.ts:94-110 | otherwise seeding goes on from the centroids with one pixel appended |
| KMeans.SeedCentroids | scripts/sort-by-color.ts:87-111 | the seeding loop computes the k-means++ seeds |
| KMeans.Members | scripts/sort-by-color.ts:116-129 | cluster `i` holds exactly the pixels whose nearest centroid is `i`, in pixel order |
| KMeans.Clusters | scripts/sort-by-color.ts:116-129 | one cluster per centroid, each its members |
| KMeans.MembersPrefix | scripts/sort-by-color.ts:118-128 | one more pixel is pushed onto the cluster of its nearest centroid only |
| KMeans.AssignClusters | scripts/sort-by-color.ts:116-129 | the assignment loop builds exactly those clusters |
| KMeans.ChannelSumBounds | scripts/sort-by-color.ts:137-139 | a channel sum lies between the count times any lower and upper channel bound |
| KMeans.ChannelSum | scripts/sort-by-color.ts:137-139 | the `reduce` sum of one channel over a cluster; `ChannelSumBounds` bounds it by the count times the channel's bounds, and `MeanWithinRange` builds on it |
| KMeans.RoundedMean | scripts/sort-by-color.ts:137-139 | `Math.round(sum / n)`: the nearest integer, halves rounded up |
| KMeans.RoundedMeanBounds | scripts/sort-by-color.ts:137-139 | the rounded mean of values in [lo, hi] stays in [lo, hi] |
| KMeans.Mean | scripts/sort-by-color.ts:136-140 | the rounded channel means of a cluster; `MeanWithinRange` bounds each channel by the cluster's range |
| KMeans.MeanWithinRange | scripts/sort-by-color.ts:136-140 | each channel of a cluster's new centroid lies within the cluster's range of that channel |
| KMeans.MeanInByteRange | scripts/sort-by-color.ts:136-140 | the mean of byte pixels is a byte triple |
| KMeans.Updated | scripts/sort-by-color.ts:133-146 | an empty cluster keeps its centroid |
| KMeans.Converged | scripts/sort-by-color.ts:132-144 | no non-empty cluster's mean is more than 1 from its centroid; `ConvergedIffStill` states it as "no centroid moved by more than 1" |
| KMeans.ConvergedIffStill | scripts/sort-by-color.ts:132-148 | a round converges exactly when no centroid moves by more than 1 |
| KMeans.UpdateCentroids | scripts/sort-by-color.ts:131-148 | the in-place update loop overwrites each centroid of a non-empty cluster by its mean and reports convergence |
| KMeans.Step | scripts/sort-by-color.ts:114-148 | a round keeps the number of centroids |
| KMeans.StepInByteRange | scripts/sort-by-color.ts:114-148 | a round keeps byte-valued centroids byte-valued |
| KMeans.StepConverged | scripts/sort-by-color.ts:132-148 | the `converged` flag after one round; `StepConvergedIffStill` states it holds exactly when the round moves no centroid by more than 1 |
| KMeans.StepConvergedIffStill | scripts/sort-by-color.ts:132-148 | a round converges exactly when no centroid moves by more than 1 between the old and the new centroids |
| KMeans.Refine | scripts/sort-by-color.ts:114-149 | at most `maxIterations` rounds are run, fewer only after a converged round; the count of centroids is kept and byte triples stay byte triples; `RefineIterates` ties the result to the rounds |
| KMeans.RunIterates | scripts/sort-by-color.ts:114-149 | for any round and convergence test, the loop's centroids are those after the rounds run (`Iterate`), it reports convergence exactly when the last round run converged, no earlier round converged, and it stops short of the budget only after a converged round |
| KMeans.Round | scripts/sort-by-color.ts:115-146 | the loop body as a function of the centroids; `RefineIsRun` and `RefineIterates` state that the refinement applies it round after round |
| KMeans.Stable | scripts/sort-by-color.ts:132-148 | the `if (converged) break` test as a function of the centroids; `StepConvergedIffStill` states its meaning and `RefineIterates` states that the loop stops at its first success |
| KMeans.Iterate | scripts/sort-by-color.ts:114-149 | the centroids after `n` rounds; `RunIterates` and `RefineIterates` state that the loop's result is the iterate after the rounds it ran |
| KMeans.Run | scripts/sort-by-color.ts:114-149 | `for (iter < maxIterations) { … if (converged) break }` for any round and test; `RunIterates` states its result, round count and convergence flag |
| KMeans.RefineIsRun | scripts/sort-by-color.ts:114-149 | the refinement is that loop with the k-means assignment/update round (`Round`) and its convergence test (`Stable`) |
| KMeans.RefineIterates | scripts/sort-by-color.ts:114-149 | the refined centroids are the centroids after the rounds run; convergence is reported exactly when the last round run had no centroid move by more than 1, and no earlier round converged |
| KMeans.RefineCentroids | scripts/sort-by-color.ts:113-149 | the iteration loop computes that refinement |
| KMeans.Sizes | scripts/sort-by-color.ts:152-167 | one cluster size per centroid |
| KMeans.SizesPartition | scripts/sort-by-color.ts:152-167 | the cluster sizes add up to the number of pixels: each pixel is counted once |
| KMeans.SizesSnoc | scripts/sort-by-color.ts:153-166 | one more pixel adds one to the size of its nearest centroid only |
| KMeans.MembersCountSnoc | scripts/sort-by-color.ts:154-165 | the count for centroid `i` grows by one exactly when the new pixel's nearest centroid is `i` |
| KMeans.CountMembers | scripts/sort-by-color.ts:153-166 | the counting callback computes the size of cluster `i` |
| KMeans.ClusterSizes | scripts/sort-by-color.ts:152-167 | `clusterSizes` holds every cluster's size |
| KMeans.InsertBySize | scripts/sort-by-color.ts:169-172 | one step of the stable sort adds one index below the bound |
| KMeans.InsertBySizeContents | scripts/sort-by-color.ts:169-172 | that step adds the index and loses none |
| KMeans.InsertSorted | scripts/sort-by-color.ts:171 | that step keeps the order descending by size, equal sizes in index order |
| KMeans.SizeOrder | scripts/sort-by-color.ts:169-172 | the stable sort permutes the centroid indices |
| KMeans.SizeOrderSorted | scripts/sort-by-color.ts:171 | the order is descending by size and stable for equal sizes |
| KMeans.SizeOrderIsPermutation | scripts/sort-by-color.ts:169-172 | every centroid index occurs in the order |
| KMeans.Gather | scripts/sort-by-color.ts:172 | one centroid per index |
| KMeans.GatherIndex | scripts/sort-by-color.ts:172 | entry `i` is the centroid at index `order[i]` |
| KMeans.GatherInsert | scripts/sort-by-color.ts:169-172 | one sort step adds exactly that centroid to the gathered ones |
| KMeans.GatherSizeOrder | scripts/sort-by-color.ts:169-174 | the sorted centroids rearrange the centroids |
| KMeans.SortBySize | scripts/sort-by-color.ts:169-174 | the sorted centroids are a permutation of the centroids |
| KMeans.FinalCentroids | scripts/sort-by-color.ts:87-149 | after seeding and refinement there is at least one centroid and at most `k` (or exactly one), all byte triples |
| KMeans.FinalCentroidsIterate | scripts/sort-by-color.ts:87-149 | the final centroids are the seeds after `n <= maxIterations` rounds, where `n < maxIterations` only when round `n` is the first in which no centroid moved by more than 1 |
| KMeans.KMeansPalette | scripts/sort-by-color.ts:83-175 | `[[128,128,128]]` for no pixels; the pixels themselves for 1 to `k` pixels; otherwise at most `k` centroids (or exactly one); never empty; always byte triples |
| KMeans.KMeansRanked | scripts/sort-by-color.ts:151-174 | with more than `k` pixels the palette is the final centroids ranked by cluster size, larger first and ties in centroid order |
| KMeans.KMeansClustering | scripts/sort-by-color.ts:83-175 | the method computes that palette |
| Palettes.MinDistanceIsMinimum | scripts/sort-by-color.ts:253-257 | the inner minimum is at most every distance and equal to one of them |
| Palettes.MinDistance | scripts/sort-by-color.ts:253-257 | the distance from a colour to the nearest colour of a palette; stated by `MinDistanceIsMinimum` |
| Palettes.SumMin | scripts/sort-by-color.ts:251-259 | the sum of the nearest distances of one palette's colours; stated by `SumMinNonNegative` and `SumMinCovered` |
| Palettes.SoftHausdorff | scripts/sort-by-color.ts:246-273 | `paletteDistance`; stated by `SoftHausdorffInfinite`, `SoftHausdorffSymmetric`, `SoftHausdorffNonNegative` and `SoftHausdorffSameColors` |
| Palettes.Mean | scripts/sort-by-color.ts:272 | `sum / length`; `MeanNonNegative` keeps it non-negative and `GridSequencer.MeanOfBounded` keeps an average of percentages a percentage |
| Palettes.SoftHausdorffInfinite | scripts/sort-by-color.ts:247 | the distance is `Infinity` exactly when a palette is empty |
| Palettes.SoftHausdorffSymmetric | scripts/sort-by-color.ts:246-273 | `paletteDistance(p1, p2) == paletteDistance(p2, p1)` |
| Palettes.MinDistanceNonNegative | scripts/sort-by-color.ts:253-257 | the distance to the nearest colour is never negative |
| Palettes.SumMinNonNegative | scripts/sort-by-color.ts:251-259 | the sum of nearest distances is never negative |
| Palettes.SoftHausdorffNonNegative | scripts/sort-by-color.ts:246-273 | the distance of two non-empty palettes is finite and non-negative |
| Palettes.MinDistanceMember | scripts/sort-by-color.ts:253-257 | a colour occurring in the palette is at distance 0 from it |
| Palettes.SumMinCovered | scripts/sort-by-color.ts:251-259 | a palette whose colours all occur in the other has nearest-distance sum 0 |
| Palettes.SoftHausdorffSameColors | scripts/sort-by-color.ts:246-273 | two non-empty palettes with the same colours, in particular `paletteDistance(p, p)`, are at distance 0 |
| Palettes.NearestForward | scripts/sort-by-color.ts:253-257 | the first inner loop finds the nearest distance |
| Palettes.NearestBackward | scripts/sort-by-color.ts:263-267 | the second inner loop finds the nearest distance, with `colorDistance(c1, c2)` |
| Palettes.PaletteDistance | scripts/sort-by-color.ts:246-273 | the accumulator loops compute the soft Hausdorff distance |
| GridSequencer.StartIndex | scripts/sort-by-color.ts:286-299 | the start item has a maximal score and comes before every other item of strictly smaller score; a `NaN` first score keeps index 0 |
| GridSequencer.StartScore | scripts/sort-by-color.ts:288-291 | average saturation times `100 - |avgL - 50|`, undefined (`NaN`) for an empty palette; `StartIndex` states the maximal choice |
| GridSequencer.SumSaturation | scripts/sort-by-color.ts:288 | `palette.reduce((sum, c) => sum + c.s, 0)`; `SumsBounds` bounds it by 0 and 100 per colour |
| GridSequencer.SumLightness | scripts/sort-by-color.ts:289 | `palette.reduce((sum, c) => sum + c.l, 0)`; `SumsBounds` bounds it by 0 and 100 per colour |
| GridSequencer.SumsBounds | scripts/sort-by-color.ts:288-289 | for colours with percentage saturation and lightness, both sums lie between 0 and 100 times the palette size |
| GridSequencer.MeanOfBounded | scripts/sort-by-color.ts:288-289 | the average of a palette's percentages is a percentage |
| GridSequencer.StartScoreBounds | scripts/sort-by-color.ts:288-291 | the start score is `NaN` exactly for an empty palette; otherwise both averages are percentages and the score lies in [0, 10000] |
| GridSequencer.ScaledPercentage | scripts/sort-by-color.ts:291 | a percentage times a factor in [0, 100] lies in [0, 10000] |
| GridSequencer.ScoreOf | scripts/sort-by-color.ts:286-296 | the start score of item `i`; `StartIndex` states the choice made on it |
| GridSequencer.Greater | scripts/sort-by-color.ts:298 | `currScore > bestScore`, false when either side is `NaN`; `StartIndex` states that no item scores `Greater` than the chosen one and every earlier one scores less or is `NaN` |
| GridSequencer.NeighborsAt | scripts/sort-by-color.ts:306-312 | every neighbour reference points to an earlier cell |
| GridSequencer.NeighborGeometry | scripts/sort-by-color.ts:306-343 | left is `p - 1` exactly when `p % 5 > 0`, in the same row; top is `p - 5` exactly when `p >= 5`, one row up in the same column; the wrap reference exists exactly in column 0 of a later row and is `p - 1`, the last column of the row above |
| GridSequencer.NeighborCases | scripts/sort-by-color.ts:306-343 | the three neighbourhood shapes of a cell after the first |
| GridSequencer.Combine | scripts/sort-by-color.ts:319-347 | the weighted distances divided by the neighbour count; stated by `CombineFirstRow`, `CombineRowStart` and `CombineInside` |
| GridSequencer.NeighborCount | scripts/sort-by-color.ts:320-340 | the counts 1, 1 and 0.5 of :325, :331 and :340 (not the weights 1.2, 1 and 0.5); `PreviousIsNeighbor` keeps it positive and `CombineRowStart`, `CombineInside` and `ScoreEqualDistances` state the division by it |
| GridSequencer.Weighted | scripts/sort-by-color.ts:324-339 | `paletteDistance(...) * w`, `Infinity` staying `Infinity`; `CombinationInfinite` states when the result is infinite |
| GridSequencer.Add | scripts/sort-by-color.ts:319-339 | `score += ...`, infinite when either side is; stated by `CombinationInfinite` and `ScoreNormalised` |
| GridSequencer.DivideBy | scripts/sort-by-color.ts:345-347 | `score /= neighborCount`; stated by `CombinationInfinite`, `CombinationEqual` and `ScoreNormalised` |
| GridSequencer.NeighborDistance | scripts/sort-by-color.ts:323-341 | the palette distance to one neighbour, nothing when the cell lacks it; `NeighborDistanceCases` states it |
| GridSequencer.NeighborDistanceCases | scripts/sort-by-color.ts:323-341 | no neighbour adds 0; otherwise the distance is infinite exactly when the candidate's or the neighbour's palette is empty, and non-negative when finite |
| GridSequencer.CombineFirstRow | scripts/sort-by-color.ts:323-347 | a cell with only a left neighbour scores 1.2 times that distance |
| GridSequencer.CombineRowStart | scripts/sort-by-color.ts:329-347 | top weighted 1 and wrap weighted 0.5, divided by 1.5 |
| GridSequencer.CombineInside | scripts/sort-by-color.ts:323-347 | left weighted 1.2 and top weighted 1, divided by 2 |
| GridSequencer.ScoreFirstRow | scripts/sort-by-color.ts:317-347 | in the first row a candidate is scored against the previous cell only |
| GridSequencer.ScoreRowStart | scripts/sort-by-color.ts:317-347 | at the start of a later row it is scored against the cell above and the previous cell |
| GridSequencer.ScoreInside | scripts/sort-by-color.ts:317-347 | elsewhere it is scored against the previous cell and the cell above |
| GridSequencer.Score | scripts/sort-by-color.ts:306-347 | a candidate's score against the placed neighbours; stated by `ScoreCases`, `ScoreInfinite` and `ScoreNormalised` |
| GridSequencer.ScoreCases | scripts/sort-by-color.ts:317-347 | the score in all three shapes, in terms of the two palette distances |
| GridSequencer.CombinationInfinite | scripts/sort-by-color.ts:324-346 | a combined score is infinite exactly when a distance going into it is |
| GridSequencer.PreviousIsNeighbor | scripts/sort-by-color.ts:311-346 | every later cell has a positive neighbour count, and the previous cell is always a neighbour |
| GridSequencer.ScoreInfinite | scripts/sort-by-color.ts:317-347 | the score is `Infinity` exactly when the candidate's, the previous cell's or the above cell's palette is empty |
| GridSequencer.ScoreNormalised | scripts/sort-by-color.ts:344-347 | with non-empty palettes the score is the weighted sum divided by the neighbour count |
| GridSequencer.CombinationEqual | scripts/sort-by-color.ts:324-346 | equal distances `d` give 1.2 d, d and 1.1 d in the three shapes |
| GridSequencer.ScoreEqualDistances | scripts/sort-by-color.ts:324-347 | a candidate at distance `d` from every cell scores 1.2 d, d or 1.1 d: a division by counts, not by weights |
| GridSequencer.Scores | scripts/sort-by-color.ts:317-353 | one score per remaining candidate |
| GridSequencer.FirstMin | scripts/sort-by-color.ts:314-353 | the scan index is one of the scanned positions |
| GridSequencer.FirstMinIsFirstMinimum | scripts/sort-by-color.ts:349-352 | no scanned score is below the picked one, and every earlier score is strictly above it |
| GridSequencer.ScanStep | scripts/sort-by-color.ts:349-352 | a strictly smaller score takes over, and any other score leaves the best in place |
| GridSequencer.BestIndex | scripts/sort-by-color.ts:314-353 | the picked candidate is in the pool |
| GridSequencer.BestIndexFirstMinimal | scripts/sort-by-color.ts:314-353 | the picked candidate has a minimal score, and every candidate before it scores strictly more |
| GridSequencer.PickIsBest | scripts/sort-by-color.ts:355 | the pick rule is valid and picks the best index |
| GridSequencer.PickValid | scripts/sort-by-color.ts:355 | the pick rule always names a position of a non-empty pool |
| GridSequencer.Start | scripts/sort-by-color.ts:301-302 | one release is placed and the other releases form the pool |
| GridSequencer.GridOrder | scripts/sort-by-color.ts:279-360 | the output has as many releases as the input |
| GridSequencer.GridOrderUnfold | scripts/sort-by-color.ts:280-359 | for two or more releases the order is the greedy fill from the start state |
| GridSequencer.StartInventory | scripts/sort-by-color.ts:301-302 | the start state holds exactly the input releases |
| GridSequencer.GridOrderPermutation | scripts/sort-by-color.ts:280-359 | the output is a permutation of the input, and an input of at most one release is returned unchanged |
| GridSequencer.GridOrderStart | scripts/sort-by-color.ts:286-301 | position 0 holds the first release of maximal start score |
| GridSequencer.GridOrderPool | scripts/sort-by-color.ts:355-356 | before position `p` is filled, the pool holds exactly the releases not among the first `p` |
| GridSequencer.GridOrderStep | scripts/sort-by-color.ts:305-356 | position `p` holds the pool release that the scan picks against the first `p` placed releases |
| GridSequencer.GridOrderGreedy | scripts/sort-by-color.ts:314-356 | no pool release scores strictly below the one placed at `p`, and every pool release before it scores strictly above it |
| GridSequencer.CandidateScore | scripts/sort-by-color.ts:318-347 | the loop body's score accumulation computes the candidate's score |
| GridSequencer.BestCandidate | scripts/sort-by-color.ts:314-353 | the `for` loop over the pool computes the best index |
| GridSequencer.SortByGrid | scripts/sort-by-color.ts:279-360 | the method computes the grid order |
| GreedyFill.RemoveAt | scripts/sort-by-color.ts:356 | `splice(i, 1)` removes one element |
| GreedyFill.RemoveAtContents | scripts/sort-by-color.ts:356 | the removed element and the rest make up the pool, and the rest keep their order |
| GreedyFill.Advance | scripts/sort-by-color.ts:355-356 | one round moves one item from the pool to the placed sequence |
| GreedyFill.AdvanceN | scripts/sort-by-color.ts:305-357 | `k` rounds move `k` items |
| GreedyFill.AdvanceStep | scripts/sort-by-color.ts:355-356 | round `k` appends the picked item of the previous pool and removes it from the pool |
| GreedyFill.AdvanceKeeps | scripts/sort-by-color.ts:355-356 | a round loses and adds no item |
| GreedyFill.AdvanceNPermutes | scripts/sort-by-color.ts:305-357 | any number of rounds only rearranges the items |
| GreedyFill.AdvanceNExtends | scripts/sort-by-color.ts:305-357 | later rounds only append to what earlier rounds placed |
| GreedyFill.AdvanceNPosition | scripts/sort-by-color.ts:305-357 | each position of the final placement holds the item picked in its round |
| GreedyFill.AdvanceNPool | scripts/sort-by-color.ts:305-357 | the pool before a round holds exactly the items not yet placed in the final placement |
| GreedyFill.Fill | scripts/sort-by-color.ts:305-359 | the final placement holds as many items as were placed or pooled |
| GreedyFill.FillPool | scripts/sort-by-color.ts:305-357 | from a single placed item, the pool before position `p` is the input minus the first `p` placed |
| GreedyFill.FillStep | scripts/sort-by-color.ts:305-357 | from a single placed item, position `p` holds the item picked given the first `p` placed |
| SortByColor.ToColors | scripts/sort-by-color.ts:206 | one colour per centroid |
| SortByColor.ToColorsDerived | scripts/sort-by-color.ts:206 | each colour has its centroid's channels and the HSL values derived from them |
| SortByColor.ExtractPaletteShape | scripts/sort-by-color.ts:181-213 | a palette is never empty; an image of more than four pixels gives at most four colours, and one of one to four pixels gives one colour per pixel; a failed or empty image gives the gray fallback; every colour carries the HSL values of its byte channels |
| SortByColor.ExtractPalette | scripts/sort-by-color.ts:181-213 | the palette of one cover: at most four colours, never empty, gray when the cover cannot be read |
| SortByColor.StripAttach | scripts/sort-by-color.ts:379-388 | stripping the palettes gives back the releases read, unchanged and in order; every attached palette is non-empty |
| SortByColor.AttachPalettes | scripts/sort-by-color.ts:377-391 | one entry per release with the palette of its cover; `StripAttach` and `AttachSnoc` state it |
| SortByColor.StripPalettes | scripts/sort-by-color.ts:426 | the releases without their palettes; `StripConcat`, `StripRemove` and `StripPermutation` state it |
| SortByColor.StripConcat | scripts/sort-by-color.ts:426 | stripping works entry by entry |
| SortByColor.StripRemove | scripts/sort-by-color.ts:426 | stripping commutes with removing one entry |
| SortByColor.StripPermutation | scripts/sort-by-color.ts:426 | stripping keeps a rearrangement a rearrangement |
| SortByColor.SortedCollectionPermutes | scripts/sort-by-color.ts:394-427 | the saved collection holds exactly the releases read; one or no release is saved as read |
| SortByColor.SortedCollectionAt | scripts/sort-by-color.ts:394-427 | saved position `p` holds the release the grid order put at `p`, without its palette |
| SortByColor.SortedCollection | scripts/sort-by-color.ts:377-427 | the saved collection; `SortedCollectionPermutes` and `SortedCollectionAt` state it |
| SortByColor.ExtractPaletteFrom | scripts/sort-by-color.ts:181-213 | k-means on the pixels, then one colour per centroid, or the gray fallback |
| SortByColor.AttachSnoc | scripts/sort-by-color.ts:379-388 | each loop iteration appends the next release with its palette |
| SortByColor.ExtractAll | scripts/sort-by-color.ts:377-391 | the extraction loop pairs every release with its palette, in order |
| SortByColor.SortCollection | scripts/sort-by-color.ts:377-427 | `main`'s extraction, sort and strip compute the saved collection |
| Strings.TrimStartIndex | scripts/fetch-discogs.ts:126-128 | the leading whitespace ends at a non-whitespace character |
| Strings.TrimEndIndex | scripts/fetch-discogs.ts:126-128 | the trailing whitespace starts after a non-whitespace character |
| Strings.Trim | app/api/save-preferences/route.ts:60-62 | the result is empty exactly for blank strings, and otherwise starts and ends with non-whitespace |
| Strings.TrimIsInfix | app/api/save-preferences/route.ts:60-62 | trimming removes only whitespace, and only from the two ends |
| Strings.TrimIdempotent | app/api/save-preferences/route.ts:78-81 | trimming twice is trimming once |
| Strings.LastIndexOf | lib/gallery.ts:18 | -1 when the character is absent, otherwise its last occurrence |
| Strings.SliceFrom | lib/gallery.ts:18 | `slice(start)` is a suffix of the string, as long as the string minus the start position clamped to it, a negative start counting from the end |
| Strings.ToLower | lib/gallery.ts:18 | lower-casing keeps the length and maps each character |
| Strings.Join | scripts/fetch-discogs.ts:180 | `join`; `JoinSnoc` and `JoinLength` state it |
| Strings.JoinSnoc | scripts/fetch-discogs.ts:180 | appending a part adds one separator before it |
| Strings.JoinLength | scripts/fetch-discogs.ts:180 | the joined length is the parts plus one separator between each two |
| Discogs.NormaliseAll | scripts/fetch-discogs.ts:125-129 | one normalised track per entry |
| Discogs.NormaliseAllConcat | scripts/fetch-discogs.ts:125-129 | the map works entry by entry |
| Discogs.DropUntitledConcat | scripts/fetch-discogs.ts:130 | the title filter works entry by entry |
| Discogs.NormaliseTracksFused | scripts/fetch-discogs.ts:121-130 | a missing track list gives no tracks; otherwise the filter/map/filter chain keeps, in order, the tracks with a non-empty trimmed title, normalised |
| Discogs.NormalisedTrimmed | scripts/fetch-discogs.ts:124-130 | every kept track has a non-empty title and no field with whitespace at either end |
| Discogs.NormaliseTracks | scripts/fetch-discogs.ts:121-130 | the filter/map/filter chain; `NormaliseTracksFused` states what it keeps |
| Discogs.Normalised | scripts/fetch-discogs.ts:123-130 | the chain as one pass; `NormalisedTrimmed` states that the kept tracks are titled and trimmed |
| Discogs.IsTrack | scripts/fetch-discogs.ts:124 | `(t.type_ ?? "track") === "track"`; `KeepTracksMembers` states the filter keeps exactly those entries |
| Discogs.KeepTracks | scripts/fetch-discogs.ts:124 | the first `filter`; `KeepTracksMembers` states what it keeps and `NormaliseTracksFused` its place in the chain |
| Discogs.KeepTracksMembers | scripts/fetch-discogs.ts:124 | the filter keeps exactly the entries that are tracks and never lengthens the list |
| Discogs.Normalise | scripts/fetch-discogs.ts:125-129 | the `map` to trimmed fields with missing fields as ""; `NormalisedTrimmed` states the kept tracks are trimmed |
| Discogs.DropUntitled | scripts/fetch-discogs.ts:130 | the last `filter`; `DropUntitledMembers` states what it keeps and `DropUntitledConcat` that it keeps order |
| Discogs.DropUntitledMembers | scripts/fetch-discogs.ts:130 | the filter keeps exactly the tracks with a non-empty title and never lengthens the list |
| Discogs.WaitMs | scripts/fetch-discogs.ts:77-79 | the wait after a 429 reply; `WaitSchedule` states it |
| Discogs.Waits | scripts/fetch-discogs.ts:76-84 | one wait per attempt of the range |
| Discogs.WaitsIndex | scripts/fetch-discogs.ts:76-84 | wait `j` is the wait for attempt `j` |
| Discogs.WaitsSnoc | scripts/fetch-discogs.ts:76-84 | one more rate-limited attempt adds its wait at the end |
| Discogs.WaitSchedule | scripts/fetch-discogs.ts:76-84 | after a 429 reply to attempt `j` the wait is `Retry-After` times 1000 ms, or `j + 1` minutes without the header |
| Discogs.DefaultTotalWait | scripts/fetch-discogs.ts:76-84 | without `Retry-After`, `a` rate-limited attempts wait `30000 * a * (a + 1)` ms in all |
| Discogs.DefaultRetriesExhausted | scripts/fetch-discogs.ts:63-93 | three 429 replies without `Retry-After` wait 1, 2 and 3 minutes and then fail as rate limited |
| Discogs.FetchFrom | scripts/fetch-discogs.ts:63-93 | the attempts of `discogsFetchJson`; `FetchFromSettles` states its result and waits |
| Discogs.Settle | scripts/fetch-discogs.ts:65-89 | the end of an attempt that is not a 429; `SettleCases` and `FetchFromSettles` state each case |
| Discogs.SettleCases | scripts/fetch-discogs.ts:65-89 | an attempt that is not rate limited succeeds exactly on an OK reply with a JSON body and returns that body; a rejected `fetch` is exactly `NetworkError`, an OK reply without JSON exactly `InvalidBody`, and a non-OK reply exactly `HttpError` with its status |
| Discogs.FetchFromSettles | scripts/fetch-discogs.ts:63-93 | after the rate-limited attempts, an OK reply returns its body, or fails when the body is not JSON; a failed request or another status fails at once; after `retries` 429 replies the request fails as rate limited; a wait follows each 429 reply, the last one included |
| Discogs.DiscogsFetchJson | scripts/fetch-discogs.ts:63-93 | the attempt loop computes that result and those waits |
| Discogs.CollectUniform | scripts/fetch-discogs.ts:101-113 | pages that all report `n` pages are read up to `n` and concatenated in order |
| Discogs.CollectionListing | scripts/fetch-discogs.ts:95-116 | with `n` pages reported throughout, the listing is pages 1 to `n` in order; one page reported gives page 1's releases; a failed first page fails the listing |
| Discogs.CollectLatest | scripts/fetch-discogs.ts:101-113 | the count for the next request is the one the latest page reported: the listing runs up to the first page reporting at most its own number, in page order |
| Discogs.CollectFails | scripts/fetch-discogs.ts:101-113 | a page that fails before the listing ends fails the listing with its error |
| Discogs.CollectionListingLatest | scripts/fetch-discogs.ts:95-116 | with `m` the first page reporting at most `m` pages, the listing is pages 1 to `m` when they load, and otherwise the error of the first of them that fails |
| Discogs.Collect | scripts/fetch-discogs.ts:95-116 | the pages from one on; `CollectLatest`, `CollectFails` and `CollectionListingLatest` state it |
| Discogs.FetchAllCollectionItems | scripts/fetch-discogs.ts:95-116 | the `while (page <= pages)` loop computes that listing |
| Discogs.Limit | scripts/fetch-discogs.ts:153-156 | the result is a prefix of the items; a positive `MAX_RELEASES` keeps the first that many (all when fewer); otherwise every item is kept |
| Discogs.IndexLastWins | scripts/fetch-discogs.ts:159-163 | the index holds exactly the numbered ids, each mapped to the last saved record with that id |
| Discogs.IndexOf | scripts/fetch-discogs.ts:159-163 | `existingById` after the loop; `IndexLastWins` states it and `BuildIndex` computes it |
| Discogs.BuildIndex | scripts/fetch-discogs.ts:159-163 | the loop builds that index |
| Discogs.Cover | scripts/fetch-discogs.ts:182 | `cover_image`, else `thumb`, else "" |
| Discogs.ArtistNames | scripts/fetch-discogs.ts:180 | the artist names joined with ", "; `RecordForFields` uses it |
| Discogs.MergeAllShape | scripts/fetch-discogs.ts:165-200 | the merge succeeds exactly when every record can be built, and then gives one record per item in item order |
| Discogs.MergeAllFirstError | scripts/fetch-discogs.ts:165-200 | the first failing item ends the run with its error |
| Discogs.MergeAll | scripts/fetch-discogs.ts:165-200 | the merge loop's records; `MergeAllShape` and `MergeAllFirstError` state it |
| Discogs.RecordForOk | scripts/fetch-discogs.ts:174-188 | a record can be built exactly when a saved record is reused or the release request succeeds |
| Discogs.RecordForFields | scripts/fetch-discogs.ts:174-197 | the id is kept; instance, title, artists joined with ", ", year (0 when absent) and cover come from the item; a reused record keeps its saved tracks, and any other gets the normalised fetched tracks |
| Discogs.RecordFor | scripts/fetch-discogs.ts:174-197 | the record of one item; `RecordForOk` and `RecordForFields` state it |
| Discogs.Reuses | scripts/fetch-discogs.ts:174-175 | the reuse test `previous && previous.tracks.length > 0`; `RecordForOk` and `RecordForFields` state what each branch pushes |
| Discogs.MergeOne | scripts/fetch-discogs.ts:168-199 | the loop body builds the item's record |
| Discogs.MergeReleases | scripts/fetch-discogs.ts:165-200 | the merge loop builds all records, or fails with the first error |
| Discogs.FetchCollectionShape | scripts/fetch-discogs.ts:152-200 | a successful run gives one record per processed item, in collection order, with the item's release id, and at most `MAX_RELEASES` when that is positive |
| Discogs.FetchCollection | scripts/fetch-discogs.ts:152-200 | the records a run writes; `FetchCollectionShape` states it |
| Discogs.FetchDiscogs | scripts/fetch-discogs.ts:144-205 | `main` computes that run |
| SavePreferences.IsSavePreferencesBodyExactly | app/api/save-preferences/route.ts:26-36 | accepts exactly the objects with a string `releaseId`, a number `selectedTrackIndex`, a string `selectedTrackTitle` and, when present, a string `customSearchQuery` |
| SavePreferences.IsSavePreferencesBody | app/api/save-preferences/route.ts:26-36 | the body check; `IsSavePreferencesBodyExactly` states what it accepts |
| SavePreferences.TypeOf | app/api/save-preferences/route.ts:27-32 | `typeof`, with `null` and arrays as "object"; `ObjectTest`, `GetPresent` and `IsSavePreferencesBodyExactly` state the checks built on it |
| SavePreferences.Truthy | app/api/save-preferences/route.ts:27 | `!!body`; `ObjectTest` states that with the `typeof` test it admits exactly arrays and objects |
| SavePreferences.ObjectTest | app/api/save-preferences/route.ts:27 | `!body \|\| typeof body !== "object"` passes exactly arrays and objects, refusing `null` and scalars |
| SavePreferences.Get | app/api/save-preferences/route.ts:28-32 | reading a property of the body; `GetPresent` states it |
| SavePreferences.GetPresent | app/api/save-preferences/route.ts:28-32 | a property is present exactly on an object having that key, with that key's value, and reads as `undefined` otherwise |
| SavePreferences.IsFinite | app/api/save-preferences/route.ts:65 | `Number.isFinite`; `IndexTest` and `ValidateAccepts` state the test it forms |
| SavePreferences.BelowMinusOne | app/api/save-preferences/route.ts:65 | `n < -1`, true for `-Infinity` and false for `NaN`; `IndexTest` and `ValidateAccepts` state the test it forms |
| SavePreferences.IndexTest | app/api/save-preferences/route.ts:65 | the index check lets through exactly the finite numbers from -1 up |
| SavePreferences.PreferenceStore.constructor | app/api/save-preferences/route.ts:85-91 | absent or unreadable preferences read as empty |
| SavePreferences.PreferenceStore.Put | app/api/save-preferences/route.ts:93-97 | the assignment upserts the entry in place; a `"__proto__"` release id that is not an own key adds nothing |
| SavePreferences.UpsertOnlyKey | app/api/save-preferences/route.ts:93-97 | the release id maps to the new entry, except that an unassignable `"__proto__"` leaves the preferences as they were; every other key and its entry are unchanged |
| SavePreferences.UpsertSize | app/api/save-preferences/route.ts:93-97 | a key is added exactly when the release had no preferences yet and its id is not an unassignable `"__proto__"` |
| SavePreferences.Upsert | app/api/save-preferences/route.ts:93 | `prefs[releaseId] = entry` as the written file sees it; `UpsertOnlyKey` and `UpsertSize` state it |
| SavePreferences.Assignable | app/api/save-preferences/route.ts:93 | whether the assignment creates an own property: every key but a `"__proto__"` that is not already one; `UpsertOnlyKey`, `UpsertSize` and `HandleOutcome` state both cases |
| SavePreferences.ValidateAccepts | app/api/save-preferences/route.ts:53-81 | a body passes exactly when it has the right shape, a finite index of at least -1, and a non-blank release id and title; the stored values are trimmed, and a search query is stored only when it is a non-blank string |
| SavePreferences.ValidateRefusal | app/api/save-preferences/route.ts:53-76 | a refusal is always 400; a wrong shape is "Missing required fields."; a non-finite index is "Invalid selectedTrackIndex." |
| SavePreferences.ValidateTrimmed | app/api/save-preferences/route.ts:60-81 | the stored strings have no whitespace left to trim |
| SavePreferences.SearchQuery | app/api/save-preferences/route.ts:78-81 | the stored search query; `ValidateAccepts` states it |
| SavePreferences.Validate | app/api/save-preferences/route.ts:53-81 | the checks in order; `ValidateAccepts`, `ValidateRefusal` and `ValidateTrimmed` state them |
| SavePreferences.HandleOutcome | app/api/save-preferences/route.ts:38-102 | production always gets 403 and nothing is written; otherwise a request saves exactly when its body is JSON that passes, it is answered 200 exactly then, the release id then maps to the new entry (a `"__proto__"` id the stored preferences lack leaves them as they were), and every other key is unchanged |
| SavePreferences.Handle | app/api/save-preferences/route.ts:38-102 | `POST`'s reply and written preferences; `HandleOutcome` states them |
| SavePreferences.Post | app/api/save-preferences/route.ts:38-102 | `POST` with its in-place upsert computes that outcome |
| Gallery.ExtensionShape | lib/gallery.ts:14 | each image extension is a dot and three or more characters, with no further dot |
| Gallery.Extension | lib/gallery.ts:18 | the lower-cased name from its last dot; `IsImageSuffix` and `NoDotNotImage` state what it keeps |
| Gallery.IsImage | lib/gallery.ts:17-20 | the filter's test; `IsImageSuffix` states it |
| Gallery.Filter | lib/gallery.ts:16-20 | `files.filter(keep)`; `FilterConcat` and `FilterMembers` state that it keeps exactly the passing files, in order |
| Gallery.Images | lib/gallery.ts:16-20 | the files the filter keeps; `ImagesOfListing` states it |
| Gallery.IsImageSuffix | lib/gallery.ts:17-20 | a file is kept exactly when its lower-cased name ends with one of the image extensions |
| Gallery.NoDotNotImage | lib/gallery.ts:18 | a name without a dot is never kept |
| Gallery.FilterConcat | lib/gallery.ts:16-20 | the filter works file by file, keeping the order |
| Gallery.FilterMembers | lib/gallery.ts:16-20 | the kept files are exactly the listed files that pass |
| Gallery.ImagesOfListing | lib/gallery.ts:16-20 | the kept images of a split listing are those of its parts in order, and are exactly the listed image files |
| Gallery.GalleryNumbering | lib/gallery.ts:9-30 | ids are 1 to n in listing order; each URL is the asset prefix followed by the file name as listed; an unreadable directory gives no entries |
| Gallery.GalleryImages | lib/gallery.ts:9-30 | `getGalleryImages`; `GalleryNumbering` states it |
| BasePath.WithBasePath | lib/utils.ts:12-17 | the result always ends with the path; an unset or empty base path returns the path; otherwise the result starts with the base path, adding one "/" only when the path lacks one |
| Strings.StartsWith | lib/utils.ts:15 | `s.startsWith(p)`; `StartsWithConcat` states it holds exactly when `s` is `p` followed by more |
| Strings.StartsWithConcat | lib/utils.ts:15 | `s.startsWith(p)` exactly when `s == p + t` for some `t` |
| Strings.EndsWith | lib/utils.ts:14-16 | the suffix test with which `WithBasePath` states that each branch ends with the path; `EndsWithConcat` states it holds exactly when `s` is something followed by `p` |
| Strings.EndsWithConcat | lib/utils.ts:14-16 | the suffix test holds exactly when `s == t + p` for some `t` |
| BasePath.WithBasePathAbsolute | lib/utils.ts:15-16 | with a base path set, the result is the base path followed by the path made absolute |

## Left out

- Downloading and decoding covers (`fetch` and `sharp` in `extractPalette`) is not modelled. The result is an input: the pixels, or `None` for the gray fallback.
- The loop that turns sharp's raw buffer into pixels is not modelled. Decoded pixels are taken to be byte triples.
- Logging, the console grid preview of the sort script, and the per-item delays are not modelled; they produce output only.
- Reading and writing `data/discogs-collection.json` and `data/track-preferences.json` is not modelled. The file contents read are inputs, and the contents written are results.
- IEEE floating point is not modelled. Arithmetic is on `real`, with no rounding.
- `Math.sqrt` is a parameter. Lemmas need only non-negativity and `sqrt(0) == 0`, so results that depend on its exact values (concrete distances) are not stated.
- `Math.random` is not modelled; its draws are the parameter `random`.
- `ColorModel.RgbToHsl`: the `switch (max)` compares floats for equality. The model compares the reals exactly.
- `Strings.ToLower`: only ASCII letters are lower-cased, whereas JavaScript's `toLowerCase` is Unicode-aware.
- `Discogs.WaitMs`: a `Retry-After` header that is not a number (JavaScript would wait `NaN` ms, which `setTimeout` treats as 0) is not modelled. An absent or empty header is `None`.
- `Discogs.DiscogsFetchJson`: the request headers are not modelled, in particular the `Authorization` token sent only when a token is set. The body of a non-OK reply, read only for the error message, is not modelled either; nor is the kind of error a failed `fetch` or `res.json()` raises, which is `NetworkError` or `InvalidBody` here.
- `Discogs.FetchAllCollectionItems`: the caller must bound the page counts the server reports (`Bounded`). Otherwise the source's loop need not terminate.
- Every call site of `discogsFetchJson` is abstracted into `fetchPage` and `detail`, which return its final outcome.
- `Discogs.Limit`: `MAX_RELEASES` is taken to be an integer. A non-numeric setting (`NaN`) or a fractional one is not modelled.
- `Discogs.NormaliseTracksFused`: a `tracklist` that is not an array is treated like a missing one (`None`). Entries are assumed to be objects with optional string fields.
- `Discogs.IndexLastWins`: saved records are either numbered records or records without a numeric id. A saved file that is not an object with a `releases` array reads as no saved records, as `readExistingOutput` returns `null`.
- `SavePreferences.PreferenceStore.constructor`: a stored file whose JSON is not an object of entries is not modelled. It is taken to read as a map or as `None`.
- `SavePreferences.HandleOutcome`: the `prefs` object is rebuilt from a map, so JavaScript's key order in the written file is not modelled.
- `KMeans.ClusterSizes`: the source's outer `centroids.map` is modelled as a loop calling `CountMembers`, because a method cannot be called inside a sequence comprehension. The sizes are the same.
- `KMeans.KMeansPalette`: `k` is always `PALETTE_SIZE`, which is 4, in the script. Lemmas hold for any `k`.
- `SortByColor.SortCollection`: `fetchedAt` is copied through unchanged by the source. Being a plain copy, it is not modelled.
- The `cn` helper of `lib/utils.ts` is a call into `clsx` and `tailwind-merge`, which are not part of this model.

/**
 * The driver of the colour sorter (`main` in the sort script): every release
 * gets the palette of its cover, the releases are put in grid order, and the
 * palettes are stripped again before the collection is saved.
 */
module SortByColor {
  import opened Wrappers
  import opened Records
  import opened ColorModel
  import opened KMeans
  import opened GreedyFill
  import opened GridSequencer

  /** `PALETTE_SIZE`: the number of dominant colours asked of k-means. */
  const PaletteSize: int := 4

  /** The default `maxIterations` of `kMeansClustering`. */
  const MaxIterations: nat := 20

  /** What fetching and decoding a cover yields: the raw pixels, or `None`
      when the download or the decoding failed. */
  type Image = Option<seq<Rgb>>

  /** Decoded pixels are 8-bit channels. */
  predicate Decoded(image: Image) {
    image.Some? ==> AllInByteRange(image.value)
  }

  /** `centroids.map(([r, g, b]) => makeColor(r, g, b))`. */
  function ToColors(centroids: seq<Rgb>): (palette: seq<Color>)
    requires AllInByteRange(centroids)
    ensures |palette| == |centroids|
  {
    seq(|centroids|, i requires 0 <= i < |centroids| =>
      MakeColor(centroids[i].r, centroids[i].g, centroids[i].b))
  }

  /** Each colour carries the channels of its centroid and the HSL values
      derived from them. */
  lemma ToColorsDerived(centroids: seq<Rgb>)
    requires AllInByteRange(centroids)
    ensures forall i :: 0 <= i < |centroids| ==>
      var c := ToColors(centroids)[i];
      && c.r == centroids[i].r && c.g == centroids[i].g && c.b == centroids[i].b
      && IsDerived(c) && HslInRange(Hsl(c.h, c.s, c.l))
  {
  }

  /** `extractPalette`: the k-means palette of the pixels turned into colours,
      or the single gray colour when the image could not be had. */
  function ExtractPalette(image: Image, random: nat -> real): (palette: seq<Color>)
    requires Decoded(image) && IsDrawSource(random)
  {
    if image.None? then [MakeColor(128, 128, 128)]
    else ToColors(KMeansPalette(image.value, PaletteSize, MaxIterations, random))
  }

  /** A palette is never empty and has at most `PALETTE_SIZE` colours unless
      the image had that few pixels or fewer; a failed image gives the gray
      fallback, an image without pixels gives the gray centroid as well; every
      colour is a byte triple with its own hue, saturation and lightness. */
  lemma ExtractPaletteShape(image: Image, random: nat -> real)
    requires Decoded(image) && IsDrawSource(random)
    ensures var palette := ExtractPalette(image, random);
      && 0 < |palette|
      && (image.Some? && |image.value| > PaletteSize ==> |palette| <= PaletteSize)
      && (image.Some? && |image.value| <= PaletteSize && |image.value| > 0 ==> |palette| == |image.value|)
      && (image.None? || |image.value| == 0 ==> palette == [MakeColor(128, 128, 128)])
      && (forall c :: c in palette ==> IsDerived(c) && HslInRange(Hsl(c.h, c.s, c.l)))
  {
    if image.Some? {
      var centroids := KMeansPalette(image.value, PaletteSize, MaxIterations, random);
      ToColorsDerived(centroids);
      if |image.value| == 0 {
        assert centroids == [Gray];
      }
    }
  }

  /** The releases with their palettes (`releasesWithPalettes`); release `i`
      uses cover `images[i]` and draws `random(i)`. */
  function AttachPalettes(releases: seq<Release>, images: seq<Image>, random: nat -> nat -> real): (entries: seq<Entry<Release>>)
    requires |images| == |releases|
    requires forall i :: 0 <= i < |images| ==> Decoded(images[i]) && IsDrawSource(random(i))
  {
    seq(|releases|, i requires 0 <= i < |releases| => Entry(releases[i], ExtractPalette(images[i], random(i))))
  }

  /** `sorted.map(({ palette, ...release }) => release)`. */
  function StripPalettes(entries: seq<Entry<Release>>): (releases: seq<Release>) {
    seq(|entries|, i requires 0 <= i < |entries| => entries[i].release)
  }

  /** Stripping undoes attaching: the records come back unchanged and in order. */
  lemma StripAttach(releases: seq<Release>, images: seq<Image>, random: nat -> nat -> real)
    requires |images| == |releases|
    requires forall i :: 0 <= i < |images| ==> Decoded(images[i]) && IsDrawSource(random(i))
    ensures StripPalettes(AttachPalettes(releases, images, random)) == releases
    ensures forall e :: e in AttachPalettes(releases, images, random) ==> |e.palette| > 0
  {
    var entries := AttachPalettes(releases, images, random);
    forall i | 0 <= i < |entries|
      ensures |entries[i].palette| > 0
    {
      ExtractPaletteShape(images[i], random(i));
    }
  }

  lemma StripConcat(a: seq<Entry<Release>>, b: seq<Entry<Release>>)
    ensures StripPalettes(a + b) == StripPalettes(a) + StripPalettes(b)
  {
  }

  lemma StripRemove(b: seq<Entry<Release>>, j: nat)
    requires j < |b|
    ensures multiset(StripPalettes(b)) == multiset(StripPalettes(RemoveAt(b, j))) + multiset{b[j].release}
  {
    assert b == b[..j] + [b[j]] + b[j + 1..];
    StripConcat(b[..j] + [b[j]], b[j + 1..]);
    StripConcat(b[..j], [b[j]]);
    StripConcat(b[..j], b[j + 1..]);
  }

  /** Stripping keeps a rearrangement a rearrangement: entries with the same
      multiset of entries give the same multiset of records. */
  lemma {:induction false} StripPermutation(a: seq<Entry<Release>>, b: seq<Entry<Release>>)
    requires multiset(a) == multiset(b)
    ensures multiset(StripPalettes(a)) == multiset(StripPalettes(b))
    decreases |a|
  {
    if |a| > 0 {
      var x := a[0];
      assert x in multiset(b);
      var j :| 0 <= j < |b| && b[j] == x;
      RemoveAtContents(a, 0);
      RemoveAtContents(b, j);
      RemoveSame(multiset(RemoveAt(a, 0)), multiset(RemoveAt(b, j)), x);
      StripPermutation(RemoveAt(a, 0), RemoveAt(b, j));
      StripRemove(a, 0);
      StripRemove(b, j);
    } else {
      assert b == [];
    }
  }

  lemma RemoveSame<E>(a: multiset<E>, b: multiset<E>, x: E)
    requires a + multiset{x} == b + multiset{x}
    ensures a == b
  {
    forall e
      ensures a[e] == b[e]
    {
      assert (a + multiset{x})[e] == (b + multiset{x})[e];
    }
  }

  /** The saved collection: the records in grid order of their palettes. */
  function SortedCollection(releases: seq<Release>, images: seq<Image>, random: nat -> nat -> real, sqrt: real -> real): seq<Release>
    requires |images| == |releases|
    requires forall i :: 0 <= i < |images| ==> Decoded(images[i]) && IsDrawSource(random(i))
  {
    StripPalettes(GridOrder(AttachPalettes(releases, images, random), sqrt))
  }

  /** The saved collection holds exactly the records read, each unchanged,
      and one or no record is saved as it was read. */
  lemma SortedCollectionPermutes(releases: seq<Release>, images: seq<Image>, random: nat -> nat -> real, sqrt: real -> real)
    requires |images| == |releases|
    requires forall i :: 0 <= i < |images| ==> Decoded(images[i]) && IsDrawSource(random(i))
    ensures multiset(SortedCollection(releases, images, random, sqrt)) == multiset(releases)
    ensures |releases| <= 1 ==> SortedCollection(releases, images, random, sqrt) == releases
  {
    var entries := AttachPalettes(releases, images, random);
    GridOrderPermutation(entries, sqrt);
    StripPermutation(GridOrder(entries, sqrt), entries);
    StripAttach(releases, images, random);
  }

  /** The saved record at position `p` is the release whose palette the grid
      order put there. */
  lemma SortedCollectionAt(releases: seq<Release>, images: seq<Image>, random: nat -> nat -> real, sqrt: real -> real, p: nat)
    requires |images| == |releases| && p < |releases|
    requires forall i :: 0 <= i < |images| ==> Decoded(images[i]) && IsDrawSource(random(i))
    ensures SortedCollection(releases, images, random, sqrt)[p] == GridOrder(AttachPalettes(releases, images, random), sqrt)[p].release
  {
  }

  /** `extractPalette` after the download: k-means on the pixels, then one
      `makeColor` per centroid. */
  method ExtractPaletteFrom(image: Image, random: nat -> real) returns (palette: seq<Color>)
    requires Decoded(image) && IsDrawSource(random)
    ensures palette == ExtractPalette(image, random)
  {
    if image.None? {
      return [MakeColor(128, 128, 128)];
    }
    var centroids := KMeansClustering(image.value, PaletteSize, MaxIterations, random);
    palette := ToColors(centroids);
  }

  lemma AttachSnoc(releases: seq<Release>, images: seq<Image>, random: nat -> nat -> real, i: nat)
    requires |images| == |releases| && i < |releases|
    requires forall i :: 0 <= i < |images| ==> Decoded(images[i]) && IsDrawSource(random(i))
    ensures AttachPalettes(releases[..i + 1], images[..i + 1], random)
      == AttachPalettes(releases[..i], images[..i], random) + [Entry(releases[i], ExtractPalette(images[i], random(i)))]
  {
  }

  /** The extraction loop of `main`, one cover after the other. */
  method ExtractAll(releases: seq<Release>, images: seq<Image>, random: nat -> nat -> real)
    returns (releasesWithPalettes: seq<Entry<Release>>)
    requires |images| == |releases|
    requires forall i :: 0 <= i < |images| ==> Decoded(images[i]) && IsDrawSource(random(i))
    ensures releasesWithPalettes == AttachPalettes(releases, images, random)
  {
    releasesWithPalettes := [];
    for i := 0 to |releases|
      invariant releasesWithPalettes == AttachPalettes(releases[..i], images[..i], random)
    {
      var palette := ExtractPaletteFrom(images[i], random(i));
      AttachSnoc(releases, images, random, i);
      releasesWithPalettes := releasesWithPalettes + [Entry(releases[i], palette)];
    }
    assert releases[..|releases|] == releases && images[..|images|] == images;
  }

  /** `main` between reading and writing the collection file. */
  method SortCollection(releases: seq<Release>, images: seq<Image>, random: nat -> nat -> real, sqrt: real -> real)
    returns (output: seq<Release>)
    requires |images| == |releases|
    requires forall i :: 0 <= i < |images| ==> Decoded(images[i]) && IsDrawSource(random(i))
    ensures output == SortedCollection(releases, images, random, sqrt)
  {
    var releasesWithPalettes := ExtractAll(releases, images, random);
    var sorted := SortByGrid(releasesWithPalettes, sqrt);
    output := StripPalettes(sorted);
  }
}

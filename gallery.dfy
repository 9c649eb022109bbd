/**
 * The gallery listing: the image files of the gallery directory, numbered
 * from 1 in listing order, each with its public URL.
 */
module Gallery {
  import opened Wrappers
  import opened Strings

  /** One gallery entry. */
  datatype GalleryItem = GalleryItem(id: int, imageUrl: string)

  const ImageExtensions: seq<string> := [".jpg", ".jpeg", ".png", ".gif", ".webp"]

  /** The public URL prefix of the gallery files. */
  const AssetPrefix: string := "/asset/life-images/"

  /** `file.toLowerCase().slice(file.lastIndexOf("."))`. */
  function Extension(file: string): string {
    SliceFrom(ToLower(file), LastIndexOf(file, '.'))
  }

  predicate IsImage(file: string) {
    Extension(file) in ImageExtensions
  }

  /** `files.filter(keep)`. */
  function Filter(files: seq<string>, keep: string -> bool): seq<string> {
    if |files| == 0 then []
    else (if keep(files[0]) then [files[0]] else []) + Filter(files[1..], keep)
  }

  /** The files the filter keeps, in listing order. */
  function Images(files: seq<string>): seq<string> {
    Filter(files, IsImage)
  }

  /** `getGalleryImages`, `listing` being the directory listing (`None` when
      it cannot be read). */
  function GalleryImages(listing: Option<seq<string>>): seq<GalleryItem> {
    var images := Images(listing.GetOr([]));
    seq(|images|, i requires 0 <= i < |images| => GalleryItem(i + 1, AssetPrefix + images[i]))
  }

  /** Each extension is a dot followed by at least three characters, none of
      them a dot. */
  lemma ExtensionShape(e: string)
    requires e in ImageExtensions
    ensures |e| >= 4 && e[0] == '.'
    ensures forall k :: 1 <= k < |e| ==> e[k] != '.'
  {
  }

  lemma ToLowerDot(c: char)
    ensures ToLowerChar(c) == '.' <==> c == '.'
  {
  }

  /** A file is kept exactly when its lower-cased name ends with one of the
      image extensions: the extension then starts at the last dot. */
  lemma IsImageSuffix(file: string)
    ensures IsImage(file) <==> exists e :: e in ImageExtensions && EndsWith(ToLower(file), e)
  {
    var lower := ToLower(file);
    var k := LastIndexOf(file, '.');
    if IsImage(file) {
      var e := Extension(file);
      ExtensionShape(e);
      assert k >= 0;
      assert lower[|lower| - |e|..] == e;
    }
    if e :| e in ImageExtensions && EndsWith(lower, e) {
      ExtensionShape(e);
      var d := |file| - |e|;
      assert lower[d] == e[0];
      ToLowerDot(file[d]);
      forall j | d < j < |file|
        ensures file[j] != '.'
      {
        assert lower[j] == e[j - d];
        ToLowerDot(file[j]);
      }
      assert k == d;
      assert Extension(file) == e;
    }
  }

  /** A name without a dot is never kept: the slice from -1 is at most one
      character long. */
  lemma NoDotNotImage(file: string)
    requires '.' !in file
    ensures !IsImage(file)
  {
    assert |Extension(file)| <= 1;
  }

  /** The filter works file by file: a listing split in two keeps the kept
      files of each part, in order. */
  lemma {:induction false} FilterConcat(a: seq<string>, b: seq<string>, keep: string -> bool)
    ensures Filter(a + b, keep) == Filter(a, keep) + Filter(b, keep)
    decreases |a|
  {
    if |a| > 0 {
      assert (a + b)[1..] == a[1..] + b;
      FilterConcat(a[1..], b, keep);
    } else {
      assert a + b == b;
    }
  }

  /** The kept files are exactly the listed files that pass the filter. */
  lemma {:induction false} FilterMembers(files: seq<string>, keep: string -> bool)
    ensures |Filter(files, keep)| <= |files|
    ensures forall f :: f in Filter(files, keep) <==> f in files && keep(f)
  {
    if |files| > 0 {
      FilterMembers(files[1..], keep);
      assert files == [files[0]] + files[1..];
    }
  }

  /** The kept image files of a listing are those of its parts in order, and
      are exactly the listed files that pass the filter. */
  lemma ImagesOfListing(a: seq<string>, b: seq<string>)
    ensures Images(a + b) == Images(a) + Images(b)
    ensures forall f :: f in Images(a) <==> f in a && IsImage(f)
  {
    FilterConcat(a, b, IsImage);
    FilterMembers(a, IsImage);
  }

  /** The entries are numbered 1 to n in the order of the kept files, each
      URL being the prefix followed by the file name as listed; an unreadable
      directory gives no entries. */
  lemma GalleryNumbering(listing: Option<seq<string>>)
    ensures listing.None? ==> GalleryImages(listing) == []
    ensures var images := Images(listing.GetOr([]));
      && |GalleryImages(listing)| == |images|
      && forall i :: 0 <= i < |images| ==>
           && GalleryImages(listing)[i].id == i + 1
           && |GalleryImages(listing)[i].imageUrl| == |AssetPrefix| + |images[i]|
           && StartsWith(GalleryImages(listing)[i].imageUrl, AssetPrefix)
           && EndsWith(GalleryImages(listing)[i].imageUrl, images[i])
  {
    var images := Images(listing.GetOr([]));
    forall i | 0 <= i < |images|
      ensures StartsWith(GalleryImages(listing)[i].imageUrl, AssetPrefix)
      ensures EndsWith(GalleryImages(listing)[i].imageUrl, images[i])
    {
      var url := AssetPrefix + images[i];
      assert url[..|AssetPrefix|] == AssetPrefix;
      assert url[|url| - |images[i]|..] == images[i];
    }
  }
}

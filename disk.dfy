/**
  The state the variant cache works on: the images directory, whose entries
  are image files (not yet migrated) and asset directories holding image
  files, and the order in which the file system lists them.
*/
module Disk {
  import opened Grammar

  /** Where the pixels of an image came from: an original, or a resize of another image. */
  datatype Origin = Original(id: nat) | ResizeOf(src: Origin, width: nat, height: nat)

  /** Decoded image data: the numpy shape and the provenance of the pixels. */
  datatype Image = Image(shape: seq<nat>, origin: Origin)

  /** An entry of the images directory: a loose file, or an asset directory of files. */
  datatype Node = File(image: Image) | Dir(files: map<string, Image>)

  type Entries = map<string, Node>

  /**
    The order in which iterdir lists the images directory and glob lists
    each asset directory; the file system fixes it, the code does not.
  */
  datatype Listing = Listing(root: seq<string>, dirs: map<string, seq<string>>)

  predicate NoDups(s: seq<string>)
  {
    forall i, j :: 0 <= i < j < |s| ==> s[i] != s[j]
  }

  /** `s` lists every name of `names` exactly once. */
  predicate Enumerates(s: seq<string>, names: set<string>)
  {
    NoDups(s) && (forall x :: x in s ==> x in names) && (forall x :: x in names ==> x in s)
  }

  /** `l` is a listing of the directory whose entries are `es`. */
  predicate ListingOf(l: Listing, es: Entries)
  {
    Enumerates(l.root, es.Keys) &&
    forall d :: d in es && es[d].Dir? ==> d in l.dirs && Enumerates(l.dirs[d], es[d].files.Keys)
  }

  /** The listing of asset directory `d` (none for a directory that is not there). */
  function DirListing(l: Listing, d: string): seq<string>
  {
    if d in l.dirs then l.dirs[d] else []
  }

  /** A file-system name: non-empty and without "/". */
  predicate PlainName(n: string)
  {
    |n| > 0 && NoSlash(n)
  }

  /** Every name in the images directory and its asset directories is a plain name. */
  predicate PlainNames(es: Entries)
  {
    (forall d :: d in es ==> PlainName(d)) &&
    (forall d, f :: d in es && es[d].Dir? && f in es[d].files ==> PlainName(f))
  }

  function Min(a: nat, b: nat): nat
  {
    if a <= b then a else b
  }

  /**
    resize(image, (width, height))[..., :3]: the first two axes become
    width and height and a third axis is kept; an image of fewer than two
    axes is first given axes of length one, so it comes out with two. The
    last axis is then cut to at most three entries (the alpha channel of a
    colour image; the height of a grey one). skimage refuses an image of
    four or more axes with a ValueError.
  */
  function ResizeImage(img: Image, width: nat, height: nat): (r: Result<Image>)
    ensures r.Ok? <==> |img.shape| <= 3
    ensures r.Ok? ==> r.value.origin == ResizeOf(img.origin, width, height)
    ensures r.Ok? && |img.shape| == 3 ==> r.value.shape == [width, height, Min(img.shape[2], 3)]
    ensures r.Ok? && |img.shape| < 3 ==> r.value.shape == [width, Min(height, 3)]
    ensures r.Err? ==> r.error == BadImage
  {
    if |img.shape| > 3 then Err(BadImage)
    else
      var full := [width, height] + (if |img.shape| == 3 then img.shape[2..] else []);
      Ok(Image(full[|full| - 1 := Min(full[|full| - 1], 3)], ResizeOf(img.origin, width, height)))
  }

  /** compute_aspect_ratio(width, height): width / height, or the division by zero. */
  function AspectRatio(width: nat, height: nat): (r: Result<real>)
    ensures r.Ok? <==> height != 0
    ensures r.Err? ==> r.error == ZeroDivision
  {
    if height == 0 then Err(ZeroDivision) else Ok(width as real / height as real)
  }

  /** The ratio times the height is the width. */
  lemma AspectRatioScales(width: nat, height: nat)
    requires height != 0
    ensures AspectRatio(width, height).value * height as real == width as real
  {
  }

  /** Two ratios agree exactly when the cross products do. */
  lemma AspectEqual(a: nat, b: nat, c: nat, d: nat)
    requires b != 0 && d != 0
    ensures AspectRatio(a, b).value == AspectRatio(c, d).value <==> a * d == c * b
  {
    AspectRatioScales(a, b);
    AspectRatioScales(c, d);
    var x, y := AspectRatio(a, b).value, AspectRatio(c, d).value;
    assert x * b as real == a as real && y * d as real == c as real;
    if x == y {
      assert (a * d) as real == x * b as real * d as real;
      assert (c * b) as real == y * d as real * b as real;
    } else {
      assert (a * d) as real == x * (b * d) as real;
      assert (c * b) as real == y * (b * d) as real;
    }
  }
}

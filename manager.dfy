/**
  AssetsManager: the three managed paths under the base path, the image
  lookups get_image and get_thumbnails, and the wrappers around the
  images directory.
*/
module Manager {
  import opened Grammar
  import opened Order
  import opened Disk
  import opened Resize
  import opened Migrate
  import opened Store

  /** A path as its list of components; `p / name` appends one. */
  type Path = seq<string>

  function Child(p: Path, name: string): (c: Path)
    ensures |c| == |p| + 1 && c[..|p|] == p && c[|p|] == name
  {
    p + [name]
  }

  // ---------------------------------------------------------------------
  // glob in one directory, in listing order
  // ---------------------------------------------------------------------

  predicate HasPrefix(s: string, pre: string)
  {
    |pre| <= |s| && s[..|pre|] == pre
  }

  /** Listed file `n` matches the glob `<pre>*`. */
  predicate Hit(files: map<string, Image>, pre: string, n: string)
  {
    n in files && HasPrefix(n, pre)
  }

  /** The position in `names` of the first file matching `<pre>*`, or |names| when none does. */
  function FirstHit(names: seq<string>, files: map<string, Image>, pre: string): (k: nat)
    ensures k <= |names|
    ensures forall j :: 0 <= j < k ==> !Hit(files, pre, names[j])
    ensures k < |names| ==> Hit(files, pre, names[k])
    decreases |names|
  {
    if names == [] then 0
    else if Hit(files, pre, names[0]) then 0
    else 1 + FirstHit(names[1..], files, pre)
  }

  /** The files of asset directory `bn`; glob finds nothing where there is no such directory. */
  function DirFiles(es: Entries, bn: string): map<string, Image>
  {
    if bn in es && es[bn].Dir? then es[bn].files else map[]
  }

  // ---------------------------------------------------------------------
  // get_image
  // ---------------------------------------------------------------------

  /** f"{base_name}-{width}-{height}": the stem get_image globs for. */
  function AsWrittenStem(bn: string, w: nat, h: nat): string
  {
    bn + "-" + Decimal(w) + "-" + Decimal(h)
  }

  /**
    The fallback of get_image: the first `<bn>-orig.*` of the directory,
    resized and not saved; IndexError when there is none.
  */
  function ResizeOrig(es: Entries, l: Listing, bn: string, w: nat, h: nat): Result<Image>
  {
    var files, names := DirFiles(es, bn), DirListing(l, bn);
    var o := FirstHit(names, files, bn + OrigTag + ".");
    if o < |names| then ResizeImage(files[names[o]], w, h)
    else Err(NotFound(bn + OrigTag + ".*"))
  }

  /** get_image(base_name, width, height): a stored `<bn>-<W>-<H>.*` file, else a resize of the original. */
  function GetImage(es: Entries, l: Listing, bn: string, w: nat, h: nat): Result<Image>
  {
    var files, names := DirFiles(es, bn), DirListing(l, bn);
    var k := FirstHit(names, files, AsWrittenStem(bn, w, h) + ".");
    if k < |names| then Ok(files[names[k]]) else ResizeOrig(es, l, bn, w, h)
  }

  /** get_image as its docstring means it: a stored `<bn>-<W>x<H>.*` variant, else a resize of the original. */
  function GetImageFixed(es: Entries, l: Listing, bn: string, w: nat, h: nat): Result<Image>
  {
    var files, names := DirFiles(es, bn), DirListing(l, bn);
    var k := FirstHit(names, files, bn + SizeTag(w, h) + ".");
    if k < |names| then Ok(files[names[k]]) else ResizeOrig(es, l, bn, w, h)
  }

  /** `names[k]` is the first listed file matching `<pre>*`. */
  predicate FirstMatchAt(names: seq<string>, files: map<string, Image>, pre: string, k: int)
  {
    0 <= k < |names| && Hit(files, pre, names[k]) && forall j :: 0 <= j < k ==> !Hit(files, pre, names[j])
  }

  /**
    What get_image returns: the first listed file of the directory whose
    name begins `<bn>-<W>-<H>.`; when there is none, a W by H resize of the
    first listed `<bn>-orig.*`; the lookup error when there is neither.
  */
  lemma GetImageCases(es: Entries, l: Listing, bn: string, w: nat, h: nat)
    ensures var files, names := DirFiles(es, bn), DirListing(l, bn);
      var r := GetImage(es, l, bn, w, h);
      var sp, op := AsWrittenStem(bn, w, h) + ".", bn + OrigTag + ".";
      var stored := exists n :: n in names && Hit(files, sp, n);
      var orig := exists n :: n in names && Hit(files, op, n);
      (stored ==> exists k :: FirstMatchAt(names, files, sp, k) && r == Ok(files[names[k]])) &&
      (!stored && orig ==> exists k :: FirstMatchAt(names, files, op, k) && r == ResizeImage(files[names[k]], w, h)) &&
      (!stored && !orig ==> r == Err(NotFound(bn + OrigTag + ".*")))
  {
    var files, names := DirFiles(es, bn), DirListing(l, bn);
    var sp, op := AsWrittenStem(bn, w, h) + ".", bn + OrigTag + ".";
    var k := FirstHit(names, files, sp);
    var o := FirstHit(names, files, op);
    if k < |names| {
      assert FirstMatchAt(names, files, sp, k);
    } else {
      assert forall n :: n in names ==> !Hit(files, sp, n);
      if o < |names| {
        assert FirstMatchAt(names, files, op, o);
      } else {
        assert forall n :: n in names ==> !Hit(files, op, n);
      }
    }
  }

  /**
    A name of the directory's layout, `<bn>` followed by a variant tag
    ("-orig" or "-<w>x<h>"), never begins `<bn>-<W>-<H>.`: where the
    pattern has its second "-" the name has its "x" or a digit.
  */
  lemma AsWrittenMissesLayout(bn: string, g: string, rest: string, w: nat, h: nat)
    requires IsVariantGroup(g)
    ensures !HasPrefix(bn + g + rest, AsWrittenStem(bn, w, h) + ".")
  {
    var name := bn + g + rest;
    var pat := AsWrittenStem(bn, w, h) + ".";
    var dw := Decimal(w);
    assert pat == bn + "-" + dw + "-" + Decimal(h) + ".";
    var t: nat;
    if g == OrigTag {
      t := |bn| + 1;
      assert name[t] == 'o' && pat[t] == dw[0];
    } else {
      var k :| 1 < k < |g| - 1 && g[k] == 'x' && AllRegexDigits(g[1..k]) && AllRegexDigits(g[k + 1..]);
      if k - 1 < |dw| {
        t := |bn| + k;
        assert name[t] == 'x' && pat[t] == dw[k - 1];
      } else if k - 1 == |dw| {
        t := |bn| + k;
        assert name[t] == 'x' && pat[t] == '-';
      } else {
        t := |bn| + 1 + |dw|;
        assert name[t] == g[1..k][|dw|] && pat[t] == '-';
        RegexDigitPlain(g[1..k][|dw|]);
      }
    }
    assert t < |pat| && t < |name| && name[t] != pat[t];
    if |pat| <= |name| {
      assert name[..|pat|][t] != pat[t];
    }
  }

  /** Every file of directory `bn` is named `<bn>`, a variant tag, and the rest. */
  ghost predicate LaidOut(bn: string, files: map<string, Image>)
  {
    forall n :: n in files ==> exists g, rest :: IsVariantGroup(g) && n == bn + g + rest
  }

  /**
    As written, get_image never returns a stored variant of a directory
    laid out by the migration and the resize: it resizes the original
    again each time.
  */
  lemma GetImageIgnoresVariants(es: Entries, l: Listing, bn: string, w: nat, h: nat)
    ensures LaidOut(bn, DirFiles(es, bn)) ==> GetImage(es, l, bn, w, h) == ResizeOrig(es, l, bn, w, h)
  {
    var files, names := DirFiles(es, bn), DirListing(l, bn);
    var k := FirstHit(names, files, AsWrittenStem(bn, w, h) + ".");
    if LaidOut(bn, files) && k < |names| {
      var n := names[k];
      var g, rest :| IsVariantGroup(g) && n == bn + g + rest;
      AsWrittenMissesLayout(bn, g, rest, w, h);
    }
  }

  /** The variant the resize writes, `<bn>-<W>x<H><ext>`, fits the directory's layout. */
  lemma VariantLaidOut(bn: string, f: string, w: nat, h: nat)
    ensures exists g, rest :: IsVariantGroup(g) && VariantName(bn, f, w, h) == bn + g + rest
  {
    assert VariantName(bn, f, w, h) == bn + SizeTag(w, h) + Ext(f);
  }

  /**
    The corrected lookup returns a stored variant of the requested size,
    without resizing, once the resize has written one for that directory.
  */
  lemma GetImageFixedFinds(es: Entries, l: Listing, bn: string, f: string, w: nat, h: nat)
    requires Ext(f) != ""
    requires VariantName(bn, f, w, h) in DirFiles(es, bn) && VariantName(bn, f, w, h) in DirListing(l, bn)
    ensures var files := DirFiles(es, bn);
      exists n :: n in files && HasPrefix(n, bn + SizeTag(w, h) + ".") && GetImageFixed(es, l, bn, w, h) == Ok(files[n])
  {
    var files, names := DirFiles(es, bn), DirListing(l, bn);
    var pre := bn + SizeTag(w, h) + ".";
    var v := VariantName(bn, f, w, h);
    var e := Ext(f);
    assert v == pre + e[1..] by {
      assert e == "." + e[1..];
    }
    assert v[..|pre|] == pre;
    var i :| 0 <= i < |names| && names[i] == v;
    assert Hit(files, pre, names[i]);
    var k := FirstHit(names, files, pre);
    assert k <= i;
    assert Hit(files, pre, names[k]);
  }

  // ---------------------------------------------------------------------
  // get_thumbnails
  // ---------------------------------------------------------------------

  /** `pat` occurs in `s`. */
  predicate Contains(s: string, pat: string)
    decreases |s|
  {
    |pat| <= |s| && (s[..|pat|] == pat || Contains(s[1..], pat))
  }

  lemma {:induction false} ContainsAt(s: string, pat: string, i: nat)
    requires i + |pat| <= |s| && s[i..i + |pat|] == pat
    ensures Contains(s, pat)
    decreases i
  {
    if i > 0 {
      assert s[1..][i - 1..i - 1 + |pat|] == s[i..i + |pat|];
      ContainsAt(s[1..], pat, i - 1);
    }
  }

  /** `*-128x128.*`: not hidden, and "-128x128." occurs in it. */
  predicate IsThumb(f: string)
  {
    |f| > 0 && f[0] != '.' && Contains(f, "-128x128.")
  }

  /** File `f` of asset directory `d` is one get_thumbnails globs: any visible directory, then `*-128x128.*`. */
  predicate ThumbAt(es: Entries, d: string, f: string)
  {
    d in es && es[d].Dir? && |d| > 0 && d[0] != '.' && f in es[d].files && IsThumb(f)
  }

  /** The thumbnails of directory `d`, in its listing order, as paths under the images directory. */
  function DirThumbs(es: Entries, d: string, names: seq<string>): (r: seq<string>)
    ensures forall p :: p in r ==> exists f :: f in names && ThumbAt(es, d, f) && p == d + "/" + f
    ensures forall f :: f in names && ThumbAt(es, d, f) ==> d + "/" + f in r
    decreases |names|
  {
    if names == [] then []
    else
      var rest := DirThumbs(es, d, names[..|names| - 1]);
      var f := names[|names| - 1];
      if ThumbAt(es, d, f) then rest + [d + "/" + f] else rest
  }

  /** The glob over the entries in `order`: each asset directory's thumbnails. */
  function ThumbPaths(es: Entries, l: Listing, order: seq<string>): (r: seq<string>)
    ensures forall p :: p in r ==> exists d, f :: d in order && ThumbAt(es, d, f) && p == d + "/" + f
    decreases |order|
  {
    if order == [] then []
    else ThumbPaths(es, l, order[..|order| - 1]) + DirThumbs(es, order[|order| - 1], DirListing(l, order[|order| - 1]))
  }

  /** The dict comprehension over the sorted paths: parent directory name to image, the last path winning. */
  function ThumbMap(es: Entries, ps: seq<string>): map<string, Image>
    decreases |ps|
  {
    if ps == [] then map[]
    else
      var m := ThumbMap(es, ps[..|ps| - 1]);
      var p := ps[|ps| - 1];
      var dn := Dirname(p);
      if dn in es && es[dn].Dir? && Basename(p) in es[dn].files then m[Basename(dn) := es[dn].files[Basename(p)]]
      else m
  }

  /** get_thumbnails(): one thumbnail per asset directory that has one, keyed by the directory's name. */
  function GetThumbnails(es: Entries, l: Listing): map<string, Image>
  {
    ThumbMap(es, Sort(ThumbPaths(es, l, l.root)))
  }

  /** Every asset directory listed in `order` contributes the paths of all its thumbnails. */
  lemma {:induction false} ThumbPathsComplete(es: Entries, l: Listing, order: seq<string>, d: string, f: string)
    requires d in order && ThumbAt(es, d, f) && f in DirListing(l, d)
    ensures d + "/" + f in ThumbPaths(es, l, order)
    decreases |order|
  {
    var last := order[|order| - 1];
    if d == last {
    } else {
      assert d in order[..|order| - 1];
      ThumbPathsComplete(es, l, order[..|order| - 1], d, f);
    }
  }

  /** Every key of `m` names a directory one of whose thumbnails in `ps` it maps to. */
  ghost predicate ThumbSound(es: Entries, ps: seq<string>, m: map<string, Image>)
  {
    forall d :: d in m ==> exists f :: ThumbAt(es, d, f) && d + "/" + f in ps && m[d] == es[d].files[f]
  }

  /** Every directory with a thumbnail in `ps` is a key of `m`. */
  ghost predicate ThumbCovers(es: Entries, ps: seq<string>, m: map<string, Image>)
  {
    forall d, f :: ThumbAt(es, d, f) && d + "/" + f in ps ==> d in m
  }

  /** One more thumbnail path stores its file under its directory's name. */
  lemma ThumbMapStep(es: Entries, ps: seq<string>, d: string, f: string)
    requires NoSlash(d) && NoSlash(f) && d in es && es[d].Dir? && f in es[d].files
    requires ps != [] && ps[|ps| - 1] == d + "/" + f
    ensures ThumbMap(es, ps) == ThumbMap(es, ps[..|ps| - 1])[d := es[d].files[f]]
  {
    var p := ps[|ps| - 1];
    DirnameOfJoin(d, f);
    BasenameOfPlain(d);
    assert Dirname(p) == d && Basename(p) == f && Basename(d) == d;
  }

  /** Storing the last thumbnail of `ps` keeps both facts about the map. */
  lemma ThumbFactsStep(es: Entries, ps: seq<string>, m0: map<string, Image>, d: string, f: string)
    requires PlainNames(es) && ThumbAt(es, d, f)
    requires ps != [] && ps[|ps| - 1] == d + "/" + f
    requires ThumbSound(es, ps[..|ps| - 1], m0) && ThumbCovers(es, ps[..|ps| - 1], m0)
    ensures ThumbSound(es, ps, m0[d := es[d].files[f]])
    ensures ThumbCovers(es, ps, m0[d := es[d].files[f]])
  {
    var init := ps[..|ps| - 1];
    var m := m0[d := es[d].files[f]];
    assert forall q :: q in init ==> q in ps;
    forall d' | d' in m ensures exists f' :: ThumbAt(es, d', f') && d' + "/" + f' in ps && m[d'] == es[d'].files[f'] {
      if d' == d {
        assert d + "/" + f in ps;
      } else {
        var f' :| ThumbAt(es, d', f') && d' + "/" + f' in init && m0[d'] == es[d'].files[f'];
      }
    }
    forall d', f' | ThumbAt(es, d', f') && d' + "/" + f' in ps ensures d' in m {
      if d' + "/" + f' != d + "/" + f {
        assert d' + "/" + f' in init;
      } else {
        assert PlainName(f) && PlainName(f');
        DirnameOfJoin(d, f);
        DirnameOfJoin(d', f');
      }
    }
  }

  /** Every path of `ps` is a thumbnail path. */
  ghost predicate AllThumbPaths(es: Entries, ps: seq<string>)
  {
    forall p :: p in ps ==> exists d, f :: ThumbAt(es, d, f) && p == d + "/" + f
  }

  /** What the dict comprehension keeps from paths that are all thumbnails. */
  lemma {:induction false} ThumbMapFacts(es: Entries, ps: seq<string>)
    requires PlainNames(es) && AllThumbPaths(es, ps)
    ensures ThumbSound(es, ps, ThumbMap(es, ps)) && ThumbCovers(es, ps, ThumbMap(es, ps))
    decreases |ps|
  {
    if ps != [] {
      var init := ps[..|ps| - 1];
      var p := ps[|ps| - 1];
      assert p in ps;
      assert AllThumbPaths(es, init) by {
        forall q | q in init ensures exists d, f :: ThumbAt(es, d, f) && q == d + "/" + f {
          assert q in ps;
        }
      }
      ThumbMapFacts(es, init);
      var d, f :| ThumbAt(es, d, f) && p == d + "/" + f;
      assert PlainName(d) && PlainName(f);
      ThumbMapStep(es, ps, d, f);
      ThumbFactsStep(es, ps, ThumbMap(es, init), d, f);
    }
  }

  /**
    get_thumbnails maps the name of each visible asset directory that holds
    a `*-128x128.*` file, and no other name, to one of those files.
  */
  lemma GetThumbnailsKeys(es: Entries, l: Listing)
    ensures ListingOf(l, es) && PlainNames(es) ==>
      var m := GetThumbnails(es, l);
      (forall d :: d in m <==> exists f :: ThumbAt(es, d, f)) &&
      (forall d :: d in m ==> exists f :: ThumbAt(es, d, f) && m[d] == es[d].files[f])
  {
    if ListingOf(l, es) && PlainNames(es) {
      var ps := ThumbPaths(es, l, l.root);
      var qs := Sort(ps);
      forall p | p in qs ensures exists d, f :: ThumbAt(es, d, f) && p == d + "/" + f {
        assert p in ps;
      }
      ThumbMapFacts(es, qs);
      forall d, f | ThumbAt(es, d, f) ensures d in GetThumbnails(es, l) {
        assert d in l.root && f in l.dirs[d];
        ThumbPathsComplete(es, l, l.root, d, f);
      }
    }
  }

  /** Under a listing of the images directory, the globbed paths are exactly the thumbnail paths. */
  lemma ThumbPathsExact(es: Entries, l: Listing, p: string)
    requires ListingOf(l, es)
    ensures p in ThumbPaths(es, l, l.root) <==> exists d, f :: ThumbAt(es, d, f) && p == d + "/" + f
  {
    if exists d, f :: ThumbAt(es, d, f) && p == d + "/" + f {
      var d, f :| ThumbAt(es, d, f) && p == d + "/" + f;
      assert d in l.root && f in l.dirs[d];
      ThumbPathsComplete(es, l, l.root, d, f);
    }
  }

  /**
    get_thumbnails sorts the paths before building its map, so which
    thumbnail each directory gets does not depend on the order in which the
    file system lists anything.
  */
  lemma GetThumbnailsListingFree(es: Entries, l1: Listing, l2: Listing)
    requires ListingOf(l1, es) && ListingOf(l2, es)
    ensures GetThumbnails(es, l1) == GetThumbnails(es, l2)
  {
    var ps1, ps2 := ThumbPaths(es, l1, l1.root), ThumbPaths(es, l2, l2.root);
    forall p ensures p in ps1 <==> p in ps2 {
      ThumbPathsExact(es, l1, p);
      ThumbPathsExact(es, l2, p);
    }
    SortBySet(ps1, ps2);
  }

  /** f"-{128}x{128}" */
  lemma ThumbTag()
    ensures SizeTag(128, 128) == "-128x128"
  {
    assert Decimal(1) == "1";
    assert Decimal(12) == "12";
    assert Decimal(128) == "128";
  }

  /** The thumbnail create_thumbnails writes into a visible asset directory is one get_thumbnails finds. */
  lemma ThumbnailIsFound(d: string, f: string)
    requires |d| > 0 && d[0] != '.' && Ext(f) != ""
    ensures IsThumb(VariantName(d, f, 128, 128))
  {
    ThumbTag();
    var v := VariantName(d, f, 128, 128);
    var e := Ext(f);
    assert v == d + "-128x128" + e;
    assert e[0] == '.';
    assert v[|d|..|d| + 9] == "-128x128.";
    ContainsAt(v, "-128x128.", |d|);
  }

  // ---------------------------------------------------------------------
  // The manager
  // ---------------------------------------------------------------------

  /**
    A hidden image ".x.png" migrates into the hidden asset directory ".x"
    (`Migrate.HiddenFileMoves`), whose files the glob `*` then skips:
    resize_image_dir stops on it with the KeyError on "-orig".
  */
  lemma HiddenAssetHasNoSource(img: Image, w: nat, h: nat)
    requires h > 0
    ensures var es := map[".x" := Dir(map[".x-orig.png" := img])];
      ResizeImageDir(true, es, Listing([".x"], map[".x" := [".x-orig.png"]]), w, h) == Failed(MissingOrig(".x"), es)
  {
    var es := map[".x" := Dir(map[".x-orig.png" := img])];
    var l := Listing([".x"], map[".x" := [".x-orig.png"]]);
    assert !Globbed(".x-orig.png");
    assert [".x-orig.png"][..0] == [];
    assert TagMap(Tagger(".x"), ".x", [".x-orig.png"]) == Ok(map[]);
    assert SourceTag({}) == None;
    assert [".x"][..0] == [];
    assert CollectSources(es, l, [".x"], w, h) == Err(MissingOrig(".x"));
  }

  class AssetsManager {
    var basePath: Path
    var imagesPath: Path
    var videosPath: Path
    var generatedPath: Path
    /** The images directory, `<base>/images`. */
    const images: ImageStore

    /** __init__(base_path): the three managed directories sit directly under the base path. */
    constructor (base: Path, images: ImageStore)
      ensures basePath == base && this.images == images
      ensures imagesPath == Child(base, "images") && videosPath == Child(base, "videos") && generatedPath == Child(base, "generated")
    {
      basePath := base;
      this.images := images;
      imagesPath := Child(base, "images");
      videosPath := Child(base, "videos");
      generatedPath := Child(base, "generated");
    }

    /** resize_source_images(width, height) */
    method ResizeSourceImages(l: Listing, w: nat, h: nat) returns (err: Option<Error>)
      modifies images
      ensures images.present == old(images.present)
      ensures var out := Resize.ResizeImageDir(old(images.present), old(images.entries), l, w, h);
        images.entries == out.entries && (err.None? <==> out.Completed?) && (out.Failed? ==> err == Some(out.error))
    {
      err := images.ResizeImageDir(l, w, h);
    }

    /** create_thumbnails(): the 128 by 128 variants. */
    method CreateThumbnails(l: Listing) returns (err: Option<Error>)
      modifies images
      ensures images.present == old(images.present)
      ensures var out := Resize.ResizeImageDir(old(images.present), old(images.entries), l, 128, 128);
        images.entries == out.entries && (err.None? <==> out.Completed?) && (out.Failed? ==> err == Some(out.error))
    {
      err := images.ResizeImageDir(l, 128, 128);
    }

    /**
      initialize_dirs(init_images, init_videos, init_generated): migrate
      the images directory, without force, over the entries in `order`;
      listing the videos directory fails when it is missing; the generated
      directory needs nothing.
    */
    method InitializeDirs(initImages: bool, initVideos: bool, videosPresent: bool, base: Entries, order: seq<string>)
      returns (err: Option<Error>)
      modifies images
      ensures images.present == old(images.present)
      ensures var out := Migrate.InitSimpleDir(old(images.present), old(images.entries), base, ImageExts, false, order);
        var imagesFail := initImages && out.Failed?;
        (initImages ==> images.entries == out.entries) &&
        (!initImages ==> images.entries == old(images.entries)) &&
        (err.None? <==> !imagesFail && (!initVideos || videosPresent)) &&
        (imagesFail ==> err == Some(out.error)) &&
        (!imagesFail && initVideos && !videosPresent ==> err == Some(NoSuchDir))
    {
      err := None;
      if initImages {
        err := images.InitSimpleDir(base, ImageExts, false, order);
        if err.Some? {
          return;
        }
      }
      if initVideos && !videosPresent {
        err := Some(NoSuchDir);
      }
    }

    /** get_image(base_name, width, height) on the images directory. */
    function GetImageOf(l: Listing, bn: string, w: nat, h: nat): (r: Result<Image>)
      reads this, images
      ensures LaidOut(bn, DirFiles(images.entries, bn)) ==> r == ResizeOrig(images.entries, l, bn, w, h)
    {
      GetImageIgnoresVariants(images.entries, l, bn, w, h);
      GetImage(images.entries, l, bn, w, h)
    }

    /** get_thumbnail(base_name): get_image at 128 by 128. */
    function GetThumbnail(l: Listing, bn: string): (r: Result<Image>)
      reads this, images
      ensures LaidOut(bn, DirFiles(images.entries, bn)) ==> r == ResizeOrig(images.entries, l, bn, 128, 128)
    {
      GetImageOf(l, bn, 128, 128)
    }

    /** get_thumbnails() on the images directory. */
    function Thumbnails(l: Listing): (r: map<string, Image>)
      reads this, images
      ensures ListingOf(l, images.entries) && PlainNames(images.entries) ==>
        forall d :: d in r <==> exists f :: ThumbAt(images.entries, d, f)
    {
      GetThumbnailsKeys(images.entries, l);
      GetThumbnails(images.entries, l)
    }
  }
}

/**
  resize_image_dir: for every asset directory, choose the best source
  variant, then, for every chosen source whose aspect ratio matches the
  requested size, write `<dir>-<W>x<H><ext>` next to it unless that file
  is already there.
*/
module Resize {
  import opened Grammar
  import opened Order
  import opened Disk

  /** glob's `*.*` inside an asset directory: the name holds a dot and is not hidden. */
  predicate Globbed(name: string)
  {
    |name| > 0 && name[0] != '.' && '.' in name
  }

  /** The variant tag of file `f` of directory `d`, as getImageVariant reads it from the path. */
  function TagOf(d: string, f: string): Result<string>
  {
    GetImageVariant(d + "/" + f)
  }

  /** getImageVariant applied to the files of directory `d`. */
  function Tagger(d: string): string -> Result<string>
  {
    f => TagOf(d, f)
  }

  /**
    The dict comprehension over the glob of `*.*` in directory `d`, with
    `tag` reading the key from a file name: every globbed name of the
    listing, in order, maps its tag to its path, so the last file of a tag
    wins; the first name without a tag stops everything.
  */
  function TagMap(tag: string -> Result<string>, d: string, names: seq<string>): (r: Result<map<string, string>>)
    ensures r.Err? ==> exists f :: f in names && Globbed(f) && tag(f) == Err(r.error)
    decreases |names|
  {
    if names == [] then Ok(map[])
    else
      match TagMap(tag, d, names[..|names| - 1])
      case Err(e) => Err(e)
      case Ok(m) =>
        var f := names[|names| - 1];
        if !Globbed(f) then Ok(m)
        else
          match tag(f)
          case Err(e) => Err(e)
          case Ok(t) => Ok(m[t := d + "/" + f])
  }

  /** f"{req_width}x{req_height}": the key looked up to skip directories already done. It begins with a digit. */
  function DoneKey(w: nat, h: nat): (k: string)
    ensures |k| >= 3 && IsDigit(k[0])
  {
    Decimal(w) + "x" + Decimal(h)
  }

  /** The standard sizes tried, largest first, before falling back to the original. */
  const StdSizes: seq<string> := ["512", "256", "128"]

  /** f"-{std_size}x{std_size}" */
  function StdTag(size: string): string
  {
    "-" + size + "x" + size
  }

  /** The first of `sizes` whose tag is among `tags`. */
  function FirstStd(tags: set<string>, sizes: seq<string>): (r: Option<string>)
    ensures r.Some? ==> r.value in sizes && StdTag(r.value) in tags
    ensures r.Some? ==>
      exists k :: 0 <= k < |sizes| && sizes[k] == r.value && forall j :: 0 <= j < k ==> StdTag(sizes[j]) !in tags
    ensures r.None? ==> forall s :: s in sizes ==> StdTag(s) !in tags
  {
    if sizes == [] then None
    else if StdTag(sizes[0]) in tags then Some(sizes[0])
    else FirstStd(tags, sizes[1..])
  }

  /**
    The tag of the source chosen for a directory whose tag map has the keys
    `tags`: the largest standard size present, else "-orig"; None is the
    KeyError on "-orig".
  */
  function SourceTag(tags: set<string>): (r: Option<string>)
    ensures r.Some? ==> r.value in tags
  {
    match FirstStd(tags, StdSizes)
    case Some(s) => Some(StdTag(s))
    case None => if OrigTag in tags then Some(OrigTag) else None
  }

  /** What one entry of the images directory adds to the set of sources, if anything. */
  function DirSource(es: Entries, l: Listing, d: string, w: nat, h: nat): Result<Option<string>>
  {
    if d in es && es[d].File? then Ok(None)
    else
      match TagMap(Tagger(d), d, DirListing(l, d))
      case Err(e) => Err(e)
      case Ok(m) =>
        if DoneKey(w, h) in m then Ok(None)
        else
          match SourceTag(m.Keys)
          case None => Err(MissingOrig(d))
          case Some(t) => Ok(Some(m[t]))
  }

  /** The first pass over the entries in `order`: the source paths, in the order found. */
  function CollectSources(es: Entries, l: Listing, order: seq<string>, w: nat, h: nat): (r: Result<seq<string>>)
    ensures r.Ok? ==> |r.value| <= |order|
    decreases |order|
  {
    if order == [] then Ok([])
    else
      match CollectSources(es, l, order[..|order| - 1], w, h)
      case Err(e) => Err(e)
      case Ok(ps) =>
        match DirSource(es, l, order[|order| - 1], w, h)
        case Err(e) => Err(e)
        case Ok(None) => Ok(ps)
        case Ok(Some(p)) => Ok(ps + [p])
  }

  /** f"{img_name}-{req_width}x{req_height}{ext}": the name of the variant written in directory `name`. */
  function VariantName(name: string, f: string, w: nat, h: nat): string
  {
    name + SizeTag(w, h) + Ext(f)
  }

  /**
    The second pass for one source file `f` of the asset directory named
    `name`, whose files are `files`: the aspect gate and the write of the
    variant when it is not there yet. `reqAr` is the requested aspect ratio.
  */
  function ProcessDir(files: map<string, Image>, name: string, f: string, path: string,
                      w: nat, h: nat, reqAr: real): (r: Result<map<string, Image>>)
    ensures r.Ok? ==> files.Keys <= r.value.Keys <= files.Keys + {VariantName(name, f, w, h)}
  {
    if f !in files then Err(Unreadable(path))
    else
      var img := files[f];
      if |img.shape| != 3 then Err(ShapeUnpack(path))
      else
        match AspectRatio(img.shape[0], img.shape[1])
        case Err(e) => Err(e)
        case Ok(ar) =>
          if ar != reqAr then Ok(files)
          else
            var dest := VariantName(name, f, w, h);
            if dest in files then Ok(files)
            else Ok(files[dest := ResizeImage(img, w, h).value])
  }

  /** The entries with asset directory `dn` holding the files `r`, or the error `r` carries. */
  function Replace(es: Entries, dn: string, r: Result<map<string, Image>>): (r': Result<Entries>)
    requires dn in es && es[dn].Dir?
    ensures r'.Ok? <==> r.Ok?
    ensures r'.Ok? ==> r'.value.Keys == es.Keys && r'.value[dn] == Dir(r.value)
    ensures r'.Ok? ==> forall k :: k in es && k != dn ==> r'.value[k] == es[k]
    ensures r'.Err? ==> r'.error == r.error
  {
    match r
    case Err(e) => Err(e)
    case Ok(files) => Ok(es[dn := Dir(files)])
  }

  /** The second pass for source path `p`, relative to the images directory. */
  function ProcessSource(es: Entries, p: string, w: nat, h: nat, reqAr: real): (r: Result<Entries>)
    ensures r.Ok? ==> Dirname(p) in es && es[Dirname(p)].Dir? && r.value.Keys == es.Keys
  {
    var dn := Dirname(p);
    if dn !in es || es[dn].File? then Err(Unreadable(p))
    else Replace(es, dn, ProcessDir(es[dn].files, Basename(dn), Basename(p), p, w, h, reqAr))
  }

  /** How a run ends: with every source handled, or at the first exception, keeping what was written. */
  datatype Outcome = Completed(entries: Entries) | Failed(error: Error, entries: Entries)

  /** The second pass over the sources `ps`, in order. */
  function ApplyAll(es: Entries, ps: seq<string>, w: nat, h: nat, reqAr: real): (o: Outcome)
    ensures o.entries.Keys == es.Keys
    decreases |ps|
  {
    if ps == [] then Completed(es)
    else
      match ApplyAll(es, ps[..|ps| - 1], w, h, reqAr)
      case Failed(e, es1) => Failed(e, es1)
      case Completed(es1) =>
        match ProcessSource(es1, ps[|ps| - 1], w, h, reqAr)
        case Err(e) => Failed(e, es1)
        case Ok(es2) => Completed(es2)
  }

  /** resize_image_dir(images_path, w, h) on the images directory, which may be missing. */
  function ResizeImageDir(present: bool, es: Entries, l: Listing, w: nat, h: nat): (o: Outcome)
    ensures o.entries.Keys == es.Keys
  {
    match AspectRatio(w, h)
    case Err(e) => Failed(e, es)
    case Ok(reqAr) =>
      if !present then Failed(NoSuchDir, es)
      else
        match CollectSources(es, l, l.root, w, h)
        case Err(e) => Failed(e, es)
        case Ok(ps) => ApplyAll(es, Sort(ps), w, h, reqAr)
  }
}

/**
  _init_simple_dir: the migration of a flat directory of image files into
  one asset directory per image, `<stem>/<stem>-orig.<ext>`, never
  overwriting an existing original unless forced.
*/
module Migrate {
  import opened Grammar
  import opened Disk
  import opened Resize
  import opened ResizeRuns

  /** The extensions the images directory accepts (IMAGE_EXTS). */
  const ImageExts: seq<string> := ["jpg", "jpeg", "png", "gif"]

  /** f"{bn}-orig.{ext}": where a loose file moves to inside its asset directory. */
  function OrigName(bn: string, ext: string): string
  {
    bn + OrigTag + "." + ext
  }

  /** Entry `name` is a loose file whose extension is allowed: the loop moves it. */
  predicate Movable(es: Entries, allowed: seq<string>, name: string)
  {
    name in es && es[name].File? && SuffixExt(name) in allowed
  }

  /** The loose file `name` has its original in place: `<stem>/<stem>-orig.<ext>` exists. */
  predicate HasOrig(es: Entries, name: string)
  {
    var bn := Stem(name);
    bn in es && es[bn].Dir? && OrigName(bn, SuffixExt(name)) in es[bn].files
  }

  /**
    One turn of the loop, on entry `name` of the images directory; `above`
    holds the entries of the directory above it. A loose file with an
    allowed extension moves to `<stem>/<stem>-orig.<ext>` unless something
    is there already and the move is not forced. pathlib gives two stems a
    meaning of their own: `images/.` is the images directory itself, so a
    file of stem "." (such as "..png") becomes the loose file
    `.-orig.<ext>` beside it, and `images/..` is the directory above, so a
    file of stem ".." (such as "...png") leaves for `..-orig.<ext>` there.
    Any other stem gets its asset directory, and mkdir fails where a file
    has that name. A forced move onto a directory fails too.
  */
  function MigrateStep(es: Entries, above: Entries, allowed: seq<string>, force: bool, name: string): Result<Entries>
  {
    if !Movable(es, allowed, name) then Ok(es)
    else
      var bn, ext := Stem(name), SuffixExt(name);
      var dest := OrigName(bn, ext);
      if bn == "." then
        if dest in es && !force then Ok(es)
        else if dest in es && es[dest].Dir? then Err(IsADirectory(dest))
        else Ok(es[dest := es[name]] - {name})
      else if bn == ".." then
        if dest in above && !force then Ok(es)
        else if dest in above && above[dest].Dir? then Err(IsADirectory(dest))
        else Ok(es - {name})
      else if bn in es && es[bn].File? then Err(FileExists(bn))
      else
        var files := if bn in es then es[bn].files else map[];
        if dest !in files || force then Ok(es[bn := Dir(files[dest := es[name].image])] - {name})
        else Ok(es[bn := Dir(files)])
  }

  /** The loop over the entries in `order`, stopping at the first exception. */
  function MigrateAll(es: Entries, above: Entries, allowed: seq<string>, force: bool, order: seq<string>): Outcome
    decreases |order|
  {
    if order == [] then Completed(es)
    else
      match MigrateAll(es, above, allowed, force, order[..|order| - 1])
      case Failed(e, es1) => Failed(e, es1)
      case Completed(es1) =>
        match MigrateStep(es1, above, allowed, force, order[|order| - 1])
        case Err(e) => Failed(e, es1)
        case Ok(es2) => Completed(es2)
  }

  /** _init_simple_dir(base_path, allowed, force) on a directory that may be missing. */
  function InitSimpleDir(present: bool, es: Entries, above: Entries, allowed: seq<string>, force: bool, order: seq<string>): Outcome
  {
    if !present then Failed(NoSuchDir, es) else MigrateAll(es, above, allowed, force, order)
  }

  // ---------------------------------------------------------------------
  // One turn
  // ---------------------------------------------------------------------

  /** A name with an extension is longer than its stem, so the two differ. */
  lemma StemDiffers(name: string)
    requires SuffixExt(name) != ""
    ensures Stem(name) != name
  {
  }

  /** A file is never its own destination: where the name has a dot, the destination has the hyphen of "-orig". */
  lemma OrigDiffers(name: string)
    ensures OrigName(Stem(name), SuffixExt(name)) != name
  {
    var bn, ext := Stem(name), SuffixExt(name);
    if ext != "" {
      assert name[|bn|] == '.';
      assert OrigName(bn, ext)[|bn|] == '-';
    }
  }

  /**
    What one turn does to a file whose stem is neither "." nor "..": it
    touches nothing but the file and its asset directory; it fails exactly
    when a file stands where the directory goes, and otherwise leaves the
    directory in place and either moves the file into it or, when the
    original is there and the move is not forced, leaves it where it is.
  */
  lemma StepEffect(es: Entries, above: Entries, allowed: seq<string>, force: bool, name: string)
    requires Movable(es, allowed, name) && Stem(name) != "." && Stem(name) != ".."
    ensures var r := MigrateStep(es, above, allowed, force, name);
      var bn, ext := Stem(name), SuffixExt(name);
      (r.Ok? ==> forall k :: k != name && k != bn ==> (k in r.value <==> k in es) && (k in es ==> r.value[k] == es[k])) &&
      (r.Err? <==> bn in es && es[bn].File?) &&
      (r.Err? ==> r.error == FileExists(bn)) &&
      (r.Ok? ==>
        bn != name && bn in r.value && r.value[bn].Dir? && r.value.Keys <= es.Keys + {bn} &&
        var files := if bn in es then es[bn].files else map[];
        var dest := OrigName(bn, ext);
        if dest !in files || force then
          name !in r.value && r.value[bn].files == files[dest := es[name].image]
        else
          r.value == es)
  {
    var bn := Stem(name);
    if SuffixExt(name) == "" {
      assert bn == name;
    } else {
      StemDiffers(name);
    }
    if bn in es && es[bn].Dir? && OrigName(bn, SuffixExt(name)) in es[bn].files && !force {
      assert es[bn := Dir(es[bn].files)] == es;
    }
  }

  /**
    What one turn does to a file of stem ".": it becomes the loose file
    `.-orig.<ext>` of the images directory when that name is free or the
    move is forced; a forced move onto a directory of that name fails.
  */
  lemma DotStepEffect(es: Entries, above: Entries, allowed: seq<string>, force: bool, name: string)
    requires Movable(es, allowed, name) && Stem(name) == "."
    ensures var r := MigrateStep(es, above, allowed, force, name);
      var dest := OrigName(".", SuffixExt(name));
      dest != name &&
      (r.Err? <==> force && dest in es && es[dest].Dir?) &&
      (r.Err? ==> r.error == IsADirectory(dest)) &&
      (r.Ok? ==> r.value == if dest !in es || force then es[dest := es[name]] - {name} else es)
  {
    OrigDiffers(name);
  }

  /**
    What one turn does to a file of stem "..": it leaves the images
    directory when `..-orig.<ext>` is free in the directory above or the
    move is forced; a forced move onto a directory of that name fails.
  */
  lemma UpStepEffect(es: Entries, above: Entries, allowed: seq<string>, force: bool, name: string)
    requires Movable(es, allowed, name) && Stem(name) == ".."
    ensures var r := MigrateStep(es, above, allowed, force, name);
      var dest := OrigName("..", SuffixExt(name));
      (r.Err? <==> force && dest in above && above[dest].Dir?) &&
      (r.Err? ==> r.error == IsADirectory(dest)) &&
      (r.Ok? ==> r.value == if dest !in above || force then es - {name} else es)
  {
  }

  /** The entries of IMAGE_EXTS are non-empty runs of lower-case letters. */
  lemma ImageExtLower(ext: string)
    requires ext in ImageExts
    ensures |ext| > 0 && AllLower(ext) && NoSlash(ext)
  {
  }

  /** The front part of a single-line name without "/" is one too. */
  lemma FrontPlain(name: string, bn: string, rest: string)
    requires name == bn + rest && NoSlash(name) && NoNewline(name)
    ensures NoSlash(bn) && NoNewline(bn)
  {
    forall i | 0 <= i < |bn| ensures bn[i] != '/' && bn[i] != '\n' {
      assert bn[i] == name[i];
    }
  }

  /**
    The move of a loose file `<stem>.<ext>` puts it at
    `<stem>/<stem>-orig.<ext>`, which glob picks up and getImageVariant
    reads back as the "-orig" tag when the extension is one of IMAGE_EXTS,
    the name is a single line and it is not hidden.
  */
  lemma OrigReadsBack(name: string)
    requires SuffixExt(name) in ImageExts && NoSlash(name) && NoNewline(name) && |name| > 0 && name[0] != '.'
    ensures var bn := Stem(name);
      AssetName(bn) && Globbed(OrigName(bn, SuffixExt(name))) &&
      TagOf(bn, OrigName(bn, SuffixExt(name))) == Ok(OrigTag)
  {
    var bn, ext := Stem(name), SuffixExt(name);
    OrigStem(name);
    ImageExtLower(ext);
    OrigTagged(bn, ext);
  }

  /** The stem of a visible one-line plain file with an image extension names an asset directory. */
  lemma OrigStem(name: string)
    requires SuffixExt(name) in ImageExts && NoSlash(name) && NoNewline(name) && |name| > 0 && name[0] != '.'
    ensures AssetName(Stem(name))
  {
    var bn, ext := Stem(name), SuffixExt(name);
    ImageExtLower(ext);
    FrontAsset(name, bn, ext);
  }

  /** The part before ".<ext>" of a visible one-line plain name is an asset directory name. */
  lemma FrontAsset(name: string, bn: string, ext: string)
    requires name == bn + "." + ext && NoSlash(name) && NoNewline(name) && name[0] != '.'
    ensures AssetName(bn)
  {
    assert name == bn + ("." + ext);
    FrontPlain(name, bn, "." + ext);
    assert name[|bn|] == '.';
    assert bn[0] == name[0];
  }

  /** `<bn>-orig.<ext>` is globbed and reads back as "-orig". */
  lemma OrigTagged(bn: string, ext: string)
    requires AssetName(bn) && |ext| > 0 && AllLower(ext)
    ensures Globbed(OrigName(bn, ext)) && TagOf(bn, OrigName(bn, ext)) == Ok(OrigTag)
  {
    VariantParts(bn, OrigTag, ext, "");
    assert OrigName(bn, ext) + "" == OrigName(bn, ext);
  }

  // ---------------------------------------------------------------------
  // Nothing is clobbered without force
  // ---------------------------------------------------------------------

  /** The loose file `n` sits, as `img`, at its original's place `<stem>/<stem>-orig.<ext>`. */
  predicate AtOrig(es: Entries, n: string, img: Image)
  {
    HasOrig(es, n) && es[Stem(n)].files[OrigName(Stem(n), SuffixExt(n))] == img
  }

  /**
    Where the loose file `n`, holding `img`, is found in `es1` after it has
    moved: at its original's place; for stem ".", as the loose file
    `.-orig.<ext>`, or at that file's own original's place once it has moved
    on as well. A file of stem ".." has left for the directory above.
  */
  ghost predicate Landed(es1: Entries, n: string, img: Image)
  {
    var bn := Stem(n);
    if bn == ".." then true
    else if bn == "." then
      var dest := OrigName(bn, SuffixExt(n));
      (dest in es1 && es1[dest] == File(img)) || AtOrig(es1, dest, img)
    else AtOrig(es1, n, img)
  }

  /**
    `es1` keeps everything of `es`: asset directories keep their files
    unchanged, and each loose file is still in place or has landed, unchanged.
  */
  ghost predicate Kept(es: Entries, es1: Entries)
  {
    (forall d :: d in es && es[d].Dir? ==>
      d in es1 && es1[d].Dir? && forall f :: f in es[d].files ==> f in es1[d].files && es1[d].files[f] == es[d].files[f]) &&
    (forall n :: n in es && es[n].File? ==> (n in es1 && es1[n] == es[n]) || Landed(es1, n, es[n].image))
  }

  lemma KeptRefl(es: Entries)
    ensures Kept(es, es)
  {
  }

  lemma KeptTrans(es: Entries, es1: Entries, es2: Entries)
    requires Kept(es, es1) && Kept(es1, es2)
    ensures Kept(es, es2)
  {
    forall n | n in es && es[n].File?
      ensures (n in es2 && es2[n] == es[n]) || Landed(es2, n, es[n].image)
    {
      KeptFile(es, es1, es2, n);
    }
  }

  /** A file at its original's place stays there. */
  lemma AtOrigKept(es1: Entries, es2: Entries, n: string, img: Image)
    requires Kept(es1, es2) && AtOrig(es1, n, img)
    ensures AtOrig(es2, n, img)
  {
    var bn, dest := Stem(n), OrigName(Stem(n), SuffixExt(n));
    assert bn in es1 && es1[bn].Dir? && dest in es1[bn].files;
  }

  /** `.-orig.<ext>` has the stem ".-orig", so it moves on like any other file. */
  lemma DotOrigStem(ext: string)
    ensures Stem(OrigName(".", ext)) != "." && Stem(OrigName(".", ext)) != ".."
  {
    var d := OrigName(".", ext);
    var s := Stem(d);
    assert d[1] == '-' && |d| >= 7;
    assert d == s + Suffix(d);
    if |s| <= 2 {
      assert |Suffix(d)| >= 5;
      assert d[|s|] == Suffix(d)[0] == '.';
    }
  }

  /** A loose file kept twice is kept. */
  lemma KeptFile(es: Entries, es1: Entries, es2: Entries, n: string)
    requires Kept(es, es1) && Kept(es1, es2) && n in es && es[n].File?
    ensures (n in es2 && es2[n] == es[n]) || Landed(es2, n, es[n].image)
  {
    if n in es1 && es1[n] == es[n] {
      assert es1[n].File?;
    } else {
      LandedKept(es1, es2, n, es[n].image);
    }
  }

  /** A file that has landed stays landed. */
  lemma LandedKept(es1: Entries, es2: Entries, n: string, img: Image)
    requires Kept(es1, es2) && Landed(es1, n, img)
    ensures Landed(es2, n, img)
  {
    var bn := Stem(n);
    if bn == "." {
      var dest := OrigName(bn, SuffixExt(n));
      if dest in es1 && es1[dest] == File(img) {
        DotOrigStem(SuffixExt(n));
        assert (dest in es2 && es2[dest] == es1[dest]) || Landed(es2, dest, img);
      } else {
        AtOrigKept(es1, es2, dest, img);
      }
    } else if bn != ".." {
      AtOrigKept(es1, es2, n, img);
    }
  }

  /**
    A turn that is not forced overwrites nothing: the images directory keeps
    everything, and a file leaves for the directory above only where its
    name there is free.
  */
  lemma StepKeeps(es: Entries, above: Entries, allowed: seq<string>, name: string)
    requires MigrateStep(es, above, allowed, false, name).Ok?
    ensures Kept(es, MigrateStep(es, above, allowed, false, name).value)
    ensures MigrateStep(es, above, allowed, false, name).value != es ==>
      Stem(name) != ".." || OrigName("..", SuffixExt(name)) !in above
  {
    if !Movable(es, allowed, name) {
      KeptRefl(es);
    } else if Stem(name) == "." {
      DotStepKeeps(es, above, allowed, name);
    } else if Stem(name) == ".." {
      UpStepKeeps(es, above, allowed, name);
    } else {
      PlainStepKeeps(es, above, allowed, name);
    }
  }

  lemma DotStepKeeps(es: Entries, above: Entries, allowed: seq<string>, name: string)
    requires Movable(es, allowed, name) && Stem(name) == "."
    requires MigrateStep(es, above, allowed, false, name).Ok?
    ensures Kept(es, MigrateStep(es, above, allowed, false, name).value)
  {
    DotStepEffect(es, above, allowed, false, name);
    var es1 := MigrateStep(es, above, allowed, false, name).value;
    var dest := OrigName(".", SuffixExt(name));
    if dest in es {
      assert es1 == es;
      KeptRefl(es);
    } else {
      assert es1 == es[dest := es[name]] - {name};
      assert Landed(es1, name, es[name].image);
    }
  }

  lemma UpStepKeeps(es: Entries, above: Entries, allowed: seq<string>, name: string)
    requires Movable(es, allowed, name) && Stem(name) == ".."
    requires MigrateStep(es, above, allowed, false, name).Ok?
    ensures Kept(es, MigrateStep(es, above, allowed, false, name).value)
    ensures MigrateStep(es, above, allowed, false, name).value != es ==> OrigName("..", SuffixExt(name)) !in above
  {
    UpStepEffect(es, above, allowed, false, name);
    var es1 := MigrateStep(es, above, allowed, false, name).value;
    assert Landed(es1, name, es[name].image);
  }

  lemma PlainStepKeeps(es: Entries, above: Entries, allowed: seq<string>, name: string)
    requires Movable(es, allowed, name) && Stem(name) != "." && Stem(name) != ".."
    requires MigrateStep(es, above, allowed, false, name).Ok?
    ensures Kept(es, MigrateStep(es, above, allowed, false, name).value)
  {
    StepEffect(es, above, allowed, false, name);
    var es1 := MigrateStep(es, above, allowed, false, name).value;
    var bn := Stem(name);
    forall n | n in es && es[n].File?
      ensures (n in es1 && es1[n] == es[n]) || Landed(es1, n, es[n].image)
    {
      if n == name && es1 != es {
        assert AtOrig(es1, name, es[name].image);
      }
    }
  }

  /**
    Without force the migration, however it ends, keeps every file: what
    was in an asset directory stays, and a loose file stays or lands.
  */
  lemma {:induction false} MigrateKeeps(es: Entries, above: Entries, allowed: seq<string>, order: seq<string>)
    ensures Kept(es, MigrateAll(es, above, allowed, false, order).entries)
    decreases |order|
  {
    if order == [] {
      KeptRefl(es);
    } else {
      var init := order[..|order| - 1];
      MigrateKeeps(es, above, allowed, init);
      match MigrateAll(es, above, allowed, false, init)
      case Failed(_, _) =>
      case Completed(es1) =>
        if MigrateStep(es1, above, allowed, false, order[|order| - 1]).Ok? {
          StepKeeps(es1, above, allowed, order[|order| - 1]);
          KeptTrans(es, es1, MigrateStep(es1, above, allowed, false, order[|order| - 1]).value);
        }
    }
  }

  // ---------------------------------------------------------------------
  // The layout a completed migration leaves, and a second run
  // ---------------------------------------------------------------------

  /**
    The destination of the loose file `n` is taken, so an unforced turn
    leaves it where it is: its asset directory holds its original; for stem
    ".", the images directory holds `.-orig.<ext>`; for stem "..", the
    directory above holds `..-orig.<ext>`.
  */
  predicate Placed(es: Entries, above: Entries, n: string)
  {
    var bn := Stem(n);
    var dest := OrigName(bn, SuffixExt(n));
    if bn == "." then dest in es
    else if bn == ".." then dest in above
    else HasOrig(es, n)
  }

  /** Every loose file the loop would move has its destination taken. */
  predicate Migrated(es: Entries, above: Entries, allowed: seq<string>)
  {
    forall n :: n in es && Movable(es, allowed, n) ==> Placed(es, above, n)
  }

  /** No loose file with an allowed extension has the stem "." (the name "..png", say). */
  predicate NoDotStems(es: Entries, allowed: seq<string>)
  {
    forall n :: n in es && Movable(es, allowed, n) ==> Stem(n) != "."
  }

  /**
    What holds after the turns over `done`: asset directories only grew,
    no loose file appeared, and each handled loose file still there has its
    destination taken.
  */
  ghost predicate Progress(es0: Entries, es: Entries, above: Entries, allowed: seq<string>, done: seq<string>)
  {
    (forall d :: d in es0 && es0[d].Dir? ==> d in es && es[d].Dir? && es0[d].files.Keys <= es[d].files.Keys) &&
    (forall n :: n in es && es[n].File? ==> n in es0 && es0[n].File?) &&
    (forall n :: n in done && Movable(es, allowed, n) ==> Placed(es, above, n))
  }

  /**
    A turn grows asset directories, makes no loose file but `.-orig.<ext>`
    for a file of stem ".", and leaves its file moved or with its
    destination taken.
  */
  lemma StepGrowth(es: Entries, above: Entries, allowed: seq<string>, force: bool, name: string)
    requires MigrateStep(es, above, allowed, force, name).Ok?
    ensures var es1 := MigrateStep(es, above, allowed, force, name).value;
      (forall d :: d in es && es[d].Dir? ==> d in es1 && es1[d].Dir? && es[d].files.Keys <= es1[d].files.Keys) &&
      (forall n :: n in es1 && es1[n].File? ==>
        (n in es && es1[n] == es[n]) || (Stem(name) == "." && n == OrigName(".", SuffixExt(name)))) &&
      (Movable(es1, allowed, name) ==> Placed(es1, above, name))
  {
    if Movable(es, allowed, name) {
      var bn := Stem(name);
      if bn == "." {
        DotStepEffect(es, above, allowed, force, name);
      } else if bn == ".." {
        UpStepEffect(es, above, allowed, force, name);
      } else {
        StepEffect(es, above, allowed, force, name);
      }
    }
  }

  lemma StepProgress(es0: Entries, es: Entries, above: Entries, allowed: seq<string>, force: bool, done: seq<string>, name: string)
    requires Progress(es0, es, above, allowed, done) && NoDotStems(es0, allowed)
    requires MigrateStep(es, above, allowed, force, name).Ok?
    ensures Progress(es0, MigrateStep(es, above, allowed, force, name).value, above, allowed, done + [name])
  {
    StepGrowth(es, above, allowed, force, name);
    var es1 := MigrateStep(es, above, allowed, force, name).value;
    if Movable(es, allowed, name) {
      assert Movable(es0, allowed, name);
    } else {
      assert es1 == es;
    }
    forall n | n in done && n != name && Movable(es1, allowed, n) ensures Placed(es1, above, n) {
      assert n in es && es1[n] == es[n];
      assert Movable(es, allowed, n) && Movable(es0, allowed, n);
      assert Placed(es, above, n);
      assert Stem(n) != ".";
      PlacedStays(es, es1, above, n);
    }
  }

  /** Asset directories that only grow keep a destination taken. */
  lemma PlacedStays(es: Entries, es1: Entries, above: Entries, n: string)
    requires forall d :: d in es && es[d].Dir? ==> d in es1 && es1[d].Dir? && es[d].files.Keys <= es1[d].files.Keys
    requires Placed(es, above, n) && Stem(n) != "."
    ensures Placed(es1, above, n)
  {
    if Stem(n) != ".." {
      assert Stem(n) in es && es[Stem(n)].Dir?;
    }
  }

  lemma {:induction false} MigrateProgress(es: Entries, above: Entries, allowed: seq<string>, force: bool, order: seq<string>)
    requires MigrateAll(es, above, allowed, force, order).Completed? && NoDotStems(es, allowed)
    ensures Progress(es, MigrateAll(es, above, allowed, force, order).entries, above, allowed, order)
    decreases |order|
  {
    if order != [] {
      var init := order[..|order| - 1];
      MigrateProgress(es, above, allowed, force, init);
      var es1 := MigrateAll(es, above, allowed, force, init).entries;
      StepProgress(es, es1, above, allowed, force, init, order[|order| - 1]);
      assert init + [order[|order| - 1]] == order;
    }
  }

  /**
    A migration that completes over a listing of every entry, with no file
    of stem ".", leaves each loose file with an allowed extension with its
    destination taken: it was moved, or its move was refused.
  */
  lemma MigrateLayout(es: Entries, above: Entries, allowed: seq<string>, force: bool, order: seq<string>)
    requires forall k :: k in es ==> k in order
    requires MigrateAll(es, above, allowed, force, order).Completed? && NoDotStems(es, allowed)
    ensures Migrated(MigrateAll(es, above, allowed, force, order).entries, above, allowed)
  {
    MigrateProgress(es, above, allowed, force, order);
  }

  /** On a migrated directory an unforced turn changes nothing. */
  lemma StepNoop(es: Entries, above: Entries, allowed: seq<string>, name: string)
    requires Migrated(es, above, allowed)
    ensures MigrateStep(es, above, allowed, false, name) == Ok(es)
  {
    if Movable(es, allowed, name) {
      var bn := Stem(name);
      if bn != "." && bn != ".." {
        assert es[bn := Dir(es[bn].files)] == es;
      }
    }
  }

  lemma {:induction false} MigrateNoop(es: Entries, above: Entries, allowed: seq<string>, order: seq<string>)
    requires Migrated(es, above, allowed)
    ensures MigrateAll(es, above, allowed, false, order) == Completed(es)
    decreases |order|
  {
    if order != [] {
      MigrateNoop(es, above, allowed, order[..|order| - 1]);
      StepNoop(es, above, allowed, order[|order| - 1]);
    }
  }

  /**
    Idempotence: after a completed migration over a listing of every entry,
    with no file of stem ".", an unforced second migration, in any order and
    whatever the directory above has gained meanwhile, changes nothing.
  */
  lemma MigrateIdempotent(es: Entries, above: Entries, above2: Entries, allowed: seq<string>, force: bool,
                          order1: seq<string>, order2: seq<string>)
    requires forall k :: k in es ==> k in order1
    requires MigrateAll(es, above, allowed, force, order1).Completed? && NoDotStems(es, allowed)
    requires above.Keys <= above2.Keys
    ensures var es1 := MigrateAll(es, above, allowed, force, order1).entries;
      MigrateAll(es1, above2, allowed, false, order2) == Completed(es1)
  {
    var es1 := MigrateAll(es, above, allowed, force, order1).entries;
    MigrateLayout(es, above, allowed, force, order1);
    assert Migrated(es1, above2, allowed) by {
      forall n | n in es1 && Movable(es1, allowed, n) ensures Placed(es1, above2, n) {
        assert Placed(es1, above, n);
      }
    }
    MigrateNoop(es1, above2, allowed, order2);
  }

  /** A migration over one entry is one turn. */
  lemma MigrateOne(es: Entries, above: Entries, allowed: seq<string>, force: bool, name: string)
    ensures MigrateAll(es, above, allowed, force, [name]) ==
      match MigrateStep(es, above, allowed, force, name)
      case Err(e) => Failed(e, es)
      case Ok(es2) => Completed(es2)
  {
    assert [name][..0] == [];
  }

  /**
    A file of stem "." defeats idempotence: "..png" becomes the loose file
    ".-orig.png", which a second run moves on into ".-orig/".
  */
  lemma DotStemNotIdempotent(img: Image, above: Entries)
    ensures var es := map["..png" := File(img)];
      var es1 := map[".-orig.png" := File(img)];
      MigrateAll(es, above, ImageExts, false, ["..png"]) == Completed(es1) &&
      MigrateAll(es1, above, ImageExts, false, [".-orig.png"]) == Completed(map[".-orig" := Dir(map[".-orig-orig.png" := img])])
  {
    DotFileMoves(img, above);
    DotOrigMovesOn(img, above);
    MigrateOne(map["..png" := File(img)], above, ImageExts, false, "..png");
    MigrateOne(map[".-orig.png" := File(img)], above, ImageExts, false, ".-orig.png");
  }

  lemma DotFileMoves(img: Image, above: Entries)
    ensures MigrateStep(map["..png" := File(img)], above, ImageExts, false, "..png") == Ok(map[".-orig.png" := File(img)])
  {
    var es := map["..png" := File(img)];
    StemOfJoin(".", "png");
    assert "." + "." + "png" == "..png";
    assert OrigName(".", "png") == ".-orig.png";
    assert es[".-orig.png" := es["..png"]] - {"..png"} == map[".-orig.png" := File(img)];
  }

  lemma DotOrigMovesOn(img: Image, above: Entries)
    ensures MigrateStep(map[".-orig.png" := File(img)], above, ImageExts, false, ".-orig.png") ==
      Ok(map[".-orig" := Dir(map[".-orig-orig.png" := img])])
  {
    var es1 := map[".-orig.png" := File(img)];
    StemOfJoin(".-orig", "png");
    assert ".-orig" + "." + "png" == ".-orig.png";
    assert OrigName(".-orig", "png") == ".-orig-orig.png";
    assert es1[".-orig" := Dir(map[][".-orig-orig.png" := img])] - {".-orig.png"} == map[".-orig" := Dir(map[".-orig-orig.png" := img])];
  }

  /** A hidden image ".x.png" moves into the hidden asset directory ".x". */
  lemma HiddenFileMoves(img: Image, above: Entries)
    ensures MigrateStep(map[".x.png" := File(img)], above, ImageExts, false, ".x.png") ==
      Ok(map[".x" := Dir(map[".x-orig.png" := img])])
  {
    var es := map[".x.png" := File(img)];
    StemOfJoin(".x", "png");
    assert ".x" + "." + "png" == ".x.png";
    assert OrigName(".x", "png") == ".x-orig.png";
    assert es[".x" := Dir(map[][".x-orig.png" := img])] - {".x.png"} == map[".x" := Dir(map[".x-orig.png" := img])];
  }

  /** A file of stem ".." leaves the images directory: "...png" moves up as "..-orig.png". */
  lemma UpStemLeaves(img: Image, above: Entries)
    requires "..-orig.png" !in above
    ensures MigrateAll(map["...png" := File(img)], above, ImageExts, false, ["...png"]) == Completed(map[])
  {
    StemOfJoin("..", "png");
    assert ".." + "." + "png" == "...png";
    assert OrigName("..", "png") == "..-orig.png";
    assert map["...png" := File(img)] - {"...png"} == map[];
    MigrateOne(map["...png" := File(img)], above, ImageExts, false, "...png");
  }
}

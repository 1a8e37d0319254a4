/**
  What resize_image_dir promises: which source a directory uses, that the
  "already done" skip never fires, when a variant is written and under what
  name, and that nothing already on disk is changed or removed.
*/
module ResizeProofs {
  import opened Grammar
  import opened Order
  import opened Disk
  import opened Resize

  // ---------------------------------------------------------------------
  // The skip on f"{w}x{h}"
  // ---------------------------------------------------------------------

  /**
    Every key of a tag map begins with "-" while f"{w}x{h}" begins with a
    digit, so the skip meant for directories that already hold the size
    never happens.
  */
  lemma DoneKeyNeverPresent(d: string, names: seq<string>, w: nat, h: nat)
    requires TagMap(Tagger(d), d, names).Ok?
    ensures DoneKey(w, h) !in TagMap(Tagger(d), d, names).value
  {
    var k := DoneKey(w, h);
    assert k[0] == Decimal(w)[0];
    assert IsDigit(k[0]);
    TagMapDashKeys(d, names);
  }

  /** Every key getImageVariant yields begins with "-". */
  lemma TagMapDashKeys(d: string, names: seq<string>)
    requires TagMap(Tagger(d), d, names).Ok?
    ensures forall t :: t in TagMap(Tagger(d), d, names).value ==> |t| >= 4 && t[0] == '-'
  {
    TagMapKeys(Tagger(d), d, names);
    forall t | t in TagMap(Tagger(d), d, names).value ensures |t| >= 4 && t[0] == '-' {
      var i :| HasTagAt(Tagger(d), names, i, t);
      assert TagOf(d, names[i]) == Ok(t);
    }
  }

  /** Hence the first pass passes over an entry only when it is a loose file. */
  lemma OnlyFilesSkipped(es: Entries, l: Listing, d: string, w: nat, h: nat)
    requires DirSource(es, l, d, w, h) == Ok(None)
    ensures d in es && es[d].File?
  {
    if !(d in es && es[d].File?) {
      DoneKeyNeverPresent(d, DirListing(l, d), w, h);
    }
  }

  // ---------------------------------------------------------------------
  // Which source a directory uses
  // ---------------------------------------------------------------------

  lemma StdTagsAreSizeTags()
    ensures StdTag("512") == SizeTag(512, 512)
    ensures StdTag("256") == SizeTag(256, 256)
    ensures StdTag("128") == SizeTag(128, 128)
  {
    assert Decimal(5) == "5" && Decimal(51) == "51" && Decimal(512) == "512";
    assert Decimal(2) == "2" && Decimal(25) == "25" && Decimal(256) == "256";
    assert Decimal(1) == "1" && Decimal(12) == "12" && Decimal(128) == "128";
  }

  /** The standard sizes, as numbers. */
  predicate IsStdSize(n: nat)
  {
    n == 512 || n == 256 || n == 128
  }

  /**
    The source tag: the largest standard size the directory holds, "-orig"
    only when it holds none, and nothing (the KeyError) only when it holds
    neither a standard size nor "-orig".
  */
  lemma SourceTagPriority(tags: set<string>)
    ensures SourceTag(tags).Some? ==> SourceTag(tags).value in tags
    ensures SourceTag(tags).None? <==> OrigTag !in tags && forall n :: IsStdSize(n) ==> SizeTag(n, n) !in tags
    ensures SourceTag(tags) == Some(OrigTag) ==> forall n :: IsStdSize(n) ==> SizeTag(n, n) !in tags
    ensures SourceTag(tags).Some? && SourceTag(tags).value != OrigTag ==>
      exists n :: IsStdSize(n) && SourceTag(tags).value == SizeTag(n, n) &&
        forall k :: IsStdSize(k) && SizeTag(k, k) in tags ==> k <= n
  {
    StdTagsAreSizeTags();
    assert StdSizes[0] == "512" && StdSizes[1] == "256" && StdSizes[2] == "128";
    assert StdSizes[1..] == ["256", "128"] && StdSizes[2..] == ["128"];
    if StdTag("512") in tags {
      assert SourceTag(tags) == Some(SizeTag(512, 512));
    } else if StdTag("256") in tags {
      assert FirstStd(tags, StdSizes[1..]) == Some("256");
      assert SourceTag(tags) == Some(SizeTag(256, 256));
    } else if StdTag("128") in tags {
      assert FirstStd(tags, StdSizes[2..]) == Some("128");
      assert SourceTag(tags) == Some(SizeTag(128, 128));
    } else {
      assert FirstStd(tags, StdSizes[2..]) == None;
      assert FirstStd(tags, StdSizes) == None;
    }
  }

  /**
    Adding a tag can only make the source that tag: the choice among the
    tags already there does not change.
  */
  lemma SourceTagAfterAdd(tags: set<string>, k: string)
    requires SourceTag(tags).Some?
    ensures SourceTag(tags + {k}) == SourceTag(tags) || SourceTag(tags + {k}) == Some(k)
  {
    SourceTagPriority(tags);
    SourceTagPriority(tags + {k});
    StdTagsAreSizeTags();
  }

  // ---------------------------------------------------------------------
  // The tag map
  // ---------------------------------------------------------------------

  /** A tag map is built exactly when every globbed name carries a tag. */
  lemma {:induction false} TagMapOkIff(tag: string -> Result<string>, d: string, names: seq<string>)
    ensures TagMap(tag, d, names).Ok? <==> forall f :: f in names && Globbed(f) ==> tag(f).Ok?
    decreases |names|
  {
    if names != [] {
      var init, f := names[..|names| - 1], names[|names| - 1];
      TagMapOkIff(tag, d, init);
      assert names == init + [f];
    }
  }

  /** The `i`-th name of the listing is globbed and carries tag `t`. */
  predicate HasTagAt(tag: string -> Result<string>, names: seq<string>, i: int, t: string)
  {
    0 <= i < |names| && Globbed(names[i]) && tag(names[i]) == Ok(t)
  }

  /** ... and no later globbed name carries it. */
  predicate LastWithTag(tag: string -> Result<string>, names: seq<string>, i: int, t: string)
  {
    HasTagAt(tag, names, i, t) && forall j :: i < j < |names| ==> !HasTagAt(tag, names, j, t)
  }

  lemma HasTagAtPrefix(tag: string -> Result<string>, names: seq<string>, init: seq<string>, i: int, t: string)
    requires names != [] && init == names[..|names| - 1] && 0 <= i < |init|
    ensures HasTagAt(tag, init, i, t) <==> HasTagAt(tag, names, i, t)
    ensures init[i] == names[i]
  {
  }

  /** The tags of a tag map are exactly those of the globbed names. */
  lemma {:induction false} TagMapKeys(tag: string -> Result<string>, d: string, names: seq<string>)
    requires TagMap(tag, d, names).Ok?
    ensures forall t :: t in TagMap(tag, d, names).value <==> exists i :: HasTagAt(tag, names, i, t)
    decreases |names|
  {
    if names != [] {
      var init := names[..|names| - 1];
      TagMapKeys(tag, d, init);
      forall t ensures t in TagMap(tag, d, names).value <==> exists i :: HasTagAt(tag, names, i, t) {
        TagMapKeysAt(tag, d, names, init, t);
      }
    }
  }

  lemma TagMapKeysAt(tag: string -> Result<string>, d: string, names: seq<string>, init: seq<string>, t: string)
    requires names != [] && init == names[..|names| - 1] && TagMap(tag, d, names).Ok?
    requires TagMap(tag, d, init).Ok?
    requires t in TagMap(tag, d, init).value <==> exists i :: HasTagAt(tag, init, i, t)
    ensures t in TagMap(tag, d, names).value <==> exists i :: HasTagAt(tag, names, i, t)
  {
    var f := names[|names| - 1];
    var m0, m := TagMap(tag, d, init).value, TagMap(tag, d, names).value;
    assert m == if Globbed(f) then m0[tag(f).value := d + "/" + f] else m0;
    if t in m {
      if Globbed(f) && tag(f) == Ok(t) {
        assert HasTagAt(tag, names, |names| - 1, t);
      } else {
        assert t in m0;
        var i :| HasTagAt(tag, init, i, t);
        HasTagAtPrefix(tag, names, init, i, t);
      }
    }
    if exists i :: HasTagAt(tag, names, i, t) {
      var i :| HasTagAt(tag, names, i, t);
      if i < |init| {
        HasTagAtPrefix(tag, names, init, i, t);
        assert t in m0;
        assert t in m;
      } else {
        assert names[i] == f;
        assert Globbed(f) && tag(f) == Ok(t);
        assert m == m0[t := d + "/" + f];
      }
    }
  }

  /** Each tag of a tag map maps to the path of the last globbed name that carries it. */
  lemma {:induction false} TagMapLastWins(tag: string -> Result<string>, d: string, names: seq<string>)
    requires TagMap(tag, d, names).Ok?
    ensures var m := TagMap(tag, d, names).value;
      forall t :: t in m ==> exists i :: LastWithTag(tag, names, i, t) && m[t] == d + "/" + names[i]
    decreases |names|
  {
    if names != [] {
      var init := names[..|names| - 1];
      TagMapLastWins(tag, d, init);
      var m := TagMap(tag, d, names).value;
      forall t | t in m ensures exists i :: LastWithTag(tag, names, i, t) && m[t] == d + "/" + names[i] {
        TagMapLastAt(tag, d, names, init, t);
      }
    }
  }

  lemma TagMapLastAt(tag: string -> Result<string>, d: string, names: seq<string>, init: seq<string>, t: string)
    requires names != [] && init == names[..|names| - 1] && TagMap(tag, d, names).Ok?
    requires TagMap(tag, d, init).Ok? && t in TagMap(tag, d, names).value
    requires t in TagMap(tag, d, init).value ==>
      exists i :: LastWithTag(tag, init, i, t) && TagMap(tag, d, init).value[t] == d + "/" + init[i]
    ensures exists i :: LastWithTag(tag, names, i, t) && TagMap(tag, d, names).value[t] == d + "/" + names[i]
  {
    var f := names[|names| - 1];
    var m0, m := TagMap(tag, d, init).value, TagMap(tag, d, names).value;
    assert m == if Globbed(f) then m0[tag(f).value := d + "/" + f] else m0;
    if HasTagAt(tag, names, |init|, t) {
      assert m[t] == d + "/" + f;
      assert LastWithTag(tag, names, |init|, t);
    } else {
      assert t in m0 && m[t] == m0[t];
      var i :| LastWithTag(tag, init, i, t) && m0[t] == d + "/" + init[i];
      LastWithTagExtend(tag, names, init, i, t);
    }
  }

  lemma LastWithTagExtend(tag: string -> Result<string>, names: seq<string>, init: seq<string>, i: int, t: string)
    requires names != [] && init == names[..|names| - 1]
    requires LastWithTag(tag, init, i, t) && !HasTagAt(tag, names, |init|, t)
    ensures LastWithTag(tag, names, i, t) && names[i] == init[i]
  {
    HasTagAtPrefix(tag, names, init, i, t);
    forall j | i < j < |names| ensures !HasTagAt(tag, names, j, t) {
      if j < |init| { HasTagAtPrefix(tag, names, init, j, t); }
    }
  }

  // ---------------------------------------------------------------------
  // The second pass on one directory
  // ---------------------------------------------------------------------

  /**
    The second pass on a source fails exactly when the file is gone, its
    shape does not unpack into three values, or its second axis is 0.
  */
  lemma ProcessDirFails(files: map<string, Image>, name: string, f: string, path: string,
                        w: nat, h: nat, reqAr: real)
    ensures ProcessDir(files, name, f, path, w, h, reqAr).Err? <==>
      f !in files || |files[f].shape| != 3 || files[f].shape[1] == 0
    ensures f !in files ==> ProcessDir(files, name, f, path, w, h, reqAr) == Err(Unreadable(path))
    ensures f in files && |files[f].shape| != 3 ==> ProcessDir(files, name, f, path, w, h, reqAr) == Err(ShapeUnpack(path))
  {
  }

  /**
    The write rule: a variant is written exactly when the source's aspect
    ratio (rows over columns) equals the requested one and no file of the
    variant's name exists; it is named `<name>-<W>x<H><ext>`, has shape
    (W, H, min(channels, 3)), is made from the source, and no other file
    changes.
  */
  lemma WriteRule(files: map<string, Image>, name: string, f: string, path: string, w: nat, h: nat)
    requires h != 0
    requires ProcessDir(files, name, f, path, w, h, AspectRatio(w, h).value).Ok?
    ensures var r := ProcessDir(files, name, f, path, w, h, AspectRatio(w, h).value).value;
      var img := files[f];
      var dest := VariantName(name, f, w, h);
      (r != files <==> img.shape[0] * h == w * img.shape[1] && dest !in files) &&
      (r != files ==> r == files[dest := Image([w, h, Min(img.shape[2], 3)], ResizeOf(img.origin, w, h))])
  {
    var img := files[f];
    AspectEqual(img.shape[0], img.shape[1], w, h);
  }

  // ---------------------------------------------------------------------
  // Nothing on disk is changed or removed
  // ---------------------------------------------------------------------

  /**
    `files2` holds every file of `files`, unchanged, and every other file
    in it is a `<name>-<W>x<H>` variant made by resizing.
  */
  ghost predicate FilesGrow(files: map<string, Image>, files2: map<string, Image>, name: string, w: nat, h: nat)
  {
    (forall g :: g in files ==> g in files2 && files2[g] == files[g]) &&
    (forall g :: g in files2 && g !in files ==> NewVariant(name, g, files2[g], w, h))
  }

  /** `es2` has the entries of `es`, loose files unchanged, asset directories grown. */
  ghost predicate Grows(es: Entries, es2: Entries, w: nat, h: nat)
  {
    es2.Keys == es.Keys &&
    forall k :: k in es ==>
      if es[k].File? then es2[k] == es[k]
      else es2[k].Dir? && FilesGrow(es[k].files, es2[k].files, Basename(k), w, h)
  }

  /** A file written by the resize: its name begins `<name>-<W>x<H>`, its pixels are a W by H resize. */
  ghost predicate NewVariant(name: string, g: string, img: Image, w: nat, h: nat)
  {
    (exists e :: g == name + SizeTag(w, h) + e) &&
    img.origin.ResizeOf? && img.origin.width == w && img.origin.height == h &&
    |img.shape| == 3 && img.shape[0] == w && img.shape[1] == h && img.shape[2] <= 3
  }

  lemma GrowsRefl(es: Entries, w: nat, h: nat)
    ensures Grows(es, es, w, h)
  {
  }

  lemma FilesGrowTrans(f1: map<string, Image>, f2: map<string, Image>, f3: map<string, Image>, name: string, w: nat, h: nat)
    requires FilesGrow(f1, f2, name, w, h) && FilesGrow(f2, f3, name, w, h)
    ensures FilesGrow(f1, f3, name, w, h)
  {
    forall g | g in f3 && g !in f1 ensures NewVariant(name, g, f3[g], w, h) {
      if g in f2 { assert f3[g] == f2[g]; }
    }
  }

  lemma GrowsTrans(es: Entries, es2: Entries, es3: Entries, w: nat, h: nat)
    requires Grows(es, es2, w, h) && Grows(es2, es3, w, h)
    ensures Grows(es, es3, w, h)
  {
    forall k | k in es && es[k].Dir? ensures es3[k].Dir? && FilesGrow(es[k].files, es3[k].files, Basename(k), w, h) {
      FilesGrowTrans(es[k].files, es2[k].files, es3[k].files, Basename(k), w, h);
    }
  }

  /** The second pass on one source adds at most its variant to the directory. */
  lemma ProcessDirGrows(files: map<string, Image>, name: string, f: string, path: string,
                        w: nat, h: nat, reqAr: real)
    requires ProcessDir(files, name, f, path, w, h, reqAr).Ok?
    ensures FilesGrow(files, ProcessDir(files, name, f, path, w, h, reqAr).value, name, w, h)
  {
    var r := ProcessDir(files, name, f, path, w, h, reqAr).value;
    var dest := VariantName(name, f, w, h);
    if r != files {
      assert r == files[dest := ResizeImage(files[f], w, h).value];
      assert dest == name + SizeTag(w, h) + Ext(f);
      forall g | g in r && g !in files ensures NewVariant(name, g, r[g], w, h) {
        assert g == dest;
      }
    }
  }

  /** Growing one asset directory grows the entries. */
  lemma ReplaceGrows(es: Entries, dn: string, files2: map<string, Image>, w: nat, h: nat)
    requires dn in es && es[dn].Dir? && FilesGrow(es[dn].files, files2, Basename(dn), w, h)
    ensures Grows(es, es[dn := Dir(files2)], w, h)
  {
    var es2 := es[dn := Dir(files2)];
    assert es2.Keys == es.Keys;
    forall k | k in es
      ensures if es[k].File? then es2[k] == es[k]
        else es2[k].Dir? && FilesGrow(es[k].files, es2[k].files, Basename(k), w, h)
    {
      if k != dn {
        assert es2[k] == es[k];
        if es[k].Dir? {
          FilesGrowRefl(es[k].files, Basename(k), w, h);
        }
      }
    }
  }

  lemma FilesGrowRefl(files: map<string, Image>, name: string, w: nat, h: nat)
    ensures FilesGrow(files, files, name, w, h)
  {
  }

  /** One step of the second pass only adds a variant to the source's directory. */
  lemma ProcessSourceGrows(es: Entries, p: string, w: nat, h: nat, reqAr: real)
    requires ProcessSource(es, p, w, h, reqAr).Ok?
    ensures Grows(es, ProcessSource(es, p, w, h, reqAr).value, w, h)
  {
    var dn := Dirname(p);
    var r := ProcessDir(es[dn].files, Basename(dn), Basename(p), p, w, h, reqAr);
    assert ProcessSource(es, p, w, h, reqAr) == Replace(es, dn, r);
    ProcessDirGrows(es[dn].files, Basename(dn), Basename(p), p, w, h, reqAr);
    ReplaceGrows(es, dn, r.value, w, h);
  }

  /** The second pass, whether it completes or stops at an exception, only adds variants. */
  lemma {:induction false} ApplyAllGrows(es: Entries, ps: seq<string>, w: nat, h: nat, reqAr: real)
    ensures Grows(es, ApplyAll(es, ps, w, h, reqAr).entries, w, h)
    decreases |ps|
  {
    if ps == [] {
      GrowsRefl(es, w, h);
    } else {
      var init := ps[..|ps| - 1];
      ApplyAllGrows(es, init, w, h, reqAr);
      match ApplyAll(es, init, w, h, reqAr)
      case Failed(_, _) =>
      case Completed(es1) =>
        if ProcessSource(es1, ps[|ps| - 1], w, h, reqAr).Ok? {
          ProcessSourceGrows(es1, ps[|ps| - 1], w, h, reqAr);
          GrowsTrans(es, es1, ProcessSource(es1, ps[|ps| - 1], w, h, reqAr).value, w, h);
        }
    }
  }

  /**
    resize_image_dir never removes or overwrites a file and never touches a
    loose file: however it ends, the directory it leaves holds what was
    there plus `<dir>-<W>x<H>` variants.
  */
  lemma ResizeOnlyAdds(present: bool, es: Entries, l: Listing, w: nat, h: nat)
    ensures Grows(es, ResizeImageDir(present, es, l, w, h).entries, w, h)
  {
    match AspectRatio(w, h)
    case Err(_) => GrowsRefl(es, w, h);
    case Ok(reqAr) =>
      if !present || CollectSources(es, l, l.root, w, h).Err? {
        GrowsRefl(es, w, h);
      } else {
        ApplyAllGrows(es, Sort(CollectSources(es, l, l.root, w, h).value), w, h, reqAr);
      }
  }
}

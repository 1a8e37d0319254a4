/**
  resize_image_dir over whole runs: each asset directory is handled on its
  own, and a second run with the same size on what a completed run left
  writes nothing.
*/
module ResizeRuns {
  import opened Grammar
  import opened Order
  import opened Disk
  import opened Resize
  import opened ResizeProofs

  // ---------------------------------------------------------------------
  // Tags of a directory, whatever order it is listed in
  // ---------------------------------------------------------------------

  /** File `f` of asset directory `d` is globbed and carries tag `t`. */
  predicate Carries(d: string, files: map<string, Image>, f: string, t: string)
  {
    f in files && Globbed(f) && TagOf(d, f) == Ok(t)
  }

  /** The keys of the tag map of directory `d`. */
  function TagSet(d: string, files: map<string, Image>): set<string>
  {
    set f | f in files && Globbed(f) && TagOf(d, f).Ok? :: TagOf(d, f).value
  }

  /** Every globbed file of `d` has a tag, so its tag map is built. */
  predicate TagsOk(d: string, files: map<string, Image>)
  {
    forall f :: f in files && Globbed(f) ==> TagOf(d, f).Ok?
  }

  /** No two globbed files of `d` share a tag. */
  ghost predicate UniqueTags(d: string, files: map<string, Image>)
  {
    forall f, g, t :: Carries(d, files, f, t) && Carries(d, files, g, t) ==> f == g
  }

  /** Whatever the listing, the tag map has the tags of the directory's files as keys. */
  lemma TagMapKeySet(d: string, names: seq<string>, files: map<string, Image>)
    requires Enumerates(names, files.Keys) && TagMap(Tagger(d), d, names).Ok?
    ensures TagMap(Tagger(d), d, names).value.Keys == TagSet(d, files)
  {
    var m := TagMap(Tagger(d), d, names).value;
    TagMapKeys(Tagger(d), d, names);
    forall t ensures t in m <==> t in TagSet(d, files) {
      if t in m {
        var i :| HasTagAt(Tagger(d), names, i, t);
        assert names[i] in files && TagOf(d, names[i]) == Ok(t);
      }
      if t in TagSet(d, files) {
        var f :| f in files && Globbed(f) && TagOf(d, f).Ok? && TagOf(d, f).value == t;
        var i :| 0 <= i < |names| && names[i] == f;
        assert HasTagAt(Tagger(d), names, i, t);
      }
    }
  }

  /** The listing of a directory yields a tag map exactly when all its globbed files have tags. */
  lemma TagMapOkFiles(d: string, names: seq<string>, files: map<string, Image>)
    requires Enumerates(names, files.Keys)
    ensures TagMap(Tagger(d), d, names).Ok? <==> TagsOk(d, files)
  {
    TagMapOkIff(Tagger(d), d, names);
    if TagMap(Tagger(d), d, names).Ok? {
      forall f | f in files && Globbed(f) ensures TagOf(d, f).Ok? {
        assert f in names && Tagger(d)(f).Ok?;
      }
    }
    if TagsOk(d, files) {
      forall f | f in names && Globbed(f) ensures Tagger(d)(f).Ok? {
        assert f in files;
      }
    }
  }

  /** Every tag of a tag map leads to a file of the directory that carries it. */
  lemma TagMapValue(d: string, names: seq<string>, files: map<string, Image>, t: string)
    requires Enumerates(names, files.Keys) && TagMap(Tagger(d), d, names).Ok?
    requires t in TagMap(Tagger(d), d, names).value
    ensures exists f :: Carries(d, files, f, t) && TagMap(Tagger(d), d, names).value[t] == d + "/" + f
  {
    TagMapLastWins(Tagger(d), d, names);
    var i :| LastWithTag(Tagger(d), names, i, t) && TagMap(Tagger(d), d, names).value[t] == d + "/" + names[i];
    assert names[i] in files && TagOf(d, names[i]) == Ok(t);
    assert Carries(d, files, names[i], t);
  }

  // ---------------------------------------------------------------------
  // The variant written next to a source
  // ---------------------------------------------------------------------

  /** An asset directory name the variant grammar can read back: plain, one line, not hidden. */
  predicate AssetName(d: string)
  {
    PlainName(d) && NoNewline(d) && d[0] != '.'
  }

  /**
    The variant written from a tagged source is itself globbed, carries the
    tag `-<W>x<H>`, keeps the source's extension, and is its own variant.
  */
  lemma VariantTag(d: string, f: string, w: nat, h: nat)
    requires AssetName(d) && NoSlash(f) && TagOf(d, f).Ok?
    ensures var g := VariantName(d, f, w, h);
      PlainName(g) && Globbed(g) && TagOf(d, g) == Ok(SizeTag(w, h)) &&
      Ext(g) == Ext(f) && VariantName(d, g, w, h) == g
  {
    var t := TagOf(d, f).value;
    GetImageVariantMatches(d + "/" + f);
    BasenameOfJoin(d, f);
    var stem, ext, nl :| MatchParts(f, stem, t, ext, nl);
    ExtOfVariantName(stem, t, ext, nl);
    var k := SizeTag(w, h);
    VariantParts(d, k, ext, nl);
    var e := "." + ext + nl;
    var g := d + k + "." + ext + nl;
    assert Ext(f) == e;
    Regroup(d, k, ext, nl);
    assert VariantName(d, f, w, h) == d + k + Ext(f);
    assert VariantName(d, g, w, h) == d + k + Ext(g);
  }

  /** `<d><k>.<ext>` with a size tag `k` and a lower-case extension reads back as tag `k`. */
  lemma VariantParts(d: string, k: string, ext: string, nl: string)
    requires AssetName(d) && IsVariantGroup(k) && |ext| > 0 && AllLower(ext) && (nl == "" || nl == "\n")
    ensures var g := d + k + "." + ext + nl;
      PlainName(g) && Globbed(g) && TagOf(d, g) == Ok(k) && Ext(g) == "." + ext + nl
  {
    var g := d + k + "." + ext + nl;
    ExtOfVariantName(d, k, ext, nl);
    assert MatchParts(g, d, k, ext, nl);
    ParseVariantComplete(g, k);
    VariantPlain(d, k, ext, nl);
    BasenameOfJoin(d, g);
    assert g[0] == d[0];
    assert g[|d + k|] == '.';
  }

  lemma VariantPlain(d: string, k: string, ext: string, nl: string)
    requires AssetName(d) && IsVariantGroup(k) && AllLower(ext) && (nl == "" || nl == "\n")
    ensures NoSlash(d + k + "." + ext + nl)
  {
    GroupPlain(k);
    assert NoSlash(ext) by {
      forall i | 0 <= i < |ext| ensures ext[i] != '/' { assert IsLower(ext[i]); }
    }
    assert NoSlash("." + ext + nl);
    NoSlashJoin(d, k);
    NoSlashJoin(d + k, "." + ext + nl);
    assert d + k + "." + ext + nl == (d + k) + ("." + ext + nl);
  }

  lemma Regroup(d: string, k: string, ext: string, nl: string)
    ensures d + k + "." + ext + nl == d + k + ("." + ext + nl)
  {
  }

  // ---------------------------------------------------------------------
  // The first pass: one source per asset directory
  // ---------------------------------------------------------------------

  /**
    The source a directory contributes is one of its own files carrying the
    tag SourceTag picks from the directory's tags, whatever the listing.
  */
  lemma DirSourceShape(es: Entries, l: Listing, d: string, w: nat, h: nat)
    requires ListingOf(l, es) && d in es && es[d].Dir? && DirSource(es, l, d, w, h).Ok?
    ensures var files := es[d].files;
      TagsOk(d, files) && SourceTag(TagSet(d, files)).Some? && DirSource(es, l, d, w, h).value.Some? &&
      exists f :: Carries(d, files, f, SourceTag(TagSet(d, files)).value) &&
        DirSource(es, l, d, w, h).value.value == d + "/" + f
  {
    var files := es[d].files;
    var names := DirListing(l, d);
    TagMapOkFiles(d, names, files);
    var m := TagMap(Tagger(d), d, names).value;
    TagMapKeySet(d, names, files);
    DoneKeyNeverPresent(d, names, w, h);
    var t := SourceTag(m.Keys).value;
    TagMapValue(d, names, files, t);
  }

  /** A directory whose files all have tags, one of them a source tag, contributes a source. */
  lemma DirSourceOk(es: Entries, l: Listing, d: string, w: nat, h: nat)
    requires ListingOf(l, es) && d in es && es[d].Dir?
    requires TagsOk(d, es[d].files) && SourceTag(TagSet(d, es[d].files)).Some?
    ensures DirSource(es, l, d, w, h).Ok?
  {
    var files := es[d].files;
    var names := DirListing(l, d);
    TagMapOkFiles(d, names, files);
    TagMapKeySet(d, names, files);
    DoneKeyNeverPresent(d, names, w, h);
  }

  /**
    The first pass, when it gets through `order`, has one source for every
    asset directory in `order` and nothing else.
  */
  lemma {:induction false} CollectFacts(es: Entries, l: Listing, order: seq<string>, w: nat, h: nat)
    requires CollectSources(es, l, order, w, h).Ok?
    ensures var ps := CollectSources(es, l, order, w, h).value;
      (forall d :: d in order ==> DirSource(es, l, d, w, h).Ok?) &&
      (forall d :: d in order && DirSource(es, l, d, w, h).value.Some? ==> DirSource(es, l, d, w, h).value.value in ps) &&
      (forall p :: p in ps ==> exists d :: d in order && DirSource(es, l, d, w, h) == Ok(Some(p)))
    decreases |order|
  {
    if order != [] {
      var init, d := order[..|order| - 1], order[|order| - 1];
      CollectFacts(es, l, init, w, h);
      var ps0, ps := CollectSources(es, l, init, w, h).value, CollectSources(es, l, order, w, h).value;
      var r := DirSource(es, l, d, w, h);
      assert r.Ok?;
      assert ps == if r.value.Some? then ps0 + [r.value.value] else ps0;
      forall x | x in order ensures x in init || x == d {
        var i :| 0 <= i < |order| && order[i] == x;
        if i < |init| { assert init[i] == x; }
      }
      forall p | p in ps ensures exists x :: x in order && DirSource(es, l, x, w, h) == Ok(Some(p)) {
        if p in ps0 {
          var x :| x in init && DirSource(es, l, x, w, h) == Ok(Some(p));
          assert x in order;
        } else {
          assert r == Ok(Some(p));
        }
      }
    }
  }

  /** No two of the sources `qs` lie in the same directory. */
  predicate OnePerDir(qs: seq<string>)
  {
    forall i, j :: 0 <= i < j < |qs| ==> Dirname(qs[i]) != Dirname(qs[j])
  }

  /** The sources of the first pass, sorted, lie in distinct directories. */
  lemma SortedOnePerDir(es: Entries, l: Listing, w: nat, h: nat)
    requires ListingOf(l, es) && PlainNames(es) && CollectSources(es, l, l.root, w, h).Ok?
    ensures OnePerDir(Sort(CollectSources(es, l, l.root, w, h).value))
  {
    var ps := CollectSources(es, l, l.root, w, h).value;
    var qs := Sort(ps);
    CollectFacts(es, l, l.root, w, h);
    forall i, j | 0 <= i < j < |qs| ensures Dirname(qs[i]) != Dirname(qs[j]) {
      var di := SourceDir(es, l, qs[i], w, h);
      var dj := SourceDir(es, l, qs[j], w, h);
      assert Less(qs[i], qs[j]);
      LessIrreflexive(qs[i]);
    }
  }

  /** The directory a source of the first pass came from is its dirname. */
  lemma SourceDir(es: Entries, l: Listing, p: string, w: nat, h: nat) returns (d: string)
    requires ListingOf(l, es) && PlainNames(es)
    requires exists d :: d in l.root && DirSource(es, l, d, w, h) == Ok(Some(p))
    ensures d in es && es[d].Dir? && DirSource(es, l, d, w, h) == Ok(Some(p)) && Dirname(p) == d
  {
    d :| d in l.root && DirSource(es, l, d, w, h) == Ok(Some(p));
    DirSourceShape(es, l, d, w, h);
    var f :| Carries(d, es[d].files, f, SourceTag(TagSet(d, es[d].files)).value) && p == d + "/" + f;
    assert f in es[d].files;
    assert PlainName(f);
    DirnameOfJoin(d, f);
  }

  // ---------------------------------------------------------------------
  // The second pass: each source touches only its own directory
  // ---------------------------------------------------------------------

  /** The directories of the sources `qs`. */
  function DirsOf(qs: seq<string>): set<string>
  {
    set p | p in qs :: Dirname(p)
  }

  /** Handling a source reads and writes its own directory only. */
  lemma ProcessSourceLocal(es: Entries, es2: Entries, p: string, w: nat, h: nat, reqAr: real)
    requires ProcessSource(es2, p, w, h, reqAr).Ok?
    requires Dirname(p) in es && es[Dirname(p)] == es2[Dirname(p)]
    ensures ProcessSource(es, p, w, h, reqAr).Ok?
    ensures ProcessSource(es2, p, w, h, reqAr).value ==
      es2[Dirname(p) := ProcessSource(es, p, w, h, reqAr).value[Dirname(p)]]
    ensures ProcessSource(es, p, w, h, reqAr).value ==
      es[Dirname(p) := ProcessSource(es, p, w, h, reqAr).value[Dirname(p)]]
  {
  }

  /**
    Per-directory behaviour: a second pass over sources in distinct
    directories that completes leaves each source's directory as handling
    that source alone on the original entries would, and every other entry
    as it was.
  */
  lemma {:induction false} ApplyAllPerDir(es: Entries, qs: seq<string>, w: nat, h: nat, reqAr: real)
    requires OnePerDir(qs) && ApplyAll(es, qs, w, h, reqAr).Completed?
    ensures var es1 := ApplyAll(es, qs, w, h, reqAr).entries;
      es1.Keys == es.Keys &&
      (forall k :: k in es && k !in DirsOf(qs) ==> es1[k] == es[k]) &&
      (forall p :: p in qs ==>
         Dirname(p) in es && ProcessSource(es, p, w, h, reqAr).Ok? &&
         es1[Dirname(p)] == ProcessSource(es, p, w, h, reqAr).value[Dirname(p)])
    decreases |qs|
  {
    if qs != [] {
      var init, q := qs[..|qs| - 1], qs[|qs| - 1];
      var dq := Dirname(q);
      OnePerDirPrefix(qs, init);
      ApplyAllStep(es, qs, w, h, reqAr);
      ApplyAllPerDir(es, init, w, h, reqAr);
      var esm := ApplyAll(es, init, w, h, reqAr).entries;
      var es1 := ApplyAll(es, qs, w, h, reqAr).entries;
      ProcessSourceLocal(es, esm, q, w, h, reqAr);
      forall k | k in es && k !in DirsOf(qs) ensures es1[k] == es[k] {
        assert k != dq && k !in DirsOf(init);
      }
      forall p | p in qs
        ensures Dirname(p) in es && ProcessSource(es, p, w, h, reqAr).Ok? &&
          es1[Dirname(p)] == ProcessSource(es, p, w, h, reqAr).value[Dirname(p)]
      {
        if p != q {
          assert p in init;
          assert Dirname(p) in DirsOf(init);
        }
        assert Dirname(p) in es;
      }
    }
  }

  /** A completed second pass is the completed pass over all but the last source, then that source. */
  lemma ApplyAllStep(es: Entries, qs: seq<string>, w: nat, h: nat, reqAr: real)
    requires qs != [] && ApplyAll(es, qs, w, h, reqAr).Completed?
    ensures var init := ApplyAll(es, qs[..|qs| - 1], w, h, reqAr);
      init.Completed? && ProcessSource(init.entries, qs[|qs| - 1], w, h, reqAr).Ok? &&
      ApplyAll(es, qs, w, h, reqAr).entries == ProcessSource(init.entries, qs[|qs| - 1], w, h, reqAr).value
  {
  }

  /** Dropping the last source keeps the sources in distinct directories, none of them the last one's. */
  lemma OnePerDirPrefix(qs: seq<string>, init: seq<string>)
    requires qs != [] && init == qs[..|qs| - 1] && OnePerDir(qs)
    ensures OnePerDir(init) && Dirname(qs[|qs| - 1]) !in DirsOf(init)
    ensures forall p :: p in qs ==> p in init || p == qs[|qs| - 1]
  {
    forall i, j | 0 <= i < j < |init| ensures Dirname(init[i]) != Dirname(init[j]) {
      assert init[i] == qs[i] && init[j] == qs[j];
    }
    forall p | p in init ensures Dirname(p) != Dirname(qs[|qs| - 1]) {
      var i :| 0 <= i < |init| && init[i] == p;
      assert qs[i] == p;
    }
    forall p | p in qs ensures p in init || p == qs[|qs| - 1] {
      var i :| 0 <= i < |qs| && qs[i] == p;
      if i < |init| { assert init[i] == p; }
    }
  }

  // ---------------------------------------------------------------------
  // A directory the resize has settled
  // ---------------------------------------------------------------------

  /**
    Directory `d` with files `files` is settled for the size: it has a
    source tag, and handling any file that carries it, which is what any
    listing may pick, changes nothing and raises nothing.
  */
  ghost predicate Settled(d: string, files: map<string, Image>, w: nat, h: nat, reqAr: real)
  {
    SourceTag(TagSet(d, files)).Some? &&
    forall f :: Carries(d, files, f, SourceTag(TagSet(d, files)).value) ==>
      ProcessDir(files, Basename(d), f, d + "/" + f, w, h, reqAr) == Ok(files)
  }

  /**
    Handling file `f` would change nothing: it is a readable three-axis
    image, and its variant already exists if its aspect ratio is the
    requested one.
  */
  predicate Idle(files: map<string, Image>, name: string, f: string, w: nat, h: nat, reqAr: real)
  {
    f in files && |files[f].shape| == 3 && files[f].shape[1] != 0 &&
    (AspectRatio(files[f].shape[0], files[f].shape[1]).value == reqAr ==> VariantName(name, f, w, h) in files)
  }

  lemma ProcessDirNoop(files: map<string, Image>, name: string, f: string, path: string,
                       w: nat, h: nat, reqAr: real)
    requires Idle(files, name, f, w, h, reqAr)
    ensures ProcessDir(files, name, f, path, w, h, reqAr) == Ok(files)
  {
  }

  /** A directory is settled when every file carrying its source tag is idle. */
  lemma SettledOfIdle(d: string, files: map<string, Image>, w: nat, h: nat, reqAr: real)
    requires Basename(d) == d && SourceTag(TagSet(d, files)).Some?
    requires forall f :: Carries(d, files, f, SourceTag(TagSet(d, files)).value) ==> Idle(files, d, f, w, h, reqAr)
    ensures Settled(d, files, w, h, reqAr)
  {
    forall f | Carries(d, files, f, SourceTag(TagSet(d, files)).value)
      ensures ProcessDir(files, Basename(d), f, d + "/" + f, w, h, reqAr) == Ok(files)
    {
      ProcessDirNoop(files, d, f, d + "/" + f, w, h, reqAr);
    }
  }

  /** A new globbed file adds its tag to the directory's tags. */
  lemma TagSetAdd(d: string, files: map<string, Image>, g: string, img: Image, k: string)
    requires g !in files && Globbed(g) && TagOf(d, g) == Ok(k)
    ensures TagSet(d, files[g := img]) == TagSet(d, files) + {k}
  {
    var files1 := files[g := img];
    forall t | t in TagSet(d, files1) ensures t in TagSet(d, files) + {k} {
      var f :| f in files1 && Globbed(f) && TagOf(d, f).Ok? && TagOf(d, f).value == t;
      if f != g { assert f in files; }
    }
    assert k in TagSet(d, files1) by { assert g in files1; }
  }

  /** Adding at most one tag `k` keeps the choice, or makes it `k`. */
  lemma SourceTagStable(tags: set<string>, tags1: set<string>, k: string)
    requires SourceTag(tags).Some? && (tags1 == tags || tags1 == tags + {k})
    ensures SourceTag(tags1).Some?
    ensures SourceTag(tags1).value in tags ==> SourceTag(tags1) == SourceTag(tags)
  {
    if k !in tags && tags1 != tags {
      SourceTagAfterAdd(tags, k);
    } else {
      assert tags1 == tags;
    }
  }

  lemma CarriesInTagSet(d: string, files: map<string, Image>, f: string, t: string)
    requires Carries(d, files, f, t)
    ensures t in TagSet(d, files)
  {
  }

  /** The handling of source `f1`: the variant is added exactly when the ratios agree and it is missing. */
  lemma ProcessDirResult(files: map<string, Image>, d: string, f1: string, w: nat, h: nat, reqAr: real)
    requires ProcessDir(files, d, f1, d + "/" + f1, w, h, reqAr).Ok?
    ensures var img := files[f1];
      var g := VariantName(d, f1, w, h);
      var matches := AspectRatio(img.shape[0], img.shape[1]).value == reqAr;
      var files1 := ProcessDir(files, d, f1, d + "/" + f1, w, h, reqAr).value;
      |img.shape| == 3 && img.shape[1] != 0 &&
      (matches ==> g in files1) &&
      files1 == if matches && g !in files then files[g := ResizeImage(img, w, h).value] else files
  {
  }

  /**
    After its source is handled, a directory is settled: the file chosen
    next time is the same source or the variant just written, and neither
    leads to a write.
  */
  lemma SettledAfterProcess(d: string, files: map<string, Image>, f1: string, w: nat, h: nat)
    requires AssetName(d) && h != 0 && NoSlash(f1)
    requires UniqueTags(d, files) && TagsOk(d, files)
    requires SourceTag(TagSet(d, files)).Some? && Carries(d, files, f1, SourceTag(TagSet(d, files)).value)
    requires ProcessDir(files, Basename(d), f1, d + "/" + f1, w, h, AspectRatio(w, h).value).Ok?
    ensures var files1 := ProcessDir(files, Basename(d), f1, d + "/" + f1, w, h, AspectRatio(w, h).value).value;
      TagsOk(d, files1) && Settled(d, files1, w, h, AspectRatio(w, h).value) &&
      forall f :: f in files1 ==> f in files || f == VariantName(d, f1, w, h)
  {
    BasenameOfPlain(d);
    VariantTag(d, f1, w, h);
    var files1 := ProcessDir(files, d, f1, d + "/" + f1, w, h, AspectRatio(w, h).value).value;
    HandledFacts(files, d, f1, w, h, files1);
    SettledFrom(d, files, files1, f1, VariantName(d, f1, w, h), SizeTag(w, h), w, h, AspectRatio(w, h).value);
  }

  /** The settling argument on the files alone: the handled source is idle, and so is the variant if it was added. */
  lemma SettledFrom(d: string, files: map<string, Image>, files1: map<string, Image>, f1: string,
                    g: string, k: string, w: nat, h: nat, reqAr: real)
    requires Basename(d) == d
    requires UniqueTags(d, files) && TagsOk(d, files)
    requires SourceTag(TagSet(d, files)).Some? && Carries(d, files, f1, SourceTag(TagSet(d, files)).value)
    requires Globbed(g) && TagOf(d, g) == Ok(k)
    requires forall f :: f in files1 ==> f in files || f == g
    requires files1 != files ==> g !in files && g in files1 && files1 == files[g := files1[g]] && Idle(files1, d, g, w, h, reqAr)
    requires Idle(files1, d, f1, w, h, reqAr)
    ensures TagsOk(d, files1) && Settled(d, files1, w, h, reqAr)
  {
    var tags := TagSet(d, files);
    var t1 := SourceTag(tags).value;
    var tags1 := TagSet(d, files1);
    if files1 != files {
      TagSetAdd(d, files, g, files1[g], k);
    }
    SourceTagStable(tags, tags1, k);
    var t2 := SourceTag(tags1).value;
    ChosenFiles(d, files, files1, f1, g, t1, t2);
    SettledOfIdle(d, files1, w, h, reqAr);
  }

  /** The directory after its source `f1` is handled: the source is idle, and so is the variant if it was added. */
  lemma HandledFacts(files: map<string, Image>, d: string, f1: string, w: nat, h: nat, files1: map<string, Image>)
    requires h != 0 && VariantName(d, VariantName(d, f1, w, h), w, h) == VariantName(d, f1, w, h)
    requires ProcessDir(files, d, f1, d + "/" + f1, w, h, AspectRatio(w, h).value).Ok?
    requires files1 == ProcessDir(files, d, f1, d + "/" + f1, w, h, AspectRatio(w, h).value).value
    ensures var g := VariantName(d, f1, w, h);
      (forall f :: f in files1 ==> f in files || f == g) &&
      (files1 != files ==> g !in files && g in files1 && files1 == files[g := files1[g]] && Idle(files1, d, g, w, h, AspectRatio(w, h).value)) &&
      Idle(files1, d, f1, w, h, AspectRatio(w, h).value)
  {
    var reqAr := AspectRatio(w, h).value;
    var img := files[f1];
    var g := VariantName(d, f1, w, h);
    ProcessDirResult(files, d, f1, w, h, reqAr);
    var matches := AspectRatio(img.shape[0], img.shape[1]).value == reqAr;
    var written := matches && g !in files;
    assert written ==> f1 != g;
    assert files1[f1] == img;
    if written {
      var img1 := files1[g];
      assert img1 == ResizeImage(img, w, h).value;
      assert img1.shape == [w, h, Min(img.shape[2], 3)];
    }
  }

  /**
    The files of the handled directory that carry the new source tag are
    the old source or the variant just added.
  */
  lemma ChosenFiles(d: string, files: map<string, Image>, files1: map<string, Image>,
                    f1: string, g: string, t1: string, t2: string)
    requires UniqueTags(d, files) && Carries(d, files, f1, t1)
    requires forall f :: f in files1 ==> f in files || f == g
    requires t2 in TagSet(d, files) ==> t2 == t1
    ensures forall f :: Carries(d, files1, f, t2) ==> f == f1 || (f == g && g !in files)
  {
    forall f | Carries(d, files1, f, t2) ensures f == f1 || (f == g && g !in files) {
      if f in files {
        assert Carries(d, files, f, t2);
        CarriesInTagSet(d, files, f, t2);
      }
    }
  }

  // ---------------------------------------------------------------------
  // Idempotence
  // ---------------------------------------------------------------------

  /**
    The images directory as the variant cache lays it out: plain names,
    asset directories named so that their variants read back, and no two
    files of an asset directory sharing a tag.
  */
  ghost predicate AssetTree(es: Entries)
  {
    PlainNames(es) &&
    forall d :: d in es && es[d].Dir? ==> AssetName(d) && UniqueTags(d, es[d].files)
  }

  /** What a completed first run leaves in one asset directory. */
  lemma DirAfterFirstRun(es: Entries, l: Listing, w: nat, h: nat, d: string, qs: seq<string>, es1: Entries)
    requires AssetTree(es) && ListingOf(l, es) && h != 0
    requires CollectSources(es, l, l.root, w, h).Ok? && qs == Sort(CollectSources(es, l, l.root, w, h).value)
    requires OnePerDir(qs) && ApplyAll(es, qs, w, h, AspectRatio(w, h).value) == Completed(es1)
    requires d in es && es[d].Dir?
    ensures d in es1 && es1[d].Dir?
    ensures TagsOk(d, es1[d].files) && Settled(d, es1[d].files, w, h, AspectRatio(w, h).value)
    ensures forall f :: f in es1[d].files ==> PlainName(f)
  {
    var reqAr := AspectRatio(w, h).value;
    var files := es[d].files;
    CollectFacts(es, l, l.root, w, h);
    assert d in l.root;
    DirSourceShape(es, l, d, w, h);
    var p := DirSource(es, l, d, w, h).value.value;
    var f1 :| Carries(d, files, f1, SourceTag(TagSet(d, files)).value) && p == d + "/" + f1;
    assert PlainName(f1);
    DirnameOfJoin(d, f1);
    ApplyAllPerDir(es, qs, w, h, reqAr);
    assert p in qs;
    var r := ProcessDir(files, Basename(d), f1, p, w, h, reqAr);
    assert ProcessSource(es, p, w, h, reqAr) == Ok(es[d := Dir(r.value)]);
    assert es1[d] == Dir(r.value);
    SettledAfterProcess(d, files, f1, w, h);
    VariantTag(d, f1, w, h);
  }

  /**
    A completed run of resize_image_dir settles every asset directory and
    leaves loose files as they were.
  */
  lemma FirstRunSettles(es: Entries, l: Listing, w: nat, h: nat)
    requires AssetTree(es) && ListingOf(l, es) && ResizeImageDir(true, es, l, w, h).Completed?
    ensures h != 0
    ensures var es1 := ResizeImageDir(true, es, l, w, h).entries;
      es1.Keys == es.Keys && PlainNames(es1) &&
      (forall k :: k in es && es[k].File? ==> es1[k] == es[k]) &&
      (forall d :: d in es1 && es1[d].Dir? ==>
         TagsOk(d, es1[d].files) && Settled(d, es1[d].files, w, h, AspectRatio(w, h).value))
  {
    var reqAr := AspectRatio(w, h).value;
    var ps := CollectSources(es, l, l.root, w, h).value;
    var qs := Sort(ps);
    var es1 := ResizeImageDir(true, es, l, w, h).entries;
    assert ApplyAll(es, qs, w, h, reqAr) == Completed(es1);
    SortedOnePerDir(es, l, w, h);
    ApplyAllPerDir(es, qs, w, h, reqAr);
    CollectFacts(es, l, l.root, w, h);
    forall k | k in es && es[k].File? ensures es1[k] == es[k] {
      forall p | p in qs ensures Dirname(p) != k {
        assert p in ps;
        var d := SourceDir(es, l, p, w, h);
      }
      assert k !in DirsOf(qs);
    }
    forall d | d in es && es[d].Dir?
      ensures es1[d].Dir? && TagsOk(d, es1[d].files) && Settled(d, es1[d].files, w, h, reqAr)
      ensures forall f :: f in es1[d].files ==> PlainName(f)
    {
      DirAfterFirstRun(es, l, w, h, d, qs, es1);
    }
  }

  /** A second pass over sources that each change nothing completes and changes nothing. */
  lemma {:induction false} ApplyAllNoop(es: Entries, qs: seq<string>, w: nat, h: nat, reqAr: real)
    requires forall p :: p in qs ==> ProcessSource(es, p, w, h, reqAr) == Ok(es)
    ensures ApplyAll(es, qs, w, h, reqAr) == Completed(es)
    decreases |qs|
  {
    if qs != [] {
      var init := qs[..|qs| - 1];
      forall p | p in init ensures ProcessSource(es, p, w, h, reqAr) == Ok(es) {
        var i :| 0 <= i < |init| && init[i] == p;
        assert qs[i] == p;
      }
      ApplyAllNoop(es, init, w, h, reqAr);
      assert qs[|qs| - 1] in qs;
    }
  }

  /** A settled directory's source, if any, changes nothing. */
  lemma DirSourceNoop(es: Entries, l: Listing, d: string, w: nat, h: nat)
    requires h != 0 && ListingOf(l, es) && PlainNames(es) && d in es
    requires es[d].Dir? ==> TagsOk(d, es[d].files) && Settled(d, es[d].files, w, h, AspectRatio(w, h).value)
    ensures DirSource(es, l, d, w, h).Ok?
    ensures DirSource(es, l, d, w, h).value.Some? ==>
      ProcessSource(es, DirSource(es, l, d, w, h).value.value, w, h, AspectRatio(w, h).value) == Ok(es)
  {
    if es[d].Dir? {
      var files := es[d].files;
      DirSourceOk(es, l, d, w, h);
      DirSourceShape(es, l, d, w, h);
      var f :| Carries(d, files, f, SourceTag(TagSet(d, files)).value) && DirSource(es, l, d, w, h).value.value == d + "/" + f;
      assert PlainName(f);
      DirnameOfJoin(d, f);
      assert ProcessDir(files, Basename(d), f, d + "/" + f, w, h, AspectRatio(w, h).value) == Ok(files);
      UpdateSame(es, d);
    }
  }

  /** The first pass over settled directories finds only sources that change nothing. */
  lemma {:induction false} CollectNoop(es: Entries, l: Listing, order: seq<string>, w: nat, h: nat)
    requires h != 0 && ListingOf(l, es) && PlainNames(es)
    requires forall d :: d in order ==> d in es
    requires forall d :: d in es && es[d].Dir? ==>
      TagsOk(d, es[d].files) && Settled(d, es[d].files, w, h, AspectRatio(w, h).value)
    ensures CollectSources(es, l, order, w, h).Ok?
    ensures forall p :: p in CollectSources(es, l, order, w, h).value ==>
      ProcessSource(es, p, w, h, AspectRatio(w, h).value) == Ok(es)
    decreases |order|
  {
    if order != [] {
      var init, d := order[..|order| - 1], order[|order| - 1];
      forall x | x in init ensures x in es {
        var i :| 0 <= i < |init| && init[i] == x;
        assert order[i] == x;
      }
      CollectNoop(es, l, init, w, h);
      assert d in order;
      DirSourceNoop(es, l, d, w, h);
    }
  }

  /**
    Idempotence: on what a completed run left, a second run with the same
    size, whatever order the file system lists things in, writes nothing.
  */
  lemma ResizeIdempotent(es: Entries, l1: Listing, l2: Listing, w: nat, h: nat)
    requires AssetTree(es) && ListingOf(l1, es) && ResizeImageDir(true, es, l1, w, h).Completed?
    requires ListingOf(l2, ResizeImageDir(true, es, l1, w, h).entries)
    ensures var es1 := ResizeImageDir(true, es, l1, w, h).entries;
      ResizeImageDir(true, es1, l2, w, h) == Completed(es1)
  {
    var es1 := ResizeImageDir(true, es, l1, w, h).entries;
    FirstRunSettles(es, l1, w, h);
    CollectNoop(es1, l2, l2.root, w, h);
    var ps := CollectSources(es1, l2, l2.root, w, h).value;
    ApplyAllNoop(es1, Sort(ps), w, h, AspectRatio(w, h).value);
  }

  lemma UpdateSame(es: Entries, d: string)
    requires d in es
    ensures es[d := es[d]] == es
  {
  }
}

/**
  The images directory as a mutable object: resize_image_dir and
  _init_simple_dir as the loops the source runs, each proved to leave the
  directory as the functions of Resize and Migrate describe.
*/
module Store {
  import opened Grammar
  import opened Order
  import opened Disk
  import opened Resize
  import opened Migrate
  import opened ResizeRuns

  /** The index of the first standard size whose tag is among `tags`, if any (the for/else). */
  lemma FirstStdAt(tags: set<string>, sizes: seq<string>, k: nat)
    requires k <= |sizes|
    requires forall j :: 0 <= j < k ==> StdTag(sizes[j]) !in tags
    requires k < |sizes| ==> StdTag(sizes[k]) in tags
    ensures FirstStd(tags, sizes) == if k < |sizes| then Some(sizes[k]) else None
    decreases k
  {
    if k > 0 {
      FirstStdAt(tags, sizes[1..], k - 1);
    }
  }

  /** Once the first loop has raised, the rest of the listing does not matter. */
  lemma {:induction false} CollectStopped(es: Entries, l: Listing, order: seq<string>, i: nat, w: nat, h: nat)
    requires i <= |order| && CollectSources(es, l, order[..i], w, h).Err?
    ensures CollectSources(es, l, order, w, h) == CollectSources(es, l, order[..i], w, h)
    decreases |order|
  {
    if i < |order| {
      var init := order[..|order| - 1];
      assert init[..i] == order[..i];
      CollectStopped(es, l, init, i, w, h);
    } else {
      assert order[..i] == order;
    }
  }

  /** Once the second loop has raised, the remaining sources do not matter. */
  lemma {:induction false} ApplyStopped(es: Entries, ps: seq<string>, i: nat, w: nat, h: nat, reqAr: real)
    requires i <= |ps| && ApplyAll(es, ps[..i], w, h, reqAr).Failed?
    ensures ApplyAll(es, ps, w, h, reqAr) == ApplyAll(es, ps[..i], w, h, reqAr)
    decreases |ps|
  {
    if i < |ps| {
      var init := ps[..|ps| - 1];
      assert init[..i] == ps[..i];
      ApplyStopped(es, init, i, w, h, reqAr);
    } else {
      assert ps[..i] == ps;
    }
  }

  /** Once the migration has raised, the remaining entries do not matter. */
  lemma {:induction false} MigrateStopped(es: Entries, above: Entries, allowed: seq<string>, force: bool, order: seq<string>, i: nat)
    requires i <= |order| && MigrateAll(es, above, allowed, force, order[..i]).Failed?
    ensures MigrateAll(es, above, allowed, force, order) == MigrateAll(es, above, allowed, force, order[..i])
    decreases |order|
  {
    if i < |order| {
      var init := order[..|order| - 1];
      assert init[..i] == order[..i];
      MigrateStopped(es, above, allowed, force, init, i);
    } else {
      assert order[..i] == order;
    }
  }

  /** One more turn of the first loop, after the earlier turns collected `ps`. */
  lemma CollectNext(es: Entries, l: Listing, order: seq<string>, i: nat, ps: seq<string>, w: nat, h: nat)
    requires i < |order| && CollectSources(es, l, order[..i], w, h) == Ok(ps)
    ensures CollectSources(es, l, order[..i + 1], w, h) ==
      match DirSource(es, l, order[i], w, h)
      case Err(e) => Err(e)
      case Ok(None) => Ok(ps)
      case Ok(Some(p)) => Ok(ps + [p])
  {
    var init := order[..i + 1];
    assert init[..|init| - 1] == order[..i] && init[|init| - 1] == order[i];
  }

  /** One more turn of the second loop, from the directory `es1` the earlier turns left. */
  lemma ApplyNext(es: Entries, ps: seq<string>, j: nat, es1: Entries, w: nat, h: nat, reqAr: real)
    requires j < |ps| && ApplyAll(es, ps[..j], w, h, reqAr) == Completed(es1)
    ensures ApplyAll(es, ps[..j + 1], w, h, reqAr) ==
      match ProcessSource(es1, ps[j], w, h, reqAr)
      case Err(e) => Failed(e, es1)
      case Ok(es2) => Completed(es2)
  {
    var init := ps[..j + 1];
    assert init[..|init| - 1] == ps[..j] && init[|init| - 1] == ps[j];
  }

  /** One more turn of the migration loop, from the directory `es1` the earlier turns left. */
  lemma MigrateNext(es: Entries, above: Entries, allowed: seq<string>, force: bool, order: seq<string>, i: nat, es1: Entries)
    requires i < |order| && MigrateAll(es, above, allowed, force, order[..i]) == Completed(es1)
    ensures MigrateAll(es, above, allowed, force, order[..i + 1]) ==
      match MigrateStep(es1, above, allowed, force, order[i])
      case Err(e) => Failed(e, es1)
      case Ok(es2) => Completed(es2)
  {
    var init := order[..i + 1];
    assert init[..|init| - 1] == order[..i] && init[|init| - 1] == order[i];
  }

  class ImageStore {
    /** Whether the images directory exists. */
    var present: bool
    /** Its entries: loose image files and asset directories. */
    var entries: Entries

    constructor (present: bool, entries: Entries)
      ensures this.present == present && this.entries == entries
    {
      this.present := present;
      this.entries := entries;
    }

    /**
      The directory `d` of the first loop: the source it adds to
      imagePaths, if any, or the exception that ends the call.
    */
    method SourceOf(l: Listing, d: string, w: nat, h: nat) returns (r: Result<Option<string>>)
      ensures r == DirSource(entries, l, d, w, h)
    {
      if d in entries && entries[d].File? {
        return Ok(None);
      }
      var variants := TagMap(Tagger(d), d, DirListing(l, d));
      if variants.Err? {
        return Err(variants.error);
      }
      var m := variants.value;
      if DoneKey(w, h) in m {
        return Ok(None);
      }
      var k := 0;
      while k < |StdSizes| && StdTag(StdSizes[k]) !in m
        invariant k <= |StdSizes|
        invariant forall j :: 0 <= j < k ==> StdTag(StdSizes[j]) !in m
      {
        k := k + 1;
      }
      FirstStdAt(m.Keys, StdSizes, k);
      if k < |StdSizes| {
        return Ok(Some(m[StdTag(StdSizes[k])]));
      }
      if OrigTag !in m {
        return Err(MissingOrig(d));
      }
      return Ok(Some(m[OrigTag]));
    }

    /**
      resize_image_dir(images_path, w, h): the first loop collects a source
      per asset directory, the second handles them in sorted order and
      writes the missing variants; `err` is the exception that ended the
      call, if any, and whatever was written before it stays.
    */
    method ResizeImageDir(l: Listing, w: nat, h: nat) returns (err: Option<Error>)
      modifies this
      ensures present == old(present)
      ensures var out := Resize.ResizeImageDir(old(present), old(entries), l, w, h);
        entries == out.entries && (err.None? <==> out.Completed?) && (out.Failed? ==> err == Some(out.error))
    {
      var ar := AspectRatio(w, h);
      if ar.Err? {
        return Some(ar.error);
      }
      if !present {
        return Some(NoSuchDir);
      }
      var ps := CollectAll(l, w, h);
      if ps.Err? {
        return Some(ps.error);
      }
      err := ApplyInOrder(Sort(ps.value), w, h, ar.value);
    }

    /** The first loop of resize_image_dir: one source per asset directory, in listing order. */
    method CollectAll(l: Listing, w: nat, h: nat) returns (r: Result<seq<string>>)
      ensures r == CollectSources(entries, l, l.root, w, h)
    {
      var ps: seq<string> := [];
      var i := 0;
      while i < |l.root|
        invariant i <= |l.root|
        invariant CollectSources(entries, l, l.root[..i], w, h) == Ok(ps)
      {
        var src := SourceOf(l, l.root[i], w, h);
        CollectNext(entries, l, l.root, i, ps, w, h);
        if src.Err? {
          CollectStopped(entries, l, l.root, i + 1, w, h);
          return Err(src.error);
        }
        if src.value.Some? {
          ps := ps + [src.value.value];
        }
        i := i + 1;
      }
      assert l.root[..i] == l.root;
      return Ok(ps);
    }

    /** The second loop of resize_image_dir over the sorted sources `qs`. */
    method ApplyInOrder(qs: seq<string>, w: nat, h: nat, reqAr: real) returns (err: Option<Error>)
      modifies this
      ensures present == old(present)
      ensures var out := ApplyAll(old(entries), qs, w, h, reqAr);
        entries == out.entries && (err.None? <==> out.Completed?) && (out.Failed? ==> err == Some(out.error))
    {
      var es0 := entries;
      var j := 0;
      while j < |qs|
        invariant j <= |qs| && present == old(present)
        invariant ApplyAll(es0, qs[..j], w, h, reqAr) == Completed(entries)
      {
        var es1 := entries;
        err := HandleSource(qs[j], w, h, reqAr);
        ApplyNext(es0, qs, j, es1, w, h, reqAr);
        if err.Some? {
          ApplyStopped(es0, qs, j + 1, w, h, reqAr);
          return;
        }
        j := j + 1;
      }
      assert qs[..j] == qs;
      return None;
    }

    /**
      One turn of the second loop, on source path `p`: read it, compare
      its aspect ratio with `reqAr`, and write `<dir>-<W>x<H><ext>` beside
      it when the ratios agree and that file is missing.
    */
    method HandleSource(p: string, w: nat, h: nat, reqAr: real) returns (err: Option<Error>)
      modifies this
      ensures present == old(present)
      ensures var r := ProcessSource(old(entries), p, w, h, reqAr);
        (r.Ok? ==> err.None? && entries == r.value) && (r.Err? ==> err == Some(r.error) && entries == old(entries))
    {
      var dn := Dirname(p);
      if dn !in entries || entries[dn].File? {
        return Some(Unreadable(p));
      }
      err := HandleFile(dn, Basename(dn), Basename(p), p, w, h, reqAr);
    }

    /** The turn on file `f` of asset directory `dn`, named `name`, read as `path`. */
    method HandleFile(dn: string, name: string, f: string, path: string, w: nat, h: nat, reqAr: real)
      returns (err: Option<Error>)
      requires dn in entries && entries[dn].Dir?
      modifies this
      ensures present == old(present)
      ensures var r := ProcessDir(old(entries)[dn].files, name, f, path, w, h, reqAr);
        (r.Ok? ==> err.None? && entries == old(entries)[dn := Dir(r.value)]) &&
        (r.Err? ==> err == Some(r.error) && entries == old(entries))
    {
      var files := entries[dn].files;
      if f !in files {
        return Some(Unreadable(path));
      }
      var img := files[f];
      if |img.shape| != 3 {
        return Some(ShapeUnpack(path));
      }
      var imgAr := AspectRatio(img.shape[0], img.shape[1]);
      if imgAr.Err? {
        return Some(imgAr.error);
      }
      if imgAr.value == reqAr {
        var dest := VariantName(name, f, w, h);
        if dest !in files {
          entries := entries[dn := Dir(files[dest := ResizeImage(img, w, h).value])];
          return None;
        }
      }
      UpdateSame(entries, dn);
      return None;
    }

    /**
      _init_simple_dir(images_path, allowed, force), with `above` the
      entries of the directory above: every loose file of `order` with an
      allowed extension moves to its original's place, unless something is
      there and `force` is off.
    */
    method InitSimpleDir(above: Entries, allowed: seq<string>, force: bool, order: seq<string>) returns (err: Option<Error>)
      modifies this
      ensures present == old(present)
      ensures var out := Migrate.InitSimpleDir(old(present), old(entries), above, allowed, force, order);
        entries == out.entries && (err.None? <==> out.Completed?) && (out.Failed? ==> err == Some(out.error))
    {
      if !present {
        return Some(NoSuchDir);
      }
      var es0 := entries;
      var i := 0;
      while i < |order|
        invariant i <= |order| && present == old(present)
        invariant MigrateAll(es0, above, allowed, force, order[..i]) == Completed(entries)
      {
        MigrateNext(es0, above, allowed, force, order, i, entries);
        err := MoveEntry(above, allowed, force, order[i]);
        if err.Some? {
          MigrateStopped(es0, above, allowed, force, order, i + 1);
          return;
        }
        i := i + 1;
      }
      assert order[..i] == order;
      return None;
    }

    /**
      One turn of the migration loop, on entry `name`: a loose file with an
      allowed extension moves to its original's place (for stem "." the
      images directory itself, for stem ".." the directory above), unless
      something is there and `force` is off.
    */
    method MoveEntry(above: Entries, allowed: seq<string>, force: bool, name: string) returns (err: Option<Error>)
      modifies this
      ensures present == old(present)
      ensures var r := MigrateStep(old(entries), above, allowed, force, name);
        (r.Ok? ==> err.None? && entries == r.value) && (r.Err? ==> err == Some(r.error) && entries == old(entries))
    {
      ghost var r := MigrateStep(entries, above, allowed, force, name);
      if name in entries && entries[name].File? {
        var bn, ext := Stem(name), SuffixExt(name);
        if ext in allowed {
          var dest := OrigName(bn, ext);
          if bn == "." {
            if dest !in entries || force {
              if dest in entries && entries[dest].Dir? {
                return Some(IsADirectory(dest));
              }
              entries := entries[dest := entries[name]] - {name};
              assert r == Ok(entries);
            }
          } else if bn == ".." {
            if dest !in above || force {
              if dest in above && above[dest].Dir? {
                return Some(IsADirectory(dest));
              }
              entries := entries - {name};
              assert r == Ok(entries);
            }
          } else {
            if bn in entries && entries[bn].File? {
              return Some(FileExists(bn));
            }
            var img := entries[name].image;
            var files := if bn in entries then entries[bn].files else map[];
            if dest !in files || force {
              entries := entries[bn := Dir(files[dest := img])] - {name};
            } else {
              entries := entries[bn := Dir(files)];
            }
            assert r == Ok(entries);
          }
        }
      }
      return None;
    }
  }
}

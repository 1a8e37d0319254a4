# asset-mgr variant cache, in Dafny

asset-mgr keeps every image of an assets directory as an *asset directory* of
files that follow a naming convention. The image `foo.png` lives in
`images/foo/`, its original is `images/foo/foo-orig.png`, and each resized
copy is `images/foo/foo-<W>x<H>.png`. This project models the part of
`assets_mgr/__init__.py` that decides names and choices:

- **The filename grammar.** The regex `^.+(-(?:orig|\d+x\d+))\.[a-z]+$` reads a file's variant tag. Python's `\d` matches every Unicode decimal digit (category Nd), not only `0`-`9`; the model lists the digits of Unicode 15.0, the table of Python 3.12, as blocks of ten. The model is module `Grammar`, with `basename`/`dirname`, `splitext` and pathlib's `stem`/`suffix`.
- **`resize_image_dir`.** It builds a tag map per asset directory, where the last file of a tag wins. It picks a source by priority: 512, 256, 128, then `-orig`. It gates on the aspect ratio and writes `<dir>-<W>x<H><ext>` unless that file exists. The model is modules `Resize`, `ResizeProofs` and `ResizeRuns`; `Store.ImageStore` holds the loop form.
- **`_init_simple_dir`.** It migrates loose files into asset directories, with its no-clobber guard. The model is module `Migrate`, and `Store.ImageStore` holds the loop form.
- **`AssetsManager`.** This covers its three paths, `get_image`, `get_thumbnail`, `get_thumbnails` and the wrappers around the images directory. The model is module `Manager`.
- **`sorted()`.** Python's ordering of strings is in module `Order`.

The file system is a value: the images directory is a map from entry name to
either a loose file or an asset directory, which is a map from file name to an
image (`Disk.Entries`). The order in which `iterdir` and `glob` list
directories is fixed by the file system, not by the code. It is therefore an
input, `Disk.Listing`, and the properties are proved for every listing
(`Disk.ListingOf`). An image is its numpy shape and its provenance, an
original or a resize of another image. Pixels are not modelled.

Each exception the model represents is one case of `Grammar.Error`:

- `AttributeError` from a name the regex does not match;
- `KeyError` on `"-orig"`;
- `ZeroDivisionError`;
- the unpacking error for an image that does not have three axes;
- the error of `read_image` on a file that is not there;
- `FileExistsError` from `mkdir`;
- `IsADirectoryError` from `Path.replace` onto a directory;
- `IndexError` in `get_image`;
- skimage's `ValueError` for an image of four or more axes;
- the missing directory that `iterdir` fails on.

The exceptions the model does not represent are listed under "Left out".

A run that fails keeps what it had already written (`Resize.Outcome`).

Some behaviours of the code are kept exactly as written:

- **The early skip never fires.** The skip at line 61 looks up `f"{W}x{H}"`, but every key of the tag map begins with `-`. Whether an existing variant stops a write is decided only by the existence check at line 98 (`ResizeProofs.DoneKeyNeverPresent`).
- **Axis order.** Width and height are read from `img.shape` in row/column order.
- **`get_image` globs the wrong name.** It looks for `<bn>-<W>-<H>.*`, not `<bn>-<W>x<H>.*` (see Findings).
- **Stems that pathlib reads as directories.** `images/.` is the images directory itself and `images/..` the one above it. A loose `..png` (stem `.`) therefore becomes the loose file `.-orig.png`, which a second run moves on into `.-orig/`, so the migration is not idempotent there (`Migrate.DotStemNotIdempotent`). A loose `...png` (stem `..`) leaves the images directory (`Migrate.UpStemLeaves`).
- **Hidden images.** `.x.png` migrates into `.x/.x-orig.png`, but the glob `*.*` skips hidden files, so resize_image_dir stops on `.x` with the `KeyError` on `"-orig"` (`Migrate.HiddenFileMoves`, `Manager.HiddenAssetHasNoSource`).

## Model

| member | source | states |
|---|---|---|
| Grammar.IsRegexDigit | assets_mgr/__init__.py:20 | the characters `\d` matches: `0`-`9` and the other blocks of ten Unicode Nd digits |
| Grammar.RegexDigitPlain | assets_mgr/__init__.py:20 | a `\d` digit is not "x", "-", ".", "/", a newline or a lower-case letter, so it cannot stand for another part of the pattern |
| Grammar.IsSizeGroup | assets_mgr/__init__.py:20 | the alternative `-\d+x\d+` of the capture group |
| Grammar.Matches | assets_mgr/__init__.py:20 | IMAGE_VARIANT_RE matches the name with the given group, `.+` excluding newlines and `$` allowing one final newline |
| Grammar.MatchEnd | assets_mgr/__init__.py:20 | `$` matches at the end of the name or just before a final newline |
| Grammar.ParseVariant | assets_mgr/__init__.py:20 | a parsed group begins with "-" and has at least four characters |
| Grammar.GetImageVariant | assets_mgr/__init__.py:20-23 | the tag read from a basename begins with "-" and has at least four characters; a basename without a tag is the AttributeError for that path |
| Grammar.GetImageVariantMatches | assets_mgr/__init__.py:20-23 | the tag returned is one the regex matches on the basename, Unicode digits included, and the error is returned exactly when no tag matches |
| Grammar.ParseVariantSound | assets_mgr/__init__.py:20 | the parsed group is a match of the pattern |
| Grammar.ParseVariantComplete | assets_mgr/__init__.py:20 | any group the pattern matches, in any Unicode digits, is the one parsed, so the match is unique |
| Grammar.VariantRoundTrip | assets_mgr/__init__.py:20-23 | for a plain one-line stem, a tag "orig" or "<W>x<H>" in any decimal digits and a lower-case extension, getImageVariant of dir/stem-tag.ext is "-" + tag |
| Grammar.NonAsciiSizeTag | assets_mgr/__init__.py:20-23 | the tag of `<dir>/a-٣x٣.png`, in Arabic-Indic digits, is `-٣x٣` |
| Grammar.Decimal | assets_mgr/__init__.py:97 | the decimal form of an int is a non-empty digit string with no leading zero |
| Grammar.DecimalRoundTrip | assets_mgr/__init__.py:97 | reading the decimal form back gives the number |
| Grammar.DecimalInjective | assets_mgr/__init__.py:97 | distinct sizes give distinct decimal forms |
| Grammar.SizeTag | assets_mgr/__init__.py:97 | "-<W>x<H>" is a size tag the regex accepts and is not "-orig" |
| Grammar.GroupPlain | assets_mgr/__init__.py:20 | a variant tag holds no "/", "." or newline |
| Grammar.Basename | assets_mgr/__init__.py:84-86 | os.path.basename is the part after the last "/", which holds no "/" |
| Grammar.BasenameOfJoin | assets_mgr/__init__.py:84-86 | basename of dir/name is name when name has no "/" |
| Grammar.Dirname | assets_mgr/__init__.py:84 | a path with a "/" is dirname + "/" + basename |
| Grammar.DirnameOfJoin | assets_mgr/__init__.py:84 | dirname and basename split dir/name back into dir and name |
| Grammar.BasenameOfPlain | assets_mgr/__init__.py:85 | a name without "/" is its own basename |
| Grammar.LastDot | assets_mgr/__init__.py:83 | the position found holds the last "." of the string |
| Grammar.Ext | assets_mgr/__init__.py:83 | splitext's extension of a base name, the only kind the model passes it: empty or a suffix of the name that starts with its only "." |
| Grammar.ExtOfAppended | assets_mgr/__init__.py:83 | appending ".ext" to a name not ending in "." makes ".ext" the extension |
| Grammar.ExtOfVariantName | assets_mgr/__init__.py:83 | the extension of stem + tag + ".ext" is ".ext", with a trailing newline kept |
| Grammar.Suffix | assets_mgr/__init__.py:120 | pathlib's suffix is empty or a final "." followed by at least one character and no further "." |
| Grammar.Stem | assets_mgr/__init__.py:120 | the name is stem + suffix, and the stem is non-empty when there is a suffix |
| Grammar.SuffixExt | assets_mgr/__init__.py:120 | suffix[1:] holds no "."; when it is non-empty the name is stem + "." + suffix[1:] |
| Grammar.StemOfJoin | assets_mgr/__init__.py:120 | the stem of p + "." + ext is p and its suffix[1:] is ext, for a non-empty p and an ext without "." |
| Order.Less | assets_mgr/__init__.py:82 | Python's string comparison: code point by code point, a proper prefix first |
| Order.Sort | assets_mgr/__init__.py:82 | sorted() returns the same elements in strictly increasing order |
| Order.IncreasingUnique | assets_mgr/__init__.py:82 | two increasing sequences with the same elements are equal |
| Order.SortBySet | assets_mgr/__init__.py:82 | the sorted order of a set does not depend on the order the set was filled in |
| Order.LessTotal | assets_mgr/__init__.py:82 | of two different strings one sorts before the other |
| Order.LessTransitive | assets_mgr/__init__.py:82 | the string order is transitive |
| Order.LessCommonPrefix | assets_mgr/__init__.py:82 | a common leading part does not change the order, so sorting full paths orders them as their parts under the images directory |
| Disk.ResizeImage | assets_mgr/__init__.py:35-37 | resize then [..., :3] gives shape (W, H, min(c, 3)) for a colour image and (W, min(H, 3)) for one of fewer than three axes; it fails exactly for four or more axes, with skimage's ValueError |
| Disk.AspectRatio | assets_mgr/__init__.py:44-45 | width / height, and ZeroDivisionError exactly when height is 0 |
| Disk.AspectRatioScales | assets_mgr/__init__.py:44-45 | the ratio times the height is the width |
| Disk.AspectEqual | assets_mgr/__init__.py:91 | two ratios are equal exactly when the cross products are equal |
| Resize.Globbed | assets_mgr/__init__.py:57 | the names `*.*` matches: not hidden, with a "." |
| Resize.TagOf | assets_mgr/__init__.py:59 | getImageVariant of file f of directory d |
| Resize.Tagger | assets_mgr/__init__.py:59 | getImageVariant on the files of one directory |
| Resize.TagMap | assets_mgr/__init__.py:57-59 | the tag map fails only on a globbed file whose tag cannot be read, with that file's error |
| Resize.DoneKey | assets_mgr/__init__.py:61 | the key "<W>x<H>" begins with a digit, so it is never a tag (ResizeProofs.DoneKeyNeverPresent) |
| Resize.StdTag | assets_mgr/__init__.py:67 | the tag "-<s>x<s>" of a standard size |
| Resize.FirstStd | assets_mgr/__init__.py:66-70 | the size chosen has its tag present and no size before it in the list does, so it is the first present; when none is chosen, no tag of the list is present |
| Resize.SourceTag | assets_mgr/__init__.py:66-72 | the tag chosen is one of the directory's tags |
| Resize.DirSource | assets_mgr/__init__.py:52-72 | what one entry adds to the sources: nothing for a loose file, else the file of its source tag or the error raised (ResizeRuns.DirSourceShape, ResizeRuns.DirSourceOk) |
| Resize.CollectSources | assets_mgr/__init__.py:52-72 | the first pass collects at most one source per listed entry |
| Resize.VariantName | assets_mgr/__init__.py:97 | the name `<dir>-<W>x<H><ext>` of the variant written |
| Resize.ProcessDir | assets_mgr/__init__.py:88-101 | handling a source keeps every file of its directory and adds at most the variant name |
| Resize.Replace | assets_mgr/__init__.py:97-101 | the directory gets its new files and every other entry is unchanged, or the error passes through |
| Resize.ProcessSource | assets_mgr/__init__.py:82-101 | a source is handled only inside an existing asset directory, and no entry is added or removed |
| Resize.ApplyAll | assets_mgr/__init__.py:82-101 | the second pass, finished or not, neither adds nor removes an entry of the images directory |
| Resize.ResizeImageDir | assets_mgr/__init__.py:48-103 | resize_image_dir, finished or not, neither adds nor removes an entry of the images directory |
| ResizeProofs.DoneKeyNeverPresent | assets_mgr/__init__.py:59-63 | the key "<W>x<H>" looked up at line 61 is never a key of the tag map, so the skip never fires |
| ResizeProofs.TagMapDashKeys | assets_mgr/__init__.py:23 | every key of a tag map begins with "-" |
| ResizeProofs.OnlyFilesSkipped | assets_mgr/__init__.py:52-63 | the only entries that add no source and raise nothing are loose files |
| ResizeProofs.StdTagsAreSizeTags | assets_mgr/__init__.py:66-67 | "-512x512", "-256x256" and "-128x128" are the size tags of the standard sizes |
| ResizeProofs.SourceTagPriority | assets_mgr/__init__.py:66-72 | the source tag is present; it is the largest standard size present, or "-orig" when no standard size is present; there is none exactly when neither is present (the KeyError) |
| ResizeProofs.SourceTagAfterAdd | assets_mgr/__init__.py:66-72 | adding a tag keeps the chosen source or makes the new tag the source |
| ResizeProofs.TagMapOkIff | assets_mgr/__init__.py:59 | the tag map is built exactly when every globbed file has a tag |
| ResizeProofs.TagMapKeys | assets_mgr/__init__.py:59 | the keys of the tag map are exactly the tags of the globbed files |
| ResizeProofs.TagMapLastWins | assets_mgr/__init__.py:59 | each key maps to the last listed file carrying that tag |
| ResizeProofs.ProcessDirFails | assets_mgr/__init__.py:88-90 | handling a source fails exactly when the file is missing, does not have three axes, or has zero columns, with the matching error |
| ResizeProofs.WriteRule | assets_mgr/__init__.py:89-101 | a file is written exactly when the source's aspect ratio equals W/H and "<dir>-<W>x<H><ext>" is absent; the file written is a W by H resize of the source and nothing else changes |
| ResizeProofs.ProcessDirGrows | assets_mgr/__init__.py:88-101 | handling a source keeps every file and adds only W by H variants named "<dir>-<W>x<H>..." |
| ResizeProofs.ProcessSourceGrows | assets_mgr/__init__.py:82-101 | handling a source keeps every entry, leaves loose files alone and only adds variants |
| ResizeProofs.ApplyAllGrows | assets_mgr/__init__.py:82-101 | the second pass, finished or not, only adds variants |
| ResizeProofs.ResizeOnlyAdds | assets_mgr/__init__.py:48-103 | resize_image_dir never changes or removes a file and creates only W by H variants in asset directories |
| ResizeRuns.TagMapKeySet | assets_mgr/__init__.py:59 | for any listing of a directory, the keys of its tag map are the tags of its files |
| ResizeRuns.TagMapOkFiles | assets_mgr/__init__.py:59 | the tag map is built exactly when every globbed file of the directory has a tag |
| ResizeRuns.TagMapValue | assets_mgr/__init__.py:59 | each key maps to the path of a file that carries it |
| ResizeRuns.VariantTag | assets_mgr/__init__.py:97 | the written variant is globbed, reads back with the tag "-<W>x<H>", keeps the source's extension and is its own variant name |
| ResizeRuns.VariantParts | assets_mgr/__init__.py:20-23 | a name dir + tag + ".ext" is plain, globbed and reads back with that tag |
| ResizeRuns.DirSourceShape | assets_mgr/__init__.py:57-72 | the source of a directory is the path of a file carrying the directory's source tag |
| ResizeRuns.DirSourceOk | assets_mgr/__init__.py:57-72 | a directory whose files all have tags and which has a source tag raises nothing |
| ResizeRuns.CollectFacts | assets_mgr/__init__.py:52-72 | the first pass collects exactly the sources of the listed directories |
| ResizeRuns.SortedOnePerDir | assets_mgr/__init__.py:82 | the sorted sources lie in distinct asset directories |
| ResizeRuns.SourceDir | assets_mgr/__init__.py:84 | the directory of a source is the asset directory it was chosen in |
| ResizeRuns.ProcessSourceLocal | assets_mgr/__init__.py:82-101 | handling a source depends only on its own directory and changes only that directory |
| ResizeRuns.ApplyAllPerDir | assets_mgr/__init__.py:82-101 | with one source per directory, the second pass is the handling of each source on the original directory |
| ResizeRuns.ProcessDirNoop | assets_mgr/__init__.py:91-98 | a readable source whose variant exists, or whose aspect ratio differs, causes no write |
| ResizeRuns.SettledAfterProcess | assets_mgr/__init__.py:91-101 | after its source is handled, a directory is settled: handling any file with its source tag writes nothing |
| ResizeRuns.DirAfterFirstRun | assets_mgr/__init__.py:82-101 | every asset directory is settled after a completed run |
| ResizeRuns.FirstRunSettles | assets_mgr/__init__.py:48-103 | a completed run keeps the entries and loose files, and leaves every asset directory settled |
| ResizeRuns.ApplyAllNoop | assets_mgr/__init__.py:82-101 | sources that change nothing leave the second pass with nothing to do |
| ResizeRuns.DirSourceNoop | assets_mgr/__init__.py:57-72 | in a settled directory, the chosen source changes nothing |
| ResizeRuns.CollectNoop | assets_mgr/__init__.py:52-72 | in a settled tree, the first pass succeeds and every source it collects changes nothing |
| ResizeRuns.ResizeIdempotent | assets_mgr/__init__.py:48-103 | a second run with the same W and H, under any listing, completes and writes nothing |
| Migrate.ImageExtLower | assets_mgr/__init__.py:17 | every extension of IMAGE_EXTS is non-empty and lower-case |
| Migrate.OrigName | assets_mgr/__init__.py:124 | the destination `<stem>-orig.<ext>` |
| Migrate.Movable | assets_mgr/__init__.py:118-120 | the loop moves a loose file whose suffix is allowed |
| Migrate.MigrateStep | assets_mgr/__init__.py:118-130 | one turn of the loop, pathlib's "." and ".." stems included (Migrate.StepEffect, Migrate.DotStepEffect, Migrate.UpStepEffect) |
| Migrate.MigrateAll | assets_mgr/__init__.py:117-130 | the loop over the listed entries, stopping at the first exception (Migrate.MigrateKeeps, Migrate.MigrateLayout) |
| Migrate.InitSimpleDir | assets_mgr/__init__.py:114-130 | _init_simple_dir: the failing iterdir of a missing directory, else the loop |
| Migrate.StemDiffers | assets_mgr/__init__.py:120-122 | a file with an extension is not named like its own asset directory |
| Migrate.OrigDiffers | assets_mgr/__init__.py:124 | a file is never its own destination |
| Migrate.StepEffect | assets_mgr/__init__.py:118-130 | for a stem other than "." and "..": one turn touches only the file and its stem directory; mkdir fails exactly when a file has the stem's name; the file moves to stem/stem-orig.ext when that is absent or forced, and otherwise stays and the directory exists |
| Migrate.DotStepEffect | assets_mgr/__init__.py:118-130 | a file of stem "." becomes the loose file `.-orig.<ext>` beside it when that is absent or forced, else stays; the forced move fails exactly onto a directory, with IsADirectoryError |
| Migrate.UpStepEffect | assets_mgr/__init__.py:118-130 | a file of stem ".." leaves for `..-orig.<ext>` in the directory above when that is absent there or forced, else stays; the forced move fails exactly onto a directory, with IsADirectoryError |
| Migrate.OrigReadsBack | assets_mgr/__init__.py:124 | the migrated name stem-orig.ext of a visible one-line file is globbed and reads back with the tag "-orig" |
| Migrate.StepKeeps | assets_mgr/__init__.py:118-130 | an unforced turn overwrites nothing: asset directories keep their files, and every loose file is in place or sits unchanged at its destination, or (stem "..") has left for a free destination above |
| Migrate.MigrateKeeps | assets_mgr/__init__.py:115-130 | an unforced migration, finished or not, loses no file and overwrites no file, by the same measure |
| Migrate.StepGrowth | assets_mgr/__init__.py:118-130 | a turn grows asset directories, creates no loose file but the `.-orig.<ext>` of a stem ".", and leaves its file moved or with its destination taken |
| Migrate.StepProgress | assets_mgr/__init__.py:118-130 | without files of stem ".", a turn keeps what earlier turns achieved and adds its own file |
| Migrate.MigrateProgress | assets_mgr/__init__.py:118-130 | without files of stem ".", after a completed loop every handled movable file has its destination taken |
| Migrate.MigrateLayout | assets_mgr/__init__.py:115-130 | without files of stem ".", a completed migration over every entry leaves every allowed loose file with its destination taken |
| Migrate.StepNoop | assets_mgr/__init__.py:126-130 | on a migrated directory, an unforced turn changes nothing |
| Migrate.MigrateNoop | assets_mgr/__init__.py:115-130 | on a migrated directory, an unforced migration changes nothing and raises nothing |
| Migrate.MigrateIdempotent | assets_mgr/__init__.py:115-130 | without files of stem ".", a second, unforced migration in any order after a completed one changes nothing, even when the directory above has gained entries |
| Migrate.DotStemNotIdempotent | assets_mgr/__init__.py:118-130 | "..png" migrates to the loose ".-orig.png", and a second unforced run moves that on into ".-orig/" |
| Migrate.UpStemLeaves | assets_mgr/__init__.py:118-130 | a lone "...png" leaves the images directory empty |
| Migrate.HiddenFileMoves | assets_mgr/__init__.py:118-130 | ".x.png" migrates into the hidden asset directory ".x" as ".x-orig.png" |
| Store.ImageStore.SourceOf | assets_mgr/__init__.py:57-72 | the loop over the standard sizes with its else branch returns the directory's source as the specification function chooses it |
| Store.ImageStore.CollectAll | assets_mgr/__init__.py:52-72 | the loop over iterdir collects the sources the first pass defines |
| Store.ImageStore.ResizeImageDir | assets_mgr/__init__.py:48-103 | the directory becomes what resize_image_dir leaves, and the error returned is the one it raises |
| Store.ImageStore.ApplyInOrder | assets_mgr/__init__.py:82-101 | the loop over the sorted sources leaves the second pass's result and stops at its first error |
| Store.ImageStore.HandleSource | assets_mgr/__init__.py:83-101 | one source is handled in place as ProcessSource says, and an error leaves the directory unchanged |
| Store.ImageStore.HandleFile | assets_mgr/__init__.py:88-101 | only the source's directory is replaced, by the handled files |
| Store.ImageStore.InitSimpleDir | assets_mgr/__init__.py:115-130 | the loop over iterdir leaves what the migration defines, given the directory above, and the error it raises |
| Store.ImageStore.MoveEntry | assets_mgr/__init__.py:119-130 | one entry is migrated in place as one turn says, "." and ".." stems included, and an error leaves the directory unchanged |
| Manager.Child | assets_mgr/__init__.py:188-190 | path / name appends exactly one component |
| Manager.FirstHit | assets_mgr/__init__.py:280-284 | the first listed file matching the glob, with no earlier match; it is past the end when nothing matches |
| Manager.ResizeOrig | assets_mgr/__init__.py:284-286 | a W by H resize of the first `<bn>-orig.*`, or the IndexError |
| Manager.GetImage | assets_mgr/__init__.py:274-286 | get_image as written (Manager.GetImageCases) |
| Manager.GetImageFixed | assets_mgr/__init__.py:279-286 | get_image with the `<bn>-<W>x<H>.*` glob (Manager.GetImageFixedFinds) |
| Manager.GetImageCases | assets_mgr/__init__.py:274-286 | get_image returns the first stored `<bn>-<W>-<H>.*`, else a W by H resize of the first `<bn>-orig.*`, else the IndexError |
| Manager.AsWrittenMissesLayout | assets_mgr/__init__.py:279-280 | no name `<bn>` + variant tag + anything begins `<bn>-<W>-<H>.` |
| Manager.GetImageIgnoresVariants | assets_mgr/__init__.py:274-286 | on a directory laid out by the migration and the resize, get_image always resizes the original again |
| Manager.VariantLaidOut | assets_mgr/__init__.py:97 | the variant the resize writes fits the asset directory's layout |
| Manager.GetImageFixedFinds | assets_mgr/__init__.py:279-282 | the corrected lookup returns the stored `<bn>-<W>x<H>` variant once the resize has written it |
| Manager.IsThumb | assets_mgr/__init__.py:289 | a file name `*-128x128.*` matches: not hidden, holding "-128x128." |
| Manager.ThumbAt | assets_mgr/__init__.py:289 | a file `**/*-128x128.*` matches: a thumbnail in a visible asset directory |
| Manager.DirThumbs | assets_mgr/__init__.py:289 | the paths globbed in one directory are exactly its thumbnails |
| Manager.ThumbPaths | assets_mgr/__init__.py:289 | every globbed path is a thumbnail of a listed directory |
| Manager.ThumbPathsComplete | assets_mgr/__init__.py:289 | every thumbnail of a listed directory is globbed |
| Manager.ThumbPathsExact | assets_mgr/__init__.py:289 | under a listing of the images directory, the globbed paths are exactly the thumbnail paths |
| Manager.ThumbMap | assets_mgr/__init__.py:289 | the dict comprehension over the sorted paths (Manager.ThumbMapFacts) |
| Manager.ThumbMapStep | assets_mgr/__init__.py:289 | a thumbnail path stores its file under its directory's name |
| Manager.ThumbMapFacts | assets_mgr/__init__.py:289 | the comprehension maps exactly the directories of the paths, each to one of its thumbnails |
| Manager.GetThumbnails | assets_mgr/__init__.py:288-290 | get_thumbnails (Manager.GetThumbnailsKeys, Manager.GetThumbnailsListingFree) |
| Manager.GetThumbnailsKeys | assets_mgr/__init__.py:288-290 | get_thumbnails maps exactly the visible asset directories that hold a `*-128x128.*` file, each to one of those files |
| Manager.GetThumbnailsListingFree | assets_mgr/__init__.py:289 | the paths are sorted first, so the map does not depend on the order in which the file system lists anything |
| Manager.HiddenAssetHasNoSource | assets_mgr/__init__.py:52-72 | the hidden asset directory ".x" holding ".x-orig.png" stops resize_image_dir with the KeyError on "-orig" |
| Manager.ThumbTag | assets_mgr/__init__.py:267 | the thumbnail size tag is "-128x128" |
| Manager.ThumbnailIsFound | assets_mgr/__init__.py:266-267 | the thumbnail create_thumbnails writes in a visible asset directory is one get_thumbnails finds |
| Manager.AssetsManager.constructor | assets_mgr/__init__.py:183-190 | the managed paths are base/images, base/videos and base/generated |
| Manager.AssetsManager.ResizeSourceImages | assets_mgr/__init__.py:262-263 | the images directory becomes what resize_image_dir at W by H leaves, and stays present or missing as it was |
| Manager.AssetsManager.CreateThumbnails | assets_mgr/__init__.py:266-267 | the images directory becomes what resize_image_dir at 128 by 128 leaves, and stays present or missing as it was |
| Manager.AssetsManager.InitializeDirs | assets_mgr/__init__.py:202-208 | the images directory is migrated without force when asked, the base directory being the one above it; listing a missing videos directory fails; nothing else changes, the presence of the images directory included |
| Manager.AssetsManager.GetImageOf | assets_mgr/__init__.py:274-286 | on a laid-out asset directory, get_image is a resize of the original |
| Manager.AssetsManager.GetThumbnail | assets_mgr/__init__.py:270-271 | get_thumbnail is get_image at 128 by 128, so it resizes the original again |
| Manager.AssetsManager.Thumbnails | assets_mgr/__init__.py:288-290 | the keys of get_thumbnails are exactly the asset directories with a thumbnail |

## Left out

- Pixels are not modelled. imageio reading and writing, skimage's resize and `img_as_ubyte` are foreign libraries. An image is its shape and where its pixels came from.
- Aspect ratios are exact rationals, not floats. Two ratios that compare equal as floats but differ exactly, or the reverse, are not modelled.
- Negative widths and heights are not modelled; sizes are natural numbers.
- Console output (`print`, `disp_paths`) is left out.
- `expanduser` and the `makedirs` of the base path in `__init__` are left out; the base path is a path value.
- The `makedirs(dn)` at line 95 is left out. It is never reached, because `dn` is the directory the source was read from.
- `read_video` is left out. `_initialize_videos_dir` only prints, so it is modelled only by its failure when the videos directory is missing (`videosPresent`). `_initialize_generated_dir` does nothing.
- The order in which the file system lists a directory is an input (`Disk.Listing`), not something the model computes.
- Glob metacharacters inside base names are not interpreted.
- Directories nested inside an asset directory are not modelled. `Dirname` of paths with repeated slashes is not modelled.
- The migration iterates over the names present when it starts. Whether `iterdir` also lists the asset directories created during the loop does not matter, because directories are skipped.
- `get_thumbnails` globs `"/" + images_path`, and its `**` (without `recursive=True`) matches one level. The model reads the images directory itself; a relative images path, for which the leading "/" names a different directory, is not modelled.
- `scripts/add_image.py` is not part of this model.
- Concurrency is left out.
- imageio failing to read a file that exists but is not an image (lines 88 and 285) is not modelled: every stored file is an image.
- `NotADirectoryError` from `iterdir` on an images path that is a file (lines 52 and 117) is not modelled: the images directory is present or missing.
- Failures of `write_image` at line 101 (permissions, a full disk, an extension imageio cannot write) are not modelled: the write always succeeds.
- OS errors of `mkdir` and `Path.replace` other than `FileExistsError` and `IsADirectoryError` are not modelled.
- `get_image`'s docstring promises to save the variant it creates. The code never saves it, and neither does the model, the corrected `Manager.GetImageFixed` included.
- `\d` follows the Unicode 15.0 digit table of Python 3.12; other Python versions may accept other digits.
- Migrate.StepKeeps: the directory above the images directory is a read-only value (`above`). A file of stem ".." is recorded only as having left for a destination that was free there; its arrival above is not stated. Migrate.MigrateKeeps inherits this.
- Migrate.MigrateLayout: requires that no loose file with an allowed extension has the stem "." (`Migrate.NoDotStems`). For such a file, the destination `.-orig.<ext>` is itself a loose file the loop would move, and the program is not idempotent (`Migrate.DotStemNotIdempotent`). Migrate.StepProgress, Migrate.MigrateProgress and Migrate.MigrateIdempotent carry the same requirement.
- ResizeRuns.ResizeIdempotent: assumes an asset tree (`ResizeRuns.AssetTree`), meaning plain names, asset directory names that are visible and on one line, and no two files of a directory sharing a tag. Without unique tags, a second listing can choose a different file with the same tag.
- Manager.GetImage: the base name is taken as the name of an entry of the images directory. pathlib reads `""` and `"."` as the images directory itself, where get_image would glob the loose files (a loose `.-orig.png` left by the migration of `..png`, say); the model finds nothing there and returns the IndexError. `".."` and names holding "/" reach other directories and are not modelled either.
- Manager.ResizeOrig: the same base names are not modelled; for `""` and `"."` the model returns the IndexError where the program resizes a loose `-orig.*` or `.-orig.*` file.
- Manager.GetImageFixed: inherits the base names left out of Manager.GetImage.
- Manager.AssetsManager.Thumbnails: states only the keys; which thumbnail each key maps to is stated by `Manager.GetThumbnailsKeys`, and which one of several wins (the last in sorted order) is not stated.
- Manager.AssetsManager.GetImageOf: states the result only for asset directories laid out by the migration and the resize; the general cases are stated by `Manager.GetImageCases`.

## Findings

| source | as written | input that shows it | evidently intended | confidence | as-written member | corrected member |
|---|---|---|---|---|---|---|
| assets_mgr/__init__.py:279 | get_image globs `<bn>/<bn>-<W>-<H>.*`, a name neither the migration nor the resize ever writes | `images/cat/` holding `cat-orig.png` and `cat-64x64.png`; `get_image("cat", 64, 64)` resizes `cat-orig.png` again instead of reading `cat-64x64.png` | glob `<bn>/<bn>-<W>x<H>.*`, the name line 97 gives a variant, so that a variant with the requested dimensions is read back; the docstring speaks of such a variant without naming its pattern, and its saving of a new one is not modelled | not executed; high | Manager.GetImageIgnoresVariants | Manager.GetImageFixedFinds |

The manager's own `GetImageOf` and `GetThumbnail` keep the lookup as written,
since that is what the code does. `Manager.GetImageFixed` is the corrected
lookup; `Manager.GetImageFixedFinds` proves it reads a variant back once the
resize has written it.

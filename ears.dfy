/** The ear dataset adapter (`EarDataset` in samples/ears/ears.py): building
    the catalog of image records for the "train" or "test" subset, and
    materialising the instance masks of one record. Directory listings,
    decoded image sizes and decoded mask files are inputs. */
module Ears {
  import opened PathOps
  import opened InstanceGlob
  import opened Grids

  datatype Option<T> = None | Some(value: T)

  /** The source name under which the dataset registers its images. */
  const EarSource := "ear"

  /** The first two entries of a decoded image's shape. */
  datatype Dims = Dims(height: nat, width: nat)

  /** One entry of `image_info`, as `add_image` stores it. */
  datatype ImageRecord = ImageRecord(id: string, source: string, path: string,
                                     width: nat, height: nat, mask: string)

  /** One level yielded by `os.walk`: a directory, its sub-directories and
      its files. */
  datatype WalkLevel = WalkLevel(dirpath: string, dirnames: seq<string>, filenames: seq<string>)

  datatype LoadError =
    | InvalidSubset             // the `assert subset in ["train", "test"]` fails
    | UnreadableImage(path: string)  // `skimage.io.imread` raises on this image
  datatype LoadOutcome = Loaded | LoadFailed(error: LoadError)

  /** A file of an annotation directory: its path, as `glob` reports it,
      and its decoded pixels. */
  datatype MaskFile = MaskFile(path: string, pixels: Grid<int>)

  datatype MaskError =
    | NoSuchImage           // `image_info[image_id]` raises IndexError
    | NotAnEarImage         // the record belongs to another source: delegated to the base class
    | NoInstanceFiles       // `np.stack` of an empty list raises
    | InstanceShapesDiffer  // `np.stack` of arrays of different shapes raises
  datatype MaskResult = Masks(masks: Volume, classIds: seq<int>) | MaskFailed(error: MaskError)

  predicate IsSubset(subset: string) {
    subset == "train" || subset == "test"
  }

  /** The directory holding the subset's images: the dataset directory's
      entry named after the subset. */
  function ImageDir(datasetDir: string, subset: string): (dir: string)
    ensures IsSubset(subset) ==> Basename(dir) == subset
    ensures IsSubset(subset) && (datasetDir == [] || datasetDir[|datasetDir| - 1] != '/') ==>
              Dirname(dir) == datasetDir
  {
    assert IsSubset(subset) ==> Basename(Join(datasetDir, subset)) == subset by {
      if IsSubset(subset) { JoinBasename(datasetDir, subset); }
    }
    assert IsSubset(subset) && (datasetDir == [] || datasetDir[|datasetDir| - 1] != '/') ==>
             Dirname(Join(datasetDir, subset)) == datasetDir by {
      if IsSubset(subset) && (datasetDir == [] || datasetDir[|datasetDir| - 1] != '/') {
        DirnameOfJoin(datasetDir, subset);
      }
    }
    Join(datasetDir, subset)
  }

  /** The directory holding the subset's instance masks: a sibling of the
      image directory whose name adds `annot`. */
  function MaskDir(datasetDir: string, subset: string): (dir: string)
    ensures IsSubset(subset) ==> Basename(dir) == subset + "annot"
    ensures IsSubset(subset) ==> dir == ImageDir(datasetDir, subset) + "annot"
  {
    assert IsSubset(subset) ==> Basename(Join(datasetDir, subset + "annot")) == subset + "annot" by {
      if IsSubset(subset) { JoinBasename(datasetDir, subset + "annot"); }
    }
    Join(datasetDir, subset + "annot")
  }

  /** The file names the loader takes from a walk: those of its first level
      only, or none when the walk yields nothing (a missing directory). */
  function TopLevelFiles(walk: seq<WalkLevel>): seq<string> {
    if walk == [] then [] else walk[0].filenames
  }

  /** `rec` is the record `load_ear` adds for file `name` whose image decodes
      to `dims`. */
  predicate Describes(rec: ImageRecord, imageDir: string, maskDir: string, name: string, dims: Dims) {
    rec.id == Stem(name) &&
    rec.source == EarSource &&
    rec.path == Join(imageDir, name) &&
    rec.mask == Join(maskDir, name) &&
    rec.height == dims.height && rec.width == dims.width
  }

  /** The records `load_ear` adds for the listed names: one per name, in
      listing order, up to the first image that does not decode
      (`decoded` maps an image path to its size; a path it lacks does not
      decode). */
  function Catalog(imageDir: string, maskDir: string, names: seq<string>, decoded: map<string, Dims>)
    : (r: seq<ImageRecord>)
    ensures |r| <= |names|
    ensures forall k :: 0 <= k < |r| ==>
              Join(imageDir, names[k]) in decoded &&
              Describes(r[k], imageDir, maskDir, names[k], decoded[Join(imageDir, names[k])])
    ensures |r| < |names| ==> Join(imageDir, names[|r|]) !in decoded
  {
    if names == [] then []
    else
      var path := Join(imageDir, names[0]);
      if path !in decoded then []
      else
        var dims := decoded[path];
        [ImageRecord(Stem(names[0]), EarSource, path, dims.width, dims.height, Join(maskDir, names[0]))]
          + Catalog(imageDir, maskDir, names[1..], decoded)
  }

  /** When the first i + 1 names decode, the catalog has a record for name i. */
  lemma CatalogHasRecord(imageDir: string, maskDir: string, names: seq<string>,
                         decoded: map<string, Dims>, i: nat)
    requires i < |names|
    requires forall k :: 0 <= k <= i ==> Join(imageDir, names[k]) in decoded
    ensures var r := Catalog(imageDir, maskDir, names, decoded);
            var path := Join(imageDir, names[i]);
            i < |r| &&
            r[i] == ImageRecord(Stem(names[i]), EarSource, path, decoded[path].width,
                                decoded[path].height, Join(maskDir, names[i]))
  {
    var r := Catalog(imageDir, maskDir, names, decoded);
    assert Describes(r[i], imageDir, maskDir, names[i], decoded[Join(imageDir, names[i])]);
  }

  /** When the first i names decode and name i does not, the catalog holds
      exactly i records. */
  lemma CatalogStopsAt(imageDir: string, maskDir: string, names: seq<string>,
                       decoded: map<string, Dims>, i: nat)
    requires i < |names|
    requires forall k :: 0 <= k < i ==> Join(imageDir, names[k]) in decoded
    requires Join(imageDir, names[i]) !in decoded
    ensures |Catalog(imageDir, maskDir, names, decoded)| == i
  {
  }

  lemma PrefixGrows<T>(s: seq<T>, i: nat)
    requires i < |s|
    ensures s[..i + 1] == s[..i] + [s[i]]
  {
  }

  /** The instance-mask pattern of a catalog record, `<mask path without
      extension>_?.*`, selects in the mask directory exactly the names
      `<record id>_<one character>.<anything>`. */
  lemma RecordInstancePattern(imageDir: string, maskDir: string, names: seq<string>,
                              decoded: map<string, Dims>, k: nat, candidate: string)
    requires k < |Catalog(imageDir, maskDir, names, decoded)|
    requires '/' !in names[k] && '/' !in candidate
    ensures var rec := Catalog(imageDir, maskDir, names, decoded)[k];
            MatchesInstancePattern(Stem(rec.mask), Join(maskDir, candidate))
            <==> MatchesInstancePattern(rec.id, candidate)
  {
    var rec := Catalog(imageDir, maskDir, names, decoded)[k];
    var prefix := DirPrefix(maskDir);
    assert rec.mask == prefix + names[k];
    SplitExtUnderDir(prefix, names[k]);
    assert Stem(rec.mask) == prefix + rec.id;
    assert Join(maskDir, candidate) == prefix + candidate;
    MatchesUnderPrefix(prefix, rec.id, candidate);
  }

  /** A file named `<base>.<ext>`, with a dot-free extension and a base that
      is not all dots, gets the id `<base>`. */
  lemma RecordIdOfSimpleName(imageDir: string, maskDir: string, names: seq<string>,
                             decoded: map<string, Dims>, k: nat, base: string, ext: string)
    requires k < |Catalog(imageDir, maskDir, names, decoded)|
    requires names[k] == base + "." + ext
    requires '/' !in base && NonDotBetween(base, 0, |base|)
    requires '.' !in ext && '/' !in ext
    ensures Catalog(imageDir, maskDir, names, decoded)[k].id == base
  {
    SplitExtOfSimpleName(base, ext);
  }

  /** Ids are not unique: two different files that differ only in their
      extension get distinct records with the same id, and also the same
      instance-mask pattern. */
  lemma SameStemSharesIdAndMasks(imageDir: string, maskDir: string, names: seq<string>,
                                 decoded: map<string, Dims>, k1: nat, k2: nat)
    requires k1 < |Catalog(imageDir, maskDir, names, decoded)|
    requires k2 < |Catalog(imageDir, maskDir, names, decoded)|
    requires '/' !in names[k1] && '/' !in names[k2]
    requires names[k1] != names[k2]
    requires Stem(names[k1]) == Stem(names[k2])
    ensures var r := Catalog(imageDir, maskDir, names, decoded);
            r[k1].id == r[k2].id && Stem(r[k1].mask) == Stem(r[k2].mask) &&
            r[k1].path != r[k2].path
  {
    var r := Catalog(imageDir, maskDir, names, decoded);
    var imagePrefix := DirPrefix(imageDir);
    assert r[k1].path == imagePrefix + names[k1] && r[k2].path == imagePrefix + names[k2];
    DropConcat(imagePrefix, names[k1], 0);
    DropConcat(imagePrefix, names[k2], 0);
    var prefix := DirPrefix(maskDir);
    assert r[k1].mask == prefix + names[k1] && r[k2].mask == prefix + names[k2];
    SplitExtUnderDir(prefix, names[k1]);
    SplitExtUnderDir(prefix, names[k2]);
  }

  /** Python's indexing of a list of length n by i: negative indices count
      from the end; anything else out of range raises IndexError. */
  function PyIndex(n: nat, i: int): (r: Option<nat>)
    ensures r.Some? <==> -(n as int) <= i < n
    ensures r.Some? ==> r.value < n && (r.value == i || r.value == n + i)
  {
    if 0 <= i < n then Some(i)
    else if -(n as int) <= i < 0 then Some(n + i)
    else None
  }

  /** The files `glob(stem + "_?.*")` returns from an annotation directory,
      in the directory's order. */
  function InstanceFiles(stem: string, files: seq<MaskFile>): (r: seq<MaskFile>)
    ensures |r| <= |files|
    ensures forall f :: f in r <==> f in files && MatchesInstancePattern(stem, f.path)
  {
    if files == [] then []
    else if MatchesInstancePattern(stem, files[0].path) then
      [files[0]] + InstanceFiles(stem, files[1..])
    else
      InstanceFiles(stem, files[1..])
  }

  /** Each matching file is kept as often as it is listed, and no other file
      is kept. */
  lemma {:induction false} InstanceFilesMultiplicity(stem: string, files: seq<MaskFile>, f: MaskFile)
    ensures multiset(InstanceFiles(stem, files))[f] ==
            if MatchesInstancePattern(stem, f.path) then multiset(files)[f] else 0
  {
    if files != [] {
      assert files == [files[0]] + files[1..];
      InstanceFilesMultiplicity(stem, files[1..], f);
    }
  }

  /** Filtering keeps the listing order: the matches of a listing split in two
      are the matches of the first part followed by those of the second. */
  lemma {:induction false} InstanceFilesAppend(stem: string, a: seq<MaskFile>, b: seq<MaskFile>)
    ensures InstanceFiles(stem, a + b) == InstanceFiles(stem, a) + InstanceFiles(stem, b)
  {
    if a != [] {
      assert (a + b)[1..] == a[1..] + b;
      InstanceFilesAppend(stem, a[1..], b);
    } else {
      assert a + b == b;
    }
  }

  /** The path `load_mask` reads for a file `matched` that the glob returned:
      `os.path.join(parent, matched)`, where parent is the directory of the
      record's mask path. */
  function MaskReadPath(mask: string, matched: string): string {
    Join(Dirname(mask), matched)
  }

  /** With an absolute mask path, the glob returns absolute paths, and the
      re-join reads the matched file itself. */
  lemma {:induction false} AbsoluteMaskReadsMatchedFile(mask: string, matched: string)
    requires |mask| > 0 && mask[0] == '/'
    requires MatchesInstancePattern(Stem(mask), matched)
    ensures MaskReadPath(mask, matched) == matched
  {
    var stem := Stem(mask);
    assert |stem| > 0 && stem[0] == '/';
    assert matched[0] == matched[..|stem|][0];
  }

  /** With a relative mask path under a directory, the glob returns relative
      paths that already start with that directory, and the re-join puts the
      directory in front a second time: the path read is a different, longer
      path string than the one that matched. */
  lemma {:induction false} RelativeMaskReadsElsewhere(mask: string, matched: string)
    requires |mask| > 0 && mask[0] != '/' && '/' in mask
    requires MatchesInstancePattern(Stem(mask), matched)
    ensures MaskReadPath(mask, matched) != matched
    ensures |MaskReadPath(mask, matched)| > |matched|
  {
    var stem := Stem(mask);
    assert |stem| > 0 && stem[0] == mask[0];
    assert matched[0] == matched[..|stem|][0];
    assert Dirname(mask) != [];
  }

  /** `np.ones([n], dtype=np.int32)`: the class id 1 for each of n instances. */
  function Ones(n: nat): (r: seq<int>)
    ensures |r| == n && forall k :: 0 <= k < n ==> r[k] == 1
  {
    seq(n, _ => 1)
  }

  /** Every file has the shape of the first one. */
  predicate SameFileShapes(files: seq<MaskFile>)
    requires |files| > 0
  {
    forall k :: 0 <= k < |files| ==>
      files[k].pixels.height == files[0].pixels.height &&
      files[k].pixels.width == files[0].pixels.width
  }

  /** `v` is the instance-mask volume of the matched files: instance k is file
      k, and a pixel is set exactly where that file's pixel is non-zero. */
  predicate IsMaskStackOf(v: Volume, files: seq<MaskFile>) {
    |files| > 0 && v.Valid() && v.count == |files| &&
    (forall k :: 0 <= k < |files| ==>
       files[k].pixels.Valid() && files[k].pixels.height == v.height && files[k].pixels.width == v.width) &&
    forall i, j, k :: 0 <= i < v.height && 0 <= j < v.width && 0 <= k < v.count ==>
      (v.bits[i][j][k] <==> files[k].pixels.rows[i][j] != 0)
  }

  /** The dataset: `image_info`, the records registered so far. */
  class EarDataset {
    var imageInfo: seq<ImageRecord>

    constructor ()
      ensures imageInfo == []
    {
      imageInfo := [];
    }

    /** `load_ear(dataset_dir, subset)`. `walk` is what `os.walk` yields for
        the subset's image directory and `decoded` gives the size of each
        image that decodes. An invalid subset adds nothing. Otherwise one
        record is added per top-level file, in listing order, until an image
        fails to decode; the records added before that failure stay. */
    method LoadEar(datasetDir: string, subset: string, walk: seq<WalkLevel>, decoded: map<string, Dims>)
      returns (outcome: LoadOutcome)
      modifies this
      ensures !IsSubset(subset) ==> outcome == LoadFailed(InvalidSubset) && imageInfo == old(imageInfo)
      ensures IsSubset(subset) ==>
        var names := TopLevelFiles(walk);
        var added := Catalog(ImageDir(datasetDir, subset), MaskDir(datasetDir, subset), names, decoded);
        imageInfo == old(imageInfo) + added &&
        outcome == if |added| == |names| then Loaded
                   else LoadFailed(UnreadableImage(Join(ImageDir(datasetDir, subset), names[|added|])))
    {
      if !(subset == "train" || subset == "test") {
        return LoadFailed(InvalidSubset);
      }
      var annotation := subset + "annot";
      var maskDir := Join(datasetDir, annotation);
      var imageDir := Join(datasetDir, subset);

      // Only the first level of the walk is used: the loop breaks at once.
      var images: seq<string> := [];
      for level := 0 to |walk|
        invariant level == 0 && images == []
      {
        images := images + walk[level].filenames;
        break;
      }
      assert images == TopLevelFiles(walk);

      outcome := AddImages(imageDir, maskDir, images, decoded);
    }

    /** The `for filename in images` loop of `load_ear`: registers one record
        per name, in order, and stops at the first image that does not decode,
        keeping the records already added. */
    method AddImages(imageDir: string, maskDir: string, images: seq<string>, decoded: map<string, Dims>)
      returns (outcome: LoadOutcome)
      modifies this
      ensures var added := Catalog(imageDir, maskDir, images, decoded);
        imageInfo == old(imageInfo) + added &&
        outcome == if |added| == |images| then Loaded
                   else LoadFailed(UnreadableImage(Join(imageDir, images[|added|])))
    {
      ghost var full := Catalog(imageDir, maskDir, images, decoded);
      for i := 0 to |images|
        invariant forall k :: 0 <= k < i ==> Join(imageDir, images[k]) in decoded
        invariant imageInfo == old(imageInfo) + full[..i]
      {
        var filename := images[i];
        var imagePath := Join(imageDir, filename);
        var maskPath := Join(maskDir, filename);
        if imagePath !in decoded {
          // skimage.io.imread raises: the records added so far stay.
          CatalogStopsAt(imageDir, maskDir, images, decoded, i);
          assert full[..i] == full;
          return LoadFailed(UnreadableImage(imagePath));
        }
        var dims := decoded[imagePath];
        CatalogHasRecord(imageDir, maskDir, images, decoded, i);
        imageInfo := imageInfo + [ImageRecord(Stem(filename), EarSource, imagePath, dims.width, dims.height, maskPath)];
        PrefixGrows(full, i);
      }
      assert full[..|images|] == full;
      outcome := Loaded;
    }

    /** `load_mask(image_id)`. `annotations` lists the files of the record's
        annotation directory with their decoded pixels. The files matching
        `<mask path without extension>_?.*` are decoded to boolean layers,
        in directory order, and stacked; the class ids are all 1. */
    method LoadMask(imageId: int, annotations: seq<MaskFile>) returns (result: MaskResult)
      requires forall f :: f in annotations ==> f.pixels.Valid()
      ensures PyIndex(|imageInfo|, imageId).None? ==> result == MaskFailed(NoSuchImage)
      ensures PyIndex(|imageInfo|, imageId).Some? ==>
        var info := imageInfo[PyIndex(|imageInfo|, imageId).value];
        var files := InstanceFiles(Stem(info.mask), annotations);
        (info.source != EarSource ==> result == MaskFailed(NotAnEarImage)) &&
        (info.source == EarSource ==>
           (result == MaskFailed(NoInstanceFiles) <==> |files| == 0) &&
           (result == MaskFailed(InstanceShapesDiffer) <==> |files| > 0 && !SameFileShapes(files)) &&
           (result.Masks? <==> |files| > 0 && SameFileShapes(files)) &&
           (result.Masks? ==>
              IsMaskStackOf(result.masks, files) &&
              |result.classIds| == result.masks.count &&
              forall k :: 0 <= k < |result.classIds| ==> result.classIds[k] == 1))
    {
      var index := PyIndex(|imageInfo|, imageId);
      if index.None? {
        return MaskFailed(NoSuchImage);
      }
      var info := imageInfo[index.value];
      if info.source != EarSource {
        return MaskFailed(NotAnEarImage);
      }
      var maskRoot := Stem(info.mask);
      var files := InstanceFiles(maskRoot, annotations);

      var mask: seq<Grid<bool>> := [];
      for i := 0 to |files|
        invariant |mask| == i
        invariant forall k :: 0 <= k < i ==> files[k].pixels.Valid() && mask[k] == ToBool(files[k].pixels)
      {
        assert files[i] in files;
        mask := mask + [ToBool(files[i].pixels)];
      }
      if |files| > 0 {
        assert SameShape(mask) <==> SameFileShapes(files);
      }
      match StackLayers(mask)
      case NotStacked(EmptyStack) =>
        result := MaskFailed(NoInstanceFiles);
      case NotStacked(ShapeMismatch) =>
        result := MaskFailed(InstanceShapesDiffer);
      case Stacked(v) =>
        result := Masks(v, Ones(v.count));
    }
  }
}

# Ear dataset adapter and color splash, modelled in Dafny

This project models the self-contained logic of the ear-detection sample
(`samples/ears/ears.py`) of a Mask R-CNN fork:

- **Catalog building** (`EarDataset.load_ear`): for the subset `"train"` or
  `"test"`, the images live in `<dataset>/<subset>` and the instance masks in
  `<dataset>/<subset>annot`. One record is added to `image_info` per file of
  the top level of the image directory, in listing order. The record's id is
  the file name without its last extension, its path is the image path, its
  mask path joins the mask directory with the same file name, and its source
  is `"ear"`.
- **Instance masks** (`EarDataset.load_mask`): the files matching
  `<mask path without extension>_?.*` are read as boolean layers, in listing
  order. They are stacked into a `[height, width, count]` volume, and the
  class ids are a vector of 1s of the same length.
- **Color splash** (`color_splash`): a pixel keeps the original color when at
  least one instance covers it (`sum >= 1`). Every other pixel takes the gray
  image's pixel. With zero instances the result is the gray image.

Modules:

- `PathOps` (`paths.dfy`) gives POSIX `os.path.join`, `os.path.splitext` and
  `os.path.dirname`, with lemmas on how they combine. `os.path.basename`,
  which the loader itself never calls, is there as the inverse of joining a
  plain name onto a directory.
- `InstanceGlob` (`glob.dfy`) is the glob pattern `<stem>_?.*` as a predicate.
- `Grids` (`grids.dfy`) holds rectangular arrays, the mask volume, `np.stack`
  along the last axis and its inverse, and the boolean sum.
- `Splash` (`splash.dfy`) is `color_splash`.
- `Ears` (`ears.dfy`) holds the records and the `EarDataset` class. Its
  `imageInfo` field stands for `image_info`. `LoadEar` and `AddImages` change
  it; `LoadMask` only reads it.

File I/O is turned into inputs:

- The `os.walk` listing is a sequence of walk levels.
- `skimage.io.imread` of a catalog image becomes a map from image path to its
  size. A path missing from the map is an image that does not decode.
- The annotation directory is a sequence of files. Each file has the path
  that `glob` reports and its already decoded pixels.
- The gray copy of the image is an input grid.

### Behaviour worth knowing, as the code has it

- With zero matching mask files, `load_mask` does not return an empty stack.
  `np.stack` of an empty list raises. `LoadMask` returns `NoInstanceFiles`.
- `load_mask` never compares the mask layers with the record's stored width
  and height. Only layers of different shapes make `np.stack` raise
  (`InstanceShapesDiffer`).
- Record ids are not unique. `a.png` and `a.jpg` both get the id `a`. They
  also get the same instance-mask pattern (`SameStemSharesIdAndMasks`).
- When an image fails to decode, `load_ear` stops. The records added before
  it stay in `image_info`.
- A missing image directory makes `os.walk` yield nothing. Then no records
  are added and no error is raised.
- The glob accepts exactly one index character. `<stem>_10.png` is never
  matched (`MultiCharacterIndexNeverMatches`).
- A file whose name is leading dots, a dot and an extension (`.png`,
  `..png`) gets the whole name as its id (`LeadingDotsKeepRoot`).
- `load_mask` re-joins each matched path onto the mask directory. With an
  absolute dataset path this gives back the matched path. With a relative
  one it gives a different, longer path string: for the dataset directory
  `ears` it names `ears/trainannot/ears/trainannot/a_1.png`, which normally
  does not exist (see Findings). A relative path that the file system
  resolves back to the matched file, such as `..`, still works.

## Model

| member | source | states |
|---|---|---|
| `PathOps.Join` | samples/ears/ears.py:67-69 | `os.path.join(a, b)`: an absolute `b` replaces `a`; otherwise `b` follows `a` with one separator between them |
| `PathOps.DirPrefix` | samples/ears/ears.py:77-78 | what `join` puts before a relative name ends with a separator (or is empty) and starts with the directory |
| `PathOps.JoinBasename` | samples/ears/ears.py:77-78 | joining a directory and a plain file name gives a path whose base name is that file name |
| `PathOps.Basename` | samples/ears/ears.py:77-78 | a base name never contains a separator; with `JoinBasename` it undoes the joins of lines 77-78 (the loader never calls it) |
| `PathOps.RFindConcat` | samples/ears/ears.py:105 | the last occurrence of a character in `x + y` is the last one in `y` if `y` has one, else the last one in `x` (the search `splitext` performs) |
| `PathOps.SplitExt` | samples/ears/ears.py:83 | `os.path.splitext`: root followed by extension gives back the path; the extension is empty or one '.' followed by characters that are neither '.' nor '/' |
| `PathOps.Stem` | samples/ears/ears.py:83 | the id is a prefix of the file name |
| `PathOps.SplitExtOfSimpleName` | samples/ears/ears.py:83 | `<base>.<ext>`, with a dot-free extension and a base that is not all dots, splits into `<base>` and `.<ext>` |
| `PathOps.LeadingDotsKeepRoot` | samples/ears/ears.py:83 | a name of leading dots, one more dot and a dot-free extension (`.bashrc`, `..png`) has no extension: the id is the whole name |
| `PathOps.NoDotNoExtension` | samples/ears/ears.py:83 | a name without a dot has an empty extension |
| `PathOps.SplitExtUnderDir` | samples/ears/ears.py:105 | under a directory prefix, `splitext` of a plain name splits only the name; the directory is kept whole |
| `PathOps.Dirname` | samples/ears/ears.py:106 | `os.path.dirname`: the path up to its last separator, with trailing separators removed unless only separators remain; empty exactly when the path has no separator |
| `PathOps.DirnameOfJoin` | samples/ears/ears.py:106 | the directory of a plain name joined onto a directory without a trailing separator is that directory |
| `InstanceGlob.MatchesInstancePattern` | samples/ears/ears.py:107 | `glob(stem + "_?.*")`: the stem literally, '_', one character other than '/', '.', then a suffix without '/' |
| `InstanceGlob.BuiltInstancePathMatches` | samples/ears/ears.py:107 | `stem + "_" + c + "." + rest` matches `stem_?.*` exactly when neither `c` nor `rest` contains a separator |
| `InstanceGlob.MatchingPathDecomposes` | samples/ears/ears.py:107 | every match is the stem, '_', one character, '.', and a suffix |
| `InstanceGlob.MultiCharacterIndexNeverMatches` | samples/ears/ears.py:107 | an index of two or more characters, such as `_10`, is never matched |
| `InstanceGlob.MatchesUnderPrefix` | samples/ears/ears.py:105-107 | a common directory prefix on the stem and on the candidate does not change matching |
| `Grids.CountTrue` | samples/ears/ears.py:169 | the boolean sum is at most the length, equals the number of `true` entries, and is at least 1 exactly when some entry is true |
| `Grids.ToBool` | samples/ears/ears.py:114 | `astype(np.bool)` keeps the shape; a pixel is true exactly when the decoded value is non-zero |
| `Grids.StackLayers` | samples/ears/ears.py:117 | `np.stack(axis=-1)` fails exactly on an empty list or on layers of different shapes; otherwise the volume has one instance per layer and `bits[i][j][k]` is pixel (i, j) of layer k |
| `Grids.Layer` | samples/ears/ears.py:117 | instance k of a volume read back as a grid of the volume's height and width |
| `Grids.StackThenLayer` | samples/ears/ears.py:117 | taking instance k out of a stack gives back layer k |
| `Grids.LayersThenStack` | samples/ears/ears.py:117 | stacking the instances of a non-empty volume gives back the volume |
| `Splash.AnyInstance` | samples/ears/ears.py:169 | the collapsed mask has the image's shape and is set exactly where some instance covers the pixel |
| `Splash.Where` | samples/ears/ears.py:170 | `np.where`: each element comes from the first grid where the condition holds, from the second elsewhere |
| `Splash.ColorSplash` | samples/ears/ears.py:156-173 | the result has the image's height and width; a covered pixel is the image's pixel, every other pixel the gray one |
| `Splash.SplashUncoveredIsGray` | samples/ears/ears.py:167-172 | when no pixel is covered, the result is the gray image |
| `Splash.SplashWithoutInstances` | samples/ears/ears.py:171-172 | with zero instances the result is the gray image |
| `Splash.SplashFullInstanceIsImage` | samples/ears/ears.py:169-170 | an instance that covers every pixel yields the original image |
| `Splash.SplashDependsOnCoverageOnly` | samples/ears/ears.py:168-170 | two mask volumes that cover the same pixels give the same result |
| `Splash.SplashIgnoresInstanceOrder` | samples/ears/ears.py:168-169 | permuting the instances leaves the result unchanged |
| `Splash.SplashOfStack` | samples/ears/ears.py:117 | splashing a stack of layers keeps a pixel's color exactly when one of the layers is set there |
| `Splash.SplashTopRowExample` | samples/ears/ears.py:165-170 | a 2x2 red image whose one instance covers the top row keeps the top row red and grays the bottom row |
| `Ears.IsSubset` | samples/ears/ears.py:66 | the asserted condition: the subset is `"train"` or `"test"` |
| `Ears.MaskDir` | samples/ears/ears.py:67-68 | for a valid subset, the mask directory is named `<subset>annot` and is the image directory's path with `annot` appended |
| `Ears.ImageDir` | samples/ears/ears.py:69 | for a valid subset, the image directory is named after the subset and, when the dataset directory has no trailing separator, its parent is the dataset directory |
| `Ears.TopLevelFiles` | samples/ears/ears.py:71-74 | the file names of the walk's first level only, and none when the walk yields nothing |
| `Ears.Catalog` | samples/ears/ears.py:76-88 | at most one record per name, in order; record k has id = name k without extension, source "ear", the joined image path, the joined mask path with the unchanged name, and the decoded height and width; the records stop exactly at the first image that does not decode |
| `Ears.CatalogHasRecord` | samples/ears/ears.py:79-88 | when names 0..i decode, record i exists and is the record built from name i |
| `Ears.CatalogStopsAt` | samples/ears/ears.py:79 | when name i is the first that does not decode, exactly i records are built |
| `Ears.RecordInstancePattern` | samples/ears/ears.py:78 | for a record's mask path, the pattern `<mask path minus extension>_?.*` selects in the mask directory exactly the names `<id>_<one character>.<anything>` |
| `Ears.RecordIdOfSimpleName` | samples/ears/ears.py:83 | a file `<base>.<ext>` gets the id `<base>` |
| `Ears.SameStemSharesIdAndMasks` | samples/ears/ears.py:83 | two different files with the same stem get records with different image paths but equal ids and the same mask pattern, so ids are not unique |
| `Ears.PyIndex` | samples/ears/ears.py:98 | Python list indexing: valid exactly for `-n <= i < n`; a negative index counts from the end |
| `Ears.InstanceFiles` | samples/ears/ears.py:107 | the files kept are exactly the listed files whose path matches `stem_?.*`, never more than listed |
| `Ears.InstanceFilesAppend` | samples/ears/ears.py:107 | the matches of a listing split in two are the first part's matches followed by the second's, so the listing order is kept |
| `Ears.InstanceFilesMultiplicity` | samples/ears/ears.py:107 | a matching file is kept as often as it is listed, any other file never |
| `Ears.MaskReadPath` | samples/ears/ears.py:106-113 | the path read for a matched file: the matched path joined onto the directory of the mask path |
| `Ears.AbsoluteMaskReadsMatchedFile` | samples/ears/ears.py:106-113 | with an absolute mask path, the path read is the matched file |
| `Ears.RelativeMaskReadsElsewhere` | samples/ears/ears.py:106-113 | with a relative mask path under a directory, the path read is a different, longer path string than the matched one |
| `Ears.Ones` | samples/ears/ears.py:120 | `np.ones([n])`: n class ids, each equal to 1 |
| `Ears.EarDataset.constructor` | samples/ears/ears.py:137 | a new dataset has no image records |
| `Ears.EarDataset.LoadEar` | samples/ears/ears.py:56-88 | an invalid subset fails with `InvalidSubset` and adds nothing. Otherwise the records of the first walk level's files are appended to `image_info`, under `<dataset>/<subset>` and `<dataset>/<subset>annot`. The outcome is `Loaded` when every image decodes; otherwise it is the first unreadable image path |
| `Ears.EarDataset.AddImages` | samples/ears/ears.py:76-88 | appends exactly the catalog records for the names; reports the first image that does not decode |
| `Ears.EarDataset.LoadMask` | samples/ears/ears.py:90-120 | out-of-range ids fail, and records from another source are delegated. Otherwise the result depends on the files matching the record's pattern. No match gives `NoInstanceFiles`, and layers of different shapes give `InstanceShapesDiffer`. Any other case gives a volume with one instance per matched file, set where that file's pixel is non-zero, plus one class id 1 per instance |

## Left out

- Command-line driver, `train` and `detect` (lines 134-154, 175-193, 198-286): argument parsing, weight selection and the calls into `model.train` and `model.detect` belong to the external Mask R-CNN framework.
- `EarConfig` and `InferenceConfig` (lines 29-48, 240-245): constant overrides of the framework's configuration class. They have no behaviour of their own.
- `add_class("ear", 1, "ear")` (line 63): the class table is kept by the framework's `utils.Dataset`, and `utils.Dataset` is not part of this model.
- `image_reference` (lines 122-128): it returns the record's path or calls the base class. The base class is not part of this model.
- Delegation to the base class's `load_mask` for non-"ear" records (lines 99-100): it is modelled only as the outcome `NotAnEarImage`.
- File I/O: `os.walk`, `skimage.io.imread`, `glob` and `imsave` are inputs, not operations. The order of a listing is taken as given.
- `LoadMask`: a matched mask file that fails to decode is not modelled. Every listed annotation file comes with decoded pixels.
- `LoadMask`: a decoded mask is a two-dimensional array. A color mask image would stack into a four-dimensional array; that case is not modelled.
- `LoadMask`: each instance is read from the path the glob reported, as intended, not from the re-joined path of line 113 (see Findings).
- `InstanceGlob.MatchesInstancePattern`: a stem that contains glob metacharacters (`*`, `?`, `[`) is matched literally. Paths are compared as strings, without collapsing repeated separators.
- `Splash.ColorSplash`: the gray image is an input. `rgb2gray`, the `* 255` scaling and the `astype(np.uint8)` truncation of the gray pixels are floating-point steps and are not modelled. The image is assumed to be 8-bit, so the same cast leaves covered pixels unchanged; on a 16-bit image it would wrap them.
- `LoadEar`: `InvalidSubset` is the failed `assert` of line 66 under the default interpreter. `python -O` removes that assert, and that case is not modelled.
- `Splash.ColorSplash`: it requires the mask and the gray image to have the image's height and width. numpy broadcasting of other shapes is not modelled.
- The timestamped output file name (line 189).

## Findings

| source | as written | input that shows it | evidently intended | confidence | as-written member | corrected member |
|---|---|---|---|---|---|---|
| samples/ears/ears.py:106-113 | each path `glob` returns is joined again onto `os.path.dirname(info["mask"])` | dataset directory `ears` (relative): mask path `ears/trainannot/a.png`, matched `ears/trainannot/a_1.png`, path read `ears/trainannot/ears/trainannot/a_1.png` | read the matched file itself | medium, not executed | `Ears.RelativeMaskReadsElsewhere` | `Ears.EarDataset.LoadMask` |

`Ears.MaskReadPath` is the path the code as written reads. `Ears.RelativeMaskReadsElsewhere` proves that, for a relative mask path under a directory, it is a different and longer path string than the matched one. For `ears` that string names a file that normally does not exist; for `..` the file system resolves it back to the matched file. `Ears.AbsoluteMaskReadsMatchedFile` proves the two agree for absolute paths, which is why an absolute dataset directory works. `Ears.EarDataset.LoadMask` reads every instance from the matched file: its contract makes instance k the k-th matched file, in listing order (`Ears.InstanceFilesAppend`).

# create_dataset: YOLO labels to a COCO document, verified in Dafny

This project models `create_dataset`, the function that converts one split
(`train` or `valid`) of a YOLO-labelled object-detection dataset into one COCO
annotation document. The function lists the split's `images/` directory and
sorts the names. For each image in that order it opens the image, appends an
image record whose id is the image's position (`id_`), and reads the label file
named after the part of the file name before its first dot. Each label line
becomes one annotation whose id is the number of annotations already in the
document. Any failure aborts the split, and no document is written.

Modules:

- `Wrappers` (`wrappers.dfy`): `Option` and `Result`.
- `PyText` (`pytext.dfy`): the Python `str` built-ins the conversion relies on.
  These are `str.isspace`, `strip()`, `split()` with no separator, and `int()`
  on a field. `str()` on an integer is there only for a round-trip lemma.
- `PySort` (`pysort.dfy`): `sorted()` on a list of `str`. It is an insertion
  sort, with a proof that exactly one sorted arrangement exists, so it agrees
  with any correct sort.
- `Coco` (`coco.dfy`): the records of the document, and the `coco_dataset`
  dictionary as a class whose `images` and `annotations` lists are appended to
  in place.
- `ConvertDataset` (`convert.dfy`):
  - `Convert` states what one split produces. It is built from the two loop
    specifications `ConvertFrom` (images) and `AnnotateLines` (lines of one
    label file).
  - `CreateDataset` is the nested loop over a `CocoDataset` object, proved to
    return exactly `Convert`.
- `ConversionProperties` (`properties.dfy`): what the document guarantees.
  - When the split converts at all.
  - Image and annotation numbering.
  - Every `image_id` resolves to an image.
  - Annotations come in image order.
  - One annotation per label line.
  - A concrete two-image split.

How the model represents the split's input, a `SplitInput`:

- `listing`: the names `os.listdir` returns, in any order.
- `sizes`: a map from each image name that opens to its `(width, height)`. A
  name missing from the map is an image that `Image.open` cannot read.
- `labelFiles`: a map from each label file name to its lines as `readlines()`
  returns them. A name missing from the map is a label file that `open` cannot
  find.

The float arithmetic of a label line is a parameter of type `Denormalizer`. It
is the `float()` of the four coordinates and the truncating `int()` of
`(x ∓ w/2) * width` and `(y ∓ h/2) * height`. It returns the pixel corners, or
`None` where Python raises.

`ParseLine` models everything else about a line:

- `strip().split()`;
- the requirement of exactly five fields (the four-way unpacking);
- `int()` of the first field, evaluated after the coordinates, as in the source.

The loop specifications take the line reader as a parameter (`LineParser`), and
`Convert` instantiates it with `ParseLine`. Because of this, the inductive
lemmas hold for any reader.

Behaviour that the model follows from the code:

- The label file of `a.b.jpg` is `a.txt`: the name is cut at the first dot, not
  at the extension. Two images that agree before their first dot share one label
  file (`LabelFileNameOfStem`).
- A blank label line is not skipped. It has no fields, so the four-way unpacking
  raises and the split aborts (`BlankLineRejected`, `MalformedLineAborts`). Tabs or
  runs of blanks between the fields, and a trailing newline, are harmless
  (`ParseLineFields`).
- Every exception raised while reading a line is one error in the model,
  `MalformedLine(labelFile, lineIndex)`. These are the `ValueError` of the
  unpacking, of `float()` and of `int()`, and the `OverflowError` of `int()` on
  an infinite coordinate.

## Model

| member | source | states |
|---|---|---|
| Coco.MakeAnnotation | rtdetr_pytorch/convert_dataset.py:73-80 | the annotation keeps its id, image id and category; `bbox` has four entries; the first two are the top-left corner; the corner plus the size gives the bottom-right corner; `area` is width times height; `iscrowd` is 0 |
| Coco.BoxCornersOfAnnotation | rtdetr_pytorch/convert_dataset.py:77 | round trip: the emitted `bbox` gives back exactly the corners it was built from |
| Coco.HalfBoxExample | rtdetr_pytorch/convert_dataset.py:77-78 | corners (25, 25) and (75, 75) give `bbox` [25, 25, 50, 50] and area 2500 |
| Coco.CocoDataset.constructor | rtdetr_pytorch/convert_dataset.py:28-34 | the dictionary starts with empty `info` and `licenses`, the given categories, and no images or annotations |
| Coco.CocoDataset.AppendImage | rtdetr_pytorch/convert_dataset.py:50-56 | `images` gains exactly the new record at its end; nothing else changes |
| Coco.CocoDataset.AppendAnnotation | rtdetr_pytorch/convert_dataset.py:73-81 | `annotations` gains one record at its end, whose id is the length of the list before the append; nothing else changes |
| PyText.IsSpace | rtdetr_pytorch/convert_dataset.py:64 | the characters for which Python's `str.isspace()` holds, which `strip()` and `split()` treat as blanks; `LStripCut`, `RStripCut` and `SplitCovers` state how these two use it |
| PyText.LStrip | rtdetr_pytorch/convert_dataset.py:64 | the result does not start with a blank, and it is empty exactly when the line is all blanks |
| PyText.LStripCut | rtdetr_pytorch/convert_dataset.py:64 | the line is a run of blanks followed by the result of `lstrip()`, so with `LStrip`'s contract the result is the line without its leading blanks |
| PyText.RStrip | rtdetr_pytorch/convert_dataset.py:64 | the result does not end with a blank, it keeps the first character, and it is empty exactly when the line is all blanks |
| PyText.RStripCut | rtdetr_pytorch/convert_dataset.py:64 | the line is the result of `rstrip()` followed by a run of blanks, so with `RStrip`'s contract the result is the line without its trailing blanks |
| PyText.Strip | rtdetr_pytorch/convert_dataset.py:64 | the result neither starts nor ends with a blank, and it is empty exactly when the line is all blanks |
| PyText.StripCut | rtdetr_pytorch/convert_dataset.py:64 | the result of `strip()` is a slice of the line with only blanks before and after it |
| PyText.StripUnique | rtdetr_pytorch/convert_dataset.py:64 | any slice of the line with only blanks around it and no blank at either end is the result of `strip()`: together with `StripCut` this fixes the value of `strip()` |
| PyText.Split | rtdetr_pytorch/convert_dataset.py:64 | every field is non-empty and free of blanks; its value on every line is fixed by `SplitCovers` (every line is its fields with blanks around and between them) together with `SplitPadded` (such a line splits into exactly those fields) |
| PyText.SplitStrip | rtdetr_pytorch/convert_dataset.py:64 | `strip()` before `split()` changes nothing |
| PyText.SplitJoinWith | rtdetr_pytorch/convert_dataset.py:64 | round trip: splitting fields joined by any non-empty runs of blanks (spaces, tabs, several of them) gives the same fields back |
| PyText.SplitCovers | rtdetr_pytorch/convert_dataset.py:64 | every line is its fields from `split()` with blanks before and after them and a non-empty run of blanks between each two; a line with no fields is all blanks |
| PyText.SplitPadded | rtdetr_pytorch/convert_dataset.py:60-64 | a line of fields with any non-empty runs of blanks between them and any blanks (such as a newline) around them splits, after `strip()`, into exactly those fields |
| PyText.ParseInt | rtdetr_pytorch/convert_dataset.py:76 | `int()` on a field: an optional sign, then ASCII digits with single underscores between digits, read in base 10; anything else is `None` (Python's `ValueError`); `ParseIntShow` shows it inverts `str()` |
| PyText.ParseIntShow | rtdetr_pytorch/convert_dataset.py:76 | round trip of the model's `int()` and `str()`: `ParseInt(Show(n)) == Some(n)` for every integer, and `Show(n)` is a single field; Python's 4300-digit limit is not modelled (see below) |
| PySort.StrLeq | rtdetr_pytorch/convert_dataset.py:36 | Python's `<=` on `str`: lexicographic by code point, a prefix before its extensions; `SortedUnique` shows that sorting by it gives `sorted()`'s one result |
| PySort.Insert | rtdetr_pytorch/convert_dataset.py:36 | inserting into a sorted list keeps it sorted, and adds exactly the new name |
| PySort.SortNames | rtdetr_pytorch/convert_dataset.py:36 | the result is sorted, in Python's `str` order, and is a permutation of the listing |
| PySort.SortedUnique | rtdetr_pytorch/convert_dataset.py:36 | two sorted permutations of one list are equal, so `SortNames` is Python's `sorted()` |
| ConvertDataset.BeforeFirstDot | rtdetr_pytorch/convert_dataset.py:59 | the result is a prefix of the name with no dot in it, and it ends at the first dot or at the end of the name |
| ConvertDataset.LabelFileName | rtdetr_pytorch/convert_dataset.py:59 | the label file of an image is the part of its name before the first dot, plus `.txt`; `LabelFileNameOfStem` states it for every dot-free stem |
| ConvertDataset.LabelFileNameOfStem | rtdetr_pytorch/convert_dataset.py:59 | the label file of `stem.rest`, and of `stem`, is `stem.txt` whenever `stem` has no dot |
| ConvertDataset.BlankLineRejected | rtdetr_pytorch/convert_dataset.py:60-64 | a blank line has no fields and is rejected |
| ConvertDataset.ParseLine | rtdetr_pytorch/convert_dataset.py:64-76 | one label line: `strip()`, `split()`, exactly five fields, the float step on the last four and `int()` on the first; `ParseLineFields` and `BlankLineRejected` state which lines it accepts and what it returns |
| ConvertDataset.ParseLineFields | rtdetr_pytorch/convert_dataset.py:64-76 | a line of five fields, separated by any runs of blanks and padded by any blanks, is accepted exactly when the first field reads as an integer and the other four convert; the label is that integer and those corners |
| ConvertDataset.AppendLineAnnotations | rtdetr_pytorch/convert_dataset.py:63-81 | the inner loop leaves `annotations` equal to `AnnotateLines` on the old list, or reports the first malformed line |
| ConvertDataset.CreateDataset | rtdetr_pytorch/convert_dataset.py:26-88 | the in-place conversion returns exactly `Convert`: the finished dictionary, or the error that aborted it |
| ConversionProperties.AnnotateLinesOk | rtdetr_pytorch/convert_dataset.py:63-81 | a label file goes through exactly when every one of its lines is accepted |
| ConversionProperties.AnnotateLinesLength | rtdetr_pytorch/convert_dataset.py:63-81 | the inner loop keeps the annotations it started with and adds one per line |
| ConversionProperties.AnnotateLinesAt | rtdetr_pytorch/convert_dataset.py:63-81 | line `t` is accepted and yields the annotation numbered by its position in the list, with this image's id |
| ConversionProperties.ConvertFromOk | rtdetr_pytorch/convert_dataset.py:39-84 | the outer loop finishes exactly when every remaining image opens, has its label file, and has only accepted lines |
| ConversionProperties.ConvertFromImages | rtdetr_pytorch/convert_dataset.py:38-56 | the outer loop appends one record per remaining image, in listing order, numbered by position |
| ConversionProperties.ConvertFromAnnotationsLength | rtdetr_pytorch/convert_dataset.py:63-84 | the outer loop keeps the earlier annotations and adds one per label line of the remaining images |
| ConversionProperties.ImageAnnotationAt | rtdetr_pytorch/convert_dataset.py:63-84 | line `j` of the current image yields the annotation numbered `j` past the annotations already present |
| ConversionProperties.ConvertFromAnnotationAt | rtdetr_pytorch/convert_dataset.py:63-84 | the `j`-th label line of the remaining images, in image then line order, yields annotation number `j` past those already present |
| ConversionProperties.ConvertFromIds | rtdetr_pytorch/convert_dataset.py:74-75 | annotation `j` has id `j` and the image id of the `j`-th label line |
| ConversionProperties.ConvertedParts | rtdetr_pytorch/convert_dataset.py:26-88 | the document has the initial `info`, `licenses` and categories, one record per sorted image name, and annotation `j` has id `j` and the image of label line `j` |
| ConversionProperties.ConvertFromSucceedsIff | rtdetr_pytorch/convert_dataset.py:39-84 | over any listing with the split's names, the loops finish exactly when every image opens, has its label file, and has only accepted lines |
| ConversionProperties.ConvertSucceedsIff | rtdetr_pytorch/convert_dataset.py:26-88 | assuming every copy and every read succeeds, a split converts exactly when every listed image opens and has its label file and every line of those files is well formed |
| ConversionProperties.ImagesFollowListing | rtdetr_pytorch/convert_dataset.py:28-56 | the document has one image record per listed file, with names sorted and a permutation of the listing; record `t` has id `t` and its file's size; `info`, `licenses` and categories are as initialised |
| ConversionProperties.AnnotationIdsDense | rtdetr_pytorch/convert_dataset.py:74 | annotation ids are 0, 1, …, M-1 in list order |
| ConversionProperties.ImageIdsResolve | rtdetr_pytorch/convert_dataset.py:51 | every `image_id` names an image record with that id, and that is the only such record |
| ConversionProperties.AnnotationsInImageOrder | rtdetr_pytorch/convert_dataset.py:39-84 | `image_id` never decreases along the annotation list |
| ConversionProperties.AnnotationCount | rtdetr_pytorch/convert_dataset.py:63-81 | there are exactly as many annotations as label lines over all images |
| ConversionProperties.AnnotationOfLine | rtdetr_pytorch/convert_dataset.py:63-81 | line `k` of image `t` is accepted and is annotation number (lines of images before `t`) + `k`, made from that line's label, with `image_id` `t` |
| ConversionProperties.UnreadableImageAborts | rtdetr_pytorch/convert_dataset.py:43-59 | a listed image that does not open, or whose label file is missing, aborts the split |
| ConversionProperties.MalformedLineAborts | rtdetr_pytorch/convert_dataset.py:64 | a label line of any listed image that does not split into exactly five fields aborts the split |
| ConversionProperties.TwoLabelFileNames | rtdetr_pytorch/convert_dataset.py:59 | `a.jpg` and `b.jpg` are labelled by `a.txt` and `b.txt` |
| ConversionProperties.TwoImageLoops | rtdetr_pytorch/convert_dataset.py:38-84 | the loops over `a.jpg` (one accepted line) and `b.jpg` (no lines) yield two records and one annotation of image 0 |
| ConversionProperties.TwoImageSplit | rtdetr_pytorch/convert_dataset.py:26-88 | the split listed as `b.jpg`, `a.jpg` yields records for `a.jpg` (id 0) and `b.jpg` (id 1), and one annotation with id 0 and image 0, made from `a.jpg`'s line |

## Left out

- File I/O is outside the model. Listing the directory, opening images and label files, `shutil.copyfile` of each image, and writing the document with `json.dump` are not modelled. The model's inputs are the listing, the image sizes and the label lines, and its output is the document value. The model assumes that every copy and every read succeeds. In the program, a failing `shutil.copyfile` also aborts the split, for example when `<output_dir>/<split>/` is missing because `output_dir` already existed, so that the driver did not create its sub-directories. A label file that `readlines()` cannot decode aborts the split too. `ConvertSucceedsIff` characterises success under this assumption.
- Floating point is outside the model. The `float()` parsing and the `(x - w / 2) * width` arithmetic with truncating `int()` are the `Denormalizer` parameter. No property depends on what it returns, except whether it fails.
- `readlines()` is outside the model: how a file's text is cut into lines is given as input. The lines may keep their newline, and `ParseLineFields` shows that the newline is harmless.
- Error kinds are coarser than Python's. A file that does not open and a file that is not a valid image are both `ImageUnreadable`. Every `ValueError` or `OverflowError` raised on a line is `MalformedLine`.
- `int()` on a field accepts ASCII digits with single underscores between digits, and an optional sign. Python also accepts other Unicode decimal digits, which the model rejects. Python's limit on the number of digits that `int()` reads and `str()` writes (4300 by default, configurable, in CPython since 3.11 and in the security releases of 3.7 to 3.10) is not modelled either. So a line whose class field has more than 4300 digits converts in the model, but in the program `int()` raises `ValueError` and the split aborts.
- The `categories=None` default is not modelled. The categories are always a given list, copied into the document unchanged.
- `tqdm` progress output, the `draw_bbox` debug helper and the `__main__` driver are not modelled. The driver creates the output directories, fixes the six-category list and calls the function once per split.
- `PySort.SortNames` compares names by code point, as Python does for `str`. Names that are not valid UTF-8 on disk are not modelled.

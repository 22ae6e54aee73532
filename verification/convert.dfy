/**
 * `create_dataset` for one split: the conversion of a YOLO-labelled image
 * directory into one COCO document. `Convert` states what the conversion
 * computes; `CreateDataset` is the loop that computes it in place.
 */
module ConvertDataset {
  import opened Wrappers
  import opened PyText
  import opened PySort
  import opened Coco

  /** `Image.open(path).size` of an image file that opens. */
  datatype ImageSize = ImageSize(width: nat, height: nat)

  /**
   * What the conversion reads from the split's input directory: the names in
   * `images/` (`os.listdir`, any order), the size of every image that opens,
   * and the lines (`readlines()`) of every file in `labels/`, by file name.
   */
  datatype SplitInput = SplitInput(
    listing: seq<string>,
    sizes: map<string, ImageSize>,
    labelFiles: map<string, seq<string>>)

  /**
   * The float step of a label line: from the four coordinate fields and the
   * image size to the truncated pixel corners; `None` where `float()` or
   * `int()` raises.
   */
  type Denormalizer = (seq<string>, ImageSize) -> Option<Corners>

  /** What a well-formed label line contributes: its class and its box. */
  datatype Label = Label(categoryId: int, corners: Corners)

  /** A label-line reader: a line and its image's size to its label, or `None` if the line is malformed. */
  type LineParser = (string, ImageSize) -> Option<Label>

  /** The exceptions that abort a split before its document is written. */
  datatype ConversionError =
    | ImageUnreadable(fileName: string)
    | LabelFileMissing(labelFileName: string)
    | MalformedLine(labelFileName: string, lineIndex: nat)

  /** The `images` and `annotations` lists built so far. */
  datatype Built = Built(images: seq<ImageRecord>, annotations: seq<Annotation>)

  /** `name.split(".")[0]`: the part of `name` before its first dot. */
  function BeforeFirstDot(name: string): (r: string)
    ensures r <= name && '.' !in r
    ensures r == name || name[|r|] == '.'
  {
    if name == [] || name[0] == '.' then [] else [name[0]] + BeforeFirstDot(name[1..])
  }

  /** The label file looked up for an image file. */
  function LabelFileName(imageFile: string): string {
    BeforeFirstDot(imageFile) + ".txt"
  }

  /**
   * One label line: exactly five whitespace-separated fields, the last four
   * converted to corners, the first read by `int()`.
   */
  function ParseLine(line: string, size: ImageSize, denorm: Denormalizer): Option<Label> {
    var fields := Split(Strip(line));
    if |fields| != 5 then None
    else match denorm(fields[1..], size)
      case None => None
      case Some(corners) =>
        match ParseInt(fields[0])
        case None => None
        case Some(categoryId) => Some(Label(categoryId, corners))
  }

  /** `ParseLine` with the float step fixed: the reader the loop body applies to every line. */
  function ParserOf(denorm: Denormalizer): LineParser {
    (line, size) => ParseLine(line, size, denorm)
  }

  /**
   * The label file of `stem.rest` is `stem.txt` when `stem` has no dot; in
   * particular `a.b.jpg` is labelled by `a.txt`, so two images that share the
   * part before their first dot share one label file.
   */
  lemma {:induction false} LabelFileNameOfStem(stem: string, rest: string)
    requires '.' !in stem
    ensures LabelFileName(stem + "." + rest) == stem + ".txt"
    ensures LabelFileName(stem) == stem + ".txt"
    decreases |stem|
  {
    if stem != [] {
      assert (stem + "." + rest)[1..] == stem[1..] + "." + rest;
      LabelFileNameOfStem(stem[1..], rest);
      assert BeforeFirstDot(stem[1..]) == stem[1..];
      assert [stem[0]] + stem[1..] == stem;
    } else {
      assert (stem + "." + rest)[0] == '.';
    }
  }

  /** A blank line has no fields, so it is rejected. */
  lemma BlankLineRejected(line: string, size: ImageSize, denorm: Denormalizer)
    requires AllSpace(line)
    ensures Split(Strip(line)) == []
    ensures ParseLine(line, size, denorm) == None
  {
  }

  /**
   * A line of five fields, with any runs of blanks between them (spaces or
   * tabs) and around them (such as the newline `readlines()` keeps),
   * converts exactly when its first field reads as an integer and its other
   * four convert to corners: its category is the integer of the first field.
   */
  lemma ParseLineFields(pre: string, fields: seq<string>, seps: seq<string>, post: string,
                        size: ImageSize, denorm: Denormalizer)
    requires AllSpace(pre) && AllSpace(post) && Separators(seps)
    requires |fields| == 5 && |seps| == 4 && forall t :: t in fields ==> IsToken(t)
    ensures ParseLine(pre + JoinWith(fields, seps) + post, size, denorm).Some?
        <==> ParseInt(fields[0]).Some? && denorm(fields[1..], size).Some?
    ensures ParseLine(pre + JoinWith(fields, seps) + post, size, denorm).Some? ==>
              ParseLine(pre + JoinWith(fields, seps) + post, size, denorm).value
              == Label(ParseInt(fields[0]).value, denorm(fields[1..], size).value)
  {
    SplitPadded(pre, fields, seps, post);
  }

  /**
   * The inner loop from line `k` on: appends one annotation per line to `anns`,
   * each numbered by the length of the list it joins, or stops at the first
   * malformed line.
   */
  function AnnotateLines(lines: seq<string>, k: nat, labelName: string, imageId: nat,
                         size: ImageSize, parse: LineParser, anns: seq<Annotation>)
    : Result<seq<Annotation>, ConversionError>
    requires k <= |lines|
    decreases |lines| - k
  {
    if k == |lines| then Ok(anns)
    else match parse(lines[k], size)
      case None => Err(MalformedLine(labelName, k))
      case Some(parsed) =>
        var a := MakeAnnotation(|anns|, imageId, parsed.categoryId, parsed.corners);
        AnnotateLines(lines, k + 1, labelName, imageId, size, parse, anns + [a])
  }

  /**
   * The outer loop from image `i` of the sorted listing `files` on: the image
   * record with id `i`, then the annotations of its label file.
   */
  function ConvertFrom(files: seq<string>, i: nat, inp: SplitInput, parse: LineParser, acc: Built)
    : Result<Built, ConversionError>
    requires i <= |files|
    decreases |files| - i
  {
    if i == |files| then Ok(acc)
    else
      var file := files[i];
      if file !in inp.sizes then Err(ImageUnreadable(file))
      else
        var size := inp.sizes[file];
        var images := acc.images + [ImageRecord(i, size.width, size.height, file)];
        var labelName := LabelFileName(file);
        if labelName !in inp.labelFiles then Err(LabelFileMissing(labelName))
        else match AnnotateLines(inp.labelFiles[labelName], 0, labelName, i, size, parse, acc.annotations)
          case Err(e) => Err(e)
          case Ok(anns) => ConvertFrom(files, i + 1, inp, parse, Built(images, anns))
  }

  /** One round of the outer loop in which image `i` converts completely. */
  lemma ConvertFromNext(files: seq<string>, i: nat, inp: SplitInput, parse: LineParser, acc: Built,
                        anns: seq<Annotation>)
    requires i < |files| && files[i] in inp.sizes && LabelFileName(files[i]) in inp.labelFiles
    requires AnnotateLines(inp.labelFiles[LabelFileName(files[i])], 0, LabelFileName(files[i]), i,
                           inp.sizes[files[i]], parse, acc.annotations) == Ok(anns)
    ensures var size := inp.sizes[files[i]];
            ConvertFrom(files, i, inp, parse, acc)
            == ConvertFrom(files, i + 1, inp, parse,
                           Built(acc.images + [ImageRecord(i, size.width, size.height, files[i])], anns))
  {
  }

  /** The document of one split, or the error that aborts it. */
  function Convert(inp: SplitInput, categories: seq<Category>, denorm: Denormalizer)
    : Result<Document, ConversionError>
  {
    match ConvertFrom(SortNames(inp.listing), 0, inp, ParserOf(denorm), Built([], []))
    case Err(e) => Err(e)
    case Ok(b) => Ok(Document(map[], [], categories, b.images, b.annotations))
  }

  /**
   * The loop over one label file: builds one annotation per line, with this
   * image's id, and appends it to `coco.annotations`, stopping at the first
   * malformed line.
   */
  method AppendLineAnnotations(coco: CocoDataset, lines: seq<string>, labelName: string, imageId: nat,
                               size: ImageSize, denorm: Denormalizer)
    returns (err: Option<ConversionError>)
    modifies coco`annotations
    ensures var expected := AnnotateLines(lines, 0, labelName, imageId, size, ParserOf(denorm), old(coco.annotations));
            if expected.Ok? then err == None && coco.annotations == expected.value
            else err == Some(expected.error)
  {
    for k := 0 to |lines|
      invariant AnnotateLines(lines, k, labelName, imageId, size, ParserOf(denorm), coco.annotations)
             == AnnotateLines(lines, 0, labelName, imageId, size, ParserOf(denorm), old(coco.annotations))
    {
      var parsed := ParseLine(lines[k], size, denorm);
      if parsed.None? {
        return Some(MalformedLine(labelName, k));
      }
      coco.AppendAnnotation(imageId, parsed.value.categoryId, parsed.value.corners);
    }
    return None;
  }

  /**
   * `create_dataset`: walks the sorted listing, appending each image's record
   * and then one annotation per line of its label file to one dictionary, and
   * returns that dictionary when every image has been converted.
   */
  method CreateDataset(inp: SplitInput, categories: seq<Category>, denorm: Denormalizer)
    returns (r: Result<Document, ConversionError>)
    ensures r == Convert(inp, categories, denorm)
  {
    var coco := new CocoDataset(categories);
    var imageFiles := SortNames(inp.listing);
    var id := 0;
    for i := 0 to |imageFiles|
      invariant id == i
      invariant coco.info == map[] && coco.licenses == [] && coco.categories == categories
      invariant ConvertFrom(imageFiles, i, inp, ParserOf(denorm), Built(coco.images, coco.annotations))
             == ConvertFrom(imageFiles, 0, inp, ParserOf(denorm), Built([], []))
    {
      ghost var start := Built(coco.images, coco.annotations);
      var imageFile := imageFiles[i];
      if imageFile !in inp.sizes {
        assert ConvertFrom(imageFiles, i, inp, ParserOf(denorm), start) == Err(ImageUnreadable(imageFile));
        return Err(ImageUnreadable(imageFile));
      }
      var size := inp.sizes[imageFile];
      coco.AppendImage(ImageRecord(id, size.width, size.height, imageFile));
      var labelName := LabelFileName(imageFile);
      if labelName !in inp.labelFiles {
        assert ConvertFrom(imageFiles, i, inp, ParserOf(denorm), start) == Err(LabelFileMissing(labelName));
        return Err(LabelFileMissing(labelName));
      }
      var lines := inp.labelFiles[labelName];
      var err := AppendLineAnnotations(coco, lines, labelName, id, size, denorm);
      if err.Some? {
        assert ConvertFrom(imageFiles, i, inp, ParserOf(denorm), start) == Err(err.value);
        return Err(err.value);
      }
      ConvertFromNext(imageFiles, i, inp, ParserOf(denorm), start, coco.annotations);
      id := id + 1;
    }
    r := Ok(coco.Snapshot());
  }
}

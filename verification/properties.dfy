/**
 * What the conversion of one split guarantees about its document: the image
 * and annotation numbering, the link from each annotation to its image, the
 * one-to-one match between label lines and annotations, and when it aborts.
 */
module ConversionProperties {
  import opened Wrappers
  import opened PyText
  import opened PySort
  import opened Coco
  import opened ConvertDataset

  /** Every image from the `i`-th on opens and has its label file. */
  predicate Readable(files: seq<string>, inp: SplitInput, i: nat) {
    forall t :: i <= t < |files| ==> files[t] in inp.sizes && LabelFileName(files[t]) in inp.labelFiles
  }

  /** Line `lineIndex` of the label file of image `imageId`, with that image's size. */
  datatype LineEntry = LineEntry(imageId: nat, lineIndex: nat, text: string, size: ImageSize)

  /** The lines of the label file of image `t`; none if it is missing. */
  function LinesOf(files: seq<string>, inp: SplitInput, t: nat): seq<string>
    requires t < |files|
  {
    var name := LabelFileName(files[t]);
    if name in inp.labelFiles then inp.labelFiles[name] else []
  }

  /** The lines of image `t`, in file order. */
  function ImageEntries(files: seq<string>, inp: SplitInput, t: nat): seq<LineEntry>
    requires t < |files| && files[t] in inp.sizes
  {
    var lines := LinesOf(files, inp, t);
    seq(|lines|, k requires 0 <= k < |lines| => LineEntry(t, k, lines[k], inp.sizes[files[t]]))
  }

  /** The lines of all images from the `i`-th on: image order, then line order. */
  function LineEntries(files: seq<string>, inp: SplitInput, i: nat): seq<LineEntry>
    requires i <= |files| && Readable(files, inp, i)
    decreases |files| - i
  {
    if i == |files| then [] else ImageEntries(files, inp, i) + LineEntries(files, inp, i + 1)
  }

  /** Number of label lines of images `i` up to (not including) `t`. */
  function LinesBefore(files: seq<string>, inp: SplitInput, i: nat, t: nat): nat
    requires i <= t <= |files|
    decreases t - i
  {
    if i == t then 0 else |LinesOf(files, inp, i)| + LinesBefore(files, inp, i + 1, t)
  }

  /** `parse` accepts every line of `es`. */
  predicate AllLinesParse(es: seq<LineEntry>, parse: LineParser) {
    forall j :: 0 <= j < |es| ==> parse(es[j].text, es[j].size).Some?
  }

  /** The annotation that line `e` yields when it is numbered `id`. */
  function LineAnnotation(id: nat, e: LineEntry, parse: LineParser): Annotation
    requires parse(e.text, e.size).Some?
  {
    var parsed := parse(e.text, e.size).value;
    MakeAnnotation(id, e.imageId, parsed.categoryId, parsed.corners)
  }

  /** The record of image `t`. */
  function RecordFor(files: seq<string>, inp: SplitInput, t: nat): ImageRecord
    requires t < |files| && files[t] in inp.sizes
  {
    ImageRecord(t, inp.sizes[files[t]].width, inp.sizes[files[t]].height, files[t])
  }

  /** Every listed image opens and has its label file, and every line of that label file is well formed. */
  predicate WellFormed(inp: SplitInput, denorm: Denormalizer) {
    AcceptsAll(inp, ParserOf(denorm))
  }

  /** Every listed image opens and has its label file, and `parse` accepts every line of that file. */
  predicate AcceptsAll(inp: SplitInput, parse: LineParser) {
    forall f :: f in inp.listing ==>
      f in inp.sizes && LabelFileName(f) in inp.labelFiles
      && forall line :: line in inp.labelFiles[LabelFileName(f)] ==> parse(line, inp.sizes[f]).Some?
  }

  /** The file names of the image records, in order. */
  function FileNames(images: seq<ImageRecord>): seq<string> {
    seq(|images|, t requires 0 <= t < |images| => images[t].fileName)
  }

  // ---------------------------------------------------------------------------
  // The inner loop: one label file.

  /** The inner loop gets through the label file exactly when every line from `k` on is accepted. */
  lemma {:induction false} AnnotateLinesOk(lines: seq<string>, k: nat, labelName: string, imageId: nat,
                                           size: ImageSize, parse: LineParser, anns: seq<Annotation>)
    requires k <= |lines|
    ensures AnnotateLines(lines, k, labelName, imageId, size, parse, anns).Ok?
        <==> forall t :: k <= t < |lines| ==> parse(lines[t], size).Some?
    decreases |lines| - k
  {
    if k < |lines| {
      var parsed := parse(lines[k], size);
      if parsed.None? {
        assert AnnotateLines(lines, k, labelName, imageId, size, parse, anns) == Err(MalformedLine(labelName, k));
      } else {
        var a := MakeAnnotation(|anns|, imageId, parsed.value.categoryId, parsed.value.corners);
        assert AnnotateLines(lines, k, labelName, imageId, size, parse, anns)
            == AnnotateLines(lines, k + 1, labelName, imageId, size, parse, anns + [a]);
        AnnotateLinesOk(lines, k + 1, labelName, imageId, size, parse, anns + [a]);
        assert (forall t :: k <= t < |lines| ==> parse(lines[t], size).Some?)
           <==> (forall t :: k + 1 <= t < |lines| ==> parse(lines[t], size).Some?);
      }
    }
  }

  /** The inner loop appends one annotation per line from `k` on, after those it started with. */
  lemma {:induction false} AnnotateLinesLength(lines: seq<string>, k: nat, labelName: string, imageId: nat,
                                               size: ImageSize, parse: LineParser, anns: seq<Annotation>,
                                               res: seq<Annotation>)
    requires k <= |lines|
    requires AnnotateLines(lines, k, labelName, imageId, size, parse, anns) == Ok(res)
    ensures |res| == |anns| + |lines| - k && res[..|anns|] == anns
    decreases |lines| - k
  {
    if k == |lines| {
      assert res == anns;
    } else {
      var p := parse(lines[k], size);
      assert p.Some?;
      var a := MakeAnnotation(|anns|, imageId, p.value.categoryId, p.value.corners);
      var anns' := anns + [a];
      assert AnnotateLines(lines, k, labelName, imageId, size, parse, anns)
          == AnnotateLines(lines, k + 1, labelName, imageId, size, parse, anns');
      AnnotateLinesLength(lines, k + 1, labelName, imageId, size, parse, anns', res);
      assert res[..|anns|] == res[..|anns'|][..|anns|];
    }
  }

  /** Line `t` of the label file is well formed and yields the annotation numbered `|anns| + t - k`. */
  lemma {:induction false} AnnotateLinesAt(lines: seq<string>, k: nat, labelName: string, imageId: nat,
                                           size: ImageSize, parse: LineParser, anns: seq<Annotation>,
                                           res: seq<Annotation>, t: nat)
    requires k <= t < |lines|
    requires AnnotateLines(lines, k, labelName, imageId, size, parse, anns) == Ok(res)
    ensures parse(lines[t], size).Some?
    ensures |anns| + t - k < |res|
            && res[|anns| + t - k] == LineAnnotation(|anns| + t - k, LineEntry(imageId, t, lines[t], size), parse)
    decreases t - k
  {
    var p := parse(lines[k], size);
    assert p.Some?;
    var a := MakeAnnotation(|anns|, imageId, p.value.categoryId, p.value.corners);
    var anns' := anns + [a];
    assert AnnotateLines(lines, k, labelName, imageId, size, parse, anns)
        == AnnotateLines(lines, k + 1, labelName, imageId, size, parse, anns');
    AnnotateLinesLength(lines, k + 1, labelName, imageId, size, parse, anns', res);
    var e := LineEntry(imageId, t, lines[t], size);
    if t == k {
      assert res[|anns|] == res[..|anns'|][|anns|] == a;
      assert a == LineAnnotation(|anns|, e, parse);
    } else {
      AnnotateLinesAt(lines, k + 1, labelName, imageId, size, parse, anns', res, t);
      assert res[|anns'| + t - (k + 1)] == LineAnnotation(|anns'| + t - (k + 1), LineEntry(imageId, t, lines[t], size), parse);
      var id := |anns'| + t - (k + 1);
      assert res[id] == LineAnnotation(id, e, parse);
      assert id == |anns| + t - k;
    }
  }

  // ---------------------------------------------------------------------------
  // The outer loop: the images of the sorted listing.

  lemma {:induction false} AllLinesParseAppend(a: seq<LineEntry>, b: seq<LineEntry>, parse: LineParser)
    ensures AllLinesParse(a + b, parse) <==> AllLinesParse(a, parse) && AllLinesParse(b, parse)
  {
    if AllLinesParse(a, parse) && AllLinesParse(b, parse) {
      forall j | 0 <= j < |a + b| ensures parse((a + b)[j].text, (a + b)[j].size).Some? {
        if j >= |a| { assert (a + b)[j] == b[j - |a|]; }
      }
    }
    if AllLinesParse(a + b, parse) {
      forall j | 0 <= j < |a| ensures parse(a[j].text, a[j].size).Some? {
        assert (a + b)[j] == a[j];
      }
      forall j | 0 <= j < |b| ensures parse(b[j].text, b[j].size).Some? {
        assert (a + b)[|a| + j] == b[j];
      }
    }
  }

  lemma {:induction false} ConvertFromOk(files: seq<string>, i: nat, inp: SplitInput, parse: LineParser, acc: Built)
    requires i <= |files|
    ensures ConvertFrom(files, i, inp, parse, acc).Ok?
        <==> Readable(files, inp, i) && AllLinesParse(LineEntries(files, inp, i), parse)
    decreases |files| - i
  {
    if i < |files| {
      var file := files[i];
      var labelName := LabelFileName(file);
      if file in inp.sizes && labelName in inp.labelFiles {
        var size := inp.sizes[file];
        var lines := inp.labelFiles[labelName];
        var images := acc.images + [ImageRecord(i, size.width, size.height, file)];
        assert Readable(files, inp, i) <==> Readable(files, inp, i + 1);
        AnnotateLinesOk(lines, 0, labelName, i, size, parse, acc.annotations);
        var entries := ImageEntries(files, inp, i);
        match AnnotateLines(lines, 0, labelName, i, size, parse, acc.annotations)
        case Err(_) =>
          if Readable(files, inp, i) {
            var k :| 0 <= k < |lines| && parse(lines[k], size).None?;
            var es := LineEntries(files, inp, i);
            assert es == entries + LineEntries(files, inp, i + 1);
            assert es[k] == entries[k] == LineEntry(i, k, lines[k], size);
          }
        case Ok(anns) =>
          ConvertFromOk(files, i + 1, inp, parse, Built(images, anns));
          assert AllLinesParse(entries, parse) by {
            forall j | 0 <= j < |entries| ensures parse(entries[j].text, entries[j].size).Some? {
              assert entries[j] == LineEntry(i, j, lines[j], size);
            }
          }
          if Readable(files, inp, i) {
            AllLinesParseAppend(entries, LineEntries(files, inp, i + 1), parse);
          }
      }
    }
  }

  /** One round of the outer loop that does not abort: image `i` opens, has its label file, and all its lines convert. */
  lemma ConvertFromStep(files: seq<string>, i: nat, inp: SplitInput, parse: LineParser, acc: Built)
    returns (anns: seq<Annotation>)
    requires i < |files|
    requires ConvertFrom(files, i, inp, parse, acc).Ok?
    ensures files[i] in inp.sizes && LabelFileName(files[i]) in inp.labelFiles
    ensures AnnotateLines(LinesOf(files, inp, i), 0, LabelFileName(files[i]), i, inp.sizes[files[i]], parse, acc.annotations)
            == Ok(anns)
    ensures ConvertFrom(files, i, inp, parse, acc)
            == ConvertFrom(files, i + 1, inp, parse, Built(acc.images + [RecordFor(files, inp, i)], anns))
  {
    var file := files[i];
    var size := inp.sizes[file];
    var labelName := LabelFileName(file);
    anns := AnnotateLines(inp.labelFiles[labelName], 0, labelName, i, size, parse, acc.annotations).value;
  }

  /** The outer loop appends the records of images `i`, `i + 1`, ... in listing order. */
  lemma {:induction false} ConvertFromImages(files: seq<string>, i: nat, inp: SplitInput, parse: LineParser,
                                             acc: Built, b: Built)
    requires i <= |files|
    requires ConvertFrom(files, i, inp, parse, acc) == Ok(b)
    ensures Readable(files, inp, i)
    ensures |b.images| == |acc.images| + |files| - i && b.images[..|acc.images|] == acc.images
    ensures forall t :: i <= t < |files| ==> b.images[|acc.images| + t - i] == RecordFor(files, inp, t)
    decreases |files| - i
  {
    if i == |files| {
      assert b == acc;
    } else {
      var anns := ConvertFromStep(files, i, inp, parse, acc);
      var images := acc.images + [RecordFor(files, inp, i)];
      ConvertFromImages(files, i + 1, inp, parse, Built(images, anns), b);
      assert b.images[..|acc.images|] == b.images[..|images|][..|acc.images|];
      assert b.images[|acc.images|] == b.images[..|images|][|acc.images|] == images[|acc.images|];
    }
  }

  /** The outer loop appends one annotation per label line of images `i`, `i + 1`, ... */
  lemma {:induction false} ConvertFromAnnotationsLength(files: seq<string>, i: nat, inp: SplitInput,
                                                        parse: LineParser, acc: Built, b: Built)
    requires i <= |files| && Readable(files, inp, i)
    requires ConvertFrom(files, i, inp, parse, acc) == Ok(b)
    ensures |b.annotations| == |acc.annotations| + |LineEntries(files, inp, i)|
    ensures b.annotations[..|acc.annotations|] == acc.annotations
    decreases |files| - i
  {
    if i == |files| {
      assert b == acc;
    } else {
      var anns := ConvertFromStep(files, i, inp, parse, acc);
      AnnotateLinesLength(LinesOf(files, inp, i), 0, LabelFileName(files[i]), i, inp.sizes[files[i]], parse,
                          acc.annotations, anns);
      ConvertFromAnnotationsLength(files, i + 1, inp, parse, Built(acc.images + [RecordFor(files, inp, i)], anns), b);
      assert b.annotations[..|acc.annotations|] == b.annotations[..|anns|][..|acc.annotations|];
    }
  }

  /** Line `j` of image `i` is well formed and yields annotation number `|acc.annotations| + j`. */
  lemma ImageAnnotationAt(files: seq<string>, i: nat, inp: SplitInput, parse: LineParser, acc: Built, b: Built, j: nat)
    requires i < |files| && Readable(files, inp, i)
    requires ConvertFrom(files, i, inp, parse, acc) == Ok(b)
    requires j < |LinesOf(files, inp, i)|
    ensures parse(LinesOf(files, inp, i)[j], inp.sizes[files[i]]).Some?
    ensures |acc.annotations| + j < |b.annotations|
    ensures b.annotations[|acc.annotations| + j]
            == LineAnnotation(|acc.annotations| + j, LineEntry(i, j, LinesOf(files, inp, i)[j], inp.sizes[files[i]]), parse)
  {
    var anns := ConvertFromStep(files, i, inp, parse, acc);
    var lines := LinesOf(files, inp, i);
    var next := Built(acc.images + [RecordFor(files, inp, i)], anns);
    var n := |acc.annotations|;
    AnnotateLinesAt(lines, 0, LabelFileName(files[i]), i, inp.sizes[files[i]], parse, acc.annotations, anns, j);
    ConvertFromAnnotationsLength(files, i + 1, inp, parse, next, b);
    assert b.annotations[n + j] == b.annotations[..|anns|][n + j] == anns[n + j];
  }

  /**
   * Entry `j` of the label lines of images `i`, `i + 1`, ... is well formed and
   * yields the annotation numbered by its position in the list.
   */
  lemma {:induction false} ConvertFromAnnotationAt(files: seq<string>, i: nat, inp: SplitInput, parse: LineParser,
                                                   acc: Built, b: Built, j: nat)
    requires i <= |files| && Readable(files, inp, i)
    requires ConvertFrom(files, i, inp, parse, acc) == Ok(b)
    requires j < |LineEntries(files, inp, i)|
    ensures parse(LineEntries(files, inp, i)[j].text, LineEntries(files, inp, i)[j].size).Some?
    ensures |acc.annotations| + j < |b.annotations|
    ensures b.annotations[|acc.annotations| + j]
            == LineAnnotation(|acc.annotations| + j, LineEntries(files, inp, i)[j], parse)
    decreases |files| - i
  {
    var entries := ImageEntries(files, inp, i);
    var rest := LineEntries(files, inp, i + 1);
    assert LineEntries(files, inp, i) == entries + rest;
    if j < |entries| {
      assert LineEntries(files, inp, i)[j] == entries[j];
      ImageAnnotationAt(files, i, inp, parse, acc, b, j);
    } else {
      var anns := ConvertFromStep(files, i, inp, parse, acc);
      var j' := j - |entries|;
      assert LineEntries(files, inp, i)[j] == rest[j'];
      AnnotateLinesLength(LinesOf(files, inp, i), 0, LabelFileName(files[i]), i, inp.sizes[files[i]], parse,
                          acc.annotations, anns);
      ConvertFromAnnotationAt(files, i + 1, inp, parse, Built(acc.images + [RecordFor(files, inp, i)], anns), b, j');
    }
  }

  // ---------------------------------------------------------------------------
  // The order and number of label lines.

  predicate EntryValid(files: seq<string>, inp: SplitInput, i: nat, e: LineEntry) {
    i <= e.imageId < |files| && files[e.imageId] in inp.sizes
    && e.lineIndex < |LinesOf(files, inp, e.imageId)|
    && e.text == LinesOf(files, inp, e.imageId)[e.lineIndex]
    && e.size == inp.sizes[files[e.imageId]]
  }

  /** Line `e` comes before line `f`: an earlier image, or the same image and an earlier line. */
  predicate EntryBefore(e: LineEntry, f: LineEntry) {
    e.imageId < f.imageId || (e.imageId == f.imageId && e.lineIndex < f.lineIndex)
  }

  /** Every entry is a real line of a real image. */
  lemma {:induction false} LineEntriesValid(files: seq<string>, inp: SplitInput, i: nat)
    requires i <= |files| && Readable(files, inp, i)
    ensures forall j :: 0 <= j < |LineEntries(files, inp, i)| ==> EntryValid(files, inp, i, LineEntries(files, inp, i)[j])
    decreases |files| - i
  {
    if i < |files| {
      var entries := ImageEntries(files, inp, i);
      var rest := LineEntries(files, inp, i + 1);
      LineEntriesValid(files, inp, i + 1);
      forall j | 0 <= j < |entries + rest| ensures EntryValid(files, inp, i, (entries + rest)[j]) {
        if j >= |entries| {
          assert (entries + rest)[j] == rest[j - |entries|];
        }
      }
    }
  }

  /** The lines come image by image, and within an image in file order. */
  lemma {:induction false} LineEntriesOrdered(files: seq<string>, inp: SplitInput, i: nat)
    requires i <= |files| && Readable(files, inp, i)
    ensures forall j, j' :: 0 <= j < j' < |LineEntries(files, inp, i)| ==>
              EntryBefore(LineEntries(files, inp, i)[j], LineEntries(files, inp, i)[j'])
    decreases |files| - i
  {
    if i < |files| {
      var entries := ImageEntries(files, inp, i);
      var rest := LineEntries(files, inp, i + 1);
      var es := entries + rest;
      LineEntriesOrdered(files, inp, i + 1);
      LineEntriesValid(files, inp, i + 1);
      forall j, j' | 0 <= j < j' < |es| ensures EntryBefore(es[j], es[j']) {
        if j' < |entries| {
          assert es[j] == entries[j] && es[j'] == entries[j'];
          assert entries[j].lineIndex == j && entries[j'].lineIndex == j';
        } else if j < |entries| {
          assert es[j] == entries[j] && entries[j].imageId == i;
          assert es[j'] == rest[j' - |entries|];
          assert EntryValid(files, inp, i + 1, rest[j' - |entries|]);
        } else {
          assert es[j] == rest[j - |entries|] && es[j'] == rest[j' - |entries|];
          assert EntryBefore(rest[j - |entries|], rest[j' - |entries|]);
        }
      }
    }
  }

  /** There are exactly as many entries as label lines. */
  lemma {:induction false} LineEntriesCount(files: seq<string>, inp: SplitInput, i: nat)
    requires i <= |files| && Readable(files, inp, i)
    ensures |LineEntries(files, inp, i)| == LinesBefore(files, inp, i, |files|)
    decreases |files| - i
  {
    if i < |files| {
      LineEntriesCount(files, inp, i + 1);
    }
  }

  /** Line `k` of image `t` is entry number `LinesBefore(i, t) + k`. */
  lemma {:induction false} LineEntryAt(files: seq<string>, inp: SplitInput, i: nat, t: nat, k: nat)
    requires i <= t < |files| && Readable(files, inp, i)
    requires k < |LinesOf(files, inp, t)|
    ensures LinesBefore(files, inp, i, t) + k < |LineEntries(files, inp, i)|
    ensures LineEntries(files, inp, i)[LinesBefore(files, inp, i, t) + k]
            == LineEntry(t, k, LinesOf(files, inp, t)[k], inp.sizes[files[t]])
    decreases t - i
  {
    var entries := ImageEntries(files, inp, i);
    var rest := LineEntries(files, inp, i + 1);
    var es := LineEntries(files, inp, i);
    assert es == entries + rest;
    var e := LineEntry(t, k, LinesOf(files, inp, t)[k], inp.sizes[files[t]]);
    if t == i {
      assert es[k] == entries[k];
    } else {
      var m := LinesBefore(files, inp, i + 1, t);
      assert m + k < |rest| && rest[m + k] == e by {
        LineEntryAt(files, inp, i + 1, t, k);
      }
      assert LinesBefore(files, inp, i, t) == |entries| + m;
      assert es[|entries| + m + k] == rest[m + k];
    }
  }

  // ---------------------------------------------------------------------------
  // The document of a split.

  /** Annotation `j` of a converted listing is numbered `j` and belongs to the image of label line `j`. */
  lemma ConvertFromIds(files: seq<string>, inp: SplitInput, parse: LineParser, b: Built)
    requires ConvertFrom(files, 0, inp, parse, Built([], [])) == Ok(b)
    ensures Readable(files, inp, 0)
    ensures |b.annotations| == |LineEntries(files, inp, 0)|
    ensures forall j :: 0 <= j < |b.annotations| ==>
              b.annotations[j].id == j && b.annotations[j].imageId == LineEntries(files, inp, 0)[j].imageId
  {
    ConvertFromImages(files, 0, inp, parse, Built([], []), b);
    ConvertFromAnnotationsLength(files, 0, inp, parse, Built([], []), b);
    forall j | 0 <= j < |b.annotations|
      ensures b.annotations[j].id == j && b.annotations[j].imageId == LineEntries(files, inp, 0)[j].imageId
    {
      ConvertFromAnnotationAt(files, 0, inp, parse, Built([], []), b, j);
    }
  }

  /** The document, read off the two loops: the image records and the numbering of the annotations. */
  lemma ConvertedParts(inp: SplitInput, categories: seq<Category>, denorm: Denormalizer, d: Document)
    requires Convert(inp, categories, denorm) == Ok(d)
    ensures Readable(SortNames(inp.listing), inp, 0)
    ensures d.info == map[] && d.licenses == [] && d.categories == categories
    ensures |d.images| == |SortNames(inp.listing)|
    ensures forall t :: 0 <= t < |d.images| ==> d.images[t] == RecordFor(SortNames(inp.listing), inp, t)
    ensures |d.annotations| == |LineEntries(SortNames(inp.listing), inp, 0)|
    ensures forall j :: 0 <= j < |d.annotations| ==>
              d.annotations[j].id == j && d.annotations[j].imageId == LineEntries(SortNames(inp.listing), inp, 0)[j].imageId
  {
    var files := SortNames(inp.listing);
    var parse := ParserOf(denorm);
    var b := ConvertFrom(files, 0, inp, parse, Built([], [])).value;
    ConvertFromImages(files, 0, inp, parse, Built([], []), b);
    ConvertFromIds(files, inp, parse, b);
  }

  /** The loops over a listing with the same names as the split's listing finish exactly when every line is accepted. */
  lemma ConvertFromSucceedsIff(files: seq<string>, inp: SplitInput, parse: LineParser)
    requires forall f :: f in inp.listing <==> f in files
    ensures ConvertFrom(files, 0, inp, parse, Built([], [])).Ok? <==> AcceptsAll(inp, parse)
  {
    ConvertFromOk(files, 0, inp, parse, Built([], []));
    if AcceptsAll(inp, parse) {
      assert Readable(files, inp, 0) by {
        forall t | 0 <= t < |files| ensures files[t] in inp.sizes && LabelFileName(files[t]) in inp.labelFiles {
          assert files[t] in files;
        }
      }
      var es := LineEntries(files, inp, 0);
      LineEntriesValid(files, inp, 0);
      forall j | 0 <= j < |es| ensures parse(es[j].text, es[j].size).Some? {
        assert EntryValid(files, inp, 0, es[j]);
        var t := es[j].imageId;
        assert files[t] in files;
        assert es[j].text in inp.labelFiles[LabelFileName(files[t])];
      }
    }
    if Readable(files, inp, 0) && AllLinesParse(LineEntries(files, inp, 0), parse) {
      var es := LineEntries(files, inp, 0);
      forall f | f in inp.listing
        ensures f in inp.sizes && LabelFileName(f) in inp.labelFiles
        ensures forall line :: line in inp.labelFiles[LabelFileName(f)] ==> parse(line, inp.sizes[f]).Some?
      {
        var t :| 0 <= t < |files| && files[t] == f;
        forall line | line in inp.labelFiles[LabelFileName(f)] ensures parse(line, inp.sizes[f]).Some? {
          var lines := LinesOf(files, inp, t);
          var k :| 0 <= k < |lines| && lines[k] == line;
          LineEntryAt(files, inp, 0, t, k);
          assert es[LinesBefore(files, inp, 0, t) + k] == LineEntry(t, k, line, inp.sizes[f]);
        }
      }
    }
  }

  /**
   * A split converts exactly when every listed image opens and has its label
   * file and every line of those files is well formed; otherwise nothing is
   * produced. The copies of the images and the reading of the label files
   * are taken to succeed.
   */
  lemma ConvertSucceedsIff(inp: SplitInput, categories: seq<Category>, denorm: Denormalizer)
    ensures Convert(inp, categories, denorm).Ok? <==> WellFormed(inp, denorm)
  {
    var files := SortNames(inp.listing);
    assert forall f :: f in inp.listing <==> f in files by {
      forall f ensures f in inp.listing <==> f in files {
        assert f in inp.listing <==> f in multiset(inp.listing);
        assert f in files <==> f in multiset(files);
      }
    }
    ConvertFromSucceedsIff(files, inp, ParserOf(denorm));
  }

  /**
   * One record per listed image file, numbered 0, 1, ... in the sorted order
   * of the file names, each with its file's size; the document starts from
   * empty `info` and `licenses` and carries the categories unchanged.
   */
  lemma ImagesFollowListing(inp: SplitInput, categories: seq<Category>, denorm: Denormalizer, d: Document)
    requires Convert(inp, categories, denorm) == Ok(d)
    ensures d.info == map[] && d.licenses == [] && d.categories == categories
    ensures |d.images| == |inp.listing|
    ensures Sorted(FileNames(d.images)) && multiset(FileNames(d.images)) == multiset(inp.listing)
    ensures forall t :: 0 <= t < |d.images| ==>
              d.images[t].id == t && d.images[t].fileName in inp.sizes
              && d.images[t].width == inp.sizes[d.images[t].fileName].width
              && d.images[t].height == inp.sizes[d.images[t].fileName].height
  {
    var files := SortNames(inp.listing);
    ConvertedParts(inp, categories, denorm, d);
    assert FileNames(d.images) == files by {
      forall t | 0 <= t < |files| ensures FileNames(d.images)[t] == files[t] {
        assert d.images[t] == RecordFor(files, inp, t);
      }
    }
    forall t | 0 <= t < |d.images|
      ensures d.images[t].id == t && d.images[t].fileName in inp.sizes
              && d.images[t].width == inp.sizes[d.images[t].fileName].width
              && d.images[t].height == inp.sizes[d.images[t].fileName].height
    {
      assert d.images[t] == RecordFor(files, inp, t);
    }
  }

  /** Annotation ids are 0, 1, ..., M - 1 in list order: unique and dense over the whole split. */
  lemma AnnotationIdsDense(inp: SplitInput, categories: seq<Category>, denorm: Denormalizer, d: Document)
    requires Convert(inp, categories, denorm) == Ok(d)
    ensures forall j :: 0 <= j < |d.annotations| ==> d.annotations[j].id == j
  {
    ConvertedParts(inp, categories, denorm, d);
  }

  /** Every `image_id` is the id of exactly one image record of the document. */
  lemma ImageIdsResolve(inp: SplitInput, categories: seq<Category>, denorm: Denormalizer, d: Document)
    requires Convert(inp, categories, denorm) == Ok(d)
    ensures forall j :: 0 <= j < |d.annotations| ==>
              d.annotations[j].imageId < |d.images| && d.images[d.annotations[j].imageId].id == d.annotations[j].imageId
    ensures forall j, t :: 0 <= j < |d.annotations| && 0 <= t < |d.images| && d.images[t].id == d.annotations[j].imageId
              ==> t == d.annotations[j].imageId
  {
    var files := SortNames(inp.listing);
    ConvertedParts(inp, categories, denorm, d);
    LineEntriesValid(files, inp, 0);
    var es := LineEntries(files, inp, 0);
    forall j | 0 <= j < |d.annotations| ensures d.annotations[j].imageId < |d.images| {
      assert EntryValid(files, inp, 0, es[j]);
    }
  }

  /** Annotations come image by image, in the order of the image ids. */
  lemma AnnotationsInImageOrder(inp: SplitInput, categories: seq<Category>, denorm: Denormalizer, d: Document)
    requires Convert(inp, categories, denorm) == Ok(d)
    ensures forall j, j' :: 0 <= j < j' < |d.annotations| ==> d.annotations[j].imageId <= d.annotations[j'].imageId
  {
    var files := SortNames(inp.listing);
    ConvertedParts(inp, categories, denorm, d);
    LineEntriesOrdered(files, inp, 0);
    var es := LineEntries(files, inp, 0);
    forall j, j' | 0 <= j < j' < |d.annotations| ensures d.annotations[j].imageId <= d.annotations[j'].imageId {
      assert EntryBefore(es[j], es[j']);
    }
  }

  /** There are exactly as many annotations as label lines over all images of the split. */
  lemma AnnotationCount(inp: SplitInput, categories: seq<Category>, denorm: Denormalizer, d: Document)
    requires Convert(inp, categories, denorm) == Ok(d)
    ensures |d.annotations| == LinesBefore(SortNames(inp.listing), inp, 0, |inp.listing|)
  {
    ConvertedParts(inp, categories, denorm, d);
    LineEntriesCount(SortNames(inp.listing), inp, 0);
  }

  /**
   * Each label line yields exactly one annotation: line `k` of image `t` is
   * annotation number `LinesBefore(0, t) + k`, made from that line, with
   * `image_id` `t`.
   */
  lemma AnnotationOfLine(inp: SplitInput, categories: seq<Category>, denorm: Denormalizer, d: Document, t: nat, k: nat)
    requires Convert(inp, categories, denorm) == Ok(d)
    requires t < |inp.listing| && k < |LinesOf(SortNames(inp.listing), inp, t)|
    ensures var files := SortNames(inp.listing);
            var j := LinesBefore(files, inp, 0, t) + k;
            var line := LinesOf(files, inp, t)[k];
            files[t] in inp.sizes && j < |d.annotations| && ParseLine(line, inp.sizes[files[t]], denorm).Some?
            && d.annotations[j] == MakeAnnotation(j, t, ParseLine(line, inp.sizes[files[t]], denorm).value.categoryId,
                                                  ParseLine(line, inp.sizes[files[t]], denorm).value.corners)
  {
    var files := SortNames(inp.listing);
    var parse := ParserOf(denorm);
    var b := ConvertFrom(files, 0, inp, parse, Built([], [])).value;
    ConvertFromImages(files, 0, inp, parse, Built([], []), b);
    LineEntryAt(files, inp, 0, t, k);
    ConvertFromAnnotationAt(files, 0, inp, parse, Built([], []), b, LinesBefore(files, inp, 0, t) + k);
  }

  /** A listed image that does not open, or whose label file is missing, aborts the split. */
  lemma UnreadableImageAborts(inp: SplitInput, categories: seq<Category>, denorm: Denormalizer, f: string)
    requires f in inp.listing
    requires f !in inp.sizes || LabelFileName(f) !in inp.labelFiles
    ensures Convert(inp, categories, denorm).Err?
  {
    ConvertSucceedsIff(inp, categories, denorm);
  }

  /**
   * A label line that does not split into exactly five fields (a blank line
   * among them) aborts the split, whichever image it belongs to.
   */
  lemma MalformedLineAborts(inp: SplitInput, categories: seq<Category>, denorm: Denormalizer, f: string, k: nat)
    requires f in inp.listing && LabelFileName(f) in inp.labelFiles
    requires k < |inp.labelFiles[LabelFileName(f)]|
    requires |Split(Strip(inp.labelFiles[LabelFileName(f)][k]))| != 5
    ensures Convert(inp, categories, denorm).Err?
  {
    ConvertSucceedsIff(inp, categories, denorm);
    var line := inp.labelFiles[LabelFileName(f)][k];
    assert line in inp.labelFiles[LabelFileName(f)];
  }

  /** A split of two images listed out of order, `b.jpg` with an empty label file and `a.jpg` with the single line `line`. */
  function TwoImageInput(line: string): SplitInput {
    SplitInput(["b.jpg", "a.jpg"],
               map["a.jpg" := ImageSize(100, 100), "b.jpg" := ImageSize(100, 100)],
               map["a.txt" := [line], "b.txt" := []])
  }

  /** The label files of `a.jpg` and `b.jpg`. */
  lemma TwoLabelFileNames()
    ensures LabelFileName("a.jpg") == "a.txt" && LabelFileName("b.jpg") == "b.txt"
  {
  }

  /** The loops over the sorted names of `TwoImageInput(line)`, for any reader that accepts `line`. */
  lemma TwoImageLoops(line: string, parse: LineParser, parsed: Label)
    requires parse(line, ImageSize(100, 100)) == Some(parsed)
    ensures ConvertFrom(["a.jpg", "b.jpg"], 0, TwoImageInput(line), parse, Built([], []))
            == Ok(Built([ImageRecord(0, 100, 100, "a.jpg"), ImageRecord(1, 100, 100, "b.jpg")],
                        [MakeAnnotation(0, 0, parsed.categoryId, parsed.corners)]))
  {
    var inp := TwoImageInput(line);
    var files := ["a.jpg", "b.jpg"];
    TwoLabelFileNames();
    var size := ImageSize(100, 100);
    var ann := MakeAnnotation(0, 0, parsed.categoryId, parsed.corners);
    assert inp.sizes["a.jpg"] == size && inp.labelFiles["a.txt"] == [line];
    assert inp.sizes["b.jpg"] == size && inp.labelFiles["b.txt"] == [];
    assert AnnotateLines([line], 0, "a.txt", 0, size, parse, []) == Ok([ann]) by {
      assert [] + [ann] == [ann];
      assert AnnotateLines([line], 1, "a.txt", 0, size, parse, [ann]) == Ok([ann]);
    }
    ConvertFromNext(files, 0, inp, parse, Built([], []), [ann]);
    assert [] + [ImageRecord(0, 100, 100, "a.jpg")] == [ImageRecord(0, 100, 100, "a.jpg")];
    assert AnnotateLines([], 0, "b.txt", 1, size, parse, [ann]) == Ok([ann]);
    ConvertFromNext(files, 1, inp, parse, Built([ImageRecord(0, 100, 100, "a.jpg")], [ann]), [ann]);
    var images := [ImageRecord(0, 100, 100, "a.jpg")] + [ImageRecord(1, 100, 100, "b.jpg")];
    assert ConvertFrom(files, 2, inp, parse, Built(images, [ann])) == Ok(Built(images, [ann]));
    assert images == [ImageRecord(0, 100, 100, "a.jpg"), ImageRecord(1, 100, 100, "b.jpg")];
  }

  /**
   * Two images listed out of order, one whose label file holds a single
   * well-formed line and one whose label file is empty: two image records in
   * name order, and one annotation, made from that line, that belongs to the
   * first of them.
   */
  lemma TwoImageSplit(line: string, denorm: Denormalizer, parsed: Label, categories: seq<Category>)
    requires ParseLine(line, ImageSize(100, 100), denorm) == Some(parsed)
    ensures Convert(SplitInput(["b.jpg", "a.jpg"],
                               map["a.jpg" := ImageSize(100, 100), "b.jpg" := ImageSize(100, 100)],
                               map["a.txt" := [line], "b.txt" := []]),
                    categories, denorm)
            == Ok(Document(map[], [], categories,
                           [ImageRecord(0, 100, 100, "a.jpg"), ImageRecord(1, 100, 100, "b.jpg")],
                           [MakeAnnotation(0, 0, parsed.categoryId, parsed.corners)]))
  {
    assert SortNames(["b.jpg", "a.jpg"]) == ["a.jpg", "b.jpg"] by {
      assert ["b.jpg", "a.jpg"][1..] == ["a.jpg"];
      assert SortNames(["a.jpg"]) == ["a.jpg"];
      assert !StrLeq("b.jpg", "a.jpg");
      assert Insert("b.jpg", ["a.jpg"]) == ["a.jpg", "b.jpg"];
    }
    TwoImageLoops(line, ParserOf(denorm), parsed);
  }
}

/**
 * The COCO annotation document that `create_dataset` builds for one split:
 * its records, and the dictionary that the conversion appends to in place.
 */
module Coco {

  /** An entry of the category list, passed through unchanged. */
  datatype Category = Category(id: int, name: string)

  /** One record of `images`. */
  datatype ImageRecord = ImageRecord(id: nat, width: nat, height: nat, fileName: string)

  /** Pixel corners of a box, as the float denormalisation step produces them. */
  datatype Corners = Corners(xMin: int, yMin: int, xMax: int, yMax: int)

  /** One record of `annotations`; `bbox` is the JSON list `[x, y, width, height]`. */
  datatype Annotation = Annotation(
    id: nat, imageId: nat, categoryId: int, bbox: seq<int>, area: int, iscrowd: int)

  /** The whole document, as it is handed to `json.dump`. */
  datatype Document = Document(
    info: map<string, string>,
    licenses: seq<string>,
    categories: seq<Category>,
    images: seq<ImageRecord>,
    annotations: seq<Annotation>)

  /**
   * The annotation for a box with corners `c`: the box is given by its top-left
   * corner and its size, the area is the product of the two sizes, and the
   * record is never a crowd.
   */
  function MakeAnnotation(id: nat, imageId: nat, categoryId: int, c: Corners): (a: Annotation)
    ensures a.id == id && a.imageId == imageId && a.categoryId == categoryId
    ensures |a.bbox| == 4 && a.bbox[0] == c.xMin && a.bbox[1] == c.yMin
    ensures a.bbox[0] + a.bbox[2] == c.xMax && a.bbox[1] + a.bbox[3] == c.yMax
    ensures a.area == a.bbox[2] * a.bbox[3]
    ensures a.iscrowd == 0
  {
    var w := c.xMax - c.xMin;
    var h := c.yMax - c.yMin;
    Annotation(id, imageId, categoryId, [c.xMin, c.yMin, w, h], w * h, 0)
  }

  /** The corners a `bbox` describes. */
  function BoxCorners(bbox: seq<int>): Corners
    requires |bbox| == 4
  {
    Corners(bbox[0], bbox[1], bbox[0] + bbox[2], bbox[1] + bbox[3])
  }

  /** Round trip: the emitted `bbox` gives back the corners it was made from. */
  lemma BoxCornersOfAnnotation(id: nat, imageId: nat, categoryId: int, c: Corners)
    ensures BoxCorners(MakeAnnotation(id, imageId, categoryId, c).bbox) == c
  {
  }

  /** A centred box of half the image on a 100 by 100 image: corners (25, 25) and (75, 75). */
  lemma HalfBoxExample()
    ensures MakeAnnotation(0, 0, 0, Corners(25, 25, 75, 75)).bbox == [25, 25, 50, 50]
    ensures MakeAnnotation(0, 0, 0, Corners(25, 25, 75, 75)).area == 2500
  {
  }

  /** The `coco_dataset` dictionary while the split is being converted. */
  class CocoDataset {
    var info: map<string, string>
    var licenses: seq<string>
    var categories: seq<Category>
    var images: seq<ImageRecord>
    var annotations: seq<Annotation>

    /** The initial dictionary: empty `info` and `licenses`, the given categories, no records. */
    constructor (categories: seq<Category>)
      ensures info == map[] && licenses == [] && this.categories == categories
      ensures images == [] && annotations == []
    {
      info := map[];
      licenses := [];
      this.categories := categories;
      images := [];
      annotations := [];
    }

    /** `coco_dataset["images"].append(record)`. */
    method AppendImage(record: ImageRecord)
      modifies this`images
      ensures images == old(images) + [record]
    {
      images := images + [record];
    }

    /**
     * Builds the annotation for one label line and appends it; its id is the
     * number of annotations already in the list.
     */
    method AppendAnnotation(imageId: nat, categoryId: int, c: Corners)
      modifies this`annotations
      ensures annotations == old(annotations) + [MakeAnnotation(|old(annotations)|, imageId, categoryId, c)]
      ensures annotations[|annotations| - 1].id == |old(annotations)|
    {
      var a := MakeAnnotation(|annotations|, imageId, categoryId, c);
      annotations := annotations + [a];
    }

    /** The value the dictionary holds now. */
    function Snapshot(): Document
      reads this
    {
      Document(info, licenses, categories, images, annotations)
    }
  }
}

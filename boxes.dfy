/** Detector boxes and the eight geometric features derived from them,
    shared by training-set extraction and by `detect`. */
module Boxes {
  import opened Wrappers
  import opened Camera

  /** Class label of "car" in the detector's label set. */
  const CarId: int := 3

  /** One row of the detector's `rois`, in the detector's order `(y1, x1, y2, x2)`, in pixels. */
  datatype Roi = Roi(y1: int, x1: int, y2: int, x2: int)

  /** One detection: a row of `rois`, its entry of `class_ids` and its
      (flattened) entry of `features`. */
  datatype Detection = Detection(roi: Roi, classId: int, features: seq<real>)

  /** A float value as numpy leaves it: finite, or inf/nan after a division by zero. */
  datatype Scalar = Finite(value: real) | NonFinite

  /** A point in normalised image coordinates. */
  datatype Point = Point(x: real, y: real)

  /** Normalised box edges and the four derived features. */
  datatype BoxFeatures = BoxFeatures(
    x1: real, x2: real, y1: real, y2: real,
    centerX: real, centerY: real, area: real, ratio: Scalar)

  /** Normalises a box to `[-1, 1]` per axis and derives centre, area and
      width-to-height ratio. The ratio divides by the box height, which is
      non-finite exactly for a box of zero height. */
  function Describe(roi: Roi, width: int, height: int): (f: BoxFeatures)
    requires width > 0 && height > 0
    ensures (f.x1 <= f.x2 <==> roi.x1 <= roi.x2) && (f.y1 <= f.y2 <==> roi.y1 <= roi.y2)
    ensures (f.x1 < f.x2 <==> roi.x1 < roi.x2) && (f.y1 < f.y2 <==> roi.y1 < roi.y2)
    ensures roi.x1 <= roi.x2 ==> f.x1 <= f.centerX <= f.x2
    ensures roi.y1 <= roi.y2 ==> f.y1 <= f.centerY <= f.y2
    ensures roi.x1 <= roi.x2 && roi.y1 <= roi.y2 ==> f.area >= 0.0
    ensures f.ratio.NonFinite? <==> roi.y1 == roi.y2
    ensures f.ratio.Finite? ==> f.ratio.value * (f.y2 - f.y1) == f.x2 - f.x1
  {
    var x1 := Normalize(roi.x1 as real, width);
    var x2 := Normalize(roi.x2 as real, width);
    var y1 := Normalize(roi.y1 as real, height);
    var y2 := Normalize(roi.y2 as real, height);
    NormalizeMonotone(roi.x1 as real, roi.x2 as real, width);
    NormalizeMonotone(roi.y1 as real, roi.y2 as real, height);
    NormalizeMonotone(roi.y2 as real, roi.y1 as real, height);
    BoxFeatures(x1, x2, y1, y2, (x1 + x2) / 2.0, (y1 + y2) / 2.0, (x2 - x1) * (y2 - y1),
                if y2 - y1 == 0.0 then NonFinite else Finite((x2 - x1) / (y2 - y1)))
  }

  /** The recording car's own bonnet: a box reaching the bottom tenth of the
      image whose centre lies in the middle half. */
  predicate EgoExcluded(f: BoxFeatures) {
    f.y2 > 0.9 && -0.5 <= f.centerX <= 0.5
  }

  /** A detection that both extraction and `detect` consider: a car that is not the ego vehicle. */
  predicate Kept(d: Detection, width: int, height: int)
    requires width > 0 && height > 0
  {
    d.classId == CarId && !EgoExcluded(Describe(d.roi, width, height))
  }

  /** Strict containment of a projected point; a non-finite projection is never inside. */
  predicate Contains(f: BoxFeatures, p: Option<Point>) {
    p.Some? && f.x1 < p.value.x < f.x2 && f.y1 < p.value.y < f.y2
  }

  predicate AllFinite(row: seq<Scalar>) {
    forall i :: 0 <= i < |row| ==> row[i].Finite?
  }

  /** A feature row: `[x1, x2, y1, y2, center_x, center_y, area, ratio]`
      followed by the appearance features. */
  function FeatureRow(f: BoxFeatures, appearance: seq<real>): (row: seq<Scalar>)
    ensures |row| == 8 + |appearance|
    ensures row[..7] == [Finite(f.x1), Finite(f.x2), Finite(f.y1), Finite(f.y2),
                         Finite(f.centerX), Finite(f.centerY), Finite(f.area)]
    ensures forall j :: 0 <= j < |appearance| ==> row[8 + j] == Finite(appearance[j])
    ensures row[7] == f.ratio
    ensures AllFinite(row) <==> f.ratio.Finite?
  {
    [Finite(f.x1), Finite(f.x2), Finite(f.y1), Finite(f.y2),
     Finite(f.centerX), Finite(f.centerY), Finite(f.area), f.ratio]
    + seq(|appearance|, j requires 0 <= j < |appearance| => Finite(appearance[j]))
  }

  function RowOf(d: Detection, width: int, height: int): seq<Scalar>
    requires width > 0 && height > 0
  {
    FeatureRow(Describe(d.roi, width, height), d.features)
  }

  /** A box that strictly contains some point has positive height, so its row is all finite. */
  lemma ContainingRowIsFinite(d: Detection, p: Option<Point>, width: int, height: int)
    requires width > 0 && height > 0
    requires Contains(Describe(d.roi, width, height), p)
    ensures AllFinite(RowOf(d, width, height))
    ensures |RowOf(d, width, height)| == 8 + |d.features|
  {
  }
}

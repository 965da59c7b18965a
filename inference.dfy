/** The input-building loop of `detect`: one feature row per detection
    that is a car and not the ego vehicle, in detector order. */
module Inference {
  import opened Boxes

  /** The rows `detect` feeds to the trained model. */
  function CarRows(dets: seq<Detection>, width: int, height: int): seq<seq<Scalar>>
    requires width > 0 && height > 0
  {
    if |dets| == 0 then []
    else
      var n := |dets| - 1;
      CarRows(dets[..n], width, height)
      + (if Kept(dets[n], width, height) then [RowOf(dets[n], width, height)] else [])
  }

  /** The positions of the detections that `detect` keeps, in increasing order. */
  ghost function KeptPositions(dets: seq<Detection>, width: int, height: int): seq<nat>
    requires width > 0 && height > 0
  {
    if |dets| == 0 then []
    else
      var n := |dets| - 1;
      KeptPositions(dets[..n], width, height) + (if Kept(dets[n], width, height) then [n] else [])
  }

  /** The kept positions are increasing and are exactly the detections that are kept. */
  lemma {:induction false} KeptPositionsAreTheKept(dets: seq<Detection>, width: int, height: int)
    requires width > 0 && height > 0
    ensures var ks := KeptPositions(dets, width, height);
      && |ks| <= |dets|
      && (forall j :: 0 <= j < |ks| ==> ks[j] < |dets|)
      && (forall j, j' :: 0 <= j < j' < |ks| ==> ks[j] < ks[j'])
      && (forall i :: 0 <= i < |dets| ==> (i in ks <==> Kept(dets[i], width, height)))
  {
    if |dets| > 0 {
      var n := |dets| - 1;
      var init := dets[..n];
      KeptPositionsAreTheKept(init, width, height);
      forall i | 0 <= i < n ensures init[i] == dets[i] { }
    }
  }

  lemma {:induction false} CarRowAt(dets: seq<Detection>, width: int, height: int, j: nat)
    requires width > 0 && height > 0
    requires j < |KeptPositions(dets, width, height)|
    ensures var rows, ks := CarRows(dets, width, height), KeptPositions(dets, width, height);
      && |rows| == |ks| && ks[j] < |dets|
      && rows[j] == RowOf(dets[ks[j]], width, height)
  {
    var n := |dets| - 1;
    var init := dets[..n];
    KeptPositionsAreTheKept(init, width, height);
    var rows0, ks0 := CarRows(init, width, height), KeptPositions(init, width, height);
    if j < |ks0| {
      CarRowAt(init, width, height, j);
      assert dets[ks0[j]] == init[ks0[j]];
    } else {
      assert |ks0| == |rows0| by {
        if |ks0| > 0 {
          CarRowAt(init, width, height, |ks0| - 1);
        } else {
          CarRowsEmpty(init, width, height);
        }
      }
    }
  }

  lemma {:induction false} CarRowsEmpty(dets: seq<Detection>, width: int, height: int)
    requires width > 0 && height > 0
    requires |KeptPositions(dets, width, height)| == 0
    ensures |CarRows(dets, width, height)| == 0
  {
    if |dets| > 0 {
      CarRowsEmpty(dets[..|dets| - 1], width, height);
    }
  }

  /** The rows are those of exactly the kept detections, all of them, in
      detector order: row `j` is the row of the `j`-th kept detection. */
  lemma CarRowsAreTheKeptDetections(dets: seq<Detection>, width: int, height: int)
    requires width > 0 && height > 0
    ensures var rows, ks := CarRows(dets, width, height), KeptPositions(dets, width, height);
      && |rows| == |ks| <= |dets|
      && (forall j, j' :: 0 <= j < j' < |ks| ==> ks[j] < ks[j'])
      && (forall j :: 0 <= j < |ks| ==>
            ks[j] < |dets| && Kept(dets[ks[j]], width, height) && rows[j] == RowOf(dets[ks[j]], width, height))
      && (forall i :: 0 <= i < |dets| ==> (i in ks <==> Kept(dets[i], width, height)))
  {
    KeptPositionsAreTheKept(dets, width, height);
    var ks := KeptPositions(dets, width, height);
    if |ks| == 0 {
      CarRowsEmpty(dets, width, height);
    }
    forall j | 0 <= j < |ks|
      ensures |CarRows(dets, width, height)| == |ks| && Kept(dets[ks[j]], width, height)
      ensures CarRows(dets, width, height)[j] == RowOf(dets[ks[j]], width, height)
    {
      CarRowAt(dets, width, height, j);
      assert ks[j] in ks;
    }
  }

  /** The `for i in range(len(rois))` loop of `detect`. */
  method CarInputs(dets: seq<Detection>, width: int, height: int) returns (rows: seq<seq<Scalar>>)
    requires width > 0 && height > 0
    ensures rows == CarRows(dets, width, height)
  {
    rows := [];
    for i := 0 to |dets|
      invariant rows == CarRows(dets[..i], width, height)
    {
      assert dets[..i + 1][..i] == dets[..i];
      if dets[i].classId == CarId {
        var f := Describe(dets[i].roi, width, height);
        if !EgoExcluded(f) {
          rows := rows + [FeatureRow(f, dets[i].features)];
        }
      }
    }
    assert dets[..|dets|] == dets;
  }

  /** Every row `detect` builds has the layout `8 + |features|`; its
      entries are finite unless the box has zero height. */
  lemma CarInputRowShape(d: Detection, width: int, height: int)
    requires width > 0 && height > 0
    ensures |RowOf(d, width, height)| == 8 + |d.features|
    ensures AllFinite(RowOf(d, width, height)) <==> d.roi.y1 != d.roi.y2
  {
  }
}

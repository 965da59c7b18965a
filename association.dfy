/** `extract_bounding_box_info`: pairs each ground-truth car of an image
    with the first detection, in descending `x2` order, that is a car, is
    not the ego vehicle and strictly contains the car's projected
    position. */
module Association {
  import opened Wrappers
  import opened StableSort
  import opened Camera
  import opened Boxes

  /** A row of `rois` paired with its position in the detector output. */
  datatype Candidate = Candidate(roi: Roi, index: nat)

  /** One training pair: a feature row (a column of X) and a ground-truth
      7-vector (a column of Y). */
  datatype Example = Example(row: seq<Scalar>, target: seq<real>)

  /** What one image contributes: its size, its ground-truth entries and
      the detector's output for it. */
  datatype ImageData = ImageData(width: int, height: int, cars: seq<seq<real>>, detections: seq<Detection>)

  /** The training set, row by row (`x_train`, `y_train` before transposition). */
  datatype Dataset = Dataset(x: seq<seq<Scalar>>, y: seq<seq<real>>)

  /** The `IndexError` raised when a ground-truth entry has no element 6. */
  datatype ExtractError = IndexError

  predicate SizedImage(img: ImageData) {
    img.width > 0 && img.height > 0
  }

  /** Every ground-truth entry has `tx, ty, tz` at positions 4, 5, 6. */
  predicate CompleteEntries(es: seq<seq<real>>) {
    forall i :: 0 <= i < |es| ==> |es[i]| >= 7
  }

  function X2Key(c: Candidate): real {
    c.roi.x2 as real
  }

  function Tagged(dets: seq<Detection>): seq<Candidate> {
    seq(|dets|, i requires 0 <= i < |dets| => Candidate(dets[i].roi, i))
  }

  /** `sorted(rois_with_index, key = x2, reverse = True)`. */
  function CandidateOrder(dets: seq<Detection>): seq<Candidate> {
    SortedBy(Tagged(dets), X2Key, true)
  }

  predicate ValidCandidates(cs: seq<Candidate>, dets: seq<Detection>) {
    forall q :: 0 <= q < |cs| ==> cs[q].index < |dets| && cs[q].roi == dets[cs[q].index].roi
  }

  /** The candidates are the tagged detections, reordered by non-increasing
      `x2`, with detections of equal `x2` kept in detector order. */
  lemma CandidateOrderIsStableDescending(dets: seq<Detection>)
    ensures var cs := CandidateOrder(dets);
      && multiset(cs) == multiset(Tagged(dets))
      && |cs| == |dets|
      && ValidCandidates(cs, dets)
      && (forall i, j :: 0 <= i < j < |cs| ==> cs[i].roi.x2 >= cs[j].roi.x2)
      && (forall i, j :: 0 <= i < j < |cs| && cs[i].roi.x2 == cs[j].roi.x2 ==> cs[i].index < cs[j].index)
  {
    var tagged := Tagged(dets);
    var cs := CandidateOrder(dets);
    SortedByIsStableSort(tagged, X2Key, true);
    SortedByKeepsTies(tagged, X2Key, true, (c: Candidate) => c.index as int);
    assert |cs| == |multiset(cs)| == |multiset(tagged)| == |dets|;
    forall q | 0 <= q < |cs| ensures cs[q].index < |dets| && cs[q].roi == dets[cs[q].index].roi {
      assert cs[q] in multiset(tagged);
    }
    forall i, j | 0 <= i < j < |cs| ensures cs[i].roi.x2 >= cs[j].roi.x2 {
      assert !Ahead(X2Key, true, cs[j], cs[i]);
    }
  }

  /** The car's position projected and normalised (`x_proj`, `y_proj`);
      `None` when the depth is zero and the projection is not finite. */
  function Projected(e: seq<real>, width: int, height: int): Option<Point>
    requires |e| >= 7 && width > 0 && height > 0
  {
    match PoseToPixel(e[4], e[5], e[6])
    case None => None
    case Some(c) => Some(Point(Normalize(c[0], width), Normalize(c[1], height)))
  }

  /** The candidate at `q` is accepted for projected point `p`: the
      detection is a car, its box is not the ego vehicle and contains `p`. */
  predicate Accepts(cs: seq<Candidate>, dets: seq<Detection>, q: int, p: Option<Point>, width: int, height: int)
  {
    && width > 0 && height > 0
    && 0 <= q < |cs| && cs[q].index < |dets|
    && var d := dets[cs[q].index];
       Kept(d, width, height) && Contains(Describe(d.roi, width, height), p)
  }

  /** The first candidate from position `from` on that accepts `p`. */
  function FirstMatch(cs: seq<Candidate>, dets: seq<Detection>, p: Option<Point>, width: int, height: int, from: nat): (r: Option<nat>)
    requires ValidCandidates(cs, dets) && from <= |cs| && width > 0 && height > 0
    ensures r.Some? ==> from <= r.value < |cs| && Accepts(cs, dets, r.value, p, width, height)
    ensures r.Some? ==> forall q :: from <= q < r.value ==> !Accepts(cs, dets, q, p, width, height)
    ensures r.None? <==> forall q :: from <= q < |cs| ==> !Accepts(cs, dets, q, p, width, height)
    decreases |cs| - from
  {
    if from == |cs| then None
    else if Accepts(cs, dets, from, p, width, height) then Some(from)
    else FirstMatch(cs, dets, p, width, height, from + 1)
  }

  /** A box caught by the ego-vehicle rule is never matched, whatever point it contains. */
  lemma EgoBoxNeverMatched(cs: seq<Candidate>, dets: seq<Detection>, p: Option<Point>, width: int, height: int, q: nat)
    requires ValidCandidates(cs, dets) && width > 0 && height > 0 && q < |cs|
    requires EgoExcluded(Describe(dets[cs[q].index].roi, width, height))
    ensures !Accepts(cs, dets, q, p, width, height)
    ensures FirstMatch(cs, dets, p, width, height, 0) != Some(q)
  {
  }

  /** The candidate position a car is matched to, if any. */
  function Match(e: seq<real>, cs: seq<Candidate>, dets: seq<Detection>, width: int, height: int): Option<nat>
    requires |e| >= 7 && ValidCandidates(cs, dets) && width > 0 && height > 0
  {
    FirstMatch(cs, dets, Projected(e, width, height), width, height, 0)
  }

  /** The example one ground-truth car yields: none, or its entry paired
      with the row of the candidate it is matched to. */
  function ExampleFor(e: seq<real>, cs: seq<Candidate>, dets: seq<Detection>, width: int, height: int): seq<Example>
    requires |e| >= 7 && ValidCandidates(cs, dets) && width > 0 && height > 0
  {
    match Match(e, cs, dets, width, height)
    case None => []
    case Some(q) => [Example(RowOf(dets[cs[q].index], width, height), e)]
  }

  /** The examples of an image's cars, in the order of the cars. */
  function CarExamples(es: seq<seq<real>>, cs: seq<Candidate>, dets: seq<Detection>, width: int, height: int): seq<Example>
    requires CompleteEntries(es)
    requires ValidCandidates(cs, dets) && width > 0 && height > 0
  {
    if |es| == 0 then []
    else CarExamples(es[..|es| - 1], cs, dets, width, height) + ExampleFor(es[|es| - 1], cs, dets, width, height)
  }

  /** The positions of the cars that find a box, in increasing order. */
  ghost function MatchedCars(es: seq<seq<real>>, cs: seq<Candidate>, dets: seq<Detection>, width: int, height: int): seq<nat>
    requires CompleteEntries(es)
    requires ValidCandidates(cs, dets) && width > 0 && height > 0
  {
    if |es| == 0 then []
    else
      var n := |es| - 1;
      MatchedCars(es[..n], cs, dets, width, height)
      + (if Match(es[n], cs, dets, width, height).Some? then [n] else [])
  }

  /** The matched positions are increasing positions of `es`. */
  lemma {:induction false} MatchedCarsIncrease(es: seq<seq<real>>, cs: seq<Candidate>, dets: seq<Detection>, width: int, height: int)
    requires CompleteEntries(es)
    requires ValidCandidates(cs, dets) && width > 0 && height > 0
    ensures var m := MatchedCars(es, cs, dets, width, height);
      && |m| <= |es|
      && (forall j :: 0 <= j < |m| ==> m[j] < |es|)
      && (forall j, j' :: 0 <= j < j' < |m| ==> m[j] < m[j'])
  {
    if |es| > 0 {
      var n := |es| - 1;
      assert CompleteEntries(es[..n]);
      MatchedCarsIncrease(es[..n], cs, dets, width, height);
    }
  }

  /** A position is matched exactly when its car finds a box. */
  lemma {:induction false} MatchedCarsMembership(es: seq<seq<real>>, cs: seq<Candidate>, dets: seq<Detection>, width: int, height: int, i: nat)
    requires CompleteEntries(es)
    requires ValidCandidates(cs, dets) && width > 0 && height > 0
    requires i < |es|
    ensures i in MatchedCars(es, cs, dets, width, height) <==> Match(es[i], cs, dets, width, height).Some?
  {
    var n := |es| - 1;
    var init := es[..n];
    assert CompleteEntries(init);
    var m0 := MatchedCars(init, cs, dets, width, height);
    var found := Match(es[n], cs, dets, width, height).Some?;
    assert MatchedCars(es, cs, dets, width, height) == m0 + (if found then [n] else []);
    MatchedCarsIncrease(init, cs, dets, width, height);
    if i < n {
      MatchedCarsMembership(init, cs, dets, width, height, i);
      assert init[i] == es[i];
    }
  }

  /** The matched positions are increasing and are exactly the cars that find a box. */
  lemma MatchedCarsAreTheMatches(es: seq<seq<real>>, cs: seq<Candidate>, dets: seq<Detection>, width: int, height: int)
    requires CompleteEntries(es)
    requires ValidCandidates(cs, dets) && width > 0 && height > 0
    ensures var m := MatchedCars(es, cs, dets, width, height);
      && |m| <= |es|
      && (forall j :: 0 <= j < |m| ==> m[j] < |es|)
      && (forall j, j' :: 0 <= j < j' < |m| ==> m[j] < m[j'])
      && (forall i :: 0 <= i < |es| ==> (i in m <==> Match(es[i], cs, dets, width, height).Some?))
  {
    MatchedCarsIncrease(es, cs, dets, width, height);
    forall i | 0 <= i < |es|
      ensures i in MatchedCars(es, cs, dets, width, height) <==> Match(es[i], cs, dets, width, height).Some?
    {
      MatchedCarsMembership(es, cs, dets, width, height, i);
    }
  }

  lemma {:induction false} CarExamplesLength(es: seq<seq<real>>, cs: seq<Candidate>, dets: seq<Detection>, width: int, height: int)
    requires CompleteEntries(es)
    requires ValidCandidates(cs, dets) && width > 0 && height > 0
    ensures |CarExamples(es, cs, dets, width, height)| == |MatchedCars(es, cs, dets, width, height)|
  {
    if |es| > 0 {
      var n := |es| - 1;
      assert CompleteEntries(es[..n]);
      CarExamplesLength(es[..n], cs, dets, width, height);
    }
  }

  /** The `j`-th example is the `j`-th matched car's entry, unchanged,
      paired with the row of its first accepting candidate. */
  lemma {:induction false} CarExampleAt(es: seq<seq<real>>, cs: seq<Candidate>, dets: seq<Detection>, width: int, height: int, j: nat)
    requires CompleteEntries(es)
    requires ValidCandidates(cs, dets) && width > 0 && height > 0
    requires j < |MatchedCars(es, cs, dets, width, height)|
    ensures var exs, m := CarExamples(es, cs, dets, width, height), MatchedCars(es, cs, dets, width, height);
      && j < |exs| && m[j] < |es|
      && Match(es[m[j]], cs, dets, width, height).Some?
      && exs[j] == Example(RowOf(dets[cs[Match(es[m[j]], cs, dets, width, height).value].index], width, height), es[m[j]])
  {
    var n := |es| - 1;
    var init := es[..n];
    assert CompleteEntries(init);
    CarExamplesLength(init, cs, dets, width, height);
    MatchedCarsAreTheMatches(init, cs, dets, width, height);
    var exs0, m0 := CarExamples(init, cs, dets, width, height), MatchedCars(init, cs, dets, width, height);
    var exs, m := CarExamples(es, cs, dets, width, height), MatchedCars(es, cs, dets, width, height);
    assert exs == exs0 + ExampleFor(es[n], cs, dets, width, height);
    if j < |m0| {
      CarExampleAt(init, cs, dets, width, height, j);
      assert m[j] == m0[j] && exs[j] == exs0[j];
      assert es[m0[j]] == init[m0[j]];
    } else {
      assert Match(es[n], cs, dets, width, height).Some?;
      assert m[j] == n;
    }
  }

  /** The examples of an image are exactly one per car that finds a box,
      in car order: the car's entry unchanged, paired with the all-finite
      row of the first accepting candidate. Cars that find no box yield
      nothing, so there are never more examples than cars. */
  lemma CarExamplesCharacterized(es: seq<seq<real>>, cs: seq<Candidate>, dets: seq<Detection>, width: int, height: int)
    requires CompleteEntries(es)
    requires ValidCandidates(cs, dets) && width > 0 && height > 0
    ensures var exs, m := CarExamples(es, cs, dets, width, height), MatchedCars(es, cs, dets, width, height);
      && |exs| == |m| <= |es|
      && (forall j :: 0 <= j < |m| ==>
            && m[j] < |es|
            && Match(es[m[j]], cs, dets, width, height).Some?
            && exs[j].target == es[m[j]]
            && exs[j].row == RowOf(dets[cs[Match(es[m[j]], cs, dets, width, height).value].index], width, height)
            && AllFinite(exs[j].row))
  {
    MatchedCarsAreTheMatches(es, cs, dets, width, height);
    CarExamplesLength(es, cs, dets, width, height);
    var exs, m := CarExamples(es, cs, dets, width, height), MatchedCars(es, cs, dets, width, height);
    forall j | 0 <= j < |m|
      ensures m[j] < |es|
      ensures Match(es[m[j]], cs, dets, width, height).Some?
      ensures exs[j].target == es[m[j]]
      ensures exs[j].row == RowOf(dets[cs[Match(es[m[j]], cs, dets, width, height).value].index], width, height)
      ensures AllFinite(exs[j].row)
    {
      CarExampleAt(es, cs, dets, width, height, j);
      var q := Match(es[m[j]], cs, dets, width, height).value;
      ContainingRowIsFinite(dets[cs[q].index], Projected(es[m[j]], width, height), width, height);
    }
  }

  function ImageExamples(img: ImageData): seq<Example>
    requires SizedImage(img) && CompleteEntries(img.cars)
  {
    CandidateOrderIsStableDescending(img.detections);
    CarExamples(img.cars, CandidateOrder(img.detections), img.detections, img.width, img.height)
  }

  lemma CarExamplesSnoc(es: seq<seq<real>>, k: nat, cs: seq<Candidate>, dets: seq<Detection>, width: int, height: int)
    requires CompleteEntries(es) && k < |es| && ValidCandidates(cs, dets) && width > 0 && height > 0
    ensures CompleteEntries(es[..k]) && CompleteEntries(es[..k + 1])
    ensures CarExamples(es[..k + 1], cs, dets, width, height)
         == CarExamples(es[..k], cs, dets, width, height) + ExampleFor(es[k], cs, dets, width, height)
  {
    assert es[..k + 1][..k] == es[..k];
  }

  lemma ImageExamplesUnfold(img: ImageData)
    requires SizedImage(img) && CompleteEntries(img.cars)
    ensures ValidCandidates(CandidateOrder(img.detections), img.detections)
    ensures ImageExamples(img)
         == CarExamples(img.cars, CandidateOrder(img.detections), img.detections, img.width, img.height)
  {
    CandidateOrderIsStableDescending(img.detections);
  }

  function DatasetExamples(images: seq<ImageData>): seq<Example>
    requires forall k :: 0 <= k < |images| ==> SizedImage(images[k]) && CompleteEntries(images[k].cars)
  {
    if |images| == 0 then []
    else DatasetExamples(images[..|images| - 1]) + ImageExamples(images[|images| - 1])
  }

  function Rows(exs: seq<Example>): seq<seq<Scalar>> {
    seq(|exs|, i requires 0 <= i < |exs| => exs[i].row)
  }

  function Targets(exs: seq<Example>): seq<seq<real>> {
    seq(|exs|, i requires 0 <= i < |exs| => exs[i].target)
  }

  lemma RowsTargetsAppend(a: seq<Example>, b: seq<Example>)
    ensures Rows(a + b) == Rows(a) + Rows(b)
    ensures Targets(a + b) == Targets(a) + Targets(b)
  {
  }

  /** `seen_cars` is emptied for every ground-truth car, so one box can
      be matched by several cars: two cars on the optical axis at depths 10
      and 20 both project to the principal point, and the single
      full-width car box of a 3000x3000 image is paired with both. */
  lemma OneBoxMatchesTwoCars()
    ensures var d := Detection(Roi(0, 0, 2000, 3000), CarId, [0.5]);
      var img := ImageData(3000, 3000, [[1.0, 0.0, 0.0, 0.0, 0.0, 0.0, 10.0], [1.0, 0.0, 0.0, 0.0, 0.0, 0.0, 20.0]], [d]);
      && SizedImage(img) && CompleteEntries(img.cars)
      && ImageExamples(img) == [Example(RowOf(d, 3000, 3000), img.cars[0]), Example(RowOf(d, 3000, 3000), img.cars[1])]
  {
    var d := Detection(Roi(0, 0, 2000, 3000), CarId, [0.5]);
    var cars := [[1.0, 0.0, 0.0, 0.0, 0.0, 0.0, 10.0], [1.0, 0.0, 0.0, 0.0, 0.0, 0.0, 20.0]];
    var img := ImageData(3000, 3000, cars, [d]);
    var cs := CandidateOrder([d]);
    assert Tagged([d]) == [Candidate(d.roi, 0)];
    var c := Candidate(d.roi, 0);
    assert [c][1..] == [];
    assert SortedBy([c][1..], X2Key, true) == [];
    assert Insert(c, [], X2Key, true) == [c];
    assert cs == [c];
    CandidateOrderIsStableDescending([d]);
    OnAxisProjectsToPrincipalPoint(10.0);
    OnAxisProjectsToPrincipalPoint(20.0);
    var p := Some(Point(Normalize(Cx, 3000), Normalize(Cy, 3000)));
    assert Projected(cars[0], 3000, 3000) == p;
    assert Projected(cars[1], 3000, 3000) == p;
    assert Accepts(cs, [d], 0, p, 3000, 3000);
    assert Match(cars[0], cs, [d], 3000, 3000) == Some(0);
    assert Match(cars[1], cs, [d], 3000, 3000) == Some(0);
    CarExamplesSnoc(cars, 0, cs, [d], 3000, 3000);
    CarExamplesSnoc(cars, 1, cs, [d], 3000, 3000);
    assert cars[..2] == cars;
    ImageExamplesUnfold(img);
  }

  /** The loop that builds `rois_with_index`. */
  method TagRois(dets: seq<Detection>) returns (tagged: seq<Candidate>)
    ensures tagged == Tagged(dets)
  {
    tagged := [];
    for i := 0 to |dets|
      invariant tagged == Tagged(dets[..i])
    {
      tagged := tagged + [Candidate(dets[i].roi, i)];
    }
    assert dets[..|dets|] == dets;
  }

  /** The scan over the sorted candidates for one ground-truth car `e`:
      the first accepting candidate appends its row to `x_train` and `e`
      to `y_train`, then the scan stops. `seenCars` is emptied for every
      car, so its test never skips anything. */
  method MatchCar(e: seq<real>, cands: seq<Candidate>, dets: seq<Detection>, width: int, height: int,
                  xTrain: seq<seq<Scalar>>, yTrain: seq<seq<real>>)
    returns (xs: seq<seq<Scalar>>, ys: seq<seq<real>>)
    requires |e| >= 7 && ValidCandidates(cands, dets) && width > 0 && height > 0
    ensures xs == xTrain + Rows(ExampleFor(e, cands, dets, width, height))
    ensures ys == yTrain + Targets(ExampleFor(e, cands, dets, width, height))
  {
    var p := Projected(e, width, height);
    var seenCars: seq<nat> := [];
    xs, ys := xTrain, yTrain;
    var i := 0;
    while i < |cands|
      invariant 0 <= i <= |cands|
      invariant xs == xTrain && ys == yTrain
      invariant forall s :: s in seenCars ==> !Accepts(cands, dets, s, p, width, height)
      invariant forall q :: 0 <= q < i ==> !Accepts(cands, dets, q, p, width, height)
    {
      if i in seenCars {
        i := i + 1;
        continue;
      }
      var index := cands[i].index;
      if dets[index].classId == CarId {
        var f := Describe(cands[i].roi, width, height);
        if !EgoExcluded(f) {
          if Contains(f, p) {
            assert Accepts(cands, dets, i, p, width, height);
            assert FirstMatch(cands, dets, p, width, height, 0) == Some(i);
            xs := xs + [FeatureRow(f, dets[index].features)];
            ys := ys + [e];
            seenCars := seenCars + [i];
            return;
          }
        }
      }
      i := i + 1;
    }
  }

  /** The `for ex` loop: every ground-truth car of the image, in order. */
  method MatchCars(cars: seq<seq<real>>, cands: seq<Candidate>, dets: seq<Detection>, width: int, height: int,
                   xTrain: seq<seq<Scalar>>, yTrain: seq<seq<real>>)
    returns (xs: seq<seq<Scalar>>, ys: seq<seq<real>>)
    requires CompleteEntries(cars) && ValidCandidates(cands, dets) && width > 0 && height > 0
    ensures xs == xTrain + Rows(CarExamples(cars, cands, dets, width, height))
    ensures ys == yTrain + Targets(CarExamples(cars, cands, dets, width, height))
  {
    xs, ys := xTrain, yTrain;
    assert CompleteEntries(cars[..0]);
    for ex := 0 to |cars|
      invariant CompleteEntries(cars[..ex])
      invariant xs == xTrain + Rows(CarExamples(cars[..ex], cands, dets, width, height))
      invariant ys == yTrain + Targets(CarExamples(cars[..ex], cands, dets, width, height))
    {
      CarExamplesSnoc(cars, ex, cands, dets, width, height);
      var before := CarExamples(cars[..ex], cands, dets, width, height);
      var here := ExampleFor(cars[ex], cands, dets, width, height);
      xs, ys := MatchCar(cars[ex], cands, dets, width, height, xs, ys);
      RowsTargetsAppend(before, here);
    }
    assert cars[..|cars|] == cars;
  }

  /** The body of the `for k` loop for one image: tag and sort the
      candidates, then scan them once per ground-truth car. */
  method MatchImage(img: ImageData, xTrain: seq<seq<Scalar>>, yTrain: seq<seq<real>>)
    returns (xs: seq<seq<Scalar>>, ys: seq<seq<real>>)
    requires SizedImage(img) && CompleteEntries(img.cars)
    ensures xs == xTrain + Rows(ImageExamples(img))
    ensures ys == yTrain + Targets(ImageExamples(img))
  {
    var tagged := TagRois(img.detections);
    var cands := SortedBy(tagged, X2Key, true);
    ImageExamplesUnfold(img);
    xs, ys := MatchCars(img.cars, cands, img.detections, img.width, img.height, xTrain, yTrain);
  }

  /** `extract_bounding_box_info` over all images; an entry without
      element 6 raises `IndexError` and nothing is returned. */
  method ExtractBoundingBoxInfo(images: seq<ImageData>) returns (res: Result<Dataset, ExtractError>)
    requires forall k :: 0 <= k < |images| ==> SizedImage(images[k])
    ensures res.Err? <==> exists k :: 0 <= k < |images| && !CompleteEntries(images[k].cars)
    ensures res.Ok? ==> res.value.x == Rows(DatasetExamples(images))
    ensures res.Ok? ==> res.value.y == Targets(DatasetExamples(images))
    ensures res.Ok? ==> |res.value.x| == |res.value.y|
  {
    var xTrain: seq<seq<Scalar>> := [];
    var yTrain: seq<seq<real>> := [];
    for k := 0 to |images|
      invariant forall j :: 0 <= j < k ==> CompleteEntries(images[j].cars)
      invariant xTrain == Rows(DatasetExamples(images[..k]))
      invariant yTrain == Targets(DatasetExamples(images[..k]))
    {
      if !CompleteEntries(images[k].cars) {
        return Err(IndexError);
      }
      assert images[..k + 1][..k] == images[..k];
      xTrain, yTrain := MatchImage(images[k], xTrain, yTrain);
      RowsTargetsAppend(DatasetExamples(images[..k]), ImageExamples(images[k]));
    }
    assert images[..|images|] == images;
    res := Ok(Dataset(xTrain, yTrain));
  }
}

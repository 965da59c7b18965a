# 6-DoF car pose regression: the deterministic core in Dafny

This project models the deterministic data handling of `pose_model.py`. That file estimates a car's pose from a street image: a quaternion rotation plus a translation `(x, y, z)` in camera coordinates. It chains four stages:

1. **Ground truth.** `load_Y_values` reads one CSV record per image. Each record holds a flat list of 7-token car groups. Every group becomes a 7-vector `[q0, q1, q2, q3, tx, ty, tz]`, and each image's vectors are sorted by `ty`.
2. **Camera.** `pose_to_pixel` projects a 3-D point through the fixed intrinsic matrix of the dataset camera. Both boxes and projected points are normalised to `[-1, 1]` with the image's half extents.
3. **Association.** `extract_bounding_box_info` sorts the Mask R-CNN boxes of an image by descending `x2`. For each ground-truth car it takes the first box that:
   - is a car,
   - is not the recording vehicle's own bonnet,
   - strictly contains the car's projected position.

   The box's eight geometric features plus its appearance features form a training row, paired with the car's 7-vector. `detect` builds the same rows at inference time for every car box of an image that the ego rule does not exclude.
4. **Training and display.** `random_mini_batches` shuffles the columns of X and Y with one permutation and cuts them into batches. `visualize_poses` draws a car's cuboid from the 9-point table `P` and the twelve edges of `draw_line`.

The modules are:

- `Wrappers`: the `Option` and `Result` types.
- `StableSort`: Python's `sorted(key=..., reverse=...)`, proved to be a stable sort.
- `Camera`: the intrinsics, `pose_to_pixel` and the normalisation.
- `Boxes`: detections, box features, the ego rule and the feature row.
- `GroundTruth`: `load_Y_values`.
- `Association`: `extract_bounding_box_info`.
- `Inference`: the filter loop of `detect`.
- `MiniBatches`: `random_mini_batches`.
- `Cuboid`: `P` and the `draw_line` edges.

Loops in the source are methods with loop invariants. Each method is proved against a specification function, and the properties are proved about that function.

Floats are modelled as reals. numpy's division by zero is made explicit:

- `width_to_height_ratio` of a zero-height box is `Scalar.NonFinite`.
- A projection at depth `z == 0` is `None`. It is never inside a box: a nan coordinate fails every comparison, and an infinite coordinate is never strictly between two finite box edges.

The quaternion conversion `euler2quat` belongs to an external library. It is a function parameter (`GroundTruth.EulerToQuat`).

The model follows the code as written, including these points where the code departs from what its own comments or the problem it solves would suggest:

- **One row per matched car.** The docstring of `extract_bounding_box_info` (`pose_model.py:135-138`) promises box information for the car closest to the camera, one per image. The code emits one row for every ground-truth car that finds a box (`pose_model.py:170-209`).
- **Row layout.** The feature row is `[x1, x2, y1, y2, center_x, center_y, area, ratio]` followed by the appearance features (`pose_model.py:202`): the four box edges come first and the derived features after them.
- **Sort order.** Each image's cars are sorted ascending on `ty`, element 5 (`pose_model.py:128`), not on the depth `tz`.
- **Box reuse.** `seen_cars` is reset for every ground-truth car (`pose_model.py:180`), so one box can be matched by several cars (`Association.OneBoxMatchesTwoCars`). Nothing ensures that a box is matched at most once.
- **Zero or negative depth.** Such poses are not skipped before matching. A depth of zero never matches. A negative depth is projected like any other.
- **Short groups.** A trailing group of one to five tokens raises `IndexError`: at `eulers[2]` for up to three tokens, and in the sort key `x[5]` for four or five. A trailing group of six tokens is accepted as a 6-element entry without `tz`, and the `IndexError` comes later, at `cars_in_file[ex][6]` in `extract_bounding_box_info`.

## Model

| member | source | states |
|---|---|---|
| Camera.ProjectionMatrix | pose_model.py:80-95 | `np.dot(cam_matrix, R)` is the intrinsic matrix followed by a zero column |
| Camera.PoseToPixel | pose_model.py:84-97 | the projection is undefined (`None`) exactly when `z == 0`; otherwise it is `(fx·x/z + cx, fy·y/z + cy, 1)` |
| Camera.OnAxisProjectsToPrincipalPoint | pose_model.py:84-97 | a point on the optical axis projects to the principal point `(cx, cy)` at every non-zero depth |
| Camera.Normalize | pose_model.py:177-178 | normalising by half the image extent is inverted by `Denormalize`, so no information is lost |
| Camera.NormalizeEdges | pose_model.py:190-193 | the image edges `0` and `extent` go to `-1` and `1` |
| Camera.NormalizeMonotone | pose_model.py:190-193 | normalisation keeps strict and non-strict order, in both directions |
| Camera.NormalizeInRange | pose_model.py:190-193 | a coordinate inside the image lands in `[-1, 1]` |
| Boxes.Describe | pose_model.py:187-197 | the normalised box keeps its edge order; the centre lies between the edges; a well-formed box has non-negative area; the ratio is non-finite exactly for a zero-height box and otherwise times the height gives the width |
| Boxes.FeatureRow | pose_model.py:202-205 | the row is `[x1, x2, y1, y2, center_x, center_y, area, ratio]` followed by the appearance features, and is all finite exactly when the ratio is |
| Boxes.ContainingRowIsFinite | pose_model.py:197-205 | a box that strictly contains a point has positive height, so its training row is all finite |
| StableSort.SortedByIsStableSort | pose_model.py:128 | `sorted` returns a permutation of its input, ordered by the key (descending when `reverse`), with the elements of each key in input order |
| StableSort.SortedByKeepsTies | pose_model.py:166 | stability by position: elements with equal keys come out in increasing order of any rank that increases along the input |
| GroundTruth.GroupEntryLength | pose_model.py:118-125 | an entry has `min(7, tokens left)` elements: four quaternion components plus up to three translation values |
| GroundTruth.LoadRow | pose_model.py:116-128 | the `while k < len(list_of_params)` loop and the sort compute `ParseRow`: `IndexError` for a trailing group of one to five tokens, otherwise the entries sorted by `ty` |
| GroundTruth.WholeGroups | pose_model.py:118-126 | a row of `7n` tokens gives `n` entries; entry `j` skips the type token, passes the three angles to the encoder in reverse order and appends `t[7j+4..7j+7]` |
| GroundTruth.TruncatedLastGroup | pose_model.py:117-128 | a row of `7n+6` tokens is accepted; its last entry has six elements (no `tz`) and every other entry has seven |
| GroundTruth.ParsedRowIsSortedByTy | pose_model.py:128 | the per-image list is a permutation of the entries, ascending on element 5 (`ty`), with equal `ty` kept in row order |
| GroundTruth.EntriesHaveTy | pose_model.py:128 | every entry reaching the sort has six or seven elements, so the sort key `x[5]` exists |
| GroundTruth.LoadYValues | pose_model.py:104-132 | the load fails exactly when some row is malformed; otherwise image `i` gets `ParseRow` of its row and the file name `<id>.jpg` |
| Association.TagRois | pose_model.py:163-165 | `rois_with_index` pairs each box with its detector position |
| Association.CandidateOrderIsStableDescending | pose_model.py:162-166 | the candidates are the tagged boxes reordered by non-increasing `x2`, equal `x2` in detector order, each pointing at the detection it came from |
| Association.FirstMatch | pose_model.py:182-209 | the result is the first candidate that is a car, not the ego vehicle, and strictly contains the point; none exactly when no candidate qualifies |
| Association.EgoBoxNeverMatched | pose_model.py:199-200 | a box caught by the ego-vehicle rule is never matched, whatever it contains |
| Association.MatchedCarsAreTheMatches | pose_model.py:170-209 | the matched cars are listed in increasing order and are exactly the cars for which some box qualifies |
| Association.CarExampleAt | pose_model.py:170-209 | the `j`-th example of an image is the `j`-th matched car's entry, unchanged, with the row of its first qualifying box |
| Association.CarExamplesCharacterized | pose_model.py:170-209 | an image yields one example per car that finds a box, in car order and never more than its cars, each pairing the car's entry with an all-finite row of its first qualifying box |
| Association.OneBoxMatchesTwoCars | pose_model.py:180-209 | `seen_cars` is reset per car, so two cars on the optical axis are both paired with the same single box |
| Association.MatchCar | pose_model.py:180-209 | the candidate scan for one car appends exactly that car's example (or nothing) to `x_train` and `y_train` |
| Association.MatchCars | pose_model.py:170-209 | the `for ex` loop appends the examples of all cars of the image, in car order |
| Association.MatchImage | pose_model.py:162-209 | tagging, sorting and scanning one image append exactly `ImageExamples` |
| Association.ExtractBoundingBoxInfo | pose_model.py:142-216 | `IndexError` exactly when some image has an entry without element 6; otherwise X's rows and Y's rows are the dataset's examples, in image and car order, equally many |
| Inference.CarInputs | pose_model.py:568-588 | the filter loop of `detect` builds exactly `CarRows`, the rows of the kept detections |
| Inference.CarRowsAreTheKeptDetections | pose_model.py:568-588 | the rows are those of the detections that are cars and not the ego vehicle, every such detection and no other, in detector order |
| Inference.CarInputRowShape | pose_model.py:573-588 | every row built by `detect` has eight entries plus one per appearance feature, all finite exactly when the box has non-zero height |
| MiniBatches.RandomMiniBatches | pose_model.py:247-270 | there are `⌊m/size⌋` batches, plus one for a remainder; the X and Y batches are the consecutive pieces of the shuffled X and the shuffled Y |
| MiniBatches.ChunksFlatten | pose_model.py:255-268 | the batches put back together give the shuffled sequence |
| MiniBatches.ChunkSizes | pose_model.py:256-268 | every batch but the last has `size` columns, the last between one and `size`; there are no batches only for an empty set |
| MiniBatches.ChunksOfShuffle | pose_model.py:252-266 | batch `b` of the shuffled columns is the columns at piece `b` of the permutation |
| MiniBatches.PermutationCoversEveryColumn | pose_model.py:251-253 | under a permutation of `0..m-1`, every column appears in the shuffled data at exactly one position |
| MiniBatches.BatchesPartitionTheShuffle | pose_model.py:251-270 | the X batches concatenate to the shuffled X, and batch `b` of X and of Y take the columns at the same positions |
| Cuboid.CornersAreTheSignPatterns | pose_model.py:520-539 | row 0 of `P` is the centroid and rows 1..8 are eight distinct sign patterns `(±x_l, ±y_l, ±z_l, 1)` whose mean is the centroid |
| Cuboid.EdgesAreTheBoxEdges | pose_model.py:484-501 | the twelve lines are distinct, join corners only, each joins corners that differ on one axis, and every such pair is drawn |
| Cuboid.EveryCornerHasDegreeThree | pose_model.py:484-501 | every corner is on three lines and the centroid on none |

## Left out

- The neural network is not modelled: placeholders, parameters, forward propagation, the loss, training and `eval_accuracy` are TensorFlow numerics on floats.
- Mask R-CNN inference (`rcnn_model.detect`) is not modelled. Its boxes, class ids and features are inputs (`Boxes.Detection`).
- Image and mask reading, masking, drawing (`cv2.line`, `cv2.circle`), plotting and the progress prints are left out as I/O.
- The trigonometry of `visualize_poses` is left out. That covers `euler_to_Rot`, `quat2euler`, the rotation and projection of the cuboid, and the integer cast of pixels. This is floating-point geometry; only the static table `P` and the edge list are modelled.
- `euler2quat` is external library code. It is the parameter `GroundTruth.EulerToQuat`.
- CSV reading, the header skip, `split()` and `float()` are left out. Records arrive as an image id and a sequence of numeric tokens (`GroundTruth.CsvRow`). A token that is not a number, and a record with fewer than two fields, are not modelled.
- `np.random.permutation` is left out because it is random. The permutation is a parameter of `MiniBatches.RandomMiniBatches`, and `MiniBatches.PermutationCoversEveryColumn` states what follows when it is one.
- Matrices are sequences of columns. The transposition `.T` and `reshape` are not modelled.
- Float rounding is not modelled, including the `float32` intrinsic matrix. The `Scalar.NonFinite` value does not distinguish `inf` from `nan`.
- `pose_model.py` does not parse as written. The docstring of `pose_to_pixel` (`pose_model.py:85-88`) is indented with a tab, and the body from `pose_model.py:89` with two spaces, which Python rejects with an `IndentationError`. The model reads `pose_model.py:89-97` as the body of `pose_to_pixel`.
- `detect` is not modelled past its filter loop. It calls `class_names.index('car')` at `pose_model.py:556`, and `class_names` is never bound in this file, so the function would stop there. `Inference.CarInputs` models the filter loop as if it were reached. Running the trained model on the rows is not modelled.
- MiniBatches.RandomMiniBatches: requires `size > 0`; the source raises `ZeroDivisionError` for a size of zero, which is not modelled. It requires the permutation to have one index per column of X, as `np.random.permutation(m)` guarantees. It also requires every index to be a column of Y, that is, Y has at least as many columns as X. Otherwise `Y[:, permutation]` raises `IndexError` (`pose_model.py:253`), and that case is not modelled.
- Association.ExtractBoundingBoxInfo: requires every image to have a positive width and height; an image with a zero dimension would make numpy divide by a zero half extent, and that case is not modelled.

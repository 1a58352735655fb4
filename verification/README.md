# vggt_to_colmap: point aggregation and COLMAP writers

This project models, in Dafny, the core of `vggt_to_colmap.py`: the step that
turns the per-pixel predictions of the VGGT network (a 3D point, a confidence
and the colour of the source photograph for every cell of every image's
prediction grid) into a sparse COLMAP reconstruction, and the six writers that
serialise that reconstruction as `cameras`, `images` and `points3D` files in
COLMAP's text and binary formats.

The modules follow the program's structure:

- `Geometry`: points, keys and the quantisation `hash_point` applies
  (scale by 100, then NumPy's round-half-to-even). It also holds CPython's
  integer hash, which is used for the finding below.
- `Heuristics`: the sky, black-background and white-background tests, on
  reals, together with exact integer forms of the same tests.
- `Sampling`: Python's `range(0, stop, step)`, the strided grid, and the
  mapping from grid coordinates to pixels of the colour image.
- `Visits`: the order in which the nested loops visit (image, y, x).
- `Reconstruction`: the store of points, the key index and the per-image
  keypoint lists, and the insertion of one accepted sample into them.
  `ReconstructionFacts` holds what the whole fold guarantees.
- `Aggregator`: `filter_and_prepare_points` as a function. Its loop form,
  `AggregatorLoop.FilterAndPrepare`, is proved equal to that function.
  `AggregatorFacts` states what the result means in terms of the input
  arrays.
- `Colmap`: the records each file holds, with 1-based ids. This module also
  covers the scipy-to-COLMAP quaternion reorder and `os.path.basename`.
- `LittleEndian` and `BinaryWriter`: `struct.pack` with `<` and its codes
  `B`, `I`, `Q` and `d`, and the three binary writers. Each binary writer
  comes with a reader, and the reader recovers the records.
- `TextWriter`: the three text writers as lines of tokens. Each comes with a
  parser that recovers the records. `Formats` proves that the text and binary
  forms agree, and that the written ids and cross-references are consistent.

Some of the source's inputs are parameters of the model rather than parts of
it:
- Doubles reach the binary writers through a parameter
  `f64: real -> Bits64`, which stands for the IEEE 754 encoding.
- Image names are byte strings.
- Confidences, coordinates, intrinsics and poses are reals.

## Model

| member | source | states |
|---|---|---|
| Geometry.RoundHalfEven | vggt_to_colmap.py:209 | the rounded integer lies within 0.5 of the value, and a tie goes to the even neighbour (NumPy's `np.round`) |
| Geometry.RoundHalfEvenUnique | vggt_to_colmap.py:209 | any integer with those two properties is the rounding, so the rounding is determined by them |
| Geometry.Quantize | vggt_to_colmap.py:206-209 | each key coordinate is within 0.5 of the coordinate times 100 |
| Geometry.QuantizeSeparates | vggt_to_colmap.py:206-209 | two points whose scaled x coordinates differ by more than 1 never share a key |
| Geometry.HashPoint | vggt_to_colmap.py:206-210 | no hash lane is -1, and for keys strictly between −(2^61 − 1) and 2^61 − 1 each lane is the key coordinate, except that a coordinate of -1 gives -2 |
| Geometry.HashPointCollisions | vggt_to_colmap.py:206-210 | for keys strictly between −(2^61 − 1) and 2^61 − 1, the three element hashes of two points agree iff in each coordinate their keys are equal or are -1 and -2; agreeing element hashes give equal tuple hashes |
| Geometry.PyIntHash | vggt_to_colmap.py:210 | CPython's integer hash: the identity on small integers, except that -1 hashes to -2; -1 is never a hash value |
| Geometry.HashPointMergesDistinctKeys | vggt_to_colmap.py:206-210 | the points (-0.01, 0, 0) and (-0.02, 0, 0) quantise to different keys but hash to the same value |
| Heuristics.IsSky | vggt_to_colmap.py:102-108 | a sky point lies above height 1.0 and its blue channel exceeds red and green |
| Heuristics.IsBlackBg | vggt_to_colmap.py:110-113 | a colour with every channel below 30 is black background, and a black-background colour has some channel below 30 |
| Heuristics.IsWhiteBg | vggt_to_colmap.py:115-118 | a white-background colour has every channel above 204, and a grey with all channels equal and above 230 is white background |
| Heuristics.SkyIffIntegerTest | vggt_to_colmap.py:102-108 | a point is sky iff its y exceeds 1.0 and 5·blue exceeds 6·red and 6·green |
| Heuristics.BlackBgIffSumBelow90 | vggt_to_colmap.py:110-113 | a colour is black background iff its channel mean is below 30, that is, the channel sum is below 90 |
| Heuristics.WhiteBgIffIntegerTest | vggt_to_colmap.py:115-118 | a colour is white background iff the sum exceeds 690 and the population standard deviation is below 15, stated as 3·Σc² − (Σc)² < 2025 |
| Heuristics.BackgroundsDisjoint | vggt_to_colmap.py:110-118 | no colour is both black and white background |
| Heuristics.HeuristicExamples | vggt_to_colmap.py:102-118 | concrete colours on each side of each threshold |
| Sampling.Range | vggt_to_colmap.py:155-156 | `range(0, stop, step)` is empty for a negative step; otherwise it yields multiples of the step, below the stop, strictly increasing |
| Sampling.RangeMembers | vggt_to_colmap.py:155-156 | a value is visited iff it is a non-negative multiple of the step below the stop, and it is visited at position value/step |
| Sampling.RangeAt | vggt_to_colmap.py:155-156 | position i exists iff i·step is below the stop, and it holds i·step |
| Sampling.GridSizeIsCeilProduct | vggt_to_colmap.py:155-156 | a stride-s sweep of an h×w grid visits ⌈h/s⌉·⌈w/s⌉ cells |
| Sampling.DoubledStrideDecimates | vggt_to_colmap.py:155-156 | doubling the stride keeps every second sample of each axis and adds none |
| Sampling.ColourIndex | vggt_to_colmap.py:167-169 | the colour row or column is always inside the source image |
| Sampling.ColourIndexIsIntegerScaling | vggt_to_colmap.py:167-168 | the truncated scaled coordinate is the integer quotient coord·orig/grid, clamped to orig−1, and inside the grid the clamp never applies |
| Visits.AllVisits | vggt_to_colmap.py:146-156 | the loops visit (images)·(rows visited)·(columns visited) triples |
| Visits.AllVisitsOrdered | vggt_to_colmap.py:146-156 | the loops visit (image, y, x) in strictly increasing lexicographic order |
| Visits.AllVisitsMembers | vggt_to_colmap.py:146-156 | a triple is visited iff its image, row and column are each in the loop's range |
| Visits.GridVisitsLength | vggt_to_colmap.py:155-156 | one image's sweep has (rows visited)·(columns visited) cells |
| Reconstruction.Init | vggt_to_colmap.py:136-138 | the empty store for n images is consistent and holds no points and no keypoints |
| Reconstruction.Insert | vggt_to_colmap.py:180-201 | a sample with an indexed key leaves every point unchanged except that the matched point's track gains (image, current keypoint count); a sample with a new key appends a point with the next id, the sample's position and colour, error 1.0 and that one-entry track; either way the image gains a keypoint with the sample's x, y and the point of its key, and every other key keeps its point |
| Reconstruction.InsertPreservesValid | vggt_to_colmap.py:180-201 | one insertion keeps the store consistent (dense ids, tracks and keypoints referring to each other one-to-one, counts equal) and adds exactly one keypoint |
| Reconstruction.InsertTracksNewKeypoint | vggt_to_colmap.py:182-201 | the keypoint just appended names a point whose track holds (image, its position) exactly once |
| Reconstruction.Build | vggt_to_colmap.py:146-201 | folding the samples into the empty store leaves one keypoint list per image, and every indexed key names an existing point |
| Reconstruction.BuildValid | vggt_to_colmap.py:146-201 | after all accepted samples, the store is consistent, and the keypoint count and track-entry count both equal the number of samples |
| ReconstructionFacts.KeypointsFollowObservations | vggt_to_colmap.py:201 | keypoint k of an image is that image's k-th accepted sample: its x, y and the point of its key |
| ReconstructionFacts.SamePointIffSameKey | vggt_to_colmap.py:180-201 | two keypoints name the same point iff their samples have the same integer key |
| ReconstructionFacts.PointCountIsKeyCount | vggt_to_colmap.py:182-194 | the number of points is the number of distinct keys among the accepted samples |
| ReconstructionFacts.PointsAreFirstSightings | vggt_to_colmap.py:187-194 | each point's position and colour are those of a sample that is the first with its key, so a later sample with the same key changes neither |
| ReconstructionFacts.TracksOrdered | vggt_to_colmap.py:192-198 | when samples arrive image by image, each track lists its (image, keypoint) entries in increasing order |
| Aggregator.SeqMax | vggt_to_colmap.py:129 | the maximum is an element of the list and bounds every element |
| Aggregator.Cutoff | vggt_to_colmap.py:129-130 | a percentage in [0, 100] of a non-negative maximum confidence lies between 0 and the maximum; at or above 100 percent of a non-negative maximum, or at most 100 percent of a non-positive one, the cutoff is at least the maximum |
| Aggregator.CutoffMonotone | vggt_to_colmap.py:129-130 | for a non-negative maximum confidence, a higher percentage gives a higher or equal cutoff |
| Aggregator.Examine | vggt_to_colmap.py:157-177 | a grid cell is accepted iff its confidence exceeds the cutoff, its point is finite and no enabled filter rejects it; an accepted cell yields its image, x, y, point and mapped colour |
| Aggregator.Accepted | vggt_to_colmap.py:146-177 | every accepted sample names an existing image |
| Aggregator.ObservationsAreAccepted | vggt_to_colmap.py:155-177 | a sample is in the result of a sweep iff some visited cell is accepted and yields it |
| Aggregator.Aggregate | vggt_to_colmap.py:120-204 | raises iff the confidence array is empty or the stride is 0; otherwise returns one keypoint list per image, a consistent store, and as many keypoints as accepted samples |
| AggregatorLoop.FilterAndPrepare | vggt_to_colmap.py:120-204 | the nested loops compute exactly the functional aggregator, error cases included |
| AggregatorFacts.AcceptedIff | vggt_to_colmap.py:146-177 | a sample is accepted iff its image exists, its y and x are in the stride ranges, and its cell passes the acceptance test |
| AggregatorFacts.AcceptedOnStrideGrid | vggt_to_colmap.py:155-177 | for a positive stride, a sample is accepted iff its y and x are in-grid multiples of the stride and its cell passes the test |
| AggregatorFacts.NegativeStrideAcceptsNothing | vggt_to_colmap.py:155-156 | a negative stride yields no samples, no points and empty keypoint lists |
| AggregatorFacts.AcceptedInScanOrder | vggt_to_colmap.py:146-156 | accepted samples come image by image, and within an image row by row, then column by column |
| AggregatorFacts.TracksFollowImageOrder | vggt_to_colmap.py:192-198 | every returned track lists its entries in increasing (image, keypoint) order |
| AggregatorFacts.KeypointsPerImageBound | vggt_to_colmap.py:155-201 | an image gets at most ⌈h/s⌉·⌈w/s⌉ keypoints |
| AggregatorFacts.KeypointIsAcceptedSample | vggt_to_colmap.py:201 | every keypoint of an image is an accepted sample of that image, carrying its x, y and the point of its key |
| AggregatorFacts.AcceptedSampleIsKeypoint | vggt_to_colmap.py:201 | every accepted sample appears as a keypoint of its image |
| AggregatorFacts.KeypointsInScanOrder | vggt_to_colmap.py:155-201 | an image's keypoints are strictly increasing in (y, x) |
| AggregatorFacts.NothingPassesAtMaximum | vggt_to_colmap.py:129-157 | when the cutoff is at least the maximum confidence, no sample is accepted, since acceptance needs a confidence strictly above the cutoff |
| AggregatorFacts.HigherPercentAcceptsSubset | vggt_to_colmap.py:129-157 | when the maximum confidence is non-negative or the higher percentage is at most 100, raising the percentage accepts a subset of the samples and never more |
| AggregatorFacts.HigherPercentFewerPoints | vggt_to_colmap.py:129-157 | under the same condition, raising the percentage never increases the number of points or keypoints |
| AggregatorFacts.NegativeMaximumReversesCutoff | vggt_to_colmap.py:129-157 | the condition is needed: for a one-cell frame with confidence -1, 200 percent gives a lower cutoff than 50 percent and accepts the one sample, while 50 percent accepts none |
| Colmap.ScipyOrderRoundTrip | vggt_to_colmap.py:94-95 | the reorder from scipy's (x, y, z, w) to COLMAP's (w, x, y, z) is a bijection |
| Colmap.BaseName | vggt_to_colmap.py:322 | the base name is the longest slash-free suffix of the path |
| Colmap.BaseNameOfJoin | vggt_to_colmap.py:322 | the base name of dir/name is name |
| LittleEndian.DecodeEncode | vggt_to_colmap.py:283 | decoding an n-byte little-endian encoding returns the value |
| LittleEndian.EncodeDecode | vggt_to_colmap.py:283 | encoding a decoded byte string returns the bytes |
| LittleEndian.PackFields | vggt_to_colmap.py:296-305 | `struct.pack` succeeds iff every value fits its field |
| LittleEndian.PackFieldsReportsFirstMisfit | vggt_to_colmap.py:296-305 | a failing pack reports the first field that does not fit |
| LittleEndian.PackedSize | vggt_to_colmap.py:296-305 | the packed size is the sum of the field widths |
| LittleEndian.ReadPackedFields | vggt_to_colmap.py:296-305 | reading the fields back from the packed bytes recovers the values and leaves the rest of the stream |
| BinaryWriter.PackCount | vggt_to_colmap.py:283 | the 8-byte count header packs iff the count is below 2^64 |
| BinaryWriter.ReadPackedCount | vggt_to_colmap.py:283 | the count header reads back as the count |
| BinaryWriter.CameraFit | vggt_to_colmap.py:286-305 | a camera record packs iff its id fits `I` and the width and height fit `Q`, and then it is 56 bytes |
| BinaryWriter.CamerasBin | vggt_to_colmap.py:279-305 | cameras.bin packs iff there are no cameras or every id and size fits; its size is 8 + 56 per camera |
| BinaryWriter.CamerasBinRoundTrip | vggt_to_colmap.py:279-305 | reading cameras.bin returns camera i + 1 as a PINHOLE (model id 1) with the image size and fx, fy, cx, cy of intrinsic i |
| BinaryWriter.KeypointFit | vggt_to_colmap.py:343-345 | a keypoint record packs iff its point id + 1 fits `Q`, and then it is 24 bytes |
| BinaryWriter.ImageHeadFit | vggt_to_colmap.py:314-336 | an image header packs iff the id and the name length fit `I`, and then it is 68 bytes |
| BinaryWriter.ImageBytes | vggt_to_colmap.py:313-345 | an image record packs iff its id, name length, keypoint count and point ids fit; its size is 76 + name length + 24 per keypoint |
| BinaryWriter.ImagesBin | vggt_to_colmap.py:307-345 | images.bin packs iff the count and every image record fit; its size is 8 plus the record sizes |
| BinaryWriter.ImagesBinRoundTrip | vggt_to_colmap.py:307-345 | reading images.bin returns image i + 1 with camera i + 1, its pose, its base name and its keypoints, each with point id + 1 |
| BinaryWriter.TrackFit | vggt_to_colmap.py:371-372 | a track entry packs iff image + 1 and keypoint index fit `I`, and then it is 8 bytes |
| BinaryWriter.PointHeadFit | vggt_to_colmap.py:354-370 | a point header packs iff id + 1 and the track length fit `Q`, and then it is 51 bytes |
| BinaryWriter.PointBytes | vggt_to_colmap.py:353-372 | a point record packs iff its header and every track entry fit; its size is 51 + 8 per track entry |
| BinaryWriter.PointsBin | vggt_to_colmap.py:347-372 | points3D.bin packs iff the count and every point record fit; its size is 8 plus the record sizes |
| BinaryWriter.PointsBinRoundTrip | vggt_to_colmap.py:347-372 | reading points3D.bin returns point id + 1 with its position, colour, error and track, image ids shifted by one and keypoint indices unchanged |
| BinaryWriter.PackEachSize | vggt_to_colmap.py:285-305 | a list of records packs to the sum of the record sizes |
| TextWriter.CamerasTxt | vggt_to_colmap.py:212-230 | cameras.txt has three header lines and one line per camera |
| TextWriter.CamerasTxtRoundTrip | vggt_to_colmap.py:212-230 | parsing cameras.txt returns, for intrinsic i, camera i + 1, PINHOLE, the image size and fx, fy, cx, cy |
| TextWriter.CamerasHeaderCount | vggt_to_colmap.py:217 | the header's camera count equals the number of camera lines |
| TextWriter.KeypointTokensRoundTrip | vggt_to_colmap.py:255 | a keypoint line parses back to each keypoint's x, y and point id + 1 |
| TextWriter.ImagesTxt | vggt_to_colmap.py:232-256 | images.txt has four header lines and two lines per image |
| TextWriter.ImagesTxtRoundTrip | vggt_to_colmap.py:232-256 | parsing images.txt returns, for each image, id i + 1, its pose, camera i + 1, its base name and its keypoints, each with point id + 1 |
| TextWriter.ImagesHeaderSummary | vggt_to_colmap.py:239-241 | the header's image count equals the number of images read back, and mean × count is the total number of keypoints |
| TextWriter.TrackTokensRoundTrip | vggt_to_colmap.py:274 | the track tokens parse back to (image + 1, keypoint index) pairs |
| TextWriter.PointsTxt | vggt_to_colmap.py:258-277 | points3D.txt has three header lines and one line per point |
| TextWriter.PointsTxtRoundTrip | vggt_to_colmap.py:258-277 | parsing points3D.txt returns, for each point, id + 1, position, integer colour, error and track |
| TextWriter.PointsHeaderSummary | vggt_to_colmap.py:264-265 | the header's point count equals the number of points read back, and mean × count is the total track length |
| Formats.RecordIdsDense | vggt_to_colmap.py:212-277 | cameras, images and points are numbered 1, 2, ... in list order, and image i's camera id is the id of the camera written for intrinsic i |
| Formats.ZippedImagesReadBack | vggt_to_colmap.py:243-255 | image i of the parallel lists reads back from images.txt with id and camera i + 1, the i-th quaternion and translation, the base name of the i-th name and the i-th keypoints; images.bin, when it packs, holds the same images |
| Formats.CamerasFormatsAgree | vggt_to_colmap.py:212-305 | cameras.bin holds the cameras that cameras.txt reads back as |
| Formats.ImagesFormatsAgree | vggt_to_colmap.py:232-345 | images.bin holds the images that images.txt reads back as |
| Formats.PointsFormatsAgree | vggt_to_colmap.py:258-372 | points3D.bin holds the points that points3D.txt reads back as |
| Formats.WrittenTracksResolve | vggt_to_colmap.py:255-274 | every written track entry names a written image by id and one of its keypoints by index, and that keypoint names the point back |
| Formats.WrittenKeypointsTracked | vggt_to_colmap.py:255-274 | every written keypoint names a written point whose track holds that image and keypoint exactly once |
| Formats.WrittenModelConsistent | vggt_to_colmap.py:120-277 | the aggregator's output, written with the poses and names, gives files whose tracks and keypoints refer to each other one-to-one |

## Left out

- Floating point. Coordinates, confidences, scales, intrinsics and poses are
  reals, so the rounding of `y * scale_y`, `point * 100` and `1.2 * rgb` is
  not modelled. NaN confidences are not modelled either. Non-finite
  coordinates are a separate constructor, and the finiteness test is exact.
- How the text writers spell a number (`repr` of a float, `.1f`, `.4f`). The
  text model writes tokens carrying exact values. The header's mean is the
  exact quotient and is not rounded.
- The IEEE 754 bit pattern of a double. It is the parameter `f64`, and the
  binary round trips return `f64` of each value.
- The fixed comment lines of the text headers. They are modelled as constants
  and are not checked against anything.
- The UTF-8 encoding of image names. Names are byte strings from the start.
  A name containing a space would split into several text tokens; the text
  model keeps a name as one token.
- File I/O. This covers `open`, partial files left behind when `struct.pack`
  raises midway, and the `print` progress messages. The binary writers
  return `Failure` and no bytes instead.
- `load_model`, `process_images`, `main` and the VGGT network. The model
  starts from the prediction arrays.
- scipy's `Rotation.from_matrix`. Only the reorder of its quaternion (line
  95) is modelled, and the quaternions are inputs of the image writers.
- The parallel lists `quaternions`, `translations`, `image_points2D` and
  `image_names`. They are zipped into one list of images, so their lengths
  are assumed to match. The source counts images by `len(quaternions)` but
  averages over `len(image_points2D)`, and the model makes the two equal.
- Frames of different sizes. All prediction grids share one height and
  width, as in the batched NumPy arrays. The colour image of each frame may
  have its own size, at least 1×1.
- Colour values are 0-255 by construction. The `uint8` range of `<BBB` is
  therefore never exceeded, and its failure path is absent.
- Geometry.Quantize: keys are unbounded integers. The source's
  `.astype(int)` gives int64, whose conversion is undefined past
  |100·c| ≥ 2^63, and the float32 product overflows to infinity for huge
  coordinates. Far-apart points that the source might merge keep distinct
  keys here.
- Geometry.HashPointCollisions: CPython's 64-bit combine of the three
  element hashes into one tuple hash is not modelled. That combine maps
  about 2^186 small keys onto 2^64 values, so it merges further keys beyond
  the -1/-2 pairs. The lemma's "only if" direction therefore holds of the
  element hashes and not of `hash((x, y, z))` itself.
- AggregatorFacts.HigherPercentAcceptsSubset: holds only when the maximum
  confidence is non-negative or the higher percentage is at most 100.
  `NegativeMaximumReversesCutoff` shows an input outside that condition.
- AggregatorFacts.HigherPercentFewerPoints: the same condition, for the
  same reason.
- Aggregator.Aggregate: on the error path the contract says only which error
  is raised. What the source has printed before raising is not modelled.

## Findings

| source | as written | input that shows it | evidently intended | confidence | as-written member | corrected member |
|---|---|---|---|---|---|---|
| vggt_to_colmap.py:206-210 | `hash_point` returns Python's `hash` of the quantised tuple. CPython hashes the integer -1 to -2, so two keys that differ only by -1 versus -2 in a coordinate get the same hash, and the aggregator merges them into one point | points (-0.01, 0, 0) and (-0.02, 0, 0): keys (-1, 0, 0) and (-2, 0, 0), equal hashes | two samples share a point iff their quantised integer keys are equal | not executed | Geometry.HashPointMergesDistinctKeys | ReconstructionFacts.SamePointIffSameKey |

The rest of the model keys points by the quantised integer triple itself, as
`ReconstructionFacts.SamePointIffSameKey` states. The -1/-2 pair is the collision
the model exhibits. It is not the only one: the 64-bit tuple hash merges
further keys, which the model does not enumerate.

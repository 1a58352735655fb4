/**
 * The binary writers `write_colmap_cameras_bin`, `write_colmap_images_bin` and
 * `write_colmap_points3D_bin` as pure producers of the file contents, and
 * readers that take each file apart again. Every `struct.pack` call becomes a
 * packed field; one that does not fit its format makes the writer fail. The
 * bit pattern of each double is supplied by the parameter `f64`.
 */
module BinaryWriter {
  import opened Wrappers
  import opened Geometry
  import opened LittleEndian
  import opened Reconstruction
  import opened Colmap

  // ---------------------------------------------------------------------
  // Lists of records
  // ---------------------------------------------------------------------

  /** Packs xs[i], xs[i+1], ... one after the other, as the writers' loops
      do; `pack` is given each item with its index. */
  function PackEach<T>(pack: (nat, T) -> Result<seq<Byte>, PackError>, xs: seq<T>, i: nat)
    : (r: Result<seq<Byte>, PackError>)
    requires i <= |xs|
    ensures r.Success? <==> forall j :: i <= j < |xs| ==> pack(j, xs[j]).Success?
    decreases |xs| - i
  {
    if i == |xs| then Success([])
    else
      var first :- pack(i, xs[i]);
      var others :- PackEach(pack, xs, i + 1);
      Success(first + others)
  }

  /** The sum of size(j, xs[j]) over j from i on. */
  function SumBy<T>(size: (nat, T) -> nat, xs: seq<T>, i: nat): nat
    requires i <= |xs|
    decreases |xs| - i
  {
    if i == |xs| then 0 else size(i, xs[i]) + SumBy(size, xs, i + 1)
  }

  /** Packed items take the sum of their sizes. */
  lemma {:induction false} PackEachSize<T>(pack: (nat, T) -> Result<seq<Byte>, PackError>, size: (nat, T) -> nat,
                                           xs: seq<T>, i: nat)
    requires i <= |xs| && PackEach(pack, xs, i).Success?
    requires forall j :: i <= j < |xs| && pack(j, xs[j]).Success? ==> |pack(j, xs[j]).value| == size(j, xs[j])
    ensures |PackEach(pack, xs, i).value| == SumBy(size, xs, i)
    decreases |xs| - i
  {
    if i < |xs| {
      PackEachSize(pack, size, xs, i + 1);
    }
  }

  /** Items of one fixed size c take c bytes each. */
  lemma {:induction false} PackEachUniformSize<T>(pack: (nat, T) -> Result<seq<Byte>, PackError>, c: nat,
                                                  xs: seq<T>, i: nat)
    requires i <= |xs| && PackEach(pack, xs, i).Success?
    requires forall j :: i <= j < |xs| && pack(j, xs[j]).Success? ==> |pack(j, xs[j]).value| == c
    ensures |PackEach(pack, xs, i).value| == c * (|xs| - i)
    decreases |xs| - i
  {
    if i < |xs| {
      PackEachUniformSize(pack, c, xs, i + 1);
      assert c * (|xs| - i) == c + c * (|xs| - (i + 1));
    }
  }

  /** Reads n items one after the other with the given item reader. */
  function ReadMany<U>(read: seq<Byte> -> Option<(U, seq<Byte>)>, bs: seq<Byte>, n: nat)
    : (r: Option<(seq<U>, seq<Byte>)>)
    ensures r.Some? ==> |r.value.0| == n
    decreases n
  {
    if n == 0 then Some(([], bs))
    else
      var (first, rest) :- read(bs);
      var (others, tail) :- ReadMany(read, rest, n - 1);
      Some(([first] + others, tail))
  }

  /** When every item reads back as ys[j], so does the whole list. */
  lemma {:induction false} ReadPackedEach<T, U>(pack: (nat, T) -> Result<seq<Byte>, PackError>,
                                                read: seq<Byte> -> Option<(U, seq<Byte>)>,
                                                xs: seq<T>, ys: seq<U>, i: nat, rest: seq<Byte>)
    requires i <= |xs| == |ys| && PackEach(pack, xs, i).Success?
    requires forall j, tail :: i <= j < |xs| && pack(j, xs[j]).Success? ==>
               read(pack(j, xs[j]).value + tail) == Some((ys[j], tail))
    ensures ReadMany(read, PackEach(pack, xs, i).value + rest, |xs| - i) == Some((ys[i..], rest))
    decreases |xs| - i
  {
    if i == |xs| {
      assert PackEach(pack, xs, i).value + rest == rest;
      assert ys[i..] == [];
    } else {
      var first := pack(i, xs[i]).value;
      var others := PackEach(pack, xs, i + 1).value;
      ReadPackedEach(pack, read, xs, ys, i + 1, rest);
      AppendAssoc(first, others, rest);
      assert read(first + (others + rest)) == Some((ys[i], others + rest));
      SuffixCons(ys, i);
    }
  }

  lemma SuffixCons<T>(s: seq<T>, i: nat)
    requires i < |s|
    ensures s[i..] == [s[i]] + s[i + 1..]
  {
  }

  /** The 8-byte count at the head of each file and of each variable-length list. */
  function ReadCount(bs: seq<Byte>): Option<(nat, seq<Byte>)>
  {
    var (vs, rest) :- ReadFields(bs, [8]);
    Some((vs[0], rest))
  }

  function PackCount(n: nat): (r: Result<seq<Byte>, PackError>)
    ensures r.Success? <==> n < U64Limit
    ensures r.Success? ==> |r.value| == 8
  {
    Pow256Widths();
    assert AllFit([U64(n)]) <==> Fits(U64(n)) by {
      assert [U64(n)][0] == U64(n);
    }
    if n < U64Limit then PackedSize([U64(n)]); PackFields([U64(n)]) else PackFields([U64(n)])
  }

  lemma ReadPackedCount(n: nat, rest: seq<Byte>)
    requires PackCount(n).Success?
    ensures ReadCount(PackCount(n).value + rest) == Some((n, rest))
  {
    Pow256Widths();
    ReadPackedFields([U64(n)], rest);
    assert Widths([U64(n)]) == [8];
    assert Values([U64(n)]) == [n];
  }

  /** A whole file: the item count, the items, and nothing after them. */
  function DecodeFile<U>(read: seq<Byte> -> Option<(U, seq<Byte>)>, bs: seq<Byte>): Option<seq<U>>
  {
    var (n, rest) :- ReadCount(bs);
    var (items, tail) :- ReadMany(read, rest, n);
    if tail == [] then Some(items) else None
  }

  /** Writing the count and the items and reading the file back gives ys. */
  lemma ReadPackedFile<T, U>(pack: (nat, T) -> Result<seq<Byte>, PackError>,
                             read: seq<Byte> -> Option<(U, seq<Byte>)>, xs: seq<T>, ys: seq<U>)
    requires |xs| == |ys| && PackCount(|xs|).Success? && PackEach(pack, xs, 0).Success?
    requires forall j, tail :: 0 <= j < |xs| && pack(j, xs[j]).Success? ==>
               read(pack(j, xs[j]).value + tail) == Some((ys[j], tail))
    ensures DecodeFile(read, PackCount(|xs|).value + PackEach(pack, xs, 0).value) == Some(ys)
  {
    var body := PackEach(pack, xs, 0).value;
    ReadPackedCount(|xs|, body);
    ReadPackedEach(pack, read, xs, ys, 0, []);
    assert body + [] == body;
    assert ys[0..] == ys;
  }

  // ---------------------------------------------------------------------
  // cameras.bin
  // ---------------------------------------------------------------------

  /** camera id and model id (`<I`), width and height (`<Q`), fx fy cx cy (`<d`). */
  const CameraLayout: seq<nat> := [4, 4, 8, 8, 8, 8, 8, 8]

  function CameraFields(f64: real -> Bits64, id: int, k: Mat3, width: nat, height: nat): (fs: seq<Field>)
    ensures Widths(fs) == CameraLayout
  {
    [U32(id), U32(PinholeModelId), U64(width), U64(height),
     F64(f64(k[0][0])), F64(f64(k[1][1])), F64(f64(k[0][2])), F64(f64(k[1][2]))]
  }

  /** One camera: it packs exactly when its id fits 32 bits and the image size
      fits 64 bits, and then takes 56 bytes. */
  function CameraBytes(f64: real -> Bits64, id: int, k: Mat3, width: nat, height: nat)
    : (r: Result<seq<Byte>, PackError>)
    ensures r.Success? <==> 0 <= id < U32Limit && width < U64Limit && height < U64Limit
    ensures r.Success? ==> |r.value| == 56
  {
    CameraFit(f64, id, k, width, height);
    PackFields(CameraFields(f64, id, k, width, height))
  }

  lemma CameraFit(f64: real -> Bits64, id: int, k: Mat3, width: nat, height: nat)
    ensures AllFit(CameraFields(f64, id, k, width, height)) <==> 0 <= id < U32Limit && width < U64Limit && height < U64Limit
    ensures AllFit(CameraFields(f64, id, k, width, height)) ==> |PackFields(CameraFields(f64, id, k, width, height)).value| == 56
  {
    var fs := CameraFields(f64, id, k, width, height);
    Pow256Widths();
    assert Fits(fs[0]) <==> 0 <= id < U32Limit;
    assert Fits(fs[2]) <==> width < U64Limit;
    assert Fits(fs[3]) <==> height < U64Limit;
    assert Fits(fs[1]) && Fits(fs[4]) && Fits(fs[5]) && Fits(fs[6]) && Fits(fs[7]);
    if AllFit(fs) {
      PackedSize(fs);
    }
  }

  /** Camera i is written with id i + 1. */
  function CameraPacker(f64: real -> Bits64, width: nat, height: nat): (nat, Mat3) -> Result<seq<Byte>, PackError> {
    (i: nat, k: Mat3) => CameraBytes(f64, i + 1, k, width, height)
  }

  /** `write_colmap_cameras_bin`: the camera count, then one 56-byte record per
      intrinsic matrix. It fails exactly when an id, the width or the height
      does not fit its field, which never happens without cameras. */
  function CamerasBin(f64: real -> Bits64, ks: seq<Mat3>, width: nat, height: nat)
    : (r: Result<seq<Byte>, PackError>)
    ensures r.Success? <==> |ks| == 0 || (|ks| < U32Limit && width < U64Limit && height < U64Limit)
    ensures r.Success? ==> |r.value| == 8 + 56 * |ks|
  {
    var pack := CameraPacker(f64, width, height);
    CamerasFit(f64, ks, width, height);
    var count :- PackCount(|ks|);
    var body :- PackEach(pack, ks, 0);
    PackEachUniformSize(pack, 56, ks, 0);
    Success(count + body)
  }

  /** The ids 1 .. |ks| all fit 32 bits exactly when the last one does. */
  lemma CamerasFit(f64: real -> Bits64, ks: seq<Mat3>, width: nat, height: nat)
    ensures (forall j :: 0 <= j < |ks| ==> CameraPacker(f64, width, height)(j, ks[j]).Success?) <==>
            |ks| == 0 || (|ks| < U32Limit && width < U64Limit && height < U64Limit)
    ensures forall j :: 0 <= j < |ks| && CameraPacker(f64, width, height)(j, ks[j]).Success? ==>
              |CameraPacker(f64, width, height)(j, ks[j]).value| == 56
  {
    var pack := CameraPacker(f64, width, height);
    if |ks| > 0 {
      assert pack(|ks| - 1, ks[|ks| - 1]).Success? <==> |ks| < U32Limit && width < U64Limit && height < U64Limit;
    }
  }

  function ReadCamera(bs: seq<Byte>): Option<(CameraRecord<Bits64>, seq<Byte>)>
  {
    var (vs, rest) :- ReadFields(bs, CameraLayout);
    Pow256Widths();
    Some((CameraRecord(vs[0], vs[1], vs[2], vs[3], vs[4], vs[5], vs[6], vs[7]), rest))
  }

  function DecodeCamerasBin(bs: seq<Byte>): Option<seq<CameraRecord<Bits64>>> {
    DecodeFile(ReadCamera, bs)
  }

  lemma ReadCameraBytes(f64: real -> Bits64, id: int, k: Mat3, width: nat, height: nat, rest: seq<Byte>)
    requires CameraBytes(f64, id, k, width, height).Success?
    ensures id >= 0
    ensures ReadCamera(CameraBytes(f64, id, k, width, height).value + rest) ==
              Some((MapCamera(f64, PinholeRecord(id, k, width, height)), rest))
  {
    ReadPackedFields(CameraFields(f64, id, k, width, height), rest);
  }

  /** cameras.bin reads back as the camera records of the model, each double
      as the bit pattern `f64` gives it. */
  lemma CamerasBinRoundTrip(f64: real -> Bits64, ks: seq<Mat3>, width: nat, height: nat)
    requires CamerasBin(f64, ks, width, height).Success?
    ensures DecodeCamerasBin(CamerasBin(f64, ks, width, height).value) ==
              Some(MapCameras(f64, CameraRecords(ks, width, height)))
  {
    var ys := MapCameras(f64, CameraRecords(ks, width, height));
    ReadCamerasEach(f64, ks, width, height);
    ReadPackedFile(CameraPacker(f64, width, height), ReadCamera, ks, ys);
  }

  lemma ReadCamerasEach(f64: real -> Bits64, ks: seq<Mat3>, width: nat, height: nat)
    ensures forall j, tail :: 0 <= j < |ks| && CameraPacker(f64, width, height)(j, ks[j]).Success? ==>
              ReadCamera(CameraPacker(f64, width, height)(j, ks[j]).value + tail) == Some((MapCameras(f64, CameraRecords(ks, width, height))[j], tail))
  {
    forall j, tail | 0 <= j < |ks| && CameraPacker(f64, width, height)(j, ks[j]).Success?
      ensures ReadCamera(CameraPacker(f64, width, height)(j, ks[j]).value + tail) == Some((MapCameras(f64, CameraRecords(ks, width, height))[j], tail))
    {
      assert MapCameras(f64, CameraRecords(ks, width, height))[j] == MapCamera(f64, PinholeRecord(j + 1, ks[j], width, height));
      ReadCameraBytes(f64, j + 1, ks[j], width, height, tail);
    }
  }

  // ---------------------------------------------------------------------
  // images.bin
  // ---------------------------------------------------------------------

  /** x and y (`<dd`), then the 1-based point id (`<Q`). */
  const KeypointLayout: seq<nat> := [8, 8, 8]

  function KeypointFields(f64: real -> Bits64, kp: Keypoint): (fs: seq<Field>)
    ensures Widths(fs) == KeypointLayout
  {
    [F64(f64(kp.x as real)), F64(f64(kp.y as real)), U64(kp.pointId + 1)]
  }

  /** One keypoint: it packs exactly when its 1-based point id fits 64 bits,
      and then takes 24 bytes. */
  function KeypointBytes(f64: real -> Bits64, kp: Keypoint): (r: Result<seq<Byte>, PackError>)
    ensures r.Success? <==> kp.pointId + 1 < U64Limit
    ensures r.Success? ==> |r.value| == 24
  {
    KeypointFit(f64, kp);
    PackFields(KeypointFields(f64, kp))
  }

  lemma KeypointFit(f64: real -> Bits64, kp: Keypoint)
    ensures AllFit(KeypointFields(f64, kp)) <==> kp.pointId + 1 < U64Limit
    ensures AllFit(KeypointFields(f64, kp)) ==> |PackFields(KeypointFields(f64, kp)).value| == 24
  {
    var fs := KeypointFields(f64, kp);
    Pow256Widths();
    assert Fits(fs[0]) && Fits(fs[1]);
    assert Fits(fs[2]) <==> kp.pointId + 1 < U64Limit;
    if AllFit(fs) {
      PackedSize(fs);
    }
  }

  function KeypointPacker(f64: real -> Bits64): (nat, Keypoint) -> Result<seq<Byte>, PackError> {
    (k: nat, kp: Keypoint) => KeypointBytes(f64, kp)
  }

  /** image id (`<I`), qw qx qy qz and tx ty tz (`<d`), camera id and the
      length of the name (`<I`). */
  const ImageHeadLayout: seq<nat> := [4, 8, 8, 8, 8, 8, 8, 8, 4, 4]

  function ImageHeadFields(f64: real -> Bits64, id: int, q: Quat, t: Vec3, nameLength: nat): (fs: seq<Field>)
    ensures Widths(fs) == ImageHeadLayout
  {
    [U32(id), F64(f64(q.w)), F64(f64(q.x)), F64(f64(q.y)), F64(f64(q.z)),
     F64(f64(t.x)), F64(f64(t.y)), F64(f64(t.z)), U32(id), U32(nameLength)]
  }

  function ImageHeadBytes(f64: real -> Bits64, id: int, q: Quat, t: Vec3, nameLength: nat)
    : (r: Result<seq<Byte>, PackError>)
    ensures r.Success? <==> 0 <= id < U32Limit && nameLength < U32Limit
    ensures r.Success? ==> |r.value| == 68
  {
    ImageHeadFit(f64, id, q, t, nameLength);
    PackFields(ImageHeadFields(f64, id, q, t, nameLength))
  }

  lemma ImageHeadFit(f64: real -> Bits64, id: int, q: Quat, t: Vec3, nameLength: nat)
    ensures AllFit(ImageHeadFields(f64, id, q, t, nameLength)) <==> 0 <= id < U32Limit && nameLength < U32Limit
    ensures AllFit(ImageHeadFields(f64, id, q, t, nameLength)) ==> |PackFields(ImageHeadFields(f64, id, q, t, nameLength)).value| == 68
  {
    var fs := ImageHeadFields(f64, id, q, t, nameLength);
    Pow256Widths();
    assert Fits(fs[0]) <==> 0 <= id < U32Limit;
    assert Fits(fs[9]) <==> nameLength < U32Limit;
    assert Fits(fs[1]) && Fits(fs[2]) && Fits(fs[3]) && Fits(fs[4]) && Fits(fs[5]) && Fits(fs[6]) && Fits(fs[7]);
    assert Fits(fs[8]) <==> Fits(fs[0]);
    if AllFit(fs) {
      PackedSize(fs);
    }
  }

  /** Every 1-based point id of the keypoints fits 64 bits. */
  predicate PointIdsFit(kps: seq<Keypoint>) {
    forall k :: 0 <= k < |kps| ==> kps[k].pointId + 1 < U64Limit
  }

  /** The record of image i packs: its id, name length, keypoint count and
      every 1-based point id fit their fields. */
  predicate ImageFits(i: nat, im: ImageInput) {
    i + 1 < U32Limit && |BaseName(im.path)| < U32Limit && |im.keypoints| < U64Limit && PointIdsFit(im.keypoints)
  }

  /** The size of image i's record: 76 + name length + 24 * keypoints. */
  function ImageSize(i: nat, im: ImageInput): nat {
    76 + |BaseName(im.path)| + 24 * |im.keypoints|
  }

  /** Image i: id and camera id i + 1, pose, base name, keypoint count and
      keypoints, in the order the loop packs them. */
  function ImageBytes(f64: real -> Bits64, i: nat, im: ImageInput): (r: Result<seq<Byte>, PackError>)
    ensures r.Success? <==> ImageFits(i, im)
    ensures r.Success? ==> |r.value| == ImageSize(i, im)
  {
    var name := BaseName(im.path);
    var pack := KeypointPacker(f64);
    var head :- ImageHeadBytes(f64, i + 1, im.q, im.t, |name|);
    var count :- PackCount(|im.keypoints|);
    var points :- PackEach(pack, im.keypoints, 0);
    PackEachUniformSize(pack, 24, im.keypoints, 0);
    Success(head + (name + (count + points)))
  }

  function ImagePacker(f64: real -> Bits64): (nat, ImageInput) -> Result<seq<Byte>, PackError> {
    (i: nat, im: ImageInput) => ImageBytes(f64, i, im)
  }

  /** `write_colmap_images_bin` over the zipped image lists: the image count,
      then one record per image. It fails exactly when some image's record does
      not pack, or the count does not fit, and otherwise takes 8 bytes plus
      each image's size. */
  function ImagesBin(f64: real -> Bits64, images: seq<ImageInput>): (r: Result<seq<Byte>, PackError>)
    ensures r.Success? <==> |images| < U64Limit && forall i :: 0 <= i < |images| ==> ImageFits(i, images[i])
    ensures r.Success? ==> |r.value| == 8 + SumBy(ImageSize, images, 0)
  {
    var pack := ImagePacker(f64);
    var count :- PackCount(|images|);
    var body :- PackEach(pack, images, 0);
    PackEachSize(pack, ImageSize, images, 0);
    Success(count + body)
  }

  function ReadKeypoint(bs: seq<Byte>): Option<(KeypointRecord<Bits64>, seq<Byte>)>
  {
    var (vs, rest) :- ReadFields(bs, KeypointLayout);
    Pow256Widths();
    Some((KeypointRecord(vs[0], vs[1], vs[2]), rest))
  }

  function ReadImage(bs: seq<Byte>): Option<(ImageRecord<Bits64>, seq<Byte>)>
  {
    var (head, afterHead) :- ReadFields(bs, ImageHeadLayout);
    var (name, afterName) :- Take(afterHead, head[9]);
    var (n, afterCount) :- ReadCount(afterName);
    var (points, rest) :- ReadMany(ReadKeypoint, afterCount, n);
    Pow256Widths();
    Some((ImageRecord(head[0], (head[1], head[2], head[3], head[4]), (head[5], head[6], head[7]), head[8],
                      name, points), rest))
  }

  function DecodeImagesBin(bs: seq<Byte>): Option<seq<ImageRecord<Bits64>>> {
    DecodeFile(ReadImage, bs)
  }

  lemma ReadKeypointBytes(f64: real -> Bits64, kp: Keypoint, rest: seq<Byte>)
    requires KeypointBytes(f64, kp).Success?
    ensures ReadKeypoint(KeypointBytes(f64, kp).value + rest) ==
              Some((MapKeypoint(f64, KeypointRecord(kp.x as real, kp.y as real, kp.pointId + 1)), rest))
  {
    ReadPackedFields(KeypointFields(f64, kp), rest);
  }

  /** The keypoints of one image read back as their records. */
  lemma ReadKeypointsBytes(f64: real -> Bits64, kps: seq<Keypoint>, rest: seq<Byte>)
    requires PackEach(KeypointPacker(f64), kps, 0).Success?
    ensures ReadMany(ReadKeypoint, PackEach(KeypointPacker(f64), kps, 0).value + rest, |kps|) ==
              Some((MapKeypoints(f64, KeypointRecords(kps)), rest))
  {
    var ys := MapKeypoints(f64, KeypointRecords(kps));
    ReadKeypointsEach(f64, kps);
    ReadPackedEach(KeypointPacker(f64), ReadKeypoint, kps, ys, 0, rest);
    assert ys[0..] == ys;
  }

  lemma ReadKeypointsEach(f64: real -> Bits64, kps: seq<Keypoint>)
    ensures forall k, tail :: 0 <= k < |kps| && KeypointPacker(f64)(k, kps[k]).Success? ==>
              ReadKeypoint(KeypointPacker(f64)(k, kps[k]).value + tail) ==
                Some((MapKeypoints(f64, KeypointRecords(kps))[k], tail))
  {
    forall k, tail | 0 <= k < |kps| && KeypointPacker(f64)(k, kps[k]).Success?
      ensures ReadKeypoint(KeypointPacker(f64)(k, kps[k]).value + tail) ==
                Some((MapKeypoints(f64, KeypointRecords(kps))[k], tail))
    {
      ReadKeypointBytes(f64, kps[k], tail);
    }
  }

  /** One image record reads back as the image's record. */
  lemma ReadImageBytes(f64: real -> Bits64, i: nat, im: ImageInput, rest: seq<Byte>)
    requires ImageBytes(f64, i, im).Success?
    ensures ReadImage(ImageBytes(f64, i, im).value + rest) == Some((MapImage(f64, ImageRecordOf(i, im)), rest))
  {
    var name := BaseName(im.path);
    var fs := ImageHeadFields(f64, i + 1, im.q, im.t, |name|);
    var head := ImageHeadBytes(f64, i + 1, im.q, im.t, |name|).value;
    var count := PackCount(|im.keypoints|).value;
    var points := PackEach(KeypointPacker(f64), im.keypoints, 0).value;
    var afterCount := points + rest;
    var afterName := count + afterCount;
    var afterHead := name + afterName;
    assert ImageBytes(f64, i, im).value + rest == head + afterHead by {
      assert ImageBytes(f64, i, im).value == head + (name + (count + points));
      AppendAssoc(head, name + (count + points), rest);
      AppendAssoc(name, count + points, rest);
      AppendAssoc(count, points, rest);
    }
    assert ReadFields(head + afterHead, ImageHeadLayout) == Some((Values(fs), afterHead)) by {
      assert head == PackFields(fs).value;
      ReadPackedFields(fs, afterHead);
    }
    ReadTaken(name, afterName);
    ReadPackedCount(|im.keypoints|, afterCount);
    ReadKeypointsBytes(f64, im.keypoints, rest);
  }

  /** images.bin reads back as the image records of the model. */
  lemma ImagesBinRoundTrip(f64: real -> Bits64, images: seq<ImageInput>)
    requires ImagesBin(f64, images).Success?
    ensures DecodeImagesBin(ImagesBin(f64, images).value) == Some(MapImages(f64, ImageRecords(images)))
  {
    var ys := MapImages(f64, ImageRecords(images));
    ReadImagesEach(f64, images);
    ReadPackedFile(ImagePacker(f64), ReadImage, images, ys);
  }

  lemma ReadImagesEach(f64: real -> Bits64, images: seq<ImageInput>)
    ensures forall j, tail :: 0 <= j < |images| && ImagePacker(f64)(j, images[j]).Success? ==>
              ReadImage(ImagePacker(f64)(j, images[j]).value + tail) == Some((MapImages(f64, ImageRecords(images))[j], tail))
  {
    forall j, tail | 0 <= j < |images| && ImagePacker(f64)(j, images[j]).Success?
      ensures ReadImage(ImagePacker(f64)(j, images[j]).value + tail) == Some((MapImages(f64, ImageRecords(images))[j], tail))
    {
      ReadImageBytes(f64, j, images[j], tail);
    }
  }

  // ---------------------------------------------------------------------
  // points3D.bin
  // ---------------------------------------------------------------------

  /** 1-based image id and keypoint index (`<II`). */
  const TrackLayout: seq<nat> := [4, 4]

  function TrackFields(e: TrackEntry): (fs: seq<Field>)
    ensures Widths(fs) == TrackLayout
  {
    [U32(e.img + 1), U32(e.kp)]
  }

  /** One track entry: it packs exactly when the 1-based image id and the
      keypoint index fit 32 bits, and then takes 8 bytes. */
  function TrackBytes(e: TrackEntry): (r: Result<seq<Byte>, PackError>)
    ensures r.Success? <==> e.img + 1 < U32Limit && e.kp < U32Limit
    ensures r.Success? ==> |r.value| == 8
  {
    TrackFit(e);
    PackFields(TrackFields(e))
  }

  lemma TrackFit(e: TrackEntry)
    ensures AllFit(TrackFields(e)) <==> e.img + 1 < U32Limit && e.kp < U32Limit
    ensures AllFit(TrackFields(e)) ==> |PackFields(TrackFields(e)).value| == 8
  {
    var fs := TrackFields(e);
    Pow256Widths();
    assert Fits(fs[0]) <==> e.img + 1 < U32Limit;
    assert Fits(fs[1]) <==> e.kp < U32Limit;
    if AllFit(fs) {
      PackedSize(fs);
    }
  }

  function TrackPacker(): (nat, TrackEntry) -> Result<seq<Byte>, PackError> {
    (j: nat, e: TrackEntry) => TrackBytes(e)
  }

  /** point id (`<Q`), x y z (`<ddd`), r g b (`<BBB`), error (`<d`) and the
      track length (`<Q`). */
  const PointHeadLayout: seq<nat> := [8, 8, 8, 8, 1, 1, 1, 8, 8]

  function PointHeadFields(f64: real -> Bits64, p: Point3D): (fs: seq<Field>)
    ensures Widths(fs) == PointHeadLayout
  {
    [U64(p.id + 1), F64(f64(p.xyz.x)), F64(f64(p.xyz.y)), F64(f64(p.xyz.z)),
     U8(p.rgb.r), U8(p.rgb.g), U8(p.rgb.b), F64(f64(p.error)), U64(|p.track|)]
  }

  function PointHeadBytes(f64: real -> Bits64, p: Point3D): (r: Result<seq<Byte>, PackError>)
    ensures r.Success? <==> p.id + 1 < U64Limit && |p.track| < U64Limit
    ensures r.Success? ==> |r.value| == 51
  {
    PointHeadFit(f64, p);
    PackFields(PointHeadFields(f64, p))
  }

  lemma PointHeadFit(f64: real -> Bits64, p: Point3D)
    ensures AllFit(PointHeadFields(f64, p)) <==> p.id + 1 < U64Limit && |p.track| < U64Limit
    ensures AllFit(PointHeadFields(f64, p)) ==> |PackFields(PointHeadFields(f64, p)).value| == 51
  {
    var fs := PointHeadFields(f64, p);
    Pow256Widths();
    assert Fits(fs[0]) <==> p.id + 1 < U64Limit;
    assert Fits(fs[8]) <==> |p.track| < U64Limit;
    assert Fits(fs[1]) && Fits(fs[2]) && Fits(fs[3]) && Fits(fs[4]) && Fits(fs[5]) && Fits(fs[6]) && Fits(fs[7]);
    if AllFit(fs) {
      PackedSize(fs);
    }
  }

  /** The record of a point packs: its 1-based id, its track length and every
      track entry fit their fields. */
  predicate PointFits(p: Point3D) {
    && p.id + 1 < U64Limit && |p.track| < U64Limit
    && forall j :: 0 <= j < |p.track| ==> p.track[j].img + 1 < U32Limit && p.track[j].kp < U32Limit
  }

  /** The size of a point's record: 51 + 8 * track length. */
  function PointSize(i: nat, p: Point3D): nat {
    51 + 8 * |p.track|
  }

  /** One point: id, position, colour, error, track length and track, in the
      order the loop packs them. */
  function PointBytes(f64: real -> Bits64, p: Point3D): (r: Result<seq<Byte>, PackError>)
    ensures r.Success? <==> PointFits(p)
    ensures r.Success? ==> |r.value| == PointSize(0, p)
  {
    var head :- PointHeadBytes(f64, p);
    var track :- PackEach(TrackPacker(), p.track, 0);
    PackEachUniformSize(TrackPacker(), 8, p.track, 0);
    Success(head + track)
  }

  function PointPacker(f64: real -> Bits64): (nat, Point3D) -> Result<seq<Byte>, PackError> {
    (i: nat, p: Point3D) => PointBytes(f64, p)
  }

  /** `write_colmap_points3D_bin`: the point count, then one record per point.
      It fails exactly when some point's record does not pack, or the count does
      not fit, and otherwise takes 8 bytes plus each point's 51 + 8 * track
      length. */
  function PointsBin(f64: real -> Bits64, ps: seq<Point3D>): (r: Result<seq<Byte>, PackError>)
    ensures r.Success? <==> |ps| < U64Limit && forall i :: 0 <= i < |ps| ==> PointFits(ps[i])
    ensures r.Success? ==> |r.value| == 8 + SumBy(PointSize, ps, 0)
  {
    var pack := PointPacker(f64);
    var count :- PackCount(|ps|);
    var body :- PackEach(pack, ps, 0);
    PackEachSize(pack, PointSize, ps, 0);
    Success(count + body)
  }

  function ReadTrack(bs: seq<Byte>): Option<(TrackRecord, seq<Byte>)>
  {
    var (vs, rest) :- ReadFields(bs, TrackLayout);
    Some((TrackRecord(vs[0], vs[1]), rest))
  }

  function ReadPoint(bs: seq<Byte>): Option<(PointRecord<Bits64>, seq<Byte>)>
  {
    var (head, afterHead) :- ReadFields(bs, PointHeadLayout);
    var (track, rest) :- ReadMany(ReadTrack, afterHead, head[8]);
    Pow256Widths();
    Some((PointRecord(head[0], (head[1], head[2], head[3]), Rgb(head[4], head[5], head[6]), head[7], track), rest))
  }

  function DecodePointsBin(bs: seq<Byte>): Option<seq<PointRecord<Bits64>>> {
    DecodeFile(ReadPoint, bs)
  }

  lemma ReadTrackBytes(e: TrackEntry, rest: seq<Byte>)
    requires TrackBytes(e).Success?
    ensures ReadTrack(TrackBytes(e).value + rest) == Some((TrackRecord(e.img + 1, e.kp), rest))
  {
    ReadPackedFields(TrackFields(e), rest);
  }

  lemma ReadTrackEntries(track: seq<TrackEntry>, rest: seq<Byte>)
    requires PackEach(TrackPacker(), track, 0).Success?
    ensures ReadMany(ReadTrack, PackEach(TrackPacker(), track, 0).value + rest, |track|) ==
              Some((TrackRecords(track), rest))
  {
    var ys := TrackRecords(track);
    ReadTracksEach(track);
    ReadPackedEach(TrackPacker(), ReadTrack, track, ys, 0, rest);
    assert ys[0..] == ys;
  }

  lemma ReadTracksEach(track: seq<TrackEntry>)
    ensures forall j, tail :: 0 <= j < |track| && TrackPacker()(j, track[j]).Success? ==>
              ReadTrack(TrackPacker()(j, track[j]).value + tail) == Some((TrackRecords(track)[j], tail))
  {
    forall j, tail | 0 <= j < |track| && TrackPacker()(j, track[j]).Success?
      ensures ReadTrack(TrackPacker()(j, track[j]).value + tail) == Some((TrackRecords(track)[j], tail))
    {
      ReadTrackBytes(track[j], tail);
    }
  }

  /** One point record reads back as the point's record. */
  lemma ReadPointBytes(f64: real -> Bits64, p: Point3D, rest: seq<Byte>)
    requires PointBytes(f64, p).Success?
    ensures ReadPoint(PointBytes(f64, p).value + rest) == Some((MapPoint(f64, PointRecordOf(p)), rest))
  {
    var fs := PointHeadFields(f64, p);
    var head := PointHeadBytes(f64, p).value;
    var track := PackEach(TrackPacker(), p.track, 0).value;
    assert PointBytes(f64, p).value + rest == head + (track + rest) by {
      AppendAssoc(head, track, rest);
    }
    assert ReadFields(head + (track + rest), PointHeadLayout) == Some((Values(fs), track + rest)) by {
      assert head == PackFields(fs).value;
      ReadPackedFields(fs, track + rest);
    }
    ReadTrackEntries(p.track, rest);
  }

  /** points3D.bin reads back as the point records of the model. */
  lemma PointsBinRoundTrip(f64: real -> Bits64, ps: seq<Point3D>)
    requires PointsBin(f64, ps).Success?
    ensures DecodePointsBin(PointsBin(f64, ps).value) == Some(MapPoints(f64, PointRecords(ps)))
  {
    var ys := MapPoints(f64, PointRecords(ps));
    ReadPointsEach(f64, ps);
    ReadPackedFile(PointPacker(f64), ReadPoint, ps, ys);
  }

  lemma ReadPointsEach(f64: real -> Bits64, ps: seq<Point3D>)
    ensures forall j, tail :: 0 <= j < |ps| && PointPacker(f64)(j, ps[j]).Success? ==>
              ReadPoint(PointPacker(f64)(j, ps[j]).value + tail) == Some((MapPoints(f64, PointRecords(ps))[j], tail))
  {
    forall j, tail | 0 <= j < |ps| && PointPacker(f64)(j, ps[j]).Success?
      ensures ReadPoint(PointPacker(f64)(j, ps[j]).value + tail) == Some((MapPoints(f64, PointRecords(ps))[j], tail))
    {
      ReadPointBytes(f64, ps[j], tail);
    }
  }
}

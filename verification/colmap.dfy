/**
 * The content of a COLMAP sparse model as the writers lay it out: the
 * records of cameras, images and points with COLMAP's 1-based ids, and the
 * inputs the writers take from the rest of the pipeline. Floating-point fields
 * are a type parameter: reals where the text form prints them, 64-bit patterns
 * where the binary form packs them.
 */
module Colmap {
  import opened Geometry
  import opened Reconstruction

  /** COLMAP's model id of the PINHOLE camera (fx, fy, cx, cy). */
  const PinholeModelId: nat := 1

  /** The byte value of '/', the path separator `os.path.basename` splits on. */
  const Slash: Byte := 47

  // ---------------------------------------------------------------------
  // Writer inputs
  // ---------------------------------------------------------------------

  predicate IsMat3(k: seq<seq<real>>) {
    |k| == 3 && |k[0]| == 3 && |k[1]| == 3 && |k[2]| == 3
  }

  /** A 3 x 3 intrinsic matrix, row by row. */
  type Mat3 = k: seq<seq<real>> | IsMat3(k) witness [[0.0, 0.0, 0.0], [0.0, 0.0, 0.0], [0.0, 0.0, 0.0]]

  /** A rotation in COLMAP's (w, x, y, z) order. */
  datatype Quat = Quat(w: real, x: real, y: real, z: real)

  /** scipy's `as_quat` order (x, y, z, w) moved to COLMAP's (w, x, y, z). */
  function FromScipyOrder(xyzw: seq<real>): (q: Quat)
    requires |xyzw| == 4
  {
    Quat(xyzw[3], xyzw[0], xyzw[1], xyzw[2])
  }

  function ToScipyOrder(q: Quat): (xyzw: seq<real>)
    ensures |xyzw| == 4
  {
    [q.x, q.y, q.z, q.w]
  }

  /** The reorder loses nothing: each order converts back to the other. */
  lemma ScipyOrderRoundTrip(xyzw: seq<real>, q: Quat)
    requires |xyzw| == 4
    ensures ToScipyOrder(FromScipyOrder(xyzw)) == xyzw
    ensures FromScipyOrder(ToScipyOrder(q)) == q
  {
    var s := ToScipyOrder(FromScipyOrder(xyzw));
    assert forall i :: 0 <= i < 4 ==> s[i] == xyzw[i];
  }

  // ---------------------------------------------------------------------
  // File names
  // ---------------------------------------------------------------------

  /** `os.path.basename` on a POSIX path: what follows the last '/'. The three
      ensures pin the result down: the longest suffix without a separator. */
  function BaseName(path: seq<Byte>): (name: seq<Byte>)
    ensures Slash !in name
    ensures |name| <= |path| && name == path[|path| - |name|..]
    ensures |name| < |path| ==> path[|path| - |name| - 1] == Slash
  {
    if |path| == 0 then []
    else if path[|path| - 1] == Slash then []
    else
      var name := BaseName(path[..|path| - 1]) + [path[|path| - 1]];
      assert path[..|path| - 1] + [path[|path| - 1]] == path;
      name
  }

  /** Splitting a path at its last separator: the base name is what follows. */
  lemma BaseNameOfJoin(dir: seq<Byte>, name: seq<Byte>)
    requires Slash !in name
    ensures BaseName(dir + [Slash] + name) == name
  {
    var path := dir + [Slash] + name;
    assert path[|path| - |name|..] == name;
    assert path[|path| - |name| - 1] == Slash;
  }

  /** A path without a separator is its own base name. */
  lemma BaseNameOfBareName(name: seq<Byte>)
    requires Slash !in name
    ensures BaseName(name) == name
  {
  }

  // ---------------------------------------------------------------------
  // What the files hold
  // ---------------------------------------------------------------------

  datatype CameraRecord<F> = CameraRecord(id: nat, model: nat, width: nat, height: nat, fx: F, fy: F, cx: F, cy: F)

  /** A keypoint as written: position and the 1-based id of its 3D point. */
  datatype KeypointRecord<F> = KeypointRecord(x: F, y: F, point3DId: nat)

  datatype ImageRecord<F> = ImageRecord(id: nat, q: (F, F, F, F), t: (F, F, F), cameraId: nat, name: seq<Byte>,
                                        points: seq<KeypointRecord<F>>)

  /** A track entry as written: 1-based image id, 0-based keypoint index. */
  datatype TrackRecord = TrackRecord(imageId: nat, point2DIdx: nat)

  datatype PointRecord<F> = PointRecord(id: nat, xyz: (F, F, F), rgb: Rgb, error: F, track: seq<TrackRecord>)

  /** The cameras of the model: camera i gets id i + 1, the PINHOLE model, the
      common image size, and fx, fy, cx, cy read from its intrinsic matrix. */
  function CameraRecords(ks: seq<Mat3>, width: nat, height: nat): (rs: seq<CameraRecord<real>>)
    ensures |rs| == |ks|
  {
    seq(|ks|, i requires 0 <= i < |ks| => PinholeRecord(i + 1, ks[i], width, height))
  }

  /** A PINHOLE camera record with fx, fy, cx, cy read from the intrinsic
      matrix k: k[0][0], k[1][1], k[0][2] and k[1][2]. */
  function PinholeRecord(id: nat, k: Mat3, width: nat, height: nat): CameraRecord<real>
  {
    CameraRecord(id, PinholeModelId, width, height, k[0][0], k[1][1], k[0][2], k[1][2])
  }

  function KeypointRecords(kps: seq<Keypoint>): (rs: seq<KeypointRecord<real>>)
    ensures |rs| == |kps|
  {
    seq(|kps|, k requires 0 <= k < |kps| => KeypointRecord(kps[k].x as real, kps[k].y as real, kps[k].pointId + 1))
  }

  /** What the images writers take for one image from their four parallel
      lists: the pose, the keypoints and the path of the image file. */
  datatype ImageInput = ImageInput(q: Quat, t: Vec3, keypoints: seq<Keypoint>, path: seq<Byte>)

  /** The writers index the translations, keypoint lists and names by the
      position in the quaternion list, so those lists must be at least as long. */
  function Zip(qs: seq<Quat>, ts: seq<Vec3>, kps: seq<seq<Keypoint>>, names: seq<seq<Byte>>): (zs: seq<ImageInput>)
    requires |ts| >= |qs| && |kps| >= |qs| && |names| >= |qs|
    ensures |zs| == |qs|
    ensures forall i :: 0 <= i < |qs| ==> zs[i] == ImageInput(qs[i], ts[i], kps[i], names[i])
  {
    seq(|qs|, i requires 0 <= i < |qs| => ImageInput(qs[i], ts[i], kps[i], names[i]))
  }

  /** The images of the model: image i gets id i + 1, its own camera i + 1, its
      pose, the base name of its path and its keypoints with 1-based point ids. */
  function ImageRecords(images: seq<ImageInput>): (rs: seq<ImageRecord<real>>)
    ensures |rs| == |images|
  {
    seq(|images|, i requires 0 <= i < |images| => ImageRecordOf(i, images[i]))
  }

  function ImageRecordOf(i: nat, im: ImageInput): ImageRecord<real> {
    ImageRecord(i + 1, (im.q.w, im.q.x, im.q.y, im.q.z), (im.t.x, im.t.y, im.t.z), i + 1, BaseName(im.path),
                KeypointRecords(im.keypoints))
  }

  function TrackRecords(track: seq<TrackEntry>): (rs: seq<TrackRecord>)
    ensures |rs| == |track|
  {
    seq(|track|, j requires 0 <= j < |track| => TrackRecord(track[j].img + 1, track[j].kp))
  }

  /** The points of the model: 1-based ids, 1-based image ids in the tracks,
      keypoint indices unchanged. */
  function PointRecords(ps: seq<Point3D>): (rs: seq<PointRecord<real>>)
    ensures |rs| == |ps|
  {
    seq(|ps|, i requires 0 <= i < |ps| => PointRecordOf(ps[i]))
  }

  function PointRecordOf(p: Point3D): PointRecord<real> {
    PointRecord(p.id + 1, (p.xyz.x, p.xyz.y, p.xyz.z), p.rgb, p.error, TrackRecords(p.track))
  }

  // ---------------------------------------------------------------------
  // Mapping the floating-point fields
  // ---------------------------------------------------------------------

  function MapCamera<F, G>(f: F -> G, c: CameraRecord<F>): CameraRecord<G> {
    CameraRecord(c.id, c.model, c.width, c.height, f(c.fx), f(c.fy), f(c.cx), f(c.cy))
  }

  function MapKeypoint<F, G>(f: F -> G, k: KeypointRecord<F>): KeypointRecord<G> {
    KeypointRecord(f(k.x), f(k.y), k.point3DId)
  }

  function MapImage<F, G>(f: F -> G, r: ImageRecord<F>): ImageRecord<G> {
    ImageRecord(r.id, (f(r.q.0), f(r.q.1), f(r.q.2), f(r.q.3)), (f(r.t.0), f(r.t.1), f(r.t.2)), r.cameraId, r.name,
                MapKeypoints(f, r.points))
  }

  function MapKeypoints<F, G>(f: F -> G, ks: seq<KeypointRecord<F>>): seq<KeypointRecord<G>> {
    seq(|ks|, k requires 0 <= k < |ks| => MapKeypoint(f, ks[k]))
  }

  function MapPoint<F, G>(f: F -> G, p: PointRecord<F>): PointRecord<G> {
    PointRecord(p.id, (f(p.xyz.0), f(p.xyz.1), f(p.xyz.2)), p.rgb, f(p.error), p.track)
  }

  function MapCameras<F, G>(f: F -> G, cs: seq<CameraRecord<F>>): seq<CameraRecord<G>> {
    seq(|cs|, i requires 0 <= i < |cs| => MapCamera(f, cs[i]))
  }

  function MapImages<F, G>(f: F -> G, rs: seq<ImageRecord<F>>): seq<ImageRecord<G>> {
    seq(|rs|, i requires 0 <= i < |rs| => MapImage(f, rs[i]))
  }

  function MapPoints<F, G>(f: F -> G, ps: seq<PointRecord<F>>): seq<PointRecord<G>> {
    seq(|ps|, i requires 0 <= i < |ps| => MapPoint(f, ps[i]))
  }
}

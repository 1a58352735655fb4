/**
 * The COLMAP text writers (`cameras.txt`, `images.txt`, `points3D.txt`) as
 * sequences of lines of tokens, and readers that take those lines back to the
 * records of the model. How a number is spelled in decimal is not modelled: a
 * token carries the value itself, and a reader accepts an integer token wherever
 * a double is expected, as COLMAP's reader does.
 */
module TextWriter {
  import opened Wrappers
  import opened Geometry
  import opened Reconstruction
  import opened Colmap

  /** One whitespace-separated field of a data line. */
  datatype Token = Int(i: int) | Float(f: real) | Word(w: string) | Name(bytes: seq<Byte>)

  /** A line of a text file: fixed commentary, the header line that states the
      number of records (and, for images and points, a mean over them), or a
      line of data. */
  datatype Line =
    | Comment(text: string)
    | Count(what: string, n: nat)
    | CountAndMean(what: string, n: nat, meanOf: string, mean: real, decimals: nat)
    | Data(tokens: seq<Token>)

  /** The fixed commentary at the head of each file, without its '#'. */
  const CamerasComments: seq<Line> := [
    Comment(" Camera list with one line of data per camera:"),
    Comment("   CAMERA_ID, MODEL, WIDTH, HEIGHT, PARAMS[]")]
  const ImagesComments: seq<Line> := [
    Comment(" Image list with two lines of data per image:"),
    Comment("   IMAGE_ID, QW, QX, QY, QZ, TX, TY, TZ, CAMERA_ID, NAME"),
    Comment("   POINTS2D[] as (X, Y, POINT3D_ID)")]
  const PointsComments: seq<Line> := [
    Comment(" 3D point list with one line of data per point:"),
    Comment("   POINT3D_ID, X, Y, Z, R, G, B, ERROR, TRACK[] as (IMAGE_ID, POINT2D_IDX)")]

  /** The model name written for every camera. */
  const PinholeName: string := "PINHOLE"

  // ---------------------------------------------------------------------
  // Reading tokens
  // ---------------------------------------------------------------------

  function AsNat(t: Token): Option<nat> {
    if t.Int? && t.i >= 0 then Some(t.i) else None
  }

  function AsByte(t: Token): Option<Byte> {
    if t.Int? && 0 <= t.i < 256 then Some(t.i) else None
  }

  /** A double field: a decimal with or without a fractional part. */
  function AsReal(t: Token): Option<real> {
    match t
    case Int(i) => Some(i as real)
    case Float(f) => Some(f)
    case _ => None
  }

  /** The token lists of the data lines, in order; commentary is skipped. */
  function DataLines(lines: seq<Line>): (ds: seq<seq<Token>>)
    ensures |ds| <= |lines|
  {
    if |lines| == 0 then []
    else if lines[0].Data? then [lines[0].tokens] + DataLines(lines[1..])
    else DataLines(lines[1..])
  }

  /** Reads every data line with `parse`; fails if any line fails. */
  function ParseEach<U>(parse: seq<Token> -> Option<U>, ds: seq<seq<Token>>): (r: Option<seq<U>>)
    ensures r.Some? ==> |r.value| == |ds|
  {
    if |ds| == 0 then Some([])
    else
      var first :- parse(ds[0]);
      var others :- ParseEach(parse, ds[1..]);
      Some([first] + others)
  }

  /** Header lines followed by data lines read back as the data lines' tokens. */
  lemma {:induction false} DataLinesAfterHeader(header: seq<Line>, body: seq<Line>)
    requires forall i :: 0 <= i < |header| ==> !header[i].Data?
    requires forall i :: 0 <= i < |body| ==> body[i].Data?
    ensures DataLines(header + body) == seq(|body|, i requires 0 <= i < |body| => body[i].tokens)
    decreases |header| + |body|
  {
    var lines := header + body;
    if |header| > 0 {
      assert lines[1..] == header[1..] + body;
      DataLinesAfterHeader(header[1..], body);
    } else if |body| > 0 {
      assert lines == body;
      assert lines[1..] == [] + body[1..];
      DataLinesAfterHeader([], body[1..]);
    } else {
      assert lines == [];
    }
  }

  lemma DropPrefix<T>(a: seq<T>, b: seq<T>)
    ensures (a + b)[|a|..] == b
  {
  }

  /** When every data line reads back as ys[i], all of them read back as ys. */
  lemma {:induction false} ParseEachInverse<U>(parse: seq<Token> -> Option<U>, ds: seq<seq<Token>>, ys: seq<U>)
    requires |ds| == |ys|
    requires forall i :: 0 <= i < |ds| ==> parse(ds[i]) == Some(ys[i])
    ensures ParseEach(parse, ds) == Some(ys)
  {
    if |ds| > 0 {
      assert parse(ds[0]) == Some(ys[0]);
      ParseEachInverse(parse, ds[1..], ys[1..]);
      assert ys == [ys[0]] + ys[1..];
    }
  }

  // ---------------------------------------------------------------------
  // cameras.txt
  // ---------------------------------------------------------------------

  function CameraLine(id: nat, k: Mat3, width: nat, height: nat): Line {
    Data([Int(id), Word(PinholeName), Int(width), Int(height),
          Float(k[0][0]), Float(k[1][1]), Float(k[0][2]), Float(k[1][2])])
  }

  /** Two lines of commentary, the camera count, then one line per camera with
      its 1-based id. */
  function CamerasTxt(ks: seq<Mat3>, width: nat, height: nat): (lines: seq<Line>)
    ensures |lines| == 3 + |ks|
  {
    CamerasComments + [Count("cameras", |ks|)]
    + seq(|ks|, i requires 0 <= i < |ks| => CameraLine(i + 1, ks[i], width, height))
  }

  function ParseCamera(ts: seq<Token>): Option<CameraRecord<real>> {
    if |ts| != 8 || ts[1] != Word(PinholeName) then None
    else
      var id :- AsNat(ts[0]);
      var width :- AsNat(ts[2]);
      var height :- AsNat(ts[3]);
      var fx :- AsReal(ts[4]);
      var fy :- AsReal(ts[5]);
      var cx :- AsReal(ts[6]);
      var cy :- AsReal(ts[7]);
      Some(CameraRecord(id, PinholeModelId, width, height, fx, fy, cx, cy))
  }

  function ParseCamerasTxt(lines: seq<Line>): Option<seq<CameraRecord<real>>> {
    ParseEach(ParseCamera, DataLines(lines))
  }

  /** cameras.txt reads back as the camera records of the model. */
  lemma CamerasTxtRoundTrip(ks: seq<Mat3>, width: nat, height: nat)
    ensures ParseCamerasTxt(CamerasTxt(ks, width, height)) == Some(CameraRecords(ks, width, height))
  {
    var lines := CamerasTxt(ks, width, height);
    var body := lines[3..];
    assert lines == lines[..3] + body;
    DataLinesAfterHeader(lines[..3], body);
    var ds := DataLines(lines);
    var ys := CameraRecords(ks, width, height);
    forall i | 0 <= i < |ds|
      ensures ParseCamera(ds[i]) == Some(ys[i])
    {
      assert ds[i] == CameraLine(i + 1, ks[i], width, height).tokens;
    }
    ParseEachInverse(ParseCamera, ds, ys);
  }

  // ---------------------------------------------------------------------
  // images.txt
  // ---------------------------------------------------------------------

  /** x, y and the 1-based point id of each keypoint, in order. */
  function KeypointTokens(kps: seq<Keypoint>): (ts: seq<Token>)
    ensures |ts| == 3 * |kps|
  {
    if |kps| == 0 then []
    else [Int(kps[0].x), Int(kps[0].y), Int(kps[0].pointId + 1)] + KeypointTokens(kps[1..])
  }

  function ParseKeypoints(ts: seq<Token>): (r: Option<seq<KeypointRecord<real>>>)
    ensures r.Some? ==> 3 * |r.value| == |ts|
  {
    if |ts| == 0 then Some([])
    else if |ts| < 3 then None
    else
      var x :- AsReal(ts[0]);
      var y :- AsReal(ts[1]);
      var id :- AsNat(ts[2]);
      var others :- ParseKeypoints(ts[3..]);
      Some([KeypointRecord(x, y, id)] + others)
  }

  lemma {:induction false} KeypointTokensRoundTrip(kps: seq<Keypoint>)
    ensures ParseKeypoints(KeypointTokens(kps)) == Some(KeypointRecords(kps))
  {
    if |kps| > 0 {
      var rs := KeypointRecords(kps);
      var kp := kps[0];
      KeypointTokensRoundTrip(kps[1..]);
      assert rs[1..] == KeypointRecords(kps[1..]) by {}
      ParseKeypointsCons(kp, KeypointTokens(kps[1..]), rs[1..]);
      assert KeypointTokens(kps) == [Int(kp.x), Int(kp.y), Int(kp.pointId + 1)] + KeypointTokens(kps[1..]);
      assert rs == [KeypointRecord(kp.x as real, kp.y as real, kp.pointId + 1)] + rs[1..] by {}
    }
  }

  lemma ParseKeypointsCons(kp: Keypoint, rest: seq<Token>, rs: seq<KeypointRecord<real>>)
    requires ParseKeypoints(rest) == Some(rs)
    ensures ParseKeypoints([Int(kp.x), Int(kp.y), Int(kp.pointId + 1)] + rest) ==
              Some([KeypointRecord(kp.x as real, kp.y as real, kp.pointId + 1)] + rs)
  {
    DropPrefix([Int(kp.x), Int(kp.y), Int(kp.pointId + 1)], rest);
  }

  function PoseLine(i: nat, im: ImageInput): Line {
    Data([Int(i + 1), Float(im.q.w), Float(im.q.x), Float(im.q.y), Float(im.q.z),
          Float(im.t.x), Float(im.t.y), Float(im.t.z), Int(i + 1), Name(BaseName(im.path))])
  }

  /** The second line of an image; it is empty when the image has no keypoints. */
  function KeypointsLine(im: ImageInput): Line {
    Data(KeypointTokens(im.keypoints))
  }

  function KeypointLists(images: seq<ImageInput>): (kps: seq<seq<Keypoint>>)
    ensures |kps| == |images|
  {
    seq(|images|, i requires 0 <= i < |images| => images[i].keypoints)
  }

  /** Mean number of keypoints per image, 0 for no images. */
  function MeanObservations(images: seq<ImageInput>): real {
    if |images| == 0 then 0.0 else TotalKeypoints(KeypointLists(images)) as real / |images| as real
  }

  /** Three lines of commentary, the image count with the mean number of
      observations per image, then two lines per image: its pose line and its
      keypoints line. */
  function ImagesTxt(images: seq<ImageInput>): (lines: seq<Line>)
    ensures |lines| == 4 + 2 * |images|
  {
    ImagesComments + [CountAndMean("images", |images|, "observations per image", MeanObservations(images), 1)]
    + ImageLines(images)
  }

  /** Image k's pose line at 2 k, its keypoints line at 2 k + 1. */
  function ImageLines(images: seq<ImageInput>): (lines: seq<Line>)
    ensures |lines| == 2 * |images|
  {
    seq(2 * |images|, j requires 0 <= j < 2 * |images| =>
          if j % 2 == 0 then PoseLine(j / 2, images[j / 2]) else KeypointsLine(images[j / 2]))
  }

  lemma ImageLinesAt(images: seq<ImageInput>, k: nat)
    requires k < |images|
    ensures ImageLines(images)[2 * k] == PoseLine(k, images[k])
    ensures ImageLines(images)[2 * k + 1] == KeypointsLine(images[k])
  {
    var lines := ImageLines(images);
    var even, odd := 2 * k, 2 * k + 1;
    assert lines[even] == PoseLine(k, images[k]) by {
      Halves(k);
    }
    assert lines[odd] == KeypointsLine(images[k]) by {
      Halves(k);
    }
  }

  lemma Halves(k: nat)
    ensures (2 * k) / 2 == k && (2 * k) % 2 == 0
    ensures (2 * k + 1) / 2 == k && (2 * k + 1) % 2 == 1
  {
  }

  function ParseImage(pose: seq<Token>, points: seq<Token>): Option<ImageRecord<real>> {
    if |pose| != 10 || !pose[9].Name? then None
    else
      var id :- AsNat(pose[0]);
      var qw :- AsReal(pose[1]);
      var qx :- AsReal(pose[2]);
      var qy :- AsReal(pose[3]);
      var qz :- AsReal(pose[4]);
      var tx :- AsReal(pose[5]);
      var ty :- AsReal(pose[6]);
      var tz :- AsReal(pose[7]);
      var camera :- AsNat(pose[8]);
      var keypoints :- ParseKeypoints(points);
      Some(ImageRecord(id, (qw, qx, qy, qz), (tx, ty, tz), camera, pose[9].bytes, keypoints))
  }

  /** Reads the data lines two at a time. */
  function ParseImages(ds: seq<seq<Token>>): (r: Option<seq<ImageRecord<real>>>)
    ensures r.Some? ==> 2 * |r.value| == |ds|
  {
    if |ds| == 0 then Some([])
    else if |ds| == 1 then None
    else
      var first :- ParseImage(ds[0], ds[1]);
      var others :- ParseImages(ds[2..]);
      Some([first] + others)
  }

  function ParseImagesTxt(lines: seq<Line>): Option<seq<ImageRecord<real>>> {
    ParseImages(DataLines(lines))
  }

  lemma ParseImageLines(i: nat, im: ImageInput)
    ensures ParseImage(PoseLine(i, im).tokens, KeypointsLine(im).tokens) == Some(ImageRecordOf(i, im))
  {
    KeypointTokensRoundTrip(im.keypoints);
  }

  /** Pairs of lines, each reading back as ys[k], read back as ys. */
  lemma {:induction false} ParseImagesInverse(ds: seq<seq<Token>>, ys: seq<ImageRecord<real>>)
    requires |ds| == 2 * |ys|
    requires forall k :: 0 <= k < |ys| ==> ParseImage(ds[2 * k], ds[2 * k + 1]) == Some(ys[k])
    ensures ParseImages(ds) == Some(ys)
  {
    if |ys| > 0 {
      assert ParseImage(ds[0], ds[1]) == Some(ys[0]);
      forall k | 0 <= k < |ys[1..]|
        ensures ParseImage(ds[2..][2 * k], ds[2..][2 * k + 1]) == Some(ys[1..][k])
      {
        assert ParseImage(ds[2 * (k + 1)], ds[2 * (k + 1) + 1]) == Some(ys[k + 1]);
      }
      ParseImagesInverse(ds[2..], ys[1..]);
      assert ys == [ys[0]] + ys[1..];
    }
  }

  /** images.txt reads back as the image records of the model. */
  lemma ImagesTxtRoundTrip(images: seq<ImageInput>)
    ensures ParseImagesTxt(ImagesTxt(images)) == Some(ImageRecords(images))
  {
    var lines := ImagesTxt(images);
    var body := ImageLines(images);
    assert lines == lines[..4] + body;
    DataLinesAfterHeader(lines[..4], body);
    var ds := DataLines(lines);
    var ys := ImageRecords(images);
    forall k | 0 <= k < |ys|
      ensures ParseImage(ds[2 * k], ds[2 * k + 1]) == Some(ys[k])
    {
      ImageLinesAt(images, k);
      ParseImageLines(k, images[k]);
    }
    ParseImagesInverse(ds, ys);
  }

  // ---------------------------------------------------------------------
  // points3D.txt
  // ---------------------------------------------------------------------

  /** The 1-based image id and the keypoint index of each track entry. */
  function TrackTokens(track: seq<TrackEntry>): (ts: seq<Token>)
    ensures |ts| == 2 * |track|
  {
    if |track| == 0 then []
    else [Int(track[0].img + 1), Int(track[0].kp)] + TrackTokens(track[1..])
  }

  function ParseTrack(ts: seq<Token>): (r: Option<seq<TrackRecord>>)
    ensures r.Some? ==> 2 * |r.value| == |ts|
  {
    if |ts| == 0 then Some([])
    else if |ts| < 2 then None
    else
      var image :- AsNat(ts[0]);
      var index :- AsNat(ts[1]);
      var others :- ParseTrack(ts[2..]);
      Some([TrackRecord(image, index)] + others)
  }

  lemma {:induction false} TrackTokensRoundTrip(track: seq<TrackEntry>)
    ensures ParseTrack(TrackTokens(track)) == Some(TrackRecords(track))
  {
    if |track| > 0 {
      var rs := TrackRecords(track);
      var e := track[0];
      TrackTokensRoundTrip(track[1..]);
      assert rs[1..] == TrackRecords(track[1..]) by {}
      ParseTrackCons(e, TrackTokens(track[1..]), rs[1..]);
      assert TrackTokens(track) == [Int(e.img + 1), Int(e.kp)] + TrackTokens(track[1..]);
      assert rs == [TrackRecord(e.img + 1, e.kp)] + rs[1..] by {}
    }
  }

  lemma ParseTrackCons(e: TrackEntry, rest: seq<Token>, rs: seq<TrackRecord>)
    requires ParseTrack(rest) == Some(rs)
    ensures ParseTrack([Int(e.img + 1), Int(e.kp)] + rest) == Some([TrackRecord(e.img + 1, e.kp)] + rs)
  {
    DropPrefix([Int(e.img + 1), Int(e.kp)], rest);
  }

  function PointLine(p: Point3D): Line {
    Data([Int(p.id + 1), Float(p.xyz.x), Float(p.xyz.y), Float(p.xyz.z),
          Int(p.rgb.r), Int(p.rgb.g), Int(p.rgb.b), Float(p.error)] + TrackTokens(p.track))
  }

  /** Mean track length, 0 for no points. */
  function MeanTrackLength(ps: seq<Point3D>): real {
    if |ps| == 0 then 0.0 else SumTracks(ps) as real / |ps| as real
  }

  /** Two lines of commentary, the point count with the mean track length,
      then one line per point. */
  function PointsTxt(ps: seq<Point3D>): (lines: seq<Line>)
    ensures |lines| == 3 + |ps|
  {
    PointsComments + [CountAndMean("points", |ps|, "track length", MeanTrackLength(ps), 4)]
    + seq(|ps|, i requires 0 <= i < |ps| => PointLine(ps[i]))
  }

  function ParsePoint(ts: seq<Token>): Option<PointRecord<real>> {
    if |ts| < 8 then None
    else
      var id :- AsNat(ts[0]);
      var x :- AsReal(ts[1]);
      var y :- AsReal(ts[2]);
      var z :- AsReal(ts[3]);
      var r :- AsByte(ts[4]);
      var g :- AsByte(ts[5]);
      var b :- AsByte(ts[6]);
      var error :- AsReal(ts[7]);
      var track :- ParseTrack(ts[8..]);
      Some(PointRecord(id, (x, y, z), Rgb(r, g, b), error, track))
  }

  function ParsePointsTxt(lines: seq<Line>): Option<seq<PointRecord<real>>> {
    ParseEach(ParsePoint, DataLines(lines))
  }

  lemma ParsePointLine(p: Point3D)
    ensures ParsePoint(PointLine(p).tokens) == Some(PointRecordOf(p))
  {
    var ts := PointLine(p).tokens;
    assert ts[8..] == TrackTokens(p.track);
    TrackTokensRoundTrip(p.track);
  }

  /** points3D.txt reads back as the point records of the model. */
  lemma PointsTxtRoundTrip(ps: seq<Point3D>)
    ensures ParsePointsTxt(PointsTxt(ps)) == Some(PointRecords(ps))
  {
    var lines := PointsTxt(ps);
    var body := lines[3..];
    assert lines == lines[..3] + body;
    DataLinesAfterHeader(lines[..3], body);
    var ds := DataLines(lines);
    var ys := PointRecords(ps);
    forall i | 0 <= i < |ds|
      ensures ParsePoint(ds[i]) == Some(ys[i])
    {
      assert ds[i] == PointLine(ps[i]).tokens;
      ParsePointLine(ps[i]);
    }
    ParseEachInverse(ParsePoint, ds, ys);
  }

  // ---------------------------------------------------------------------
  // The header lines
  // ---------------------------------------------------------------------

  /** The count in the header of cameras.txt is the number of cameras the file
      reads back as. */
  lemma CamerasHeaderCount(ks: seq<Mat3>, width: nat, height: nat)
    ensures var lines := CamerasTxt(ks, width, height);
            && lines[2].Count?
            && ParseCamerasTxt(lines).Some?
            && lines[2].n == |ParseCamerasTxt(lines).value|
  {
    CamerasTxtRoundTrip(ks, width, height);
  }

  /** The header of images.txt counts the images the file reads back as, and
      its mean times that count is the number of keypoints over all images. */
  lemma ImagesHeaderSummary(images: seq<ImageInput>)
    ensures var lines := ImagesTxt(images);
            && lines[3].CountAndMean?
            && ParseImagesTxt(lines).Some?
            && lines[3].n == |ParseImagesTxt(lines).value|
            && lines[3].mean * lines[3].n as real == TotalKeypoints(KeypointLists(images)) as real
  {
    ImagesTxtRoundTrip(images);
    if |images| == 0 {
      assert KeypointLists(images) == [];
    }
  }

  /** The header of points3D.txt counts the points the file reads back as, and
      its mean times that count is the number of track entries over all points. */
  lemma PointsHeaderSummary(ps: seq<Point3D>)
    ensures var lines := PointsTxt(ps);
            && lines[2].CountAndMean?
            && ParsePointsTxt(lines).Some?
            && lines[2].n == |ParsePointsTxt(lines).value|
            && lines[2].mean * lines[2].n as real == SumTracks(ps) as real
  {
    PointsTxtRoundTrip(ps);
    if |ps| == 0 {
      assert Tracks(ps) == [];
    }
  }
}

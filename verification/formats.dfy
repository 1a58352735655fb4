/**
 * What the written model promises as a whole: the text and binary forms of
 * each file hold the same records, ids are 1-based and dense, every image
 * names its own camera, and the tracks of points3D and the keypoints of images
 * refer to each other one-to-one.
 */
module Formats {
  import opened Wrappers
  import opened Geometry
  import opened LittleEndian
  import opened Reconstruction
  import opened Colmap
  import opened BinaryWriter
  import opened TextWriter

  // ---------------------------------------------------------------------
  // Text and binary hold the same records
  // ---------------------------------------------------------------------

  /** cameras.bin holds the cameras cameras.txt reads back as, each double
      as the bit pattern `f64` gives it. */
  lemma CamerasFormatsAgree(f64: real -> Bits64, ks: seq<Mat3>, width: nat, height: nat)
    requires CamerasBin(f64, ks, width, height).Success?
    ensures ParseCamerasTxt(CamerasTxt(ks, width, height)).Some?
    ensures DecodeCamerasBin(CamerasBin(f64, ks, width, height).value) ==
              Some(MapCameras(f64, ParseCamerasTxt(CamerasTxt(ks, width, height)).value))
  {
    CamerasTxtRoundTrip(ks, width, height);
    CamerasBinRoundTrip(f64, ks, width, height);
  }

  /** images.bin holds the images images.txt reads back as. */
  lemma ImagesFormatsAgree(f64: real -> Bits64, images: seq<ImageInput>)
    requires ImagesBin(f64, images).Success?
    ensures ParseImagesTxt(ImagesTxt(images)).Some?
    ensures DecodeImagesBin(ImagesBin(f64, images).value) ==
              Some(MapImages(f64, ParseImagesTxt(ImagesTxt(images)).value))
  {
    ImagesTxtRoundTrip(images);
    ImagesBinRoundTrip(f64, images);
  }

  /** points3D.bin holds the points points3D.txt reads back as. */
  lemma PointsFormatsAgree(f64: real -> Bits64, ps: seq<Point3D>)
    requires PointsBin(f64, ps).Success?
    ensures ParsePointsTxt(PointsTxt(ps)).Some?
    ensures DecodePointsBin(PointsBin(f64, ps).value) ==
              Some(MapPoints(f64, ParsePointsTxt(PointsTxt(ps)).value))
  {
    PointsTxtRoundTrip(ps);
    PointsBinRoundTrip(f64, ps);
  }

  /** The images writers take image i's pose, keypoints and name from position
      i of their four lists: images.txt reads back, at position i, id and camera
      i + 1, quaternion i, translation i, the base name of name i and keypoint
      list i with 1-based point ids; images.bin holds the same records. */
  lemma ZippedImagesReadBack(f64: real -> Bits64, qs: seq<Quat>, ts: seq<Vec3>, kps: seq<seq<Keypoint>>,
                             names: seq<seq<Byte>>, i: nat)
    requires |ts| >= |qs| && |kps| >= |qs| && |names| >= |qs| && i < |qs|
    ensures var rs := ParseImagesTxt(ImagesTxt(Zip(qs, ts, kps, names)));
      && rs.Some? && |rs.value| == |qs|
      && rs.value[i] == ImageRecord(i + 1, (qs[i].w, qs[i].x, qs[i].y, qs[i].z), (ts[i].x, ts[i].y, ts[i].z),
                                    i + 1, BaseName(names[i]), KeypointRecords(kps[i]))
    ensures ImagesBin(f64, Zip(qs, ts, kps, names)).Success? ==>
      DecodeImagesBin(ImagesBin(f64, Zip(qs, ts, kps, names)).value) ==
        Some(MapImages(f64, ParseImagesTxt(ImagesTxt(Zip(qs, ts, kps, names))).value))
  {
    var images := Zip(qs, ts, kps, names);
    ImagesTxtRoundTrip(images);
    assert ImageRecords(images)[i] == ImageRecordOf(i, images[i]);
    if ImagesBin(f64, images).Success? {
      ImagesFormatsAgree(f64, images);
    }
  }

  // ---------------------------------------------------------------------
  // Ids and cross references
  // ---------------------------------------------------------------------

  /** Cameras, images and points are numbered 1, 2, ... in list order, and
      image i refers to camera i + 1, which is the camera written for it. */
  lemma RecordIdsDense(ks: seq<Mat3>, width: nat, height: nat, images: seq<ImageInput>, ps: seq<Point3D>)
    requires |ks| == |images|
    requires IdsDense(ps)
    ensures forall i :: 0 <= i < |ks| ==> CameraRecords(ks, width, height)[i].id == i + 1
    ensures forall i :: 0 <= i < |images| ==>
              && ImageRecords(images)[i].id == i + 1
              && ImageRecords(images)[i].cameraId == CameraRecords(ks, width, height)[i].id
    ensures forall p :: 0 <= p < |ps| ==> PointRecords(ps)[p].id == p + 1
  {
  }

  /** Every track entry of a written point names an image by its id and one of
      that image's keypoints by position, and that keypoint names the point. The
      aggregator's result meets the requirement (it is part of `Consistent`). */
  lemma WrittenTracksResolve(ps: seq<Point3D>, images: seq<ImageInput>)
    requires IdsDense(ps) && TracksResolve(ps, KeypointLists(images))
    ensures forall p, j :: 0 <= p < |ps| && 0 <= j < |PointRecords(ps)[p].track| ==>
              TrackRecordResolves(PointRecords(ps)[p].track[j], ImageRecords(images), PointRecords(ps)[p].id)
  {
    forall p, j | 0 <= p < |ps| && 0 <= j < |PointRecords(ps)[p].track|
      ensures TrackRecordResolves(PointRecords(ps)[p].track[j], ImageRecords(images), PointRecords(ps)[p].id)
    {
      TrackEntryResolves(ps, images, p, j);
    }
  }

  /** A written track entry names image `imageId` and its keypoint at
      `point2DIdx`, and that keypoint names point `id`. */
  predicate TrackRecordResolves(t: TrackRecord, rs: seq<ImageRecord<real>>, id: nat) {
    && 1 <= t.imageId <= |rs|
    && rs[t.imageId - 1].id == t.imageId
    && t.point2DIdx < |rs[t.imageId - 1].points|
    && rs[t.imageId - 1].points[t.point2DIdx].point3DId == id
  }

  lemma TrackEntryResolves(ps: seq<Point3D>, images: seq<ImageInput>, p: nat, j: nat)
    requires p < |ps| && j < |ps[p].track| && ps[p].id == p
    requires Resolves(KeypointLists(images), ps[p].track[j], p)
    ensures TrackRecordResolves(PointRecords(ps)[p].track[j], ImageRecords(images), PointRecords(ps)[p].id)
  {
    var e := ps[p].track[j];
    assert KeypointLists(images)[e.img] == images[e.img].keypoints;
    assert PointRecords(ps)[p].track[j] == TrackRecord(e.img + 1, e.kp);
    assert ImageRecords(images)[e.img].points == KeypointRecords(images[e.img].keypoints);
  }

  /** Every keypoint of a written image names a written point whose track
      holds that image and keypoint exactly once. The aggregator's result meets
      the requirements (they are part of `Consistent`). */
  lemma WrittenKeypointsTracked(ps: seq<Point3D>, images: seq<ImageInput>)
    requires IdsDense(ps) && KeypointsTracked(ps, KeypointLists(images))
    ensures forall i, k :: 0 <= i < |images| && 0 <= k < |ImageRecords(images)[i].points| ==>
              KeypointRecordTracked(ImageRecords(images)[i].points[k], i + 1, k, PointRecords(ps))
  {
    forall i, k | 0 <= i < |images| && 0 <= k < |ImageRecords(images)[i].points|
      ensures KeypointRecordTracked(ImageRecords(images)[i].points[k], i + 1, k, PointRecords(ps))
    {
      assert KeypointLists(images)[i] == images[i].keypoints;
      var p := images[i].keypoints[k].pointId;
      KeypointTracked(ps, images, i, k, p);
    }
  }

  /** Written keypoint k of image `imageId` names a written point whose track
      holds (imageId, k) exactly once. */
  predicate KeypointRecordTracked(r: KeypointRecord<real>, imageId: nat, k: nat, rs: seq<PointRecord<real>>) {
    && 1 <= r.point3DId <= |rs|
    && rs[r.point3DId - 1].id == r.point3DId
    && multiset(rs[r.point3DId - 1].track)[TrackRecord(imageId, k)] == 1
  }

  lemma KeypointTracked(ps: seq<Point3D>, images: seq<ImageInput>, i: nat, k: nat, p: nat)
    requires i < |images| && k < |images[i].keypoints| && images[i].keypoints[k].pointId == p
    requires p < |ps| && ps[p].id == p && multiset(ps[p].track)[TrackEntry(i, k)] == 1
    ensures KeypointRecordTracked(ImageRecords(images)[i].points[k], i + 1, k, PointRecords(ps))
  {
    var points := ImageRecords(images)[i].points;
    assert points[k].point3DId == p + 1 by {
      assert points == KeypointRecords(images[i].keypoints);
    }
    WrittenTrackCount(ps, p, TrackEntry(i, k));
  }

  /** What the aggregator returns, written with the poses and names of its
      images, gives files whose tracks and keypoints refer to each other. */
  lemma WrittenModelConsistent(ps: seq<Point3D>, kps: seq<seq<Keypoint>>,
                               qs: seq<Quat>, ts: seq<Vec3>, names: seq<seq<Byte>>)
    requires Consistent(ps, kps)
    requires |kps| == |qs| && |ts| >= |qs| && |names| >= |qs|
    ensures var images := Zip(qs, ts, kps, names);
            && (forall p, j :: 0 <= p < |ps| && 0 <= j < |PointRecords(ps)[p].track| ==>
                  TrackRecordResolves(PointRecords(ps)[p].track[j], ImageRecords(images), PointRecords(ps)[p].id))
            && (forall i, k :: 0 <= i < |images| && 0 <= k < |ImageRecords(images)[i].points| ==>
                  KeypointRecordTracked(ImageRecords(images)[i].points[k], i + 1, k, PointRecords(ps)))
  {
    var images := Zip(qs, ts, kps, names);
    assert KeypointLists(images) == kps;
    WrittenTracksResolve(ps, images);
    WrittenKeypointsTracked(ps, images);
  }

  /** Written point p occurs as often in its track record as point p's entry
      e does in its track. */
  lemma WrittenTrackCount(ps: seq<Point3D>, p: nat, e: TrackEntry)
    requires p < |ps|
    ensures PointRecords(ps)[p].id == ps[p].id + 1
    ensures multiset(PointRecords(ps)[p].track)[TrackRecord(e.img + 1, e.kp)] == multiset(ps[p].track)[e]
  {
    assert PointRecords(ps)[p].track == TrackRecords(ps[p].track);
    TrackRecordCount(ps[p].track, e);
  }

  /** Writing a track shifts image ids by one and nothing else, so it keeps
      the number of times each entry occurs. */
  lemma {:induction false} TrackRecordCount(track: seq<TrackEntry>, e: TrackEntry)
    ensures multiset(TrackRecords(track))[TrackRecord(e.img + 1, e.kp)] == multiset(track)[e]
  {
    if |track| > 0 {
      var n := |track| - 1;
      var front := track[..n];
      TrackRecordCount(front, e);
      assert track == front + [track[n]];
      assert TrackRecords(track) == TrackRecords(front) + [TrackRecord(track[n].img + 1, track[n].kp)];
    }
  }
}

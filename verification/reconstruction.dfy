/**
 * The deduplicating point store at the heart of `filter_and_prepare_points`:
 * the growing list of 3D points, the key -> point-id map, and the per-image
 * keypoint lists, with the step that folds one accepted sample into them.
 */
module Reconstruction {
  import opened Geometry

  /** An observation of a point: image index and 0-based keypoint index. */
  datatype TrackEntry = TrackEntry(img: nat, kp: nat)

  /** A 2D keypoint at grid coordinates (x, y), referring to a 3D point id. */
  datatype Keypoint = Keypoint(x: nat, y: nat, pointId: nat)

  datatype Point3D = Point3D(id: nat, xyz: Vec3, rgb: Rgb, error: real, track: seq<TrackEntry>)

  /** An accepted sample: where it was seen, where it is, and its colour. */
  datatype Observation = Observation(img: nat, x: nat, y: nat, xyz: Vec3, rgb: Rgb)

  /** `points3D`, `point_indices` and `image_points2D` of the source. */
  datatype State = State(points: seq<Point3D>, index: map<Key, nat>, keypoints: seq<seq<Keypoint>>)

  /** Reprojection error written for every point; no refinement takes place. */
  const PlaceholderError: real := 1.0

  // ---------------------------------------------------------------------
  // Counting helpers
  // ---------------------------------------------------------------------

  function SumLengths<T>(ss: seq<seq<T>>): (n: nat)
  {
    if |ss| == 0 then 0 else SumLengths(ss[..|ss| - 1]) + |ss[|ss| - 1]|
  }

  function Tracks(ps: seq<Point3D>): (ts: seq<seq<TrackEntry>>)
    ensures |ts| == |ps|
    ensures forall i :: 0 <= i < |ps| ==> ts[i] == ps[i].track
  {
    seq(|ps|, i requires 0 <= i < |ps| => ps[i].track)
  }

  /** Total number of observations over all tracks. */
  function SumTracks(ps: seq<Point3D>): nat {
    SumLengths(Tracks(ps))
  }

  /** Total number of keypoints over all images. */
  function TotalKeypoints(kps: seq<seq<Keypoint>>): nat {
    SumLengths(kps)
  }

  lemma {:induction false} SumLengthsUpdate<T>(ss: seq<seq<T>>, i: nat, s: seq<T>)
    requires i < |ss|
    ensures SumLengths(ss[i := s]) == SumLengths(ss) - |ss[i]| + |s|
  {
    var last := |ss| - 1;
    if i == last {
      assert ss[i := s][..last] == ss[..last];
    } else {
      assert ss[i := s][..last] == ss[..last][i := s];
      SumLengthsUpdate(ss[..last], i, s);
    }
  }

  lemma SumLengthsAppend<T>(ss: seq<seq<T>>, s: seq<T>)
    ensures SumLengths(ss + [s]) == SumLengths(ss) + |s|
  {
    assert (ss + [s])[..|ss|] == ss;
  }

  /** n empty sequences. */
  function Empties<T>(n: nat): (ss: seq<seq<T>>)
    ensures |ss| == n
    ensures forall i :: 0 <= i < n ==> ss[i] == []
  {
    seq(n, _ => [])
  }

  lemma {:induction false} SumLengthsOfEmpties<T>(n: nat)
    ensures SumLengths(Empties<T>(n)) == 0
  {
    if n > 0 {
      assert Empties<T>(n)[..n - 1] == Empties<T>(n - 1);
      SumLengthsOfEmpties<T>(n - 1);
    }
  }

  // ---------------------------------------------------------------------
  // The invariants of the store
  // ---------------------------------------------------------------------

  /** Point ids are dense and equal to the storage position. */
  predicate IdsDense(ps: seq<Point3D>) {
    forall i :: 0 <= i < |ps| ==> ps[i].id == i
  }

  /** The key map and the point list are a bijection between keys and positions. */
  predicate IndexExact(st: State) {
    && (forall k :: k in st.index ==> st.index[k] < |st.points| && Quantize(st.points[st.index[k]].xyz) == k)
    && (forall i :: 0 <= i < |st.points| ==>
          Quantize(st.points[i].xyz) in st.index && st.index[Quantize(st.points[i].xyz)] == i)
  }

  /** The key map refers only to stored points. */
  predicate IndexBounded(st: State) {
    forall k :: k in st.index ==> st.index[k] < |st.points|
  }

  /** Track entry e of point p names an existing keypoint that points back at p. */
  predicate Resolves(kps: seq<seq<Keypoint>>, e: TrackEntry, p: nat) {
    && e.img < |kps|
    && e.kp < |kps[e.img]|
    && kps[e.img][e.kp].pointId == p
  }

  predicate TracksResolve(ps: seq<Point3D>, kps: seq<seq<Keypoint>>) {
    forall p, j :: 0 <= p < |ps| && 0 <= j < |ps[p].track| ==>
      Resolves(kps, ps[p].track[j], p)
  }

  /** Every keypoint refers to a stored point whose track holds it exactly once. */
  predicate KeypointsTracked(ps: seq<Point3D>, kps: seq<seq<Keypoint>>) {
    forall img, k :: 0 <= img < |kps| && 0 <= k < |kps[img]| ==>
      && kps[img][k].pointId < |ps|
      && multiset(ps[kps[img][k].pointId].track)[TrackEntry(img, k)] == 1
  }

  /** Every point carries the placeholder error and at least one observation. */
  predicate PointsWellFormed(ps: seq<Point3D>) {
    forall p :: 0 <= p < |ps| ==>
      ps[p].error == PlaceholderError && |ps[p].track| > 0
  }

  /** As many track entries as keypoints. */
  predicate Counted(ps: seq<Point3D>, kps: seq<seq<Keypoint>>) {
    SumTracks(ps) == TotalKeypoints(kps)
  }

  /** What the caller of the aggregator receives is consistent: dense ids, and
      tracks and keypoints that refer to each other one-to-one. */
  predicate Consistent(ps: seq<Point3D>, kps: seq<seq<Keypoint>>) {
    && IdsDense(ps)
    && TracksResolve(ps, kps)
    && KeypointsTracked(ps, kps)
    && PointsWellFormed(ps)
    && Counted(ps, kps)
  }

  predicate Valid(st: State, n: nat) {
    && |st.keypoints| == n
    && IndexExact(st)
    && Consistent(st.points, st.keypoints)
  }

  /** The empty store for n images. */
  function Init(n: nat): (st: State)
    ensures Valid(st, n)
    ensures |st.points| == 0 && TotalKeypoints(st.keypoints) == 0
  {
    var st := State([], map[], Empties(n));
    SumLengthsOfEmpties<Keypoint>(n);
    assert Tracks([]) == [];
    st
  }

  // ---------------------------------------------------------------------
  // One accepted sample
  // ---------------------------------------------------------------------

  /** Folds one accepted sample into the store: a key seen for the first time
      creates a point with the next id; a known key only extends that point's
      track. Either way the image gains one keypoint referring to the point,
      and the track entry names that keypoint's index. */
  function Insert(st: State, o: Observation): (st': State)
    requires o.img < |st.keypoints|
    requires IndexBounded(st)
    ensures |st'.keypoints| == |st.keypoints|
    ensures IndexBounded(st')
    ensures st'.index.Keys == st.index.Keys + {Quantize(o.xyz)}
    ensures forall k :: k in st.index ==> st'.index[k] == st.index[k]
    ensures st'.keypoints == st.keypoints[o.img := st.keypoints[o.img] + [Keypoint(o.x, o.y, st'.index[Quantize(o.xyz)])]]
    // a repeated key: same points, only the matched point's track grows
    ensures Quantize(o.xyz) in st.index ==>
      && |st'.points| == |st.points|
      && forall i :: 0 <= i < |st.points| ==>
           st'.points[i] == st.points[i].(track := st.points[i].track +
             (if i == st.index[Quantize(o.xyz)] then [TrackEntry(o.img, |st.keypoints[o.img]|)] else []))
    // a new key: a new point at the end, seen once, with the sample's position and colour
    ensures Quantize(o.xyz) !in st.index ==>
      && st'.points == st.points + [Point3D(|st.points|, o.xyz, o.rgb, PlaceholderError, [TrackEntry(o.img, |st.keypoints[o.img]|)])]
      && st'.index[Quantize(o.xyz)] == |st.points|
  {
    var key := Quantize(o.xyz);
    var entry := TrackEntry(o.img, |st.keypoints[o.img]|);
    if key !in st.index then
      var id := |st.points|;
      State(st.points + [Point3D(id, o.xyz, o.rgb, PlaceholderError, [entry])],
            st.index[key := id],
            st.keypoints[o.img := st.keypoints[o.img] + [Keypoint(o.x, o.y, id)]])
    else
      var id := st.index[key];
      var p := st.points[id];
      State(st.points[id := p.(track := p.track + [entry])],
            st.index,
            st.keypoints[o.img := st.keypoints[o.img] + [Keypoint(o.x, o.y, id)]])
  }

  /** A keypoint that resolved before a step still resolves after it: steps only
      append keypoints. */
  lemma ResolvesKept(st: State, o: Observation, e: TrackEntry, p: nat)
    requires o.img < |st.keypoints|
    requires IndexBounded(st)
    requires Resolves(st.keypoints, e, p)
    ensures Resolves(Insert(st, o).keypoints, e, p)
  {
    var st' := Insert(st, o);
    if e.img == o.img {
      assert st'.keypoints[e.img][e.kp] == st.keypoints[e.img][e.kp];
    }
  }

  lemma InsertKeepsIdsDense(st: State, o: Observation)
    requires o.img < |st.keypoints| && IndexBounded(st) && IdsDense(st.points)
    ensures IdsDense(Insert(st, o).points)
  {
  }

  lemma InsertKeepsPointsWellFormed(st: State, o: Observation)
    requires o.img < |st.keypoints| && IndexBounded(st) && PointsWellFormed(st.points)
    ensures PointsWellFormed(Insert(st, o).points)
  {
  }

  lemma InsertKeepsIndexExact(st: State, o: Observation)
    requires o.img < |st.keypoints| && IndexBounded(st) && IndexExact(st)
    ensures IndexExact(Insert(st, o))
  {
    var st' := Insert(st, o);
    var key := Quantize(o.xyz);
    if key !in st.index {
      forall i | 0 <= i < |st'.points|
        ensures Quantize(st'.points[i].xyz) in st'.index && st'.index[Quantize(st'.points[i].xyz)] == i
      {
        if i < |st.points| {
          assert st'.points[i] == st.points[i];
          assert Quantize(st.points[i].xyz) in st.index;
        }
      }
      forall k | k in st'.index
        ensures st'.index[k] < |st'.points| && Quantize(st'.points[st'.index[k]].xyz) == k
      {
        if k != key {
          assert st'.points[st.index[k]] == st.points[st.index[k]];
        }
      }
    } else {
      forall i | 0 <= i < |st'.points|
        ensures Quantize(st'.points[i].xyz) in st'.index && st'.index[Quantize(st'.points[i].xyz)] == i
      {
        assert st'.points[i].xyz == st.points[i].xyz;
      }
      forall k | k in st'.index
        ensures st'.index[k] < |st'.points| && Quantize(st'.points[st'.index[k]].xyz) == k
      {
        assert st'.points[st.index[k]].xyz == st.points[st.index[k]].xyz;
      }
    }
  }

  lemma InsertKeepsTracksResolve(st: State, o: Observation)
    requires o.img < |st.keypoints| && IndexBounded(st) && TracksResolve(st.points, st.keypoints)
    ensures TracksResolve(Insert(st, o).points, Insert(st, o).keypoints)
  {
    var st' := Insert(st, o);
    var key := Quantize(o.xyz);
    var entry := TrackEntry(o.img, |st.keypoints[o.img]|);
    forall p, j | 0 <= p < |st'.points| && 0 <= j < |st'.points[p].track|
      ensures Resolves(st'.keypoints, st'.points[p].track[j], p)
    {
      if p < |st.points| && j < |st.points[p].track| {
        assert st'.points[p].track[j] == st.points[p].track[j];
        ResolvesKept(st, o, st.points[p].track[j], p);
      } else {
        assert st'.points[p].track[j] == entry;
        assert st'.keypoints[o.img][|st.keypoints[o.img]|].pointId == st'.index[key];
      }
    }
  }

  /** The entry a step adds names a keypoint index not yet used, so no track
      holds it before the step. */
  lemma FreshEntryUntracked(st: State, n: nat, o: Observation, p: nat)
    requires Valid(st, n) && o.img < n && p < |st.points|
    ensures TrackEntry(o.img, |st.keypoints[o.img]|) !in st.points[p].track
  {
    var entry := TrackEntry(o.img, |st.keypoints[o.img]|);
    forall j | 0 <= j < |st.points[p].track|
      ensures st.points[p].track[j] != entry
    {
      assert Resolves(st.keypoints, st.points[p].track[j], p);
    }
  }

  lemma InsertTracksNewKeypoint(st: State, n: nat, o: Observation)
    requires Valid(st, n) && o.img < n
    ensures var st' := Insert(st, o);
      var kp := st'.keypoints[o.img][|st.keypoints[o.img]|];
      kp.pointId < |st'.points| &&
      multiset(st'.points[kp.pointId].track)[TrackEntry(o.img, |st.keypoints[o.img]|)] == 1
  {
    var st' := Insert(st, o);
    var key := Quantize(o.xyz);
    var entry := TrackEntry(o.img, |st.keypoints[o.img]|);
    var id := st'.index[key];
    if key in st.index {
      FreshEntryUntracked(st, n, o, id);
      assert st'.points[id].track == st.points[id].track + [entry];
    } else {
      assert st'.points[id].track == [entry];
    }
  }

  lemma InsertTracksOldKeypoint(st: State, n: nat, o: Observation, img: nat, k: nat)
    requires Valid(st, n) && o.img < n
    requires img < n && k < |st.keypoints[img]|
    ensures var st' := Insert(st, o);
      && st'.keypoints[img][k] == st.keypoints[img][k]
      && st.keypoints[img][k].pointId < |st'.points|
      && multiset(st'.points[st.keypoints[img][k].pointId].track)[TrackEntry(img, k)] == 1
  {
    var st' := Insert(st, o);
    var key := Quantize(o.xyz);
    var entry := TrackEntry(o.img, |st.keypoints[o.img]|);
    var q := st.keypoints[img][k].pointId;
    assert TrackEntry(img, k) != entry;
    if key in st.index && q == st.index[key] {
      assert st'.points[q].track == st.points[q].track + [entry];
    } else {
      assert st'.points[q].track == st.points[q].track;
    }
  }

  lemma InsertKeepsKeypointsTracked(st: State, n: nat, o: Observation)
    requires Valid(st, n) && o.img < n
    ensures KeypointsTracked(Insert(st, o).points, Insert(st, o).keypoints)
  {
    var st' := Insert(st, o);
    forall img, k | 0 <= img < |st'.keypoints| && 0 <= k < |st'.keypoints[img]|
      ensures st'.keypoints[img][k].pointId < |st'.points|
      ensures multiset(st'.points[st'.keypoints[img][k].pointId].track)[TrackEntry(img, k)] == 1
    {
      if img == o.img && k == |st.keypoints[o.img]| {
        InsertTracksNewKeypoint(st, n, o);
      } else {
        InsertTracksOldKeypoint(st, n, o, img, k);
      }
    }
  }

  lemma InsertKeepsCounted(st: State, o: Observation)
    requires o.img < |st.keypoints| && IndexBounded(st) && Counted(st.points, st.keypoints)
    ensures Counted(Insert(st, o).points, Insert(st, o).keypoints)
    ensures TotalKeypoints(Insert(st, o).keypoints) == TotalKeypoints(st.keypoints) + 1
  {
    var st' := Insert(st, o);
    var key := Quantize(o.xyz);
    SumLengthsUpdate(st.keypoints, o.img, st'.keypoints[o.img]);
    if key in st.index {
      var id := st.index[key];
      assert Tracks(st'.points) == Tracks(st.points)[id := st'.points[id].track];
      SumLengthsUpdate(Tracks(st.points), id, st'.points[id].track);
    } else {
      assert Tracks(st'.points) == Tracks(st.points) + [st'.points[|st.points|].track];
      SumLengthsAppend(Tracks(st.points), st'.points[|st.points|].track);
    }
  }

  lemma InsertPreservesValid(st: State, n: nat, o: Observation)
    requires Valid(st, n) && o.img < n
    ensures Valid(Insert(st, o), n)
    ensures TotalKeypoints(Insert(st, o).keypoints) == TotalKeypoints(st.keypoints) + 1
  {
    InsertKeepsIdsDense(st, o);
    InsertKeepsPointsWellFormed(st, o);
    InsertKeepsIndexExact(st, o);
    InsertKeepsTracksResolve(st, o);
    InsertKeepsKeypointsTracked(st, n, o);
    InsertKeepsCounted(st, o);
  }

  // ---------------------------------------------------------------------
  // The fold over all accepted samples
  // ---------------------------------------------------------------------

  predicate ImagesBelow(obs: seq<Observation>, n: nat) {
    forall i :: 0 <= i < |obs| ==> obs[i].img < n
  }

  /** The store after folding the accepted samples, in processing order, into
      the empty store for n images. */
  function Build(n: nat, obs: seq<Observation>): (st: State)
    requires ImagesBelow(obs, n)
    ensures |st.keypoints| == n && IndexBounded(st)
  {
    if |obs| == 0 then Init(n)
    else Insert(Build(n, obs[..|obs| - 1]), obs[|obs| - 1])
  }

  /** The fold satisfies every invariant of the store, and holds one keypoint
      (and one track entry) per accepted sample. */
  lemma {:induction false} BuildValid(n: nat, obs: seq<Observation>)
    requires ImagesBelow(obs, n)
    ensures Valid(Build(n, obs), n)
    ensures TotalKeypoints(Build(n, obs).keypoints) == |obs|
    ensures SumTracks(Build(n, obs).points) == |obs|
  {
    if |obs| > 0 {
      var obs' := obs[..|obs| - 1];
      var prev := Build(n, obs');
      BuildValid(n, obs');
      InsertPreservesValid(prev, n, obs[|obs| - 1]);
      assert Build(n, obs) == Insert(prev, obs[|obs| - 1]);
    }
  }
}

module ReconstructionFacts {
  import opened Geometry
  import opened Reconstruction

  /** The accepted samples of one image, in processing order. */
  function ObservationsOf(obs: seq<Observation>, img: nat): (r: seq<Observation>)
    ensures |r| <= |obs|
    ensures forall i :: 0 <= i < |r| ==> r[i].img == img && r[i] in obs
  {
    if |obs| == 0 then []
    else ObservationsOf(obs[..|obs| - 1], img) + (if obs[|obs| - 1].img == img then [obs[|obs| - 1]] else [])
  }

  /** The keypoints of image img are those of its accepted samples, in order,
      each referring to the point stored under the sample's key. */
  predicate KeypointsFollow(st: State, obs: seq<Observation>, img: nat)
    requires img < |st.keypoints|
  {
    && |st.keypoints[img]| == |ObservationsOf(obs, img)|
    && forall k :: 0 <= k < |st.keypoints[img]| ==>
         && Quantize(ObservationsOf(obs, img)[k].xyz) in st.index
         && st.keypoints[img][k] == Keypoint(ObservationsOf(obs, img)[k].x, ObservationsOf(obs, img)[k].y,
                                             st.index[Quantize(ObservationsOf(obs, img)[k].xyz)])
  }

  lemma KeypointsFollowStep(prev: State, obs: seq<Observation>, img: nat)
    requires |obs| > 0 && obs[|obs| - 1].img < |prev.keypoints| && img < |prev.keypoints|
    requires IndexBounded(prev)
    requires KeypointsFollow(prev, obs[..|obs| - 1], img)
    ensures img < |Insert(prev, obs[|obs| - 1]).keypoints|
    ensures KeypointsFollow(Insert(prev, obs[|obs| - 1]), obs, img)
  {
    var obs' := obs[..|obs| - 1];
    var o := obs[|obs| - 1];
    var st := Insert(prev, o);
    var before := ObservationsOf(obs', img);
    var after := ObservationsOf(obs, img);
    assert after == before + (if o.img == img then [o] else []);
    forall k | 0 <= k < |before|
      ensures Quantize(after[k].xyz) in st.index
      ensures st.keypoints[img][k] == Keypoint(after[k].x, after[k].y, st.index[Quantize(after[k].xyz)])
    {
      assert after[k] == before[k];
      assert st.keypoints[img][k] == prev.keypoints[img][k];
    }
  }

  /** Keypoint list of each image, element by element: the k-th keypoint of an
      image comes from the k-th accepted sample of that image, has its grid
      coordinates, and refers to the point stored under its key. */
  lemma {:induction false} KeypointsFollowObservations(n: nat, obs: seq<Observation>, img: nat)
    requires ImagesBelow(obs, n) && img < n
    ensures KeypointsFollow(Build(n, obs), obs, img)
  {
    if |obs| > 0 {
      var obs' := obs[..|obs| - 1];
      var prev := Build(n, obs');
      assert KeypointsFollow(Insert(prev, obs[|obs| - 1]), obs, img) by {
        KeypointsFollowObservations(n, obs', img);
        KeypointsFollowStep(prev, obs, img);
      }
      assert Build(n, obs) == Insert(prev, obs[|obs| - 1]);
    }
  }

  /** Deduplication: two accepted samples refer to the same 3D point exactly
      when their quantised positions are the same integer triple. */
  lemma SamePointIffSameKey(n: nat, obs: seq<Observation>, img1: nat, k1: nat, img2: nat, k2: nat)
    requires ImagesBelow(obs, n) && img1 < n && img2 < n
    requires k1 < |ObservationsOf(obs, img1)| && k2 < |ObservationsOf(obs, img2)|
    ensures var st := Build(n, obs);
      && k1 < |st.keypoints[img1]| && k2 < |st.keypoints[img2]|
      && (st.keypoints[img1][k1].pointId == st.keypoints[img2][k2].pointId <==>
          Quantize(ObservationsOf(obs, img1)[k1].xyz) == Quantize(ObservationsOf(obs, img2)[k2].xyz))
  {
    var st := Build(n, obs);
    BuildValid(n, obs);
    KeypointsFollowObservations(n, obs, img1);
    KeypointsFollowObservations(n, obs, img2);
    var a := Quantize(ObservationsOf(obs, img1)[k1].xyz);
    var b := Quantize(ObservationsOf(obs, img2)[k2].xyz);
    assert Quantize(st.points[st.index[a]].xyz) == a;
    assert Quantize(st.points[st.index[b]].xyz) == b;
  }

  /** The set of keys of the accepted samples. */
  function KeysOf(obs: seq<Observation>): set<Key> {
    set i | 0 <= i < |obs| :: Quantize(obs[i].xyz)
  }

  lemma KeysOfSnoc(obs: seq<Observation>)
    requires |obs| > 0
    ensures KeysOf(obs) == KeysOf(obs[..|obs| - 1]) + {Quantize(obs[|obs| - 1].xyz)}
  {
    var obs' := obs[..|obs| - 1];
    forall k | k in KeysOf(obs) ensures k in KeysOf(obs') + {Quantize(obs[|obs| - 1].xyz)} {
      var i :| 0 <= i < |obs| && Quantize(obs[i].xyz) == k;
      if i < |obs'| {
        assert obs'[i] == obs[i];
      }
    }
    forall k | k in KeysOf(obs') ensures k in KeysOf(obs) {
      var i :| 0 <= i < |obs'| && Quantize(obs'[i].xyz) == k;
      assert obs[i] == obs'[i];
    }
  }

  lemma IndexKeysStep(prev: State, obs: seq<Observation>)
    requires |obs| > 0 && obs[|obs| - 1].img < |prev.keypoints|
    requires IndexBounded(prev)
    requires prev.index.Keys == KeysOf(obs[..|obs| - 1]) && |prev.points| == |prev.index.Keys|
    ensures var st := Insert(prev, obs[|obs| - 1]);
      st.index.Keys == KeysOf(obs) && |st.points| == |st.index.Keys|
  {
    var o := obs[|obs| - 1];
    KeysOfSnoc(obs);
    if Quantize(o.xyz) !in prev.index {
      assert |prev.index.Keys + {Quantize(o.xyz)}| == |prev.index.Keys| + 1;
    } else {
      assert prev.index.Keys + {Quantize(o.xyz)} == prev.index.Keys;
    }
  }

  /** The key map holds exactly the keys of the accepted samples, and has as
      many entries as there are points. */
  lemma {:induction false} IndexKeysAreSampleKeys(n: nat, obs: seq<Observation>)
    requires ImagesBelow(obs, n)
    ensures Build(n, obs).index.Keys == KeysOf(obs)
    ensures |Build(n, obs).points| == |Build(n, obs).index.Keys|
  {
    if |obs| > 0 {
      var obs' := obs[..|obs| - 1];
      var prev := Build(n, obs');
      var st := Insert(prev, obs[|obs| - 1]);
      assert st.index.Keys == KeysOf(obs) && |st.points| == |st.index.Keys| by {
        IndexKeysAreSampleKeys(n, obs');
        IndexKeysStep(prev, obs);
      }
      assert Build(n, obs) == st;
    } else {
      assert KeysOf(obs) == {};
    }
  }

  /** No point is lost or merged: there are exactly as many points as distinct
      keys among the accepted samples. */
  lemma PointCountIsKeyCount(n: nat, obs: seq<Observation>)
    requires ImagesBelow(obs, n)
    ensures |Build(n, obs).points| == |KeysOf(obs)|
  {
    IndexKeysAreSampleKeys(n, obs);
  }

  /** Sample f is the first with its key. */
  predicate FirstSighting(obs: seq<Observation>, f: nat) {
    f < |obs| && forall j :: 0 <= j < f ==> Quantize(obs[j].xyz) != Quantize(obs[f].xyz)
  }

  lemma FirstSightingInPrefix(obs: seq<Observation>, f: nat)
    requires |obs| > 0 && FirstSighting(obs[..|obs| - 1], f)
    ensures FirstSighting(obs, f) && obs[f] == obs[..|obs| - 1][f]
  {
    var obs' := obs[..|obs| - 1];
    forall j | 0 <= j < f ensures Quantize(obs[j].xyz) != Quantize(obs[f].xyz) {
      assert obs[j] == obs'[j];
    }
  }

  /** Point p has the position and colour of the first sample with its key. */
  predicate FromFirstSighting(st: State, obs: seq<Observation>, p: nat)
    requires p < |st.points|
  {
    exists f :: 0 <= f < |obs| && FirstSighting(obs, f) && st.points[p].xyz == obs[f].xyz && st.points[p].rgb == obs[f].rgb
  }

  predicate AllFromFirstSighting(st: State, obs: seq<Observation>) {
    forall p :: 0 <= p < |st.points| ==> FromFirstSighting(st, obs, p)
  }

  lemma FirstSightingStep(prev: State, obs: seq<Observation>)
    requires |obs| > 0 && obs[|obs| - 1].img < |prev.keypoints|
    requires IndexBounded(prev)
    requires prev.index.Keys == KeysOf(obs[..|obs| - 1])
    requires AllFromFirstSighting(prev, obs[..|obs| - 1])
    ensures AllFromFirstSighting(Insert(prev, obs[|obs| - 1]), obs)
  {
    var obs' := obs[..|obs| - 1];
    var o := obs[|obs| - 1];
    var st := Insert(prev, o);
    forall p | 0 <= p < |st.points|
      ensures FromFirstSighting(st, obs, p)
    {
      if p < |prev.points| {
        assert FromFirstSighting(prev, obs', p);
        var f :| 0 <= f < |obs'| && FirstSighting(obs', f) && prev.points[p].xyz == obs'[f].xyz && prev.points[p].rgb == obs'[f].rgb;
        FirstSightingInPrefix(obs, f);
        assert st.points[p].xyz == prev.points[p].xyz && st.points[p].rgb == prev.points[p].rgb;
      } else {
        var f := |obs'|;
        forall j | 0 <= j < f ensures Quantize(obs[j].xyz) != Quantize(obs[f].xyz) {
          assert obs[j] == obs'[j];
          assert Quantize(obs'[j].xyz) in KeysOf(obs');
        }
        assert FirstSighting(obs, f);
      }
    }
  }

  /** Each point keeps the position and colour of the first sample that had its
      key: later samples with the same key never overwrite them. */
  lemma {:induction false} PointsAreFirstSightings(n: nat, obs: seq<Observation>)
    requires ImagesBelow(obs, n)
    ensures AllFromFirstSighting(Build(n, obs), obs)
  {
    if |obs| > 0 {
      var obs' := obs[..|obs| - 1];
      var o := obs[|obs| - 1];
      var prev := Build(n, obs');
      assert AllFromFirstSighting(Insert(prev, o), obs) by {
        PointsAreFirstSightings(n, obs');
        IndexKeysAreSampleKeys(n, obs');
        FirstSightingStep(prev, obs);
      }
      assert Build(n, obs) == Insert(prev, o);
    }
  }

  /** Images in non-decreasing order, as the image loop produces them. */
  predicate ImagesAscending(obs: seq<Observation>) {
    forall i, j :: 0 <= i < j < |obs| ==> obs[i].img <= obs[j].img
  }

  predicate EntryBefore(a: TrackEntry, b: TrackEntry) {
    a.img < b.img || (a.img == b.img && a.kp < b.kp)
  }

  /** Track p is strictly ordered by (image, keypoint index). */
  predicate TrackOrdered(st: State, p: nat)
    requires p < |st.points|
  {
    forall i, j :: 0 <= i < j < |st.points[p].track| ==> EntryBefore(st.points[p].track[i], st.points[p].track[j])
  }

  predicate AllTracksOrdered(st: State) {
    forall p :: 0 <= p < |st.points| ==> TrackOrdered(st, p)
  }

  /** Only images up to `last` have keypoints. */
  predicate KeypointsUpTo(st: State, last: nat) {
    forall img :: 0 <= img < |st.keypoints| && |st.keypoints[img]| > 0 ==> img <= last
  }

  /** An image with keypoints has had an accepted sample. */
  lemma KeypointsHaveSamples(n: nat, obs: seq<Observation>, img: nat)
    requires ImagesBelow(obs, n) && img < n
    requires |Build(n, obs).keypoints[img]| > 0
    ensures exists j :: 0 <= j < |obs| && obs[j].img == img
  {
    KeypointsFollowObservations(n, obs, img);
    var w := ObservationsOf(obs, img)[0];
    assert w in obs;
  }

  lemma TracksOrderedStep(prev: State, o: Observation)
    requires o.img < |prev.keypoints|
    requires IndexBounded(prev)
    requires TracksResolve(prev.points, prev.keypoints)
    requires KeypointsUpTo(prev, o.img)
    requires AllTracksOrdered(prev)
    ensures AllTracksOrdered(Insert(prev, o))
  {
    var st := Insert(prev, o);
    var entry := TrackEntry(o.img, |prev.keypoints[o.img]|);
    forall p | 0 <= p < |st.points|
      ensures TrackOrdered(st, p)
    {
      if p < |prev.points| {
        assert TrackOrdered(prev, p);
        var old_ := prev.points[p].track;
        assert st.points[p].track == old_ || st.points[p].track == old_ + [entry];
        forall i | 0 <= i < |old_|
          ensures EntryBefore(old_[i], entry)
        {
          var t := old_[i];
          assert Resolves(prev.keypoints, t, p);
          assert |prev.keypoints[t.img]| > 0;
        }
      } else {
        assert st.points[p].track == [entry];
      }
    }
  }

  /** Before the last sample is folded in, only images up to its image have
      keypoints. */
  lemma SampledImagesPrecede(n: nat, obs: seq<Observation>)
    requires ImagesBelow(obs, n) && ImagesAscending(obs) && |obs| > 0
    ensures KeypointsUpTo(Build(n, obs[..|obs| - 1]), obs[|obs| - 1].img)
  {
    var obs' := obs[..|obs| - 1];
    var prev := Build(n, obs');
    forall img | 0 <= img < |prev.keypoints| && |prev.keypoints[img]| > 0
      ensures img <= obs[|obs| - 1].img
    {
      KeypointsHaveSamples(n, obs', img);
      var j :| 0 <= j < |obs'| && obs'[j].img == img;
      assert obs[j] == obs'[j];
    }
  }

  lemma AscendingPrefix(obs: seq<Observation>)
    requires ImagesAscending(obs) && |obs| > 0
    ensures ImagesAscending(obs[..|obs| - 1])
  {
  }

  /** Processing images in ascending order makes every track strictly ordered
      by (image, keypoint index): the first entry is the first sighting. */
  lemma {:induction false} TracksOrdered(n: nat, obs: seq<Observation>)
    requires ImagesBelow(obs, n) && ImagesAscending(obs)
    ensures AllTracksOrdered(Build(n, obs))
  {
    if |obs| > 0 {
      var obs' := obs[..|obs| - 1];
      var o := obs[|obs| - 1];
      var prev := Build(n, obs');
      assert AllTracksOrdered(Insert(prev, o)) by {
        AscendingPrefix(obs);
        TracksOrdered(n, obs');
        BuildValid(n, obs');
        SampledImagesPrecede(n, obs);
        TracksOrderedStep(prev, o);
      }
      assert Build(n, obs) == Insert(prev, o);
    }
  }
}

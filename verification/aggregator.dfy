/**
 * `filter_and_prepare_points`: the confidence cutoff, the strided scan of every
 * prediction grid, the per-sample filters, and the fold of the accepted samples
 * into the deduplicating point store.
 */
module Aggregator {
  import opened Wrappers
  import opened Geometry
  import opened Heuristics
  import opened Sampling
  import opened Visits
  import opened Reconstruction
  import opened ReconstructionFacts

  /** One image's predictions: the world-point grid, the confidence grid (both
      height x width) and the original colour image it was predicted from. */
  datatype Frame = Frame(points: seq<seq<Sample3>>, conf: seq<seq<real>>, image: seq<seq<Rgb>>)

  /** The prediction arrays of all images; the grids share one height and width. */
  datatype Predictions = Predictions(height: nat, width: nat, frames: seq<Frame>)

  /** The three optional background filters (`mask_sky`, `mask_black_bg`,
      `mask_white_bg`). */
  datatype Filters = Filters(sky: bool, blackBg: bool, whiteBg: bool)

  /** Why the aggregator raises instead of returning: `np.max` of an empty
      confidence array, or `range` with step 0. */
  datatype AggregateError = EmptyConfidence | ZeroStride

  /** `points3D` and `image_points2D` as returned to the writers. */
  datatype Output = Output(points: seq<Point3D>, keypoints: seq<seq<Keypoint>>)

  predicate FrameWellFormed(f: Frame, height: nat, width: nat) {
    && |f.points| == height
    && |f.conf| == height
    && (forall y :: 0 <= y < height ==> |f.points[y]| == width && |f.conf[y]| == width)
    && |f.image| > 0
    && |f.image[0]| > 0
    && (forall r :: 0 <= r < |f.image| ==> |f.image[r]| == |f.image[0]|)
  }

  predicate WellFormed(p: Predictions) {
    forall i :: 0 <= i < |p.frames| ==> FrameWellFormed(p.frames[i], p.height, p.width)
  }

  // ---------------------------------------------------------------------
  // The confidence cutoff
  // ---------------------------------------------------------------------

  /** The elements of a sequence of sequences, in order. */
  function Flatten<T>(ss: seq<seq<T>>): (r: seq<T>)
    ensures |r| == SumLengths(ss)
  {
    if |ss| == 0 then [] else Flatten(ss[..|ss| - 1]) + ss[|ss| - 1]
  }

  lemma {:induction false} InFlatten<T>(ss: seq<seq<T>>, i: nat, j: nat)
    requires i < |ss| && j < |ss[i]|
    ensures ss[i][j] in Flatten(ss)
  {
    var last := |ss| - 1;
    if i < last {
      assert ss[..last][i] == ss[i];
      InFlatten(ss[..last], i, j);
    }
  }

  /** Every confidence value of every image (`depth_conf` flattened). */
  function Confidences(frames: seq<Frame>): (r: seq<real>)
  {
    if |frames| == 0 then [] else Confidences(frames[..|frames| - 1]) + Flatten(frames[|frames| - 1].conf)
  }

  lemma {:induction false} InConfidences(frames: seq<Frame>, i: nat, y: nat, x: nat)
    requires i < |frames| && y < |frames[i].conf| && x < |frames[i].conf[y]|
    ensures frames[i].conf[y][x] in Confidences(frames)
  {
    var last := |frames| - 1;
    if i < last {
      assert frames[..last][i] == frames[i];
      InConfidences(frames[..last], i, y, x);
    } else {
      InFlatten(frames[i].conf, y, x);
    }
  }

  /** For well-formed predictions there is a confidence value exactly when
      there is an image and the grids are not empty. */
  lemma {:induction false} ConfidencesEmptyIff(p: Predictions)
    requires WellFormed(p)
    ensures |Confidences(p.frames)| == 0 <==> |p.frames| == 0 || p.height == 0 || p.width == 0
  {
    if |p.frames| > 0 && p.height > 0 && p.width > 0 {
      InConfidences(p.frames, 0, 0, 0);
    } else if |p.frames| > 0 {
      EmptyGridsHaveNoConfidence(p, |p.frames|);
      assert p.frames[..|p.frames|] == p.frames;
    }
  }

  lemma {:induction false} EmptyGridsHaveNoConfidence(p: Predictions, n: nat)
    requires WellFormed(p) && n <= |p.frames|
    requires p.height == 0 || p.width == 0
    ensures |Confidences(p.frames[..n])| == 0
  {
    if n > 0 {
      assert p.frames[..n][..n - 1] == p.frames[..n - 1];
      EmptyGridsHaveNoConfidence(p, n - 1);
      var f := p.frames[n - 1];
      assert FrameWellFormed(f, p.height, p.width);
      EmptyRowsFlatten(f.conf, |f.conf|);
      assert f.conf[..|f.conf|] == f.conf;
    }
  }

  lemma {:induction false} EmptyRowsFlatten<T>(ss: seq<seq<T>>, n: nat)
    requires n <= |ss|
    requires forall i :: 0 <= i < |ss| ==> |ss[i]| == 0
    ensures |Flatten(ss[..n])| == 0
  {
    if n > 0 {
      assert ss[..n][..n - 1] == ss[..n - 1];
      EmptyRowsFlatten(ss, n - 1);
    }
  }

  /** The largest element of a non-empty sequence. */
  function SeqMax(s: seq<real>): (m: real)
    requires |s| > 0
    ensures m in s
    ensures forall i :: 0 <= i < |s| ==> s[i] <= m
  {
    if |s| == 1 then s[0]
    else
      var m := SeqMax(s[..|s| - 1]);
      assert forall i :: 0 <= i < |s| - 1 ==> s[..|s| - 1][i] == s[i];
      if s[|s| - 1] > m then s[|s| - 1] else m
  }

  predicate HasConfidence(p: Predictions) {
    |Confidences(p.frames)| > 0
  }

  /** `np.max(depth_conf)`. */
  function MaxConfidence(p: Predictions): real
    requires HasConfidence(p)
  {
    SeqMax(Confidences(p.frames))
  }

  /** The percentage threshold scaled to the confidence range. A percentage in
      [0, 100] of a non-negative maximum lies between 0 and the maximum; a
      percentage up to 100 of a non-positive maximum is at least the maximum,
      and so is a percentage of 100 or more of a non-negative one. */
  function Cutoff(p: Predictions, pct: real): (c: real)
    requires HasConfidence(p)
    ensures 0.0 <= pct <= 100.0 && MaxConfidence(p) >= 0.0 ==> 0.0 <= c <= MaxConfidence(p)
    ensures pct <= 100.0 && MaxConfidence(p) <= 0.0 ==> c >= MaxConfidence(p)
    ensures pct >= 100.0 && MaxConfidence(p) >= 0.0 ==> c >= MaxConfidence(p)
  {
    var m := MaxConfidence(p);
    PercentBounds(pct, m);
    PercentOf(pct, m)
  }

  /** `pct` percent of `m`. */
  function PercentOf(pct: real, m: real): real {
    pct / 100.0 * m
  }

  lemma PercentBounds(pct: real, m: real)
    ensures 0.0 <= pct <= 100.0 && m >= 0.0 ==> 0.0 <= PercentOf(pct, m) <= m
    ensures pct <= 100.0 && m <= 0.0 ==> PercentOf(pct, m) >= m
    ensures pct >= 100.0 && m >= 0.0 ==> PercentOf(pct, m) >= m
  {
    var f := pct / 100.0;
    assert pct <= 100.0 <==> f <= 1.0;
    assert 0.0 <= pct <==> 0.0 <= f;
    assert pct >= 100.0 <==> f >= 1.0;
    assert PercentOf(pct, m) == f * m;
    ScaledBounds(f, m);
  }

  lemma MulNonNegative(a: real, b: real)
    requires a >= 0.0 && b >= 0.0
    ensures a * b >= 0.0
  {
  }

  /** A fraction f of m compared with 0 and with m itself. */
  lemma ScaledBounds(f: real, m: real)
    ensures 0.0 <= f <= 1.0 && m >= 0.0 ==> 0.0 <= f * m <= m
    ensures f <= 1.0 && m <= 0.0 ==> f * m >= m
    ensures f >= 1.0 && m >= 0.0 ==> f * m >= m
  {
    assert f * m - m == (f - 1.0) * m;
    if 0.0 <= f <= 1.0 && m >= 0.0 {
      MulNonNegative(f, m);
      MulNonNegative(1.0 - f, m);
    }
    if f <= 1.0 && m <= 0.0 {
      MulNonNegative(1.0 - f, -m);
    }
    if f >= 1.0 && m >= 0.0 {
      MulNonNegative(f - 1.0, m);
    }
  }

  /** With a non-negative maximum, a higher percentage never gives a lower
      cutoff. */
  lemma CutoffMonotone(p: Predictions, pct1: real, pct2: real)
    requires HasConfidence(p) && MaxConfidence(p) >= 0.0 && pct1 <= pct2
    ensures Cutoff(p, pct1) <= Cutoff(p, pct2)
  {
    var m := MaxConfidence(p);
    assert Cutoff(p, pct2) - Cutoff(p, pct1) == (pct2 - pct1) / 100.0 * m;
    MulNonNegative((pct2 - pct1) / 100.0, m);
  }

  // ---------------------------------------------------------------------
  // One grid cell
  // ---------------------------------------------------------------------

  predicate InGrid(p: Predictions, v: Visit) {
    v.img < |p.frames| && v.y < p.height && v.x < p.width
  }

  predicate AllInGrid(p: Predictions, vs: seq<Visit>) {
    forall i :: 0 <= i < |vs| ==> InGrid(p, vs[i])
  }

  /** The colour of the original image under grid cell v, after scaling the grid
      coordinates to the image's own size. */
  function ColourAt(p: Predictions, v: Visit): Rgb
    requires WellFormed(p) && InGrid(p, v)
  {
    var f := p.frames[v.img];
    assert FrameWellFormed(f, p.height, p.width);
    var row := ColourIndex(v.y, p.height, |f.image|);
    f.image[row][ColourIndex(v.x, p.width, |f.image[0]|)]
  }

  /** Whether an enabled background filter rejects the sample. */
  predicate Masked(flags: Filters, pt: Vec3, c: Rgb) {
    || (flags.sky && IsSky(pt, c))
    || (flags.blackBg && IsBlackBg(c))
    || (flags.whiteBg && IsWhiteBg(c))
  }

  /** The body of the innermost loop: a cell yields an accepted sample exactly
      when its confidence is above the cutoff, its world point is finite and no
      enabled filter rejects its colour; the sample records the cell, the point
      and that colour. */
  function Examine(p: Predictions, cutoff: real, flags: Filters, v: Visit): (r: Option<Observation>)
    requires WellFormed(p) && InGrid(p, v)
    ensures
      var f := p.frames[v.img];
      r.Some? <==>
        && f.conf[v.y][v.x] > cutoff
        && f.points[v.y][v.x].IsFinite()
        && !Masked(flags, f.points[v.y][v.x].ToVec3(), ColourAt(p, v))
    ensures r.Some? ==>
      r.value == Observation(v.img, v.x, v.y, p.frames[v.img].points[v.y][v.x].ToVec3(), ColourAt(p, v))
  {
    var f := p.frames[v.img];
    assert FrameWellFormed(f, p.height, p.width);
    if !(f.conf[v.y][v.x] > cutoff) then None
    else if !f.points[v.y][v.x].IsFinite() then None
    else
      var pt := f.points[v.y][v.x].ToVec3();
      var rgb := ColourAt(p, v);
      if flags.sky && IsSky(pt, rgb) then None
      else if flags.blackBg && IsBlackBg(rgb) then None
      else if flags.whiteBg && IsWhiteBg(rgb) then None
      else Some(Observation(v.img, v.x, v.y, pt, rgb))
  }

  /** The accepted samples of a sequence of visits, in visiting order. */
  function Observations(p: Predictions, cutoff: real, flags: Filters, vs: seq<Visit>): (r: seq<Observation>)
    requires WellFormed(p) && AllInGrid(p, vs)
    ensures |r| <= |vs|
    ensures ImagesBelow(r, |p.frames|)
  {
    if |vs| == 0 then []
    else
      var vs' := vs[..|vs| - 1];
      assert AllInGrid(p, vs');
      Observations(p, cutoff, flags, vs') + OptionToSeq(Examine(p, cutoff, flags, vs[|vs| - 1]))
  }

  /** Sample o was produced by one of the visits. */
  predicate ProducedBy(p: Predictions, cutoff: real, flags: Filters, vs: seq<Visit>, o: Observation)
    requires WellFormed(p) && AllInGrid(p, vs)
  {
    exists j :: 0 <= j < |vs| && Examine(p, cutoff, flags, vs[j]) == Some(o)
  }

  lemma ProducedBySnoc(p: Predictions, cutoff: real, flags: Filters, vs: seq<Visit>, v: Visit, o: Observation)
    requires WellFormed(p) && AllInGrid(p, vs) && InGrid(p, v)
    ensures AllInGrid(p, vs + [v])
    ensures ProducedBy(p, cutoff, flags, vs + [v], o) <==>
      ProducedBy(p, cutoff, flags, vs, o) || Examine(p, cutoff, flags, v) == Some(o)
  {
    var all := vs + [v];
    assert AllInGrid(p, all);
    if ProducedBy(p, cutoff, flags, all, o) {
      var j :| 0 <= j < |all| && Examine(p, cutoff, flags, all[j]) == Some(o);
      if j < |vs| {
        assert all[j] == vs[j];
      }
    }
    if ProducedBy(p, cutoff, flags, vs, o) {
      var j :| 0 <= j < |vs| && Examine(p, cutoff, flags, vs[j]) == Some(o);
      assert all[j] == vs[j];
    }
    if Examine(p, cutoff, flags, v) == Some(o) {
      assert all[|vs|] == v;
    }
  }

  /** The accepted samples are exactly the results of the visits that accept. */
  lemma {:induction false} ObservationsAreAccepted(p: Predictions, cutoff: real, flags: Filters, vs: seq<Visit>, o: Observation)
    requires WellFormed(p) && AllInGrid(p, vs)
    ensures o in Observations(p, cutoff, flags, vs) <==> ProducedBy(p, cutoff, flags, vs, o)
  {
    if |vs| > 0 {
      var vs' := vs[..|vs| - 1];
      var v := vs[|vs| - 1];
      assert vs' + [v] == vs;
      assert AllInGrid(p, vs');
      ObservationsAreAccepted(p, cutoff, flags, vs', o);
      ObservationsSnoc(p, cutoff, flags, vs', v);
      ProducedBySnoc(p, cutoff, flags, vs', v, o);
    }
  }

  // ---------------------------------------------------------------------
  // The whole pass
  // ---------------------------------------------------------------------

  /** The cells the nested loops visit: every image, rows and columns
      `range(0, h, stride)` and `range(0, w, stride)`. */
  function Scan(p: Predictions, stride: int): (vs: seq<Visit>)
    requires stride != 0
  {
    AllVisits(Range(|p.frames|, 1), Range(p.height, stride), Range(p.width, stride))
  }

  lemma ScanInGrid(p: Predictions, stride: int)
    requires stride != 0
    ensures AllInGrid(p, Scan(p, stride))
  {
    var vs := Scan(p, stride);
    forall i | 0 <= i < |vs| ensures InGrid(p, vs[i]) {
      AllVisitsMembers(Range(|p.frames|, 1), Range(p.height, stride), Range(p.width, stride), vs[i]);
    }
  }

  /** The accepted samples of the whole pass, in processing order. */
  function Accepted(p: Predictions, pct: real, flags: Filters, stride: int): (obs: seq<Observation>)
    requires WellFormed(p) && HasConfidence(p) && stride != 0
    ensures ImagesBelow(obs, |p.frames|)
  {
    ScanInGrid(p, stride);
    Observations(p, Cutoff(p, pct), flags, Scan(p, stride))
  }

  /** `filter_and_prepare_points`. It raises when there is no confidence value
      or the stride is 0; otherwise it returns one keypoint list per image and
      a consistent set of points and tracks holding one keypoint per accepted
      sample. */
  function Aggregate(p: Predictions, pct: real, flags: Filters, stride: int): (r: Result<Output, AggregateError>)
    requires WellFormed(p)
    ensures r == Failure(EmptyConfidence) <==> |p.frames| == 0 || p.height == 0 || p.width == 0
    ensures r == Failure(ZeroStride) <==> |p.frames| > 0 && p.height > 0 && p.width > 0 && stride == 0
    ensures r.Success? ==>
      && |r.value.keypoints| == |p.frames|
      && Consistent(r.value.points, r.value.keypoints)
      && TotalKeypoints(r.value.keypoints) == |Accepted(p, pct, flags, stride)|
  {
    ConfidencesEmptyIff(p);
    if !HasConfidence(p) then Failure(EmptyConfidence)
    else if stride == 0 then Failure(ZeroStride)
    else
      var obs := Accepted(p, pct, flags, stride);
      var st := Build(|p.frames|, obs);
      BuildValid(|p.frames|, obs);
      Success(Output(st.points, st.keypoints))
  }

  /** The store behind a successful result. */
  function StoreOf(p: Predictions, pct: real, flags: Filters, stride: int): (st: State)
    requires WellFormed(p) && HasConfidence(p) && stride != 0
    ensures |st.keypoints| == |p.frames|
  {
    Build(|p.frames|, Accepted(p, pct, flags, stride))
  }

  /** What `filter_and_prepare_points` returns, when it does not raise, is the
      points and keypoint lists of the store that folds in the accepted samples. */
  lemma AggregateIsStore(p: Predictions, pct: real, flags: Filters, stride: int)
    requires WellFormed(p) && HasConfidence(p) && stride != 0
    ensures Aggregate(p, pct, flags, stride) ==
      Success(Output(StoreOf(p, pct, flags, stride).points, StoreOf(p, pct, flags, stride).keypoints))
  {
  }

  /** Examining one more cell extends the accepted samples by its result. */
  lemma ObservationsSnoc(p: Predictions, cutoff: real, flags: Filters, vs: seq<Visit>, v: Visit)
    requires WellFormed(p) && AllInGrid(p, vs) && InGrid(p, v)
    ensures AllInGrid(p, vs + [v])
    ensures Observations(p, cutoff, flags, vs + [v]) ==
      Observations(p, cutoff, flags, vs) + OptionToSeq(Examine(p, cutoff, flags, v))
  {
    assert (vs + [v])[..|vs|] == vs;
  }

  /** Every coordinate of an axis lies below its bound. */
  predicate AllBelow(axis: seq<nat>, bound: nat) {
    forall k :: 0 <= k < |axis| ==> axis[k] < bound
  }

  /** The store holds exactly the accepted samples among the visits so far. */
  predicate Folded(p: Predictions, cutoff: real, flags: Filters, vs: seq<Visit>, st: State) {
    && WellFormed(p)
    && AllInGrid(p, vs)
    && st == Build(|p.frames|, Observations(p, cutoff, flags, vs))
  }

}

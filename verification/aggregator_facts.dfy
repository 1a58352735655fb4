/**
 * What the whole pass of `filter_and_prepare_points` guarantees about its
 * result: which samples it accepts, in which order, how many keypoints each
 * image receives, and how the result shrinks as the confidence percentage
 * grows.
 */
module AggregatorFacts {
  import opened Wrappers
  import opened Geometry
  import opened Sampling
  import opened Visits
  import opened Reconstruction
  import opened ReconstructionFacts
  import opened Aggregator

  /** The grid cell a sample was taken from. */
  function SiteOf(o: Observation): Visit {
    Visit(o.img, o.y, o.x)
  }

  /** Samples in strictly increasing (image, row, column) order. */
  predicate InScanOrder(obs: seq<Observation>) {
    forall i, j :: 0 <= i < j < |obs| ==> VisitBefore(SiteOf(obs[i]), SiteOf(obs[j]))
  }

  // ---------------------------------------------------------------------
  // Which samples are accepted
  // ---------------------------------------------------------------------

  /** Every accepted sample was taken at one of the visited cells. */
  lemma ObservationSites(p: Predictions, cutoff: real, flags: Filters, vs: seq<Visit>)
    requires WellFormed(p) && AllInGrid(p, vs)
    ensures forall i :: 0 <= i < |Observations(p, cutoff, flags, vs)| ==>
      SiteOf(Observations(p, cutoff, flags, vs)[i]) in vs
  {
    var obs := Observations(p, cutoff, flags, vs);
    forall i | 0 <= i < |obs| ensures SiteOf(obs[i]) in vs {
      ObservationsAreAccepted(p, cutoff, flags, vs, obs[i]);
      var j :| 0 <= j < |vs| && Examine(p, cutoff, flags, vs[j]) == Some(obs[i]);
    }
  }

  /** The samples of the whole pass are exactly the samples the cell test
      accepts at the cells `range(num_frames)` x `range(0, h, stride)` x
      `range(0, w, stride)`. */
  lemma AcceptedIff(p: Predictions, pct: real, flags: Filters, stride: int, o: Observation)
    requires WellFormed(p) && HasConfidence(p) && stride != 0
    ensures o in Accepted(p, pct, flags, stride) <==>
      && o.img < |p.frames|
      && o.y in Range(p.height, stride)
      && o.x in Range(p.width, stride)
      && Examine(p, Cutoff(p, pct), flags, SiteOf(o)) == Some(o)
  {
    var cutoff := Cutoff(p, pct);
    var imgs, ys, xs := Range(|p.frames|, 1), Range(p.height, stride), Range(p.width, stride);
    var vs := Scan(p, stride);
    ScanInGrid(p, stride);
    ObservationsAreAccepted(p, cutoff, flags, vs, o);
    if o in Accepted(p, pct, flags, stride) {
      var j :| 0 <= j < |vs| && Examine(p, cutoff, flags, vs[j]) == Some(o);
      AllVisitsMembers(imgs, ys, xs, vs[j]);
    }
    if o.img < |p.frames| && o.y in ys && o.x in xs && Examine(p, cutoff, flags, SiteOf(o)) == Some(o) {
      RangeMembers(|p.frames|, 1, o.img);
      AllVisitsMembers(imgs, ys, xs, SiteOf(o));
      var j :| 0 <= j < |vs| && vs[j] == SiteOf(o);
    }
  }

  /** With a positive stride the accepted samples are the accepted cells whose
      row and column are multiples of the stride. */
  lemma AcceptedOnStrideGrid(p: Predictions, pct: real, flags: Filters, stride: int, o: Observation)
    requires WellFormed(p) && HasConfidence(p) && stride > 0
    ensures o in Accepted(p, pct, flags, stride) <==>
      && o.img < |p.frames|
      && o.y < p.height && o.y % stride == 0
      && o.x < p.width && o.x % stride == 0
      && Examine(p, Cutoff(p, pct), flags, SiteOf(o)) == Some(o)
  {
    AcceptedIff(p, pct, flags, stride, o);
    RangeMembers(p.height, stride, o.y);
    RangeMembers(p.width, stride, o.x);
  }

  /** A negative stride makes both row and column ranges empty: nothing is
      accepted and every image gets an empty keypoint list. */
  lemma NegativeStrideAcceptsNothing(p: Predictions, pct: real, flags: Filters, stride: int)
    requires WellFormed(p) && HasConfidence(p) && stride < 0
    ensures Accepted(p, pct, flags, stride) == []
    ensures |StoreOf(p, pct, flags, stride).points| == 0
    ensures forall img :: 0 <= img < |p.frames| ==> StoreOf(p, pct, flags, stride).keypoints[img] == []
  {
    var obs := Accepted(p, pct, flags, stride);
    assert |Scan(p, stride)| == 0;
    assert obs == [];
    var st := StoreOf(p, pct, flags, stride);
    assert TotalKeypoints(st.keypoints) == 0 by {
      BuildValid(|p.frames|, obs);
    }
    forall img | 0 <= img < |p.frames| ensures st.keypoints[img] == [] {
      KeypointsFollowObservations(|p.frames|, obs, img);
    }
    PointCountIsKeyCount(|p.frames|, obs);
    assert KeysOf(obs) == {};
  }

  // ---------------------------------------------------------------------
  // Processing order
  // ---------------------------------------------------------------------

  /** Examining cells in scan order yields samples in scan order. */
  lemma {:induction false} ObservationsInScanOrder(p: Predictions, cutoff: real, flags: Filters, vs: seq<Visit>)
    requires WellFormed(p) && AllInGrid(p, vs) && Ordered(vs)
    ensures InScanOrder(Observations(p, cutoff, flags, vs))
  {
    if |vs| > 0 {
      var vs' := vs[..|vs| - 1];
      var v := vs[|vs| - 1];
      assert AllInGrid(p, vs') && Ordered(vs');
      var a := Observations(p, cutoff, flags, vs');
      var e := OptionToSeq(Examine(p, cutoff, flags, v));
      assert Observations(p, cutoff, flags, vs) == a + e;
      ObservationsInScanOrder(p, cutoff, flags, vs');
      ObservationSites(p, cutoff, flags, vs');
      forall i, j | 0 <= i < j < |a + e|
        ensures VisitBefore(SiteOf((a + e)[i]), SiteOf((a + e)[j]))
      {
        if j >= |a| {
          assert SiteOf((a + e)[j]) == v;
          assert (a + e)[i] == a[i];
          var t :| 0 <= t < |vs'| && vs'[t] == SiteOf(a[i]);
          assert vs[t] == vs'[t];
        }
      }
    }
  }

  /** The whole pass accepts its samples image by image, row by row, column by
      column. */
  lemma AcceptedInScanOrder(p: Predictions, pct: real, flags: Filters, stride: int)
    requires WellFormed(p) && HasConfidence(p) && stride != 0
    ensures InScanOrder(Accepted(p, pct, flags, stride))
    ensures ImagesAscending(Accepted(p, pct, flags, stride))
  {
    ScanInGrid(p, stride);
    AllVisitsOrdered(Range(|p.frames|, 1), Range(p.height, stride), Range(p.width, stride));
    ObservationsInScanOrder(p, Cutoff(p, pct), flags, Scan(p, stride));
  }

  /** Because images are processed in ascending order, every track lists its
      observations by increasing image and, within an image, increasing
      keypoint index; its first entry is the sample that created the point. */
  lemma TracksFollowImageOrder(p: Predictions, pct: real, flags: Filters, stride: int)
    requires WellFormed(p) && HasConfidence(p) && stride != 0
    ensures AllTracksOrdered(StoreOf(p, pct, flags, stride))
  {
    AcceptedInScanOrder(p, pct, flags, stride);
    TracksOrdered(|p.frames|, Accepted(p, pct, flags, stride));
  }

  // ---------------------------------------------------------------------
  // The keypoints of one image
  // ---------------------------------------------------------------------

  lemma {:induction false} ObservationsOfConcat(a: seq<Observation>, b: seq<Observation>, img: nat)
    ensures ObservationsOf(a + b, img) == ObservationsOf(a, img) + ObservationsOf(b, img)
  {
    if |b| > 0 {
      var b' := b[..|b| - 1];
      assert (a + b)[..|a + b| - 1] == a + b';
      ObservationsOfConcat(a, b', img);
    } else {
      assert a + b == a;
    }
  }

  lemma ObservationsOfOption(e: Option<Observation>, img: nat)
    ensures ObservationsOf(OptionToSeq(e), img) == if e.Some? && e.value.img == img then OptionToSeq(e) else []
  {
    if e.Some? {
      assert [e.value][..0] == [];
    }
  }

  lemma VisitsOfInGrid(p: Predictions, vs: seq<Visit>, img: nat)
    requires AllInGrid(p, vs)
    ensures AllInGrid(p, VisitsOf(vs, img))
  {
    VisitsOfMembers(vs, img);
  }

  /** Picking one image's samples out of the accepted ones is examining only
      that image's cells. */
  lemma {:induction false} ObservationsOfImage(p: Predictions, cutoff: real, flags: Filters, vs: seq<Visit>, img: nat)
    requires WellFormed(p) && AllInGrid(p, vs)
    ensures AllInGrid(p, VisitsOf(vs, img))
    ensures ObservationsOf(Observations(p, cutoff, flags, vs), img) == Observations(p, cutoff, flags, VisitsOf(vs, img))
  {
    VisitsOfInGrid(p, vs, img);
    if |vs| > 0 {
      var vs' := vs[..|vs| - 1];
      var v := vs[|vs| - 1];
      assert AllInGrid(p, vs');
      var a := Observations(p, cutoff, flags, vs');
      var ex := Examine(p, cutoff, flags, v);
      var e := OptionToSeq(ex);
      var before := VisitsOf(vs', img);
      assert Observations(p, cutoff, flags, vs) == a + e;
      ObservationsOfImage(p, cutoff, flags, vs', img);
      ObservationsOfConcat(a, e, img);
      ObservationsOfOption(ex, img);
      var picked := Observations(p, cutoff, flags, before);
      assert ObservationsOf(a, img) == picked;
      if v.img == img {
        assert VisitsOf(vs, img) == before + [v];
        ObservationsSnoc(p, cutoff, flags, before, v);
        assert ObservationsOf(a + e, img) == picked + e;
        assert Observations(p, cutoff, flags, VisitsOf(vs, img)) == picked + e;
      } else {
        assert VisitsOf(vs, img) == before;
        assert ObservationsOf(e, img) == [];
        assert ObservationsOf(a + e, img) == picked + [];
      }
    }
  }

  /** One image's accepted samples are the accepted cells of that image's grid. */
  lemma ImageSamplesFromItsGrid(p: Predictions, pct: real, flags: Filters, stride: int, img: nat)
    requires WellFormed(p) && HasConfidence(p) && stride != 0 && img < |p.frames|
    ensures AllInGrid(p, GridVisits(img, Range(p.height, stride), Range(p.width, stride)))
    ensures ObservationsOf(Accepted(p, pct, flags, stride), img) ==
      Observations(p, Cutoff(p, pct), flags, GridVisits(img, Range(p.height, stride), Range(p.width, stride)))
  {
    var imgs := Range(|p.frames|, 1);
    ScanInGrid(p, stride);
    ObservationsOfImage(p, Cutoff(p, pct), flags, Scan(p, stride), img);
    RangeAt(|p.frames|, 1, img);
    VisitsOfAllVisits(imgs, Range(p.height, stride), Range(p.width, stride), img);
  }

  /** Each image receives at most one keypoint per sampled cell. */
  lemma KeypointsPerImageBound(p: Predictions, pct: real, flags: Filters, stride: int, img: nat)
    requires WellFormed(p) && HasConfidence(p) && stride != 0 && img < |p.frames|
    ensures |StoreOf(p, pct, flags, stride).keypoints[img]| <= GridSize(p.height, p.width, stride)
  {
    var ys, xs := Range(p.height, stride), Range(p.width, stride);
    KeypointsFollowObservations(|p.frames|, Accepted(p, pct, flags, stride), img);
    ImageSamplesFromItsGrid(p, pct, flags, stride, img);
    GridVisitsLength(img, ys, xs);
  }

  /** Keypoint k of an image is its k-th accepted sample: its grid column and
      row, referring to the point stored under the sample's key. */
  lemma KeypointIsAcceptedSample(p: Predictions, pct: real, flags: Filters, stride: int, img: nat, k: nat)
    requires WellFormed(p) && HasConfidence(p) && stride != 0 && img < |p.frames|
    requires k < |StoreOf(p, pct, flags, stride).keypoints[img]|
    ensures var st := StoreOf(p, pct, flags, stride);
      var obs := ObservationsOf(Accepted(p, pct, flags, stride), img);
      && k < |obs|
      && obs[k] in Accepted(p, pct, flags, stride)
      && obs[k].img == img
      && Quantize(obs[k].xyz) in st.index
      && st.keypoints[img][k] == Keypoint(obs[k].x, obs[k].y, st.index[Quantize(obs[k].xyz)])
  {
    KeypointsFollowObservations(|p.frames|, Accepted(p, pct, flags, stride), img);
  }

  /** Within one image the keypoints follow the scan: rows ascending, and
      columns ascending within a row. */
  lemma KeypointsInScanOrder(p: Predictions, pct: real, flags: Filters, stride: int, img: nat)
    requires WellFormed(p) && HasConfidence(p) && stride != 0 && img < |p.frames|
    ensures var kps := StoreOf(p, pct, flags, stride).keypoints[img];
      forall i, j :: 0 <= i < j < |kps| ==>
        kps[i].y < kps[j].y || (kps[i].y == kps[j].y && kps[i].x < kps[j].x)
  {
    var ys, xs := Range(p.height, stride), Range(p.width, stride);
    var obs := ObservationsOf(Accepted(p, pct, flags, stride), img);
    KeypointsFollowObservations(|p.frames|, Accepted(p, pct, flags, stride), img);
    ImageSamplesFromItsGrid(p, pct, flags, stride, img);
    GridVisitsOrdered(img, ys, xs);
    ObservationsInScanOrder(p, Cutoff(p, pct), flags, GridVisits(img, ys, xs));
    assert InScanOrder(obs);
  }

  lemma {:induction false} ObservationsOfComplete(obs: seq<Observation>, img: nat, i: nat)
    requires i < |obs| && obs[i].img == img
    ensures obs[i] in ObservationsOf(obs, img)
  {
    var obs' := obs[..|obs| - 1];
    if i < |obs'| {
      assert obs'[i] == obs[i];
      ObservationsOfComplete(obs', img, i);
    }
  }

  /** Every accepted sample appears as a keypoint of its image, with its grid
      column and row, referring to the point stored under its key. */
  lemma AcceptedSampleIsKeypoint(p: Predictions, pct: real, flags: Filters, stride: int, o: Observation)
    requires WellFormed(p) && HasConfidence(p) && stride != 0
    requires o in Accepted(p, pct, flags, stride)
    ensures var st := StoreOf(p, pct, flags, stride);
      && o.img < |st.keypoints|
      && Quantize(o.xyz) in st.index
      && Keypoint(o.x, o.y, st.index[Quantize(o.xyz)]) in st.keypoints[o.img]
  {
    var obs := Accepted(p, pct, flags, stride);
    var i :| 0 <= i < |obs| && obs[i] == o;
    ObservationsOfComplete(obs, o.img, i);
    KeypointsFollowObservations(|p.frames|, obs, o.img);
    var k :| 0 <= k < |ObservationsOf(obs, o.img)| && ObservationsOf(obs, o.img)[k] == o;
  }

  // ---------------------------------------------------------------------
  // The confidence percentage
  // ---------------------------------------------------------------------

  /** Raising the cutoff can only turn accepted cells into rejected ones. */
  lemma ExamineMonotone(p: Predictions, c1: real, c2: real, flags: Filters, v: Visit)
    requires WellFormed(p) && InGrid(p, v) && c1 <= c2
    ensures Examine(p, c2, flags, v).Some? ==> Examine(p, c1, flags, v) == Examine(p, c2, flags, v)
  {
  }

  lemma {:induction false} ObservationsShrink(p: Predictions, c1: real, c2: real, flags: Filters, vs: seq<Visit>)
    requires WellFormed(p) && AllInGrid(p, vs) && c1 <= c2
    ensures |Observations(p, c2, flags, vs)| <= |Observations(p, c1, flags, vs)|
  {
    if |vs| > 0 {
      var vs' := vs[..|vs| - 1];
      var v := vs[|vs| - 1];
      assert AllInGrid(p, vs');
      ObservationsShrink(p, c1, c2, flags, vs');
      ExamineMonotone(p, c1, c2, flags, v);
    }
  }

  /** No confidence exceeds the maximum, so a cutoff at or above it accepts
      nothing. */
  lemma NothingPassesAtMaximum(p: Predictions, pct: real, flags: Filters, stride: int)
    requires WellFormed(p) && HasConfidence(p) && stride != 0
    requires Cutoff(p, pct) >= MaxConfidence(p)
    ensures Accepted(p, pct, flags, stride) == []
  {
    var obs := Accepted(p, pct, flags, stride);
    if |obs| > 0 {
      var o := obs[0];
      AcceptedIff(p, pct, flags, stride, o);
      RangeMembers(p.height, stride, o.y);
      RangeMembers(p.width, stride, o.x);
      assert FrameWellFormed(p.frames[o.img], p.height, p.width);
      InConfidences(p.frames, o.img, o.y, o.x);
      assert false;
    }
  }

  /** A higher percentage accepts a subset of the samples, and never more of
      them, when the maximum confidence is non-negative or the higher
      percentage is at most 100. */
  lemma HigherPercentAcceptsSubset(p: Predictions, pct1: real, pct2: real, flags: Filters, stride: int)
    requires WellFormed(p) && HasConfidence(p) && stride != 0
    requires (MaxConfidence(p) >= 0.0 || pct2 <= 100.0) && pct1 <= pct2
    ensures forall o :: o in Accepted(p, pct2, flags, stride) ==> o in Accepted(p, pct1, flags, stride)
    ensures |Accepted(p, pct2, flags, stride)| <= |Accepted(p, pct1, flags, stride)|
  {
    if MaxConfidence(p) < 0.0 {
      NothingPassesAtMaximum(p, pct2, flags, stride);
      return;
    }
    CutoffMonotone(p, pct1, pct2);
    forall o | o in Accepted(p, pct2, flags, stride)
      ensures o in Accepted(p, pct1, flags, stride)
    {
      AcceptedIff(p, pct2, flags, stride, o);
      AcceptedIff(p, pct1, flags, stride, o);
      ExamineMonotone(p, Cutoff(p, pct1), Cutoff(p, pct2), flags, SiteOf(o));
    }
    ScanInGrid(p, stride);
    ObservationsShrink(p, Cutoff(p, pct1), Cutoff(p, pct2), flags, Scan(p, stride));
  }

  lemma SubsetCardinality(a: set<Key>, b: set<Key>)
    requires a <= b
    ensures |a| <= |b|
  {
    assert b == a + (b - a);
  }

  lemma KeysOfSubset(obs1: seq<Observation>, obs2: seq<Observation>)
    requires forall o :: o in obs2 ==> o in obs1
    ensures KeysOf(obs2) <= KeysOf(obs1)
  {
    forall k | k in KeysOf(obs2) ensures k in KeysOf(obs1) {
      var i :| 0 <= i < |obs2| && Quantize(obs2[i].xyz) == k;
      assert obs2[i] in obs1;
      var j :| 0 <= j < |obs1| && obs1[j] == obs2[i];
    }
  }

  /** So, under the same condition, a higher percentage yields no more points
      and no more keypoints. */
  lemma HigherPercentFewerPoints(p: Predictions, pct1: real, pct2: real, flags: Filters, stride: int)
    requires WellFormed(p) && HasConfidence(p) && stride != 0
    requires (MaxConfidence(p) >= 0.0 || pct2 <= 100.0) && pct1 <= pct2
    ensures |StoreOf(p, pct2, flags, stride).points| <= |StoreOf(p, pct1, flags, stride).points|
    ensures TotalKeypoints(StoreOf(p, pct2, flags, stride).keypoints) <= TotalKeypoints(StoreOf(p, pct1, flags, stride).keypoints)
  {
    var obs1, obs2 := Accepted(p, pct1, flags, stride), Accepted(p, pct2, flags, stride);
    HigherPercentAcceptsSubset(p, pct1, pct2, flags, stride);
    KeysOfSubset(obs1, obs2);
    SubsetCardinality(KeysOf(obs2), KeysOf(obs1));
    PointCountIsKeyCount(|p.frames|, obs1);
    PointCountIsKeyCount(|p.frames|, obs2);
    BuildValid(|p.frames|, obs1);
    BuildValid(|p.frames|, obs2);
  }

  /** One 1 x 1 frame whose only cell has a finite point and confidence -1. */
  function NegativeExample(): Predictions {
    Predictions(1, 1, [Frame([[Sample3(Finite(0.0), Finite(0.0), Finite(0.0))]], [[-1.0]], [[Rgb(0, 0, 0)]])])
  }

  lemma NegativeExampleShape()
    ensures WellFormed(NegativeExample()) && HasConfidence(NegativeExample())
    ensures MaxConfidence(NegativeExample()) == -1.0
  {
    var p := NegativeExample();
    assert FrameWellFormed(p.frames[0], 1, 1);
    assert p.frames[..0] == [];
    assert Flatten([[-1.0]]) == [-1.0] by {
      assert [[-1.0]][..0] == [];
    }
    assert Confidences(p.frames) == [-1.0];
  }

  /** The condition is needed: with a maximum confidence of -1, 50 percent
      gives the cutoff -0.5, which the cell does not exceed, while 200 percent
      gives -2, which it does; so the higher percentage accepts more. */
  lemma NegativeMaximumReversesCutoff()
    ensures WellFormed(NegativeExample()) && HasConfidence(NegativeExample())
    ensures MaxConfidence(NegativeExample()) == -1.0
    ensures Cutoff(NegativeExample(), 200.0) < Cutoff(NegativeExample(), 50.0)
    ensures Accepted(NegativeExample(), 50.0, Filters(false, false, false), 1) == []
    ensures |Accepted(NegativeExample(), 200.0, Filters(false, false, false), 1)| == 1
  {
    var p := NegativeExample();
    var flags := Filters(false, false, false);
    NegativeExampleShape();
    NothingPassesAtMaximum(p, 50.0, flags, 1);
    var v := Visit(0, 0, 0);
    var o := Observation(0, 0, 0, Vec3(0.0, 0.0, 0.0), ColourAt(p, v));
    assert Examine(p, Cutoff(p, 200.0), flags, SiteOf(o)) == Some(o);
    RangeMembers(1, 1, 0);
    AcceptedIff(p, 200.0, flags, 1, o);
    ScanInGrid(p, 1);
    assert |Accepted(p, 200.0, flags, 1)| <= |Scan(p, 1)| == 1;
  }
}

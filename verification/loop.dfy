/**
 * The nested image / row / column loops of `filter_and_prepare_points` as
 * written, each cell folded into the store as soon as it is examined, shown
 * to compute the functional definition of the aggregator.
 */
module AggregatorLoop {
  import opened Wrappers
  import opened Sampling
  import opened Visits
  import opened Reconstruction
  import opened Aggregator

  /** Folding an optional sample into the store. */
  lemma BuildSnoc(n: nat, obs: seq<Observation>, e: Option<Observation>)
    requires ImagesBelow(obs, n) && (e.Some? ==> e.value.img < n)
    ensures ImagesBelow(obs + OptionToSeq(e), n)
    ensures Build(n, obs + OptionToSeq(e)) == if e.Some? then Insert(Build(n, obs), e.value) else Build(n, obs)
  {
    if e.Some? {
      assert (obs + [e.value])[..|obs|] == obs;
    } else {
      assert obs + OptionToSeq(e) == obs;
    }
  }

  lemma RowVisitsStep(img: nat, y: nat, xs: seq<nat>, done: seq<Visit>, k: nat)
    requires k < |xs|
    ensures done + RowVisits(img, y, xs[..k]) + [Visit(img, y, xs[k])] == done + RowVisits(img, y, xs[..k + 1])
  {
  }

  lemma GridVisitsStep(img: nat, ys: seq<nat>, xs: seq<nat>, done: seq<Visit>, j: nat)
    requires j < |ys|
    ensures done + GridVisits(img, ys[..j], xs) + RowVisits(img, ys[j], xs) == done + GridVisits(img, ys[..j + 1], xs)
  {
    assert ys[..j + 1][..j] == ys[..j];
  }

  lemma AllVisitsStep(imgs: seq<nat>, ys: seq<nat>, xs: seq<nat>, k: nat)
    requires k < |imgs|
    ensures AllVisits(imgs[..k], ys, xs) + GridVisits(imgs[k], ys, xs) == AllVisits(imgs[..k + 1], ys, xs)
  {
    assert imgs[..k + 1][..k] == imgs[..k];
  }

  lemma VisitsStart(img: nat, ys: seq<nat>, xs: seq<nat>, done: seq<Visit>)
    ensures done + RowVisits(img, 0, []) == done
    ensures done + GridVisits(img, ys[..0], xs) == done
  {
    assert done + [] == done;
  }

  // ---------------------------------------------------------------------
  // The loops as written
  // ---------------------------------------------------------------------

  lemma FoldedStart(p: Predictions, cutoff: real, flags: Filters)
    requires WellFormed(p)
    ensures Folded(p, cutoff, flags, [], Init(|p.frames|))
  {
    assert Observations(p, cutoff, flags, []) == [];
  }

  lemma FoldedTransfer(p: Predictions, cutoff: real, flags: Filters, a: seq<Visit>, b: seq<Visit>, st: State)
    requires Folded(p, cutoff, flags, a, st) && a == b
    ensures Folded(p, cutoff, flags, b, st)
  {
  }

  /** The column loop of one row. */
  method ScanRow(p: Predictions, cutoff: real, flags: Filters, img: nat, y: nat, xs: seq<nat>,
                 st: State, ghost done: seq<Visit>)
    returns (st': State)
    requires Folded(p, cutoff, flags, done, st)
    requires img < |p.frames| && y < p.height
    requires AllBelow(xs, p.width)
    ensures Folded(p, cutoff, flags, done + RowVisits(img, y, xs), st')
  {
    st' := st;
    ghost var visited := done;
    var k := 0;
    VisitsStart(img, [], xs[..0], done);
    while k < |xs|
      invariant k <= |xs|
      invariant visited == done + RowVisits(img, y, xs[..k])
      invariant Folded(p, cutoff, flags, visited, st')
    {
      var v := Visit(img, y, xs[k]);
      var e := Examine(p, cutoff, flags, v);
      ObservationsSnoc(p, cutoff, flags, visited, v);
      BuildSnoc(|p.frames|, Observations(p, cutoff, flags, visited), e);
      if e.Some? {
        st' := Insert(st', e.value);
      }
      RowVisitsStep(img, y, xs, done, k);
      visited := visited + [v];
      k := k + 1;
    }
    assert xs[..k] == xs;
  }

  /** The row loop of one image. */
  method ScanImage(p: Predictions, cutoff: real, flags: Filters, img: nat, ys: seq<nat>, xs: seq<nat>,
                   st: State, ghost done: seq<Visit>)
    returns (st': State)
    requires Folded(p, cutoff, flags, done, st)
    requires img < |p.frames|
    requires AllBelow(ys, p.height)
    requires AllBelow(xs, p.width)
    ensures Folded(p, cutoff, flags, done + GridVisits(img, ys, xs), st')
  {
    st' := st;
    ghost var visited := done;
    var j := 0;
    VisitsStart(img, ys, xs, done);
    while j < |ys|
      invariant j <= |ys|
      invariant visited == done + GridVisits(img, ys[..j], xs)
      invariant Folded(p, cutoff, flags, visited, st')
    {
      st' := ScanRow(p, cutoff, flags, img, ys[j], xs, st', visited);
      GridVisitsStep(img, ys, xs, done, j);
      visited := visited + RowVisits(img, ys[j], xs);
      j := j + 1;
    }
    assert ys[..j] == ys;
  }

  /** The image loop over the listed images, starting from a store that holds
      no sample yet. */
  method ScanAll(p: Predictions, cutoff: real, flags: Filters, imgs: seq<nat>, ys: seq<nat>, xs: seq<nat>,
                 st0: State)
    returns (st: State)
    requires AllBelow(imgs, |p.frames|) && AllBelow(ys, p.height) && AllBelow(xs, p.width)
    requires Folded(p, cutoff, flags, [], st0)
    ensures Folded(p, cutoff, flags, AllVisits(imgs, ys, xs), st)
  {
    st := st0;
    var k := 0;
    ghost var visited: seq<Visit> := [];
    while k < |imgs|
      invariant k <= |imgs|
      invariant visited == AllVisits(imgs[..k], ys, xs)
      invariant Folded(p, cutoff, flags, visited, st)
    {
      st := ScanImage(p, cutoff, flags, imgs[k], ys, xs, st, visited);
      AllVisitsStep(imgs, ys, xs, k);
      visited := visited + GridVisits(imgs[k], ys, xs);
      k := k + 1;
    }
    assert imgs[..k] == imgs;
  }

  /** The nested image / row / column loops of the source, folding each
      accepted cell into the store as soon as it is examined. */
  method FilterAndPrepare(p: Predictions, pct: real, flags: Filters, stride: int)
    returns (r: Result<Output, AggregateError>)
    requires WellFormed(p)
    ensures r == Aggregate(p, pct, flags, stride)
  {
    ConfidencesEmptyIff(p);
    if |p.frames| == 0 || p.height == 0 || p.width == 0 {
      return Failure(EmptyConfidence);
    }
    var cutoff := Cutoff(p, pct);
    if stride == 0 {
      return Failure(ZeroStride);
    }
    FoldedStart(p, cutoff, flags);
    var st := ScanAll(p, cutoff, flags, Range(|p.frames|, 1), Range(p.height, stride), Range(p.width, stride),
                      Init(|p.frames|));
    return Success(Output(st.points, st.keypoints));
  }
}

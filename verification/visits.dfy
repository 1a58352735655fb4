/**
 * The order in which the aggregation loops visit grid positions: images
 * ascending, then rows, then columns, each at the chosen stride.
 */
module Visits {

  /** One grid position of one image, as visited by the aggregation loops. */
  datatype Visit = Visit(img: nat, y: nat, x: nat)

  /** The visits of one row: the columns xs at row y, in order. */
  function RowVisits(img: nat, y: nat, xs: seq<nat>): (v: seq<Visit>)
    ensures |v| == |xs|
    ensures forall k :: 0 <= k < |v| ==> v[k] == Visit(img, y, xs[k])
  {
    seq(|xs|, k requires 0 <= k < |xs| => Visit(img, y, xs[k]))
  }

  /** The visits of one image: rows ys outer, columns xs inner. */
  function GridVisits(img: nat, ys: seq<nat>, xs: seq<nat>): (v: seq<Visit>)
  {
    if |ys| == 0 then []
    else GridVisits(img, ys[..|ys| - 1], xs) + RowVisits(img, ys[|ys| - 1], xs)
  }

  /** The visits of the images imgs, one image after the other. */
  function AllVisits(imgs: seq<nat>, ys: seq<nat>, xs: seq<nat>): (v: seq<Visit>)
    ensures |v| == |imgs| * (|ys| * |xs|)
  {
    if |imgs| == 0 then []
    else
      var n := |imgs| - 1;
      GridVisitsLength(imgs[n], ys, xs);
      assert n * (|ys| * |xs|) + |ys| * |xs| == |imgs| * (|ys| * |xs|);
      AllVisits(imgs[..n], ys, xs) + GridVisits(imgs[n], ys, xs)
  }

  // ---------------------------------------------------------------------
  // Which positions are visited
  // ---------------------------------------------------------------------

  /** Every visit is of image img, at a row of ys and a column of xs. */
  predicate OnGrid(vs: seq<Visit>, img: nat, ys: seq<nat>, xs: seq<nat>) {
    forall i :: 0 <= i < |vs| ==> vs[i].img == img && vs[i].y in ys && vs[i].x in xs
  }

  /** Every visit is of an image of imgs, at a row of ys and a column of xs. */
  predicate OnGrids(vs: seq<Visit>, imgs: seq<nat>, ys: seq<nat>, xs: seq<nat>) {
    forall i :: 0 <= i < |vs| ==> vs[i].img in imgs && vs[i].y in ys && vs[i].x in xs
  }

  lemma {:induction false} GridVisitsOnGrid(img: nat, ys: seq<nat>, xs: seq<nat>)
    ensures OnGrid(GridVisits(img, ys, xs), img, ys, xs)
  {
    if |ys| > 0 {
      var ys' := ys[..|ys| - 1];
      var g := GridVisits(img, ys', xs);
      var row := RowVisits(img, ys[|ys| - 1], xs);
      var c: seq<Visit> := g + row;
      GridVisitsOnGrid(img, ys', xs);
      forall i | 0 <= i < |c|
        ensures c[i].img == img && c[i].y in ys && c[i].x in xs
      {
        if i < |g| {
          assert c[i] == g[i];
          var t :| 0 <= t < |ys'| && ys'[t] == g[i].y;
          assert ys[t] == g[i].y;
        } else {
          assert c[i] == row[i - |g|];
        }
      }
    }
  }

  lemma {:induction false} AllVisitsOnGrids(imgs: seq<nat>, ys: seq<nat>, xs: seq<nat>)
    ensures OnGrids(AllVisits(imgs, ys, xs), imgs, ys, xs)
  {
    if |imgs| > 0 {
      var imgs' := imgs[..|imgs| - 1];
      var last := imgs[|imgs| - 1];
      var a := AllVisits(imgs', ys, xs);
      var g := GridVisits(last, ys, xs);
      assert AllVisits(imgs, ys, xs) == a + g;
      AllVisitsOnGrids(imgs', ys, xs);
      GridVisitsOnGrid(last, ys, xs);
      var c: seq<Visit> := a + g;
      forall i | 0 <= i < |c|
        ensures c[i].img in imgs && c[i].y in ys && c[i].x in xs
      {
        if i < |a| {
          assert c[i] == a[i];
          var t :| 0 <= t < |imgs'| && imgs'[t] == a[i].img;
          assert imgs[t] == a[i].img;
        } else {
          assert c[i] == g[i - |a|];
        }
      }
    }
  }

  lemma {:induction false} GridVisitsComplete(img: nat, ys: seq<nat>, xs: seq<nat>, j: nat, k: nat)
    requires j < |ys| && k < |xs|
    ensures Visit(img, ys[j], xs[k]) in GridVisits(img, ys, xs)
  {
    var ys' := ys[..|ys| - 1];
    var g := GridVisits(img, ys', xs);
    var row := RowVisits(img, ys[|ys| - 1], xs);
    if j < |ys'| {
      GridVisitsComplete(img, ys', xs, j, k);
      assert ys'[j] == ys[j];
      var t :| 0 <= t < |g| && g[t] == Visit(img, ys[j], xs[k]);
      assert (g + row)[t] == g[t];
    } else {
      assert (g + row)[|g| + k] == row[k];
    }
  }

  lemma {:induction false} AllVisitsComplete(imgs: seq<nat>, ys: seq<nat>, xs: seq<nat>, t: nat, j: nat, k: nat)
    requires t < |imgs| && j < |ys| && k < |xs|
    ensures Visit(imgs[t], ys[j], xs[k]) in AllVisits(imgs, ys, xs)
  {
    var m := |imgs| - 1;
    var imgs' := imgs[..m];
    var a := AllVisits(imgs', ys, xs);
    var g := GridVisits(imgs[m], ys, xs);
    assert AllVisits(imgs, ys, xs) == a + g;
    var v := Visit(imgs[t], ys[j], xs[k]);
    if t < m {
      AllVisitsComplete(imgs', ys, xs, t, j, k);
      assert imgs'[t] == imgs[t];
      InLeft(a, g, v);
    } else {
      GridVisitsComplete(imgs[m], ys, xs, j, k);
      InRight(a, g, v);
    }
  }

  lemma InLeft(a: seq<Visit>, b: seq<Visit>, v: Visit)
    requires v in a
    ensures v in a + b
  {
  }

  lemma InRight(a: seq<Visit>, b: seq<Visit>, v: Visit)
    requires v in b
    ensures v in a + b
  {
  }

  /** All images' visits: exactly the grid positions of the listed images. */
  lemma AllVisitsMembers(imgs: seq<nat>, ys: seq<nat>, xs: seq<nat>, v: Visit)
    ensures v in AllVisits(imgs, ys, xs) <==> v.img in imgs && v.y in ys && v.x in xs
  {
    AllVisitsOnGrids(imgs, ys, xs);
    if v.img in imgs && v.y in ys && v.x in xs {
      var t :| 0 <= t < |imgs| && imgs[t] == v.img;
      var j :| 0 <= j < |ys| && ys[j] == v.y;
      var k :| 0 <= k < |xs| && xs[k] == v.x;
      AllVisitsComplete(imgs, ys, xs, t, j, k);
    }
  }

  // ---------------------------------------------------------------------
  // Visiting order
  // ---------------------------------------------------------------------

  /** Lexicographic (image, row, column) order. */
  predicate VisitBefore(a: Visit, b: Visit) {
    || a.img < b.img
    || (a.img == b.img && a.y < b.y)
    || (a.img == b.img && a.y == b.y && a.x < b.x)
  }

  predicate StrictlyIncreasing(s: seq<nat>) {
    forall i, j :: 0 <= i < j < |s| ==> s[i] < s[j]
  }

  predicate Ordered(vs: seq<Visit>) {
    forall i, j :: 0 <= i < j < |vs| ==> VisitBefore(vs[i], vs[j])
  }

  /** Every visit of a comes before every visit of b. */
  predicate AllBefore(a: seq<Visit>, b: seq<Visit>) {
    forall i, j :: 0 <= i < |a| && 0 <= j < |b| ==> VisitBefore(a[i], b[j])
  }

  lemma OrderedConcat(a: seq<Visit>, b: seq<Visit>)
    requires Ordered(a) && Ordered(b) && AllBefore(a, b)
    ensures Ordered(a + b)
  {
    var c := a + b;
    forall i, j | 0 <= i < j < |c|
      ensures VisitBefore(c[i], c[j])
    {
      if j < |a| {
        assert c[i] == a[i] && c[j] == a[j];
      } else if i < |a| {
        assert c[i] == a[i] && c[j] == b[j - |a|];
      } else {
        assert c[i] == b[i - |a|] && c[j] == b[j - |a|];
      }
    }
  }

  lemma RowVisitsOrdered(img: nat, y: nat, xs: seq<nat>)
    requires StrictlyIncreasing(xs)
    ensures Ordered(RowVisits(img, y, xs))
  {
  }

  /** The rows visited in image img are all below bound when every row of ys is. */
  lemma {:induction false} GridRowsBelow(img: nat, ys: seq<nat>, xs: seq<nat>, bound: nat)
    requires forall t :: 0 <= t < |ys| ==> ys[t] < bound
    ensures forall i :: 0 <= i < |GridVisits(img, ys, xs)| ==>
      GridVisits(img, ys, xs)[i].img == img && GridVisits(img, ys, xs)[i].y < bound
  {
    GridVisitsOnGrid(img, ys, xs);
  }

  /** Within one image, rows then columns ascend. */
  lemma {:induction false} GridVisitsOrdered(img: nat, ys: seq<nat>, xs: seq<nat>)
    requires StrictlyIncreasing(ys) && StrictlyIncreasing(xs)
    ensures Ordered(GridVisits(img, ys, xs))
  {
    if |ys| > 0 {
      var ys' := ys[..|ys| - 1];
      var last := ys[|ys| - 1];
      var g := GridVisits(img, ys', xs);
      var row := RowVisits(img, last, xs);
      GridVisitsOrdered(img, ys', xs);
      RowVisitsOrdered(img, last, xs);
      GridRowsBelow(img, ys', xs, last);
      OrderedConcat(g, row);
    }
  }

  /** Images listed below a bound are visited below it. */
  lemma {:induction false} AllImagesBelow(imgs: seq<nat>, ys: seq<nat>, xs: seq<nat>, bound: nat)
    requires forall t :: 0 <= t < |imgs| ==> imgs[t] < bound
    ensures forall i :: 0 <= i < |AllVisits(imgs, ys, xs)| ==> AllVisits(imgs, ys, xs)[i].img < bound
  {
    AllVisitsOnGrids(imgs, ys, xs);
  }

  /** Images ascending, and within an image rows then columns ascending: the
      order that fixes track order and id assignment. */
  lemma {:induction false} AllVisitsOrdered(imgs: seq<nat>, ys: seq<nat>, xs: seq<nat>)
    requires StrictlyIncreasing(imgs) && StrictlyIncreasing(ys) && StrictlyIncreasing(xs)
    ensures Ordered(AllVisits(imgs, ys, xs))
  {
    if |imgs| > 0 {
      var m := |imgs| - 1;
      var imgs' := imgs[..m];
      var a := AllVisits(imgs', ys, xs);
      var g := GridVisits(imgs[m], ys, xs);
      assert AllVisits(imgs, ys, xs) == a + g;
      assert StrictlyIncreasing(imgs');
      AllVisitsOrdered(imgs', ys, xs);
      GridVisitsOrdered(imgs[m], ys, xs);
      AllImagesBelow(imgs', ys, xs, imgs[m]);
      GridVisitsOnGrid(imgs[m], ys, xs);
      OrderedConcat(a, g);
    }
  }

  // ---------------------------------------------------------------------
  // The visits of one image
  // ---------------------------------------------------------------------

  /** The visits of image img, in order. */
  function VisitsOf(vs: seq<Visit>, img: nat): (r: seq<Visit>)
    ensures |r| <= |vs|
  {
    if |vs| == 0 then []
    else VisitsOf(vs[..|vs| - 1], img) + (if vs[|vs| - 1].img == img then [vs[|vs| - 1]] else [])
  }

  lemma {:induction false} VisitsOfMembers(vs: seq<Visit>, img: nat)
    ensures forall i :: 0 <= i < |VisitsOf(vs, img)| ==> VisitsOf(vs, img)[i] in vs && VisitsOf(vs, img)[i].img == img
  {
    if |vs| > 0 {
      var vs' := vs[..|vs| - 1];
      VisitsOfMembers(vs', img);
      var r := VisitsOf(vs, img);
      forall i | 0 <= i < |r| ensures r[i] in vs && r[i].img == img {
        if i < |VisitsOf(vs', img)| {
          assert r[i] == VisitsOf(vs', img)[i];
          assert r[i] in vs';
        }
      }
    }
  }

  lemma {:induction false} VisitsOfConcat(a: seq<Visit>, b: seq<Visit>, img: nat)
    ensures VisitsOf(a + b, img) == VisitsOf(a, img) + VisitsOf(b, img)
  {
    if |b| == 0 {
      assert a + b == a;
    } else {
      var b' := b[..|b| - 1];
      assert (a + b)[..|a + b| - 1] == a + b';
      VisitsOfConcat(a, b', img);
    }
  }

  /** Filtering visits that all share one image keeps all or nothing. */
  lemma {:induction false} VisitsOfUniform(vs: seq<Visit>, m: nat, img: nat)
    requires forall i :: 0 <= i < |vs| ==> vs[i].img == m
    ensures VisitsOf(vs, img) == if m == img then vs else []
  {
    if |vs| > 0 {
      var vs' := vs[..|vs| - 1];
      VisitsOfUniform(vs', m, img);
      if m == img {
        assert vs' + [vs[|vs| - 1]] == vs;
      }
    }
  }

  /** The visits of a listed image among all images' visits are that image's
      grid. */
  lemma {:induction false} VisitsOfAllVisits(imgs: seq<nat>, ys: seq<nat>, xs: seq<nat>, t: nat)
    requires StrictlyIncreasing(imgs) && t < |imgs|
    ensures VisitsOf(AllVisits(imgs, ys, xs), imgs[t]) == GridVisits(imgs[t], ys, xs)
  {
    var m := |imgs| - 1;
    var imgs' := imgs[..m];
    var img := imgs[t];
    var a := AllVisits(imgs', ys, xs);
    var g := GridVisits(imgs[m], ys, xs);
    assert AllVisits(imgs, ys, xs) == a + g;
    VisitsOfConcat(a, g, img);
    if t < m {
      assert imgs[m] != img;
      assert StrictlyIncreasing(imgs') && imgs'[t] == img;
      VisitsOfAllVisits(imgs', ys, xs, t);
      VisitsOfOtherGrid(imgs[m], img, ys, xs);
      assert VisitsOf(a + g, img) == GridVisits(img, ys, xs) + [];
    } else {
      assert forall s :: 0 <= s < |imgs'| ==> imgs'[s] < img;
      VisitsOfEarlierImages(imgs', ys, xs, img);
      VisitsOfOwnGrid(img, ys, xs);
      assert VisitsOf(a + g, img) == [] + g;
    }
  }

  lemma VisitsOfOtherGrid(m: nat, img: nat, ys: seq<nat>, xs: seq<nat>)
    requires m != img
    ensures VisitsOf(GridVisits(m, ys, xs), img) == []
  {
    GridVisitsOnGrid(m, ys, xs);
    VisitsOfUniform(GridVisits(m, ys, xs), m, img);
  }

  lemma VisitsOfOwnGrid(img: nat, ys: seq<nat>, xs: seq<nat>)
    ensures VisitsOf(GridVisits(img, ys, xs), img) == GridVisits(img, ys, xs)
  {
    GridVisitsOnGrid(img, ys, xs);
    VisitsOfUniform(GridVisits(img, ys, xs), img, img);
  }

  lemma VisitsOfEarlierImages(imgs: seq<nat>, ys: seq<nat>, xs: seq<nat>, img: nat)
    requires forall s :: 0 <= s < |imgs| ==> imgs[s] < img
    ensures VisitsOf(AllVisits(imgs, ys, xs), img) == []
  {
    AllImagesBelow(imgs, ys, xs, img);
    VisitsOfNone(AllVisits(imgs, ys, xs), img);
  }

  lemma {:induction false} VisitsOfNone(vs: seq<Visit>, img: nat)
    requires forall i :: 0 <= i < |vs| ==> vs[i].img < img
    ensures VisitsOf(vs, img) == []
  {
    if |vs| > 0 {
      VisitsOfNone(vs[..|vs| - 1], img);
    }
  }

  lemma {:induction false} GridVisitsLength(img: nat, ys: seq<nat>, xs: seq<nat>)
    ensures |GridVisits(img, ys, xs)| == |ys| * |xs|
  {
    if |ys| > 0 {
      GridVisitsLength(img, ys[..|ys| - 1], xs);
      assert (|ys| - 1) * |xs| + |xs| == |ys| * |xs|;
    }
  }
}

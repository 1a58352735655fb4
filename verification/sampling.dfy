/**
 * Strided traversal of the prediction grid and the mapping from grid
 * coordinates to pixels of the (possibly larger) source image.
 */
module Sampling {

  /** Python's `range(0, stop, step)` for a non-zero step. */
  function Range(stop: nat, step: int): (r: seq<nat>)
    requires step != 0
    ensures step < 0 ==> r == []
    ensures forall i :: 0 <= i < |r| ==> r[i] < stop && r[i] % step == 0
    ensures forall i, j :: 0 <= i < j < |r| ==> r[i] < r[j]
  {
    if step < 0 then []
    else
      var count := (stop + step - 1) / step;
      var r := seq(count, i requires 0 <= i < count => MulNat(i, step));
      assert forall i :: 0 <= i < |r| ==> r[i] == i * step;
      forall i | 0 <= i < |r|
        ensures r[i] < stop && r[i] % step == 0
      {
        BelowCeilTimesStep(stop, step, i);
        MultipleMod(i, step);
      }
      forall i, j | 0 <= i < j < |r|
        ensures r[i] < r[j]
      {
        MulStrictMono(i, j, step);
      }
      r
  }

  /** A product of naturals as a natural. */
  function MulNat(a: nat, b: nat): (p: nat)
  {
    a * b
  }

  // Small facts of integer arithmetic used by the range lemmas.

  lemma MulLeftCancel(a: int, b: int, s: int)
    requires s > 0 && a * s < b * s
    ensures a < b
  {
    assert (b - a) * s > 0;
  }

  lemma MulMonoImpl(a: int, b: int, s: int)
    requires s >= 0
    ensures a >= b ==> a * s >= b * s
  {
    assert a * s - b * s == (a - b) * s;
  }

  lemma MultipleMod(q: int, b: int)
    requires b > 0
    ensures (q * b) % b == 0 && (q * b) / b == q
  {
    var m := q * b;
    var k := q - m / b;
    assert b * k == m % b;
    MulLeftCancel(k, 1, b);
    MulLeftCancel(-1, k, b);
  }

  lemma MulStrictMono(i: nat, j: nat, step: int)
    requires i < j && step > 0
    ensures i * step < j * step
  {
    assert j * step - i * step == (j - i) * step;
  }

  /** Index i below ceil(stop / step) places i * step below stop. */
  lemma BelowCeilTimesStep(stop: nat, step: int, i: nat)
    requires step > 0
    requires i < (stop + step - 1) / step
    ensures i * step < stop
  {
    var c := (stop + step - 1) / step;
    assert c * step <= stop + step - 1;
    MulMonoImpl(c, i + 1, step);
    assert (i + 1) * step <= c * step;
  }

  /** Conversely, a multiple below stop has its index below ceil(stop / step). */
  lemma CeilLower(stop: nat, step: int, i: nat)
    requires step > 0
    requires i * step < stop
    ensures i < (stop + step - 1) / step
  {
    var c := (stop + step - 1) / step;
    assert stop + step - 1 < (c + 1) * step;
    assert (i + 1) * step < (c + 1) * step;
    MulLeftCancel(i + 1, c + 1, step);
  }

  /** The i-th element of a range is i * step, and it exists iff i * step is
      below the stop. */
  lemma RangeAt(stop: nat, step: int, i: nat)
    requires step > 0
    ensures i < |Range(stop, step)| <==> i * step < stop
    ensures i < |Range(stop, step)| ==> Range(stop, step)[i] == i * step
  {
    if i * step < stop {
      CeilLower(stop, step, i);
    }
    if i < |Range(stop, step)| {
      BelowCeilTimesStep(stop, step, i);
    }
  }

  /** Python's range visits exactly the multiples of the step below the stop,
      in ascending order, one at each position. */
  lemma RangeMembers(stop: nat, step: int, v: int)
    requires step > 0
    ensures v in Range(stop, step) <==> 0 <= v < stop && v % step == 0
    ensures v in Range(stop, step) ==> Range(stop, step)[v / step] == v
  {
    var r := Range(stop, step);
    if 0 <= v < stop && v % step == 0 {
      var i := v / step;
      assert i * step == v;
      RangeAt(stop, step, i);
      assert r[i] == v;
    }
    if v in r {
      var i :| 0 <= i < |r| && r[i] == v;
      RangeAt(stop, step, i);
      MultipleMod(i, step);
    }
  }

  /** The range has ceil(stop / step) elements. */
  lemma RangeLength(stop: nat, step: int)
    requires step > 0
    ensures |Range(stop, step)| == (stop + step - 1) / step
  {
  }

  /** The number of cells of an h x w grid sampled with the given stride. */
  function GridSize(h: nat, w: nat, stride: int): nat
    requires stride != 0
  {
    |Range(h, stride)| * |Range(w, stride)|
  }

  /** For a positive stride that is ceil(h / stride) * ceil(w / stride). */
  lemma GridSizeIsCeilProduct(h: nat, w: nat, stride: int)
    requires stride > 0
    ensures GridSize(h, w, stride) == ((h + stride - 1) / stride) * ((w + stride - 1) / stride)
  {
    RangeLength(h, stride);
    RangeLength(w, stride);
  }

  /** Doubling the stride keeps every second sample of the original stride, so
      it visits a subset and never more samples. */
  lemma DoubledStrideDecimates(stop: nat, step: int)
    requires step > 0
    ensures |Range(stop, 2 * step)| <= |Range(stop, step)|
    ensures forall i :: 0 <= i < |Range(stop, 2 * step)| ==>
      2 * i < |Range(stop, step)| && Range(stop, 2 * step)[i] == Range(stop, step)[2 * i]
    ensures forall v :: v in Range(stop, 2 * step) ==> v in Range(stop, step)
  {
    var r1 := Range(stop, step);
    var r2 := Range(stop, 2 * step);
    forall i | 0 <= i < |r2|
      ensures 2 * i < |r1| && r2[i] == r1[2 * i]
    {
      RangeAt(stop, 2 * step, i);
      assert i * (2 * step) == (2 * i) * step;
      RangeAt(stop, step, 2 * i);
    }
    if |r2| > 0 {
      assert 2 * (|r2| - 1) < |r1|;
    }
  }

  // ---------------------------------------------------------------------
  // Colour lookup
  // ---------------------------------------------------------------------

  /** The source-image row (or column) a grid coordinate takes its colour from:
      `min(int(coord * (orig / grid)), orig - 1)`; `int` truncates, which is the
      floor on non-negative values. */
  function ColourIndex(coord: nat, grid: nat, orig: nat): (k: int)
    requires grid > 0 && orig > 0
    ensures 0 <= k < orig
  {
    var scaled := (coord as real * (orig as real / grid as real)).Floor;
    assert scaled >= 0 by {
      assert coord as real * (orig as real / grid as real) >= 0.0;
    }
    if scaled < orig - 1 then scaled else orig - 1
  }

  /** Before clamping, the index is the integer quotient coord * orig / grid,
      and for a coordinate inside the grid the clamp never applies. */
  lemma ColourIndexIsIntegerScaling(coord: nat, grid: nat, orig: nat)
    requires grid > 0 && orig > 0
    ensures ColourIndex(coord, grid, orig) == if coord * orig / grid < orig - 1 then coord * orig / grid else orig - 1
    ensures coord < grid ==> ColourIndex(coord, grid, orig) == coord * orig / grid
  {
    ScaleAsQuotient(coord, grid, orig);
    FloorOfQuotient(coord * orig, grid);
    if coord < grid {
      QuotientBelow(coord, grid, orig);
    }
  }

  /** Scaling by the ratio orig / grid is dividing the product by grid. */
  lemma ScaleAsQuotient(coord: nat, grid: nat, orig: nat)
    requires grid > 0
    ensures coord as real * (orig as real / grid as real) == (coord * orig) as real / grid as real
  {
    var g := grid as real;
    var t := orig as real / g;
    assert t * g == orig as real;
    assert (coord as real * t) * g == coord as real * (t * g);
    DivUnique(coord as real * t, (coord * orig) as real, g);
  }

  lemma DivUnique(a: real, b: real, g: real)
    requires g != 0.0 && a * g == b
    ensures a == b / g
  {
  }

  /** A coordinate inside the grid scales to an index inside the image. */
  lemma QuotientBelow(coord: nat, grid: nat, orig: nat)
    requires coord < grid && orig > 0
    ensures coord * orig / grid < orig
  {
    var q := coord * orig / grid;
    assert q * grid <= coord * orig;
    MulStrictMono(coord, grid, orig);
    assert q * grid < orig * grid;
    MulLeftCancel(q, orig, grid);
  }

  lemma FloorOfQuotient(a: nat, b: nat)
    requires b > 0
    ensures (a as real / b as real).Floor == a / b
  {
    var q := a / b;
    var rem := a % b;
    assert a == q * b + rem;
    assert a as real / b as real == q as real + rem as real / b as real;
    assert 0.0 <= rem as real / b as real < 1.0;
  }
}

/**
 * The three background/sky classifiers (`is_sky_point`, `is_black_bg_point`,
 * `is_white_bg_point`), stated over reals as the source computes them and
 * reduced to exact integer arithmetic on the 0..255 channels.
 */
module Heuristics {
  import opened Geometry

  const BlackThreshold: real := 30.0
  const WhiteThreshold: real := 230.0
  const WhiteStdBound: real := 15.0
  /** A channel is "dominant" when it exceeds another by this factor. */
  const SkyBlueFactor: real := 1.2
  /** Points above this height (y is up) may be sky. */
  const SkyMinHeight: real := 1.0

  function Sum(c: Rgb): int {
    c.r + c.g + c.b
  }

  function SumOfSquares(c: Rgb): int {
    c.r * c.r + c.g * c.g + c.b * c.b
  }

  /** `np.mean` of the three channels. */
  function Mean(c: Rgb): real {
    (c.r as real + c.g as real + c.b as real) / 3.0
  }

  /** Population variance of the three channels (the square of `np.std`). */
  function Variance(c: Rgb): real {
    var m := Mean(c);
    ((c.r as real - m) * (c.r as real - m)
     + (c.g as real - m) * (c.g as real - m)
     + (c.b as real - m) * (c.b as real - m)) / 3.0
  }

  /** `np.std(rgb) < bound`: the standard deviation is the non-negative square
      root of the variance, so for a positive bound it is below the bound exactly
      when the variance is below its square. */
  predicate StdBelow(c: Rgb, bound: real)
    requires bound > 0.0
  {
    Variance(c) < bound * bound
  }

  /** `is_sky_point`: high up, and more blue than red and than green. */
  predicate IsSky(p: Vec3, c: Rgb)
    ensures IsSky(p, c) ==> p.y > SkyMinHeight && c.b > c.r && c.b > c.g
  {
    && p.y > SkyMinHeight
    && c.b as real > SkyBlueFactor * c.r as real
    && c.b as real > SkyBlueFactor * c.g as real
  }

  /** `is_black_bg_point`: a dark channel is necessary, three dark channels
      are sufficient. */
  predicate IsBlackBg(c: Rgb)
    ensures IsBlackBg(c) ==> c.r < 30 || c.g < 30 || c.b < 30
    ensures c.r < 30 && c.g < 30 && c.b < 30 ==> IsBlackBg(c)
  {
    Mean(c) < BlackThreshold
  }

  /** `is_white_bg_point`: every channel of a white background is above 204,
      and every grey brighter than 230 is a white background. */
  predicate IsWhiteBg(c: Rgb)
    ensures IsWhiteBg(c) ==> c.r > 204 && c.g > 204 && c.b > 204
    ensures c.r == c.g == c.b > 230 ==> IsWhiteBg(c)
  {
    VarianceTimesNine(c);
    WhiteChannelsHigh(c);
    GreyVariance(c);
    Mean(c) > WhiteThreshold && StdBelow(c, WhiteStdBound)
  }

  /** A bright colour with a small spread has no dark channel: each channel
      differs from the mean by less than 26. */
  lemma WhiteChannelsHigh(c: Rgb)
    ensures Sum(c) > 690 && 3 * SumOfSquares(c) - Sum(c) * Sum(c) < 2025 ==> c.r > 204 && c.g > 204 && c.b > 204
  {
    var s := Sum(c);
    var dr, dg, db := 3 * c.r - s, 3 * c.g - s, 3 * c.b - s;
    assert dr * dr + dg * dg + db * db == 3 * (3 * SumOfSquares(c) - s * s);
    SquareNonNegative(dr);
    SquareNonNegative(dg);
    SquareNonNegative(db);
    if s > 690 && 3 * SumOfSquares(c) - s * s < 2025 {
      DeviationBound(dr);
      DeviationBound(dg);
      DeviationBound(db);
    }
  }

  lemma SquareNonNegative(d: int)
    ensures d * d >= 0
  {
  }

  /** A square below 6075 has its root above -78. */
  lemma DeviationBound(d: int)
    ensures d * d < 6075 ==> d > -78
  {
    if d <= -78 {
      assert (-d) * (-d) >= 78 * (-d);
      assert 78 * (-d) >= 78 * 78;
    }
  }

  /** A grey has no spread. */
  lemma GreyVariance(c: Rgb)
    ensures c.r == c.g == c.b ==> 3 * SumOfSquares(c) - Sum(c) * Sum(c) == 0
  {
  }

  /** Nine times the variance is an integer: 3 * sum of squares - (sum)^2. */
  lemma VarianceTimesNine(c: Rgb)
    ensures 9.0 * Variance(c) == (3 * SumOfSquares(c) - Sum(c) * Sum(c)) as real
  {
    var r, g, b := c.r as real, c.g as real, c.b as real;
    var s := r + g + b;
    var m := s / 3.0;
    calc {
      9.0 * Variance(c);
      3.0 * ((r - m) * (r - m) + (g - m) * (g - m) + (b - m) * (b - m));
      3.0 * (r * r + g * g + b * b) - 6.0 * m * s + 9.0 * m * m;
      { assert 3.0 * m == s; }
      3.0 * (r * r + g * g + b * b) - s * s;
    }
    assert (r * r + g * g + b * b) == SumOfSquares(c) as real;
    assert s * s == (Sum(c) * Sum(c)) as real;
  }

  lemma BlackBgIffSumBelow90(c: Rgb)
    ensures IsBlackBg(c) <==> Sum(c) < 90
  {
  }

  /** The white test in integer terms: mean above 230 is a sum above 690, and a
      standard deviation below 15 is 3 * sum of squares - (sum)^2 below 2025. */
  lemma WhiteBgIffIntegerTest(c: Rgb)
    ensures IsWhiteBg(c) <==> Sum(c) > 690 && 3 * SumOfSquares(c) - Sum(c) * Sum(c) < 2025
  {
    VarianceTimesNine(c);
  }

  /** The sky test in integer terms: b > 1.2 r is 5 b > 6 r. */
  lemma SkyIffIntegerTest(p: Vec3, c: Rgb)
    ensures IsSky(p, c) <==> p.y > 1.0 && 5 * c.b > 6 * c.r && 5 * c.b > 6 * c.g
  {
  }

  /** No colour is both a black and a white background. */
  lemma BackgroundsDisjoint(c: Rgb)
    ensures !(IsBlackBg(c) && IsWhiteBg(c))
  {
  }

  /** The reference cases: (5,5,5) is black; at height 2 the colour
      (10,10,200) is sky and (10,10,11) is not; a flat (240,240,240) is
      white while (255,255,200), bright but tinted, is not. */
  lemma HeuristicExamples()
    ensures IsBlackBg(Rgb(5, 5, 5))
    ensures IsSky(Vec3(0.0, 2.0, 0.0), Rgb(10, 10, 200))
    ensures !IsSky(Vec3(0.0, 2.0, 0.0), Rgb(10, 10, 11))
    ensures IsWhiteBg(Rgb(240, 240, 240))
    ensures !IsWhiteBg(Rgb(255, 255, 200))
  {
    WhiteBgIffIntegerTest(Rgb(240, 240, 240));
    WhiteBgIffIntegerTest(Rgb(255, 255, 200));
  }
}

/**
 * World-space samples, colours and the quantisation key used for
 * deduplication (`hash_point` in vggt_to_colmap.py).
 */
module Geometry {

  /** An 8-bit colour channel value. */
  type Byte = b: int | 0 <= b < 256

  /** One coordinate of a predicted world point, which may be NaN or infinite. */
  datatype Coord = Finite(value: real) | NonFinite

  /** A point with real coordinates. */
  datatype Vec3 = Vec3(x: real, y: real, z: real)

  /** A raw sample of the world-point grid, before the finiteness check. */
  datatype Sample3 = Sample3(x: Coord, y: Coord, z: Coord) {
    predicate IsFinite() {
      x.Finite? && y.Finite? && z.Finite?
    }

    function ToVec3(): (v: Vec3)
      requires IsFinite()
      ensures x == Finite(v.x) && y == Finite(v.y) && z == Finite(v.z)
    {
      Vec3(x.value, y.value, z.value)
    }
  }

  datatype Rgb = Rgb(r: Byte, g: Byte, b: Byte)

  /** The integer triple a point is deduplicated by. */
  datatype Key = Key(x: int, y: int, z: int)

  /** Quantisation scale: keys are in hundredths of a world unit. */
  const QuantScale: real := 100.0

  /** Rounds to the nearest integer, ties to the even neighbour (numpy `round`). */
  function RoundHalfEven(v: real): (r: int)
    ensures -0.5 <= v - r as real <= 0.5
    ensures (v - r as real == 0.5 || r as real - v == 0.5) ==> r % 2 == 0
  {
    var f := v.Floor;
    var frac := v - f as real;
    if frac < 0.5 then f
    else if frac > 0.5 then f + 1
    else if f % 2 == 0 then f
    else f + 1
  }

  /** The two properties of RoundHalfEven determine its value: no other integer
      is as close to v and, on a tie, even. */
  lemma RoundHalfEvenUnique(v: real, n: int)
    requires -0.5 <= v - n as real <= 0.5
    requires (v - n as real == 0.5 || n as real - v == 0.5) ==> n % 2 == 0
    ensures n == RoundHalfEven(v)
  {
    var r := RoundHalfEven(v);
    if n != r {
      assert false;
    }
  }

  /** The deduplication key of an accepted point: each coordinate scaled by 100
      and rounded. */
  function Quantize(p: Vec3): (k: Key)
    ensures -0.5 <= p.x * QuantScale - k.x as real <= 0.5
    ensures -0.5 <= p.y * QuantScale - k.y as real <= 0.5
    ensures -0.5 <= p.z * QuantScale - k.z as real <= 0.5
  {
    Key(RoundHalfEven(p.x * QuantScale), RoundHalfEven(p.y * QuantScale), RoundHalfEven(p.z * QuantScale))
  }

  /** Points whose scaled coordinates are more than one unit apart on some axis
      never share a key. */
  lemma QuantizeSeparates(p: Vec3, q: Vec3)
    requires p.x * QuantScale - q.x * QuantScale > 1.0
    ensures Quantize(p) != Quantize(q)
  {
  }

  // ---------------------------------------------------------------------
  // The key as the source actually computes it: Python's `hash` of the tuple.
  // ---------------------------------------------------------------------

  /** Modulus of CPython's numeric hash on 64-bit builds (2^61 - 1). */
  const HashModulus: int := 0x1FFF_FFFF_FFFF_FFFF

  /** CPython's hash of an integer: sign times (|n| mod 2^61-1), with -1
      (reserved for errors in C) replaced by -2. */
  function PyIntHash(n: int): (h: int)
    ensures -HashModulus < n < HashModulus ==> h == (if n == -1 then -2 else n)
    ensures h != -1
  {
    var m := if n >= 0 then n % HashModulus else -((-n) % HashModulus);
    if m == -1 then -2 else m
  }

  /** What `hash((a, b, c))` depends on: the three element hashes. CPython's tuple
      hash combines exactly these, so equal lanes give equal tuple hashes. The
      64-bit combine itself is not modelled: it can also give equal tuple hashes
      for different lanes. */
  datatype HashLanes = HashLanes(a: int, b: int, c: int)

  /** Keys whose coordinates CPython hashes to themselves (apart from -1). */
  predicate SmallKey(k: Key) {
    && -HashModulus < k.x < HashModulus
    && -HashModulus < k.y < HashModulus
    && -HashModulus < k.z < HashModulus
  }

  /** Two small key coordinates whose integer hashes agree: equal, or -1 and -2. */
  predicate SameLane(a: int, b: int) {
    a == b || (a == -1 && b == -2) || (a == -2 && b == -1)
  }

  /** `hash_point` as written: quantise, then hash each element of the triple.
      No lane is -1; on small keys each lane is the key coordinate itself,
      except that -1 becomes -2. */
  function HashPoint(p: Vec3): (h: HashLanes)
    ensures h.a != -1 && h.b != -1 && h.c != -1
    ensures SmallKey(Quantize(p)) ==>
      && (h.a == Quantize(p).x || (Quantize(p).x == -1 && h.a == -2))
      && (h.b == Quantize(p).y || (Quantize(p).y == -1 && h.b == -2))
      && (h.c == Quantize(p).z || (Quantize(p).z == -1 && h.c == -2))
  {
    var k := Quantize(p);
    HashLanes(PyIntHash(k.x), PyIntHash(k.y), PyIntHash(k.z))
  }

  /** On small keys, the element hashes of two points agree exactly when each
      pair of key coordinates is equal or is -1 and -2. The "if" direction
      carries over to the tuple hash; the "only if" direction does not, since
      the tuple hash folds the three lanes into one 64-bit value. */
  lemma HashPointCollisions(p: Vec3, q: Vec3)
    requires SmallKey(Quantize(p)) && SmallKey(Quantize(q))
    ensures HashPoint(p) == HashPoint(q) <==>
      && SameLane(Quantize(p).x, Quantize(q).x)
      && SameLane(Quantize(p).y, Quantize(q).y)
      && SameLane(Quantize(p).z, Quantize(q).z)
  {
  }

  /** The source's dictionary is keyed by the hash, so these two samples, one
      hundredth of a unit apart, are merged into one point even though their
      quantised triples differ. */
  lemma HashPointMergesDistinctKeys()
    ensures Quantize(Vec3(-0.01, 0.0, 0.0)) == Key(-1, 0, 0)
    ensures Quantize(Vec3(-0.02, 0.0, 0.0)) == Key(-2, 0, 0)
    ensures HashPoint(Vec3(-0.01, 0.0, 0.0)) == HashPoint(Vec3(-0.02, 0.0, 0.0))
  {
    RoundHalfEvenUnique(-0.01 * QuantScale, -1);
    RoundHalfEvenUnique(-0.02 * QuantScale, -2);
    RoundHalfEvenUnique(0.0 * QuantScale, 0);
  }
}

/**
 * Little-endian fixed-width integers as written by `struct.pack` with the `<`
 * prefix (`B`, `I`, `Q`), and the cursor-style readers that take them back.
 */
module LittleEndian {
  import opened Wrappers
  import opened Geometry

  function Pow256(n: nat): (p: nat)
    ensures p > 0
  {
    if n == 0 then 1 else 256 * Pow256(n - 1)
  }

  const U32Limit: nat := 0x1_0000_0000
  const U64Limit: nat := 0x1_0000_0000_0000_0000

  /** A 64-bit pattern, such as the IEEE-754 encoding of a double. */
  type Bits64 = n: nat | n < 0x1_0000_0000_0000_0000

  lemma Pow256Widths()
    ensures Pow256(1) == 256 && Pow256(4) == U32Limit && Pow256(8) == U64Limit
  {
  }

  /** The n-byte little-endian encoding of v: least significant byte first. */
  function Encode(v: nat, n: nat): (bs: seq<Byte>)
    requires v < Pow256(n)
    ensures |bs| == n
  {
    if n == 0 then []
    else
      assert v / 256 < Pow256(n - 1);
      [v % 256] + Encode(v / 256, n - 1)
  }

  /** The value of a little-endian byte string. */
  function Decode(bs: seq<Byte>): (v: nat)
    ensures v < Pow256(|bs|)
  {
    if |bs| == 0 then 0 else bs[0] + 256 * Decode(bs[1..])
  }

  lemma {:induction false} DecodeEncode(v: nat, n: nat)
    requires v < Pow256(n)
    ensures Decode(Encode(v, n)) == v
  {
    if n > 0 {
      DecodeEncode(v / 256, n - 1);
      assert Encode(v, n)[1..] == Encode(v / 256, n - 1);
    }
  }

  lemma {:induction false} EncodeDecode(bs: seq<Byte>)
    ensures Encode(Decode(bs), |bs|) == bs
  {
    if |bs| > 0 {
      EncodeDecode(bs[1..]);
      var v := Decode(bs);
      assert v % 256 == bs[0] && v / 256 == Decode(bs[1..]);
    }
  }

  /** Why `struct.pack` raises: the value does not fit its field. */
  datatype PackError = OutOfRange(value: int, width: nat)

  /** One field of a `struct.pack` format: a value and its width in bytes. */
  datatype Field = Field(value: int, width: nat)

  /** The `B` format. */
  function U8(v: int): Field { Field(v, 1) }
  /** The `I` format. */
  function U32(v: int): Field { Field(v, 4) }
  /** The `Q` format. */
  function U64(v: int): Field { Field(v, 8) }
  /** The `d` format, given the bit pattern of the double. */
  function F64(bits: Bits64): Field { Field(bits, 8) }

  predicate Fits(f: Field) {
    0 <= f.value < Pow256(f.width)
  }

  predicate AllFit(fs: seq<Field>) {
    forall i :: 0 <= i < |fs| ==> Fits(fs[i])
  }

  /** Packing one field: its little-endian bytes, or the error when the value
      is negative or too wide. */
  function PackField(f: Field): (r: Result<seq<Byte>, PackError>)
    ensures r.Success? <==> Fits(f)
    ensures r.Success? ==> |r.value| == f.width && Decode(r.value) == f.value
    ensures r.Failure? ==> r.error == OutOfRange(f.value, f.width)
  {
    if Fits(f) then
      DecodeEncode(f.value, f.width);
      Success(Encode(f.value, f.width))
    else Failure(OutOfRange(f.value, f.width))
  }

  function Widths(fs: seq<Field>): (ws: seq<nat>)
    ensures |ws| == |fs| && forall i :: 0 <= i < |fs| ==> ws[i] == fs[i].width
  {
    seq(|fs|, i requires 0 <= i < |fs| => fs[i].width)
  }

  /** The number of bytes a layout of field widths occupies. */
  function Size(ws: seq<nat>): nat {
    if |ws| == 0 then 0 else ws[0] + Size(ws[1..])
  }

  /** `struct.pack` of several fields in order. It fails exactly when some
      field does not fit, and then it reports the first such field. */
  function PackFields(fs: seq<Field>): (r: Result<seq<Byte>, PackError>)
    ensures r.Success? <==> AllFit(fs)
  {
    if |fs| == 0 then Success([])
    else
      var first :- PackField(fs[0]);
      var others :- PackFields(fs[1..]);
      Success(first + others)
  }

  /** Reads an n-byte little-endian value at the front of bs. */
  function Read(bs: seq<Byte>, n: nat): (r: Option<(nat, seq<Byte>)>)
    ensures r.Some? <==> |bs| >= n
    ensures r.Some? ==> r.value.0 < Pow256(n) && r.value.1 == bs[n..]
  {
    if |bs| < n then None else Some((Decode(bs[..n]), bs[n..]))
  }

  /** Reads one value per width, in order. */
  function ReadFields(bs: seq<Byte>, ws: seq<nat>): (r: Option<(seq<nat>, seq<Byte>)>)
    ensures r.Some? ==> |r.value.0| == |ws|
    ensures r.Some? ==> forall i :: 0 <= i < |ws| ==> r.value.0[i] < Pow256(ws[i])
  {
    if |ws| == 0 then Some(([], bs))
    else
      var (v, rest) :- Read(bs, ws[0]);
      var (vs, tail) :- ReadFields(rest, ws[1..]);
      Some(([v] + vs, tail))
  }

  /** Reads n raw bytes. */
  function Take(bs: seq<Byte>, n: nat): (r: Option<(seq<Byte>, seq<Byte>)>)
    ensures r.Some? <==> |bs| >= n
    ensures r.Some? ==> r.value.0 + r.value.1 == bs && |r.value.0| == n
  {
    if |bs| < n then None else Some((bs[..n], bs[n..]))
  }

  /** Packed fields take the sum of their widths. */
  lemma {:induction false} PackedSize(fs: seq<Field>)
    requires AllFit(fs)
    ensures |PackFields(fs).value| == Size(Widths(fs))
  {
    if |fs| > 0 {
      PackedSize(fs[1..]);
      assert Widths(fs)[1..] == Widths(fs[1..]);
    }
  }

  /** The error `struct.pack` raises is about the first field that does not fit. */
  lemma {:induction false} PackFieldsReportsFirstMisfit(fs: seq<Field>)
    requires !AllFit(fs)
    ensures exists i :: 0 <= i < |fs| && !Fits(fs[i]) && AllFit(fs[..i])
                        && PackFields(fs).error == OutOfRange(fs[i].value, fs[i].width)
  {
    if Fits(fs[0]) {
      PackFieldsReportsFirstMisfit(fs[1..]);
      var j :| 0 <= j < |fs| - 1 && !Fits(fs[1..][j]) && AllFit(fs[1..][..j])
               && PackFields(fs[1..]).error == OutOfRange(fs[1..][j].value, fs[1..][j].width);
      assert fs[..j + 1] == [fs[0]] + fs[1..][..j];
      assert !Fits(fs[j + 1]) && AllFit(fs[..j + 1]);
    } else {
      assert AllFit(fs[..0]);
    }
  }

  /** The values of fields that all fit. */
  function Values(fs: seq<Field>): (vs: seq<nat>)
    requires AllFit(fs)
    ensures |vs| == |fs| && forall i :: 0 <= i < |fs| ==> vs[i] == fs[i].value
  {
    seq(|fs|, i requires 0 <= i < |fs| => fs[i].value as nat)
  }

  /** Reading packed fields back with their widths yields their values and
      leaves whatever followed them. */
  lemma {:induction false} ReadPackedFields(fs: seq<Field>, rest: seq<Byte>)
    requires AllFit(fs)
    ensures ReadFields(PackFields(fs).value + rest, Widths(fs)) == Some((Values(fs), rest))
  {
    if |fs| > 0 {
      ReadPackedFields(fs[1..], rest);
      ReadPackedFieldsCons(fs, rest, Values(fs[1..]));
      ValuesTail(fs);
    } else {
      assert PackFields(fs).value + rest == rest;
      assert Values(fs) == [];
    }
  }

  lemma ReadPackedFieldsCons(fs: seq<Field>, rest: seq<Byte>, vs: seq<nat>)
    requires |fs| > 0 && AllFit(fs)
    requires ReadFields(PackFields(fs[1..]).value + rest, Widths(fs[1..])) == Some((vs, rest))
    ensures fs[0].value >= 0
    ensures ReadFields(PackFields(fs).value + rest, Widths(fs)) == Some(([fs[0].value as nat] + vs, rest))
  {
    var first := PackField(fs[0]).value;
    var others := PackFields(fs[1..]).value;
    PackFieldsCons(fs);
    WidthsTail(fs);
    AppendAssoc(first, others, rest);
    ReadFieldsStep(first, fs[0].value, others + rest, PackFields(fs).value + rest, Widths(fs), vs, rest);
  }

  lemma ValuesTail(fs: seq<Field>)
    requires |fs| > 0 && AllFit(fs)
    ensures Values(fs) == [fs[0].value as nat] + Values(fs[1..])
  {
  }

  lemma AppendAssoc<T>(a: seq<T>, b: seq<T>, c: seq<T>)
    ensures (a + b) + c == a + (b + c)
  {
  }

  lemma WidthsTail(fs: seq<Field>)
    requires |fs| > 0
    ensures Widths(fs)[0] == fs[0].width && Widths(fs)[1..] == Widths(fs[1..])
  {
  }

  lemma PackFieldsCons(fs: seq<Field>)
    requires |fs| > 0 && AllFit(fs)
    ensures PackFields(fs).value == PackField(fs[0]).value + PackFields(fs[1..]).value
    ensures |PackField(fs[0]).value| == fs[0].width && Decode(PackField(fs[0]).value) == fs[0].value
  {
  }

  lemma ReadFieldsStep(first: seq<Byte>, v: nat, tail: seq<Byte>, bs: seq<Byte>, ws: seq<nat>, vs: seq<nat>,
                       rest: seq<Byte>)
    requires |ws| > 0 && ws[0] == |first| && Decode(first) == v
    requires bs == first + tail
    requires ReadFields(tail, ws[1..]) == Some((vs, rest))
    ensures ReadFields(bs, ws) == Some(([v] + vs, rest))
  {
    ReadPacked(first, v, tail);
  }

  /** Reading back one packed value yields it and leaves what follows. */
  lemma ReadPacked(bs: seq<Byte>, v: nat, rest: seq<Byte>)
    requires Decode(bs) == v
    ensures Read(bs + rest, |bs|) == Some((v, rest))
  {
    assert (bs + rest)[..|bs|] == bs;
    assert (bs + rest)[|bs|..] == rest;
  }

  lemma ReadTaken(bs: seq<Byte>, rest: seq<Byte>)
    ensures Take(bs + rest, |bs|) == Some((bs, rest))
  {
    assert (bs + rest)[..|bs|] == bs;
    assert (bs + rest)[|bs|..] == rest;
  }
}

/**
 The hand-written mu-law codec of bench-rs/src/bin/io_harness.rs, after ITU-T G.711 section 3.2.

 A magnitude with the bias added lies in one of eight segments; segment `e` starts at 128 * 2^e
 and has sixteen cells of width 8 * 2^e. Decoding gives the middle of a cell.
 */
module Ulaw {

  type Byte = x: int | 0 <= x < 256
  type Pcm16 = x: int | -32768 <= x <= 32767
  type Exponent = x: int | 0 <= x <= 7
  type Mantissa = x: int | 0 <= x <= 15

  const BIAS: int := 0x84
  const CLIP: int := 32635

  /** `1 << e` for the shifts the codec makes. */
  function Pow2(e: nat): int
    requires e <= 15
  {
    match e
    case 0 => 1
    case 1 => 2
    case 2 => 4
    case 3 => 8
    case 4 => 16
    case 5 => 32
    case 6 => 64
    case 7 => 128
    case 8 => 256
    case 9 => 512
    case 10 => 1024
    case 11 => 2048
    case 12 => 4096
    case 13 => 8192
    case 14 => 16384
    case _ => 32768
  }

  // ---------------------------------------------------------------- cells

  /** The biased magnitude `x` lies in cell `m` of segment `e`. */
  predicate InCell(x: int, e: Exponent, m: Mantissa) {
    (16 + m) * (8 * Pow2(e)) <= x < (17 + m) * (8 * Pow2(e))
  }

  /** The middle of a cell. */
  function Middle(e: Exponent, m: Mantissa): int {
    (8 * (16 + m) + 4) * Pow2(e)
  }

  function Sign(b: Byte): bool {
    255 - b >= 128
  }

  function ExponentOf(b: Byte): Exponent {
    ((255 - b) / 16) % 8
  }

  function MantissaOf(b: Byte): Mantissa {
    (255 - b) % 16
  }

  /** The complemented byte with these three fields. */
  function Pack(sign: bool, e: Exponent, m: Mantissa): Byte {
    255 - ((if sign then 128 else 0) + 16 * e + m)
  }

  lemma {:induction false} PackUnpack(b: Byte, sign: bool, e: Exponent, m: Mantissa)
    ensures Pack(Sign(b), ExponentOf(b), MantissaOf(b)) == b
    ensures Sign(Pack(sign, e, m)) == sign && ExponentOf(Pack(sign, e, m)) == e && MantissaOf(Pack(sign, e, m)) == m
  {
    var c := 255 - Pack(sign, e, m);
    assert c / 16 == (if sign then 8 else 0) + e;
  }

  function Abs(x: int): nat {
    if x < 0 then -x else x
  }

  function Clip(x: int): int {
    if x > CLIP then CLIP else if x < -CLIP then -CLIP else x
  }

  /** The clipped, biased magnitude that `s` is encoded by. */
  function Biased(s: int): int {
    Abs(Clip(s)) + BIAS
  }

  /** Cells do not overlap. */
  lemma {:induction false} CellIsUnique(x: int, e: Exponent, m: Mantissa, f: Exponent, n: Mantissa)
    requires InCell(x, e, m) && InCell(x, f, n)
    ensures e == f && m == n
  {
    SegmentBounds(x, e, m);
    SegmentBounds(x, f, n);
  }

  lemma {:induction false} SegmentBounds(x: int, e: Exponent, m: Mantissa)
    requires InCell(x, e, m)
    ensures Pow2(e + 7) <= x < Pow2(e + 8)
  {
  }

  // ---------------------------------------------------------------- the codec

  function Decode(b: Byte): Pcm16 {
    var magnitude := (8 * MantissaOf(b) + 0x84) * Pow2(ExponentOf(b)) - 0x84;
    DecodeFits(b);
    if Sign(b) then -magnitude else magnitude
  }

  /** The decoded magnitude is a cell middle without the bias; it fits 16 bits and is never clipped. */
  lemma {:induction false} DecodeFits(b: Byte)
    ensures var magnitude := (8 * MantissaOf(b) + 0x84) * Pow2(ExponentOf(b)) - 0x84;
            magnitude == Middle(ExponentOf(b), MantissaOf(b)) - BIAS && 0 <= magnitude <= 32124
  {
  }

  /** The segment of a biased magnitude: the highest bit that is set, from 14 down to 7. */
  function Segment(x: int): Exponent {
    if x >= 16384 then 7 else if x >= 8192 then 6 else if x >= 4096 then 5 else if x >= 2048 then 4
    else if x >= 1024 then 3 else if x >= 512 then 2 else if x >= 256 then 1 else 0
  }

  function Encode(s: Pcm16): Byte {
    var x := Biased(s);
    Pack(s < 0, Segment(x), (x / Pow2(Segment(x) + 3)) % 16)
  }

  /** Dividing by the cell width finds the cell within a segment. */
  lemma {:induction false} DivisionFindsCell(x: int, width: int)
    requires width in {8, 16, 32, 64, 128, 256, 512, 1024} && 16 * width <= x < 32 * width
    ensures var m := (x / width) % 16; (16 + m) * width <= x < (17 + m) * width
  {
  }

  lemma {:induction false} SegmentIs(x: int)
    requires 128 <= x < 32768
    ensures var width := 8 * Pow2(Segment(x));
            && width in {8, 16, 32, 64, 128, 256, 512, 1024}
            && 16 * width <= x < 32 * width && Pow2((Segment(x) as int) + 3) == width
  {
  }

  /** Encoding finds the sign and the one cell of the clipped, biased magnitude. */
  lemma {:induction false} EncodeFindsCell(s: Pcm16)
    ensures Sign(Encode(s)) == (s < 0)
    ensures InCell(Biased(s), ExponentOf(Encode(s)), MantissaOf(Encode(s)))
  {
    var x := Biased(s);
    assert 128 <= x < 32768;
    hide Biased, Segment, Pow2, Pack, ExponentOf, MantissaOf, Sign;
    SegmentIs(x);
    DivisionFindsCell(x, 8 * Pow2(Segment(x)));
    PackUnpack(0, s < 0, Segment(x), (x / (8 * Pow2(Segment(x)))) % 16);
  }

  /** Louder samples get smaller bytes, and the sign is worth 128. */
  lemma {:induction false} EncodeIsOrdered(s: Pcm16, t: Pcm16)
    ensures 0 <= s <= t ==> 128 <= Encode(t) <= Encode(s)
    ensures -32768 < s < 0 ==> Encode(s) == Encode(-s) - 128
  {
    PackIs(s);
    PackIs(t);
    if 0 <= s <= t {
      assert Biased(s) <= Biased(t);
      hide Encode, Biased;
      CellOrder(Biased(s), ExponentOf(Encode(s)), MantissaOf(Encode(s)),
                Biased(t), ExponentOf(Encode(t)), MantissaOf(Encode(t)));
    }
    if -32768 < s < 0 {
      assert Biased(-s) == Biased(s);
      hide Encode, Biased;
      PackIs(-s);
      CellIsUnique(Biased(s), ExponentOf(Encode(s)), MantissaOf(Encode(s)),
                   ExponentOf(Encode(-s)), MantissaOf(Encode(-s)));
    }
  }

  /** The byte by its fields, which are the sign and the cell. */
  lemma {:induction false} PackIs(s: Pcm16)
    ensures var b := Encode(s);
            && b == 255 - ((if s < 0 then 128 else 0) + 16 * ExponentOf(b) + MantissaOf(b))
            && InCell(Biased(s), ExponentOf(b), MantissaOf(b))
  {
    EncodeFindsCell(s);
    hide Encode, Biased, InCell;
    PackUnpack(Encode(s), true, 0, 0);
  }

  lemma {:induction false} CellOrder(x: int, e: Exponent, m: Mantissa, y: int, f: Exponent, n: Mantissa)
    requires InCell(x, e, m) && InCell(y, f, n) && x <= y
    ensures 16 * e + m <= 16 * f + n
  {
    SegmentBounds(x, e, m);
    SegmentBounds(y, f, n);
    SegmentOrder(e, f);
    if e == f { assert m <= n; }
  }

  lemma {:induction false} EncodedBy(s: Pcm16, sign: bool, e: Exponent, m: Mantissa)
    requires sign == (s < 0) && InCell(Biased(s), e, m)
    ensures Encode(s) == Pack(sign, e, m)
  {
    EncodeFindsCell(s);
    hide *;
    CellIsUnique(Biased(s), e, m, ExponentOf(Encode(s)), MantissaOf(Encode(s)));
    PackUnpack(Encode(s), sign, e, m);
  }

  /** The loop of `ulaw_encode_sample`: walks the mask down to the highest set bit. */
  method HighestBit(sample: int) returns (exponent: Exponent)
    requires BIAS <= sample <= CLIP + BIAS
    ensures exponent == Segment(sample)
  {
    var e: int := 7;
    var mask := 0x4000;
    while e > 0 && (sample / mask) % 2 == 0
      invariant 0 <= e <= 7 && mask == Pow2(e + 7)
      invariant BIAS <= sample < 2 * mask
    {
      HalfOf(e);
      assert sample / mask == 0;
      e := e - 1;
      mask := mask / 2;
    }
    if e > 0 { assert sample >= mask; }
    exponent := e;
  }

  method UlawEncodeSample(s: Pcm16) returns (b: Byte)
    ensures b == Encode(s)
  {
    var sample: int := s;
    var sign := 0;
    if sample < 0 {
      sample := -sample;
      sign := 0x80;
    }
    if sample > CLIP {
      sample := CLIP;
    }
    sample := sample + BIAS;
    var exponent: int := HighestBit(sample);
    var mantissa := (sample / Pow2(exponent + 3)) % 16;
    b := 255 - (sign + exponent * 16 + mantissa);
  }

  lemma {:induction false} HalfOf(e: Exponent)
    requires e > 0
    ensures Pow2(e + 7) == 2 * Pow2(e + 6)
  {
  }

  // ---------------------------------------------------------------- the quantiser

  /** Encode, then decode. */
  function Quantize(s: Pcm16): Pcm16 {
    Decode(Encode(s))
  }

  /** The half-width of the cell that `s` falls into. */
  function HalfCell(s: Pcm16): int {
    4 * Pow2(ExponentOf(Encode(s)))
  }

  lemma {:induction false} QuantizeIsMiddle(s: Pcm16)
    ensures var b := Encode(s);
            Quantize(s) == if s < 0 then BIAS - Middle(ExponentOf(b), MantissaOf(b))
              else Middle(ExponentOf(b), MantissaOf(b)) - BIAS
    ensures var x, b := Biased(s), Encode(s);
            Middle(ExponentOf(b), MantissaOf(b)) - HalfCell(s) <= x < Middle(ExponentOf(b), MantissaOf(b)) + HalfCell(s)
    ensures 32 * HalfCell(s) <= Biased(s)
  {
    EncodeFindsCell(s);
    DecodeFits(Encode(s));
    hide Encode, Biased;
    MiddleOfCell(Biased(s), ExponentOf(Encode(s)), MantissaOf(Encode(s)));
  }

  lemma {:induction false} MiddleOfCell(x: int, e: Exponent, m: Mantissa)
    requires InCell(x, e, m)
    ensures Middle(e, m) - 4 * Pow2(e) <= x < Middle(e, m) + 4 * Pow2(e)
    ensures 32 * (4 * Pow2(e)) <= x
  {
    SegmentBounds(x, e, m);
  }

  /** Louder samples than 32635 are clipped, all to the loudest byte of their sign. */
  lemma {:induction false} ClippedToLoudest(s: Pcm16)
    ensures Abs(s) <= 32635 <==> Clip(s) == s
    ensures s >= 32635 ==> Encode(s) == 0x80 && Quantize(s) == 32124
    ensures s <= -32635 ==> Encode(s) == 0x00 && Quantize(s) == -32124
  {
    if Abs(s) >= 32635 {
      assert Biased(s) == 32767 && InCell(32767, 7, 15);
      EncodedBy(s, s < 0, 7, 15);
      QuantizeIsMiddle(s);
      PackUnpack(0, s < 0, 7, 15);
    }
  }

  /** The error is at most half a cell, which is at most a thirty-second of the biased magnitude. */
  lemma {:induction false} QuantizationError(s: Pcm16)
    ensures Abs(Quantize(s) - Clip(s)) <= HalfCell(s)
    ensures HalfCell(s) <= (Abs(Clip(s)) + 132) / 32
  {
    QuantizeIsMiddle(s);
  }

  lemma {:induction false} QuantizeOdd(s: Pcm16)
    requires s != -32768
    ensures Quantize(-s) == -Quantize(s)
  {
    hide *;
    if s != 0 {
      SameCell(s);
      QuantizeIsMiddle(s);
      QuantizeIsMiddle(-s);
    } else {
      QuantizeZero();
    }
  }

  lemma {:induction false} SameCell(s: Pcm16)
    requires s != -32768
    ensures ExponentOf(Encode(-s)) == ExponentOf(Encode(s)) && MantissaOf(Encode(-s)) == MantissaOf(Encode(s))
  {
    assert Biased(-s) == Biased(s);
    hide *;
    EncodeFindsCell(s);
    EncodedBy(-s, -s < 0, ExponentOf(Encode(s)), MantissaOf(Encode(s)));
    PackUnpack(0, -s < 0, ExponentOf(Encode(s)), MantissaOf(Encode(s)));
  }

  lemma {:induction false} QuantizeZero()
    ensures Encode(0) == 0xFF && Quantize(0) == 0
  {
    EncodedBy(0, false, 0, 0);
  }

  /** Cell middles grow with the magnitude. */
  lemma {:induction false} MiddleMonotone(x: int, e: Exponent, m: Mantissa, y: int, f: Exponent, n: Mantissa)
    requires InCell(x, e, m) && InCell(y, f, n) && x <= y
    ensures Middle(e, m) <= Middle(f, n)
  {
    SegmentBounds(x, e, m);
    SegmentBounds(y, f, n);
    SegmentOrder(e, f);
    if e == f {
      assert m <= n;
    } else {
      hide *;
      MiddleInSegment(e, m);
      MiddleInSegment(f, n);
    }
  }

  lemma {:induction false} SegmentOrder(e: Exponent, f: Exponent)
    ensures Pow2(e + 7) < Pow2(f + 8) ==> e <= f
    ensures e < f ==> Pow2(e + 8) <= Pow2(f + 7)
  {
  }

  lemma {:induction false} MiddleInSegment(e: Exponent, m: Mantissa)
    ensures Pow2(e + 7) <= Middle(e, m) < Pow2(e + 8)
  {
  }

  lemma {:induction false} QuantizeMonotone(s: Pcm16, t: Pcm16)
    requires s <= t
    ensures Quantize(s) <= Quantize(t)
  {
    QuantizeIsMiddle(s);
    QuantizeIsMiddle(t);
    EncodeFindsCell(s);
    EncodeFindsCell(t);
    DecodeFits(Encode(s));
    DecodeFits(Encode(t));
    var (a, b) := (Encode(s), Encode(t));
    if s >= 0 {
      MiddleMonotone(Biased(s), ExponentOf(a), MantissaOf(a), Biased(t), ExponentOf(b), MantissaOf(b));
    } else if t < 0 {
      MiddleMonotone(Biased(t), ExponentOf(b), MantissaOf(b), Biased(s), ExponentOf(a), MantissaOf(a));
    }
  }

  /** Encoding a decoded byte gives the byte back, but for the negative zero 0x7F. */
  lemma {:induction false} Reencode(b: Byte)
    ensures Encode(Decode(b)) == if b == 0x7F then 0xFF else b
  {
    var e, m := ExponentOf(b), MantissaOf(b);
    DecodeFits(b);
    PackUnpack(b, Sign(b), e, m);
    assert InCell(Middle(e, m), e, m);
    assert Biased(Decode(b)) == Middle(e, m);
    assert Decode(b) == 0 <==> Middle(e, m) == BIAS;
    EncodedBy(Decode(b), Decode(b) < 0, e, m);
    if Middle(e, m) == BIAS {
      assert e == 0 && m == 0;
    }
  }

  lemma {:induction false} QuantizeIdempotent(s: Pcm16)
    ensures Quantize(Quantize(s)) == Quantize(s)
  {
    NegativeZero();
    QuantizeZero();
    Reencode(Encode(s));
    hide Encode, Decode;
  }

  lemma {:induction false} NegativeZero()
    ensures Decode(0x7F) == 0
  {
  }

  // ---------------------------------------------------------------- buffers

  /** `i16::to_le_bytes`: two's complement, low byte first. */
  function ToLe(v: Pcm16): (Byte, Byte) {
    var u := if v < 0 then v + 65536 else v;
    (u % 256, u / 256)
  }

  function FromLe(lo: Byte, hi: Byte): Pcm16 {
    var u := 256 * hi + lo;
    if u >= 32768 then u - 65536 else u
  }

  lemma {:induction false} LeRoundTrip(v: Pcm16, lo: Byte, hi: Byte)
    ensures FromLe(ToLe(v).0, ToLe(v).1) == v
    ensures ToLe(FromLe(lo, hi)) == (lo, hi)
    ensures (FromLe(lo, hi) - (256 * hi + lo)) % 65536 == 0
  {
  }

  method UlawToPcm(buf: seq<Byte>) returns (out: seq<Byte>)
    ensures |out| == 2 * |buf|
    ensures forall i: nat :: i < |buf| ==> FromLe(out[2 * i], out[2 * i + 1]) == Decode(buf[i])
  {
    out := [];
    for i := 0 to |buf|
      invariant |out| == 2 * i
      invariant forall j: nat :: j < i ==> FromLe(out[2 * j], out[2 * j + 1]) == Decode(buf[j])
    {
      var le := ToLe(Decode(buf[i]));
      LeRoundTrip(Decode(buf[i]), 0, 0);
      out := out + [le.0, le.1];
    }
  }

  /** A trailing odd byte is ignored. */
  method PcmToUlaw(pcm: seq<Byte>) returns (out: seq<Byte>)
    ensures |out| == |pcm| / 2
    ensures forall i: nat :: i < |out| ==> out[i] == Encode(FromLe(pcm[2 * i], pcm[2 * i + 1]))
  {
    out := [];
    for i := 0 to |pcm| / 2
      invariant |out| == i
      invariant forall j: nat :: j < i ==> out[j] == Encode(FromLe(pcm[2 * j], pcm[2 * j + 1]))
    {
      var b := UlawEncodeSample(FromLe(pcm[2 * i], pcm[2 * i + 1]));
      out := out + [b];
    }
  }

  /** What the server sends back for one binary frame: the frame, with negative zero made positive. */
  method Echo(frame: seq<Byte>) returns (out: seq<Byte>)
    ensures |out| == |frame|
    ensures forall i :: 0 <= i < |frame| ==> out[i] == if frame[i] == 0x7F then 0xFF else frame[i]
  {
    var pcm := UlawToPcm(frame);
    out := PcmToUlaw(pcm);
    forall i: nat | i < |frame| ensures out[i] == if frame[i] == 0x7F then 0xFF else frame[i] { Reencode(frame[i]); }
  }

  /** A stored buffer is quantised sample by sample. */
  method Transcode(pcm: seq<Byte>) returns (out: seq<Byte>)
    ensures |out| == 2 * (|pcm| / 2)
    ensures forall i: nat :: i < |pcm| / 2 ==>
              FromLe(out[2 * i], out[2 * i + 1]) == Quantize(FromLe(pcm[2 * i], pcm[2 * i + 1]))
  {
    var bytes := PcmToUlaw(pcm);
    out := UlawToPcm(bytes);
  }

  /** A second pass over a stored buffer changes no byte. */
  method TranscodeTwice(pcm: seq<Byte>) returns (first: seq<Byte>, second: seq<Byte>)
    ensures |first| == 2 * (|pcm| / 2) && second == first
    ensures forall i: nat :: i < |pcm| / 2 ==>
              FromLe(first[2 * i], first[2 * i + 1]) == Quantize(FromLe(pcm[2 * i], pcm[2 * i + 1]))
  {
    hide *;
    first := Transcode(pcm);
    second := Transcode(first);
    forall i: nat | i < |pcm| / 2
      ensures second[2 * i] == first[2 * i] && second[2 * i + 1] == first[2 * i + 1]
    {
      QuantizeIdempotent(FromLe(pcm[2 * i], pcm[2 * i + 1]));
      LeRoundTrip(0, first[2 * i], first[2 * i + 1]);
      LeRoundTrip(0, second[2 * i], second[2 * i + 1]);
    }
    forall k | 0 <= k < |first| ensures second[k] == first[k] {
      assert k == 2 * (k / 2) || k == 2 * (k / 2) + 1;
      var i: nat := k / 2;
      assert second[2 * i] == first[2 * i] && second[2 * i + 1] == first[2 * i + 1];
    }
  }
}

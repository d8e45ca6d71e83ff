/**
 * The raw PCM file format shared by the capture and playback loops of
 * MainActivity: a headerless sequence of 16-bit signed samples, each written
 * by DataOutputStream.writeShort (two bytes, high byte first, two's
 * complement) and read back by DataInputStream.readShort.
 */
module Pcm {

  /** A Java `short`: one 16-bit signed PCM sample. */
  type Sample = x: int | -0x8000 <= x < 0x8000

  /** One byte of the file, as an unsigned value. */
  type Byte = x: int | 0 <= x < 0x100

  /** BufferElement2Rec: samples moved by one device read or write. */
  const BufferElements: nat := 1024

  /** BytesPerElement: bytes per sample in the file. */
  const BytesPerElement: nat := 2

  /** Bytes of one full buffer in the file. */
  const ChunkBytes: nat := BufferElements * BytesPerElement

  /** The 16-bit two's complement pattern of a sample, as an unsigned value. */
  function Unsigned(s: Sample): (u: int)
    ensures 0 <= u < 0x10000
    ensures u % 0x10000 == s % 0x10000
    ensures s < 0 <==> u >= 0x8000
  {
    if s < 0 then s + 0x10000 else s
  }

  /** writeShort: the high byte of the 16-bit pattern, then the low byte. */
  function EncodeSample(s: Sample): (b: seq<Byte>)
    ensures |b| == BytesPerElement
    ensures (b[0] as int) * 0x100 + b[1] as int == Unsigned(s)
    ensures s < 0 <==> b[0] >= 0x80
  {
    var u := Unsigned(s);
    [u / 0x100, u % 0x100]
  }

  /** readShort: `(short)((hi << 8) + lo)`, the cast reinterpreting bit 15 as the sign. */
  function DecodeSample(hi: Byte, lo: Byte): (s: Sample)
    ensures Unsigned(s) == (hi as int) * 0x100 + lo as int
    ensures s < 0 <==> hi >= 0x80
  {
    var u := (hi as int) * 0x100 + lo as int;
    if u < 0x8000 then u else u - 0x10000
  }

  lemma SampleRoundTrip(s: Sample)
    ensures DecodeSample(EncodeSample(s)[0], EncodeSample(s)[1]) == s
  {
  }

  lemma BytesRoundTrip(hi: Byte, lo: Byte)
    ensures EncodeSample(DecodeSample(hi, lo)) == [hi, lo]
  {
  }

  /** The file written by writeShort for each sample in order. */
  function EncodeSamples(xs: seq<Sample>): (bs: seq<Byte>)
    ensures |bs| == BytesPerElement * |xs|
  {
    if xs == [] then [] else EncodeSample(xs[0]) + EncodeSamples(xs[1..])
  }

  /**
   * The samples readShort returns until it hits the end of the file; a lone
   * trailing byte does not make a sample.
   */
  function DecodeSamples(bs: seq<Byte>): (xs: seq<Sample>)
    ensures |xs| == |bs| / BytesPerElement
  {
    if |bs| < BytesPerElement then []
    else [DecodeSample(bs[0], bs[1])] + DecodeSamples(bs[BytesPerElement..])
  }

  lemma {:induction false} EncodeSamplesAppend(xs: seq<Sample>, ys: seq<Sample>)
    ensures EncodeSamples(xs + ys) == EncodeSamples(xs) + EncodeSamples(ys)
  {
    if xs == [] {
      assert xs + ys == ys;
    } else {
      assert (xs + ys)[1..] == xs[1..] + ys;
      EncodeSamplesAppend(xs[1..], ys);
    }
  }

  /** Sample i of an encoded sequence occupies bytes 2i and 2i+1. */
  lemma {:induction false} EncodeSamplesAt(xs: seq<Sample>, i: nat)
    requires i < |xs|
    ensures EncodeSamples(xs)[2 * i] == EncodeSample(xs[i])[0]
    ensures EncodeSamples(xs)[2 * i + 1] == EncodeSample(xs[i])[1]
  {
    if i > 0 {
      EncodeSamplesAt(xs[1..], i - 1);
    }
  }

  /** Sample j of a decoded file comes from bytes 2j and 2j+1. */
  lemma {:induction false} DecodeSamplesAt(bs: seq<Byte>, j: nat)
    requires j < |bs| / BytesPerElement
    ensures DecodeSamples(bs)[j] == DecodeSample(bs[2 * j], bs[2 * j + 1])
  {
    if j > 0 {
      DecodeSamplesAt(bs[BytesPerElement..], j - 1);
    }
  }

  /** A sequence that agrees sample by sample with the pairs of `bs` is its decoding. */
  lemma DecodedFromPairs(bs: seq<Byte>, xs: seq<Sample>)
    requires |xs| == |bs| / BytesPerElement
    requires forall m :: 0 <= m < |xs| ==> xs[m] == DecodeSample(bs[2 * m], bs[2 * m + 1])
    ensures xs == DecodeSamples(bs)
  {
    forall m | 0 <= m < |xs|
      ensures xs[m] == DecodeSamples(bs)[m]
    {
      DecodeSamplesAt(bs, m);
    }
  }

  lemma {:induction false} DecodeSamplesAppend(a: seq<Byte>, b: seq<Byte>)
    requires |a| % BytesPerElement == 0
    ensures DecodeSamples(a + b) == DecodeSamples(a) + DecodeSamples(b)
  {
    if a == [] {
      assert a + b == b;
    } else {
      assert |a| >= BytesPerElement;
      assert |a[BytesPerElement..]| % BytesPerElement == 0;
      assert (a + b)[BytesPerElement..] == a[BytesPerElement..] + b;
      assert (a + b)[0] == a[0] && (a + b)[1] == a[1];
      DecodeSamplesAppend(a[BytesPerElement..], b);
    }
  }

  /** Reading back what writeShort wrote gives the same samples in the same order. */
  lemma {:induction false} DecodeEncode(xs: seq<Sample>)
    ensures DecodeSamples(EncodeSamples(xs)) == xs
  {
    if xs != [] {
      var bs := EncodeSamples(xs);
      assert bs[..BytesPerElement] == EncodeSample(xs[0]);
      assert bs[BytesPerElement..] == EncodeSamples(xs[1..]);
      SampleRoundTrip(xs[0]);
      DecodeEncode(xs[1..]);
    }
  }

  /** Every even-length file is the encoding of the samples read from it. */
  lemma {:induction false} EncodeDecode(bs: seq<Byte>)
    requires |bs| % BytesPerElement == 0
    ensures EncodeSamples(DecodeSamples(bs)) == bs
  {
    if bs != [] {
      BytesRoundTrip(bs[0], bs[1]);
      EncodeDecode(bs[BytesPerElement..]);
      assert bs == bs[..BytesPerElement] + bs[BytesPerElement..];
    }
  }

  /** The five-sample scenario: 1, -1, 32767, -32768, 0 as ten big-endian bytes and back. */
  lemma ExtremesScenario()
    ensures EncodeSamples([1, -1, 32767, -32768, 0])
         == [0x00, 0x01, 0xFF, 0xFF, 0x7F, 0xFF, 0x80, 0x00, 0x00, 0x00]
    ensures DecodeSamples([0x00, 0x01, 0xFF, 0xFF, 0x7F, 0xFF, 0x80, 0x00, 0x00, 0x00])
         == [1, -1, 32767, -32768, 0]
  {
    var xs: seq<Sample> := [1, -1, 32767, -32768, 0];
    assert EncodeSamples(xs[4..]) == [0x00, 0x00];
    assert EncodeSamples(xs[3..]) == [0x80, 0x00, 0x00, 0x00];
    assert EncodeSamples(xs[2..]) == [0x7F, 0xFF, 0x80, 0x00, 0x00, 0x00];
    assert EncodeSamples(xs[1..]) == [0xFF, 0xFF, 0x7F, 0xFF, 0x80, 0x00, 0x00, 0x00];
    DecodeEncode(xs);
  }
}

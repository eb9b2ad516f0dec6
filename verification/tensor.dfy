/** The canvas-to-tensor step of the sketchpad classifier: a 28x28 RGBA byte
    buffer, four bytes per pixel in row-major order, is flattened into the
    784 greyscale intensities of a [1,1,28,28] NCHW tensor. */
module Tensor {

  /** One channel byte of the pixel buffer (a clamped 8-bit value). */
  type Byte = x: int | 0 <= x <= 255

  /** Width and height of the downscaled image. */
  const Side: nat := 28

  /** Bytes per pixel: red, green, blue, alpha. */
  const Channels: nat := 4

  /** Entries in the tensor: batch 1, channel 1, 28 rows, 28 columns. */
  const TensorLen: nat := 1 * 1 * Side * Side

  /** Bytes in the RGBA buffer handed to the flattening loop. */
  const BufferLen: nat := TensorLen * Channels

  /** Row-major position of column x in row y: the tensor index [0,0,y,x]. */
  function Offset(y: nat, x: nat): nat {
    y * Side + x
  }

  /** Greyscale intensity of one pixel: the mean of its colour channels,
      scaled so that black is 0 and white is 1. */
  function Gray(r: Byte, g: Byte, b: Byte): (v: real)
    ensures 0.0 <= v <= 1.0
    ensures v == 0.0 <==> r == 0 && g == 0 && b == 0
    ensures v == 1.0 <==> r == 255 && g == 255 && b == 255
  {
    ((r as int + g as int + b as int) as real / 3.0) / 255.0
  }

  /** Intensity of the k-th pixel in row-major order, read from the bytes
      starting at offset 4*k; the alpha byte 4*k+3 is not consulted. */
  function PixelValue(buf: seq<Byte>, k: nat): real
    requires |buf| == BufferLen && k < TensorLen
  {
    Gray(buf[Channels * k], buf[Channels * k + 1], buf[Channels * k + 2])
  }

  /** The tensor as a whole: entry k is the intensity of pixel k. */
  function Encode(buf: seq<Byte>): (t: seq<real>)
    requires |buf| == BufferLen
    ensures |t| == TensorLen
  {
    seq(TensorLen, k requires 0 <= k < TensorLen => PixelValue(buf, k))
  }

  /** The two nested loops over rows and columns, writing through a running
      pointer into a zero-initialised array of 784 entries. */
  method PreprocessCanvas(imgData: seq<Byte>) returns (data: seq<real>)
    requires |imgData| == BufferLen
    ensures |data| == TensorLen
    ensures forall y, x :: 0 <= y < Side && 0 <= x < Side ==>
      data[Offset(y, x)] == Gray(imgData[Offset(y, x) * Channels],
                                 imgData[Offset(y, x) * Channels + 1],
                                 imgData[Offset(y, x) * Channels + 2])
    ensures data == Encode(imgData)
  {
    data := seq(TensorLen, _ => 0.0);
    var ptr := 0;
    var y := 0;
    while y < Side
      invariant 0 <= y <= Side
      invariant ptr == y * Side
      invariant |data| == TensorLen
      invariant forall k :: 0 <= k < ptr ==> data[k] == PixelValue(imgData, k)
    {
      var x := 0;
      while x < Side
        invariant 0 <= x <= Side
        invariant ptr == y * Side + x
        invariant |data| == TensorLen
        invariant forall k :: 0 <= k < ptr ==> data[k] == PixelValue(imgData, k)
      {
        var i := (y * Side + x) * Channels;
        var r, g, b := imgData[i], imgData[i + 1], imgData[i + 2];
        var gray := (r as int + g as int + b as int) as real / 3.0;
        var norm := gray / 255.0;
        data := data[ptr := norm];
        ptr := ptr + 1;
        x := x + 1;
      }
      y := y + 1;
    }
  }

  /** Every tensor entry lies in [0, 1]. */
  lemma EncodeInUnitRange(buf: seq<Byte>)
    requires |buf| == BufferLen
    ensures forall k :: 0 <= k < TensorLen ==> 0.0 <= Encode(buf)[k] <= 1.0
  {
  }

  /** Bytes 4*k+3 are alpha bytes; all others are colour bytes. */
  predicate IsAlphaOffset(i: int) {
    i % Channels == Channels - 1
  }

  /** Two buffers that agree on every colour byte give the same tensor,
      whatever their alpha bytes hold. */
  lemma AlphaIgnored(a: seq<Byte>, b: seq<Byte>)
    requires |a| == BufferLen && |b| == BufferLen
    requires forall i :: 0 <= i < BufferLen && !IsAlphaOffset(i) ==> a[i] == b[i]
    ensures Encode(a) == Encode(b)
  {
    forall k | 0 <= k < TensorLen
      ensures Encode(a)[k] == Encode(b)[k]
    {
      assert !IsAlphaOffset(Channels * k);
      assert !IsAlphaOffset(Channels * k + 1);
      assert !IsAlphaOffset(Channels * k + 2);
    }
  }

  /** Changing the bytes of one pixel changes only that pixel's entry. */
  lemma PixelLocality(a: seq<Byte>, b: seq<Byte>, p: nat)
    requires |a| == BufferLen && |b| == BufferLen && p < TensorLen
    requires forall i :: 0 <= i < BufferLen && i / Channels != p ==> a[i] == b[i]
    ensures forall k :: 0 <= k < TensorLen && k != p ==> Encode(a)[k] == Encode(b)[k]
  {
    forall k | 0 <= k < TensorLen && k != p
      ensures Encode(a)[k] == Encode(b)[k]
    {
      assert (Channels * k) / Channels == k;
      assert (Channels * k + 1) / Channels == k;
      assert (Channels * k + 2) / Channels == k;
    }
  }

  /** Every colour byte of the buffer equals c. */
  predicate ColourBytesAre(buf: seq<Byte>, c: Byte) {
    forall i :: 0 <= i < |buf| && !IsAlphaOffset(i) ==> buf[i] == c
  }

  /** A black buffer (the canvas as initialised and after clearing) encodes
      to the all-zero tensor, and it is the only kind that does. */
  lemma BlackIffZeroTensor(buf: seq<Byte>)
    requires |buf| == BufferLen
    ensures ColourBytesAre(buf, 0) <==> Encode(buf) == seq(TensorLen, _ => 0.0)
  {
    var zeros := seq(TensorLen, _ => 0.0);
    if ColourBytesAre(buf, 0) {
      forall k | 0 <= k < TensorLen ensures Encode(buf)[k] == 0.0 {
        assert !IsAlphaOffset(Channels * k) && !IsAlphaOffset(Channels * k + 1)
          && !IsAlphaOffset(Channels * k + 2);
      }
    }
    if Encode(buf) == zeros {
      forall i | 0 <= i < |buf| && !IsAlphaOffset(i) ensures buf[i] == 0 {
        var k := i / Channels;
        assert Encode(buf)[k] == 0.0;
      }
    }
  }

  /** A white buffer encodes to the all-one tensor, and only it does. */
  lemma WhiteIffOneTensor(buf: seq<Byte>)
    requires |buf| == BufferLen
    ensures ColourBytesAre(buf, 255) <==> Encode(buf) == seq(TensorLen, _ => 1.0)
  {
    var ones := seq(TensorLen, _ => 1.0);
    if ColourBytesAre(buf, 255) {
      forall k | 0 <= k < TensorLen ensures Encode(buf)[k] == 1.0 {
        assert !IsAlphaOffset(Channels * k) && !IsAlphaOffset(Channels * k + 1)
          && !IsAlphaOffset(Channels * k + 2);
      }
    }
    if Encode(buf) == ones {
      forall i | 0 <= i < |buf| && !IsAlphaOffset(i) ensures buf[i] == 255 {
        var k := i / Channels;
        assert Encode(buf)[k] == 1.0;
      }
    }
  }
}

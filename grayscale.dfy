/** The grayscale reducer: an RGBA byte buffer becomes one intensity per pixel (getGrayScaleData). */
module Grayscale {

  /** One channel byte of the canvas pixel buffer. */
  type Byte = b: int | 0 <= b < 256

  /** The intensity of one pixel: the mean of its red, green and blue bytes. */
  function Luminance(r: Byte, g: Byte, b: Byte): (v: real)
    ensures 0.0 <= v <= 255.0
    ensures (r == g == b) ==> v == r as real
  {
    (r + g + b) as real / 3.0
  }

  /**
   * The intensity grid of a buffer of 4-byte RGBA pixels, pixel by pixel; the alpha
   * byte of each pixel plays no part.
   */
  function GrayScale(data: seq<Byte>): (gray: seq<real>)
    requires |data| % 4 == 0
    ensures |gray| == |data| / 4
    ensures forall k :: 0 <= k < |gray| ==>
              gray[k] == Luminance(data[4 * k], data[4 * k + 1], data[4 * k + 2])
    decreases |data|
  {
    if data == [] then []
    else [Luminance(data[0], data[1], data[2])] + GrayScale(data[4..])
  }

  /** getGrayScaleData: walks the buffer four bytes at a time and pushes each pixel's mean. */
  method GetGrayScaleData(data: seq<Byte>) returns (grayData: seq<real>)
    requires |data| % 4 == 0
    ensures grayData == GrayScale(data)
  {
    grayData := [];
    var i := 0;
    while i < |data|
      invariant 0 <= i <= |data| && i % 4 == 0
      invariant |grayData| == i / 4
      invariant forall k :: 0 <= k < i / 4 ==>
                  grayData[k] == Luminance(data[4 * k], data[4 * k + 1], data[4 * k + 2])
    {
      var gray := (data[i] as int + data[i + 1] + data[i + 2]) as real / 3.0;
      grayData := grayData + [gray];
      i := i + 4;
    }
  }

  /** Two buffers that agree on every red, green and blue byte give the same grid, whatever their alpha bytes. */
  lemma AlphaIgnored(a: seq<Byte>, b: seq<Byte>)
    requires |a| == |b| && |a| % 4 == 0
    requires forall k :: 0 <= k < |a| / 4 ==>
               a[4 * k] == b[4 * k] && a[4 * k + 1] == b[4 * k + 1] && a[4 * k + 2] == b[4 * k + 2]
    ensures GrayScale(a) == GrayScale(b)
  {
  }

  /** Every pixel of the buffer carries the same red, green and blue bytes. */
  predicate UniformColour(data: seq<Byte>, r: Byte, g: Byte, b: Byte) {
    forall k :: 0 <= k < |data| / 4 ==>
      data[4 * k] == r && data[4 * k + 1] == g && data[4 * k + 2] == b
  }

  /** A buffer of one colour gives a grid whose every cell is that colour's intensity. */
  lemma UniformColourGrid(data: seq<Byte>, r: Byte, g: Byte, b: Byte)
    requires |data| % 4 == 0 && UniformColour(data, r, g, b)
    ensures forall k :: 0 <= k < |GrayScale(data)| ==> GrayScale(data)[k] == Luminance(r, g, b)
  {
  }

  /** An all-white buffer (255 in every channel) gives 255.0 in every cell. */
  lemma WhiteBufferIsWhite(data: seq<Byte>)
    requires |data| % 4 == 0 && forall i :: 0 <= i < |data| ==> data[i] == 255
    ensures forall k :: 0 <= k < |GrayScale(data)| ==> GrayScale(data)[k] == 255.0
  {
  }
}
